/**
 * The few JavaScript string behaviours the program relies on: the white-space
 * class shared by `String.prototype.trim`, `\s`/`\S` and `parseInt`; `trim`
 * itself; and `String(n)` for an integer `n`, which is also how an integer
 * becomes an object key or a template-literal fragment.
 */
module JsString {

  /** WhiteSpace or LineTerminator in the ECMAScript sense. */
  predicate IsWhiteSpace(c: char) {
    c == '\t' || c == '\n' || c == '\U{000B}' || c == '\U{000C}' || c == '\r' || c == ' '
    || c == '\U{00A0}' || c == '\U{1680}' || ('\U{2000}' <= c <= '\U{200A}')
    || c == '\U{2028}' || c == '\U{2029}' || c == '\U{202F}' || c == '\U{205F}'
    || c == '\U{3000}' || c == '\U{FEFF}'
  }

  predicate AllWhiteSpace(s: string) {
    forall i | 0 <= i < |s| :: IsWhiteSpace(s[i])
  }

  predicate NoWhiteSpace(s: string) {
    forall i | 0 <= i < |s| :: !IsWhiteSpace(s[i])
  }

  /** `s.trimStart()` */
  function TrimStart(s: string): (r: string)
    ensures |r| <= |s|
    ensures AllWhiteSpace(s[..|s| - |r|])
    ensures r == [] || !IsWhiteSpace(r[0])
  {
    if s != [] && IsWhiteSpace(s[0]) then TrimStart(s[1..]) else s
  }

  /** `s.trimEnd()` */
  function TrimEnd(s: string): (r: string)
    ensures |r| <= |s|
    ensures AllWhiteSpace(s[|r|..])
    ensures r == [] || !IsWhiteSpace(r[|r| - 1])
  {
    if s != [] && IsWhiteSpace(s[|s| - 1]) then TrimEnd(s[..|s| - 1]) else s
  }

  /** `trimStart` removes a prefix: what it returns is a suffix of its input. */
  lemma {:induction false} TrimStartSuffix(s: string)
    ensures TrimStart(s) == s[|s| - |TrimStart(s)|..]
  {
    if s != [] && IsWhiteSpace(s[0]) {
      TrimStartSuffix(s[1..]);
    }
  }

  /** `trimEnd` removes a suffix: what it returns is a prefix of its input. */
  lemma {:induction false} TrimEndPrefix(s: string)
    ensures TrimEnd(s) == s[..|TrimEnd(s)|]
  {
    if s != [] && IsWhiteSpace(s[|s| - 1]) {
      TrimEndPrefix(s[..|s| - 1]);
    }
  }

  /** `s.trim()`: the longest infix with no white space at either end. */
  function Trim(s: string): (r: string)
    ensures |r| <= |s|
    ensures r == [] || (!IsWhiteSpace(r[0]) && !IsWhiteSpace(r[|r| - 1]))
  {
    TrimStartSuffix(TrimEnd(s));
    TrimStart(TrimEnd(s))
  }

  /** What `trim` removes is white space, from both ends and nowhere else. */
  lemma TrimInfix(s: string)
    ensures exists i, j :: (0 <= i <= j <= |s| && Trim(s) == s[i..j]
                           && AllWhiteSpace(s[..i]) && AllWhiteSpace(s[j..]))
  {
    var t := TrimEnd(s);
    var r := TrimStart(t);
    var i, j := |t| - |r|, |t|;
    assert r == s[i..j] by {
      TrimEndPrefix(s);
      TrimStartSuffix(t);
      assert s[i..j] == s[..j][i..];
    }
    assert AllWhiteSpace(s[..i]) by {
      TrimEndPrefix(s);
      assert s[..i] == t[..i];
    }
    assert AllWhiteSpace(s[j..]);
  }

  /** Trimming leaves nothing exactly when every character is white space. */
  lemma {:induction false} TrimEmptyIff(s: string)
    ensures Trim(s) == [] <==> AllWhiteSpace(s)
  {
    var t := TrimEnd(s);
    TrimEndPrefix(s);
    if AllWhiteSpace(s) {
      TrimEndAllWhiteSpace(s);
    } else {
      var k :| 0 <= k < |s| && !IsWhiteSpace(s[k]);
      assert forall m | |t| <= m < |s| :: s[|t|..][m - |t|] == s[m];
      assert k < |t| && t[k] == s[k];
      assert t[..|t|] == t;
    }
  }

  lemma {:induction false} TrimEndAllWhiteSpace(s: string)
    requires AllWhiteSpace(s)
    ensures TrimEnd(s) == [] && TrimStart(TrimEnd(s)) == []
  {
    if s != [] {
      TrimEndAllWhiteSpace(s[..|s| - 1]);
    }
  }

  function DigitChar(d: nat): (c: char)
    requires d < 10
    ensures '0' <= c <= '9'
  {
    "0123456789"[d]
  }

  /** Decimal digits of a natural number, most significant first, no leading zero. */
  function NatToString(n: nat): (r: string)
    ensures r != []
    ensures forall i | 0 <= i < |r| :: '0' <= r[i] <= '9'
    ensures |r| > 1 ==> r[0] != '0'
  {
    if n < 10 then [DigitChar(n)] else NatToString(n / 10) + [DigitChar(n % 10)]
  }

  /** `String(i)` for an integer `i` (below 10^21 in magnitude, see README). */
  function IntToString(i: int): (r: string)
    ensures r != [] && (r[0] == '-' <==> i < 0)
    ensures forall k | 1 <= k < |r| :: '0' <= r[k] <= '9'
  {
    if i < 0 then "-" + NatToString(-i) else NatToString(i)
  }

  /** The value of a string of decimal digits. */
  function DecimalValue(s: string): nat
    requires forall i | 0 <= i < |s| :: '0' <= s[i] <= '9'
  {
    if s == [] then 0 else 10 * DecimalValue(s[..|s| - 1]) + (s[|s| - 1] as int - '0' as int)
  }

  lemma {:induction false} DecimalValueOfNatToString(n: nat)
    ensures DecimalValue(NatToString(n)) == n
  {
    if n >= 10 {
      var r := NatToString(n);
      DecimalValueOfNatToString(n / 10);
      assert r[..|r| - 1] == NatToString(n / 10);
    }
  }

  /** `String` is one-to-one on integers. */
  lemma IntToStringInjective(a: int, b: int)
    requires IntToString(a) == IntToString(b)
    ensures a == b
  {
    var x := IntToString(a);
    assert a < 0 <==> x[0] == '-';
    assert b < 0 <==> x[0] == '-';
    if a < 0 {
      DigitsAfterMinus(a);
      DigitsAfterMinus(b);
      NatToStringInjective(-a, -b);
    } else {
      NatToStringInjective(a, b);
    }
  }

  lemma DigitsAfterMinus(n: int)
    requires n < 0
    ensures IntToString(n)[1..] == NatToString(-n)
  {
    assert IntToString(n) == "-" + NatToString(-n);
  }

  lemma NatToStringInjective(a: nat, b: nat)
    requires NatToString(a) == NatToString(b)
    ensures a == b
  {
    DecimalValueOfNatToString(a);
    DecimalValueOfNatToString(b);
  }

  /** The template literal `${a}-${b}` used as a composite map key. */
  function PairKey(a: int, b: int): string {
    IntToString(a) + "-" + IntToString(b)
  }

  /** The index of the first '-' at or after `i`, or `|s|` if there is none. */
  function DashFrom(s: string, i: nat): (j: nat)
    requires i <= |s|
    ensures i <= j <= |s|
    decreases |s| - i
  {
    if i == |s| || s[i] == '-' then i else DashFrom(s, i + 1)
  }

  lemma {:induction false} DashFromPrefix(x: string, tail: string, i: nat)
    requires i <= |x|
    requires forall k | i <= k < |x| :: x[k] != '-'
    ensures DashFrom(x + "-" + tail, i) == |x|
    decreases |x| - i
  {
    var s := x + "-" + tail;
    if i < |x| {
      assert s[i] == x[i];
      DashFromPrefix(x, tail, i + 1);
    }
  }

  /** Distinct pairs give distinct keys, so the string key is as good as a pair. */
  lemma PairKeyInjective(a: int, b: int, c: int, d: int)
    ensures PairKey(a, b) == PairKey(c, d) <==> a == c && b == d
  {
    if PairKey(a, b) == PairKey(c, d) {
      var x, y := IntToString(a), IntToString(c);
      var k := PairKey(a, b);
      DashFromPrefix(x, IntToString(b), 1);
      DashFromPrefix(y, IntToString(d), 1);
      assert |x| == DashFrom(k, 1) == |y|;
      assert x == k[..|x|] == y;
      IntToStringInjective(a, c);
      assert IntToString(b) == k[|x| + 1..] == IntToString(d);
      IntToStringInjective(b, d);
    }
  }
}
