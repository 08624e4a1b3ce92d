/**
 * The global `parseInt(string)` called without a radix, as section 19.2.5 of
 * ECMA-262 defines it: skip leading white space, take an optional sign, read
 * a `0x`/`0X` prefix as a switch to base 16, then the longest run of digits
 * of the base. No digit at all gives NaN, here `None`.
 */
module JsParseInt {
  import opened Wrappers
  import opened JsString

  predicate IsDecimalDigit(c: char) {
    '0' <= c <= '9'
  }

  predicate IsRadixDigit(c: char, radix: nat) {
    if radix == 16 then IsDecimalDigit(c) || ('a' <= c <= 'f') || ('A' <= c <= 'F')
    else IsDecimalDigit(c)
  }

  function DigitValue(c: char): (d: nat)
    requires IsRadixDigit(c, 16)
    ensures d < 16
    ensures IsDecimalDigit(c) ==> d < 10
  {
    if IsDecimalDigit(c) then c as int - '0' as int
    else if 'a' <= c <= 'f' then c as int - 'a' as int + 10
    else c as int - 'A' as int + 10
  }

  /** The longest prefix of `s` made of digits of the base. */
  function LeadingDigits(s: string, radix: nat): (r: string)
    ensures |r| <= |s| && r == s[..|r|]
    ensures forall i | 0 <= i < |r| :: IsRadixDigit(r[i], radix)
    ensures |r| == |s| || !IsRadixDigit(s[|r|], radix)
  {
    if s == [] || !IsRadixDigit(s[0], radix) then []
    else
      var rest := LeadingDigits(s[1..], radix);
      assert [s[0]] + rest == s[..|rest| + 1];
      [s[0]] + rest
  }

  /** The value of a run of digits read in the given base (10 or 16). */
  function DigitsValue(s: string, radix: nat): nat
    requires radix == 10 || radix == 16
    requires forall i | 0 <= i < |s| :: IsRadixDigit(s[i], radix)
  {
    if s == [] then 0
    else
      assert IsRadixDigit(s[|s| - 1], radix);
      assert IsRadixDigit(s[|s| - 1], 16);
      radix * DigitsValue(s[..|s| - 1], radix) + DigitValue(s[|s| - 1])
  }

  /** `parseInt(input)`; `None` stands for NaN. */
  function ParseInt(input: string): Option<int> {
    ParseSigned(TrimStart(input))
  }

  /** What `parseInt` does once leading white space is gone: the sign. */
  function ParseSigned(s: string): Option<int> {
    var negative := s != [] && s[0] == '-';
    var unsigned := if s != [] && (s[0] == '-' || s[0] == '+') then s[1..] else s;
    match ParseUnsigned(unsigned)
    case None => None
    case Some(magnitude) => Some(if negative then -(magnitude as int) else magnitude as int)
  }

  /** The digits after the sign: an optional hexadecimal prefix, then the longest digit run. */
  function ParseUnsigned(u: string): Option<nat> {
    var hex := |u| >= 2 && u[0] == '0' && (u[1] == 'x' || u[1] == 'X');
    var radix := if hex then 16 else 10;
    var digits := LeadingDigits(if hex then u[2..] else u, radix);
    if digits == [] then None else Some(DigitsValue(digits, radix))
  }

  lemma {:induction false} DigitsValueDecimal(s: string)
    requires forall i | 0 <= i < |s| :: IsDecimalDigit(s[i])
    ensures DigitsValue(s, 10) == DecimalValue(s)
  {
    if s != [] {
      DigitsValueDecimal(s[..|s| - 1]);
    }
  }

  lemma {:induction false} LeadingDigitsOfDigits(x: string, t: string)
    requires forall i | 0 <= i < |x| :: IsDecimalDigit(x[i])
    requires t == [] || !IsDecimalDigit(t[0])
    ensures LeadingDigits(x + t, 10) == x
  {
    if x != [] {
      assert (x + t)[1..] == x[1..] + t;
      LeadingDigitsOfDigits(x[1..], t);
    }
  }

  /**
   * `parseInt` reads back what `String` wrote, whatever follows it, as long as
   * the next character is not a digit and does not turn a leading "0" into the
   * hexadecimal prefix.
   */
  lemma ParseIntOfIntToString(n: int, t: string)
    requires t == [] || !IsDecimalDigit(t[0])
    requires n == 0 ==> t == [] || (t[0] != 'x' && t[0] != 'X')
    ensures ParseInt(IntToString(n) + t) == Some(n)
  {
    if n < 0 {
      MinusThenDigits(n, t);
      ParseIntOfNegative(-n, t, IntToString(n) + t);
    } else {
      ParseIntOfNatural(n, t, IntToString(n) + t);
    }
  }

  lemma MinusThenDigits(n: int, t: string)
    requires n < 0
    ensures IntToString(n) + t == "-" + (NatToString(-n) + t)
  {
    assert IntToString(n) == "-" + NatToString(-n);
  }

  lemma ParseIntOfNatural(m: nat, t: string, input: string)
    requires t == [] || !IsDecimalDigit(t[0])
    requires m == 0 ==> t == [] || (t[0] != 'x' && t[0] != 'X')
    requires input == NatToString(m) + t
    ensures ParseInt(input) == Some(m)
  {
    assert IsDecimalDigit(input[0]) by {
      assert input[0] == NatToString(m)[0];
    }
    ParseIntWithoutLeadingSpace(input);
    NoSign(input);
    ParseUnsignedOfNatToString(m, t);
  }

  lemma ParseIntOfNegative(m: nat, t: string, input: string)
    requires t == [] || !IsDecimalDigit(t[0])
    requires m == 0 ==> t == [] || (t[0] != 'x' && t[0] != 'X')
    requires input == "-" + (NatToString(m) + t)
    ensures ParseInt(input) == Some(-(m as int))
  {
    assert input[0] == '-';
    ParseIntWithoutLeadingSpace(input);
    NegativeSign(NatToString(m) + t);
    ParseUnsignedOfNatToString(m, t);
  }

  lemma NoSign(u: string)
    requires u == [] || (u[0] != '-' && u[0] != '+')
    ensures ParseSigned(u) == match ParseUnsigned(u) case None => None case Some(k) => Some(k as int)
  {
  }

  lemma NegativeSign(u: string)
    ensures ParseSigned("-" + u) == match ParseUnsigned(u) case None => None case Some(k) => Some(-(k as int))
  {
    assert ("-" + u)[1..] == u;
  }

  lemma ParseUnsignedOfNatToString(m: nat, t: string)
    requires t == [] || !IsDecimalDigit(t[0])
    requires m == 0 ==> t == [] || (t[0] != 'x' && t[0] != 'X')
    ensures ParseUnsigned(NatToString(m) + t) == Some(m)
  {
    var digits := NatToString(m);
    var u := digits + t;
    assert u[0] == digits[0];
    assert digits[0] == '0' ==> m == 0 by {
      if m >= 10 { assert digits[0] == NatToString(m / 10)[0]; }
    }
    assert |u| >= 2 && u[0] == '0' ==> u[1] == t[0];
    LeadingDigitsOfDigits(digits, t);
    DigitsValueDecimal(digits);
    DecimalValueOfNatToString(m);
  }

  /** Leading white space is skipped. */
  lemma {:induction false} ParseIntSkipsWhiteSpace(w: string, s: string)
    requires AllWhiteSpace(w)
    ensures ParseInt(w + s) == ParseInt(s)
  {
    TrimStartSkips(w, s);
  }

  lemma {:induction false} TrimStartSkips(w: string, s: string)
    requires AllWhiteSpace(w)
    ensures TrimStart(w + s) == TrimStart(s)
  {
    if w == [] {
      assert w + s == s;
    } else {
      assert (w + s)[0] == w[0] && IsWhiteSpace(w[0]);
      assert (w + s)[1..] == w[1..] + s;
      TrimStartSkips(w[1..], s);
    }
  }

  lemma ParseIntWithoutLeadingSpace(s: string)
    requires s == [] || !IsWhiteSpace(s[0])
    ensures ParseInt(s) == ParseSigned(s)
  {
  }

  /** A path segment such as "12abc" names record 12: what follows the number is ignored. */
  lemma ParseIntTrailingTextExample()
    ensures ParseInt("12abc") == Some(12)
  {
    assert IntToString(12) + "abc" == "12abc" by {
      assert IntToString(12) == "12";
    }
    ParseIntOfIntToString(12, "abc");
  }

  /** Leading white space and a sign are accepted. */
  lemma ParseIntLeadingSpaceExample()
    ensures ParseInt("  -7") == Some(-7)
  {
    assert IntToString(-7) + "" == "-7" by {
      assert IntToString(-7) == "-7";
    }
    ParseIntOfIntToString(-7, "");
    assert "  " + "-7" == "  -7";
    ParseIntSkipsWhiteSpace("  ", "-7");
  }

  /** A "0x" prefix switches to base 16: the path segment "0x1F" names record 31. */
  lemma ParseIntHexExample()
    ensures ParseInt("0x1F") == Some(31)
  {
    var u := "0x1F";
    ParseIntWithoutLeadingSpace(u);
    NoSign(u);
    HexDigits();
    assert u[2..] == "1F";
  }

  lemma HexDigits()
    ensures LeadingDigits("1F", 16) == "1F"
    ensures DigitsValue("1F", 16) == 31
  {
    assert DigitsValue("1F", 16) == 16 * DigitsValue("1", 16) + 15;
  }

  /** Concrete cases that give NaN: no digit after the sign, or none after "0x". */
  lemma ParseIntNaNExamples()
    ensures ParseInt("abc") == None
    ensures ParseInt("") == None
    ensures ParseInt("0x") == None
    ensures ParseInt("-") == None
  {
    NaNWithoutDigits("abc");
    NaNWithoutDigits("");
    NaNAfterHexPrefix();
    NaNAfterSign();
  }

  lemma NaNWithoutDigits(s: string)
    requires s == [] || !IsDecimalDigit(s[0])
    requires s == [] || (!IsWhiteSpace(s[0]) && s[0] != '-' && s[0] != '+')
    ensures ParseInt(s) == None
  {
    ParseIntWithoutLeadingSpace(s);
    NoSign(s);
  }

  lemma NaNAfterHexPrefix()
    ensures ParseInt("0x") == None
  {
    ParseIntWithoutLeadingSpace("0x");
    NoSign("0x");
    assert "0x"[2..] == [];
  }

  lemma NaNAfterSign()
    ensures ParseInt("-") == None
  {
    ParseIntWithoutLeadingSpace("-");
    NegativeSign([]);
    assert "-" + [] == "-";
  }
}
