/**
 * The `Array.prototype` methods the store's queries use: `filter`, `find`,
 * `slice` and `sort` with a comparator of the form `(a, b) => a.order - b.order`.
 * Since ES2019 `sort` must be stable, so it is specified here by an insertion
 * sort that never moves an element past an equal one, proved sorted, a
 * permutation, and order-preserving among equal keys.
 */
module JsArray {
  import opened Wrappers

  /** `s.filter(p)` */
  function Filter<T>(s: seq<T>, p: T -> bool): (r: seq<T>)
    ensures |r| <= |s|
    ensures forall i | 0 <= i < |r| :: p(r[i])
  {
    if s == [] then []
    else (if p(s[0]) then [s[0]] else []) + Filter(s[1..], p)
  }

  /** `s.filter(p)` holds only elements of `s`, and every element of `s` that passes. */
  lemma {:induction false} FilterMembers<T>(s: seq<T>, p: T -> bool)
    ensures forall i | 0 <= i < |Filter(s, p)| :: Filter(s, p)[i] in s
    ensures forall i | 0 <= i < |s| && p(s[i]) :: s[i] in Filter(s, p)
  {
    if s != [] {
      FilterMembers(s[1..], p);
      var head := if p(s[0]) then [s[0]] else [];
      assert Filter(s, p) == head + Filter(s[1..], p);
      forall i | 0 <= i < |Filter(s, p)| ensures Filter(s, p)[i] in s {
        if i >= |head| {
          assert Filter(s, p)[i] == Filter(s[1..], p)[i - |head|];
        }
      }
      forall i | 0 < i < |s| && p(s[i]) ensures s[i] in Filter(s, p) {
        assert s[i] == s[1..][i - 1];
      }
    }
  }

  /** A filter every element passes keeps the sequence whole. */
  lemma {:induction false} FilterAll<T>(s: seq<T>, p: T -> bool)
    requires forall i | 0 <= i < |s| :: p(s[i])
    ensures Filter(s, p) == s
  {
    if s != [] {
      FilterAll(s[1..], p);
    }
  }

  /** A filter no element passes leaves nothing. */
  lemma {:induction false} FilterNone<T>(s: seq<T>, p: T -> bool)
    requires forall i | 0 <= i < |s| :: !p(s[i])
    ensures Filter(s, p) == []
  {
    if s != [] {
      FilterNone(s[1..], p);
    }
  }

  lemma {:induction false} FilterConcat<T>(a: seq<T>, b: seq<T>, p: T -> bool)
    ensures Filter(a + b, p) == Filter(a, p) + Filter(b, p)
  {
    if a == [] {
      assert a + b == b;
    } else {
      assert (a + b)[1..] == a[1..] + b;
      FilterConcat(a[1..], b, p);
    }
  }

  predicate SortedBy<T>(s: seq<T>, key: T -> int) {
    forall i, j | 0 <= i < j < |s| :: key(s[i]) <= key(s[j])
  }

  /** Places `x` before the first element whose key is not smaller. */
  function InsertBy<T>(x: T, s: seq<T>, key: T -> int): (r: seq<T>)
    ensures multiset(r) == multiset(s) + multiset{x}
  {
    if s == [] || key(x) <= key(s[0]) then [x] + s
    else
      assert s == [s[0]] + s[1..];
      [s[0]] + InsertBy(x, s[1..], key)
  }

  lemma {:induction false} InsertBySorted<T>(x: T, s: seq<T>, key: T -> int)
    requires SortedBy(s, key)
    ensures SortedBy(InsertBy(x, s, key), key)
    ensures forall i | 0 <= i < |InsertBy(x, s, key)| ::
              key(InsertBy(x, s, key)[i]) >= (if s == [] || key(x) < key(s[0]) then key(x) else key(s[0]))
  {
    if s != [] && key(s[0]) < key(x) {
      InsertBySorted(x, s[1..], key);
    }
  }

  /** The stable sort by `key`. */
  function SortBy<T>(s: seq<T>, key: T -> int): (r: seq<T>)
    ensures multiset(r) == multiset(s)
    ensures SortedBy(r, key)
  {
    if s == [] then []
    else
      assert s == [s[0]] + s[1..];
      var rest := SortBy(s[1..], key);
      InsertBySorted(s[0], rest, key);
      InsertBy(s[0], rest, key)
  }

  /** The elements whose key is `k`, in their order in `s`. */
  function WithKey<T>(s: seq<T>, key: T -> int, k: int): seq<T> {
    Filter(s, x => key(x) == k)
  }

  /**
   * Among the elements of any one key, `x` lands first: every element placed
   * ahead of it has a smaller key. This needs no sortedness of `s`.
   */
  lemma {:induction false} InsertByWithKey<T>(x: T, s: seq<T>, key: T -> int, k: int)
    ensures WithKey(InsertBy(x, s, key), key, k)
         == (if key(x) == k then [x] else []) + WithKey(s, key, k)
  {
    var p := y => key(y) == k;
    if s == [] || key(x) <= key(s[0]) {
      FilterConcat([x], s, p);
    } else {
      var rest := InsertBy(x, s[1..], key);
      var kept := if key(x) == k then [x] else [];
      calc {
        WithKey(InsertBy(x, s, key), key, k);
        Filter([s[0]] + rest, p);
        { FilterConcat([s[0]], rest, p); }
        Filter([s[0]], p) + Filter(rest, p);
        { InsertByWithKey(x, s[1..], key, k); }
        Filter([s[0]], p) + (kept + Filter(s[1..], p));
        // `x` and `s[0]` have different keys, so at most one of them is kept.
        { assert kept == [] || Filter([s[0]], p) == []; }
        kept + (Filter([s[0]], p) + Filter(s[1..], p));
        { FilterConcat([s[0]], s[1..], p); assert s == [s[0]] + s[1..]; }
        kept + WithKey(s, key, k);
      }
    }
  }

  /** Stability: among elements with equal keys the sort keeps their original order. */
  lemma {:induction false} SortByStable<T>(s: seq<T>, key: T -> int, k: int)
    ensures WithKey(SortBy(s, key), key, k) == WithKey(s, key, k)
  {
    if s != [] {
      SortByStable(s[1..], key, k);
      InsertByWithKey(s[0], SortBy(s[1..], key), key, k);
      FilterConcat([s[0]], s[1..], y => key(y) == k);
      assert s == [s[0]] + s[1..];
    }
  }

  /** A sorted sequence is left as it is. */
  lemma {:induction false} SortBySorted<T>(s: seq<T>, key: T -> int)
    requires SortedBy(s, key)
    ensures SortBy(s, key) == s
  {
    if s != [] {
      SortBySorted(s[1..], key);
    }
  }

  /** `rank` grows strictly along `s` (for the store: ids in creation order). */
  predicate StrictlyIncreasing<T>(s: seq<T>, rank: T -> int) {
    forall i, j | 0 <= i < j < |s| :: rank(s[i]) < rank(s[j])
  }

  /** A filter keeps the elements in their order, so it keeps a strictly growing rank. */
  lemma {:induction false} FilterIncreasing<T>(s: seq<T>, p: T -> bool, rank: T -> int)
    requires StrictlyIncreasing(s, rank)
    ensures StrictlyIncreasing(Filter(s, p), rank)
    ensures forall i | 0 <= i < |Filter(s, p)| :: s != [] && rank(s[0]) <= rank(Filter(s, p)[i])
  {
    if s != [] {
      FilterIncreasing(s[1..], p, rank);
    }
  }

  /** Where `s[i]` lands in `Filter(s, p)`: after the kept elements before it. */
  lemma {:induction false} FilterPosition<T>(s: seq<T>, p: T -> bool, i: nat)
    requires i < |s| && p(s[i])
    ensures |Filter(s[..i], p)| < |Filter(s, p)|
    ensures Filter(s, p)[|Filter(s[..i], p)|] == s[i]
  {
    assert s == s[..i] + s[i..];
    FilterConcat(s[..i], s[i..], p);
    assert s[i..] == [s[i]] + s[i + 1..];
  }

  lemma {:induction false} FilterPrefixGrows<T>(s: seq<T>, p: T -> bool, i: nat, j: nat)
    requires i < j <= |s| && p(s[i])
    ensures |Filter(s[..i], p)| < |Filter(s[..j], p)|
  {
    assert s[..j] == s[..i] + s[i..j];
    FilterConcat(s[..i], s[i..j], p);
    assert s[i..j] == [s[i]] + s[i + 1..j];
  }

  /**
   * If the input is in increasing `rank` (its creation order), the stable sort
   * by `key` orders by `key` first and by `rank` among equal keys.
   */
  lemma SortByTiesByRank<T>(s: seq<T>, key: T -> int, rank: T -> int)
    requires StrictlyIncreasing(s, rank)
    ensures forall i, j | 0 <= i < j < |SortBy(s, key)| ::
              key(SortBy(s, key)[i]) < key(SortBy(s, key)[j])
              || (key(SortBy(s, key)[i]) == key(SortBy(s, key)[j])
                  && rank(SortBy(s, key)[i]) < rank(SortBy(s, key)[j]))
  {
    var r := SortBy(s, key);
    forall i, j | 0 <= i < j < |r| && key(r[i]) == key(r[j])
      ensures rank(r[i]) < rank(r[j])
    {
      var k := key(r[i]);
      var p := x => key(x) == k;
      SortByStable(s, key, k);
      FilterIncreasing(s, p, rank);
      FilterPosition(r, p, i);
      FilterPosition(r, p, j);
      FilterPrefixGrows(r, p, i, j);
    }
  }

  /** Position of the first element satisfying `p`, or `|s|`. */
  function FindIndex<T>(s: seq<T>, p: T -> bool): (i: nat)
    ensures i <= |s|
    ensures i < |s| ==> p(s[i])
    ensures forall j | 0 <= j < i :: !p(s[j])
  {
    if s == [] then 0
    else if p(s[0]) then 0
    else 1 + FindIndex(s[1..], p)
  }

  /** `s.find(p)`: the first element satisfying `p`, if any. */
  function Find<T>(s: seq<T>, p: T -> bool): (r: Option<T>)
    ensures r.Some? <==> exists i | 0 <= i < |s| :: p(s[i])
    ensures r.Some? ==> p(r.value) && r.value == s[FindIndex(s, p)]
  {
    var i := FindIndex(s, p);
    if i < |s| then Some(s[i]) else None
  }

  /**
   * `s.slice(0, end)`: always a prefix of `s`; an end past the length takes
   * all of it, and a negative end counts back from the length, leaving
   * nothing once it reaches past the start.
   */
  function SliceTo<T>(s: seq<T>, end: int): (r: seq<T>)
    ensures r <= s  // a prefix
    ensures 0 <= end <= |s| ==> |r| == end
    ensures |s| <= end ==> r == s
    ensures -|s| <= end < 0 ==> |r| == |s| + end
    ensures end <= -|s| ==> r == []
  {
    var stop := if end < 0 then (if |s| + end > 0 then |s| + end else 0)
                else if end < |s| then end else |s|;
    s[..stop]
  }
}
