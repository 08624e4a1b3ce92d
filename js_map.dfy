/**
 * A JavaScript `Map` as the program uses it: the list of its entries in
 * insertion order. `set` on a key already present replaces that entry's value
 * where it stands; on a new key it appends. `values()` iterates in that order.
 */
module JsMap {
  import opened Wrappers

  predicate UniqueKeys<K(==), V>(m: seq<(K, V)>) {
    forall i, j | 0 <= i < j < |m| :: m[i].0 != m[j].0
  }

  /** Position of the entry for `k`, or `|m|` when there is none. */
  function IndexOf<K(==), V>(m: seq<(K, V)>, k: K): (i: nat)
    ensures i <= |m|
    ensures i < |m| ==> m[i].0 == k
    ensures forall j | 0 <= j < i :: m[j].0 != k
  {
    if m == [] then 0
    else if m[0].0 == k then 0
    else 1 + IndexOf(m[1..], k)
  }

  /** `m.has(k)` */
  predicate Has<K(==), V>(m: seq<(K, V)>, k: K) {
    IndexOf(m, k) < |m|
  }

  /** `m.get(k)` */
  function Get<K(==), V>(m: seq<(K, V)>, k: K): (r: Option<V>)
    ensures r.Some? <==> (exists i | 0 <= i < |m| :: m[i].0 == k)
  {
    var i := IndexOf(m, k);
    if i < |m| then Some(m[i].1) else None
  }

  /** `m.set(k, v)` */
  function Set<K(==), V>(m: seq<(K, V)>, k: K, v: V): (r: seq<(K, V)>)
    ensures Has(m, k) ==> r == m[IndexOf(m, k) := (k, v)]
    ensures !Has(m, k) ==> r == m + [(k, v)]
  {
    var i := IndexOf(m, k);
    if i < |m| then m[i := (k, v)] else m + [(k, v)]
  }

  /** `Array.from(m.values())` */
  function Values<K(==), V>(m: seq<(K, V)>): (r: seq<V>)
    ensures |r| == |m|
    ensures forall i | 0 <= i < |m| :: r[i] == m[i].1
  {
    seq(|m|, i requires 0 <= i < |m| => m[i].1)
  }

  /** In a map whose keys are distinct, `get` finds the one entry with that key. */
  lemma GetAt<K, V>(m: seq<(K, V)>, i: nat)
    requires UniqueKeys(m) && i < |m|
    ensures Get(m, m[i].0) == Some(m[i].1)
  {
    assert IndexOf(m, m[i].0) == i;
  }

  /** `set` keeps keys distinct; afterwards `get` sees the new value and nothing else moves. */
  lemma SetSpec<K, V>(m: seq<(K, V)>, k: K, v: V)
    requires UniqueKeys(m)
    ensures UniqueKeys(Set(m, k, v))
    ensures Get(Set(m, k, v), k) == Some(v)
    ensures forall k' | k' != k :: Get(Set(m, k, v), k') == Get(m, k')
    ensures |Set(m, k, v)| == if Has(m, k) then |m| else |m| + 1
  {
    var r := Set(m, k, v);
    forall k' | k' != k
      ensures Get(r, k') == Get(m, k')
    {
      assert forall j | 0 <= j < |m| :: r[j].0 == m[j].0 && (m[j].0 != k ==> r[j] == m[j]);
      if Has(m, k') {
        GetAt(r, IndexOf(m, k'));
      }
    }
    GetAt(r, if Has(m, k) then IndexOf(m, k) else |m|);
  }
}
