/**
 A Swift `Dictionary` as the model sees it: an association list whose order is
 the dictionary's iteration order. Lookup finds the first entry with the key;
 a dictionary built by the program never holds a key twice (`UniqueKeys`).
 */
module Dict {
  import opened Wrappers

  type Dict<K, V> = seq<(K, V)>

  function Keys<K, V>(d: Dict<K, V>): set<K> {
    if d == [] then {} else {d[0].0} + Keys(d[1..])
  }

  function KeySeq<K, V>(d: Dict<K, V>): (ks: seq<K>)
    ensures |ks| == |d|
    ensures forall i :: 0 <= i < |d| ==> ks[i] == d[i].0
  {
    seq(|d|, i requires 0 <= i < |d| => d[i].0)
  }

  function Values<K, V>(d: Dict<K, V>): (vs: seq<V>)
    ensures |vs| == |d|
    ensures forall i :: 0 <= i < |d| ==> vs[i] == d[i].1
  {
    seq(|d|, i requires 0 <= i < |d| => d[i].1)
  }

  ghost predicate UniqueKeys<K, V>(d: Dict<K, V>) {
    d == [] || (d[0].0 !in Keys(d[1..]) && UniqueKeys(d[1..]))
  }

  /** `d[k]`: the value of the first entry with key `k`. */
  function Lookup<K(==), V>(d: Dict<K, V>, k: K): (r: Option<V>)
    ensures r.Some? <==> k in Keys(d)
    ensures r.Some? ==> (k, r.value) in d
  {
    if d == [] then None
    else if d[0].0 == k then Some(d[0].1)
    else Lookup(d[1..], k)
  }

  lemma {:induction false} LookupUnique<K, V>(d: Dict<K, V>, k: K, v: V)
    requires UniqueKeys(d)
    requires (k, v) in d
    ensures Lookup(d, k) == Some(v)
  {
    if d[0] != (k, v) {
      assert (k, v) in d[1..];
      LookupUnique(d[1..], k, v);
      assert k in Keys(d[1..]);
    }
  }

  lemma {:induction false} KeysMembers<K, V>(d: Dict<K, V>, k: K)
    ensures k in Keys(d) <==> exists v :: (k, v) in d
  {
    if d != [] {
      KeysMembers(d[1..], k);
      if k in Keys(d[1..]) {
        var v :| (k, v) in d[1..];
        assert (k, v) in d;
      }
      if k != d[0].0 && exists v :: (k, v) in d {
        var v :| (k, v) in d;
        assert (k, v) in d[1..];
      }
    }
  }

  lemma AppendFirst<T>(a: seq<T>, s: seq<T>)
    requires s != []
    ensures (a + [s[0]]) + s[1..] == a + s
  {
    assert s == [s[0]] + s[1..];
  }

  /** `d[k] = v`: replaces the entry for `k` in place, or appends one. */
  function Put<K(==, !new), V>(d: Dict<K, V>, k: K, v: V): (r: Dict<K, V>)
    ensures Lookup(r, k) == Some(v)
    ensures forall k' | k' != k :: Lookup(r, k') == Lookup(d, k')
    ensures Keys(r) == Keys(d) + {k}
    ensures UniqueKeys(d) ==> UniqueKeys(r)
    ensures k !in Keys(d) ==> r == d + [(k, v)]
  {
    if d == [] then [(k, v)]
    else if d[0].0 == k then
      var r := [(k, v)] + d[1..];
      assert r[0] == (k, v) && r[1..] == d[1..];
      r
    else
      var tail := Put(d[1..], k, v);
      var r := [d[0]] + tail;
      assert r[0] == d[0] && r[1..] == tail;
      assert Keys(d) == {d[0].0} + Keys(d[1..]);
      assert k !in Keys(d) ==> d + [(k, v)] == [d[0]] + (d[1..] + [(k, v)]) by {
        assert d == [d[0]] + d[1..];
      }
      r
  }

  /** `d[k] = nil`: the result has no entry for `k`. */
  function Remove<K(==, !new), V>(d: Dict<K, V>, k: K): (r: Dict<K, V>)
    ensures Lookup(r, k) == None
    ensures forall k' | k' != k :: Lookup(r, k') == Lookup(d, k')
    ensures Keys(r) == Keys(d) - {k}
    ensures UniqueKeys(d) ==> UniqueKeys(r)
  {
    if d == [] then []
    else if d[0].0 == k then Remove(d[1..], k)
    else
      var r := [d[0]] + Remove(d[1..], k);
      assert r[1..] == Remove(d[1..], k);
      r
  }

  /** `d[k] = v` with an optional `v`: a nil removes the entry, as Swift's subscript setter does. */
  function Assign<K(==, !new), V>(d: Dict<K, V>, k: K, v: Option<V>): (r: Dict<K, V>)
    ensures Lookup(r, k) == v
    ensures forall k' | k' != k :: Lookup(r, k') == Lookup(d, k')
    ensures Keys(r) - {k} == Keys(d) - {k}
    ensures UniqueKeys(d) ==> UniqueKeys(r)
  {
    match v
    case Some(x) => Put(d, k, x)
    case None => Remove(d, k)
  }

  /** `mapValuesWithKeys`: every entry's value replaced by `transform(key, value)`, keys and order kept. */
  function MapValuesWithKeys<K(==), V, T>(d: Dict<K, V>, transform: (K, V) -> T): (r: Dict<K, T>)
    ensures KeySeq(r) == KeySeq(d)
    ensures Keys(r) == Keys(d)
    ensures forall k | k in Keys(d) :: Lookup(r, k) == Some(transform(k, Lookup(d, k).value))
    ensures UniqueKeys(d) ==> UniqueKeys(r)
  {
    if d == [] then []
    else
      var rest := MapValuesWithKeys(d[1..], transform);
      var r := [(d[0].0, transform(d[0].0, d[0].1))] + rest;
      assert r[1..] == rest;
      r
  }

  /** `compactMapValuesWithKeys`: like `MapValuesWithKeys`, dropping the entries whose transform is nil. */
  function CompactMapValuesWithKeys<K(==), V, T>(d: Dict<K, V>, transform: (K, V) -> Option<T>): (r: Dict<K, T>)
    ensures Keys(r) <= Keys(d)
    ensures UniqueKeys(d) ==> UniqueKeys(r)
    ensures UniqueKeys(d) ==>
      forall k | k in Keys(d) :: Lookup(r, k) == transform(k, Lookup(d, k).value)
  {
    if d == [] then []
    else
      var rest := CompactMapValuesWithKeys(d[1..], transform);
      match transform(d[0].0, d[0].1)
      case Some(t) =>
        var r := [(d[0].0, t)] + rest;
        assert r[1..] == rest;
        r
      case None => rest
  }
}
