/**
 * A Python `dict` keyed by conversation id: a finite map that remembers the
 * order in which its keys were first inserted.  `keys` is that order, `values`
 * the map.
 */
module OrderedDict {
  import opened Optional

  type Key = string

  predicate Distinct(ks: seq<Key>) {
    forall i, j :: 0 <= i < j < |ks| ==> ks[i] != ks[j]
  }

  /** `ks` without `k`, the other keys in their order. */
  function Without(ks: seq<Key>, k: Key): (r: seq<Key>)
    ensures forall x :: x in r <==> x in ks && x != k
    ensures Distinct(ks) ==> Distinct(r)
    ensures k !in ks ==> r == ks
    decreases |ks|
  {
    if ks == [] then []
    else if ks[0] == k then Without(ks[1..], k)
    else
      var rest := Without(ks[1..], k);
      assert Distinct(ks) ==> ks[0] !in ks[1..];
      assert forall i :: 0 < i < |rest| + 1 ==> ([ks[0]] + rest)[i] == rest[i - 1];
      [ks[0]] + rest
  }

  /** Removing a key that sits at index `i` of a duplicate-free order closes the gap and keeps the rest in place. */
  lemma {:induction false} WithoutAt(ks: seq<Key>, i: nat)
    requires Distinct(ks) && i < |ks|
    ensures Without(ks, ks[i]) == ks[..i] + ks[i + 1..]
    decreases |ks|
  {
    if i == 0 {
      assert ks[0] !in ks[1..];
    } else {
      WithoutAt(ks[1..], i - 1);
      assert ks[1..][..i - 1] + ks[1..][i..] == ks[1..i] + ks[i + 1..];
      assert ks[..i] + ks[i + 1..] == [ks[0]] + (ks[1..i] + ks[i + 1..]);
    }
  }

  /** `WithoutAt` at every position where `k` sits. */
  lemma WithoutEach(ks: seq<Key>, k: Key)
    requires Distinct(ks)
    ensures forall i :: 0 <= i < |ks| && ks[i] == k ==> Without(ks, k) == ks[..i] + ks[i + 1..]
  {
    forall i | 0 <= i < |ks| && ks[i] == k ensures Without(ks, k) == ks[..i] + ks[i + 1..] {
      WithoutAt(ks, i);
    }
  }

  datatype Dict<V> = Dict(keys: seq<Key>, values: map<Key, V>) {

    /** Every key is listed once, and exactly the keys of the map are listed. */
    predicate Valid() {
      Distinct(keys) && (forall k <- values.Keys :: k in keys) && (forall k <- keys :: k in values)
    }

    /** Storing under a key: an existing key keeps its place, a new key goes last. */
    function Put(k: Key, v: V): (d: Dict<V>)
      requires Valid()
      ensures d.Valid()
      ensures d.values == values[k := v]
      ensures k in values ==> d.keys == keys
      ensures k !in values ==> d.keys == keys + [k]
    {
      if k in values then Dict(keys, values[k := v]) else Dict(keys + [k], values[k := v])
    }

    /** Popping a key, present or not: `k` is gone, every other entry and the order of the rest are kept. */
    function Pop(k: Key): (d: Dict<V>)
      requires Valid()
      ensures d.Valid()
      ensures k !in d.values
      ensures forall x :: x in d.values <==> x in values && x != k
      ensures forall x :: x in d.values ==> d.values[x] == values[x]
      ensures k !in values ==> d == this
      ensures forall i :: 0 <= i < |keys| && keys[i] == k ==> d.keys == keys[..i] + keys[i + 1..]
    {
      var rest := Without(keys, k);
      WithoutEach(keys, k);
      var d := Dict(rest, values - {k});
      assert d.Valid();
      d
    }

    /** The first key in iteration order: the earliest inserted key, or `None` for an empty dict. */
    function First(): (r: Option<Key>)
      requires Valid()
      ensures r.None? <==> values == map[]
      ensures r.Some? ==> r.value in values && r.value == keys[0]
    {
      if keys == [] then None
      else
        assert keys[0] in values;
        Some(keys[0])
    }
  }

  /**
   * After `d.pop(k)` the first key in insertion order is the old first key, unless
   * `k` was it; then it is the key inserted second, or nothing if `k` was the only key.
   */
  lemma FirstAfterPop<V>(d: Dict<V>, k: Key)
    requires d.Valid() && k in d.values
    ensures d.Pop(k).First() ==
      if |d.keys| == 1 then None
      else if d.keys[0] == k then Some(d.keys[1])
      else Some(d.keys[0])
  {
    var i :| 0 <= i < |d.keys| && d.keys[i] == k;
    WithoutAt(d.keys, i);
    var rest := d.keys[..i] + d.keys[i + 1..];
    if |d.keys| > 1 {
      if i == 0 {
        assert rest[0] == d.keys[1];
      } else {
        assert rest[0] == d.keys[0];
      }
    }
  }

  /** Storing under the same key twice is storing the second value once: the key keeps the place the first store gave it. */
  lemma PutTwice<V>(d: Dict<V>, k: Key, v: V, w: V)
    requires d.Valid()
    ensures d.Put(k, v).Put(k, w) == d.Put(k, w)
  {
    assert d.values[k := v][k := w] == d.values[k := w];
  }
}
