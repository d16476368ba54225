/**
  Python's `dict`, which remembers insertion order: assigning to a present key keeps its
  place, deleting a key and adding it again moves it to the end.
 */
module PyDict {
  import opened Base

  datatype Dict<K(==, !new), V> = Dict(keys: seq<K>, entries: map<K, V>)
  {
    /** Keys are distinct and are exactly the keys of the map. */
    ghost predicate Valid() {
      (forall i, j | 0 <= i < j < |keys| :: keys[i] != keys[j])
      && (forall k :: k in entries <==> k in keys)
    }

    /** `d.get(k)`. */
    function Get(k: K): (r: Option<V>)
      ensures r.Some? <==> k in entries
      ensures r.Some? ==> r.value == entries[k]
    {
      if k in entries then Some(entries[k]) else None
    }

    /** `d[k] = v`. */
    function Put(k: K, v: V): (r: Dict<K, V>)
      requires Valid()
      ensures r.Valid()
      ensures r.entries == entries[k := v]
      ensures k in keys ==> r.keys == keys
      ensures k !in keys ==> r.keys == keys + [k]
    {
      if k in keys then Dict(keys, entries[k := v]) else Dict(keys + [k], entries[k := v])
    }

    /** `del d[k]` when `k` is present, nothing otherwise. */
    function Remove(k: K): (r: Dict<K, V>)
      requires Valid()
      ensures r.Valid()
      ensures r.entries == entries - {k}
      ensures forall x :: x in r.keys <==> x in keys && x != k
      ensures k !in keys ==> r == this
    {
      var ks := Erase(keys, k);
      Dict(ks, entries - {k})
    }

    /** `list(d.values())`, in key order. */
    function Values(): (r: seq<V>)
      requires Valid()
      ensures |r| == |keys|
      ensures forall i | 0 <= i < |keys| :: r[i] == entries[keys[i]]
    {
      seq(|keys|, i requires 0 <= i < |keys| => entries[keys[i]])
    }
  }

  /** `{}`. */
  function EmptyDict<K(==, !new), V>(): (r: Dict<K, V>)
    ensures r.Valid() && r.keys == [] && r.entries == map[]
  {
    Dict([], map[])
  }

  /** The list without the occurrences of `k`, order otherwise kept. */
  function Erase<K(==, !new)>(ks: seq<K>, k: K): (r: seq<K>)
    ensures forall x :: x in r <==> x in ks && x != k
    ensures |r| <= |ks|
    ensures k !in ks ==> r == ks
    ensures (forall i, j | 0 <= i < j < |ks| :: ks[i] != ks[j]) ==> (forall i, j | 0 <= i < j < |r| :: r[i] != r[j])
  {
    if |ks| == 0 then []
    else if ks[0] == k then Erase(ks[1..], k)
    else
      var rest := Erase(ks[1..], k);
      assert forall x | x in ks[1..] :: x in ks;
      assert (forall i, j | 0 <= i < j < |ks| :: ks[i] != ks[j]) ==> ks[0] !in ks[1..];
      [ks[0]] + rest
  }

  /** Removing a key that was just added gives back a dict with the same entries. */
  lemma {:induction false} PutNewThenRemove<K(!new), V>(d: Dict<K, V>, k: K, v: V)
    requires d.Valid() && k !in d.keys
    ensures d.Put(k, v).Remove(k) == d
  {
    EraseLast(d.keys, k);
    assert d.keys == d.keys;
    assert d.entries[k := v] - {k} == d.entries;
  }

  lemma {:induction false} EraseLast<K(!new)>(ks: seq<K>, k: K)
    requires k !in ks
    ensures Erase(ks + [k], k) == ks
  {
    if |ks| == 0 {
      assert ks + [k] == [k];
      assert [k][1..] == [];
    } else {
      assert (ks + [k])[1..] == ks[1..] + [k];
      EraseLast(ks[1..], k);
      assert ks == [ks[0]] + ks[1..];
    }
  }

  /** Assigning a key twice is assigning it the second value: the key keeps the place of the first. */
  lemma PutTwice<K(!new), V>(d: Dict<K, V>, k: K, a: V, b: V)
    requires d.Valid()
    ensures d.Put(k, a).Put(k, b) == d.Put(k, b)
  {
    assert d.entries[k := a][k := b] == d.entries[k := b];
  }
}
