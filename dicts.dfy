/** A Python dict: a finite map that remembers the order in which its keys
    were first inserted. Overwriting a key keeps its position; iteration
    (`items()`) follows that order. */
module Dicts {
  import opened Wrappers

  datatype Dict<K(==,!new), V> = Dict(keys: seq<K>, entries: map<K, V>) {

    /** Every key is listed once, and the listed keys are exactly the mapped ones. */
    ghost predicate Valid() {
      && (forall i, j :: 0 <= i < j < |keys| ==> keys[i] != keys[j])
      && (forall k :: k in entries <==> k in keys)
    }

    /** `d.get(k)`: the value at `k` exactly when `k` is a key. */
    function Get(k: K): (o: Option<V>)
      ensures o.Some? <==> k in entries
      ensures o.Some? ==> o.value == entries[k]
    {
      if k in entries then Some(entries[k]) else None
    }

    /** `d[k] = v`: last value wins at `k`, every other key keeps its value,
        the domain grows by at most `k`, and a new key goes to the end of the
        iteration order while an existing one keeps its place. */
    function Put(k: K, v: V): (d: Dict<K, V>)
      requires Valid()
      ensures d.Valid()
      ensures d.Get(k) == Some(v)
      ensures forall k' :: k' != k ==> d.Get(k') == Get(k')
      ensures d.entries.Keys == entries.Keys + {k}
      ensures k in entries ==> d.keys == keys
      ensures k !in entries ==> d.keys == keys + [k]
    {
      Dict(if k in entries then keys else keys + [k], entries[k := v])
    }
  }

  /** `{}`. */
  function EmptyDict<K(==,!new), V>(): (d: Dict<K, V>)
    ensures d.Valid() && d.keys == [] && d.entries == map[]
  {
    Dict([], map[])
  }

  /** A list without repeats has as many elements as its set. */
  lemma {:induction false} DistinctCard<K>(s: seq<K>)
    requires forall i, j :: 0 <= i < j < |s| ==> s[i] != s[j]
    ensures |set k | k in s| == |s|
  {
    if s != [] {
      var s' := s[..|s| - 1];
      var last := s[|s| - 1];
      DistinctCard(s');
      assert (set k | k in s) == (set k | k in s') + {last};
      assert last !in (set k | k in s');
    }
  }

  /** A valid dict has one iteration position per entry. */
  lemma KeysCount<K(!new), V>(d: Dict<K, V>)
    requires d.Valid()
    ensures |d.entries| == |d.keys|
  {
    assert d.entries.Keys == set k | k in d.keys;
    DistinctCard(d.keys);
  }
}
