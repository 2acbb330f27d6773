/** The aggregate store `self.data` of rtlexporter.py as a value: one dict per
    metric kind, each keyed by sensor identity, last value wins. */
module Aggregate {
  import opened Wrappers
  import opened Json
  import opened Sensor
  import opened Dicts

  datatype Store = Store(temperature: Dict<Key, Value>, battery: Dict<Key, Value>, humidity: Dict<Key, Value>) {

    /** The store invariant: each dict is well formed and all three list the
        same keys in the same order (every ingest writes one key into all three). */
    ghost predicate Valid() {
      && temperature.Valid() && battery.Valid() && humidity.Valid()
      && battery.keys == temperature.keys
      && humidity.keys == temperature.keys
    }

    /** `self.data[Kinds[i]]`. */
    function Table(i: nat): (d: Dict<Key, Value>)
      requires i < |Kinds|
      ensures Valid() ==> d.Valid()
    {
      if i == 0 then temperature else if i == 1 then battery else humidity
    }
  }

  /** The metric kinds, in the order `self.data` lists them. */
  const Kinds: seq<string> := ["temperature", "battery", "humidity"]

  /** The store as `__init__` creates it. */
  function EmptyStore(): (s: Store)
    ensures s.Valid()
    ensures s.temperature.entries == map[] && s.battery.entries == map[] && s.humidity.entries == map[]
  {
    Store(EmptyDict(), EmptyDict(), EmptyDict())
  }

  /** The three key sets of a valid store are equal. */
  lemma SameKeySets(s: Store)
    requires s.Valid()
    ensures s.battery.entries.Keys == s.temperature.entries.Keys
    ensures s.humidity.entries.Keys == s.temperature.entries.Keys
  {
  }

  /** One record ingested: the record's key gets its three values (defaults
      for absent fields) and nothing else changes. */
  function Ingested(s: Store, r: Record): (t: Store)
    requires s.Valid()
    ensures t.Valid()
    ensures t.temperature.Get(KeyOf(r)) == Some(TemperatureOf(r))
    ensures t.battery.Get(KeyOf(r)) == Some(BatteryOf(r))
    ensures t.humidity.Get(KeyOf(r)) == Some(HumidityOf(r))
    ensures forall k :: k != KeyOf(r) ==>
      && t.temperature.Get(k) == s.temperature.Get(k)
      && t.battery.Get(k) == s.battery.Get(k)
      && t.humidity.Get(k) == s.humidity.Get(k)
    ensures t.temperature.entries.Keys == s.temperature.entries.Keys + {KeyOf(r)}
  {
    var k := KeyOf(r);
    Store(s.temperature.Put(k, TemperatureOf(r)), s.battery.Put(k, BatteryOf(r)), s.humidity.Put(k, HumidityOf(r)))
  }

  /** Two records with equal label tuples overwrite one entry: the first
      leaves no trace once the second is ingested. */
  lemma OverwriteNotAccumulate(s: Store, r1: Record, r2: Record)
    requires s.Valid() && KeyOf(r1) == KeyOf(r2)
    ensures Ingested(Ingested(s, r1), r2) == Ingested(s, r2)
  {
    var k := KeyOf(r1);
    assert s.temperature.entries[k := TemperatureOf(r1)][k := TemperatureOf(r2)] == s.temperature.entries[k := TemperatureOf(r2)];
    assert s.battery.entries[k := BatteryOf(r1)][k := BatteryOf(r2)] == s.battery.entries[k := BatteryOf(r2)];
    assert s.humidity.entries[k := HumidityOf(r1)][k := HumidityOf(r2)] == s.humidity.entries[k := HumidityOf(r2)];
  }

  /** The store after ingesting `rs` in order. */
  function Replay(s: Store, rs: seq<Record>): (t: Store)
    requires s.Valid()
    ensures t.Valid()
    decreases |rs|
  {
    if rs == [] then s else Ingested(Replay(s, rs[..|rs| - 1]), rs[|rs| - 1])
  }

  lemma ReplaySnoc(s: Store, rs: seq<Record>, r: Record)
    requires s.Valid()
    ensures Replay(s, rs + [r]) == Ingested(Replay(s, rs), r)
  {
    assert (rs + [r])[..|rs|] == rs;
  }

  /** The set of keys a sequence of records writes. */
  function KeysOf(rs: seq<Record>): set<Key>
    decreases |rs|
  {
    if rs == [] then {} else KeysOf(rs[..|rs| - 1]) + {KeyOf(rs[|rs| - 1])}
  }

  /** Last value wins: if `rs[j]` is the last record with its key, the store
      holds exactly that record's three values at that key. */
  lemma {:induction false} ReplayLastWins(s: Store, rs: seq<Record>, j: nat)
    requires s.Valid() && j < |rs|
    requires forall i :: j < i < |rs| ==> KeyOf(rs[i]) != KeyOf(rs[j])
    ensures Replay(s, rs).temperature.Get(KeyOf(rs[j])) == Some(TemperatureOf(rs[j]))
    ensures Replay(s, rs).battery.Get(KeyOf(rs[j])) == Some(BatteryOf(rs[j]))
    ensures Replay(s, rs).humidity.Get(KeyOf(rs[j])) == Some(HumidityOf(rs[j]))
    decreases |rs|
  {
    if j < |rs| - 1 {
      var rs' := rs[..|rs| - 1];
      assert forall i :: j < i < |rs'| ==> rs'[i] == rs[i];
      ReplayLastWins(s, rs', j);
      assert KeyOf(rs[|rs| - 1]) != KeyOf(rs[j]);
    }
  }

  /** Last value wins, stated around one record: `r` followed by records of
      other keys leaves `r`'s three values at its key. */
  lemma ReplayLastOf(s: Store, pre: seq<Record>, r: Record, tail: seq<Record>)
    requires s.Valid()
    requires forall x :: x in tail ==> KeyOf(x) != KeyOf(r)
    ensures Replay(s, pre + [r] + tail).temperature.Get(KeyOf(r)) == Some(TemperatureOf(r))
    ensures Replay(s, pre + [r] + tail).battery.Get(KeyOf(r)) == Some(BatteryOf(r))
    ensures Replay(s, pre + [r] + tail).humidity.Get(KeyOf(r)) == Some(HumidityOf(r))
  {
    var rs := pre + [r] + tail;
    var j := |pre|;
    assert rs[j] == r;
    forall i | j < i < |rs|
      ensures KeyOf(rs[i]) != KeyOf(rs[j])
    {
      assert rs[i] == tail[i - j - 1];
    }
    ReplayLastWins(s, rs, j);
  }

  /** A key no record of `rs` carries keeps its entry (or its absence) in all three dicts. */
  lemma {:induction false} ReplayUntouched(s: Store, rs: seq<Record>, k: Key)
    requires s.Valid()
    requires forall i :: 0 <= i < |rs| ==> KeyOf(rs[i]) != k
    ensures Replay(s, rs).temperature.Get(k) == s.temperature.Get(k)
    ensures Replay(s, rs).battery.Get(k) == s.battery.Get(k)
    ensures Replay(s, rs).humidity.Get(k) == s.humidity.Get(k)
    decreases |rs|
  {
    if rs != [] {
      ReplayUntouched(s, rs[..|rs| - 1], k);
      assert KeyOf(rs[|rs| - 1]) != k;
    }
  }

  /** The store's domain after a replay is the old domain plus the keys of the
      records, one entry per distinct identity however often it repeats. */
  lemma {:induction false} ReplayKeys(s: Store, rs: seq<Record>)
    requires s.Valid()
    ensures Replay(s, rs).temperature.entries.Keys == s.temperature.entries.Keys + KeysOf(rs)
    decreases |rs|
  {
    if rs != [] {
      var rs' := rs[..|rs| - 1];
      ReplayKeys(s, rs');
    }
  }
}
