/** The metric families `collect` builds (rtlexporter.py:36-47), as values:
    the shape handed to the Prometheus registry, not its wire format. */
module Snapshot {
  import opened Json
  import opened Sensor
  import opened Dicts

  /** `metric.add_metric(labels, value)`. */
  datatype Sample = Sample(labels: seq<string>, value: Value)

  /** `GaugeMetricFamily(name, documentation, labels=...)` with its samples. */
  datatype Family = Family(name: string, documentation: string, labelNames: seq<string>, samples: seq<Sample>)

  /** One sample per listed key, in the listed order. */
  function SamplesOf(keys: seq<Key>, entries: map<Key, Value>): (ss: seq<Sample>)
    requires forall i :: 0 <= i < |keys| ==> keys[i] in entries
    ensures |ss| == |keys|
    ensures forall i :: 0 <= i < |keys| ==> ss[i] == Sample(LabelValues(keys[i]), entries[keys[i]])
    decreases |keys|
  {
    if keys == [] then []
    else SamplesOf(keys[..|keys| - 1], entries) + [Sample(LabelValues(keys[|keys| - 1]), entries[keys[|keys| - 1]])]
  }

  /** The family of one metric kind: named `rtl_433_<kind>`, labelled by
      model, id and channel, with one sample per listed key carrying that
      key's labels and value, in the dict's iteration order. */
  function Gauge(kind: string, d: Dict<Key, Value>): (f: Family)
    requires d.Valid()
    ensures f.name == "rtl_433_" + kind
    ensures f.documentation == kind + " from the rtl_433 command"
    ensures f.labelNames == Labels
    ensures |f.samples| == |d.keys|
    ensures forall i :: 0 <= i < |f.samples| ==>
      d.keys[i] in d.entries && f.samples[i] == Sample(LabelValues(d.keys[i]), d.entries[d.keys[i]])
  {
    Family("rtl_433_" + kind, kind + " from the rtl_433 command", Labels, SamplesOf(d.keys, d.entries))
  }

  /** Exactly one sample per dict entry: as many samples as entries, every
      entry's key and value among them, and no two samples with the same labels. */
  lemma GaugeOnePerEntry(kind: string, d: Dict<Key, Value>)
    requires d.Valid()
    ensures |Gauge(kind, d).samples| == |d.entries|
    ensures forall k :: k in d.entries ==> Sample(LabelValues(k), d.entries[k]) in Gauge(kind, d).samples
    ensures forall i, j :: 0 <= i < j < |Gauge(kind, d).samples| ==>
      Gauge(kind, d).samples[i].labels != Gauge(kind, d).samples[j].labels
  {
    KeysCount(d);
    var ss := Gauge(kind, d).samples;
    forall k | k in d.entries ensures Sample(LabelValues(k), d.entries[k]) in ss {
      var i :| 0 <= i < |d.keys| && d.keys[i] == k;
      assert ss[i] == Sample(LabelValues(k), d.entries[k]);
    }
  }

  /** The inner loop of `collect`: one `add_metric` per `data.items()` entry. */
  method Render(kind: string, d: Dict<Key, Value>) returns (f: Family)
    requires d.Valid()
    ensures f == Gauge(kind, d)
  {
    var samples: seq<Sample> := [];
    var i := 0;
    while i < |d.keys|
      invariant 0 <= i <= |d.keys|
      invariant samples == SamplesOf(d.keys[..i], d.entries)
    {
      var k := d.keys[i];
      assert d.keys[..i + 1][..i] == d.keys[..i];
      samples := samples + [Sample(LabelValues(k), d.entries[k])];
      i := i + 1;
    }
    assert d.keys[..i] == d.keys;
    f := Family("rtl_433_" + kind, kind + " from the rtl_433 command", Labels, samples);
  }
}
