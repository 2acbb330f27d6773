/** Sensor identity and the per-kind values one record contributes
    (rtlexporter.py, `RtlCollector.__init__` and the body of `run`). */
module Sensor {
  import opened Wrappers
  import opened Json

  /** The label names, in the order they make up the key and the gauges' labels. */
  const Labels: seq<string> := ["model", "id", "channel"]

  /** The `(model, id, channel)` tuple of strings that identifies one physical sensor. */
  datatype Key = Key(model: string, id: string, channel: string)

  /** The key as the label values of a gauge sample, in the order of `Labels`. */
  function LabelValues(k: Key): (ls: seq<string>)
    ensures |ls| == |Labels|
  {
    [k.model, k.id, k.channel]
  }

  /** `data.get(name)`. */
  function Field(r: Record, name: string): Option<Value>
  {
    if name in r then Some(r[name]) else None
  }

  /** `str(data.get(name))`: the label reads "None" exactly when it is
      missing, JSON null, or a value whose own text is "None"; such sensors
      share one bucket. A text label reads as itself. (Of the values whose
      text is "None", only the string "None" occurs in real input; see
      `Json.Value`.) */
  function LabelText(r: Record, name: string): (t: string)
    ensures t == "None" <==> name !in r || r[name] in {Null, Text("None"), Float("None"), Compound("None")}
    ensures name in r && r[name].Text? ==> t == r[name].s
  {
    match Field(r, name)
    case None => Str(Null)
    case Some(v) => Str(v)
  }

  /** `tuple([str(data.get(_)) for _ in self.labels])`. */
  function KeyOf(r: Record): (k: Key)
    ensures LabelValues(k) == [LabelText(r, Labels[0]), LabelText(r, Labels[1]), LabelText(r, Labels[2])]
  {
    Key(LabelText(r, "model"), LabelText(r, "id"), LabelText(r, "channel"))
  }

  /** The value stored when a field is absent. */
  const TemperatureDefault: Value := Float("-40.0")
  const BatteryDefault: Value := Int(0)
  const HumidityDefault: Value := Int(0)

  /** `data.get(name, default)`. */
  function GetOr(r: Record, name: string, default: Value): Value
  {
    if name in r then r[name] else default
  }

  /** The value stored for each kind: the field when present, even as JSON
      null, and the documented default (-40.0, 0, 0) when absent. */
  function TemperatureOf(r: Record): (v: Value)
    ensures "temperature_C" in r ==> v == r["temperature_C"]
    ensures "temperature_C" !in r ==> v == Float("-40.0")
  {
    GetOr(r, "temperature_C", TemperatureDefault)
  }

  function BatteryOf(r: Record): (v: Value)
    ensures "battery_ok" in r ==> v == r["battery_ok"]
    ensures "battery_ok" !in r ==> v == Int(0)
  {
    GetOr(r, "battery_ok", BatteryDefault)
  }

  function HumidityOf(r: Record): (v: Value)
    ensures "humidity" in r ==> v == r["humidity"]
    ensures "humidity" !in r ==> v == Int(0)
  {
    GetOr(r, "humidity", HumidityDefault)
  }

  /** The key depends on the three label fields only: records that agree on
      them land on the same key whatever else they carry. */
  lemma KeyIgnoresOtherFields(r: Record, r': Record)
    requires forall i :: 0 <= i < |Labels| ==> Field(r, Labels[i]) == Field(r', Labels[i])
    ensures KeyOf(r) == KeyOf(r')
  {
    assert Field(r, Labels[0]) == Field(r', Labels[0]);
    assert Field(r, Labels[1]) == Field(r', Labels[1]);
    assert Field(r, Labels[2]) == Field(r', Labels[2]);
  }

  /** Integer labels are told apart by value; an integer label and the text of
      its digits (`"id": 1` and `"id": "1"`) meet on one key. */
  lemma IntLabels(r: Record, r': Record, name: string)
    requires name in r && name in r' && r[name].Int? && r'[name].Int?
    ensures LabelText(r, name) == LabelText(r', name) <==> r[name] == r'[name]
    ensures LabelText(r, name) == Str(Text(IntToString(r[name].i)))
  {
    IntToStringInjective(r[name].i, r'[name].i);
  }
}
