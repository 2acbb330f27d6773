/** `RtlCollector` of rtlexporter.py: the aggregate store it updates in place,
    the per-line body of `run`, the choice of line source, and `collect`.
    `json.loads`, `strptime` and `utcnow` are parameters: `decode`,
    `parseTime` and `clock` (the time, in microseconds, at which the i-th
    line is handled). */
module Exporter {
  import opened Wrappers
  import opened Json
  import opened Sensor
  import opened Dicts
  import opened Aggregate
  import opened Staleness
  import opened Sources
  import opened Snapshot

  /** An exception that escapes `run`'s inner `try`, ending the loop. */
  datatype Fault =
    | NonObject(v: Value)    // `'time' in data` or `data.get` raises on a non-object
    | BadTime(time: Value)   // strptime raises on the `time` field
    | DecodeRaised           // json.loads raises an exception `except ValueError` does not catch

  /** What `run` does with one line. */
  datatype LineResult =
    | Skipped(line: string)                  // "can't decode json" logged; next line
    | Accepted(record: Record, stale: bool)  // stored; if stale, "Out of date sample" logged
    | Halted(fault: Fault)

  /** How a run ends. */
  datatype Stop =
    | InputEnded                 // the given input is used up
    | Faulted(fault: Fault)      // an exception escaped the loop body
    | NoLineInResponse           // `lines[-1]` raised IndexError in read_http

  /** The decision `run` takes for one line. A line that does not decode is
      skipped; any decoded object is stored unless its `time` field cannot be
      parsed, stale or not; a stale one is flagged. */
  function Classify(line: string, decode: string -> Decoded, parseTime: Value -> Option<int>, now: int): (res: LineResult)
    ensures res.Skipped? <==> decode(line).Malformed?
    ensures res.Skipped? ==> res.line == line
    ensures res.Accepted? <==> decode(line).Object? && ("time" in decode(line).fields ==> parseTime(decode(line).fields["time"]).Some?)
    ensures res.Accepted? ==> res.record == decode(line).fields
    ensures res.Accepted? ==> (res.stale <==> "time" in res.record && IsStale(now, parseTime(res.record["time"]).value))
    ensures res.Halted? && decode(line).NotAnObject? ==> res.fault == NonObject(decode(line).v)
    ensures res.Halted? && decode(line).Object? ==> res.fault == BadTime(decode(line).fields["time"])
    ensures res.Halted? && decode(line).Raised? ==> res.fault == DecodeRaised
  {
    match decode(line)
    case Malformed => Skipped(line)
    case Raised => Halted(DecodeRaised)
    case NotAnObject(v) => Halted(NonObject(v))
    case Object(data) =>
      var check := CheckTime(data, now, parseTime);
      if check.Unparsable? then Halted(BadTime(check.time)) else Accepted(data, check.Stale?)
  }

  /** The records stored, in order. */
  function AcceptedRecords(results: seq<LineResult>): seq<Record>
    decreases |results|
  {
    if results == [] then []
    else
      var last := results[|results| - 1];
      AcceptedRecords(results[..|results| - 1]) + (if last.Accepted? then [last.record] else [])
  }

  /** At most one record per line, and exactly the records of the accepted
      lines. */
  lemma {:induction false} AcceptedRecordsMembers(results: seq<LineResult>)
    ensures |AcceptedRecords(results)| <= |results|
    ensures forall r :: r in AcceptedRecords(results) <==>
      exists i :: 0 <= i < |results| && results[i].Accepted? && results[i].record == r
    decreases |results|
  {
    if results != [] {
      var init, last := results[..|results| - 1], results[|results| - 1];
      AcceptedRecordsMembers(init);
      assert forall i :: 0 <= i < |init| ==> init[i] == results[i];
    }
  }

  /** The stored records keep the order of their lines: the records of a
      concatenation of runs are those of the first run, then the second's. */
  lemma {:induction false} AcceptedRecordsAppend(a: seq<LineResult>, b: seq<LineResult>)
    ensures AcceptedRecords(a + b) == AcceptedRecords(a) + AcceptedRecords(b)
    decreases |b|
  {
    if b == [] {
      assert a + b == a;
    } else {
      var b' := b[..|b| - 1];
      AcceptedRecordsAppend(a, b');
      assert (a + b)[..|a + b| - 1] == a + b';
    }
  }

  /** The records around an accepted line: those before it, its own, then
      those after it. */
  lemma AcceptedRecordsSplit(results: seq<LineResult>, m: nat)
    requires m < |results| && results[m].Accepted?
    ensures AcceptedRecords(results) ==
      AcceptedRecords(results[..m]) + [results[m].record] + AcceptedRecords(results[m + 1..])
  {
    var pre, post := results[..m], results[m + 1..];
    assert results == (pre + [results[m]]) + post;
    AcceptedRecordsAppend(pre + [results[m]], post);
    AcceptedRecordsAppend(pre, [results[m]]);
    assert AcceptedRecords([results[m]]) == [results[m].record] by {
      assert [results[m]][..0] == [];
    }
  }

  /** No record stored after line `m` carries its key when no later accepted
      line does. */
  lemma LaterRecordsOtherKeys(results: seq<LineResult>, m: nat)
    requires m < |results| && results[m].Accepted?
    requires forall i :: m < i < |results| && results[i].Accepted? ==>
      KeyOf(results[i].record) != KeyOf(results[m].record)
    ensures forall r :: r in AcceptedRecords(results[m + 1..]) ==> KeyOf(r) != KeyOf(results[m].record)
  {
    var post := results[m + 1..];
    AcceptedRecordsMembers(post);
    forall r | r in AcceptedRecords(post)
      ensures KeyOf(r) != KeyOf(results[m].record)
    {
      var i' :| 0 <= i' < |post| && post[i'].Accepted? && post[i'].record == r;
      assert post[i'] == results[m + 1 + i'];
    }
  }

  /** Last value wins over lines: if the accepted line `m` is the last
      accepted line with its key, the store the loop leaves holds that line's
      three values at the key. */
  lemma ReplayLastAccepted(s: Store, results: seq<LineResult>, m: nat)
    requires s.Valid() && m < |results| && results[m].Accepted?
    requires forall i :: m < i < |results| && results[i].Accepted? ==>
      KeyOf(results[i].record) != KeyOf(results[m].record)
    ensures Replay(s, AcceptedRecords(results)).temperature.Get(KeyOf(results[m].record)) == Some(TemperatureOf(results[m].record))
    ensures Replay(s, AcceptedRecords(results)).battery.Get(KeyOf(results[m].record)) == Some(BatteryOf(results[m].record))
    ensures Replay(s, AcceptedRecords(results)).humidity.Get(KeyOf(results[m].record)) == Some(HumidityOf(results[m].record))
  {
    AcceptedRecordsSplit(results, m);
    LaterRecordsOtherKeys(results, m);
    ReplayLastOf(s, AcceptedRecords(results[..m]), results[m].record, AcceptedRecords(results[m + 1..]));
  }

  /** The store after handling a line with result `res`: only an accepted
      line changes it. */
  function After(s: Store, res: LineResult): (t: Store)
    requires s.Valid()
    ensures t.Valid()
  {
    if res.Accepted? then Ingested(s, res.record) else s
  }

  /** Handling one more line replays one more record exactly when it was accepted. */
  lemma ReplayAcceptedSnoc(s: Store, results: seq<LineResult>, res: LineResult)
    requires s.Valid()
    ensures Replay(s, AcceptedRecords(results + [res])) == After(Replay(s, AcceptedRecords(results)), res)
  {
    var rs := AcceptedRecords(results);
    assert AcceptedRecords(results + [res]) == rs + (if res.Accepted? then [res.record] else []) by {
      assert (results + [res])[..|results|] == results;
    }
    if res.Accepted? {
      ReplaySnoc(s, rs, res.record);
    } else {
      assert rs + [] == rs;
    }
  }

  /** Lines that do not decode, however many, store nothing: the store is as
      it was. */
  lemma {:induction false} SkippedLeaveStore(s: Store, results: seq<LineResult>)
    requires s.Valid()
    requires forall i :: 0 <= i < |results| ==> results[i].Skipped?
    ensures AcceptedRecords(results) == []
    ensures Replay(s, AcceptedRecords(results)) == s
    decreases |results|
  {
    if results != [] {
      SkippedLeaveStore(s, results[..|results| - 1]);
    }
  }

  /** The clock decides only the warning: whether a line is stored, and what
      the store becomes, is the same at any time, stale or not. */
  lemma StoreIgnoresClock(s: Store, line: string, decode: string -> Decoded, parseTime: Value -> Option<int>, now1: int, now2: int)
    requires s.Valid()
    ensures Classify(line, decode, parseTime, now1).Accepted? <==> Classify(line, decode, parseTime, now2).Accepted?
    ensures After(s, Classify(line, decode, parseTime, now1)) == After(s, Classify(line, decode, parseTime, now2))
  {
  }

  /** Every handled line got the decision `Classify` prescribes. */
  ghost predicate Handled(results: seq<LineResult>, lines: seq<string>, clock: nat -> int, decode: string -> Decoded, parseTime: Value -> Option<int>)
  {
    && |results| <= |lines|
    && (forall i :: 0 <= i < |results| ==> results[i] == Classify(lines[i], decode, parseTime, clock(i)))
    && (forall i :: 0 <= i < |results| - 1 ==> !results[i].Halted?)
  }

  lemma HandledSnoc(results: seq<LineResult>, res: LineResult, lines: seq<string>, clock: nat -> int, decode: string -> Decoded, parseTime: Value -> Option<int>)
    requires Handled(results, lines, clock, decode, parseTime) && |results| < |lines|
    requires results == [] || !results[|results| - 1].Halted?
    requires res == Classify(lines[|results|], decode, parseTime, clock(|results|))
    ensures Handled(results + [res], lines, clock, decode, parseTime)
  {
  }

  class Collector {
    const url: Option<string>
    var temperature: Dict<Key, Value>
    var battery: Dict<Key, Value>
    var humidity: Dict<Key, Value>

    /** `self.data`. */
    function State(): Store
      reads this
    {
      Store(temperature, battery, humidity)
    }

    ghost predicate Valid()
      reads this
    {
      State().Valid()
    }

    /** `RtlCollector(url)`: three empty dicts. (`self.labels` never changes;
        it is the constant `Labels`, which both the key and the gauges use.) */
    constructor (url: Option<string>)
      ensures Valid()
      ensures this.url == url
      ensures State() == EmptyStore()
    {
      this.url := url;
      temperature, battery, humidity := EmptyDict(), EmptyDict(), EmptyDict();
    }

    /** Lines 94-97: write the record's key into all three dicts. */
    method Ingest(r: Record)
      requires Valid()
      modifies this
      ensures Valid()
      ensures State() == Ingested(old(State()), r)
    {
      var key := KeyOf(r);
      temperature := temperature.Put(key, TemperatureOf(r));
      battery := battery.Put(key, BatteryOf(r));
      humidity := humidity.Put(key, HumidityOf(r));
    }

    /** Lines 83-97 for one line: decode, check the timestamp, ingest. */
    method Step(line: string, now: int, decode: string -> Decoded, parseTime: Value -> Option<int>) returns (res: LineResult)
      requires Valid()
      modifies this
      ensures Valid()
      ensures res == Classify(line, decode, parseTime, now)
      ensures State() == After(old(State()), res)
    {
      match decode(line)
      case Malformed =>
        res := Skipped(line);
      case Raised =>
        res := Halted(DecodeRaised);
      case NotAnObject(v) =>
        res := Halted(NonObject(v));
      case Object(data) =>
        var check := CheckTime(data, now, parseTime);
        if check.Unparsable? {
          res := Halted(BadTime(check.time));
        } else {
          Ingest(data);
          res := Accepted(data, check.Stale?);
        }
    }

    /** The `for line in func()` loop over the lines a source delivers: lines
        are handled in order, a skipped line does not stop the loop, the first
        fault does, and the store ends as the replay of the stored records. */
    method Consume(lines: seq<string>, clock: nat -> int, decode: string -> Decoded, parseTime: Value -> Option<int>)
      returns (results: seq<LineResult>)
      requires Valid()
      modifies this
      ensures Valid()
      ensures |results| <= |lines|
      ensures forall i :: 0 <= i < |results| ==> results[i] == Classify(lines[i], decode, parseTime, clock(i))
      ensures forall i :: 0 <= i < |results| - 1 ==> !results[i].Halted?
      ensures |results| < |lines| ==> results != [] && results[|results| - 1].Halted?
      ensures State() == Replay(old(State()), AcceptedRecords(results))
    {
      results := [];
      ghost var start := State();
      var halted := false;
      while |results| < |lines| && !halted
        invariant Handled(results, lines, clock, decode, parseTime)
        invariant halted <==> results != [] && results[|results| - 1].Halted?
        invariant State() == Replay(start, AcceptedRecords(results))
      {
        var res := Step(lines[|results|], clock(|results|), decode, parseTime);
        ReplayAcceptedSnoc(start, results, res);
        HandledSnoc(results, res, lines, clock, decode, parseTime);
        results := results + [res];
        halted := res.Halted?;
      }
    }

    /** `run`: read from stdin when no URL is configured, otherwise poll it,
        and feed the lines to the loop. */
    method Run(stdin: string, responses: seq<string>, clock: nat -> int, decode: string -> Decoded, parseTime: Value -> Option<int>)
      returns (lines: seq<string>, results: seq<LineResult>, stop: Stop)
      requires Valid()
      modifies this
      ensures Valid()
      ensures url.None? ==>
        (AllLines(lines) && |Concat(lines)| <= |stdin|
         && Concat(lines) == stdin[..|Concat(lines)|] && '\n' !in stdin[|Concat(lines)|..])
      ensures url.Some? ==>
        (|lines| <= |responses| && forall i :: 0 <= i < |lines| ==> LastLine(responses[i]) == Some(lines[i]))
      ensures url.Some? && |lines| < |responses| ==> AllNewlines(responses[|lines|])
      ensures |results| <= |lines|
      ensures forall i :: 0 <= i < |results| ==> results[i] == Classify(lines[i], decode, parseTime, clock(i))
      ensures forall i :: 0 <= i < |results| - 1 ==> !results[i].Halted?
      ensures stop.Faulted? <==> results != [] && results[|results| - 1].Halted?
      ensures stop.Faulted? ==> stop.fault == results[|results| - 1].fault
      ensures !stop.Faulted? ==> |results| == |lines|
      ensures stop.NoLineInResponse? <==> url.Some? && !stop.Faulted? && |lines| < |responses|
      ensures stop.NoLineInResponse? ==> LastLine(responses[|lines|]).None? && AllNewlines(responses[|lines|])
      ensures State() == Replay(old(State()), AcceptedRecords(results))
    {
      var failed := false;
      if url.None? {
        var buff;
        lines, buff := ReadStdin(stdin);
        assert stdin == Concat(lines) + buff;
      } else {
        lines, failed := ReadHttp(responses);
      }
      results := Consume(lines, clock, decode, parseTime);
      if results != [] && results[|results| - 1].Halted? {
        stop := Faulted(results[|results| - 1].fault);
      } else if failed {
        stop := NoLineInResponse;
      } else {
        stop := InputEnded;
      }
    }

    /** `collect`: one family per kind, in the order of `self.data`. */
    method Collect() returns (families: seq<Family>)
      requires Valid()
      ensures |families| == |Kinds|
      ensures forall i :: 0 <= i < |Kinds| ==> families[i] == Gauge(Kinds[i], State().Table(i))
    {
      var data := State();
      families := [];
      var i := 0;
      while i < |Kinds|
        invariant 0 <= i <= |Kinds| && |families| == i
        invariant forall j :: 0 <= j < i ==> families[j] == Gauge(Kinds[j], data.Table(j))
      {
        var f := Render(Kinds[i], data.Table(i));
        families := families + [f];
        i := i + 1;
      }
    }
  }
}
