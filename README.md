# rtl_433 Prometheus exporter: the ingestion-and-aggregation engine in Dafny

`rtlexporter.py` turns the JSON lines that `rtl_433` prints into three
Prometheus gauges. The gauges are temperature, battery and humidity, each
labelled by `model`, `id` and `channel`. The class `RtlCollector` holds the
aggregate store `self.data`. This is three Python dicts, each keyed by the
`(model, id, channel)` tuple of `str()` label values. `run` reads lines from
one of two sources:

- stdin, through `read_stdin`, which buffers one character at a time;
- a URL, through `read_http`, which keeps the last non-empty line of each
  response body.

For each line, `run` decodes the JSON, checks the `time` field for staleness
and writes the record into all three dicts, last value wins. `collect` turns
the store into one gauge family per kind.

The model is organised as follows:

- `Wrappers`: the `Option` type.
- `Json`: decoded JSON values. Floats and nested values are opaque: they are
  carried by their Python text and only copied. `Json` also defines `str()`
  of a value, which is how labels become text.
- `Sensor`: the sensor key, the label list, and the per-kind value of a
  record with its defaults (`-40.0`, `0`, `0`). `self.labels` is set once
  and never changed, so it is the constant `Sensor.Labels`, which both the
  key and the gauges use.
- `Dicts`: a Python dict as a map plus its insertion order. Overwriting a key
  keeps its place, which is the order `collect` emits samples in.
- `Aggregate`: `self.data` as a value (`Store`). It holds:
  - its invariant: three well-formed dicts listing the same keys in the same
    order;
  - one ingest (`Ingested`);
  - the replay of a sequence of records (`Replay`).
- `Staleness`: the out-of-date check. "Now" is in microseconds, as
  `datetime.utcnow()` is. The sample time is in whole seconds, as
  `%Y-%m-%d %H:%M:%S` is.
- `Sources`: the two line sources.
  - `ReadStdin` is the buffering loop over a finite input.
  - `ReadHttp` runs over a finite run of response bodies.
  - `LastLine` is the pure last-non-empty-line selection. `SplitLines`,
    `JoinLines` and `NonEmpty` define Python's `split("\n")`, `"\n".join`
    and the filter of empty pieces.
- `Snapshot`: the gauge families `collect` yields, as values (`Gauge`), and
  the loop that builds one (`Render`).
- `Exporter`: the decision for one line (`Classify`) and the class
  `Collector`. `Collector` has the three dicts as fields and methods for:
  - one ingest (`Ingest`);
  - one line (`Step`);
  - the `for line in func()` loop (`Consume`);
  - `run` with its choice of source (`Run`);
  - `collect` (`Collect`).

`json.loads`, `strptime` and `utcnow` are parameters of the model:

- `decode` gives one of four outcomes:
  - `Malformed` when `json.loads` raises `ValueError`;
  - `Object` for a JSON object;
  - `NotAnObject` for any other JSON value;
  - `Raised` when `json.loads` raises anything else, such as `RecursionError`
    on deeply nested input.
- `parseTime` gives `None` when `strptime` raises.
- `clock(i)` is the time at which the i-th line is handled.

Behaviour of the code that the model keeps on purpose:

- The staleness test is `utcnow() - sample_time > timedelta(seconds=120)`. It
  is a signed difference, so a timestamp in the future never warns.
- Only a line on which `json.loads` raises `ValueError` is skipped. The line
  ends `run`'s loop (`Halted`, `Faulted`) when:
  - it decodes to a non-object;
  - its `time` field is rejected by `strptime`;
  - `json.loads` raises any other exception.
  In each case the exception escapes the inner `try`. The first two are
  raised after it. The third is raised inside it and is not caught by
  `except ValueError`.
- A response body with no non-empty line makes `lines[-1]` raise
  `IndexError`. That also ends the loop (`NoLineInResponse`).

## Model

| member | source | states |
|---|---|---|
| Json.NatToString | rtlexporter.py:94 | `str()` of a non-negative int is a non-empty string of decimal digits without a leading zero |
| Json.NatToStringRoundTrip | rtlexporter.py:94 | reading back the digits `str(n)` prints gives `n` |
| Json.IntToString | rtlexporter.py:94 | `str()` of an int is a minus sign exactly when it is negative, then decimal digits |
| Json.IntToStringInjective | rtlexporter.py:94 | two ints with the same `str()` text are equal |
| Json.Str | rtlexporter.py:94 | `str()` of a text value is the text itself; only null and values whose own text is "None" print as "None", never an integer or a boolean |
| Sensor.LabelValues | rtlexporter.py:44-45 | a key gives exactly one label value per label name |
| Sensor.KeyOf | rtlexporter.py:94 | the key's label values are `str(data.get(l))` for `l` in `model`, `id`, `channel`, in that order |
| Sensor.LabelText | rtlexporter.py:94 | `str(data.get(name))` is "None" exactly when the label is missing, null, or a value whose text is "None", so such sensors share one bucket; a text label reads as itself |
| Sensor.TemperatureOf | rtlexporter.py:95 | the stored temperature is `temperature_C` when present, even as JSON null, and `-40.0` when absent |
| Sensor.BatteryOf | rtlexporter.py:96 | the stored battery value is `battery_ok` when present, even as JSON null, and `0` when absent |
| Sensor.HumidityOf | rtlexporter.py:97 | the stored humidity is `humidity` when present, even as JSON null, and `0` when absent |
| Sensor.KeyIgnoresOtherFields | rtlexporter.py:94 | records that agree on the three label fields have the same key, whatever else they carry |
| Sensor.IntLabels | rtlexporter.py:94 | two integer labels give the same label text iff they are equal; an integer label reads as the text of its digits |
| Dicts.EmptyDict | rtlexporter.py:28-30 | `{}` is well formed, with no keys and no entries |
| Dicts.Dict.Put | rtlexporter.py:95-97 | `d[k] = v`: `k` maps to `v`, every other key keeps its value, the domain grows by at most `k`, and a new key goes last in iteration order while an existing key keeps its place |
| Aggregate.Store.Table | rtlexporter.py:38 | each of the three dicts of a valid store is itself well formed |
| Aggregate.EmptyStore | rtlexporter.py:27-31 | the initial store is valid and its three dicts are empty |
| Aggregate.SameKeySets | rtlexporter.py:94-97 | in a valid store the three dicts have identical key sets |
| Aggregate.Ingested | rtlexporter.py:94-97 | ingest keeps the store invariant; it stores the record's three values (defaults for absent fields) at its key; it changes no other key in any dict; it grows the domain by exactly that key |
| Aggregate.OverwriteNotAccumulate | rtlexporter.py:94-97 | two records with the same label tuple share one entry: ingesting both is the same as ingesting the second alone |
| Aggregate.Replay | rtlexporter.py:82-97 | ingesting any sequence of records keeps the store invariant |
| Aggregate.ReplayLastWins | rtlexporter.py:94-97 | after a sequence of ingests, each key holds the three values of the last record with that key |
| Aggregate.ReplayLastOf | rtlexporter.py:94-97 | a record followed only by records with other keys leaves its three values at its key |
| Aggregate.ReplayUntouched | rtlexporter.py:94-97 | a key that no ingested record carries keeps its entry, or its absence, in all three dicts |
| Aggregate.ReplayKeys | rtlexporter.py:94-97 | after a sequence of ingests the domain is the old domain plus the keys of the records; no entry is ever removed |
| Staleness.IsStale | rtlexporter.py:92 | a stale sample lies in the past; StaleThreshold, StaleMonotone and FutureNeverStale pin the 120 s signed comparison |
| Staleness.CheckTime | rtlexporter.py:90-93 | with no `time` field there is no check; an unparsable `time` is a fault; a sample is stale iff `time` is present, parses and lies more than 120 s before now |
| Staleness.StaleThreshold | rtlexporter.py:92 | a sample exactly 120 s old is not stale; one microsecond older is |
| Staleness.StaleMonotone | rtlexporter.py:92 | once stale, a sample stays stale as time goes on |
| Staleness.FutureNeverStale | rtlexporter.py:92 | a timestamp at or after now never warns, however far in the future |
| Sources.ReadStdin | rtlexporter.py:66-72 | each yielded line ends with its only newline; the lines followed by the pending buffer are exactly the input; the buffer holds no newline, so it was emptied at each yield |
| Sources.StdinSplitUnique | rtlexporter.py:66-72 | the lines and buffer that `ReadStdin` promises are unique: only one such split of an input exists |
| Sources.SplitLines | rtlexporter.py:55 | `split("\n")` gives at least one piece, and no piece holds a newline |
| Sources.JoinSplit | rtlexporter.py:55 | joining the pieces of `split("\n")` with newlines gives the text back |
| Sources.SplitJoin | rtlexporter.py:55 | splitting a newline-join of newline-free pieces gives the pieces back |
| Sources.NonEmpty | rtlexporter.py:55 | the filter keeps exactly the non-empty pieces, never more of them than there are pieces, and a non-empty last piece stays last |
| Sources.NonEmptyAppend | rtlexporter.py:55 | filtering a concatenation is the concatenation of the filtered parts, so the filter keeps the pieces' order |
| Sources.LastLine | rtlexporter.py:55-56 | the picked line is a non-empty piece of the split body without a newline; LastLineShape, LastLineSplit and LastLineOf characterise it by the body alone |
| Sources.LastLineNewline | rtlexporter.py:55-56 | a trailing newline does not change the line `read_http` picks |
| Sources.LastLineShape | rtlexporter.py:55-56 | no line is picked iff the body is only newlines; a picked line is non-empty and holds no newline |
| Sources.LastLineSplit | rtlexporter.py:55-56 | the picked line follows the body's last newline before its trailing newlines: the body is a prefix ending in a newline (or empty), the line, then only newlines |
| Sources.LastLineOf | rtlexporter.py:55-56 | conversely, any body of that shape yields exactly that line |
| Sources.ReadHttp | rtlexporter.py:54-56 | the i-th yielded line is the last non-empty line of the i-th response; the run stops early iff a response has no non-empty line, and then that response has no line to pick and is only newlines |
| Snapshot.SamplesOf | rtlexporter.py:44-45 | one sample per listed key, in order, carrying that key's labels and value |
| Snapshot.Gauge | rtlexporter.py:39-45 | the family is named `rtl_433_<kind>`, documented `<kind> from the rtl_433 command`, labelled `model`, `id`, `channel`, with one sample per dict key in iteration order carrying that key's labels and value |
| Snapshot.GaugeOnePerEntry | rtlexporter.py:44-45 | as many samples as entries, every entry among them, and no two samples with the same labels |
| Snapshot.Render | rtlexporter.py:44-45 | the `add_metric` loop builds exactly the family `Gauge` describes |
| Exporter.Classify | rtlexporter.py:83-93 | a line is skipped iff `json.loads` raises `ValueError`; it is stored iff it decodes to an object whose `time`, if present, parses; the stored record is the decoded object; the stale flag is the staleness rule; otherwise the fault names the non-object value, the bad `time`, or an exception from `json.loads` other than `ValueError` |
| Exporter.AcceptedRecordsMembers | rtlexporter.py:82-97 | the records the loop stores are at most one per line and exactly the records of the accepted lines |
| Exporter.AcceptedRecordsAppend | rtlexporter.py:82-97 | the stored records keep the order of their lines: the records of two consecutive runs of lines are the first run's, then the second's |
| Exporter.ReplayLastAccepted | rtlexporter.py:82-97 | last value wins over lines: when accepted line `m` is the last accepted line with its key, the store the loop leaves holds that line's three values at the key |
| Exporter.After | rtlexporter.py:94-97 | the store after one line keeps the store invariant |
| Exporter.SkippedLeaveStore | rtlexporter.py:83-87 | any number of lines that do not decode store nothing and leave the store as it was |
| Exporter.StoreIgnoresClock | rtlexporter.py:90-97 | whether a line is stored, and the resulting store, do not depend on the time: stale records are stored like fresh ones |
| Exporter.Collector.constructor | rtlexporter.py:21-33 | a new collector keeps its URL and has an empty, valid store |
| Exporter.Collector.Ingest | rtlexporter.py:94-97 | the three dict writes leave exactly the store `Ingested` describes |
| Exporter.Collector.Step | rtlexporter.py:83-97 | one line gets the decision `Classify` prescribes, and the store changes only when the line is stored, as one ingest |
| Exporter.Collector.Consume | rtlexporter.py:82-97 | lines are handled in order, each as `Classify` prescribes; a skipped line does not stop the loop; the first fault does; the final store is the replay of the stored records in order |
| Exporter.Collector.Run | rtlexporter.py:74-100 | stdin mode handles exactly the lines the input holds up to its last newline; URL mode takes the last line of each response up to the first response with no line; unless a fault ends the loop, every line taken is handled; the loop ends with the input, at the first fault, or at a response that has no line and is only newlines; the store is the replay of the stored records |
| Exporter.Collector.Collect | rtlexporter.py:36-47 | one family per kind, in the order temperature, battery, humidity, each the `Gauge` of that kind's dict |

## Left out

- `requests.get`, `.content.decode()`, the 6000 × 10 ms sleep and `sys.stdin.read(1)` are network and stream I/O. The model takes the text they deliver: a finite stdin string, and a finite sequence of response bodies.
- `Sources.ReadStdin` does not model what happens at end of input. There, `read(1)` returns `''` forever and `read_stdin` spins without yielding. The model consumes a finite input and returns the pending buffer.
- `Sources.ReadHttp` does not model a failing HTTP request. Such a failure propagates out of `run`, like the `IndexError` that is modelled.
- `json.loads` is a parameter (`decode`), not a parser. Its outcomes are modelled (a `ValueError`, an object, another JSON value, any other exception), its grammar and its nesting limit are not.
- `datetime.strptime` and `datetime.utcnow` are parameters (`parseTime`, `clock`). The date format is not parsed in the model.
- Floating point is not modelled. Float values and the `-40.0` default are carried by their Python text. `str()` of a float or of a nested JSON value is that given text.
- The conversion of sample values to floats by the Prometheus client library is not modelled. Neither are `GaugeMetricFamily`, `REGISTRY`, `start_http_server` and the `__main__` bootstrap. These are foreign calls and a server.
- Logging is left out: "can't decode json", `LOG.debug` and "Out of date sample". The stale flag of `Accepted` and the `Stale` check result stand for the warning.
- `KeyboardInterrupt` and `sys.stdout.flush` are signal handling and are not modelled.
- The scrape thread runs `collect` concurrently with `run`; the model treats them as separate sequential operations on the same collector.
- The unused local `k = 0` in `read_stdin` has no effect and is not modelled.
