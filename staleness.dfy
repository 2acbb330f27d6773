/** The out-of-date check of `run` (rtlexporter.py:90-93). `datetime.utcnow()`
    has microsecond resolution while the `%Y-%m-%d %H:%M:%S` timestamp has
    whole seconds, so "now" is microseconds and the sample time is seconds,
    both counted from the same epoch; `timedelta` comparison is exact. */
module Staleness {
  import opened Wrappers
  import opened Json

  const MicrosPerSecond: int := 1_000_000

  /** `timedelta(seconds=120)`, in microseconds. */
  const MaxAge: int := 120 * MicrosPerSecond

  /** `(utcnow() - sample_time) > timedelta(seconds=120)`: a signed difference,
      so a timestamp in the future is never stale. */
  predicate IsStale(now: int, sampleTime: int)
    ensures IsStale(now, sampleTime) ==> sampleTime * MicrosPerSecond < now
  {
    now - sampleTime * MicrosPerSecond > MaxAge
  }

  /** What the check makes of one decoded object. */
  datatype TimeCheck =
    | NoTime                    // no `time` field: no check at all
    | Fresh
    | Stale(time: Value)        // logged as "Out of date sample"
    | Unparsable(time: Value)   // strptime raises outside the inner try

  /** `parseTime` stands for `datetime.strptime(data['time'], fmt)` in epoch
      seconds; `None` when it raises (not a string, or not in the format). */
  function CheckTime(r: Record, now: int, parseTime: Value -> Option<int>): (c: TimeCheck)
    ensures c.NoTime? <==> "time" !in r
    ensures c.Unparsable? <==> "time" in r && parseTime(r["time"]).None?
    ensures c.Stale? <==> "time" in r && parseTime(r["time"]).Some? && IsStale(now, parseTime(r["time"]).value)
    ensures c.Stale? || c.Unparsable? ==> c.time == r["time"]
  {
    if "time" !in r then NoTime
    else match parseTime(r["time"])
      case None => Unparsable(r["time"])
      case Some(t) => if IsStale(now, t) then Stale(r["time"]) else Fresh
  }

  /** A sample exactly 120 s old is not stale; one microsecond more is. */
  lemma StaleThreshold(t: int)
    ensures !IsStale(t * MicrosPerSecond + MaxAge, t)
    ensures IsStale(t * MicrosPerSecond + MaxAge + 1, t)
  {
  }

  /** Staleness is monotone in "now": once stale, a sample stays stale. */
  lemma StaleMonotone(now: int, later: int, t: int)
    requires now <= later && IsStale(now, t)
    ensures IsStale(later, t)
  {
  }

  /** A timestamp at or after "now" never warns, however far in the future:
      the difference is signed, not absolute. */
  lemma FutureNeverStale(now: int, t: int)
    requires t * MicrosPerSecond >= now
    ensures !IsStale(now, t)
  {
  }
}
