/** The circuit breaker and the checkpointer it protects. Times are nanoseconds of a monotone clock. */
module CircuitBreaker {
  import Division

  datatype CircuitState = Closed | Open | HalfOpen

  /** A recorded result and when it was recorded. */
  datatype Outcome = Outcome(ok: bool, at: int)

  datatype Config = Config(maxFailures: int, openDuration: int)

  /** NewCircuitBreaker's defaults. */
  function WithDefaults(c: Config): (out: Config)
    ensures if c.maxFailures > 0 then out.maxFailures == c.maxFailures else out.maxFailures == 3
    ensures if c.openDuration > 0 then out.openDuration == c.openDuration else out.openDuration == 30_000_000_000
  {
    Config(if c.maxFailures <= 0 then 3 else c.maxFailures,
           if c.openDuration <= 0 then 30_000_000_000 else c.openDuration)
  }

  // ---------------------------------------------------------------- the breaker as a function of its history

  /** The length of the run of failures at the end. */
  function TrailingFailures(h: seq<Outcome>): (n: nat)
    ensures n <= |h| && forall k :: |h| - n <= k < |h| ==> !h[k].ok
    ensures n < |h| ==> h[|h| - n - 1].ok
  {
    if h == [] || h[|h| - 1].ok then 0 else 1 + TrailingFailures(h[..|h| - 1])
  }

  /** Closed while the run of failures is short; then open until the pause since the last failure is over. */
  function Effective(cfg: Config, h: seq<Outcome>, now: int): CircuitState {
    if TrailingFailures(h) < cfg.maxFailures || h == [] then Closed
    else if now - h[|h| - 1].at < cfg.openDuration then Open
    else HalfOpen
  }

  class CircuitBreaker {
    var state: CircuitState
    var failures: nat
    var lastFailTime: int
    const config: Config
    ghost var history: seq<Outcome>
    ghost var clock: int // the latest reading any call has used

    ghost predicate Valid()
      reads this
    {
      && config.maxFailures > 0 && config.openDuration > 0
      && failures == TrailingFailures(history)
      && (failures > 0 ==> lastFailTime == history[|history| - 1].at)
      && (state == Closed <==> failures < config.maxFailures)
      && (state == HalfOpen ==> clock - lastFailTime >= config.openDuration)
    }

    constructor (cfg: Config)
      ensures Valid() && history == [] && config == WithDefaults(cfg)
    {
      config := WithDefaults(cfg);
      state, failures, lastFailTime, history, clock := Closed, 0, 0, [], 0;
    }

    method CurrentState(now: int) returns (s: CircuitState)
      requires Valid() && clock <= now
      modifies this
      ensures Valid() && history == old(history) && clock == now
      ensures s == Effective(config, history, now)
    {
      if state == Open && now - lastFailTime >= config.openDuration {
        state := HalfOpen;
      }
      clock := now;
      return state;
    }

    method Allow(now: int) returns (allowed: bool)
      requires Valid() && clock <= now
      modifies this
      ensures Valid() && history == old(history) && clock == now
      ensures allowed <==> Effective(config, history, now) != Open
    {
      var s := CurrentState(now);
      match s
      case Closed => return true;
      case HalfOpen => return true;
      case Open => return false;
    }

    method RecordSuccess(now: int)
      requires Valid() && clock <= now
      modifies this
      ensures Valid() && history == old(history) + [Outcome(true, now)] && clock == now
    {
      failures := 0;
      state := Closed;
      history, clock := history + [Outcome(true, now)], now;
    }

    method RecordFailure(now: int)
      requires Valid() && clock <= now
      modifies this
      ensures Valid() && history == old(history) + [Outcome(false, now)] && clock == now
    {
      ghost var h := history + [Outcome(false, now)];
      assert h[..|h| - 1] == history;
      failures := failures + 1;
      lastFailTime := now;
      if failures >= config.maxFailures {
        state := Open;
      }
      history, clock := h, now;
    }
  }

  // ---------------------------------------------------------------- protected calls

  /** A call of the wrapped checkpointer: when it is made, and when and how it would come back. */
  datatype Call = Call(start: int, end: int, ok: bool)

  predicate Reaches(cfg: Config, h: seq<Outcome>, c: Call) {
    Effective(cfg, h, c.start) != Open
  }

  function AfterCall(cfg: Config, h: seq<Outcome>, c: Call): seq<Outcome> {
    if Reaches(cfg, h, c) then h + [Outcome(c.ok, c.end)] else h
  }

  class ProtectedCheckpointer {
    const breaker: CircuitBreaker

    constructor (cfg: Config)
      ensures breaker.Valid() && breaker.history == [] && fresh(breaker)
    {
      breaker := new CircuitBreaker(cfg);
    }

    /** `inner` says what the wrapped Dump would do; the error is returned as `ok == false`. */
    method Dump(inner: Call) returns (ok: bool)
      requires breaker.Valid() && breaker.clock <= inner.start <= inner.end
      modifies breaker
      ensures breaker.Valid() && breaker.clock <= inner.end
      ensures breaker.history == AfterCall(breaker.config, old(breaker.history), inner)
      ensures ok == (Reaches(breaker.config, old(breaker.history), inner) && inner.ok)
    {
      var allowed := breaker.Allow(inner.start);
      if !allowed {
        return false;
      }
      if !inner.ok {
        breaker.RecordFailure(inner.end);
      } else {
        breaker.RecordSuccess(inner.end);
      }
      return inner.ok;
    }

    method PreDump(inner: Call) returns (ok: bool)
      requires breaker.Valid() && breaker.clock <= inner.start <= inner.end
      modifies breaker
      ensures breaker.Valid() && breaker.clock <= inner.end
      ensures breaker.history == AfterCall(breaker.config, old(breaker.history), inner)
      ensures ok == (Reaches(breaker.config, old(breaker.history), inner) && inner.ok)
    {
      var allowed := breaker.Allow(inner.start);
      if !allowed {
        return false;
      }
      if !inner.ok {
        breaker.RecordFailure(inner.end);
      } else {
        breaker.RecordSuccess(inner.end);
      }
      return inner.ok;
    }

    /** Restore also returns a process id: 0 when the breaker rejects, otherwise what the inner call returned. */
    method Restore(inner: Call, innerPid: int) returns (pid: int, ok: bool)
      requires breaker.Valid() && breaker.clock <= inner.start <= inner.end
      modifies breaker
      ensures breaker.Valid() && breaker.clock <= inner.end
      ensures breaker.history == AfterCall(breaker.config, old(breaker.history), inner)
      ensures ok == (Reaches(breaker.config, old(breaker.history), inner) && inner.ok)
      ensures pid == if Reaches(breaker.config, old(breaker.history), inner) then innerPid else 0
    {
      var allowed := breaker.Allow(inner.start);
      if !allowed {
        return 0, false;
      }
      if !inner.ok {
        breaker.RecordFailure(inner.end);
      } else {
        breaker.RecordSuccess(inner.end);
      }
      return innerPid, inner.ok;
    }
  }

  // ---------------------------------------------------------------- how often a failing checkpointer is tried

  function HistoryAfter(cfg: Config, h: seq<Outcome>, calls: seq<Call>): seq<Outcome> {
    if calls == [] then h
    else AfterCall(cfg, HistoryAfter(cfg, h, calls[..|calls| - 1]), calls[|calls| - 1])
  }

  /** One caller, one call after the other. */
  predicate Sequential(calls: seq<Call>) {
    calls == [] ||
    var n := |calls| - 1;
    && Sequential(calls[..n]) && calls[n].start <= calls[n].end
    && (n > 0 ==> calls[n - 1].end <= calls[n].start)
  }

  /** No call that gets through succeeds. */
  predicate FailingStreak(cfg: Config, h: seq<Outcome>, calls: seq<Call>) {
    calls == [] ||
    var n := |calls| - 1;
    && FailingStreak(cfg, h, calls[..n])
    && (Reaches(cfg, HistoryAfter(cfg, h, calls[..n]), calls[n]) ==> !calls[n].ok)
  }

  /** How many calls made by time `t` reached the inner checkpointer. */
  function ReachedBy(cfg: Config, h: seq<Outcome>, calls: seq<Call>, t: int): nat {
    if calls == [] then 0 else
    var n := |calls| - 1;
    ReachedBy(cfg, h, calls[..n], t) +
    if calls[n].start <= t && Reaches(cfg, HistoryAfter(cfg, h, calls[..n]), calls[n]) then 1 else 0
  }

  /** One of the calls brought the run of failures up to the maximum, and came back at `t0`. */
  predicate OpenedAt(cfg: Config, h: seq<Outcome>, calls: seq<Call>, t0: int) {
    calls != [] &&
    var n := |calls| - 1;
    || OpenedAt(cfg, h, calls[..n], t0)
    || (&& TrailingFailures(HistoryAfter(cfg, h, calls[..n])) < cfg.maxFailures
        && TrailingFailures(HistoryAfter(cfg, h, calls)) == cfg.maxFailures
        && calls[n].end == t0)
  }

  /** The last recorded outcome is no earlier than `due` and no later than `end`. */
  predicate LastIsWithin(h: seq<Outcome>, due: int, end: int) {
    h != [] && due <= h[|h| - 1].at <= end
  }

  lemma FailureCounts(h: seq<Outcome>, at: int)
    ensures TrailingFailures(h + [Outcome(false, at)]) == TrailingFailures(h) + 1
  {
    var after := h + [Outcome(false, at)];
    assert after[..|after| - 1] == h;
  }

  /** A call that gets through an open breaker was made at least openDuration after the last failure. */
  lemma ReachedOpen(cfg: Config, h: seq<Outcome>, c: Call, due: int, end: int)
    requires TrailingFailures(h) >= cfg.maxFailures && LastIsWithin(h, due, end) && Reaches(cfg, h, c)
    ensures c.start >= due + cfg.openDuration
  {
  }

  /** When failure number `f` of the streak is due at the earliest. */
  function Due(cfg: Config, t0: int, f: int): int
    decreases f - cfg.maxFailures
  {
    if f <= cfg.maxFailures then t0 else Due(cfg, t0, f - 1) + cfg.openDuration
  }

  lemma {:induction false} DueIs(cfg: Config, t0: int, f: int)
    requires f >= cfg.maxFailures
    ensures Due(cfg, t0, f) == t0 + (f - cfg.maxFailures) * cfg.openDuration
    decreases f - cfg.maxFailures
  {
    if f > cfg.maxFailures {
      DueIs(cfg, t0, f - 1);
      assert (f - cfg.maxFailures) * cfg.openDuration
          == (f - 1 - cfg.maxFailures) * cfg.openDuration + cfg.openDuration;
    }
  }

  /** An open streak: its last failure is not before it was due. */
  predicate OnTime(cfg: Config, h: seq<Outcome>, t0: int, end: int) {
    && TrailingFailures(h) >= cfg.maxFailures
    && LastIsWithin(h, Due(cfg, t0, TrailingFailures(h)), end)
  }

  lemma OneMoreFailure(cfg: Config, h: seq<Outcome>, c: Call, t0: int, end: int)
    requires OnTime(cfg, h, t0, end) && end <= c.start <= c.end && (Reaches(cfg, h, c) ==> !c.ok)
    ensures OnTime(cfg, AfterCall(cfg, h, c), t0, c.end)
  {
    if Reaches(cfg, h, c) {
      ReachedOpen(cfg, h, c, Due(cfg, t0, TrailingFailures(h)), end);
      FailureCounts(h, c.end);
    }
  }

  /** After opening, each further failure came at least openDuration after the one before it. */
  lemma {:induction false} StreakInvariant(cfg: Config, h: seq<Outcome>, calls: seq<Call>, t0: int)
    requires cfg.maxFailures > 0 && Sequential(calls) && FailingStreak(cfg, h, calls)
    requires OpenedAt(cfg, h, calls, t0)
    ensures OnTime(cfg, HistoryAfter(cfg, h, calls), t0, calls[|calls| - 1].end)
  {
    var n := |calls| - 1;
    var before := HistoryAfter(cfg, h, calls[..n]);
    if OpenedAt(cfg, h, calls[..n], t0) {
      StreakInvariant(cfg, h, calls[..n], t0);
      OneMoreFailure(cfg, before, calls[n], t0, calls[n - 1].end);
    }
  }

  /** From a clean start, every call that got through is one of the streak's failures. */
  lemma {:induction false} FailuresCountReaches(cfg: Config, h: seq<Outcome>, calls: seq<Call>, t: int)
    requires TrailingFailures(h) == 0 && FailingStreak(cfg, h, calls)
    ensures ReachedBy(cfg, h, calls, t) <= TrailingFailures(HistoryAfter(cfg, h, calls))
  {
    if calls != [] {
      var n := |calls| - 1;
      FailuresCountReaches(cfg, h, calls[..n], t);
      FailureCounts(HistoryAfter(cfg, h, calls[..n]), calls[n].end);
    }
  }

  /** A call that gets through by time `t` leaves the streak's failures within the bound. */
  lemma ReachedInTime(cfg: Config, h: seq<Outcome>, c: Call, t0: int, end: int, t: int)
    requires cfg.openDuration > 0 && OnTime(cfg, h, t0, end) && Reaches(cfg, h, c) && c.start <= t
    ensures TrailingFailures(h) + 1 <= cfg.maxFailures + (t - t0) / cfg.openDuration
  {
    var f := TrailingFailures(h);
    ReachedOpen(cfg, h, c, Due(cfg, t0, f), end);
    DueIs(cfg, t0, f + 1);
    Division.AtLeast(t - t0, f + 1 - cfg.maxFailures, cfg.openDuration);
  }

  /**
   A failing streak that began with a clean count and whose count reached maxFailures at t0 lets at most
   maxFailures + (t - t0) / openDuration calls through to the inner checkpointer by time t.
   */
  lemma {:induction false} FailingStreakIsThrottled(
    cfg: Config, h: seq<Outcome>, calls: seq<Call>, t0: int, t: int)
    requires cfg.maxFailures > 0 && cfg.openDuration > 0 && t >= t0
    requires TrailingFailures(h) == 0 && Sequential(calls) && FailingStreak(cfg, h, calls)
    requires OpenedAt(cfg, h, calls, t0)
    ensures ReachedBy(cfg, h, calls, t) <= cfg.maxFailures + (t - t0) / cfg.openDuration
  {
    var n := |calls| - 1;
    var front := calls[..n];
    if OpenedAt(cfg, h, front, t0) {
      FailingStreakIsThrottled(cfg, h, front, t0, t);
      var before := HistoryAfter(cfg, h, front);
      if calls[n].start <= t && Reaches(cfg, before, calls[n]) {
        StreakInvariant(cfg, h, front, t0);
        FailuresCountReaches(cfg, h, front, t);
        ReachedInTime(cfg, before, calls[n], t0, calls[n - 1].end, t);
      }
    } else {
      FailuresCountReaches(cfg, h, calls, t);
      Division.AtLeast(t - t0, 0, cfg.openDuration);
    }
  }
}
