/** Callers of one circuit breaker whose calls overlap: how many a failing checkpointer sees. */
module BreakerTraffic {
  import opened CircuitBreaker
  import Division

  /** A caller asks to be let through, by Allow; a call that was let through comes back and records its result. */
  datatype Event = Begin(at: int) | End(at: int, ok: bool)

  /** What has been recorded, how many calls are under way, and the time of the last event. */
  datatype Traffic = Traffic(history: seq<Outcome>, inFlight: nat, clock: int)

  predicate GetsThrough(cfg: Config, s: Traffic, e: Event) {
    e.Begin? && Effective(cfg, s.history, e.at) != Open
  }

  function Step(cfg: Config, s: Traffic, e: Event): Traffic
    requires e.End? ==> s.inFlight > 0
  {
    match e
    case Begin(at) => Traffic(s.history, if GetsThrough(cfg, s, e) then s.inFlight + 1 else s.inFlight, at)
    case End(at, ok) => Traffic(s.history + [Outcome(ok, at)], s.inFlight - 1, at)
  }

  /** The event can come next, leaves at most `c` calls under way, and is no success. */
  predicate FailingStep(cfg: Config, c: nat, s: Traffic, e: Event) {
    && s.clock <= e.at
    && (e.End? ==> s.inFlight > 0 && !e.ok)
    && Step(cfg, s, e).inFlight <= c
  }

  /** A run in which at most `c` calls overlap and none succeeds. */
  predicate FailingRun(cfg: Config, c: nat, s: Traffic, run: seq<Event>)
    decreases |run|
  {
    run != [] ==> FailingStep(cfg, c, s, run[0]) && FailingRun(cfg, c, Step(cfg, s, run[0]), run[1..])
  }

  /** How many calls that began by time `t` were let through. */
  function Reached(cfg: Config, c: nat, s: Traffic, run: seq<Event>, t: int): nat
    requires FailingRun(cfg, c, s, run)
    decreases |run|
  {
    if run == [] then 0 else
    (if GetsThrough(cfg, s, run[0]) && run[0].at <= t then 1 else 0)
    + Reached(cfg, c, Step(cfg, s, run[0]), run[1..], t)
  }

  function Failures(s: Traffic): nat {
    TrailingFailures(s.history)
  }

  /** The event brings the run of failures up to the maximum, at `t0`. */
  predicate Opens(cfg: Config, s: Traffic, e: Event, t0: int) {
    e.End? && s.inFlight > 0 && Failures(s) < cfg.maxFailures <= Failures(Step(cfg, s, e)) && e.at == t0
  }

  predicate OpensAt(cfg: Config, c: nat, s: Traffic, run: seq<Event>, t0: int)
    requires FailingRun(cfg, c, s, run)
    decreases |run|
  {
    run != [] && (Opens(cfg, s, run[0], t0) || OpensAt(cfg, c, Step(cfg, s, run[0]), run[1..], t0))
  }

  /** A failing streak with a clean start that opens the breaker at `t0`. */
  predicate OpeningStreak(cfg: Config, c: nat, s: Traffic, run: seq<Event>, t0: int) {
    Failures(s) == 0 && s.inFlight <= c && FailingRun(cfg, c, s, run) && OpensAt(cfg, c, s, run, t0)
  }

  // ---------------------------------------------------------------- how many get through

  /** Every call that gets through is under way and, later, one of the failures. */
  lemma StepCounts(cfg: Config, c: nat, s: Traffic, e: Event)
    requires FailingStep(cfg, c, s, e)
    ensures var s' := Step(cfg, s, e);
      && Failures(s') == Failures(s) + (if e.End? then 1 else 0)
      && Failures(s') + s'.inFlight == Failures(s) + s.inFlight + (if GetsThrough(cfg, s, e) then 1 else 0)
  {
    if e.End? { FailureCounts(s.history, e.at); }
  }

  /**
   Group `g` of the calls that got through. Either a call has come back since, so that nobody else gets through for
   openDuration, or the calls of the group are those under way.
   */
  predicate InGroup(cfg: Config, c: nat, s: Traffic, t0: int, g: nat) {
    && Failures(s) >= cfg.maxFailures && s.inFlight <= c
    && s.history != [] && s.history[|s.history| - 1].at <= s.clock
    && (|| (s.history[|s.history| - 1].at >= t0 + g * cfg.openDuration
            && Failures(s) + s.inFlight <= cfg.maxFailures - 1 + (g + 1) * c)
        || (s.clock >= t0 + g * cfg.openDuration && Failures(s) <= cfg.maxFailures - 1 + g * c))
  }

  lemma StepInGroup(cfg: Config, c: nat, s: Traffic, e: Event, t0: int, g: nat) returns (g': nat)
    requires cfg.maxFailures > 0 && cfg.openDuration > 0 && FailingStep(cfg, c, s, e) && InGroup(cfg, c, s, t0, g)
    ensures InGroup(cfg, c, Step(cfg, s, e), t0, g')
  {
    StepCounts(cfg, c, s, e);
    Division.OneMore(g, c);
    Division.OneMore(g, cfg.openDuration);
    var closed := s.history[|s.history| - 1].at >= t0 + g * cfg.openDuration
      && Failures(s) + s.inFlight <= cfg.maxFailures - 1 + (g + 1) * c;
    g' := if closed && GetsThrough(cfg, s, e) then g + 1 else g;
  }

  /** However many groups there have been, the calls fit the bound. */
  lemma GroupBound(cfg: Config, c: nat, s: Traffic, t0: int, g: nat, t: int)
    requires cfg.openDuration > 0 && InGroup(cfg, c, s, t0, g) && s.clock <= t
    ensures Failures(s) + s.inFlight <= cfg.maxFailures - 1 + (1 + (t - t0) / cfg.openDuration) * c
  {
    Division.OneMore(g, c);
    Division.AtLeast(t - t0, g, cfg.openDuration);
    var q := (t - t0) / cfg.openDuration;
    if c > 0 { Division.MulLe(g + 1, 1 + q, c); }
  }

  lemma {:induction false} NoneLater(cfg: Config, c: nat, s: Traffic, run: seq<Event>, t: int)
    requires FailingRun(cfg, c, s, run) && s.clock > t
    ensures Reached(cfg, c, s, run, t) == 0
    decreases |run|
  {
    if run != [] { NoneLater(cfg, c, Step(cfg, s, run[0]), run[1..], t); }
  }

  lemma {:induction false} AfterOpening(cfg: Config, c: nat, s: Traffic, run: seq<Event>, t0: int, g: nat, t: int)
    requires cfg.maxFailures > 0 && cfg.openDuration > 0 && FailingRun(cfg, c, s, run)
    requires InGroup(cfg, c, s, t0, g) && s.clock <= t
    ensures Reached(cfg, c, s, run, t) + Failures(s) + s.inFlight
            <= cfg.maxFailures - 1 + (1 + (t - t0) / cfg.openDuration) * c
    decreases |run|
  {
    GroupBound(cfg, c, s, t0, g, t);
    if run != [] {
      var s' := Step(cfg, s, run[0]);
      if s'.clock > t {
        NoneLater(cfg, c, s', run[1..], t);
      } else {
        StepCounts(cfg, c, s, run[0]);
        var g' := StepInGroup(cfg, c, s, run[0], t0, g);
        AfterOpening(cfg, c, s', run[1..], t0, g', t);
      }
    }
  }

  lemma {:induction false} OpensOnce(cfg: Config, c: nat, s: Traffic, run: seq<Event>, t0: int)
    requires FailingRun(cfg, c, s, run) && Failures(s) >= cfg.maxFailures
    ensures !OpensAt(cfg, c, s, run, t0)
    decreases |run|
  {
    if run != [] {
      StepCounts(cfg, c, s, run[0]);
      OpensOnce(cfg, c, Step(cfg, s, run[0]), run[1..], t0);
    }
  }

  lemma {:induction false} BeforeOpening(cfg: Config, c: nat, s: Traffic, run: seq<Event>, t0: int, t: int)
    requires cfg.maxFailures > 0 && cfg.openDuration > 0 && FailingRun(cfg, c, s, run)
    requires Failures(s) < cfg.maxFailures && s.inFlight <= c && OpensAt(cfg, c, s, run, t0) && t0 <= t
    ensures Reached(cfg, c, s, run, t) + Failures(s) + s.inFlight
            <= cfg.maxFailures - 1 + (1 + (t - t0) / cfg.openDuration) * c
    decreases |run|
  {
    var s' := Step(cfg, s, run[0]);
    StepCounts(cfg, c, s, run[0]);
    if Failures(s') < cfg.maxFailures {
      BeforeOpening(cfg, c, s', run[1..], t0, t);
    } else {
      OpensOnce(cfg, c, s', run[1..], t0);
      assert InGroup(cfg, c, s', t0, 0);
      AfterOpening(cfg, c, s', run[1..], t0, 0, t);
    }
  }

  /**
   In a failing streak that began with a clean count and opened the breaker at t0, among callers of whom at most `c`
   are under way at a time, at most maxFailures - 1 + c * (1 + (t - t0) / openDuration) calls are let through by time t.
   */
  lemma OverlappingStreakIsThrottled(cfg: Config, c: nat, s: Traffic, run: seq<Event>, t0: int, t: int)
    requires cfg.maxFailures > 0 && cfg.openDuration > 0 && OpeningStreak(cfg, c, s, run, t0) && t0 <= t
    ensures Reached(cfg, c, s, run, t) <= cfg.maxFailures - 1 + (1 + (t - t0) / cfg.openDuration) * c
  {
    BeforeOpening(cfg, c, s, run, t0, t);
  }

  // ---------------------------------------------------------------- the bound is met

  function Begins(m: nat, at: int, rest: seq<Event>): seq<Event> {
    if m == 0 then rest else [Begin(at)] + Begins(m - 1, at, rest)
  }

  function Ends(m: nat, at: int, rest: seq<Event>): seq<Event> {
    if m == 0 then rest else [End(at, false)] + Ends(m - 1, at, rest)
  }

  /** `m` calls in turn at time 0. */
  function Turns(m: nat, rest: seq<Event>): seq<Event> {
    if m == 0 then rest else [Begin(0), End(0, false)] + Turns(m - 1, rest)
  }

  /** Every openDuration `c` calls at once. */
  function Rounds(cfg: Config, c: nat, i: nat, k: nat): seq<Event>
    decreases k + 1 - i
  {
    if i > k then [] else
    var at := i * cfg.openDuration;
    Begins(c, at, Ends(c, at, Rounds(cfg, c, i + 1, k)))
  }

  /** All but one of the failures that open the breaker come in turn; from then on `c` calls come at a time. */
  function Crowd(cfg: Config, c: nat, k: nat): seq<Event>
    requires cfg.maxFailures > 0
  {
    Turns(cfg.maxFailures - 1, Rounds(cfg, c, 0, k))
  }

  function Begun(s: Traffic, m: nat, at: int): Traffic {
    if m == 0 then s else Traffic(s.history, s.inFlight + m, at)
  }

  function Failed(s: Traffic, m: nat, at: int): Traffic
    requires m <= s.inFlight
    decreases m
  {
    if m == 0 then s else Failed(Traffic(s.history + [Outcome(false, at)], s.inFlight - 1, at), m - 1, at)
  }

  lemma {:induction false} BeginsGetThrough(cfg: Config, c: nat, s: Traffic, m: nat, at: int, rest: seq<Event>, t: int)
    requires s.clock <= at <= t && s.inFlight + m <= c && Effective(cfg, s.history, at) != Open
    requires FailingRun(cfg, c, Begun(s, m, at), rest)
    ensures FailingRun(cfg, c, s, Begins(m, at, rest))
    ensures Reached(cfg, c, s, Begins(m, at, rest), t) == m + Reached(cfg, c, Begun(s, m, at), rest, t)
    ensures forall t0 :: OpensAt(cfg, c, Begun(s, m, at), rest, t0) ==> OpensAt(cfg, c, s, Begins(m, at, rest), t0)
    decreases m
  {
    if m > 0 {
      var run, s' := Begins(m, at, rest), Begun(s, 1, at);
      assert run[1..] == Begins(m - 1, at, rest);
      assert Begun(s', m - 1, at) == Begun(s, m, at) && Step(cfg, s, run[0]) == s';
      BeginsGetThrough(cfg, c, s', m - 1, at, rest, t);
    }
  }

  lemma {:induction false} EndsFail(cfg: Config, c: nat, s: Traffic, m: nat, at: int, rest: seq<Event>, t: int)
    requires s.clock <= at && m <= s.inFlight <= c
    requires FailingRun(cfg, c, Failed(s, m, at), rest)
    ensures FailingRun(cfg, c, s, Ends(m, at, rest))
    ensures Reached(cfg, c, s, Ends(m, at, rest), t) == Reached(cfg, c, Failed(s, m, at), rest, t)
    ensures m > 0 && Failures(s) == cfg.maxFailures - 1 ==> OpensAt(cfg, c, s, Ends(m, at, rest), at)
    decreases m
  {
    if m > 0 {
      var run := Ends(m, at, rest);
      var s' := Step(cfg, s, run[0]);
      assert run[1..] == Ends(m - 1, at, rest);
      FailureCounts(s.history, at);
      EndsFail(cfg, c, s', m - 1, at, rest, t);
    }
  }

  lemma {:induction false} FailedIs(s: Traffic, m: nat, at: int)
    requires m <= s.inFlight
    ensures var s' := Failed(s, m, at);
      && Failures(s') == Failures(s) + m && s'.inFlight == s.inFlight - m
      && (m > 0 ==> s'.clock == at && s'.history != [] && s'.history[|s'.history| - 1].at == at)
    decreases m
  {
    hide TrailingFailures;
    if m > 0 {
      var s' := Traffic(s.history + [Outcome(false, at)], s.inFlight - 1, at);
      assert s'.history[|s.history|] == Outcome(false, at);
      FailureCounts(s.history, at);
      FailedIs(s', m - 1, at);
    }
  }

  /** Before round `i`: the last round failed one openDuration earlier. */
  predicate Between(cfg: Config, s: Traffic, i: nat) {
    && s.inFlight == 0 && s.clock <= i * cfg.openDuration
    && if i == 0 then Failures(s) == cfg.maxFailures - 1 else
       && Failures(s) >= cfg.maxFailures && s.history != []
       && s.history[|s.history| - 1].at == (i - 1) * cfg.openDuration
  }

  function AfterRound(cfg: Config, c: nat, s: Traffic, i: nat): Traffic {
    Failed(Begun(s, c, i * cfg.openDuration), c, i * cfg.openDuration)
  }

  lemma RoundTimes(cfg: Config, i: nat, k: nat)
    requires cfg.openDuration > 0 && i <= k
    ensures 0 <= i * cfg.openDuration <= k * cfg.openDuration
    ensures (i - 1) * cfg.openDuration + cfg.openDuration == i * cfg.openDuration
    ensures i * cfg.openDuration + cfg.openDuration == (i + 1) * cfg.openDuration
  {
    Division.MulLe(0, i, cfg.openDuration);
    Division.MulLe(i, k, cfg.openDuration);
  }

  lemma OneRound(cfg: Config, c: nat, s: Traffic, i: nat)
    requires cfg.maxFailures > 0 && cfg.openDuration > 0 && c > 0 && Between(cfg, s, i)
    ensures Effective(cfg, s.history, i * cfg.openDuration) != Open && s.clock <= i * cfg.openDuration
    ensures Between(cfg, AfterRound(cfg, c, s, i), i + 1)
  {
    RoundTimes(cfg, i, i);
    FailedIs(Begun(s, c, i * cfg.openDuration), c, i * cfg.openDuration);
  }

  lemma {:induction false} RoundsGetThrough(cfg: Config, c: nat, s: Traffic, i: nat, k: nat)
    requires cfg.maxFailures > 0 && cfg.openDuration > 0 && c > 0 && i <= k + 1 && Between(cfg, s, i)
    ensures FailingRun(cfg, c, s, Rounds(cfg, c, i, k))
    ensures Reached(cfg, c, s, Rounds(cfg, c, i, k), k * cfg.openDuration) == (k + 1 - i) * c
    ensures i == 0 ==> OpensAt(cfg, c, s, Rounds(cfg, c, i, k), 0)
    decreases k + 1 - i
  {
    if i <= k {
      RoundTimes(cfg, i, k);
      OneRound(cfg, c, s, i);
      Division.OneMore(k - i, c);
      RoundsGetThrough(cfg, c, AfterRound(cfg, c, s, i), i + 1, k);
      hide Failures, Effective, Failed;
      var at, t := i * cfg.openDuration, k * cfg.openDuration;
      EndsFail(cfg, c, Begun(s, c, at), c, at, Rounds(cfg, c, i + 1, k), t);
      BeginsGetThrough(cfg, c, s, c, at, Ends(c, at, Rounds(cfg, c, i + 1, k)), t);
    }
  }

  lemma {:induction false} TurnsGetThrough(cfg: Config, c: nat, s: Traffic, m: nat, k: nat)
    requires cfg.maxFailures > 0 && cfg.openDuration > 0 && c > 0
    requires s.inFlight == 0 && s.clock == 0 && Failures(s) + m == cfg.maxFailures - 1
    ensures var run := Turns(m, Rounds(cfg, c, 0, k));
      && FailingRun(cfg, c, s, run) && OpensAt(cfg, c, s, run, 0)
      && Reached(cfg, c, s, run, k * cfg.openDuration) == m + (k + 1) * c
    decreases m
  {
    if m == 0 {
      RoundsGetThrough(cfg, c, s, 0, k);
    } else {
      var run := Turns(m, Rounds(cfg, c, 0, k));
      var s1 := Begun(s, 1, 0);
      var s2 := Failed(s1, 1, 0);
      FailureCounts(s.history, 0);
      assert s2 == Traffic(s.history + [Outcome(false, 0)], 0, 0);
      assert run[1..][1..] == Turns(m - 1, Rounds(cfg, c, 0, k));
      assert run[0] == Begin(0) && run[1..][0] == End(0, false);
      TurnsGetThrough(cfg, c, s2, m - 1, k);
      assert Step(cfg, s, run[0]) == s1 && Step(cfg, s1, run[1..][0]) == s2;
      assert FailingRun(cfg, c, s1, run[1..]);
    }
  }

  /** Whatever the number of callers and however long the streak lasts, some run meets the bound exactly. */
  lemma CrowdMeetsTheBound(cfg: Config, c: nat, k: nat)
    requires cfg.maxFailures > 0 && cfg.openDuration > 0 && c > 0
    ensures var s, run, t := Traffic([], 0, 0), Crowd(cfg, c, k), k * cfg.openDuration;
      && OpeningStreak(cfg, c, s, run, 0) && 0 <= t
      && Reached(cfg, c, s, run, t) == cfg.maxFailures - 1 + (1 + (t - 0) / cfg.openDuration) * c
  {
    Division.DivMul(k, cfg.openDuration);
    Division.MulLe(0, k, cfg.openDuration);
    TurnsGetThrough(cfg, c, Traffic([], 0, 0), cfg.maxFailures - 1, k);
  }

  /** The bound for callers one after the other holds of overlapping ones exactly if they do not overlap. */
  lemma OneProbeIffOneCaller(cfg: Config, c: nat)
    requires cfg.maxFailures > 0 && cfg.openDuration > 0
    ensures (forall s, run, t0, t | OpeningStreak(cfg, c, s, run, t0) && t0 <= t ::
               Reached(cfg, c, s, run, t) <= cfg.maxFailures + (t - t0) / cfg.openDuration)
            <==> c <= 1
  {
    if c <= 1 {
      forall s, run, t0, t | OpeningStreak(cfg, c, s, run, t0) && t0 <= t
        ensures Reached(cfg, c, s, run, t) <= cfg.maxFailures + (t - t0) / cfg.openDuration
      {
        OverlappingStreakIsThrottled(cfg, c, s, run, t0, t);
        Division.AtLeast(t - t0, 0, cfg.openDuration);
      }
    } else {
      CrowdMeetsTheBound(cfg, c, 0);
      var s, run := Traffic([], 0, 0), Crowd(cfg, c, 0);
      assert Reached(cfg, c, s, run, 0) > cfg.maxFailures + (0 - 0) / cfg.openDuration;
    }
  }
}
