/** Why the spacing of retries needs MaxRetries at most 31: the run that breaks it for every larger setting. */
module UploadOverflow {
  import opened UploadPool

  lemma Then(cfg: Config, s: State, run: seq<Action>, a: Action) returns (longer: seq<Action>)
    ensures longer == run + [a] && Run(cfg, s, longer) == Step(cfg, Run(cfg, s, run), a)
  {
    longer := run + [a];
    assert longer[..|longer| - 1] == run;
  }

  /** Snapshot 0 is queued for attempt k and nothing else is going on. */
  predicate AtAttempt(s: State, k: nat, starts: seq<int>) {
    && s.queue == [Task(0, k, starts)] && |starts| == k && s.timers == []
    && |s.workers| > 0 && s.workers[0] == Idle && !s.closed && !s.crashed
  }

  function Wait(k: nat): nat {
    if Backoff(k) < 0 then 0 else Backoff(k)
  }

  /** A Save that starts at once, fails at once, and whose timer fires as soon as it may. */
  lemma FailOnce(cfg: Config, s: State, run: seq<Action>, k: nat, starts: seq<int>)
    returns (longer: seq<Action>, more: seq<int>)
    requires cfg.channelBuffer > 0 && k + 1 < cfg.maxRetries
    requires AtAttempt(Run(cfg, s, run), k, starts)
    ensures more == starts + [Run(cfg, s, run).now]
    ensures AtAttempt(Run(cfg, s, longer), k + 1, more)
    ensures Run(cfg, s, longer).now == Run(cfg, s, run).now + Wait(k)
  {
    hide Backoff, Run;
    var start := Run(cfg, s, run);
    more := starts + [start.now];
    longer := Then(cfg, s, run, Take(0));
    longer := Then(cfg, s, longer, Begin(0));
    assert Run(cfg, s, longer).workers[0] == Uploading(Task(0, k, more));
    longer := Then(cfg, s, longer, Finish(0, false));
    assert Run(cfg, s, longer).timers == [Timer(Task(0, k + 1, more), start.now + Backoff(k))];
    longer := Then(cfg, s, longer, Tick(Wait(k)));
    longer := Then(cfg, s, longer, Fire(0));
  }

  lemma FirstAttempt(cfg: Config) returns (run: seq<Action>)
    requires cfg.workers > 0 && cfg.channelBuffer > 0
    ensures var s := Run(cfg, Initial(cfg, 0), run); AtAttempt(s, 0, []) && s.now == 0
  {
    run := Then(cfg, Initial(cfg, 0), [], Submit);
  }

  lemma DelayAddsUp(k: nat)
    requires k < 30
    ensures Delay(k + 1) == Delay(k) + Wait(k)
  {
    BackoffIsExactIffBelow30(k);
  }

  /** Up to attempt 30 the waits are exact, so attempt k comes exactly Delay(k) after the first. */
  lemma {:induction false} ReachAttempt(cfg: Config, k: nat) returns (run: seq<Action>, starts: seq<int>)
    requires cfg.workers > 0 && cfg.channelBuffer > 0 && k <= 30 && k < cfg.maxRetries
    ensures var s := Run(cfg, Initial(cfg, 0), run); AtAttempt(s, k, starts) && s.now == Delay(k)
    ensures k > 0 ==> starts[0] == 0
  {
    var init := Initial(cfg, 0);
    if k == 0 {
      run := FirstAttempt(cfg);
      starts := [];
    } else {
      hide Run, Initial, Backoff, Wait, Step;
      run, starts := ReachAttempt(cfg, k - 1);
      DelayAddsUp(k - 1);
      run, starts := FailOnce(cfg, init, run, k - 1, starts);
    }
  }

  lemma Backoff30IsNegative()
    ensures Backoff(30) < 0
  {
    Pow2Of29();
    assert (Pow2(30) * 10 * SECOND + POW63) - 2 * POW63 < 2 * POW63;
  }

  lemma StartOnce(cfg: Config, s: State, run: seq<Action>, k: nat, starts: seq<int>) returns (longer: seq<Action>)
    requires AtAttempt(Run(cfg, s, run), k, starts)
    ensures SavedAt(Run(cfg, s, longer), 0, starts + [Run(cfg, s, run).now])
  {
    hide Backoff, Run;
    var start := Run(cfg, s, run);
    longer := Then(cfg, s, run, Take(0));
    longer := Then(cfg, s, longer, Begin(0));
    var end := Run(cfg, s, longer);
    var t := Task(0, k, starts + [start.now]);
    assert end.workers[0] == Uploading(t) && end.workers[0] in end.workers;
    assert InFlight(end, t);
  }

  lemma DelayGrows(k: nat)
    ensures Delay(k) < Delay(k + 1)
  {}

  /**
   For every MaxRetries above 31 some run breaks the spacing: attempt 31 starts together with attempt 30,
   because the wait between them overflows and is negative.
   */
  lemma SpacingFailsAbove31(cfg: Config) returns (run: seq<Action>, starts: seq<int>)
    requires cfg.workers > 0 && cfg.channelBuffer > 0 && cfg.maxRetries > 31
    ensures SavedAt(Run(cfg, Initial(cfg, 0), run), 0, starts)
    ensures |starts| == 32 && starts[31] == starts[30] && starts[31] < starts[0] + Delay(31)
  {
    var init := Initial(cfg, 0);
    var r30, s30 := ReachAttempt(cfg, 30);
    Backoff30IsNegative();
    var r31, s31 := FailOnce(cfg, init, r30, 30, s30);
    run := StartOnce(cfg, init, r31, 31, s31);
    starts := s31 + [Run(cfg, init, r31).now];
    DelayGrows(30);
  }
}
