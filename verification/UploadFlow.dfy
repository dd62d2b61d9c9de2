/**
 What the upload pool does with a snapshot, in every run: which submissions are accepted, in which order they are
 taken up, what each outcome says about the Saves, and that a Shutdown can always be finished.
 */
module UploadFlow {
  import opened Counting
  import opened UploadPool

  /** The state of a run before its action `i`. */
  function Before(cfg: Config, now: int, run: seq<Action>, i: nat): State
    requires cfg.workers > 0 && i <= |run|
  {
    Run(cfg, Initial(cfg, now), run[..i])
  }

  lemma BeforeInFront(cfg: Config, now: int, run: seq<Action>)
    requires cfg.workers > 0 && run != []
    ensures forall i :: 0 <= i < |run| ==> Before(cfg, now, run[..|run| - 1], i) == Before(cfg, now, run, i)
  {
    forall i | 0 <= i < |run| ensures run[..|run| - 1][..i] == run[..i] {}
  }

  // ---------------------------------------------------------------- the queue

  lemma StepKeepsBuffer(cfg: Config, s: State, a: Action)
    requires |s.queue| <= cfg.channelBuffer
    ensures |Step(cfg, s, a).queue| <= cfg.channelBuffer
  {
    hide Backoff;
  }

  /** In every run the queue holds no more than the buffer. */
  lemma {:induction false} QueueFitsTheBuffer(cfg: Config, now: int, run: seq<Action>)
    requires cfg.workers > 0 && cfg.channelBuffer >= 0
    ensures |Run(cfg, Initial(cfg, now), run).queue| <= cfg.channelBuffer
  {
    if run != [] {
      QueueFitsTheBuffer(cfg, now, run[..|run| - 1]);
      StepKeepsBuffer(cfg, Run(cfg, Initial(cfg, now), run[..|run| - 1]), run[|run| - 1]);
    }
  }

  /** Enqueue accepts a snapshot exactly while the channel is open and has room; nothing else accepts one. */
  lemma AcceptedIffRoom(cfg: Config, s: State, a: Action)
    ensures var t := Step(cfg, s, a);
      var accepts := a == Submit && !s.crashed && !s.closed && |s.queue| < cfg.channelBuffer;
      && t.accepted == s.accepted + If(accepts)
      && (accepts ==> t.queue == s.queue + [Task(s.accepted, 0, [])] && t.workers == s.workers && t.timers == s.timers)
      && (a == Submit && !s.crashed && !s.closed && !accepts ==> t == s)
  {
    hide Backoff;
  }

  /** How many actions of the run were submissions that found the channel open with room. */
  function Welcome(cfg: Config, now: int, run: seq<Action>): nat
    requires cfg.workers > 0
  {
    if run == [] then 0 else
    var front, s := run[..|run| - 1], Before(cfg, now, run, |run| - 1);
    Welcome(cfg, now, front)
      + If(run[|run| - 1] == Submit && !s.crashed && !s.closed && |s.queue| < cfg.channelBuffer)
  }

  /** Every submission that finds room is accepted and no other. */
  lemma {:induction false} AcceptsWhatFits(cfg: Config, now: int, run: seq<Action>)
    requires cfg.workers > 0
    ensures Run(cfg, Initial(cfg, now), run).accepted == Welcome(cfg, now, run)
  {
    if run != [] {
      hide Step;
      AcceptsWhatFits(cfg, now, run[..|run| - 1]);
      AcceptedIffRoom(cfg, Before(cfg, now, run, |run| - 1), run[|run| - 1]);
    }
  }

  /** What an action puts into the channel, and what a worker receives by it: one that was idle has a task now. */
  function Puts(s: State, t: State): seq<Task> {
    if |t.queue| > |s.queue| then [t.queue[|t.queue| - 1]] else []
  }

  function Gets(s: State, t: State, a: Action): seq<Task> {
    if a.Take? && a.w < |s.workers| && a.w < |t.workers| && s.workers[a.w].Idle? && t.workers[a.w].Taken?
    then [t.workers[a.w].task] else []
  }

  /** The tasks that have been put into the channel so far, in order. */
  function Sent(cfg: Config, now: int, run: seq<Action>): seq<Task>
    requires cfg.workers > 0
  {
    if run == [] then []
    else Sent(cfg, now, run[..|run| - 1]) + Puts(Before(cfg, now, run, |run| - 1), Before(cfg, now, run, |run|))
  }

  /** The tasks that workers have received so far, in order. */
  function Received(cfg: Config, now: int, run: seq<Action>): seq<Task>
    requires cfg.workers > 0
  {
    if run == [] then [] else
    var n := |run| - 1;
    Received(cfg, now, run[..n]) + Gets(Before(cfg, now, run, n), Before(cfg, now, run, |run|), run[n])
  }

  lemma StepIsFifo(cfg: Config, s: State, a: Action)
    ensures var t := Step(cfg, s, a); s.queue + Puts(s, t) == Gets(s, t, a) + t.queue
  {
    hide Backoff;
  }

  /** First in, first out: what was sent is what was received and then what is still queued, in the same order. */
  lemma {:induction false} FirstInFirstOut(cfg: Config, now: int, run: seq<Action>)
    requires cfg.workers > 0
    ensures Sent(cfg, now, run) == Received(cfg, now, run) + Run(cfg, Initial(cfg, now), run).queue
  {
    if run != [] {
      hide Step, Puts, Gets;
      var n := |run| - 1;
      var s, t := Before(cfg, now, run, n), Before(cfg, now, run, |run|);
      assert run[..|run|] == run;
      RunStep(cfg, Initial(cfg, now), run);
      FirstInFirstOut(cfg, now, run[..n]);
      StepIsFifo(cfg, s, run[n]);
      Regrouped(Received(cfg, now, run[..n]), s.queue, Puts(s, t), Gets(s, t, run[n]), t.queue);
    }
  }

  lemma Regrouped(a: seq<Task>, b: seq<Task>, c: seq<Task>, d: seq<Task>, e: seq<Task>)
    requires b + c == d + e
    ensures a + b + c == a + d + e
  {
    assert a + b + c == a + (b + c) && a + d + e == a + (d + e);
  }

  /** Once every Enqueue has raised the counter, `pending` is what is queued or just received. */
  lemma {:induction false} RaisesSettlePending(cfg: Config, now: int, run: seq<Action>) returns (rest: seq<Action>)
    requires cfg.workers > 0 && cfg.maxRetries > 0 && !Run(cfg, Initial(cfg, now), run).crashed
    ensures var s, t := Run(cfg, Initial(cfg, now), run), Run(cfg, Initial(cfg, now), run + rest);
      && t.owed == 0 && t.queue == s.queue && t.workers == s.workers && t.timers == s.timers
      && t.pending == |t.queue| + Sum(Uncounted, t.workers)
    decreases Run(cfg, Initial(cfg, now), run).owed
  {
    hide DoTake, DoBegin, DoFinish, DoFire;
    var s := Run(cfg, Initial(cfg, now), run);
    if s.owed == 0 {
      rest := [];
      assert run + rest == run;
      RunKeepsAll(cfg, now, run);
    } else {
      assert (run + [Raise])[..|run|] == run;
      RunStep(cfg, Initial(cfg, now), run + [Raise]);
      var more := RaisesSettlePending(cfg, now, run + [Raise]);
      rest := [Raise] + more;
      assert run + rest == run + [Raise] + more;
    }
  }

  // ---------------------------------------------------------------- outcomes

  /** A Save of the snapshot comes back. */
  predicate Returns(s: State, a: Action, id: nat, ok: bool) {
    && !s.crashed && a.Finish? && a.ok == ok
    && a.w < |s.workers| && s.workers[a.w].Uploading? && s.workers[a.w].task.id == id
  }

  /** A retry of the snapshot finds the channel open and full. */
  predicate FindsNoRoom(cfg: Config, s: State, a: Action, id: nat) {
    && !s.crashed && !s.closed && |s.queue| >= cfg.channelBuffer && a.Fire?
    && a.k < |s.timers| && s.timers[a.k].due <= s.now && s.timers[a.k].task.id == id
  }

  /** What an action settles for a snapshot. */
  predicate Settles(cfg: Config, s: State, a: Action, id: nat, o: Outcome) {
    match o
    case Succeeded(starts) => Returns(s, a, id, true) && starts == s.workers[a.w].task.starts
    case Exhausted(starts) =>
      Returns(s, a, id, false) && starts == s.workers[a.w].task.starts && |starts| >= cfg.maxRetries
    case Dropped(starts) => FindsNoRoom(cfg, s, a, id) && starts == s.timers[a.k].task.starts
  }

  lemma StepSettles(cfg: Config, s: State, a: Action, id: nat, o: Outcome)
    requires cfg.maxRetries > 0 && Disciplined(cfg, s) && Unsettled(s)
    ensures var t := Step(cfg, s, a);
      id in t.outcomes && t.outcomes[id] == o
      <==> (id in s.outcomes && s.outcomes[id] == o) || Settles(cfg, s, a, id, o)
  {
    hide Backoff;
    if a.Finish? && a.w < |s.workers| && s.workers[a.w].Uploading? {
      assert WorkerOk(cfg, s.now, s.workers[a.w]);
    }
  }

  lemma RunsAreOrderly(cfg: Config, now: int, run: seq<Action>)
    requires cfg.workers > 0 && cfg.maxRetries > 0
    ensures var s := Run(cfg, Initial(cfg, now), run); Disciplined(cfg, s) && Unsettled(s)
  {
    hide Run;
    RunKeepsAll(cfg, now, run);
    forall id ensures OnePlace(Run(cfg, Initial(cfg, now), run), id) { EachSnapshotInOnePlace(cfg, now, run, id); }
    OnePlaceMeansUnsettled(Run(cfg, Initial(cfg, now), run));
  }

  predicate SettlesAt(cfg: Config, now: int, run: seq<Action>, i: nat, id: nat, o: Outcome)
    requires cfg.workers > 0 && i < |run|
  {
    Settles(cfg, Before(cfg, now, run, i), run[i], id, o)
  }

  predicate Earned(cfg: Config, now: int, run: seq<Action>, id: nat, o: Outcome)
    requires cfg.workers > 0
  {
    exists i :: 0 <= i < |run| && SettlesAt(cfg, now, run, i, id, o)
  }

  lemma EarnedOneMore(cfg: Config, now: int, run: seq<Action>, id: nat, o: Outcome)
    requires cfg.workers > 0 && run != []
    ensures var n := |run| - 1;
      Earned(cfg, now, run, id, o)
      <==> Earned(cfg, now, run[..n], id, o) || Settles(cfg, Run(cfg, Initial(cfg, now), run[..n]), run[n], id, o)
  {
    hide Run, Settles;
    var n := |run| - 1;
    BeforeInFront(cfg, now, run);
    forall i | 0 <= i < n ensures SettlesAt(cfg, now, run[..n], i, id, o) <==> SettlesAt(cfg, now, run, i, id, o) {}
    assert SettlesAt(cfg, now, run, n, id, o) <==> Settles(cfg, Run(cfg, Initial(cfg, now), run[..n]), run[n], id, o);
  }

  /**
   A snapshot succeeded exactly if one of its Saves returned without error, was exhausted exactly if its last allowed
   Save failed, and was dropped exactly if a retry found the channel full.
   */
  lemma {:induction false} OutcomeIsEarned(cfg: Config, now: int, run: seq<Action>, id: nat, o: Outcome)
    requires cfg.workers > 0 && cfg.maxRetries > 0
    ensures var s := Run(cfg, Initial(cfg, now), run);
      id in s.outcomes && s.outcomes[id] == o <==> Earned(cfg, now, run, id, o)
  {
    if run != [] {
      hide Step, Run, Settles, Disciplined, Unsettled, Earned;
      var n := |run| - 1;
      OutcomeIsEarned(cfg, now, run[..n], id, o);
      RunsAreOrderly(cfg, now, run[..n]);
      RunStep(cfg, Initial(cfg, now), run);
      StepSettles(cfg, Run(cfg, Initial(cfg, now), run[..n]), run[n], id, o);
      EarnedOneMore(cfg, now, run, id, o);
    }
  }

  lemma RunStep(cfg: Config, s: State, run: seq<Action>)
    requires run != []
    ensures Run(cfg, s, run) == Step(cfg, Run(cfg, s, run[..|run| - 1]), run[|run| - 1])
  {}

  /** The worker is idle again, and a timer holds the snapshot for its next attempt unless this was the last one. */
  predicate RetriesOrGivesUp(cfg: Config, s: State, t: State, w: nat)
    requires w < |s.workers| && s.workers[w].Uploading?
  {
    var task := s.workers[w].task;
    && |t.workers| == |s.workers| && t.workers[w] == Idle
    && (|task.starts| < cfg.maxRetries <==> |t.timers| == |s.timers| + 1)
    && (|task.starts| < cfg.maxRetries ==>
          var timer := t.timers[|s.timers|];
          && timer.task.id == task.id && timer.task.starts == task.starts && timer.task.attempt == |task.starts|
          && (|task.starts| > 0 ==> timer.due == s.now + Backoff(|task.starts| - 1)))
  }

  lemma FailedSaveStep(cfg: Config, s: State, w: nat)
    requires w < |s.workers| && s.workers[w].Uploading? && !s.crashed && Saving(cfg, s.now, s.workers[w].task)
    ensures RetriesOrGivesUp(cfg, s, Step(cfg, s, Finish(w, false)), w)
  {
    hide Backoff, History;
  }

  lemma UploadingIsSaving(cfg: Config, s: State, w: nat)
    requires Disciplined(cfg, s) && w < |s.workers| && s.workers[w].Uploading?
    ensures Saving(cfg, s.now, s.workers[w].task)
  {
    assert WorkerOk(cfg, s.now, s.workers[w]);
  }

  /** In every run: a failed Save is retried if and only if it is not the last allowed one. */
  lemma FailedSaveIsRetried(cfg: Config, now: int, run: seq<Action>, w: nat)
    requires cfg.workers > 0 && cfg.maxRetries > 0
    requires var s := Run(cfg, Initial(cfg, now), run); w < |s.workers| && s.workers[w].Uploading? && !s.crashed
    ensures RetriesOrGivesUp(cfg, Run(cfg, Initial(cfg, now), run),
                             Run(cfg, Initial(cfg, now), run + [Finish(w, false)]), w)
  {
    hide Run, Step, Disciplined, Saving, RetriesOrGivesUp;
    var s := Run(cfg, Initial(cfg, now), run);
    RunsAreOrderly(cfg, now, run);
    UploadingIsSaving(cfg, s, w);
    FailedSaveStep(cfg, s, w);
    assert (run + [Finish(w, false)])[..|run|] == run;
    RunStep(cfg, Initial(cfg, now), run + [Finish(w, false)]);
  }

  /** A retry that is due and finds the channel open with room is queued again. */
  lemma DueRetryIsQueued(cfg: Config, s: State, k: nat)
    requires !s.crashed && !s.closed && k < |s.timers| && s.timers[k].due <= s.now && |s.queue| < cfg.channelBuffer
    ensures Step(cfg, s, Fire(k)).queue == s.queue + [s.timers[k].task]
    ensures |Step(cfg, s, Fire(k)).timers| == |s.timers| - 1
  {}

  // ---------------------------------------------------------------- Shutdown can be finished

  function Work(w: Worker): nat {
    match w
    case Taken(_) => 3
    case Uploading(_) => 2
    case Idle => 1
    case Exited => 0
  }

  /** How many actions of workers are still to come, at most. */
  function WorkLeft(s: State): nat {
    4 * |s.queue| + Sum(Work, s.workers)
  }

  /** The next action of a worker that has not left. */
  function Next(s: State, w: nat): Action
    requires w < |s.workers|
  {
    match s.workers[w]
    case Taken(_) => Begin(w)
    case Uploading(_) => Finish(w, true)
    case _ => if s.queue == [] then Exit(w) else Take(w)
  }

  lemma WorkIsDone(cfg: Config, s: State, w: nat)
    requires w < |s.workers| && !s.workers[w].Exited? && s.closed && !s.crashed
    ensures var t := Step(cfg, s, Next(s, w));
      WorkLeft(t) < WorkLeft(s) && t.closed && !t.crashed && |t.workers| == |s.workers|
  {
    hide Sum;
    var t := Step(cfg, s, Next(s, w));
    SumUpdate(Work, s.workers, w, t.workers[w]);
  }

  /**
   After Shutdown has closed the channel, the workers alone can always bring it to its end: they take up what is
   queued, and leave.
   */
  lemma {:induction false} ShutdownCanFinish(cfg: Config, s: State) returns (rest: seq<Action>)
    requires s.closed && !s.crashed
    ensures var t := Run(cfg, s, rest);
      !t.crashed && |t.workers| == |s.workers| && forall w :: 0 <= w < |t.workers| ==> t.workers[w].Exited?
    decreases WorkLeft(s)
  {
    if w: nat :| w < |s.workers| && !s.workers[w].Exited? {
      hide Step, WorkLeft;
      WorkIsDone(cfg, s, w);
      var more := ShutdownCanFinish(cfg, Step(cfg, s, Next(s, w)));
      rest := [Next(s, w)] + more;
      RunFromFirst(cfg, s, Next(s, w), more);
    } else {
      rest := [];
    }
  }

  lemma {:induction false} RunFromFirst(cfg: Config, s: State, a: Action, rest: seq<Action>)
    ensures Run(cfg, s, [a] + rest) == Run(cfg, Step(cfg, s, a), rest)
  {
    hide Step;
    if rest == [] {
      assert ([a] + rest)[..0] == [];
      assert Run(cfg, s, []) == s;
    } else {
      assert ([a] + rest)[..|rest|] == [a] + rest[..|rest| - 1];
      RunFromFirst(cfg, s, a, rest[..|rest| - 1]);
    }
  }
}
