/**
 The snapshot upload pool: a bounded queue, workers, retry timers and shutdown.

 One action is one send, receive, counter update, Save start or Save end of some goroutine, a timer firing, or
 the clock moving on; a run is any sequence of actions, so statements about runs cover every interleaving.
 */
module UploadPool {
  import opened Counting

  // ---------------------------------------------------------------- configuration

  datatype Config = Config(workers: int, channelBuffer: int, uploadTimeout: int, maxRetries: int)

  const SECOND: int := 1_000_000_000

  function WithDefaults(c: Config): (out: Config)
    ensures if c.workers > 0 then out.workers == c.workers else out.workers == 4
    ensures if c.channelBuffer > 0 then out.channelBuffer == c.channelBuffer else out.channelBuffer == 64
    ensures if c.uploadTimeout > 0 then out.uploadTimeout == c.uploadTimeout else out.uploadTimeout == 300 * SECOND
    ensures if c.maxRetries > 0 then out.maxRetries == c.maxRetries else out.maxRetries == 3
  {
    Config(if c.workers <= 0 then 4 else c.workers,
           if c.channelBuffer <= 0 then 64 else c.channelBuffer,
           if c.uploadTimeout <= 0 then 300 * SECOND else c.uploadTimeout,
           if c.maxRetries <= 0 then 3 else c.maxRetries)
  }

  // ---------------------------------------------------------------- backoff

  function Pow2(n: nat): (p: nat)
    ensures p >= 1
  {
    if n == 0 then 1 else 2 * Pow2(n - 1)
  }

  const POW63: int := 0x8000_0000_0000_0000

  /** Signed 64-bit wrap-around. */
  function ToInt64(x: int): (r: int)
    ensures -POW63 <= r < POW63
    ensures -POW63 <= x < POW63 <==> r == x
  {
    (x + POW63) % (2 * POW63) - POW63
  }

  /** `time.Duration(1<<uint(attempt)) * 10 * time.Second`, in nanoseconds on 64 bits. */
  function Backoff(attempt: nat): int {
    ToInt64(Pow2(attempt) * 10 * SECOND)
  }

  lemma {:induction false} Pow2Grows(a: nat, b: nat)
    requires a <= b
    ensures Pow2(a) <= Pow2(b)
  {
    if a < b { Pow2Grows(a, b - 1); }
  }

  lemma Pow2Of29()
    ensures Pow2(29) == 0x2000_0000 && Pow2(30) == 0x4000_0000
  {
    assert Pow2(4) == 16;
    assert Pow2(8) == 256;
    assert Pow2(12) == 4096;
    assert Pow2(16) == 65536;
    assert Pow2(20) == 1048576;
    assert Pow2(24) == 16777216;
    assert Pow2(28) == 268435456;
  }

  /** The doubling holds up to attempt 29; from attempt 30 on the product overflows and the wait is wrong. */
  lemma BackoffIsExactIffBelow30(attempt: nat)
    ensures Backoff(attempt) == Pow2(attempt) * 10 * SECOND <==> attempt <= 29
  {
    Pow2Of29();
    if attempt <= 29 { Pow2Grows(attempt, 29); } else { Pow2Grows(30, attempt); }
  }

  /** 10 s * (2^a - 1): the waits before attempt a, added up. */
  function Delay(attempt: nat): int {
    10 * SECOND * (Pow2(attempt) - 1)
  }

  // ---------------------------------------------------------------- the machine

  /** `starts` is history: when each Save of this snapshot so far began. */
  datatype Task = Task(id: nat, attempt: nat, starts: seq<int>)

  datatype Timer = Timer(task: Task, due: int)

  datatype Worker =
    | Idle
    | Taken(task: Task)     // received, pending not yet lowered
    | Uploading(task: Task) // Save running
    | Exited

  datatype Outcome = Succeeded(starts: seq<int>) | Exhausted(starts: seq<int>) | Dropped(starts: seq<int>)

  /**
   `owed` counts Enqueue calls that have sent but not yet raised `pending`; ids below `accepted` were accepted;
   `begun` counts Save calls.
   */
  datatype State = State(
    now: int, queue: seq<Task>, workers: seq<Worker>, timers: seq<Timer>, outcomes: map<nat, Outcome>,
    accepted: nat, owed: nat, pending: int, succeeded: nat, failed: nat, begun: nat, closed: bool, crashed: bool)

  datatype Action =
    | Submit                    // Enqueue of a new snapshot
    | Raise                     // an Enqueue's AddInt64(&pending, 1)
    | Take(w: nat)              // a worker receives from the channel
    | Begin(w: nat)             // AddInt64(&pending, -1), then Save is called
    | Finish(w: nat, ok: bool)  // Save returns
    | Fire(k: nat)              // a retry timer runs Enqueue
    | Tick(elapsed: nat)
    | Close                     // Shutdown closes the channel; closing it again panics
    | Exit(w: nat)              // a worker finds the channel closed and empty

  function Initial(cfg: Config, now: int): State
    requires cfg.workers > 0
  {
    State(now, [], seq(cfg.workers, _ => Idle), [], map[], 0, 0, 0, 0, 0, 0, false, false)
  }

  /** A non-blocking send; sending on a closed channel panics. */
  function DoSubmit(cfg: Config, s: State): State {
    if s.closed then s.(crashed := true)
    else if |s.queue| < cfg.channelBuffer then
      s.(queue := s.queue + [Task(s.accepted, 0, [])], accepted := s.accepted + 1, owed := s.owed + 1)
    else s
  }

  function DoTake(s: State, w: nat): State {
    if w < |s.workers| && s.workers[w].Idle? && s.queue != [] then
      s.(queue := s.queue[1..], workers := s.workers[w := Taken(s.queue[0])])
    else s
  }

  function DoBegin(s: State, w: nat): State {
    if w < |s.workers| && s.workers[w].Taken? then
      var t := s.workers[w].task;
      s.(pending := s.pending - 1, begun := s.begun + 1,
         workers := s.workers[w := Uploading(t.(starts := t.starts + [s.now]))])
    else s
  }

  function DoFinish(cfg: Config, s: State, w: nat, ok: bool): State {
    if w < |s.workers| && s.workers[w].Uploading? then
      var t, idle := s.workers[w].task, s.workers[w := Idle];
      if ok then s.(workers := idle, succeeded := s.succeeded + 1, outcomes := s.outcomes[t.id := Succeeded(t.starts)])
      else if t.attempt + 1 >= cfg.maxRetries then
        s.(workers := idle, failed := s.failed + 1, outcomes := s.outcomes[t.id := Exhausted(t.starts)])
      else
        s.(workers := idle, failed := s.failed + 1,
           timers := s.timers + [Timer(t.(attempt := t.attempt + 1), s.now + Backoff(t.attempt))])
    else s
  }

  function DoFire(cfg: Config, s: State, k: nat): State {
    if k < |s.timers| && s.timers[k].due <= s.now then
      var t, rest := s.timers[k].task, s.timers[..k] + s.timers[k + 1..];
      if s.closed then s.(crashed := true)
      else if |s.queue| < cfg.channelBuffer then s.(timers := rest, queue := s.queue + [t], owed := s.owed + 1)
      else s.(timers := rest, outcomes := s.outcomes[t.id := Dropped(t.starts)])
    else s
  }

  function DoExit(s: State, w: nat): State {
    if w < |s.workers| && s.workers[w].Idle? && s.closed && s.queue == [] then
      s.(workers := s.workers[w := Exited]) else s
  }

  /** One action; an action that is not enabled, or comes after a crash, does nothing. */
  function Step(cfg: Config, s: State, a: Action): State {
    if s.crashed then s else
    match a
    case Submit => DoSubmit(cfg, s)
    case Raise => if s.owed > 0 then s.(owed := s.owed - 1, pending := s.pending + 1) else s
    case Take(w) => DoTake(s, w)
    case Begin(w) => DoBegin(s, w)
    case Finish(w, ok) => DoFinish(cfg, s, w, ok)
    case Fire(k) => DoFire(cfg, s, k)
    case Tick(elapsed) => s.(now := s.now + elapsed)
    case Close => if s.closed then s.(crashed := true) else s.(closed := true)
    case Exit(w) => DoExit(s, w)
  }

  function Run(cfg: Config, s: State, run: seq<Action>): State {
    if run == [] then s else Step(cfg, Run(cfg, s, run[..|run| - 1]), run[|run| - 1])
  }

  // ---------------------------------------------------------------- where each snapshot is

  function InQueue(ts: seq<Task>, id: nat): nat {
    if ts == [] then 0 else InQueue(ts[..|ts| - 1], id) + If(ts[|ts| - 1].id == id)
  }

  predicate Holds(w: Worker, id: nat) {
    (w.Taken? || w.Uploading?) && w.task.id == id
  }

  function InWorkers(ws: seq<Worker>, id: nat): nat {
    if ws == [] then 0 else InWorkers(ws[..|ws| - 1], id) + If(Holds(ws[|ws| - 1], id))
  }

  function OnTimers(ts: seq<Timer>, id: nat): nat {
    if ts == [] then 0 else OnTimers(ts[..|ts| - 1], id) + If(ts[|ts| - 1].task.id == id)
  }

  /** In how many places a snapshot is: queued, in a worker, waiting on a timer, settled. */
  function Places(s: State, id: nat): nat {
    InQueue(s.queue, id) + InWorkers(s.workers, id) + OnTimers(s.timers, id) + If(id in s.outcomes)
  }

  /** An accepted snapshot is in exactly one place, any other in none. */
  predicate OnePlace(s: State, id: nat) {
    Places(s, id) == If(id < s.accepted)
  }

  lemma {:induction false} InQueueConcat(a: seq<Task>, b: seq<Task>, id: nat)
    ensures InQueue(a + b, id) == InQueue(a, id) + InQueue(b, id)
  {
    if b == [] {
      assert a + b == a;
    } else {
      assert (a + b)[..|a + b| - 1] == a + b[..|b| - 1];
      InQueueConcat(a, b[..|b| - 1], id);
    }
  }

  lemma InQueueOne(t: Task, id: nat)
    ensures InQueue([t], id) == If(t.id == id)
  {
    assert [t][..0] == [];
  }

  lemma {:induction false} InWorkersUpdate(ws: seq<Worker>, i: nat, w: Worker, id: nat)
    requires i < |ws|
    ensures InWorkers(ws[i := w], id) + If(Holds(ws[i], id)) == InWorkers(ws, id) + If(Holds(w, id))
  {
    var n := |ws| - 1;
    if i == n {
      assert ws[i := w][..n] == ws[..n];
    } else {
      assert ws[i := w][..n] == ws[..n][i := w];
      InWorkersUpdate(ws[..n], i, w, id);
    }
  }

  lemma {:induction false} OnTimersCut(ts: seq<Timer>, k: nat, id: nat)
    requires k < |ts|
    ensures OnTimers(ts, id) == OnTimers(ts[..k] + ts[k + 1..], id) + If(ts[k].task.id == id)
  {
    var n := |ts| - 1;
    var rest := ts[..k] + ts[k + 1..];
    if k == n {
      assert rest == ts[..n];
    } else {
      assert rest[..n - 1] == ts[..n][..k] + ts[..n][k + 1..];
      OnTimersCut(ts[..n], k, id);
    }
  }

  lemma StepKeepsPlace(cfg: Config, s: State, a: Action, id: nat)
    requires OnePlace(s, id)
    ensures OnePlace(Step(cfg, s, a), id)
  {
    hide DoTake, DoFinish, DoFire, InWorkers, OnTimers, InQueue;
    if s.crashed { return; }
    match a
    case Submit =>
      InQueueConcat(s.queue, [Task(s.accepted, 0, [])], id);
      InQueueOne(Task(s.accepted, 0, []), id);
    case Raise =>
    case Take(w) => TakeKeepsPlace(s, w, id);
    case Begin(w) =>
      if w < |s.workers| && s.workers[w].Taken? { InWorkersUpdate(s.workers, w, Step(cfg, s, a).workers[w], id); }
    case Finish(w, ok) => FinishKeepsPlace(cfg, s, w, ok, id);
    case Fire(k) => FireKeepsPlace(cfg, s, k, id);
    case Tick(elapsed) =>
    case Close =>
    case Exit(w) =>
      if w < |s.workers| { InWorkersUpdate(s.workers, w, Exited, id); }
  }

  lemma TakeKeepsPlace(s: State, w: nat, id: nat)
    requires OnePlace(s, id)
    ensures OnePlace(DoTake(s, w), id)
  {
    if w < |s.workers| && s.workers[w].Idle? && s.queue != [] {
      var t := s.queue[0];
      assert s.queue == [t] + s.queue[1..];
      InQueueConcat([t], s.queue[1..], id);
      InQueueOne(t, id);
      InWorkersUpdate(s.workers, w, Taken(t), id);
    }
  }

  lemma FinishKeepsPlace(cfg: Config, s: State, w: nat, ok: bool, id: nat)
    requires OnePlace(s, id)
    ensures OnePlace(DoFinish(cfg, s, w, ok), id)
  {
    hide Backoff, InWorkers, InQueue, OnTimers;
    if w < |s.workers| && s.workers[w].Uploading? {
      var t := s.workers[w].task;
      InWorkersUpdate(s.workers, w, Idle, id);
      OnTimersAppend(s.timers, Timer(t.(attempt := t.attempt + 1), s.now + Backoff(t.attempt)), id);
    }
  }

  lemma OnTimersAppend(ts: seq<Timer>, t: Timer, id: nat)
    ensures OnTimers(ts + [t], id) == OnTimers(ts, id) + If(t.task.id == id)
  {
    assert (ts + [t])[..|ts|] == ts;
  }

  lemma FireKeepsPlace(cfg: Config, s: State, k: nat, id: nat)
    requires OnePlace(s, id)
    ensures OnePlace(DoFire(cfg, s, k), id)
  {
    hide InWorkers, InQueue, OnTimers;
    if k < |s.timers| {
      OnTimersCut(s.timers, k, id);
      InQueueConcat(s.queue, [s.timers[k].task], id);
      InQueueOne(s.timers[k].task, id);
    }
  }

  /** In every run, every accepted snapshot is in exactly one place. */
  lemma {:induction false} EachSnapshotInOnePlace(cfg: Config, now: int, run: seq<Action>, id: nat)
    requires cfg.workers > 0
    ensures OnePlace(Run(cfg, Initial(cfg, now), run), id)
  {
    if run == [] {
      NobodyHolds(Initial(cfg, now).workers, id);
    } else {
      EachSnapshotInOnePlace(cfg, now, run[..|run| - 1], id);
      StepKeepsPlace(cfg, Run(cfg, Initial(cfg, now), run[..|run| - 1]), run[|run| - 1], id);
    }
  }

  // ---------------------------------------------------------------- how often, and when, it is saved

  /** The Saves of a snapshot so far: no more than allowed, in the past, and far enough apart. */
  predicate History(cfg: Config, now: int, starts: seq<int>) {
    && |starts| <= cfg.maxRetries
    && (forall k :: 0 <= k < |starts| ==> starts[k] <= now)
    && (cfg.maxRetries <= 31 ==> forall k :: 0 <= k < |starts| ==> starts[k] >= starts[0] + Delay(k))
  }

  /** A task whose next Save may begin at `from`. */
  predicate Pending(cfg: Config, now: int, t: Task, from: int) {
    && History(cfg, now, t.starts)
    && |t.starts| == t.attempt < cfg.maxRetries
    && (t.attempt > 0 && cfg.maxRetries <= 31 ==> from >= t.starts[0] + Delay(t.attempt))
  }

  predicate Saving(cfg: Config, now: int, t: Task) {
    History(cfg, now, t.starts) && |t.starts| == t.attempt + 1 <= cfg.maxRetries
  }

  predicate WorkerOk(cfg: Config, now: int, w: Worker) {
    (w.Taken? ==> Pending(cfg, now, w.task, now)) && (w.Uploading? ==> Saving(cfg, now, w.task))
  }

  predicate OutcomeOk(cfg: Config, now: int, o: Outcome) {
    && History(cfg, now, o.starts)
    && (o.Exhausted? ==> |o.starts| == cfg.maxRetries)
    && (o.Dropped? ==> |o.starts| < cfg.maxRetries)
  }

  ghost predicate Disciplined(cfg: Config, s: State) {
    && (forall i :: 0 <= i < |s.queue| ==> Pending(cfg, s.now, s.queue[i], s.now))
    && (forall i :: 0 <= i < |s.workers| ==> WorkerOk(cfg, s.now, s.workers[i]))
    && (forall i :: 0 <= i < |s.timers| ==> Pending(cfg, s.now, s.timers[i].task, s.timers[i].due))
    && (forall id :: id in s.outcomes ==> OutcomeOk(cfg, s.now, s.outcomes[id]))
  }

  /** A failed Save schedules the next one no earlier than the doubled waits allow. */
  lemma RetryIsPending(cfg: Config, now: int, t: Task)
    requires cfg.maxRetries > 0 && Saving(cfg, now, t) && t.attempt + 1 < cfg.maxRetries
    ensures Pending(cfg, now, t.(attempt := t.attempt + 1), now + Backoff(t.attempt))
  {
    BackoffIsExactIffBelow30(t.attempt);
    if cfg.maxRetries <= 31 {
      assert now >= t.starts[t.attempt] >= t.starts[0] + Delay(t.attempt);
    }
  }

  /** Beginning a Save adds a start that is late enough. */
  lemma BeginIsSaving(cfg: Config, now: int, t: Task)
    requires Pending(cfg, now, t, now)
    ensures Saving(cfg, now, t.(starts := t.starts + [now]))
  {
    var starts := t.starts + [now];
    if cfg.maxRetries <= 31 {
      forall k | 0 <= k < |starts| ensures starts[k] >= starts[0] + Delay(k) {
        if k < |t.starts| { assert starts[k] == t.starts[k] && starts[0] == t.starts[0]; }
      }
    }
  }

  lemma TakeKeepsDiscipline(cfg: Config, s: State, w: nat)
    requires Disciplined(cfg, s)
    ensures Disciplined(cfg, DoTake(s, w))
  {
    if s.queue != [] { assert Pending(cfg, s.now, s.queue[0], s.now); }
  }

  lemma BeginKeepsDiscipline(cfg: Config, s: State, w: nat)
    requires Disciplined(cfg, s)
    ensures Disciplined(cfg, DoBegin(s, w))
  {
    if w < |s.workers| && s.workers[w].Taken? {
      assert WorkerOk(cfg, s.now, s.workers[w]);
      BeginIsSaving(cfg, s.now, s.workers[w].task);
    }
  }

  lemma FinishKeepsDiscipline(cfg: Config, s: State, w: nat, ok: bool)
    requires cfg.maxRetries > 0 && Disciplined(cfg, s)
    ensures Disciplined(cfg, DoFinish(cfg, s, w, ok))
  {
    if w < |s.workers| && s.workers[w].Uploading? {
      var t := s.workers[w].task;
      assert WorkerOk(cfg, s.now, s.workers[w]);
      if !ok && t.attempt + 1 < cfg.maxRetries { RetryIsPending(cfg, s.now, t); }
    }
  }

  lemma FireKeepsDiscipline(cfg: Config, s: State, k: nat)
    requires Disciplined(cfg, s)
    ensures Disciplined(cfg, DoFire(cfg, s, k))
  {
    if k < |s.timers| && s.timers[k].due <= s.now {
      var t := s.timers[k].task;
      assert Pending(cfg, s.now, t, s.timers[k].due);
      assert Pending(cfg, s.now, t, s.now);
    }
  }

  lemma StepKeepsDiscipline(cfg: Config, s: State, a: Action)
    requires cfg.maxRetries > 0 && Disciplined(cfg, s)
    ensures Disciplined(cfg, Step(cfg, s, a))
  {
    match a
    case Submit =>
    case Raise =>
    case Take(w) => TakeKeepsDiscipline(cfg, s, w);
    case Begin(w) => BeginKeepsDiscipline(cfg, s, w);
    case Finish(w, ok) => FinishKeepsDiscipline(cfg, s, w, ok);
    case Fire(k) => FireKeepsDiscipline(cfg, s, k);
    case Tick(elapsed) => TickKeepsDiscipline(cfg, s, elapsed);
    case Close =>
    case Exit(w) =>
  }

  lemma TickKeepsDiscipline(cfg: Config, s: State, elapsed: nat)
    requires Disciplined(cfg, s)
    ensures Disciplined(cfg, s.(now := s.now + elapsed))
  {
    assert forall i ::
      0 <= i < |s.workers| ==> WorkerOk(cfg, s.now, s.workers[i]) ==> WorkerOk(cfg, s.now + elapsed, s.workers[i]);
    assert forall id ::
      id in s.outcomes ==> OutcomeOk(cfg, s.now, s.outcomes[id]) ==> OutcomeOk(cfg, s.now + elapsed, s.outcomes[id]);
  }

  // ---------------------------------------------------------------- counters

  function Uncounted(w: Worker): nat {
    If(w.Taken?)
  }

  function Busy(w: Worker): nat {
    If(w.Uploading?)
  }

  function Settled(s: State): set<nat> {
    set id | id in s.outcomes && s.outcomes[id].Succeeded?
  }

  /**
   `pending` is the queue length, give or take the goroutines between a send or receive and its counter update;
   `succeeded` counts the snapshots that succeeded, each once; every Save begun is running or counted.
   */
  ghost predicate Counted(s: State) {
    && s.pending == |s.queue| + Sum(Uncounted, s.workers) - s.owed
    && s.succeeded == |Settled(s)|
    && s.begun == s.succeeded + s.failed + Sum(Busy, s.workers)
  }

  /** A snapshot in a worker or on a timer is not settled. */
  ghost predicate Unsettled(s: State) {
    && (forall w :: 0 <= w < |s.workers| && s.workers[w].Uploading? ==> s.workers[w].task.id !in s.outcomes)
    && (forall k :: 0 <= k < |s.timers| ==> s.timers[k].task.id !in s.outcomes)
  }

  lemma {:induction false} HoldsIsCounted(ws: seq<Worker>, i: nat, id: nat)
    requires i < |ws| && Holds(ws[i], id)
    ensures InWorkers(ws, id) >= 1
  {
    if i < |ws| - 1 { HoldsIsCounted(ws[..|ws| - 1], i, id); }
  }

  lemma OnePlaceMeansUnsettled(s: State)
    requires forall id :: OnePlace(s, id)
    ensures Unsettled(s)
  {
    forall w | 0 <= w < |s.workers| && s.workers[w].Uploading? ensures s.workers[w].task.id !in s.outcomes {
      HoldsIsCounted(s.workers, w, s.workers[w].task.id);
      assert OnePlace(s, s.workers[w].task.id);
    }
    forall k | 0 <= k < |s.timers| ensures s.timers[k].task.id !in s.outcomes {
      OnTimersCut(s.timers, k, s.timers[k].task.id);
      assert OnePlace(s, s.timers[k].task.id);
    }
  }

  lemma SumBoth(ws: seq<Worker>, i: nat, w: Worker)
    requires i < |ws|
    ensures Sum(Uncounted, ws[i := w]) + If(ws[i].Taken?) == Sum(Uncounted, ws) + If(w.Taken?)
    ensures Sum(Busy, ws[i := w]) + If(ws[i].Uploading?) == Sum(Busy, ws) + If(w.Uploading?)
  {
    SumUpdate(Uncounted, ws, i, w);
    SumUpdate(Busy, ws, i, w);
  }

  lemma StepKeepsCounts(cfg: Config, s: State, a: Action)
    requires Counted(s) && Unsettled(s)
    ensures Counted(Step(cfg, s, a))
  {
    hide DoFinish, DoFire, Sum;
    var r := Step(cfg, s, a);
    match a
    case Submit => assert Settled(r) == Settled(s);
    case Raise => assert Settled(r) == Settled(s);
    case Take(w) =>
      if w < |s.workers| { SumBoth(s.workers, w, r.workers[w]); }
      assert Settled(r) == Settled(s);
    case Begin(w) =>
      if w < |s.workers| { SumBoth(s.workers, w, r.workers[w]); }
      assert Settled(r) == Settled(s);
    case Finish(w, ok) => FinishKeepsCounts(cfg, s, w, ok);
    case Fire(k) => FireKeepsCounts(cfg, s, k);
    case Tick(elapsed) => assert Settled(r) == Settled(s);
    case Close => assert Settled(r) == Settled(s);
    case Exit(w) =>
      if w < |s.workers| { SumBoth(s.workers, w, r.workers[w]); }
      assert Settled(r) == Settled(s);
  }

  lemma FinishSettles(cfg: Config, s: State, w: nat, ok: bool)
    requires Unsettled(s) && w < |s.workers| && s.workers[w].Uploading?
    ensures |Settled(DoFinish(cfg, s, w, ok))| == |Settled(s)| + If(ok)
  {
    hide Backoff;
    var r, id := DoFinish(cfg, s, w, ok), s.workers[w].task.id;
    assert id !in s.outcomes;
    assert Settled(r) == if ok then Settled(s) + {id} else Settled(s);
  }

  lemma FinishKeepsCounts(cfg: Config, s: State, w: nat, ok: bool)
    requires Counted(s) && Unsettled(s)
    ensures Counted(DoFinish(cfg, s, w, ok))
  {
    hide Backoff, Sum, Settled;
    if w < |s.workers| && s.workers[w].Uploading? {
      SumBoth(s.workers, w, Idle);
      FinishSettles(cfg, s, w, ok);
    }
  }

  lemma FireKeepsCounts(cfg: Config, s: State, k: nat)
    requires Counted(s) && Unsettled(s)
    ensures Counted(DoFire(cfg, s, k))
  {
    hide Sum;
    assert Settled(DoFire(cfg, s, k)) == Settled(s);
  }

  // ---------------------------------------------------------------- shutdown

  /** A panic needs a closed channel; a worker leaves only when the closed channel is empty, and it stays empty. */
  ghost predicate ClosedRightly(s: State) {
    && (s.crashed ==> s.closed)
    && ((exists w :: 0 <= w < |s.workers| && s.workers[w].Exited?) ==> s.closed && s.queue == [])
  }

  lemma StepKeepsClosing(cfg: Config, s: State, a: Action)
    requires ClosedRightly(s)
    ensures ClosedRightly(Step(cfg, s, a))
  {
    var r := Step(cfg, s, a);
    if exists w :: 0 <= w < |r.workers| && r.workers[w].Exited? {
      var w :| 0 <= w < |r.workers| && r.workers[w].Exited?;
      if s.workers[w].Exited? { assert s.closed && s.queue == []; }
    }
  }

  // ---------------------------------------------------------------- whole runs

  lemma {:induction false} RunKeepsAll(cfg: Config, now: int, run: seq<Action>)
    requires cfg.workers > 0 && cfg.maxRetries > 0
    ensures var s := Run(cfg, Initial(cfg, now), run); Disciplined(cfg, s) && Counted(s) && ClosedRightly(s)
  {
    var init := Initial(cfg, now);
    if run == [] {
      SumNone(Uncounted, init.workers);
      SumNone(Busy, init.workers);
      assert Settled(init) == {};
    } else {
      var front, a := run[..|run| - 1], run[|run| - 1];
      var s := Run(cfg, init, front);
      RunKeepsAll(cfg, now, front);
      forall id ensures OnePlace(s, id) { EachSnapshotInOnePlace(cfg, now, front, id); }
      OnePlaceMeansUnsettled(s);
      StepKeepsDiscipline(cfg, s, a);
      StepKeepsCounts(cfg, s, a);
      StepKeepsClosing(cfg, s, a);
    }
  }

  /** The tasks that are not settled. */
  ghost predicate InFlight(s: State, t: Task) {
    || t in s.queue
    || (exists w :: w in s.workers && (w.Taken? || w.Uploading?) && w.task == t)
    || (exists k :: k in s.timers && k.task == t)
  }

  /** `starts` are the Save calls made so far for a snapshot, wherever it is. */
  ghost predicate SavedAt(s: State, id: nat, starts: seq<int>) {
    || (exists t :: InFlight(s, t) && t.id == id && t.starts == starts)
    || (id in s.outcomes && s.outcomes[id].starts == starts)
  }

  lemma InFlightHistory(cfg: Config, s: State, t: Task)
    requires Disciplined(cfg, s) && InFlight(s, t)
    ensures History(cfg, s.now, t.starts)
  {
    if t in s.queue {
      assert Pending(cfg, s.now, t, s.now);
    } else if w :| w in s.workers && (w.Taken? || w.Uploading?) && w.task == t {
      assert WorkerOk(cfg, s.now, w);
    } else {
      var k :| k in s.timers && k.task == t;
      assert Pending(cfg, s.now, t, k.due);
    }
  }

  /**
   In every run each snapshot sees at most MaxRetries Save calls, and its attempt a starts at least
   10 s * (2^a - 1) after its first, provided MaxRetries is at most 31.
   */
  lemma SavesAreFewAndSpaced(cfg: Config, now: int, run: seq<Action>, id: nat, starts: seq<int>)
    requires cfg.workers > 0 && cfg.maxRetries > 0
    requires SavedAt(Run(cfg, Initial(cfg, now), run), id, starts)
    ensures |starts| <= cfg.maxRetries
    ensures cfg.maxRetries <= 31 ==> forall a :: 0 <= a < |starts| ==> starts[a] >= starts[0] + Delay(a)
  {
    RunKeepsAll(cfg, now, run);
    var s := Run(cfg, Initial(cfg, now), run);
    if t :| InFlight(s, t) && t.id == id && t.starts == starts {
      InFlightHistory(cfg, s, t);
    } else {
      assert OutcomeOk(cfg, s.now, s.outcomes[id]);
    }
  }

  lemma StepKeepsOutcome(cfg: Config, s: State, a: Action, id: nat)
    requires Unsettled(s) && id in s.outcomes
    ensures id in Step(cfg, s, a).outcomes && Step(cfg, s, a).outcomes[id] == s.outcomes[id]
  {
    hide Backoff;
  }

  /** Once a snapshot has succeeded, been exhausted or been dropped, nothing more is done for it. */
  lemma SettledStaysSettled(cfg: Config, now: int, run: seq<Action>, a: Action, id: nat)
    requires cfg.workers > 0 && id in Run(cfg, Initial(cfg, now), run).outcomes
    ensures var s := Run(cfg, Initial(cfg, now), run);
      var r := Step(cfg, s, a);
      && id in r.outcomes && r.outcomes[id] == s.outcomes[id]
      && forall w :: 0 <= w < |r.workers| ==> !Holds(r.workers[w], id)
  {
    var s := Run(cfg, Initial(cfg, now), run);
    var r := Step(cfg, s, a);
    forall other ensures OnePlace(s, other) { EachSnapshotInOnePlace(cfg, now, run, other); }
    OnePlaceMeansUnsettled(s);
    StepKeepsPlace(cfg, s, a, id);
    StepKeepsOutcome(cfg, s, a, id);
    hide Step, Run, InWorkers, InQueue, OnTimers;
    forall w | 0 <= w < |r.workers| ensures !Holds(r.workers[w], id) {
      if Holds(r.workers[w], id) { HoldsIsCounted(r.workers, w, id); }
    }
  }

  /**
   When Shutdown's wait is over, every accepted snapshot is settled or waits on a retry timer: none is left
   queued or half uploaded.
   */
  lemma ShutdownDrains(cfg: Config, now: int, run: seq<Action>, id: nat)
    requires cfg.workers > 0 && cfg.maxRetries > 0
    requires var s := Run(cfg, Initial(cfg, now), run);
      id < s.accepted && |s.workers| > 0 && forall w :: 0 <= w < |s.workers| ==> s.workers[w].Exited?
    ensures var s := Run(cfg, Initial(cfg, now), run);
      id in s.outcomes || exists k :: 0 <= k < |s.timers| && s.timers[k].task.id == id
  {
    var s := Run(cfg, Initial(cfg, now), run);
    RunKeepsAll(cfg, now, run);
    EachSnapshotInOnePlace(cfg, now, run, id);
    assert s.workers[0].Exited?;
    NobodyHolds(s.workers, id);
    if OnTimers(s.timers, id) > 0 { FindTimer(s.timers, id); }
  }

  lemma {:induction false} NobodyHolds(ws: seq<Worker>, id: nat)
    requires forall i :: 0 <= i < |ws| ==> !Holds(ws[i], id)
    ensures InWorkers(ws, id) == 0
  {
    if ws != [] { NobodyHolds(ws[..|ws| - 1], id); }
  }

  lemma {:induction false} FindTimer(ts: seq<Timer>, id: nat)
    requires OnTimers(ts, id) > 0
    ensures exists k :: 0 <= k < |ts| && ts[k].task.id == id
  {
    if ts[|ts| - 1].task.id != id {
      FindTimer(ts[..|ts| - 1], id);
      var k :| 0 <= k < |ts| - 1 && ts[..|ts| - 1][k].task.id == id;
      assert ts[k].task.id == id;
    }
  }

  /** What panics on a closed channel: a submission, a retry that is due, a second Shutdown. */
  predicate UsesChannel(s: State, a: Action) {
    a == Submit || a == Close || (a.Fire? && a.k < |s.timers| && s.timers[a.k].due <= s.now)
  }

  lemma PanicsOnlyAfterClose(cfg: Config, s: State, a: Action)
    requires !s.crashed
    ensures Step(cfg, s, a).crashed <==> s.closed && UsesChannel(s, a)
  {}

  lemma {:induction false} ClosedByClose(cfg: Config, now: int, run: seq<Action>)
    requires cfg.workers > 0
    ensures var s := Run(cfg, Initial(cfg, now), run);
      (s.crashed ==> Close in run) && (!s.crashed ==> (s.closed <==> Close in run))
  {
    if run != [] {
      var front, a := run[..|run| - 1], run[|run| - 1];
      ClosedByClose(cfg, now, front);
      assert run == front + [a];
      var s := Run(cfg, Initial(cfg, now), front);
      if !s.crashed { PanicsOnlyAfterClose(cfg, s, a); }
    }
  }

  /** Action `i` of the run uses the channel after a Shutdown. */
  predicate PanicsAt(cfg: Config, now: int, run: seq<Action>, i: nat)
    requires cfg.workers > 0 && i < |run|
  {
    Close in run[..i] && UsesChannel(Run(cfg, Initial(cfg, now), run[..i]), run[i])
  }

  /** A run panics exactly when some submission, due retry or second Shutdown comes after its first Shutdown. */
  lemma {:induction false} RunPanicsIffChannelUsedAfterClose(cfg: Config, now: int, run: seq<Action>)
    requires cfg.workers > 0
    ensures Run(cfg, Initial(cfg, now), run).crashed <==> exists i :: 0 <= i < |run| && PanicsAt(cfg, now, run, i)
  {
    if run != [] {
      var n := |run| - 1;
      var front := run[..n];
      var s := Run(cfg, Initial(cfg, now), front);
      RunPanicsIffChannelUsedAfterClose(cfg, now, front);
      forall i | 0 <= i < n ensures PanicsAt(cfg, now, run, i) <==> PanicsAt(cfg, now, front, i) {
        assert run[..i] == front[..i];
      }
      ClosedByClose(cfg, now, front);
      if !s.crashed {
        PanicsOnlyAfterClose(cfg, s, run[n]);
        assert PanicsAt(cfg, now, run, n) <==> Step(cfg, s, run[n]).crashed;
      }
    }
  }
}
