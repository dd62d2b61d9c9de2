/** That checkpoints and restores do happen: what the controller's steps lead to from any state it can reach. */
module HAProgress {
  import opened HAController

  function Do(cfg: Config, s: State, g: nat, m: Move): State {
    Step(cfg, s, Goroutine(g, m))
  }

  /** A goroutine for the job waits and a slot is free. */
  predicate CanEnter(cfg: Config, s: State, g: nat, j: Job) {
    g < |s.restores| && s.restores[g] == Waiting(j) && s.slotsTaken < Slots(cfg)
  }

  /** The goroutine has its slot and restores from `dir`; the phase is Restoring if the patch was applied. */
  predicate Restores(s: State, t: State, g: nat, j: Job, dir: string, applied: bool)
    requires j in s.jobs
  {
    && g < |t.restores| && t.restores[g].InRestore? && t.restores[g].job == j && t.restores[g].dir == dir
    && t.slotsTaken == s.slotsTaken + 1 && t.checkpoints == s.checkpoints && t.dirs == s.dirs
    && t.jobs == if applied then s.jobs[j := s.jobs[j].(phase := Restoring)] else s.jobs
  }

  /** A fault starts a goroutine that can enter if a slot is free; while none is, it waits or is cancelled. */
  lemma FaultStartsRestore(cfg: Config, s: State, j: Job)
    ensures var t, g := Step(cfg, s, Fault(j)), |s.restores|;
      && t == s.(restores := s.restores + [Waiting(j)])
      && (CanEnter(cfg, t, g, j) <==> s.slotsTaken < Slots(cfg))
      && (s.slotsTaken >= Slots(cfg) ==> Do(cfg, t, g, Enter) == t)
      && Do(cfg, t, g, Cancel) == s.(restores := s.restores + [Gone])
  {}

  lemma EnterAndFetch(cfg: Config, s: State, g: nat, j: Job, found: bool)
    requires CanEnter(cfg, s, g, j)
    ensures var t := Do(cfg, Do(cfg, s, g, Enter), g, Fetch(found));
      && |t.restores| == |s.restores| && t.slotsTaken == s.slotsTaken + 1 && t.jobs == s.jobs
      && t.checkpoints == s.checkpoints && t.dirs == s.dirs
      && t.restores[g] == (if found && j in s.jobs && s.jobs[j].lastCheckpointDir != ""
                           then Loaded(j, s.jobs[j].lastCheckpointDir, s.jobs[j].restoreAttempts) else Leaving(j))
  {}

  /**
   From any reachable state: a restore goroutine of a job that has a checkpoint, once it has a slot and has read the
   status, restores from the directory of the job's latest checkpoint, whether or not the phase could be set.
   */
  lemma RestoreReadsTheLatest(cfg: Config, jobs: map<Job, Status>, run: seq<Action>, g: nat, j: Job, applied: bool)
    requires Start(jobs) && j in jobs && CanEnter(cfg, Run(cfg, Initial(jobs), run), g, j)
    ensures var s := Run(cfg, Initial(jobs), run);
      j in s.jobs && (s.jobs[j].checkpointCount > 0 ==>
        var t := Do(cfg, Do(cfg, Do(cfg, s, g, Enter), g, Fetch(true)), g, BeginRestore(applied));
        Restores(s, t, g, j, SnapshotDir(j, s.jobs[j].checkpointCount), applied))
  {
    hide SnapshotDir, Run, DoReconcile, DoBeginDump, DoEndDump, DoPatchStatus;
    StatusPointsAtWholeCheckpoint(cfg, jobs, run, j);
    EnterAndFetch(cfg, Run(cfg, Initial(jobs), run), g, j, true);
  }

  lemma LeavesAsItCame(cfg: Config, s: State, g: nat, j: Job, found: bool)
    requires CanEnter(cfg, s, g, j) && s.slotsTaken >= 0
    requires !found || j !in s.jobs || s.jobs[j].lastCheckpointDir == ""
    ensures Do(cfg, Do(cfg, Do(cfg, s, g, Enter), g, Fetch(found)), g, Leave)
            == s.(restores := s.restores[g := Gone])
  {}

  /** Without a checkpoint, or without a job, the goroutine leaves and gives its slot back, and nothing has changed. */
  lemma NoCheckpointNoRestore(cfg: Config, jobs: map<Job, Status>, run: seq<Action>, g: nat, j: Job, found: bool)
    requires Start(jobs) && CanEnter(cfg, Run(cfg, Initial(jobs), run), g, j)
    ensures var s := Run(cfg, Initial(jobs), run);
      !found || j !in s.jobs || s.jobs[j].checkpointCount == 0 ==>
        Do(cfg, Do(cfg, Do(cfg, s, g, Enter), g, Fetch(found)), g, Leave)
        == s.(restores := s.restores[g := Gone])
  {
    hide SnapshotDir, Run, Step, CanEnter;
    var s := Run(cfg, Initial(jobs), run);
    RunKeeps(cfg, jobs, run);
    RunKeepsRestores(cfg, jobs, run);
    assert j in s.jobs ==> PointsRight(s, j);
    if !found || j !in s.jobs || s.jobs[j].checkpointCount == 0 { LeavesAsItCame(cfg, s, g, j, found); }
  }

  /** A Restore that succeeds sets the job Running and gives the slot back. */
  lemma RestoreSucceeds(cfg: Config, s: State, g: nat)
    requires g < |s.restores| && s.restores[g].InRestore? && s.restores[g].job in s.jobs && s.slotsTaken > 0
    ensures var j := s.restores[g].job;
      Do(cfg, Do(cfg, Do(cfg, s, g, EndRestore(true)), g, Settle(true)), g, Leave)
      == s.(restores := s.restores[g := Gone], slotsTaken := s.slotsTaken - 1,
            jobs := s.jobs[j := s.jobs[j].(phase := Running)])
  {}

  /**
   One that fails sets the job Failed if the attempts it loaded are within one of the maximum; otherwise the job is
   left as it is. Either way the slot comes back.
   */
  lemma RestoreFails(cfg: Config, s: State, g: nat)
    requires g < |s.restores| && s.restores[g].InRestore? && s.restores[g].job in s.jobs && s.slotsTaken > 0
    ensures var j, attempts := s.restores[g].job, s.restores[g].attempts;
      var left := s.(restores := s.restores[g := Gone], slotsTaken := s.slotsTaken - 1);
      if attempts + 1 >= cfg.maxRestoreAttempts then
        Do(cfg, Do(cfg, Do(cfg, s, g, EndRestore(false)), g, Settle(true)), g, Leave)
        == left.(jobs := s.jobs[j := s.jobs[j].(phase := Failed)])
      else Do(cfg, Do(cfg, s, g, EndRestore(false)), g, Leave) == left
  {}

  /** A goroutine that panics inside gives its slot back. */
  lemma PanicGivesTheSlotBack(cfg: Config, s: State, g: nat)
    requires g < |s.restores| && InSlot(s.restores[g]) && s.slotsTaken > 0
    ensures Do(cfg, Do(cfg, s, g, Panic), g, Leave)
            == s.(restores := s.restores[g := Gone], slotsTaken := s.slotsTaken - 1)
  {}

  // ---------------------------------------------------------------- checkpoints

  lemma ReconcileAndDump(cfg: Config, s: State, j: Job)
    requires j in s.jobs && j !in s.checkpoints && s.jobs[j].phase.Running?
    ensures var n := s.jobs[j].checkpointCount + 1;
      Step(cfg, Step(cfg, s, Reconcile(j, true)), BeginDump(j))
      == s.(checkpoints := s.checkpoints[j := Dumping(n, SnapshotDir(j, n))],
            dirs := s.dirs[SnapshotDir(j, n) := Partial])
  {
    hide SnapshotDir, RestoreStep;
  }

  lemma DumpAndPatch(cfg: Config, s: State, j: Job)
    requires j in s.jobs && j in s.checkpoints && s.checkpoints[j].Dumping? && s.jobs[j].phase.Running?
    ensures var n, dir := s.checkpoints[j].seqNo, s.checkpoints[j].dir;
      Step(cfg, Step(cfg, s, EndDump(j, true)), PatchStatus(j, true))
      == s.(jobs := s.jobs[j := s.jobs[j].(lastCheckpointDir := dir, checkpointCount := n)],
            checkpoints := s.checkpoints - {j}, dirs := s.dirs[dir := Complete],
            pointed := s.pointed[dir := Point(j, n)])
  {
    hide SnapshotDir, RestoreStep;
  }

  /**
   From any reachable state: a reconcile of a running job whose interval has passed, if its Dump succeeds, leaves a
   whole checkpoint in the directory of the next number, which the status then points at; nothing else changes.
   */
  lemma CheckpointGoesThrough(cfg: Config, jobs: map<Job, Status>, run: seq<Action>, j: Job)
    requires Start(jobs) && j in jobs
    ensures var s := Run(cfg, Initial(jobs), run);
      j in s.jobs && (j !in s.checkpoints && s.jobs[j].phase.Running? ==>
        var n := s.jobs[j].checkpointCount + 1;
        var dumping := Step(cfg, Step(cfg, s, Reconcile(j, true)), BeginDump(j));
        var t := Step(cfg, Step(cfg, dumping, EndDump(j, true)), PatchStatus(j, true));
        && j in dumping.checkpoints && dumping.checkpoints[j] == Dumping(n, SnapshotDir(j, n))
        && t.jobs == s.jobs[j := s.jobs[j].(lastCheckpointDir := SnapshotDir(j, n), checkpointCount := n)]
        && t.dirs == s.dirs[SnapshotDir(j, n) := Complete] && t.checkpoints == s.checkpoints
        && t.restores == s.restores && t.slotsTaken == s.slotsTaken)
  {
    hide SnapshotDir, Run, Step;
    var s := Run(cfg, Initial(jobs), run);
    JobsStay(cfg, jobs, run);
    if j !in s.checkpoints && s.jobs[j].phase.Running? {
      ReconcileAndDump(cfg, s, j);
      DumpAndPatch(cfg, Step(cfg, Step(cfg, s, Reconcile(j, true)), BeginDump(j)), j);
    }
  }

  /** A reconcile does nothing for a job that is not running, or whose interval has not passed. */
  lemma OnlyDueRunningJobsAreDumped(cfg: Config, s: State, j: Job, due: bool)
    requires j in s.jobs && (!due || !s.jobs[j].phase.Running?)
    ensures Step(cfg, s, Reconcile(j, due)) == s
  {}

  /** Without a pod or process to dump the reconcile ends as if it had not begun. */
  lemma SkippedIsForgotten(cfg: Config, s: State, j: Job)
    requires j !in s.checkpoints
    ensures Step(cfg, Step(cfg, s, Reconcile(j, true)), Skip(j)) == s
  {
    hide SnapshotDir, RestoreStep;
  }

  /** After a restart all slots are free, no Dump runs and no restore is under way; what the cluster knows is kept. */
  lemma RestartStartsAfresh(cfg: Config, s: State, j: Job)
    ensures var t := Step(cfg, s, Restart);
      && t.jobs == s.jobs && t.dirs == s.dirs && t.pointed == s.pointed && t.checkpoints == map[]
      && t.restores == [] && t.slotsTaken == 0 && CanEnter(cfg, Step(cfg, t, Fault(j)), 0, j)
  {}

  /** A Dump that fails leaves the status as it was, and the job is tried again under the same number. */
  lemma FailedDumpIsRetried(cfg: Config, s: State, j: Job)
    requires j in s.jobs && j !in s.checkpoints && s.jobs[j].phase.Running?
    ensures var dumping := Step(cfg, Step(cfg, s, Reconcile(j, true)), BeginDump(j));
      var t := Step(cfg, dumping, EndDump(j, false));
      && t.jobs == s.jobs && t.checkpoints == s.checkpoints && t.pointed == s.pointed
      && j in Step(cfg, t, Reconcile(j, true)).checkpoints
      && Step(cfg, t, Reconcile(j, true)).checkpoints[j] == Step(cfg, s, Reconcile(j, true)).checkpoints[j]
  {
    hide SnapshotDir, RestoreStep;
  }
}
