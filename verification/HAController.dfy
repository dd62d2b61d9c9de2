/**
 The controller that checkpoints jobs and restores them after a node fault.

 One action is one read or patch of a job's status, the start or end of a Dump or a Restore, or a restore goroutine
 entering or leaving the semaphore. A run is any sequence of actions: every interleaving of reconciles, at most one
 per job at a time, with any number of restore goroutines, and the controller may die and come back at any point.
 Statuses are read fresh and jobs are not deleted.
 */
module HAController {
  import opened Counting
  import Text

  /** A job's namespace and name. */
  datatype Job = Job(namespace: string, name: string)

  datatype Phase = Pending | Running | Checkpointing | Restoring | Succeeded | Failed

  datatype Status = Status(lastCheckpointDir: string, checkpointCount: int, phase: Phase, restoreAttempts: int)

  // ---------------------------------------------------------------- directories

  const ROOT: string := "/mnt/phoenix-snapshots/"

  predicate WellNamed(j: Job) {
    '/' !in j.namespace && '/' !in j.name
  }

  function SnapshotDir(j: Job, seqNo: int): string {
    ROOT + j.namespace + "/" + j.name + "/" + Text.CkptName(seqNo)
  }

  lemma DirGrouped(j: Job, seqNo: int)
    ensures SnapshotDir(j, seqNo)
      == ROOT + (j.namespace + ['/'] + (j.name + ['/'] + Text.CkptName(seqNo)))
  {
  }

  /** Where a checkpoint is, spelled out. */
  lemma SnapshotDirLayout(j: Job)
    ensures SnapshotDir(j, 7) == "/mnt/phoenix-snapshots/" + j.namespace + "/" + j.name + "/ckpt-00007"
  {
    Text.CkptNameOfSeven();
  }

  lemma SameRest(root: string, a: string, b: string)
    requires root + a == root + b
    ensures a == b
  {
    assert a == (root + a)[|root|..] && b == (root + b)[|root|..];
  }

  /** No two checkpoints share a directory, within a job or across jobs, whatever their numbers. */
  lemma SnapshotDirsAreApart(j: Job, n: int, k: Job, m: int)
    requires WellNamed(j) && WellNamed(k)
    ensures SnapshotDir(j, n) == SnapshotDir(k, m) <==> j == k && n == m
  {
    if SnapshotDir(j, n) == SnapshotDir(k, m) {
      DirGrouped(j, n);
      DirGrouped(k, m);
      var a, b := Text.CkptName(n), Text.CkptName(m);
      SameRest(ROOT, j.namespace + ['/'] + (j.name + ['/'] + a), k.namespace + ['/'] + (k.name + ['/'] + b));
      Text.SplitIsUnique(j.namespace, j.name + ['/'] + a, k.namespace, k.name + ['/'] + b, '/');
      Text.SplitIsUnique(k.namespace, k.name + ['/'] + b, j.namespace, j.name + ['/'] + a, '/');
      Text.SplitIsUnique(j.name, a, k.name, b, '/');
      Text.CkptNamesDiffer(n, m);
    }
  }

  lemma SnapshotDirIsNotEmpty(j: Job, n: int)
    ensures SnapshotDir(j, n) != ""
  {
    DirGrouped(j, n);
    assert |ROOT| > 0;
  }

  // ---------------------------------------------------------------- the machine

  datatype Config = Config(maxRestoreAttempts: int, maxConcurrentRestores: int)

  /** The capacity HandleNodeFault gives the semaphore. */
  function Slots(cfg: Config): (n: nat)
    ensures n > 0 && (cfg.maxConcurrentRestores > 0 ==> n == cfg.maxConcurrentRestores)
    ensures cfg.maxConcurrentRestores <= 0 ==> n == 10
  {
    if cfg.maxConcurrentRestores <= 0 then 10 else cfg.maxConcurrentRestores
  }

  /** Where a job's reconcile is: about to dump number `seqNo`, dumping it, or about to patch the status. */
  datatype Checkpoint =
    | Chosen(seqNo: int, dir: string)
    | Dumping(seqNo: int, dir: string)
    | Dumped(seqNo: int, dir: string)

  datatype Restore =
    | Waiting(job: Job)                                     // for a slot
    | Entered(job: Job)                                     // has a slot, status not read
    | Loaded(job: Job, dir: string, attempts: int)          // about to set phase Restoring
    | InRestore(job: Job, dir: string, attempts: int)        // Restore reads `dir`
    | Settling(job: Job, phase: Phase)                      // about to set the final phase
    | Leaving(job: Job)                                     // about to give the slot back
    | Gone

  /** What a directory holds: whatever an unfinished or failed Dump left, or a whole checkpoint. */
  datatype Content = Partial | Complete

  datatype Point = Point(job: Job, seqNo: int)

  /** `pointed` is history: every directory a status has pointed at, and for which checkpoint. */
  datatype State = State(
    jobs: map<Job, Status>, checkpoints: map<Job, Checkpoint>, restores: seq<Restore>, slotsTaken: int,
    dirs: map<string, Content>, pointed: map<string, Point>)

  /** The actions of a restore goroutine. */
  datatype Move =
    | Enter                         // take a slot
    | Cancel                        // context cancelled while waiting
    | Fetch(found: bool)            // read the status
    | BeginRestore(applied: bool)   // after trying to set phase Restoring
    | EndRestore(ok: bool)
    | Settle(applied: bool)         // try to set the final phase
    | Panic
    | Leave                         // give the slot back

  datatype Action =
    | Reconcile(job: Job, due: bool) // read the status; `due` says whether the interval has passed
    | Skip(job: Job)                 // pod or process not found
    | BeginDump(job: Job)
    | EndDump(job: Job, ok: bool)
    | PatchStatus(job: Job, applied: bool)
    | Fault(job: Job)                // HandleNodeFault starts a goroutine for a pod of the job
    | Goroutine(g: nat, move: Move)
    | Restart                        // the controller dies, with its Dumps and Restores, and comes back

  predicate Fresh(st: Status) {
    st.checkpointCount == 0 && st.lastCheckpointDir == ""
  }

  /** A start with well-named jobs that have no checkpoint yet, in any phase. */
  predicate Start(jobs: map<Job, Status>) {
    forall j :: j in jobs ==> WellNamed(j) && Fresh(jobs[j])
  }

  function Initial(jobs: map<Job, Status>): State {
    State(jobs, map[], [], 0, map[], map[])
  }

  function DoReconcile(s: State, j: Job, due: bool): State {
    if j in s.jobs && j !in s.checkpoints && s.jobs[j].phase.Running? && due then
      var n := s.jobs[j].checkpointCount + 1;
      s.(checkpoints := s.checkpoints[j := Chosen(n, SnapshotDir(j, n))])
    else s
  }

  function DoBeginDump(s: State, j: Job): State {
    if j in s.checkpoints && s.checkpoints[j].Chosen? then
      var c := s.checkpoints[j];
      s.(checkpoints := s.checkpoints[j := Dumping(c.seqNo, c.dir)], dirs := s.dirs[c.dir := Partial])
    else s
  }

  function DoEndDump(s: State, j: Job, ok: bool): State {
    if j in s.checkpoints && s.checkpoints[j].Dumping? then
      var c := s.checkpoints[j];
      if ok then s.(checkpoints := s.checkpoints[j := Dumped(c.seqNo, c.dir)], dirs := s.dirs[c.dir := Complete])
      else s.(checkpoints := s.checkpoints - {j})
    else s
  }

  /** The patch may fail, and may be applied although the reply is lost; either way the reconcile is over. */
  function DoPatchStatus(s: State, j: Job, applied: bool): State {
    if j in s.checkpoints && s.checkpoints[j].Dumped? then
      var c := s.checkpoints[j];
      var rest := s.(checkpoints := s.checkpoints - {j});
      if applied && j in s.jobs then
        rest.(jobs := s.jobs[j := s.jobs[j].(lastCheckpointDir := c.dir, checkpointCount := c.seqNo, phase := Running)],
              pointed := s.pointed[c.dir := Point(j, c.seqNo)])
      else rest
    else s
  }

  /** Has a slot. */
  predicate InSlot(r: Restore) {
    r.Entered? || r.Loaded? || r.InRestore? || r.Settling? || r.Leaving?
  }

  datatype PhasePatch = NoPatch | SetPhase(phase: Phase)

  /** What one action of a restore goroutine does: its next place, slots taken or given back, and a phase patch. */
  datatype Effect = Effect(next: Restore, slots: int, patch: PhasePatch)

  function Fetched(jobs: map<Job, Status>, j: Job, found: bool): Restore {
    if !found || j !in jobs || jobs[j].lastCheckpointDir == "" then Leaving(j)
    else Loaded(j, jobs[j].lastCheckpointDir, jobs[j].restoreAttempts)
  }

  function Ended(cfg: Config, r: Restore, ok: bool): Restore
    requires r.InRestore?
  {
    if ok then Settling(r.job, Running)
    else if r.attempts + 1 >= cfg.maxRestoreAttempts then Settling(r.job, Failed)
    else Leaving(r.job)
  }

  function PatchIf(applied: bool, p: Phase): PhasePatch {
    if applied then SetPhase(p) else NoPatch
  }

  /** A move that is not enabled does nothing. */
  function RestoreAct(cfg: Config, r: Restore, slotsTaken: int, jobs: map<Job, Status>, m: Move): Effect {
    match m
    case Enter => if r.Waiting? && slotsTaken < Slots(cfg) then Effect(Entered(r.job), 1, NoPatch) else Idle(r)
    case Cancel => if r.Waiting? then Effect(Gone, 0, NoPatch) else Idle(r)
    case Fetch(found) => if r.Entered? then Effect(Fetched(jobs, r.job, found), 0, NoPatch) else Idle(r)
    case BeginRestore(applied) =>
      if r.Loaded? then Effect(InRestore(r.job, r.dir, r.attempts), 0, PatchIf(applied, Restoring)) else Idle(r)
    case EndRestore(ok) => if r.InRestore? then Effect(Ended(cfg, r, ok), 0, NoPatch) else Idle(r)
    case Settle(applied) => if r.Settling? then Effect(Leaving(r.job), 0, PatchIf(applied, r.phase)) else Idle(r)
    case Panic => if InSlot(r) then Effect(Leaving(r.job), 0, NoPatch) else Idle(r)
    case Leave => if r.Leaving? && slotsTaken > 0 then Effect(Gone, -1, NoPatch) else Idle(r)
  }

  function Idle(r: Restore): Effect {
    Effect(r, 0, NoPatch)
  }

  function WithPhase(jobs: map<Job, Status>, j: Job, p: Phase): map<Job, Status> {
    if j in jobs then jobs[j := jobs[j].(phase := p)] else jobs
  }

  /** The phase patch of an effect; the job may be gone from the cluster or never have been there. */
  function Patched(jobs: map<Job, Status>, r: Restore, patch: PhasePatch): map<Job, Status> {
    if patch.SetPhase? && !r.Gone? then WithPhase(jobs, r.job, patch.phase) else jobs
  }

  function RestoreStep(cfg: Config, s: State, g: nat, m: Move): State {
    if g >= |s.restores| then s else
    var e := RestoreAct(cfg, s.restores[g], s.slotsTaken, s.jobs, m);
    s.(restores := s.restores[g := e.next], slotsTaken := s.slotsTaken + e.slots,
       jobs := Patched(s.jobs, s.restores[g], e.patch))
  }

  function Step(cfg: Config, s: State, a: Action): State {
    match a
    case Reconcile(j, due) => DoReconcile(s, j, due)
    case Skip(j) => if j in s.checkpoints && s.checkpoints[j].Chosen? then s.(checkpoints := s.checkpoints - {j}) else s
    case BeginDump(j) => DoBeginDump(s, j)
    case EndDump(j, ok) => DoEndDump(s, j, ok)
    case PatchStatus(j, applied) => DoPatchStatus(s, j, applied)
    case Fault(j) => s.(restores := s.restores + [Waiting(j)])
    case Goroutine(g, m) => RestoreStep(cfg, s, g, m)
    case Restart => s.(checkpoints := map[], restores := [], slotsTaken := 0)
  }

  function Run(cfg: Config, s: State, run: seq<Action>): State {
    if run == [] then s else Step(cfg, Run(cfg, s, run[..|run| - 1]), run[|run| - 1])
  }

  // ---------------------------------------------------------------- checkpoints are never overwritten

  /** A job's status points at the directory of its last checkpoint, if it has one. */
  predicate PointsRight(s: State, j: Job)
    requires j in s.jobs
  {
    var st := s.jobs[j];
    && st.checkpointCount >= 0
    && (st.checkpointCount == 0 ==> st.lastCheckpointDir == "")
    && (st.checkpointCount > 0 ==>
          st.lastCheckpointDir == SnapshotDir(j, st.checkpointCount) && st.lastCheckpointDir in s.pointed)
  }

  /** A directory ever pointed at is whole, and belongs to a checkpoint already counted. */
  predicate IsKept(s: State, d: string)
    requires d in s.pointed
  {
    var p := s.pointed[d];
    && d in s.dirs && s.dirs[d].Complete?
    && p.job in s.jobs && WellNamed(p.job) && d == SnapshotDir(p.job, p.seqNo)
    && 1 <= p.seqNo <= s.jobs[p.job].checkpointCount
  }

  /** A reconcile under way works on the next checkpoint of its job. */
  predicate IsNext(s: State, j: Job)
    requires j in s.checkpoints
  {
    var c := s.checkpoints[j];
    && j in s.jobs && c.seqNo == s.jobs[j].checkpointCount + 1 && c.dir == SnapshotDir(j, c.seqNo)
    && (c.Dumped? ==> c.dir in s.dirs && s.dirs[c.dir].Complete?)
  }

  ghost predicate Kept(s: State) {
    && (forall j :: j in s.jobs ==> WellNamed(j) && PointsRight(s, j))
    && (forall d :: d in s.pointed ==> IsKept(s, d))
    && (forall j :: j in s.checkpoints ==> IsNext(s, j))
  }

  /** The directory a Dump is about to write, or is writing, is one no status has ever pointed at. */
  lemma NextDirIsUnpointed(s: State, j: Job)
    requires Kept(s) && j in s.checkpoints
    ensures s.checkpoints[j].dir !in s.pointed
  {
    var d := s.checkpoints[j].dir;
    if d in s.pointed {
      assert IsKept(s, d) && IsNext(s, j);
      SnapshotDirsAreApart(j, s.checkpoints[j].seqNo, s.pointed[d].job, s.pointed[d].seqNo);
    }
  }

  lemma ReconcilesAreApart(s: State, j: Job, k: Job)
    requires Kept(s) && j in s.checkpoints && k in s.checkpoints && j != k
    ensures s.checkpoints[j].dir != s.checkpoints[k].dir
  {
    assert IsNext(s, k) && IsNext(s, j);
    SnapshotDirsAreApart(j, s.checkpoints[j].seqNo, k, s.checkpoints[k].seqNo);
  }

  /** A reconcile goes on to `next`, having written its directory. */
  function Written(s: State, j: Job, c: Content, next: Checkpoint): State {
    s.(checkpoints := s.checkpoints[j := next], dirs := s.dirs[next.dir := c])
  }

  predicate MayWrite(s: State, j: Job, c: Content, next: Checkpoint) {
    && j in s.checkpoints && next.seqNo == s.checkpoints[j].seqNo && next.dir == s.checkpoints[j].dir
    && (next.Dumped? ==> c.Complete?)
  }

  lemma WriteKeepsNext(s: State, j: Job, c: Content, next: Checkpoint, k: Job)
    requires Kept(s) && MayWrite(s, j, c, next) && k in s.checkpoints
    ensures IsNext(Written(s, j, c, next), k)
  {
    assert IsNext(s, k);
    if k != j { ReconcilesAreApart(s, j, k); }
  }

  lemma WriteKeepsPointed(s: State, j: Job, c: Content, next: Checkpoint, d: string)
    requires Kept(s) && MayWrite(s, j, c, next) && d in s.pointed
    ensures IsKept(Written(s, j, c, next), d)
  {
    assert IsKept(s, d);
    NextDirIsUnpointed(s, j);
  }

  lemma WriteKeepsStatus(s: State, j: Job, c: Content, next: Checkpoint, k: Job)
    requires k in s.jobs && PointsRight(s, k)
    ensures PointsRight(Written(s, j, c, next), k)
  {
    hide SnapshotDir;
  }

  lemma WriteKeeps(s: State, j: Job, c: Content, next: Checkpoint)
    requires Kept(s) && MayWrite(s, j, c, next)
    ensures Kept(Written(s, j, c, next))
  {
    hide SnapshotDir, WellNamed, PointsRight, IsKept, IsNext;
    forall d | d in s.pointed ensures IsKept(Written(s, j, c, next), d) { WriteKeepsPointed(s, j, c, next, d); }
    forall k | k in s.checkpoints ensures IsNext(Written(s, j, c, next), k) { WriteKeepsNext(s, j, c, next, k); }
    forall k | k in s.jobs ensures WellNamed(k) && PointsRight(Written(s, j, c, next), k) {
      WriteKeepsStatus(s, j, c, next, k);
    }
    assert Written(s, j, c, next).checkpoints.Keys == s.checkpoints.Keys;
  }

  lemma FewerReconcilesKeep(s: State, j: Job)
    requires Kept(s)
    ensures Kept(s.(checkpoints := s.checkpoints - {j}))
  {
    var t := s.(checkpoints := s.checkpoints - {j});
    forall k | k in t.jobs ensures WellNamed(k) && PointsRight(t, k) { assert PointsRight(s, k); }
    forall e | e in t.pointed ensures IsKept(t, e) { assert IsKept(s, e); }
    forall k | k in t.checkpoints ensures IsNext(t, k) { assert IsNext(s, k); }
  }

  lemma ReconcileKeeps(s: State, j: Job, due: bool)
    requires Kept(s)
    ensures Kept(DoReconcile(s, j, due))
  {
    var t := DoReconcile(s, j, due);
    forall k | k in t.jobs ensures WellNamed(k) && PointsRight(t, k) { assert PointsRight(s, k); }
    forall e | e in t.pointed ensures IsKept(t, e) { assert IsKept(s, e); }
    forall k | k in t.checkpoints ensures IsNext(t, k) { assert k in s.checkpoints ==> IsNext(s, k); }
  }

  lemma PatchKeeps(s: State, j: Job, applied: bool)
    requires Kept(s)
    ensures Kept(DoPatchStatus(s, j, applied))
  {
    if j in s.checkpoints && s.checkpoints[j].Dumped? {
      var t := DoPatchStatus(s, j, applied);
      assert IsNext(s, j);
      forall d | d in t.pointed ensures IsKept(t, d) {
        assert d in s.pointed ==> IsKept(s, d);
      }
      forall k | k in t.checkpoints ensures IsNext(t, k) {
        assert IsNext(s, k);
      }
      forall k | k in t.jobs ensures WellNamed(k) && PointsRight(t, k) {
        assert PointsRight(s, k);
      }
    }
  }

  /** Setting a phase leaves everything else of the status alone. */
  predicate SameButPhases(s: State, t: State) {
    && t.checkpoints == s.checkpoints && t.dirs == s.dirs && t.pointed == s.pointed && t.jobs.Keys == s.jobs.Keys
    && forall j :: j in s.jobs ==> t.jobs[j] == s.jobs[j].(phase := t.jobs[j].phase)
  }

  lemma PhasesDoNotMatter(s: State, t: State)
    requires Kept(s) && SameButPhases(s, t)
    ensures Kept(t)
  {
    forall j | j in t.jobs ensures WellNamed(j) && PointsRight(t, j) { assert PointsRight(s, j); }
    forall d | d in t.pointed ensures IsKept(t, d) { assert IsKept(s, d); }
    forall j | j in t.checkpoints ensures IsNext(t, j) { assert IsNext(s, j); }
  }

  lemma ActTakesWhatItHolds(cfg: Config, r: Restore, slotsTaken: int, jobs: map<Job, Status>, m: Move)
    ensures var e := RestoreAct(cfg, r, slotsTaken, jobs, m);
      && e.slots == HasSlot(e.next) - HasSlot(r)
      && (e.slots > 0 ==> slotsTaken < Slots(cfg))
  {
  }

  lemma MovesOnlySetPhases(cfg: Config, s: State, g: nat, m: Move)
    ensures SameButPhases(s, RestoreStep(cfg, s, g, m))
  {
    hide RestoreAct;
  }

  lemma RestartKeeps(cfg: Config, s: State)
    requires Kept(s)
    ensures Kept(Step(cfg, s, Restart))
  {
    hide SnapshotDir, WellNamed;
    var t := Step(cfg, s, Restart);
    forall j | j in t.jobs ensures WellNamed(j) && PointsRight(t, j) { assert PointsRight(s, j); }
    forall d | d in t.pointed ensures IsKept(t, d) { assert IsKept(s, d); }
  }

  lemma StepKeeps(cfg: Config, s: State, a: Action)
    requires Kept(s)
    ensures Kept(Step(cfg, s, a))
  {
    hide SnapshotDir, Kept;
    match a
    case Reconcile(j, due) => ReconcileKeeps(s, j, due);
    case Skip(j) => FewerReconcilesKeep(s, j);
    case BeginDump(j) =>
      if j in s.checkpoints { WriteKeeps(s, j, Partial, Dumping(s.checkpoints[j].seqNo, s.checkpoints[j].dir)); }
    case EndDump(j, ok) =>
      FewerReconcilesKeep(s, j);
      if j in s.checkpoints { WriteKeeps(s, j, Complete, Dumped(s.checkpoints[j].seqNo, s.checkpoints[j].dir)); }
    case PatchStatus(j, applied) => PatchKeeps(s, j, applied);
    case Fault(j) => PhasesDoNotMatter(s, Step(cfg, s, a));
    case Goroutine(g, m) =>
      MovesOnlySetPhases(cfg, s, g, m);
      PhasesDoNotMatter(s, RestoreStep(cfg, s, g, m));
    case Restart => RestartKeeps(cfg, s);
  }

  lemma {:induction false} RunKeeps(cfg: Config, jobs: map<Job, Status>, run: seq<Action>)
    requires Start(jobs)
    ensures Kept(Run(cfg, Initial(jobs), run))
  {
    if run != [] {
      RunKeeps(cfg, jobs, run[..|run| - 1]);
      StepKeeps(cfg, Run(cfg, Initial(jobs), run[..|run| - 1]), run[|run| - 1]);
    }
  }

  // ---------------------------------------------------------------- restores

  /** A goroutine that has chosen a directory chose one a status pointed at. */
  predicate Chose(pointed: map<string, Point>, r: Restore) {
    r.Loaded? || r.InRestore? ==> r.dir in pointed
  }

  ghost predicate Sourced(s: State) {
    forall g :: 0 <= g < |s.restores| ==> Chose(s.pointed, s.restores[g])
  }

  lemma ActKeepsChoice(cfg: Config, s: State, r: Restore, m: Move)
    requires Chose(s.pointed, r) && forall j :: j in s.jobs ==> PointsRight(s, j)
    ensures Chose(s.pointed, RestoreAct(cfg, r, s.slotsTaken, s.jobs, m).next)
  {
    if r.Entered? && r.job in s.jobs {
      assert PointsRight(s, r.job);
    }
  }

  lemma StepKeepsSourced(cfg: Config, s: State, a: Action)
    requires Kept(s) && Sourced(s)
    ensures Sourced(Step(cfg, s, a))
  {
    hide RestoreAct, SnapshotDir, IsKept, IsNext;
    if a.Goroutine? {
      if a.g < |s.restores| {
        ActKeepsChoice(cfg, s, s.restores[a.g], a.move);
      }
    } else {
      PointedGrows(cfg, s, a);
    }
  }

  lemma PointedGrows(cfg: Config, s: State, a: Action)
    ensures s.pointed.Keys <= Step(cfg, s, a).pointed.Keys
  {
  }

  function HasSlot(r: Restore): nat {
    If(InSlot(r))
  }

  function Reading(r: Restore): nat {
    If(r.InRestore?)
  }

  predicate SlotsAgree(cfg: Config, s: State) {
    s.slotsTaken == Sum(HasSlot, s.restores) <= Slots(cfg)
  }

  lemma StepKeepsSlots(cfg: Config, s: State, a: Action)
    requires SlotsAgree(cfg, s)
    ensures SlotsAgree(cfg, Step(cfg, s, a))
  {
    if a.Fault? {
      SumAppend(HasSlot, s.restores, Waiting(a.job));
    } else if a.Goroutine? && a.g < |s.restores| {
      var r := s.restores[a.g];
      ActTakesWhatItHolds(cfg, r, s.slotsTaken, s.jobs, a.move);
      SumUpdate(HasSlot, s.restores, a.g, RestoreAct(cfg, r, s.slotsTaken, s.jobs, a.move).next);
    }
  }

  lemma {:induction false} RunKeepsRestores(cfg: Config, jobs: map<Job, Status>, run: seq<Action>)
    requires Start(jobs)
    ensures Sourced(Run(cfg, Initial(jobs), run)) && SlotsAgree(cfg, Run(cfg, Initial(jobs), run))
  {
    if run != [] {
      var front := run[..|run| - 1];
      var s := Run(cfg, Initial(jobs), front);
      RunKeepsRestores(cfg, jobs, front);
      RunKeeps(cfg, jobs, front);
      StepKeepsSourced(cfg, s, run[|run| - 1]);
      StepKeepsSlots(cfg, s, run[|run| - 1]);
    }
  }

  // ---------------------------------------------------------------- main results

  /** In every reachable state a status points at the whole directory of its latest counted checkpoint, or at none. */
  lemma StatusPointsAtWholeCheckpoint(cfg: Config, jobs: map<Job, Status>, run: seq<Action>, j: Job)
    requires Start(jobs) && j in jobs
    ensures var s := Run(cfg, Initial(jobs), run);
      && j in s.jobs
      && var st := s.jobs[j];
         if st.lastCheckpointDir == "" then st.checkpointCount == 0
         else && st.checkpointCount > 0 && st.lastCheckpointDir == SnapshotDir(j, st.checkpointCount)
              && st.lastCheckpointDir in s.dirs && s.dirs[st.lastCheckpointDir].Complete?
  {
    var s := Run(cfg, Initial(jobs), run);
    RunKeeps(cfg, jobs, run);
    JobsStay(cfg, jobs, run);
    assert PointsRight(s, j);
    SnapshotDirIsNotEmpty(j, s.jobs[j].checkpointCount);
  }

  lemma {:induction false} JobsStay(cfg: Config, jobs: map<Job, Status>, run: seq<Action>)
    ensures Run(cfg, Initial(jobs), run).jobs.Keys == jobs.Keys
  {
    if run != [] { JobsStay(cfg, jobs, run[..|run| - 1]); }
  }

  /** What a Dump writes, no status has ever pointed at: neither when the Dump begins nor while it runs. */
  lemma DumpsNeverTouchPointedDirs(cfg: Config, jobs: map<Job, Status>, run: seq<Action>, a: Action)
    requires Start(jobs)
    ensures var s := Run(cfg, Initial(jobs), run); var t := Step(cfg, s, a);
      && (forall d :: d in s.pointed ==> d in t.pointed && d in s.dirs && d in t.dirs && t.dirs[d] == s.dirs[d])
      && (forall j :: j in t.checkpoints && t.checkpoints[j].Dumping?
            ==> t.checkpoints[j].dir !in t.pointed)
  {
    hide SnapshotDir, Run, RestoreAct, DoReconcile, DoBeginDump, DoEndDump;
    var s := Run(cfg, Initial(jobs), run);
    var t := Step(cfg, s, a);
    RunKeeps(cfg, jobs, run);
    StepKeeps(cfg, s, a);
    PointedGrows(cfg, s, a);
    forall d | d in s.pointed ensures d in t.pointed && d in s.dirs && d in t.dirs && t.dirs[d] == s.dirs[d] {
      assert IsKept(s, d);
      assert d in t.pointed && IsKept(t, d);
    }
    forall j | j in t.checkpoints && t.checkpoints[j].Dumping? ensures t.checkpoints[j].dir !in t.pointed {
      NextDirIsUnpointed(t, j);
    }
  }

  /** Every Restore reads a whole directory that a status pointed at, and never more than the configured number run. */
  lemma RestoresAreSoundAndFew(cfg: Config, jobs: map<Job, Status>, run: seq<Action>)
    requires Start(jobs)
    ensures var s := Run(cfg, Initial(jobs), run);
      && Sum(Reading, s.restores) <= Slots(cfg)
      && forall g :: 0 <= g < |s.restores| && s.restores[g].InRestore? ==>
           var d := s.restores[g].dir; d in s.pointed && d in s.dirs && s.dirs[d].Complete?
  {
    var s := Run(cfg, Initial(jobs), run);
    RunKeeps(cfg, jobs, run);
    RunKeepsRestores(cfg, jobs, run);
    SumLe(Reading, HasSlot, s.restores);
    forall g | 0 <= g < |s.restores| && s.restores[g].InRestore?
      ensures var d := s.restores[g].dir; d in s.pointed && d in s.dirs && s.dirs[d].Complete?
    {
      assert IsKept(s, s.restores[g].dir);
    }
  }

  // ---------------------------------------------------------------- restore attempts are read, never counted

  /** A goroutine's number of attempts is the one its job started with, and so is the decision to fail the job. */
  predicate Counts(cfg: Config, jobs: map<Job, Status>, r: Restore) {
    && (r.Loaded? || r.InRestore? ==> r.job in jobs && r.attempts == jobs[r.job].restoreAttempts)
    && (r.Settling? && r.phase.Failed? ==>
          r.job in jobs && jobs[r.job].restoreAttempts + 1 >= cfg.maxRestoreAttempts)
  }

  ghost predicate Uncounted(cfg: Config, jobs: map<Job, Status>, s: State) {
    && s.jobs.Keys == jobs.Keys
    && (forall j :: j in jobs ==> s.jobs[j].restoreAttempts == jobs[j].restoreAttempts)
    && (forall g :: 0 <= g < |s.restores| ==> Counts(cfg, jobs, s.restores[g]))
  }

  lemma StepKeepsUncounted(cfg: Config, jobs: map<Job, Status>, s: State, a: Action)
    requires Uncounted(cfg, jobs, s)
    ensures Uncounted(cfg, jobs, Step(cfg, s, a))
  {
    hide SnapshotDir;
    var t := Step(cfg, s, a);
    match a
    case Goroutine(g, m) =>
      if g < |s.restores| {
        assert Counts(cfg, jobs, s.restores[g]);
        assert Counts(cfg, jobs, t.restores[g]);
      }
    case _ =>
  }

  /**
   The attempts are never raised, so the maximum is compared with the number a job started with: a failed Restore
   fails the job if and only if that number was already within one of the maximum.
   */
  lemma {:induction false} FailureIsDecidedAtTheStart(cfg: Config, jobs: map<Job, Status>, run: seq<Action>)
    ensures var s := Run(cfg, Initial(jobs), run);
      && Uncounted(cfg, jobs, s)
      && forall g :: 0 <= g < |s.restores| && s.restores[g].InRestore? ==>
           var j := s.restores[g].job;
           && j in jobs
           && (Step(cfg, s, Goroutine(g, EndRestore(false))).restores[g] == Settling(j, Failed)
               <==> jobs[j].restoreAttempts + 1 >= cfg.maxRestoreAttempts)
  {
    var s := Run(cfg, Initial(jobs), run);
    if run != [] {
      FailureIsDecidedAtTheStart(cfg, jobs, run[..|run| - 1]);
      StepKeepsUncounted(cfg, jobs, Run(cfg, Initial(jobs), run[..|run| - 1]), run[|run| - 1]);
    }
    forall g | 0 <= g < |s.restores| && s.restores[g].InRestore?
      ensures var j := s.restores[g].job;
           && j in jobs
           && (Step(cfg, s, Goroutine(g, EndRestore(false))).restores[g] == Settling(j, Failed)
               <==> jobs[j].restoreAttempts + 1 >= cfg.maxRestoreAttempts)
    {
      assert Counts(cfg, jobs, s.restores[g]);
    }
  }
}
