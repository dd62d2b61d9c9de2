/**
 The kernel meter: threads record launches under a lock and flush what has piled up into shared memory.

 One action is one critical section or one shared-memory addition of some thread; a run is any sequence of
 actions. Additions to shared memory are taken as atomic, and its floating-point total as an exact number of flops.
 */
module Meter {
  import opened Counting
  import Division
  import opened UInt64

  const FLUSH_KERNEL_THRESHOLD := 1000
  const DEFAULT_FLOPS := 1024

  datatype Thread =
    | Idle
    | Owing                              // past the threshold, lock released, flush not yet begun
    | Hand(flops: nat, kernels: nat)     // took the pending counts
    | HandKernels(kernels: nat)          // has added the flops, not yet the kernels

  /** `mapped` is whether g_shared is set; recorded, flushed, dropped and wraps are history. */
  datatype State = State(
    pendingFlops: uint64, pendingKernels: uint64, threads: seq<Thread>, mapped: bool,
    recordedFlops: nat, recordedKernels: nat, flushedFlops: nat, flushedKernels: nat,
    droppedFlops: nat, droppedKernels: nat, wraps: nat)

  datatype Action =
    | Record(t: nat, estimate: uint64)
    | Flush(t: nat)       // called from outside, or owed by the thread
    | AddFlops(t: nat)
    | AddKernels(t: nat)
    | Map(mapped: bool)

  function Initial(threads: nat, mapped: bool): State {
    State(0, 0, seq(threads, _ => Idle), mapped, 0, 0, 0, 0, 0, 0, 0)
  }

  function Estimate(e: uint64): (f: uint64)
    ensures if e > 0 then f == e else f == 1024
  {
    if e == 0 then DEFAULT_FLOPS else e
  }

  function DoRecord(s: State, t: nat, e: uint64): State
    requires t < |s.threads| && s.threads[t].Idle?
  {
    var f := Estimate(e);
    var kernels := Add(s.pendingKernels, 1);
    s.(pendingFlops := Add(s.pendingFlops, f), pendingKernels := kernels,
       threads := if kernels >= FLUSH_KERNEL_THRESHOLD then s.threads[t := Owing] else s.threads,
       recordedFlops := s.recordedFlops + f, recordedKernels := s.recordedKernels + 1,
       wraps := s.wraps + If(s.pendingFlops + f >= POW64))
  }

  function DoFlush(s: State, t: nat): State
    requires t < |s.threads|
  {
    s.(pendingFlops := 0, pendingKernels := 0,
       threads := s.threads[t := if s.pendingFlops == 0 && s.pendingKernels == 0 then Idle
                                 else Hand(s.pendingFlops, s.pendingKernels)])
  }

  function DoAddFlops(s: State, t: nat): State
    requires t < |s.threads| && s.threads[t].Hand?
  {
    var h := s.threads[t];
    if s.mapped then s.(flushedFlops := s.flushedFlops + h.flops, threads := s.threads[t := HandKernels(h.kernels)])
    else s.(droppedFlops := s.droppedFlops + h.flops, droppedKernels := s.droppedKernels + h.kernels,
            threads := s.threads[t := Idle])
  }

  function DoAddKernels(s: State, t: nat): State
    requires t < |s.threads| && s.threads[t].HandKernels?
  {
    s.(flushedKernels := s.flushedKernels + s.threads[t].kernels, threads := s.threads[t := Idle])
  }

  /** An action that is not enabled does nothing. */
  function Step(s: State, a: Action): State {
    match a
    case Record(t, e) => if t < |s.threads| && s.threads[t].Idle? then DoRecord(s, t, e) else s
    case Flush(t) => if t < |s.threads| && (s.threads[t].Idle? || s.threads[t].Owing?) then DoFlush(s, t) else s
    case AddFlops(t) => if t < |s.threads| && s.threads[t].Hand? then DoAddFlops(s, t) else s
    case AddKernels(t) => if t < |s.threads| && s.threads[t].HandKernels? then DoAddKernels(s, t) else s
    case Map(mapped) => s.(mapped := mapped)
  }

  function Run(s: State, run: seq<Action>): State {
    if run == [] then s else Step(Run(s, run[..|run| - 1]), run[|run| - 1])
  }

  // ---------------------------------------------------------------- what is in the threads' hands

  function Owes(t: Thread): (n: nat)
    ensures n <= 1
  {
    If(t.Owing?)
  }

  function FlopsIn(t: Thread): nat {
    if t.Hand? then t.flops else 0
  }

  function KernelsIn(t: Thread): nat {
    match t
    case Hand(_, kernels) => kernels
    case HandKernels(kernels) => kernels
    case _ => 0
  }

  /** Nothing recorded is lost or counted twice, except the flops lost to each overflow of the pending counter. */
  ghost predicate Conserved(s: State) {
    && s.recordedKernels == s.flushedKernels + s.droppedKernels + s.pendingKernels + Sum(KernelsIn, s.threads)
    && s.recordedFlops
       == s.flushedFlops + s.droppedFlops + s.pendingFlops + Sum(FlopsIn, s.threads) + s.wraps * POW64
  }

  ghost predicate Bounded(s: State) {
    s.pendingKernels <= FLUSH_KERNEL_THRESHOLD - 1 + Sum(Owes, s.threads)
  }

  lemma AllSums(ts: seq<Thread>, t: nat, next: Thread)
    requires t < |ts|
    ensures Sum(Owes, ts[t := next]) + Owes(ts[t]) == Sum(Owes, ts) + Owes(next)
    ensures Sum(FlopsIn, ts[t := next]) + FlopsIn(ts[t]) == Sum(FlopsIn, ts) + FlopsIn(next)
    ensures Sum(KernelsIn, ts[t := next]) + KernelsIn(ts[t]) == Sum(KernelsIn, ts) + KernelsIn(next)
  {
    SumUpdate(Owes, ts, t, next);
    SumUpdate(FlopsIn, ts, t, next);
    SumUpdate(KernelsIn, ts, t, next);
  }

  /** Few enough threads that the pending kernel count cannot overflow. */
  predicate FewThreads(s: State) {
    |s.threads| + FLUSH_KERNEL_THRESHOLD <= POW64
  }

  ghost predicate Keeps(s: State) {
    Conserved(s) && Bounded(s) && FewThreads(s)
  }

  lemma RecordKeeps(s: State, t: nat, e: uint64)
    requires Keeps(s) && t < |s.threads| && s.threads[t].Idle?
    ensures Keeps(DoRecord(s, t, e))
  {
    SumBelow(Owes, s.threads, t);
    AllSums(s.threads, t, Owing);
  }

  lemma FlushKeeps(s: State, t: nat)
    requires Keeps(s) && t < |s.threads| && (s.threads[t].Idle? || s.threads[t].Owing?)
    ensures Keeps(DoFlush(s, t))
  {
    AllSums(s.threads, t, DoFlush(s, t).threads[t]);
  }

  lemma AddsKeep(s: State, t: nat)
    requires Keeps(s) && t < |s.threads|
    ensures s.threads[t].Hand? ==> Keeps(DoAddFlops(s, t))
    ensures s.threads[t].HandKernels? ==> Keeps(DoAddKernels(s, t))
  {
    AllSums(s.threads, t, Idle);
    if s.threads[t].Hand? {
      AllSums(s.threads, t, HandKernels(s.threads[t].kernels));
    }
  }

  lemma StepKeeps(s: State, a: Action)
    requires Keeps(s)
    ensures Keeps(Step(s, a)) && |Step(s, a).threads| == |s.threads|
  {
    match a
    case Record(t, e) => if t < |s.threads| && s.threads[t].Idle? { RecordKeeps(s, t, e); }
    case Flush(t) => if t < |s.threads| && (s.threads[t].Idle? || s.threads[t].Owing?) { FlushKeeps(s, t); }
    case AddFlops(t) => if t < |s.threads| { AddsKeep(s, t); }
    case AddKernels(t) => if t < |s.threads| { AddsKeep(s, t); }
    case Map(mapped) =>
  }

  /** In every interleaving: conservation of kernels and flops, and the bound on what is pending. */
  lemma {:induction false} RunKeeps(threads: nat, mapped: bool, run: seq<Action>)
    requires threads + FLUSH_KERNEL_THRESHOLD <= POW64
    ensures var s := Run(Initial(threads, mapped), run);
      Keeps(s) && |s.threads| == threads
  {
    if run == [] {
      var init := Initial(threads, mapped);
      SumNone(Owes, init.threads);
      SumNone(FlopsIn, init.threads);
      SumNone(KernelsIn, init.threads);
    } else {
      RunKeeps(threads, mapped, run[..|run| - 1]);
      StepKeeps(Run(Initial(threads, mapped), run[..|run| - 1]), run[|run| - 1]);
    }
  }

  // ---------------------------------------------------------------- when no flops are lost

  predicate Estimates(run: seq<Action>, most: nat) {
    forall i :: 0 <= i < |run| && run[i].Record? ==> Estimate(run[i].estimate) <= most
  }

  /** Every recorded flop is flushed, dropped, pending or in a thread's hand. */
  ghost predicate AllFlopsKept(s: State) {
    s.recordedFlops == s.flushedFlops + s.droppedFlops + s.pendingFlops + Sum(FlopsIn, s.threads)
  }

  /** How many kernels can be pending at most: one short of a flush, and one for each thread that owes one. */
  function MostPending(threads: nat): nat {
    FLUSH_KERNEL_THRESHOLD - 1 + threads
  }

  /** While no estimate exceeds `most`, what is pending is at most `most` for each pending kernel. */
  lemma {:induction false} EstimatesBoundPending(threads: nat, mapped: bool, run: seq<Action>, most: nat)
    requires Estimates(run, most) && 0 < most && MostPending(threads) * most < POW64
    requires threads + FLUSH_KERNEL_THRESHOLD <= POW64
    ensures var s := Run(Initial(threads, mapped), run);
      s.wraps == 0 && s.pendingFlops <= s.pendingKernels * most
  {
    if run != [] {
      var front, a := run[..|run| - 1], run[|run| - 1];
      var s := Run(Initial(threads, mapped), front);
      EstimatesBoundPending(threads, mapped, front, most);
      RunKeeps(threads, mapped, front);
      if a.Record? && a.t < threads && s.threads[a.t].Idle? {
        SumBelow(Owes, s.threads, a.t);
        ModestRecord(s, a.t, a.estimate, most, MostPending(threads));
      }
    }
  }

  lemma ModestRecord(s: State, t: nat, e: uint64, most: nat, cap: nat)
    requires t < |s.threads| && s.threads[t].Idle? && Estimate(e) <= most
    requires s.wraps == 0 && s.pendingFlops <= s.pendingKernels * most
    requires s.pendingKernels + 1 <= cap < POW64 && cap * most < POW64
    ensures var r := DoRecord(s, t, e); r.wraps == 0 && r.pendingFlops <= r.pendingKernels * most
  {
    MoreFits(s.pendingKernels, most, cap);
  }

  lemma MoreFits(kernels: nat, most: nat, cap: nat)
    requires kernels + 1 <= cap
    ensures kernels * most + most == (kernels + 1) * most <= cap * most
  {
    var rest: nat := cap - (kernels + 1);
    assert cap * most == (kernels + 1) * most + rest * most;
  }

  lemma FewThreadsWhenModest(threads: nat, most: nat)
    requires 0 < most && MostPending(threads) * most < POW64
    ensures threads + FLUSH_KERNEL_THRESHOLD <= POW64
  {
    Division.MulLe(1, most, MostPending(threads));
  }

  lemma ModestEstimatesLoseNothing(threads: nat, mapped: bool, run: seq<Action>, most: nat)
    requires Estimates(run, most) && 0 < most && MostPending(threads) * most < POW64
    ensures AllFlopsKept(Run(Initial(threads, mapped), run))
  {
    FewThreadsWhenModest(threads, most);
    RunKeeps(threads, mapped, run);
    EstimatesBoundPending(threads, mapped, run, most);
  }

  /** k kernels of `most` flops are pending: the first threads to pass the threshold owe a flush, the rest are idle. */
  ghost predicate Filled(s: State, threads: nat, most: nat, k: nat) {
    && |s.threads| == threads && s.pendingKernels == k && s.pendingFlops == s.recordedFlops == k * most
    && s.flushedFlops == s.droppedFlops == 0
    && forall t :: 0 <= t < threads ==> s.threads[t] == if t + FLUSH_KERNEL_THRESHOLD <= k then Owing else Idle
  }

  /** The thread that records next: 0 until it owes a flush, then 1, and so on. */
  function NextThread(k: nat): nat {
    if k < FLUSH_KERNEL_THRESHOLD then 0 else k - FLUSH_KERNEL_THRESHOLD + 1
  }

  lemma {:induction false} FillUp(threads: nat, most: uint64, k: nat) returns (run: seq<Action>)
    requires threads > 0 && most > 0 && k <= MostPending(threads) && k * most < POW64
    ensures Estimates(run, most) && Filled(Run(Initial(threads, true), run), threads, most, k)
  {
    if k == 0 {
      run := [];
    } else {
      MoreFits(k - 1, most, k);
      var front := FillUp(threads, most, k - 1);
      var a := Record(NextThread(k - 1), most);
      run := front + [a];
      assert run[..|run| - 1] == front;
      Division.MulLe(1, most, k);
      OneMorePending(Run(Initial(threads, true), front), threads, most, k - 1);
    }
  }

  lemma OneMorePending(s: State, threads: nat, most: uint64, k: nat)
    requires Filled(s, threads, most, k) && most > 0 && NextThread(k) < threads
    requires k + 1 < POW64 && (k + 1) * most < POW64
    ensures Filled(Step(s, Record(NextThread(k), most)), threads, most, k + 1)
  {
    MoreFits(k, most, k + 1);
  }

  /** Fills up to the last kernel that fits and records one more. */
  lemma ImmodestEstimatesLoseFlops(threads: nat, most: uint64) returns (run: seq<Action>)
    requires threads > 0 && most > 0 && MostPending(threads) * most >= POW64
    ensures Estimates(run, most) && !AllFlopsKept(Run(Initial(threads, true), run))
  {
    var k := (POW64 - 1) / most;
    assert k * most <= POW64 - 1 < k * most + most;
    Division.CancelLt(k, MostPending(threads), most);
    var front := FillUp(threads, most, k);
    var a := Record(NextThread(k), most);
    run := front + [a];
    assert run[..|run| - 1] == front;
    OverflowLoses(Run(Initial(threads, true), front), threads, most, k);
  }

  lemma OverflowLoses(s: State, threads: nat, most: uint64, k: nat)
    requires Filled(s, threads, most, k) && most > 0 && NextThread(k) < threads && k * most + most >= POW64
    ensures !AllFlopsKept(Step(s, Record(NextThread(k), most)))
  {
    var r := Step(s, Record(NextThread(k), most));
    forall t | 0 <= t < |r.threads| ensures FlopsIn(r.threads[t]) == 0 {}
    SumNone(FlopsIn, r.threads);
  }

  /**
   The exact condition: whatever the threads do with estimates of at most `most` flops, no flops are lost, if
   and only if the most kernels that can be pending, at `most` flops each, fit in 64 bits.
   */
  lemma NothingIsLostIffEstimatesFit(threads: nat, most: nat)
    requires threads > 0 && 0 < most < POW64
    ensures (forall mapped, run :: Estimates(run, most) ==> AllFlopsKept(Run(Initial(threads, mapped), run)))
      <==> (999 + threads) * most < POW64
  {
    if MostPending(threads) * most < POW64 {
      forall mapped, run | Estimates(run, most) ensures AllFlopsKept(Run(Initial(threads, mapped), run)) {
        ModestEstimatesLoseNothing(threads, mapped, run, most);
      }
    } else {
      var run := ImmodestEstimatesLoseFlops(threads, most);
    }
  }

  /** Two estimates that overflow together lose 2^64 flops: all of them, if they add up to just that. */
  lemma HugeEstimatesLoseFlops(e: uint64, f: uint64)
    requires e > 0 && f > 0 && e + f >= POW64
    ensures var s := Run(Initial(1, true), [Record(0, e), Record(0, f)]);
      s.recordedFlops == e + f && s.pendingFlops == e + f - POW64 && s.wraps == 1
  {
    var run := [Record(0, e), Record(0, f)];
    assert run[..1] == [Record(0, e)] && run[..1][..0] == [];
    assert Run(Initial(1, true), run[..1][..0]) == Initial(1, true);
    assert Run(Initial(1, true), run[..1]) == Step(Initial(1, true), Record(0, e));
  }

  // ---------------------------------------------------------------- where flushes go

  /** The shared memory stays as it is: mapped, or not. */
  predicate StaysMapped(run: seq<Action>, mapped: bool) {
    forall i :: 0 <= i < |run| && run[i].Map? ==> run[i].mapped == mapped
  }

  /** While the shared memory is mapped nothing is dropped, and while it is not nothing is flushed. */
  lemma {:induction false} FlushedIffMapped(threads: nat, mapped: bool, run: seq<Action>)
    requires StaysMapped(run, mapped)
    ensures var s := Run(Initial(threads, mapped), run);
      s.mapped == mapped
      && if mapped then s.droppedFlops == s.droppedKernels == 0
         else s.flushedFlops == s.flushedKernels == 0 && forall t :: 0 <= t < |s.threads| ==> !s.threads[t].HandKernels?
  {
    if run != [] {
      hide Estimate;
      FlushedIffMapped(threads, mapped, run[..|run| - 1]);
    }
  }

  /** A flush that is not interrupted moves all that is pending: to the shared memory if that has been mapped. */
  lemma FlushMovesAllPending(s: State, t: nat, mapped: bool)
    requires t < |s.threads| && (s.threads[t].Idle? || s.threads[t].Owing?)
    ensures var r := Step(Step(Step(Step(s, Map(mapped)), Flush(t)), AddFlops(t)), AddKernels(t));
      && r.pendingFlops == r.pendingKernels == 0 && r.threads == s.threads[t := Idle]
      && if mapped then
           && r.flushedFlops == s.flushedFlops + s.pendingFlops
           && r.flushedKernels == s.flushedKernels + s.pendingKernels
           && r.droppedFlops == s.droppedFlops && r.droppedKernels == s.droppedKernels
         else
           && r.droppedFlops == s.droppedFlops + s.pendingFlops
           && r.droppedKernels == s.droppedKernels + s.pendingKernels
           && r.flushedFlops == s.flushedFlops && r.flushedKernels == s.flushedKernels
  {}

  /** A thread that records keeps going until the thousandth pending kernel; then it owes a flush. */
  lemma RecordOwesAtThreshold(s: State, t: nat, e: uint64)
    requires t < |s.threads| && s.threads[t].Idle? && s.pendingKernels + 1 < POW64
    ensures var r := Step(s, Record(t, e));
      && r.threads[t] == (if s.pendingKernels + 1 >= 1000 then Owing else Idle)
      && r.pendingKernels == s.pendingKernels + 1 && r.recordedKernels == s.recordedKernels + 1
      && r.recordedFlops == s.recordedFlops + (if e > 0 then e else 1024)
  {}

  // ---------------------------------------------------------------- at rest

  /** While every thread is idle, fewer kernels are pending than make a flush; all others are flushed or dropped. */
  lemma AtRestAllIsFlushed(threads: nat, mapped: bool, run: seq<Action>)
    requires threads + FLUSH_KERNEL_THRESHOLD <= POW64
    ensures var s := Run(Initial(threads, mapped), run);
      (forall t :: 0 <= t < |s.threads| ==> s.threads[t].Idle?) ==>
        && s.pendingKernels < 1000
        && s.recordedKernels == s.flushedKernels + s.droppedKernels + s.pendingKernels
  {
    var s := Run(Initial(threads, mapped), run);
    RunKeeps(threads, mapped, run);
    if forall t :: 0 <= t < |s.threads| ==> s.threads[t].Idle? {
      SumNone(Owes, s.threads);
      SumNone(KernelsIn, s.threads);
    }
  }
}
