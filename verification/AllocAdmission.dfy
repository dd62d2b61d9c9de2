/**
 Which Allocs are granted, in any interleaving of Allocs and Frees: those that fit at the moment of their
 compare-and-swap, and no others. What one call does to the counters when it runs alone.
 */
module AllocAdmission {
  import opened UInt64
  import opened AllocProtocol
  import opened AllocContention
  import Oversub

  // ---------------------------------------------------------------- virtual use is exact, whatever frees do to swap

  ghost predicate VirtIsExact(cfg: Config, s: State) {
    && s.m.virt == Tally(s.calls).virt <= cfg.virtCap && Fits(cfg, s.calls)
    && forall i :: 0 <= i < |s.calls| ==> SeenWithinCap(cfg, s.calls[i])
  }

  predicate SeenWithinCap(cfg: Config, c: Call) {
    c.pc.Admitting? ==> c.pc.seen <= cfg.virtCap
  }

  /** A call holds no more virtual space than all together, and one that holds none leaves room for its size. */
  lemma {:induction false} MemberVirt(calls: seq<Call>, i: nat)
    requires i < |calls|
    ensures Share(calls[i]).virt <= Tally(calls).virt && calls[i].size <= TotalSize(calls)
    ensures Tally(calls).virt - Share(calls[i]).virt + calls[i].size <= TotalSize(calls)
  {
    VirtWithinTotal(calls[1..]);
    if i > 0 { MemberVirt(calls[1..], i - 1); }
  }

  lemma {:induction false} VirtWithinTotal(calls: seq<Call>)
    ensures Tally(calls).virt <= TotalSize(calls)
  {
    if calls != [] { VirtWithinTotal(calls[1..]); }
  }

  lemma ActMovesVirt(cfg: Config, c: Call, m: Counters)
    requires SeenWithinCap(cfg, c) && Share(c).virt <= m.virt <= cfg.virtCap && cfg.virtCap + c.size < POW64
    ensures var (d, n) := Act(cfg, c, m);
      && d.size == c.size && SeenWithinCap(cfg, d)
      && n.virt == m.virt - Share(c).virt + Share(d).virt <= cfg.virtCap
  {}

  lemma StepKeepsVirt(cfg: Config, s: State, i: nat)
    requires i < |s.calls| && VirtIsExact(cfg, s)
    ensures VirtIsExact(cfg, Step(cfg, s, i))
  {
    hide Act;
    var t := Step(cfg, s, i);
    MemberVirt(s.calls, i);
    ActMovesVirt(cfg, s.calls[i], s.m);
    TallyUpdate(s.calls, i, t.calls[i]);
  }

  lemma {:induction false} RunKeepsVirt(cfg: Config, s: State, schedule: seq<nat>)
    requires Initial(cfg, s) && ValidSchedule(s, schedule)
    ensures VirtIsExact(cfg, Run(cfg, s, schedule))
  {
    if schedule == [] {
      TallyZero(s.calls);
    } else {
      hide Step, VirtIsExact;
      var n := |schedule| - 1;
      RunKeepsVirt(cfg, s, schedule[..n]);
      StepKeepsVirt(cfg, Run(cfg, s, schedule[..n]), schedule[n]);
    }
  }

  // ---------------------------------------------------------------- who is granted

  predicate Granted(c: Call) {
    !c.pc.Start? && !c.pc.Admitting? && !c.pc.Rejected?
  }

  lemma SizeStays(cfg: Config, c: Call, m: Counters)
    ensures Act(cfg, c, m).0.size == c.size && Act(cfg, c, m).0.frees == c.frees
  {}

  lemma {:induction false} SizesStay(cfg: Config, s: State, schedule: seq<nat>, i: nat)
    requires ValidSchedule(s, schedule) && i < |s.calls|
    ensures Run(cfg, s, schedule).calls[i].size == s.calls[i].size
    ensures Run(cfg, s, schedule).calls[i].frees == s.calls[i].frees
  {
    if schedule != [] {
      hide Act;
      var n := |schedule| - 1;
      SizesStay(cfg, s, schedule[..n], i);
      SizeStays(cfg, Run(cfg, s, schedule[..n]).calls[i], Run(cfg, s, schedule[..n]).m);
    }
  }

  /** A call is decided by comparing the value it loaded with the cap, and a grant is a swap of the loaded value. */
  lemma ActDecides(cfg: Config, c: Call, m: Counters)
    requires SeenWithinCap(cfg, c) && m.virt <= cfg.virtCap && cfg.virtCap + c.size < POW64
    ensures var (d, n) := Act(cfg, c, m);
      && (d.pc.Admitting? ==> d == c || (InAdmission(c) && d.pc.seen == m.virt))
      && (d.pc.Rejected? ==> d == c || (c.pc.Admitting? && c.pc.seen + c.size > cfg.virtCap))
      && (Granted(d) ==> Granted(c) || (InAdmission(c) && m.virt + c.size == n.virt <= cfg.virtCap))
  {}

  /** The state after the first `k` steps. */
  function At(cfg: Config, s: State, schedule: seq<nat>, k: nat): State
    requires ValidSchedule(s, schedule) && k <= |schedule|
  {
    Run(cfg, s, schedule[..k])
  }

  /** After `k` steps the call was undecided and the virtual use stood at `virt`. */
  predicate Undecided(cfg: Config, s: State, schedule: seq<nat>, i: nat, k: nat, virt: nat)
    requires ValidSchedule(s, schedule) && i < |s.calls| && k <= |schedule|
  {
    InAdmission(At(cfg, s, schedule, k).calls[i]) && At(cfg, s, schedule, k).m.virt == virt
  }

  /** After `k` steps the call was undecided and did not fit. */
  predicate TooMuchAt(cfg: Config, s: State, schedule: seq<nat>, i: nat, k: nat)
    requires ValidSchedule(s, schedule) && i < |s.calls| && k <= |schedule|
  {
    var r := At(cfg, s, schedule, k);
    InAdmission(r.calls[i]) && r.m.virt + s.calls[i].size > cfg.virtCap
  }

  /** Step `k` was the call's own, and added its size to a use with which it fitted. */
  predicate GrantedAt(cfg: Config, s: State, schedule: seq<nat>, i: nat, k: nat)
    requires ValidSchedule(s, schedule) && i < |s.calls| && k < |schedule|
  {
    var r, t := At(cfg, s, schedule, k), At(cfg, s, schedule, k + 1);
    schedule[k] == i && InAdmission(r.calls[i]) && r.m.virt + s.calls[i].size == t.m.virt <= cfg.virtCap
  }

  /** Where a call is says what happened to it before. */
  ghost predicate Accountable(cfg: Config, s: State, schedule: seq<nat>, i: nat)
    requires ValidSchedule(s, schedule) && i < |s.calls|
  {
    var c := Run(cfg, s, schedule).calls[i];
    && (c.pc.Admitting? ==> exists k :: 0 <= k <= |schedule| && Undecided(cfg, s, schedule, i, k, c.pc.seen))
    && (c.pc.Rejected? ==> exists k :: 0 <= k <= |schedule| && TooMuchAt(cfg, s, schedule, i, k))
    && (Granted(c) ==> exists k :: 0 <= k < |schedule| && GrantedAt(cfg, s, schedule, i, k))
  }

  lemma EarlierMoments(cfg: Config, s: State, schedule: seq<nat>)
    requires schedule != [] && ValidSchedule(s, schedule)
    ensures forall k :: 0 <= k < |schedule| ==>
              At(cfg, s, schedule[..|schedule| - 1], k) == At(cfg, s, schedule, k)
  {
    forall k | 0 <= k < |schedule| ensures schedule[..|schedule| - 1][..k] == schedule[..k] {}
  }

  lemma AccountableLater(cfg: Config, s: State, schedule: seq<nat>, i: nat)
    requires schedule != [] && ValidSchedule(s, schedule) && i < |s.calls|
    requires Accountable(cfg, s, schedule[..|schedule| - 1], i)
    requires Run(cfg, s, schedule).calls[i] == Run(cfg, s, schedule[..|schedule| - 1]).calls[i]
    ensures Accountable(cfg, s, schedule, i)
  {
    hide Run;
    var n := |schedule| - 1;
    EarlierMoments(cfg, s, schedule);
    var c := Run(cfg, s, schedule).calls[i];
    if c.pc.Admitting? {
      var k :| 0 <= k <= n && Undecided(cfg, s, schedule[..n], i, k, c.pc.seen);
      assert Undecided(cfg, s, schedule, i, k, c.pc.seen);
    }
    if c.pc.Rejected? {
      var k :| 0 <= k <= n && TooMuchAt(cfg, s, schedule[..n], i, k);
      assert TooMuchAt(cfg, s, schedule, i, k);
    }
    if Granted(c) {
      var k :| 0 <= k < n && GrantedAt(cfg, s, schedule[..n], i, k);
      assert GrantedAt(cfg, s, schedule, i, k);
    }
  }

  /** The call's own step decides it by what it loaded. */
  lemma AccountableStep(cfg: Config, s: State, schedule: seq<nat>, i: nat)
    requires schedule != [] && ValidSchedule(s, schedule) && schedule[|schedule| - 1] == i < |s.calls|
    requires Accountable(cfg, s, schedule[..|schedule| - 1], i)
    requires VirtIsExact(cfg, Run(cfg, s, schedule[..|schedule| - 1]))
    ensures Accountable(cfg, s, schedule, i)
  {
    hide Act;
    var n := |schedule| - 1;
    var r, t := Run(cfg, s, schedule[..n]), Run(cfg, s, schedule);
    var c, d := r.calls[i], t.calls[i];
    MemberVirt(r.calls, i);
    SizesStay(cfg, s, schedule[..n], i);
    ActDecides(cfg, c, r.m);
    assert schedule[..n + 1] == schedule;
    hide Run;
    EarlierMoments(cfg, s, schedule);
    if d == c {
      AccountableLater(cfg, s, schedule, i);
    } else if d.pc.Admitting? {
      assert Undecided(cfg, s, schedule, i, n, d.pc.seen);
    } else if d.pc.Rejected? {
      var k :| 0 <= k <= n && Undecided(cfg, s, schedule[..n], i, k, c.pc.seen);
      assert TooMuchAt(cfg, s, schedule, i, k);
    } else if Granted(d) {
      if Granted(c) {
        var k :| 0 <= k < n && GrantedAt(cfg, s, schedule[..n], i, k);
        assert GrantedAt(cfg, s, schedule, i, k);
      } else {
        assert GrantedAt(cfg, s, schedule, i, n);
      }
    }
  }

  lemma {:induction false} EveryCallIsAccountable(cfg: Config, s: State, schedule: seq<nat>, i: nat)
    requires Initial(cfg, s) && ValidSchedule(s, schedule) && i < |s.calls|
    ensures Accountable(cfg, s, schedule, i)
  {
    if schedule == [] {
      assert Fresh(s.calls[i]);
    } else {
      hide Act, Accountable, VirtIsExact;
      var n := |schedule| - 1;
      EveryCallIsAccountable(cfg, s, schedule[..n], i);
      RunKeepsVirt(cfg, s, schedule[..n]);
      if schedule[n] == i {
        AccountableStep(cfg, s, schedule, i);
      } else {
        AccountableLater(cfg, s, schedule, i);
      }
    }
  }

  /**
   In every interleaving of Allocs and Frees, a call that was refused did not fit at some moment before it was
   decided, and a call that was granted fitted at the moment at which it took its space.
   */
  lemma RefusedOnlyIfItDidNotFit(cfg: Config, s: State, schedule: seq<nat>, i: nat)
    requires Initial(cfg, s) && ValidSchedule(s, schedule) && i < |s.calls|
    ensures var c := Run(cfg, s, schedule).calls[i];
      && (c.pc.Rejected? ==> exists k :: 0 <= k <= |schedule| && TooMuchAt(cfg, s, schedule, i, k))
      && (c.pc.Held? ==> exists k :: 0 <= k < |schedule| && GrantedAt(cfg, s, schedule, i, k))
  {
    hide Run;
    EveryCallIsAccountable(cfg, s, schedule, i);
  }

  /** When all sizes fit together nobody is refused, whatever the interleaving. */
  lemma NobodyIsRefusedIfAllFit(cfg: Config, s: State, schedule: seq<nat>, i: nat)
    requires Initial(cfg, s) && ValidSchedule(s, schedule) && i < |s.calls| && TotalSize(s.calls) <= cfg.virtCap
    ensures var c := Run(cfg, s, schedule).calls[i]; !c.pc.Rejected? && (Done(c) ==> c.pc == Held || c.pc == Freed)
  {
    hide Run, Act;
    EveryCallIsAccountable(cfg, s, schedule, i);
    if Run(cfg, s, schedule).calls[i].pc.Rejected? {
      var k :| 0 <= k <= |schedule| && TooMuchAt(cfg, s, schedule, i, k);
      var r := At(cfg, s, schedule, k);
      RunKeepsVirt(cfg, s, schedule[..k]);
      MemberVirt(r.calls, i);
      SizesStay(cfg, s, schedule[..k], i);
      TotalStays(cfg, s, schedule[..k]);
      assert false;
    }
  }

  lemma {:induction false} TotalStays(cfg: Config, s: State, schedule: seq<nat>)
    requires ValidSchedule(s, schedule)
    ensures TotalSize(Run(cfg, s, schedule).calls) == TotalSize(s.calls)
  {
    if schedule != [] {
      hide Act;
      var n := |schedule| - 1;
      var r := Run(cfg, s, schedule[..n]);
      TotalStays(cfg, s, schedule[..n]);
      SizeStays(cfg, r.calls[schedule[n]], r.m);
      TallyUpdate(r.calls, schedule[n], Run(cfg, s, schedule).calls[schedule[n]]);
    }
  }

  // ---------------------------------------------------------------- Allocs alone

  lemma ActGrows(cfg: Config, c: Call, m: Counters)
    requires !c.frees && SeenWithinCap(cfg, c) && m.virt <= cfg.virtCap && cfg.virtCap + c.size < POW64
    requires !InRelease(c) || c.pc.Held?
    ensures var (d, n) := Act(cfg, c, m); n.virt >= m.virt && (!InRelease(d) || d.pc.Held?)
  {}

  lemma StepGrows(cfg: Config, s: State, i: nat)
    requires i < |s.calls| && VirtIsExact(cfg, s) && AllocsOnly(s) && Contention(cfg, s)
    ensures Step(cfg, s, i).m.virt >= s.m.virt
  {
    hide Act;
    assert CallContention(cfg, s.calls[i], s.m, |s.calls|);
    MemberVirt(s.calls, i);
    ActGrows(cfg, s.calls[i], s.m);
  }

  /** Without frees a call that was refused does not fit ever after. */
  lemma {:induction false} RefusedNeverFits(cfg: Config, s: State, schedule: seq<nat>, i: nat)
    requires Initial(cfg, s) && AllocsOnly(s) && ValidSchedule(s, schedule) && i < |s.calls|
    ensures var r := Run(cfg, s, schedule);
      r.calls[i].pc.Rejected? ==> r.m.virt + r.calls[i].size > cfg.virtCap
  {
    hide Run;
    EveryCallIsAccountable(cfg, s, schedule, i);
    SizesStay(cfg, s, schedule, i);
    if Run(cfg, s, schedule).calls[i].pc.Rejected? {
      var k :| 0 <= k <= |schedule| && TooMuchAt(cfg, s, schedule, i, k);
      VirtGrows(cfg, s, schedule, k);
    }
  }

  lemma {:induction false} VirtGrows(cfg: Config, s: State, schedule: seq<nat>, k: nat)
    requires Initial(cfg, s) && AllocsOnly(s) && ValidSchedule(s, schedule) && k <= |schedule|
    ensures At(cfg, s, schedule, k).m.virt <= Run(cfg, s, schedule).m.virt
    decreases |schedule|
  {
    if k == |schedule| {
      assert schedule[..k] == schedule;
    } else {
      hide Step, VirtIsExact, Contention, Accounted;
      var n := |schedule| - 1;
      VirtGrows(cfg, s, schedule[..n], k);
      EarlierMoments(cfg, s, schedule);
      RunKeepsContention(cfg, s, schedule[..n]);
      RunKeepsVirt(cfg, s, schedule[..n]);
      StepGrows(cfg, Run(cfg, s, schedule[..n]), schedule[n]);
    }
  }

  /** Allocs that fit together are all granted within 4n + 1 turns each. */
  lemma FittingAllocsAreGranted(cfg: Config, s: State, schedule: seq<nat>, i: nat)
    requires Initial(cfg, s) && AllocsOnly(s) && ValidSchedule(s, schedule) && i < |s.calls|
    requires TotalSize(s.calls) <= cfg.virtCap && Turns(schedule, i) >= 4 * |s.calls| + 1
    ensures Run(cfg, s, schedule).calls[i].pc == Held
  {
    hide Run;
    FinishesInBoundedTurns(cfg, s, schedule, i);
    NobodyIsRefusedIfAllFit(cfg, s, schedule, i);
    SizesStay(cfg, s, schedule, i);
    FreedOnlyByFrees(cfg, s, schedule, i);
  }

  lemma FreedOnlyByFrees(cfg: Config, s: State, schedule: seq<nat>, i: nat)
    requires Initial(cfg, s) && AllocsOnly(s) && ValidSchedule(s, schedule) && i < |s.calls|
    ensures !Run(cfg, s, schedule).calls[i].pc.Freed?
  {
    hide Run;
    var r := Run(cfg, s, schedule);
    RunKeepsContention(cfg, s, schedule);
    assert CallContention(cfg, r.calls[i], r.m, |r.calls|);
  }

  // ---------------------------------------------------------------- one call alone

  /** `n` steps of a call that nobody interrupts. */
  function Alone(cfg: Config, c: Call, m: Counters, n: nat): (Call, Counters)
    decreases n
  {
    if n == 0 then (c, m) else
    var (d, k) := Act(cfg, c, m);
    Alone(cfg, d, k, n - 1)
  }

  lemma AloneUnfolds(cfg: Config, c: Call, m: Counters, n: nat)
    requires n > 0
    ensures Alone(cfg, c, m, n) == Alone(cfg, Act(cfg, c, m).0, Act(cfg, c, m).1, n - 1)
  {}

  /** An Alloc that runs alone is granted exactly if it fits, and then fills physical memory before swap. */
  lemma AllocAlone(cfg: Config, c: Call, m: Counters)
    requires c.pc == Start && !c.frees && m.virt <= cfg.virtCap && m.phys <= cfg.physCap
    requires cfg.virtCap + c.size < POW64 && cfg.physCap + c.size < POW64 && m.swap + c.size < POW64
    ensures var (d, k) := Alone(cfg, c, m, 5);
      && d.pc == (if m.virt + c.size <= cfg.virtCap then Held else Rejected)
      && k.virt == (if d.pc == Held then m.virt + c.size else m.virt)
      && k.phys == (if d.pc == Held then Oversub.Min(m.phys + c.size, cfg.physCap) else m.phys)
      && k.phys + k.swap == m.phys + m.swap + (if d.pc == Held then c.size else 0)
  {
    AllocAloneAdmits(cfg, c, m);
    hide Admit, Release;
    var (d, k) := Alone(cfg, c, m, 2);
    AloneSplits(cfg, c, m, 2, 3);
    if d.pc == Reserved {
      AllocAloneAttributes(cfg, d, k);
    } else {
      assert d.pc == Rejected;
      AloneDone(cfg, d, k, 3);
    }
  }

  lemma {:induction false} AloneSplits(cfg: Config, c: Call, m: Counters, a: nat, b: nat)
    ensures Alone(cfg, c, m, a + b) == Alone(cfg, Alone(cfg, c, m, a).0, Alone(cfg, c, m, a).1, b)
    decreases a
  {
    if a > 0 { AloneSplits(cfg, Act(cfg, c, m).0, Act(cfg, c, m).1, a - 1, b); }
  }

  lemma {:induction false} AloneDone(cfg: Config, c: Call, m: Counters, n: nat)
    requires Done(c)
    ensures Alone(cfg, c, m, n) == (c, m)
  {
    DoneStays(cfg, c, m);
    if n > 0 { AloneDone(cfg, c, m, n - 1); }
  }

  lemma AllocAloneAdmits(cfg: Config, c: Call, m: Counters)
    requires c.pc == Start && !c.frees && m.virt <= cfg.virtCap && cfg.virtCap + c.size < POW64
    ensures var (d, k) := Alone(cfg, c, m, 2);
      && d.size == c.size && !d.frees && k.phys == m.phys && k.swap == m.swap
      && d.pc == (if m.virt + c.size <= cfg.virtCap then Reserved else Rejected)
      && k.virt == (if d.pc == Reserved then m.virt + c.size else m.virt)
  {
    hide Attribute, Release;
    AloneUnfolds(cfg, c, m, 2);
    var (d, k) := Act(cfg, c, m);
    AloneUnfolds(cfg, d, k, 1);
  }

  lemma AllocAloneAttributes(cfg: Config, c: Call, m: Counters)
    requires c.pc == Reserved && !c.frees && m.phys <= cfg.physCap
    requires cfg.physCap + c.size < POW64 && m.swap + c.size < POW64
    ensures var (d, k) := Alone(cfg, c, m, 3);
      && d.pc == Held && k.virt == m.virt
      && k.phys == Oversub.Min(m.phys + c.size, cfg.physCap) && k.phys + k.swap == m.phys + m.swap + c.size
  {
    hide Admit, Release;
    AloneUnfolds(cfg, c, m, 3);
    var (d, k) := Act(cfg, c, m);
    AloneUnfolds(cfg, d, k, 2);
    var (e, l) := Act(cfg, d, k);
    AloneUnfolds(cfg, e, l, 1);
  }

  /** A Free that runs alone gives back its size, out of swap first and the rest out of physical memory. */
  lemma FreeAlone(cfg: Config, c: Call, m: Counters)
    requires c.pc == Held && c.frees && c.size <= m.virt && c.size <= m.phys + m.swap
    ensures var (d, k) := Alone(cfg, c, m, 4);
      && d.pc == Freed && k.virt == m.virt - c.size
      && k.swap == m.swap - Oversub.Min(c.size, m.swap) && k.phys + k.swap == m.phys + m.swap - c.size
  {
    hide Admit, Attribute;
    AloneUnfolds(cfg, c, m, 4);
    var (d, k) := Act(cfg, c, m);
    AloneUnfolds(cfg, d, k, 3);
    var (e, l) := Act(cfg, d, k);
    AloneUnfolds(cfg, e, l, 2);
    var (f, n) := Act(cfg, e, l);
    AloneUnfolds(cfg, f, n, 1);
  }
}
