/**
 How long Alloc can be kept busy. A compare-and-swap fails only because another call strictly advanced
 the counter since the load, and each call advances each counter at most once, so in any interleaving of
 n Allocs a call loses at most n - 1 rounds of either loop.
 */
module AllocContention {
  import opened AllocProtocol
  import opened Counting

  predicate Admitted(c: Call) {
    InAttribution(c) || c.pc.Held?
  }

  predicate Attributed(c: Call) {
    c.pc.SwapDue? || c.pc.Held?
  }

  function Admission(c: Call): (n: nat)
    ensures n <= 1
  {
    If(Admitted(c))
  }

  function Attribution(c: Call): (n: nat)
    ensures n <= 1
  {
    If(Attributed(c))
  }

  /** What a call among n Allocs has lost so far is bounded by what the counters have advanced. */
  predicate CallContention(cfg: Config, c: Call, m: Counters, n: nat) {
    match c.pc
    case Start => c.lost1 <= m.virtAdvances && c.lost2 == 0 && c.steps == 2 * c.lost1
    case Admitting(seen) =>
      && c.lost1 <= c.mark <= m.virtAdvances && c.lost2 == 0 && c.steps == 2 * c.lost1 + 1
      && (seen == m.virt || c.mark < m.virtAdvances)
    case Rejected => c.lost1 < n && c.lost2 == 0 && c.steps == 2 * c.lost1 + 2
    case Reserved => c.lost1 < n && c.lost2 <= m.physAdvances && c.steps == 2 * c.lost1 + 2 * c.lost2 + 2
    case Splitting(seen) =>
      && c.lost1 < n && c.lost2 <= c.mark <= m.physAdvances && c.steps == 2 * c.lost1 + 2 * c.lost2 + 3
      && seen <= m.phys && (seen == m.phys || c.mark < m.physAdvances)
    case SwapDue(_) => c.lost1 < n && c.lost2 < n && c.steps == 2 * c.lost1 + 2 * c.lost2 + 4 && m.phys == cfg.physCap
    case Held => c.lost1 < n && c.lost2 < n && c.steps <= 2 * c.lost1 + 2 * c.lost2 + 5
    case _ => false
  }

  ghost predicate AllocsOnly(s: State) {
    forall i :: 0 <= i < |s.calls| ==> !s.calls[i].frees
  }

  ghost predicate Contention(cfg: Config, s: State) {
    && (forall i :: 0 <= i < |s.calls| ==> CallContention(cfg, s.calls[i], s.m, |s.calls|))
    && s.m.virtAdvances <= Sum(Admission, s.calls)
    && s.m.physAdvances <= Sum(Attribution, s.calls)
    && (s.m.swap > 0 ==> s.m.phys == cfg.physCap)
  }

  /** Without frees the two contended counters only grow, and every change is a strict advance. */
  predicate Grows(cfg: Config, m: Counters, n: Counters) {
    && m.virt <= n.virt && m.virtAdvances <= n.virtAdvances && (n.virt == m.virt || m.virtAdvances < n.virtAdvances)
    && m.phys <= n.phys <= cfg.physCap && m.physAdvances <= n.physAdvances
    && (n.phys == m.phys || m.physAdvances < n.physAdvances)
  }

  /** What one action does to the caller's account of lost rounds and to the counters. */
  predicate Contends(cfg: Config, c: Call, m: Counters, d: Call, k: Counters, n: nat) {
    && !d.frees && CallContention(cfg, d, k, n) && Grows(cfg, m, k)
    && k.virtAdvances <= m.virtAdvances + If(Admitted(d) && !Admitted(c))
    && k.physAdvances <= m.physAdvances + If(Attributed(d) && !Attributed(c))
    && (Admitted(c) ==> Admitted(d)) && (Attributed(c) ==> Attributed(d))
    && (k.swap > 0 ==> k.phys == cfg.physCap)
  }

  predicate MayContend(cfg: Config, c: Call, m: Counters, n: nat) {
    && Room(cfg, c, m) && !c.frees && CallContention(cfg, c, m, n)
    && (!Admitted(c) ==> m.virtAdvances < n)
    && (!Attributed(c) ==> m.physAdvances < n)
    && (m.swap > 0 ==> m.phys == cfg.physCap)
  }

  lemma AdmitContends(cfg: Config, c: Call, m: Counters, n: nat)
    requires MayContend(cfg, c, m, n) && InAdmission(c)
    ensures Contends(cfg, c, m, Act(cfg, c, m).0, Act(cfg, c, m).1, n)
  {
    hide Attribute, Release;
  }

  lemma AttributeContends(cfg: Config, c: Call, m: Counters, n: nat)
    requires MayContend(cfg, c, m, n) && InAttribution(c)
    ensures Contends(cfg, c, m, Act(cfg, c, m).0, Act(cfg, c, m).1, n)
  {
    hide Admit, Release;
  }

  lemma ActContends(cfg: Config, c: Call, m: Counters, n: nat)
    requires MayContend(cfg, c, m, n)
    ensures Contends(cfg, c, m, Act(cfg, c, m).0, Act(cfg, c, m).1, n)
  {
    hide Admit, Attribute, Release;
    if InAdmission(c) {
      AdmitContends(cfg, c, m, n);
    } else if InAttribution(c) {
      AttributeContends(cfg, c, m, n);
    }
  }

  lemma GrowthKeepsContention(cfg: Config, c: Call, m: Counters, n: nat, k: Counters)
    requires CallContention(cfg, c, m, n) && Grows(cfg, m, k)
    ensures CallContention(cfg, c, k, n)
  {}

  /** The call that acts finds room to advance each counter it has not advanced yet. */
  lemma ActInState(cfg: Config, s: State, i: nat)
    requires i < |s.calls| && Accounted(cfg, s) && AllocsOnly(s) && Contention(cfg, s)
    ensures var t := Step(cfg, s, i);
      && CallContention(cfg, t.calls[i], t.m, |s.calls|) && Grows(cfg, s.m, t.m) && !t.calls[i].frees
      && t.m.virtAdvances <= Sum(Admission, t.calls) && t.m.physAdvances <= Sum(Attribution, t.calls)
      && (t.m.swap > 0 ==> t.m.phys == cfg.physCap)
  {
    hide Act, CallContention, Accounted, Room;
    var t := Step(cfg, s, i);
    RoomForCall(cfg, s, i);
    SumUpdate(Admission, s.calls, i, t.calls[i]);
    SumUpdate(Attribution, s.calls, i, t.calls[i]);
    SumBelow(Admission, s.calls, i);
    SumBelow(Attribution, s.calls, i);
    ActContends(cfg, s.calls[i], s.m, |s.calls|);
  }

  lemma StepKeepsContention(cfg: Config, s: State, i: nat)
    requires i < |s.calls| && Accounted(cfg, s) && AllocsOnly(s) && Contention(cfg, s)
    ensures Accounted(cfg, Step(cfg, s, i)) && AllocsOnly(Step(cfg, s, i)) && Contention(cfg, Step(cfg, s, i))
  {
    var t := Step(cfg, s, i);
    assert CallContention(cfg, s.calls[i], s.m, |s.calls|);
    assert Harmless(s.calls[i], s.m);
    hide Act, CallContention, Accounted;
    StepKeepsAccounts(cfg, s, i);
    ActInState(cfg, s, i);
    forall j | 0 <= j < |t.calls| ensures CallContention(cfg, t.calls[j], t.m, |t.calls|) {
      if j != i { GrowthKeepsContention(cfg, s.calls[j], s.m, |s.calls|, t.m); }
    }
  }

  lemma {:induction false} RunKeepsContention(cfg: Config, s: State, schedule: seq<nat>)
    requires Initial(cfg, s) && AllocsOnly(s) && ValidSchedule(s, schedule)
    ensures var r := Run(cfg, s, schedule);
      Accounted(cfg, r) && AllocsOnly(r) && Contention(cfg, r) && HarmlessThroughout(cfg, s, schedule)
  {
    if schedule == [] {
      TallyZero(s.calls);
      SumNone(Admission, s.calls);
      SumNone(Attribution, s.calls);
    } else {
      var n := |schedule| - 1;
      RunKeepsContention(cfg, s, schedule[..n]);
      var before := Run(cfg, s, schedule[..n]);
      assert CallContention(cfg, before.calls[schedule[n]], before.m, |before.calls|);
      StepKeepsContention(cfg, before, schedule[n]);
    }
  }

  /** In every interleaving of n Allocs, each call loses at most n - 1 rounds of each loop. */
  lemma LosesAtMostTheOthers(cfg: Config, s: State, schedule: seq<nat>, i: nat)
    requires Initial(cfg, s) && AllocsOnly(s) && ValidSchedule(s, schedule) && i < |s.calls|
    ensures Run(cfg, s, schedule).calls[i].lost1 <= |s.calls| - 1
    ensures Run(cfg, s, schedule).calls[i].lost2 <= |s.calls| - 1
  {
    var r := Run(cfg, s, schedule);
    RunKeepsContention(cfg, s, schedule);
    assert CallContention(cfg, r.calls[i], r.m, |r.calls|);
    SumBelow(Admission, r.calls, i);
    SumBelow(Attribution, r.calls, i);
  }

  function Turns(schedule: seq<nat>, i: nat): nat {
    if schedule == [] then 0
    else Turns(schedule[..|schedule| - 1], i) + if schedule[|schedule| - 1] == i then 1 else 0
  }

  lemma ActUsesATurn(cfg: Config, c: Call, m: Counters)
    ensures if Done(c) then Act(cfg, c, m).0 == c else Act(cfg, c, m).0.steps == c.steps + 1
  {}

  lemma {:induction false} UnfinishedUsesEveryTurn(cfg: Config, s: State, schedule: seq<nat>, i: nat)
    requires Initial(cfg, s) && AllocsOnly(s) && ValidSchedule(s, schedule) && i < |s.calls|
    ensures var c := Run(cfg, s, schedule).calls[i]; Done(c) || c.steps == Turns(schedule, i)
  {
    hide Act;
    if schedule != [] {
      var before := Run(cfg, s, schedule[..|schedule| - 1]);
      ActUsesATurn(cfg, before.calls[i], before.m);
      UnfinishedUsesEveryTurn(cfg, s, schedule[..|schedule| - 1], i);
    }
  }

  /** Alloc terminates whatever the other calls do: among n Allocs, a call that is given 4n + 1 turns is finished. */
  lemma FinishesInBoundedTurns(cfg: Config, s: State, schedule: seq<nat>, i: nat)
    requires Initial(cfg, s) && AllocsOnly(s) && ValidSchedule(s, schedule) && i < |s.calls|
    requires Turns(schedule, i) >= 4 * |s.calls| + 1
    ensures Done(Run(cfg, s, schedule).calls[i])
  {
    var r := Run(cfg, s, schedule);
    UnfinishedUsesEveryTurn(cfg, s, schedule, i);
    LosesAtMostTheOthers(cfg, s, schedule, i);
    RunKeepsContention(cfg, s, schedule);
    assert CallContention(cfg, r.calls[i], r.m, |r.calls|);
  }

  /** When all Allocs have finished, physical memory was filled first and only the rest went to swap. */
  lemma FinishedAllocsFillPhysicalFirst(cfg: Config, s: State, schedule: seq<nat>)
    requires Initial(cfg, s) && AllocsOnly(s) && ValidSchedule(s, schedule)
    requires forall i :: 0 <= i < |s.calls| ==> Done(Run(cfg, s, schedule).calls[i])
    ensures var m := Run(cfg, s, schedule).m;
      && m.phys == (if m.virt <= cfg.physCap then m.virt else cfg.physCap)
      && m.swap == m.virt - m.phys
  {
    RunKeepsContention(cfg, s, schedule);
    EveryInterleavingIsSafe(cfg, s, schedule);
  }
}
