/**
 The lock-free Alloc/Free protocol of OversubManager as a step machine.

 Any number of calls share three counters. One step of a call is one atomic load, compare-and-swap,
 add or store of the program; a schedule is the order in which the calls take their steps, so a
 statement about every schedule is a statement about every interleaving.
 */
module AllocProtocol {
  import opened UInt64

  datatype Config = Config(physCap: uint64, virtCap: uint64)

  /** Where a call stands. `seen` is the value its last load returned. */
  datatype Pc =
    | Start                   // about to load virtualUsedMiB
    | Admitting(seen: uint64) // about to compare with the cap and swap
    | Rejected
    | Reserved                // virtual space taken, about to load physicalUsedMiB
    | Splitting(seen: uint64) // about to divide the size between physical memory and swap
    | SwapDue(amount: uint64) // physical part taken, the swap part still to be added
    | Held
    | Released                // virtual space given back, about to load swapUsedMiB
    | SwapSeen(seen: uint64)  // about to write swapUsedMiB
    | PhysDue(amount: uint64) // physical part still to be given back
    | Freed

  /**
   One allocation: its size, whether its owner frees it after it is granted, and its position.
   The other fields count what happened to it: compare-and-swaps lost in each loop, steps taken,
   and the number of advances of the contended counter at its last load.
   */
  datatype Call = Call(size: uint64, frees: bool, pc: Pc, lost1: nat, lost2: nat, steps: nat, mark: nat)

  /** The three atomic counters, and how often the first two strictly advanced. */
  datatype Counters = Counters(virt: uint64, phys: uint64, swap: uint64, virtAdvances: nat, physAdvances: nat)

  datatype State = State(m: Counters, calls: seq<Call>)

  predicate Done(c: Call) {
    c.pc.Rejected? || c.pc.Freed? || (c.pc.Held? && !c.frees)
  }

  function Advance(from: uint64, to: uint64): nat {
    if to > from then 1 else 0
  }

  predicate InAdmission(c: Call) {
    c.pc.Start? || c.pc.Admitting?
  }

  predicate InAttribution(c: Call) {
    c.pc.Reserved? || c.pc.Splitting? || c.pc.SwapDue?
  }

  predicate InRelease(c: Call) {
    c.pc.Held? || c.pc.Released? || c.pc.SwapSeen? || c.pc.PhysDue?
  }

  /** One step of Alloc's first loop. */
  function Admit(cfg: Config, c: Call, m: Counters): (Call, Counters)
    requires InAdmission(c)
  {
    match c.pc
    case Start => (c.(pc := Admitting(m.virt), mark := m.virtAdvances), m)
    case Admitting(seen) =>
      var sum := Add(seen, c.size);
      if sum > cfg.virtCap then (c.(pc := Rejected), m)
      else if m.virt == seen then
        (c.(pc := Reserved), m.(virt := sum, virtAdvances := m.virtAdvances + Advance(seen, sum)))
      else (c.(pc := Start, lost1 := c.lost1 + 1), m)
  }

  /** One step of Alloc's second loop. */
  function Attribute(cfg: Config, c: Call, m: Counters): (Call, Counters)
    requires InAttribution(c)
  {
    match c.pc
    case Reserved => (c.(pc := Splitting(m.phys), mark := m.physAdvances), m)
    case Splitting(seen) =>
      var sum := Add(seen, c.size);
      if sum <= cfg.physCap then
        if m.phys == seen then
          (c.(pc := Held), m.(phys := sum, physAdvances := m.physAdvances + Advance(seen, sum)))
        else (c.(pc := Reserved, lost2 := c.lost2 + 1), m)
      else if seen >= cfg.physCap then (c.(pc := Held), m.(swap := Add(m.swap, c.size)))
      else if m.phys == seen then
        (c.(pc := SwapDue(Sub(c.size, cfg.physCap - seen))),
         m.(phys := cfg.physCap, physAdvances := m.physAdvances + 1))
      else (c.(pc := Reserved, lost2 := c.lost2 + 1), m)
    case SwapDue(amount) => (c.(pc := Held), m.(swap := Add(m.swap, amount)))
  }

  /** One step of Free. */
  function Release(c: Call, m: Counters): (Call, Counters)
    requires InRelease(c)
  {
    match c.pc
    case Held => (c.(pc := Released), m.(virt := SubByComplement(m.virt, c.size)))
    case Released => (c.(pc := SwapSeen(m.swap)), m)
    case SwapSeen(seen) =>
      if seen >= c.size then (c.(pc := Freed), m.(swap := SubByComplement(m.swap, c.size)))
      else if seen > 0 then (c.(pc := PhysDue(c.size - seen)), m.(swap := 0))
      else (c.(pc := PhysDue(c.size)), m)
    case PhysDue(amount) => (c.(pc := Freed), m.(phys := SubByComplement(m.phys, amount)))
  }

  /** The next atomic action of a call; a finished call does nothing. */
  function Act(cfg: Config, c: Call, m: Counters): (Call, Counters) {
    var d := c.(steps := c.steps + 1);
    if Done(c) then (c, m)
    else if InAdmission(d) then Admit(cfg, d, m)
    else if InAttribution(d) then Attribute(cfg, d, m)
    else Release(d, m)
  }

  function Step(cfg: Config, s: State, i: nat): State
    requires i < |s.calls|
  {
    var (c, m) := Act(cfg, s.calls[i], s.m);
    State(m, s.calls[i := c])
  }

  predicate ValidSchedule(s: State, schedule: seq<nat>) {
    forall k :: 0 <= k < |schedule| ==> schedule[k] < |s.calls|
  }

  /** The state after the calls have taken their steps in the order of the schedule. */
  function Run(cfg: Config, s: State, schedule: seq<nat>): (r: State)
    requires ValidSchedule(s, schedule)
    ensures |r.calls| == |s.calls|
  {
    if schedule == [] then s
    else Step(cfg, Run(cfg, s, schedule[..|schedule| - 1]), schedule[|schedule| - 1])
  }

  /** No call has begun, and no counter can wrap: the sizes together fit in 64 bits beside either cap. */
  ghost predicate Initial(cfg: Config, s: State) {
    && s.m == Counters(0, 0, 0, 0, 0)
    && (forall i :: 0 <= i < |s.calls| ==> Fresh(s.calls[i]))
    && Fits(cfg, s.calls)
  }

  predicate Fresh(c: Call) {
    c.pc == Start && c.lost1 == c.lost2 == c.steps == c.mark == 0
  }

  predicate Fits(cfg: Config, calls: seq<Call>) {
    TotalSize(calls) + cfg.virtCap < POW64 && TotalSize(calls) + cfg.physCap < POW64
  }

  function TotalSize(calls: seq<Call>): nat {
    if calls == [] then 0 else calls[0].size + TotalSize(calls[1..])
  }

  // ---------------------------------------------------------------- accounting

  /** What calls hold: virtual space, space attributed to physical memory or swap, physical space owed back. */
  datatype Shares = Shares(virt: nat, attributed: nat, physDue: nat)

  function Share(c: Call): Shares {
    match c.pc
    case Reserved => Shares(c.size, 0, 0)
    case Splitting(_) => Shares(c.size, 0, 0)
    case SwapDue(amount) => Shares(c.size, if amount <= c.size then c.size - amount else 0, 0)
    case Held => Shares(c.size, c.size, 0)
    case Released => Shares(0, c.size, 0)
    case SwapSeen(seen) => Shares(0, c.size, if seen == 0 then c.size else 0)
    case PhysDue(amount) => Shares(0, amount, amount)
    case _ => Shares(0, 0, 0)
  }

  function Tally(calls: seq<Call>): Shares {
    if calls == [] then Shares(0, 0, 0) else
    var t, c := Tally(calls[1..]), Share(calls[0]);
    Shares(t.virt + c.virt, t.attributed + c.attributed, t.physDue + c.physDue)
  }

  lemma {:induction false} TallyUpdate(calls: seq<Call>, i: nat, c: Call)
    requires i < |calls| && c.size == calls[i].size
    ensures Tally(calls[i := c]).virt == Tally(calls).virt - Share(calls[i]).virt + Share(c).virt
    ensures Tally(calls[i := c]).attributed ==
        Tally(calls).attributed - Share(calls[i]).attributed + Share(c).attributed
    ensures Tally(calls[i := c]).physDue == Tally(calls).physDue - Share(calls[i]).physDue + Share(c).physDue
    ensures TotalSize(calls[i := c]) == TotalSize(calls)
  {
    if i == 0 {
      assert calls[i := c][1..] == calls[1..];
    } else {
      assert calls[i := c][1..] == calls[1..][i - 1 := c];
      TallyUpdate(calls[1..], i - 1, c);
    }
  }

  lemma TallyZero(calls: seq<Call>)
    requires forall i :: 0 <= i < |calls| ==> calls[i].pc == Start
    ensures Tally(calls) == Shares(0, 0, 0)
  {}

  predicate AmountOk(c: Call) {
    (c.pc.SwapDue? || c.pc.PhysDue?) ==> c.pc.amount <= c.size
  }

  predicate CallOk(cfg: Config, c: Call) {
    && AmountOk(c)
    && (c.pc.Admitting? ==> c.pc.seen <= cfg.virtCap)
    && (c.pc.Splitting? ==> c.pc.seen <= cfg.physCap)
  }

  ghost predicate CallsOk(cfg: Config, s: State) {
    forall i :: 0 <= i < |s.calls| ==> CallOk(cfg, s.calls[i])
  }

  ghost predicate Balanced(cfg: Config, s: State) {
    var t := Tally(s.calls);
    && s.m.virt == t.virt <= cfg.virtCap
    && s.m.phys + s.m.swap == t.attributed
    && t.physDue <= s.m.phys <= cfg.physCap
  }

  ghost predicate Accounted(cfg: Config, s: State) {
    Balanced(cfg, s) && CallsOk(cfg, s) && Fits(cfg, s.calls)
  }

  /**
   Free loads swapUsedMiB and writes it in two separate steps. The write does no harm if what it takes out of
   the counter is still there: all of `size` when the load saw that much, and otherwise just what the load saw.
   After a load that saw nothing there is no write.
   */
  predicate Harmless(c: Call, m: Counters) {
    c.pc.SwapSeen? ==> if c.pc.seen >= c.size then m.swap >= c.size else c.pc.seen == 0 || m.swap == c.pc.seen
  }

  /** Every step of the schedule is harmless when it is taken. */
  predicate HarmlessThroughout(cfg: Config, s: State, schedule: seq<nat>)
    requires ValidSchedule(s, schedule)
  {
    schedule == [] ||
    var n := |schedule| - 1;
    var before := Run(cfg, s, schedule[..n]);
    HarmlessThroughout(cfg, s, schedule[..n]) && Harmless(before.calls[schedule[n]], before.m)
  }

  lemma {:induction false} AttributedFits(calls: seq<Call>)
    requires forall i :: 0 <= i < |calls| ==> AmountOk(calls[i])
    ensures Tally(calls).physDue <= Tally(calls).attributed <= TotalSize(calls)
  {
    if calls != [] {
      assert AmountOk(calls[0]);
      AttributedFits(calls[1..]);
    }
  }

  /** The counters have room for what the call may still do. */
  predicate Room(cfg: Config, c: Call, m: Counters) {
    && CallOk(cfg, c)
    && Share(c).virt <= m.virt <= cfg.virtCap
    && Share(c).physDue <= m.phys <= cfg.physCap
    && cfg.virtCap + c.size < POW64 && cfg.physCap + c.size < POW64
    && m.swap + c.size - Share(c).attributed < POW64
  }

  /** An action moves the counters exactly as far as it moves the caller's shares, and stays within the caps. */
  predicate Moves(cfg: Config, c: Call, m: Counters, d: Call, n: Counters) {
    && d.size == c.size && CallOk(cfg, d)
    && n.virt == m.virt - Share(c).virt + Share(d).virt <= cfg.virtCap
    && n.phys + n.swap == m.phys + m.swap - Share(c).attributed + Share(d).attributed
    && n.phys <= cfg.physCap
    && (n.swap == 0 || n.phys - m.phys >= Share(d).physDue - Share(c).physDue)
  }

  lemma AdmitMoves(cfg: Config, c: Call, m: Counters)
    requires Room(cfg, c, m) && InAdmission(c) && !Done(c)
    ensures Moves(cfg, c, m, Act(cfg, c, m).0, Act(cfg, c, m).1)
  {}

  lemma AttributeMoves(cfg: Config, c: Call, m: Counters)
    requires Room(cfg, c, m) && InAttribution(c) && !Done(c)
    ensures Moves(cfg, c, m, Act(cfg, c, m).0, Act(cfg, c, m).1)
  {
    hide Admit, Release;
  }

  lemma ReleaseMoves(cfg: Config, c: Call, m: Counters)
    requires Room(cfg, c, m) && InRelease(c) && !Done(c) && Harmless(c, m)
    ensures Moves(cfg, c, m, Act(cfg, c, m).0, Act(cfg, c, m).1)
  {
    hide Admit, Attribute;
  }

  /** A member of the list holds no more than the list, and could still attribute its whole size. */
  lemma {:induction false} MemberFits(calls: seq<Call>, i: nat)
    requires i < |calls|
    requires forall j :: 0 <= j < |calls| ==> AmountOk(calls[j])
    ensures Share(calls[i]).virt <= Tally(calls).virt
    ensures Share(calls[i]).attributed <= Tally(calls).attributed
    ensures Share(calls[i]).physDue <= Tally(calls).physDue
    ensures calls[i].size <= TotalSize(calls)
    ensures Tally(calls).attributed - Share(calls[i]).attributed + calls[i].size <= TotalSize(calls)
  {
    if i == 0 {
      AttributedFits(calls[1..]);
    } else {
      assert AmountOk(calls[0]);
      MemberFits(calls[1..], i - 1);
    }
  }

  lemma RoomForCall(cfg: Config, s: State, i: nat)
    requires i < |s.calls| && Accounted(cfg, s)
    ensures Room(cfg, s.calls[i], s.m)
  {
    assert forall j :: 0 <= j < |s.calls| ==> CallOk(cfg, s.calls[j]) ==> AmountOk(s.calls[j]);
    MemberFits(s.calls, i);
  }

  lemma ActMoves(cfg: Config, c: Call, m: Counters)
    requires Room(cfg, c, m) && Harmless(c, m)
    ensures Done(c) || Moves(cfg, c, m, Act(cfg, c, m).0, Act(cfg, c, m).1)
  {
    hide Admit, Attribute, Release;
    if !Done(c) {
      if InAdmission(c) { AdmitMoves(cfg, c, m); }
      else if InAttribution(c) { AttributeMoves(cfg, c, m); }
      else { ReleaseMoves(cfg, c, m); }
    }
  }

  lemma StepKeepsAccounts(cfg: Config, s: State, i: nat)
    requires i < |s.calls| && Accounted(cfg, s) && Harmless(s.calls[i], s.m)
    ensures Accounted(cfg, Step(cfg, s, i))
  {
    hide Act;
    var c, t := s.calls[i], Step(cfg, s, i);
    RoomForCall(cfg, s, i);
    ActMoves(cfg, c, s.m);
    if Done(c) {
      DoneStays(cfg, c, s.m);
      assert s.calls[i := c] == s.calls;
    } else {
      TallyUpdate(s.calls, i, t.calls[i]);
      forall j | 0 <= j < |t.calls| ensures CallOk(cfg, t.calls[j]) {
        if j != i { assert CallOk(cfg, s.calls[j]); }
      }
      assert forall j :: 0 <= j < |t.calls| ==> CallOk(cfg, t.calls[j]) ==> AmountOk(t.calls[j]);
      AttributedFits(t.calls);
    }
  }

  lemma DoneStays(cfg: Config, c: Call, m: Counters)
    requires Done(c)
    ensures Act(cfg, c, m) == (c, m)
  {}

  // ---------------------------------------------------------------- safety of every interleaving

  /** Space reserved by calls that have not yet attributed it, and space given back but still attributed. */
  function Unattributed(calls: seq<Call>): nat {
    if calls == [] then 0 else
    var c := Share(calls[0]);
    Unattributed(calls[1..]) + if c.virt > c.attributed then c.virt - c.attributed else 0
  }

  function OwedBack(calls: seq<Call>): nat {
    if calls == [] then 0 else
    var c := Share(calls[0]);
    OwedBack(calls[1..]) + if c.attributed > c.virt then c.attributed - c.virt else 0
  }

  lemma {:induction false} GapsBalance(calls: seq<Call>)
    ensures Tally(calls).virt + OwedBack(calls) == Tally(calls).attributed + Unattributed(calls)
  {
    if calls != [] { GapsBalance(calls[1..]); }
  }

  /**
   Neither cap is exceeded, and virtual use is physical use plus swap plus what calls in flight have reserved
   but not attributed, less what half-done frees still owe back. The equation is over the integers, so a state
   that meets it has no counter that wrapped below zero.
   */
  predicate Safe(cfg: Config, s: State) {
    && s.m.virt <= cfg.virtCap && s.m.phys <= cfg.physCap
    && s.m.virt + OwedBack(s.calls) == s.m.phys + s.m.swap + Unattributed(s.calls)
  }

  lemma AccountedIsSafe(cfg: Config, s: State)
    requires Accounted(cfg, s)
    ensures Safe(cfg, s)
  {
    GapsBalance(s.calls);
  }

  /** A harmful write takes more or less out of the counters than the call gives back. */
  lemma HarmBreaksTheBalance(cfg: Config, s: State, i: nat)
    requires i < |s.calls| && Accounted(cfg, s) && !Harmless(s.calls[i], s.m)
    ensures !Safe(cfg, Step(cfg, s, i))
  {
    hide Admit, Attribute;
    var t := Step(cfg, s, i);
    RoomForCall(cfg, s, i);
    TallyUpdate(s.calls, i, t.calls[i]);
    GapsBalance(t.calls);
  }

  /** From an accounted state a step is safe, and keeps the accounts, exactly when it is harmless. */
  lemma StepIsSafeIffHarmless(cfg: Config, s: State, i: nat)
    requires i < |s.calls| && Accounted(cfg, s)
    ensures Accounted(cfg, Step(cfg, s, i)) <==> Harmless(s.calls[i], s.m)
    ensures Safe(cfg, Step(cfg, s, i)) <==> Harmless(s.calls[i], s.m)
  {
    hide Step, Safe, Accounted, Harmless;
    if Harmless(s.calls[i], s.m) {
      StepKeepsAccounts(cfg, s, i);
      AccountedIsSafe(cfg, Step(cfg, s, i));
    } else {
      HarmBreaksTheBalance(cfg, s, i);
      if Accounted(cfg, Step(cfg, s, i)) { AccountedIsSafe(cfg, Step(cfg, s, i)); }
    }
  }

  /** The state is safe after every prefix of the schedule. */
  ghost predicate SafeThroughout(cfg: Config, s: State, schedule: seq<nat>)
    requires ValidSchedule(s, schedule)
  {
    Safe(cfg, Run(cfg, s, schedule)) &&
    (schedule == [] || SafeThroughout(cfg, s, schedule[..|schedule| - 1]))
  }

  lemma {:induction false} RunKeepsAccounts(cfg: Config, s: State, schedule: seq<nat>)
    requires Initial(cfg, s) && ValidSchedule(s, schedule) && HarmlessThroughout(cfg, s, schedule)
    ensures Accounted(cfg, Run(cfg, s, schedule))
  {
    hide Step;
    if schedule == [] {
      TallyZero(s.calls);
    } else {
      var n := |schedule| - 1;
      RunKeepsAccounts(cfg, s, schedule[..n]);
      StepKeepsAccounts(cfg, Run(cfg, s, schedule[..n]), schedule[n]);
    }
  }

  /**
   The exact condition for any number of calls in any interleaving: the counters are right at every moment if
   and only if no Free ever writes swapUsedMiB harmfully.
   */
  lemma {:induction false} EveryInterleavingIsSafe(cfg: Config, s: State, schedule: seq<nat>)
    requires Initial(cfg, s) && ValidSchedule(s, schedule)
    ensures SafeThroughout(cfg, s, schedule) <==> HarmlessThroughout(cfg, s, schedule)
    ensures HarmlessThroughout(cfg, s, schedule)
      && (forall i :: 0 <= i < |s.calls| ==> Done(Run(cfg, s, schedule).calls[i]))
      ==> var m := Run(cfg, s, schedule).m; m.virt == m.phys + m.swap
  {
    hide Step, Safe, Accounted, Harmless;
    if schedule == [] {
      RunKeepsAccounts(cfg, s, schedule);
      AccountedIsSafe(cfg, s);
    } else {
      var n := |schedule| - 1;
      EveryInterleavingIsSafe(cfg, s, schedule[..n]);
      if HarmlessThroughout(cfg, s, schedule[..n]) {
        RunKeepsAccounts(cfg, s, schedule[..n]);
        StepIsSafeIffHarmless(cfg, Run(cfg, s, schedule[..n]), schedule[n]);
      }
    }
    if HarmlessThroughout(cfg, s, schedule) { AllDoneBalances(cfg, s, schedule); }
  }

  lemma AllDoneBalances(cfg: Config, s: State, schedule: seq<nat>)
    requires Initial(cfg, s) && ValidSchedule(s, schedule) && HarmlessThroughout(cfg, s, schedule)
    ensures var r := Run(cfg, s, schedule);
      (forall i :: 0 <= i < |r.calls| ==> Done(r.calls[i])) ==> r.m.virt == r.m.phys + r.m.swap
  {
    var r := Run(cfg, s, schedule);
    RunKeepsAccounts(cfg, s, schedule);
    AccountedIsSafe(cfg, r);
    if forall i :: 0 <= i < |r.calls| ==> Done(r.calls[i]) { DoneLeavesNoGaps(r.calls); }
  }

  predicate InFree(c: Call) {
    c.pc.Released? || c.pc.SwapSeen? || c.pc.PhysDue?
  }

  /** Once a Free has begun, no other call takes a step until it has ended. */
  ghost predicate FreesRunAlone(cfg: Config, s: State, schedule: seq<nat>)
    requires ValidSchedule(s, schedule)
  {
    schedule == [] ||
    var n := |schedule| - 1;
    var before := Run(cfg, s, schedule[..n]);
    && FreesRunAlone(cfg, s, schedule[..n])
    && forall j :: 0 <= j < |before.calls| && InFree(before.calls[j]) ==> j == schedule[n]
  }

  /** A Free that was not interrupted since its load finds the value it loaded. */
  lemma {:induction false} LoadIsCurrent(cfg: Config, s: State, schedule: seq<nat>, i: nat)
    requires Initial(cfg, s) && ValidSchedule(s, schedule) && FreesRunAlone(cfg, s, schedule) && i < |s.calls|
    ensures var r := Run(cfg, s, schedule); r.calls[i].pc.SwapSeen? ==> r.calls[i].pc.seen == r.m.swap
  {
    if schedule != [] {
      hide Admit, Attribute;
      LoadIsCurrent(cfg, s, schedule[..|schedule| - 1], i);
    } else {
      assert Fresh(s.calls[i]);
    }
  }

  /** Frees whose steps follow each other without interruption are harmless, and so the counters stay right. */
  lemma {:induction false} UninterruptedFreesAreSafe(cfg: Config, s: State, schedule: seq<nat>)
    requires Initial(cfg, s) && ValidSchedule(s, schedule) && FreesRunAlone(cfg, s, schedule)
    ensures HarmlessThroughout(cfg, s, schedule) && SafeThroughout(cfg, s, schedule)
  {
    HarmlessWhenAlone(cfg, s, schedule);
    EveryInterleavingIsSafe(cfg, s, schedule);
  }

  lemma {:induction false} HarmlessWhenAlone(cfg: Config, s: State, schedule: seq<nat>)
    requires Initial(cfg, s) && ValidSchedule(s, schedule) && FreesRunAlone(cfg, s, schedule)
    ensures HarmlessThroughout(cfg, s, schedule)
  {
    if schedule != [] {
      var n := |schedule| - 1;
      HarmlessWhenAlone(cfg, s, schedule[..n]);
      LoadIsCurrent(cfg, s, schedule[..n], schedule[n]);
    }
  }

  lemma DoneLeavesNoGaps(calls: seq<Call>)
    requires forall i :: 0 <= i < |calls| ==> Done(calls[i])
    ensures Unattributed(calls) == OwedBack(calls) == 0
  {}

  // ---------------------------------------------------------------- what racing frees can do

  /** Extends a schedule by one step. */
  lemma Then(cfg: Config, s: State, schedule: seq<nat>, i: nat) returns (extended: seq<nat>)
    requires ValidSchedule(s, schedule) && i < |s.calls|
    ensures extended == schedule + [i] && ValidSchedule(s, extended)
    ensures Run(cfg, s, extended) == Step(cfg, Run(cfg, s, schedule), i)
  {
    extended := schedule + [i];
    assert extended[..|extended| - 1] == schedule;
  }

  const SMALL := Config(4, 8)

  /** Two calls of 4 MiB, at the given positions. */
  function Pair(m: Counters, a: Pc, aSteps: nat, b: Pc, bSteps: nat, bMark: nat): State {
    State(m, [Call(4, true, a, 0, 0, aSteps, 0), Call(4, true, b, 0, 0, bSteps, bMark)])
  }

  const EMPTY_PAIR := Pair(Counters(0, 0, 0, 0, 0), Start, 0, Start, 0, 0)

  lemma FillMemory() returns (schedule: seq<nat>)
    ensures ValidSchedule(EMPTY_PAIR, schedule)
    ensures Run(SMALL, EMPTY_PAIR, schedule) == Pair(Counters(4, 4, 0, 1, 1), Held, 4, Start, 0, 0)
  {
    assert Run(SMALL, EMPTY_PAIR, []) == EMPTY_PAIR;
    hide Run;
    schedule := Then(SMALL, EMPTY_PAIR, [], 0);
    schedule := Then(SMALL, EMPTY_PAIR, schedule, 0);
    assert Run(SMALL, EMPTY_PAIR, schedule) == Pair(Counters(4, 0, 0, 1, 0), Reserved, 2, Start, 0, 0);
    schedule := Then(SMALL, EMPTY_PAIR, schedule, 0);
    schedule := Then(SMALL, EMPTY_PAIR, schedule, 0);
  }

  /** The first call takes all of physical memory, the second all of swap. */
  lemma FillBoth() returns (schedule: seq<nat>)
    ensures ValidSchedule(EMPTY_PAIR, schedule)
    ensures Run(SMALL, EMPTY_PAIR, schedule) == Pair(Counters(8, 4, 4, 2, 1), Held, 4, Held, 4, 1)
  {
    hide Run;
    schedule := FillMemory();
    schedule := Then(SMALL, EMPTY_PAIR, schedule, 1);
    schedule := Then(SMALL, EMPTY_PAIR, schedule, 1);
    assert Run(SMALL, EMPTY_PAIR, schedule) == Pair(Counters(8, 4, 0, 2, 1), Held, 4, Reserved, 2, 1);
    schedule := Then(SMALL, EMPTY_PAIR, schedule, 1);
    schedule := Then(SMALL, EMPTY_PAIR, schedule, 1);
  }

  /** Both frees load swapUsedMiB before either writes it. */
  lemma LoadBoth() returns (schedule: seq<nat>)
    ensures ValidSchedule(EMPTY_PAIR, schedule)
    ensures Run(SMALL, EMPTY_PAIR, schedule) == Pair(Counters(0, 4, 4, 2, 1), SwapSeen(4), 6, SwapSeen(4), 6, 1)
  {
    hide Run, Admit, Attribute;
    schedule := FillBoth();
    schedule := Then(SMALL, EMPTY_PAIR, schedule, 0);
    schedule := Then(SMALL, EMPTY_PAIR, schedule, 0);
    assert Run(SMALL, EMPTY_PAIR, schedule) == Pair(Counters(4, 4, 4, 2, 1), SwapSeen(4), 6, Held, 4, 1);
    schedule := Then(SMALL, EMPTY_PAIR, schedule, 1);
    schedule := Then(SMALL, EMPTY_PAIR, schedule, 1);
  }

  lemma PairStarts()
    ensures Initial(SMALL, EMPTY_PAIR)
  {
    assert TotalSize(EMPTY_PAIR.calls) == 4 + TotalSize(EMPTY_PAIR.calls[1..]);
  }

  /**
   Frees can do harm. With room for 4 MiB in memory and 4 MiB in swap, two calls of 4 MiB fill both;
   if both frees then load swapUsedMiB before either writes it, both subtract from it: it wraps below
   zero, and physical memory stays full although nothing is allocated.
   */
  lemma RacingFreesUnderflowSwap() returns (schedule: seq<nat>)
    ensures Initial(SMALL, EMPTY_PAIR) && ValidSchedule(EMPTY_PAIR, schedule)
    ensures var r := Run(SMALL, EMPTY_PAIR, schedule);
      && r.calls[0].pc == r.calls[1].pc == Freed
      && r.m.virt == 0 && r.m.phys == 4 && r.m.swap == POW64 - 4
  {
    hide Run, Admit, Attribute, Initial;
    PairStarts();
    schedule := LoadBoth();
    schedule := Then(SMALL, EMPTY_PAIR, schedule, 0);
    schedule := Then(SMALL, EMPTY_PAIR, schedule, 1);
  }
}
