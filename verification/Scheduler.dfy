/** The scheduler extender: which nodes can take a pod, how they score, and how scores become priorities. */
module Scheduler {
  import opened Division

  const MAX_PRIORITY_SCORE := 100

  datatype HostPriority = HostPriority(host: string, score: int)

  // ---------------------------------------------------------------- stable sorting, largest score first

  /** Puts `x` behind everything that scores at least as much. */
  function Insert(t: seq<HostPriority>, x: HostPriority): seq<HostPriority> {
    if t == [] then [x]
    else if t[|t| - 1].score < x.score then Insert(t[..|t| - 1], x) + [t[|t| - 1]]
    else t + [x]
  }

  function StableSort(s: seq<HostPriority>): seq<HostPriority> {
    if s == [] then [] else Insert(StableSort(s[..|s| - 1]), s[|s| - 1])
  }

  predicate Sorted(s: seq<HostPriority>) {
    forall i, j :: 0 <= i < j < |s| ==> s[i].score >= s[j].score
  }

  /** The entries that score `v`, in order. */
  function Scoring(s: seq<HostPriority>, v: int): seq<HostPriority> {
    if s == [] then [] else
    var front := Scoring(s[..|s| - 1], v);
    if s[|s| - 1].score == v then front + [s[|s| - 1]] else front
  }

  lemma {:induction false} InsertSorts(t: seq<HostPriority>, x: HostPriority)
    requires Sorted(t)
    ensures Sorted(Insert(t, x)) && |Insert(t, x)| == |t| + 1
    ensures forall y :: y in Insert(t, x) <==> y in t || y == x
  {
    if t != [] {
      var last := t[|t| - 1];
      assert t == t[..|t| - 1] + [last];
      if last.score < x.score {
        InsertSorts(t[..|t| - 1], x);
        var front := Insert(t[..|t| - 1], x);
        forall i | 0 <= i < |front| ensures front[i].score >= last.score { assert front[i] in front; }
      }
    }
  }

  lemma {:induction false} InsertIsStable(t: seq<HostPriority>, x: HostPriority, v: int)
    ensures Scoring(Insert(t, x), v) == if x.score == v then Scoring(t, v) + [x] else Scoring(t, v)
  {
    if t != [] && t[|t| - 1].score < x.score {
      InsertIsStable(t[..|t| - 1], x, v);
      assert Insert(t, x)[..|Insert(t, x)| - 1] == Insert(t[..|t| - 1], x);
    } else {
      assert (t + [x])[..|t|] == t;
      assert t == [] ==> t + [x] == [x];
    }
  }

  /** Sorting sorts, and keeps the order of entries that score alike. */
  lemma {:induction false} StableSortIsStable(s: seq<HostPriority>, v: int)
    ensures Sorted(StableSort(s)) && |StableSort(s)| == |s|
    ensures Scoring(StableSort(s), v) == Scoring(s, v)
  {
    if s != [] {
      StableSortIsStable(s[..|s| - 1], v);
      InsertSorts(StableSort(s[..|s| - 1]), s[|s| - 1]);
      InsertIsStable(StableSort(s[..|s| - 1]), s[|s| - 1], v);
    }
  }

  lemma {:induction false} ScoringLast(s: seq<HostPriority>, v: int)
    requires Sorted(s) && Scoring(s, v) != []
    ensures s != [] && s[|s| - 1].score <= v
    ensures forall x :: x in Scoring(s, v) ==> x.score == v
  {
    if s[|s| - 1].score != v {
      ScoringLast(s[..|s| - 1], v);
    } else if Scoring(s[..|s| - 1], v) != [] {
      ScoringLast(s[..|s| - 1], v);
    }
  }

  ghost predicate SameRuns(s: seq<HostPriority>, t: seq<HostPriority>) {
    forall v {:trigger Scoring(s, v)} {:trigger Scoring(t, v)} :: Scoring(s, v) == Scoring(t, v)
  }

  lemma RunsWithoutLast(s: seq<HostPriority>, t: seq<HostPriority>)
    requires s != [] && t != [] && s[|s| - 1] == t[|t| - 1] && SameRuns(s, t)
    ensures SameRuns(s[..|s| - 1], t[..|t| - 1])
  {
    var a, b, x := s[..|s| - 1], t[..|t| - 1], s[|s| - 1];
    forall v {:trigger Scoring(a, v)} {:trigger Scoring(b, v)} ensures Scoring(a, v) == Scoring(b, v) {
      assert Scoring(s, v) == Scoring(t, v);
      if v == x.score {
        assert Scoring(a, v) == (Scoring(a, v) + [x])[..|Scoring(a, v)|];
        assert Scoring(b, v) == (Scoring(b, v) + [x])[..|Scoring(b, v)|];
      }
    }
  }

  /** Being sorted and keeping the order of equals leaves only one possible result. */
  lemma {:induction false} StableOrderIsUnique(s: seq<HostPriority>, t: seq<HostPriority>)
    requires Sorted(s) && Sorted(t) && SameRuns(s, t)
    ensures s == t
    decreases |s|
  {
    if t != [] {
      assert Scoring(t, t[|t| - 1].score) == Scoring(s, t[|t| - 1].score) != [];
    }
    if s != [] {
      var x := s[|s| - 1];
      assert Scoring(s, x.score) == Scoring(t, x.score) != [];
      ScoringLast(t, x.score);
      var y := t[|t| - 1];
      assert Scoring(t, y.score) == Scoring(s, y.score) != [];
      ScoringLast(s, y.score);
      assert x == Scoring(s, x.score)[|Scoring(s, x.score)| - 1] == y;
      RunsWithoutLast(s, t);
      StableOrderIsUnique(s[..|s| - 1], t[..|t| - 1]);
      assert s == s[..|s| - 1] + [x] && t == t[..|t| - 1] + [y];
    }
  }

  /** So sorting is characterised: sorted, and the entries of each score in their original order. */
  lemma SortIsTheStableOrder(s: seq<HostPriority>, t: seq<HostPriority>)
    ensures t == StableSort(s) <==> Sorted(t) && SameRuns(s, t)
  {
    forall v {:trigger Scoring(s, v)} ensures Sorted(StableSort(s)) && Scoring(StableSort(s), v) == Scoring(s, v) {
      StableSortIsStable(s, v);
    }
    StableSortIsStable(s, 0);
    if Sorted(t) && SameRuns(s, t) {
      forall v {:trigger Scoring(t, v)} ensures Scoring(t, v) == Scoring(StableSort(s), v) {
        assert Scoring(s, v) == Scoring(t, v);
      }
      StableOrderIsUnique(t, StableSort(s));
    }
  }

  lemma {:induction false} InsertPermutes(t: seq<HostPriority>, x: HostPriority)
    ensures multiset(Insert(t, x)) == multiset(t) + multiset{x}
  {
    if t != [] {
      assert t == t[..|t| - 1] + [t[|t| - 1]];
      InsertPermutes(t[..|t| - 1], x);
    }
  }

  /** No host is lost, added or repeated. */
  lemma {:induction false} SortPermutes(s: seq<HostPriority>)
    ensures multiset(StableSort(s)) == multiset(s)
  {
    if s != [] {
      assert s == s[..|s| - 1] + [s[|s| - 1]];
      SortPermutes(s[..|s| - 1]);
      InsertPermutes(StableSort(s[..|s| - 1]), s[|s| - 1]);
    }
  }

  // ---------------------------------------------------------------- rescaling

  function Rescale(score: int, min: int, range: int): int {
    if range <= 0 then MAX_PRIORITY_SCORE / 2 else (score - min) * MAX_PRIORITY_SCORE / range
  }

  function RescaleAll(s: seq<HostPriority>, min: int, range: int): seq<HostPriority> {
    seq(|s|, i requires 0 <= i < |s| => s[i].(score := Rescale(s[i].score, min, range)))
  }

  /** The whole scale is used: the smallest score becomes 0, the largest 100. */
  lemma RescaleEnds(min: int, range: int)
    requires range > 0
    ensures Rescale(min, min, range) == 0 && Rescale(min + range, min, range) == MAX_PRIORITY_SCORE
  {
    assert (min + range - min) * MAX_PRIORITY_SCORE == MAX_PRIORITY_SCORE * range;
    DivMul(MAX_PRIORITY_SCORE, range);
  }

  lemma RescaleFlat(score: int, min: int)
    ensures Rescale(score, min, 0) == 50
  {
  }

  lemma RescaleIsMonotone(a: int, b: int, min: int, range: int)
    requires a <= b
    ensures Rescale(a, min, range) <= Rescale(b, min, range)
  {
    if range > 0 {
      MulLe((a - min) * MAX_PRIORITY_SCORE, (b - min) * MAX_PRIORITY_SCORE, range);
      DivLe((a - min) * MAX_PRIORITY_SCORE, range, (b - min) * MAX_PRIORITY_SCORE, range);
    }
  }

  /** Integer division loses no difference between scores exactly when the range is at most 100. */
  lemma RescaleIsStrictIffRangeFits(min: int, range: int)
    requires range > 0
    ensures (forall a, b :: min <= a < b <= min + range ==> Rescale(a, min, range) < Rescale(b, min, range))
      <==> range <= MAX_PRIORITY_SCORE
  {
    if range <= MAX_PRIORITY_SCORE {
      forall a, b | min <= a < b <= min + range ensures Rescale(a, min, range) < Rescale(b, min, range) {
        RescaleIsStrict(a, b, min, range);
      }
    } else {
      assert Rescale(min, min, range) == 0;
      Below(MAX_PRIORITY_SCORE, 1, range);
      AtLeast(MAX_PRIORITY_SCORE, 0, range);
      assert Rescale(min + 1, min, range) == 0;
      assert min <= min < min + 1 <= min + range;
    }
  }

  lemma RescaleIsStrict(a: int, b: int, min: int, range: int)
    requires a < b && 0 < range <= MAX_PRIORITY_SCORE
    ensures Rescale(a, min, range) < Rescale(b, min, range)
  {
    var p, q := (a - min) * MAX_PRIORITY_SCORE, (b - min) * MAX_PRIORITY_SCORE;
    assert p + range <= q;
    StepUp(p, range);
    MulLe(p + range, q, range);
    DivLe(p + range, range, q, range);
  }

  // ---------------------------------------------------------------- normalizePriorities

  function MinScore(s: seq<HostPriority>): (m: int)
    requires s != []
    ensures exists i :: 0 <= i < |s| && s[i].score == m
    ensures forall i :: 0 <= i < |s| ==> m <= s[i].score
  {
    var n := |s| - 1;
    if n == 0 then s[0].score else
    var m := MinScore(s[..n]);
    assert forall i :: 0 <= i < n ==> s[..n][i] == s[i];
    if s[n].score < m then s[n].score else m
  }

  function MaxScore(s: seq<HostPriority>): (m: int)
    requires s != []
    ensures exists i :: 0 <= i < |s| && s[i].score == m
    ensures forall i :: 0 <= i < |s| ==> s[i].score <= m
  {
    var n := |s| - 1;
    if n == 0 then s[0].score else
    var m := MaxScore(s[..n]);
    assert forall i :: 0 <= i < n ==> s[..n][i] == s[i];
    if s[n].score > m then s[n].score else m
  }

  function Range(s: seq<HostPriority>): (r: int)
    requires s != []
    ensures r >= 0
  {
    MaxScore(s) - MinScore(s)
  }

  /** Rescaling, and then a stable sort unless all scores are the same. */
  function Normalized(s: seq<HostPriority>): seq<HostPriority> {
    if s == [] then [] else
    var scaled := RescaleAll(s, MinScore(s), Range(s));
    if Range(s) == 0 then scaled else StableSort(scaled)
  }

  /** One round of the sort: the entry at `i` moves forward past the entries that score less. */
  method MoveForward(a: array<HostPriority>, i: nat)
    requires i < a.Length && Sorted(a[..i])
    modifies a
    ensures a[..i + 1] == Insert(old(a[..i]), old(a[i])) && a[i + 1..] == old(a[i + 1..])
  {
    hide Insert, Sorted;
    ghost var s, sorted, x := a[..], a[..i], a[i];
    SortedBefore(sorted);
    var j := i;
    while j > 0 && a[j - 1].score < a[j].score
      invariant 0 <= j <= i
      invariant a[j] == x
      invariant forall k :: 0 <= k < j || i < k < a.Length ==> a[k] == s[k]
      invariant forall k :: j < k <= i ==> a[k] == s[k - 1]
      invariant j < i ==> s[j].score < x.score
    {
      a[j - 1], a[j] := a[j], a[j - 1];
      j := j - 1;
    }
    assert a[..i + 1] == sorted[..j] + [x] + sorted[j..];
    InsertAt(sorted, x, j);
    assert a[i + 1..] == s[i + 1..];
  }

  lemma SortedBefore(s: seq<HostPriority>)
    requires Sorted(s)
    ensures forall j, k :: 0 <= j <= k < |s| ==> s[j].score >= s[k].score
  {
  }

  /** Go's stable sort, on its insertion form. */
  method SliceStable(a: array<HostPriority>)
    modifies a
    ensures a[..] == StableSort(old(a[..]))
  {
    hide Insert;
    ghost var s := a[..];
    for i := 0 to a.Length
      invariant a[..i] == StableSort(s[..i]) && Sorted(a[..i]) && a[i..] == s[i..]
    {
      assert a[i] == a[i..][0] == s[i];
      assert a[i + 1..] == a[i..][1..] == s[i + 1..];
      InsertSorts(a[..i], a[i]);
      MoveForward(a, i);
      assert s[..i + 1][..i] == s[..i] && s[..i + 1][i] == s[i];
    }
    assert a[..] == a[..a.Length] && s[..a.Length] == s;
  }

  lemma {:induction false} InsertAt(t: seq<HostPriority>, x: HostPriority, j: nat)
    requires j <= |t| && (j > 0 ==> t[j - 1].score >= x.score)
    requires forall k :: j <= k < |t| ==> t[k].score < x.score
    ensures Insert(t, x) == t[..j] + [x] + t[j..]
  {
    if j < |t| {
      var front := t[..|t| - 1];
      InsertAt(front, x, j);
      assert t[..j] + [x] + t[j..] == (front[..j] + [x] + front[j..]) + [t[|t| - 1]];
    }
  }

  method NormalizePriorities(priorities: array<HostPriority>)
    modifies priorities
    ensures priorities[..] == Normalized(old(priorities[..]))
  {
    hide Rescale, RescaleAll, StableSort, MinScore, MaxScore;
    if priorities.Length == 0 {
      return;
    }
    var maxScore, minScore := FindRange(priorities);
    var scoreRange := maxScore - minScore;
    if scoreRange == 0 {
      RescaleInPlace(priorities, minScore, scoreRange);
      return;
    }
    RescaleInPlace(priorities, minScore, scoreRange);
    SliceStable(priorities);
  }

  /** The loop over the entries; when all scores are the same they become the middle of the scale. */
  method RescaleInPlace(priorities: array<HostPriority>, minScore: int, scoreRange: int)
    modifies priorities
    ensures priorities[..] == RescaleAll(old(priorities[..]), minScore, scoreRange)
  {
    hide Rescale;
    ghost var s := priorities[..];
    for i := 0 to priorities.Length
      invariant forall k :: 0 <= k < i ==> priorities[k] == s[k].(score := Rescale(s[k].score, minScore, scoreRange))
      invariant forall k :: i <= k < priorities.Length ==> priorities[k] == s[k]
    {
      priorities[i] := priorities[i].(score := Rescale(priorities[i].score, minScore, scoreRange));
    }
  }

  method FindRange(priorities: array<HostPriority>) returns (maxScore: int, minScore: int)
    requires priorities.Length > 0
    ensures maxScore == MaxScore(priorities[..]) && minScore == MinScore(priorities[..])
  {
    maxScore, minScore := priorities[0].score, priorities[0].score;
    for i := 1 to priorities.Length
      invariant maxScore == MaxScore(priorities[..i]) && minScore == MinScore(priorities[..i])
    {
      assert priorities[..i + 1][..i] == priorities[..i];
      if priorities[i].score > maxScore {
        maxScore := priorities[i].score;
      }
      if priorities[i].score < minScore {
        minScore := priorities[i].score;
      }
    }
    assert priorities[..priorities.Length] == priorities[..];
  }

  // ---------------------------------------------------------------- what normalisation preserves

  /** Rescaling commutes with inserting, as long as it is strict on the scores involved. */
  lemma {:induction false} InsertRescaled(t: seq<HostPriority>, x: HostPriority, min: int, range: int)
    requires 0 < range <= MAX_PRIORITY_SCORE
    ensures RescaleAll(Insert(t, x), min, range)
      == Insert(RescaleAll(t, min, range), x.(score := Rescale(x.score, min, range)))
  {
    hide Rescale;
    var rt, rx := RescaleAll(t, min, range), x.(score := Rescale(x.score, min, range));
    if t == [] {
    } else {
      var last := t[|t| - 1];
      assert rt[..|t| - 1] == RescaleAll(t[..|t| - 1], min, range);
      if last.score < x.score {
        RescaleIsStrict(last.score, x.score, min, range);
        InsertRescaled(t[..|t| - 1], x, min, range);
      } else {
        RescaleIsMonotone(x.score, last.score, min, range);
      }
    }
  }

  lemma {:induction false} SortRescaled(s: seq<HostPriority>, min: int, range: int)
    requires 0 < range <= MAX_PRIORITY_SCORE
    ensures StableSort(RescaleAll(s, min, range)) == RescaleAll(StableSort(s), min, range)
  {
    hide Rescale;
    if s != [] {
      var n := |s| - 1;
      assert RescaleAll(s, min, range)[..n] == RescaleAll(s[..n], min, range);
      SortRescaled(s[..n], min, range);
      InsertRescaled(StableSort(s[..n]), s[n], min, range);
    }
  }

  lemma {:induction false} SortedStays(s: seq<HostPriority>)
    requires Sorted(s)
    ensures StableSort(s) == s
  {
    if s != [] {
      SortedStays(s[..|s| - 1]);
      assert s == s[..|s| - 1] + [s[|s| - 1]];
    }
  }

  predicate Clamped(s: seq<HostPriority>) {
    forall i :: 0 <= i < |s| ==> 0 <= s[i].score <= MAX_PRIORITY_SCORE
  }

  /**
   Normalising clamped scores is the stable ranking by raw score, relabelled: hosts keep their order by raw score,
   ties in their original order, and only the numbers change.
   */
  lemma NormalizedRanksByRawScore(s: seq<HostPriority>)
    requires s != [] && Clamped(s)
    ensures Normalized(s) == RescaleAll(StableSort(s), MinScore(s), Range(s))
  {
    if Range(s) == 0 {
      assert Sorted(s);
      SortedStays(s);
    } else {
      SortRescaled(s, MinScore(s), Range(s));
    }
  }

  lemma ScoresWithin(s: seq<HostPriority>)
    requires s != [] && Clamped(s)
    ensures Range(s) <= MAX_PRIORITY_SCORE
    ensures forall i :: 0 <= i < |s| ==> MinScore(s) <= s[i].score <= MaxScore(s)
  {
  }

  /** The new scores: within 0..100, in the same strict order as before, and using the whole scale. */
  lemma NormalizedScores(s: seq<HostPriority>)
    requires s != [] && Clamped(s)
    ensures var min, range := MinScore(s), Range(s);
      && (forall i :: 0 <= i < |s| ==> 0 <= Rescale(s[i].score, min, range) <= MAX_PRIORITY_SCORE)
      && (forall i, j :: 0 <= i < |s| && 0 <= j < |s| ==>
            (s[i].score < s[j].score <==> Rescale(s[i].score, min, range) < Rescale(s[j].score, min, range)))
      && (range > 0 ==> Rescale(min, min, range) == 0 && Rescale(MaxScore(s), min, range) == MAX_PRIORITY_SCORE)
      && (range == 0 ==> forall i :: 0 <= i < |s| ==> Rescale(s[i].score, min, range) == 50)
  {
    hide Rescale, MinScore, MaxScore;
    var min, range := MinScore(s), Range(s);
    ScoresWithin(s);
    if range == 0 {
      RescaleFlat(min, min);
    } else {
      RescaleEnds(min, range);
    }
    forall i | 0 <= i < |s| ensures 0 <= Rescale(s[i].score, min, range) <= MAX_PRIORITY_SCORE {
      RescaleIsMonotone(min, s[i].score, min, range);
      RescaleIsMonotone(s[i].score, MaxScore(s), min, range);
    }
    forall i, j | 0 <= i < |s| && 0 <= j < |s|
      ensures s[i].score < s[j].score <==> Rescale(s[i].score, min, range) < Rescale(s[j].score, min, range)
    {
      if s[i].score < s[j].score {
        RescaleIsStrict(s[i].score, s[j].score, min, range);
      } else {
        RescaleIsMonotone(s[j].score, s[i].score, min, range);
      }
    }
  }

  // ---------------------------------------------------------------- nodes

  datatype ConditionStatus = ConditionTrue | ConditionFalse | ConditionUnknown

  datatype NodeCondition = NodeCondition(kind: string, status: ConditionStatus)

  datatype Node = Node(
    name: string, allocatable: map<string, int>, conditions: seq<NodeCondition>, labels: set<string>)

  /** The policy flag, lower-cased; anything unknown counts as binpack. */
  datatype Policy = Binpack | Spread | Unknown

  const VGPU: string := "nvidia.com/vgpu"
  const VGPU_MEMORY: string := "nvidia.com/vgpu-memory"
  const NUMA_ALIGNED: string := "phoenixgpu.io/numa-aligned"
  const READY: string := "Ready"

  function GetNodeResource(node: Node, name: string): int {
    if name in node.allocatable then node.allocatable[name] else 0
  }

  /** A node can take the request when it has enough of both resources and no Ready condition says otherwise. */
  predicate Accepts(node: Node, vgpu: int, mem: int) {
    && (vgpu > 0 ==> vgpu <= GetNodeResource(node, VGPU))
    && (mem > 0 ==> mem <= GetNodeResource(node, VGPU_MEMORY))
    && forall i :: 0 <= i < |node.conditions| && node.conditions[i].kind == READY ==>
         node.conditions[i].status == ConditionTrue
  }

  /** The node says it has at least so much of a resource; what it does not mention it does not have. */
  predicate Offers(node: Node, resource: string, amount: int) {
    amount <= 0 || (resource in node.allocatable && node.allocatable[resource] >= amount)
  }

  /** What acceptance means, resource by resource. */
  lemma AcceptsIff(node: Node, vgpu: int, mem: int)
    ensures Accepts(node, vgpu, mem) <==>
      && Offers(node, "nvidia.com/vgpu", vgpu) && Offers(node, "nvidia.com/vgpu-memory", mem)
      && !exists i :: 0 <= i < |node.conditions|
                      && node.conditions[i].kind == "Ready" && node.conditions[i].status != ConditionTrue
  {}

  method CanSchedule(node: Node, requestedVgpu: int, requestedMem: int) returns (ok: bool)
    ensures ok <==> Accepts(node, requestedVgpu, requestedMem)
  {
    if requestedVgpu > 0 {
      var allocatable := GetNodeResource(node, VGPU);
      if allocatable < requestedVgpu {
        return false;
      }
    }
    if requestedMem > 0 {
      var allocatable := GetNodeResource(node, VGPU_MEMORY);
      if allocatable < requestedMem {
        return false;
      }
    }
    for i := 0 to |node.conditions|
      invariant forall k ::
        0 <= k < i && node.conditions[k].kind == READY ==> node.conditions[k].status == ConditionTrue
    {
      if node.conditions[i].kind == READY && node.conditions[i].status != ConditionTrue {
        return false;
      }
    }
    return true;
  }

  function Clamp(score: int): (r: int)
    ensures if score < 0 then r == 0 else if score > 100 then r == 100 else r == score
  {
    if score < 0 then 0 else if score > MAX_PRIORITY_SCORE then MAX_PRIORITY_SCORE else score
  }

  /** The policy's part of the score, in exact arithmetic; `r` is what the pod requests, `a` what the node has. */
  function BaseScore(policy: Policy, r: nat, a: int): int
    requires a != 0
  {
    match policy
    case Binpack => if a > 0 then Trunc(MAX_PRIORITY_SCORE * r, a) else 0
    case Spread => if a > 0 then Trunc(MAX_PRIORITY_SCORE * a, a + r) else 0
    case Unknown => Trunc(MAX_PRIORITY_SCORE * r, a)
  }

  function ScoreNode(node: Node, r: nat, policy: Policy, numaAware: bool): (score: int)
    ensures 0 <= score <= MAX_PRIORITY_SCORE
  {
    var a := GetNodeResource(node, VGPU);
    if a == 0 then 0 else
    Clamp(BaseScore(policy, r, a) + if numaAware && NUMA_ALIGNED in node.labels then 10 else 0)
  }

  /** `score` is the share `part` of `whole` in percent, rounded down. */
  predicate IsPercentage(score: int, part: int, whole: int) {
    score * whole <= MAX_PRIORITY_SCORE * part < (score + 1) * whole
  }

  lemma FloorIsPercentage(part: nat, whole: int)
    requires 0 <= part <= whole && whole > 0
    ensures var score := MAX_PRIORITY_SCORE * part / whole;
      IsPercentage(score, part, whole) && 0 <= score <= MAX_PRIORITY_SCORE
  {
    var x := MAX_PRIORITY_SCORE * part;
    Floor(x, whole);
    AtLeast(x, 0, whole);
    if part < whole { MulLe(part + 1, whole, MAX_PRIORITY_SCORE); }
    assert x <= MAX_PRIORITY_SCORE * whole < (MAX_PRIORITY_SCORE + 1) * whole;
    Below(x, MAX_PRIORITY_SCORE + 1, whole);
  }

  /**
   What the score of an accepted node means: binpack scores the share of its free slices that the pod takes,
   spread the share that the free slices have in free and requested together, an unknown policy scores as
   binpack, and NUMA alignment adds ten up to the maximum.
   */
  lemma ScoreOfAcceptedNode(node: Node, r: nat, mem: int, policy: Policy)
    requires r > 0 && Accepts(node, r, mem)
    ensures var a, score := GetNodeResource(node, VGPU), ScoreNode(node, r, policy, false);
      && (if policy == Spread then IsPercentage(score, a, a + r) else IsPercentage(score, r, a))
      && ScoreNode(node, r, policy, true)
         == if NUMA_ALIGNED !in node.labels then score
            else if score + 10 <= MAX_PRIORITY_SCORE then score + 10 else MAX_PRIORITY_SCORE
  {
    hide Accepts, IsPercentage;
    var a := EnoughSlices(node, r, mem);
    FloorIsPercentage(r, a);
    FloorIsPercentage(a, a + r);
  }

  /** A node without slices scores 0; one with too few for the pod scores as if they were all taken. */
  lemma ScoreOfOtherNode(node: Node, r: nat, policy: Policy, numaAware: bool)
    ensures "nvidia.com/vgpu" !in node.allocatable ==> ScoreNode(node, r, policy, numaAware) == 0
    ensures "nvidia.com/vgpu" in node.allocatable ==>
              var a, score := node.allocatable["nvidia.com/vgpu"], ScoreNode(node, r, policy, false);
              && (a == 0 ==> ScoreNode(node, r, policy, numaAware) == 0)
              && (0 < a < r && policy != Spread ==> score == 100)
              && (0 < a && policy == Spread ==> IsPercentage(score, a, a + r))
  {
    hide IsPercentage;
    var a := GetNodeResource(node, VGPU);
    if 0 < a {
      FloorIsPercentage(a, a + r);
      if a < r {
        MulLe(a, r, MAX_PRIORITY_SCORE);
        AtLeast(MAX_PRIORITY_SCORE * r, MAX_PRIORITY_SCORE, a);
      }
    }
  }

  lemma EnoughSlices(node: Node, r: nat, mem: int) returns (a: int)
    requires r > 0 && Accepts(node, r, mem)
    ensures a == GetNodeResource(node, VGPU) >= r
  {
    a := GetNodeResource(node, VGPU);
  }

  function RawScores(nodes: seq<Node>, r: nat, policy: Policy, numaAware: bool): (s: seq<HostPriority>)
    ensures Clamped(s)
    ensures |s| == |nodes|
    ensures forall i :: 0 <= i < |s| ==>
              s[i].host == nodes[i].name && s[i].score == ScoreNode(nodes[i], r, policy, numaAware)
  {
    seq(|nodes|, i requires 0 <= i < |nodes| => HostPriority(nodes[i].name, ScoreNode(nodes[i], r, policy, numaAware)))
  }

  /** The prioritize handler's loop and normalisation. */
  method Prioritize(nodes: seq<Node>, r: nat, policy: Policy, numaAware: bool) returns (result: seq<HostPriority>)
    ensures result == Normalized(RawScores(nodes, r, policy, numaAware))
  {
    var priorities := new HostPriority[|nodes|](_ => HostPriority("", 0));
    for i := 0 to |nodes|
      invariant priorities[..i] == RawScores(nodes, r, policy, numaAware)[..i]
    {
      priorities[i] := HostPriority(nodes[i].name, ScoreNode(nodes[i], r, policy, numaAware));
    }
    assert priorities[..] == RawScores(nodes, r, policy, numaAware);
    NormalizePriorities(priorities);
    result := priorities[..];
  }

  // ---------------------------------------------------------------- binpack against spread

  /** More free slices never raise the binpack score and never lower the spread score. */
  lemma PoliciesAreOpposite(r: nat, a: int, b: int)
    requires 0 < a <= b
    ensures BaseScore(Binpack, r, a) >= BaseScore(Binpack, r, b)
    ensures BaseScore(Spread, r, a) <= BaseScore(Spread, r, b)
  {
    var m := MAX_PRIORITY_SCORE;
    if r > 0 { Commute(m * r, a, b); }
    DivLe(m * r, b, m * r, a);
    CrossMultiply(m, r, a, b);
    DivLe(m * a, a + r, m * b, b + r);
  }

  lemma Commute(x: int, a: int, b: int)
    requires a <= b && x > 0
    ensures x * a <= x * b
  {
    MulLe(a, b, x);
    assert x * a == a * x && x * b == b * x;
  }

  lemma CrossMultiply(m: int, r: nat, a: int, b: int)
    requires 0 < a <= b && m > 0
    ensures m * a * (b + r) <= m * b * (a + r)
  {
    calc {
      m * b * (a + r) - m * a * (b + r);
      m * (b * (a + r) - a * (b + r));
      m * (r * (b - a));
    }
    assert r * (b - a) >= 0;
    assert m * (r * (b - a)) >= 0;
  }

  /** The score a node ends up with. */
  function FinalScore(nodes: seq<Node>, i: nat, r: nat, policy: Policy): int
    requires i < |nodes|
  {
    var raw := RawScores(nodes, r, policy, false);
    Rescale(raw[i].score, MinScore(raw), Range(raw))
  }

  /** Among accepted nodes and without the NUMA bonus, what binpack ranks strictly higher spread ranks no higher. */
  lemma FinalRanksAreOpposite(nodes: seq<Node>, i: nat, j: nat, r: nat, mem: int)
    requires i < |nodes| && j < |nodes| && r > 0
    requires Accepts(nodes[i], r, mem) && Accepts(nodes[j], r, mem)
    ensures FinalScore(nodes, i, r, Binpack) > FinalScore(nodes, j, r, Binpack)
        ==> FinalScore(nodes, i, r, Spread) <= FinalScore(nodes, j, r, Spread)
  {
    hide Rescale, BaseScore;
    var bin, spread := RawScores(nodes, r, Binpack, false), RawScores(nodes, r, Spread, false);
    var a, b := GetNodeResource(nodes[i], VGPU), GetNodeResource(nodes[j], VGPU);
    if a >= b {
      PoliciesAreOpposite(r, b, a);
      RescaleIsMonotone(bin[i].score, bin[j].score, MinScore(bin), Range(bin));
    } else {
      PoliciesAreOpposite(r, a, b);
      RescaleIsMonotone(spread[i].score, spread[j].score, MinScore(spread), Range(spread));
    }
  }
}
