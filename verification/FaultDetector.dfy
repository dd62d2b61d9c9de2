/** The detector that turns polls of node readiness into fault events. Times are nanoseconds. */
module FaultDetector {

  datatype ConditionStatus = ConditionTrue | ConditionFalse | ConditionUnknown

  datatype NodeCondition = NodeCondition(kind: string, status: ConditionStatus)

  /** A listed node, and the time at which checkNode reads the clock for it. */
  datatype Node = Node(name: string, conditions: seq<NodeCondition>, at: int)

  datatype FaultEvent = FaultEvent(nodeName: string, detectedAt: int)

  /** What List gives a poll. */
  datatype Listing = Failed | Listed(nodes: seq<Node>)

  const READY: string := "Ready"

  // ---------------------------------------------------------------- one node on its own

  /** What a poll shows of one node. */
  datatype Observation = Ready | NotReady(at: int) | Absent

  datatype Track = Untracked | Since(first: int, emitted: bool)

  /** One observation: the new track, and whether a fault is raised. */
  function Observe(threshold: int, track: Track, o: Observation): (Track, bool) {
    match o
    case Ready => (Untracked, false)
    case Absent => (Untracked, false)
    case NotReady(at) =>
      if track.Untracked? then (Since(at, false), false)
      else if at - track.first < threshold || track.emitted then (track, false)
      else (track.(emitted := true), true)
  }

  /** A series of observations: the final track, and the times of the faults raised. */
  function Follow(threshold: int, track: Track, obs: seq<Observation>): (Track, seq<int>) {
    if obs == [] then (track, []) else
    var o := obs[|obs| - 1];
    var before := Follow(threshold, track, obs[..|obs| - 1]);
    var after := Observe(threshold, before.0, o);
    (after.0, if after.1 then before.1 + [o.at] else before.1)
  }

  lemma {:induction false} FollowConcat(threshold: int, track: Track, a: seq<Observation>, b: seq<Observation>)
    ensures var first := Follow(threshold, track, a); var rest := Follow(threshold, first.0, b);
      Follow(threshold, track, a + b) == (rest.0, first.1 + rest.1)
  {
    if b == [] {
      assert a + b == a && Follow(threshold, track, a).1 + [] == Follow(threshold, track, a).1;
    } else {
      var n := |b| - 1;
      assert (a + b)[..|a + b| - 1] == a + b[..n];
      FollowConcat(threshold, track, a, b[..n]);
      var first := Follow(threshold, track, a);
      var more := Follow(threshold, first.0, b[..n]);
      if Observe(threshold, more.0, b[n]).1 {
        assert (first.1 + more.1) + [b[n].at] == first.1 + (more.1 + [b[n].at]);
      }
    }
  }

  lemma FollowOne(threshold: int, track: Track, obs: seq<Observation>, o: Observation)
    ensures var before := Follow(threshold, track, obs); var after := Observe(threshold, before.0, o);
      Follow(threshold, track, obs + [o]) == (after.0, if after.1 then before.1 + [o.at] else before.1)
  {
    assert (obs + [o])[..|obs|] == obs;
  }

  // ---------------------------------------------------------------- the detector

  predicate FirstReadyIsTrue(cs: seq<NodeCondition>) {
    exists i :: 0 <= i < |cs| && cs[i].kind == READY && cs[i].status == ConditionTrue
      && forall j :: 0 <= j < i ==> cs[j].kind != READY
  }

  method IsNodeReady(node: Node) returns (ready: bool)
    ensures ready <==> FirstReadyIsTrue(node.conditions)
  {
    var cs := node.conditions;
    for i := 0 to |cs|
      invariant forall j :: 0 <= j < i ==> cs[j].kind != READY
    {
      if cs[i].kind == READY {
        return cs[i].status == ConditionTrue;
      }
    }
    return false;
  }

  /** No Ready condition at all, or a first one that is False or Unknown, means not ready. */
  lemma NotReadyIff(cs: seq<NodeCondition>)
    ensures !FirstReadyIsTrue(cs) <==>
      || (forall i :: 0 <= i < |cs| ==> cs[i].kind != "Ready")
      || (exists i :: 0 <= i < |cs| && cs[i].kind == "Ready" && cs[i].status in {ConditionFalse, ConditionUnknown}
                      && forall j :: 0 <= j < i ==> cs[j].kind != "Ready")
  {
    if i :| 0 <= i < |cs| && cs[i].kind == "Ready" {
      var k := FirstReady(cs, i);
      assert cs[k].status == ConditionTrue || cs[k].status in {ConditionFalse, ConditionUnknown};
    }
  }

  lemma {:induction false} FirstReady(cs: seq<NodeCondition>, i: nat) returns (k: nat)
    requires i < |cs| && cs[i].kind == "Ready"
    ensures k <= i && cs[k].kind == "Ready" && forall j :: 0 <= j < k ==> cs[j].kind != "Ready"
  {
    if j :| 0 <= j < i && cs[j].kind == "Ready" { k := FirstReady(cs, j); } else { k := i; }
  }

  function Seen(node: Node): Observation {
    if FirstReadyIsTrue(node.conditions) then Ready else NotReady(node.at)
  }

  /** The observations of `name` among the listed nodes, in list order. */
  function Sightings(nodes: seq<Node>, name: string): seq<Observation> {
    if nodes == [] then [] else
    var n := |nodes| - 1;
    var before := Sightings(nodes[..n], name);
    if nodes[n].name == name then before + [Seen(nodes[n])] else before
  }

  /** What a poll shows of `name`: nothing when List failed, Absent when the node is not listed. */
  function Shown(l: Listing, name: string): seq<Observation> {
    match l
    case Failed => []
    case Listed(nodes) => if Sightings(nodes, name) == [] then [Absent] else Sightings(nodes, name)
  }

  function ShownByAll(polls: seq<Listing>, name: string): seq<Observation> {
    if polls == [] then [] else ShownByAll(polls[..|polls| - 1], name) + Shown(polls[|polls| - 1], name)
  }

  function TimesOf(events: seq<FaultEvent>, name: string): seq<int> {
    if events == [] then [] else
    var n := |events| - 1;
    var before := TimesOf(events[..n], name);
    if events[n].nodeName == name then before + [events[n].detectedAt] else before
  }

  lemma {:induction false} TimesOfConcat(a: seq<FaultEvent>, b: seq<FaultEvent>, name: string)
    ensures TimesOf(a + b, name) == TimesOf(a, name) + TimesOf(b, name)
  {
    if b == [] {
      assert a + b == a;
    } else {
      assert (a + b)[..|a + b| - 1] == a + b[..|b| - 1];
      TimesOfConcat(a, b[..|b| - 1], name);
    }
  }

  lemma SightOneMore(nodes: seq<Node>, i: nat, name: string)
    requires i < |nodes|
    ensures Sightings(nodes[..i + 1], name)
      == if nodes[i].name == name then Sightings(nodes[..i], name) + [Seen(nodes[i])] else Sightings(nodes[..i], name)
  {
    assert nodes[..i + 1][..i] == nodes[..i];
  }

  lemma {:induction false} SightedIffListed(nodes: seq<Node>, name: string)
    ensures Sightings(nodes, name) != [] <==> exists i :: 0 <= i < |nodes| && nodes[i].name == name
  {
    if nodes != [] {
      SightedIffListed(nodes[..|nodes| - 1], name);
    }
  }

  class FaultDetector {
    var notReadySince: map<string, int>
    var faultEmitted: map<string, bool>
    const threshold: int

    constructor (notReadyThreshold: int)
      ensures Valid() && threshold == notReadyThreshold
      ensures forall name :: TrackOf(name) == Untracked
    {
      threshold := notReadyThreshold;
      notReadySince, faultEmitted := map[], map[];
    }

    /** Emitted faults stay within the tracked nodes, which is why clean-up may look at tracked nodes only. */
    ghost predicate Valid()
      reads this
    {
      faultEmitted.Keys <= notReadySince.Keys
    }

    ghost function TrackOf(name: string): Track
      reads this
    {
      if name in notReadySince
      then Since(notReadySince[name], name in faultEmitted && faultEmitted[name])
      else Untracked
    }

    /** From `before`, the observations of `name` lead to its track now, raising exactly its faults in `events`. */
    ghost predicate Follows(name: string, before: Track, obs: seq<Observation>, events: seq<FaultEvent>)
      reads this
    {
      Follow(threshold, before, obs) == (TrackOf(name), TimesOf(events, name))
    }

    method CheckNode(node: Node) returns (events: seq<FaultEvent>)
      requires Valid()
      modifies this
      ensures Valid()
      ensures var r := Observe(threshold, old(TrackOf(node.name)), Seen(node));
        && TrackOf(node.name) == r.0
        && events == if r.1 then [FaultEvent(node.name, node.at)] else []
      ensures forall name :: name != node.name ==> TrackOf(name) == old(TrackOf(name))
    {
      var ready := IsNodeReady(node);
      if ready {
        notReadySince := notReadySince - {node.name};
        faultEmitted := faultEmitted - {node.name};
        return [];
      }
      if node.name !in notReadySince {
        notReadySince := notReadySince[node.name := node.at];
        return [];
      }
      var elapsed := node.at - notReadySince[node.name];
      if elapsed < threshold {
        return [];
      }
      if node.name in faultEmitted && faultEmitted[node.name] {
        return [];
      }
      faultEmitted := faultEmitted[node.name := true];
      return [FaultEvent(node.name, node.at)];
    }

    /** The loop over the listed nodes. */
    method CheckNodes(nodes: seq<Node>) returns (active: set<string>, events: seq<FaultEvent>)
      requires Valid()
      modifies this
      ensures Valid()
      ensures active == set node | node in nodes :: node.name
      ensures forall name :: Follows(name, old(TrackOf(name)), Sightings(nodes, name), events)
    {
      active, events := {}, [];
      for i := 0 to |nodes|
        invariant Valid()
        invariant active == set node | node in nodes[..i] :: node.name
        invariant forall name :: Follows(name, old(TrackOf(name)), Sightings(nodes[..i], name), events)
      {
        active := active + {nodes[i].name};
        ghost var was := events;
        var raised := CheckNode(nodes[i]);
        events := events + raised;
        forall name ensures Follows(name, old(TrackOf(name)), Sightings(nodes[..i + 1], name), events) {
          SightOneMore(nodes, i, name);
          TimesOfConcat(was, raised, name);
          assert TimesOf(was, name) + [] == TimesOf(was, name);
          if name == nodes[i].name {
            var sighted := Sightings(nodes[..i], name);
            FollowOne(threshold, old(TrackOf(name)), sighted, Seen(nodes[i]));
          }
        }
      }
      assert nodes[..|nodes|] == nodes;
    }

    /** Forget the tracked nodes that are no longer listed. */
    method CleanUp(active: set<string>)
      requires Valid()
      modifies this
      ensures Valid()
      ensures forall name :: TrackOf(name) == if name in active then old(TrackOf(name)) else Untracked
    {
      var names := notReadySince.Keys;
      while names != {}
        invariant Valid() && names <= notReadySince.Keys
        invariant forall name :: name in names ==> TrackOf(name) == old(TrackOf(name))
        invariant forall name :: name !in names ==>
          TrackOf(name) == if name in active then old(TrackOf(name)) else Untracked
        decreases names
      {
        var name :| name in names;
        if name !in active {
          notReadySince := notReadySince - {name};
          faultEmitted := faultEmitted - {name};
        }
        names := names - {name};
      }
    }

    /** One poll: what happens to a node is decided by what the poll shows of that node, and by nothing else. */
    method Poll(l: Listing) returns (events: seq<FaultEvent>)
      requires Valid()
      modifies this
      ensures Valid()
      ensures l.Failed? ==> notReadySince == old(notReadySince) && faultEmitted == old(faultEmitted)
      ensures l.Listed? ==>
                forall name :: name in notReadySince ==> exists i :: 0 <= i < |l.nodes| && l.nodes[i].name == name
      ensures forall name :: Follows(name, old(TrackOf(name)), Shown(l, name), events)
    {
      if l.Failed? {
        return [];
      }
      var nodes := l.nodes;
      var active;
      active, events := CheckNodes(nodes);
      label Checked:
      CleanUp(active);
      forall name | name in notReadySince ensures exists i :: 0 <= i < |nodes| && nodes[i].name == name {
        assert TrackOf(name).Since?;
        var node :| node in nodes && node.name == name;
      }
      forall name ensures Follows(name, old(TrackOf(name)), Shown(l, name), events) {
        SightedIffListed(nodes, name);
        var sighted := Sightings(nodes, name);
        assert Follow(threshold, old(TrackOf(name)), sighted) == (old@Checked(TrackOf(name)), TimesOf(events, name));
        assert name in active <==> sighted != [];
        if sighted == [] {
          FollowOne(threshold, old(TrackOf(name)), [], Absent);
          assert [] + [Absent] == [Absent];
        }
      }
    }

    /** The ticker loop, over any series of polls. */
    method Run(polls: seq<Listing>) returns (events: seq<FaultEvent>)
      requires Valid()
      modifies this
      ensures Valid()
      ensures forall name :: Follows(name, old(TrackOf(name)), ShownByAll(polls, name), events)
    {
      events := [];
      for i := 0 to |polls|
        invariant Valid()
        invariant forall name :: Follows(name, old(TrackOf(name)), ShownByAll(polls[..i], name), events)
      {
        ghost var was := events;
        var raised := Poll(polls[i]);
        events := events + raised;
        assert polls[..i + 1][..i] == polls[..i];
        forall name ensures Follows(name, old(TrackOf(name)), ShownByAll(polls[..i + 1], name), events) {
          TimesOfConcat(was, raised, name);
          FollowConcat(threshold, old(TrackOf(name)), ShownByAll(polls[..i], name), Shown(polls[i], name));
        }
      }
      assert polls[..|polls|] == polls;
    }
  }

  // ---------------------------------------------------------------- episodes

  function Episode(ts: seq<int>): seq<Observation> {
    seq(|ts|, i requires 0 <= i < |ts| => NotReady(ts[i]))
  }

  /** The first poll after the opening one at which the threshold has passed. */
  predicate Confirms(threshold: int, ts: seq<int>, f: int) {
    && 1 <= f < |ts| && ts[f] - ts[0] >= threshold
    && forall i :: 1 <= i < f ==> ts[i] - ts[0] < threshold
  }

  predicate TooShort(threshold: int, ts: seq<int>) {
    forall i :: 1 <= i < |ts| ==> ts[i] - ts[0] < threshold
  }

  /** One NotReady episode: no fault while it is too short, otherwise one, at the first poll past the threshold. */
  lemma {:induction false} EpisodeFaultsOnce(threshold: int, ts: seq<int>)
    requires ts != []
    ensures var r := Follow(threshold, Untracked, Episode(ts));
      if TooShort(threshold, ts) then r == (Since(ts[0], false), [])
      else exists f :: Confirms(threshold, ts, f) && r == (Since(ts[0], true), [ts[f]])
  {
    var n := |ts| - 1;
    var front := ts[..n];
    assert Episode(ts)[..n] == Episode(front);
    if n > 0 {
      EpisodeFaultsOnce(threshold, front);
      if TooShort(threshold, front) {
        if ts[n] - ts[0] >= threshold {
          assert !TooShort(threshold, ts);
          forall i | 1 <= i < n ensures ts[i] - ts[0] < threshold {
            assert front[i] == ts[i];
          }
          assert Confirms(threshold, ts, n);
          assert [] + [ts[n]] == [ts[n]];
        } else {
          forall i | 1 <= i < |ts| ensures ts[i] - ts[0] < threshold {
            assert i < n ==> front[i] == ts[i];
          }
        }
      } else {
        var f :| Confirms(threshold, front, f)
          && Follow(threshold, Untracked, Episode(front)) == (Since(front[0], true), [front[f]]);
        assert Confirms(threshold, ts, f);
      }
    } else {
      assert Episode(front) == [] && TooShort(threshold, ts);
    }
  }

  predicate Ends(obs: seq<Observation>) {
    obs == [] || !obs[|obs| - 1].NotReady?
  }

  predicate Begins(obs: seq<Observation>) {
    obs == [] || !obs[0].NotReady?
  }

  /** An observation that ends an episode makes the detector forget all before it. */
  lemma ForgetsThePast(threshold: int, track: Track, obs: seq<Observation>)
    requires obs != [] && Begins(obs)
    ensures Follow(threshold, track, obs) == Follow(threshold, Untracked, obs)
  {
    assert obs == obs[..1] + obs[1..];
    FollowConcat(threshold, track, obs[..1], obs[1..]);
    FollowConcat(threshold, Untracked, obs[..1], obs[1..]);
    assert obs[..1][..0] == [];
  }

  /**
   The faults of a whole history, taken apart at any episode: those before it, those of the episode alone, and
   those of the rest alone.
   */
  lemma EpisodesAreIndependent(threshold: int, before: seq<Observation>, ts: seq<int>, after: seq<Observation>)
    requires Ends(before) && Begins(after)
    ensures Follow(threshold, Untracked, before + Episode(ts) + after).1
      == Follow(threshold, Untracked, before).1
       + Follow(threshold, Untracked, Episode(ts)).1
       + Follow(threshold, Untracked, after).1
  {
    FollowConcat(threshold, Untracked, before, Episode(ts));
    FollowConcat(threshold, Untracked, before + Episode(ts), after);
    if after != [] {
      ForgetsThePast(threshold, Follow(threshold, Untracked, before + Episode(ts)).0, after);
    }
  }

  predicate AtMostApart(ts: seq<int>, p: int) {
    forall i :: 0 < i < |ts| ==> ts[i - 1] <= ts[i] <= ts[i - 1] + p
  }

  /**
   An episode still seen at the threshold, with polls at most p apart, raises exactly one fault, and raises it
   between the threshold and threshold + p after the episode's first poll.
   */
  lemma FaultIsPrompt(threshold: int, ts: seq<int>, p: int)
    requires threshold > 0 && AtMostApart(ts, p)
    requires ts != [] && ts[|ts| - 1] - ts[0] >= threshold
    ensures exists t :: Follow(threshold, Untracked, Episode(ts)).1 == [t]
                     && ts[0] + threshold <= t < ts[0] + threshold + p
  {
    EpisodeFaultsOnce(threshold, ts);
    assert !TooShort(threshold, ts);
    var f :| Confirms(threshold, ts, f)
      && Follow(threshold, Untracked, Episode(ts)) == (Since(ts[0], true), [ts[f]]);
    assert ts[f - 1] - ts[0] < threshold;
  }

  /** Every fault of a history belongs to an episode that had lasted the threshold when the fault was raised. */
  lemma {:induction false} NoFaultIsEarly(threshold: int, obs: seq<Observation>)
    ensures var r := Follow(threshold, Untracked, obs);
      && (r.0.Since? ==> exists i :: EpisodeFrom(obs, i) && r.0.first == obs[i].at)
    ensures obs != [] ==>
      var n := |obs| - 1;
      var raised := Follow(threshold, Untracked, obs).1 != Follow(threshold, Untracked, obs[..n]).1;
      raised ==> exists i :: EpisodeFrom(obs, i) && obs[n].at - obs[i].at >= threshold
  {
    if obs != [] {
      var n := |obs| - 1;
      NoFaultIsEarly(threshold, obs[..n]);
      var track := Follow(threshold, Untracked, obs[..n]).0;
      if obs[n].NotReady? {
        if track.Since? {
          var i :| EpisodeFrom(obs[..n], i) && track.first == obs[..n][i].at;
          assert EpisodeFrom(obs, i);
        } else {
          assert EpisodeFrom(obs, n);
        }
      }
    }
  }

  /** From `i` to the end the node was NotReady in every observation. */
  predicate EpisodeFrom(obs: seq<Observation>, i: int) {
    0 <= i < |obs| && forall k :: i <= k < |obs| ==> obs[k].NotReady?
  }
}
