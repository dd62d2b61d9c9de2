/**
 What Prune does to the snapshots of a job, for either store. List passes over a snapshot whose metadata it fails
 to read, so Prune may work from a listing with gaps.
 */
module Pruning {
  import opened Storage

  function Least(a: nat, b: nat): nat {
    if a <= b then a else b
  }

  /** What a List sees that cannot read the metadata of the snapshots in `skipped`. */
  ghost function Visible(a: Snapshots, skipped: iset<SnapId>): Snapshots {
    imap id | id in a && id !in skipped :: a[id]
  }

  lemma VisibleCommitted(a: Snapshots, skipped: iset<SnapId>, id: SnapId)
    ensures Committed(Visible(a, skipped), id) <==> Committed(a, id) && id !in skipped
    ensures Committed(Visible(a, skipped), id) ==> MetaOf(Visible(a, skipped), id) == MetaOf(a, id)
  {}

  lemma NothingSkipped(a: Snapshots, skipped: iset<SnapId>)
    requires skipped == iset{}
    ensures Visible(a, skipped) == a
  {}

  /** What listings that read everything say about one snapshot, before and after it is deleted. */
  lemma DeletedIsUnlisted(listed: seq<SnapshotMeta>, again: seq<SnapshotMeta>, a: Snapshots, m: SnapshotMeta,
                          ns: string, job: string)
    requires IsListing(listed, a, ns, job) && IsListing(again, a - {m.Id()}, ns, job)
    ensures forall x :: x in again <==> x in listed && x.Id() != m.Id()
  {
    var b := a - {m.Id()};
    forall id ensures Committed(b, id) <==> Committed(a, id) && id != m.Id() {}
  }

  lemma ListingsAgree(r: seq<SnapshotMeta>, q: seq<SnapshotMeta>, a: Snapshots, ns: string, job: string)
    requires IsListing(r, a, ns, job) && IsListing(q, a, ns, job)
    ensures r == q
  {
    ListingIsUnique(r, q);
  }

  /** A partial listing lists committed snapshots only. */
  lemma VisibleAreListed(a: Snapshots, skipped: iset<SnapId>, full: seq<SnapshotMeta>, listed: seq<SnapshotMeta>,
                         ns: string, job: string)
    requires IsListing(full, a, ns, job) && IsListing(listed, Visible(a, skipped), ns, job)
    ensures forall m :: m in listed <==> m in full && m.Id() !in skipped
  {
    forall m ensures m in listed <==> m in full && m.Id() !in skipped {
      VisibleCommitted(a, skipped, m.Id());
    }
  }

  // ---------------------------------------------------------------- deleting snapshots one by one

  predicate Names(gone: seq<SnapshotMeta>, id: SnapId) {
    exists m :: m in gone && m.Id() == id
  }

  /** Of the job's committed snapshots exactly those in `gone` are gone; other jobs are as they were. */
  ghost predicate PrunedBy(was: Snapshots, now: Snapshots, gone: seq<SnapshotMeta>, ns: string, job: string) {
    && Faithful(now)
    && (forall id :: !OfJob(id, ns, job) ==> (id in now <==> id in was) && (id in now ==> now[id] == was[id]))
    && (forall id :: OfJob(id, ns, job) ==> (Committed(now, id) <==> Committed(was, id) && !Names(gone, id)))
    && (forall id :: Committed(now, id) ==> Committed(was, id) && MetaOf(now, id) == MetaOf(was, id))
  }

  lemma PruneNone(was: Snapshots, ns: string, job: string)
    requires Faithful(was)
    ensures PrunedBy(was, was, [], ns, job)
  {}

  lemma NamesOneMore(gone: seq<SnapshotMeta>, m: SnapshotMeta, id: SnapId)
    ensures Names(gone + [m], id) <==> Names(gone, id) || m.Id() == id
  {
    if m.Id() == id { assert m in gone + [m]; }
    if x :| x in gone && x.Id() == id { assert x in gone + [m]; }
  }

  /** One more snapshot is deleted. */
  lemma PruneOneMore(was: Snapshots, now: Snapshots, gone: seq<SnapshotMeta>, m: SnapshotMeta, ns: string, job: string)
    requires PrunedBy(was, now, gone, ns, job) && OfJob(m.Id(), ns, job)
    ensures PrunedBy(was, now - {m.Id()}, gone + [m], ns, job)
  {
    hide Names;
    var after := now - {m.Id()};
    forall id ensures Committed(after, id) <==> Committed(now, id) && id != m.Id() {}
    forall id ensures Names(gone + [m], id) <==> Names(gone, id) || m.Id() == id { NamesOneMore(gone, m, id); }
  }

  /** A deletion that fails half-way takes the snapshot out of the listing exactly if it takes the metadata. */
  lemma PruneOneHalf(was: Snapshots, now: Snapshots, gone: seq<SnapshotMeta>, m: SnapshotMeta, ns: string, job: string,
                     left: set<string>)
    requires PrunedBy(was, now, gone, ns, job) && OfJob(m.Id(), ns, job) && m.Id() in now
    ensures var half := now[m.Id() := Restrict(now[m.Id()], left)];
      PrunedBy(was, half, if META in left then gone else gone + [m], ns, job)
  {
    hide Names;
    var half := now[m.Id() := Restrict(now[m.Id()], left)];
    forall id ensures Committed(half, id) <==> Committed(now, id) && (id == m.Id() ==> META in left) {}
    forall id ensures Names(gone + [m], id) <==> Names(gone, id) || m.Id() == id { NamesOneMore(gone, m, id); }
  }

  // ---------------------------------------------------------------- what survives

  /** The snapshots of `full` that are not in `gone`, in order. */
  function Survivors(full: seq<SnapshotMeta>, gone: seq<SnapshotMeta>): seq<SnapshotMeta> {
    if full == [] then [] else
    var n := |full| - 1;
    var rest := Survivors(full[..n], gone);
    if full[n] in gone then rest else rest + [full[n]]
  }

  lemma {:induction false} SurvivorsAre(full: seq<SnapshotMeta>, gone: seq<SnapshotMeta>)
    ensures forall m :: m in Survivors(full, gone) <==> m in full && m !in gone
    ensures Ascending(full) ==> Ascending(Survivors(full, gone))
  {
    if full != [] {
      var n := |full| - 1;
      var front, rest := full[..n], Survivors(full[..n], gone);
      SurvivorsAre(front, gone);
      assert full == front + [full[n]];
      if Ascending(full) {
        forall i | 0 <= i < |rest| ensures rest[i].seqNo < full[n].seqNo { assert rest[i] in front; }
      }
    }
  }

  lemma {:induction false} SurvivorsConcat(a: seq<SnapshotMeta>, b: seq<SnapshotMeta>, gone: seq<SnapshotMeta>)
    ensures Survivors(a + b, gone) == Survivors(a, gone) + Survivors(b, gone)
  {
    if b == [] {
      assert a + b == a;
    } else {
      assert (a + b)[..|a + b| - 1] == a + b[..|b| - 1];
      SurvivorsConcat(a, b[..|b| - 1], gone);
    }
  }

  lemma {:induction false} AllOrNoneSurvive(a: seq<SnapshotMeta>, gone: seq<SnapshotMeta>)
    ensures (forall m :: m in a ==> m in gone) ==> Survivors(a, gone) == []
    ensures (forall m :: m in a ==> m !in gone) ==> Survivors(a, gone) == a
  {
    if a != [] {
      AllOrNoneSurvive(a[..|a| - 1], gone);
      assert a == a[..|a| - 1] + [a[|a| - 1]];
    }
  }

  lemma NamesMember(gone: seq<SnapshotMeta>, m: SnapshotMeta)
    ensures m in gone ==> Names(gone, m.Id())
  {}

  lemma OtherMembersAreNotNamed(was: Snapshots, full: seq<SnapshotMeta>, gone: seq<SnapshotMeta>, m: SnapshotMeta,
                                ns: string, job: string)
    requires IsListing(full, was, ns, job) && (forall x :: x in gone ==> x in full) && m in full && m !in gone
    ensures !Names(gone, m.Id())
  {
    forall x | x in gone ensures x.Id() != m.Id() {
      assert x in full && MetaOf(was, x.Id()) == x && MetaOf(was, m.Id()) == m;
    }
  }

  /** After the deletions the listing is the earlier one without the deleted snapshots. */
  lemma SurvivorsAreListed(was: Snapshots, now: Snapshots, full: seq<SnapshotMeta>, gone: seq<SnapshotMeta>,
                           ns: string, job: string)
    requires IsListing(full, was, ns, job) && PrunedBy(was, now, gone, ns, job)
    requires forall m :: m in gone ==> m in full
    ensures IsListing(Survivors(full, gone), now, ns, job)
  {
    hide Names;
    SurvivorsAre(full, gone);
    forall m | m in Survivors(full, gone)
      ensures OfJob(m.Id(), ns, job) && Committed(now, m.Id()) && MetaOf(now, m.Id()) == m
    {
      OtherMembersAreNotNamed(was, full, gone, m, ns, job);
    }
    forall id | OfJob(id, ns, job) && Committed(now, id) ensures MetaOf(now, id) in Survivors(full, gone) {
      NamesMember(gone, MetaOf(now, id));
    }
  }

  /** An ascending list of members of an ascending list is no longer than it. */
  lemma {:induction false} SublistIsShorter(a: seq<SnapshotMeta>, b: seq<SnapshotMeta>)
    requires Ascending(a) && Ascending(b) && forall m :: m in a ==> m in b
    ensures |a| <= |b|
  {
    if a != [] {
      var last, front := a[|a| - 1], a[..|a| - 1];
      assert last in a;
      var p :| 0 <= p < |b| && b[p] == last;
      forall m | m in front ensures m in b[..p] {
        var i :| 0 <= i < |front| && front[i] == m;
        assert a[i] in a && a[i].seqNo < last.seqNo;
        var j :| 0 <= j < |b| && b[j] == m;
      }
      SublistIsShorter(front, b[..p]);
    }
  }

  /** What comes after a listed snapshot in the partial listing comes after it in the whole one. */
  lemma LaterFit(full: seq<SnapshotMeta>, listed: seq<SnapshotMeta>, i: nat, j: nat)
    requires Ascending(full) && Ascending(listed) && forall m :: m in listed ==> m in full
    requires i < |full| && j < |listed|
    ensures full[i] == listed[j] ==> |listed| - j <= |full| - i
  {
    if full[i] == listed[j] {
      forall m | m in listed[j..] ensures m in full[i..] {
        var x :| 0 <= x < |listed| - j && listed[j..][x] == m;
        assert listed[j + x] == m && m in listed;
        var y :| 0 <= y < |full| && full[y] == m;
        assert y >= i && full[i..][y - i] == m;
      }
      SublistIsShorter(listed[j..], full[i..]);
    }
  }

  /** However many snapshots List passed over, the newest `keep` survive. */
  lemma NewestSurvive(full: seq<SnapshotMeta>, listed: seq<SnapshotMeta>, k: nat, keep: nat)
    requires Ascending(full) && Ascending(listed) && forall m :: m in listed ==> m in full
    requires k + Least(|listed|, keep) <= |listed|
    ensures forall i :: 0 <= i < |full| && |full| - keep <= i ==> full[i] in Survivors(full, listed[..k])
  {
    SurvivorsAre(full, listed[..k]);
    hide Survivors, Ascending;
    forall i | 0 <= i < |full| && |full| - keep <= i ensures full[i] !in listed[..k] {
      forall j | 0 <= j < k ensures listed[..k][j] != full[i] {
        LaterFit(full, listed, i, j);
      }
    }
  }

  /** `rest` is the newest part of `full`. */
  predicate IsSuffix(rest: seq<SnapshotMeta>, full: seq<SnapshotMeta>) {
    |rest| <= |full| && rest == full[|full| - |rest|..]
  }

  /** No snapshot that List passed over is older than one that was deleted. */
  predicate NoneSkippedIsOlder(full: seq<SnapshotMeta>, listed: seq<SnapshotMeta>, k: nat)
    requires k <= |listed|
  {
    forall s, d :: s in full && s !in listed && d in listed[..k] ==> d.seqNo < s.seqNo
  }

  /** What survives is the newest part exactly when no snapshot that was passed over is older than a deleted one. */
  lemma SuffixIffNoneSkippedIsOlder(full: seq<SnapshotMeta>, listed: seq<SnapshotMeta>, k: nat)
    requires Ascending(full) && Ascending(listed) && (forall m :: m in listed ==> m in full) && k <= |listed|
    ensures IsSuffix(Survivors(full, listed[..k]), full) <==> NoneSkippedIsOlder(full, listed, k)
  {
    if NoneSkippedIsOlder(full, listed, k) {
      DeletedAreTheOldest(full, listed, k);
    }
    if IsSuffix(Survivors(full, listed[..k]), full) {
      SuffixSkipsNoOlder(full, listed, k);
    }
  }

  lemma SuffixMembers(rest: seq<SnapshotMeta>, full: seq<SnapshotMeta>, j: nat)
    requires IsSuffix(rest, full) && j < |full|
    ensures j >= |full| - |rest| ==> full[j] in rest
  {
    if j >= |full| - |rest| { assert rest[j - (|full| - |rest|)] == full[j]; }
  }

  /** Of two members of a suffix's list, one that is not in the suffix is older than one that is. */
  lemma OutsideIsOlder(rest: seq<SnapshotMeta>, full: seq<SnapshotMeta>, d: SnapshotMeta, s: SnapshotMeta)
    requires Ascending(full) && IsSuffix(rest, full) && d in full && d !in rest && s in rest
    ensures d.seqNo < s.seqNo
  {
    var j :| 0 <= j < |full| && full[j] == d;
    var i :| 0 <= i < |rest| && rest[i] == s;
    SuffixMembers(rest, full, j);
    assert full[|full| - |rest| + i] == s;
  }

  lemma SuffixSkipsNoOlder(full: seq<SnapshotMeta>, listed: seq<SnapshotMeta>, k: nat)
    requires Ascending(full) && (forall m :: m in listed ==> m in full) && k <= |listed|
    requires IsSuffix(Survivors(full, listed[..k]), full)
    ensures NoneSkippedIsOlder(full, listed, k)
  {
    SurvivorsAre(full, listed[..k]);
    hide Survivors, Ascending, IsSuffix;
    forall s, d | s in full && s !in listed && d in listed[..k] ensures d.seqNo < s.seqNo {
      assert d in listed && (s in listed[..k] ==> s in listed);
      OutsideIsOlder(Survivors(full, listed[..k]), full, d, s);
    }
  }

  lemma HeadIsGone(full: seq<SnapshotMeta>, gone: seq<SnapshotMeta>, n: nat)
    requires n <= |full|
    requires (forall m :: m in full[..n] ==> m in gone) && (forall m :: m in full[n..] ==> m !in gone)
    ensures IsSuffix(Survivors(full, gone), full)
  {
    hide Survivors;
    SurvivorsConcat(full[..n], full[n..], gone);
    AllOrNoneSurvive(full[..n], gone);
    AllOrNoneSurvive(full[n..], gone);
    assert full == full[..n] + full[n..];
  }

  lemma DeletedAreTheOldest(full: seq<SnapshotMeta>, listed: seq<SnapshotMeta>, k: nat)
    requires Ascending(full) && Ascending(listed) && (forall m :: m in listed ==> m in full) && k <= |listed|
    requires NoneSkippedIsOlder(full, listed, k)
    ensures IsSuffix(Survivors(full, listed[..k]), full)
  {
    hide Survivors, IsSuffix, Ascending, NoneSkippedIsOlder;
    if k == 0 {
      HeadIsGone(full, listed[..k], 0);
    } else {
      assert listed[k - 1] in listed;
      var n :| 0 <= n < |full| && full[n] == listed[k - 1];
      forall m | m in full[..n + 1] ensures m in listed[..k] { OlderIsDeleted(full, listed, k, n, m); }
      forall m | m in full[n + 1..] ensures m !in listed[..k] { NewerIsKept(full, listed, k, n, m); }
      HeadIsGone(full, listed[..k], n + 1);
    }
  }

  lemma NewerIsKept(full: seq<SnapshotMeta>, listed: seq<SnapshotMeta>, k: nat, n: nat, m: SnapshotMeta)
    requires Ascending(full) && Ascending(listed) && 0 < k <= |listed|
    requires n < |full| && full[n] == listed[k - 1] && m in full[n + 1..]
    ensures m !in listed[..k]
  {
    var i :| 0 <= i < |full| - n - 1 && full[n + 1..][i] == m;
    assert m.seqNo > full[n].seqNo;
    forall j | 0 <= j < k ensures listed[..k][j].seqNo <= listed[k - 1].seqNo {}
  }

  lemma OlderIsDeleted(full: seq<SnapshotMeta>, listed: seq<SnapshotMeta>, k: nat, n: nat, m: SnapshotMeta)
    requires Ascending(full) && Ascending(listed) && 0 < k <= |listed| && NoneSkippedIsOlder(full, listed, k)
    requires n < |full| && full[n] == listed[k - 1] && m in full[..n + 1]
    ensures m in listed[..k]
  {
    var i :| 0 <= i <= n && full[i] == m;
    assert m in full && listed[k - 1] in listed[..k];
    if m in listed {
      var j :| 0 <= j < |listed| && listed[j] == m;
      assert j < k;
      assert listed[..k][j] == m;
    }
  }

  /** The outcome of a Prune that listed `listed` and deleted its first `k`, seen against the whole listing. */
  ghost predicate PruneIsRight(full: seq<SnapshotMeta>, listed: seq<SnapshotMeta>, k: nat, keep: nat,
                               now: Snapshots, ns: string, job: string)
    requires k <= |listed|
  {
    var rest := Survivors(full, listed[..k]);
    && IsListing(rest, now, ns, job)
    && (forall i :: 0 <= i < |full| && |full| - keep <= i ==> full[i] in rest)
    && (IsSuffix(rest, full) <==> NoneSkippedIsOlder(full, listed, k))
    && (listed == full ==> rest == full[k..])
  }

  lemma PruneMeans(was: Snapshots, now: Snapshots, skipped: iset<SnapId>, full: seq<SnapshotMeta>,
                   listed: seq<SnapshotMeta>, k: nat, keep: nat, ns: string, job: string)
    requires IsListing(full, was, ns, job) && IsListing(listed, Visible(was, skipped), ns, job)
    requires k + Least(|listed|, keep) <= |listed| && PrunedBy(was, now, listed[..k], ns, job)
    ensures PruneIsRight(full, listed, k, keep, now, ns, job)
  {
    VisibleAreListed(was, skipped, full, listed, ns, job);
    forall m | m in listed[..k] ensures m in full { assert m in listed; }
    SurvivorsAreListed(was, now, full, listed[..k], ns, job);
    NewestSurvive(full, listed, k, keep);
    SuffixIffNoneSkippedIsOlder(full, listed, k);
    if listed == full { UnskippedSurvivors(full, k); }
  }

  /** If nothing is passed over, the oldest go and all others stay. */
  lemma UnskippedSurvivors(full: seq<SnapshotMeta>, k: nat)
    requires Ascending(full) && k <= |full|
    ensures Survivors(full, full[..k]) == full[k..]
  {
    hide Survivors;
    forall m | m in full[k..] ensures m !in full[..k] { KeptIsNewer(full, k, m); }
    hide Ascending;
    AllOrNoneSurvive(full[..k], full[..k]);
    AllOrNoneSurvive(full[k..], full[..k]);
    SurvivorsSplit(full, k, full[..k]);
  }

  lemma SurvivorsSplit(full: seq<SnapshotMeta>, k: nat, gone: seq<SnapshotMeta>)
    requires k <= |full|
    ensures Survivors(full, gone) == Survivors(full[..k], gone) + Survivors(full[k..], gone)
  {
    hide Survivors;
    SurvivorsConcat(full[..k], full[k..], gone);
    assert full == full[..k] + full[k..];
  }

  lemma KeptIsNewer(full: seq<SnapshotMeta>, k: nat, m: SnapshotMeta)
    requires Ascending(full) && k <= |full| && m in full[k..]
    ensures m !in full[..k]
  {
    var i :| 0 <= i < |full| - k && full[k..][i] == m;
    forall j | 0 <= j < k ensures full[..k][j] != m { assert full[j].seqNo < full[k + i].seqNo; }
  }

  /** The partial listing is the whole one without what was passed over. */
  lemma VisibleListing(a: Snapshots, skipped: iset<SnapId>, full: seq<SnapshotMeta>, listed: seq<SnapshotMeta>,
                       ns: string, job: string)
    requires Faithful(a) && IsListing(full, a, ns, job) && Ascending(listed)
    requires forall m :: m in listed <==> m in full && m.Id() !in skipped
    ensures IsListing(listed, Visible(a, skipped), ns, job)
  {
    forall id ensures Committed(Visible(a, skipped), id) <==> Committed(a, id) && id !in skipped {
      VisibleCommitted(a, skipped, id);
    }
  }

  /**
   Snapshots 1, 2 and 3 of a job are committed, the metadata of 1 cannot be read, and one snapshot is to be kept:
   List returns 2 and 3, Prune deletes 2 and leaves 1 and 3, which are not the newest part. A second Prune that can
   read everything lists both and goes on to delete 1.
   */
  lemma OldestSkippedOutlivesNewer(was: Snapshots, now: Snapshots, one: SnapshotMeta, two: SnapshotMeta,
                                   three: SnapshotMeta, ns: string, job: string)
    requires one.seqNo == 1 && two.seqNo == 2 && three.seqNo == 3
    requires Faithful(was) && IsListing([one, two, three], was, ns, job)
    ensures IsListing([two, three], Visible(was, iset{one.Id()}), ns, job)
    ensures PrunedBy(was, now, [two], ns, job) ==>
              IsListing([one, three], now, ns, job) && !IsSuffix([one, three], [one, two, three])
  {
    var full := [one, two, three];
    VisibleListing(was, iset{one.Id()}, full, [two, three], ns, job);
    if PrunedBy(was, now, [two], ns, job) {
      SurvivorsAreListed(was, now, full, [two], ns, job);
      SurvivorsAre(full, [two]);
      hide Survivors, IsListing, PrunedBy;
      ListingIsUnique(Survivors(full, [two]), [one, three]);
    }
  }

  // ---------------------------------------------------------------- pruning again

  lemma {:induction false} SurvivorCount(full: seq<SnapshotMeta>, gone: seq<SnapshotMeta>)
    requires Ascending(full) && Ascending(gone) && forall m :: m in gone ==> m in full
    ensures |Survivors(full, gone)| == |full| - |gone|
  {
    SublistIsShorter(gone, full);
    if full != [] {
      var n := |full| - 1;
      var front, last := full[..n], full[n];
      assert full == front + [last];
      if last in gone {
        var fewer := gone[..|gone| - 1];
        LastIsLast(full, gone);
        assert gone == fewer + [last];
        SurvivorCount(front, fewer);
        SameSurvivors(front, gone, fewer);
      } else {
        SurvivorCount(front, gone);
      }
    }
  }

  lemma LastIsLast(full: seq<SnapshotMeta>, gone: seq<SnapshotMeta>)
    requires full != [] && Ascending(full) && Ascending(gone) && forall m :: m in gone ==> m in full
    requires full[|full| - 1] in gone
    ensures gone[|gone| - 1] == full[|full| - 1]
    ensures forall m :: m in gone[..|gone| - 1] ==> m in full[..|full| - 1] && m.seqNo < full[|full| - 1].seqNo
  {
    var n, last := |full| - 1, full[|full| - 1];
    var j :| 0 <= j < |gone| && gone[j] == last;
    var x := gone[|gone| - 1];
    assert x in gone;
    var i :| 0 <= i < |full| && full[i] == x;
    assert x.seqNo >= last.seqNo;
    assert i == n;
    forall m | m in gone[..|gone| - 1] ensures m in full[..n] && m.seqNo < last.seqNo {
      var y :| 0 <= y < |gone| - 1 && gone[y] == m;
      assert gone[y] in gone && gone[y].seqNo < x.seqNo;
      var z :| 0 <= z < |full| && full[z] == m;
    }
  }

  lemma {:induction false} SameSurvivors(full: seq<SnapshotMeta>, gone: seq<SnapshotMeta>, fewer: seq<SnapshotMeta>)
    requires forall m :: m in full ==> (m in gone <==> m in fewer)
    ensures Survivors(full, gone) == Survivors(full, fewer)
  {
    if full != [] {
      assert full == full[..|full| - 1] + [full[|full| - 1]];
      SameSurvivors(full[..|full| - 1], gone, fewer);
    }
  }

  /**
   After a Prune that succeeded, a List that reads everything returns more than `keep` snapshots, so that a second
   Prune deletes more, unless the first one had read everything too or there was nothing to delete.
   */
  lemma SecondListing(was: Snapshots, now: Snapshots, skipped: iset<SnapId>, full: seq<SnapshotMeta>,
                      listed: seq<SnapshotMeta>, second: seq<SnapshotMeta>, keep: nat, ns: string, job: string)
    requires IsListing(full, was, ns, job) && IsListing(listed, Visible(was, skipped), ns, job)
    requires PrunedBy(was, now, listed[..|listed| - Least(|listed|, keep)], ns, job)
    requires IsListing(second, now, ns, job)
    ensures |second| <= keep <==> |full| <= keep || full == listed
  {
    var k := |listed| - Least(|listed|, keep);
    PruneMeans(was, now, skipped, full, listed, k, keep, ns, job);
    ListingsAgree(second, Survivors(full, listed[..k]), now, ns, job);
    VisibleAreListed(was, skipped, full, listed, ns, job);
    forall m | m in listed[..k] ensures m in full { assert m in listed; }
    SurvivorCount(full, listed[..k]);
    SublistIsShorter(listed, full);
    if |full| == |listed| { SameLengthIsSame(full, listed); }
  }

  lemma SameLengthIsSame(full: seq<SnapshotMeta>, listed: seq<SnapshotMeta>)
    requires Ascending(full) && Ascending(listed) && (forall m :: m in listed ==> m in full) && |full| == |listed|
    ensures full == listed
  {
    SurvivorsAre(full, listed);
    SurvivorCount(full, listed);
    assert Survivors(full, listed) == [];
    ListingIsUnique(full, listed);
  }

  /** If the second List reads nothing that the first could not, it returns at most `keep` snapshots. */
  lemma NothingNewIsRead(was: Snapshots, now: Snapshots, skipped: iset<SnapId>, again: iset<SnapId>,
                         listed: seq<SnapshotMeta>, second: seq<SnapshotMeta>, keep: nat, ns: string, job: string)
    requires IsListing(listed, Visible(was, skipped), ns, job) && skipped <= again
    requires PrunedBy(was, now, listed[..|listed| - Least(|listed|, keep)], ns, job)
    requires IsListing(second, Visible(now, again), ns, job)
    ensures |second| <= keep
  {
    var k := |listed| - Least(|listed|, keep);
    forall m | m in second ensures m in listed[k..] {
      ReadAgainIsListed(was, now, skipped, again, listed, second, k, m, ns, job);
    }
    SublistIsShorter(second, listed[k..]);
  }

  lemma ReadAgainIsListed(was: Snapshots, now: Snapshots, skipped: iset<SnapId>, again: iset<SnapId>,
                          listed: seq<SnapshotMeta>, second: seq<SnapshotMeta>, k: nat, m: SnapshotMeta,
                          ns: string, job: string)
    requires IsListing(listed, Visible(was, skipped), ns, job) && skipped <= again
    requires k <= |listed| && PrunedBy(was, now, listed[..k], ns, job)
    requires IsListing(second, Visible(now, again), ns, job) && m in second
    ensures m in listed[k..]
  {
    hide Visible, Names;
    assert listed == listed[..k] + listed[k..];
    VisibleCommitted(now, again, m.Id());
    VisibleCommitted(was, skipped, m.Id());
    NamesMember(listed[..k], m);
  }

  /** A listed snapshot whose turn has not come is still there. */
  lemma ListedIsThere(was: Snapshots, now: Snapshots, skipped: iset<SnapId>, listed: seq<SnapshotMeta>, i: nat,
                      ns: string, job: string)
    requires IsListing(listed, Visible(was, skipped), ns, job) && i < |listed|
    requires PrunedBy(was, now, listed[..i], ns, job)
    ensures OfJob(listed[i].Id(), ns, job) && listed[i].Id() in now
  {
    var m := listed[i];
    assert m in listed;
    VisibleCommitted(was, skipped, m.Id());
    forall x | x in listed[..i] ensures x.Id() != m.Id() {
      var j :| 0 <= j < i && listed[j] == x;
      assert listed[j].seqNo < listed[i].seqNo;
    }
  }

  lemma DeletingChanges(was: Snapshots, now: Snapshots, skipped: iset<SnapId>, listed: seq<SnapshotMeta>, k: nat,
                        ns: string, job: string)
    requires IsListing(listed, Visible(was, skipped), ns, job) && 0 < k <= |listed|
    requires PrunedBy(was, now, listed[..k], ns, job)
    ensures was != now
  {
    var m := listed[0];
    assert m in listed && m in listed[..k];
    VisibleCommitted(was, skipped, m.Id());
    NamesMember(listed[..k], m);
  }

  /**
   Two Prunes to the same number: `between` is what the first one left, having deleted all it meant to. The second
   finds nothing to delete if it can read nothing that the first could not; and if it can read everything, exactly
   when the first one had read everything too or had nothing to delete.
   */
  ghost predicate PruningAgainIsRight(was: Snapshots, between: Snapshots, skipped: iset<SnapId>, again: iset<SnapId>,
                                      listed: seq<SnapshotMeta>, second: seq<SnapshotMeta>, keep: nat,
                                      ns: string, job: string)
  {
    && IsListing(listed, Visible(was, skipped), ns, job)
    && IsListing(second, Visible(between, again), ns, job)
    && (skipped <= again ==> |second| <= keep)
    && (again == iset{} ==>
          forall full :: IsListing(full, was, ns, job) ==> (|second| <= keep <==> |full| <= keep || full == listed))
  }

  lemma PruningAgain(was: Snapshots, between: Snapshots, skipped: iset<SnapId>, again: iset<SnapId>,
                     listed: seq<SnapshotMeta>, second: seq<SnapshotMeta>, keep: nat, ns: string, job: string)
    requires IsListing(listed, Visible(was, skipped), ns, job)
    requires PrunedBy(was, between, listed[..|listed| - Least(|listed|, keep)], ns, job)
    requires IsListing(second, Visible(between, again), ns, job)
    ensures PruningAgainIsRight(was, between, skipped, again, listed, second, keep, ns, job)
  {
    hide PrunedBy, IsListing;
    if skipped <= again {
      NothingNewIsRead(was, between, skipped, again, listed, second, keep, ns, job);
    }
    if again == iset{} {
      assert Visible(between, again) == between;
      forall full | IsListing(full, was, ns, job) ensures |second| <= keep <==> |full| <= keep || full == listed {
        SecondListing(was, between, skipped, full, listed, second, keep, ns, job);
      }
    }
  }
}
