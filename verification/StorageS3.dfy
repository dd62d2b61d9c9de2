/** S3Backend: snapshots as objects in a flat key space. */
module StorageS3 {
  import opened Text
  import opened Storage
  import opened Pruning

  type Objects = map<string, File>

  /** strings.TrimRight(s, "/"). */
  function TrimSlashes(s: string): string {
    if s != [] && s[|s| - 1] == '/' then TrimSlashes(s[..|s| - 1]) else s
  }

  /** All slashes at the end are taken off, and nothing else. */
  lemma {:induction false} TrimmedIs(s: string)
    ensures var t := TrimSlashes(s);
      && t <= s && (t != [] ==> t[|t| - 1] != '/') && forall i :: |t| <= i < |s| ==> s[i] == '/'
  {
    if s != [] && s[|s| - 1] == '/' { TrimmedIs(s[..|s| - 1]); }
  }

  function JobPrefix(bucketPrefix: string, ns: string, job: string): string {
    TrimSlashes(bucketPrefix) + "/" + ns + "/" + job + "/"
  }

  function SnapPrefix(bucketPrefix: string, id: SnapId): string {
    JobPrefix(bucketPrefix, id.namespace, id.jobName) + CkptName(id.seqNo) + "/"
  }

  /** Save and Delete build the same key by adding the file name to the prefix. */
  function ObjectKey(bucketPrefix: string, id: SnapId, filename: string): string {
    SnapPrefix(bucketPrefix, id) + filename
  }

  /** A key, spelled out. */
  lemma KeyLayout(bp: string, ns: string, job: string, filename: string)
    ensures ObjectKey(bp, SnapId(ns, job, 7), filename)
            == TrimSlashes(bp) + "/" + ns + "/" + job + "/" + "ckpt-00007" + "/" + filename
  {
    CkptNameOfSeven();
  }

  // ---------------------------------------------------------------- keys determine what they name

  /** A key below a job's prefix gives back namespace, job and first directory, whatever follows. */
  lemma JobKeysParse(bp: string, ns: string, job: string, dir: string, rest: string,
                     ns': string, job': string, dir': string, rest': string)
    requires '/' !in ns && '/' !in job && '/' !in dir && '/' !in ns' && '/' !in job' && '/' !in dir'
    requires JobPrefix(bp, ns, job) + dir + "/" + rest <= JobPrefix(bp, ns', job') + dir' + "/" + rest'
    ensures ns == ns' && job == job' && dir == dir' && rest <= rest'
  {
    var r := TrimSlashes(bp) + "/";
    var a3, b3 := dir + ['/'] + rest, dir' + ['/'] + rest';
    var a2, b2 := job + ['/'] + a3, job' + ['/'] + b3;
    var a1, b1 := ns + ['/'] + a2, ns' + ['/'] + b2;
    KeyFromInside(bp, ns, job, dir, rest);
    KeyFromInside(bp, ns', job', dir', rest');
    assert a1 == (r + a1)[|r|..] && b1 == (r + b1)[|r|..];
    SplitIsUnique(ns, a2, ns', b2, '/');
    SplitIsUnique(job, a3, job', b3, '/');
    SplitIsUnique(dir, rest, dir', rest', '/');
  }

  lemma KeyFromInside(bp: string, ns: string, job: string, dir: string, rest: string)
    ensures JobPrefix(bp, ns, job) + dir + "/" + rest
            == TrimSlashes(bp) + "/" + (ns + ['/'] + (job + ['/'] + (dir + ['/'] + rest)))
  {}

  /**
   For slash-free names, no key of one snapshot starts with another's prefix: not seq 1 and seq 10, nor
   sequence numbers that need more than five digits. Deleting by prefix can only hit one snapshot.
   */
  lemma PrefixesAreApart(bp: string, a: SnapId, b: SnapId, filename: string)
    requires a.Plain() && b.Plain()
    ensures SnapPrefix(bp, a) <= ObjectKey(bp, b, filename) <==> a == b
  {
    if SnapPrefix(bp, a) <= ObjectKey(bp, b, filename) {
      CkptNameIsPlain(a.seqNo);
      CkptNameIsPlain(b.seqNo);
      assert SnapPrefix(bp, a) == JobPrefix(bp, a.namespace, a.jobName) + CkptName(a.seqNo) + "/" + "";
      JobKeysParse(bp, a.namespace, a.jobName, CkptName(a.seqNo), "",
                         b.namespace, b.jobName, CkptName(b.seqNo), filename);
      CkptNamesDiffer(a.seqNo, b.seqNo);
    }
  }

  lemma PrefixOfJobKey(bp: string, id: SnapId)
    ensures SnapPrefix(bp, id)
            == TrimSlashes(bp) + "/" + JobKey(id.namespace, id.jobName) + ['/'] + CkptName(id.seqNo) + "/"
  {}

  /** Whatever the names are, two snapshots share their keys exactly when their job keys and numbers are equal. */
  lemma PrefixesCoincideIff(bp: string, a: SnapId, b: SnapId)
    ensures SnapPrefix(bp, a) == SnapPrefix(bp, b)
            <==> JobKey(a.namespace, a.jobName) == JobKey(b.namespace, b.jobName) && a.seqNo == b.seqNo
  {
    PrefixOfJobKey(bp, a);
    PrefixOfJobKey(bp, b);
    hide SnapPrefix, JobKey, CkptName;
    if SnapPrefix(bp, a) == SnapPrefix(bp, b) {
      var r, k, l := TrimSlashes(bp) + "/", JobKey(a.namespace, a.jobName), JobKey(b.namespace, b.jobName);
      WithoutLast(r + k + ['/'] + CkptName(a.seqNo), r + l + ['/'] + CkptName(b.seqNo), "/");
      CkptNameIsPlain(a.seqNo);
      CkptNameIsPlain(b.seqNo);
      SplitAtLast(r + k, CkptName(a.seqNo), r + l, CkptName(b.seqNo), '/');
      assert k == (r + k)[|r|..] && l == (r + l)[|r|..];
      CkptNamesDiffer(a.seqNo, b.seqNo);
    }
  }

  lemma WithoutLast(x: string, y: string, end: string)
    requires x + end == y + end
    ensures x == y
  {
    assert x == (x + end)[..|x + end| - |end|] && y == (y + end)[..|y + end| - |end|];
  }

  /** Moving a slash between namespace and job gives another job the same keys. */
  lemma SlashedNamesCollide(bp: string, a: string, b: string, c: string, seqNo: int)
    ensures SnapPrefix(bp, SnapId(a + "/" + b, c, seqNo)) == SnapPrefix(bp, SnapId(a, b + "/" + c, seqNo))
  {
    PrefixesCoincideIff(bp, SnapId(a + "/" + b, c, seqNo), SnapId(a, b + "/" + c, seqNo));
    assert JobKey(a + "/" + b, c) == JobKey(a, b + "/" + c);
  }

  function Slashes(s: string): nat {
    if s == [] then 0 else Slashes(s[..|s| - 1]) + if s[|s| - 1] == '/' then 1 else 0
  }

  lemma {:induction false} SlashesConcat(a: string, b: string)
    ensures Slashes(a + b) == Slashes(a) + Slashes(b)
  {
    if b == [] {
      assert a + b == a;
    } else {
      assert (a + b)[..|a + b| - 1] == a + b[..|b| - 1];
      SlashesConcat(a, b[..|b| - 1]);
    }
  }

  lemma {:induction false} SlashesIn(s: string)
    ensures Slashes(s) > 0 <==> '/' in s
  {
    if s != [] {
      SlashesIn(s[..|s| - 1]);
      assert s == s[..|s| - 1] + [s[|s| - 1]];
    }
  }

  lemma SlashesOfKey(bp: string, ns: string, job: string, dir: string, rest: string)
    ensures Slashes(JobPrefix(bp, ns, job) + dir + "/" + rest)
      == Slashes(TrimSlashes(bp)) + Slashes(ns) + Slashes(job) + Slashes(dir) + Slashes(rest) + 4
  {
    var r := TrimSlashes(bp);
    assert Slashes("/") == 1 by { assert "/"[..0] == []; }
    SlashesConcat(r, "/");
    SlashesConcat(r + "/", ns);
    SlashesConcat(r + "/" + ns, "/");
    SlashesConcat(r + "/" + ns + "/", job);
    SlashesConcat(r + "/" + ns + "/" + job, "/");
    SlashesConcat(JobPrefix(bp, ns, job), dir);
    SlashesConcat(JobPrefix(bp, ns, job) + dir, "/");
    SlashesConcat(JobPrefix(bp, ns, job) + dir + "/", rest);
  }

  /** The prefix of a snapshot with a slash in a name lies deeper than any metadata of a slash-free one. */
  lemma SlashedPrefixIsDeeper(bp: string, id: SnapId, ns: string, job: string, dir: string)
    requires !id.Plain() && '/' !in ns && '/' !in job && '/' !in dir
    ensures !(SnapPrefix(bp, id) <= JobPrefix(bp, ns, job) + dir + "/" + META)
  {
    hide SnapPrefix, JobPrefix, Slashes;
    var a, key := SnapPrefix(bp, id), JobPrefix(bp, ns, job) + dir + "/" + META;
    if a <= key {
      SlashesOfPrefix(bp, id);
      SlashesOfPlainKey(bp, ns, job, dir);
      assert key == a + key[|a|..];
      SlashesConcat(a, key[|a|..]);
    }
  }

  lemma SlashesOfPrefix(bp: string, id: SnapId)
    requires !id.Plain()
    ensures Slashes(SnapPrefix(bp, id)) > Slashes(TrimSlashes(bp)) + 4
  {
    hide Slashes, CkptName;
    SlashesIn(id.namespace);
    SlashesIn(id.jobName);
    SlashesOfKey(bp, id.namespace, id.jobName, CkptName(id.seqNo), "");
    assert SnapPrefix(bp, id) == JobPrefix(bp, id.namespace, id.jobName) + CkptName(id.seqNo) + "/" + "";
  }

  lemma SlashesOfPlainKey(bp: string, ns: string, job: string, dir: string)
    requires '/' !in ns && '/' !in job && '/' !in dir
    ensures Slashes(JobPrefix(bp, ns, job) + dir + "/" + META) == Slashes(TrimSlashes(bp)) + 4
  {
    hide Slashes, JobPrefix;
    SlashesIn(ns);
    SlashesIn(job);
    SlashesIn(dir);
    SlashesIn(META);
    SlashesOfKey(bp, ns, job, dir, META);
  }

  // ---------------------------------------------------------------- the abstract map

  function FileNames(objects: Objects, prefix: string): (names: set<string>)
    ensures forall f :: f in names <==> prefix + f in objects
  {
    var names := set k | k in objects && prefix <= k :: k[|prefix|..];
    assert forall f {:trigger prefix + f} :: prefix <= prefix + f && (prefix + f)[|prefix|..] == f;
    assert forall k :: k in objects && prefix <= k ==> k == prefix + k[|prefix|..];
    names
  }

  function FilesUnder(objects: Objects, prefix: string): Files {
    map f | f in FileNames(objects, prefix) :: objects[prefix + f]
  }

  /** The files of each snapshot, where none means that it does not exist. */
  ghost function View(bp: string, objects: Objects): SnapId -> Files {
    (id: SnapId) => if id.Plain() then FilesUnder(objects, SnapPrefix(bp, id)) else map[]
  }

  ghost function Present(view: SnapId -> Files): Snapshots {
    imap id: SnapId | view(id) != map[] :: view(id)
  }

  /** The abstract map a bucket represents: a snapshot exists while it has an object. */
  ghost function Abstraction(bp: string, objects: Objects): Snapshots {
    Present(View(bp, objects))
  }

  /** The map with a snapshot's files replaced; a snapshot without files does not exist. */
  ghost function With(a: Snapshots, id: SnapId, files: Files): Snapshots {
    if files == map[] then a - {id} else a[id := files]
  }

  ghost predicate SameOutside(objects: Objects, now: Objects, prefix: string) {
    forall k :: !(prefix <= k) ==> (k in now <==> k in objects) && (k in objects ==> now[k] == objects[k])
  }

  lemma WriteRefines(bp: string, objects: Objects, now: Objects, id: SnapId, files: Files)
    requires id.Plain()
    requires SameOutside(objects, now, SnapPrefix(bp, id))
    requires files == FilesUnder(now, SnapPrefix(bp, id))
    ensures Abstraction(bp, now) == With(Abstraction(bp, objects), id, files)
  {
    forall other: SnapId | other.Plain() && other != id
      ensures FilesUnder(now, SnapPrefix(bp, other)) == FilesUnder(objects, SnapPrefix(bp, other))
    {
      OthersUnchanged(bp, objects, now, id, other);
    }
    PresentWith(View(bp, objects), View(bp, now), id, files);
  }

  lemma PresentWith(view: SnapId -> Files, now: SnapId -> Files, id: SnapId, files: Files)
    requires now(id) == files && forall other: SnapId :: other != id ==> now(other) == view(other)
    ensures Present(now) == With(Present(view), id, files)
  {}

  lemma OthersUnchanged(bp: string, objects: Objects, now: Objects, id: SnapId, other: SnapId)
    requires id.Plain() && other.Plain() && other != id
    requires SameOutside(objects, now, SnapPrefix(bp, id))
    ensures FilesUnder(now, SnapPrefix(bp, other)) == FilesUnder(objects, SnapPrefix(bp, other))
  {
    var prefix := SnapPrefix(bp, other);
    forall f ensures prefix + f in now <==> prefix + f in objects
             ensures prefix + f in objects ==> now[prefix + f] == objects[prefix + f]
    {
      PrefixesAreApart(bp, id, other, f);
      assert ObjectKey(bp, other, f) == prefix + f;
    }
  }

  lemma PutUnder(objects: Objects, prefix: string, f: string, file: File)
    ensures FilesUnder(objects[prefix + f := file], prefix) == FilesUnder(objects, prefix)[f := file]
  {
    forall g | prefix + g == prefix + f ensures g == f {
      assert g == (prefix + g)[|prefix|..];
    }
  }

  /** A directory of a job with readable metadata is the prefix of the snapshot the metadata names. */
  ghost predicate Kept(bp: string, objects: Objects) {
    forall ns, job, dir :: '/' !in ns && '/' !in job && '/' !in dir ==>
      var key := JobPrefix(bp, ns, job) + dir + "/" + META;
      key in objects && objects[key].decoded.Some? ==>
        var id := objects[key].decoded.value.Id();
        OfJob(id, ns, job) && dir == CkptName(id.seqNo)
  }

  lemma KeptIsFaithful(bp: string, objects: Objects)
    requires Kept(bp, objects)
    ensures Faithful(Abstraction(bp, objects))
  {
    var a := Abstraction(bp, objects);
    forall id | Committed(a, id) ensures MetaOf(a, id).Id() == id {
      CkptNameIsPlain(id.seqNo);
      var key := JobPrefix(bp, id.namespace, id.jobName) + CkptName(id.seqNo) + "/" + META;
      assert key == SnapPrefix(bp, id) + META;
      CkptNamesDiffer(objects[key].decoded.value.Id().seqNo, id.seqNo);
    }
  }

  lemma WriteKeeps(bp: string, objects: Objects, now: Objects, id: SnapId)
    requires id.Plain() && Kept(bp, objects)
    requires SameOutside(objects, now, SnapPrefix(bp, id))
    requires HasMeta(FilesUnder(now, SnapPrefix(bp, id))) ==>
                 FilesUnder(now, SnapPrefix(bp, id))[META].decoded.value.Id() == id
    ensures Kept(bp, now)
  {
    CkptNameIsPlain(id.seqNo);
    forall ns, job, dir | '/' !in ns && '/' !in job && '/' !in dir
      ensures var key := JobPrefix(bp, ns, job) + dir + "/" + META;
        key in now && now[key].decoded.Some? ==>
          OfJob(now[key].decoded.value.Id(), ns, job) && dir == CkptName(now[key].decoded.value.Id().seqNo)
    {
      var key := JobPrefix(bp, ns, job) + dir + "/" + META;
      if SnapPrefix(bp, id) <= key {
        assert SnapPrefix(bp, id) == JobPrefix(bp, id.namespace, id.jobName) + CkptName(id.seqNo) + "/" + "";
        JobKeysParse(bp, id.namespace, id.jobName, CkptName(id.seqNo), "", ns, job, dir, META);
        assert key == SnapPrefix(bp, id) + META;
      }
    }
  }

  /** Nothing below the prefix of a snapshot with a slash in a name is metadata of a slash-free one. */
  lemma SlashedWriteKeeps(bp: string, objects: Objects, now: Objects, id: SnapId)
    requires !id.Plain() && Kept(bp, objects) && SameOutside(objects, now, SnapPrefix(bp, id))
    ensures Kept(bp, now)
  {
    hide SnapPrefix, JobPrefix;
    forall ns, job, dir | '/' !in ns && '/' !in job && '/' !in dir
      ensures !(SnapPrefix(bp, id) <= JobPrefix(bp, ns, job) + dir + "/" + META)
    {
      SlashedPrefixIsDeeper(bp, id, ns, job, dir);
    }
  }

  lemma DeleteRefines(bp: string, objects: Objects, now: Objects, id: SnapId, left: set<string>)
    requires id.Plain() && Kept(bp, objects) && SameOutside(objects, now, SnapPrefix(bp, id))
    requires FilesUnder(now, SnapPrefix(bp, id)) == Restrict(FilesUnder(objects, SnapPrefix(bp, id)), left)
    ensures Kept(bp, now)
    ensures var a := Abstraction(bp, objects);
      Abstraction(bp, now) == if id in a then With(a, id, Restrict(a[id], left)) else a
  {
    hide SnapPrefix, Kept, FilesUnder, SameOutside;
    var a, prefix := Abstraction(bp, objects), SnapPrefix(bp, id);
    var was, files := FilesUnder(objects, prefix), FilesUnder(now, prefix);
    KeptIsFaithful(bp, objects);
    WriteRefines(bp, objects, now, id, files);
    CommittedInView(View(bp, objects), id);
    assert View(bp, objects)(id) == was;
    hide View;
    if HasMeta(files) { assert files[META] == was[META]; }
    WriteKeeps(bp, objects, now, id);
    assert id in a <==> was != map[];
  }

  // ---------------------------------------------------------------- listing

  /** The part of a key up to its first slash, if it has one. */
  function FirstSegment(s: string): Option<string> {
    if s == [] then None
    else if s[0] == '/' then Some([])
    else match FirstSegment(s[1..])
      case None => None
      case Some(rest) => Some([s[0]] + rest)
  }

  lemma {:induction false} FirstSegmentIs(s: string)
    ensures FirstSegment(s).Some? ==> '/' !in FirstSegment(s).value && FirstSegment(s).value + "/" <= s
    ensures FirstSegment(s).None? ==> '/' !in s
  {
    if s != [] && s[0] != '/' {
      FirstSegmentIs(s[1..]);
      assert s == [s[0]] + s[1..];
    }
  }

  lemma FirstSegmentOf(dir: string, rest: string)
    requires '/' !in dir
    ensures FirstSegment(dir + "/" + rest) == Some(dir)
  {
    var s := dir + "/" + rest;
    FirstSegmentIs(s);
    assert s[|dir|] == '/';
    if FirstSegment(s).Some? {
      var d := FirstSegment(s).value;
      assert d + ['/'] + s[|d| + 1..] == s && dir + ['/'] + rest == s;
      SplitIsUnique(d, s[|d| + 1..], dir, rest, '/');
    }
  }

  /** The directories that ListObjectsV2 with delimiter "/" reports as common prefixes. */
  function Dirs(objects: Objects, prefix: string): (dirs: set<string>)
    ensures forall d :: d in dirs ==> '/' !in d
    ensures forall d, rest :: '/' !in d && prefix + d + "/" + rest in objects ==> d in dirs
  {
    var dirs := set k | k in objects && prefix <= k && FirstSegment(k[|prefix|..]).Some?
      :: FirstSegment(k[|prefix|..]).value;
    assert forall d :: d in dirs ==> '/' !in d by {
      forall k | k in objects && prefix <= k { FirstSegmentIs(k[|prefix|..]); }
    }
    forall d, rest | '/' !in d && prefix + d + "/" + rest in objects ensures d in dirs {
      var k := prefix + d + "/" + rest;
      assert k[|prefix|..] == d + "/" + rest;
      FirstSegmentOf(d, rest);
    }
    dirs
  }

  function AfterLastSlash(s: string): string {
    if s == [] || s[|s| - 1] == '/' then [] else AfterLastSlash(s[..|s| - 1]) + [s[|s| - 1]]
  }

  /** filepath.Base of an object key is the file name it was made from. */
  lemma {:induction false} BaseOfKey(dir: string, f: string)
    requires '/' !in f
    ensures AfterLastSlash(dir + "/" + f) == f
  {
    var s := dir + "/" + f;
    if f != [] {
      assert s[..|s| - 1] == dir + "/" + f[..|f| - 1];
      BaseOfKey(dir, f[..|f| - 1]);
    }
  }

  // ---------------------------------------------------------------- uploading

  /** The put that reports a failure: how many were done before it, and whether it took effect all the same. */
  datatype Failure = Failure(done: nat, applied: bool)

  predicate FailureOf(plain: seq<Entry>, failure: Option<Failure>) {
    failure.Some? ==> failure.value.done <= |plain|
  }

  /** Where a Save stops. The put after the last file is that of the metadata. */
  function PointAt(plain: seq<Entry>, failure: Option<Failure>): (point: Point)
    requires FailureOf(plain, failure)
    ensures PointOf(plain, point)
  {
    match failure
    case None => Finished
    case Some(f) => if !f.applied then Copied(f.done) else if f.done < |plain| then Copied(f.done + 1) else Finished
  }

  lemma SavedIsThere(a: Snapshots, meta: SnapshotMeta, src: seq<Entry>, marshal: SnapshotMeta -> seq<bv8>)
    requires IsDirListing(src)
    ensures var id, plain := meta.Id(), PlainFiles(src);
      var before: Files := if id in a then a[id] else map[];
      var now := With(a, id, FilesAt(before, plain, MetaFile(marshal, meta, plain), Finished));
      id in now && IsSaved(now[id], src, meta, marshal, id !in a)
  {
    var plain := PlainFiles(src);
    var before: Files := if meta.Id() in a then a[meta.Id()] else map[];
    hide PlainFiles, FilesAt;
    FinishedIsSaved(before, src, meta, marshal);
    FinishedHasMeta(before, plain, MetaFile(marshal, meta, plain));
  }

  /** What a request that fails, if one does, leaves behind. */
  function Left(left: Option<set<string>>): set<string> {
    match left
    case None => {}
    case Some(names) => names
  }

  class S3Backend {
    const bucketPrefix: string // cfg.Prefix
    const marshal: SnapshotMeta -> seq<bv8> // json.MarshalIndent
    var objects: Objects

    constructor (bucketPrefix: string, marshal: SnapshotMeta -> seq<bv8>)
      ensures Valid() && Abstract() == imap[] && this.bucketPrefix == bucketPrefix && this.marshal == marshal
    {
      this.bucketPrefix, this.marshal, objects := bucketPrefix, marshal, map[];
    }

    ghost function Abstract(): Snapshots
      reads this
    {
      Abstraction(bucketPrefix, objects)
    }

    ghost predicate Valid()
      reads this
    {
      Kept(bucketPrefix, objects)
    }

    /**
     Uploads the plain files and then meta.json, until a put reports a failure or the source cannot be read.
     Whatever it reports, a put leaves the old object or the new one.
     */
    method Save(src: seq<Entry>, meta: SnapshotMeta, failure: Option<Failure>) returns (r: Result<()>)
      requires IsDirListing(src) && FailureOf(PlainFiles(src), failure)
      modifies this
      ensures r.Ok? <==> failure.None?
      ensures var prefix, plain := SnapPrefix(bucketPrefix, meta.Id()), PlainFiles(src);
        && SameOutside(old(objects), objects, prefix)
        && FilesUnder(objects, prefix)
           == FilesAt(FilesUnder(old(objects), prefix), plain, MetaFile(marshal, meta, plain), PointAt(plain, failure))
      ensures var prefix := SnapPrefix(bucketPrefix, meta.Id());
        && (FlatNames(FilesUnder(old(objects), prefix)) ==> FlatNames(FilesUnder(objects, prefix)))
        && (r.Ok? ==>
              IsSaved(FilesUnder(objects, prefix), src, meta, marshal, FilesUnder(old(objects), prefix) == map[]))
      ensures r.Ok? && meta.Id().Plain() ==>
                && meta.Id() in Abstract()
                && IsSaved(Abstract()[meta.Id()], src, meta, marshal, meta.Id() !in old(Abstract()))
      ensures meta.Id().Plain() ==>
                var id, was, plain := meta.Id(), old(Abstract()), PlainFiles(src);
                Abstract() == With(was, id, FilesAt(if id in was then was[id] else map[], plain,
                                                    MetaFile(marshal, meta, plain), PointAt(plain, failure)))
      ensures old(Valid()) && (PointAt(PlainFiles(src), failure).Finished? || NoReadableMeta(PlainFiles(src))) ==>
                Valid()
    {
      hide IsSaved, FlatNames, With, SameOutside, FilesUnder, PlainFiles, Abstraction, Kept, SnapPrefix, FilesAt;
      ghost var was, plain := objects, PlainFiles(src);
      r := SaveFiles(SnapPrefix(bucketPrefix, meta.Id()), src, meta, failure);
      PlainFilesAreEntries(src);
      ghost var before := FilesUnder(was, SnapPrefix(bucketPrefix, meta.Id()));
      FinishedIsSaved(before, src, meta, marshal);
      if FlatNames(before) {
        SaveKeepsFlatNames(before, plain, MetaFile(marshal, meta, plain), PointAt(plain, failure));
      }
      if meta.Id().Plain() {
        Settle(was, meta.Id(), plain, MetaFile(marshal, meta, plain), PointAt(plain, failure));
        SavedIsThere(Abstraction(bucketPrefix, was), meta, src, marshal);
      } else if Kept(bucketPrefix, was) {
        SlashedWriteKeeps(bucketPrefix, was, objects, meta.Id());
      }
    }

    method SaveFiles(prefix: string, src: seq<Entry>, meta: SnapshotMeta, failure: Option<Failure>)
      returns (r: Result<()>)
      requires IsDirListing(src) && FailureOf(PlainFiles(src), failure)
      modifies this
      ensures r.Ok? <==> failure.None?
      ensures SameOutside(old(objects), objects, prefix)
      ensures var plain := PlainFiles(src);
        FilesUnder(objects, prefix)
        == FilesAt(FilesUnder(old(objects), prefix), plain, MetaFile(marshal, meta, plain), PointAt(plain, failure))
    {
      ghost var plain := PlainFiles(src);
      hide PlainFiles, Overlay, TotalBytes, FilesUnder, SameOutside;
      var totalBytes, done := UploadFiles(prefix, src, failure);
      assert plain[..|plain|] == plain;
      if !done {
        return Err(CopyFailed);
      }
      var m := meta.(sizeBytes := totalBytes);
      if failure.None? || failure.value.applied {
        Put(old(objects), prefix, META, File(marshal(m), Some(m)));
      }
      return if failure.Some? then Err(MetaFailed) else Ok(());
    }

    method Put(ghost was: Objects, prefix: string, filename: string, file: File)
      requires SameOutside(was, objects, prefix)
      modifies this
      ensures SameOutside(was, objects, prefix)
      ensures FilesUnder(objects, prefix) == FilesUnder(old(objects), prefix)[filename := file]
    {
      PutUnder(objects, prefix, filename, file);
      objects := objects[prefix + filename := file];
    }

    /** So far exactly the files of `sent` have been written over `before`, and nothing outside the prefix. */
    ghost predicate Uploaded(was: Objects, prefix: string, sent: seq<Entry>, totalBytes: nat)
      reads this
    {
      && SameOutside(was, objects, prefix)
      && FilesUnder(objects, prefix) == Overlay(FilesUnder(was, prefix), sent)
      && totalBytes == TotalBytes(sent)
    }

    lemma NothingUploaded(prefix: string, src: seq<Entry>)
      ensures Uploaded(objects, prefix, [], 0) && PlainFiles(src[..0]) == []
    {
    }

    method UploadNext(prefix: string, e: Entry, totalBytes: nat, ghost was: Objects, ghost sent: seq<Entry>)
      returns (newTotal: nat)
      requires Uploaded(was, prefix, sent, totalBytes)
      modifies this
      ensures Uploaded(was, prefix, sent + [e], newTotal)
    {
      OverlayOne(FilesUnder(was, prefix), sent, e);
      Put(was, prefix, e.name, e.file);
      newTotal := totalBytes + |e.file.bytes|;
    }

    /** A failed put ends the loop, whether it took effect or not; the last one is that of the metadata. */
    method UploadFiles(prefix: string, src: seq<Entry>, failure: Option<Failure>)
      returns (totalBytes: nat, done: bool)
      requires IsDirListing(src) && FailureOf(PlainFiles(src), failure)
      modifies this
      ensures done <==> failure.None? || failure.value.done == |PlainFiles(src)|
      ensures done ==> Uploaded(old(objects), prefix, PlainFiles(src), totalBytes)
      ensures !done ==>
                var sent := PlainFiles(src)[..PointAt(PlainFiles(src), failure).k];
                Uploaded(old(objects), prefix, sent, TotalBytes(sent))
    {
      hide PlainFiles, Uploaded, TotalBytes;
      var uploaded := 0;
      totalBytes := 0;
      ghost var sent, was := [], objects;
      NothingUploaded(prefix, src);
      for i := 0 to |src|
        invariant sent == PlainFiles(src[..i]) && uploaded == |sent|
        invariant Uploaded(was, prefix, sent, totalBytes)
        invariant failure.Some? ==> uploaded <= failure.value.done
      {
        NextPlainFile(src, i);
        if src[i].isDir { continue; }
        UploadedBytes(was, prefix, sent, totalBytes);
        if failure.Some? && failure.value.done == uploaded {
          if failure.value.applied {
            var total := UploadNext(prefix, src[i], totalBytes, was, sent);
            UploadedBytes(was, prefix, sent + [src[i]], total);
          }
          assert PlainFiles(src)[..uploaded] == sent;
          return totalBytes, false;
        }
        totalBytes := UploadNext(prefix, src[i], totalBytes, was, sent);
        uploaded := uploaded + 1;
        sent := sent + [src[i]];
      }
      assert src[..|src|] == src;
      done := true;
    }

    lemma UploadedBytes(was: Objects, prefix: string, sent: seq<Entry>, totalBytes: nat)
      requires Uploaded(was, prefix, sent, totalBytes)
      ensures totalBytes == TotalBytes(sent)
    {}

    lemma Settle(was: Objects, id: SnapId, plain: seq<Entry>, metaFile: File, stop: Point)
      requires id.Plain() && IsDirListing(plain) && PointOf(plain, stop) && !stop.Copying?
      requires metaFile.decoded.Some? && metaFile.decoded.value.Id() == id
      requires SameOutside(was, objects, SnapPrefix(bucketPrefix, id))
      requires FilesUnder(objects, SnapPrefix(bucketPrefix, id))
               == FilesAt(FilesUnder(was, SnapPrefix(bucketPrefix, id)), plain, metaFile, stop)
      ensures var a := Abstraction(bucketPrefix, was);
        Abstract() == With(a, id, FilesAt(if id in a then a[id] else map[], plain, metaFile, stop))
      ensures Kept(bucketPrefix, was) && (stop.Finished? || NoReadableMeta(plain)) ==> Valid()
    {
      var before := FilesUnder(was, SnapPrefix(bucketPrefix, id));
      var files := FilesAt(before, plain, metaFile, stop);
      WriteRefines(bucketPrefix, was, objects, id, files);
      if Kept(bucketPrefix, was) && (stop.Finished? || NoReadableMeta(plain)) {
        KeptIsFaithful(bucketPrefix, was);
        if !stop.Finished? {
          MetaSurvives(before, plain, metaFile, stop);
          if HasMeta(files) { assert Committed(Abstraction(bucketPrefix, was), id); }
        }
        WriteKeeps(bucketPrefix, was, objects, id);
      }
    }

    /** The snapshots that List passes over because it fails to fetch one of the metadata objects in `unread`. */
    ghost function Skipped(unread: set<string>): iset<SnapId> {
      iset id: SnapId | SnapPrefix(bucketPrefix, id) + META in unread
    }

    /** `listable` says whether the listing requests succeed; the metadata objects in `unread` cannot be fetched. */
    method List(jobKey: string, listable: bool, unread: set<string>) returns (r: Result<seq<SnapshotMeta>>)
      requires Valid()
      ensures match SplitJobKey(jobKey)
        case None => r == Err(InvalidJobKey)
        case Some(parts) =>
          if !listable then r == Err(ListFailed)
          else r.Ok? && ('/' !in parts.1 ==>
            IsListing(r.value, Visible(Abstract(), Skipped(unread)), parts.0, parts.1))
    {
      hide JobPrefix, IsListing, Visible, SortBySeq, Collected, Kept, Abstraction;
      var parts := SplitJobKey(jobKey);
      if parts.None? {
        return Err(InvalidJobKey);
      }
      if !listable {
        return Err(ListFailed);
      }
      var (ns, job) := parts.value;
      SplitIsPlain(jobKey);
      var prefix := JobPrefix(bucketPrefix, ns, job);
      var dirs := Dirs(objects, prefix);
      var todo := dirs;
      var metas: seq<SnapshotMeta> := [];
      NoneCollected(prefix, unread, ns, job);
      assert dirs - todo == {};
      while todo != {}
        invariant todo <= dirs
        invariant '/' !in job ==> Collected(metas, prefix, dirs - todo, unread, ns, job)
      {
        var dir :| dir in todo;
        ghost var visited := dirs - todo;
        todo := todo - {dir};
        var metaKey := prefix + dir + "/" + META;
        if '/' !in job { CollectOne(metas, prefix, visited, unread, ns, job, dir); }
        if metaKey in objects && metaKey !in unread && objects[metaKey].decoded.Some? {
          metas := metas + [objects[metaKey].decoded.value];
        }
        assert dirs - todo == visited + {dir};
      }
      if '/' !in job {
        assert dirs - {} == dirs;
        ListingCollected(metas, prefix, dirs, unread, ns, job);
      }
      return Ok(SortBySeq(metas));
    }

    /** `metas` are the metadata, one each, of the visited directories where they can be read. */
    ghost predicate Collected(metas: seq<SnapshotMeta>, prefix: string, visited: set<string>, unread: set<string>,
                              ns: string, job: string)
      reads this
    {
      && (forall m :: m in metas ==>
            var key := prefix + CkptName(m.seqNo) + "/" + META;
            && CkptName(m.seqNo) in visited && OfJob(m.Id(), ns, job)
            && key !in unread && key in objects && objects[key].decoded == Some(m))
      && (forall d :: d in visited ==>
            var key := prefix + d + "/" + META;
            key !in unread && key in objects && objects[key].decoded.Some? ==> objects[key].decoded.value in metas)
      && (forall i, j :: 0 <= i < j < |metas| ==> metas[i].seqNo != metas[j].seqNo)
    }

    lemma NoneCollected(prefix: string, unread: set<string>, ns: string, job: string)
      ensures Collected([], prefix, {}, unread, ns, job)
    {}

    lemma CollectOne(metas: seq<SnapshotMeta>, prefix: string, visited: set<string>, unread: set<string>,
                     ns: string, job: string, dir: string)
      requires Valid() && prefix == JobPrefix(bucketPrefix, ns, job) && '/' !in ns && '/' !in job && '/' !in dir
      requires Collected(metas, prefix, visited, unread, ns, job) && dir !in visited
      ensures var key := prefix + dir + "/" + META;
        if key !in unread && key in objects && objects[key].decoded.Some?
        then Collected(metas + [objects[key].decoded.value], prefix, visited + {dir}, unread, ns, job)
        else Collected(metas, prefix, visited + {dir}, unread, ns, job)
    {
      hide JobPrefix, CkptName;
      var key := prefix + dir + "/" + META;
      if key !in unread && key in objects && objects[key].decoded.Some? {
        var m := objects[key].decoded.value;
        assert OfJob(m.Id(), ns, job) && dir == CkptName(m.seqNo);
        forall i | 0 <= i < |metas| ensures metas[i].seqNo != m.seqNo {
          assert metas[i] in metas;
        }
      }
    }

    lemma ListingCollected(metas: seq<SnapshotMeta>, prefix: string, dirs: set<string>, unread: set<string>,
                           ns: string, job: string)
      requires Valid() && prefix == JobPrefix(bucketPrefix, ns, job) && '/' !in ns && '/' !in job
      requires Collected(metas, prefix, dirs, unread, ns, job) && dirs == Dirs(objects, prefix)
      ensures IsListing(SortBySeq(metas), Visible(Abstract(), Skipped(unread)), ns, job)
    {
      hide Committed, MetaOf, SortBySeq, Ascending, Abstraction, Kept, SnapPrefix, JobPrefix, Dirs, Visible, OfJob;
      var a := Visible(Abstract(), Skipped(unread));
      SortIsAscending(metas);
      hide Collected;
      forall m | m in SortBySeq(metas)
        ensures OfJob(m.Id(), ns, job) && Committed(a, m.Id()) && MetaOf(a, m.Id()) == m
      {
        CollectedIsVisible(metas, prefix, dirs, unread, ns, job, m);
      }
      forall id | OfJob(id, ns, job) && Committed(a, id) ensures MetaOf(a, id) in SortBySeq(metas) {
        VisibleIsCollected(metas, prefix, dirs, unread, ns, job, id);
      }
    }

    lemma MetaKey(id: SnapId, ns: string, job: string)
      ensures OfJob(id, ns, job) ==>
        SnapPrefix(bucketPrefix, id) + META == JobPrefix(bucketPrefix, ns, job) + CkptName(id.seqNo) + "/" + META
    {}

    lemma CollectedIsVisible(metas: seq<SnapshotMeta>, prefix: string, dirs: set<string>, unread: set<string>,
                             ns: string, job: string, m: SnapshotMeta)
      requires prefix == JobPrefix(bucketPrefix, ns, job) && '/' !in ns && '/' !in job
      requires Collected(metas, prefix, dirs, unread, ns, job) && m in metas
      ensures var a := Visible(Abstract(), Skipped(unread));
        OfJob(m.Id(), ns, job) && Committed(a, m.Id()) && MetaOf(a, m.Id()) == m
    {
      CommittedIs(bucketPrefix, objects, m.Id());
      VisibleCommitted(Abstract(), Skipped(unread), m.Id());
      MetaKey(m.Id(), ns, job);
      hide Abstraction, SnapPrefix, JobPrefix, CkptName, Committed, MetaOf, Visible;
    }

    lemma VisibleIsCollected(metas: seq<SnapshotMeta>, prefix: string, dirs: set<string>, unread: set<string>,
                             ns: string, job: string, id: SnapId)
      requires prefix == JobPrefix(bucketPrefix, ns, job) && '/' !in ns && '/' !in job
      requires Collected(metas, prefix, dirs, unread, ns, job) && dirs == Dirs(objects, prefix)
      requires OfJob(id, ns, job) && Committed(Visible(Abstract(), Skipped(unread)), id)
      ensures MetaOf(Visible(Abstract(), Skipped(unread)), id) in metas
    {
      hide Abstraction, SnapPrefix, JobPrefix, CkptName, Committed, MetaOf, Visible;
      CkptNameIsPlain(id.seqNo);
      CommittedIs(bucketPrefix, objects, id);
      VisibleCommitted(Abstract(), Skipped(unread), id);
      MetaKey(id, ns, job);
    }

    /**
     Needs readable metadata; `opens` says whether it can be fetched and the objects listed, `stop` where the
     downloads stop.
     */
    method Load(meta: SnapshotMeta, dst: Files, opens: bool, stop: Option<Interruption>)
      returns (r: Result<()>, out: Files)
      ensures var files := FilesUnder(objects, SnapPrefix(bucketPrefix, meta.Id()));
        if !opens || !HasMeta(files) then r == Err(NotFound) && out == dst
        else FlatNames(files) ==>
          var names := files.Keys - {META};
          && (r.Ok? <==> stop.None? || stop.value.k >= |names|)
          && (r.Ok? ==> out == dst + Restrict(files, names))
          && (r.Err? ==> PartlyCopied(files, names, dst, stop.value, out))
      ensures meta.Id().Plain() ==>
                var files := FilesUnder(objects, SnapPrefix(bucketPrefix, meta.Id()));
                && (Committed(Abstract(), meta.Id()) <==> HasMeta(files))
                && (HasMeta(files) ==> Abstract()[meta.Id()] == files)
    {
      hide SnapPrefix;
      var prefix := SnapPrefix(bucketPrefix, meta.Id());
      CommittedInView(View(bucketPrefix, objects), meta.Id());
      PrefixIsDir(bucketPrefix, meta.Id());
      if !opens || prefix + META !in objects || objects[prefix + META].decoded.None? {
        return Err(NotFound), dst;
      }
      var done, loaded := DownloadFiles(prefix, dst, stop);
      return if done then Ok(()) else Err(CopyFailed), loaded;
    }

    method DownloadFiles(prefix: string, dst: Files, stop: Option<Interruption>) returns (done: bool, out: Files)
      requires exists dir: string :: prefix == dir + "/"
      ensures var files := FilesUnder(objects, prefix);
        FlatNames(files) ==>
          var names := files.Keys - {META};
          && (done <==> stop.None? || stop.value.k >= |names|)
          && (done ==> out == dst + Restrict(files, names))
          && (!done ==> PartlyCopied(files, names, dst, stop.value, out))
    {
      hide FilesUnder, AfterLastSlash, Restrict;
      UnderPrefix(objects, prefix);
      var todo := set k | k in objects && prefix <= k;
      ghost var files := FilesUnder(objects, prefix);
      ghost var flat, names := FlatNames(files), files.Keys - {META};
      ghost var copied: set<string> := {};
      var n := 0;
      out := dst;
      while todo != {}
        invariant todo <= objects.Keys && forall k :: k in todo ==> prefix <= k
        invariant flat ==> n == |copied| && out == dst + Restrict(files, copied) && (stop.Some? ==> n <= stop.value.k)
        invariant forall f :: f in copied <==> f in names && prefix + f !in todo
      {
        var key :| key in todo;
        var filename := AfterLastSlash(key);
        ghost var f := key[|prefix|..];
        KeyIsPrefixed(prefix, key);
        assert f in files && f !in copied;
        if flat { KeyNamesFile(prefix, f); }
        if filename != META {
          if stop.Some? && stop.value.k == n {
            if flat { StoppedShort(files, names, copied, f); }
            if stop.value.Within? {
              out := out[filename := File(stop.value.written, None)];
            }
            return false, out;
          }
          if flat { CopyOneMore(files, copied, dst, f); }
          out := out[filename := objects[key]];
          n := n + 1;
        }
        if f != META { copied := copied + {f}; }
        todo := todo - {key};
      }
      assert copied == names;
      done := true;
    }

    lemma StoppedShort(files: Files, names: set<string>, copied: set<string>, f: string)
      requires copied <= names && f in names && f !in copied
      ensures copied < names && f in names - copied && |copied| < |names|
    {
      assert |names| == |copied| + |names - copied|;
    }

    /** `left` names the objects that a failing request leaves behind; there may be none. */
    method Delete(meta: SnapshotMeta, left: Option<set<string>>) returns (r: Result<()>)
      requires Valid()
      modifies this
      ensures Valid()
      ensures r == if left.None? then Ok(()) else Err(DeleteFailed)
      ensures var prefix := SnapPrefix(bucketPrefix, meta.Id());
        && SameOutside(old(objects), objects, prefix)
        && FilesUnder(objects, prefix) == Restrict(FilesUnder(old(objects), prefix), Left(left))
      ensures meta.Id().Plain() ==>
                var was, id := old(Abstract()), meta.Id();
                Abstract() == if id in was then With(was, id, Restrict(was[id], Left(left))) else was
    {
      hide SnapPrefix, Kept, Abstraction, FilesUnder, SameOutside, Restrict;
      ghost var was := objects;
      DeleteObjects(SnapPrefix(bucketPrefix, meta.Id()), Left(left));
      if meta.Id().Plain() {
        DeleteRefines(bucketPrefix, was, objects, meta.Id(), Left(left));
      } else {
        SlashedWriteKeeps(bucketPrefix, was, objects, meta.Id());
      }
      r := if left.None? then Ok(()) else Err(DeleteFailed);
    }

    /** Deletes the objects under a prefix one by one, in any order, until only those in `left` remain. */
    method DeleteObjects(prefix: string, left: set<string>)
      modifies this
      ensures SameOutside(old(objects), objects, prefix)
      ensures FilesUnder(objects, prefix) == Restrict(FilesUnder(old(objects), prefix), left)
    {
      var todo := set k | k in objects && prefix <= k && k[|prefix|..] !in left;
      ghost var listed := todo;
      while todo != {}
        invariant todo <= listed
        invariant objects == old(objects) - (listed - todo)
      {
        var key :| key in todo;
        objects := objects - {key};
        todo := todo - {key};
      }
      assert listed - {} == listed;
      assert forall f {:trigger prefix + f} :: (prefix + f)[|prefix|..] == f;
    }

    /** Deletes one snapshot of the job; a failure takes it out of the listing if it takes its metadata. */
    method DeleteListed(ghost was: Snapshots, ghost gone: seq<SnapshotMeta>, m: SnapshotMeta, left: Option<set<string>>,
                        ghost ns: string, ghost job: string)
      returns (r: Result<()>, ghost taken: bool)
      requires Valid()
      requires '/' !in ns && '/' !in job ==>
                 PrunedBy(was, Abstract(), gone, ns, job) && OfJob(m.Id(), ns, job) && m.Id() in Abstract()
      modifies this
      ensures Valid() && (r.Ok? ==> taken) && (r.Err? ==> left.Some? && r == Err(DeleteFailed))
      ensures '/' !in ns && '/' !in job ==> PrunedBy(was, Abstract(), if taken then gone + [m] else gone, ns, job)
    {
      taken := left.None? || META !in left.value;
      if '/' !in ns && '/' !in job {
        DeletedIsPruned(was, Abstract(), gone, m, left, ns, job);
        if Restrict(Abstract()[m.Id()], Left(left)) == map[] { taken := true; }
      }
      hide Kept, Abstraction, SnapPrefix, FilesUnder, SameOutside, PrunedBy, Restrict;
      r := Delete(m, left);
    }

    /** The loop over the snapshots to delete. */
    method DeleteHead(ghost was: Snapshots, ghost skipped: iset<SnapId>, metas: seq<SnapshotMeta>, keep: nat,
                      failAt: Option<nat>, left: set<string>, ghost ns: string, ghost job: string)
      returns (r: Result<()>, ghost k: nat)
      requires Valid() && keep <= |metas|
      requires '/' !in ns && '/' !in job ==>
                 IsListing(metas, Visible(was, skipped), ns, job) && PrunedBy(was, Abstract(), [], ns, job)
      modifies this
      ensures Valid() && k <= |metas| - keep && (r.Ok? ==> k == |metas| - keep)
      ensures r.Err? ==> failAt.Some? && r == Err(DeleteFailed)
      ensures '/' !in ns && '/' !in job ==> PrunedBy(was, Abstract(), metas[..k], ns, job)
    {
      hide Kept, Abstraction, SnapPrefix, PrunedBy, Visible, IsListing;
      assert metas[..0] == [];
      for i := 0 to |metas| - keep
        invariant Valid() && ('/' !in ns && '/' !in job ==> PrunedBy(was, Abstract(), metas[..i], ns, job))
      {
        assert metas[..i + 1] == metas[..i] + [metas[i]];
        if '/' !in ns && '/' !in job { ListedIsThere(was, Abstract(), skipped, metas, i, ns, job); }
        ghost var taken;
        r, taken := DeleteListed(was, metas[..i], metas[i], if failAt == Some(i) then Some(left) else None, ns, job);
        if r.Err? {
          return r, if taken then i + 1 else i;
        }
      }
      return Ok(()), |metas| - keep;
    }

    /**
     `failAt` is the deletion that fails, if one does, and `left` what it leaves behind; `unread` is what the listing
     passes over. Whatever happens the newest `keep` survive, and the survivors are the newest part of the job's
     snapshots exactly when nothing passed over is older than something deleted.
     */
    method Prune(jobKey: string, keep: nat, listable: bool, unread: set<string>, failAt: Option<nat>, left: set<string>)
      returns (r: Result<()>, ghost listed: seq<SnapshotMeta>, ghost k: nat)
      requires Valid()
      modifies this
      ensures Valid() && k + Least(|listed|, keep) <= |listed|
      ensures SplitJobKey(jobKey).None? ==> r == Err(InvalidJobKey) && objects == old(objects)
      ensures r.Err? ==> SplitJobKey(jobKey).None? || (!listable && r == Err(ListFailed)) || failAt.Some?
      ensures forall parts :: SplitJobKey(jobKey) == Some(parts) && '/' !in parts.1 ==>
                if r == Err(ListFailed) then !listable && objects == old(objects)
                else
                  && IsListing(listed, Visible(old(Abstract()), Skipped(unread)), parts.0, parts.1)
                  && PrunedBy(old(Abstract()), Abstract(), listed[..k], parts.0, parts.1)
                  && (r.Ok? ==> k + Least(|listed|, keep) == |listed|)
                  && (|listed| <= keep ==> r.Ok? && objects == old(objects))
                  && forall full :: IsListing(full, old(Abstract()), parts.0, parts.1) ==>
                       PruneIsRight(full, listed, k, keep, Abstract(), parts.0, parts.1)
    {
      ghost var was := Abstract();
      r, listed, k := PruneListed(jobKey, keep, listable, unread, failAt, left);
      hide Kept, Abstraction, SnapPrefix, SplitJobKey, PruneIsRight, PrunedBy, Visible, IsListing;
      var parts := SplitJobKey(jobKey);
      SplitIsPlain(jobKey);
      if parts.Some? && '/' !in parts.value.1 && r != Err(ListFailed) {
        var (ns, job) := parts.value;
        forall full | IsListing(full, was, ns, job) ensures PruneIsRight(full, listed, k, keep, Abstract(), ns, job) {
          PruneMeans(was, Abstract(), Skipped(unread), full, listed, k, keep, ns, job);
        }
      }
    }

    method PruneListed(jobKey: string, keep: nat, listable: bool, unread: set<string>, failAt: Option<nat>,
                       left: set<string>)
      returns (r: Result<()>, ghost listed: seq<SnapshotMeta>, ghost k: nat)
      requires Valid()
      modifies this
      ensures Valid() && k + Least(|listed|, keep) <= |listed|
      ensures SplitJobKey(jobKey).None? ==> r == Err(InvalidJobKey) && objects == old(objects)
      ensures r.Err? ==> SplitJobKey(jobKey).None? || (!listable && r == Err(ListFailed)) || failAt.Some?
      ensures forall parts :: SplitJobKey(jobKey) == Some(parts) && '/' !in parts.1 ==>
                if r == Err(ListFailed) then !listable && objects == old(objects)
                else
                  && IsListing(listed, Visible(old(Abstract()), Skipped(unread)), parts.0, parts.1)
                  && PrunedBy(old(Abstract()), Abstract(), listed[..k], parts.0, parts.1)
                  && (r.Ok? ==> k + Least(|listed|, keep) == |listed|)
                  && (|listed| <= keep ==> r.Ok? && objects == old(objects))
    {
      hide Kept, Abstraction, SnapPrefix, SplitJobKey, IsListing, Faithful, PrunedBy, Visible;
      listed, k := [], 0;
      var found := List(jobKey, listable, unread);
      if found.Err? {
        return Err(found.error), listed, k;
      }
      var metas := found.value;
      var parts := SplitJobKey(jobKey).value;
      SplitIsPlain(jobKey);
      listed := metas;
      assert metas[..0] == [];
      KeptIsFaithful(bucketPrefix, objects);
      PruneNone(Abstract(), parts.0, parts.1);
      if |metas| <= keep {
        return Ok(()), listed, k;
      }
      r, k := DeleteHead(Abstract(), Skipped(unread), metas, keep, failAt, left, parts.0, parts.1);
    }

    /** Two Prunes to the same number, the first of which succeeded. */
    method PruneTwice(jobKey: string, keep: nat, unread: set<string>, failAt: Option<nat>, left: set<string>,
                      listable: bool, unreadAgain: set<string>, failAgainAt: Option<nat>, leftAgain: set<string>)
      returns (r: Result<()>, q: Result<()>, ghost once: Objects, ghost listed: seq<SnapshotMeta>,
               ghost second: seq<SnapshotMeta>)
      requires Valid()
      modifies this
      ensures Valid()
      ensures forall parts :: SplitJobKey(jobKey) == Some(parts) && '/' !in parts.1 && r.Ok? ==>
                if q == Err(ListFailed) then !listable && objects == once
                else
                  && (|second| <= keep ==> objects == once)
                  && (|second| > keep && failAgainAt.None? ==> objects != once)
                  && PruningAgainIsRight(old(Abstract()), Abstraction(bucketPrefix, once), Skipped(unread),
                                         Skipped(unreadAgain), listed, second, keep, parts.0, parts.1)
    {
      hide Kept, Abstraction, SnapPrefix, SplitJobKey, IsListing, PrunedBy, Visible, PruningAgainIsRight;
      ghost var was, k, k2 := Abstract(), 0, 0;
      r, listed, k := PruneListed(jobKey, keep, true, unread, failAt, left);
      once := objects;
      q, second, k2 := PruneListed(jobKey, keep, listable, unreadAgain, failAgainAt, leftAgain);
      var parts := SplitJobKey(jobKey);
      SplitIsPlain(jobKey);
      if parts.Some? && '/' !in parts.value.1 && r.Ok? && q != Err(ListFailed) {
        ghost var (ns, job) := parts.value;
        ghost var between := Abstraction(bucketPrefix, once);
        PruningAgain(was, between, Skipped(unread), Skipped(unreadAgain), listed, second, keep, ns, job);
        if |second| > keep && failAgainAt.None? {
          DeletingChanges(between, Abstract(), Skipped(unreadAgain), second, k2, ns, job);
        }
      }
    }

    /** What is saved is listed and loaded. */
    method SaveAndRead(src: seq<Entry>, meta: SnapshotMeta)
      returns (listed: Result<seq<SnapshotMeta>>, loaded: Result<()>, out: Files)
      requires Valid() && IsDirListing(src) && meta.Id().Plain()
      requires FlatNames(FilesUnder(objects, SnapPrefix(bucketPrefix, meta.Id())))
      modifies this
      ensures Valid() && listed.Ok? && meta.(sizeBytes := TotalBytes(PlainFiles(src))) in listed.value
      ensures loaded.Ok? && IsLoaded(out, src, FilesUnder(old(objects), SnapPrefix(bucketPrefix, meta.Id())) == map[])
    {
      hide Kept, Abstraction, SnapPrefix, SplitJobKey, With, FilesUnder, SameOutside, MetaFile, FlatNames;
      hide PlainFiles, Visible, IsListing, IsLoaded, IsSaved, FilesAt, Restrict;
      ghost var was := Abstract();
      ghost var wasEmpty := FilesUnder(objects, SnapPrefix(bucketPrefix, meta.Id())) == map[];
      var saved := Save(src, meta, None);
      JobKeyRoundTrip(meta.namespace, meta.jobName);
      listed := List(JobKey(meta.namespace, meta.jobName), true, {});
      NothingSkipped(Abstract(), Skipped({}));
      SavedIsListed(listed.value, Abstract(), src, meta, marshal, meta.Id() !in was);
      SavedIsLoaded(FilesUnder(objects, SnapPrefix(bucketPrefix, meta.Id())), src, meta, marshal, wasEmpty);
      loaded, out := Load(meta, map[], true, None);
    }

    /** What is deleted is neither, and the rest of the job is listed as before. */
    method DeleteAndRead(meta: SnapshotMeta, ghost full: seq<SnapshotMeta>)
      returns (listed: Result<seq<SnapshotMeta>>, loaded: Result<()>, out: Files)
      requires Valid() && meta.Id().Plain() && IsListing(full, Abstract(), meta.namespace, meta.jobName)
      modifies this
      ensures Valid() && listed.Ok? && forall m :: m in listed.value <==> m in full && m.Id() != meta.Id()
      ensures loaded == Err(NotFound) && out == map[]
    {
      hide Kept, Abstraction, SnapPrefix, SplitJobKey, With, FilesUnder, SameOutside, MetaFile, FlatNames;
      hide Visible, IsListing, Restrict, PartlyCopied;
      ghost var was := Abstract();
      var deleted := Delete(meta, None);
      RestrictNone(FilesUnder(old(objects), SnapPrefix(bucketPrefix, meta.Id())));
      if meta.Id() in was { RestrictNone(was[meta.Id()]); }
      WithNone(was, meta.Id());
      JobKeyRoundTrip(meta.namespace, meta.jobName);
      listed := List(JobKey(meta.namespace, meta.jobName), true, {});
      NothingSkipped(Abstract(), Skipped({}));
      DeletedIsUnlisted(full, listed.value, was, meta, meta.namespace, meta.jobName);
      loaded, out := Load(meta, map[], true, None);
    }
  }

  lemma WithNone(a: Snapshots, id: SnapId)
    ensures With(a, id, map[]) == a - {id} && (id !in a ==> a - {id} == a)
  {}

  lemma RestrictNone(files: Files)
    ensures Restrict(files, {}) == map[]
  {}

  lemma DeletedIsPruned(was: Snapshots, now: Snapshots, gone: seq<SnapshotMeta>, m: SnapshotMeta,
                        left: Option<set<string>>, ns: string, job: string)
    requires PrunedBy(was, now, gone, ns, job) && OfJob(m.Id(), ns, job) && m.Id() in now
    ensures var rest := Restrict(now[m.Id()], Left(left));
      var taken := left.None? || META !in left.value || rest == map[];
      PrunedBy(was, With(now, m.Id(), rest), if taken then gone + [m] else gone, ns, job)
  {
    hide PrunedBy;
    PruneOneMore(was, now, gone, m, ns, job);
    if left.Some? { PruneOneHalf(was, now, gone, m, ns, job, left.value); }
  }

  lemma PrefixIsDir(bp: string, id: SnapId)
    ensures exists dir: string :: SnapPrefix(bp, id) == dir + "/"
  {
    assert SnapPrefix(bp, id) == (JobPrefix(bp, id.namespace, id.jobName) + CkptName(id.seqNo)) + "/";
  }

  lemma UnderPrefix(objects: Objects, prefix: string)
    ensures var files := FilesUnder(objects, prefix);
      && (forall f :: f in files <==> prefix + f in objects)
      && (forall f :: f in files ==> files[f] == objects[prefix + f])
      && forall dst: Files :: dst + Restrict(files, {}) == dst
  {}

  /** A key under a prefix is the prefix and one file name. */
  lemma KeyIsPrefixed(prefix: string, key: string)
    requires prefix <= key
    ensures forall g :: prefix + g == key <==> g == key[|prefix|..]
  {
    forall g | prefix + g == key ensures g == key[|prefix|..] { assert (prefix + g)[|prefix|..] == g; }
  }

  lemma KeyNamesFile(prefix: string, f: string)
    requires (exists dir: string :: prefix == dir + "/") && '/' !in f
    ensures AfterLastSlash(prefix + f) == f
  {
    var dir: string :| prefix == dir + "/";
    BaseOfKey(dir, f);
  }

  lemma CommittedIs(bp: string, objects: Objects, id: SnapId)
    requires id.Plain()
    ensures var a := Abstraction(bp, objects);
      var key := JobPrefix(bp, id.namespace, id.jobName) + CkptName(id.seqNo) + "/" + META;
      && (Committed(a, id) <==> key in objects && objects[key].decoded.Some?)
      && (Committed(a, id) ==> objects[key].decoded.value == MetaOf(a, id))
  {
    CommittedInView(View(bp, objects), id);
    assert View(bp, objects)(id) == FilesUnder(objects, SnapPrefix(bp, id));
  }

  lemma CommittedInView(view: SnapId -> Files, id: SnapId)
    ensures Committed(Present(view), id) <==> HasMeta(view(id))
    ensures HasMeta(view(id)) ==> MetaOf(Present(view), id) == view(id)[META].decoded.value
  {}

  lemma SplitIsPlain(jobKey: string)
    ensures SplitJobKey(jobKey).Some? ==> '/' !in SplitJobKey(jobKey).value.0
  {}
}
