/**
 What both snapshot stores are meant to be: one map from (namespace, job, sequence number) to the files of
 a snapshot. A snapshot is committed once its meta.json can be read.
 */
module Storage {
  datatype Option<+T> = None | Some(value: T)

  datatype Error =
    | InvalidJobKey | MkdirFailed | ReadDirFailed | ListFailed | Cancelled
    | CopyFailed | MetaFailed | NotFound | DeleteFailed

  datatype Result<+T> = Ok(value: T) | Err(error: Error)

  /** `provenance` stands for the fields no operation reads: node, pod, GPU, PID, directory and times. */
  datatype SnapshotMeta = SnapshotMeta(
      namespace: string, jobName: string, seqNo: int, provenance: string, sizeBytes: nat)
  {
    function Id(): SnapId {
      SnapId(namespace, jobName, seqNo)
    }
  }

  datatype SnapId = SnapId(namespace: string, jobName: string, seqNo: int)
  {
    /** Kubernetes names have no slash. */
    predicate Plain() {
      '/' !in namespace && '/' !in jobName
    }
  }

  /** A file's bytes, and what json.Unmarshal makes of them. */
  datatype File = File(bytes: seq<bv8>, decoded: Option<SnapshotMeta>)

  type Files = map<string, File>

  type Snapshots = imap<SnapId, Files>

  const META: string := "meta.json"

  ghost predicate HasMeta(files: Files) {
    META in files && files[META].decoded.Some?
  }

  ghost predicate Committed(a: Snapshots, id: SnapId) {
    id in a && HasMeta(a[id])
  }

  ghost function MetaOf(a: Snapshots, id: SnapId): SnapshotMeta
    requires Committed(a, id)
  {
    a[id][META].decoded.value
  }

  /** Every committed snapshot says itself which one it is. */
  ghost predicate Faithful(a: Snapshots) {
    forall id :: Committed(a, id) ==> MetaOf(a, id).Id() == id
  }

  predicate Ascending(r: seq<SnapshotMeta>) {
    forall i, j :: 0 <= i < j < |r| ==> r[i].seqNo < r[j].seqNo
  }

  predicate OfJob(id: SnapId, ns: string, job: string) {
    id.namespace == ns && id.jobName == job
  }

  /** `r` is exactly the committed snapshots of the job, oldest first. */
  ghost predicate IsListing(r: seq<SnapshotMeta>, a: Snapshots, ns: string, job: string) {
    && Ascending(r)
    && (forall m :: m in r ==> OfJob(m.Id(), ns, job) && Committed(a, m.Id()) && MetaOf(a, m.Id()) == m)
    && (forall id :: OfJob(id, ns, job) && Committed(a, id) ==> MetaOf(a, id) in r)
  }

  /** The listing is determined by the snapshots. */
  lemma {:induction false} ListingIsUnique(r: seq<SnapshotMeta>, q: seq<SnapshotMeta>)
    requires Ascending(r) && Ascending(q) && forall m :: m in r <==> m in q
    ensures r == q
  {
    assert r != [] ==> r[0] in q;
    assert q != [] ==> q[0] in r;
    if r != [] {
      assert r[0] == q[0];
      forall m ensures m in r[1..] <==> m in q[1..] {
        assert m in r <==> m == r[0] || m in r[1..];
        assert m in q <==> m == q[0] || m in q[1..];
      }
      ListingIsUnique(r[1..], q[1..]);
    }
  }

  // ---------------------------------------------------------------- sorting by sequence number

  function Insert(m: SnapshotMeta, r: seq<SnapshotMeta>): (s: seq<SnapshotMeta>)
    ensures forall x :: x in s <==> x == m || x in r
  {
    if r == [] then [m]
    else if m.seqNo <= r[0].seqNo then [m] + r
    else [r[0]] + Insert(m, r[1..])
  }

  function SortBySeq(metas: seq<SnapshotMeta>): (s: seq<SnapshotMeta>)
    ensures forall x :: x in s <==> x in metas
  {
    if metas == [] then [] else Insert(metas[0], SortBySeq(metas[1..]))
  }

  lemma {:induction false} InsertKeepsAscending(m: SnapshotMeta, r: seq<SnapshotMeta>)
    requires Ascending(r) && forall x :: x in r ==> x.seqNo != m.seqNo
    ensures Ascending(Insert(m, r))
  {
    if r != [] && m.seqNo > r[0].seqNo {
      InsertKeepsAscending(m, r[1..]);
      var rest := Insert(m, r[1..]);
      forall k | 0 <= k < |rest| ensures r[0].seqNo < rest[k].seqNo {
        assert rest[k] in rest;
        assert rest[k] == m || rest[k] in r[1..];
      }
    }
  }

  lemma {:induction false} SortIsAscending(metas: seq<SnapshotMeta>)
    requires forall i, j :: 0 <= i < j < |metas| ==> metas[i].seqNo != metas[j].seqNo
    ensures Ascending(SortBySeq(metas))
  {
    if metas != [] {
      SortIsAscending(metas[1..]);
      InsertKeepsAscending(metas[0], SortBySeq(metas[1..]));
    }
  }

  // ---------------------------------------------------------------- job keys

  /** SnapshotMeta.JobKey. */
  function JobKey(ns: string, job: string): string {
    ns + "/" + job
  }

  /** strings.SplitN(jobKey, "/", 2). */
  function SplitJobKey(jobKey: string): Option<(string, string)> {
    if jobKey == [] then None
    else if jobKey[0] == '/' then Some(([], jobKey[1..]))
    else match SplitJobKey(jobKey[1..])
      case None => None
      case Some(parts) => Some(([jobKey[0]] + parts.0, parts.1))
  }

  /** A job's key names its namespace and its job exactly when the namespace has no slash. */
  lemma {:induction false} JobKeyRoundTrip(ns: string, job: string)
    ensures SplitJobKey(JobKey(ns, job)) == Some((ns, job)) <==> '/' !in ns
    ensures SplitJobKey(JobKey(ns, job)).Some? && '/' !in SplitJobKey(JobKey(ns, job)).value.0
  {
    var key := JobKey(ns, job);
    if ns == [] {
      assert key[0] == '/' && key[1..] == job;
    } else {
      assert key[1..] == ns[1..] + "/" + job;
      JobKeyRoundTrip(ns[1..], job);
      assert ns == [ns[0]] + ns[1..];
    }
  }

  /** A key without a slash names no job. */
  lemma {:induction false} MalformedKeys(jobKey: string)
    ensures SplitJobKey(jobKey).None? <==> '/' !in jobKey
  {
    if jobKey != [] {
      MalformedKeys(jobKey[1..]);
      assert jobKey == [jobKey[0]] + jobKey[1..];
    }
  }

  // ---------------------------------------------------------------- directories to save

  datatype Entry = Entry(name: string, isDir: bool, file: File)

  /** A directory lists its entries by name, each once; a name is not empty and has no slash. */
  ghost predicate IsDirListing(src: seq<Entry>) {
    && (forall i, j :: 0 <= i < j < |src| ==> src[i].name != src[j].name)
    && (forall i :: 0 <= i < |src| ==> src[i].name != "" && '/' !in src[i].name)
  }

  function PlainFiles(src: seq<Entry>): seq<Entry> {
    if src == [] then []
    else if src[|src| - 1].isDir then PlainFiles(src[..|src| - 1])
    else PlainFiles(src[..|src| - 1]) + [src[|src| - 1]]
  }

  lemma {:induction false} PlainFilesAreEntries(src: seq<Entry>)
    requires IsDirListing(src)
    ensures IsDirListing(PlainFiles(src))
    ensures forall e :: e in PlainFiles(src) <==> e in src && !e.isDir
  {
    if src != [] {
      var front, last := src[..|src| - 1], src[|src| - 1];
      PlainFilesAreEntries(front);
      PlainFilesMembers(front);
      var plain := PlainFiles(front);
      hide PlainFiles;
      forall i | 0 <= i < |plain| ensures plain[i].name != last.name {
        assert plain[i] in front;
      }
    }
    PlainFilesMembers(src);
  }

  lemma {:induction false} PlainFilesMembers(src: seq<Entry>)
    ensures forall e :: e in PlainFiles(src) <==> e in src && !e.isDir
  {
    if src != [] {
      PlainFilesMembers(src[..|src| - 1]);
      assert src == src[..|src| - 1] + [src[|src| - 1]];
    }
  }

  /** `files` with the entries written over it, later ones last. */
  function Overlay(files: Files, entries: seq<Entry>): Files {
    if entries == [] then files
    else Overlay(files, entries[..|entries| - 1])[entries[|entries| - 1].name := entries[|entries| - 1].file]
  }

  function TotalBytes(entries: seq<Entry>): nat {
    if entries == [] then 0
    else TotalBytes(entries[..|entries| - 1]) + |entries[|entries| - 1].file.bytes|
  }

  lemma OverlayOne(files: Files, entries: seq<Entry>, e: Entry)
    ensures Overlay(files, entries + [e]) == Overlay(files, entries)[e.name := e.file]
    ensures TotalBytes(entries + [e]) == TotalBytes(entries) + |e.file.bytes|
  {
    assert (entries + [e])[..|entries|] == entries;
  }

  /** The overlay holds the new files where there are any and the old ones elsewhere. */
  lemma {:induction false} OverlayLookup(files: Files, entries: seq<Entry>)
    requires IsDirListing(entries)
    ensures forall e :: e in entries ==> e.name in Overlay(files, entries) && Overlay(files, entries)[e.name] == e.file
    ensures forall n :: (forall e :: e in entries ==> e.name != n) ==>
              (n in Overlay(files, entries) <==> n in files) && (n in files ==> Overlay(files, entries)[n] == files[n])
  {
    if entries != [] {
      var front, last := entries[..|entries| - 1], entries[|entries| - 1];
      OverlayLookup(files, front);
      assert entries == front + [last];
      forall e | e in entries ensures e.name in Overlay(files, entries) && Overlay(files, entries)[e.name] == e.file {
        if e != last { var k :| 0 <= k < |entries| && entries[k] == e; assert e in front; assert e.name != last.name; }
      }
    }
  }

  /** The bytes of two lists of files add up; a file has as many as its content is long. */
  lemma {:induction false} BytesAddUp(a: seq<Entry>, b: seq<Entry>)
    ensures TotalBytes(a + b) == TotalBytes(a) + TotalBytes(b)
    ensures forall e: Entry :: TotalBytes([e]) == |e.file.bytes|
  {
    forall e: Entry ensures TotalBytes([e]) == |e.file.bytes| {
      assert [e][..0] == [];
    }
    if b == [] {
      assert a + b == a;
    } else {
      assert (a + b)[..|a + b| - 1] == a + b[..|b| - 1];
      BytesAddUp(a, b[..|b| - 1]);
    }
  }

  lemma {:induction false} PlainFilesOfPrefix(src: seq<Entry>, i: nat)
    requires i <= |src|
    ensures PlainFiles(src[..i]) <= PlainFiles(src)
  {
    if i < |src| {
      PlainFilesOfPrefix(src[..|src| - 1], i);
      assert src[..|src| - 1][..i] == src[..i];
    } else {
      assert src[..i] == src;
    }
  }

  /** Reading one more entry: a directory is skipped, a file is the next plain file. */
  lemma NextPlainFile(src: seq<Entry>, i: nat)
    requires i < |src|
    ensures var done, plain := PlainFiles(src[..i]), PlainFiles(src);
      && PlainFiles(src[..i + 1]) == (if src[i].isDir then done else done + [src[i]])
      && done <= plain
      && (!src[i].isDir ==> |done| < |plain| && plain[|done|] == src[i] && plain[..|done| + 1] == done + [src[i]])
  {
    assert src[..i + 1][..i] == src[..i];
    PlainFilesOfPrefix(src, i);
    PlainFilesOfPrefix(src, i + 1);
  }

  // ---------------------------------------------------------------- saving, point by point

  /**
   How far a Save has come: k files in place; k in place and the next one partly written; all in place and
   meta.json partly written; finished. A Save that is cancelled, fails or crashes stays at its point. `written` is
   whatever the interrupted write leaves in the file; after a crash it need not be a beginning of the new content.
   */
  datatype Point = Copied(k: nat) | Copying(k: nat, written: seq<bv8>) | WritingMeta(written: seq<bv8>) | Finished

  predicate PointOf(plain: seq<Entry>, point: Point) {
    (point.Copied? ==> point.k <= |plain|) && (point.Copying? ==> point.k < |plain|)
  }

  /** The snapshot's files at a point of a Save. Part of a JSON document does not decode. */
  function FilesAt(before: Files, plain: seq<Entry>, metaFile: File, point: Point): Files
    requires PointOf(plain, point)
  {
    match point
    case Copied(k) => Overlay(before, plain[..k])
    case Copying(k, written) => Overlay(before, plain[..k])[plain[k].name := File(written, None)]
    case WritingMeta(written) => Overlay(before, plain)[META := File(written, None)]
    case Finished => Overlay(before, plain)[META := metaFile]
  }

  /** The meta.json that Save writes last. */
  function MetaFile(marshal: SnapshotMeta -> seq<bv8>, meta: SnapshotMeta, plain: seq<Entry>): File {
    var m := meta.(sizeBytes := TotalBytes(plain));
    File(marshal(m), Some(m))
  }

  /** Every source file is in place, apart from one that meta.json replaces. */
  ghost predicate Complete(files: Files, plain: seq<Entry>) {
    forall e :: e in plain && e.name != META ==> e.name in files && files[e.name] == e.file
  }

  /** A source file that would be read as the snapshot's metadata before all files are in place. */
  ghost predicate EarlyMeta(plain: seq<Entry>) {
    exists i :: 0 <= i < |plain| - 1 && plain[i].name == META && plain[i].file.decoded.Some?
  }

  ghost predicate NoReadableMeta(plain: seq<Entry>) {
    forall e :: e in plain && e.name == META ==> e.file.decoded.None?
  }

  /** Short of finishing, metadata can only be read where it could be read before. */
  lemma MetaSurvives(before: Files, plain: seq<Entry>, metaFile: File, point: Point)
    requires IsDirListing(plain) && PointOf(plain, point) && !point.Finished? && NoReadableMeta(plain)
    ensures var files := FilesAt(before, plain, metaFile, point);
      HasMeta(files) ==> HasMeta(before) && files[META] == before[META]
  {
    if point.Copied? || point.Copying? {
      OverlayLookup(before, plain[..point.k]);
      assert forall e :: e in plain[..point.k] ==> e in plain;
    }
  }

  lemma CompleteFromEnd(before: Files, plain: seq<Entry>, metaFile: File, point: Point)
    requires IsDirListing(plain) && PointOf(plain, point)
    requires point.Finished? || point.WritingMeta? || (point.Copied? && point.k == |plain|)
    ensures Complete(FilesAt(before, plain, metaFile, point), plain)
  {
    OverlayLookup(before, plain);
    assert plain[..|plain|] == plain;
  }

  lemma EarlyPointLacksMeta(before: Files, plain: seq<Entry>, metaFile: File, point: Point)
    requires IsDirListing(plain) && PointOf(plain, point) && !EarlyMeta(plain) && !HasMeta(before)
    requires (point.Copied? && point.k < |plain|) || point.Copying?
    ensures !HasMeta(FilesAt(before, plain, metaFile, point))
  {
    hide Overlay;
    var head := plain[..point.k];
    OverlayLookup(before, head);
    forall i | 0 <= i < point.k && plain[i].name == META ensures plain[i].file.decoded.None? {}
  }

  /** A file that is being copied may be neither the new one nor the old one. */
  lemma TornFile(before: Files, plain: seq<Entry>, metaFile: File, k: nat)
    requires IsDirListing(plain) && k < |plain| && plain[k].name != META && HasMeta(Overlay(before, plain[..k]))
    ensures exists point | PointOf(plain, point) ::
              var files := FilesAt(before, plain, metaFile, point);
              HasMeta(files) && !Complete(files, plain) && files != before
  {
    hide Overlay;
    var e := plain[k];
    var written := e.file.bytes + (if e.name in before then before[e.name].bytes else []) + [0];
    var files := FilesAt(before, plain, metaFile, Copying(k, written));
    assert files[e.name].bytes == written && |written| > |e.file.bytes|;
    assert e in plain;
    assert e.name in before ==> files[e.name] != before[e.name];
    assert PointOf(plain, Copying(k, written));
  }

  /**
   Where there was no readable metadata, a snapshot is listed only when all its files are in place, at every point
   at which its Save may stop, exactly when no source file but the last could be read as its metadata.
   */
  lemma FreshSaveIsAtomicIffNoEarlyMeta(before: Files, plain: seq<Entry>, metaFile: File)
    requires IsDirListing(plain) && !HasMeta(before)
    ensures (forall point | PointOf(plain, point) ::
               HasMeta(FilesAt(before, plain, metaFile, point)) ==>
               Complete(FilesAt(before, plain, metaFile, point), plain))
            <==> !EarlyMeta(plain)
  {
    hide Overlay, Complete;
    if EarlyMeta(plain) {
      var i :| 0 <= i < |plain| - 1 && plain[i].name == META && plain[i].file.decoded.Some?;
      OverlayLookup(before, plain[..i + 1]);
      assert plain[i] in plain[..i + 1];
      TornFile(before, plain, metaFile, i + 1);
    } else {
      forall point | PointOf(plain, point) && HasMeta(FilesAt(before, plain, metaFile, point))
        ensures Complete(FilesAt(before, plain, metaFile, point), plain)
      {
        if (point.Copied? && point.k < |plain|) || point.Copying? {
          EarlyPointLacksMeta(before, plain, metaFile, point);
        } else {
          CompleteFromEnd(before, plain, metaFile, point);
        }
      }
    }
  }

  /** The first file that is copied makes the metadata unreadable, or there is no other. */
  predicate StartsWithBrokenMeta(plain: seq<Entry>) {
    plain != [] ==> plain[0].name == META && (|plain| == 1 || plain[0].file.decoded.None?)
  }

  lemma BrokenMetaStays(before: Files, plain: seq<Entry>, k: nat)
    requires IsDirListing(plain) && 0 < k <= |plain| && plain[0].name == META
    ensures META in Overlay(before, plain[..k]) && Overlay(before, plain[..k])[META] == plain[0].file
  {
    OverlayLookup(before, plain[..k]);
    assert plain[0] in plain[..k];
  }

  /**
   Over a committed snapshot, what is listed at every point at which a Save may stop is the old snapshot or the new
   one, exactly when the source starts with a meta.json that cannot be read, or holds no other file.
   */
  lemma SecondSaveIsAtomicIffMetaBreaksFirst(before: Files, plain: seq<Entry>, metaFile: File)
    requires IsDirListing(plain) && HasMeta(before)
    ensures (forall point | PointOf(plain, point) ::
               HasMeta(FilesAt(before, plain, metaFile, point)) ==>
               Complete(FilesAt(before, plain, metaFile, point), plain) ||
               FilesAt(before, plain, metaFile, point) == before)
            <==> StartsWithBrokenMeta(plain)
  {
    if StartsWithBrokenMeta(plain) {
      forall point | PointOf(plain, point) && HasMeta(FilesAt(before, plain, metaFile, point))
        ensures Complete(FilesAt(before, plain, metaFile, point), plain) ||
                FilesAt(before, plain, metaFile, point) == before
      {
        BrokenMetaIsAtomic(before, plain, metaFile, point);
      }
    } else if plain[0].name != META {
      assert plain[..0] == [];
      TornFile(before, plain, metaFile, 0);
    } else {
      BrokenMetaStays(before, plain, 1);
      TornFile(before, plain, metaFile, 1);
    }
  }

  lemma BrokenMetaIsAtomic(before: Files, plain: seq<Entry>, metaFile: File, point: Point)
    requires IsDirListing(plain) && HasMeta(before) && StartsWithBrokenMeta(plain) && PointOf(plain, point)
    ensures var files := FilesAt(before, plain, metaFile, point);
      HasMeta(files) ==> Complete(files, plain) || files == before
  {
    if (point.Copied? && point.k < |plain|) || point.Copying? {
      if point.k == 0 {
        assert plain[..0] == [];
      } else {
        BrokenMetaStays(before, plain, point.k);
      }
    } else {
      CompleteFromEnd(before, plain, metaFile, point);
    }
  }

  /** A source file, other than one that meta.json replaces, that is not in place. */
  ghost predicate Differs(files: Files, e: Entry) {
    e.name != META && !(e.name in files && files[e.name] == e.file)
  }

  /** Of the files that a Save is to change some have been changed and some have not. */
  ghost predicate Mixed(before: Files, files: Files, plain: seq<Entry>) {
    && (exists e :: e in plain && Differs(before, e) && !Differs(files, e))
    && (exists e :: e in plain && Differs(before, e) && Differs(files, e))
  }

  lemma CopiedSoFar(before: Files, plain: seq<Entry>, k: nat, e: Entry)
    requires IsDirListing(plain) && k <= |plain| && e in plain
    ensures e in plain[..k] <==> e !in plain[k..]
    ensures Differs(Overlay(before, plain[..k]), e) <==> Differs(before, e) && e in plain[k..]
  {
    OverlayLookup(before, plain[..k]);
    var i :| 0 <= i < |plain| && plain[i] == e;
    if i < k {
      assert plain[..k][i] == e;
    } else {
      assert plain[k..][i - k] == e;
    }
  }

  /** The metadata that can be read once some files have been copied. */
  ghost predicate ReadableAfter(before: Files, copied: seq<Entry>) {
    && (forall e :: e in copied && e.name == META ==> e.file.decoded.Some?)
    && ((exists e :: e in copied && e.name == META) || HasMeta(before))
  }

  /** Stopped between two files, a Save leaves a listed snapshot, or a complete one, exactly in these cases. */
  lemma StoppedBetweenFiles(before: Files, plain: seq<Entry>, metaFile: File, k: nat)
    requires IsDirListing(plain) && k <= |plain|
    ensures var files := FilesAt(before, plain, metaFile, Copied(k));
      && (HasMeta(files) <==> ReadableAfter(before, plain[..k]))
      && (Complete(files, plain) <==> forall e :: e in plain[k..] ==> !Differs(before, e))
  {
    hide Overlay;
    OverlayLookup(before, plain[..k]);
    forall e | e in plain
      ensures Differs(Overlay(before, plain[..k]), e) <==> Differs(before, e) && e in plain[k..]
    {
      CopiedSoFar(before, plain, k, e);
    }
    assert forall e :: e in plain[k..] ==> e in plain;
  }

  /** Over a committed snapshot it leaves a listed mixture of the old one and the new one exactly in this case. */
  lemma StoppedBetweenFilesIsMixedIff(before: Files, plain: seq<Entry>, metaFile: File, k: nat)
    requires IsDirListing(plain) && HasMeta(before) && k <= |plain|
    ensures var files := FilesAt(before, plain, metaFile, Copied(k));
      HasMeta(files) && Mixed(before, files, plain) <==>
        && (forall e :: e in plain[..k] && e.name == META ==> e.file.decoded.Some?)
        && (exists e :: e in plain[..k] && Differs(before, e))
        && (exists e :: e in plain[k..] && Differs(before, e))
  {
    hide Overlay, Differs;
    StoppedBetweenFiles(before, plain, metaFile, k);
    forall e | e in plain
      ensures (e in plain[..k] <==> e !in plain[k..]) &&
        (Differs(Overlay(before, plain[..k]), e) <==> Differs(before, e) && e in plain[k..])
    {
      CopiedSoFar(before, plain, k, e);
    }
  }

  /** What a Load copies out of a finished fresh Save is exactly the source's plain files. */
  lemma LoadReturnsWhatWasSaved(plain: seq<Entry>, metaFile: File)
    requires IsDirListing(plain) && forall e :: e in plain ==> e.name != META
    ensures var files := FilesAt(map[], plain, metaFile, Finished);
      var loaded := Restrict(files, files.Keys - {META});
      && (forall n :: n in loaded <==> exists e :: e in plain && e.name == n)
      && (forall e :: e in plain ==> loaded[e.name] == e.file)
  {
    OverlayLookup(map[], plain);
  }

  /** Saving over an older snapshot overlays it: new files replace their namesakes and stale files stay. */
  lemma SecondSaveOverlays(before: Files, plain: seq<Entry>, metaFile: File, name: string)
    requires IsDirListing(plain) && name != META
    ensures var after := FilesAt(before, plain, metaFile, Finished);
      && (forall e :: e in plain && e.name == name ==> name in after && after[name] == e.file)
      && ((forall e :: e in plain ==> e.name != name) ==>
            (name in after <==> name in before) && (name in before ==> after[name] == before[name]))
  {
    OverlayLookup(before, plain);
  }

  /**
   A source's files are in place, with no others if the snapshot was empty before, and the metadata says whose
   snapshot it is and how many bytes it has.
   */
  ghost predicate IsSaved(files: Files, src: seq<Entry>, meta: SnapshotMeta, marshal: SnapshotMeta -> seq<bv8>,
                          wasEmpty: bool) {
    var m := meta.(sizeBytes := TotalBytes(PlainFiles(src)));
    && META in files && files[META].decoded == Some(m) && files[META].bytes == marshal(m)
    && (forall e :: e in src && !e.isDir && e.name != META ==> e.name in files && files[e.name] == e.file)
    && (wasEmpty ==> forall n :: n in files && n != META ==> exists e :: e in src && !e.isDir && e.name == n)
  }

  lemma FinishedHasMeta(before: Files, plain: seq<Entry>, metaFile: File)
    ensures var files := FilesAt(before, plain, metaFile, Finished); META in files && files[META] == metaFile
  {}

  lemma FreshNames(src: seq<Entry>, metaFile: File, n: string)
    requires IsDirListing(src) && n != META && n in FilesAt(map[], PlainFiles(src), metaFile, Finished)
    ensures exists e :: e in src && !e.isDir && e.name == n
  {
    PlainFilesAreEntries(src);
    hide PlainFiles, FilesAt, IsDirListing;
    SecondSaveOverlays(map[], PlainFiles(src), metaFile, n);
  }

  /** A Save that runs to its end commits the snapshot with all its files. */
  lemma FinishedIsSaved(before: Files, src: seq<Entry>, meta: SnapshotMeta, marshal: SnapshotMeta -> seq<bv8>)
    requires IsDirListing(src)
    ensures var plain := PlainFiles(src);
      IsSaved(FilesAt(before, plain, MetaFile(marshal, meta, plain), Finished), src, meta, marshal, before == map[])
  {
    var plain := PlainFiles(src);
    var metaFile := MetaFile(marshal, meta, plain);
    PlainFilesAreEntries(src);
    FinishedHasMeta(before, plain, metaFile);
    hide PlainFiles, FilesAt, IsDirListing, TotalBytes;
    forall e | e in src && !e.isDir && e.name != META
      ensures var files := FilesAt(before, plain, metaFile, Finished); e.name in files && files[e.name] == e.file
    {
      SecondSaveOverlays(before, plain, metaFile, e.name);
    }
    if before == map[] {
      forall n | n in FilesAt(before, plain, metaFile, Finished) && n != META
        ensures exists e :: e in src && !e.isDir && e.name == n
      {
        FreshNames(src, metaFile, n);
      }
    }
  }

  lemma SavedIsListed(listed: seq<SnapshotMeta>, a: Snapshots, src: seq<Entry>, meta: SnapshotMeta,
                      marshal: SnapshotMeta -> seq<bv8>, wasEmpty: bool)
    requires IsListing(listed, a, meta.namespace, meta.jobName)
    requires meta.Id() in a && IsSaved(a[meta.Id()], src, meta, marshal, wasEmpty)
    ensures meta.(sizeBytes := TotalBytes(PlainFiles(src))) in listed
  {
    hide PlainFiles, TotalBytes;
    assert Committed(a, meta.Id());
  }

  /** What a Load of a saved snapshot to an empty directory yields: all files, and no others if it was saved fresh. */
  ghost predicate IsLoaded(out: Files, src: seq<Entry>, wasEmpty: bool) {
    && (forall e :: e in src && !e.isDir && e.name != META ==> e.name in out && out[e.name] == e.file)
    && (wasEmpty ==> forall n :: n in out ==> n != META && exists e :: e in src && !e.isDir && e.name == n)
  }

  lemma SavedIsLoaded(files: Files, src: seq<Entry>, meta: SnapshotMeta, marshal: SnapshotMeta -> seq<bv8>,
                      wasEmpty: bool)
    requires IsSaved(files, src, meta, marshal, wasEmpty)
    ensures HasMeta(files) && IsLoaded(map[] + Restrict(files, files.Keys - {META}), src, wasEmpty)
  {
    hide PlainFiles, TotalBytes;
  }

  /** A second Save replaces the first, as a fresh one would, exactly when every old file has a new namesake. */
  lemma SecondSaveReplacesIffAllRenewed(before: Files, plain: seq<Entry>, metaFile: File)
    requires IsDirListing(plain)
    ensures FilesAt(before, plain, metaFile, Finished) == FilesAt(map[], plain, metaFile, Finished)
      <==> forall n :: n in before && n != META ==> exists e :: e in plain && e.name == n
  {
    var again, once := FilesAt(before, plain, metaFile, Finished), FilesAt(map[], plain, metaFile, Finished);
    hide FilesAt;
    forall n | n != META && forall e :: e in plain ==> e.name != n
      ensures (n in again <==> n in before) && n !in once
    {
      SecondSaveOverlays(before, plain, metaFile, n);
      SecondSaveOverlays(map[], plain, metaFile, n);
    }
    forall e | e in plain && e.name != META ensures e.name in again && e.name in once && again[e.name] == once[e.name] {
      SecondSaveOverlays(before, plain, metaFile, e.name);
      SecondSaveOverlays(map[], plain, metaFile, e.name);
    }
  }

  ghost predicate FlatNames(files: Files) {
    forall n :: n in files ==> '/' !in n
  }

  lemma {:induction false} SaveKeepsFlatNames(before: Files, plain: seq<Entry>, metaFile: File, point: Point)
    requires FlatNames(before) && IsDirListing(plain) && PointOf(plain, point)
    ensures FlatNames(FilesAt(before, plain, metaFile, point))
  {
    OverlayLookup(before, plain);
    if point.Copied? || point.Copying? { OverlayLookup(before, plain[..point.k]); }
    forall n, entries | n in Overlay(before, entries) && (entries == plain || ((point.Copied? || point.Copying?) &&
          entries == plain[..point.k]))
      ensures '/' !in n
    {
      if n !in before { var e :| e in entries && e.name == n; }
    }
  }

  // ---------------------------------------------------------------- loading

  function Restrict(files: Files, left: set<string>): Files {
    map n | n in files && n in left :: files[n]
  }

  /** Where a Load stops: before the next file, or within it, having written part of it. */
  datatype Interruption = Before(k: nat) | Within(k: nat, written: seq<bv8>)

  /** Some but not all of the files have been copied, and perhaps one more in part. */
  ghost predicate PartlyCopied(files: Files, names: set<string>, dst: Files, stop: Interruption, out: Files) {
    exists some | some < names ::
      var copied := dst + Restrict(files, some);
      match stop
      case Before(_) => out == copied
      case Within(_, written) => exists n | n in names - some :: out == copied[n := File(written, None)]
  }

  /** Copies the named files into `dst` one by one, in any order, unless it is stopped. */
  method CopyFilesTo(files: Files, names: set<string>, dst: Files, stop: Option<Interruption>)
    returns (done: bool, out: Files)
    requires names <= files.Keys
    ensures done <==> stop.None? || stop.value.k >= |names|
    ensures done ==> out == dst + Restrict(files, names)
    ensures !done ==> PartlyCopied(files, names, dst, stop.value, out)
  {
    hide Restrict;
    NothingRestricted(files, dst);
    assert names - names == {};
    var todo, copied := names, 0;
    out := dst;
    while todo != {}
      invariant todo <= names && copied == |names| - |todo|
      invariant stop.Some? ==> copied <= stop.value.k
      invariant out == dst + Restrict(files, names - todo)
    {
      var n :| n in todo;
      if stop.Some? && stop.value.k == copied {
        StoppedWithin(files, names, names - todo, dst, stop.value, n);
        if stop.value.Within? {
          out := out[n := File(stop.value.written, None)];
        }
        return false, out;
      }
      out := out[n := files[n]];
      CopyOneMore(files, names - todo, dst, n);
      assert names - todo + {n} == names - (todo - {n});
      todo, copied := todo - {n}, copied + 1;
    }
    assert names - {} == names;
    return true, out;
  }

  lemma NothingRestricted(files: Files, dst: Files)
    ensures dst + Restrict(files, {}) == dst
  {}

  lemma StoppedWithin(files: Files, names: set<string>, some: set<string>, dst: Files, stop: Interruption, n: string)
    requires some <= names && n in names && n !in some
    ensures var copied := dst + Restrict(files, some);
      PartlyCopied(files, names, dst, stop, if stop.Within? then copied[n := File(stop.written, None)] else copied)
  {
    hide Restrict;
    assert some < names && n in names - some;
  }

  lemma CopyOneMore(files: Files, names: set<string>, dst: Files, n: string)
    requires n in files
    ensures (dst + Restrict(files, names))[n := files[n]] == dst + Restrict(files, names + {n})
  {}
}
