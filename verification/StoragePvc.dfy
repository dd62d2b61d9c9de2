/** LocalPVCBackend: snapshots as directories on a mounted volume. */
module StoragePvc {
  import opened Text
  import opened Storage
  import opened Pruning

  // ---------------------------------------------------------------- paths

  /** An absolute, clean path as its components. */
  type Path = seq<string>

  /** Directories, by path, with the plain files directly in them. */
  type Tree = map<Path, Files>

  /** A name between slashes. */
  function Segments(s: string): (r: seq<string>)
    ensures |r| > 0 && forall k :: 0 <= k < |r| ==> '/' !in r[k]
    ensures '/' !in s ==> r == [s]
  {
    if s == [] then [[]] else
    var r := Segments(s[..|s| - 1]);
    assert s == s[..|s| - 1] + [s[|s| - 1]];
    if s[|s| - 1] == '/' then r + [[]] else r[|r| - 1 := r[|r| - 1] + [s[|s| - 1]]]
  }

  /** What filepath.Clean makes of one more segment. */
  function Descend(p: Path, segment: string): Path {
    if segment == "" || segment == "." then p
    else if segment == ".." then if p == [] then [] else p[..|p| - 1]
    else p + [segment]
  }

  function DescendAll(p: Path, segments: seq<string>): Path {
    if segments == [] then p
    else Descend(DescendAll(p, segments[..|segments| - 1]), segments[|segments| - 1])
  }

  /** filepath.Join of a clean path and a name. */
  function Join(p: Path, name: string): Path {
    DescendAll(p, Segments(name))
  }

  /** A name that is one component of a path, as Kubernetes names are. */
  predicate Proper(name: string) {
    name != "" && name != "." && name != ".." && '/' !in name
  }

  lemma {:induction false} SegmentsOnly(p: Path, segments: seq<string>)
    requires forall k :: 0 <= k < |segments| ==> '/' !in segments[k]
    ensures forall k :: |p| <= k < |DescendAll(p, segments)| ==> '/' !in DescendAll(p, segments)[k]
  {
    if segments != [] { SegmentsOnly(p, segments[..|segments| - 1]); }
  }

  lemma DescendOnce(p: Path, segment: string)
    ensures DescendAll(p, [segment]) == Descend(p, segment)
  {
    assert [segment][..0] == [];
  }

  /** Joining a name adds it as one component exactly when it is proper. */
  lemma JoinAddsOneIffProper(p: Path, name: string)
    ensures Join(p, name) == p + [name] <==> Proper(name)
  {
    if '/' in name {
      SegmentsOnly(p, Segments(name));
      assert (p + [name])[|p|] == name;
    } else {
      DescendOnce(p, name);
    }
  }

  lemma {:induction false} DescendConcat(p: Path, a: seq<string>, b: seq<string>)
    ensures DescendAll(p, a + b) == DescendAll(DescendAll(p, a), b)
  {
    if b == [] {
      assert a + b == a;
    } else {
      assert (a + b)[..|a + b| - 1] == a + b[..|b| - 1];
      DescendConcat(p, a, b[..|b| - 1]);
    }
  }

  /** One more character: a slash begins a new segment, anything else extends the last. */
  lemma SegmentsOneMore(s: string, c: char)
    ensures var r := Segments(s);
      Segments(s + [c]) == if c == '/' then r + [[]] else r[|r| - 1 := r[|r| - 1] + [c]]
  {
    assert (s + [c])[..|s|] == s;
  }

  lemma {:induction false} SegmentsConcat(a: string, b: string)
    ensures Segments(a + "/" + b) == Segments(a) + Segments(b)
  {
    if b == [] {
      SegmentsOneMore(a, '/');
      assert a + "/" + b == a + ['/'];
    } else {
      var front, c := b[..|b| - 1], b[|b| - 1];
      assert b == front + [c] && a + "/" + b == (a + "/" + front) + [c];
      hide Segments;
      SegmentsConcat(a, front);
      SegmentsOneMore(front, c);
      SegmentsOneMore(a + "/" + front, c);
    }
  }

  function JobDir(root: Path, ns: string, job: string): Path {
    Join(Join(root, ns), job)
  }

  function SnapDir(root: Path, id: SnapId): Path {
    Join(JobDir(root, id.namespace, id.jobName), CkptName(id.seqNo))
  }

  predicate ProperId(id: SnapId) {
    Proper(id.namespace) && Proper(id.jobName)
  }

  lemma CkptNameIsProper(seqNo: int)
    ensures Proper(CkptName(seqNo)) && "ckpt-" <= CkptName(seqNo)
  {
    CkptNameIsPlain(seqNo);
  }

  lemma ProperJobDir(root: Path, ns: string, job: string)
    requires Proper(ns) && Proper(job)
    ensures JobDir(root, ns, job) == root + [ns, job]
  {
    JoinAddsOneIffProper(root, ns);
    JoinAddsOneIffProper(root + [ns], job);
  }

  lemma ProperSnapDir(root: Path, id: SnapId)
    requires ProperId(id)
    ensures SnapDir(root, id) == root + [id.namespace, id.jobName, CkptName(id.seqNo)]
  {
    ProperJobDir(root, id.namespace, id.jobName);
    CkptNameIsProper(id.seqNo);
    JoinAddsOneIffProper(root + [id.namespace, id.jobName], CkptName(id.seqNo));
  }

  lemma SameComponents(root: Path, x: string, y: string, z: string, u: string, v: string, w: string)
    requires root + [x, y, z] <= root + [u, v, w]
    ensures x == u && y == v && z == w
  {
    var p, q, n := root + [x, y, z], root + [u, v, w], |root|;
    assert p[n] == x && p[n + 1] == y && p[n + 2] == z && q[n] == u && q[n + 1] == v && q[n + 2] == w;
  }

  /** Distinct snapshots with proper names live in distinct directories, neither inside the other. */
  lemma SnapDirsAreApart(root: Path, a: SnapId, b: SnapId)
    requires ProperId(a) && ProperId(b)
    ensures SnapDir(root, a) <= SnapDir(root, b) <==> a == b
  {
    ProperSnapDir(root, a);
    ProperSnapDir(root, b);
    hide SnapDir, CkptName, Proper;
    if SnapDir(root, a) <= SnapDir(root, b) {
      SameComponents(root, a.namespace, a.jobName, CkptName(a.seqNo), b.namespace, b.jobName, CkptName(b.seqNo));
      CkptNamesDiffer(a.seqNo, b.seqNo);
    }
  }

  /** Where a name leads from any directory: so many levels up, and then down through `names`. */
  datatype Relative = Relative(ups: nat, names: seq<string>)
  {
    function Descend(segment: string): Relative {
      if segment == "" || segment == "." then this
      else if segment != ".." then Relative(ups, names + [segment])
      else if names == [] then Relative(ups + 1, [])
      else Relative(ups, names[..|names| - 1])
    }

    /** There is nothing above the top. */
    function From(p: Path): Path {
      (if ups <= |p| then p[..|p| - ups] else []) + names
    }
  }

  /** The segments without the empty ones, "." and the ".." that undo another. */
  function Cleaned(segments: seq<string>): Relative {
    if segments == [] then Relative(0, [])
    else Cleaned(segments[..|segments| - 1]).Descend(segments[|segments| - 1])
  }

  lemma DescendFrom(p: Path, r: Relative, segment: string)
    ensures Descend(r.From(p), segment) == r.Descend(segment).From(p)
  {}

  lemma {:induction false} DescendsAsCleaned(p: Path, segments: seq<string>)
    ensures DescendAll(p, segments) == Cleaned(segments).From(p)
  {
    if segments != [] {
      DescendsAsCleaned(p, segments[..|segments| - 1]);
      DescendFrom(p, Cleaned(segments[..|segments| - 1]), segments[|segments| - 1]);
    }
  }

  /** What the namespace and the name of a job come to as a path. */
  function CleanedJob(id: SnapId): Relative {
    Cleaned(Segments(JobKey(id.namespace, id.jobName)))
  }

  lemma SnapDirFrom(root: Path, id: SnapId)
    ensures SnapDir(root, id) == CleanedJob(id).From(root) + [CkptName(id.seqNo)]
  {
    SegmentsConcat(id.namespace, id.jobName);
    DescendConcat(root, Segments(id.namespace), Segments(id.jobName));
    DescendsAsCleaned(root, Segments(JobKey(id.namespace, id.jobName)));
    CkptNameIsProper(id.seqNo);
    JoinAddsOneIffProper(JobDir(root, id.namespace, id.jobName), CkptName(id.seqNo));
  }

  lemma LastIsApart(p: Path, x: string, q: Path, y: string)
    ensures p + [x] == q + [y] <==> p == q && x == y
  {
    if p + [x] == q + [y] {
      assert p == (p + [x])[..|p|] && q == (q + [y])[..|q|];
      assert x == (p + [x])[|p|] && y == (q + [y])[|q|];
    }
  }

  lemma FromBelow(root: Path, x: Relative, y: Relative)
    requires x.ups == y.ups <= |root|
    ensures x.From(root) == y.From(root) <==> x == y
  {
    var n := |root| - x.ups;
    assert x.names == x.From(root)[n..] && y.names == y.From(root)[n..];
  }

  /**
   Whatever the names are, two snapshots share their directory exactly when their jobs' names lead to the same place
   and their numbers are equal; for names that do not lead above the root, when their cleaned segments are the same.
   */
  lemma SnapDirsCoincideIff(root: Path, a: SnapId, b: SnapId)
    ensures SnapDir(root, a) == SnapDir(root, b)
            <==> CleanedJob(a).From(root) == CleanedJob(b).From(root) && a.seqNo == b.seqNo
    ensures CleanedJob(a).ups == CleanedJob(b).ups == 0 ==>
              (SnapDir(root, a) == SnapDir(root, b) <==> CleanedJob(a) == CleanedJob(b) && a.seqNo == b.seqNo)
  {
    SnapDirFrom(root, a);
    SnapDirFrom(root, b);
    hide SnapDir, CleanedJob, CkptName;
    LastIsApart(CleanedJob(a).From(root), CkptName(a.seqNo), CleanedJob(b).From(root), CkptName(b.seqNo));
    if CkptName(a.seqNo) == CkptName(b.seqNo) { CkptNamesDiffer(a.seqNo, b.seqNo); }
    if CleanedJob(a).ups == CleanedJob(b).ups == 0 { FromBelow(root, CleanedJob(a), CleanedJob(b)); }
  }

  /** A root from which two different cleaned paths lead to different places. */
  function Witness(x: Relative, y: Relative): Path {
    var name := if x.ups < y.ups && y.names != [] then y.names[0] else if x.names != [] then x.names[0] else "";
    seq(x.ups + y.ups + 1, _ => name + "x")
  }

  lemma HigherDiffers(root: Path, x: Relative, y: Relative)
    requires x.ups < y.ups <= |root| && (y.names != [] ==> root[|root| - y.ups] != y.names[0])
    ensures x.From(root) != y.From(root)
  {
    var n, p, q := |root| - y.ups, x.From(root), y.From(root);
    assert |p| == |q| ==> y.names != [] && p[n] == root[n] && q[n] == y.names[0];
  }

  lemma WitnessTells(x: Relative, y: Relative)
    ensures x.From(Witness(x, y)) == y.From(Witness(x, y)) ==> x == y
  {
    if x.ups == y.ups {
      FromBelow(Witness(x, y), x, y);
    } else if x.ups < y.ups {
      HigherDiffers(Witness(x, y), x, y);
    } else {
      HigherDiffers(Witness(x, y), y, x);
    }
  }

  /** They share it whatever the root is exactly when the cleaned segments are the same. */
  lemma SnapDirsCoincideEverywhereIff(a: SnapId, b: SnapId)
    ensures (forall root :: SnapDir(root, a) == SnapDir(root, b))
            <==> CleanedJob(a) == CleanedJob(b) && a.seqNo == b.seqNo
  {
    hide SnapDir, CleanedJob;
    var root := Witness(CleanedJob(a), CleanedJob(b));
    WitnessTells(CleanedJob(a), CleanedJob(b));
    SnapDirsCoincideIff(root, a, b);
    forall other | CleanedJob(a) == CleanedJob(b) && a.seqNo == b.seqNo ensures SnapDir(other, a) == SnapDir(other, b) {
      SnapDirsCoincideIff(other, a, b);
    }
  }

  /** With a slash in a name two different jobs share all their directories. */
  lemma SlashedNamesMerge(root: Path, a: string, b: string, c: string, seqNo: int)
    ensures SnapDir(root, SnapId(a + "/" + b, c, seqNo)) == SnapDir(root, SnapId(a, b + "/" + c, seqNo))
  {
    SnapDirsCoincideIff(root, SnapId(a + "/" + b, c, seqNo), SnapId(a, b + "/" + c, seqNo));
    hide SnapDir, Cleaned, Segments;
    assert JobKey(a + "/" + b, c) == JobKey(a, b + "/" + c);
  }

  // ---------------------------------------------------------------- the abstract map

  /** The abstract map a tree represents. */
  ghost function Abstraction(root: Path, tree: Tree): Snapshots {
    imap id: SnapId | ProperId(id) && SnapDir(root, id) in tree :: tree[SnapDir(root, id)]
  }

  /** A checkpoint directory directly below a job's directory. */
  predicate IsCkptDir(dir: Path, p: Path) {
    |p| == |dir| + 1 && dir <= p && "ckpt-" <= p[|dir|]
  }

  function CkptDirs(tree: Tree, dir: Path): set<Path> {
    set p | p in tree && IsCkptDir(dir, p)
  }

  /** A checkpoint directory of a job, with readable metadata, is the directory of the snapshot the metadata names. */
  ghost predicate Kept(root: Path, tree: Tree) {
    forall p, ns, job ::
      Proper(ns) && Proper(job) && p in tree && IsCkptDir(root + [ns, job], p) && HasMeta(tree[p]) ==>
      OfJob(tree[p][META].decoded.value.Id(), ns, job) && p == SnapDir(root, tree[p][META].decoded.value.Id())
  }

  lemma SnapDirIsCkptDir(root: Path, id: SnapId)
    requires ProperId(id)
    ensures IsCkptDir(root + [id.namespace, id.jobName], SnapDir(root, id))
  {
    ProperSnapDir(root, id);
    CkptNameIsProper(id.seqNo);
  }

  lemma KeptIsFaithful(root: Path, tree: Tree)
    requires Kept(root, tree)
    ensures Faithful(Abstraction(root, tree))
  {
    hide SnapDir, Proper;
    var a := Abstraction(root, tree);
    forall id | Committed(a, id) ensures MetaOf(a, id).Id() == id {
      SnapDirIsCkptDir(root, id);
      assert OfJob(MetaOf(a, id).Id(), id.namespace, id.jobName);
      SnapDirsAreApart(root, id, MetaOf(a, id).Id());
    }
  }

  lemma WriteRefines(root: Path, tree: Tree, id: SnapId, files: Files)
    requires ProperId(id)
    ensures Abstraction(root, tree[SnapDir(root, id) := files]) == Abstraction(root, tree)[id := files]
  {
    hide SnapDir, ProperId;
    forall other: SnapId | ProperId(other) && SnapDir(root, other) == SnapDir(root, id) ensures other == id {
      SnapDirsAreApart(root, other, id);
    }
  }

  lemma WriteKeeps(root: Path, tree: Tree, id: SnapId, files: Files)
    requires Kept(root, tree) && ProperId(id) && (HasMeta(files) ==> files[META].decoded.value.Id() == id)
    ensures Kept(root, tree[SnapDir(root, id) := files])
  {
    var now := tree[SnapDir(root, id) := files];
    ProperSnapDir(root, id);
    hide SnapDir, Proper;
    forall p, ns, job | Proper(ns) && Proper(job) && p in now && IsCkptDir(root + [ns, job], p) && HasMeta(now[p])
      ensures OfJob(now[p][META].decoded.value.Id(), ns, job) && p == SnapDir(root, now[p][META].decoded.value.Id())
    {
      if p == SnapDir(root, id) {
        assert p[|root|] == (root + [ns, job])[|root|] == ns && p[|root| + 1] == (root + [ns, job])[|root| + 1] == job;
      }
    }
  }

  /** os.RemoveAll: the directory and everything below it. */
  function RemoveAll(tree: Tree, dir: Path): Tree {
    map p | p in tree && !(dir <= p) :: tree[p]
  }

  /** What is left of the tree when the removal does not reach the files in `left`. */
  function RemoveSome(tree: Tree, dir: Path, left: set<string>): Tree
    requires dir in tree
  {
    tree[dir := Restrict(tree[dir], left)]
  }

  lemma RemoveRefines(root: Path, tree: Tree, id: SnapId)
    requires ProperId(id)
    ensures Abstraction(root, RemoveAll(tree, SnapDir(root, id))) == Abstraction(root, tree) - {id}
  {
    hide SnapDir, ProperId;
    forall other: SnapId | ProperId(other) && SnapDir(root, id) <= SnapDir(root, other) ensures other == id {
      SnapDirsAreApart(root, id, other);
    }
  }

  /** Removing files can only take metadata away. */
  lemma RemovalKeeps(root: Path, tree: Tree, now: Tree)
    requires Kept(root, tree)
    requires forall p :: p in now ==> p in tree
    requires forall p :: p in now && HasMeta(now[p]) ==> HasMeta(tree[p]) && now[p][META] == tree[p][META]
    ensures Kept(root, now)
  {
    hide SnapDir, Proper, IsCkptDir;
  }

  function FilesIn(tree: Tree, dir: Path): Files {
    if dir in tree then tree[dir] else map[]
  }

  class LocalPVCBackend {
    const root: Path
    const marshal: SnapshotMeta -> seq<bv8> // json.MarshalIndent
    var tree: Tree

    constructor (root: Path, marshal: SnapshotMeta -> seq<bv8>)
      ensures Valid() && Abstract() == imap[] && this.root == root && this.marshal == marshal
    {
      this.root, this.marshal, tree := root, marshal, map[];
    }

    ghost function Abstract(): Snapshots
      reads this
    {
      Abstraction(root, tree)
    }

    ghost predicate Valid()
      reads this
    {
      Kept(root, tree)
    }

    /**
     `mkdirOk` says whether the directory can be made, `stop` how far the rest gets: cancelled, failing or
     crashing at that point, or finished. A source that cannot be read stops it at the start. `metaOk` says whether
     the writing of meta.json, once all of it is written, reports success.
     */
    method Save(src: seq<Entry>, meta: SnapshotMeta, mkdirOk: bool, stop: Point, metaOk: bool) returns (r: Result<()>)
      requires IsDirListing(src) && PointOf(PlainFiles(src), stop)
      modifies this
      ensures r.Ok? <==> mkdirOk && stop.Finished? && metaOk
      ensures !mkdirOk ==> tree == old(tree)
      ensures mkdirOk ==>
                var dir, plain := SnapDir(root, meta.Id()), PlainFiles(src);
                tree == old(tree)[dir := FilesAt(FilesIn(old(tree), dir), plain, MetaFile(marshal, meta, plain), stop)]
      ensures r.Ok? ==>
                var dir := SnapDir(root, meta.Id());
                dir in tree && IsSaved(tree[dir], src, meta, marshal, dir !in old(tree))
      ensures r.Ok? && ProperId(meta.Id()) ==>
                && meta.Id() in Abstract()
                && IsSaved(Abstract()[meta.Id()], src, meta, marshal, meta.Id() !in old(Abstract()))
      ensures mkdirOk && ProperId(meta.Id()) ==>
                var id, was := meta.Id(), old(Abstract());
                Abstract() == was[id := FilesAt(if id in was then was[id] else map[], PlainFiles(src),
                                                MetaFile(marshal, meta, PlainFiles(src)), stop)]
      ensures old(Valid()) && ProperId(meta.Id()) && (stop.Finished? || NoReadableMeta(PlainFiles(src))) ==> Valid()
    {
      ghost var was := tree;
      if !mkdirOk {
        return Err(MkdirFailed);
      }
      r := SaveFiles(SnapDir(root, meta.Id()), src, meta, stop, metaOk);
      PlainFilesAreEntries(src);
      FinishedIsSaved(FilesIn(was, SnapDir(root, meta.Id())), src, meta, marshal);
      if ProperId(meta.Id()) {
        Settle(was, meta.Id(), PlainFiles(src), MetaFile(marshal, meta, PlainFiles(src)), stop);
      }
    }

    /** Writes a file into a directory that exists. */
    method WriteFile(dir: Path, name: string, file: File, ghost was: Tree, ghost files: Files)
      requires tree == was[dir := files]
      modifies this
      ensures tree == was[dir := files[name := file]]
    {
      tree := tree[dir := tree[dir][name := file]];
    }

    method SaveFiles(dst: Path, src: seq<Entry>, meta: SnapshotMeta, stop: Point, metaOk: bool) returns (r: Result<()>)
      requires IsDirListing(src) && PointOf(PlainFiles(src), stop)
      modifies this
      ensures r.Ok? <==> stop.Finished? && metaOk
      ensures var plain := PlainFiles(src);
        tree == old(tree)[dst := FilesAt(FilesIn(old(tree), dst), plain, MetaFile(marshal, meta, plain), stop)]
    {
      ghost var plain, before, was := PlainFiles(src), FilesIn(tree, dst), tree;
      if dst !in tree { tree := tree[dst := map[]]; }
      var totalBytes, failure := CopyFiles(dst, src, stop, was, before, MetaFile(marshal, meta, plain));
      if failure.Some? {
        return Err(failure.value);
      }
      assert plain[..|plain|] == plain;
      if stop.Copied? {
        return Err(Cancelled);
      }
      if stop.WritingMeta? {
        WriteFile(dst, META, File(stop.written, None), was, Overlay(before, plain));
        return Err(MetaFailed);
      }
      var m := meta.(sizeBytes := totalBytes);
      WriteFile(dst, META, File(marshal(m), Some(m)), was, Overlay(before, plain));
      return if metaOk then Ok(()) else Err(MetaFailed);
    }

    lemma NothingCopied(before: Files, src: seq<Entry>)
      ensures PlainFiles(src[..0]) == [] && Overlay(before, []) == before && TotalBytes([]) == 0
    {}

    method CopyFiles(dst: Path, src: seq<Entry>, stop: Point,
                         ghost was: Tree, ghost before: Files, ghost metaFile: File)
      returns (totalBytes: nat, failure: Option<Error>)
      requires IsDirListing(src) && PointOf(PlainFiles(src), stop) && tree == was[dst := before]
      modifies this
      ensures failure.Some? <==> stop.Copying? || (stop.Copied? && stop.k < |PlainFiles(src)|)
      ensures failure.None? ==>
                      tree == was[dst := Overlay(before, PlainFiles(src))] && totalBytes == TotalBytes(PlainFiles(src))
      ensures failure.Some? ==> tree == was[dst := FilesAt(before, PlainFiles(src), metaFile, stop)]
    {
      hide PlainFiles, Overlay, TotalBytes;
      NothingCopied(before, src);
      ghost var plain := PlainFiles(src);
      var copied := 0;
      totalBytes := 0;
      for i := 0 to |src|
        invariant copied == |PlainFiles(src[..i])| && PlainFiles(src[..i]) <= plain
        invariant tree == was[dst := Overlay(before, PlainFiles(src[..i]))]
        invariant totalBytes == TotalBytes(PlainFiles(src[..i]))
        invariant stop.Copied? || stop.Copying? ==> copied <= stop.k
      {
        NextPlainFile(src, i);
        if src[i].isDir { continue; }
        ghost var files := Overlay(before, PlainFiles(src[..i]));
        OverlayOne(before, PlainFiles(src[..i]), src[i]);
        assert plain[..copied] == PlainFiles(src[..i]);
        if stop == Copied(copied) {
          return totalBytes, Some(Cancelled);
        }
        if stop.Copying? && stop.k == copied {
          WriteFile(dst, src[i].name, File(stop.written, None), was, files);
          return totalBytes, Some(CopyFailed);
        }
        WriteFile(dst, src[i].name, src[i].file, was, files);
        totalBytes := totalBytes + |src[i].file.bytes|;
        copied := copied + 1;
      }
      assert src[..|src|] == src;
      failure := None;
    }

    lemma Settle(was: Tree, id: SnapId, plain: seq<Entry>, metaFile: File, stop: Point)
      requires ProperId(id) && IsDirListing(plain) && PointOf(plain, stop)
      requires metaFile.decoded.Some? && metaFile.decoded.value.Id() == id
      requires tree == was[SnapDir(root, id) := FilesAt(FilesIn(was, SnapDir(root, id)), plain, metaFile, stop)]
      ensures var a := Abstraction(root, was);
        Abstract() == a[id := FilesAt(if id in a then a[id] else map[], plain, metaFile, stop)]
      ensures Kept(root, was) && (stop.Finished? || NoReadableMeta(plain)) ==> Valid()
    {
      hide SnapDir, ProperId;
      var before := FilesIn(was, SnapDir(root, id));
      var files := FilesAt(before, plain, metaFile, stop);
      WriteRefines(root, was, id, files);
      if Kept(root, was) && (stop.Finished? || NoReadableMeta(plain)) {
        KeptIsFaithful(root, was);
        if !stop.Finished? {
          MetaSurvives(before, plain, metaFile, stop);
          if HasMeta(files) { assert Committed(Abstraction(root, was), id); }
        }
        WriteKeeps(root, was, id, files);
      }
    }

    /**
     `opens` says whether the destination can be made and the snapshot's directory read, `stop` where copying
     stops.
     */
    method Load(meta: SnapshotMeta, dst: Files, opens: bool, stop: Option<Interruption>)
      returns (r: Result<()>, out: Files)
      ensures var dir := SnapDir(root, meta.Id());
        if dir !in tree then r == Err(NotFound) && out == dst
        else if !opens then r == Err(ReadDirFailed) && out == dst
        else
          var files := tree[dir];
          var names := files.Keys - {META};
          && (r.Ok? <==> stop.None? || stop.value.k >= |names|)
          && (r.Ok? ==> out == dst + Restrict(files, names))
          && (r.Err? ==> PartlyCopied(files, names, dst, stop.value, out))
      ensures ProperId(meta.Id()) ==>
                (meta.Id() in Abstract() <==> SnapDir(root, meta.Id()) in tree)
                && (meta.Id() in Abstract() ==> Abstract()[meta.Id()] == tree[SnapDir(root, meta.Id())])
    {
      hide SnapDir;
      var src := SnapDir(root, meta.Id());
      if src !in tree {
        return Err(NotFound), dst;
      }
      if !opens {
        return Err(ReadDirFailed), dst;
      }
      var done, copied := CopyFilesTo(tree[src], tree[src].Keys - {META}, dst, stop);
      return if done then Ok(()) else Err(CopyFailed), copied;
    }

    /** The snapshots whose metadata List passes over because it fails to read it in a directory of `unread`. */
    ghost function Skipped(unread: set<Path>): iset<SnapId> {
      iset id: SnapId | SnapDir(root, id) in unread
    }

    /**
     The job's directory is read in any order; the answer does not depend on it. It may be unreadable, if it is
     there; and the metadata in the directories of `unread` cannot be read.
     */
    method List(jobKey: string, readable: bool, unread: set<Path>) returns (r: Result<seq<SnapshotMeta>>)
      requires Valid()
      ensures match SplitJobKey(jobKey)
        case None => r == Err(InvalidJobKey)
        case Some(parts) =>
          && (r.Err? <==> !readable && exists p :: p in tree && JobDir(root, parts.0, parts.1) <= p)
          && (r.Err? ==> r == Err(ReadDirFailed))
          && (r.Ok? && Proper(parts.0) && Proper(parts.1) ==>
                IsListing(r.value, Visible(Abstract(), Skipped(unread)), parts.0, parts.1))
    {
      hide SplitJobKey, JobDir, Kept, SortBySeq, Collected, IsListing, Abstraction, CkptDirs, Proper, Visible;
      var parts := SplitJobKey(jobKey);
      if parts.None? {
        return Err(InvalidJobKey);
      }
      var (ns, job) := parts.value;
      var jobDir := JobDir(root, ns, job);
      var below := set p | p in tree && jobDir <= p;
      if below != {} && !readable {
        assert exists p :: p in below;
        return Err(ReadDirFailed);
      }
      assert forall p :: p in tree && jobDir <= p <==> p in below;
      var metas := ReadMetas(jobDir, unread, ns, job);
      if Proper(ns) && Proper(job) {
        MetasMakeTheListing(metas, unread, ns, job);
      }
      return Ok(SortBySeq(metas));
    }

    /** The readable metadata of checkpoint directories directly below `dir`. */
    ghost predicate Collected(metas: seq<SnapshotMeta>, visited: set<Path>, ns: string, job: string)
      reads this
    {
      && (forall m :: m in metas ==>
            var p := SnapDir(root, m.Id());
            p in visited && OfJob(m.Id(), ns, job) && p in tree && HasMeta(tree[p]) && tree[p][META].decoded.value == m)
      && (forall p :: p in visited && p in tree && HasMeta(tree[p]) ==> tree[p][META].decoded.value in metas)
      && (forall i, j :: 0 <= i < j < |metas| ==> metas[i].seqNo != metas[j].seqNo)
    }

    lemma CollectOne(metas: seq<SnapshotMeta>, visited: set<Path>, ns: string, job: string, p: Path)
      requires Valid() && Proper(ns) && Proper(job) && Collected(metas, visited, ns, job)
      requires p !in visited && p in tree && IsCkptDir(root + [ns, job], p) && HasMeta(tree[p])
      ensures Collected(metas + [tree[p][META].decoded.value], visited + {p}, ns, job)
    {
      hide SnapDir, Proper, IsCkptDir;
      var m := tree[p][META].decoded.value;
      assert p == SnapDir(root, m.Id()) && OfJob(m.Id(), ns, job);
      forall i | 0 <= i < |metas| ensures metas[i].seqNo != m.seqNo {
        assert metas[i] in metas;
      }
    }

    method ReadMetas(jobDir: Path, unread: set<Path>, ghost ns: string, ghost job: string)
      returns (metas: seq<SnapshotMeta>)
      requires Valid() && jobDir == JobDir(root, ns, job)
      ensures Proper(ns) && Proper(job) ==>
                Collected(metas, CkptDirs(tree, root + [ns, job]) - unread, ns, job)
    {
      ghost var proper := Proper(ns) && Proper(job);
      if proper { ProperJobDir(root, ns, job); }
      hide SnapDir, Proper, IsCkptDir, JobDir, Kept, Collected;
      var dirs := CkptDirs(tree, jobDir);
      var todo := dirs;
      metas := [];
      NoneCollected(unread, ns, job);
      assert dirs - todo == {};
      while todo != {}
        invariant todo <= dirs
        invariant proper ==> Collected(metas, dirs - todo - unread, ns, job)
      {
        var p :| p in todo;
        ghost var visited := dirs - todo;
        todo := todo - {p};
        if proper { CollectStep(metas, visited, unread, ns, job, p); }
        if p !in unread && META in tree[p] && tree[p][META].decoded.Some? {
          metas := metas + [tree[p][META].decoded.value];
        }
        assert dirs - todo == visited + {p};
      }
      assert dirs - todo == dirs;
    }

    lemma NoneCollected(unread: set<Path>, ns: string, job: string)
      ensures Collected([], {} - unread, ns, job)
    {}

    lemma CollectStep(metas: seq<SnapshotMeta>, visited: set<Path>, unread: set<Path>, ns: string, job: string, p: Path)
      requires Valid() && Proper(ns) && Proper(job) && Collected(metas, visited - unread, ns, job)
      requires p !in visited && p in tree && IsCkptDir(root + [ns, job], p)
      ensures if p !in unread && META in tree[p] && tree[p][META].decoded.Some?
              then Collected(metas + [tree[p][META].decoded.value], visited + {p} - unread, ns, job)
              else Collected(metas, visited + {p} - unread, ns, job)
    {
      if p in unread {
        assert visited + {p} - unread == visited - unread;
      } else {
        assert visited + {p} - unread == visited - unread + {p};
        hide SnapDir, Proper, IsCkptDir;
        if META in tree[p] && tree[p][META].decoded.Some? { CollectOne(metas, visited - unread, ns, job, p); }
      }
    }

    lemma CollectedIsVisible(metas: seq<SnapshotMeta>, dirs: set<Path>, unread: set<Path>, ns: string, job: string,
                             m: SnapshotMeta)
      requires Proper(ns) && Proper(job) && Collected(metas, dirs - unread, ns, job) && m in metas
      ensures var a := Visible(Abstract(), Skipped(unread));
        OfJob(m.Id(), ns, job) && Committed(a, m.Id()) && MetaOf(a, m.Id()) == m
    {
      hide SnapDir, Proper;
    }

    lemma VisibleIsCollected(metas: seq<SnapshotMeta>, unread: set<Path>, ns: string, job: string, id: SnapId)
      requires Proper(ns) && Proper(job) && Collected(metas, CkptDirs(tree, root + [ns, job]) - unread, ns, job)
      requires OfJob(id, ns, job) && Committed(Visible(Abstract(), Skipped(unread)), id)
      ensures MetaOf(Visible(Abstract(), Skipped(unread)), id) in metas
    {
      SnapDirIsCkptDir(root, id);
      hide SnapDir, Proper, IsCkptDir;
      assert SnapDir(root, id) in CkptDirs(tree, root + [ns, job]) - unread;
    }

    lemma MetasMakeTheListing(metas: seq<SnapshotMeta>, unread: set<Path>, ns: string, job: string)
      requires Valid() && Proper(ns) && Proper(job)
      requires Collected(metas, CkptDirs(tree, root + [ns, job]) - unread, ns, job)
      ensures IsListing(SortBySeq(metas), Visible(Abstract(), Skipped(unread)), ns, job)
    {
      hide Committed, MetaOf, SortBySeq, Ascending, Abstraction, Kept, Proper, SnapDir, CkptDirs, Visible, OfJob;
      var a := Visible(Abstract(), Skipped(unread));
      SortIsAscending(metas);
      hide Collected;
      forall m | m in SortBySeq(metas)
        ensures OfJob(m.Id(), ns, job) && Committed(a, m.Id()) && MetaOf(a, m.Id()) == m
      {
        CollectedIsVisible(metas, CkptDirs(tree, root + [ns, job]), unread, ns, job, m);
      }
      forall id | OfJob(id, ns, job) && Committed(a, id) ensures MetaOf(a, id) in SortBySeq(metas) {
        VisibleIsCollected(metas, unread, ns, job, id);
      }
    }

    /** `left` names the files that a failing RemoveAll did not reach. */
    method Delete(meta: SnapshotMeta, left: Option<set<string>>) returns (r: Result<()>)
      requires Valid()
      modifies this
      ensures Valid()
      ensures var dir := SnapDir(root, meta.Id());
        if left.None? || dir !in old(tree) then r == Ok(()) && tree == RemoveAll(old(tree), dir)
        else r == Err(DeleteFailed) && tree == RemoveSome(old(tree), dir, left.value)
      ensures ProperId(meta.Id()) ==>
                var was, id := old(Abstract()), meta.Id();
                if left.None? || id !in was then r.Ok? && Abstract() == was - {id}
                else r.Err? && Abstract() == was[id := Restrict(was[id], left.value)]
    {
      hide SnapDir, ProperId, Kept;
      var dir := SnapDir(root, meta.Id());
      ghost var was := tree;
      if left.None? || dir !in tree {
        if ProperId(meta.Id()) { RemoveRefines(root, tree, meta.Id()); }
        RemovalKeeps(root, tree, RemoveAll(tree, dir));
        tree := RemoveAll(tree, dir);
        return Ok(());
      }
      if ProperId(meta.Id()) { WriteRefines(root, tree, meta.Id(), Restrict(tree[dir], left.value)); }
      RemovalKeeps(root, tree, RemoveSome(tree, dir, left.value));
      tree := RemoveSome(tree, dir, left.value);
      return Err(DeleteFailed);
    }

    /** Deletes one snapshot of the job; a failure takes it out of the listing if it takes its metadata. */
    method DeleteListed(ghost was: Snapshots, ghost gone: seq<SnapshotMeta>, m: SnapshotMeta, left: Option<set<string>>,
                        ghost ns: string, ghost job: string)
      returns (r: Result<()>, ghost taken: bool)
      requires Valid()
      requires Proper(ns) && Proper(job) ==>
                 PrunedBy(was, Abstract(), gone, ns, job) && OfJob(m.Id(), ns, job) && m.Id() in Abstract()
      modifies this
      ensures Valid() && (r.Ok? ==> taken) && (r.Err? ==> left.Some? && r == Err(DeleteFailed))
      ensures Proper(ns) && Proper(job) ==> PrunedBy(was, Abstract(), if taken then gone + [m] else gone, ns, job)
    {
      taken := left.None? || META !in left.value;
      if Proper(ns) && Proper(job) {
        assert ProperId(m.Id());
        PruneOneMore(was, Abstract(), gone, m, ns, job);
        if left.Some? { PruneOneHalf(was, Abstract(), gone, m, ns, job, left.value); }
      }
      hide Kept, Abstraction, Proper, SnapDir, RemoveAll, RemoveSome, PrunedBy;
      r := Delete(m, left);
      if r.Ok? { taken := true; }
    }

    /** The loop over the snapshots to delete. */
    method DeleteHead(ghost was: Snapshots, ghost skipped: iset<SnapId>, metas: seq<SnapshotMeta>, keep: nat,
                      failAt: Option<nat>, left: set<string>, ghost ns: string, ghost job: string)
      returns (r: Result<()>, ghost k: nat)
      requires Valid() && keep <= |metas|
      requires Proper(ns) && Proper(job) ==>
                 IsListing(metas, Visible(was, skipped), ns, job) && PrunedBy(was, Abstract(), [], ns, job)
      modifies this
      ensures Valid() && k <= |metas| - keep && (r.Ok? ==> k == |metas| - keep)
      ensures r.Err? ==> failAt.Some? && r == Err(DeleteFailed)
      ensures Proper(ns) && Proper(job) ==> PrunedBy(was, Abstract(), metas[..k], ns, job)
    {
      hide Kept, Abstraction, Proper, SnapDir, PrunedBy, Visible, IsListing;
      assert metas[..0] == [];
      for i := 0 to |metas| - keep
        invariant Valid() && (Proper(ns) && Proper(job) ==> PrunedBy(was, Abstract(), metas[..i], ns, job))
      {
        assert metas[..i + 1] == metas[..i] + [metas[i]];
        if Proper(ns) && Proper(job) { ListedIsThere(was, Abstract(), skipped, metas, i, ns, job); }
        ghost var taken;
        r, taken := DeleteListed(was, metas[..i], metas[i], if failAt == Some(i) then Some(left) else None, ns, job);
        if r.Err? {
          return r, if taken then i + 1 else i;
        }
      }
      return Ok(()), |metas| - keep;
    }

    /**
     `failAt` is the deletion that fails, if one does, and `left` what it leaves behind; `unread` is what the listing
     passes over. Whatever happens the newest `keep` survive, and the survivors are the newest part of the job's
     snapshots exactly when nothing passed over is older than something deleted.
     */
    method Prune(jobKey: string, keep: nat, readable: bool, unread: set<Path>, failAt: Option<nat>, left: set<string>)
      returns (r: Result<()>, ghost listed: seq<SnapshotMeta>, ghost k: nat)
      requires Valid()
      modifies this
      ensures Valid() && k + Least(|listed|, keep) <= |listed|
      ensures SplitJobKey(jobKey).None? ==> r == Err(InvalidJobKey) && tree == old(tree)
      ensures r.Err? ==> SplitJobKey(jobKey).None? || (!readable && r == Err(ReadDirFailed)) || failAt.Some?
      ensures forall parts :: SplitJobKey(jobKey) == Some(parts) && Proper(parts.0) && Proper(parts.1) ==>
                if r == Err(ReadDirFailed) then !readable && tree == old(tree)
                else
                  && IsListing(listed, Visible(old(Abstract()), Skipped(unread)), parts.0, parts.1)
                  && PrunedBy(old(Abstract()), Abstract(), listed[..k], parts.0, parts.1)
                  && (r.Ok? ==> k + Least(|listed|, keep) == |listed|)
                  && (|listed| <= keep ==> r.Ok? && tree == old(tree))
                  && forall full :: IsListing(full, old(Abstract()), parts.0, parts.1) ==>
                       PruneIsRight(full, listed, k, keep, Abstract(), parts.0, parts.1)
    {
      ghost var was := Abstract();
      r, listed, k := PruneListed(jobKey, keep, readable, unread, failAt, left);
      hide Kept, Abstraction, Proper, SnapDir, SplitJobKey, PruneIsRight, PrunedBy, Visible, IsListing;
      var parts := SplitJobKey(jobKey);
      if parts.Some? && Proper(parts.value.0) && Proper(parts.value.1) && r != Err(ReadDirFailed) {
        var (ns, job) := parts.value;
        forall full | IsListing(full, was, ns, job) ensures PruneIsRight(full, listed, k, keep, Abstract(), ns, job) {
          PruneMeans(was, Abstract(), Skipped(unread), full, listed, k, keep, ns, job);
        }
      }
    }

    method PruneListed(jobKey: string, keep: nat, readable: bool, unread: set<Path>, failAt: Option<nat>,
                       left: set<string>)
      returns (r: Result<()>, ghost listed: seq<SnapshotMeta>, ghost k: nat)
      requires Valid()
      modifies this
      ensures Valid() && k + Least(|listed|, keep) <= |listed|
      ensures SplitJobKey(jobKey).None? ==> r == Err(InvalidJobKey) && tree == old(tree)
      ensures r.Err? ==> SplitJobKey(jobKey).None? || (!readable && r == Err(ReadDirFailed)) || failAt.Some?
      ensures forall parts :: SplitJobKey(jobKey) == Some(parts) && Proper(parts.0) && Proper(parts.1) ==>
                if r == Err(ReadDirFailed) then !readable && tree == old(tree)
                else
                  && IsListing(listed, Visible(old(Abstract()), Skipped(unread)), parts.0, parts.1)
                  && PrunedBy(old(Abstract()), Abstract(), listed[..k], parts.0, parts.1)
                  && (r.Ok? ==> k + Least(|listed|, keep) == |listed|)
                  && (|listed| <= keep ==> r.Ok? && tree == old(tree))
    {
      hide Kept, Abstraction, Proper, SnapDir, SplitJobKey, IsListing, Faithful, PrunedBy, Visible;
      listed, k := [], 0;
      var found := List(jobKey, readable, unread);
      if found.Err? {
        return Err(found.error), listed, k;
      }
      var metas := found.value;
      var parts := SplitJobKey(jobKey).value;
      listed := metas;
      assert metas[..0] == [];
      KeptIsFaithful(root, tree);
      PruneNone(Abstract(), parts.0, parts.1);
      if |metas| <= keep {
        return Ok(()), listed, k;
      }
      r, k := DeleteHead(Abstract(), Skipped(unread), metas, keep, failAt, left, parts.0, parts.1);
    }

    /** Two Prunes to the same number, the first of which succeeded. */
    method PruneTwice(jobKey: string, keep: nat, unread: set<Path>, failAt: Option<nat>, left: set<string>,
                      readable: bool, unreadAgain: set<Path>, failAgainAt: Option<nat>, leftAgain: set<string>)
      returns (r: Result<()>, q: Result<()>, ghost once: Tree, ghost listed: seq<SnapshotMeta>,
               ghost second: seq<SnapshotMeta>)
      requires Valid()
      modifies this
      ensures Valid()
      ensures forall parts :: SplitJobKey(jobKey) == Some(parts) && Proper(parts.0) && Proper(parts.1) && r.Ok? ==>
                if q == Err(ReadDirFailed) then !readable && tree == once
                else
                  && (|second| <= keep ==> tree == once)
                  && (|second| > keep && failAgainAt.None? ==> tree != once)
                  && PruningAgainIsRight(old(Abstract()), Abstraction(root, once), Skipped(unread),
                                         Skipped(unreadAgain), listed, second, keep, parts.0, parts.1)
    {
      hide Kept, Abstraction, Proper, SnapDir, SplitJobKey, IsListing, PrunedBy, Visible, PruningAgainIsRight;
      ghost var was, k, k2 := Abstract(), 0, 0;
      r, listed, k := PruneListed(jobKey, keep, true, unread, failAt, left);
      once := tree;
      q, second, k2 := PruneListed(jobKey, keep, readable, unreadAgain, failAgainAt, leftAgain);
      var parts := SplitJobKey(jobKey);
      if parts.Some? && Proper(parts.value.0) && Proper(parts.value.1) && r.Ok? && q != Err(ReadDirFailed) {
        ghost var (ns, job) := parts.value;
        ghost var between := Abstraction(root, once);
        PruningAgain(was, between, Skipped(unread), Skipped(unreadAgain), listed, second, keep, ns, job);
        if |second| > keep && failAgainAt.None? {
          DeletingChanges(between, Abstract(), Skipped(unreadAgain), second, k2, ns, job);
        }
      }
    }

    /** What is saved is listed and loaded. */
    method SaveAndRead(src: seq<Entry>, meta: SnapshotMeta)
      returns (listed: Result<seq<SnapshotMeta>>, loaded: Result<()>, out: Files)
      requires Valid() && IsDirListing(src) && ProperId(meta.Id())
      modifies this
      ensures Valid() && listed.Ok? && meta.(sizeBytes := TotalBytes(PlainFiles(src))) in listed.value
      ensures loaded.Ok? && IsLoaded(out, src, meta.Id() !in old(Abstract()))
    {
      hide Kept, Abstraction, SnapDir, SplitJobKey, PlainFiles, Visible, IsListing, IsLoaded, IsSaved;
      hide FilesAt, Restrict;
      ghost var wasEmpty := meta.Id() !in Abstract();
      var saved := Save(src, meta, true, Finished, true);
      JobKeyRoundTrip(meta.namespace, meta.jobName);
      listed := List(JobKey(meta.namespace, meta.jobName), true, {});
      NothingSkipped(Abstract(), Skipped({}));
      SavedIsListed(listed.value, Abstract(), src, meta, marshal, wasEmpty);
      SavedIsLoaded(Abstract()[meta.Id()], src, meta, marshal, wasEmpty);
      loaded, out := Load(meta, map[], true, None);
    }

    /** What is deleted is neither, and the rest of the job is listed as before. */
    method DeleteAndRead(meta: SnapshotMeta, ghost full: seq<SnapshotMeta>)
      returns (listed: Result<seq<SnapshotMeta>>, loaded: Result<()>, out: Files)
      requires Valid() && ProperId(meta.Id()) && IsListing(full, Abstract(), meta.namespace, meta.jobName)
      modifies this
      ensures Valid() && listed.Ok? && forall m :: m in listed.value <==> m in full && m.Id() != meta.Id()
      ensures loaded == Err(NotFound) && out == map[]
    {
      hide Kept, Abstraction, SnapDir, SplitJobKey, Visible, IsListing, Restrict, PartlyCopied;
      ghost var was := Abstract();
      var deleted := Delete(meta, None);
      JobKeyRoundTrip(meta.namespace, meta.jobName);
      listed := List(JobKey(meta.namespace, meta.jobName), true, {});
      NothingSkipped(Abstract(), Skipped({}));
      DeletedIsUnlisted(full, listed.value, was, meta, meta.namespace, meta.jobName);
      loaded, out := Load(meta, map[], true, None);
    }
  }
}
