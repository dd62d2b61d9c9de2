/** Applying the emitted patch list performs the intended edit. */
module WebhookEffect {
  import opened Text
  import opened Storage
  import opened JsonPatch
  import opened Webhook

  predicate Shape(doc: Json, items: seq<Json>) {
    && doc.Obj? && "spec" in doc.members && doc.members["spec"].Obj?
    && "containers" in doc.members["spec"].members && doc.members["spec"].members["containers"] == Arr(items)
  }

  function PutContainers(doc: Json, items: seq<Json>): (r: Json)
    requires doc.Obj? && "spec" in doc.members && doc.members["spec"].Obj?
    ensures Shape(r, items)
  {
    Obj(doc.members["spec" := Obj(doc.members["spec"].members["containers" := Arr(items)])])
  }

  lemma PutTwice(doc: Json, a: seq<Json>, b: seq<Json>)
    requires doc.Obj? && "spec" in doc.members && doc.members["spec"].Obj?
    ensures PutContainers(PutContainers(doc, a), b) == PutContainers(doc, b)
  {
    var spec := doc.members["spec"].members;
    assert spec["containers" := Arr(a)]["containers" := Arr(b)] == spec["containers" := Arr(b)];
    var inner, outer := Obj(spec["containers" := Arr(a)]), Obj(spec["containers" := Arr(b)]);
    assert doc.members["spec" := inner]["spec" := outer] == doc.members["spec" := outer];
  }

  lemma PutSame(doc: Json, items: seq<Json>)
    requires Shape(doc, items)
    ensures PutContainers(doc, items) == doc
  {
    var spec := doc.members["spec"].members;
    assert spec["containers" := Arr(items)] == spec;
    assert doc.members["spec" := doc.members["spec"]] == doc.members;
  }

  /** An addition inside container i leaves everything else alone. */
  lemma AddInContainer(doc: Json, items: seq<Json>, i: nat, path: seq<string>, value: Json)
    requires Shape(doc, items) && i < |items| && |path| > 3
    requires path[0] == "spec" && path[1] == "containers" && path[2] == Digits(i)
    ensures Add(doc, path, value) ==
            match Add(items[i], path[3..], value)
            case Some(c) => Some(PutContainers(doc, items[i := c]))
            case None => None
  {
    IndexIsPlain(i);
    var p1, p2, p3 := path[1..], path[2..], path[3..];
    assert p1[1..] == p2 && p2[1..] == p3;
    var containers := Arr(items);
    assert Add(containers, p2, value) ==
           match Add(items[i], p3, value) case Some(c) => Some(Arr(items[i := c])) case None => None;
    var spec := doc.members["spec"];
    assert Add(spec, p1, value) ==
           match Add(containers, p2, value)
           case Some(c) => Some(Obj(spec.members["containers" := c]))
           case None => None;
  }

  function SetEnv(c: Json, env: seq<Json>): Json
    requires c.Obj?
  {
    Obj(c.members["env" := Arr(env)])
  }

  lemma CreateStep(doc: Json, items: seq<Json>, i: nat, env: seq<Json>)
    requires Shape(doc, items) && i < |items| && items[i].Obj?
    ensures ApplyOne(doc, Patch("add", EnvPath(i), Arr(env))) ==
        Some(PutContainers(doc, items[i := SetEnv(items[i], env)]))
  {
    EnvPaths(i);
    var path := ["spec", "containers", Digits(i), "env"];
    assert path[3..] == ["env"];
    AddInContainer(doc, items, i, path, Arr(env));
  }

  lemma AppendStep(doc: Json, items: seq<Json>, i: nat, env: seq<Json>, value: Json)
    requires Shape(doc, items) && i < |items| && items[i].Obj?
    requires "env" in items[i].members && items[i].members["env"] == Arr(env)
    ensures ApplyOne(doc, Patch("add", EnvPath(i) + "/" + "-", value)) ==
            Some(PutContainers(doc, items[i := SetEnv(items[i], env + [value])]))
  {
    EnvPaths(i);
    var end := ["spec", "containers", Digits(i), "env", "-"];
    assert end[3..] == ["env", "-"];
    AppendEnv(items[i], env, value);
    AddInContainer(doc, items, i, end, value);
  }

  lemma SetEnvTwice(c: Json, a: seq<Json>, b: seq<Json>)
    requires c.Obj?
    ensures SetEnv(SetEnv(c, a), b) == SetEnv(c, b)
  {
    assert c.members["env" := Arr(a)]["env" := Arr(b)] == c.members["env" := Arr(b)];
  }

  lemma AppendTwice(doc: Json, items: seq<Json>, i: nat, env: seq<Json>, x: Json, y: Json)
    requires Shape(doc, items) && i < |items| && items[i].Obj?
    requires "env" in items[i].members && items[i].members["env"] == Arr(env)
    ensures Apply(doc, [Patch("add", EnvPath(i) + "/" + "-", x), Patch("add", EnvPath(i) + "/" + "-", y)]) ==
            Some(PutContainers(doc, items[i := SetEnv(items[i], env + [x, y])]))
  {
    var c1 := SetEnv(items[i], env + [x]);
    var items1 := items[i := c1];
    var doc1 := PutContainers(doc, items1);
    AppendStep(doc, items, i, env, x);
    AppendStep(doc1, items1, i, env + [x], y);
    assert env + [x] + [y] == env + [x, y];
    SetEnvTwice(items[i], env + [x], env + [x, y]);
    assert items1[i := SetEnv(items[i], env + [x, y])] == items[i := SetEnv(items[i], env + [x, y])];
    PutTwice(doc, items1, items[i := SetEnv(items[i], env + [x, y])]);
    ApplyPair(doc, Patch("add", EnvPath(i) + "/" + "-", x), doc1, Patch("add", EnvPath(i) + "/" + "-", y));
  }

  /** Container i's patches append the two entries to its environment. */
  lemma ContainerStep(doc: Json, items: seq<Json>, i: nat)
    requires Shape(doc, items) && i < |items|
    ensures Apply(doc, ContainerPatches(items[i], i)) == Some(PutContainers(doc, items[i := EditContainer(items[i])]))
  {
    var c := items[i];
    if !c.Obj? {
      assert items[i := c] == items;
      PutSame(doc, items);
    } else {
      var env, added := NestedItems(c, ["env"]), [LD_PRELOAD_ENV, VGPU_ENABLED_ENV];
      EnvIs(c);
      if |env| == 0 {
        assert env + added == added;
        CreateStep(doc, items, i, added);
        ApplySingle(doc, Patch("add", EnvPath(i), Arr(added)));
      } else {
        AppendTwice(doc, items, i, env, LD_PRELOAD_ENV, VGPU_ENABLED_ENV);
      }
    }
  }

  lemma EnvIs(c: Json)
    requires c.Obj?
    ensures NestedItems(c, ["env"]) ==
                if "env" in c.members && c.members["env"].Arr? then c.members["env"].items else []
  {
    assert ["env"][1..] == [];
    if "env" in c.members { assert Nested(c, ["env"]) == Nested(c.members["env"], []); }
  }

  lemma AppendEnv(c: Json, env: seq<Json>, value: Json)
    requires c.Obj? && "env" in c.members && c.members["env"] == Arr(env)
    ensures Add(c, ["env", "-"], value) == Some(Obj(c.members["env" := Arr(env + [value])]))
  {
    assert ["env", "-"][1..] == ["-"];
    assert Add(Arr(env), ["-"], value) == Some(Arr(env + [value]));
  }

  lemma ApplySingle(doc: Json, p: Patch)
    ensures Apply(doc, [p]) == ApplyOne(doc, p)
  {
    assert [p][1..] == [];
  }

  lemma ApplyPair(doc: Json, p: Patch, mid: Json, q: Patch)
    requires ApplyOne(doc, p) == Some(mid)
    ensures Apply(doc, [p, q]) == ApplyOne(mid, q)
  {
    assert [p, q][1..] == [q];
    ApplySingle(mid, q);
  }

  /** The containers once the first `k` have been edited. */
  function EditedUpTo(items: seq<Json>, k: nat): (r: seq<Json>)
    requires k <= |items|
    ensures |r| == |items|
  {
    EditAll(items[..k]) + items[k..]
  }

  lemma EditOneMore(items: seq<Json>, k: nat)
    requires k < |items|
    ensures EditedUpTo(items, k)[k] == items[k]
    ensures EditedUpTo(items, k)[k := EditContainer(items[k])] == EditedUpTo(items, k + 1)
  {
    hide EditContainer;
  }

  lemma EnvPatchesOneMore(items: seq<Json>, k: nat)
    requires k < |items|
    ensures EnvPatches(items[..k + 1]) == EnvPatches(items[..k]) + ContainerPatches(items[k], k)
  {
    hide ContainerPatches;
    assert items[..k + 1][..k] == items[..k];
  }

  /** The container patches, in order, edit the containers one after the other. */
  lemma {:induction false} EnvPatchesEdit(doc: Json, items: seq<Json>, k: nat)
    requires Shape(doc, items) && k <= |items|
    ensures Apply(doc, EnvPatches(items[..k])) == Some(PutContainers(doc, EditedUpTo(items, k)))
  {
    hide EditContainer, ContainerPatches;
    if k == 0 {
      assert EditedUpTo(items, 0) == items;
      PutSame(doc, items);
    } else {
      EnvPatchesEdit(doc, items, k - 1);
      EditNext(doc, items, k - 1);
    }
  }

  lemma EditNext(doc: Json, items: seq<Json>, k: nat)
    requires Shape(doc, items) && k < |items|
    requires Apply(doc, EnvPatches(items[..k])) == Some(PutContainers(doc, EditedUpTo(items, k)))
    ensures Apply(doc, EnvPatches(items[..k + 1])) == Some(PutContainers(doc, EditedUpTo(items, k + 1)))
  {
    hide Apply, EnvPatches, ContainerPatches, EditContainer, EditedUpTo;
    var before, after := EditedUpTo(items, k), EditedUpTo(items, k + 1);
    EnvPatchesOneMore(items, k);
    ApplyConcat(doc, EnvPatches(items[..k]), ContainerPatches(items[k], k));
    EditOneMore(items, k);
    ContainerStep(PutContainers(doc, before), before, k);
    PutTwice(doc, before, after);
  }

  // ---------------------------------------------------------------- annotations

  function PutMetadata(pod: Json, metadata: Json): Json
    requires pod.Obj?
  {
    Obj(pod.members["metadata" := metadata])
  }

  lemma AddAnnotation(pod: Json, annotations: map<string, Json>, key: string, value: Json)
    requires HasMetadata(pod)
    requires "annotations" in pod.members["metadata"].members
    requires pod.members["metadata"].members["annotations"] == Obj(annotations)
    ensures Add(pod, ["metadata", "annotations", key], value) ==
            var m := pod.members["metadata"].members;
            Some(PutMetadata(pod, Obj(m["annotations" := Obj(annotations[key := value])])))
  {
    assert ["metadata", "annotations", key][1..] == ["annotations", key] && ["annotations", key][1..] == [key];
    assert Add(Obj(annotations), [key], value) == Some(Obj(annotations[key := value]));
    assert Add(pod.members["metadata"], ["annotations", key], value) ==
           Some(Obj(pod.members["metadata"].members["annotations" := Obj(annotations[key := value])]));
  }

  lemma AnnotationsAre(pod: Json)
    ensures NestedMembers(pod, ["metadata", "annotations"]) ==
            if HasMetadata(pod) && "annotations" in pod.members["metadata"].members &&
            pod.members["metadata"].members["annotations"].Obj?
            then Some(pod.members["metadata"].members["annotations"].members) else None
  {
    assert ["metadata", "annotations"][1..] == ["annotations"] && ["annotations"][1..] == [];
    if pod.Obj? && "metadata" in pod.members {
      var m := pod.members["metadata"];
      assert Nested(pod, ["metadata", "annotations"]) == Nested(m, ["annotations"]);
      assert m.Obj? && "annotations" in m.members ==> Nested(m, ["annotations"]) == Some(m.members["annotations"]);
    }
  }

  lemma AddNeedsParent(doc: Json, a: string, b: string, value: Json)
    requires ArrayIndex(a).None? && ArrayIndex(b).None? && b != "-"
    ensures doc.Obj? && a in doc.members && doc.members[a].Obj? ==>
              Add(doc, [a, b], value) ==
              Some(Obj(doc.members[a := Obj(doc.members[a].members[b := value])]))
    ensures !(doc.Obj? && a in doc.members && doc.members[a].Obj?) ==> Add(doc, [a, b], value).None?
  {
    assert [a, b][1..] == [b];
    if doc.Obj? && a in doc.members {
      var child := doc.members[a];
      assert Add(child, [b], value) == if child.Obj? then Some(Obj(child.members[b := value])) else None;
    }
  }

  lemma NamesAreNoIndices()
    ensures ArrayIndex("metadata").None? && ArrayIndex("annotations").None?
  {
    assert !IsDigit("metadata"[0]) && !IsDigit("annotations"[0]);
  }

  /** The first patch of a pod without annotations: without a metadata object it has nowhere to go. */
  lemma CreateAnnotations(pod: Json, path: string)
    requires Tokens(path) == Some(["metadata", "annotations"])
    ensures ApplyOne(pod, Patch("add", path, Obj(map[]))) ==
            if HasMetadata(pod) then Some(PutMetadata(pod, SetAnnotations(pod.members["metadata"], map[]))) else None
  {
    NamesAreNoIndices();
    AddNeedsParent(pod, "metadata", "annotations", Obj(map[]));
  }

  lemma AnnotationsNeedMetadata(pod: Json, now: string)
    requires !HasMetadata(pod)
    ensures Apply(pod, AnnotationPatches(pod, now)).None?
  {
    AnnotationsAre(pod);
    AnnotationPaths();
    CreateAnnotations(pod, ANNOTATIONS_PATH);
    assert AnnotationPatches(pod, now)[0] == Patch("add", ANNOTATIONS_PATH, Obj(map[]));
  }

  lemma PutMetadataTwice(pod: Json, a: Json, b: Json)
    requires pod.Obj?
    ensures PutMetadata(PutMetadata(pod, a), b) == PutMetadata(pod, b)
  {
    assert pod.members["metadata" := a]["metadata" := b] == pod.members["metadata" := b];
  }

  function SetAnnotations(metadata: Json, annotations: map<string, Json>): Json
    requires metadata.Obj?
  {
    Obj(metadata.members["annotations" := Obj(annotations)])
  }

  lemma AnnotateStep(pod: Json, metadata: Json, annotations: map<string, Json>, path: string, key: string, value: Json)
    requires pod.Obj? && metadata.Obj? && Tokens(path) == Some(["metadata", "annotations", key])
    ensures ApplyOne(PutMetadata(pod, SetAnnotations(metadata, annotations)), Patch("add", path, value)) ==
            Some(PutMetadata(pod, SetAnnotations(metadata, annotations[key := value])))
  {
    var doc := PutMetadata(pod, SetAnnotations(metadata, annotations));
    AddAnnotation(doc, annotations, key, value);
    assert metadata.members["annotations" := Obj(annotations)]["annotations" := Obj(annotations[key := value])] ==
           metadata.members["annotations" := Obj(annotations[key := value])];
    PutMetadataTwice(pod, SetAnnotations(metadata, annotations), SetAnnotations(metadata, annotations[key := value]));
  }

  /** The two annotation patches add their two annotations. */
  lemma AnnotateBoth(pod: Json, metadata: Json, annotations: map<string, Json>, now: string)
    requires pod.Obj? && metadata.Obj?
    ensures Apply(PutMetadata(pod, SetAnnotations(metadata, annotations)),
                  [Patch("add", BILLING_PATH, Str("true")), Patch("add", INJECTED_PATH, Str(now))]) ==
            Some(PutMetadata(pod, SetAnnotations(metadata,
              annotations[BILLING_KEY := Str("true")][INJECTED_KEY := Str(now)])))
  {
    AnnotationPaths();
    var start := PutMetadata(pod, SetAnnotations(metadata, annotations));
    var mid := annotations[BILLING_KEY := Str("true")];
    AnnotateStep(pod, metadata, annotations, BILLING_PATH, BILLING_KEY, Str("true"));
    AnnotateStep(pod, metadata, mid, INJECTED_PATH, INJECTED_KEY, Str(now));
    ApplyPair(start, Patch("add", BILLING_PATH, Str("true")), PutMetadata(pod, SetAnnotations(metadata, mid)),
              Patch("add", INJECTED_PATH, Str(now)));
  }

  lemma AnnotationPatchesEdit(pod: Json, now: string)
    requires HasMetadata(pod)
    ensures Apply(pod, AnnotationPatches(pod, now)) ==
        Some(PutMetadata(pod, EditMetadata(pod.members["metadata"], now)))
  {
    var m := pod.members["metadata"];
    var two := [Patch("add", BILLING_PATH, Str("true")), Patch("add", INJECTED_PATH, Str(now))];
    AnnotationsAre(pod);
    AnnotationsOf(m);
    if NestedMembers(pod, ["metadata", "annotations"]).None? {
      var first := Patch("add", ANNOTATIONS_PATH, Obj(map[]));
      AnnotationPaths();
      CreateAnnotations(pod, ANNOTATIONS_PATH);
      ApplySingle(pod, first);
      ApplyConcat(pod, [first], two);
      AnnotateBoth(pod, m, map[], now);
    } else {
      var annotations := m.members["annotations"].members;
      assert m.members["annotations" := Obj(annotations)] == m.members;
      assert pod.members["metadata" := m] == pod.members;
      assert [] + two == two;
      AnnotateBoth(pod, m, annotations, now);
    }
  }

  lemma AnnotationsOf(m: Json)
    requires m.Obj?
    ensures NestedMembers(m, ["annotations"]) ==
            if "annotations" in m.members && m.members["annotations"].Obj?
            then Some(m.members["annotations"].members) else None
  {
    assert ["annotations"][1..] == [];
    if "annotations" in m.members { assert Nested(m, ["annotations"]) == Nested(m.members["annotations"], []); }
  }

  lemma ContainersShape(pod: Json)
    requires Containers(pod) != []
    ensures Shape(pod, Containers(pod))
  {
    assert ["spec", "containers"][1..] == ["containers"] && ["containers"][1..] == [];
    if pod.Obj? && "spec" in pod.members {
      var spec := pod.members["spec"];
      assert Nested(pod, ["spec", "containers"]) == Nested(spec, ["containers"]);
      if spec.Obj? && "containers" in spec.members {
        assert Nested(spec, ["containers"]) == Nested(spec.members["containers"], []);
      }
    }
  }

  lemma EditIsBoth(pod: Json, now: string)
    requires HasMetadata(pod) && HasVgpu(pod)
    ensures Shape(PutMetadata(pod, EditMetadata(pod.members["metadata"], now)), Containers(pod))
    ensures var mid := PutMetadata(pod, EditMetadata(pod.members["metadata"], now));
      PutContainers(mid, EditAll(Containers(pod))) == Edit(pod, now)
  {
    ContainersShape(pod);
  }

  /** `r` is `doc` with only the value under `key` different. */
  predicate OnlyDiffersAt(r: Json, doc: Json, key: string) {
    && r.Obj? && doc.Obj? && r.members.Keys == doc.members.Keys + {key}
    && forall k :: k in doc.members && k != key ==> r.members[k] == doc.members[k]
  }

  /** The edited container: the two variables at the end of its environment, and all else as it was. */
  lemma EditedContainer(c: Json)
    requires c.Obj?
    ensures var r := EditContainer(c);
      && OnlyDiffersAt(r, c, "env")
      && r.members["env"] == Arr((if Has(c, "env") && c.members["env"].Arr? then c.members["env"].items else []) + [
           Obj(map["name" := Str("LD_PRELOAD"), "value" := Str("/usr/lib/phoenixgpu/libvgpu.so")]),
           Obj(map["name" := Str("PHOENIXGPU_VGPU_ENABLED"), "value" := Str("1")])])
  {
    assert ["env"][1..] == [];
    if Has(c, "env") { assert Nested(c, ["env"]) == Nested(c.members["env"], []); }
  }

  /** The annotations of a metadata object; none if they are missing or no object. */
  function AnnotationsIn(m: Json): map<string, Json> {
    if Has(m, "annotations") && m.members["annotations"].Obj? then m.members["annotations"].members else map[]
  }

  /** The edited metadata: the two annotations among the others, and all else as it was. */
  lemma EditedMetadata(m: Json, now: string)
    requires m.Obj?
    ensures var r := EditMetadata(m, now);
      var was, a, billing, injected :=
        AnnotationsIn(m), AnnotationsIn(r), "phoenixgpu.io/billing-enabled", "phoenixgpu.io/injected-at";
      && OnlyDiffersAt(r, m, "annotations") && r.members["annotations"].Obj?
      && a.Keys == was.Keys + {billing, injected} && a[billing] == Str("true") && a[injected] == Str(now)
      && forall k :: k in was && k != billing && k != injected ==> a[k] == was[k]
  {
    AnnotationsOf(m);
    assert BILLING_KEY == "phoenixgpu.io/billing-enabled" && INJECTED_KEY == "phoenixgpu.io/injected-at";
    assert "phoenixgpu.io/billing-enabled"[14] != "phoenixgpu.io/injected-at"[14];
  }

  /** The edited pod differs only in metadata and spec, its spec only in the containers, and each of these is edited. */
  lemma EditedPod(pod: Json, now: string)
    requires HasMetadata(pod) && HasVgpu(pod)
    ensures var r := Edit(pod, now);
      && r.Obj? && Has(pod, "spec") && r.members.Keys == pod.members.Keys
      && (forall k :: k in pod.members && k != "metadata" && k != "spec" ==> r.members[k] == pod.members[k])
      && r.members["metadata"] == EditMetadata(pod.members["metadata"], now)
      && OnlyDiffersAt(r.members["spec"], pod.members["spec"], "containers")
      && var was, list := Containers(pod), r.members["spec"].members["containers"];
         list.Arr? && |list.items| == |was| && forall i :: 0 <= i < |was| ==> list.items[i] == EditContainer(was[i])
  {
    ContainersShape(pod);
  }

  lemma PatchesEdit(pod: Json, now: string)
    requires HasVgpu(pod) && HasMetadata(pod)
    ensures Apply(pod, AnnotationPatches(pod, now) + EnvPatches(Containers(pod))) == Some(Edit(pod, now))
  {
    var items := Containers(pod);
    var mid := PutMetadata(pod, EditMetadata(pod.members["metadata"], now));
    ApplyConcat(pod, AnnotationPatches(pod, now), EnvPatches(items));
    AnnotationPatchesEdit(pod, now);
    EditIsBoth(pod, now);
    EnvPatchesEdit(mid, items, |items|);
    assert items[..|items|] == items && EditAll(items) + items[|items|..] == EditAll(items);
  }

  /**
   A pod that requests no vGPU gets no patch. For every other pod, applying the list in order fails exactly
   when the pod has no metadata object; otherwise it yields the pod with the two annotations and, at the end of
   every container's environment, the two entries, and nothing else changed.
   */
  lemma PatchesPerformTheEdit(pod: Json, now: string)
    ensures !HasVgpu(pod) ==> PatchList(pod, now) == []
    ensures HasVgpu(pod) ==>
              Apply(pod, PatchList(pod, now)) == if HasMetadata(pod) then Some(Edit(pod, now)) else None
  {
    if HasVgpu(pod) {
      if HasMetadata(pod) {
        PatchesEdit(pod, now);
      } else {
        ApplyConcat(pod, AnnotationPatches(pod, now), EnvPatches(Containers(pod)));
        AnnotationsNeedMetadata(pod, now);
      }
    }
  }
}
