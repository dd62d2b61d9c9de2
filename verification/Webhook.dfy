/** The pod mutation webhook: the patch list it emits, and the edit that list means. */
module Webhook {
  import opened Text
  import opened Storage
  import opened JsonPatch

  // ---------------------------------------------------------------- what the code reads

  /** unstructured.NestedFieldNoCopy. */
  function Nested(doc: Json, fields: seq<string>): Option<Json> {
    if fields == [] then Some(doc)
    else if doc.Obj? && fields[0] in doc.members then Nested(doc.members[fields[0]], fields[1..])
    else None
  }

  /** unstructured.NestedSlice and NestedMap: nothing when the field is missing or of another type. */
  function NestedItems(doc: Json, fields: seq<string>): seq<Json> {
    match Nested(doc, fields)
    case Some(Arr(items)) => items
    case _ => []
  }

  function NestedMembers(doc: Json, fields: seq<string>): Option<map<string, Json>> {
    match Nested(doc, fields)
    case Some(Obj(members)) => Some(members)
    case _ => None
  }

  predicate Contains(s: string, sub: string) {
    sub <= s || (s != [] && Contains(s[1..], sub))
  }

  function Containers(pod: Json): seq<Json> {
    NestedItems(pod, ["spec", "containers"])
  }

  function Requests(container: Json): set<string> {
    match NestedMembers(container, ["resources", "requests"])
    case Some(members) => members.Keys
    case None => {}
  }

  predicate RequestsVgpu(container: Json) {
    container.Obj? && exists k :: k in Requests(container) && Contains(k, "vgpu")
  }

  predicate HasVgpu(pod: Json) {
    exists c :: c in Containers(pod) && RequestsVgpu(c)
  }

  // ---------------------------------------------------------------- which pods it reads as asking for a vgpu

  predicate OccursAt(s: string, sub: string, i: int) {
    0 <= i && i + |sub| <= |s| && s[i..i + |sub|] == sub
  }

  lemma OccursInTail(s: string, sub: string, i: int)
    requires s != [] && i > 0
    ensures OccursAt(s, sub, i) <==> OccursAt(s[1..], sub, i - 1)
  {
    if i + |sub| <= |s| { assert s[1..][i - 1..i - 1 + |sub|] == s[i..i + |sub|]; }
  }

  lemma {:induction false} ContainsIffOccurs(s: string, sub: string)
    ensures Contains(s, sub) <==> exists i :: OccursAt(s, sub, i)
  {
    assert sub <= s <==> OccursAt(s, sub, 0);
    if s != [] {
      ContainsIffOccurs(s[1..], sub);
      forall i | i > 0 ensures OccursAt(s, sub, i) <==> OccursAt(s[1..], sub, i - 1) { OccursInTail(s, sub, i); }
      forall i | OccursAt(s[1..], sub, i) ensures OccursAt(s, sub, i + 1) { OccursInTail(s, sub, i + 1); }
      hide OccursAt;
      if i :| OccursAt(s, sub, i) { NotBefore(s, sub, i); }
    } else if i :| OccursAt(s, sub, i) {
      assert i == 0;
    }
  }

  lemma NotBefore(s: string, sub: string, i: int)
    requires OccursAt(s, sub, i)
    ensures i >= 0
  {}

  /** The value under a key of an object, where there is one. */
  predicate Has(doc: Json, key: string) {
    doc.Obj? && key in doc.members
  }

  lemma NestedTwo(doc: Json, a: string, b: string)
    ensures Nested(doc, [a, b])
            == if Has(doc, a) && Has(doc.members[a], b) then Some(doc.members[a].members[b]) else None
  {
    assert [a, b][1..] == [b] && [b][1..] == [];
    if Has(doc, a) {
      assert Nested(doc, [a, b]) == Nested(doc.members[a], [b]);
      if Has(doc.members[a], b) { assert Nested(doc.members[a], [b]) == Nested(doc.members[a].members[b], []); }
    }
  }

  /** The object resources.requests of a container, if there is one. */
  predicate HasRequests(c: Json) {
    Has(c, "resources") && Has(c.members["resources"], "requests") && c.members["resources"].members["requests"].Obj?
  }

  /** A container asks for a vgpu if a key of the object resources.requests has "vgpu" in it, anywhere. */
  lemma RequestsVgpuIff(c: Json)
    ensures RequestsVgpu(c) <==>
      HasRequests(c) && exists k, i :: k in c.members["resources"].members["requests"].members && OccursAt(k, "vgpu", i)
  {
    NestedTwo(c, "resources", "requests");
    hide Nested, Contains, OccursAt;
    forall k ensures Contains(k, "vgpu") <==> exists i :: OccursAt(k, "vgpu", i) { ContainsIffOccurs(k, "vgpu"); }
    assert HasRequests(c) ==> Requests(c) == c.members["resources"].members["requests"].members.Keys;
    assert !HasRequests(c) ==> Requests(c) == {};
  }

  /** A pod does if a container in the list spec.containers does. */
  lemma HasVgpuIff(pod: Json)
    ensures HasVgpu(pod) <==>
      && Has(pod, "spec") && Has(pod.members["spec"], "containers") && pod.members["spec"].members["containers"].Arr?
      && exists c :: c in pod.members["spec"].members["containers"].items && RequestsVgpu(c)
  {
    NestedTwo(pod, "spec", "containers");
    hide RequestsVgpu;
  }

  // ---------------------------------------------------------------- the intended edit

  const LD_PRELOAD_ENV: Json := Obj(map["name" := Str("LD_PRELOAD"), "value" := Str("/usr/lib/phoenixgpu/libvgpu.so")])
  const VGPU_ENABLED_ENV: Json := Obj(map["name" := Str("PHOENIXGPU_VGPU_ENABLED"), "value" := Str("1")])
  const VENDOR: string := "phoenixgpu.io"
  const BILLING_KEY: string := VENDOR + "/" + "billing-enabled"
  const INJECTED_KEY: string := VENDOR + "/" + "injected-at"

  /** The two entries appended at the end of the environment; anything that is not a list counts as empty. */
  function EditContainer(c: Json): Json {
    if c.Obj? then Obj(c.members["env" := Arr(NestedItems(c, ["env"]) + [LD_PRELOAD_ENV, VGPU_ENABLED_ENV])]) else c
  }

  function EditAll(items: seq<Json>): (r: seq<Json>)
    ensures |r| == |items| && forall i :: 0 <= i < |r| ==> r[i] == EditContainer(items[i])
  {
    seq(|items|, i requires 0 <= i < |items| => EditContainer(items[i]))
  }

  function EditMetadata(metadata: Json, now: string): Json
    requires metadata.Obj?
  {
    var annotations := match NestedMembers(metadata, ["annotations"]) case Some(a) => a case None => map[];
    Obj(metadata.members["annotations" := Obj(annotations[BILLING_KEY := Str("true")][INJECTED_KEY := Str(now)])])
  }

  predicate HasMetadata(pod: Json) {
    pod.Obj? && "metadata" in pod.members && pod.members["metadata"].Obj?
  }

  /** The pod with two annotations added and every container's environment extended, and nothing else changed. */
  function Edit(pod: Json, now: string): Json
    requires HasMetadata(pod) && HasVgpu(pod)
  {
    assert Containers(pod) != [];
    assert Nested(pod, ["spec", "containers"]) == Nested(pod.members["spec"], ["spec", "containers"][1..]);
    var spec := pod.members["spec"];
    Obj(pod.members["metadata" := EditMetadata(pod.members["metadata"], now)]
                   ["spec" := Obj(spec.members["containers" := Arr(EditAll(Containers(pod)))])])
  }

  // ---------------------------------------------------------------- the emitted patches

  const ANNOTATIONS_PATH: string := "/" + "metadata" + "/" + "annotations"
  const BILLING_PATH: string := ANNOTATIONS_PATH + "/" + (VENDOR + "~1" + "billing-enabled")
  const INJECTED_PATH: string := ANNOTATIONS_PATH + "/" + (VENDOR + "~1" + "injected-at")
  const CONTAINERS_PATH: string := "/" + "spec" + "/" + "containers"

  function AnnotationPatches(pod: Json, now: string): seq<Patch> {
    (if NestedMembers(pod, ["metadata", "annotations"]).None?
     then [Patch("add", ANNOTATIONS_PATH, Obj(map[]))] else []) +
    [Patch("add", BILLING_PATH, Str("true")), Patch("add", INJECTED_PATH, Str(now))]
  }

  function EnvPath(i: nat): string {
    CONTAINERS_PATH + "/" + Digits(i) + "/" + "env"
  }

  function ContainerPatches(c: Json, i: nat): seq<Patch> {
    if !c.Obj? then []
    else if |NestedItems(c, ["env"])| == 0 then [Patch("add", EnvPath(i), Arr([LD_PRELOAD_ENV, VGPU_ENABLED_ENV]))]
    else [Patch("add", EnvPath(i) + "/" + "-", LD_PRELOAD_ENV), Patch("add", EnvPath(i) + "/" + "-", VGPU_ENABLED_ENV)]
  }

  function EnvPatches(containers: seq<Json>): seq<Patch> {
    if containers == [] then []
    else EnvPatches(containers[..|containers| - 1]) + ContainerPatches(containers[|containers| - 1], |containers| - 1)
  }

  function PatchList(pod: Json, now: string): seq<Patch> {
    if HasVgpu(pod) then AnnotationPatches(pod, now) + EnvPatches(Containers(pod)) else []
  }

  method AnyRequestsVgpu(containers: seq<Json>) returns (hasVgpu: bool)
    ensures hasVgpu <==> exists c :: c in containers && RequestsVgpu(c)
  {
    hasVgpu := false;
    for i := 0 to |containers|
      invariant hasVgpu <==> exists k :: 0 <= k < i && RequestsVgpu(containers[k])
    {
      if !containers[i].Obj? { continue; }
      var todo := Requests(containers[i]);
      while todo != {}
        invariant todo <= Requests(containers[i])
        invariant forall k :: k in Requests(containers[i]) - todo ==> !Contains(k, "vgpu")
      {
        var k :| k in todo;
        todo := todo - {k};
        if Contains(k, "vgpu") {
          hasVgpu := true;
          break;
        }
      }
    }
  }

  /** `now` is the formatted time of the call. */
  method BuildMutationPatches(pod: Json, now: string) returns (patches: seq<Patch>)
    ensures patches == PatchList(pod, now)
  {
    hide EnvPatches, Containers, RequestsVgpu, NestedMembers;
    patches := [];
    var containers := Containers(pod);
    var hasVgpu := AnyRequestsVgpu(containers);
    if !hasVgpu {
      return;
    }
    if NestedMembers(pod, ["metadata", "annotations"]).None? {
      patches := patches + [Patch("add", ANNOTATIONS_PATH, Obj(map[]))];
    }
    patches := patches + [Patch("add", BILLING_PATH, Str("true"))];
    patches := patches + [Patch("add", INJECTED_PATH, Str(now))];
    patches := AddEnvPatches(patches, containers);
  }

  /** One round of the loop over the containers. */
  method AddContainerEnv(start: seq<Patch>, container: Json, i: nat) returns (patches: seq<Patch>)
    ensures patches == start + ContainerPatches(container, i)
  {
    hide EnvPath, NestedItems;
    patches := start;
    if !container.Obj? {
      return;
    }
    var envPath := EnvPath(i);
    var existingEnv := NestedItems(container, ["env"]);
    if |existingEnv| == 0 {
      patches := patches + [Patch("add", envPath, Arr([LD_PRELOAD_ENV, VGPU_ENABLED_ENV]))];
    } else {
      patches := patches + [Patch("add", envPath + "/" + "-", LD_PRELOAD_ENV)];
      patches := patches + [Patch("add", envPath + "/" + "-", VGPU_ENABLED_ENV)];
    }
  }

  method AddEnvPatches(start: seq<Patch>, containers: seq<Json>) returns (patches: seq<Patch>)
    ensures patches == start + EnvPatches(containers)
  {
    hide ContainerPatches;
    patches := start;
    for i := 0 to |containers|
      invariant patches == start + EnvPatches(containers[..i])
    {
      assert containers[..i + 1][..i] == containers[..i];
      patches := AddContainerEnv(patches, containers[i], i);
    }
    assert containers[..|containers|] == containers;
  }

  // ---------------------------------------------------------------- what the paths point at

  lemma PlainNames()
    ensures NeedsNoEscape("metadata") && NeedsNoEscape("annotations") && NeedsNoEscape("spec")
    ensures NeedsNoEscape("containers") && NeedsNoEscape("env") && NeedsNoEscape("-")
  {}

  lemma PlainKeys()
    ensures NeedsNoEscape(VENDOR) && NeedsNoEscape("billing-enabled") && NeedsNoEscape("injected-at")
  {}

  /** How the paths in the code read as pointers. */
  lemma PointsAtPair(a: string, b: string)
    requires NeedsNoEscape(a) && NeedsNoEscape(b)
    ensures Tokens("/" + a + "/" + b) == Some([a, b])
  {
    assert [b][1..] == [] && [a, b][1..] == [b];
    PlainStep(b, [], [b]);
    PlainStep(a, "/" + b + [], [a, b]);
    assert "/" + a + ("/" + b + []) == "/" + a + "/" + b;
  }

  lemma PointsAtAnnotation(a: string, b: string, vendor: string, name: string, c: string)
    requires NeedsNoEscape(a) && NeedsNoEscape(b) && NeedsNoEscape(vendor) && NeedsNoEscape(name)
    requires c == vendor + "~1" + name
    ensures Tokens("/" + a + "/" + b + "/" + c) == Some([a, b, vendor + "/" + name])
  {
    var key := vendor + "/" + name;
    EscapedKey(vendor, name);
    TokensStep(key, []);
    assert [key] + [] == [key] && [b, key][1..] == [key] && [a, b, key][1..] == [b, key];
    PlainStep(b, "/" + c + [], [b, key]);
    PlainStep(a, "/" + b + ("/" + c + []), [a, b, key]);
    Regroup(a, b, c, [], []);
  }

  lemma EscapedKey(vendor: string, name: string)
    requires NeedsNoEscape(vendor) && NeedsNoEscape(name)
    ensures Escape(vendor + "/" + name) == vendor + "~1" + name
  {
    EscapePlain(vendor);
    EscapePlain(name);
    EscapeConcat(vendor + "/", name);
    EscapeConcat(vendor, "/");
    assert Escape("/") == "~1";
  }

  lemma AnnotationPaths()
    ensures Tokens(ANNOTATIONS_PATH) == Some(["metadata", "annotations"])
    ensures Tokens(BILLING_PATH) == Some(["metadata", "annotations", BILLING_KEY])
    ensures Tokens(INJECTED_PATH) == Some(["metadata", "annotations", INJECTED_KEY])
  {
    PlainNames();
    PlainKeys();
    PointsAtPair("metadata", "annotations");
    PointsAtAnnotation("metadata", "annotations", VENDOR, "billing-enabled", VENDOR + "~1" + "billing-enabled");
    PointsAtAnnotation("metadata", "annotations", VENDOR, "injected-at", VENDOR + "~1" + "injected-at");
  }

  lemma IndexIsPlain(i: nat)
    ensures NeedsNoEscape(Digits(i)) && ArrayIndex(Digits(i)) == Some(i) && Digits(i) != "-"
  {
    forall k | 0 <= k < |Digits(i)| ensures Digits(i)[k] != '/' && Digits(i)[k] != '~' {}
    if i == 0 { assert Digits(i) == "0"; }
  }

  lemma PointsAtEnv(a: string, b: string, index: string, c: string)
    requires NeedsNoEscape(a) && NeedsNoEscape(b) && NeedsNoEscape(index) && NeedsNoEscape(c)
    ensures Tokens("/" + a + "/" + b + "/" + index + "/" + c) == Some([a, b, index, c])
  {
    assert [c][1..] == [] && [index, c][1..] == [c];
    assert [b, index, c][1..] == [index, c] && [a, b, index, c][1..] == [b, index, c];
    PlainStep(c, [], [c]);
    PlainStep(index, "/" + c + [], [index, c]);
    PlainStep(b, "/" + index + ("/" + c + []), [b, index, c]);
    PlainStep(a, "/" + b + ("/" + index + ("/" + c + [])), [a, b, index, c]);
    Regroup(a, b, index, c, []);
  }

  lemma PointsAtEnd(a: string, b: string, index: string, c: string, d: string)
    requires NeedsNoEscape(a) && NeedsNoEscape(b) && NeedsNoEscape(index) && NeedsNoEscape(c) && NeedsNoEscape(d)
    ensures Tokens("/" + a + "/" + b + "/" + index + "/" + c + "/" + d) == Some([a, b, index, c, d])
  {
    assert [d][1..] == [] && [c, d][1..] == [d] && [index, c, d][1..] == [c, d];
    assert [b, index, c, d][1..] == [index, c, d] && [a, b, index, c, d][1..] == [b, index, c, d];
    PlainStep(d, [], [d]);
    PlainStep(c, "/" + d + [], [c, d]);
    PlainStep(index, "/" + c + ("/" + d + []), [index, c, d]);
    PlainStep(b, "/" + index + ("/" + c + ("/" + d + [])), [b, index, c, d]);
    PlainStep(a, "/" + b + ("/" + index + ("/" + c + ("/" + d + []))), [a, b, index, c, d]);
    Regroup(a, b, index, c, d);
  }

  lemma EnvPaths(i: nat)
    ensures Tokens(EnvPath(i)) == Some(["spec", "containers", Digits(i), "env"])
    ensures Tokens(EnvPath(i) + "/" + "-") == Some(["spec", "containers", Digits(i), "env", "-"])
  {
    PlainNames();
    IndexIsPlain(i);
    PointsAtEnv("spec", "containers", Digits(i), "env");
    PointsAtEnd("spec", "containers", Digits(i), "env", "-");
  }
}
