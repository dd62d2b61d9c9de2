/** The device plugin: GPUs cut into slices, and what a container is given for the slices it asks for. */
module DevicePlugin {
  import Division
  import Text

  datatype PhysicalGpu = PhysicalGpu(index: int, uuid: string, model: string, memoryMiB: int, healthy: bool)

  datatype VgpuDevice = VgpuDevice(
    id: string, physicalIndex: int, physicalUuid: string, memoryMiB: int, healthy: bool)

  // ---------------------------------------------------------------- slice ids

  const GPU: string := "gpu-"
  const SLICE: string := "lice-"

  /** gpu-<index>-slice-<s>, with the 's' of "slice" as the separator. */
  function SliceId(index: int, s: int): string {
    (GPU + Text.Padded(index, 0) + "-") + ['s'] + (SLICE + Text.Padded(s, 0))
  }

  lemma SliceIdsAreApart(i: int, s: int, j: int, t: int)
    ensures SliceId(i, s) == SliceId(j, t) <==> i == j && s == t
  {
    if SliceId(i, s) == SliceId(j, t) {
      var a, b := GPU + Text.Padded(i, 0) + "-", GPU + Text.Padded(j, 0) + "-";
      var x, y := SLICE + Text.Padded(s, 0), SLICE + Text.Padded(t, 0);
      NoSeparator(i);
      NoSeparator(j);
      Text.SplitIsUnique(a, x, b, y, 's');
      Text.SplitIsUnique(b, y, a, x, 's');
      assert Text.Padded(i, 0) == a[|GPU|..|a| - 1] == Text.Padded(j, 0);
      assert Text.Padded(s, 0) == x[|SLICE|..] == Text.Padded(t, 0);
      Text.PaddedRoundTrip(i, 0);
      Text.PaddedRoundTrip(j, 0);
      Text.PaddedRoundTrip(s, 0);
      Text.PaddedRoundTrip(t, 0);
    }
  }

  lemma NoSeparator(i: int)
    ensures 's' !in GPU + Text.Padded(i, 0) + "-"
  {
    Text.PaddedRoundTrip(i, 0);
    Text.NumeralAvoids(Text.Padded(i, 0), 's');
  }

  lemma SliceIdLayout(index: nat, s: nat)
    ensures SliceId(index, s) == "gpu-" + Text.Digits(index) + "-slice-" + Text.Digits(s)
  {}

  // ---------------------------------------------------------------- cutting GPUs into slices

  function SliceOf(gpu: PhysicalGpu, n: int, s: int): VgpuDevice
    requires n != 0
  {
    VgpuDevice(SliceId(gpu.index, s), gpu.index, gpu.uuid, Division.Trunc(gpu.memoryMiB, n), gpu.healthy)
  }

  /** The first `k` slices of a GPU. */
  function Slices(gpu: PhysicalGpu, n: int, k: nat): (ds: seq<VgpuDevice>)
    requires n != 0
  {
    if k == 0 then [] else Slices(gpu, n, k - 1) + [SliceOf(gpu, n, k - 1)]
  }

  function PerGpu(n: int): nat {
    if n > 0 then n else 0
  }

  function Devices(gpus: seq<PhysicalGpu>, n: int): seq<VgpuDevice>
    requires n != 0
  {
    if gpus == [] then [] else Devices(gpus[..|gpus| - 1], n) + Slices(gpus[|gpus| - 1], n, PerGpu(n))
  }

  /** With no slices the division panics, so `slicesPerGpu` is not zero. */
  method BuildVgpuDevices(gpus: seq<PhysicalGpu>, slicesPerGpu: int) returns (devices: seq<VgpuDevice>)
    requires slicesPerGpu != 0
    ensures devices == Devices(gpus, slicesPerGpu)
  {
    hide SliceId, Division.Trunc;
    devices := [];
    for g := 0 to |gpus|
      invariant devices == Devices(gpus[..g], slicesPerGpu)
    {
      var gpu := gpus[g];
      var memPerSlice := Division.Trunc(gpu.memoryMiB, slicesPerGpu);
      var s := 0;
      while s < slicesPerGpu
        invariant 0 <= s <= PerGpu(slicesPerGpu)
        invariant devices == Devices(gpus[..g], slicesPerGpu) + Slices(gpu, slicesPerGpu, s)
      {
        devices := devices + [VgpuDevice(SliceId(gpu.index, s), gpu.index, gpu.uuid, memPerSlice, gpu.healthy)];
        s := s + 1;
      }
      assert gpus[..g + 1][..g] == gpus[..g];
    }
    assert gpus[..|gpus|] == gpus;
  }

  /** Slice `s` of GPU `g` in the list of devices: its id, its GPU, its share of the memory, and the GPU's health. */
  lemma {:induction false} DeviceAt(gpus: seq<PhysicalGpu>, n: int, g: nat, s: nat)
    requires n > 0 && g < |gpus| && s < n
    ensures |Devices(gpus, n)| == |gpus| * n && 0 <= g * n + s < |gpus| * n
    ensures var d := Devices(gpus, n)[g * n + s];
      && d.id == SliceId(gpus[g].index, s) && d.physicalIndex == gpus[g].index && d.physicalUuid == gpus[g].uuid
      && d.healthy == gpus[g].healthy && d.memoryMiB == Division.Trunc(gpus[g].memoryMiB, n)
  {
    hide SliceId, Division.Trunc;
    var front, gpu := gpus[..|gpus| - 1], gpus[|gpus| - 1];
    SlicesAre(gpu, n, n);
    DeviceCount(front, n);
    Division.OneMore(|front|, n);
    Division.OneMore(g, n);
    Division.MulLe(0, g, n);
    Division.MulLe(g + 1, |gpus|, n);
    if g < |front| {
      DeviceAt(front, n, g, s);
    } else {
      assert Slices(gpu, n, n)[s] == SliceOf(gpu, n, s);
    }
  }

  lemma {:induction false} DeviceCount(gpus: seq<PhysicalGpu>, n: int)
    requires n > 0
    ensures |Devices(gpus, n)| == |gpus| * n
  {
    hide SliceOf;
    if gpus != [] {
      DeviceCount(gpus[..|gpus| - 1], n);
      SlicesAre(gpus[|gpus| - 1], n, n);
      Division.OneMore(|gpus| - 1, n);
    }
  }

  predicate DistinctIds(ds: seq<VgpuDevice>) {
    forall i, j :: 0 <= i < j < |ds| ==> ds[i].id != ds[j].id
  }

  predicate DistinctIndices(gpus: seq<PhysicalGpu>) {
    forall i, j :: 0 <= i < j < |gpus| ==> gpus[i].index != gpus[j].index
  }

  lemma {:induction false} SlicesAre(gpu: PhysicalGpu, n: int, k: nat)
    requires n != 0
    ensures |Slices(gpu, n, k)| == k && forall s :: 0 <= s < k ==> Slices(gpu, n, k)[s] == SliceOf(gpu, n, s)
  {
    hide SliceOf;
    if k > 0 { SlicesAre(gpu, n, k - 1); }
  }

  /** Every device is a slice of one of the GPUs. */
  ghost predicate IsSliceOf(gpus: seq<PhysicalGpu>, n: int, d: VgpuDevice)
    requires n != 0
  {
    exists g, s :: 0 <= g < |gpus| && 0 <= s < n && d == SliceOf(gpus[g], n, s)
  }

  lemma {:induction false} DevicesAreSlices(gpus: seq<PhysicalGpu>, n: int)
    requires n != 0
    ensures forall d :: d in Devices(gpus, n) ==> IsSliceOf(gpus, n, d)
  {
    hide SliceOf;
    if gpus != [] {
      var front, gpu := gpus[..|gpus| - 1], gpus[|gpus| - 1];
      DevicesAreSlices(front, n);
      SlicesAre(gpu, n, PerGpu(n));
      forall d | d in Devices(gpus, n) ensures IsSliceOf(gpus, n, d) {
        if d in Devices(front, n) {
          var g, s :| 0 <= g < |front| && 0 <= s < n && d == SliceOf(front[g], n, s);
          assert d == SliceOf(gpus[g], n, s);
        } else {
          var s :| 0 <= s < PerGpu(n) && d == Slices(gpu, n, PerGpu(n))[s];
          assert d == SliceOf(gpus[|gpus| - 1], n, s);
        }
      }
    }
  }

  lemma SliceHasId(gpu: PhysicalGpu, n: int, s: int)
    requires n != 0
    ensures SliceOf(gpu, n, s).id == SliceId(gpu.index, s) && SliceOf(gpu, n, s).physicalIndex == gpu.index
  {
  }

  /** Distinct GPU indices give distinct slice ids, across GPUs and within each. */
  lemma {:induction false} SliceIdsAreDistinct(gpus: seq<PhysicalGpu>, n: int)
    requires n != 0 && DistinctIndices(gpus)
    ensures DistinctIds(Devices(gpus, n))
  {
    hide SliceOf, SliceId;
    if gpus != [] {
      var front, gpu := gpus[..|gpus| - 1], gpus[|gpus| - 1];
      var a, b := Devices(front, n), Slices(gpu, n, PerGpu(n));
      SliceIdsAreDistinct(front, n);
      SlicesAre(gpu, n, PerGpu(n));
      DevicesAreSlices(front, n);
      forall i, j | 0 <= i < |a| && 0 <= j < |b| ensures a[i].id != b[j].id {
        assert a[i] in a;
        var g, s :| 0 <= g < |front| && 0 <= s < n && a[i] == SliceOf(front[g], n, s);
        SliceHasId(front[g], n, s);
        SliceHasId(gpu, n, j);
        SliceIdsAreApart(front[g].index, s, gpu.index, j);
      }
      forall i, j | 0 <= i < j < |b| ensures b[i].id != b[j].id {
        SliceHasId(gpu, n, i);
        SliceHasId(gpu, n, j);
        SliceIdsAreApart(gpu.index, i, gpu.index, j);
      }
    }
  }

  // ---------------------------------------------------------------- memory

  /** The memory of the devices whose ids are in `chosen`. */
  function Chosen(ds: seq<VgpuDevice>, chosen: set<string>): int {
    if ds == [] then 0 else
    var n := |ds| - 1;
    Chosen(ds[..n], chosen) + if ds[n].id in chosen then ds[n].memoryMiB else 0
  }

  lemma {:induction false} ChosenConcat(a: seq<VgpuDevice>, b: seq<VgpuDevice>, chosen: set<string>)
    ensures Chosen(a + b, chosen) == Chosen(a, chosen) + Chosen(b, chosen)
  {
    if b == [] {
      assert a + b == a;
    } else {
      assert (a + b)[..|a + b| - 1] == a + b[..|b| - 1];
      ChosenConcat(a, b[..|b| - 1], chosen);
    }
  }

  function TotalMemory(ds: seq<VgpuDevice>): int {
    if ds == [] then 0 else TotalMemory(ds[..|ds| - 1]) + ds[|ds| - 1].memoryMiB
  }

  /** A GPU's slices together have at most its memory, and lose less of it than there are slices. */
  lemma {:induction false} SlicesUseTheGpu(gpu: PhysicalGpu, n: int)
    requires n > 0 && gpu.memoryMiB >= 0
    ensures gpu.memoryMiB - n < TotalMemory(Slices(gpu, n, n)) <= gpu.memoryMiB
  {
    hide Slices, TotalMemory;
    SlicesTotal(gpu, n, n);
    Division.Product(gpu.memoryMiB, n);
  }

  lemma SliceMemoryIs(gpu: PhysicalGpu, n: int, s: int)
    requires n > 0 && gpu.memoryMiB >= 0
    ensures SliceOf(gpu, n, s).memoryMiB == gpu.memoryMiB / n >= 0
  {
    hide SliceId;
    Division.AtLeast(gpu.memoryMiB, 0, n);
  }

  lemma {:induction false} SlicesTotal(gpu: PhysicalGpu, n: int, k: nat)
    requires n > 0 && gpu.memoryMiB >= 0
    ensures TotalMemory(Slices(gpu, n, k)) == k * (gpu.memoryMiB / n)
  {
    hide SliceId, SliceOf;
    if k > 0 {
      SlicesTotal(gpu, n, k - 1);
      var ds := Slices(gpu, n, k);
      assert ds[..|ds| - 1] == Slices(gpu, n, k - 1);
      SliceMemoryIs(gpu, n, k - 1);
      Division.OneMore(k - 1, gpu.memoryMiB / n);
    }
  }

  lemma {:induction false} ChosenIsPart(ds: seq<VgpuDevice>, chosen: set<string>)
    requires forall d :: d in ds ==> d.memoryMiB >= 0
    ensures 0 <= Chosen(ds, chosen) <= TotalMemory(ds)
    ensures (forall d :: d in ds ==> d.id !in chosen) ==> Chosen(ds, chosen) == 0
  {
    if ds != [] {
      assert ds == ds[..|ds| - 1] + [ds[|ds| - 1]];
      ChosenIsPart(ds[..|ds| - 1], chosen);
    }
  }

  /** The memory of the GPUs whose indices are in `indices`. */
  function GpuMemory(gpus: seq<PhysicalGpu>, indices: set<int>): int {
    if gpus == [] then 0 else
    var n := |gpus| - 1;
    GpuMemory(gpus[..n], indices) + if gpus[n].index in indices then gpus[n].memoryMiB else 0
  }

  /** `indices` has every GPU with a chosen slice. */
  predicate Covers(gpus: seq<PhysicalGpu>, n: int, chosen: set<string>, indices: set<int>) {
    forall g, s :: 0 <= g < |gpus| && 0 <= s < n && SliceId(gpus[g].index, s) in chosen ==> gpus[g].index in indices
  }

  lemma ChosenSlices(gpu: PhysicalGpu, n: int, chosen: set<string>)
    requires n > 0 && gpu.memoryMiB >= 0
    ensures Chosen(Slices(gpu, n, n), chosen) <= gpu.memoryMiB
    ensures (forall s :: 0 <= s < n ==> SliceId(gpu.index, s) !in chosen) ==> Chosen(Slices(gpu, n, n), chosen) <= 0
  {
    hide SliceId, SliceOf, Slices, Chosen, TotalMemory;
    var ds := Slices(gpu, n, n);
    SlicesAre(gpu, n, n);
    forall d | d in ds ensures exists s :: 0 <= s < n && d == SliceOf(gpu, n, s) {
      var s :| 0 <= s < n && ds[s] == d;
    }
    forall s | 0 <= s < n ensures SliceOf(gpu, n, s).memoryMiB >= 0 && SliceOf(gpu, n, s).id == SliceId(gpu.index, s) {
      SliceHasId(gpu, n, s);
      SliceMemoryIs(gpu, n, s);
    }
    ChosenIsPart(ds, chosen);
    SlicesUseTheGpu(gpu, n);
    if forall s :: 0 <= s < n ==> SliceId(gpu.index, s) !in chosen {
      forall d | d in ds ensures d.id !in chosen {
        var s :| 0 <= s < n && d == ds[s];
        assert SliceId(gpu.index, s) !in chosen;
      }
    }
  }

  lemma {:induction false} ChosenFitsTheGpus(gpus: seq<PhysicalGpu>, n: int, chosen: set<string>, indices: set<int>)
    requires n > 0 && (forall g :: 0 <= g < |gpus| ==> gpus[g].memoryMiB >= 0)
    requires Covers(gpus, n, chosen, indices)
    ensures Chosen(Devices(gpus, n), chosen) <= GpuMemory(gpus, indices)
  {
    hide SliceId, Slices, Chosen;
    if gpus == [] {
      ChosenIsPart([], chosen);
    } else {
      var front, gpu := gpus[..|gpus| - 1], gpus[|gpus| - 1];
      ChosenFitsTheGpus(front, n, chosen, indices);
      ChosenConcat(Devices(front, n), Slices(gpu, n, n), chosen);
      ChosenSlices(gpu, n, chosen);
      if gpu.index !in indices {
        forall s | 0 <= s < n ensures SliceId(gpu.index, s) !in chosen {
          assert SliceId(gpus[|gpus| - 1].index, s) in chosen ==> gpu.index in indices;
        }
      }
    }
  }

  // ---------------------------------------------------------------- allocation

  datatype Found = Nothing | Device(device: VgpuDevice)

  /** The first device with the id. */
  function Lookup(ds: seq<VgpuDevice>, id: string): (r: Found)
    ensures r.Device? ==> r.device in ds && r.device.id == id
    ensures r.Nothing? ==> forall d :: d in ds ==> d.id != id
  {
    if ds == [] then Nothing
    else if ds[0].id == id then Device(ds[0])
    else Lookup(ds[1..], id)
  }

  function MemoryOf(ds: seq<VgpuDevice>, id: string): int {
    var d := Lookup(ds, id);
    if d.Nothing? then 0 else d.device.memoryMiB
  }

  /** The memory limit for a request: unknown ids add nothing. */
  function MemoryLimit(ds: seq<VgpuDevice>, ids: seq<string>): int {
    if ids == [] then 0 else MemoryLimit(ds, ids[..|ids| - 1]) + MemoryOf(ds, ids[|ids| - 1])
  }

  /** The GPUs behind a request, in the order the request first uses them. */
  function Backing(ds: seq<VgpuDevice>, ids: seq<string>): seq<int> {
    if ids == [] then [] else
    var before := Backing(ds, ids[..|ids| - 1]);
    var d := Lookup(ds, ids[|ids| - 1]);
    if d.Nothing? || d.device.physicalIndex in before then before else before + [d.device.physicalIndex]
  }

  const LIBVGPU: string := "/usr/lib/phoenixgpu/libvgpu.so"

  /** strconv.Itoa. */
  function Itoa(n: int): string {
    Text.Padded(n, 0)
  }

  function Itoas(ns: seq<int>): seq<string> {
    if ns == [] then [] else Itoas(ns[..|ns| - 1]) + [Itoa(ns[|ns| - 1])]
  }

  /** strings.Join with a comma. */
  function Join(parts: seq<string>): string {
    if parts == [] then "" else if |parts| == 1 then parts[0] else parts[0] + [','] + Join(parts[1..])
  }

  /** The numbers are listed with a comma between each two. */
  lemma {:induction false} JoinConcat(a: seq<string>, b: seq<string>)
    requires a != [] && b != []
    ensures Join(a + b) == Join(a) + "," + Join(b)
    ensures forall x: string :: Join([x]) == x
  {
    if |a| == 1 {
      assert (a + b)[1..] == b && (a + b)[0] == a[0];
    } else {
      assert (a + b)[1..] == a[1..] + b;
      JoinConcat(a[1..], b);
    }
  }

  lemma ItoaDetermines(a: int, b: int)
    ensures ',' !in Itoa(a) && Itoa(a) != "" && (Itoa(a) == Itoa(b) ==> a == b)
  {
    Text.PaddedRoundTrip(a, 0);
    Text.PaddedRoundTrip(b, 0);
    Text.NumeralAvoids(Itoa(a), ',');
  }

  lemma {:induction false} JoinDetermines(a: seq<string>, b: seq<string>)
    requires forall x :: x in a || x in b ==> ',' !in x && x != ""
    ensures Join(a) == Join(b) ==> a == b
  {
    if a == [] || b == [] {
      assert a != [] ==> a[0] in a;
      assert b != [] ==> b[0] in b;
    } else {
      assert a[0] in a && b[0] in b;
      if |a| > 1 && |b| > 1 {
        if Join(a) == Join(b) {
          Text.SplitIsUnique(a[0], Join(a[1..]), b[0], Join(b[1..]), ',');
          Text.SplitIsUnique(b[0], Join(b[1..]), a[0], Join(a[1..]), ',');
          assert forall x :: x in a[1..] || x in b[1..] ==> x in a || x in b;
          JoinDetermines(a[1..], b[1..]);
          assert a == [a[0]] + a[1..] && b == [b[0]] + b[1..];
        }
      } else if |a| > 1 {
        assert Join(a)[|a[0]|] == ',';
      } else if |b| > 1 {
        assert Join(b)[|b[0]|] == ',';
      }
    }
  }

  lemma {:induction false} ItoasAre(ns: seq<int>)
    ensures |Itoas(ns)| == |ns| && forall i :: 0 <= i < |ns| ==> Itoas(ns)[i] == Itoa(ns[i])
  {
    hide Itoa;
    if ns != [] { ItoasAre(ns[..|ns| - 1]); }
  }

  /** The list of visible devices names exactly one sequence of GPU indices. */
  lemma VisibleDevicesDetermineGpus(a: seq<int>, b: seq<int>)
    ensures Join(Itoas(a)) == Join(Itoas(b)) <==> a == b
  {
    hide Itoa, Itoas, Join;
    ItoasAre(a);
    ItoasAre(b);
    if Join(Itoas(a)) == Join(Itoas(b)) {
      forall x | x in Itoas(a) || x in Itoas(b) ensures ',' !in x && x != "" {
        var n :| x == Itoa(n) && (n in a || n in b);
        ItoaDetermines(n, n);
      }
      JoinDetermines(Itoas(a), Itoas(b));
      forall i | 0 <= i < |a| ensures a[i] == b[i] {
        ItoaDetermines(a[i], b[i]);
      }
    }
  }

  /** The environment a container is given; its share of a GPU is kept as a number, not as text. */
  datatype ContainerResponse = ContainerResponse(envs: map<string, string>, allocRatio: real)

  /**
   The environment names libvgpu to be loaded, the GPUs behind the request, its memory limit and the number of its
   ids, and nothing else; the ratio is ids per slices.
   */
  predicate Serves(ds: seq<VgpuDevice>, slicesPerGpu: int, ids: seq<string>, r: ContainerResponse) {
    && r.envs.Keys == {"LD_PRELOAD", "NVIDIA_VISIBLE_DEVICES", "VGPU_MEMORY_LIMIT_MIB", "VGPU_DEVICE_COUNT"}
    && r.envs["LD_PRELOAD"] == "/usr/lib/phoenixgpu/libvgpu.so"
    && r.envs["NVIDIA_VISIBLE_DEVICES"] == Join(Itoas(Backing(ds, ids)))
    && r.envs["VGPU_MEMORY_LIMIT_MIB"] == Itoa(MemoryLimit(ds, ids))
    && r.envs["VGPU_DEVICE_COUNT"] == Itoa(|ids|)
    && r.allocRatio * slicesPerGpu as real == |ids| as real
  }

  method FindDevice(devices: seq<VgpuDevice>, id: string) returns (d: Found)
    ensures d == Lookup(devices, id)
  {
    for i := 0 to |devices|
      invariant Lookup(devices, id) == Lookup(devices[i..], id)
    {
      if devices[i].id == id {
        return Device(devices[i]);
      }
      assert devices[i..][1..] == devices[i + 1..];
    }
    return Nothing;
  }

  /** The GPUs and the memory behind a request. */
  method Resolve(devices: seq<VgpuDevice>, ids: seq<string>) returns (gpuIndices: seq<string>, totalMemMiB: int)
    ensures gpuIndices == Itoas(Backing(devices, ids)) && totalMemMiB == MemoryLimit(devices, ids)
  {
    hide Itoa, Lookup;
    ghost var backing: seq<int> := [];
    var seen: set<int> := {};
    gpuIndices, totalMemMiB := [], 0;
    for i := 0 to |ids|
      invariant backing == Backing(devices, ids[..i]) && totalMemMiB == MemoryLimit(devices, ids[..i])
      invariant gpuIndices == Itoas(backing) && forall x :: x in seen <==> x in backing
    {
      var d := FindDevice(devices, ids[i]);
      assert ids[..i + 1][..i] == ids[..i];
      if d.Device? {
        if d.device.physicalIndex !in seen {
          assert (backing + [d.device.physicalIndex])[..|backing|] == backing;
          gpuIndices := gpuIndices + [Itoa(d.device.physicalIndex)];
          seen := seen + {d.device.physicalIndex};
          backing := backing + [d.device.physicalIndex];
        }
        totalMemMiB := totalMemMiB + d.device.memoryMiB;
      }
    }
    assert ids[..|ids|] == ids;
  }

  method AllocateContainer(devices: seq<VgpuDevice>, slicesPerGpu: int, ids: seq<string>)
    returns (r: ContainerResponse)
    requires slicesPerGpu != 0
    ensures Serves(devices, slicesPerGpu, ids, r)
  {
    hide Itoa, Itoas, Join, Backing, MemoryLimit;
    var gpuIndices, totalMemMiB := Resolve(devices, ids);
    var envs := map["LD_PRELOAD" := LIBVGPU];
    envs := envs["NVIDIA_VISIBLE_DEVICES" := Join(gpuIndices)];
    envs := envs["VGPU_MEMORY_LIMIT_MIB" := Itoa(totalMemMiB)];
    envs := envs["VGPU_DEVICE_COUNT" := Itoa(|ids|)];
    return ContainerResponse(envs, |ids| as real / slicesPerGpu as real);
  }

  method Allocate(devices: seq<VgpuDevice>, slicesPerGpu: int, requests: seq<seq<string>>)
    returns (rs: seq<ContainerResponse>)
    requires slicesPerGpu != 0
    ensures |rs| == |requests|
    ensures forall c :: 0 <= c < |rs| ==> Serves(devices, slicesPerGpu, requests[c], rs[c])
  {
    hide Serves;
    rs := [];
    for i := 0 to |requests|
      invariant |rs| == i
      invariant forall c :: 0 <= c < i ==> Serves(devices, slicesPerGpu, requests[c], rs[c])
    {
      var r := AllocateContainer(devices, slicesPerGpu, requests[i]);
      rs := rs + [r];
    }
  }

  // ---------------------------------------------------------------- what allocation guarantees

  /** The place in the request where a GPU is first used; the length if it is not. */
  function FirstUse(ds: seq<VgpuDevice>, ids: seq<string>, index: int): (k: nat)
    ensures k <= |ids|
  {
    if ids == [] then 0 else
    var n := |ids| - 1;
    var before := FirstUse(ds, ids[..n], index);
    var d := Lookup(ds, ids[n]);
    if before < n then before else if d.Device? && d.device.physicalIndex == index then n else n + 1
  }

  /** Each GPU behind a request is listed once, exactly if it is used, in the order of first use. */
  lemma {:induction false} BackingIsFirstUseOrder(ds: seq<VgpuDevice>, ids: seq<string>)
    ensures var b := Backing(ds, ids);
      && (forall x :: x in b <==> FirstUse(ds, ids, x) < |ids|)
      && (forall i, j :: 0 <= i < j < |b| ==> FirstUse(ds, ids, b[i]) < FirstUse(ds, ids, b[j]))
  {
    if ids != [] {
      BackingIsFirstUseOrder(ds, ids[..|ids| - 1]);
    }
  }

  predicate NoRepeats(ids: seq<string>) {
    forall i, j :: 0 <= i < j < |ids| ==> ids[i] != ids[j]
  }

  function Ids(ids: seq<string>): set<string> {
    set id | id in ids
  }

  lemma {:induction false} ChooseOneMore(ds: seq<VgpuDevice>, chosen: set<string>, id: string)
    requires DistinctIds(ds) && id !in chosen
    ensures Chosen(ds, chosen + {id}) == Chosen(ds, chosen) + MemoryOf(ds, id)
  {
    if ds != [] {
      var front, last := ds[..|ds| - 1], ds[|ds| - 1];
      ChooseOneMore(front, chosen, id);
      LookupLast(front, last, id);
      assert ds == front + [last];
    }
  }

  lemma {:induction false} LookupLast(front: seq<VgpuDevice>, last: VgpuDevice, id: string)
    ensures Lookup(front + [last], id)
      == if Lookup(front, id).Device? then Lookup(front, id) else if last.id == id then Device(last) else Nothing
  {
    if front == [] {
      assert front + [last] == [last];
    } else {
      assert (front + [last])[1..] == front[1..] + [last];
      LookupLast(front[1..], last, id);
    }
  }

  /** A request without repeats is given the memory of the devices it names. */
  lemma {:induction false} LimitIsChosen(ds: seq<VgpuDevice>, ids: seq<string>)
    requires DistinctIds(ds) && NoRepeats(ids)
    ensures MemoryLimit(ds, ids) == Chosen(ds, Ids(ids))
  {
    if ids == [] {
      ChooseNone(ds);
      assert Ids(ids) == {};
    } else {
      var front, id := ids[..|ids| - 1], ids[|ids| - 1];
      LimitIsChosen(ds, front);
      ChooseOneMore(ds, Ids(front), id);
      assert Ids(ids) == Ids(front) + {id};
    }
  }

  lemma {:induction false} ChooseNone(ds: seq<VgpuDevice>)
    ensures Chosen(ds, {}) == 0
  {
    if ds != [] { ChooseNone(ds[..|ds| - 1]); }
  }

  /** All requests in one. */
  function Joined(requests: seq<seq<string>>): seq<string> {
    if requests == [] then [] else Joined(requests[..|requests| - 1]) + requests[|requests| - 1]
  }

  function LimitsGiven(ds: seq<VgpuDevice>, requests: seq<seq<string>>): int {
    if requests == [] then 0
    else LimitsGiven(ds, requests[..|requests| - 1]) + MemoryLimit(ds, requests[|requests| - 1])
  }

  lemma {:induction false} LimitConcat(ds: seq<VgpuDevice>, a: seq<string>, b: seq<string>)
    ensures MemoryLimit(ds, a + b) == MemoryLimit(ds, a) + MemoryLimit(ds, b)
  {
    if b == [] {
      assert a + b == a;
    } else {
      assert (a + b)[..|a + b| - 1] == a + b[..|b| - 1];
      LimitConcat(ds, a, b[..|b| - 1]);
    }
  }

  lemma {:induction false} LimitsAddUp(ds: seq<VgpuDevice>, requests: seq<seq<string>>)
    ensures LimitsGiven(ds, requests) == MemoryLimit(ds, Joined(requests))
  {
    if requests != [] {
      LimitsAddUp(ds, requests[..|requests| - 1]);
      LimitConcat(ds, Joined(requests[..|requests| - 1]), requests[|requests| - 1]);
    }
  }

  lemma {:induction false} UsedIsBacked(ds: seq<VgpuDevice>, ids: seq<string>, id: string)
    requires id in ids && Lookup(ds, id).Device?
    ensures Lookup(ds, id).device.physicalIndex in Backing(ds, ids)
  {
    if id != ids[|ids| - 1] { UsedIsBacked(ds, ids[..|ids| - 1], id); }
  }

  lemma BackingCovers(gpus: seq<PhysicalGpu>, n: int, ids: seq<string>)
    requires n > 0
    ensures Covers(gpus, n, Ids(ids), set x | x in Backing(Devices(gpus, n), ids))
  {
    hide SliceId, Devices;
    var ds := Devices(gpus, n);
    forall g, s | 0 <= g < |gpus| && 0 <= s < n && SliceId(gpus[g].index, s) in Ids(ids)
      ensures gpus[g].index in Backing(ds, ids)
    {
      var id := SliceId(gpus[g].index, s);
      SliceIsDevice(gpus, n, g, s);
      DevicesAreSlices(gpus, n);
      UsedIsBacked(ds, ids, id);
      var d := Lookup(ds, id).device;
      var h, t :| 0 <= h < |gpus| && 0 <= t < n && d == SliceOf(gpus[h], n, t);
      SliceIdsAreApart(gpus[g].index, s, gpus[h].index, t);
    }
  }

  lemma {:induction false} SliceIsDevice(gpus: seq<PhysicalGpu>, n: int, g: nat, s: nat)
    requires n > 0 && g < |gpus| && s < n
    ensures SliceOf(gpus[g], n, s) in Devices(gpus, n)
  {
    hide SliceOf;
    var front, gpu := gpus[..|gpus| - 1], gpus[|gpus| - 1];
    if g < |gpus| - 1 {
      SliceIsDevice(front, n, g, s);
    } else {
      SlicesAre(gpu, n, n);
      assert Slices(gpu, n, n)[s] == SliceOf(gpu, n, s);
    }
  }

  /**
   Containers that are given different slices never get more memory, all together, than the GPUs they were given
   have.
   */
  lemma LimitsFitTheGpus(gpus: seq<PhysicalGpu>, n: int, requests: seq<seq<string>>)
    requires n > 0 && DistinctIndices(gpus) && (forall g :: 0 <= g < |gpus| ==> gpus[g].memoryMiB >= 0)
    requires NoRepeats(Joined(requests))
    ensures var ds := Devices(gpus, n);
      LimitsGiven(ds, requests) <= GpuMemory(gpus, set x | x in Backing(ds, Joined(requests)))
  {
    var ds, ids := Devices(gpus, n), Joined(requests);
    LimitsAddUp(ds, requests);
    SliceIdsAreDistinct(gpus, n);
    LimitIsChosen(ds, ids);
    BackingCovers(gpus, n, ids);
    ChosenFitsTheGpus(gpus, n, Ids(ids), set x | x in Backing(ds, ids));
  }
}
