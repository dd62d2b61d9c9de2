/**
 OversubManager as one goroutine sees it: the three counters are a split of a single number, the virtual use.
 AllocProtocol has the same operations under interleaving.
 */
module Oversub {
  import opened UInt64

  function Min(a: nat, b: nat): nat {
    if a <= b then a else b
  }

  /** The part of `use` MiB that lives in physical memory, and the part that lives in swap. */
  function PhysicalPart(physCap: nat, use: nat): nat {
    Min(use, physCap)
  }

  function SwapPart(physCap: nat, use: nat): nat {
    use - Min(use, physCap)
  }

  class AtomicUint64 {
    var value: uint64

    constructor ()
      ensures value == 0
    {
      value := 0;
    }

    method CompareAndSwap(expected: uint64, replacement: uint64) returns (swapped: bool)
      modifies this
      ensures swapped == (old(value) == expected)
      ensures value == if swapped then replacement else old(value)
    {
      swapped := value == expected;
      if swapped { value := replacement; }
    }

    method Add(delta: uint64)
      modifies this
      ensures value == UInt64.Add(old(value), delta)
    {
      value := UInt64.Add(value, delta);
    }
  }

  class OversubManager {
    const physicalCapMiB: uint64
    const virtualCapMiB: uint64
    const physicalUsedMiB: AtomicUint64
    const virtualUsedMiB: AtomicUint64
    const swapUsedMiB: AtomicUint64

    ghost predicate Separate() {
      physicalUsedMiB != virtualUsedMiB && physicalUsedMiB != swapUsedMiB && virtualUsedMiB != swapUsedMiB
    }

    /** The three counters are the split of the virtual use, which is within its cap. */
    ghost predicate Valid()
      reads physicalUsedMiB, virtualUsedMiB, swapUsedMiB
    {
      && Separate()
      && virtualUsedMiB.value <= virtualCapMiB
      && physicalUsedMiB.value == PhysicalPart(physicalCapMiB, virtualUsedMiB.value)
      && swapUsedMiB.value == SwapPart(physicalCapMiB, virtualUsedMiB.value)
    }

    constructor (physicalMiB: uint64, oversubRatio: real)
      requires oversubRatio >= 0.0 && (physicalMiB as real * oversubRatio).Floor < POW64
      ensures Valid() && fresh({physicalUsedMiB, virtualUsedMiB, swapUsedMiB})
      ensures physicalCapMiB == physicalMiB && virtualCapMiB == (physicalMiB as real * oversubRatio).Floor
      ensures virtualUsedMiB.value == 0
    {
      physicalCapMiB := physicalMiB;
      virtualCapMiB := (physicalMiB as real * oversubRatio).Floor;
      var p := new AtomicUint64();
      var v := new AtomicUint64();
      var s := new AtomicUint64();
      physicalUsedMiB, virtualUsedMiB, swapUsedMiB := p, v, s;
    }

    /** The admission test wraps; whenever it does not, a grant adds the whole size and keeps the split. */
    method Alloc(sizeMiB: uint64) returns (granted: bool)
      requires Valid()
      modifies physicalUsedMiB, virtualUsedMiB, swapUsedMiB
      ensures granted == (Add(old(virtualUsedMiB.value), sizeMiB) <= virtualCapMiB)
      ensures virtualUsedMiB.value == Use(virtualCapMiB, old(virtualUsedMiB.value), Op.Alloc(sizeMiB))
      ensures old(virtualUsedMiB.value) + sizeMiB < POW64 ==> Valid()
      ensures !granted ==> Valid()
    {
      var reserved := false;
      while !reserved
        invariant reserved ==> Add(old(virtualUsedMiB.value), sizeMiB) <= virtualCapMiB
        invariant virtualUsedMiB.value ==
                  if reserved then Add(old(virtualUsedMiB.value), sizeMiB) else old(virtualUsedMiB.value)
        invariant physicalUsedMiB.value == old(physicalUsedMiB.value) && swapUsedMiB.value == old(swapUsedMiB.value)
        decreases !reserved
      {
        var current := virtualUsedMiB.value;
        if Add(current, sizeMiB) > virtualCapMiB {
          return false;
        }
        reserved := virtualUsedMiB.CompareAndSwap(current, Add(current, sizeMiB));
      }
      var attributed := false;
      while !attributed
        invariant virtualUsedMiB.value == Add(old(virtualUsedMiB.value), sizeMiB)
        invariant !attributed ==>
                  physicalUsedMiB.value == old(physicalUsedMiB.value) && swapUsedMiB.value == old(swapUsedMiB.value)
        invariant attributed && old(virtualUsedMiB.value) + sizeMiB < POW64 ==> Valid()
        decreases !attributed
      {
        var phys := physicalUsedMiB.value;
        if Add(phys, sizeMiB) <= physicalCapMiB {
          attributed := physicalUsedMiB.CompareAndSwap(phys, Add(phys, sizeMiB));
        } else if phys >= physicalCapMiB {
          swapUsedMiB.Add(sizeMiB);
          attributed := true;
        } else {
          var remainingPhys := physicalCapMiB - phys;
          attributed := physicalUsedMiB.CompareAndSwap(phys, physicalCapMiB);
          if attributed {
            swapUsedMiB.Add(Sub(sizeMiB, remainingPhys));
          }
        }
      }
      return true;
    }

    /** Subtracts by complement; a free of no more than the current use gives swap back first and keeps the split. */
    method Free(sizeMiB: uint64)
      requires Valid()
      modifies physicalUsedMiB, virtualUsedMiB, swapUsedMiB
      ensures virtualUsedMiB.value == Use(virtualCapMiB, old(virtualUsedMiB.value), Op.Free(sizeMiB))
      ensures sizeMiB <= old(virtualUsedMiB.value) ==> Valid()
    {
      virtualUsedMiB.Add(Complement(Sub(sizeMiB, 1)));
      var swap := swapUsedMiB.value;
      if swap >= sizeMiB {
        swapUsedMiB.Add(Complement(Sub(sizeMiB, 1)));
      } else if swap > 0 {
        swapUsedMiB.value := 0;
        var remainder := sizeMiB - swap;
        physicalUsedMiB.Add(Complement(Sub(remainder, 1)));
      } else {
        physicalUsedMiB.Add(Complement(Sub(sizeMiB, 1)));
      }
    }

    /** For a grantable size, says whether granting it would put part of it into swap. */
    method NeedsSwap(sizeMiB: uint64) returns (needed: bool)
      requires Valid()
      ensures virtualUsedMiB.value + sizeMiB < POW64 ==>
                needed == (SwapPart(physicalCapMiB, virtualUsedMiB.value + sizeMiB) > swapUsedMiB.value)
    {
      needed := Add(physicalUsedMiB.value, sizeMiB) > physicalCapMiB;
    }
  }

  // ---------------------------------------------------------------- the admission test and 2^64

  /**
   Alloc's test `current + size > cap` wraps. It agrees with the intended test exactly when the sum fits in
   64 bits: for every size that wraps the test admits a request far beyond the cap.
   */
  lemma AdmissionTestIsSoundIffNoWrap(cap: uint64, use: uint64, sizeMiB: uint64)
    requires use <= cap
    ensures (Add(use, sizeMiB) <= cap <==> use + sizeMiB <= cap) <==> use + sizeMiB < POW64
  {}

  lemma HugeRequestIsGranted()
    ensures Add(1, POW64 - 1) <= 8192 && !(1 + (POW64 - 1) <= 8192)
  {}

  // ---------------------------------------------------------------- whole runs

  datatype Op = Alloc(size: uint64) | Free(size: uint64)

  /** The virtual use after an operation, as the contracts of Alloc and Free give it. */
  function Use(virtCap: uint64, use: uint64, op: Op): uint64 {
    match op
    case Alloc(size) => if Add(use, size) <= virtCap then Add(use, size) else use
    case Free(size) => Sub(use, size)
  }

  function UseAfter(virtCap: uint64, ops: seq<Op>): uint64 {
    if ops == [] then 0 else Use(virtCap, UseAfter(virtCap, ops[..|ops| - 1]), ops[|ops| - 1])
  }

  /** No sum wraps and no free exceeds the use at its time. */
  predicate Legal(virtCap: uint64, ops: seq<Op>) {
    ops == [] ||
    var use, op := UseAfter(virtCap, ops[..|ops| - 1]), ops[|ops| - 1];
    Legal(virtCap, ops[..|ops| - 1]) && if op.Alloc? then use + op.size < POW64 else op.size <= use
  }

  /** MiB granted, less MiB freed, over a run. */
  function NetGranted(virtCap: uint64, ops: seq<Op>): int {
    if ops == [] then 0 else
    var use, op := UseAfter(virtCap, ops[..|ops| - 1]), ops[|ops| - 1];
    NetGranted(virtCap, ops[..|ops| - 1]) +
    match op
    case Alloc(size) => if use + size <= virtCap then size else 0
    case Free(size) => 0 - size
  }

  /** A legal run uses what was granted less what was freed; a balanced one returns every counter to zero. */
  lemma {:induction false} RunUsesWhatWasGranted(physCap: uint64, virtCap: uint64, ops: seq<Op>)
    requires Legal(virtCap, ops)
    ensures UseAfter(virtCap, ops) == NetGranted(virtCap, ops) <= virtCap
    ensures NetGranted(virtCap, ops) == 0 ==>
              PhysicalPart(physCap, UseAfter(virtCap, ops)) == SwapPart(physCap, UseAfter(virtCap, ops)) == 0
  {
    if ops != [] {
      RunUsesWhatWasGranted(physCap, virtCap, ops[..|ops| - 1]);
    }
  }
}
