/** The physical memory manager: one bit per 2 MiB region of physical memory, up to 1 TiB. */
module Pmm {
  import opened Bitmap

  const REGION_SIZE: nat := 0x20_0000
  const MAX_REGIONS: nat := 0x8_0000
  const BOOT_TABLES: nat := 0x40_0000

  datatype RegionType =
    Usable | Reserved | AcpiReclaimable | SupervisorCode | BootloaderReclaimable | AcpiNvs | Mmio

  datatype Descriptor = Descriptor(start: u64, size: u64, kind: RegionType)

  datatype BootInfo = BootInfo(memoryMap: seq<Descriptor>, supervisorBase: u64, supervisorSize: u64)

  /** A sum in 64-bit arithmetic. */
  function Wrap(x: nat): u64 {
    x % 0x1_0000_0000_0000_0000
  }

  function AlignUp(addr: u64): u64 {
    Wrap(addr + 0x1F_FFFF) / 0x20_0000 * 0x20_0000
  }

  function AlignDown(addr: u64): u64 {
    addr / 0x20_0000 * 0x20_0000
  }

  predicate Allocatable(d: Descriptor) {
    d.kind.Usable? || d.kind.BootloaderReclaimable?
  }

  // ------------------------------------------------------------------ what init should compute

  /** Region `i` lies wholly inside descriptor `d`. */
  predicate Inside(i: nat, d: Descriptor) {
    d.start <= i * 0x20_0000 && (i + 1) * 0x20_0000 <= d.start + d.size
  }

  /** Region `i` overlaps the byte range [base, base + size). */
  predicate Touches(i: nat, base: nat, size: nat) {
    i * 0x20_0000 < base + size && base < (i + 1) * 0x20_0000
  }

  /** The boot specification: which regions `init` must leave free. */
  ghost predicate FreeAtBoot(b: BootInfo, i: nat) {
    && (exists k :: 0 <= k < |b.memoryMap| && b.memoryMap[k].kind in {Usable, BootloaderReclaimable} && Inside(i, b.memoryMap[k]))
    && !Touches(i, b.supervisorBase, b.supervisorSize)
    && !Touches(i, BOOT_TABLES, 0x5000)
  }

  // ------------------------------------------------------------------ what it computes

  /** The marking loop for descriptor `d` covers region `i`. */
  predicate Marked(i: nat, d: Descriptor) {
    AlignUp(d.start) <= i * 0x20_0000 < AlignDown(Wrap(d.start + d.size))
  }

  predicate Reserved(i: nat, base: u64, size: u64) {
    AlignDown(base) <= i * 0x20_0000 < AlignUp(Wrap(base + size))
  }

  /** One of the first `n` descriptors is allocatable and marks region `i`. */
  ghost predicate Offered(descriptors: seq<Descriptor>, n: nat, i: nat)
    requires n <= |descriptors|
  {
    exists k :: 0 <= k < n && Allocatable(descriptors[k]) && Marked(i, descriptors[k])
  }

  lemma OfferedNone(descriptors: seq<Descriptor>, i: nat)
    ensures !Offered(descriptors, 0, i)
  {}

  lemma OfferedOneMore(descriptors: seq<Descriptor>, n: nat, i: nat)
    requires n < |descriptors|
    ensures Offered(descriptors, n + 1, i) <==>
              Offered(descriptors, n, i) || (Allocatable(descriptors[n]) && Marked(i, descriptors[n]))
  {
    hide Marked;
  }

  ghost predicate LeftFree(b: BootInfo, i: nat) {
    && Offered(b.memoryMap, |b.memoryMap|, i)
    && !Reserved(i, b.supervisorBase, b.supervisorSize)
    && i != 2
  }

  /** Descriptors whose ends do not wrap, or wrap without consequence below 1 TiB. */
  predicate Regular(d: Descriptor) {
    if d.start + 0x1F_FFFF >= 0x1_0000_0000_0000_0000
    then 0x1_0000_0000_0000_0000 <= d.start + d.size < 0x1_0000_0000_0020_0000
    else d.start + d.size < 0x1_0000_0000_0000_0000 || d.start > 0xFF_FFE0_0000
  }

  /** A marking loop covers exactly the regions inside its descriptor if and only if that is regular. */
  lemma MarkingIsExact(d: Descriptor)
    ensures (forall i: nat :: i < MAX_REGIONS ==> (Marked(i, d) <==> Inside(i, d))) <==> Regular(d)
  {
    if Regular(d) {
      forall i: nat | i < MAX_REGIONS ensures Marked(i, d) <==> Inside(i, d) { RegularMarks(i, d); }
    } else if d.start + 0x1F_FFFF >= 0x1_0000_0000_0000_0000 {
      assert Marked(0, d) && !Inside(0, d);
    } else {
      assert !Marked(0x7_FFFF, d) && Inside(0x7_FFFF, d);
    }
  }

  lemma RegularMarks(i: nat, d: Descriptor)
    requires Regular(d) && i < MAX_REGIONS
    ensures Marked(i, d) <==> Inside(i, d)
  {}

  /** The supervisor's range does not wrap, or wraps without consequence below 1 TiB. */
  predicate RegularRange(base: u64, size: u64) {
    || base >= 0x100_0000_0000
    || base + size + 0x1F_FFFF < 0x1_0000_0000_0000_0000
    || (base >= 0xFF_FFE0_0000 && base + size > 0x1_0000_00FF_FFE0_0000)
  }

  /** The reservation loop covers exactly the regions that overlap its range if and only if that is regular. */
  lemma ReservationIsExact(base: u64, size: u64)
    ensures (forall i: nat :: i < MAX_REGIONS ==> (Reserved(i, base, size) <==> Touches(i, base, size))) <==> RegularRange(base, size)
  {
    if RegularRange(base, size) {
      forall i: nat | i < MAX_REGIONS ensures Reserved(i, base, size) <==> Touches(i, base, size) { RegularReserves(i, base, size); }
    } else {
      IrregularReserves(base, size);
    }
  }

  lemma RegularReserves(i: nat, base: u64, size: u64)
    requires RegularRange(base, size) && i < MAX_REGIONS
    ensures Reserved(i, base, size) <==> Touches(i, base, size)
  {}

  lemma IrregularReserves(base: u64, size: u64)
    requires !RegularRange(base, size)
    ensures exists i: nat :: i < MAX_REGIONS && !Reserved(i, base, size) && Touches(i, base, size)
  {
    assert !Reserved(0x7_FFFF, base, size) && Touches(0x7_FFFF, base, size);
  }

  /** Every allocatable descriptor and the supervisor's range are regular. */
  ghost predicate RegularMap(b: BootInfo) {
    && RegularRange(b.supervisorBase, b.supervisorSize)
    && forall k :: 0 <= k < |b.memoryMap| && Allocatable(b.memoryMap[k]) ==> Regular(b.memoryMap[k])
  }

  /** On a regular map `init` computes its specification. */
  lemma RegularMapIsExact(b: BootInfo, i: nat)
    requires RegularMap(b) && i < MAX_REGIONS
    ensures LeftFree(b, i) <==> FreeAtBoot(b, i)
  {
    hide Marked, Inside, Reserved;
    RegularReserves(i, b.supervisorBase, b.supervisorSize);
    forall k | 0 <= k < |b.memoryMap| && Allocatable(b.memoryMap[k]) ensures Marked(i, b.memoryMap[k]) <==> Inside(i, b.memoryMap[k]) {
      RegularMarks(i, b.memoryMap[k]);
    }
  }

  class PhysicalMemory {
    var bitmap: seq<u64>

    ghost predicate Valid()
      reads this
    {
      64 * |bitmap| == MAX_REGIONS
    }

    constructor ()
      ensures Valid() && Free(bitmap) == {}
    {
      bitmap := seq(MAX_REGIONS / 64, _ => 0);
      new;
      forall i: nat | i < MAX_REGIONS ensures !IsFree(bitmap, i) { ZeroHasNoDigits(i % 64); }
    }

    /** The `while addr < end` loops of `init`: mark every region from `start` up to `end`. */
    method MarkRange(start: nat, end: nat, free: bool)
      requires Valid() && start % REGION_SIZE == 0 && end % REGION_SIZE == 0
      modifies this
      ensures Valid()
      ensures forall i: nat :: i < MAX_REGIONS ==>
                (i in Free(bitmap) <==>
                 if start <= i * REGION_SIZE < end then free else i in old(Free(bitmap)))
    {
      var addr := start;
      while addr < end
        invariant Valid() && start <= addr && addr % REGION_SIZE == 0
        invariant if start < end then addr <= end else addr == start
        invariant forall i: nat :: i < MAX_REGIONS ==>
                    (i in Free(bitmap) <==>
                     if start <= i * REGION_SIZE < addr then free else i in old(Free(bitmap)))
      {
        bitmap := Mark(bitmap, addr / REGION_SIZE, free);
        addr := addr + REGION_SIZE;
      }
    }

    /** The loop of `init` over the memory map. */
    method MarkMap(descriptors: seq<Descriptor>)
      requires Valid() && Free(bitmap) == {}
      modifies this
      ensures Valid()
      ensures forall i: nat :: i < MAX_REGIONS ==> (i in Free(bitmap) <==> Offered(descriptors, |descriptors|, i))
    {
      hide Offered;
      forall i: nat | i < MAX_REGIONS ensures !Offered(descriptors, 0, i) { OfferedNone(descriptors, i); }
      for k := 0 to |descriptors|
        invariant Valid()
        invariant forall i: nat :: i < MAX_REGIONS ==> (i in Free(bitmap) <==> Offered(descriptors, k, i))
      {
        var d := descriptors[k];
        if Allocatable(d) {
          MarkRange(AlignUp(d.start), AlignDown(Wrap(d.start + d.size)), true);
        }
        forall i: nat | i < MAX_REGIONS ensures i in Free(bitmap) <==> Offered(descriptors, k + 1, i) {
          OfferedOneMore(descriptors, k, i);
        }
      }
    }

    method Init(b: BootInfo)
      requires Valid() && Free(bitmap) == {}
      modifies this
      ensures Valid()
      ensures forall i: nat :: i < MAX_REGIONS ==> (i in Free(bitmap) <==> LeftFree(b, i))
      ensures RegularMap(b) ==> forall i: nat :: i < MAX_REGIONS ==> (i in Free(bitmap) <==> FreeAtBoot(b, i))
    {
      hide RegularMap, FreeAtBoot, Offered;
      MarkMap(b.memoryMap);
      MarkRange(AlignDown(b.supervisorBase), AlignUp(Wrap(b.supervisorBase + b.supervisorSize)), false);
      bitmap := Mark(bitmap, BOOT_TABLES / REGION_SIZE, false);

      ghost var before := Free(bitmap);
      var selfTest := AllocRegion();
      if selfTest.Some? { FreeRegion(selfTest.value); }
      assert Free(bitmap) == before;
      if RegularMap(b) {
        forall i: nat | i < MAX_REGIONS ensures i in Free(bitmap) <==> FreeAtBoot(b, i) { RegularMapIsExact(b, i); }
      }
    }

    /** Hands out the lowest free region, by its physical address. */
    method AllocRegion() returns (phys: Option<nat>)
      requires Valid()
      modifies this
      ensures Valid()
      ensures phys.None? <==> old(Free(bitmap)) == {}
      ensures phys.None? ==> bitmap == old(bitmap)
      ensures phys.Some? ==>
                && phys.value % REGION_SIZE == 0
                && phys.value / REGION_SIZE in old(Free(bitmap))
                && Free(bitmap) == old(Free(bitmap)) - {phys.value / REGION_SIZE}
                && forall j :: j in old(Free(bitmap)) ==> phys.value <= j * REGION_SIZE
    {
      var taken;
      bitmap, taken := TakeLowest(bitmap);
      phys := if taken.Some? then Some(taken.value * REGION_SIZE) else None;
    }

    method FreeRegion(phys: nat)
      requires Valid()
      modifies this
      ensures Valid()
      ensures Free(bitmap) ==
              if phys / REGION_SIZE < MAX_REGIONS then old(Free(bitmap)) + {phys / REGION_SIZE}
              else old(Free(bitmap))
    {
      bitmap := Mark(bitmap, phys / REGION_SIZE, true);
    }
  }
}
