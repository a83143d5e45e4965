/** The 4 KiB frame allocator: 2 MiB regions taken from the physical memory manager, each cut
    into 512 frames tracked by an eight-word bitmap. */
module Frames {
  import opened Bitmap
  import opened Pmm

  const FRAME_SIZE: nat := 0x1000
  const FRAMES_PER_REGION: nat := 512
  const MAX_SUB_REGIONS: nat := 64

  /** The position of the frame holding byte `phys` inside its 2 MiB region. */
  function Slot(phys: nat): (i: nat)
    ensures i < 512
  {
    phys / 0x1000 % 512
  }

  function RegionOf(phys: nat): nat {
    phys / 0x20_0000
  }

  predicate FrameAligned(phys: nat) {
    phys % 0x1000 == 0
  }

  function FrameBase(phys: nat): (page: nat)
    ensures FrameAligned(page) && RegionOf(page) == RegionOf(phys) && Slot(page) == Slot(phys)
    ensures FrameAligned(phys) ==> page == phys
  {
    phys / 0x1000 * 0x1000
  }

  lemma FrameOfSlot(base: nat, i: nat)
    requires base % 0x20_0000 == 0 && i < 512
    ensures FrameAligned(base + i * 0x1000)
    ensures RegionOf(base + i * 0x1000) == RegionOf(base) && Slot(base + i * 0x1000) == i
  {}

  lemma SlotInRegion(base: nat, phys: nat)
    requires base % 0x20_0000 == 0 && base <= phys < base + 0x20_0000
    ensures (phys - base) / 0x1000 == Slot(phys)
  {
    var r, d := base / 0x20_0000, phys - base;
    assert phys / 0x1000 == 512 * r + d / 0x1000 && d / 0x1000 < 512;
  }

  lemma SlotDeterminesFrame(p: nat, q: nat)
    requires FrameAligned(p) && FrameAligned(q) && RegionOf(p) == RegionOf(q) && Slot(p) == Slot(q)
    ensures p == q
  {
    FrameOfRegion(p);
    FrameOfRegion(q);
  }

  lemma FrameOfRegion(p: nat)
    requires FrameAligned(p)
    ensures p == RegionOf(p) * 0x20_0000 + Slot(p) * 0x1000
  {
    var n := p / 0x1000;
    assert p == 0x1000 * n && n == n / 512 * 512 + n % 512;
  }

  datatype SubRegion = SubRegion(base: nat, bitmap: seq<u64>) {
    ghost predicate Valid() {
      base % 0x20_0000 == 0 && |bitmap| == 8
    }

    predicate Contains(phys: nat) {
      base <= phys < base + FRAMES_PER_REGION * FRAME_SIZE
    }

    lemma ContainsIsRegion(phys: nat)
      requires Valid()
      ensures Contains(phys) <==> RegionOf(phys) == RegionOf(base)
    {}

    /** `phys` is the address of a frame of this region. */
    ghost predicate Owns(phys: nat) {
      FrameAligned(phys) && RegionOf(phys) == RegionOf(base)
    }

    ghost predicate FreeAt(phys: nat) {
      Owns(phys) && Slot(phys) in Free(bitmap)
    }

    ghost predicate HandedOutAt(phys: nat) {
      Owns(phys) && Slot(phys) !in Free(bitmap)
    }

    static function New(base: nat): (sr: SubRegion)
      requires base % 0x20_0000 == 0
      ensures sr.Valid() && sr.base == base
      ensures forall i: nat :: i < 512 ==> i in Free(sr.bitmap)
    {
      var sr := SubRegion(base, seq(8, _ => 0xFFFF_FFFF_FFFF_FFFF));
      assert forall i: nat :: i < 512 ==> IsFree(sr.bitmap, i) by {
        Pow2Of64();
        forall i: nat | i < 512 ensures IsFree(sr.bitmap, i) { AllOnesHasEveryDigit(i % 64, 64); }
      }
      sr
    }

    method Alloc() returns (sr: SubRegion, phys: Option<nat>)
      requires Valid()
      ensures sr.Valid() && sr.base == base
      ensures phys.None? <==> Free(bitmap) == {}
      ensures phys.None? ==> sr == this
      ensures phys.Some? ==> FreeAt(phys.value) && Free(sr.bitmap) == Free(bitmap) - {Slot(phys.value)}
    {
      var bits, taken := TakeLowest(bitmap);
      sr := this.(bitmap := bits);
      if taken.None? { return sr, None; }
      FrameOfSlot(base, taken.value);
      phys := Some(base + taken.value * FRAME_SIZE);
    }

    /** The second result says whether this region owns `phys`. */
    function Release(phys: nat): (r: (SubRegion, bool))
      requires Valid()
      ensures r.0.Valid() && r.0.base == base
      ensures r.1 <==> RegionOf(phys) == RegionOf(base)
      ensures Free(r.0.bitmap) == if r.1 then Free(bitmap) + {Slot(phys)} else Free(bitmap)
    {
      ContainsIsRegion(phys);
      if !Contains(phys) then (this, false)
      else
        SlotInRegion(base, phys);
        (this.(bitmap := Mark(bitmap, (phys - base) / FRAME_SIZE, true)), true)
    }
  }

  class FrameAllocator {
    const pmm: PhysicalMemory
    var subs: seq<SubRegion>

    /** Sub-regions are whole regions, pairwise distinct, and gone from the PMM's bitmap. */
    ghost predicate Valid()
      reads this, pmm
    {
      && pmm.Valid()
      && |subs| <= MAX_SUB_REGIONS
      && Separate(subs)
      && (forall s :: 0 <= s < |subs| ==> RegionOf(subs[s].base) !in Free(pmm.bitmap))
    }

    /** Frame `f` has been handed out and not released since. */
    ghost predicate Out(f: nat)
      reads this
    {
      SomeOut(subs, f)
    }

    /** The pool: every frame that is free here or lies in a region still free in the PMM. */
    ghost predicate InPool(f: nat)
      reads this, pmm
    {
      SomeFree(subs, f) || (FrameAligned(f) && RegionOf(f) in Free(pmm.bitmap))
    }

    /** All sub-regions are full and no region can be added. */
    ghost predicate Exhausted()
      reads this, pmm
    {
      (forall f: nat :: !SomeFree(subs, f)) && (|subs| == MAX_SUB_REGIONS || Free(pmm.bitmap) == {})
    }

    constructor (pmm: PhysicalMemory)
      requires pmm.Valid()
      ensures Valid() && this.pmm == pmm
      ensures forall f: nat :: !Out(f)
      ensures forall f: nat :: InPool(f) <==> FrameAligned(f) && RegionOf(f) in Free(pmm.bitmap)
    {
      this.pmm := pmm;
      subs := [];
    }

    /** A frame is in the pool or handed out, never both. */
    lemma PoolAndOutAreDisjoint(f: nat)
      requires Valid()
      ensures !(InPool(f) && Out(f))
    {
    }

    method AllocFrame() returns (phys: Option<nat>)
      requires Valid()
      modifies this, pmm
      ensures Valid()
      ensures phys.None? <==> old(Exhausted())
      ensures phys.None? ==> subs == old(subs) && pmm.bitmap == old(pmm.bitmap)
      ensures phys.Some? ==> old(InPool(phys.value)) && !old(Out(phys.value))
      ensures phys.Some? ==> forall f: nat :: InPool(f) <==> old(InPool(f)) && f != phys.value
      ensures phys.Some? ==> forall f: nat :: Out(f) <==> old(Out(f)) || f == phys.value
    {
      hide Slot, Free;
      for i := 0 to |subs|
        invariant subs == old(subs) && pmm.bitmap == old(pmm.bitmap)
        invariant forall s :: 0 <= s < i ==> Free(subs[s].bitmap) == {}
      {
        var sr;
        sr, phys := subs[i].Alloc();
        if phys.Some? {
          BitmapChange(subs, i, sr, phys.value);
          PoolAndOutAreDisjoint(phys.value);
          assert SomeFree(subs, phys.value);
          subs := subs[i := sr];
          return;
        }
      }
      if |subs| >= MAX_SUB_REGIONS { return None; }
      var region := pmm.AllocRegion();
      if region.None? { return None; }
      var added := SubRegion.New(region.value);
      var sr;
      assert 0 in Free(added.bitmap);
      sr, phys := added.Alloc();
      RegionMoves(subs, added, sr, phys.value, old(Free(pmm.bitmap)), Free(pmm.bitmap));
      subs := subs + [sr];
    }

    method FreeFrame(phys: nat)
      requires Valid()
      modifies this
      ensures Valid() && |subs| == old(|subs|)
      ensures forall f: nat :: Out(f) <==> old(Out(f)) && f != FrameBase(phys)
      ensures old(Out(phys)) ==> forall f: nat :: InPool(f) <==> old(InPool(f)) || f == phys
    {
      for i := 0 to |subs|
        invariant subs == old(subs)
        invariant forall s :: 0 <= s < i ==> RegionOf(subs[s].base) != RegionOf(phys)
      {
        var (sr, owned) := subs[i].Release(phys);
        if owned {
          BitmapChange(subs, i, sr, FrameBase(phys));
          subs := subs[i := sr];
          return;
        }
      }
    }
  }

  ghost predicate SomeFree(subs: seq<SubRegion>, f: nat) {
    exists s :: 0 <= s < |subs| && subs[s].FreeAt(f)
  }

  ghost predicate SomeOut(subs: seq<SubRegion>, f: nat) {
    exists s :: 0 <= s < |subs| && subs[s].HandedOutAt(f)
  }

  ghost predicate Separate(subs: seq<SubRegion>) {
    && (forall s :: 0 <= s < |subs| ==> subs[s].Valid())
    && (forall s, t :: 0 <= s < t < |subs| ==> RegionOf(subs[s].base) != RegionOf(subs[t].base))
  }

  /** Taking a slot out of one sub-region's bitmap, or putting it back, moves exactly that frame. */
  lemma BitmapChange(subs: seq<SubRegion>, i: nat, sr: SubRegion, phys: nat)
    requires Separate(subs) && i < |subs| && sr.Valid() && sr.base == subs[i].base
    requires subs[i].Owns(phys)
    requires Free(sr.bitmap) == Free(subs[i].bitmap) - {Slot(phys)}
             || Free(sr.bitmap) == Free(subs[i].bitmap) + {Slot(phys)}
    ensures Separate(subs[i := sr])
    ensures SomeFree(subs[i := sr], phys) <==> Slot(phys) in Free(sr.bitmap)
    ensures SomeOut(subs[i := sr], phys) <==> Slot(phys) !in Free(sr.bitmap)
    ensures forall f: nat :: f != phys ==> (SomeFree(subs[i := sr], f) <==> SomeFree(subs, f))
    ensures forall f: nat :: f != phys ==> (SomeOut(subs[i := sr], f) <==> SomeOut(subs, f))
  {
    var subs' := subs[i := sr];
    forall f: nat, s | 0 <= s < |subs| && (s != i || f != phys)
      ensures subs'[s].FreeAt(f) == subs[s].FreeAt(f) && subs'[s].HandedOutAt(f) == subs[s].HandedOutAt(f)
    {
      if s == i && subs[i].Owns(f) && Slot(f) == Slot(phys) { SlotDeterminesFrame(f, phys); }
    }
    assert if Slot(phys) in Free(sr.bitmap) then subs'[i].FreeAt(phys) else subs'[i].HandedOutAt(phys);
    if s :| 0 <= s < |subs| && subs'[s].FreeAt(phys) { assert s == i; }
    if s :| 0 <= s < |subs| && subs'[s].HandedOutAt(phys) { assert s == i; }
    forall f: nat | f != phys
      ensures SomeFree(subs', f) <==> SomeFree(subs, f)
      ensures SomeOut(subs', f) <==> SomeOut(subs, f)
    {
      if s :| 0 <= s < |subs| && subs[s].FreeAt(f) { assert subs'[s].FreeAt(f); }
      if s :| 0 <= s < |subs| && subs'[s].FreeAt(f) { assert subs[s].FreeAt(f); }
      if s :| 0 <= s < |subs| && subs[s].HandedOutAt(f) { assert subs'[s].HandedOutAt(f); }
      if s :| 0 <= s < |subs| && subs'[s].HandedOutAt(f) { assert subs[s].HandedOutAt(f); }
    }
  }

  /** Taking a region from the PMM and its first frame from it removes just that frame from the pool. */
  lemma RegionMoves(subs: seq<SubRegion>, added: SubRegion, sr: SubRegion, phys: nat, regions: set<nat>, regions': set<nat>)
    requires Separate(subs) && added.Valid() && sr.Valid() && sr.base == added.base && added.Owns(phys)
    requires forall i: nat :: i < 512 ==> i in Free(added.bitmap)
    requires Free(sr.bitmap) == Free(added.bitmap) - {Slot(phys)}
    requires RegionOf(added.base) in regions && regions' == regions - {RegionOf(added.base)}
    requires forall s :: 0 <= s < |subs| ==> RegionOf(subs[s].base) !in regions
    ensures Separate(subs + [sr])
    ensures forall f: nat :: SomeFree(subs + [sr], f) || (FrameAligned(f) && RegionOf(f) in regions')
              <==> (SomeFree(subs, f) || (FrameAligned(f) && RegionOf(f) in regions)) && f != phys
    ensures forall f: nat :: SomeOut(subs + [sr], f) <==> SomeOut(subs, f) || f == phys
    ensures !SomeOut(subs, phys) && FrameAligned(phys) && RegionOf(phys) in regions
  {
    hide Slot, Free;
    var all := subs + [added];
    assert forall s :: 0 <= s < |subs| ==> all[s] == subs[s];
    BitmapChange(all, |subs|, sr, phys);
    FreshRegionIsItsFrames(subs, added);
    assert all[|subs| := sr] == subs + [sr];
    assert forall f: nat :: SomeFree(subs, f) || SomeOut(subs, f) ==> RegionOf(f) !in regions;
  }

  /** A region just taken from the PMM puts exactly its own frames into the pool. */
  lemma FreshRegionIsItsFrames(subs: seq<SubRegion>, added: SubRegion)
    requires forall i: nat :: i < 512 ==> i in Free(added.bitmap)
    ensures forall f: nat :: SomeFree(subs + [added], f) <==> SomeFree(subs, f) || added.Owns(f)
    ensures forall f: nat :: SomeOut(subs + [added], f) <==> SomeOut(subs, f)
  {
    var subs' := subs + [added];
    assert subs'[|subs|] == added;
    assert forall s :: 0 <= s < |subs| ==> subs'[s] == subs[s];
  }

  lemma OutIsAligned(a: FrameAllocator, f: nat)
    requires a.Out(f)
    ensures FrameBase(f) == f
  {}
}
