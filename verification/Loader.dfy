/** What it means for an ELF image to be in a shard's memory. */
module Loader {
  import opened Bytes
  import opened PageTables
  import opened Spaces
  import opened ShardSpaces
  import opened Elf

  function SegFlags(seg: Segment): Flags {
    Flags(seg.writable, true, !seg.executable, false)
  }

  /** The fewest pages that hold `size` bytes. */
  function PagesOf(size: nat): (n: nat)
    ensures size <= n * 0x1000 < size + 0x1000
  {
    (size + 0xFFF) / 0x1000
  }

  /** The first address after the pages of a segment. */
  function SegEnd(seg: Segment): nat {
    seg.vaddr + PagesOf(seg.memSize) * 0x1000
  }

  /** The address at which segment `k` has to start. */
  function EndOf(segs: seq<Segment>, k: nat): nat
    requires k <= |segs|
  {
    if k == 0 then CODE else SegEnd(segs[k - 1])
  }

  /** The assertions on segment `k`: it starts where the last one ended, is not writable and executable,
      stays below the stack, and is the only writable one so far. */
  predicate Fits(segs: seq<Segment>, k: nat)
    requires k < |segs|
  {
    && segs[k].vaddr == EndOf(segs, k) && !(segs[k].writable && segs[k].executable)
    && segs[k].vaddr + segs[k].memSize <= STACK
    && (segs[k].writable ==> forall j: nat :: j < k ==> !segs[j].writable)
  }

  predicate Tiled(segs: seq<Segment>, n: nat)
    requires n <= |segs|
  {
    forall k: nat :: k < n ==> Fits(segs, k)
  }

  /** What the assertions amount to: the segments lie end to end in whole pages from 0x1000 on, all below the stack,
      none is writable and executable, and at most one is writable. */
  ghost predicate EndToEnd(segs: seq<Segment>) {
    && (forall k: nat :: k < |segs| ==> Continues(segs, k))
    && (forall k: nat :: k < |segs| ==> segs[k].vaddr + segs[k].memSize <= 0x7F_F000 && !(segs[k].writable && segs[k].executable))
    && (forall j: nat, k: nat :: j < k < |segs| ==> !(segs[j].writable && segs[k].writable))
  }

  predicate Continues(segs: seq<Segment>, k: nat)
    requires k < |segs|
  {
    segs[k].vaddr == if k == 0 then 0x1000 else segs[k - 1].vaddr + PagesOf(segs[k - 1].memSize) * 0x1000
  }

  lemma TilingIsExact(segs: seq<Segment>)
    ensures Tiled(segs, |segs|) <==> EndToEnd(segs)
  {
    hide PagesOf;
    if Tiled(segs, |segs|) {
      forall k: nat | k < |segs|
        ensures Continues(segs, k)
        ensures segs[k].vaddr + segs[k].memSize <= 0x7F_F000 && !(segs[k].writable && segs[k].executable)
        ensures forall j: nat :: j < k ==> !(segs[j].writable && segs[k].writable)
      {
        assert Fits(segs, k);
      }
    }
    if EndToEnd(segs) {
      forall k: nat | k < |segs| ensures Fits(segs, k) {
        assert Continues(segs, k);
      }
    }
  }

  lemma {:induction false} EndIsAligned(segs: seq<Segment>, n: nat)
    requires n <= |segs| && Tiled(segs, n)
    ensures CODE <= EndOf(segs, n) <= STACK && EndOf(segs, n) % 0x1000 == 0
    ensures forall k: nat :: k < n ==> segs[k].vaddr % 0x1000 == 0 && CODE <= segs[k].vaddr && SegEnd(segs[k]) <= EndOf(segs, n)
  {
    if n > 0 {
      EndIsAligned(segs, n - 1);
      assert Fits(segs, n - 1);
    }
  }

  /** Tiling leaves no hole: every address below the end lies in some segment. */
  lemma {:induction false} Covering(segs: seq<Segment>, n: nat, a: nat) returns (k: nat)
    requires n <= |segs| && Tiled(segs, n) && CODE <= a < EndOf(segs, n)
    ensures k < n && segs[k].vaddr <= a < SegEnd(segs[k])
  {
    assert Fits(segs, n - 1);
    if segs[n - 1].vaddr <= a { k := n - 1; } else { k := Covering(segs, n - 1, a); }
  }

  ghost predicate IsData(sp: Space, seg: Segment) {
    seg.writable && sp.imageDataStart == seg.vaddr && sp.imageDataEnd == SegEnd(seg)
  }

  /** The descriptor's data segment is the writable one among the first `n`, if there is one. */
  ghost predicate Describes(sp: Space, segs: seq<Segment>, n: nat)
    requires n <= |segs|
  {
    if sp.imageDataStart == 0 then forall k: nat :: k < n ==> !segs[k].writable
    else exists k: nat :: k < n && IsData(sp, segs[k])
  }

  function FileBytes(image: seq<byte>, seg: Segment): seq<byte>
    requires seg.fileOffset + seg.fileSize <= |image|
  {
    image[seg.fileOffset..seg.fileOffset + seg.fileSize]
  }

  ghost predicate InPlace(m: Mem, s: nat, image: seq<byte>, seg: Segment)
    requires s < |m.spaces|
  {
    && seg.fileOffset + seg.fileSize <= |image|
    && forall v: nat :: seg.vaddr <= v * 0x1000 < SegEnd(seg) ==>
         HoldsFile(m, s, v, SegFlags(seg), FileBytes(image, seg), seg.vaddr / 0x1000)
  }

  /** The images `create` accepts. */
  predicate Acceptable(image: seq<byte>) {
    && Parses(image) && U64(image, 24) == CODE
    && var segs := Loads(image, U16(image, 56)); Tiled(segs, |segs|)
  }

  /** Its pages, the root table and the two stacks do not fit the frame table. */
  predicate TooBig(image: seq<byte>)
    requires Acceptable(image)
  {
    var segs := Loads(image, U16(image, 56));
    (EndOf(segs, |segs|) - CODE) / 0x1000 + 3 > MAX_SHARD_FRAMES
  }

  /** The image is in place in shard `s`, and its descriptor says where. */
  ghost predicate Loaded(m: Mem, s: nat, image: seq<byte>)
    requires s < |m.spaces|
  {
    && Parses(image) && U64(image, 24) == CODE
    && var segs := Loads(image, U16(image, 56));
       && Tiled(segs, |segs|) && m.spaces[s].imageEnd == EndOf(segs, |segs|) && Describes(m.spaces[s], segs, |segs|)
       && forall k: nat :: k < |segs| ==> InPlace(m, s, image, segs[k])
  }

  /** The loader's state after `n` segments. */
  ghost predicate LoadedUpTo(m: Mem, s: nat, image: seq<byte>, segs: seq<Segment>, n: nat)
    requires s < |m.spaces| && n <= |segs|
  {
    Tiled(segs, n) && Describes(m.spaces[s], segs, n) && forall k: nat :: k < n ==> InPlace(m, s, image, segs[k])
  }

  /** Loading segment `n` on top, with the descriptor updated first if it is the writable one. */
  lemma LoadsOneMore(m: Mem, m1: Mem, m2: Mem, s: nat, image: seq<byte>, segs: seq<Segment>, n: nat)
    requires n < |segs| && Grown(m, m1, s) && Extends(m, m1) && Grown(m1, m2, s) && Extends(m1, m2) && Present(m.spaces[s])
    requires LoadedUpTo(m, s, image, segs, n) && Fits(segs, n) && InPlace(m2, s, image, segs[n])
    requires if segs[n].writable then IsData(m1.spaces[s], segs[n]) else m1.spaces[s] == m.spaces[s]
    requires m2.spaces[s] == m1.spaces[s].(frames := m2.spaces[s].frames)
    ensures LoadedUpTo(m2, s, image, segs, n + 1) && Grown(m, m2, s) && Extends(m, m2) && Present(m2.spaces[s])
  {
    hide InPlace;
    EndIsAligned(segs, n);
    GrowthComposes(m, m1, m2, s);
    forall k: nat | k < n ensures InPlace(m2, s, image, segs[k]) { InPlaceStays(m, m2, s, image, segs[k]); }
    if segs[n].writable {
      assert IsData(m2.spaces[s], segs[n]);
    } else if m.spaces[s].imageDataStart != 0 {
      var k: nat :| k < n && IsData(m.spaces[s], segs[k]);
      assert IsData(m2.spaces[s], segs[k]);
    }
  }

  /** Pages of one more segment. */
  lemma PagesAdd(segs: seq<Segment>, k: nat)
    requires k < |segs| && Tiled(segs, k) && segs[k].vaddr == EndOf(segs, k)
    ensures (EndOf(segs, k) - CODE) / 0x1000 + PagesOf(segs[k].memSize) == (SegEnd(segs[k]) - CODE) / 0x1000
    ensures segs[k].vaddr / 0x1000 + PagesOf(segs[k].memSize) == SegEnd(segs[k]) / 0x1000
  {
    EndIsAligned(segs, k);
  }

  lemma EndGrows(m: Mem, s: nat, image: seq<byte>, segs: seq<Segment>, n: nat)
    requires s < |m.spaces| && n <= |segs| && LoadedUpTo(m, s, image, segs, n)
    ensures CODE <= EndOf(segs, n) <= STACK
  {
    EndIsAligned(segs, n);
  }

  /** Some segment ends beyond what the frame table can hold. */
  ghost predicate Overfull(segs: seq<Segment>) {
    exists k: nat :: k < |segs| && (SegEnd(segs[k]) - CODE) / 0x1000 + 1 > MAX_SHARD_FRAMES
  }

  lemma OverfullIsTooBig(image: seq<byte>)
    requires Parses(image)
    ensures Acceptable(image) && Overfull(Loads(image, U16(image, 56))) ==> TooBig(image)
  {
    var segs := Loads(image, U16(image, 56));
    if Acceptable(image) { EndIsAligned(segs, |segs|); }
  }

  lemma AllBacked(image: seq<byte>)
    requires Parses(image)
    ensures var segs := Loads(image, U16(image, 56));
            forall k :: 0 <= k < |segs| ==> segs[k].fileOffset + segs[k].fileSize <= |image|
  {
    var segs := Loads(image, U16(image, 56));
    forall k | 0 <= k < |segs| ensures segs[k].fileOffset + segs[k].fileSize <= |image| {
      var _ := LoadsAreBacked(image, U16(image, 56), k);
    }
  }

  lemma NoSegmentsYet(m: Mem, s: nat, image: seq<byte>, segs: seq<Segment>)
    requires s < |m.spaces| && m.spaces[s].imageDataStart == 0
    ensures LoadedUpTo(m, s, image, segs, 0)
  {}

  lemma AllLoaded(m: Mem, m': Mem, s: nat, image: seq<byte>)
    requires s < |m.spaces| && Parses(image) && U64(image, 24) == CODE
    requires var segs := Loads(image, U16(image, 56));
             LoadedUpTo(m, s, image, segs, |segs|)
             && m' == m.(spaces := m.spaces[s := m.spaces[s].(imageEnd := EndOf(segs, |segs|))])
    ensures Loaded(m', s, image)
  {
    var segs := Loads(image, U16(image, 56));
    forall k: nat | k < |segs| ensures InPlace(m', s, image, segs[k]) {
      assert InPlace(m, s, image, segs[k]);
      forall v: nat | segs[k].vaddr <= v * 0x1000 < SegEnd(segs[k])
        ensures HoldsFile(m', s, v, SegFlags(segs[k]), FileBytes(image, segs[k]), segs[k].vaddr / 0x1000)
      {
        assert HoldsFile(m, s, v, SegFlags(segs[k]), FileBytes(image, segs[k]), segs[k].vaddr / 0x1000);
      }
    }
    if m.spaces[s].imageDataStart != 0 {
      var k: nat :| k < |segs| && IsData(m.spaces[s], segs[k]);
      assert IsData(m'.spaces[s], segs[k]);
    }
  }

  lemma InPlaceStays(m: Mem, m': Mem, s: nat, image: seq<byte>, seg: Segment)
    requires Grown(m, m', s) && Extends(m, m') && Present(m.spaces[s]) && SegEnd(seg) <= STACK && InPlace(m, s, image, seg)
    ensures InPlace(m', s, image, seg)
  {
    hide Extends, Holds, Chunk;
    forall v: nat | seg.vaddr <= v * 0x1000 < SegEnd(seg)
      ensures HoldsFile(m', s, v, SegFlags(seg), FileBytes(image, seg), seg.vaddr / 0x1000)
    {
      assert HoldsFile(m, s, v, SegFlags(seg), FileBytes(image, seg), seg.vaddr / 0x1000);
      HoldsStays(m, m', s, v, SegFlags(seg), Chunk(FileBytes(image, seg), v - seg.vaddr / 0x1000));
    }
  }

  lemma LoadedStays(m: Mem, m': Mem, s: nat, image: seq<byte>)
    requires Grown(m, m', s) && Extends(m, m') && Present(m.spaces[s]) && Loaded(m, s, image)
    requires m'.spaces[s].imageEnd == m.spaces[s].imageEnd && m'.spaces[s].imageDataStart == m.spaces[s].imageDataStart
    requires m'.spaces[s].imageDataEnd == m.spaces[s].imageDataEnd
    ensures Loaded(m', s, image)
  {
    hide Extends, InPlace;
    var segs := Loads(image, U16(image, 56));
    EndIsAligned(segs, |segs|);
    forall k: nat | k < |segs| ensures InPlace(m', s, image, segs[k]) {
      InPlaceStays(m, m', s, image, segs[k]);
    }
    if m.spaces[s].imageDataStart != 0 {
      var k: nat :| k < |segs| && IsData(m.spaces[s], segs[k]);
      assert IsData(m'.spaces[s], segs[k]);
    }
  }

  /** A loaded image covers the range that buffer validation accepts, with the right permissions. */
  lemma ImageIsMapped(m: Mem, s: nat, image: seq<byte>)
    requires s < |m.spaces| && Loaded(m, s, image)
    ensures var sp := m.spaces[s];
            && CODE <= sp.imageEnd <= STACK && sp.imageEnd % 0x1000 == 0 && UserRange(m, s, CODE, sp.imageEnd, false)
            && (sp.imageDataStart != 0 ==>
                  sp.imageDataStart % 0x1000 == 0 && sp.imageDataEnd <= sp.imageEnd
                  && UserRange(m, s, sp.imageDataStart, sp.imageDataEnd, true))
  {
    hide Chunk;
    var segs := Loads(image, U16(image, 56));
    var sp := m.spaces[s];
    EndIsAligned(segs, |segs|);
    forall v: nat | CODE <= v * 0x1000 < sp.imageEnd ensures UserPage(m, s, v, false) {
      var k := Covering(segs, |segs|, v * 0x1000);
      assert InPlace(m, s, image, segs[k]);
      assert HoldsFile(m, s, v, SegFlags(segs[k]), FileBytes(image, segs[k]), segs[k].vaddr / 0x1000);
    }
    if sp.imageDataStart != 0 {
      var k: nat :| k < |segs| && IsData(sp, segs[k]);
      assert InPlace(m, s, image, segs[k]);
      forall v: nat | sp.imageDataStart <= v * 0x1000 < sp.imageDataEnd ensures UserPage(m, s, v, true) {
        assert HoldsFile(m, s, v, SegFlags(segs[k]), FileBytes(image, segs[k]), segs[k].vaddr / 0x1000);
      }
    }
  }

  /** The pages of segment `seg` cover address `a`. */
  predicate Covers(seg: Segment, a: nat) {
    seg.vaddr <= a < SegEnd(seg)
  }

  /** Some segment covers address `a`; some writable segment does. */
  ghost predicate Covered(segs: seq<Segment>, a: nat) {
    exists k: nat :: k < |segs| && Covers(segs[k], a)
  }

  ghost predicate CoveredWritable(segs: seq<Segment>, a: nat) {
    exists k: nat :: k < |segs| && segs[k].writable && Covers(segs[k], a)
  }

  /** After loading, the image region of the descriptor is what the segments cover, address for address, and its
      data part is what the writable segment covers; this is what buffer validation goes by. */
  lemma ImageRegions(m: Mem, s: nat, image: seq<byte>, a: nat)
    requires s < |m.spaces| && Loaded(m, s, image)
    ensures var segs := Loads(image, U16(image, 56));
            (InImage(m.spaces[s], a) <==> Covered(segs, a)) && (InImageData(m.spaces[s], a) <==> CoveredWritable(segs, a))
  {
    hide InPlace, U16, Covers, InImage, InImageData;
    var segs, sp := Loads(image, U16(image, 56)), m.spaces[s];
    WholeRegion(segs, sp, a);
    DataRegion(segs, sp, a);
  }

  lemma WholeRegion(segs: seq<Segment>, sp: Space, a: nat)
    requires Tiled(segs, |segs|) && sp.imageEnd == EndOf(segs, |segs|)
    ensures InImage(sp, a) <==> Covered(segs, a)
  {
    EndIsAligned(segs, |segs|);
    if InImage(sp, a) {
      var k := Covering(segs, |segs|, a);
      assert Covers(segs[k], a);
    }
    if k: nat :| k < |segs| && Covers(segs[k], a) {
      assert CODE <= segs[k].vaddr && SegEnd(segs[k]) <= EndOf(segs, |segs|);
    }
  }

  lemma DataRegion(segs: seq<Segment>, sp: Space, a: nat)
    requires Tiled(segs, |segs|) && Describes(sp, segs, |segs|)
    ensures InImageData(sp, a) <==> CoveredWritable(segs, a)
  {
    if sp.imageDataStart != 0 {
      var d: nat :| d < |segs| && IsData(sp, segs[d]);
      assert InImageData(sp, a) <==> Covers(segs[d], a);
      forall k: nat | k < |segs| && segs[k].writable ensures k == d { OneWritable(segs, d, k); }
    }
  }

  lemma OneWritable(segs: seq<Segment>, j: nat, k: nat)
    requires Tiled(segs, |segs|) && j < |segs| && k < |segs| && segs[j].writable && segs[k].writable
    ensures j == k
  {
    assert Fits(segs, j) && Fits(segs, k);
  }

  /** The byte a shard sees at address `a`. */
  ghost function ByteAt(m: Mem, s: nat, a: nat): byte
    requires s < |m.spaces| && var e := Page(m, s, a / 0x1000); e.Entry? && e.frame in m.data && |m.data[e.frame]| == PAGE
  {
    m.data[Page(m, s, a / 0x1000).frame][a % 0x1000]
  }

  /** Each address of a loaded image holds its segment's file byte, or zero past the file image, under
      that segment's permissions. */
  lemma LoadedByte(m: Mem, s: nat, image: seq<byte>, a: nat) returns (seg: Segment)
    requires s < |m.spaces| && Loaded(m, s, image) && CODE <= a < m.spaces[s].imageEnd
    ensures seg in Loads(image, U16(image, 56)) && seg.vaddr <= a < SegEnd(seg) && seg.fileOffset + seg.fileSize <= |image|
    ensures var e := Page(m, s, a / 0x1000); e.Entry? && e.flags == SegFlags(seg) && e.frame in m.data && |m.data[e.frame]| == PAGE
    ensures ByteAt(m, s, a) == if a - seg.vaddr < seg.fileSize then image[seg.fileOffset + (a - seg.vaddr)] else 0
  {
    var segs := Loads(image, U16(image, 56));
    EndIsAligned(segs, |segs|);
    var k := Covering(segs, |segs|, a);
    seg := segs[k];
    assert InPlace(m, s, image, seg);
    var v, v0 := a / 0x1000, seg.vaddr / 0x1000;
    assert seg.vaddr <= v * 0x1000 < SegEnd(seg);
    assert HoldsFile(m, s, v, SegFlags(seg), FileBytes(image, seg), v0);
    assert (v - v0) * PAGE + a % 0x1000 == a - seg.vaddr;
  }

  /** The lowest bits of a 32-bit field are those of its first byte. */
  lemma FirstByteBits(d: seq<byte>, off: nat)
    requires off + 4 <= |d|
    ensures U32(d, off) % 2 == d[off] % 2 && U32(d, off) / 2 % 2 == d[off] / 2 % 2
  {
    var rest: int := d[off + 1] as int + 0x100 * (d[off + 2] as int + 0x100 * d[off + 3] as int);
    assert U32(d, off) as int == d[off] as int + 0x100 * rest;
  }

  /** Where a loaded segment comes from: the fields of a PT_LOAD header in the file. */
  lemma SegmentOrigin(image: seq<byte>, seg: Segment) returns (ph: nat, i: nat)
    requires Parses(image) && seg in Loads(image, U16(image, 56))
    ensures |image| >= 64 && i < U16(image, 56) && ph == U64(image, 32) + 56 * i && ph + 56 <= |image| && U32(image, ph) == 1
    ensures seg.fileOffset == U64(image, ph + 8) && seg.vaddr == U64(image, ph + 16) && seg.fileSize == U64(image, ph + 32)
    ensures seg.memSize == U64(image, ph + 40)
    ensures (seg.writable <==> image[ph + 4] / 2 % 2 == 1) && (seg.executable <==> image[ph + 4] % 2 == 1)
  {
    hide U16, U32, U64;
    var n := U16(image, 56);
    var k :| 0 <= k < |Loads(image, n)| && Loads(image, n)[k] == seg;
    i := LoadsAreBacked(image, n, k);
    ph := Phdr(image, i);
    FirstByteBits(image, ph + 4);
  }

  /** What a shard sees at address `a` of its image, read off the file: some PT_LOAD header covers it. The page
      is writable exactly if that header's write flag is set, and executable exactly if its execute flag is;
      and the byte is the file's, or zero past the file image. */
  lemma LoadedFromFile(m: Mem, s: nat, image: seq<byte>, a: nat) returns (ph: nat, i: nat)
    requires s < |m.spaces| && Loaded(m, s, image) && CODE <= a < m.spaces[s].imageEnd
    ensures |image| >= 64 && i < U16(image, 56) && ph == U64(image, 32) + 56 * i
    ensures ph + 56 <= |image| && U32(image, ph) == 1
    ensures var offset, vaddr, fileSize, memSize := U64(image, ph + 8), U64(image, ph + 16), U64(image, ph + 32), U64(image, ph + 40);
            var e := Page(m, s, a / 0x1000);
            && vaddr <= a && (a - vaddr) / 0x1000 * 0x1000 < memSize && offset + fileSize <= |image|
            && e.Entry? && e.frame in m.data && |m.data[e.frame]| == PAGE && e.flags.user && !e.flags.uncached
            && (e.flags.writable <==> image[ph + 4] / 2 % 2 == 1) && (e.flags.noExecute <==> image[ph + 4] % 2 == 0)
            && ByteAt(m, s, a) == if a - vaddr < fileSize then image[offset + (a - vaddr)] else 0
  {
    hide Page, U16, U32, U64, Loads, Parses, ByteAt;
    var seg := LoadedByte(m, s, image, a);
    ph, i := SegmentOrigin(image, seg);
    PageOf(seg, a);
  }

  lemma PageOf(seg: Segment, a: nat)
    requires seg.vaddr <= a < SegEnd(seg)
    ensures (a - seg.vaddr) / 0x1000 * 0x1000 < seg.memSize
  {}

  /** A shard whose image and stack are in place and whose kernel stack is reserved is complete. */
  lemma LoadedIsBuilt(m: Mem, s: nat, image: seq<byte>)
    requires s < |m.spaces| && Loaded(m, s, image) && Holds(m, s, STACK / 0x1000, DATA_FLAGS, Chunk([], 0))
    requires m.spaces[s].dataStart == 0 && Unmapped(m, s, m.spaces[s].kernelStack)
    ensures Built(m, s)
  {
    ImageIsMapped(m, s, image);
    hide Loaded, Chunk;
    forall v: nat | STACK <= v * 0x1000 < STACK_TOP ensures UserPage(m, s, v, true) {
      assert v == STACK / 0x1000;
    }
  }

  /** Below the stack page nothing of a loaded image is in its way, and the frame table has room for two
      more frames unless the image is too big. */
  lemma StackIsFree(m: Mem, s: nat, image: seq<byte>)
    requires s < |m.spaces| && Loaded(m, s, image) && m.spaces[s].imageEnd >= CODE
    requires AbsentFrom(m, s, m.spaces[s].imageEnd / 0x1000)
    requires |m.spaces[s].frames| == (m.spaces[s].imageEnd - CODE) / 0x1000 + 1
    ensures Page(m, s, STACK / 0x1000) == Absent && Acceptable(image)
    ensures |m.spaces[s].frames| + 2 > MAX_SHARD_FRAMES ==> TooBig(image)
  {
    var segs := Loads(image, U16(image, 56));
    EndIsAligned(segs, |segs|);
  }

  /** The page `setup_initial_kernel_stack` leaves: above zeroes, the address that the first switch to the
      shard returns to. */
  function FirstStack(entry: seq<byte>): (page: seq<byte>)
    requires |entry| == 8
    ensures |page| == PAGE
  {
    seq(PAGE - 8, _ => 0) + entry
  }

  /** The first switch to a shard starts 56 bytes below the top: it pops six zero registers and returns to
      the entry point. */
  lemma FirstSwitch(entry: seq<byte>, k: nat)
    requires |entry| == 8 && k < 7
    ensures U64(FirstStack(entry), PAGE - 56 + 8 * k) == if k < 6 then 0 else Le64(entry)
  {
    var page, off := FirstStack(entry), PAGE - 56 + 8 * k;
    if k < 6 {
      assert page[off..off + 8] == [0, 0, 0, 0, 0, 0, 0, 0];
    } else {
      assert page[off..off + 8] == entry;
    }
  }

  /** Mapping the user stack, reserving frame `f` for the kernel stack, and going live. */
  lemma StacksInPlace(m: Mem, m1: Mem, m2: Mem, m3: Mem, s: nat, f: nat, page: seq<byte>, image: seq<byte>)
    requires Grown(m, m1, s) && Extends(m, m1) && Present(m.spaces[s]) && m.spaces[s].dataStart == 0 && Loaded(m, s, image)
    requires m1.spaces[s] == m.spaces[s].(frames := m1.spaces[s].frames)
    requires Holds(m1, s, STACK / 0x1000, DATA_FLAGS, Chunk([], 0))
    requires f !in m1.roles && m2 == Added(m1, s, f, [], page) && SamePages(m1, m2)
    requires m3 == m2.(spaces := m2.spaces[s := m2.spaces[s].(life := Live, kernelStack := f)]) && SamePages(m2, m3)
    ensures Grown(m, m3, s) && Extends(m, m3) && Present(m3.spaces[s])
    ensures Loaded(m3, s, image) && Holds(m3, s, STACK / 0x1000, DATA_FLAGS, Chunk([], 0)) && Built(m3, s)
    ensures f in m3.data && m3.data[f] == page
  {
    hide Loaded, Chunk, Page, Holds, Built;
    assert Grown(m1, m3, s) && Extends(m1, m3);
    GrowthComposes(m, m1, m3, s);
    hide Grown, Extends;
    LoadedStays(m, m3, s, image);
    HoldsStays(m1, m3, s, STACK / 0x1000, DATA_FLAGS, Chunk([], 0));
    LoadedIsBuilt(m3, s, image);
  }
}
