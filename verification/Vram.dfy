/** The allocator a GPU shard runs over its partition: header, table and regions share one buffer of
    video memory. Regions are handed out in rising order and never reused. */
module Vram {
  import opened Bytes
  import opened Bitmap
  import opened Buffers

  const TWO32: nat := 0x1_0000_0000
  const MAX_ENTRIES: nat := 255

  datatype Entry = Entry(tag: u32, offset: u32, size: u32)

  /** What header and table say: `next` is the end of the last region. */
  datatype Heap = Heap(entries: seq<Entry>, next: u32, total: u32)

  // ------------------------------------------------------------------ specification

  /** `next` rounded up to 64 in 32-bit arithmetic: the addition may wrap. */
  function Aligned(next: u32): (a: u32)
    ensures a % 64 == 0
    ensures next + 63 < TWO32 ==> next <= a < next + 64
    ensures next + 63 >= TWO32 ==> a == 0
  {
    (next + 63) % 0x1_0000_0000 / 64 * 64
  }

  predicate AllocAccepted(h: Heap, size: u32) {
    Aligned(h.next) + size < TWO32 && Aligned(h.next) + size <= h.total && |h.entries| < MAX_ENTRIES
  }

  function Allocated(h: Heap, tag: u32, size: u32): Heap
    requires AllocAccepted(h, size)
  {
    h.(entries := h.entries + [Entry(tag, Aligned(h.next), size)], next := Aligned(h.next) + size)
  }

  /** The first entry recorded at `offset`, or the number of entries. */
  function IndexOf(entries: seq<Entry>, offset: u32): (k: nat)
    ensures k <= |entries| && (k < |entries| ==> entries[k].offset == offset)
    ensures forall j: nat :: j < k ==> entries[j].offset != offset
  {
    if entries == [] || entries[0].offset == offset then 0
    else
      var r := IndexOf(entries[1..], offset);
      assert forall j: nat :: 0 < j < 1 + r ==> entries[j] == entries[1..][j - 1];
      1 + r
  }

  function Freed(h: Heap, offset: u32): Heap {
    var k := IndexOf(h.entries, offset);
    if k == |h.entries| then h else h.(entries := h.entries[k := h.entries[k].(tag := 0)])
  }

  datatype Op = Alloc(tag: u32, size: u32) | Free(offset: u32)

  function Step(h: Heap, op: Op): Heap {
    match op
    case Alloc(tag, size) => if AllocAccepted(h, size) then Allocated(h, tag, size) else h
    case Free(offset) => Freed(h, offset)
  }

  function Run(total: u32, ops: seq<Op>): Heap
    decreases |ops|
  {
    if ops == [] then Heap([], 0x1000, total) else Step(Run(total, ops[..|ops| - 1]), ops[|ops| - 1])
  }

  /** Region `e` is aligned and lies between the allocator's page and the end of the heap. */
  predicate Placed(h: Heap, e: Entry) {
    e.offset % 64 == 0 && 0x1000 <= e.offset && e.offset + e.size <= h.next && e.offset + e.size <= h.total
  }

  /** What holds even past the wrap: recorded regions are aligned and end inside the heap. */
  predicate Recorded(h: Heap) {
    forall i: nat :: i < |h.entries| ==> h.entries[i].offset % 64 == 0 && h.entries[i].offset + h.entries[i].size <= h.total
  }

  /** Recorded regions are well placed and pairwise disjoint. */
  predicate Sound(h: Heap) {
    && |h.entries| <= MAX_ENTRIES && 0x1000 <= h.next
    && (h.next == 0x1000 || h.next <= h.total)
    && (forall i: nat :: i < |h.entries| ==> Placed(h, h.entries[i]))
    && (forall i: nat, j: nat :: i < j < |h.entries| ==> h.entries[i].offset + h.entries[i].size <= h.entries[j].offset)
  }

  // ------------------------------------------------------------------ runs

  lemma StepKeepsSound(h: Heap, op: Op)
    requires Sound(h) && h.total <= 0xFFFF_FFC0
    ensures Sound(Step(h, op))
  {}

  lemma {:induction false} RunIsSound(total: u32, ops: seq<Op>)
    requires total <= 0xFFFF_FFC0
    ensures Sound(Run(total, ops)) && Run(total, ops).total == total
    decreases |ops|
  {
    if ops != [] {
      RunIsSound(total, ops[..|ops| - 1]);
      StepKeepsSound(Run(total, ops[..|ops| - 1]), ops[|ops| - 1]);
    }
  }

  /** With a larger heap, filling it and asking for one more byte wraps the alignment: the second region
      is placed on the allocator's own page. */
  lemma WrapPlacesRegionAtZero(total: u32)
    requires total > 0xFFFF_FFC0
    ensures var h := Run(total, [Alloc(1, total - 0x1000), Alloc(1, 1)]);
            |h.entries| == 2 && h.entries[1] == Entry(1, 0, 1) && !Sound(h)
  {
    var ops := [Alloc(1, total - 0x1000), Alloc(1, 1)];
    assert ops[..1] == [ops[0]] && ops[..1][..0] == [];
    var h0 := Heap([], 0x1000, total);
    assert Run(total, []) == h0 && Aligned(0x1000) == 0x1000;
    var h1 := Step(h0, ops[0]);
    assert Run(total, ops[..1]) == h1 && h1.next == total;
    var h2 := Step(h1, ops[1]);
    assert h2.entries[1] == Entry(1, 0, 1) && !Placed(h2, h2.entries[1]);
  }

  /** The regions stay sound over every run exactly if rounding up can never wrap. */
  lemma SoundExactlyBelowTheWrap(total: u32)
    ensures (forall ops :: Sound(Run(total, ops))) <==> total <= 0xFFFF_FFC0
  {
    if total <= 0xFFFF_FFC0 {
      forall ops ensures Sound(Run(total, ops)) { RunIsSound(total, ops); }
    } else {
      WrapPlacesRegionAtZero(total);
    }
  }

  /** A region of nonzero size is found by its offset, unless an empty region was recorded there first. */
  lemma IndexOfRegion(h: Heap, k: nat)
    requires Sound(h) && k < |h.entries| && h.entries[k].size > 0
    ensures IndexOf(h.entries, h.entries[k].offset) == k
            <==> forall j: nat :: j < k && h.entries[j].size == 0 ==> h.entries[j].offset != h.entries[k].offset
  {
    var i := IndexOf(h.entries, h.entries[k].offset);
    assert i <= k;
    assert i < k ==> h.entries[i].offset + h.entries[i].size <= h.entries[k].offset;
  }

  // ------------------------------------------------------------------ the buffer

  predicate Shaped(m: seq<byte>) {
    |m| >= 0x1000 && U32(m, 4) <= MAX_ENTRIES && U32(m, 12) <= |m|
  }

  function EntryIn(m: seq<byte>, i: nat): Entry
    requires |m| >= 0x1000 && i < MAX_ENTRIES
  {
    Entry(U32(m, 16 + 16 * i), U32(m, 20 + 16 * i), U32(m, 24 + 16 * i))
  }

  /** Header at 0, table at 16. */
  function View(m: seq<byte>): Heap
    requires Shaped(m)
  {
    Heap(seq(U32(m, 4), i requires 0 <= i < U32(m, 4) => EntryIn(m, i)), U32(m, 8), U32(m, 12))
  }

  class Allocator {
    const mem: array<byte>

    ghost predicate Valid()
      reads mem
    {
      Shaped(mem[..]) && Recorded(View(mem[..]))
    }

    constructor (mem: array<byte>, total: u32)
      requires 0x1000 <= mem.Length && total <= mem.Length
      modifies mem
      ensures Valid() && this.mem == mem && View(mem[..]) == Run(total, []) && U32(mem[..], 0) == 0x5641_4C4C
      ensures forall i: nat :: 16 <= i < mem.Length ==> mem[i] == old(mem[i])
    {
      hide U32;
      this.mem := mem;
      new;
      Put32(mem, 0, 0x5641_4C4C);
      Put32(mem, 4, 0);
      Put32(mem, 8, 0x1000);
      Put32(mem, 12, total);
    }

    /** `alloc`: one more table entry, and no byte of any region changes. */
    method AllocRegion(tag: u32, size: u32) returns (r: Option<u32>)
      requires Valid()
      modifies mem
      ensures Valid() && View(mem[..]) == Step(View(old(mem[..])), Alloc(tag, size))
      ensures var h := View(old(mem[..]));
              r == if |h.entries| < MAX_ENTRIES && Aligned(h.next) + size < TWO32 && Aligned(h.next) + size <= h.total
                   then Some(Aligned(h.next)) else None
      ensures var h := View(old(mem[..]));
              View(mem[..]) == if r.None? then h
                               else Heap(h.entries + [Entry(tag, r.value, size)], r.value + size, h.total)
      ensures forall i: nat :: 0x1000 <= i < mem.Length ==> mem[i] == old(mem[i])
    {
      hide U32, Aligned;
      ghost var m := mem[..];
      var next := U32(mem[..], 8);
      var at := Aligned(next);
      if at + size >= TWO32 { return None; }
      var total := U32(mem[..], 12);
      if at + size > total { return None; }
      var count := U32(mem[..], 4);
      if count >= MAX_ENTRIES { return None; }
      WriteEntry(count, tag, at, size);
      ghost var m1 := mem[..];
      Put32(mem, 4, count + 1);
      Put32(mem, 8, at + size);
      EntryAdded(m, m1, mem[..], count, tag, at, size);
      AddedIsRecorded(View(m), tag, size);
      return Some(at);
    }

    method WriteEntry(i: nat, tag: u32, at: u32, size: u32)
      requires i < MAX_ENTRIES && mem.Length >= 0x1000
      modifies mem
      ensures Outside(old(mem[..]), mem[..], 16 + 16 * i, 32 + 16 * i) && EntryIn(mem[..], i) == Entry(tag, at, size)
      ensures U32(mem[..], 28 + 16 * i) == 0
    {
      hide U32, U16;
      Put32(mem, 16 + 16 * i, tag);
      Put32(mem, 20 + 16 * i, at);
      Put32(mem, 24 + 16 * i, size);
      Put32(mem, 28 + 16 * i, 0);
    }

    /** `free`: the tag of the first entry at `offset` and the whole quadwords of its region become zero, and
        no other byte changes. In a sound heap that is one entry losing its tag. */
    method FreeRegion(offset: u32) returns (ok: bool)
      requires Valid()
      modifies mem
      ensures Valid()
      ensures var h := View(old(mem[..])); ok <==> IndexOf(h.entries, offset) < |h.entries|
      ensures var h := View(old(mem[..]));
              var k := IndexOf(h.entries, offset);
              forall i: nat :: i < mem.Length ==>
                mem[i] == if ok && (16 + 16 * k <= i < 20 + 16 * k || offset <= i < offset + h.entries[k].size / 8 * 8)
                          then 0 else old(mem[i])
      ensures Sound(View(old(mem[..]))) ==> View(mem[..]) == Step(View(old(mem[..])), Free(offset))
    {
      hide U32, Sound, Recorded;
      ghost var m := mem[..];
      var count := U32(mem[..], 4);
      for i := 0 to count
        invariant mem[..] == m && forall j: nat :: j < i ==> View(m).entries[j].offset != offset
      {
        if U32(mem[..], 20 + 16 * i) == offset {
          assert View(m).entries[i].offset == offset && IndexOf(View(m).entries, offset) == i;
          ClearEntry(i);
          return true;
        }
      }
      return false;
    }

    /** The loop body of `vram_free` for the entry it looks for: clear the tag, zero the region. */
    method ClearEntry(k: nat)
      requires Valid() && k < |View(mem[..]).entries|
      modifies mem
      ensures Valid()
      ensures var entry := View(old(mem[..])).entries[k];
              forall i: nat :: i < mem.Length ==>
                mem[i] == if 16 + 16 * k <= i < 20 + 16 * k || entry.offset <= i < entry.offset + entry.size / 8 * 8
                          then 0 else old(mem[i])
      ensures var h := View(old(mem[..]));
              Sound(h) && IndexOf(h.entries, h.entries[k].offset) == k ==> View(mem[..]) == Step(h, Free(h.entries[k].offset))
    {
      hide U32, Sound, Recorded, Step, IndexOf;
      ghost var m := mem[..];
      RecordedFacts(View(m), k);
      var offset, size := U32(mem[..], 20 + 16 * k), U32(mem[..], 24 + 16 * k);
      Put32(mem, 16 + 16 * k, 0);
      ZeroField(mem[..], 16 + 16 * k);
      ghost var m1 := mem[..];
      ZeroQwords(offset, size / 8);
      FreeKeepsRecorded(m, m1, mem[..], k, offset, size / 8);
      FreedIsStep(m, m1, mem[..], k, offset, size / 8);
    }

    method ZeroQwords(start: nat, n: nat)
      requires start + 8 * n <= mem.Length
      modifies mem
      ensures forall i: nat :: i < mem.Length ==> mem[i] == if start <= i < start + 8 * n then 0 else old(mem[i])
    {
      for q := 0 to n
        invariant forall i: nat :: start <= i < start + 8 * q ==> mem[i] == 0
        invariant forall i: nat :: i < mem.Length && !(start <= i < start + 8 * q) ==> mem[i] == old(mem[i])
      {
        var d := start + 8 * q;
        mem[d], mem[d + 1], mem[d + 2], mem[d + 3] := 0, 0, 0, 0;
        mem[d + 4], mem[d + 5], mem[d + 6], mem[d + 7] := 0, 0, 0, 0;
      }
    }
  }

  lemma AddedIsRecorded(h: Heap, tag: u32, size: u32)
    requires Recorded(h) && AllocAccepted(h, size)
    ensures Recorded(Allocated(h, tag, size))
  {}

  lemma RecordedFacts(h: Heap, i: nat)
    requires Recorded(h) && i < |h.entries|
    ensures h.entries[i].offset % 64 == 0 && h.entries[i].offset + h.entries[i].size <= h.total
  {}

  /** A field that reads as zero has zero bytes. */
  lemma ZeroField(m: seq<byte>, off: nat)
    requires off + 4 <= |m| && U32(m, off) == 0
    ensures m[off] == m[off + 1] == m[off + 2] == m[off + 3] == 0
  {}

  /** Zeroing whole quadwords leaves every aligned field or makes it zero. */
  lemma FieldAfterZeroing(m: seq<byte>, m': seq<byte>, start: nat, n: nat, off: nat)
    requires |m| == |m'| && start % 8 == 0 && off % 4 == 0 && off + 4 <= |m|
    requires forall i: nat :: i < |m| ==> m'[i] == if start <= i < start + 8 * n then 0 else m[i]
    ensures U32(m', off) == if start <= off < start + 8 * n then 0 else U32(m, off)
  {
    assert start <= off < start + 8 * n <==> start <= off + 3 < start + 8 * n;
    if start <= off < start + 8 * n {
      assert m'[off..off + 4] == [0, 0, 0, 0];
    } else {
      assert m'[off..off + 4] == m[off..off + 4];
    }
  }

  lemma FreeKeepsRecorded(m: seq<byte>, m1: seq<byte>, m2: seq<byte>, k: nat, start: nat, n: nat)
    requires Shaped(m) && Recorded(View(m)) && k < U32(m, 4) && start % 64 == 0
    requires Outside(m, m1, 16 + 16 * k, 20 + 16 * k) && U32(m1, 16 + 16 * k) == 0
    requires |m2| == |m1| && forall i: nat :: i < |m1| ==> m2[i] == if start <= i < start + 8 * n then 0 else m1[i]
    ensures Shaped(m2) && Recorded(View(m2))
  {
    hide U32, U16;
    FieldAfterZeroing(m1, m2, start, n, 4);
    FieldAfterZeroing(m1, m2, start, n, 12);
    forall i: nat | i < U32(m2, 4) ensures EntryIn(m2, i).offset % 64 == 0 && EntryIn(m2, i).offset + EntryIn(m2, i).size <= U32(m2, 12) {
      FieldAfterZeroing(m1, m2, start, n, 20 + 16 * i);
      FieldAfterZeroing(m1, m2, start, n, 24 + 16 * i);
      assert View(m).entries[i] == EntryIn(m, i);
    }
  }

  lemma RegionFacts(h: Heap, i: nat)
    requires Sound(h) && i < |h.entries|
    ensures 0x1000 <= h.entries[i].offset && h.entries[i].offset + h.entries[i].size <= h.total
  {
    assert Placed(h, h.entries[i]);
  }

  lemma EntryAdded(m: seq<byte>, m1: seq<byte>, m2: seq<byte>, count: nat, tag: u32, at: u32, size: u32)
    requires Shaped(m) && U32(m, 4) == count < MAX_ENTRIES && at + size < TWO32
    requires Outside(m, m1, 16 + 16 * count, 32 + 16 * count) && EntryIn(m1, count) == Entry(tag, at, size)
    requires Outside(m1, m2, 4, 12) && U32(m2, 4) == count + 1 && U32(m2, 8) == at + size
    ensures Shaped(m2)
    ensures View(m2) == View(m).(entries := View(m).entries + [Entry(tag, at, size)], next := at + size)
  {
    hide U32, U16;
    forall i: nat | i < count ensures EntryIn(m2, i) == EntryIn(m, i) {
      assert EntryIn(m1, i) == EntryIn(m, i);
    }
    assert EntryIn(m2, count) == EntryIn(m1, count);
  }

  lemma EntryFreed(m: seq<byte>, m1: seq<byte>, m2: seq<byte>, k: nat, lo: nat, hi: nat)
    requires Shaped(m) && k < U32(m, 4) && 0x1000 <= lo
    requires Outside(m, m1, 16 + 16 * k, 20 + 16 * k) && U32(m1, 16 + 16 * k) == 0
    requires |m2| == |m1| && forall i: nat :: i < |m1| && !(lo <= i < hi) ==> m2[i] == m1[i]
    ensures Shaped(m2)
    ensures View(m2) == View(m).(entries := View(m).entries[k := View(m).entries[k].(tag := 0)])
  {
    OutsideOf(m1, m2, lo, hi);
    hide U32, U16;
    forall i: nat | i < U32(m, 4) ensures EntryIn(m2, i) == if i == k then EntryIn(m, i).(tag := 0) else EntryIn(m, i) {
      assert EntryIn(m2, i) == EntryIn(m1, i);
    }
  }

  lemma FreedIsStep(m: seq<byte>, m1: seq<byte>, m2: seq<byte>, k: nat, offset: u32, n: nat)
    requires Shaped(m) && k < U32(m, 4) && View(m).entries[k].offset == offset && 8 * n <= View(m).entries[k].size
    requires Outside(m, m1, 16 + 16 * k, 20 + 16 * k) && U32(m1, 16 + 16 * k) == 0
    requires |m2| == |m1| && forall i: nat :: i < |m1| ==> m2[i] == if offset <= i < offset + 8 * n then 0 else m1[i]
    ensures Sound(View(m)) && IndexOf(View(m).entries, offset) == k ==> Shaped(m2) && View(m2) == Step(View(m), Free(offset))
  {
    hide U32, U16, Sound;
    if Sound(View(m)) {
      RegionFacts(View(m), k);
      EntryFreed(m, m1, m2, k, offset, offset + 8 * n);
    }
  }
}
