/** The read-only ext2 parser. A read outside the image, a bad magic number or a division by a zero
    block size is a panic. */
module Ext2 {
  import opened Bytes
  import opened Bitmap

  datatype Outcome<+T> = Done(value: T) | Panic

  datatype Fs = Fs(data: seq<byte>, blockSize: u32, inodesPerGroup: u32, inodeSize: u32, inodeTable: u32)

  datatype Inode = Inode(mode: u16, size: u32, blocks: seq<u32>)

  lemma InodeShape(fs: Fs, ino: u32)
    ensures InodeAt(fs, ino).Done? && InodeAt(fs, ino).value.Some? ==> |InodeAt(fs, ino).value.value.blocks| == 15
  {}

  const ROOT_INODE: u32 := 2

  predicate IsRegularFile(inode: Inode) {
    inode.mode / 0x1000 == 8
  }

  function Times(a: nat, b: nat): nat {
    a * b
  }

  /** The number of the block that holds byte `i` of a file, and its place in it. */
  function PartOf(i: nat, size: nat): nat
    requires size > 0
  {
    i / size
  }

  function PlaceIn(i: nat, size: nat): (r: nat)
    requires size > 0
    ensures r < size
  {
    i % size
  }

  /** `init`. The shift that makes the block size counts modulo 32 and drops the bits it shifts out. */
  function Init(data: seq<byte>): Outcome<Fs> {
    if |data| < 1104 || U16(data, 1080) != 0xEF53 then Panic
    else if U32(data, 1100) != 0 && |data| < 1114 then Panic
    else
      var blockSize := 1024 * Pow2(U32(data, 1048) % 32) % 0x1_0000_0000;
      if |data| < 2 * blockSize + 12 then Panic
      else
        var inodeSize := if U32(data, 1100) == 0 then 128 else U16(data, 1112);
        Done(Fs(data, blockSize, U32(data, 1064), inodeSize, U32(data, 2 * blockSize + 8)))
  }

  // ------------------------------------------------------------------ inodes

  function InodeOffset(fs: Fs, ino: u32): nat
    requires ino != 0
  {
    Times(fs.inodeTable, fs.blockSize) + Times(ino - 1, fs.inodeSize)
  }

  /** Inode `ino` as the image records it. */
  function InodeAt(fs: Fs, ino: u32): Outcome<Option<Inode>> {
    if ino == 0 || InodeOffset(fs, ino) + fs.inodeSize > |fs.data| then Done(None)
    else
      var off := InodeOffset(fs, ino);
      if off + 100 > |fs.data| then Panic
      else Done(Some(Inode(U16(fs.data, off), U32(fs.data, off + 4), Pointers(fs.data, off + 40))))
  }

  function Pointers(data: seq<byte>, off: nat): seq<u32>
    requires off + 60 <= |data|
  {
    seq(15, j requires 0 <= j < 15 => U32(data, off + 4 * j))
  }

  /** In any image, an inode is missing exactly if its number is zero or its record does not lie in the image, and
      otherwise mode, size and the fifteen pointers are at 0, 4 and 40 of the record. */
  lemma InodeIsExact(fs: Fs, ino: u32, j: nat)
    requires j < 15
    ensures InodeAt(fs, ino) == Done(None) <==>
              ino == 0 || fs.inodeTable * fs.blockSize + (ino - 1) * fs.inodeSize + fs.inodeSize > |fs.data|
    ensures var r := InodeAt(fs, ino);
            r.Done? && r.value.Some? ==>
              var off, inode := fs.inodeTable * fs.blockSize + (ino - 1) * fs.inodeSize, r.value.value;
              && off >= 0 && off + 100 <= |fs.data| && |inode.blocks| == 15
              && inode.mode == U16(fs.data, off) && inode.size == U32(fs.data, off + 4) && inode.blocks[j] == U32(fs.data, off + 40 + 4 * j)
  {
    hide U16, U32;
  }

  method ReadInode(fs: Fs, ino: u32) returns (r: Outcome<Option<Inode>>)
    ensures r == InodeAt(fs, ino)
  {
    hide Times, U16, U32;
    if ino == 0 { return Done(None); }
    var off := InodeOffset(fs, ino);
    if off + fs.inodeSize > |fs.data| { return Done(None); }
    if off + 100 > |fs.data| { return Panic; }
    var blocks: seq<u32> := seq(15, _ => 0);
    for i := 0 to 15
      invariant |blocks| == 15 && forall j :: 0 <= j < i ==> blocks[j] == U32(fs.data, off + 40 + 4 * j)
    {
      blocks := blocks[i := U32(fs.data, off + 40 + 4 * i)];
    }
    assert blocks == Pointers(fs.data, off + 40);
    return Done(Some(Inode(U16(fs.data, off), U32(fs.data, off + 4), blocks)));
  }

  // ------------------------------------------------------------------ directories

  /** The first entry called `name` from position `pos` of the directory block at `base` on. */
  function FindIn(fs: Fs, base: nat, pos: nat, name: seq<byte>): Outcome<Option<u32>>
    decreases fs.blockSize - pos
  {
    var e := base + pos;
    if pos + 8 > fs.blockSize then Done(None)
    else if e + 8 > |fs.data| then Panic
    else
      var recLen, nameLen := U16(fs.data, e + 4), U16(fs.data, e + 6);
      if recLen == 0 then Done(None)
      else if U32(fs.data, e) != 0 && nameLen == |name| && e + 8 + nameLen > |fs.data| then Panic
      else if U32(fs.data, e) != 0 && nameLen == |name| && fs.data[e + 8..e + 8 + nameLen] == name then
        Done(Some(U32(fs.data, e)))
      else FindIn(fs, base, pos + recLen, name)
  }

  /** The first such entry in the direct blocks of a directory from number `i` on. */
  function FindFrom(fs: Fs, blocks: seq<u32>, i: nat, name: seq<byte>): Outcome<Option<u32>>
    requires |blocks| == 15
    decreases 12 - i
  {
    if i >= 12 || blocks[i] == 0 then Done(None)
    else
      var r := FindIn(fs, Times(blocks[i], fs.blockSize), 0, name);
      if r == Done(None) then FindFrom(fs, blocks, i + 1, name) else r
  }

  /** The record at `p` of the directory block at `base` is on the chain of records that starts at `pos`. */
  ghost predicate OnChain(fs: Fs, base: nat, pos: nat, p: nat)
    decreases fs.blockSize - pos
  {
    p == pos
    || (pos + 8 <= fs.blockSize && base + pos + 8 <= |fs.data| && U16(fs.data, base + pos + 4) != 0
        && OnChain(fs, base, pos + U16(fs.data, base + pos + 4), p))
  }

  /** The record at `p` is in use and called `name`. */
  ghost predicate Called(fs: Fs, base: nat, p: nat, name: seq<byte>) {
    && p + 8 <= fs.blockSize && base + p + 8 + |name| <= |fs.data|
    && U32(fs.data, base + p) != 0 && U16(fs.data, base + p + 4) != 0 && U16(fs.data, base + p + 6) == |name|
    && fs.data[base + p + 8..base + p + 8 + |name|] == name
  }

  lemma {:induction false} ChainRises(fs: Fs, base: nat, pos: nat, p: nat)
    requires OnChain(fs, base, pos, p)
    ensures pos <= p
    decreases fs.blockSize - pos
  {
    hide U16;
    if p != pos { ChainRises(fs, base, pos + U16(fs.data, base + pos + 4), p); }
  }

  /** In any directory block, a search finds the first record in use of that name, or there is none; it panics only
      at a record that does not lie in the image. */
  lemma {:induction false} FindIsFirst(fs: Fs, base: nat, pos: nat, name: seq<byte>) returns (p: nat)
    ensures var r := FindIn(fs, base, pos, name);
            match r
            case Done(Some(ino)) =>
              && OnChain(fs, base, pos, p) && Called(fs, base, p, name) && ino == U32(fs.data, base + p)
              && forall q: nat :: OnChain(fs, base, pos, q) && Called(fs, base, q, name) ==> p <= q
            case Done(None) => forall q: nat :: OnChain(fs, base, pos, q) ==> !Called(fs, base, q, name)
            case Panic => OnChain(fs, base, pos, p) && p + 8 <= fs.blockSize && base + p + 8 + |name| > |fs.data|
    decreases fs.blockSize - pos
  {
    hide U16, U32;
    p := pos;
    var e := base + pos;
    if pos + 8 <= fs.blockSize && e + 8 <= |fs.data| && U16(fs.data, e + 4) != 0 && !Called(fs, base, pos, name) {
      var next := pos + U16(fs.data, e + 4);
      if !(U32(fs.data, e) != 0 && U16(fs.data, e + 6) == |name| && e + 8 + |name| > |fs.data|) {
        p := FindIsFirst(fs, base, next, name);
      }
    }
    forall q: nat | OnChain(fs, base, pos, q) ensures pos <= q { ChainRises(fs, base, pos, q); }
  }

  function BaseName(path: seq<byte>): seq<byte> {
    if path != [] && path[0] == 47 then path[1..] else path
  }

  function Lookup(fs: Fs, path: seq<byte>): Outcome<Option<u32>> {
    if BaseName(path) == [] then Done(Some(ROOT_INODE))
    else
      match InodeAt(fs, ROOT_INODE)
      case Panic => Panic
      case Done(None) => Done(None)
      case Done(Some(root)) => FindFrom(fs, root.blocks, 0, BaseName(path))
  }

  method LookupPath(fs: Fs, path: seq<byte>) returns (r: Outcome<Option<u32>>)
    ensures r == Lookup(fs, path)
  {
    hide Times, U16, U32, InodeAt;
    var name := BaseName(path);
    if name == [] { return Done(Some(ROOT_INODE)); }
    var inode := ReadInode(fs, ROOT_INODE);
    if inode.Panic? { return Panic; }
    if inode.value.None? { return Done(None); }
    InodeShape(fs, ROOT_INODE);
    var root := inode.value.value;
    var i := 0;
    while i < 12 && root.blocks[i] != 0
      invariant 0 <= i <= 12 && Lookup(fs, path) == FindFrom(fs, root.blocks, i, name)
    {
      var base := Times(root.blocks[i], fs.blockSize);
      var pos := 0;
      while pos + 8 <= fs.blockSize
        invariant FindIn(fs, base, 0, name) == FindIn(fs, base, pos, name)
        decreases fs.blockSize - pos
      {
        var e := base + pos;
        if e + 8 > |fs.data| { return Panic; }
        var inodeNr, recLen, nameLen := U32(fs.data, e), U16(fs.data, e + 4), U16(fs.data, e + 6);
        if recLen == 0 { break; }
        if inodeNr != 0 && nameLen == |name| {
          if e + 8 + nameLen > |fs.data| { return Panic; }
          if fs.data[e + 8..e + 8 + nameLen] == name { return Done(Some(inodeNr)); }
        }
        pos := pos + recLen;
      }
      i := i + 1;
    }
    return Done(None);
  }

  // ------------------------------------------------------------------ file contents

  /** The block that holds part `k` of a file: `None` where the file has no such block. */
  function BlockOf(fs: Fs, inode: Inode, k: nat): Outcome<Option<nat>>
    requires |inode.blocks| == 15
  {
    if k < 12 then Done(if inode.blocks[k] == 0 then None else Some(inode.blocks[k]))
    else if k >= 12 + fs.blockSize / 4 || inode.blocks[12] == 0 then Done(None)
    else
      var off := Times(inode.blocks[12], fs.blockSize) + 4 * (k - 12);
      if off + 4 > |fs.data| then Panic
      else Done(if U32(fs.data, off) == 0 then None else Some(U32(fs.data, off)))
  }

  /** In any image, part `k` of a file lies in the block that its inode names, for the first twelve, or the `k - 12`th
      word of the block that the thirteenth pointer names, as many as fit there; nothing is named by a zero. */
  lemma NamedBlock(fs: Fs, inode: Inode, k: nat, nr: nat)
    requires |inode.blocks| == 15 && nr > 0
    ensures k < 12 ==> (BlockOf(fs, inode, k) == Done(Some(nr)) <==> inode.blocks[k] == nr)
    ensures k >= 12 && 4 * (k - 12) + 4 <= fs.blockSize ==>
              var at := inode.blocks[12] * fs.blockSize + 4 * (k - 12);
              at + 4 <= |fs.data| ==> (BlockOf(fs, inode, k) == Done(Some(nr)) <==> inode.blocks[12] != 0 && U32(fs.data, at) == nr)
    ensures k >= 12 && 4 * (k - 12) + 4 > fs.blockSize ==> BlockOf(fs, inode, k) == Done(None)
  {
    hide U32;
  }

  /** The block size is 1024 for exponent 0 and doubles with each step of the exponent. */
  lemma BlockSizes(data: seq<byte>)
    requires |data| >= 1104 && Init(data).Done?
    ensures U16(data, 1080) == 0xEF53
    ensures var size, e := Init(data).value.blockSize, U32(data, 1048);
            (e == 0 ==> size == 1024) && (e == 1 ==> size == 2048) && (e == 2 ==> size == 4096)
    ensures U32(data, 1100) == 0 ==> Init(data).value.inodeSize == 128
  {
    hide U16, U32;
    assert Pow2(0) == 1 && Pow2(1) == 2 && Pow2(2) == 4;
  }

  /** Byte `i` of the file is `b`. */
  predicate ByteIs(fs: Fs, inode: Inode, i: nat, b: byte)
    requires |inode.blocks| == 15
  {
    && fs.blockSize > 0
    && var block := BlockOf(fs, inode, PartOf(i, fs.blockSize));
       && block.Done? && block.value.Some?
       && var at := Times(block.value.value, fs.blockSize) + PlaceIn(i, fs.blockSize);
          at < |fs.data| && fs.data[at] == b
  }

  /** The block that holds byte `i` exists and lies in the image. */
  predicate Readable(fs: Fs, inode: Inode, i: nat)
    requires |inode.blocks| == 15
  {
    && fs.blockSize > 0
    && var block := BlockOf(fs, inode, PartOf(i, fs.blockSize));
       block.Done? && block.value.Some? && Times(block.value.value + 1, fs.blockSize) <= |fs.data|
  }

  /** The file has no block for byte `i`. */
  predicate Hole(fs: Fs, inode: Inode, i: nat)
    requires |inode.blocks| == 15
  {
    fs.blockSize > 0 && BlockOf(fs, inode, PartOf(i, fs.blockSize)) == Done(None)
  }

  function Min(a: nat, b: nat): nat {
    if a < b then a else b
  }

  /** How much a read at `offset` into a buffer of `len` bytes asks for. */
  function Asked(inode: Inode, offset: nat, len: nat): nat {
    if offset >= inode.size then 0 else Min(len, inode.size - offset)
  }

  /** `read_data`. What it puts into the buffer are the file's bytes from `offset` on, the rest of the
      buffer stays, and it stops early only at a hole or past the range of the pointer block. */
  method ReadData(fs: Fs, inode: Inode, offset: u32, buf: array<byte>) returns (r: Outcome<nat>)
    requires |inode.blocks| == 15
    modifies buf
    ensures r.Done? ==> r.value <= Asked(inode, offset, buf.Length) <= buf.Length
    ensures r.Done? ==> forall i: nat :: i < r.value ==> ByteIs(fs, inode, offset + i, buf[i])
    ensures r.Done? ==> forall i: nat :: r.value <= i < buf.Length ==> buf[i] == old(buf[i])
    ensures r.Done? && r.value < Asked(inode, offset, buf.Length) ==> Hole(fs, inode, offset + r.value)
    ensures (forall i: nat :: offset <= i < offset + Asked(inode, offset, buf.Length) ==> Readable(fs, inode, i)) ==> r.Done?
  {
    hide Times, U32, ByteIs, BlockOf, Readable, Hole, PartOf, PlaceIn;
    if offset >= inode.size { return Done(0); }
    var toRead := Min(buf.Length, inode.size - offset);
    var n := 0;
    while n < toRead
      invariant n <= toRead
      invariant forall i: nat :: i < n ==> ByteIs(fs, inode, offset + i, buf[i])
      invariant forall i: nat :: n <= i < buf.Length ==> buf[i] == old(buf[i])
    {
      var at := offset + n;
      ReadableFacts(fs, inode, at);
      if fs.blockSize == 0 { return Panic; }
      var block := FindBlock(fs, inode, PartOf(at, fs.blockSize));
      if block.Panic? { return Panic; }
      if block.value.None? { return Done(n); }
      var inBlock := PlaceIn(at, fs.blockSize);
      var chunk := Min(fs.blockSize - inBlock, toRead - n);
      var src := Times(block.value.value, fs.blockSize) + inBlock;
      InsideBlock(block.value.value, fs.blockSize, inBlock, chunk);
      if src + chunk > |fs.data| { return Panic; }
      forall i | n <= i < n + chunk { buf[i] := fs.data[src + i - n]; }
      forall i: nat | n <= i < n + chunk ensures ByteIs(fs, inode, offset + i, buf[i]) {
        BlockByte(fs, inode, at, offset + i);
      }
      n := n + chunk;
    }
    return Done(n);
  }

  method FindBlock(fs: Fs, inode: Inode, k: nat) returns (r: Outcome<Option<nat>>)
    requires |inode.blocks| == 15
    ensures r == BlockOf(fs, inode, k)
  {
    var blockNr: nat;
    if k < 12 {
      blockNr := inode.blocks[k];
    } else if k < 12 + fs.blockSize / 4 {
      if inode.blocks[12] == 0 { return Done(None); }
      var ptr := Times(inode.blocks[12], fs.blockSize) + 4 * (k - 12);
      if ptr + 4 > |fs.data| { return Panic; }
      blockNr := U32(fs.data, ptr);
    } else {
      return Done(None);
    }
    return Done(if blockNr == 0 then None else Some(blockNr));
  }

  lemma ReadableFacts(fs: Fs, inode: Inode, i: nat)
    requires |inode.blocks| == 15
    ensures Readable(fs, inode, i) ==>
              && fs.blockSize > 0
              && var block := BlockOf(fs, inode, PartOf(i, fs.blockSize));
                 block.Done? && block.value.Some? && Times(block.value.value + 1, fs.blockSize) <= |fs.data|
    ensures fs.blockSize > 0 && BlockOf(fs, inode, PartOf(i, fs.blockSize)) == Done(None) ==> Hole(fs, inode, i)
  {}

  lemma InsideBlock(nr: nat, size: nat, off: nat, len: nat)
    ensures off + len <= size ==> Times(nr, size) + off + len <= Times(nr + 1, size)
  {}

  /** Byte `b` of the file, at or after byte `at` and in the same block. */
  lemma BlockByte(fs: Fs, inode: Inode, at: nat, b: nat)
    requires |inode.blocks| == 15 && fs.blockSize > 0 && at <= b < at + (fs.blockSize - PlaceIn(at, fs.blockSize))
    requires BlockOf(fs, inode, PartOf(at, fs.blockSize)).Done? && BlockOf(fs, inode, PartOf(at, fs.blockSize)).value.Some?
    ensures var pos := Times(BlockOf(fs, inode, PartOf(at, fs.blockSize)).value.value, fs.blockSize) + PlaceIn(at, fs.blockSize) + (b - at);
            pos < |fs.data| ==> ByteIs(fs, inode, b, fs.data[pos])
  {
    hide BlockOf, Times, PartOf, PlaceIn;
    SameBlock(fs.blockSize, at, b);
  }

  lemma SameBlock(size: nat, at: nat, b: nat)
    requires size > 0 && at <= b < at + (size - PlaceIn(at, size))
    ensures PartOf(b, size) == PartOf(at, size) && PlaceIn(b, size) == PlaceIn(at, size) + (b - at)
  {
    var k, r := at / size, at % size + (b - at);
    assert b == k * size + r;
    DivMod(k, r, size);
  }

  lemma DivMod(k: nat, r: nat, size: nat)
    requires r < size
    ensures (k * size + r) / size == k && (k * size + r) % size == r
  {
    var x := k * size + r;
    var q, m := x / size, x % size;
    assert x == q * size + m;
    ScaledGap(k - q, size);
    assert (k - q) * size == m - r;
  }

  lemma ScaledGap(d: int, size: int)
    requires size >= 0
    ensures d >= 1 ==> d * size >= size
    ensures d <= -1 ==> d * size <= -size
  {
    assert d >= 1 ==> d * size == (d - 1) * size + size;
    assert d <= -1 ==> d * size == (d + 1) * size - size;
  }
}
