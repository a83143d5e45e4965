/** The round trip: what the parser finds in the image that the build script writes, for every model
    that fits. */
module RootFs {
  import opened Bytes
  import opened Bitmap
  import opened Ext2Image
  import opened Ext2

  function Mounted(img: seq<byte>): Fs {
    Fs(img, 1024, 32, 128, 5)
  }

  /** The directory as the build script means it. */
  function Named(name: seq<byte>): Option<u32> {
    if name == [] || name == DOT || name == DOTDOT then Some(2)
    else if name == HELLO_NAME then Some(11)
    else if name == MODEL_NAME then Some(12)
    else None
  }

  /** The files as the build script means them. */
  function Contents(model: seq<byte>, ino: u32): seq<byte> {
    if ino == 11 then HELLO_TEXT else if ino == 12 then model else []
  }

  lemma Mounts(img: seq<byte>, model: seq<byte>)
    requires Laid(img, model)
    ensures Init(img) == Done(Mounted(img))
  {
    hide U16, U32;
    assert Pow2(0) == 1;
  }

  // ------------------------------------------------------------------ inodes

  lemma InodeOf(img: seq<byte>, model: seq<byte>, ino: u32)
    requires Laid(img, model) && ino in {2, 11, 12}
    ensures InodeAt(Mounted(img), ino).Done? && InodeAt(Mounted(img), ino).value.Some?
    ensures var inode := InodeAt(Mounted(img), ino).value.value;
            && |inode.blocks| == 15 && (IsRegularFile(inode) <==> ino != 2)
            && inode.size == (if ino == 2 then 1024 else |Contents(model, ino)|)
            && forall j: nat :: j < 15 ==>
                 inode.blocks[j] == if ino == 12 then ModelPointer(|model|, j) else if j > 0 then 0 else if ino == 2 then 9 else 10
  {
    hide U16, U32;
    var off := InodeOffset(Mounted(img), ino);
    assert off == 5120 + 128 * (ino - 1);
    assert forall j: nat :: j < 15 ==> Pointers(img, off + 40)[j] == U32(img, off + 40 + 4 * j);
  }

  // ------------------------------------------------------------------ names

  /** Passing over an entry whose name differs. */
  lemma Passes(img: seq<byte>, pos: nat, inode: u32, recLen: nat, entry: seq<byte>, name: seq<byte>)
    requires |img| == IMAGE_SIZE && EntryAt(img, 9216 + pos, inode, recLen, entry) && pos + 8 <= 1024
    requires inode != 0 && recLen != 0
    ensures FindIn(Mounted(img), 9216, pos, name) ==
            if name == entry then Done(Some(inode)) else FindIn(Mounted(img), 9216, pos + recLen, name)
  {
    hide U16, U32;
    var e := 9216 + pos;
    assert img[e + 8..e + 8 + |entry|] == entry;
  }

  /** Every path resolves to the file of that name, or to nothing. */
  lemma Names(img: seq<byte>, model: seq<byte>, path: seq<byte>)
    requires Laid(img, model)
    ensures Lookup(Mounted(img), path) == Done(Named(BaseName(path)))
  {
    hide U16, U32, EntryAt, FindIn;
    var fs, name := Mounted(img), BaseName(path);
    InodeOf(img, model, 2);
    if name != [] {
      var blocks := InodeAt(fs, 2).value.value.blocks;
      Passes(img, 0, 2, 12, DOT, name);
      Passes(img, 12, 2, 12, DOTDOT, name);
      Passes(img, 24, 11, 20, HELLO_NAME, name);
      Passes(img, 44, 12, 980, MODEL_NAME, name);
      EndOfBlock(img, name);
      assert blocks[0] == 9 && blocks[1] == 0 && Times(9, 1024) == 9216;
      assert FindFrom(fs, blocks, 1, name) == Done(None);
    }
  }

  lemma EndOfBlock(img: seq<byte>, name: seq<byte>)
    ensures FindIn(Mounted(img), 9216, 1024, name) == Done(None)
  {}

  // ------------------------------------------------------------------ contents

  /** The block holding part `k` of the model, through the pointer block from part 12 on. */
  lemma ModelBlock(img: seq<byte>, model: seq<byte>, k: nat)
    requires Laid(img, model) && k * 1024 < |model|
    ensures InodeAt(Mounted(img), 12).Done? && InodeAt(Mounted(img), 12).value.Some?
    ensures var inode := InodeAt(Mounted(img), 12).value.value;
            |inode.blocks| == 15 && BlockOf(Mounted(img), inode, k) == Done(Some(if k < 12 then 11 + k else 12 + k))
  {
    hide U16, U32, InodeAt;
    InodeOf(img, model, 12);
    var inode := InodeAt(Mounted(img), 12).value.value;
    if k >= 12 {
      assert 12 + (k - 12) < DataBlocks(|model|);
      assert Times(23, 1024) == 23552;
      assert U32(img, 23552 + 4 * (k - 12)) == 24 + (k - 12);
      assert inode.blocks[12] == 23;
    }
  }

  /** Every byte of either file is where the parser looks for it. */
  lemma ByteRoundTrip(img: seq<byte>, model: seq<byte>, ino: u32, i: nat, b: byte)
    requires Laid(img, model) && ino in {11, 12} && i < |Contents(model, ino)|
    ensures InodeAt(Mounted(img), ino).Done? && InodeAt(Mounted(img), ino).value.Some?
    ensures var inode := InodeAt(Mounted(img), ino).value.value;
            && |inode.blocks| == 15 && Readable(Mounted(img), inode, i)
            && (ByteIs(Mounted(img), inode, i, b) <==> b == Contents(model, ino)[i])
  {
    if ino == 11 { HelloByte(img, model, i, b); } else { ModelByte(img, model, i, b); }
  }

  lemma HelloByte(img: seq<byte>, model: seq<byte>, i: nat, b: byte)
    requires Laid(img, model) && i < |HELLO_TEXT|
    ensures InodeAt(Mounted(img), 11).Done? && InodeAt(Mounted(img), 11).value.Some?
    ensures var inode := InodeAt(Mounted(img), 11).value.value;
            && |inode.blocks| == 15 && Readable(Mounted(img), inode, i)
            && (ByteIs(Mounted(img), inode, i, b) <==> b == HELLO_TEXT[i])
  {
    hide U16, U32, InodeAt, InodesOk, SuperOk, DirectoryOk, BitmapOk, ModelOk, PointersOk;
    InodeOf(img, model, 11);
    assert i / 1024 == 0 && Times(10, 1024) == 10240 && Times(11, 1024) == 11264;
    assert Has(img, 10240, HELLO_TEXT) && img[10240 + i] == HELLO_TEXT[i];
  }

  lemma ModelByte(img: seq<byte>, model: seq<byte>, i: nat, b: byte)
    requires Laid(img, model) && i < |model|
    ensures InodeAt(Mounted(img), 12).Done? && InodeAt(Mounted(img), 12).value.Some?
    ensures var inode := InodeAt(Mounted(img), 12).value.value;
            && |inode.blocks| == 15 && Readable(Mounted(img), inode, i)
            && (ByteIs(Mounted(img), inode, i, b) <==> b == model[i])
  {
    hide U16, U32, InodeAt, InodesOk, SuperOk, DirectoryOk, BitmapOk, PointersOk, BlockOf;
    var k := i / 1024;
    ModelBlock(img, model, k);
    var nr := if k < 12 then 11 + k else 12 + k;
    assert Times(nr, 1024) + i % 1024 == ModelOffset(i);
    assert img[ModelOffset(i)] == model[i];
    assert k < DataBlocks(|model|) && Times(nr + 1, 1024) <= IMAGE_SIZE;
  }

  /** Reading `len` bytes at `offset` of either file gives that slice of it. */
  method ReadBack(img: seq<byte>, ghost model: seq<byte>, ino: u32, offset: u32, buf: array<byte>) returns (n: nat)
    requires Laid(img, model) && ino in {11, 12}
    modifies buf
    ensures n == if offset >= |Contents(model, ino)| then 0 else Min(buf.Length, |Contents(model, ino)| - offset)
    ensures n > 0 ==> buf[..n] == Contents(model, ino)[offset..offset + n]
    ensures buf[n..] == old(buf[..])[n..]
  {
    hide U16, U32, Laid, InodeAt, Readable, ByteIs, Hole;
    InodeOf(img, model, ino);
    var inode := ReadInode(Mounted(img), ino);
    var file := inode.value.value;
    ghost var size := Asked(file, offset, buf.Length);
    forall i: nat | offset <= i < offset + size ensures Readable(Mounted(img), file, i) && !Hole(Mounted(img), file, i) {
      ByteRoundTrip(img, model, ino, i, 0);
      ReadableIsNoHole(Mounted(img), file, i);
    }
    var r := ReadData(Mounted(img), file, offset, buf);
    n := r.value;
    forall i: nat | i < n ensures buf[i] == Contents(model, ino)[offset + i] {
      ByteRoundTrip(img, model, ino, offset + i, buf[i]);
    }
  }

  lemma ReadableIsNoHole(fs: Fs, inode: Inode, i: nat)
    requires |inode.blocks| == 15 && Readable(fs, inode, i)
    ensures !Hole(fs, inode, i)
  {}
}
