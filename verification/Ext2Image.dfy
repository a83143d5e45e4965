/** The build script that writes the root file system: an ext2 revision 0 image of 128 blocks of 1024
    bytes holding "hello.txt" and "model.bin". */
module Ext2Image {
  import opened Bytes
  import opened Bitmap
  import opened Buffers

  const IMAGE_SIZE: nat := 131072

  // "." ".." "hello.txt" "model.bin" and the text of hello.txt, in ASCII
  const DOT: seq<byte> := [46]
  const DOTDOT: seq<byte> := [46, 46]
  const HELLO_NAME: seq<byte> := [104, 101, 108, 108, 111, 46, 116, 120, 116]
  const MODEL_NAME: seq<byte> := [109, 111, 100, 101, 108, 46, 98, 105, 110]
  const HELLO_TEXT: seq<byte> :=
    [72, 101, 108, 108, 111, 32, 102, 114, 111, 109, 32, 99, 111, 99, 111, 110, 117, 116, 70, 83, 33, 10]

  // ------------------------------------------------------------------ layout

  function DataBlocks(size: nat): nat {
    (size + 1023) / 1024
  }

  /** Blocks 0 to 10 are fixed; then come up to 12 direct blocks, the pointer block if there are more,
      and the blocks it points to. */
  function FirstFree(size: nat): nat {
    11 + DataBlocks(size) + if DataBlocks(size) > 12 then 1 else 0
  }

  predicate Fits(size: nat) {
    FirstFree(size) <= 128
  }

  /** Where byte `b` of the model lies: the pointer block sits between direct and indirect data. */
  function ModelOffset(b: nat): nat {
    if b < 12288 then 11264 + b else 12288 + b
  }

  /** `bytes` lies at `off`. */
  predicate Has(img: seq<byte>, off: nat, bytes: seq<byte>) {
    off + |bytes| <= |img| && forall i :: 0 <= i < |bytes| ==> img[off + i] == bytes[i]
  }

  /** Counts and sizes in the superblock. */
  predicate GeometryOk(img: seq<byte>, firstFree: nat)
    requires |img| == IMAGE_SIZE
  {
    && U32(img, 1024) == 32 && U32(img, 1028) == 128 && U32(img, 1032) == 0 && U32(img, 1036) == 128 - firstFree
    && U32(img, 1040) == 20 && U32(img, 1044) == 1 && U32(img, 1048) == 0 && U32(img, 1052) == 0
    && U32(img, 1056) == 128 && U32(img, 1060) == 128 && U32(img, 1064) == 32
  }

  /** Mount counts, magic number, state and revision. */
  predicate StateOk(img: seq<byte>)
    requires |img| == IMAGE_SIZE
  {
    && U16(img, 1072) == 0 && U16(img, 1074) == 0xFFFF && U16(img, 1080) == 0xEF53
    && U16(img, 1082) == 1 && U16(img, 1084) == 1 && U32(img, 1100) == 0
  }

  /** The block group descriptor. */
  predicate GroupOk(img: seq<byte>, firstFree: nat)
    requires |img| == IMAGE_SIZE
  {
    && U32(img, 2048) == 3 && U32(img, 2052) == 4 && U32(img, 2056) == 5
    && U16(img, 2060) == 128 - firstFree && U16(img, 2062) == 20 && U16(img, 2064) == 1
  }

  predicate SuperOk(img: seq<byte>, firstFree: nat)
    requires |img| == IMAGE_SIZE
  {
    GeometryOk(img, firstFree) && StateOk(img) && GroupOk(img, firstFree)
  }

  /** Block pointer `j` of the model's inode. */
  function ModelPointer(size: nat, j: nat): nat {
    var blocks := DataBlocks(size);
    if j < 12 && j < blocks then 11 + j else if j == 12 && blocks > 12 then 23 else 0
  }

  /** Mode, size, link count and count of 512-byte sectors of an inode. */
  predicate HeadOk(img: seq<byte>, ino: nat, mode: nat, size: nat, links: nat, sectors: nat) {
    && ino + 128 <= |img|
    && U16(img, ino) == mode && U32(img, ino + 4) == size && U16(img, ino + 26) == links && U32(img, ino + 28) == sectors
  }

  /** Inodes 2, 11 and 12, at 5248, 6400 and 6528. */
  predicate InodesOk(img: seq<byte>, size: nat)
    requires |img| == IMAGE_SIZE
  {
    && HeadOk(img, 5248, 0x41ED, 1024, 2, 2)
    && (forall j: nat :: j < 15 ==> U32(img, 5288 + 4 * j) == if j == 0 then 9 else 0)
    && HeadOk(img, 6400, 0x81A4, |HELLO_TEXT|, 1, 2)
    && (forall j: nat :: j < 15 ==> U32(img, 6440 + 4 * j) == if j == 0 then 10 else 0)
    && HeadOk(img, 6528, 0x81A4, size, 1, 2 * (FirstFree(size) - 11))
    && (forall j: nat :: j < 15 ==> U32(img, 6568 + 4 * j) == ModelPointer(size, j))
  }

  predicate EntryAt(img: seq<byte>, off: nat, inode: nat, recLen: nat, name: seq<byte>) {
    && off + 8 <= |img| && Has(img, off + 8, name)
    && U32(img, off) == inode && U16(img, off + 4) == recLen && U16(img, off + 6) == |name|
  }

  predicate DirectoryOk(img: seq<byte>) {
    && EntryAt(img, 9216, 2, 12, DOT) && EntryAt(img, 9228, 2, 12, DOTDOT)
    && EntryAt(img, 9240, 11, 20, HELLO_NAME) && EntryAt(img, 9260, 12, 980, MODEL_NAME)
  }

  predicate PointersOk(img: seq<byte>, size: nat)
    requires |img| == IMAGE_SIZE && Fits(size)
  {
    forall i: nat :: 12 + i < DataBlocks(size) ==> U32(img, 23552 + 4 * i) == 24 + i
  }

  predicate ModelOk(img: seq<byte>, model: seq<byte>)
    requires |img| == IMAGE_SIZE && Fits(|model|)
  {
    forall b: nat :: b < |model| ==> img[ModelOffset(b)] == model[b]
  }

  /** Bit `k` of the block bitmap is set exactly for the blocks in use. */
  predicate BitmapOk(img: seq<byte>, firstFree: nat)
    requires |img| == IMAGE_SIZE
  {
    forall k: nat :: k < 8192 ==> (Bit(img[3072 + k / 8], k % 8) <==> k < firstFree)
  }

  /** Everything the image promises. */
  predicate Laid(img: seq<byte>, model: seq<byte>) {
    && |img| == IMAGE_SIZE && Fits(|model|)
    && SuperOk(img, FirstFree(|model|)) && U16(img, 4096) == 0x0FFF && InodesOk(img, |model|) && DirectoryOk(img) && Has(img, 10240, HELLO_TEXT)
    && PointersOk(img, |model|) && ModelOk(img, model) && BitmapOk(img, FirstFree(|model|))
  }

  // ------------------------------------------------------------------ writing in place

  method Copy(img: array<byte>, off: nat, bytes: seq<byte>)
    requires off + |bytes| <= img.Length
    modifies img
    ensures Has(img[..], off, bytes) && Outside(old(img[..]), img[..], off, off + |bytes|)
  {
    forall i | off <= i < off + |bytes| { img[i] := bytes[i - off]; }
    OutsideOf(old(img[..]), img[..], off, off + |bytes|);
  }

  method WriteGeometry(img: array<byte>, firstFree: nat)
    requires img.Length == IMAGE_SIZE && firstFree <= 128
    modifies img
    ensures Outside(old(img[..]), img[..], 1024, 1068) && GeometryOk(img[..], firstFree)
  {
    hide U16, U32;
    Put32(img, 1024, 32);
    Put32(img, 1028, 128);
    Put32(img, 1032, 0);
    Put32(img, 1036, 128 - firstFree);
    Put32(img, 1040, 20);
    Put32(img, 1044, 1);
    Put32(img, 1048, 0);
    Put32(img, 1052, 0);
    Put32(img, 1056, 128);
    Put32(img, 1060, 128);
    Put32(img, 1064, 32);
  }

  method WriteState(img: array<byte>)
    requires img.Length == IMAGE_SIZE
    modifies img
    ensures Outside(old(img[..]), img[..], 1072, 1104) && StateOk(img[..])
  {
    hide U16, U32;
    Put16(img, 1072, 0);
    Put16(img, 1074, 0xFFFF);
    Put16(img, 1080, 0xEF53);
    Put16(img, 1082, 1);
    Put16(img, 1084, 1);
    Put32(img, 1100, 0);
  }

  method WriteGroup(img: array<byte>, firstFree: nat)
    requires img.Length == IMAGE_SIZE && firstFree <= 128
    modifies img
    ensures Outside(old(img[..]), img[..], 2048, 2066) && GroupOk(img[..], firstFree)
  {
    hide U16, U32;
    Put32(img, 2048, 3);
    Put32(img, 2052, 4);
    Put32(img, 2056, 5);
    Put16(img, 2060, 128 - firstFree);
    Put16(img, 2062, 20);
    Put16(img, 2064, 1);
  }

  method WriteSuperblock(img: array<byte>, firstFree: nat)
    requires img.Length == IMAGE_SIZE && firstFree <= 128
    modifies img
    ensures Outside(old(img[..]), img[..], 1024, 3072) && SuperOk(img[..], firstFree)
  {
    hide U16, U32;
    WriteGeometry(img, firstFree);
    WriteState(img);
    WriteGroup(img, firstFree);
  }

  /** Setting bit `bit` in a bitmap of bytes. */
  lemma BitmapStep(s: seq<byte>, s': seq<byte>, bit: nat)
    requires |s| == |s'| == IMAGE_SIZE && bit < 8192
    requires s'[3072 + bit / 8] == SetBit(s[3072 + bit / 8], bit % 8)
    requires forall i: nat :: i < |s| && i != 3072 + bit / 8 ==> s'[i] == s[i]
    requires BitmapOk(s, bit)
    ensures BitmapOk(s', bit + 1)
  {
    forall k: nat | k < 8192 ensures Bit(s'[3072 + k / 8], k % 8) <==> k < bit + 1 {
      assert Bit(s[3072 + k / 8], k % 8) <==> k < bit;
      SetBitSetsOneDigit(s[3072 + bit / 8], bit % 8, k % 8);
    }
  }

  method WriteBlockBitmap(img: array<byte>, firstFree: nat)
    requires img.Length == IMAGE_SIZE && firstFree <= 128
    requires forall i :: 3072 <= i < 4096 ==> img[i] == 0
    modifies img
    ensures Outside(old(img[..]), img[..], 3072, 4096) && BitmapOk(img[..], firstFree)
  {
    forall k: nat | k < 8192 ensures !Bit(img[..][3072 + k / 8], k % 8) { ZeroHasNoDigits(k % 8); }
    for bit := 0 to firstFree
      invariant forall i: nat :: i < img.Length && !(3072 <= i < 4096) ==> img[i] == old(img[i])
      invariant BitmapOk(img[..], bit)
    {
      ghost var s := img[..];
      assert Pow2(8) == 256;
      DigitWritesStayInWord(img[3072 + bit / 8], bit % 8, 8);
      img[3072 + bit / 8] := SetBit(img[3072 + bit / 8], bit % 8);
      BitmapStep(s, img[..], bit);
    }
    OutsideOf(old(img[..]), img[..], 3072, 4096);
  }

  method WriteInode(img: array<byte>, ino: nat, mode: u16, size: u32, links: u16, sectors: u32)
    requires ino + 128 <= img.Length
    modifies img
    ensures Outside(old(img[..]), img[..], ino, ino + 32) && HeadOk(img[..], ino, mode, size, links, sectors)
  {
    hide U16, U32;
    Put16(img, ino, mode);
    Put32(img, ino + 4, size);
    Put16(img, ino + 26, links);
    Put32(img, ino + 28, sectors);
  }

  /** The pointers of the model's inode: up to 12 direct ones, and the pointer block. */
  method WriteModelPointers(img: array<byte>, size: nat)
    requires img.Length == IMAGE_SIZE && Fits(size)
    requires forall j: nat :: j < 15 ==> U32(img[..], 6568 + 4 * j) == 0
    modifies img
    ensures Outside(old(img[..]), img[..], 6568, 6628)
    ensures forall j: nat :: j < 15 ==> U32(img[..], 6568 + 4 * j) == ModelPointer(size, j)
  {
    hide U16, U32;
    var blocks := DataBlocks(size);
    var direct := if blocks < 12 then blocks else 12;
    for i := 0 to direct
      invariant Outside(old(img[..]), img[..], 6568, 6628)
      invariant forall j: nat :: j < 15 ==> U32(img[..], 6568 + 4 * j) == if j < i then 11 + j else 0
    {
      Put32(img, 6568 + 4 * i, 11 + i);
    }
    if blocks > 12 {
      Put32(img, 6616, 11 + direct);
    }
  }

  method WriteInodes(img: array<byte>, size: nat)
    requires img.Length == IMAGE_SIZE && Fits(size)
    requires forall o: nat :: 5120 <= o && o + 4 <= 9216 ==> U32(img[..], o) == 0
    modifies img
    ensures Outside(old(img[..]), img[..], 5120, 9216) && InodesOk(img[..], size)
  {
    hide U16, U32;
    WriteInode(img, 5248, 0x41ED, 1024, 2, 2);
    Put32(img, 5288, 9);
    WriteInode(img, 6400, 0x81A4, |HELLO_TEXT|, 1, 2);
    Put32(img, 6440, 10);
    WriteInode(img, 6528, 0x81A4, size, 1, 2 * (FirstFree(size) - 11));
    WriteModelPointers(img, size);
  }

  method WriteEntry(img: array<byte>, off: nat, inode: u32, recLen: u16, name: seq<byte>)
    requires off + 8 + |name| <= img.Length && |name| < 0x1_0000
    modifies img
    ensures Outside(old(img[..]), img[..], off, off + 8 + |name|) && EntryAt(img[..], off, inode, recLen, name)
  {
    hide U16, U32;
    Put32(img, off, inode);
    Put16(img, off + 4, recLen);
    Put16(img, off + 6, |name|);
    Copy(img, off + 8, name);
  }

  lemma EntryKept(s: seq<byte>, s': seq<byte>, lo: nat, hi: nat, off: nat, inode: nat, recLen: nat, name: seq<byte>)
    requires Outside(s, s', lo, hi) && EntryAt(s, off, inode, recLen, name) && (off + 8 + |name| <= lo || hi <= off)
    ensures EntryAt(s', off, inode, recLen, name)
  {}

  method WriteDirectory(img: array<byte>)
    requires img.Length == IMAGE_SIZE
    modifies img
    ensures Outside(old(img[..]), img[..], 9216, 10240) && DirectoryOk(img[..])
  {
    hide U16, U32, EntryAt;
    WriteEntry(img, 9216, 2, 12, DOT);
    ghost var s1 := img[..];
    WriteEntry(img, 9228, 2, 12, DOTDOT);
    ghost var s2 := img[..];
    EntryKept(s1, s2, 9228, 9238, 9216, 2, 12, DOT);
    WriteEntry(img, 9240, 11, 20, HELLO_NAME);
    ghost var s3 := img[..];
    EntryKept(s2, s3, 9240, 9257, 9216, 2, 12, DOT);
    EntryKept(s2, s3, 9240, 9257, 9228, 2, 12, DOTDOT);
    WriteEntry(img, 9260, 12, 980, MODEL_NAME);
    EntryKept(s3, img[..], 9260, 9277, 9216, 2, 12, DOT);
    EntryKept(s3, img[..], 9260, 9277, 9228, 2, 12, DOTDOT);
    EntryKept(s3, img[..], 9260, 9277, 9240, 11, 20, HELLO_NAME);
  }

  /** Blocks `from` to `to` of the model, copied to consecutive image blocks from `base` on. */
  method CopyBlocks(img: array<byte>, base: nat, model: seq<byte>, from: nat, to: nat)
    requires from <= to && base + (to - from) <= 128 && img.Length == IMAGE_SIZE && (to == 0 || (to - 1) * 1024 < |model|)
    modifies img
    ensures Outside(old(img[..]), img[..], base * 1024, (base + (to - from)) * 1024)
    ensures forall b: nat :: from * 1024 <= b < to * 1024 && b < |model| ==> img[(base - from) * 1024 + b] == model[b]
  {
    hide U16, U32;
    for i := 0 to to - from
      invariant Outside(old(img[..]), img[..], base * 1024, (base + (to - from)) * 1024)
      invariant forall b: nat :: from * 1024 <= b < (from + i) * 1024 && b < |model| ==> img[(base - from) * 1024 + b] == model[b]
    {
      var start := (from + i) * 1024;
      var end := if start + 1024 < |model| then start + 1024 else |model|;
      ghost var s := img[..];
      Copy(img, (base + i) * 1024, model[start..end]);
      BlockCopied(s, img[..], base, model, from, i, end);
    }
  }

  lemma BlockCopied(s: seq<byte>, s': seq<byte>, base: nat, model: seq<byte>, from: nat, i: nat, end: nat)
    requires |s| == |s'| == IMAGE_SIZE && (from + i) * 1024 < |model| && (base + i + 1) * 1024 <= |s|
    requires end == if (from + i) * 1024 + 1024 < |model| then (from + i) * 1024 + 1024 else |model|
    requires Has(s', (base + i) * 1024, model[(from + i) * 1024..end])
    requires Outside(s, s', (base + i) * 1024, (base + i) * 1024 + (end - (from + i) * 1024))
    requires forall b: nat :: from * 1024 <= b < (from + i) * 1024 && b < |model| ==> s[(base - from) * 1024 + b] == model[b]
    ensures forall b: nat :: from * 1024 <= b < (from + i + 1) * 1024 && b < |model| ==> s'[(base - from) * 1024 + b] == model[b]
  {
    forall b: nat | from * 1024 <= b < (from + i + 1) * 1024 && b < |model|
      ensures s'[(base - from) * 1024 + b] == model[b]
    {
      if b >= (from + i) * 1024 {
        assert model[(from + i) * 1024..end][b - (from + i) * 1024] == model[b];
      }
    }
  }

  method WriteIndirectPointers(img: array<byte>, size: nat)
    requires img.Length == IMAGE_SIZE && Fits(size) && DataBlocks(size) > 12
    modifies img
    ensures Outside(old(img[..]), img[..], 23552, 24576) && PointersOk(img[..], size)
  {
    hide U16, U32;
    for i := 0 to DataBlocks(size) - 12
      invariant Outside(old(img[..]), img[..], 23552, 24576)
      invariant forall j: nat :: j < i ==> U32(img[..], 23552 + 4 * j) == 24 + j
    {
      Put32(img, 23552 + 4 * i, 24 + i);
    }
  }

  /** Blocks 1 to 4. */
  method WriteMaps(img: array<byte>, size: nat)
    requires img.Length == IMAGE_SIZE && Fits(size) && forall i :: 0 <= i < img.Length ==> img[i] == 0
    modifies img
    ensures Outside(old(img[..]), img[..], 1024, 5120) && SuperOk(img[..], FirstFree(size)) && BitmapOk(img[..], FirstFree(size))
    ensures U16(img[..], 4096) == 0x0FFF
  {
    hide U16, U32, SuperOk, BitmapOk;
    WriteSuperblock(img, FirstFree(size));
    ghost var s1 := img[..];
    WriteBlockBitmap(img, FirstFree(size));
    ghost var s2 := img[..];
    Put16(img, 4096, 0x0FFF);
    Later(s1, s2, size, 3072, 4096);
    Later(s2, img[..], size, 4096, 4098);
  }

  /** Blocks 5 to 10. */
  method WriteFiles(img: array<byte>, size: nat)
    requires img.Length == IMAGE_SIZE && Fits(size)
    requires forall o: nat :: 5120 <= o && o + 4 <= 9216 ==> U32(img[..], o) == 0
    modifies img
    ensures Outside(old(img[..]), img[..], 5120, 11264)
    ensures InodesOk(img[..], size) && DirectoryOk(img[..]) && Has(img[..], 10240, HELLO_TEXT)
  {
    hide U16, U32, InodesOk, DirectoryOk;
    WriteInodes(img, size);
    ghost var s1 := img[..];
    WriteDirectory(img);
    ghost var s2 := img[..];
    Copy(img, 10240, HELLO_TEXT);
    Later(s1, s2, size, 9216, 10240);
    Later(s2, img[..], size, 10240, 10240 + |HELLO_TEXT|);
  }

  /** Blocks 1 to 10: everything but the model's data. */
  method WriteMetadata(img: array<byte>, size: nat)
    requires img.Length == IMAGE_SIZE && Fits(size) && forall i :: 0 <= i < img.Length ==> img[i] == 0
    modifies img
    ensures Outside(old(img[..]), img[..], 1024, 11264)
    ensures SuperOk(img[..], FirstFree(size)) && InodesOk(img[..], size) && DirectoryOk(img[..]) && Has(img[..], 10240, HELLO_TEXT)
    ensures BitmapOk(img[..], FirstFree(size)) && U16(img[..], 4096) == 0x0FFF
  {
    hide U16, U32, InodesOk, SuperOk, DirectoryOk, BitmapOk;
    ZeroReads(img[..]);
    WriteMaps(img, size);
    ghost var s1 := img[..];
    WriteFiles(img, size);
    Later(s1, img[..], size, 5120, 11264);
  }

  lemma ZeroReads(s: seq<byte>)
    requires forall i :: 0 <= i < |s| ==> s[i] == 0
    ensures forall o: nat :: o + 4 <= |s| ==> U32(s, o) == 0
  {}

  /** What a write to a later part of the image keeps. */
  lemma Later(s: seq<byte>, s': seq<byte>, size: nat, lo: nat, hi: nat)
    requires |s| == IMAGE_SIZE && Outside(s, s', lo, hi) && lo <= hi <= IMAGE_SIZE
    ensures lo >= 3072 && SuperOk(s, FirstFree(size)) ==> SuperOk(s', FirstFree(size))
    ensures lo >= 4098 ==> U16(s', 4096) == U16(s, 4096)
    ensures lo >= 4096 && BitmapOk(s, FirstFree(size)) ==> BitmapOk(s', FirstFree(size))
    ensures lo >= 9216 && InodesOk(s, size) ==> InodesOk(s', size)
    ensures lo >= 10240 && DirectoryOk(s) ==> DirectoryOk(s')
    ensures lo >= 11264 && Has(s, 10240, HELLO_TEXT) ==> Has(s', 10240, HELLO_TEXT)
  {
    hide U16, U32;
    forall k: nat | k < 8192 && lo >= 4096 ensures s'[3072 + k / 8] == s[3072 + k / 8] {}
    assert lo >= 9216 && InodesOk(s, size) ==> InodesOk(s', size);
  }

  /** The whole image, or `None` if the model does not fit. */
  method BuildImage(model: seq<byte>) returns (image: Option<seq<byte>>)
    ensures image.Some? <==> Fits(|model|)
    ensures image.Some? ==> Laid(image.value, model)
  {
    hide U16, U32, InodesOk, SuperOk, DirectoryOk, BitmapOk;
    var blocks := DataBlocks(|model|);
    var direct := if blocks < 12 then blocks else 12;
    if !Fits(|model|) { return None; }
    var img := new byte[IMAGE_SIZE](_ => 0);
    WriteMetadata(img, |model|);
    ghost var s1 := img[..];
    CopyBlocks(img, 11, model, 0, direct);
    ghost var s2 := img[..];
    Later(s1, s2, |model|, 11264, (11 + direct) * 1024);
    if blocks > 12 {
      WriteIndirectPointers(img, |model|);
      ghost var s3 := img[..];
      Later(s2, s3, |model|, 23552, 24576);
      CopyBlocks(img, 24, model, 12, blocks);
      Later(s3, img[..], |model|, 24576, (12 + blocks) * 1024);
    }
    return Some(img[..]);
  }
}
