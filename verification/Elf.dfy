/** The ELF64 reader: entry point and loadable segments, as the program header table of the System V
    gABI (chapter 5) lays them out. */
module Elf {
  import opened Bytes
  import opened Bitmap

  const MAX_SEGMENTS: nat := 3
  const PHDR_SIZE: nat := 56

  datatype Segment = Segment(vaddr: nat, memSize: nat, fileOffset: nat, fileSize: nat, writable: bool, executable: bool)

  datatype Image = Image(entry: nat, segments: seq<Segment>)

  /** An ELF64 little-endian x86-64 executable whose program headers lie inside the file. */
  predicate HeaderOk(d: seq<byte>) {
    && |d| >= 64
    && d[0..4] == [0x7F, 0x45, 0x4C, 0x46] && d[4] == 2 && d[5] == 1
    && U16(d, 16) == 2 && U16(d, 18) == 0x3E && U16(d, 54) == PHDR_SIZE
    && U64(d, 32) + U16(d, 56) * PHDR_SIZE <= |d|
  }

  /** Program header `i` starts here. */
  function Phdr(d: seq<byte>, i: nat): (ph: nat)
    requires HeaderOk(d) && i < U16(d, 56)
    ensures ph + PHDR_SIZE <= |d|
  {
    U64(d, 32) + i * PHDR_SIZE
  }

  /** A PT_LOAD header that occupies memory. */
  predicate Loadable(d: seq<byte>, i: nat)
    requires HeaderOk(d) && i < U16(d, 56)
  {
    U32(d, Phdr(d, i)) == 1 && U64(d, Phdr(d, i) + 40) != 0
  }

  /** Its file image is not larger than its memory image and lies inside the file. */
  predicate Backed(d: seq<byte>, i: nat)
    requires HeaderOk(d) && i < U16(d, 56)
  {
    var ph := Phdr(d, i);
    U64(d, ph + 32) <= U64(d, ph + 40) && U64(d, ph + 8) + U64(d, ph + 32) <= |d|
  }

  function SegmentAt(d: seq<byte>, i: nat): Segment
    requires HeaderOk(d) && i < U16(d, 56)
  {
    var ph := Phdr(d, i);
    var flags := U32(d, ph + 4);
    Segment(U64(d, ph + 16), U64(d, ph + 40), U64(d, ph + 8), U64(d, ph + 32), flags / 2 % 2 == 1, flags % 2 == 1)
  }

  /** The segments of the loadable ones among the first `n` headers, in order. */
  function Loads(d: seq<byte>, n: nat): (s: seq<Segment>)
    requires HeaderOk(d) && n <= U16(d, 56)
  {
    if n == 0 then []
    else if Loadable(d, n - 1) then Loads(d, n - 1) + [SegmentAt(d, n - 1)]
    else Loads(d, n - 1)
  }

  lemma {:induction false} LoadsGrow(d: seq<byte>, a: nat, b: nat)
    requires HeaderOk(d) && a <= b <= U16(d, 56)
    ensures Loads(d, a) <= Loads(d, b)
    decreases b
  {
    if a < b { LoadsGrow(d, a, b - 1); }
  }

  /** Every loaded segment comes from a loadable header, and its file bytes lie inside the file. */
  lemma {:induction false} LoadsAreBacked(d: seq<byte>, n: nat, k: nat) returns (i: nat)
    requires HeaderOk(d) && n <= U16(d, 56) && k < |Loads(d, n)|
    requires forall i: nat :: i < n && Loadable(d, i) ==> Backed(d, i)
    ensures i < n && Loadable(d, i) && Loads(d, n)[k] == SegmentAt(d, i)
    ensures Loads(d, n)[k].fileSize <= Loads(d, n)[k].memSize
    ensures Loads(d, n)[k].fileOffset + Loads(d, n)[k].fileSize <= |d|
  {
    if Loadable(d, n - 1) && k == |Loads(d, n)| - 1 {
      i := n - 1;
      assert Backed(d, i);
    } else {
      i := LoadsAreBacked(d, n - 1, k);
    }
  }

  /** Acceptable images: the others trip an assertion. */
  predicate Parses(d: seq<byte>) {
    && HeaderOk(d)
    && (forall i: nat :: i < U16(d, 56) && Loadable(d, i) ==> Backed(d, i))
    && |Loads(d, U16(d, 56))| <= MAX_SEGMENTS
  }

  method Parse(d: seq<byte>) returns (image: Option<Image>)
    ensures image.Some? <==> Parses(d)
    ensures image.Some? ==> image.value == Image(U64(d, 24), Loads(d, U16(d, 56)))
  {
    if !HeaderOk(d) { return None; }
    var segments: seq<Segment> := [];
    for i := 0 to U16(d, 56)
      invariant segments == Loads(d, i) && |segments| <= MAX_SEGMENTS
      invariant forall j: nat :: j < i && Loadable(d, j) ==> Backed(d, j)
    {
      if Loadable(d, i) {
        if !Backed(d, i) { return None; }
        if |segments| >= MAX_SEGMENTS {
          LoadsGrow(d, i + 1, U16(d, 56));
          return None;
        }
        segments := segments + [SegmentAt(d, i)];
      }
    }
    return Some(Image(U64(d, 24), segments));
  }
}
