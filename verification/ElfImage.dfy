/** A writer of ELF64 executables, as the System V gABI (chapters 4 and 5) lays them out, and the round trip
    through the reader. */
module ElfImage {
  import opened Bytes
  import opened Bitmap
  import opened Elf

  type u64 = x: nat | x < 0x1_0000_0000_0000_0000

  /** One program header. `otherFlags` are the bits of p_flags above execute, write and read. */
  datatype Header = Header(kind: u32, execute: bool, write: bool, read: bool, otherFlags: nat, offset: u64, vaddr: u64, paddr: u64,
                           fileSize: u64, memSize: u64, align: u64) {
    ghost predicate Valid() {
      otherFlags < 0x2000_0000
    }

    function Flags(): (f: nat) {
      8 * otherFlags + (if read then 4 else 0) + (if write then 2 else 0) + if execute then 1 else 0
    }

    /** What the loader is to make of it. */
    function Meant(): Segment {
      Segment(vaddr, memSize, offset, fileSize, write, execute)
    }

    /** PT_LOAD with something in memory. */
    predicate IsLoad() {
      kind == 1 && memSize != 0
    }
  }

  /** The 56 bytes of a program header: p_type, p_flags, p_offset, p_vaddr, p_paddr, p_filesz, p_memsz, p_align. */
  function HeaderBytes(h: Header): (b: seq<byte>)
    requires h.Valid()
    ensures |b| == 56
  {
    ToLe32(h.kind) + ToLe32(h.Flags()) + ToLe64(h.offset) + ToLe64(h.vaddr) + ToLe64(h.paddr) + ToLe64(h.fileSize) + ToLe64(h.memSize)
    + ToLe64(h.align)
  }

  ghost predicate ValidTable(hs: seq<Header>) {
    forall i :: 0 <= i < |hs| ==> hs[i].Valid()
  }

  function TableBytes(hs: seq<Header>): (b: seq<byte>)
    requires ValidTable(hs)
    ensures |b| == 56 * |hs|
  {
    if hs == [] then [] else TableBytes(hs[..|hs| - 1]) + HeaderBytes(hs[|hs| - 1])
  }

  /** The fields of an ELF header that a reader may look at, and the bytes between them. */
  datatype FileHeader = FileHeader(magic: seq<byte>, class_: byte, data: byte, ident: seq<byte>, kind: u16, machine: u16, version: u32,
                                   entry: u64, tableOffset: u64, sectionOffset: u64, flags: u32, headerSize: u16, entrySize: u16,
                                   entries: u16, rest: seq<byte>) {
    ghost predicate Valid() {
      |magic| == 4 && |ident| == 10 && |rest| == 6
    }

    /** An ELF64 little-endian executable for x86-64 with program headers of the usual size. */
    predicate IsExecutable() {
      magic == [0x7F, 0x45, 0x4C, 0x46] && class_ == 2 && data == 1 && kind == 2 && machine == 62 && entrySize == 56
    }
  }

  /** The 64 bytes of an ELF header. */
  function FileHeaderBytes(h: FileHeader): (b: seq<byte>)
    requires h.Valid()
    ensures |b| == 64
  {
    h.magic + [h.class_, h.data] + h.ident + ToLe16(h.kind) + ToLe16(h.machine) + ToLe32(h.version) + ToLe64(h.entry) + ToLe64(h.tableOffset)
    + ToLe64(h.sectionOffset) + ToLe32(h.flags) + ToLe16(h.headerSize) + ToLe16(h.entrySize) + ToLe16(h.entries) + h.rest
  }

  /** A file: the ELF header, `gap` bytes, the program headers, and the rest. */
  function FileBytes(h: FileHeader, gap: seq<byte>, hs: seq<Header>, body: seq<byte>): (b: seq<byte>)
    requires h.Valid() && ValidTable(hs)
    ensures |b| == 64 + |gap| + 56 * |hs| + |body|
  {
    FileHeaderBytes(h) + gap + TableBytes(hs) + body
  }

  /** The segments meant by the loadable ones among some headers, in order. */
  function MeantBy(hs: seq<Header>): seq<Segment> {
    if hs == [] then []
    else MeantBy(hs[..|hs| - 1]) + if hs[|hs| - 1].IsLoad() then [hs[|hs| - 1].Meant()] else []
  }

  /** A load whose file image is no larger than its memory image and lies in a file of `size` bytes. */
  predicate InFile(h: Header, size: nat) {
    h.fileSize <= h.memSize && h.offset + h.fileSize <= size
  }

  // ------------------------------------------------------------------ fields

  lemma SliceOfSlice(d: seq<byte>, from: nat, to: nat, off: nat, len: nat)
    requires from <= to <= |d| && off + len <= to - from
    ensures d[from..to][off..off + len] == d[from + off..from + off + len]
  {
    var a, b := d[from..to][off..off + len], d[from + off..from + off + len];
    assert |a| == |b| && forall i :: 0 <= i < len ==> a[i] == b[i];
  }

  /** The reader's fields of a program header that lies at `ph`. */
  lemma HeaderFields(d: seq<byte>, ph: nat, h: Header)
    requires h.Valid() && ph + 56 <= |d| && d[ph..ph + 56] == HeaderBytes(h)
    ensures U32(d, ph) == h.kind && U32(d, ph + 4) == h.Flags() && U64(d, ph + 8) == h.offset && U64(d, ph + 16) == h.vaddr
    ensures U64(d, ph + 32) == h.fileSize && U64(d, ph + 40) == h.memSize
  {
    hide ToLe32, ToLe64, Le32, Le64;
    var b := HeaderBytes(h);
    SliceOfSlice(d, ph, ph + 56, 0, 4);
    SliceOfSlice(d, ph, ph + 56, 4, 4);
    SliceOfSlice(d, ph, ph + 56, 8, 8);
    SliceOfSlice(d, ph, ph + 56, 16, 8);
    SliceOfSlice(d, ph, ph + 56, 32, 8);
    SliceOfSlice(d, ph, ph + 56, 40, 8);
    assert b[0..4] == ToLe32(h.kind) && b[4..8] == ToLe32(h.Flags()) && b[8..16] == ToLe64(h.offset);
    assert b[16..24] == ToLe64(h.vaddr) && b[32..40] == ToLe64(h.fileSize) && b[40..48] == ToLe64(h.memSize);
  }

  lemma {:induction false} HeaderInTable(hs: seq<Header>, i: nat)
    requires ValidTable(hs) && i < |hs|
    ensures 56 * i + 56 <= |TableBytes(hs)| && TableBytes(hs)[56 * i..56 * i + 56] == HeaderBytes(hs[i])
    decreases |hs|
  {
    hide HeaderBytes;
    var n := |hs| - 1;
    if i < n {
      HeaderInTable(hs[..n], i);
      assert TableBytes(hs)[56 * i..56 * i + 56] == TableBytes(hs[..n])[56 * i..56 * i + 56];
    }
  }

  lemma FileHeaderFields(h: FileHeader, gap: seq<byte>, hs: seq<Header>, body: seq<byte>)
    requires h.Valid() && ValidTable(hs)
    ensures var d := FileBytes(h, gap, hs, body);
            && |d| >= 64 && d[0..4] == h.magic && d[4] == h.class_ && d[5] == h.data && U16(d, 16) == h.kind && U16(d, 18) == h.machine
            && U64(d, 24) == h.entry && U64(d, 32) == h.tableOffset && U16(d, 54) == h.entrySize && U16(d, 56) == h.entries
  {
    hide ToLe16, ToLe32, ToLe64, Le16, Le32, Le64, TableBytes;
    var d, b := FileBytes(h, gap, hs, body), FileHeaderBytes(h);
    assert d[..64] == b;
    assert b[0..4] == h.magic && b[4] == h.class_ && b[5] == h.data;
    assert b[16..18] == ToLe16(h.kind) && b[18..20] == ToLe16(h.machine) && b[24..32] == ToLe64(h.entry);
    assert b[32..40] == ToLe64(h.tableOffset) && b[54..56] == ToLe16(h.entrySize) && b[56..58] == ToLe16(h.entries);
    assert d[16..18] == b[16..18] && d[18..20] == b[18..20] && d[24..32] == b[24..32] && d[32..40] == b[32..40];
    assert d[54..56] == b[54..56] && d[56..58] == b[56..58] && d[0..4] == b[0..4];
  }

  // ------------------------------------------------------------------ the round trip

  /** The header says where the table is. */
  ghost predicate Points(h: FileHeader, gap: seq<byte>, hs: seq<Header>) {
    h.Valid() && ValidTable(hs) && h.tableOffset == 64 + |gap| && h.entries == |hs|
  }

  /** The reader takes exactly the right kind of file. */
  lemma KindOfFile(h: FileHeader, gap: seq<byte>, hs: seq<Header>, body: seq<byte>)
    requires Points(h, gap, hs)
    ensures HeaderOk(FileBytes(h, gap, hs, body)) <==> h.IsExecutable()
  {
    hide FileHeaderBytes, TableBytes, U16, U64;
    FileHeaderFields(h, gap, hs, body);
  }

  lemma HeaderRead(h: FileHeader, gap: seq<byte>, hs: seq<Header>, body: seq<byte>, i: nat)
    requires Points(h, gap, hs) && h.IsExecutable() && i < |hs|
    ensures var d := FileBytes(h, gap, hs, body);
            && HeaderOk(d) && i < U16(d, 56) && U64(d, 24) == h.entry
            && (Loadable(d, i) <==> hs[i].IsLoad()) && (Backed(d, i) <==> InFile(hs[i], |d|)) && SegmentAt(d, i) == hs[i].Meant()
  {
    hide FileHeaderBytes, TableBytes, HeaderBytes, U16, U32, U64;
    var d := FileBytes(h, gap, hs, body);
    FileHeaderFields(h, gap, hs, body);
    HeaderInTable(hs, i);
    var ph := 64 + |gap| + 56 * i;
    assert d[ph..ph + 56] == TableBytes(hs)[56 * i..56 * i + 56];
    HeaderFields(d, ph, hs[i]);
    FlagBits(hs[i]);
  }

  lemma FlagBits(h: Header)
    requires h.Valid()
    ensures h.Flags() / 2 % 2 == 1 <==> h.write
    ensures h.Flags() % 2 == 1 <==> h.execute
  {
    var quarter := 2 * h.otherFlags + if h.read then 1 else 0;
    var half := 2 * quarter + if h.write then 1 else 0;
    assert h.Flags() == 2 * half + if h.execute then 1 else 0;
    LowestBit(h.Flags(), half, h.execute);
    LowestBit(half, quarter, h.write);
  }

  lemma LowestBit(n: nat, half: nat, bit: bool)
    requires n == 2 * half + if bit then 1 else 0
    ensures n / 2 == half && (n % 2 == 1 <==> bit)
  {}

  lemma {:induction false} LoadsRead(h: FileHeader, gap: seq<byte>, hs: seq<Header>, body: seq<byte>, n: nat)
    requires Points(h, gap, hs) && h.IsExecutable() && n <= |hs|
    ensures var d := FileBytes(h, gap, hs, body); HeaderOk(d) && n <= U16(d, 56) && Loads(d, n) == MeantBy(hs[..n])
  {
    hide FileBytes, U16, U32, U64, Loadable, SegmentAt, HeaderOk;
    KindOfFile(h, gap, hs, body);
    EntriesRead(h, gap, hs, body);
    if n > 0 {
      LoadsRead(h, gap, hs, body, n - 1);
      HeaderRead(h, gap, hs, body, n - 1);
      assert hs[..n][..n - 1] == hs[..n - 1];
    }
  }

  lemma EntriesRead(h: FileHeader, gap: seq<byte>, hs: seq<Header>, body: seq<byte>)
    requires Points(h, gap, hs)
    ensures var d := FileBytes(h, gap, hs, body); |d| >= 64 && U16(d, 56) == |hs| && U64(d, 24) == h.entry
  {
    hide FileHeaderBytes, TableBytes, U16, U64;
    FileHeaderFields(h, gap, hs, body);
  }

  /** Reading a written file: it is accepted if and only if it is an executable of the right kind with at most
      three loads, all of them inside the file; and then the reader returns the entry point and the segments
      as they were written, in order, with their permissions. */
  method RoundTrip(h: FileHeader, gap: seq<byte>, hs: seq<Header>, body: seq<byte>) returns (image: Option<Image>)
    requires Points(h, gap, hs)
    ensures image.Some? <==>
              && h.IsExecutable() && |MeantBy(hs)| <= 3
              && forall i :: 0 <= i < |hs| && hs[i].IsLoad() ==> InFile(hs[i], 64 + |gap| + 56 * |hs| + |body|)
    ensures image.Some? ==> image.value == Image(h.entry, MeantBy(hs))
  {
    hide FileBytes, U16, U32, U64, Loadable, SegmentAt, HeaderOk, Loads, Backed, InFile;
    var d := FileBytes(h, gap, hs, body);
    image := Parse(d);
    KindOfFile(h, gap, hs, body);
    EntriesRead(h, gap, hs, body);
    FileSize(h, gap, hs, body);
    if h.IsExecutable() {
      LoadsRead(h, gap, hs, body, |hs|);
      assert hs[..|hs|] == hs;
      forall i | 0 <= i < |hs|
        ensures Loadable(d, i) <==> hs[i].IsLoad()
        ensures Backed(d, i) <==> InFile(hs[i], |d|)
      {
        HeaderRead(h, gap, hs, body, i);
      }
    }
  }

  lemma FileSize(h: FileHeader, gap: seq<byte>, hs: seq<Header>, body: seq<byte>)
    requires Points(h, gap, hs)
    ensures |FileBytes(h, gap, hs, body)| == 64 + |gap| + 56 * |hs| + |body|
  {}
}
