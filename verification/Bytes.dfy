/** Bytes and the little-endian integers stored in them. */
module Bytes {
  type byte = b: nat | b < 256

  type u16 = x: nat | x < 0x1_0000
  type u32 = x: nat | x < 0x1_0000_0000

  function Le16(b: seq<byte>): (v: u16)
    requires |b| == 2
  {
    b[0] as int + 0x100 * b[1] as int
  }

  function Le32(b: seq<byte>): (v: u32)
    requires |b| == 4
  {
    b[0] as int + 0x100 * (b[1] as int + 0x100 * (b[2] as int + 0x100 * b[3] as int))
  }

  function Le64(b: seq<byte>): (v: nat)
    requires |b| == 8
    ensures v < 0x1_0000_0000_0000_0000
  {
    Le32(b[..4]) as int + 0x1_0000_0000 * Le32(b[4..]) as int
  }

  function ToLe16(v: u16): (b: seq<byte>)
    ensures |b| == 2 && Le16(b) == v
  {
    [v % 0x100, v / 0x100]
  }

  function ToLe32(v: u32): (b: seq<byte>)
    ensures |b| == 4 && Le32(b) == v
  {
    var r: nat := v / 0x100;
    var q: nat := r / 0x100;
    [v % 0x100, r % 0x100, q % 0x100, q / 0x100]
  }

  function ToLe64(v: nat): (b: seq<byte>)
    requires v < 0x1_0000_0000_0000_0000
    ensures |b| == 8 && Le64(b) == v
  {
    var low, high := ToLe32(v % 0x1_0000_0000), ToLe32(v / 0x1_0000_0000);
    assert (low + high)[..4] == low && (low + high)[4..] == high;
    low + high
  }

  /** The lowest byte comes first: byte `k` of an encoded number is its `k`-th digit in base 256. */
  lemma LowestByteFirst(v: u32, w: u16)
    ensures ToLe32(v)[0] == v % 0x100 && ToLe32(v)[1] == v / 0x100 % 0x100
    ensures ToLe32(v)[2] == v / 0x1_0000 % 0x100 && ToLe32(v)[3] == v / 0x100_0000
    ensures ToLe16(w)[0] == w % 0x100 && ToLe16(w)[1] == w / 0x100
  {}

  function U16(d: seq<byte>, off: nat): u16
    requires off + 2 <= |d|
  {
    Le16(d[off..off + 2])
  }

  function U32(d: seq<byte>, off: nat): u32
    requires off + 4 <= |d|
  {
    Le32(d[off..off + 4])
  }

  function U64(d: seq<byte>, off: nat): nat
    requires off + 8 <= |d|
  {
    Le64(d[off..off + 8])
  }
}
