/** Little-endian fields written in place. */
module Buffers {
  import opened Bytes

  /** Nothing changed outside [lo, hi). */
  ghost predicate Outside(s: seq<byte>, s': seq<byte>, lo: nat, hi: nat) {
    && |s| == |s'|
    && (forall i: nat :: i < |s| && !(lo <= i < hi) ==> s'[i] == s[i])
    && (forall o: nat :: o + 2 <= |s| && (o + 2 <= lo || hi <= o) ==> U16(s', o) == U16(s, o))
    && (forall o: nat :: o + 4 <= |s| && (o + 4 <= lo || hi <= o) ==> U32(s', o) == U32(s, o))
  }

  lemma OutsideOf(s: seq<byte>, s': seq<byte>, lo: nat, hi: nat)
    requires |s| == |s'| && forall i: nat :: i < |s| && !(lo <= i < hi) ==> s'[i] == s[i]
    ensures Outside(s, s', lo, hi)
  {
    forall o: nat | o + 2 <= |s| && (o + 2 <= lo || hi <= o) ensures U16(s', o) == U16(s, o) {
      assert s'[o..o + 2] == s[o..o + 2];
    }
    forall o: nat | o + 4 <= |s| && (o + 4 <= lo || hi <= o) ensures U32(s', o) == U32(s, o) {
      assert s'[o..o + 4] == s[o..o + 4];
    }
  }

  method Put16(img: array<byte>, off: nat, v: u16)
    requires off + 2 <= img.Length
    modifies img
    ensures U16(img[..], off) == v && Outside(old(img[..]), img[..], off, off + 2)
  {
    var b := ToLe16(v);
    img[off], img[off + 1] := b[0], b[1];
    assert img[..][off..off + 2] == b;
    OutsideOf(old(img[..]), img[..], off, off + 2);
  }

  method Put32(img: array<byte>, off: nat, v: u32)
    requires off + 4 <= img.Length
    modifies img
    ensures U32(img[..], off) == v && Outside(old(img[..]), img[..], off, off + 4)
  {
    var b := ToLe32(v);
    img[off], img[off + 1], img[off + 2], img[off + 3] := b[0], b[1], b[2], b[3];
    assert img[..][off..off + 4] == b;
    OutsideOf(old(img[..]), img[..], off, off + 4);
  }
}
