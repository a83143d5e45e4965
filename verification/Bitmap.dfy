/** Bitmaps of 64-bit words, as both physical allocators keep them: bit `i % 64` of word
    `i / 64` is 1 exactly when item `i` is free. */
module Bitmap {

  datatype Option<+T> = None | Some(value: T)

  type u64 = w: nat | w < 0x1_0000_0000_0000_0000

  function Pow2(k: nat): (p: nat)
    ensures p > 0
  {
    if k == 0 then 1 else 2 * Pow2(k - 1)
  }

  /** Binary digit `b` of `w`: the test `(w >> b) & 1 == 1`. */
  predicate Bit(w: nat, b: nat) {
    if b == 0 then w % 2 == 1 else Bit(w / 2, b - 1)
  }

  /** `w | (1 << b)`, digit by digit. */
  function SetBit(w: nat, b: nat): nat {
    if b == 0 then w / 2 * 2 + 1 else 2 * SetBit(w / 2, b - 1) + w % 2
  }

  /** `w & !(1 << b)`, digit by digit. */
  function ClearBit(w: nat, b: nat): nat {
    if b == 0 then w / 2 * 2 else 2 * ClearBit(w / 2, b - 1) + w % 2
  }

  /** `w.trailing_zeros()` of a non-zero word. */
  function TrailingZeros(w: nat): nat
    requires w != 0
  {
    if w % 2 == 1 then 0 else 1 + TrailingZeros(w / 2)
  }

  lemma {:induction false} SetBitSetsOneDigit(w: nat, b: nat, c: nat)
    ensures Bit(SetBit(w, b), c) <==> c == b || Bit(w, c)
  {
    if b != 0 {
      var s := SetBit(w / 2, b - 1);
      assert (2 * s + w % 2) / 2 == s && (2 * s + w % 2) % 2 == w % 2;
      if c != 0 { SetBitSetsOneDigit(w / 2, b - 1, c - 1); }
    }
  }

  lemma {:induction false} ClearBitClearsOneDigit(w: nat, b: nat, c: nat)
    ensures Bit(ClearBit(w, b), c) <==> c != b && Bit(w, c)
  {
    if b != 0 {
      var s := ClearBit(w / 2, b - 1);
      assert (2 * s + w % 2) / 2 == s && (2 * s + w % 2) % 2 == w % 2;
      if c != 0 { ClearBitClearsOneDigit(w / 2, b - 1, c - 1); }
    }
  }

  /** Setting or clearing a digit below `k` keeps a `k`-bit word a `k`-bit word. */
  lemma {:induction false} DigitWritesStayInWord(w: nat, b: nat, k: nat)
    requires w < Pow2(k) && b < k
    ensures SetBit(w, b) < Pow2(k)
    ensures ClearBit(w, b) <= w
  {
    if b != 0 { DigitWritesStayInWord(w / 2, b - 1, k - 1); }
  }

  lemma {:induction false} TrailingZerosIsLowestDigit(w: nat, k: nat)
    requires 0 < w < Pow2(k)
    ensures TrailingZeros(w) < k && Bit(w, TrailingZeros(w))
    ensures forall c :: 0 <= c < TrailingZeros(w) ==> !Bit(w, c)
  {
    if w % 2 == 0 {
      TrailingZerosIsLowestDigit(w / 2, k - 1);
      forall c | 0 <= c < TrailingZeros(w) ensures !Bit(w, c) {
        if c != 0 { assert !Bit(w / 2, c - 1); }
      }
    }
  }

  lemma {:induction false} ZeroHasNoDigits(b: nat)
    ensures !Bit(0, b)
  {
    if b != 0 { ZeroHasNoDigits(b - 1); }
  }

  lemma {:induction false} AllOnesHasEveryDigit(b: nat, k: nat)
    requires b < k
    ensures Bit(Pow2(k) - 1, b)
  {
    if b != 0 {
      assert (Pow2(k) - 1) / 2 == Pow2(k - 1) - 1;
      AllOnesHasEveryDigit(b - 1, k - 1);
    } else {
      assert Pow2(k) == 2 * Pow2(k - 1);
    }
  }

  lemma Pow2Of64()
    ensures Pow2(64) == 0x1_0000_0000_0000_0000
  {
    assert Pow2(8) == 256;
    assert Pow2(16) == 65536;
    assert Pow2(24) == 0x100_0000;
    assert Pow2(32) == 0x1_0000_0000;
    assert Pow2(40) == 0x100_0000_0000;
    assert Pow2(48) == 0x1_0000_0000_0000;
    assert Pow2(56) == 0x100_0000_0000_0000;
  }

  predicate IsFree(bm: seq<u64>, i: nat) {
    i < 64 * |bm| && Bit(bm[i / 64], i % 64)
  }

  /** The set of items a bitmap records as free. */
  ghost function Free(bm: seq<u64>): set<nat> {
    set i: nat | i < 64 * |bm| && IsFree(bm, i)
  }

  /** Marking item `i` free or allocated, as `mark_free` and `mark_allocated` do: items
      beyond the bitmap are ignored. */
  function Mark(bm: seq<u64>, i: nat, free: bool): (r: seq<u64>)
    ensures |r| == |bm|
    ensures free && i < 64 * |bm| ==> Free(r) == Free(bm) + {i}
    ensures !free || i >= 64 * |bm| ==> Free(r) == Free(bm) - {i}
  {
    if i >= 64 * |bm| then bm else
      MarkKeepsWords(bm[i / 64], i % 64);
      var w := if free then SetBit(bm[i / 64], i % 64) else ClearBit(bm[i / 64], i % 64);
      var r := bm[i / 64 := w];
      MarkEffect(bm, i, free, r);
      r
  }

  lemma MarkKeepsWords(w: u64, b: nat)
    requires b < 64
    ensures SetBit(w, b) < 0x1_0000_0000_0000_0000
    ensures ClearBit(w, b) < 0x1_0000_0000_0000_0000
  {
    Pow2Of64();
    DigitWritesStayInWord(w, b, 64);
  }

  lemma MarkEffect(bm: seq<u64>, i: nat, free: bool, r: seq<u64>)
    requires i < 64 * |bm| && |r| == |bm|
    requires forall k :: 0 <= k < |bm| && k != i / 64 ==> r[k] == bm[k]
    requires r[i / 64] == if free then SetBit(bm[i / 64], i % 64) else ClearBit(bm[i / 64], i % 64)
    ensures Free(r) == if free then Free(bm) + {i} else Free(bm) - {i}
  {
    forall j: nat | j < 64 * |bm|
      ensures IsFree(r, j) <==> if j == i then free else IsFree(bm, j)
    {
      SetBitSetsOneDigit(bm[i / 64], i % 64, j % 64);
      ClearBitClearsOneDigit(bm[i / 64], i % 64, j % 64);
    }
  }

  /** First-fit allocation: the scan for a non-zero word and its lowest set bit. */
  method TakeLowest(bm: seq<u64>) returns (r: seq<u64>, taken: Option<nat>)
    ensures |r| == |bm|
    ensures taken.None? <==> Free(bm) == {}
    ensures taken.None? ==> r == bm
    ensures taken.Some? ==> taken.value in Free(bm) && Free(r) == Free(bm) - {taken.value}
    ensures taken.Some? ==> forall j :: j in Free(bm) ==> taken.value <= j
  {
    var word := 0;
    while word < |bm|
      invariant 0 <= word <= |bm|
      invariant forall j: nat :: j < 64 * word ==> !IsFree(bm, j)
    {
      if bm[word] != 0 {
        Pow2Of64();
        TrailingZerosIsLowestDigit(bm[word], 64);
        var bit := TrailingZeros(bm[word]);
        var i := word * 64 + bit;
        assert i / 64 == word && i % 64 == bit;
        forall j: nat | j < i ensures !IsFree(bm, j) {
          if j >= 64 * word { assert j / 64 == word; }
        }
        assert i in Free(bm);
        return Mark(bm, i, false), Some(i);
      }
      forall j: nat | j < 64 * (word + 1) ensures !IsFree(bm, j) {
        if j >= 64 * word { assert j / 64 == word; ZeroHasNoDigits(j % 64); }
      }
      word := word + 1;
    }
    return bm, None;
  }
}
