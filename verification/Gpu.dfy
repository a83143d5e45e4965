/** GPU memory: its partitions, the windows shards unveil, and copies between partitions. */
module Gpu {
  import opened Bytes
  import opened Bitmap
  import K = Kernel

  const MAX_PARTITIONS: nat := 2
  const TOTAL_UNITS: nat := 8
  const RIGHT_DMA_WRITE: bv16 := 1
  const SYS_GPU_DMA: nat := 40
  const U64_MAX: nat := 0xFFFF_FFFF_FFFF_FFFF

  datatype Partition = Partition(offset: nat, size: nat, units: nat, owner: Option<nat>)

  /** The unveiled range of a shard's partition; size 0 means that it has not unveiled. */
  datatype Window = Window(offset: nat, size: nat)

  /** `mapped` says whether the supervisor has video memory in its own address space. */
  datatype State = State(vram: seq<byte>, parts: seq<Partition>, windows: seq<Window>, mapped: bool)

  // ------------------------------------------------------------------ specification

  ghost predicate Disjoint(p: Partition, q: Partition) {
    p.offset + p.size <= q.offset || q.offset + q.size <= p.offset
  }

  /** The first partition of shard `s`, or the number of partitions. */
  function PartOf(parts: seq<Partition>, s: nat): (i: nat)
    ensures i <= |parts| && (i < |parts| ==> parts[i].owner == Some(s))
    ensures forall j: nat :: j < i ==> parts[j].owner != Some(s)
  {
    if parts == [] || parts[0].owner == Some(s) then 0
    else
      var r := PartOf(parts[1..], s);
      assert forall j: nat :: 0 < j < 1 + r ==> parts[j] == parts[1..][j - 1];
      1 + r
  }

  /** Partitions are disjoint parts of video memory with different owners, and every window lies in
      its shard's partition. */
  ghost predicate Consistent(st: State) {
    && |st.windows| == K.MAX_SHARDS && |st.vram| <= U64_MAX
    && (forall i: nat :: i < |st.parts| ==> st.parts[i].offset + st.parts[i].size <= |st.vram|)
    && (forall i: nat, j: nat :: i < j < |st.parts| ==> Disjoint(st.parts[i], st.parts[j]))
    && (forall i: nat, j: nat :: i < j < |st.parts| && st.parts[i].owner.Some? ==> st.parts[i].owner != st.parts[j].owner)
    && (forall i: nat :: i < |st.parts| && st.parts[i].owner.Some? ==> st.parts[i].owner.value < K.MAX_SHARDS)
    && (forall s: nat :: s < K.MAX_SHARDS && st.windows[s].size > 0 ==>
          PartOf(st.parts, s) < |st.parts|
          && st.windows[s].offset + st.windows[s].size <= st.parts[PartOf(st.parts, s)].size)
  }

  predicate UnveilAccepted(st: State, s: nat, offset: nat, size: nat)
    requires s < |st.windows|
  {
    && st.windows[s].size == 0 && size > 0
    && PartOf(st.parts, s) < |st.parts| && offset + size <= st.parts[PartOf(st.parts, s)].size
  }

  predicate Inside(w: Window, offset: nat, len: nat) {
    w.size == 0 || (w.offset <= offset && offset + len <= w.offset + w.size)
  }

  /** Byte `b` of its partition is open to copies for the shard with window `w`. */
  predicate Visible(w: Window, b: nat) {
    w.size == 0 || w.offset <= b < w.offset + w.size
  }

  lemma InsideIsVisible(w: Window, offset: nat, len: nat)
    requires len > 0
    ensures Inside(w, offset, len) <==> forall b: nat :: offset <= b < offset + len ==> Visible(w, b)
  {
    if forall b: nat :: offset <= b < offset + len ==> Visible(w, b) {
      assert Visible(w, offset) && Visible(w, offset + len - 1);
    }
  }

  /** A copy of `len` bytes from `src` of the caller's partition to `dst` of partition `target`. */
  datatype Copy = Copy(target: nat, src: nat, dst: nat, len: nat)

  /** The conditions of a copy: within both partitions, within both windows, from the caller's own
      partition to another one, and with a capability for that one. */
  predicate CopyAccepted(st: State, s: nat, c: Copy, caps: seq<K.Cap>)
    requires |st.windows| == K.MAX_SHARDS && s < K.MAX_SHARDS
  {
    var from := PartOf(st.parts, s);
    && c.len > 0 && c.target < |st.parts| && from < |st.parts| && from != c.target
    && K.Holds(caps, K.CAP_GPU_DMA, c.target, RIGHT_DMA_WRITE)
    && c.src + c.len <= st.parts[from].size && c.dst + c.len <= st.parts[c.target].size
    && Inside(st.windows[s], c.src, c.len)
    && (st.parts[c.target].owner.Some? ==>
          st.parts[c.target].owner.value < K.MAX_SHARDS && Inside(st.windows[st.parts[c.target].owner.value], c.dst, c.len))
    && st.mapped
  }

  /** The same byte by byte: every byte read is in the caller's partition and open to it, every byte written
      is in the target partition and open to copies by its owner. */
  ghost predicate MayCopy(st: State, s: nat, target: nat, src: nat, dst: nat, len: nat, caps: seq<K.Cap>)
    requires |st.windows| == K.MAX_SHARDS && s < K.MAX_SHARDS
  {
    && 0 < len && target < |st.parts| && PartOf(st.parts, s) < |st.parts| && PartOf(st.parts, s) != target && st.mapped
    && K.Holds(caps, K.CAP_GPU_DMA, target, RIGHT_DMA_WRITE)
    && (forall b: nat :: src <= b < src + len ==> OpenByte(st.parts[PartOf(st.parts, s)], st.windows, s, b))
    && (forall b: nat :: dst <= b < dst + len ==>
          if st.parts[target].owner.Some? then OpenByte(st.parts[target], st.windows, st.parts[target].owner.value, b)
          else HasByte(st.parts[target], b))
  }

  predicate HasByte(p: Partition, b: nat) {
    b < p.size
  }

  /** Byte `b` of partition `p` exists and its owner `s` leaves it open to copies. */
  ghost predicate OpenByte(p: Partition, windows: seq<Window>, s: nat, b: nat) {
    HasByte(p, b) && s < |windows| && Visible(windows[s], b)
  }

  lemma AcceptedBytewise(st: State, s: nat, c: Copy, caps: seq<K.Cap>)
    requires Consistent(st) && s < K.MAX_SHARDS
    ensures CopyAccepted(st, s, c, caps) <==> MayCopy(st, s, c.target, c.src, c.dst, c.len, caps)
  {
    hide K.Holds;
    if 0 < c.len && c.target < |st.parts| && PartOf(st.parts, s) < |st.parts| {
      var to := st.parts[c.target];
      RangeBytewise(st.parts[PartOf(st.parts, s)], st.windows, s, c.src, c.len);
      if to.owner.Some? {
        RangeBytewise(to, st.windows, to.owner.value, c.dst, c.len);
      } else if forall b: nat :: c.dst <= b < c.dst + c.len ==> HasByte(to, b) {
        assert HasByte(to, c.dst + c.len - 1);
      }
    }
  }

  lemma RangeBytewise(p: Partition, windows: seq<Window>, s: nat, offset: nat, len: nat)
    requires 0 < len && s < |windows|
    ensures offset + len <= p.size && Inside(windows[s], offset, len) <==>
              forall b: nat :: offset <= b < offset + len ==> OpenByte(p, windows, s, b)
  {
    if forall b: nat :: offset <= b < offset + len ==> OpenByte(p, windows, s, b) {
      assert OpenByte(p, windows, s, offset) && OpenByte(p, windows, s, offset + len - 1);
    }
  }

  /** Video memory with `len` bytes at `dst` replaced by those at `src`. */
  function Blit(v: seq<byte>, src: nat, dst: nat, len: nat): (v': seq<byte>)
    requires src + len <= |v| && dst + len <= |v|
    ensures |v'| == |v|
    ensures forall a: nat :: a < |v| ==> v'[a] == if dst <= a < dst + len then v[src + (a - dst)] else v[a]
  {
    v[..dst] + v[src..src + len] + v[dst + len..]
  }

  /** What can happen to video memory: a shard unveils, asks for a copy, or stores into its own
      partition, which it has mapped. */
  datatype Event =
    | Unveil(s: nat, offset: nat, size: nat)
    | Dma(s: nat, copy: Copy, caps: seq<K.Cap>, pledge: bv64)
    | Store(s: nat, offset: nat, value: byte)

  /** Where a copy reads and writes. */
  function Source(st: State, s: nat, c: Copy): nat
    requires PartOf(st.parts, s) < |st.parts|
  {
    st.parts[PartOf(st.parts, s)].offset + c.src
  }

  function Destination(st: State, c: Copy): nat
    requires c.target < |st.parts|
  {
    st.parts[c.target].offset + c.dst
  }

  function Effect(st: State, e: Event): (st': State)
    requires Consistent(st)
  {
    if e.s >= K.MAX_SHARDS then st
    else
      match e
      case Unveil(s, offset, size) =>
        if UnveilAccepted(st, s, offset, size) then st.(windows := st.windows[s := Window(offset, size)]) else st
      case Dma(s, c, caps, pledge) =>
        if K.PledgeAllows(pledge, SYS_GPU_DMA) && CopyAccepted(st, s, c, caps)
        then st.(vram := Blit(st.vram, Source(st, s, c), Destination(st, c), c.len)) else st
      case Store(s, offset, value) =>
        var p := PartOf(st.parts, s);
        if p < |st.parts| && offset < st.parts[p].size then st.(vram := st.vram[st.parts[p].offset + offset := value]) else st
  }

  // ------------------------------------------------------------------ one step

  lemma EffectIsValid(st: State, e: Event)
    requires Consistent(st)
    ensures Consistent(Effect(st, e)) && Effect(st, e).parts == st.parts && |Effect(st, e).vram| == |st.vram|
  {}

  /** Source and destination of an accepted copy do not overlap, so `copy_nonoverlapping` is a copy. */
  lemma NoOverlap(st: State, s: nat, c: Copy, caps: seq<K.Cap>)
    requires Consistent(st) && s < K.MAX_SHARDS && CopyAccepted(st, s, c, caps)
    ensures var src, dst := Source(st, s, c), Destination(st, c);
            src + c.len <= |st.vram| && dst + c.len <= |st.vram| && (src + c.len <= dst || dst + c.len <= src)
  {
    var i, j := PartOf(st.parts, s), c.target;
    assert i < j ==> Disjoint(st.parts[i], st.parts[j]);
    assert j < i ==> Disjoint(st.parts[j], st.parts[i]);
  }

  /** Byte `a` of video memory belongs to partition `p`, outside the window of its owner `s`. */
  predicate Veiled(st: State, s: nat, a: nat)
    requires s < |st.windows|
  {
    var p := PartOf(st.parts, s);
    && p < |st.parts| && st.windows[s].size > 0
    && st.parts[p].offset <= a < st.parts[p].offset + st.parts[p].size
    && !(st.windows[s].offset <= a - st.parts[p].offset < st.windows[s].offset + st.windows[s].size)
  }

  /** A copy neither reads nor writes a veiled byte. */
  lemma CopyAvoidsVeiled(st: State, s: nat, c: Copy, caps: seq<K.Cap>, u: nat, a: nat)
    requires Consistent(st) && s < K.MAX_SHARDS && u < K.MAX_SHARDS && CopyAccepted(st, s, c, caps) && Veiled(st, u, a)
    ensures !(Source(st, s, c) <= a < Source(st, s, c) + c.len)
    ensures !(Destination(st, c) <= a < Destination(st, c) + c.len)
  {
    var i, j, p := PartOf(st.parts, s), c.target, PartOf(st.parts, u);
    assert i < p ==> Disjoint(st.parts[i], st.parts[p]);
    assert p < i ==> Disjoint(st.parts[p], st.parts[i]);
    assert j < p ==> Disjoint(st.parts[j], st.parts[p]);
    assert p < j ==> Disjoint(st.parts[p], st.parts[j]);
  }

  // ------------------------------------------------------------------ runs

  function Run(st: State, events: seq<Event>): (st': State)
    requires Consistent(st)
    ensures Consistent(st') && st'.parts == st.parts && |st'.vram| == |st.vram|
    decreases |events|
  {
    if events == [] then st
    else
      var n := |events| - 1;
      var before := Run(st, events[..n]);
      EffectIsValid(before, events[n]);
      Effect(before, events[n])
  }

  /** A shard unveils at most once: its window never changes again. */
  lemma {:induction false} WindowIsFinal(st: State, events: seq<Event>, s: nat)
    requires Consistent(st) && s < K.MAX_SHARDS && st.windows[s].size > 0
    ensures Run(st, events).windows[s] == st.windows[s]
    decreases |events|
  {
    hide Effect, Consistent;
    Sizes(st);
    if events != [] {
      var n := |events| - 1;
      WindowIsFinal(st, events[..n], s);
      WindowStays(Run(st, events[..n]), events[n], s);
    }
  }

  lemma WindowStays(st: State, e: Event, s: nat)
    requires Consistent(st) && s < K.MAX_SHARDS && st.windows[s].size > 0
    ensures |Effect(st, e).windows| == K.MAX_SHARDS && Effect(st, e).windows[s] == st.windows[s]
  {}

  /** Event `e` stores to byte `a`. */
  predicate StoresTo(st: State, e: Event, a: nat) {
    e.Store? && PartOf(st.parts, e.s) < |st.parts| && a == st.parts[PartOf(st.parts, e.s)].offset + e.offset
  }

  /** Over every run, a veiled byte changes only if its own shard stores to it. */
  lemma {:induction false} VeiledBytesStay(st: State, events: seq<Event>, s: nat, a: nat)
    requires Consistent(st) && s < K.MAX_SHARDS && Veiled(st, s, a)
    requires forall k :: 0 <= k < |events| && events[k].s == s ==> !StoresTo(st, events[k], a)
    ensures a < |st.vram| && Run(st, events).vram[a] == st.vram[a]
    decreases |events|
  {
    hide Effect;
    if events != [] {
      var n := |events| - 1;
      VeiledBytesStay(st, events[..n], s, a);
      WindowIsFinal(st, events[..n], s);
      VeiledByteStays(Run(st, events[..n]), events[n], s, a);
    }
  }

  lemma VeiledByteStays(st: State, e: Event, s: nat, a: nat)
    requires Consistent(st) && s < K.MAX_SHARDS && Veiled(st, s, a) && (e.s == s ==> !StoresTo(st, e, a))
    ensures a < |st.vram| && Effect(st, e).vram[a] == st.vram[a]
  {
    hide K.PledgeAllows, K.Holds;
    if e.Dma? && e.s < K.MAX_SHARDS && K.PledgeAllows(e.pledge, SYS_GPU_DMA) && CopyAccepted(st, e.s, e.copy, e.caps) {
      CopyAvoidsVeiled(st, e.s, e.copy, e.caps, s, a);
    }
    if e.Store? {
      var p, q := PartOf(st.parts, s), PartOf(st.parts, e.s);
      assert p < q < |st.parts| ==> Disjoint(st.parts[p], st.parts[q]);
      assert q < p ==> Disjoint(st.parts[q], st.parts[p]);
    }
  }

  /** Two states that agree on everything but bytes veiled by shard `s`. */
  ghost predicate AgreeButVeiled(st: State, t: State, s: nat) {
    && Consistent(st) && Consistent(t) && s < K.MAX_SHARDS
    && st.parts == t.parts && st.windows == t.windows && st.mapped == t.mapped && |st.vram| == |t.vram|
    && forall a: nat :: a < |st.vram| && !Veiled(st, s, a) ==> st.vram[a] == t.vram[a]
  }

  lemma AgreementStays(st: State, t: State, e: Event, s: nat)
    requires AgreeButVeiled(st, t, s) && st.windows[s].size > 0
    ensures AgreeButVeiled(Effect(st, e), Effect(t, e), s)
  {
    hide K.PledgeAllows, K.Holds;
    if e.Dma? { CopyAgreement(st, t, e, s); } else { PlainAgreement(st, t, e, s); }
  }

  lemma PlainAgreement(st: State, t: State, e: Event, s: nat)
    requires AgreeButVeiled(st, t, s) && st.windows[s].size > 0 && !e.Dma?
    ensures AgreeButVeiled(Effect(st, e), Effect(t, e), s)
  {
    hide Consistent, Veiled;
    EffectIsValid(st, e);
    EffectIsValid(t, e);
    Sizes(st);
    SameVeil(st, t, e, s);
  }

  lemma CopyAgreement(st: State, t: State, e: Event, s: nat)
    requires AgreeButVeiled(st, t, s) && st.windows[s].size > 0 && e.Dma?
    ensures AgreeButVeiled(Effect(st, e), Effect(t, e), s)
  {
    hide K.PledgeAllows, K.Holds, Consistent, Veiled;
    EffectIsValid(st, e);
    EffectIsValid(t, e);
    Sizes(st);
    SameVeil(st, t, e, s);
    if e.s < K.MAX_SHARDS && K.PledgeAllows(e.pledge, SYS_GPU_DMA) && CopyAccepted(st, e.s, e.copy, e.caps) {
      var c := e.copy;
      NoOverlap(st, e.s, c, e.caps);
      var src, dst := Source(st, e.s, c), Destination(st, c);
      forall a: nat | a < |st.vram| && !Veiled(st, s, a) ensures Effect(st, e).vram[a] == Effect(t, e).vram[a] {
        if dst <= a < dst + c.len { SourceIsNotVeiled(st, e.s, c, e.caps, s, src + (a - dst)); }
      }
    }
  }

  lemma Sizes(st: State)
    requires Consistent(st)
    ensures |st.windows| == K.MAX_SHARDS
  {}

  lemma AcceptedFacts(st: State, s: nat, c: Copy, caps: seq<K.Cap>)
    requires |st.windows| == K.MAX_SHARDS && s < K.MAX_SHARDS && CopyAccepted(st, s, c, caps)
    ensures c.target < |st.parts| && PartOf(st.parts, s) < |st.parts|
  {}

  lemma WindowFits(st: State, s: nat)
    requires Consistent(st) && s < K.MAX_SHARDS
    ensures |st.windows| == K.MAX_SHARDS && (st.windows[s].size > 0 ==> st.windows[s].offset + st.windows[s].size <= U64_MAX)
  {}

  lemma CheckFacts(st: State)
    requires Consistent(st)
    ensures |st.windows| == K.MAX_SHARDS
    ensures forall i: nat :: i < |st.parts| ==>
              st.parts[i].size <= U64_MAX && (st.parts[i].owner.Some? ==> st.parts[i].owner.value < K.MAX_SHARDS)
  {}

  lemma SameVeil(st: State, t: State, e: Event, s: nat)
    requires AgreeButVeiled(st, t, s) && st.windows[s].size > 0
    ensures |Effect(st, e).windows| == |st.windows| == K.MAX_SHARDS
    ensures forall a: nat :: Veiled(Effect(st, e), s, a) == Veiled(st, s, a)
  {}

  lemma SourceIsNotVeiled(st: State, s: nat, c: Copy, caps: seq<K.Cap>, u: nat, a: nat)
    requires Consistent(st) && s < K.MAX_SHARDS && u < K.MAX_SHARDS && CopyAccepted(st, s, c, caps)
    requires Source(st, s, c) <= a < Source(st, s, c) + c.len
    ensures !Veiled(st, u, a)
  {
    var i, p := PartOf(st.parts, s), PartOf(st.parts, u);
    assert i < p < |st.parts| ==> Disjoint(st.parts[i], st.parts[p]);
    assert p < i ==> Disjoint(st.parts[p], st.parts[i]);
  }

  /** Over every run, no copy carries a veiled byte anywhere: states that differ only in veiled bytes
      of one shard still differ only there. */
  lemma {:induction false} VeiledBytesDoNotLeak(st: State, t: State, events: seq<Event>, s: nat)
    requires AgreeButVeiled(st, t, s) && st.windows[s].size > 0
    ensures AgreeButVeiled(Run(st, events), Run(t, events), s)
    decreases |events|
  {
    if events != [] {
      var n := |events| - 1;
      VeiledBytesDoNotLeak(st, t, events[..n], s);
      WindowIsFinal(st, events[..n], s);
      AgreementStays(Run(st, events[..n]), Run(t, events[..n]), events[n], s);
    }
  }

  /** A shard without the capability for a partition never changes a byte of it, its own apart. */
  lemma OnlyCapabilityWrites(st: State, e: Event, p: nat, a: nat)
    requires Consistent(st) && p < |st.parts| && st.parts[p].offset <= a < st.parts[p].offset + st.parts[p].size
    requires st.parts[p].owner != Some(e.s) && Effect(st, e).vram[a] != st.vram[a]
    ensures e.Dma? && K.Holds(e.caps, K.CAP_GPU_DMA, p, RIGHT_DMA_WRITE) && K.PledgeAllows(e.pledge, SYS_GPU_DMA)
  {
    hide K.PledgeAllows, K.Holds;
    forall q: nat | q < |st.parts| && q != p ensures !(st.parts[q].offset <= a < st.parts[q].offset + st.parts[q].size) {
      assert p < q ==> Disjoint(st.parts[p], st.parts[q]);
      assert q < p ==> Disjoint(st.parts[q], st.parts[p]);
    }
  }

  // ------------------------------------------------------------------ the device in place

  /** An equal share of video memory and of compute units. */
  function Fresh(size: nat, i: nat): Partition {
    Partition(i * (size / MAX_PARTITIONS), size / MAX_PARTITIONS, TOTAL_UNITS / MAX_PARTITIONS, None)
  }

  lemma FreshIsConsistent(st: State)
    requires |st.windows| == K.MAX_SHARDS && |st.vram| <= U64_MAX && |st.parts| == MAX_PARTITIONS
    requires forall s: nat :: s < K.MAX_SHARDS ==> st.windows[s] == Window(0, 0)
    requires forall i: nat :: i < MAX_PARTITIONS ==> st.parts[i] == Fresh(|st.vram|, i)
    ensures Consistent(st)
  {}

  class Device {
    const vram: array<byte>
    const mapped: bool
    var parts: seq<Partition>
    var windows: seq<Window>

    ghost function St(): State
      reads this, vram
    {
      State(vram[..], parts, windows, mapped)
    }

    ghost predicate Valid()
      reads this, vram
    {
      Consistent(St())
    }

    /** `create_partitions` over the whole of video memory; nobody has unveiled yet. */
    constructor (size: nat, mapped: bool)
      requires size <= U64_MAX
      ensures Valid() && vram.Length == size && this.mapped == mapped && fresh(vram)
      ensures |parts| == MAX_PARTITIONS && forall i: nat :: i < MAX_PARTITIONS ==> parts[i] == Fresh(size, i)
      ensures parts[0].offset == 0 && parts[1].offset == parts[0].size == parts[1].size && size - 1 <= 2 * parts[0].size <= size
      ensures parts[0].units + parts[1].units == TOTAL_UNITS && parts[0].units == parts[1].units
      ensures windows == seq(K.MAX_SHARDS, _ => Window(0, 0))
    {
      hide Consistent;
      vram := new byte[size](_ => 0);
      this.mapped := mapped;
      parts := [];
      windows := seq(K.MAX_SHARDS, _ => Window(0, 0));
      new;
      for i := 0 to MAX_PARTITIONS
        invariant |parts| == i && forall j: nat :: j < i ==> parts[j] == Fresh(size, j)
        invariant |windows| == K.MAX_SHARDS && forall s: nat :: s < K.MAX_SHARDS ==> windows[s] == Window(0, 0)
      {
        parts := parts + [Fresh(size, i)];
      }
      FreshIsConsistent(St());
    }

    /** The boot code gives partition `i` to shard `s`, which has no partition yet. */
    method Assign(i: nat, s: nat)
      requires Valid() && i < |parts| && s < K.MAX_SHARDS && PartOf(parts, s) == |parts| && windows[s].size == 0
      requires parts[i].owner.None?
      modifies this`parts
      ensures Valid() && parts == old(parts)[i := old(parts)[i].(owner := Some(s))]
    {
      parts := parts[i := parts[i].(owner := Some(s))];
      AssignKeepsPartOf(old(parts), parts, i, s);
    }

    method FindPartition(s: nat) returns (i: nat)
      ensures i == PartOf(parts, s)
    {
      i := 0;
      while i < |parts| && parts[i].owner != Some(s)
        invariant i <= |parts| && forall j: nat :: j < i ==> parts[j].owner != Some(s)
      {
        i := i + 1;
      }
    }

    /** `handle_gpu_unveil`. The sum of two 64-bit arguments may not wrap. */
    method HandleUnveil(s: nat, offset: nat, size: nat) returns (ok: bool)
      requires Valid() && s < K.MAX_SHARDS && offset <= U64_MAX && size <= U64_MAX
      modifies this`windows
      ensures Valid() && St() == Effect(old(St()), Unveil(s, offset, size))
      ensures ok <==> old(windows[s].size) == 0 && size > 0 && PartOf(parts, s) < |parts|
                      && forall b: nat :: offset <= b < offset + size ==> HasByte(parts[PartOf(parts, s)], b)
      ensures ok ==> forall b: nat :: Visible(windows[s], b) <==> offset <= b < offset + size
      ensures !ok ==> windows == old(windows)
      ensures forall u: nat :: u < K.MAX_SHARDS && u != s ==> windows[u] == old(windows)[u]
    {
      if size > 0 && PartOf(parts, s) < |parts| {
        ghost var part := parts[PartOf(parts, s)];
        assert HasByte(part, offset + size - 1) <==> offset + size <= part.size;
      }
      EffectIsValid(St(), Unveil(s, offset, size));
      if windows[s].size != 0 { return false; }
      if size == 0 { return false; }
      var i := FindPartition(s);
      var partSize := if i < |parts| then parts[i].size else 0;
      if partSize == 0 { return false; }
      if offset + size > U64_MAX || offset + size > partSize { return false; }
      windows := windows[s := Window(offset, size)];
      return true;
    }

    /** `unveil_allows`: a range is allowed exactly if every byte of it is visible. */
    method UnveilAllows(s: nat, offset: nat, len: nat) returns (ok: bool)
      requires Valid() && s < K.MAX_SHARDS
      ensures len > 0 ==> (ok <==> forall b: nat :: offset <= b < offset + len ==> Visible(windows[s], b))
    {
      if len > 0 { InsideIsVisible(windows[s], offset, len); }
      WindowFits(St(), s);
      if windows[s].size == 0 { return true; }
      if offset + len > U64_MAX { return false; }
      return offset >= windows[s].offset && offset + len <= windows[s].offset + windows[s].size;
    }

    /** `copy_nonoverlapping`. */
    method CopyBytes(src: nat, dst: nat, len: nat)
      requires src + len <= vram.Length && dst + len <= vram.Length && (src + len <= dst || dst + len <= src)
      modifies vram
      ensures vram[..] == Blit(old(vram[..]), src, dst, len)
      ensures forall a: nat :: a < vram.Length ==> vram[a] == if dst <= a < dst + len then old(vram[src + (a - dst)]) else old(vram[a])
    {
      ghost var v := vram[..];
      for i := 0 to len
        invariant forall j: nat :: dst <= j < dst + i ==> vram[j] == v[src + (j - dst)]
        invariant forall j: nat :: j < vram.Length && !(dst <= j < dst + i) ==> vram[j] == v[j]
      {
        vram[dst + i] := vram[src + i];
      }
    }

    /** The checks of `handle_dma` and of the dispatcher in front of it. */
    method CheckDma(s: nat, target: nat, src: nat, dst: nat, len: nat, caps: seq<K.Cap>, pledge: bv64) returns (ok: bool)
      requires Valid() && s < K.MAX_SHARDS
      ensures ok == (K.PledgeAllows(pledge, SYS_GPU_DMA) && CopyAccepted(St(), s, Copy(target, src, dst, len), caps))
    {
      hide K.PledgeAllows, K.Holds, Consistent, PartOf;
      CheckFacts(St());
      if !K.PledgeAllows(pledge, SYS_GPU_DMA) { return false; }
      if len == 0 || target >= |parts| { return false; }
      var from := FindPartition(s);
      if from == |parts| || from == target { return false; }
      if !K.Holds(caps, K.CAP_GPU_DMA, target, RIGHT_DMA_WRITE) { return false; }
      if src + len > U64_MAX || src + len > parts[from].size { return false; }
      if dst + len > U64_MAX || dst + len > parts[target].size { return false; }
      InsideIsVisible(windows[s], src, len);
      var allowed := UnveilAllows(s, src, len);
      if !allowed { return false; }
      if parts[target].owner.Some? {
        InsideIsVisible(windows[parts[target].owner.value], dst, len);
        allowed := UnveilAllows(parts[target].owner.value, dst, len);
        if !allowed { return false; }
      }
      return mapped;
    }

    /** `handle_dma`, behind the pledge check of the dispatcher. The caller packs the destination into the upper
        and the length into the lower half of one word. The `len` bytes at `src` of its partition arrive at `dst`
        of the target partition, and no other byte changes. */
    method HandleDma(s: nat, target: nat, src: nat, packed: nat, ghost dst: nat, ghost len: nat, caps: seq<K.Cap>, pledge: bv64)
      returns (ok: bool)
      requires Valid() && s < K.MAX_SHARDS && src <= U64_MAX
      requires dst < 0x1_0000_0000 && len < 0x1_0000_0000 && packed == dst * 0x1_0000_0000 + len
      modifies vram
      ensures Valid() && St() == Effect(old(St()), Dma(s, Copy(target, src, dst, len), caps, pledge))
      ensures ok <==> K.PledgeAllows(pledge, SYS_GPU_DMA) && MayCopy(old(St()), s, target, src, dst, len, caps)
      ensures !ok ==> vram[..] == old(vram[..])
      ensures ok ==>
                var from, to := parts[PartOf(parts, s)].offset + src, parts[target].offset + dst;
                && from + len <= vram.Length && to + len <= vram.Length
                && forall a: nat :: a < vram.Length ==>
                     vram[a] == if to <= a < to + len then old(vram[from + (a - to)]) else old(vram[a])
    {
      hide K.PledgeAllows, K.Holds, Consistent, PartOf, CopyAccepted, Blit, MayCopy;
      ghost var st, e := St(), Dma(s, Copy(target, src, dst, len), caps, pledge);
      EffectIsValid(st, e);
      Sizes(st);
      AcceptedBytewise(st, s, e.copy, caps);
      var dst', len' := packed / 0x1_0000_0000, packed % 0x1_0000_0000;
      ok := CheckDma(s, target, src, dst', len', caps, pledge);
      if !ok { return; }
      var from := FindPartition(s);
      AcceptedFacts(st, s, e.copy, caps);
      NoOverlap(st, s, e.copy, caps);
      CopyBytes(parts[from].offset + src, parts[target].offset + dst', len');
    }
  }

  lemma AssignKeepsPartOf(parts: seq<Partition>, parts': seq<Partition>, i: nat, s: nat)
    requires i < |parts| && parts[i].owner.None? && parts' == parts[i := parts[i].(owner := Some(s))]
    ensures forall u: nat :: u != s ==> PartOf(parts', u) == PartOf(parts, u)
  {
    forall u: nat | u != s ensures PartOf(parts', u) == PartOf(parts, u) {
      var a, b := PartOf(parts, u), PartOf(parts', u);
      assert a < |parts| ==> parts'[a].owner == Some(u);
      assert b < |parts| ==> parts[b].owner == Some(u);
    }
  }
}
