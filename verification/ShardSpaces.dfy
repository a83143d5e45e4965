/** What the address spaces of shards must look like, how they may change, and what buffer validation
    may rely on. */
module ShardSpaces {
  import opened Bytes
  import opened PageTables
  import opened Spaces

  const CODE: nat := 0x1000
  const STACK: nat := 0x7F_F000
  const STACK_TOP: nat := 0x80_0000

  // ------------------------------------------------------------------ syscall buffer validation

  /** `ptr + len` as the validators compute it: a 64-bit sum that must not wrap. */
  predicate NoWrap(ptr: nat, len: nat) {
    0 < len <= 4096 && ptr + len < 0x1_0000_0000_0000_0000
  }

  predicate ReadAccepted(sp: Space, ptr: nat, len: nat) {
    && NoWrap(ptr, len)
    && (|| (CODE <= ptr && ptr + len <= sp.imageEnd)
        || (sp.dataStart != 0 && sp.dataStart <= ptr && ptr + len <= sp.dataEnd)
        || (STACK <= ptr && ptr + len <= STACK_TOP))
  }

  predicate WriteAccepted(sp: Space, ptr: nat, len: nat) {
    && NoWrap(ptr, len)
    && (|| (sp.imageDataStart != 0 && sp.imageDataStart <= ptr && ptr + len <= sp.imageDataEnd)
        || (sp.dataStart != 0 && sp.dataStart <= ptr && ptr + len <= sp.dataEnd)
        || (STACK <= ptr && ptr + len <= STACK_TOP))
  }

  /** The regions of a shard, address by address: its image, the writable part of it, the memory it has
      asked for, and its stack. */
  predicate InImage(sp: Space, a: nat) {
    CODE <= a < sp.imageEnd
  }

  predicate InImageData(sp: Space, a: nat) {
    sp.imageDataStart != 0 && sp.imageDataStart <= a < sp.imageDataEnd
  }

  predicate InData(sp: Space, a: nat) {
    sp.dataStart != 0 && sp.dataStart <= a < sp.dataEnd
  }

  predicate InStack(a: nat) {
    STACK <= a < STACK_TOP
  }

  /** Which buffers must be accepted, and no others: one to 4096 bytes, all of them in one region. */
  ghost predicate ReadableBuffer(sp: Space, ptr: nat, len: nat) {
    && 0 < len <= 4096
    && (|| (forall a: nat :: ptr <= a < ptr + len ==> InImage(sp, a))
        || (forall a: nat :: ptr <= a < ptr + len ==> InData(sp, a))
        || (forall a: nat :: ptr <= a < ptr + len ==> InStack(a)))
  }

  ghost predicate WritableBuffer(sp: Space, ptr: nat, len: nat) {
    && 0 < len <= 4096
    && (|| (forall a: nat :: ptr <= a < ptr + len ==> InImageData(sp, a))
        || (forall a: nat :: ptr <= a < ptr + len ==> InData(sp, a))
        || (forall a: nat :: ptr <= a < ptr + len ==> InStack(a)))
  }

  /** No region reaches the end of the address space, so that the 64-bit sum of a buffer inside it does
      not wrap. */
  predicate Bounded(sp: Space) {
    && sp.imageEnd <= STACK_TOP && (sp.imageDataStart != 0 ==> sp.imageDataEnd <= STACK_TOP)
    && (sp.dataStart != 0 ==> sp.dataEnd <= STACK_TOP)
  }

  /** The validators accept exactly these. */
  lemma ValidatorsAreExact(sp: Space, ptr: nat, len: nat)
    requires Bounded(sp)
    ensures ReadAccepted(sp, ptr, len) <==> ReadableBuffer(sp, ptr, len)
    ensures WriteAccepted(sp, ptr, len) <==> WritableBuffer(sp, ptr, len)
  {
    if len > 0 {
      var b := ptr + len - 1;
      if ReadableBuffer(sp, ptr, len) {
        assert (InImage(sp, ptr) && InImage(sp, b)) || (InData(sp, ptr) && InData(sp, b)) || (InStack(ptr) && InStack(b));
      }
      if WritableBuffer(sp, ptr, len) {
        assert (InImageData(sp, ptr) && InImageData(sp, b)) || (InData(sp, ptr) && InData(sp, b)) || (InStack(ptr) && InStack(b));
      }
    }
  }

  /** Page `v` of shard `s` is present, user-accessible and, if asked, writable. */
  ghost predicate UserPage(m: Mem, s: nat, v: nat, write: bool)
    requires s < |m.spaces|
  {
    var e := Page(m, s, v);
    e.Entry? && e.flags.user && (write ==> e.flags.writable)
  }

  /** Every page that starts in [lo, hi) is such a page. */
  ghost predicate UserRange(m: Mem, s: nat, lo: nat, hi: nat, write: bool)
    requires s < |m.spaces|
  {
    forall v: nat :: lo <= v * 0x1000 < hi ==> UserPage(m, s, v, write)
  }

  /** What buffer validation relies on: each accepted region is page-aligned and mapped throughout. */
  ghost predicate Built(m: Mem, s: nat)
    requires s < |m.spaces|
  {
    var sp := m.spaces[s];
    && CODE <= sp.imageEnd <= STACK && sp.imageEnd % 0x1000 == 0
    && UserRange(m, s, CODE, sp.imageEnd, false)
    && (sp.imageDataStart != 0 ==>
          sp.imageDataStart % 0x1000 == 0 && sp.imageDataEnd <= sp.imageEnd
          && UserRange(m, s, sp.imageDataStart, sp.imageDataEnd, true))
    && (sp.dataStart != 0 ==>
          sp.dataStart % 0x1000 == 0 && sp.dataEnd % 0x1000 == 0 && sp.imageEnd <= sp.dataStart < sp.dataEnd <= STACK
          && UserRange(m, s, sp.dataStart, sp.dataEnd, true))
    && UserRange(m, s, STACK, STACK_TOP, true)
    && Unmapped(m, s, sp.kernelStack)
  }

  /** A memory frame of shard `s` that may not be mapped anywhere. */
  ghost predicate Unmapped(m: Mem, s: nat, f: nat) {
    f in m.roles && m.roles[f].MemoryOf? && m.roles[f].space == s && m.roles[f].at == []
  }

  /** Shards that may run or have run have complete address spaces. */
  ghost predicate Complete(m: Mem, s: nat)
    requires s < |m.spaces|
  {
    m.spaces[s].life.Live? || m.spaces[s].life.Exited? ==> Present(m.spaces[s]) && Built(m, s)
  }

  ghost predicate Good(m: Mem) {
    && Sound(m)
    && (forall s: nat :: s < MAX_SHARDS ==> Complete(m, s))
    && (forall s: nat :: s < MAX_SHARDS && m.spaces[s].life in {Free, Destroyed} ==> !Present(m.spaces[s]))
    && (forall s: nat :: s < MAX_SHARDS && m.spaces[s].life.Free? ==> m.spaces[s].imageDataStart == m.spaces[s].dataStart == 0)
  }

  /** An accepted buffer lies wholly on pages of the shard with the right permission. */
  lemma AcceptedBufferIsMapped(m: Mem, s: nat, ptr: nat, len: nat, a: nat)
    requires Good(m) && s < MAX_SHARDS && m.spaces[s].life.Live? && ptr <= a < ptr + len
    ensures ReadAccepted(m.spaces[s], ptr, len) ==> UserPage(m, s, a / 0x1000, false)
    ensures WriteAccepted(m.spaces[s], ptr, len) ==> UserPage(m, s, a / 0x1000, true)
  {
    assert Complete(m, s);
    var sp := m.spaces[s];
    if CODE <= a < sp.imageEnd { RangePage(m, s, CODE, sp.imageEnd, false, a); }
    if STACK <= a < STACK_TOP { RangePage(m, s, STACK, STACK_TOP, true, a); }
    if sp.dataStart != 0 && sp.dataStart <= a < sp.dataEnd { RangePage(m, s, sp.dataStart, sp.dataEnd, true, a); }
    if sp.imageDataStart != 0 && sp.imageDataStart <= a < sp.imageDataEnd {
      RangePage(m, s, sp.imageDataStart, sp.imageDataEnd, true, a);
    }
  }

  lemma RangePage(m: Mem, s: nat, lo: nat, hi: nat, write: bool, a: nat)
    requires s < |m.spaces| && UserRange(m, s, lo, hi, write) && lo % 0x1000 == 0 && lo <= a < hi
    ensures UserPage(m, s, a / 0x1000, write) && UserPage(m, s, a / 0x1000, false)
  {
    var v := a / 0x1000;
    assert lo <= v * 0x1000 < hi;
  }

  // ------------------------------------------------------------------ isolation

  /** A translation of shard `s` leads to device memory or to a memory frame of that shard: never to a
      page table, to memory of another shard, or to a kernel stack. */
  lemma MappedFramesAreOwn(m: Mem, s: nat, v: nat, u: nat, f: nat)
    requires Sound(m) && s < MAX_SHARDS && Present(m.spaces[s]) && Lower(v) && Page(m, s, v).Entry? && Page(m, s, v).frame == f
    ensures f in m.devices ==> f !in m.roles
    ensures f !in m.devices ==> f in m.roles && m.roles[f].MemoryOf? && m.roles[f].space == s
    ensures !Unmapped(m, u, f)
  {
    PageIsProper(m, s, v);
  }

  /** A frame of RAM appears in at most one translation of the whole machine. */
  lemma OneMapping(m: Mem, s: nat, v: nat, u: nat, w: nat)
    requires Sound(m) && s < MAX_SHARDS && u < MAX_SHARDS && Present(m.spaces[s]) && Present(m.spaces[u]) && Lower(v) && Lower(w)
    requires Page(m, s, v).Entry? && Page(m, u, w).Entry? && Page(m, s, v).frame == Page(m, u, w).frame
    requires Page(m, s, v).frame !in m.devices
    ensures s == u && v == w
  {
    hide Sound, Page;
    PageIsProper(m, s, v);
    PageIsProper(m, u, w);
    IndicesAreInjective(v, w);
  }

  /** The upper half of every shard's root table is the supervisor's, entry for entry. */
  lemma SupervisorHalf(m: Mem, s: nat, i: nat)
    requires Sound(m) && s < MAX_SHARDS && Present(m.spaces[s]) && i < 256
    ensures m.spaces[s].pml4 in m.tables && |m.upper| == 256 && m.tables[m.spaces[s].pml4][256 + i] == m.upper[i]
  {
    RootFacts(m, s);
    assert Guarded(m, m.spaces[s].pml4);
  }

  lemma PageIsProper(m: Mem, s: nat, v: nat)
    requires Sound(m) && s < MAX_SHARDS && Present(m.spaces[s]) && Lower(v)
    ensures Proper(m.roles, m.devices, s, Indices(v), Page(m, s, v))
  {
    var p := Indices(v);
    LowerIndices(v);
    LeafFollowsRoles(m.tables, m.roles, Roots(m.spaces), s, p);
    if f: nat :| IsTable(m.roles, f, s, p[..3]) {
      assert Guarded(m, f) && p[..3] + [p[3]] == p;
    }
  }

  // ------------------------------------------------------------------ how spaces change

  /** Mappings of present shards only appear. */
  ghost predicate Extends(m: Mem, m': Mem) {
    && |m.spaces| == |m'.spaces| == MAX_SHARDS
    && forall u: nat, w: nat :: u < MAX_SHARDS && Present(m.spaces[u]) && Lower(w) && Page(m, u, w).Entry? ==>
         Page(m', u, w) == Page(m, u, w)
  }

  /** No page changed outside [lo, hi) of shard `s`. */
  ghost predicate OnlyRange(m: Mem, m': Mem, s: nat, lo: nat, hi: nat) {
    && |m.spaces| == |m'.spaces|
    && forall u: nat, w: nat :: u < |m.spaces| && Present(m.spaces[u]) && Lower(w) && !(u == s && lo <= w < hi) ==>
         Page(m', u, w) == Page(m, u, w)
  }

  /** Only shard `s` gained frames: roles, contents and the other descriptors are kept. */
  ghost predicate Grown(m: Mem, m': Mem, s: nat) {
    && |m.spaces| == |m'.spaces| == MAX_SHARDS && s < MAX_SHARDS && m'.devices == m.devices
    && (forall u: nat :: u < MAX_SHARDS && u != s ==> m'.spaces[u] == m.spaces[u])
    && (Present(m.spaces[s]) ==> m'.spaces[s].pml4 == m.spaces[s].pml4) && m.spaces[s].frames <= m'.spaces[s].frames
    && (forall f :: f in m.roles ==> f in m'.roles && m'.roles[f] == m.roles[f])
    && (forall f :: f in m'.roles && f !in m.roles ==> m'.roles[f].space == s)
    && (forall f :: f in m.roles && m.roles[f].MemoryOf? && f in m.data ==> f in m'.data && m'.data[f] == m.data[f])
  }

  /** Page `v` of shard `s` is mapped with exactly these flags to a frame of the shard with exactly
      these contents. */
  ghost predicate Holds(m: Mem, s: nat, v: nat, flags: Flags, bytes: seq<byte>)
    requires s < |m.spaces|
  {
    var e := Page(m, s, v);
    && e.Entry? && e.flags == flags
    && e.frame in m.roles && m.roles[e.frame].MemoryOf? && m.roles[e.frame].space == s
    && e.frame in m.data && m.data[e.frame] == bytes
  }

  /** Byte `b` of page `j` of a file image; zero past its end. */
  function Chunk(file: seq<byte>, j: nat): (c: seq<byte>)
    ensures |c| == PAGE
  {
    seq(PAGE, b requires 0 <= b => if j * PAGE + b < |file| then file[j * PAGE + b] else 0)
  }

  /** Page `v` holds its part of a file image whose first page is `v0`. */
  ghost predicate HoldsFile(m: Mem, s: nat, v: nat, flags: Flags, file: seq<byte>, v0: nat)
    requires s < |m.spaces|
  {
    v0 <= v && Holds(m, s, v, flags, Chunk(file, v - v0))
  }

  /** Roles were only added, and only for tables of `s`. */
  ghost predicate OnlyTables(r: Roles, r': Roles, s: nat) {
    && (forall f :: f in r ==> f in r' && r'[f] == r[f])
    && (forall f :: f in r' && f !in r ==> r'[f].TableOf? && r'[f].space == s)
  }

  /** Frame `f` may be mapped at page `v` of shard `s`: device memory, or the shard's frame for it. */
  ghost predicate MayMap(m: Mem, s: nat, v: nat, f: nat) {
    f in m.devices
    || (f in m.roles && m.roles[f].MemoryOf? && m.roles[f].space == s && m.roles[f].at == Indices(v))
  }

  lemma StillMayMap(m: Mem, m': Mem, s: nat, v: nat, e: Pte)
    requires OnlyTables(m.roles, m'.roles, s) && m'.devices == m.devices
    requires e.Entry? && MayMap(m, s, v, e.frame) && (!e.flags.writable || e.flags.noExecute)
    ensures Proper(m'.roles, m'.devices, s, Indices(v), e)
  {}

  /** Some page of [lo, hi) of shard `s` is mapped. */
  ghost predicate SomeMapped(m: Mem, s: nat, lo: nat, hi: nat)
    requires s < |m.spaces|
  {
    exists v: nat :: lo <= v < hi && Page(m, s, v).Entry?
  }

  /** Nothing is mapped from page `lo` of shard `s` on. */
  ghost predicate AbsentFrom(m: Mem, s: nat, lo: nat)
    requires s < |m.spaces|
  {
    forall v: nat :: lo <= v && Lower(v) ==> Page(m, s, v) == Absent
  }

  lemma AbsentIsNotMapped(m: Mem, s: nat, lo: nat, hi: nat)
    requires s < |m.spaces| && AbsentFrom(m, s, lo) && Lower(hi)
    ensures !SomeMapped(m, s, lo, hi)
  {}

  lemma AbsentAbove(m: Mem, m': Mem, s: nat, lo: nat, hi: nat)
    requires OnlyRange(m, m', s, lo, hi) && s < |m.spaces| && Present(m.spaces[s]) && AbsentFrom(m, s, lo) && lo <= hi
    ensures AbsentFrom(m', s, hi)
  {}

  lemma AbsentHigher(m: Mem, s: nat, lo: nat, hi: nat)
    requires s < |m.spaces| && AbsentFrom(m, s, lo) && lo <= hi
    ensures AbsentFrom(m, s, hi)
  {}

  lemma AbsentStays(m: Mem, m': Mem, s: nat, lo: nat)
    requires SamePages(m, m') && s < |m.spaces| && Present(m.spaces[s]) && AbsentFrom(m, s, lo)
    ensures AbsentFrom(m', s, lo)
  {}

  /** The pages of [lo, hi) of shard `s` are as they were. */
  ghost predicate SameFrom(m: Mem, m': Mem, s: nat, lo: nat, hi: nat) {
    && |m.spaces| == |m'.spaces| && s < |m.spaces|
    && forall v: nat :: lo <= v < hi ==> Page(m', s, v) == Page(m, s, v)
  }

  lemma SameFromFacts(m: Mem, m1: Mem, s: nat, v: nat, hi: nat)
    requires SameFrom(m, m1, s, v, hi) && v < hi
    ensures Page(m1, s, v).Entry? ==> forall lo: nat :: lo <= v ==> SomeMapped(m, s, lo, hi)
  {
    assert Page(m1, s, v) == Page(m, s, v);
  }

  lemma TailStays(m: Mem, m1: Mem, m2: Mem, s: nat, v: nat, hi: nat)
    requires SameFrom(m, m1, s, v, hi) && v < hi && Lower(hi) && OnlyRange(m1, m2, s, v, v + 1) && Present(m1.spaces[s])
    ensures SameFrom(m, m2, s, v + 1, hi)
  {}

  lemma SamePage(m: Mem, m': Mem, s: nat, v: nat)
    requires SamePages(m, m') && s < |m.spaces| && Present(m.spaces[s]) && Lower(v)
    ensures Page(m', s, v) == Page(m, s, v)
  {}

  lemma NothingChanged(m: Mem, s: nat)
    requires |m.spaces| == MAX_SHARDS && s < MAX_SHARDS
    ensures Grown(m, m, s) && Extends(m, m) && SamePages(m, m)
    ensures forall lo, hi :: OnlyRange(m, m, s, lo, hi) && SameFrom(m, m, s, lo, hi)
  {}

  lemma MapPageEffect(m: Mem, m1: Mem, m2: Mem, s: nat, v: nat, f: nat, at: seq<nat>, flags: Flags, bytes: seq<byte>)
    requires |m.spaces| == MAX_SHARDS && s < MAX_SHARDS && Present(m.spaces[s]) && Lower(v)
    requires f !in m.roles && m1 == Added(m, s, f, at, bytes) && SamePages(m, m1)
    requires m2.spaces == m1.spaces && m2.data == m1.data && m2.devices == m1.devices && OnlyTables(m1.roles, m2.roles, s)
    requires OnlyPage(m1, m2, s, v) && Page(m2, s, v) == Entry(f, flags) && Page(m1, s, v) == Absent
    ensures Page(m, s, v) == Absent && OnlyRange(m, m2, s, v, v + 1) && Extends(m, m2)
    ensures Holds(m2, s, v, flags, bytes) && Grown(m, m2, s)
  {}

  lemma GrowthComposes(m: Mem, m1: Mem, m2: Mem, s: nat)
    requires Grown(m, m1, s) && Grown(m1, m2, s) && Extends(m, m1) && Extends(m1, m2)
    ensures Grown(m, m2, s) && Extends(m, m2) && (Present(m.spaces[s]) ==> Present(m2.spaces[s]))
  {}

  lemma ExitedIsGrown(m: Mem, m1: Mem, m2: Mem, s: nat)
    requires Grown(m, m1, s) && s < |m1.spaces|
    requires m2 == m1.(spaces := m1.spaces[s := m1.spaces[s].(life := Exited)])
    ensures Grown(m, m2, s)
  {}

  lemma GrownSize(m: Mem, m': Mem, s: nat)
    requires Grown(m, m', s)
    ensures |m.spaces| == |m'.spaces| == MAX_SHARDS && s < MAX_SHARDS && (Present(m.spaces[s]) ==> Present(m'.spaces[s]))
  {}

  lemma GoodFacts(m: Mem)
    requires Good(m)
    ensures |m.spaces| == MAX_SHARDS
    ensures forall s: nat :: s < MAX_SHARDS && m.spaces[s].life.Free? ==>
              !Present(m.spaces[s]) && m.spaces[s].imageDataStart == m.spaces[s].dataStart == 0
  {}

  lemma BuiltFacts(m: Mem, s: nat)
    requires Good(m) && s < MAX_SHARDS && m.spaces[s].life.Live?
    ensures Present(m.spaces[s]) && Built(m, s)
    ensures CODE <= m.spaces[s].imageEnd
    ensures m.spaces[s].dataStart != 0 ==> m.spaces[s].imageEnd <= m.spaces[s].dataStart < m.spaces[s].dataEnd
    ensures Bounded(m.spaces[s])
  {
    assert Complete(m, s);
  }

  lemma ExitIsGood(m: Mem, m': Mem, s: nat)
    requires Good(m) && Sound(m') && s < MAX_SHARDS && m.spaces[s].life.Live?
    requires m' == m.(spaces := m.spaces[s := m.spaces[s].(life := Exited)])
    ensures Good(m')
  {
    hide Forest;
    forall u: nat | u < MAX_SHARDS ensures Complete(m', u) {
      assert Complete(m, u);
      forall v: nat, w: bool | UserPage(m, u, v, w) ensures UserPage(m', u, v, w) {}
    }
  }

  lemma RangeThenSame(m: Mem, m1: Mem, m2: Mem, s: nat, lo: nat, hi: nat)
    requires OnlyRange(m, m1, s, lo, hi) && SamePages(m1, m2) && Grown(m, m1, s)
    ensures OnlyRange(m, m2, s, lo, hi)
  {}

  lemma HoldsFileStays(m: Mem, m': Mem, s: nat, v: nat, flags: Flags, file: seq<byte>, v0: nat)
    requires Grown(m, m', s) && Extends(m, m') && Present(m.spaces[s]) && Lower(v) && HoldsFile(m, s, v, flags, file, v0)
    ensures HoldsFile(m', s, v, flags, file, v0)
  {
    HoldsStays(m, m', s, v, flags, Chunk(file, v - v0));
  }

  const DEVICE_FLAGS := Flags(true, true, true, true)

  lemma SameTables(r: Roles, s: nat)
    ensures OnlyTables(r, r, s)
  {}

  /** One more page of device memory. */
  lemma DevicePage(m: Mem, m1: Mem, m2: Mem, s: nat, lo: nat, hi: nat, v: nat)
    requires Grown(m, m1, s) && Extends(m, m1) && OnlyRange(m, m1, s, lo, hi) && lo <= v < hi && Lower(hi) && Present(m.spaces[s])
    requires OnlyTables(m.roles, m1.roles, s) && OnlyTables(m1.roles, m2.roles, s)
    requires m2.spaces == m1.spaces && m2.data == m1.data && m2.devices == m1.devices
    requires OnlyPage(m1, m2, s, v) && Page(m1, s, v) == Absent
    ensures Grown(m, m2, s) && Extends(m, m2) && OnlyRange(m, m2, s, lo, hi) && OnlyTables(m.roles, m2.roles, s)
    ensures forall w: nat :: Lower(w) && w != v ==> Page(m2, s, w) == Page(m1, s, w)
  {}

  lemma DeviceTail(m: Mem, m1: Mem, m2: Mem, s: nat, v: nat, hi: nat)
    requires SameFrom(m, m1, s, v, hi) && v < hi && Lower(hi) && OnlyPage(m1, m2, s, v) && Present(m1.spaces[s])
    ensures SameFrom(m, m2, s, v + 1, hi)
  {}

  lemma RangesCompose(m: Mem, m1: Mem, m2: Mem, s: nat, lo: nat, hi: nat, v: nat)
    requires OnlyRange(m, m1, s, lo, hi) && OnlyRange(m1, m2, s, v, v + 1) && lo <= v < hi && Grown(m, m1, s)
    ensures OnlyRange(m, m2, s, lo, hi)
  {}

  lemma ExtendsKeepsBuilt(m: Mem, m': Mem, s: nat, x: nat)
    requires Extends(m, m') && Grown(m, m', x) && s < MAX_SHARDS && Present(m.spaces[s]) && Built(m, s)
    requires m'.spaces[s] == m.spaces[s].(frames := m'.spaces[s].frames)
    ensures Built(m', s)
  {
    forall v: nat, w: bool | v < 0x800 && UserPage(m, s, v, w) ensures UserPage(m', s, v, w) {}
  }

  /** Growth of shard `s` leaves every other shard as usable as it was. */
  lemma GrowthIsGood(m: Mem, m': Mem, s: nat)
    requires Good(m) && Sound(m') && Grown(m, m', s) && Extends(m, m')
    requires m'.spaces[s].life.Live? && Present(m'.spaces[s]) && Built(m', s)
    ensures Good(m')
  {
    hide Sound, Built, Extends;
    forall u: nat | u < MAX_SHARDS ensures Complete(m', u) {
      assert Complete(m, u);
      if u != s && (m.spaces[u].life.Live? || m.spaces[u].life.Exited?) { ExtendsKeepsBuilt(m, m', u, s); }
    }
  }

  lemma HoldsStays(m: Mem, m': Mem, s: nat, v: nat, flags: Flags, bytes: seq<byte>)
    requires Grown(m, m', s) && Extends(m, m') && Present(m.spaces[s]) && Lower(v) && Holds(m, s, v, flags, bytes)
    ensures Holds(m', s, v, flags, bytes)
  {}

  lemma PagesCompose(m: Mem, m1: Mem, m2: Mem, m3: Mem, s: nat)
    requires SamePages(m, m1) && SamePages(m1, m2) && SamePages(m2, m3)
    requires OnlyTables(m.roles, m1.roles, s) && OnlyTables(m1.roles, m2.roles, s) && OnlyTables(m2.roles, m3.roles, s)
    requires m.spaces == m1.spaces == m2.spaces == m3.spaces
    ensures SamePages(m, m3) && OnlyTables(m.roles, m3.roles, s)
  {}

  lemma PageThenOnly(m: Mem, m1: Mem, m2: Mem, s: nat, v: nat)
    requires SamePages(m, m1) && OnlyPage(m1, m2, s, v) && m.spaces == m1.spaces
    requires s < |m.spaces| && Present(m.spaces[s]) && Lower(v)
    ensures OnlyPage(m, m2, s, v) && Page(m1, s, v) == Page(m, s, v)
  {}

  // ------------------------------------------------------------------ mmap

  const DATA_FLAGS := Flags(true, true, true, false)

  /** Requests `handle_sys_mmap` acts on. Its separate test for overlap never decides: a range that
      abuts the data region does not overlap it. */
  predicate MmapAccepted(sp: Space, start: nat, n: nat) {
    && start % 0x1000 == 0 && 1 <= n <= 256
    && sp.imageEnd <= start && start + n * 0x1000 <= STACK
    && (sp.dataStart != 0 ==> start + n * 0x1000 == sp.dataStart || start == sp.dataEnd)
    && |sp.frames| + n <= MAX_SHARD_FRAMES
  }

  /** The descriptor after a successful request. */
  function MmapDone(sp: Space, start: nat, n: nat): Space {
    if sp.dataStart == 0 then sp.(dataStart := start, dataEnd := start + n * 0x1000)
    else
      var lo := if start < sp.dataStart then start else sp.dataStart;
      var hi := if start + n * 0x1000 > sp.dataEnd then start + n * 0x1000 else sp.dataEnd;
      sp.(dataStart := lo, dataEnd := hi)
  }

  /** The request is for whole pages between image and stack that are no data yet, and together with the
      data there already they make one stretch without a gap. */
  ghost predicate Extension(sp: Space, start: nat, n: nat) {
    && start % 0x1000 == 0 && 1 <= n <= 256 && |sp.frames| + n <= MAX_SHARD_FRAMES
    && (forall a: nat :: Requested(start, n, a) ==> !InImage(sp, a) && CODE <= a < STACK && !InData(sp, a))
    && (forall a: nat, b: nat, c: nat ::
          a <= b <= c && Grows(sp, start, n, a) && Grows(sp, start, n, c) ==> Grows(sp, start, n, b))
  }

  predicate Requested(start: nat, n: nat, a: nat) {
    start <= a < start + n * 0x1000
  }

  predicate Grows(sp: Space, start: nat, n: nat, a: nat) {
    InData(sp, a) || Requested(start, n, a)
  }

  /** `handle_sys_mmap` acts on exactly these. */
  lemma MmapIsExact(sp: Space, start: nat, n: nat)
    requires CODE <= sp.imageEnd && (sp.dataStart != 0 ==> sp.imageEnd <= sp.dataStart < sp.dataEnd)
    ensures MmapAccepted(sp, start, n) <==> Extension(sp, start, n)
  {
    if Extension(sp, start, n) {
      var end := start + n * 0x1000;
      assert Requested(start, n, start) && Requested(start, n, end - 1);
      if sp.dataStart != 0 {
        var lo, hi := sp.dataStart, sp.dataEnd;
        assert Grows(sp, start, n, lo) && Grows(sp, start, n, hi - 1) && Grows(sp, start, n, start) && Grows(sp, start, n, end - 1);
        assert end < lo ==> !Grows(sp, start, n, end);
        assert hi < start ==> !Grows(sp, start, n, hi);
        assert !Requested(start, n, lo) && !InData(sp, start);
      }
    }
  }

  /** After a successful request the data region is the old one and the requested range, address for
      address, and nothing else of the descriptor has changed. */
  lemma MmapRecords(sp: Space, start: nat, n: nat, a: nat)
    requires MmapAccepted(sp, start, n) && CODE <= sp.imageEnd && (sp.dataStart != 0 ==> sp.dataStart <= sp.dataEnd)
    ensures InData(MmapDone(sp, start, n), a) <==> InData(sp, a) || Requested(start, n, a)
    ensures MmapDone(sp, start, n) == sp.(dataStart := MmapDone(sp, start, n).dataStart, dataEnd := MmapDone(sp, start, n).dataEnd)
  {}

  /** So every buffer inside the requested range is accepted from now on, for reading and for writing, and
      every buffer accepted before still is. */
  lemma MmapIsUsable(sp: Space, sp': Space, start: nat, n: nat, ptr: nat, len: nat)
    requires sp.imageEnd == sp'.imageEnd && sp.imageDataStart == sp'.imageDataStart && sp.imageDataEnd == sp'.imageDataEnd
    requires Bounded(sp) && Bounded(sp')
    requires forall a: nat :: InData(sp', a) <==> InData(sp, a) || Requested(start, n, a)
    ensures 0 < len <= 4096 && start <= ptr && ptr + len <= start + n * 0x1000 ==>
              ReadAccepted(sp', ptr, len) && WriteAccepted(sp', ptr, len)
    ensures ReadAccepted(sp, ptr, len) ==> ReadAccepted(sp', ptr, len)
    ensures WriteAccepted(sp, ptr, len) ==> WriteAccepted(sp', ptr, len)
  {
    hide ReadAccepted, WriteAccepted, Bounded;
    ValidatorsAreExact(sp, ptr, len);
    ValidatorsAreExact(sp', ptr, len);
    assert forall a: nat :: InImage(sp', a) == InImage(sp, a) && InImageData(sp', a) == InImageData(sp, a);
    assert start <= ptr && ptr + len <= start + n * 0x1000 ==> forall a: nat :: ptr <= a < ptr + len ==> InData(sp', a) by {
      forall a: nat | start <= ptr && ptr + len <= start + n * 0x1000 && ptr <= a < ptr + len ensures InData(sp', a) {
        assert Requested(start, n, a);
      }
    }
  }

  /** All of it at once: `sp'` is the descriptor after a successful request. */
  lemma MmapEffect(sp: Space, sp': Space, start: nat, n: nat)
    requires MmapAccepted(sp, start, n) && sp' == MmapDone(sp, start, n).(frames := sp'.frames)
    requires CODE <= sp.imageEnd && Bounded(sp) && (sp.dataStart != 0 ==> sp.dataStart < sp.dataEnd)
    ensures forall a: nat :: InData(sp', a) <==> InData(sp, a) || Requested(start, n, a)
    ensures forall ptr: nat, len: nat :: 0 < len <= 4096 && start <= ptr && ptr + len <= start + n * 0x1000 ==>
              ReadAccepted(sp', ptr, len) && WriteAccepted(sp', ptr, len)
    ensures forall ptr: nat, len: nat :: ReadAccepted(sp, ptr, len) ==> ReadAccepted(sp', ptr, len)
    ensures forall ptr: nat, len: nat :: WriteAccepted(sp, ptr, len) ==> WriteAccepted(sp', ptr, len)
  {
    forall a: nat ensures InData(sp', a) <==> InData(sp, a) || Requested(start, n, a) { MmapRecords(sp, start, n, a); }
    hide ReadAccepted, WriteAccepted;
    forall ptr: nat, len: nat
      ensures 0 < len <= 4096 && start <= ptr && ptr + len <= start + n * 0x1000 ==> ReadAccepted(sp', ptr, len) && WriteAccepted(sp', ptr, len)
      ensures ReadAccepted(sp, ptr, len) ==> ReadAccepted(sp', ptr, len)
      ensures WriteAccepted(sp, ptr, len) ==> WriteAccepted(sp', ptr, len)
    {
      MmapIsUsable(sp, sp', start, n, ptr, len);
    }
  }

  /** The grown data region has no hole. */
  lemma MmapIsBuilt(m: Mem, m1: Mem, m2: Mem, s: nat, start: nat, n: nat)
    requires Grown(m, m1, s) && Extends(m, m1) && Present(m.spaces[s]) && Built(m, s)
    requires m1.spaces[s] == m.spaces[s].(frames := m1.spaces[s].frames) && MmapAccepted(m.spaces[s], start, n)
    requires forall v: nat :: start / 0x1000 <= v < start / 0x1000 + n ==> HoldsFile(m1, s, v, DATA_FLAGS, [], start / 0x1000)
    requires m2 == m1.(spaces := m1.spaces[s := MmapDone(m1.spaces[s], start, n)])
    ensures Built(m2, s)
  {
    ExtendsKeepsBuilt(m, m1, s, s);
    hide Extends, Grown, Chunk;
    var sp, sp2 := m1.spaces[s], m2.spaces[s];
    forall v: nat, w: bool | UserPage(m1, s, v, w) ensures UserPage(m2, s, v, w) {}
    forall v: nat | start <= v * 0x1000 < start + n * 0x1000 ensures UserPage(m1, s, v, true) {
      assert HoldsFile(m1, s, v, DATA_FLAGS, [], start / 0x1000);
    }
    assert UserRange(m2, s, sp2.dataStart, sp2.dataEnd, true);
  }

  // ------------------------------------------------------------------ facts drawn from Sound

  lemma FrameCountBounded(m: Mem, s: nat)
    requires Sound(m) && s < MAX_SHARDS && Present(m.spaces[s])
    ensures |m.spaces[s].frames| <= MAX_SHARD_FRAMES
  {
    assert Tracks(m, s);
  }

  lemma RootFacts(m: Mem, s: nat)
    requires Sound(m) && s < MAX_SHARDS && Present(m.spaces[s])
    ensures IsTable(m.roles, m.spaces[s].pml4, s, []) && m.spaces[s].pml4 in m.tables && |m.spaces| == MAX_SHARDS
  {
    assert s in Roots(m.spaces);
  }

  lemma IndexPaths(v: nat)
    requires Lower(v)
    ensures var p := Indices(v);
            && Usable([], p[0]) && Usable(p[..1], p[1]) && Usable(p[..2], p[2])
            && [] + [p[0]] == p[..1] && p[..1] + [p[1]] == p[..2] && p[..2] + [p[2]] == p[..3]
  {
    LowerIndices(v);
  }

  lemma TableFacts(m: Mem, f: nat, i: nat, s: nat, p: seq<nat>)
    requires Sound(m) && IsTable(m.roles, f, s, p) && |p| < 3 && Usable(p, i) && f in m.tables
    ensures m.tables[f][i].Entry? ==>
              IsTable(m.roles, m.tables[f][i].frame, s, p + [i]) && m.tables[f][i].frame in m.tables
    ensures SamePages(m, m)
  {
    assert Descends(m.tables, m.roles, f, i);
  }

  lemma LinkReady(m: Mem, f: nat, i: nat, g: nat, s: nat, p: seq<nat>)
    requires Sound(m) && IsTable(m.roles, f, s, p) && |p| < 3 && Usable(p, i) && f in m.tables
    requires m.tables[f][i].Absent? && g !in m.roles
    ensures CanLink(m.tables, m.roles, Roots(m.spaces), f, i, g, s, p) && g in Linked(m.tables, f, i, g)
    ensures forall h :: h in m.tables ==> h in Linked(m.tables, f, i, g)
  {}
}
