/** Creating, growing and destroying the address spaces of shards. A failed assertion or `expect` of
    the source halts the machine: the methods then say why, and promise nothing about memory. */
module ShardMemory {
  import opened Bytes
  import opened Bitmap
  import opened Frames
  import opened PageTables
  import opened Spaces
  import opened ShardSpaces
  import opened Loader
  import opened Teardown

  datatype Outcome = Ok | Error | Halt

  /** What happens to address spaces. */
  datatype Event =
    | Create(image: seq<byte>)
    | Mmap(s: nat, start: nat, n: nat)
    | MapConfig(s: nat, v: nat, bytes: seq<byte>)
    | MapDevice(s: nat, v: nat, phys: nat, n: nat)
    | Exit(s: nat)
    | Destroy(s: nat)

  class Memory {
    const alloc: FrameAllocator
    const upper: seq<Pte>
    const entry: seq<byte>
    var tables: Tables
    var data: map<nat, seq<byte>>
    var spaces: seq<Space>
    ghost var roles: Roles
    ghost var held: set<nat>
    ghost const devices: set<nat>
    ghost const ram: iset<nat>

    ghost function M(): Mem
      reads this
    {
      Mem(tables, data, spaces, roles, devices, upper)
    }

    /** Every frame of RAM is in the pool, or has one role, or is held for good by nobody's space: the
        supervisor's own frames. Device memory is not RAM. */
    ghost predicate Accounted()
      reads this, alloc, alloc.pmm
    {
      && alloc.Valid() && |upper| == 256 && |entry| == 8
      && (forall f: nat :: alloc.Out(f) <==> f in roles || f in held)
      && (forall f: nat :: !(f in roles && f in held))
      && (forall f: nat :: f in ram <==> alloc.InPool(f) || alloc.Out(f))
      && (forall f: nat :: f in devices ==> f !in ram)
    }

    ghost predicate Inv()
      reads this, alloc, alloc.pmm
    {
      Accounted() && Sound(M())
    }

    ghost predicate Valid()
      reads this, alloc, alloc.pmm
    {
      Accounted() && Good(M())
    }

    /** `entry` is the address of `shard_first_entry`; `kernel` are the frames the supervisor has taken for
        its own tables. */
    constructor (alloc: FrameAllocator, upper: seq<Pte>, entry: seq<byte>, ghost kernel: set<nat>, ghost devices: set<nat>)
      requires alloc.Valid() && |upper| == 256 && |entry| == 8
      requires forall f: nat :: alloc.Out(f) <==> f in kernel
      requires forall f: nat :: f in devices ==> !alloc.Out(f) && !alloc.InPool(f)
      ensures Valid() && this.alloc == alloc && held == kernel && this.devices == devices
      ensures forall s :: 0 <= s < MAX_SHARDS ==> spaces[s].life.Free?
    {
      this.alloc, this.upper, this.entry, held, this.devices := alloc, upper, entry, kernel, devices;
      ram := iset f: nat | alloc.InPool(f) || alloc.Out(f);
      tables, data, roles := map[], map[], map[];
      spaces := seq(MAX_SHARDS, _ => Space(Free, 0, [], CODE, 0, 0, 0, 0, 0));
      new;
      assert Roots(spaces) == map[];
    }

    /** `alloc_frame_zeroed`: a frame nobody has. */
    method TakeFrame() returns (f: Option<nat>)
      requires Inv()
      modifies alloc, alloc.pmm
      ensures alloc.Valid() && Sound(M())
      ensures f.None? ==> Inv() && alloc.Exhausted()
      ensures f.Some? ==> f.value !in roles && f.value !in held && f.value !in devices
      ensures f.Some? ==> forall g: nat :: alloc.Out(g) <==> g in roles || g in held || g == f.value
      ensures forall g: nat :: g in ram <==> alloc.InPool(g) || alloc.Out(g)
    {
      hide Sound;
      f := alloc.AllocFrame();
    }

    /** The table at index `i` of table `f`, made if it is missing. */
    method EnsureTable(f: nat, i: nat, ghost s: nat, ghost p: seq<nat>) returns (g: Option<nat>)
      requires Inv() && IsTable(roles, f, s, p) && |p| < 3 && Usable(p, i) && f in tables
      modifies this`tables, this`roles, alloc, alloc.pmm
      ensures g.Some? ==>
                && Inv() && IsTable(roles, g.value, s, p + [i]) && g.value in tables
                && SamePages(old(M()), M()) && OnlyTables(old(roles), roles, s)
                && forall h :: h in old(tables) ==> h in tables
      ensures g.None? ==> old(tables)[f][i].Absent? && alloc.Exhausted()
    {
      hide Sound, Linked, SamePages, CanLink, FrameAllocator.Valid, FrameAllocator.Out, FrameAllocator.InPool;
      TableFacts(M(), f, i, s, p);
      if tables[f][i].Entry? {
        return Some(tables[f][i].frame);
      }
      g := TakeFrame();
      if g.None? { return; }
      LinkReady(M(), f, i, g.value, s, p);
      LinkIsSound(M(), f, i, g.value, s, p);
      tables := Linked(tables, f, i, g.value);
      roles := roles[g.value := TableOf(s, p + [i])];
    }

    /** The last-level table of page `v`, with the tables above it made as needed. */
    method LastTable(s: nat, v: nat) returns (t: Option<nat>)
      requires Inv() && s < |spaces| == MAX_SHARDS && Present(spaces[s]) && Lower(v)
      modifies this`tables, this`roles, alloc, alloc.pmm
      ensures t.Some? ==>
                && Inv() && IsTable(roles, t.value, s, Indices(v)[..3]) && t.value in tables
                && SamePages(old(M()), M()) && OnlyTables(old(roles), roles, s)
      ensures t.None? ==> alloc.Exhausted()
    {
      hide Sound, SamePages, OnlyPage, Page, OnlyTables, Indices, IsTable, Usable, Memory.Accounted;
      var p := Indices(v);
      IndexPaths(v);
      RootFacts(M(), s);
      ghost var m := M();
      var t1 := EnsureTable(spaces[s].pml4, p[0], s, []);
      if t1.None? { return None; }
      ghost var m1 := M();
      var t2 := EnsureTable(t1.value, p[1], s, p[..1]);
      if t2.None? { return None; }
      ghost var m2 := M();
      t := EnsureTable(t2.value, p[2], s, p[..2]);
      if t.None? { return None; }
      PagesCompose(m, m1, m2, M(), s);
    }

    /** `map_4k`. It halts on a writable executable page, on a page already mapped, and when no frame
        is left for a table; otherwise it adds exactly one translation. */
    method Map4k(s: nat, v: nat, frame: nat, flags: Flags) returns (ok: bool)
      requires Inv() && s < |spaces| == MAX_SHARDS && Present(spaces[s]) && Lower(v)
      requires MayMap(M(), s, v, frame)
      modifies this`tables, this`roles, alloc, alloc.pmm
      ensures ok ==>
                && Inv() && OnlyTables(old(roles), roles, s)
                && OnlyPage(old(M()), M(), s, v) && Page(M(), s, v) == Entry(frame, flags)
      ensures ok ==> Page(old(M()), s, v) == Absent && (!flags.writable || flags.noExecute)
      ensures !ok ==> Page(old(M()), s, v).Entry? || (flags.writable && !flags.noExecute) || alloc.Exhausted()
    {
      hide Sound, SamePages, OnlyPage, Page, Indices, OnlyTables, MayMap, Proper, FrameAllocator.Valid, FrameAllocator.Out,
        FrameAllocator.InPool, FrameAllocator.Exhausted;
      if flags.writable && !flags.noExecute { return false; }
      ghost var m := M();
      var t := LastTable(s, v);
      if t.None? { return false; }
      ghost var m1 := M();
      var i := Indices(v)[3];
      StillMayMap(m, m1, s, v, Entry(frame, flags));
      MapIsSound(m1, t.value, s, v, Entry(frame, flags));
      SamePage(m, m1, s, v);
      if tables[t.value][i].Entry? { return false; }
      tables := tables[t.value := tables[t.value][i := Entry(frame, flags)]];
      PageThenOnly(m, m1, M(), s, v);
      return true;
    }

    /** Take a frame, fill it and record it. `Error` means that no frame was left. */
    method AddFrame(s: nat, bytes: seq<byte>, ghost at: seq<nat>) returns (r: Outcome, f: nat)
      requires Inv() && s < |spaces| == MAX_SHARDS && Present(spaces[s]) && |bytes| == PAGE
      modifies this`data, this`spaces, this`roles, alloc, alloc.pmm
      ensures r.Ok? ==> Inv() && f !in old(roles) && M() == Added(old(M()), s, f, at, bytes) && SamePages(old(M()), M())
      ensures r.Error? ==> Inv() && M() == old(M()) && alloc.Exhausted()
      ensures r.Halt? <==> old(|spaces[s].frames|) == MAX_SHARD_FRAMES
    {
      hide Sound, SamePages, FrameAllocator.Valid, FrameAllocator.Out, FrameAllocator.InPool;
      FrameCountBounded(M(), s);
      f := 0;
      if |spaces[s].frames| >= MAX_SHARD_FRAMES { return Halt, 0; }
      var g := TakeFrame();
      if g.None? { return Error, 0; }
      f := g.value;
      AddIsSound(M(), s, f, at, bytes);
      data := data[f := bytes];
      roles := roles[f := MemoryOf(s, |spaces[s].frames|, at)];
      spaces := spaces[s := spaces[s].(frames := spaces[s].frames + [f])];
      return Ok, f;
    }

    /** One page: a frame with the given contents, mapped at `v`. */
    method MapPage(s: nat, v: nat, flags: Flags, bytes: seq<byte>) returns (r: Outcome)
      requires Inv() && s < |spaces| == MAX_SHARDS && Present(spaces[s]) && Lower(v) && |bytes| == PAGE
      modifies this`tables, this`data, this`spaces, this`roles, alloc, alloc.pmm
      ensures !r.Halt? ==>
                && Inv() && Grown(old(M()), M(), s) && Extends(old(M()), M()) && OnlyRange(old(M()), M(), s, v, v + 1)
                && spaces[s] == old(spaces[s]).(frames := spaces[s].frames)
      ensures r.Ok? ==> Page(old(M()), s, v) == Absent && Holds(M(), s, v, flags, bytes)
      ensures r.Ok? ==> |spaces[s].frames| == |old(spaces[s]).frames| + 1
      ensures r.Error? ==> alloc.Exhausted()
      ensures r.Halt? ==>
                || Page(old(M()), s, v).Entry? || |old(spaces[s]).frames| == MAX_SHARD_FRAMES
                || (flags.writable && !flags.noExecute) || alloc.Exhausted()
      ensures r.Error? ==> M() == old(M())
    {
      hide Sound, SamePages, OnlyPage, Page, Grown, Extends, OnlyRange, Holds, Indices, FrameAllocator.Exhausted, FrameAllocator.Valid,
        FrameAllocator.Out, FrameAllocator.InPool;
      ghost var m := M();
      NothingChanged(m, s);
      var f;
      r, f := AddFrame(s, bytes, Indices(v));
      if !r.Ok? { return; }
      ghost var m1 := M();
      SamePage(m, m1, s, v);
      var ok := Map4k(s, v, f, flags);
      if !ok { return Halt; }
      MapPageEffect(m, m1, M(), s, v, f, Indices(v), flags, bytes);
      return Ok;
    }

    /** The page loops of `create` and `handle_sys_mmap`: `n` pages from `v0` on, holding `file` and
        then zeroes. `Error` means that frames ran out: the pages mapped so far stay. */
    method MapPages(s: nat, v0: nat, n: nat, flags: Flags, file: seq<byte>) returns (r: Outcome)
      requires Inv() && s < |spaces| == MAX_SHARDS && Present(spaces[s]) && Lower(v0 + n)
      modifies this`tables, this`data, this`spaces, this`roles, alloc, alloc.pmm
      ensures !r.Halt? ==>
                && Inv() && Grown(old(M()), M(), s) && Extends(old(M()), M()) && OnlyRange(old(M()), M(), s, v0, v0 + n)
                && spaces[s] == old(spaces[s]).(frames := spaces[s].frames)
      ensures r.Ok? ==> forall v: nat :: v0 <= v < v0 + n ==> HoldsFile(M(), s, v, flags, file, v0)
      ensures r.Ok? ==> |spaces[s].frames| == |old(spaces[s]).frames| + n
      ensures r.Error? ==> alloc.Exhausted()
      ensures r.Halt? ==>
                || SomeMapped(old(M()), s, v0, v0 + n) || |old(spaces[s]).frames| + n > MAX_SHARD_FRAMES
                || (flags.writable && !flags.noExecute) || alloc.Exhausted()
    {
      hide Sound, Page, Grown, Extends, OnlyRange, Holds, Chunk, SameFrom, SomeMapped, FrameAllocator.Exhausted;
      ghost var m := M();
      NothingChanged(m, s);
      for i := 0 to n
        invariant Inv() && Grown(m, M(), s) && Extends(m, M()) && OnlyRange(m, M(), s, v0, v0 + n)
        invariant |spaces| == MAX_SHARDS && Present(spaces[s]) && spaces[s] == old(spaces[s]).(frames := spaces[s].frames)
        invariant |spaces[s].frames| == |old(spaces[s]).frames| + i && SameFrom(m, M(), s, v0 + i, v0 + n)
        invariant forall v: nat :: v0 <= v < v0 + i ==> HoldsFile(M(), s, v, flags, file, v0)
      {
        ghost var m1 := M();
        r := MapPage(s, v0 + i, flags, Chunk(file, i));
        SameFromFacts(m, m1, s, v0 + i, v0 + n);
        if !r.Ok? { return; }
        GrowthComposes(m, m1, M(), s);
        TailStays(m, m1, M(), s, v0 + i, v0 + n);
        RangesCompose(m, m1, M(), s, v0, v0 + n, v0 + i);
        forall v: nat | v0 <= v < v0 + i ensures HoldsFile(M(), s, v, flags, file, v0) {
          assert HoldsFile(m1, s, v, flags, file, v0);
          HoldsStays(m1, M(), s, v, flags, Chunk(file, v - v0));
        }
      }
      return Ok;
    }

    // ------------------------------------------------------------------ create

    /** Steps 1 and 2 of `create`: the root table. */
    method MakeRoot(s: nat) returns (ok: bool)
      requires Inv() && s < |spaces| == MAX_SHARDS && !Present(spaces[s])
      modifies this`tables, this`spaces, this`roles, alloc, alloc.pmm
      ensures ok ==>
                && Inv() && Grown(old(M()), M(), s) && Extends(old(M()), M()) && Present(spaces[s])
                && spaces[s] == old(spaces[s]).(pml4 := spaces[s].pml4, frames := spaces[s].frames)
                && |spaces[s].frames| == 1 && AbsentFrom(M(), s, 0)
      ensures !ok ==> alloc.Exhausted()
    {
      hide Sound, FrameAllocator.Valid, FrameAllocator.Out, FrameAllocator.InPool, FrameAllocator.Exhausted;
      var f := TakeFrame();
      if f.None? { return false; }
      RootIsSound(M(), s, f.value, upper);
      tables := tables[f.value := RootTable(upper)];
      roles := roles[f.value := TableOf(s, [])];
      spaces := spaces[s := spaces[s].(pml4 := f.value, frames := [f.value])];
      return true;
    }

    /** Descriptor fields other than the root and the frame table. */
    method Redescribe(s: nat, sp: Space)
      requires Inv() && s < |spaces| == MAX_SHARDS && sp.pml4 == spaces[s].pml4 && sp.frames == spaces[s].frames
      modifies this`spaces
      ensures Inv() && spaces == old(spaces)[s := sp] && Grown(old(M()), M(), s) && Extends(old(M()), M())
      ensures SamePages(old(M()), M())
    {
      hide Sound;
      RedescribeIsSound(M(), s, sp);
      spaces := spaces[s := sp];
    }

    method LoadSegment(s: nat, image: seq<byte>, seg: Elf.Segment) returns (ok: bool)
      requires Inv() && s < |spaces| == MAX_SHARDS && Present(spaces[s])
      requires seg.vaddr % 0x1000 == 0 && SegEnd(seg) <= STACK && seg.fileOffset + seg.fileSize <= |image|
      modifies this`tables, this`data, this`spaces, this`roles, alloc, alloc.pmm
      ensures ok ==>
                && Inv() && Grown(old(M()), M(), s) && Extends(old(M()), M()) && InPlace(M(), s, image, seg)
                && spaces[s] == old(spaces[s]).(frames := spaces[s].frames)
                && |spaces[s].frames| == |old(spaces[s]).frames| + PagesOf(seg.memSize)
                && OnlyRange(old(M()), M(), s, seg.vaddr / 0x1000, seg.vaddr / 0x1000 + PagesOf(seg.memSize))
      ensures !ok ==>
                || SomeMapped(old(M()), s, seg.vaddr / 0x1000, seg.vaddr / 0x1000 + PagesOf(seg.memSize))
                || |old(spaces[s]).frames| + PagesOf(seg.memSize) > MAX_SHARD_FRAMES
                || (seg.writable && seg.executable) || alloc.Exhausted()
    {
      hide Sound, Grown, Extends, OnlyRange, HoldsFile, SomeMapped, FrameAllocator.Exhausted;
      var r := MapPages(s, seg.vaddr / 0x1000, PagesOf(seg.memSize), SegFlags(seg), FileBytes(image, seg));
      return r.Ok?;
    }

    /** One round of the segment loop of `create`. */
    method LoadNext(s: nat, image: seq<byte>, segs: seq<Elf.Segment>, k: nat, end: nat) returns (ok: bool)
      requires Inv() && s < |spaces| == MAX_SHARDS && Present(spaces[s])
      requires k < |segs| && end == EndOf(segs, k) && segs[k].fileOffset + segs[k].fileSize <= |image|
      requires LoadedUpTo(M(), s, image, segs, k)
      requires AbsentFrom(M(), s, end / 0x1000) && |spaces[s].frames| == (end - CODE) / 0x1000 + 1
      modifies this`tables, this`data, this`spaces, this`roles, alloc, alloc.pmm
      ensures ok ==>
                && Inv() && Grown(old(M()), M(), s) && Extends(old(M()), M()) && Present(spaces[s])
                && LoadedUpTo(M(), s, image, segs, k + 1)
                && spaces[s].life == old(spaces[s]).life && spaces[s].dataStart == old(spaces[s]).dataStart
                && AbsentFrom(M(), s, SegEnd(segs[k]) / 0x1000)
                && |spaces[s].frames| == (SegEnd(segs[k]) - CODE) / 0x1000 + 1
      ensures !ok ==>
                || !Fits(segs, k) || (SegEnd(segs[k]) - CODE) / 0x1000 + 1 > MAX_SHARD_FRAMES || alloc.Exhausted()
    {
      hide Sound, Extends, InPlace, Grown, SamePages, AbsentFrom, SomeMapped, OnlyRange, FrameAllocator.Exhausted;
      ghost var m := M();
      NothingChanged(m, s);
      EndIsAligned(segs, k);
      var seg := segs[k];
      if seg.vaddr != end || (seg.writable && seg.executable) || seg.memSize > STACK - seg.vaddr { return false; }
      if seg.writable {
        if spaces[s].imageDataStart != 0 { return false; }
        Redescribe(s, spaces[s].(imageDataStart := seg.vaddr, imageDataEnd := SegEnd(seg)));
      }
      ghost var m1 := M();
      PagesAdd(segs, k);
      AbsentStays(m, m1, s, end / 0x1000);
      AbsentIsNotMapped(m1, s, end / 0x1000, SegEnd(seg) / 0x1000);
      ok := LoadSegment(s, image, seg);
      if !ok { return; }
      AbsentAbove(m1, M(), s, end / 0x1000, SegEnd(seg) / 0x1000);
      LoadsOneMore(m, m1, M(), s, image, segs, k);
    }

    /** The segment loop of `create`. */
    method LoadSegments(s: nat, image: seq<byte>, segs: seq<Elf.Segment>) returns (ok: bool)
      requires Inv() && s < |spaces| == MAX_SHARDS && Present(spaces[s]) && spaces[s].imageDataStart == 0
      requires |spaces[s].frames| == 1 && AbsentFrom(M(), s, 0)
      requires forall k :: 0 <= k < |segs| ==> segs[k].fileOffset + segs[k].fileSize <= |image|
      modifies this`tables, this`data, this`spaces, this`roles, alloc, alloc.pmm
      ensures ok ==> Inv() && Grown(old(M()), M(), s) && Extends(old(M()), M()) && Present(spaces[s])
      ensures ok ==> LoadedUpTo(M(), s, image, segs, |segs|) && EndOf(segs, |segs|) >= CODE
      ensures ok ==> spaces[s].life == old(spaces[s]).life && spaces[s].dataStart == old(spaces[s]).dataStart
      ensures ok ==> |spaces[s].frames| == (EndOf(segs, |segs|) - CODE) / 0x1000 + 1
      ensures ok ==> AbsentFrom(M(), s, EndOf(segs, |segs|) / 0x1000)
      ensures !ok ==> !Tiled(segs, |segs|) || Overfull(segs) || alloc.Exhausted()
    {
      hide Sound, Extends, InPlace, Grown, SamePages, LoadedUpTo, AbsentFrom, Fits, FrameAllocator.Exhausted, SegEnd;
      ghost var m := M();
      NothingChanged(m, s);
      var end := CODE;
      NoSegmentsYet(m, s, image, segs);
      AbsentHigher(m, s, 0, 1);
      for k := 0 to |segs|
        invariant Inv() && Grown(m, M(), s) && Extends(m, M()) && |spaces| == MAX_SHARDS && Present(spaces[s])
        invariant spaces[s].life == old(spaces[s]).life && spaces[s].dataStart == old(spaces[s]).dataStart
        invariant end == EndOf(segs, k) >= CODE && LoadedUpTo(M(), s, image, segs, k)
        invariant AbsentFrom(M(), s, end / 0x1000) && |spaces[s].frames| == (end - CODE) / 0x1000 + 1
      {
        ghost var m1 := M();
        ok := LoadNext(s, image, segs, k, end);
        if !ok { return; }
        GrownSize(m1, M(), s);
        EndGrows(M(), s, image, segs, k + 1);
        GrowthComposes(m, m1, M(), s);
        end := SegEnd(segs[k]);
      }
      return true;
    }

    /** Step 3 of `create`. */
    method LoadImage(s: nat, image: seq<byte>) returns (ok: bool)
      requires Inv() && s < |spaces| == MAX_SHARDS && Present(spaces[s]) && spaces[s].imageDataStart == 0
      requires |spaces[s].frames| == 1 && AbsentFrom(M(), s, 0)
      modifies this`tables, this`data, this`spaces, this`roles, alloc, alloc.pmm
      ensures ok ==> Inv() && Grown(old(M()), M(), s) && Extends(old(M()), M()) && Loaded(M(), s, image)
      ensures ok ==> spaces[s].life == old(spaces[s]).life && spaces[s].dataStart == old(spaces[s]).dataStart
      ensures ok ==> |spaces[s].frames| == (spaces[s].imageEnd - CODE) / 0x1000 + 1 && spaces[s].imageEnd >= CODE
      ensures ok ==> AbsentFrom(M(), s, spaces[s].imageEnd / 0x1000)
      ensures !ok ==> !Acceptable(image) || TooBig(image) || alloc.Exhausted()
    {
      hide Sound, Extends, InPlace, Grown, SamePages, LoadedUpTo, Elf.Loads, Elf.Loadable, Elf.Backed,
        AbsentFrom, TooBig, Overfull, FrameAllocator.Exhausted;
      ghost var m := M();
      var parsed := Elf.Parse(image);
      if parsed.None? || parsed.value.entry != CODE { return false; }
      var segs := parsed.value.segments;
      AllBacked(image);
      ok := LoadSegments(s, image, segs);
      if !ok {
        OverfullIsTooBig(image);
        return;
      }
      ghost var m1 := M();
      GrownSize(m, m1, s);
      Redescribe(s, spaces[s].(imageEnd := EndOf(segs, |segs|)));
      AbsentStays(m1, M(), s, EndOf(segs, |segs|) / 0x1000);
      GrowthComposes(m, m1, M(), s);
      AllLoaded(m1, M(), s, image);
    }

    /** Steps 4 to 6 of `create`: user stack and kernel stack. */
    method AddStacks(s: nat, ghost image: seq<byte>) returns (ok: bool)
      requires Inv() && s < |spaces| == MAX_SHARDS && Present(spaces[s]) && spaces[s].dataStart == 0
      requires Loaded(M(), s, image) && spaces[s].imageEnd >= CODE && AbsentFrom(M(), s, spaces[s].imageEnd / 0x1000)
      requires |spaces[s].frames| == (spaces[s].imageEnd - CODE) / 0x1000 + 1
      modifies this`tables, this`data, this`spaces, this`roles, alloc, alloc.pmm
      ensures ok ==>
                && Inv() && Grown(old(M()), M(), s) && Extends(old(M()), M()) && spaces[s].life.Live? && Present(spaces[s])
                && Loaded(M(), s, image) && Holds(M(), s, STACK / 0x1000, DATA_FLAGS, Chunk([], 0)) && Built(M(), s)
                && spaces[s].dataStart == 0
                && spaces[s].kernelStack in data && data[spaces[s].kernelStack] == FirstStack(entry)
      ensures !ok ==> (Acceptable(image) && TooBig(image)) || alloc.Exhausted()
    {
      hide Sound, Extends, SamePages, Loaded, Holds, Chunk, Built, Grown, AbsentFrom, Page, Acceptable, TooBig, FrameAllocator.Exhausted, FirstStack;
      ghost var m := M();
      StackIsFree(m, s, image);
      var r := MapPage(s, STACK / 0x1000, DATA_FLAGS, Chunk([], 0));
      if !r.Ok? { return false; }
      ghost var m1 := M();
      GrownSize(m, m1, s);
      var f;
      r, f := AddFrame(s, FirstStack(entry), []);
      if !r.Ok? { return false; }
      ghost var m2 := M();
      Redescribe(s, spaces[s].(life := Live, kernelStack := f));
      StacksInPlace(m, m1, m2, M(), s, f, FirstStack(entry), image);
      return true;
    }

    /** `create`: the first free slot gets a complete shard with the image in place, and nothing else
        changes. `None` is a failed assertion. */
    method Create(image: seq<byte>) returns (id: Option<nat>)
      requires Valid()
      modifies this`tables, this`data, this`spaces, this`roles, alloc, alloc.pmm
      ensures id.Some? ==>
                && Valid() && id.value < |spaces| == |old(spaces)|
                && old(spaces)[id.value].life.Free? && spaces[id.value].life.Live?
                && (forall u :: 0 <= u < id.value ==> !old(spaces)[u].life.Free?)
                && Grown(old(M()), M(), id.value) && Extends(old(M()), M())
                && Loaded(M(), id.value, image) && spaces[id.value].dataStart == 0
                && Holds(M(), id.value, STACK / 0x1000, Flags(true, true, true, false), Chunk([], 0))
                && spaces[id.value].kernelStack in data && data[spaces[id.value].kernelStack] == FirstStack(entry)
      ensures id.None? ==>
                || (forall u :: 0 <= u < |old(spaces)| ==> !old(spaces)[u].life.Free?)
                || !Acceptable(image) || TooBig(image) || alloc.Exhausted()
    {
      hide Sound, Extends, Loaded, Holds, Built, Grown, Acceptable, TooBig, AbsentFrom, FrameAllocator.Exhausted, FirstStack;
      GoodFacts(M());
      ghost var m := M();
      var s := 0;
      while s < MAX_SHARDS && spaces[s].life != Free
        invariant 0 <= s <= MAX_SHARDS
        invariant forall u :: 0 <= u < s ==> !spaces[u].life.Free?
      {
        s := s + 1;
      }
      if s == MAX_SHARDS { return None; }
      var ok := MakeRoot(s);
      if !ok { return None; }
      ghost var m1 := M();
      GrownSize(m, m1, s);
      ok := LoadImage(s, image);
      if !ok { return None; }
      GrowthComposes(m, m1, M(), s);
      ghost var m2 := M();
      GrownSize(m1, m2, s);
      ok := AddStacks(s, image);
      if !ok { return None; }
      GrowthComposes(m, m2, M(), s);
      GrowthIsGood(m, M(), s);
      GrownSize(m, M(), s);
      return Some(s);
    }

    // ------------------------------------------------------------------ growing a shard

    /** `handle_sys_mmap`. A request that fails a check changes nothing. A request that runs out of
        frames keeps the pages mapped so far but does not extend the data region. */
    method Mmap(s: nat, start: nat, n: nat) returns (r: Outcome)
      requires Valid() && s < |spaces| && spaces[s].life.Live?
      requires start < 0x1_0000_0000_0000_0000 && n < 0x1_0000_0000_0000_0000
      modifies this`tables, this`data, this`spaces, this`roles, alloc, alloc.pmm
      ensures !Extension(old(spaces[s]), start, n) ==> r.Error? && M() == old(M())
      ensures Extension(old(spaces[s]), start, n) && r.Error? ==> alloc.Exhausted()
      ensures r.Halt? ==> SomeMapped(old(M()), s, start / 0x1000, start / 0x1000 + n) || alloc.Exhausted()
      ensures !r.Halt? ==>
                && Valid() && Grown(old(M()), M(), s) && Extends(old(M()), M())
                && OnlyRange(old(M()), M(), s, start / 0x1000, start / 0x1000 + n)
      ensures r.Error? ==> spaces[s] == old(spaces[s]).(frames := spaces[s].frames)
      ensures r.Ok? ==>
                && spaces[s] == MmapDone(old(spaces[s]), start, n).(frames := spaces[s].frames)
                && |spaces[s].frames| == |old(spaces[s]).frames| + n
                && Extension(old(spaces[s]), start, n)
                && (forall a: nat :: InData(spaces[s], a) <==> InData(old(spaces[s]), a) || Requested(start, n, a))
                && (forall ptr: nat, len: nat :: 0 < len <= 4096 && start <= ptr && ptr + len <= start + n * 0x1000 ==>
                      ReadAccepted(spaces[s], ptr, len) && WriteAccepted(spaces[s], ptr, len))
                && (forall ptr: nat, len: nat :: ReadAccepted(old(spaces[s]), ptr, len) ==> ReadAccepted(spaces[s], ptr, len))
                && (forall ptr: nat, len: nat :: WriteAccepted(old(spaces[s]), ptr, len) ==> WriteAccepted(spaces[s], ptr, len))
                && forall v: nat :: start / 0x1000 <= v < start / 0x1000 + n ==>
                     HoldsFile(M(), s, v, Flags(true, true, true, false), [], start / 0x1000)
    {
      hide Sound, Extends, OnlyRange, SamePages, HoldsFile, Built, Grown, SomeMapped, FrameAllocator.Exhausted, Extension, ReadAccepted,
        WriteAccepted, InData, Requested, Bounded;
      ghost var m := M();
      GoodFacts(m);
      NothingChanged(m, s);
      BuiltFacts(m, s);
      var sp := spaces[s];
      MmapIsExact(sp, start, n);
      if start % 0x1000 != 0 { return Error; }
      if n == 0 || n > 256 { return Error; }
      var size := n * 0x1000;
      var end := if start + size < 0x1_0000_0000_0000_0000 then start + size else 0xFFFF_FFFF_FFFF_FFFF;
      if start < sp.imageEnd || end > STACK { return Error; }
      if sp.dataStart != 0 {
        if start < sp.dataEnd && end > sp.dataStart { return Error; }
        if end != sp.dataStart && start != sp.dataEnd { return Error; }
      }
      if |sp.frames| + n > MAX_SHARD_FRAMES { return Error; }
      r := MapPages(s, start / 0x1000, n, DATA_FLAGS, []);
      if r.Halt? { return; }
      ghost var m1 := M();
      if r.Error? {
        ExtendsKeepsBuilt(m, m1, s, s);
        GrownSize(m, m1, s);
        GrowthIsGood(m, m1, s);
        return;
      }
      GrownSize(m, m1, s);
      Redescribe(s, MmapDone(spaces[s], start, n));
      MmapIsBuilt(m, m1, M(), s, start, n);
      GrowthComposes(m, m1, M(), s);
      RangeThenSame(m, m1, M(), s, start / 0x1000, start / 0x1000 + n);
      GrowthIsGood(m, M(), s);
      MmapEffect(sp, spaces[s], start, n);
      forall v: nat | start / 0x1000 <= v < start / 0x1000 + n
        ensures HoldsFile(M(), s, v, DATA_FLAGS, [], start / 0x1000)
      {
        HoldsFileStays(m1, M(), s, v, DATA_FLAGS, [], start / 0x1000);
      }
    }

    /** `create_config_page` and `create_pipeline_config`: one read-only page. `false` is a failed
        assertion. */
    method MapConfig(s: nat, v: nat, bytes: seq<byte>) returns (ok: bool)
      requires Valid() && s < |spaces| && spaces[s].life.Live? && Lower(v) && |bytes| == PAGE
      modifies this`tables, this`data, this`spaces, this`roles, alloc, alloc.pmm
      ensures ok ==>
                && Valid() && Grown(old(M()), M(), s) && Extends(old(M()), M()) && OnlyRange(old(M()), M(), s, v, v + 1)
                && spaces[s] == old(spaces[s]).(frames := spaces[s].frames)
                && Holds(M(), s, v, Flags(false, true, true, false), bytes)
      ensures !ok ==>
                || Page(old(M()), s, v).Entry? || |old(spaces[s]).frames| == MAX_SHARD_FRAMES || alloc.Exhausted()
    {
      hide Sound, Extends, OnlyRange, Holds, Built, Grown, Page, FrameAllocator.Exhausted;
      ghost var m := M();
      GoodFacts(m);
      BuiltFacts(m, s);
      var r := MapPage(s, v, Flags(false, true, true, false), bytes);
      if !r.Ok? { return false; }
      ExtendsKeepsBuilt(m, M(), s, s);
      GrownSize(m, M(), s);
      GrowthIsGood(m, M(), s);
      return true;
    }

    /** `map_bar_to_shard` and `map_vram_partition`: `n` pages of device memory. They are not tracked:
        no frame of RAM changes hands but for the tables. */
    method MapDevice(s: nat, v0: nat, phys: nat, n: nat) returns (ok: bool)
      requires Valid() && s < |spaces| && spaces[s].life.Live? && Lower(v0 + n)
      requires forall i: nat :: i < n ==> FrameBase(phys + i * 0x1000) in devices
      modifies this`tables, this`roles, alloc, alloc.pmm
      ensures ok ==>
                && Valid() && Extends(old(M()), M()) && OnlyRange(old(M()), M(), s, v0, v0 + n)
                && OnlyTables(old(roles), roles, s)
                && forall i: nat :: i < n ==> Page(M(), s, v0 + i) == Entry(FrameBase(phys + i * 0x1000), Flags(true, true, true, true))
      ensures !ok ==> SomeMapped(old(M()), s, v0, v0 + n) || alloc.Exhausted()
    {
      hide Sound, Extends, OnlyRange, OnlyPage, Built, Grown, Page, OnlyTables, Indices, FrameBase, SameFrom, SomeMapped,
        FrameAllocator.Exhausted, FrameAllocator.Valid, FrameAllocator.Out, FrameAllocator.InPool;
      ghost var m := M();
      GoodFacts(m);
      BuiltFacts(m, s);
      NothingChanged(m, s);
      SameTables(roles, s);
      for i := 0 to n
        invariant Inv() && Grown(m, M(), s) && Extends(m, M()) && OnlyRange(m, M(), s, v0, v0 + n)
        invariant OnlyTables(old(roles), roles, s) && SameFrom(m, M(), s, v0 + i, v0 + n)
        invariant forall j: nat :: j < i ==> Page(M(), s, v0 + j) == Entry(FrameBase(phys + j * 0x1000), DEVICE_FLAGS)
      {
        ghost var m1 := M();
        SameFromFacts(m, m1, s, v0 + i, v0 + n);
        ok := Map4k(s, v0 + i, FrameBase(phys + i * 0x1000), DEVICE_FLAGS);
        if !ok { return; }
        DeviceTail(m, m1, M(), s, v0 + i, v0 + n);
        DevicePage(m, m1, M(), s, v0, v0 + n, v0 + i);
      }
      ExtendsKeepsBuilt(m, M(), s, s);
      GrowthIsGood(m, M(), s);
      return true;
    }

    /** `handle_sys_exit`, and the fault handlers, as far as memory is concerned. */
    method Exit(s: nat)
      requires Valid() && s < |spaces| && spaces[s].life.Live?
      modifies this`spaces
      ensures Valid() && spaces == old(spaces)[s := old(spaces[s]).(life := Exited)] && SamePages(old(M()), M())
    {
      hide Sound, SamePages, Extends, Grown, Built;
      ghost var m := M();
      GoodFacts(m);
      Redescribe(s, spaces[s].(life := Exited));
      ExitIsGood(m, M(), s);
    }

    // ------------------------------------------------------------------ destroy

    /** In the middle of destroying shard `s`, whose memory was `m`: the frames in `gone` have been
        zeroed and returned, and nothing else has changed. */
    ghost predicate Tearing(m: Mem, s: nat, gone: set<nat>)
      reads this, alloc, alloc.pmm
    {
      && alloc.Valid() && |upper| == 256 && |entry| == 8 && spaces == m.spaces && roles == m.roles && devices == m.devices
      && (forall f: nat :: alloc.Out(f) <==> (f in roles && f !in gone) || f in held)
      && (forall f: nat :: !(f in roles && f in held))
      && (forall f: nat :: f in ram <==> alloc.InPool(f) || alloc.Out(f))
      && (forall f: nat :: f in devices ==> f !in ram)
      && (forall f :: f in gone ==> f in Owned(roles, s) && Zeroed(tables, data, f))
      && (forall f :: f in m.tables && f !in gone ==> f in tables && tables[f] == m.tables[f])
      && (forall f :: f in m.data && f !in gone ==> f in data && data[f] == m.data[f])
    }

    /** Zero a frame of the shard and return it to the allocator; it must not have been returned yet. */
    method Release(f: nat, ghost m: Mem, ghost s: nat, ghost gone: set<nat>)
      requires Tearing(m, s, gone) && f in Owned(roles, s) && f !in gone
      modifies this`tables, this`data, alloc
      ensures Tearing(m, s, gone + {f})
    {
      hide Chunk, FrameAllocator.Valid, FrameAllocator.InPool, FrameAllocator.Out, FrameBase;
      OutIsAligned(alloc, f);
      tables := tables[f := ZeroTable()];
      data := data[f := Chunk([], 0)];
      alloc.FreeFrame(f);
    }

    lemma TearingAt(m: Mem, s: nat, gone: set<nat>, f: nat)
      requires Tearing(m, s, gone)
      ensures roles == m.roles && (f in m.tables && f !in gone ==> f in tables && tables[f] == m.tables[f])
    {}

    /** `free_lower_half_tables`: its three nested loops, one level for each activation. */
    method FreeBelow(f: nat, levels: nat, ghost m: Mem, ghost s: nat, ghost p: seq<nat>, ghost before: set<nat>)
      returns (ghost gone: set<nat>)
      requires Tearing(m, s, before) && Sound(m) && 1 <= levels <= 3 && |p| + levels == 3 && IsTable(m.roles, f, s, p)
      requires f in m.tables && f !in before && Below(m.roles, s, p) !! before
      modifies this`tables, this`data, alloc
      ensures Tearing(m, s, gone) && gone == before + Below(m.roles, s, p)
      decreases levels
    {
      hide Sound, Below, BelowUpTo, Tearing;
      gone := before;
      NothingYet(m.roles, s, p);
      for i := 0 to if levels == 3 then 256 else 512
        invariant Tearing(m, s, gone) && gone == before + BelowUpTo(m.roles, s, p, i)
      {
        OneEntry(m, s, f, p, i);
        BelowFacts(m.roles, s, p, i, f);
        TearingAt(m, s, gone, f);
        if tables[f][i].Entry? {
          var g := tables[f][i].frame;
          TableFacts(m, f, i, s, p);
          if levels > 1 {
            gone := FreeBelow(g, levels - 1, m, s, p + [i], gone);
          } else {
            AllEntries(m, s, p + [i]);
          }
          TearingAt(m, s, gone, g);
          Release(g, m, s, gone);
          gone := gone + {g};
        }
      }
      AllEntries(m, s, p);
    }

    /** Steps 2 to 4 of `destroy`. */
    method FreeEverything(s: nat)
      requires Inv() && s < |spaces| == MAX_SHARDS && Present(spaces[s])
      modifies this`tables, this`data, alloc
      ensures Tearing(old(M()), s, Owned(roles, s) - Skipped(roles, s))
    {
      hide Sound, Below, Owned, Skipped, FrameAllocator.Valid, FrameAllocator.Out, FrameAllocator.InPool, Zeroed, TrackedUpTo;
      ghost var m := M();
      NoneTracked(m, s);
      var sp := spaces[s];
      ghost var gone: set<nat> := {};
      for i := 1 to |sp.frames|
        invariant Tearing(m, s, gone) && gone == TrackedUpTo(m.roles, s, i)
      {
        OneTracked(m, s, i);
        if sp.frames[i] != 0 {
          Release(sp.frames[i], m, s, gone);
          gone := gone + {sp.frames[i]};
        }
      }
      RootFacts(m, s);
      TrackedIsNoTable(m, s, |sp.frames|);
      RootIsOwned(m, s);
      gone := FreeBelow(sp.pml4, 3, m, s, [], gone);
      Release(sp.pml4, m, s, gone);
      EverythingReleased(m, s);
      assert gone + {sp.pml4} == Owned(roles, s) - Skipped(roles, s);
    }

    /** `destroy`: every frame of the shard is zeroed and returned exactly once, except a tracked frame
        at physical address 0, which stays out; no other shard is touched. */
    method Destroy(s: nat)
      requires Valid() && s < |spaces| && spaces[s].life.Exited?
      modifies this`tables, this`data, this`spaces, this`roles, this`held, alloc, alloc.pmm
      ensures Valid() && TakenApart(old(M()), M(), s)
      ensures held == old(held) + Skipped(old(roles), s)
      ensures 0 !in ram || 0 in old(held) ==> Skipped(old(roles), s) == {}
      ensures forall f: nat :: alloc.Out(f) <==> old(alloc.Out(f)) && f !in Owned(old(roles), s) - Skipped(old(roles), s)
      ensures forall f: nat :: f in Owned(old(roles), s) - Skipped(old(roles), s) ==> alloc.InPool(f) && Zeroed(tables, data, f)
      ensures forall u: nat, w: nat :: u < MAX_SHARDS && u != s && Present(old(spaces)[u]) && Lower(w) ==>
                Page(M(), u, w) == Page(old(M()), u, w)
    {
      hide Sound, FrameAllocator.Valid, FrameAllocator.Out, FrameAllocator.InPool, Zeroed, Page, Built;
      ghost var m := M();
      GoodFacts(m);
      assert Complete(m, s);
      FreeEverything(s);
      spaces := spaces[s := spaces[s].(life := Destroyed, pml4 := 0, frames := [])];
      roles := Without(roles, s);
      held := held + Skipped(m.roles, s);
      assert TakenApart(m, M(), s);
      TakenApartIsGood(m, M(), s);
    }

    /** Create a shard, serve its mmap requests and let it exit. `None` if an assertion fails on the way. */
    method Occupy(image: seq<byte>, requests: seq<(nat, nat)>) returns (id: Option<nat>)
      requires Valid()
      requires forall k :: 0 <= k < |requests| ==> requests[k].0 <= 0xFFFF_FFFF_FFFF_FFFF && requests[k].1 <= 0xFFFF_FFFF_FFFF_FFFF
      modifies this`tables, this`data, this`spaces, this`roles, alloc, alloc.pmm
      ensures id.Some? ==>
                && Valid() && Grown(old(M()), M(), id.value) && id.value < |spaces| == |old(spaces)| == MAX_SHARDS
                && !Present(old(spaces)[id.value]) && spaces[id.value].life.Exited?
    {
      hide Good, Grown, Loaded, Holds, HoldsFile, OnlyRange, Extends, Page, SamePages, FrameAllocator.Valid, FrameAllocator.Out,
        FrameAllocator.InPool, FrameAllocator.Exhausted;
      ghost var m := M();
      GoodFacts(m);
      id := Create(image);
      if id.None? { return; }
      var s := id.value;
      for k := 0 to |requests|
        invariant Valid() && Grown(m, M(), s) && Extends(m, M()) && s < |spaces| == MAX_SHARDS && spaces[s].life.Live?
      {
        ghost var m1 := M();
        var r := Mmap(s, requests[k].0, requests[k].1);
        if r.Halt? { return None; }
        GrowthComposes(m, m1, M(), s);
      }
      ghost var m2 := M();
      Exit(s);
      ExitedIsGrown(m, m2, M(), s);
    }

    /** A whole life: create a shard, let it ask for memory any number of times, let it exit, destroy it.
        Unless an assertion fails on the way, every frame is back where it was: the roles are the old
        ones, and the only frame that can stay out is the one at physical address 0. */
    method Lifetime(image: seq<byte>, requests: seq<(nat, nat)>) returns (id: Option<nat>)
      requires Valid()
      requires forall k :: 0 <= k < |requests| ==> requests[k].0 <= 0xFFFF_FFFF_FFFF_FFFF && requests[k].1 <= 0xFFFF_FFFF_FFFF_FFFF
      modifies this`tables, this`data, this`spaces, this`roles, this`held, alloc, alloc.pmm
      ensures id.Some? ==>
                && Valid() && roles == old(roles) && id.value < |spaces| == |old(spaces)|
                && (forall u: nat :: u < |spaces| && u != id.value ==> spaces[u] == old(spaces)[u])
                && held - old(held) <= {0} && old(held) <= held
                && (0 !in ram ==> forall f: nat :: alloc.Out(f) <==> old(alloc.Out(f)))
    {
      hide Sound, Page, Built, Complete, Zeroed, FrameAllocator.Valid, FrameAllocator.Out, FrameAllocator.InPool;
      ghost var m := M();
      id := Occupy(image, requests);
      if id.None? { return; }
      ghost var m1 := M();
      Destroy(id.value);
      RolesReturn(m, m1, id.value);
    }

    // ------------------------------------------------------------------ any sequence of events

    /** What callers guarantee: 64-bit arguments, whole pages, lower-half addresses, and device memory for
        device mappings. */
    ghost predicate Sane(e: Event) {
      match e
      case Mmap(_, start, n) => start <= 0xFFFF_FFFF_FFFF_FFFF && n <= 0xFFFF_FFFF_FFFF_FFFF
      case MapConfig(_, v, bytes) => Lower(v) && |bytes| == PAGE
      case MapDevice(_, v, phys, n) => Lower(v + n) && forall i: nat :: i < n ==> FrameBase(phys + i * 0x1000) in devices
      case _ => true
    }

    /** One event, if the shard it is about is in the state for it. `false` is a failed assertion. */
    method Execute(e: Event) returns (ok: bool)
      requires Valid() && Sane(e)
      modifies this`tables, this`data, this`spaces, this`roles, this`held, alloc, alloc.pmm
      ensures ok ==> Valid() && old(held) <= held <= old(held) + {0}
      ensures ok && (0 !in ram || 0 in old(held)) ==> held == old(held)
    {
      hide Sound, Loaded, Holds, HoldsFile, OnlyRange, Built, Grown, Extends, Page, TakenApart, FrameAllocator.Valid,
        FrameAllocator.Out, FrameAllocator.InPool, FrameAllocator.Exhausted;
      GoodFacts(M());
      match e
      case Create(image) =>
        var id := Create(image);
        return id.Some?;
      case Mmap(s, start, n) =>
        if s >= MAX_SHARDS || spaces[s].life != Live { return true; }
        var r := Mmap(s, start, n);
        return !r.Halt?;
      case MapConfig(s, v, bytes) =>
        if s >= MAX_SHARDS || spaces[s].life != Live { return true; }
        ok := MapConfig(s, v, bytes);
      case MapDevice(s, v, phys, n) =>
        if s >= MAX_SHARDS || spaces[s].life != Live { return true; }
        ok := MapDevice(s, v, phys, n);
      case Exit(s) =>
        if s >= MAX_SHARDS || spaces[s].life != Live { return true; }
        Exit(s);
        return true;
      case Destroy(s) =>
        if s >= MAX_SHARDS || spaces[s].life != Exited { return true; }
        Destroy(s);
        return true;
    }

    /** Any sequence of events of any shards, interleaved at will. Whenever no shard has an address space, no
        frame has a role, and the frames handed out are the supervisor's own: the pool is whole again. The one
        exception is the frame at address 0, if it was in the pool. */
    method Serve(events: seq<Event>) returns (ok: bool)
      requires Valid() && forall k :: 0 <= k < |events| ==> Sane(events[k])
      modifies this`tables, this`data, this`spaces, this`roles, this`held, alloc, alloc.pmm
      ensures ok ==> Valid() && |spaces| == MAX_SHARDS && old(held) <= held <= old(held) + {0}
      ensures ok && (forall s: nat :: s < MAX_SHARDS ==> !Present(spaces[s])) ==>
                roles == map[] && forall f: nat :: alloc.Out(f) <==> f in held
      ensures ok && (0 !in ram || 0 in old(held)) ==> held == old(held)
    {
      hide Good, Sound, FrameAllocator.Valid, FrameAllocator.Out, FrameAllocator.InPool;
      for k := 0 to |events|
        invariant Valid() && old(held) <= held <= old(held) + {0}
        invariant 0 !in ram || 0 in old(held) ==> held == old(held)
      {
        ok := Execute(events[k]);
        if !ok { return; }
      }
      NobodyOwnsNothing(M());
      return true;
    }
  }
}
