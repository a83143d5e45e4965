/** The frame that `destroy` does not return: a well-formed memory in which an exited shard's kernel
    stack is the frame at physical address 0. */
module FrameZero {
  import opened PageTables
  import opened Spaces
  import opened ShardSpaces
  import opened Teardown

  const ROOT: nat := 0x1000
  const PDPT: nat := 0x2000
  const PD: nat := 0x3000
  const PT: nat := 0x4000
  const USER_STACK: nat := 0x5000
  const STACK_PAGE: nat := 0x7FF

  function NobodyYet(): Mem {
    Mem(map[], map[], seq(MAX_SHARDS, _ => Space(Free, 0, [], CODE, 0, 0, 0, 0, 0)), map[], {}, NoUpperHalf())
  }

  function NoUpperHalf(): seq<Pte> {
    seq(256, _ => Absent)
  }

  lemma StackPath()
    ensures Indices(STACK_PAGE) == [0, 0, 3, 511] && Lower(STACK_PAGE)
  {}

  lemma NobodyIsSound()
    ensures Sound(NobodyYet())
  {
    assert Roots(NobodyYet().spaces) == map[];
  }

  /** One more table on the way to the stack page, in a frame without a role. */
  lemma Deeper(m: Mem, f: nat, i: nat, g: nat, p: seq<nat>) returns (m': Mem)
    requires Sound(m) && Present(m.spaces[0]) && IsTable(m.roles, f, 0, p) && f in m.tables && |p| < 3 && Usable(p, i)
    requires g !in m.roles && m.devices == {} && m.tables[f][i].Absent?
    ensures Sound(m') && m'.spaces == m.spaces && m'.data == m.data && m'.devices == {}
    ensures m'.roles == m.roles[g := TableOf(0, p + [i])] && g in m'.tables && m'.tables[g] == ZeroTable()
  {
    hide Sound, SamePages, CanLink;
    LinkReady(m, f, i, g, 0, p);
    LinkIsSound(m, f, i, g, 0, p);
    m' := m.(tables := Linked(m.tables, f, i, g), roles := m.roles[g := TableOf(0, p + [i])]);
  }

  lemma TablesForStack() returns (m: Mem)
    ensures Sound(m) && m.devices == {} && m.data == map[]
    ensures m.spaces == NobodyYet().spaces[0 := NobodyYet().spaces[0].(pml4 := ROOT, frames := [ROOT])]
    ensures m.roles.Keys == {ROOT, PDPT, PD, PT} && IsTable(m.roles, PT, 0, [0, 0, 3]) && PT in m.tables
    ensures m.tables[PT] == ZeroTable()
  {
    hide Sound, SamePages;
    NobodyIsSound();
    RootIsSound(NobodyYet(), 0, ROOT, NoUpperHalf());
    var m1 := Rooted(NobodyYet(), 0, ROOT, NoUpperHalf());
    assert [] + [0] == [0] && [0] + [0] == [0, 0] && [0, 0] + [3] == [0, 0, 3];
    var m2 := Deeper(m1, ROOT, 0, PDPT, []);
    var m3 := Deeper(m2, PDPT, 0, PD, [0]);
    m := Deeper(m3, PD, 3, PT, [0, 0]);
  }

  lemma WithStacks() returns (m: Mem)
    ensures Sound(m) && m.devices == {} && Page(m, 0, STACK_PAGE) == Entry(USER_STACK, DATA_FLAGS)
    ensures m.spaces == NobodyYet().spaces[0 := NobodyYet().spaces[0].(pml4 := ROOT, frames := [ROOT, USER_STACK, 0])]
    ensures 0 in m.roles && m.roles[0] == MemoryOf(0, 2, [])
  {
    hide Sound, SamePages, OnlyPage, Page, Chunk;
    var m4 := TablesForStack();
    StackPath();
    var p := Indices(STACK_PAGE);
    AddIsSound(m4, 0, USER_STACK, p, Chunk([], 0));
    var m5 := Added(m4, 0, USER_STACK, p, Chunk([], 0));
    assert p[..3] == [0, 0, 3];
    MapIsSound(m5, PT, 0, STACK_PAGE, Entry(USER_STACK, DATA_FLAGS));
    var m6 := m5.(tables := m5.tables[PT := m5.tables[PT][p[3] := Entry(USER_STACK, DATA_FLAGS)]]);
    AddIsSound(m6, 0, 0, [], Chunk([], 0));
    m := Added(m6, 0, 0, [], Chunk([], 0));
    SamePage(m6, m, 0, STACK_PAGE);
    assert [ROOT] + [USER_STACK] == [ROOT, USER_STACK] && [ROOT, USER_STACK] + [0] == [ROOT, USER_STACK, 0];
    assert m5.spaces[0].frames == [ROOT, USER_STACK] && m.spaces[0].frames == [ROOT, USER_STACK, 0];
  }

  /** A memory that satisfies every invariant and from which `destroy` leaks a frame. */
  lemma DestroyCanSkipAFrame() returns (m: Mem)
    ensures Good(m) && m.spaces[0].life.Exited? && 0 in Owned(m.roles, 0) && Skipped(m.roles, 0) == {0}
  {
    hide Sound, SamePages, Page;
    var m7 := WithStacks();
    var sp := m7.spaces[0].(life := Exited, kernelStack := 0);
    RedescribeIsSound(m7, 0, sp);
    m := m7.(spaces := m7.spaces[0 := sp]);
    StackPath();
    SamePage(m7, m, 0, STACK_PAGE);
    assert UserPage(m, 0, STACK_PAGE, true);
    forall v: nat | STACK <= v * 0x1000 < STACK_TOP ensures UserPage(m, 0, v, true) { assert v == STACK_PAGE; }
  }
}
