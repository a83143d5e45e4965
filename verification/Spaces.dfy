/** The memory side of shards as one value: page tables, memory frames, the descriptor of each shard,
    the role of every frame in use, and the frames that are device memory. */
module Spaces {
  import opened Bytes
  import opened PageTables

  const MAX_SHARDS: nat := 8
  const MAX_SHARD_FRAMES: nat := 256
  const PAGE: nat := 0x1000

  datatype Life = Free | Live | Exited | Destroyed

  /** The memory fields of a shard descriptor; `frames` is `allocated_frames[..frame_count]`. */
  datatype Space = Space(life: Life, pml4: nat, frames: seq<nat>, imageEnd: nat,
                         imageDataStart: nat, imageDataEnd: nat, dataStart: nat, dataEnd: nat, kernelStack: nat)

  /** `upper` is the supervisor's half of every root table. */
  datatype Mem = Mem(tables: Tables, data: map<nat, seq<byte>>, spaces: seq<Space>, roles: Roles,
                     devices: set<nat>, upper: seq<Pte>)

  predicate Present(sp: Space) {
    sp.frames != []
  }

  function Roots(spaces: seq<Space>): map<nat, nat> {
    map s: nat | s < |spaces| && Present(spaces[s]) :: spaces[s].pml4
  }

  /** Each tracked frame after the root has the role of that memory frame of that shard. */
  ghost predicate Tracks(m: Mem, s: nat)
    requires s < |m.spaces|
  {
    var sp := m.spaces[s];
    Present(sp) ==>
      && sp.frames[0] == sp.pml4 && |sp.frames| <= MAX_SHARD_FRAMES
      && forall k: nat :: 1 <= k < |sp.frames| ==> IsMemory(m.roles, sp.frames[k], s, k)
  }

  ghost predicate IsMemory(roles: Roles, f: nat, s: nat, k: nat) {
    f in roles && roles[f].MemoryOf? && roles[f].space == s && roles[f].k == k
  }

  /** A frame in the role of memory is a tracked 4 KiB frame of that shard. */
  ghost predicate IsTracked(m: Mem, f: nat) {
    f in m.roles && m.roles[f].MemoryOf? ==>
      var MemoryOf(s, k, _) := m.roles[f];
      s < |m.spaces| && 1 <= k < |m.spaces[s].frames| && m.spaces[s].frames[k] == f
      && f in m.data && |m.data[f]| == PAGE
  }

  /** A last-level entry at index path `at` of space `s` is not both writable and executable, and
      leads to device memory or to a memory frame of that space that belongs exactly there. */
  ghost predicate Proper(roles: Roles, devices: set<nat>, s: nat, at: seq<nat>, e: Pte) {
    e.Entry? ==>
      && (!e.flags.writable || e.flags.noExecute)
      && (e.frame in devices
          || (e.frame in roles && roles[e.frame].MemoryOf? && roles[e.frame].space == s && roles[e.frame].at == at))
  }

  /** What the entries of a last-level table and of a root table must be. */
  ghost predicate Guarded(m: Mem, f: nat) {
    && (IsLast(m.roles, f) && f in m.tables ==>
          forall i: nat :: i < ENTRIES ==>
            Proper(m.roles, m.devices, m.roles[f].space, m.roles[f].path + [i], m.tables[f][i]))
    && (IsRoot(m.roles, f) && f in m.tables ==> SharesUpper(m, f))
  }

  ghost predicate IsRoot(roles: Roles, f: nat) {
    f in roles && roles[f].TableOf? && roles[f].path == []
  }

  /** The upper half of root table `f` is the supervisor's. */
  ghost predicate SharesUpper(m: Mem, f: nat)
    requires f in m.tables
  {
    |m.upper| == 256 && forall i: nat :: i < 256 ==> m.tables[f][256 + i] == m.upper[i]
  }

  ghost predicate IsLast(roles: Roles, f: nat) {
    f in roles && roles[f].TableOf? && |roles[f].path| == 3
  }

  ghost predicate Sound(m: Mem) {
    && |m.spaces| == MAX_SHARDS
    && Forest(m.tables, m.roles, Roots(m.spaces))
    && (forall s: nat :: s < MAX_SHARDS ==> Tracks(m, s))
    && (forall f: nat :: IsTracked(m, f))
    && (forall f: nat :: Guarded(m, f))
    && (forall f :: f in m.roles ==> f !in m.devices)
  }

  /** The translation of virtual page `v` of shard `s`. */
  ghost function Page(m: Mem, s: nat, v: nat): Pte
    requires s < |m.spaces|
  {
    Leaf(m.tables, m.spaces[s].pml4, Indices(v))
  }

  /** Virtual page numbers of the lower half. */
  predicate Lower(v: nat) {
    v < 0x8_0000_0000
  }

  lemma LowerIndices(v: nat)
    requires Lower(v)
    ensures LowerHalf(Indices(v))
  {}

  /** Every page of every present shard but `(s, v)` translates as before. */
  ghost predicate OnlyPage(m: Mem, m': Mem, s: nat, v: nat) {
    && |m.spaces| == |m'.spaces|
    && forall u: nat, w: nat :: u < |m.spaces| && Present(m.spaces[u]) && Lower(w) && !(u == s && w == v) ==>
         Page(m', u, w) == Page(m, u, w)
  }

  ghost predicate SamePages(m: Mem, m': Mem) {
    && |m.spaces| == |m'.spaces|
    && forall u: nat, w: nat :: u < |m.spaces| && Present(m.spaces[u]) && Lower(w) ==> Page(m', u, w) == Page(m, u, w)
  }

  // ------------------------------------------------------------------ the writes

  /** `ensure_table` on an absent entry. */
  lemma LinkIsSound(m: Mem, f: nat, i: nat, g: nat, s: nat, p: seq<nat>)
    requires Sound(m) && CanLink(m.tables, m.roles, Roots(m.spaces), f, i, g, s, p) && g !in m.devices
    ensures var m' := m.(tables := Linked(m.tables, f, i, g), roles := m.roles[g := TableOf(s, p + [i])]);
            Sound(m') && SamePages(m, m')
  {
    var m' := m.(tables := Linked(m.tables, f, i, g), roles := m.roles[g := TableOf(s, p + [i])]);
    LinkKeepsForest(m.tables, m.roles, Roots(m.spaces), f, i, g, s, p);
    forall u: nat, w: nat | u < |m.spaces| && Present(m.spaces[u]) && Lower(w) ensures Page(m', u, w) == Page(m, u, w) {
      LowerIndices(w);
      LinkKeepsLeaves(m.tables, m.roles, Roots(m.spaces), f, i, g, s, p, u, Indices(w));
    }
    hide Forest, Linked;
    forall u: nat | u < MAX_SHARDS ensures Tracks(m', u) { assert Tracks(m, u); }
    forall h: nat ensures IsTracked(m', h) { assert IsTracked(m, h); }
    forall h: nat ensures Guarded(m', h) { LinkKeepsGuard(m, f, i, g, s, p, h); }
  }

  lemma LinkKeepsGuard(m: Mem, f: nat, i: nat, g: nat, s: nat, p: seq<nat>, h: nat)
    requires Guarded(m, h) && IsTable(m.roles, f, s, p) && |p| < 3 && f in m.tables && Usable(p, i) && g !in m.roles
    ensures Guarded(m.(tables := Linked(m.tables, f, i, g), roles := m.roles[g := TableOf(s, p + [i])]), h)
  {}

  /** Writing the last-level entry of page `v`. */
  lemma MapIsSound(m: Mem, f: nat, s: nat, v: nat, e: Pte)
    requires Sound(m) && s < MAX_SHARDS && Present(m.spaces[s]) && Lower(v)
    requires IsTable(m.roles, f, s, Indices(v)[..3]) && f in m.tables
    requires e.Entry? && Proper(m.roles, m.devices, s, Indices(v), e)
    ensures var m' := m.(tables := m.tables[f := m.tables[f][Indices(v)[3] := e]]);
            Sound(m') && OnlyPage(m, m', s, v) && Page(m', s, v) == e
    ensures Page(m, s, v) == m.tables[f][Indices(v)[3]]
  {
    var p := Indices(v);
    var m' := m.(tables := m.tables[f := m.tables[f][p[3] := e]]);
    LowerIndices(v);
    LeafWriteKeepsForest(m.tables, m.roles, Roots(m.spaces), f, s, p, e);
    LeafFollowsRoles(m.tables, m.roles, Roots(m.spaces), s, p);
    hide Forest;
    LeafWriteIsLocal(m.tables, m.roles, Roots(m.spaces), f, s, p, e, s, p);
    forall u: nat, w: nat | u < |m.spaces| && Present(m.spaces[u]) && Lower(w) && !(u == s && w == v)
      ensures Page(m', u, w) == Page(m, u, w)
    {
      LowerIndices(w);
      LeafWriteIsLocal(m.tables, m.roles, Roots(m.spaces), f, s, p, e, u, Indices(w));
      if Indices(w) == p { IndicesAreInjective(v, w); }
    }
    forall u: nat | u < MAX_SHARDS ensures Tracks(m', u) { assert Tracks(m, u); }
    forall h: nat ensures IsTracked(m', h) { assert IsTracked(m, h); }
    forall h: nat ensures Guarded(m', h) { assert Guarded(m, h); }
  }

  /** Recording frame `g`, holding `bytes`, as the next memory frame of shard `s`, to be mapped at `at`. */
  function Added(m: Mem, s: nat, g: nat, at: seq<nat>, bytes: seq<byte>): Mem
    requires s < |m.spaces|
  {
    var sp := m.spaces[s];
    m.(spaces := m.spaces[s := sp.(frames := sp.frames + [g])], data := m.data[g := bytes],
       roles := m.roles[g := MemoryOf(s, |sp.frames|, at)])
  }

  lemma AddIsSound(m: Mem, s: nat, g: nat, at: seq<nat>, bytes: seq<byte>)
    requires Sound(m) && s < MAX_SHARDS && Present(m.spaces[s]) && |m.spaces[s].frames| < MAX_SHARD_FRAMES
    requires g !in m.roles && g !in m.devices && |bytes| == PAGE
    ensures Sound(Added(m, s, g, at, bytes)) && SamePages(m, Added(m, s, g, at, bytes))
  {
    var m' := Added(m, s, g, at, bytes);
    assert Roots(m'.spaces) == Roots(m.spaces);
    AddKeepsForest(m.tables, m.roles, Roots(m.spaces), g, MemoryOf(s, |m.spaces[s].frames|, at));
    AddKeepsFrames(m, s, g, at, bytes);
  }

  lemma AddKeepsFrames(m: Mem, s: nat, g: nat, at: seq<nat>, bytes: seq<byte>)
    requires Sound(m) && s < MAX_SHARDS && Present(m.spaces[s]) && |m.spaces[s].frames| < MAX_SHARD_FRAMES
    requires g !in m.roles && |bytes| == PAGE
    ensures forall u: nat :: u < MAX_SHARDS ==> Tracks(Added(m, s, g, at, bytes), u)
    ensures forall h: nat :: IsTracked(Added(m, s, g, at, bytes), h) && Guarded(Added(m, s, g, at, bytes), h)
  {
    hide Forest, Roots;
    var m' := Added(m, s, g, at, bytes);
    forall u: nat | u < MAX_SHARDS ensures Tracks(m', u) { assert Tracks(m, u); }
    forall h: nat ensures IsTracked(m', h) { assert IsTracked(m, h); }
    forall h: nat ensures Guarded(m', h) { assert Guarded(m, h); }
  }

  lemma AddKeepsForest(tables: Tables, roles: Roles, roots: map<nat, nat>, g: nat, r: Role)
    requires Forest(tables, roles, roots) && g !in roles && r.MemoryOf?
    ensures Forest(tables, roles[g := r], roots)
  {
    var roles' := roles[g := r];
    forall h: nat ensures Hangs(tables, roles', h) {
      assert Hangs(tables, roles, h);
      if h in roles && roles[h].TableOf? && roles[h].path != [] {
        var n := |roles[h].path| - 1;
        var up :| IsTable(roles, up, roles[h].space, roles[h].path[..n]) && Leads(tables, up, roles[h].path[n], h);
        assert IsTable(roles', up, roles[h].space, roles[h].path[..n]);
      }
    }
    forall h: nat, k: nat ensures Descends(tables, roles', h, k) { assert Descends(tables, roles, h, k); }
  }

  /** The root table of a new shard: nothing in the lower half, the supervisor's entries above. */
  function RootTable(upper: seq<Pte>): Table
    requires |upper| == 256
  {
    seq(256, _ => Absent) + upper
  }

  function Rooted(m: Mem, s: nat, g: nat, upper: seq<Pte>): Mem
    requires s < |m.spaces| && |upper| == 256
  {
    m.(spaces := m.spaces[s := m.spaces[s].(pml4 := g, frames := [g])], tables := m.tables[g := RootTable(upper)],
       roles := m.roles[g := TableOf(s, [])])
  }

  lemma RootKeepsForest(tables: Tables, roles: Roles, roots: map<nat, nat>, s: nat, g: nat, t: Table)
    requires Forest(tables, roles, roots) && g !in roles && s !in roots
    requires forall i: nat :: i < 256 ==> t[i].Absent?
    ensures Forest(tables[g := t], roles[g := TableOf(s, [])], roots[s := g])
  {
    var tables', roles', roots' := tables[g := t], roles[g := TableOf(s, [])], roots[s := g];
    forall h: nat ensures Hangs(tables', roles', h) {
      assert Hangs(tables, roles, h);
      if h in roles && roles[h].TableOf? && roles[h].path != [] {
        var n := |roles[h].path| - 1;
        var up :| IsTable(roles, up, roles[h].space, roles[h].path[..n]) && Leads(tables, up, roles[h].path[n], h);
        assert IsTable(roles', up, roles[h].space, roles[h].path[..n]) && Leads(tables', up, roles[h].path[n], h);
      }
    }
    forall h: nat, k: nat ensures Descends(tables', roles', h, k) { assert Descends(tables, roles, h, k); }
  }

  lemma RootIsSound(m: Mem, s: nat, g: nat, upper: seq<Pte>)
    requires Sound(m) && s < MAX_SHARDS && !Present(m.spaces[s]) && g !in m.roles && g !in m.devices && |upper| == 256
    requires upper == m.upper
    ensures Sound(Rooted(m, s, g, upper)) && SamePages(m, Rooted(m, s, g, upper))
    ensures forall v: nat :: Lower(v) ==> Page(Rooted(m, s, g, upper), s, v) == Absent
  {
    var m' := Rooted(m, s, g, upper);
    assert Roots(m'.spaces) == Roots(m.spaces)[s := g];
    RootKeepsForest(m.tables, m.roles, Roots(m.spaces), s, g, RootTable(upper));
    RootPages(m, s, g, upper);
    RootKeepsFrames(m, s, g, upper);
  }

  lemma RootKeepsFrames(m: Mem, s: nat, g: nat, upper: seq<Pte>)
    requires Sound(m) && s < MAX_SHARDS && !Present(m.spaces[s]) && g !in m.roles && |upper| == 256 && upper == m.upper
    ensures forall u: nat :: u < MAX_SHARDS ==> Tracks(Rooted(m, s, g, upper), u)
    ensures forall h: nat :: IsTracked(Rooted(m, s, g, upper), h) && Guarded(Rooted(m, s, g, upper), h)
  {
    hide Forest, Roots;
    var m' := Rooted(m, s, g, upper);
    forall u: nat | u < MAX_SHARDS ensures Tracks(m', u) { assert Tracks(m, u); }
    forall h: nat ensures IsTracked(m', h) { assert IsTracked(m, h); }
    forall h: nat ensures Guarded(m', h) { assert Guarded(m, h); }
  }

  lemma RootPages(m: Mem, s: nat, g: nat, upper: seq<Pte>)
    requires Sound(m) && s < MAX_SHARDS && !Present(m.spaces[s]) && g !in m.roles && |upper| == 256
    requires Forest(Rooted(m, s, g, upper).tables, Rooted(m, s, g, upper).roles, Roots(Rooted(m, s, g, upper).spaces))
    ensures SamePages(m, Rooted(m, s, g, upper))
    ensures forall v: nat :: Lower(v) ==> Page(Rooted(m, s, g, upper), s, v) == Absent
  {
    hide Forest, Page, RootTable, Roots;
    forall u: nat, w: nat | u < |m.spaces| && Lower(w) && (u == s || Present(m.spaces[u]))
      ensures Page(Rooted(m, s, g, upper), u, w) == if u == s then Absent else Page(m, u, w)
    {
      RootPage(m, s, g, upper, u, w);
    }
  }

  lemma RootPage(m: Mem, s: nat, g: nat, upper: seq<Pte>, u: nat, w: nat)
    requires s < |m.spaces| && u < |m.spaces| && !Present(m.spaces[s]) && g !in m.roles && |upper| == 256
    requires Forest(m.tables, m.roles, Roots(m.spaces)) && (u == s || Present(m.spaces[u])) && Lower(w)
    requires Forest(Rooted(m, s, g, upper).tables, Rooted(m, s, g, upper).roles, Roots(Rooted(m, s, g, upper).spaces))
    ensures Page(Rooted(m, s, g, upper), u, w) == if u == s then Absent else Page(m, u, w)
  {
    hide Indices;
    var m' := Rooted(m, s, g, upper);
    LowerIndices(w);
    var p := Indices(w);
    LeafFollowsRoles(m'.tables, m'.roles, Roots(m'.spaces), u, p);
    if u == s {
      forall h: nat ensures !IsTable(m'.roles, h, s, p[..3]) {}
    } else {
      LeafFollowsRoles(m.tables, m.roles, Roots(m.spaces), u, p);
      forall h: nat ensures IsTable(m'.roles, h, u, p[..3]) == IsTable(m.roles, h, u, p[..3]) {}
    }
  }

  /** Fields of a descriptor other than the root and the frame table do not matter to the tables. */
  lemma RedescribeIsSound(m: Mem, s: nat, sp: Space)
    requires Sound(m) && s < MAX_SHARDS && sp.pml4 == m.spaces[s].pml4 && sp.frames == m.spaces[s].frames
    ensures Sound(m.(spaces := m.spaces[s := sp])) && SamePages(m, m.(spaces := m.spaces[s := sp]))
  {
    var m' := m.(spaces := m.spaces[s := sp]);
    assert Roots(m'.spaces) == Roots(m.spaces);
    hide Forest, Roots;
    forall u: nat | u < MAX_SHARDS ensures Tracks(m', u) { assert Tracks(m, u); }
    forall h: nat ensures IsTracked(m', h) { assert IsTracked(m, h); }
    forall h: nat ensures Guarded(m', h) { assert Guarded(m, h); }
  }
}
