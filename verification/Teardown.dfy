/** Taking an address space apart: which frames belong to it, and that removing them leaves the other
    spaces as they were. */
module Teardown {
  import opened Bytes
  import opened PageTables
  import opened Spaces
  import opened ShardSpaces

  function Owned(roles: Roles, s: nat): set<nat> {
    set f | f in roles && roles[f].space == s
  }

  /** The tables of space `s` strictly below index path `p`. */
  function Below(roles: Roles, s: nat, p: seq<nat>): set<nat> {
    set f | f in roles && roles[f].TableOf? && roles[f].space == s && p < roles[f].path
  }

  /** Those that are reached through the first `n` entries of the table at `p`. */
  function BelowUpTo(roles: Roles, s: nat, p: seq<nat>, n: nat): set<nat> {
    set f | f in roles && roles[f].TableOf? && roles[f].space == s && p < roles[f].path && roles[f].path[|p|] < n
  }

  /** The tracked frames after the root, up to index `n` and except physical address 0, which the
      release loop skips. */
  function TrackedUpTo(roles: Roles, s: nat, n: nat): set<nat> {
    set f | f in roles && roles[f].MemoryOf? && roles[f].space == s && roles[f].k < n && f != 0
  }

  function Skipped(roles: Roles, s: nat): set<nat> {
    if 0 in roles && roles[0].MemoryOf? && roles[0].space == s then {0} else {}
  }

  /** Every ancestor path of a table is the path of a table. */
  lemma {:induction false} HasAncestor(m: Mem, s: nat, h: nat, p: seq<nat>) returns (g: nat)
    requires Sound(m) && h in m.roles && m.roles[h].TableOf? && m.roles[h].space == s && p <= m.roles[h].path
    ensures IsTable(m.roles, g, s, p)
    decreases |m.roles[h].path|
  {
    var q := m.roles[h].path;
    if p == q { return h; }
    assert Hangs(m.tables, m.roles, h);
    var n := |q| - 1;
    var up :| IsTable(m.roles, up, s, q[..n]) && Leads(m.tables, up, q[n], h);
    g := HasAncestor(m, s, up, p);
  }

  /** A table below `p` through entry `i` exists only if that entry is present. */
  lemma EntryOfDescendant(m: Mem, s: nat, f: nat, p: seq<nat>, h: nat)
    requires Sound(m) && IsTable(m.roles, f, s, p) && f in m.tables && h in Below(m.roles, s, p)
    ensures m.roles[h].path[|p|] < ENTRIES && m.tables[f][m.roles[h].path[|p|]].Entry?
  {
    var q := m.roles[h].path;
    var i := q[|p|];
    assert p + [i] == q[..|p| + 1];
    var g := HasAncestor(m, s, h, p + [i]);
    assert Hangs(m.tables, m.roles, g);
    assert (p + [i])[..|p|] == p;
  }

  /** What one round of the release loop over the table at `p` adds. */
  lemma OneEntry(m: Mem, s: nat, f: nat, p: seq<nat>, i: nat)
    requires Sound(m) && IsTable(m.roles, f, s, p) && |p| < 3 && Usable(p, i) && f in m.tables
    ensures m.tables[f][i].Absent? ==> BelowUpTo(m.roles, s, p, i + 1) == BelowUpTo(m.roles, s, p, i)
    ensures m.tables[f][i].Entry? ==>
              var g := m.tables[f][i].frame;
              && IsTable(m.roles, g, s, p + [i]) && g !in BelowUpTo(m.roles, s, p, i)
              && BelowUpTo(m.roles, s, p, i + 1) == BelowUpTo(m.roles, s, p, i) + {g} + Below(m.roles, s, p + [i])
              && Below(m.roles, s, p + [i]) !! BelowUpTo(m.roles, s, p, i)
              && g !in Below(m.roles, s, p + [i]) && g in Below(m.roles, s, p) && g in Owned(m.roles, s)
  {
    assert Descends(m.tables, m.roles, f, i);
    forall h | h in Below(m.roles, s, p) && m.roles[h].path[|p|] == i
      ensures m.tables[f][i].Entry? && (m.roles[h].path == p + [i] || h in Below(m.roles, s, p + [i]))
    {
      EntryOfDescendant(m, s, f, p, h);
      assert m.roles[h].path[..|p| + 1] == p + [i];
    }
  }

  lemma BelowFacts(roles: Roles, s: nat, p: seq<nat>, n: nat, f: nat)
    ensures BelowUpTo(roles, s, p, n) <= Below(roles, s, p)
    ensures IsTable(roles, f, s, p) ==> f !in Below(roles, s, p)
    ensures Below(roles, s, p + [n]) <= Below(roles, s, p)
  {}

  /** What one round of the loop over tracked frames adds. */
  lemma OneTracked(m: Mem, s: nat, i: nat)
    requires Sound(m) && s < MAX_SHARDS && 1 <= i < |m.spaces[s].frames|
    ensures var f := m.spaces[s].frames[i];
            && f in Owned(m.roles, s) && f !in TrackedUpTo(m.roles, s, i)
            && TrackedUpTo(m.roles, s, i + 1) == TrackedUpTo(m.roles, s, i) + (if f == 0 then {} else {f})
  {
    assert Tracks(m, s);
    forall f | f in TrackedUpTo(m.roles, s, i + 1) && m.roles[f].k == i ensures f == m.spaces[s].frames[i] {
      assert IsTracked(m, f);
    }
  }

  lemma RootIsOwned(m: Mem, s: nat)
    requires Sound(m) && s < MAX_SHARDS && Present(m.spaces[s])
    ensures m.spaces[s].pml4 in Owned(m.roles, s) && m.spaces[s].pml4 !in Below(m.roles, s, [])
  {
    RootFacts(m, s);
  }

  lemma NoneTracked(m: Mem, s: nat)
    requires Sound(m)
    ensures TrackedUpTo(m.roles, s, 1) == {}
  {
    forall f: nat ensures f !in TrackedUpTo(m.roles, s, 1) { assert IsTracked(m, f); }
  }

  lemma TrackedIsNoTable(m: Mem, s: nat, n: nat)
    ensures forall p :: Below(m.roles, s, p) !! TrackedUpTo(m.roles, s, n)
    ensures forall f :: f in m.roles && m.roles[f].TableOf? ==> f !in TrackedUpTo(m.roles, s, n)
  {}

  ghost predicate Zeroed(tables: Tables, data: map<nat, seq<byte>>, f: nat) {
    f in tables && tables[f] == ZeroTable() && f in data && data[f] == Chunk([], 0)
  }

  lemma NothingYet(roles: Roles, s: nat, p: seq<nat>)
    ensures BelowUpTo(roles, s, p, 0) == {}
  {}

  /** All entries cover all tables below; below the last level there are none. */
  lemma AllEntries(m: Mem, s: nat, p: seq<nat>)
    requires Sound(m)
    ensures BelowUpTo(m.roles, s, p, if p == [] then 256 else ENTRIES) == Below(m.roles, s, p)
    ensures |p| == 3 ==> Below(m.roles, s, p) == {}
  {}

  /** The frames released are all frames of the shard but the skipped one. */
  lemma EverythingReleased(m: Mem, s: nat)
    requires Sound(m) && s < MAX_SHARDS && Present(m.spaces[s])
    ensures var sp := m.spaces[s];
            TrackedUpTo(m.roles, s, |sp.frames|) + Below(m.roles, s, []) + {sp.pml4} == Owned(m.roles, s) - Skipped(m.roles, s)
  {
    var sp := m.spaces[s];
    RootFacts(m, s);
    forall f | f in Owned(m.roles, s) - Skipped(m.roles, s)
      ensures f in TrackedUpTo(m.roles, s, |sp.frames|) + Below(m.roles, s, []) + {sp.pml4}
    {
      assert IsTracked(m, f);
    }
  }

  // ------------------------------------------------------------------ what is left

  function Without(roles: Roles, s: nat): Roles {
    map f | f in roles && roles[f].space != s :: roles[f]
  }

  /** `m'` is `m` after shard `s` has been taken apart. */
  ghost predicate TakenApart(m: Mem, m': Mem, s: nat) {
    && |m.spaces| == |m'.spaces| == MAX_SHARDS && s < MAX_SHARDS && m'.devices == m.devices && m'.upper == m.upper
    && m'.spaces == m.spaces[s := m.spaces[s].(life := Destroyed, pml4 := 0, frames := [])]
    && m'.roles == Without(m.roles, s)
    && (forall f :: f in m.tables && f !in Owned(m.roles, s) ==> f in m'.tables && m'.tables[f] == m.tables[f])
    && (forall f :: f in m.data && f !in Owned(m.roles, s) ==> f in m'.data && m'.data[f] == m.data[f])
  }

  lemma ForestWithout(m: Mem, m': Mem, s: nat)
    requires Sound(m) && TakenApart(m, m', s)
    ensures Forest(m'.tables, m'.roles, Roots(m'.spaces))
  {
    forall h: nat ensures Hangs(m'.tables, m'.roles, h) {
      assert Hangs(m.tables, m.roles, h);
      if h in m'.roles && m'.roles[h].TableOf? && m'.roles[h].path != [] {
        var n := |m.roles[h].path| - 1;
        var up :| IsTable(m.roles, up, m.roles[h].space, m.roles[h].path[..n]) && Leads(m.tables, up, m.roles[h].path[n], h);
        assert IsTable(m'.roles, up, m.roles[h].space, m.roles[h].path[..n]) && Leads(m'.tables, up, m.roles[h].path[n], h);
      }
    }
    forall h: nat, k: nat ensures Descends(m'.tables, m'.roles, h, k) { assert Descends(m.tables, m.roles, h, k); }
    forall u | u in Roots(m'.spaces) ensures IsTable(m'.roles, Roots(m'.spaces)[u], u, []) {
      assert u in Roots(m.spaces) && Roots(m'.spaces)[u] == Roots(m.spaces)[u];
    }
  }

  lemma TakenApartIsSound(m: Mem, m': Mem, s: nat)
    requires Sound(m) && TakenApart(m, m', s)
    ensures Sound(m')
  {
    hide Forest, Roots;
    ForestWithout(m, m', s);
    forall u: nat | u < MAX_SHARDS ensures Tracks(m', u) { assert Tracks(m, u); }
    forall h: nat ensures IsTracked(m', h) { assert IsTracked(m, h); }
    LastTablesExist(m);
    forall h: nat ensures Guarded(m', h) { assert Guarded(m, h); }
  }

  lemma LastTablesExist(m: Mem)
    requires Sound(m)
    ensures forall h: nat :: IsLast(m.roles, h) || IsRoot(m.roles, h) ==> h in m.tables
  {}

  lemma RootStays(m: Mem, m': Mem, s: nat, u: nat)
    requires TakenApart(m, m', s) && u < MAX_SHARDS && u != s && Present(m.spaces[u])
    ensures u in Roots(m.spaces) && u in Roots(m'.spaces)
    ensures Roots(m.spaces)[u] == Roots(m'.spaces)[u] == m.spaces[u].pml4 == m'.spaces[u].pml4
  {}

  /** The pages of the other shards translate as before. */
  lemma OtherPagesStay(m: Mem, m': Mem, s: nat, u: nat, w: nat)
    requires Sound(m) && Sound(m') && TakenApart(m, m', s) && u < MAX_SHARDS && u != s && Present(m.spaces[u]) && Lower(w)
    ensures Page(m', u, w) == Page(m, u, w)
  {
    hide Indices, Forest, Leaf, Tracks, IsTracked, Guarded;
    LowerIndices(w);
    RootStays(m, m', s, u);
    var p := Indices(w);
    LeafFollowsRoles(m.tables, m.roles, Roots(m.spaces), u, p);
    LeafFollowsRoles(m'.tables, m'.roles, Roots(m'.spaces), u, p);
    forall h: nat ensures IsTable(m'.roles, h, u, p[..3]) == IsTable(m.roles, h, u, p[..3]) {}
  }

  lemma TakenApartIsGood(m: Mem, m': Mem, s: nat)
    requires Good(m) && TakenApart(m, m', s)
    ensures Good(m')
    ensures forall u: nat, w: nat :: u < MAX_SHARDS && u != s && Present(m.spaces[u]) && Lower(w) ==> Page(m', u, w) == Page(m, u, w)
  {
    hide Sound, Page;
    TakenApartIsSound(m, m', s);
    forall u: nat, w: nat | u < MAX_SHARDS && u != s && Present(m.spaces[u]) && Lower(w) ensures Page(m', u, w) == Page(m, u, w) {
      OtherPagesStay(m, m', s, u, w);
    }
    forall u: nat | u < MAX_SHARDS ensures Complete(m', u) {
      assert Complete(m, u);
      if u != s && Present(m.spaces[u]) {
        forall v: nat, x: bool | v < 0x800 && UserPage(m, u, v, x) ensures UserPage(m', u, v, x) {}
      }
    }
  }

  /** Removing what a new shard has gained gives back the roles from before it. */
  lemma RolesReturn(m: Mem, m': Mem, s: nat)
    requires Sound(m) && s < MAX_SHARDS && !Present(m.spaces[s]) && Grown(m, m', s)
    ensures Without(m'.roles, s) == m.roles
    ensures 0 !in m'.roles ==> Skipped(m'.roles, s) == {}
  {
    forall f: nat ensures f in m.roles ==> m.roles[f].space != s { assert IsTracked(m, f); }
  }

  /** Where no shard has an address space, no frame has a role. */
  lemma NobodyOwnsNothing(m: Mem)
    requires Good(m)
    ensures |m.spaces| == MAX_SHARDS
    ensures (forall s: nat :: s < MAX_SHARDS ==> !Present(m.spaces[s])) ==> m.roles == map[]
  {
    if forall s: nat :: s < MAX_SHARDS ==> !Present(m.spaces[s]) {
      assert Roots(m.spaces) == map[];
      forall f: nat ensures f !in m.roles { assert IsTracked(m, f); }
    }
  }
}
