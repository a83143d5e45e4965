/** Four-level page tables in physical memory. Several address spaces share that memory; a map
    from frames to the role they play makes the tables a forest without aliases. */
module PageTables {
  import opened Bitmap

  const ENTRIES: nat := 512

  /** Entry flags other than PRESENT. */
  datatype Flags = Flags(writable: bool, user: bool, noExecute: bool, uncached: bool)

  datatype Pte = Absent | Entry(frame: nat, flags: Flags)

  type Table = t: seq<Pte> | |t| == ENTRIES witness seq(ENTRIES, _ => Absent)

  function ZeroTable(): Table {
    seq(ENTRIES, _ => Absent)
  }

  // ------------------------------------------------------------------ the packed entry

  /** `PageTableEntry::set`, with the PRESENT bit every caller adds. */
  function Pack(phys: bv64, flags: bv64): bv64 {
    (phys & 0x000F_FFFF_FFFF_F000) | (flags | 1)
  }

  /** The packed word loses nothing: a page-aligned address below 2^52 and flags outside the address
      bits come back as they went in, and the entry is present. */
  lemma PackUnpack(phys: bv64, flags: bv64)
    requires phys & 0xFFF0_0000_0000_0FFF == 0 && flags & 0x000F_FFFF_FFFF_F000 == 0
    ensures Pack(phys, flags) & 0x000F_FFFF_FFFF_F000 == phys
    ensures Pack(phys, flags) & 0xFFF0_0000_0000_0FFF == flags | 1
    ensures Pack(phys, flags) & 1 != 0
  {}

  // ------------------------------------------------------------------ virtual addresses

  /** The table indices of a virtual page number, root first: bits 47:39, 38:30, 29:21 and 20:12 of
      the address. */
  function Indices(vpn: nat): (p: seq<nat>)
    ensures |p| == 4 && forall k :: 0 <= k < 4 ==> p[k] < ENTRIES
  {
    var b := vpn / 512;
    var c := b / 512;
    [c / 512 % 512, c % 512, b % 512, vpn % 512]
  }

  /** The four indices are the digits of the page number, root first, for every lower-half page. */
  lemma IndicesAreDigits(v: nat)
    requires v < 0x8_0000_0000
    ensures var p := Indices(v);
            v == ((p[0] * 512 + p[1]) * 512 + p[2]) * 512 + p[3] && p[0] < 256
  {
    var b := v / 512;
    var c := b / 512;
    assert c / 512 % 512 == c / 512;
  }

  /** Two lower-half pages have the same indices only if they are the same page. */
  lemma IndicesAreInjective(v: nat, w: nat)
    requires v < 0x8_0000_0000 && w < 0x8_0000_0000 && Indices(v) == Indices(w)
    ensures v == w
  {
    IndicesAreDigits(v);
    IndicesAreDigits(w);
  }

  // ------------------------------------------------------------------ walking

  type Tables = map<nat, Table>

  /** The table reached from `root` by following present entries along `path`. */
  function TableAt(tables: Tables, root: nat, path: seq<nat>): Option<nat>
    decreases |path|
  {
    if path == [] then Some(root)
    else
      var n := |path| - 1;
      var up := TableAt(tables, root, path[..n]);
      if up.None? || up.value !in tables || path[n] >= ENTRIES then None
      else
        var e := tables[up.value][path[n]];
        if e.Entry? then Some(e.frame) else None
  }

  /** The translation of the page with indices `p`. */
  function Leaf(tables: Tables, root: nat, p: seq<nat>): Pte
    requires |p| == 4
  {
    var t := TableAt(tables, root, p[..3]);
    if t.None? || t.value !in tables || p[3] >= ENTRIES then Absent else tables[t.value][p[3]]
  }

  // ------------------------------------------------------------------ roles of frames

  /** A frame is a table of one space at one place in its tree, or the `k`-th memory frame of one,
      which may be mapped at index path `at` only (`[]`: nowhere). */
  datatype Role = TableOf(space: nat, path: seq<nat>) | MemoryOf(space: nat, k: nat, at: seq<nat>)

  type Roles = map<nat, Role>

  /** An index path of a lower-half table or page. */
  predicate LowerHalf(p: seq<nat>) {
    (forall k :: 0 <= k < |p| ==> p[k] < ENTRIES) && (p != [] ==> p[0] < 256)
  }

  ghost predicate IsTable(roles: Roles, f: nat, s: nat, p: seq<nat>) {
    f in roles && roles[f] == TableOf(s, p)
  }

  /** `i` is an index a shard may use in the table at `p`: the root's upper half is the supervisor's. */
  predicate Usable(p: seq<nat>, i: nat) {
    i < ENTRIES && (p == [] ==> i < 256)
  }

  /** The roles of the tables: each sits at a lower-half path of a known space, no two at the same. */
  ghost predicate Placed(tables: Tables, roles: Roles, roots: map<nat, nat>) {
    && (forall s :: s in roots ==> IsTable(roles, roots[s], s, []))
    && (forall f :: f in roles && roles[f].TableOf? ==>
          f in tables && |roles[f].path| <= 3 && LowerHalf(roles[f].path) && roles[f].space in roots)
    && (forall f, g :: f in roles && g in roles && roles[f].TableOf? && roles[f] == roles[g] ==> f == g)
  }

  /** Entry `i` of table `up` leads to `f`. */
  ghost predicate Leads(tables: Tables, up: nat, i: nat, f: nat) {
    up in tables && i < ENTRIES && tables[up][i].Entry? && tables[up][i].frame == f
  }

  /** A table other than a root hangs from its parent. */
  ghost predicate Hangs(tables: Tables, roles: Roles, f: nat) {
    f in roles && roles[f].TableOf? && roles[f].path != [] ==>
      var n := |roles[f].path| - 1;
      exists up :: IsTable(roles, up, roles[f].space, roles[f].path[..n]) && Leads(tables, up, roles[f].path[n], f)
  }

  /** A present entry above the last level leads to the table one step further. */
  ghost predicate Descends(tables: Tables, roles: Roles, f: nat, i: nat) {
    f in roles && roles[f].TableOf? && |roles[f].path| < 3 && Usable(roles[f].path, i)
    && f in tables && tables[f][i].Entry? ==>
      IsTable(roles, tables[f][i].frame, roles[f].space, roles[f].path + [i])
  }

  /** The tables of all spaces form a forest without aliases. */
  ghost predicate Forest(tables: Tables, roles: Roles, roots: map<nat, nat>) {
    && Placed(tables, roles, roots)
    && (forall f: nat :: Hangs(tables, roles, f))
    && (forall f: nat, i: nat :: Descends(tables, roles, f, i))
  }

  /** Walking reaches exactly the frame whose role is that table. */
  lemma {:induction false} WalkFollowsRoles(tables: Tables, roles: Roles, roots: map<nat, nat>, s: nat, p: seq<nat>)
    requires Forest(tables, roles, roots) && s in roots && |p| <= 3 && LowerHalf(p)
    ensures forall f: nat :: TableAt(tables, roots[s], p) == Some(f) <==> IsTable(roles, f, s, p)
    decreases |p|
  {
    if p != [] {
      var n := |p| - 1;
      WalkFollowsRoles(tables, roles, roots, s, p[..n]);
      assert p == p[..n] + [p[n]];
      forall f: nat ensures TableAt(tables, roots[s], p) == Some(f) <==> IsTable(roles, f, s, p) {
        assert Hangs(tables, roles, f);
        if TableAt(tables, roots[s], p) == Some(f) {
          assert Descends(tables, roles, TableAt(tables, roots[s], p[..n]).value, p[n]);
        }
      }
    }
  }

  /** The translation of a page is the entry of the frame in the role of its last-level table. */
  lemma LeafFollowsRoles(tables: Tables, roles: Roles, roots: map<nat, nat>, s: nat, p: seq<nat>)
    requires Forest(tables, roles, roots) && s in roots && |p| == 4 && LowerHalf(p)
    ensures forall f: nat :: IsTable(roles, f, s, p[..3]) ==> f in tables && Leaf(tables, roots[s], p) == tables[f][p[3]]
    ensures (forall f: nat :: !IsTable(roles, f, s, p[..3])) ==> Leaf(tables, roots[s], p) == Absent
  {
    WalkFollowsRoles(tables, roles, roots, s, p[..3]);
  }

  // ------------------------------------------------------------------ the two writes of map_4k

  const PARENT_FLAGS := Flags(true, true, false, false)

  /** `ensure_table` on an absent entry: hang the zeroed frame `g` at index `i` of table `f`. */
  function Linked(tables: Tables, f: nat, i: nat, g: nat): Tables
    requires f in tables && i < ENTRIES
  {
    tables[f := tables[f][i := Entry(g, PARENT_FLAGS)]][g := ZeroTable()]
  }

  /** The state in which `ensure_table` links: an absent entry of a table, and a frame without a role. */
  ghost predicate CanLink(tables: Tables, roles: Roles, roots: map<nat, nat>, f: nat, i: nat, g: nat, s: nat, p: seq<nat>) {
    && Forest(tables, roles, roots) && IsTable(roles, f, s, p) && |p| < 3 && Usable(p, i)
    && f in tables && tables[f][i].Absent? && g !in roles
  }

  lemma LinkKeepsForest(tables: Tables, roles: Roles, roots: map<nat, nat>, f: nat, i: nat, g: nat, s: nat, p: seq<nat>)
    requires CanLink(tables, roles, roots, f, i, g, s, p)
    ensures Forest(Linked(tables, f, i, g), roles[g := TableOf(s, p + [i])], roots)
  {
    var tables', roles' := Linked(tables, f, i, g), roles[g := TableOf(s, p + [i])];
    LinkKeepsPlaced(tables, roles, roots, f, i, g, s, p);
    forall h: nat ensures Hangs(tables', roles', h) { LinkKeepsHanging(tables, roles, roots, f, i, g, s, p, h); }
    hide Placed, Hangs;
    forall h: nat, k: nat ensures Descends(tables', roles', h, k) { assert Descends(tables, roles, h, k); }
  }

  lemma LinkKeepsPlaced(tables: Tables, roles: Roles, roots: map<nat, nat>, f: nat, i: nat, g: nat, s: nat, p: seq<nat>)
    requires CanLink(tables, roles, roots, f, i, g, s, p)
    ensures Placed(Linked(tables, f, i, g), roles[g := TableOf(s, p + [i])], roots)
  {
    var roles' := roles[g := TableOf(s, p + [i])];
    assert (p + [i])[..|p|] == p;
    forall h: nat ensures !IsTable(roles, h, s, p + [i]) { assert Hangs(tables, roles, h); }
    forall h, k | h in roles' && k in roles' && roles'[h].TableOf? && roles'[h] == roles'[k] ensures h == k {
      assert !IsTable(roles, k, s, p + [i]) && !IsTable(roles, h, s, p + [i]);
    }
  }

  lemma LinkKeepsHanging(tables: Tables, roles: Roles, roots: map<nat, nat>, f: nat, i: nat, g: nat, s: nat, p: seq<nat>, h: nat)
    requires CanLink(tables, roles, roots, f, i, g, s, p)
    ensures Hangs(Linked(tables, f, i, g), roles[g := TableOf(s, p + [i])], h)
  {
    hide Placed, Descends;
    var tables', roles' := Linked(tables, f, i, g), roles[g := TableOf(s, p + [i])];
    if h == g {
      assert (p + [i])[..|p|] == p;
      assert IsTable(roles', f, s, p) && Leads(tables', f, i, g);
    } else if h in roles && roles[h].TableOf? && roles[h].path != [] {
      assert Hangs(tables, roles, h);
      var n := |roles[h].path| - 1;
      var up :| IsTable(roles, up, roles[h].space, roles[h].path[..n]) && Leads(tables, up, roles[h].path[n], h);
      assert IsTable(roles', up, roles[h].space, roles[h].path[..n]) && Leads(tables', up, roles[h].path[n], h);
    }
  }

  /** Linking a table changes the translation of no page of any space. */
  lemma LinkKeepsLeaves(tables: Tables, roles: Roles, roots: map<nat, nat>, f: nat, i: nat, g: nat, s: nat, p: seq<nat>, u: nat, q: seq<nat>)
    requires CanLink(tables, roles, roots, f, i, g, s, p)
    requires u in roots && |q| == 4 && LowerHalf(q)
    ensures Leaf(Linked(tables, f, i, g), roots[u], q) == Leaf(tables, roots[u], q)
  {
    hide Forest, Leaf;
    var tables', roles' := Linked(tables, f, i, g), roles[g := TableOf(s, p + [i])];
    LinkKeepsForest(tables, roles, roots, f, i, g, s, p);
    LeafFollowsRoles(tables, roles, roots, u, q);
    LeafFollowsRoles(tables', roles', roots, u, q);
    if h: nat :| IsTable(roles, h, u, q[..3]) {
      assert IsTable(roles', h, u, q[..3]) && h != f && tables'[h] == tables[h];
    } else if h: nat :| IsTable(roles', h, u, q[..3]) {
      assert !IsTable(roles, h, u, q[..3]);
      assert h == g && tables'[g] == ZeroTable();
    }
  }

  lemma LeafWriteKeepsForest(tables: Tables, roles: Roles, roots: map<nat, nat>, f: nat, s: nat, p: seq<nat>, e: Pte)
    requires Forest(tables, roles, roots) && |p| == 4 && LowerHalf(p) && IsTable(roles, f, s, p[..3]) && f in tables
    ensures Forest(tables[f := tables[f][p[3] := e]], roles, roots)
  {
    var tables' := tables[f := tables[f][p[3] := e]];
    forall h: nat ensures Hangs(tables', roles, h) {
      assert Hangs(tables, roles, h);
      if h in roles && roles[h].TableOf? && roles[h].path != [] {
        var n := |roles[h].path| - 1;
        var up :| IsTable(roles, up, roles[h].space, roles[h].path[..n]) && Leads(tables, up, roles[h].path[n], h);
        assert up != f && Leads(tables', up, roles[h].path[n], h);
      }
    }
    forall h: nat, k: nat ensures Descends(tables', roles, h, k) { assert Descends(tables, roles, h, k); }
  }

  /** Writing a last-level entry changes exactly that page's translation. */
  lemma LeafWriteIsLocal(tables: Tables, roles: Roles, roots: map<nat, nat>, f: nat, s: nat, p: seq<nat>, e: Pte, u: nat, q: seq<nat>)
    requires Forest(tables, roles, roots) && |p| == 4 && LowerHalf(p) && IsTable(roles, f, s, p[..3]) && f in tables
    requires u in roots && |q| == 4 && LowerHalf(q)
    ensures Leaf(tables[f := tables[f][p[3] := e]], roots[u], q)
            == if u == s && q == p then e else Leaf(tables, roots[u], q)
  {
    var tables' := tables[f := tables[f][p[3] := e]];
    LeafWriteKeepsForest(tables, roles, roots, f, s, p, e);
    LeafFollowsRoles(tables, roles, roots, u, q);
    LeafFollowsRoles(tables', roles, roots, u, q);
    assert q == q[..3] + [q[3]] && p == p[..3] + [p[3]];
    if h: nat :| IsTable(roles, h, u, q[..3]) {
      assert h == f <==> u == s && q[..3] == p[..3];
    }
  }
}
