/** The four-level page tables of mem/page.c as values: what a set of table pages translates. */
module PageShape {
  import opened Common
  import opened Radix

  const ENTRIES: nat := 512

  /** The flag bits of an entry: present, writable, user, and all others. */
  datatype Attr = Attr(present: bool, rw: bool, user: bool, rest: nat)

  const NO_ATTR := Attr(false, false, false, 0)

  datatype Entry = Entry(frame: nat, attr: Attr)

  const EMPTY := Entry(0, NO_ATTR)

  type Table = seq<Entry>

  function ZeroTable(): (t: Table)
    ensures |t| == ENTRIES && forall i :: 0 <= i < ENTRIES ==> t[i] == EMPTY
  {
    seq(ENTRIES, i => EMPTY)
  }

  /** Contents of table pages, by frame number. */
  type Tables = map<nat, Table>

  /** The height of each table page: 3 for the top level, 0 for the tables of pages. */
  type Ranks = map<nat, nat>

  /** A set of table pages seen as a radix tree. `edges` are the links between table pages;
      entries of the lowest tables point to pages, not to tables. */
  datatype Space = Space(m: Tables, r: Ranks, edges: Edges, root: nat)

  /** Slot i of table f may link to another table. */
  ghost predicate LinkSlot(s: Space, f: nat, i: nat) {
    f in s.r && s.r[f] > 0 && i < ENTRIES
  }

  /** The table pages in `r` hang below the root as a tree of the right height. */
  ghost predicate Shaped(s: Space) {
    && s.root in s.r && s.r[s.root] == 3
    && (forall f :: f in s.r ==> f in s.m && |s.m[f]| == ENTRIES && s.r[f] <= 3)
    && (forall k :: k in s.edges ==> LinkSlot(s, k.0, k.1) && s.edges[k] in s.r && s.r[s.edges[k]] == s.r[k.0] - 1)
    && (forall f: nat, i: nat :: LinkSlot(s, f, i) ==> Linked(s, f, i))
    && TreeShaped(s.edges, s.root)
  }

  ghost predicate Linked(s: Space, f: nat, i: nat)
    requires f in s.m && i < |s.m[f]|
  {
    && ((f, i) in s.edges <==> s.m[f][i].attr.present)
    && ((f, i) in s.edges ==> s.edges[(f, i)] == s.m[f][i].frame)
  }

  /** The four slot numbers of a virtual page, top level first. */
  datatype Path = Path(a: nat, b: nat, c: nat, d: nat)

  predicate InTables(v: Path) { v.a < ENTRIES && v.b < ENTRIES && v.c < ENTRIES && v.d < ENTRIES }

  function Upper(v: Path): seq<nat> { [v.a, v.b, v.c] }

  /** The lowest table for a virtual page. */
  ghost function LowTable(s: Space, v: Path): Option<nat> {
    Walk(s.edges, s.root, Upper(v))
  }

  /** The entry that the processor's walk ends at, if every level is present. */
  ghost function Translate(s: Space, v: Path): Option<Entry> {
    var t := LowTable(s, v);
    if t.Some? && t.value in s.m && v.d < |s.m[t.value]| && s.m[t.value][v.d].attr.present
    then Some(s.m[t.value][v.d]) else None
  }

  lemma {:induction false} WalkRank(s: Space, p: seq<nat>)
    requires Shaped(s) && Walk(s.edges, s.root, p).Some?
    ensures var f := Walk(s.edges, s.root, p).value;
            f in s.r && |p| <= 3 && s.r[f] == 3 - |p|
  {
    if p != [] { WalkRank(s, p[..|p| - 1]); }
  }

  lemma LowTableRank(s: Space, v: Path)
    requires Shaped(s) && LowTable(s, v).Some?
    ensures LowTable(s, v).value in s.r && s.r[LowTable(s, v).value] == 0
  {
    WalkRank(s, Upper(v));
  }

  // ----- Rights -----

  /** What an entry allows, or all entries on a walk together: the processor asks every level. */
  datatype Rights = Rights(rw: bool, user: bool)

  function RightsOf(a: Attr): Rights { Rights(a.rw, a.user) }

  function Both(r: Rights, q: Rights): Rights { Rights(r.rw && q.rw, r.user && q.user) }

  /** What the entries along a path allow together, as far as the walk gets. */
  ghost function PathRights(s: Space, p: seq<nat>): Rights {
    if p == [] then Rights(true, true)
    else
      var q, i := p[..|p| - 1], p[|p| - 1];
      var f := Walk(s.edges, s.root, q);
      if f.Some? && (f.value, i) in s.edges && f.value in s.m && i < |s.m[f.value]|
      then Both(PathRights(s, q), RightsOf(s.m[f.value][i].attr))
      else PathRights(s, q)
  }

  /** What the processor allows on a page, if it is mapped: what all four entries of its walk allow. */
  ghost function Access(s: Space, u: Path): Option<Rights> {
    var e := Translate(s, u);
    if e.Some? then Some(Both(PathRights(s, Upper(u)), RightsOf(e.value.attr))) else None
  }

  /** Tables may be new in s', with entries that are writable and have the given user bit. */
  ghost predicate GrownAt(s: Space, s': Space, user: bool, p: seq<nat>) {
    && (Walk(s.edges, s.root, p).Some? ==>
          Walk(s'.edges, s'.root, p) == Walk(s.edges, s.root, p) && PathRights(s', p) == PathRights(s, p))
    && (Walk(s.edges, s.root, p).None? && Walk(s'.edges, s'.root, p).Some? ==>
          PathRights(s', p) == Both(PathRights(s, p), Rights(true, user)))
    && (PathRights(s', p) == PathRights(s, p) || PathRights(s', p) == Both(PathRights(s, p), Rights(true, user)))
  }

  ghost predicate Grown(s: Space, s': Space, user: bool) {
    s'.root == s.root && forall p :: GrownAt(s, s', user, p)
  }

  lemma GrownOn(s: Space, s1: Space, s2: Space, user: bool)
    requires Grown(s, s1, user) && Grown(s1, s2, user)
    ensures Grown(s, s2, user)
  {
    forall p ensures GrownAt(s, s2, user, p) {
      assert GrownAt(s, s1, user, p) && GrownAt(s1, s2, user, p);
    }
  }

  /** Tables may be gone in s'. */
  ghost predicate ShrunkAt(s: Space, s': Space, p: seq<nat>) {
    Walk(s'.edges, s'.root, p).Some? ==>
      Walk(s.edges, s.root, p) == Walk(s'.edges, s'.root, p) && PathRights(s', p) == PathRights(s, p)
  }

  ghost predicate Shrunk(s: Space, s': Space) {
    s'.root == s.root && forall p :: ShrunkAt(s, s', p)
  }

  lemma ShrunkOn(s: Space, s1: Space, s2: Space)
    requires Shrunk(s, s1) && Shrunk(s1, s2)
    ensures Shrunk(s, s2)
  {
    forall p ensures ShrunkAt(s, s2, p) {
      assert ShrunkAt(s, s1, p) && ShrunkAt(s1, s2, p);
    }
  }

  // ----- Tables in use -----

  /** Every table but the root hangs somewhere. */
  ghost predicate Rooted(s: Space) {
    forall f :: f in s.r && f != s.root ==> exists k :: k in s.edges && s.edges[k] == f
  }

  /** A table below the root without entries. */
  ghost predicate IsIdle(s: Space, f: nat) {
    f in s.r && f != s.root && f in s.m && NoEntries(s.m[f])
  }

  /** Tables without entries in s', but for `but`, are tables without entries in s. */
  ghost predicate NoneIdled(s: Space, s': Space, but: nat) {
    s'.root == s.root && forall f :: IsIdle(s', f) && f != but ==> IsIdle(s, f)
  }

  lemma NoneIdledOn(s: Space, s1: Space, s2: Space, f: nat, g: nat)
    requires NoneIdled(s, s1, f) && NoneIdled(s1, s2, g) && !IsIdle(s2, f)
    ensures NoneIdled(s, s2, g)
  {}

  // ----- Writing an entry of a lowest table -----

  function SetEntry(m: Tables, t: nat, i: nat, e: Entry): Tables
    requires t in m && i < |m[t]|
  {
    m[t := m[t][i := e]]
  }

  lemma SetLeafShape(s: Space, t: nat, i: nat, e: Entry)
    requires Shaped(s) && t in s.r && s.r[t] == 0 && i < ENTRIES
    ensures Shaped(s.(m := SetEntry(s.m, t, i, e)))
  {
    var s' := s.(m := SetEntry(s.m, t, i, e));
    forall f: nat, j: nat | LinkSlot(s', f, j) ensures Linked(s', f, j) {
      assert LinkSlot(s, f, j);
    }
  }

  /** Exactly one translation changes. */
  lemma SetLeafTranslates(s: Space, t: nat, v: Path, e: Entry, u: Path)
    requires Shaped(s) && LowTable(s, v) == Some(t) && t in s.r && InTables(v) && InTables(u)
    ensures Translate(s.(m := SetEntry(s.m, t, v.d, e)), u) ==
              if u == v then (if e.attr.present then Some(e) else None) else Translate(s, u)
  {
    if LowTable(s, u) == Some(t) {
      UniquePath(s.edges, s.root, Upper(u), Upper(v));
      assert Upper(u)[0] == u.a && Upper(u)[1] == u.b && Upper(u)[2] == u.c;
    }
  }

  lemma {:induction false} SetLeafRights(s: Space, t: nat, i: nat, e: Entry, p: seq<nat>)
    requires Shaped(s) && t in s.r && s.r[t] == 0 && i < ENTRIES
    ensures PathRights(s.(m := SetEntry(s.m, t, i, e)), p) == PathRights(s, p)
  {
    if p != [] {
      SetLeafRights(s, t, i, e, p[..|p| - 1]);
      var f := Walk(s.edges, s.root, p[..|p| - 1]);
      if f.Some? && (f.value, p[|p| - 1]) in s.edges { assert LinkSlot(s, f.value, p[|p| - 1]); }
    }
  }

  // ----- Hanging in a new table -----

  /** Slot i of table f is empty, and `e` points to a page that is not a table yet. */
  ghost predicate NewTable(s: Space, f: nat, i: nat, e: Entry) {
    && Shaped(s) && LinkSlot(s, f, i) && !s.m[f][i].attr.present
    && e.attr.present && e.frame !in s.r
  }

  ghost function WithTable(s: Space, f: nat, i: nat, e: Entry): Space
    requires NewTable(s, f, i, e)
  {
    Space(SetEntry(s.m[e.frame := ZeroTable()], f, i, e),
          s.r[e.frame := s.r[f] - 1], s.edges[(f, i) := e.frame], s.root)
  }

  lemma NewTableFresh(s: Space, f: nat, i: nat, e: Entry)
    requires NewTable(s, f, i, e)
    ensures Fresh(s.edges, s.root, e.frame) && (f, i) !in s.edges && f != e.frame
  {
    assert Linked(s, f, i);
  }

  lemma NewTableShape(s: Space, f: nat, i: nat, e: Entry)
    requires NewTable(s, f, i, e)
    ensures Shaped(WithTable(s, f, i, e))
  {
    NewTableFresh(s, f, i, e);
    AddKeepsShape(s.edges, s.root, f, i, e.frame);
    var s' := WithTable(s, f, i, e);
    forall h: nat, j: nat | LinkSlot(s', h, j) ensures Linked(s', h, j) {
      if h != e.frame { assert Linked(s, h, j); }
    }
    forall k | k in s'.edges
      ensures LinkSlot(s', k.0, k.1) && s'.edges[k] in s'.r && s'.r[s'.edges[k]] == s'.r[k.0] - 1
    {}
  }

  /** No translation changes. */
  lemma NewTableTranslates(s: Space, f: nat, i: nat, e: Entry, u: Path)
    requires NewTable(s, f, i, e) && InTables(u)
    ensures Translate(WithTable(s, f, i, e), u) == Translate(s, u)
  {
    NewTableFresh(s, f, i, e);
    WalkAdd(s.edges, s.root, f, i, e.frame, Upper(u));
    if LowTable(s, u).Some? { LowTableRank(s, u); }
  }

  /** Rights along walks that exist stay; along those that go on into the new table its entry is added. */
  lemma {:induction false} NewTableGrows(s: Space, f: nat, i: nat, e: Entry, p: seq<nat>)
    requires NewTable(s, f, i, e) && e.attr.rw
    ensures GrownAt(s, WithTable(s, f, i, e), e.attr.user, p)
  {
    NewTableFresh(s, f, i, e);
    WalkAdd(s.edges, s.root, f, i, e.frame, p);
    if p != [] {
      var q, j := p[..|p| - 1], p[|p| - 1];
      NewTableGrows(s, f, i, e, q);
      WalkAdd(s.edges, s.root, f, i, e.frame, q);
      var g := Walk(s.edges, s.root, q);
      if g.Some? {
        WalkRank(s, q);
        if (g.value, j) in s.edges { assert LinkSlot(s, g.value, j); }
      }
    }
  }

  lemma NewTableIdles(s: Space, f: nat, i: nat, e: Entry)
    requires NewTable(s, f, i, e)
    ensures NoneIdled(s, WithTable(s, f, i, e), e.frame) && !IsIdle(WithTable(s, f, i, e), f)
    ensures Rooted(s) ==> Rooted(WithTable(s, f, i, e))
  {
    var s' := WithTable(s, f, i, e);
    assert s'.m[f][i].attr.present;
    if Rooted(s) {
      forall g | g in s'.r && g != s'.root ensures exists k :: k in s'.edges && s'.edges[k] == g {
        if g == e.frame {
          assert s'.edges[(f, i)] == g;
        } else {
          var k :| k in s.edges && s.edges[k] == g;
          assert Linked(s, f, i) && k in s'.edges && s'.edges[k] == g;
        }
      }
    }
  }

  // ----- Cutting off an empty table -----

  ghost predicate NoEntries(t: Table) {
    forall i :: 0 <= i < |t| ==> !t[i].attr.present
  }

  /** Slot i of table f points to a table without entries. */
  ghost predicate EmptyTable(s: Space, f: nat, i: nat) {
    Shaped(s) && LinkSlot(s, f, i) && (f, i) in s.edges && NoEntries(s.m[s.edges[(f, i)]])
  }

  ghost function WithoutTable(s: Space, f: nat, i: nat): Space
    requires EmptyTable(s, f, i)
  {
    var g := s.edges[(f, i)];
    Space(SetEntry(s.m, f, i, EMPTY) - {g}, s.r - {g}, s.edges - {(f, i)}, s.root)
  }

  /** An empty table has no links, so cutting it off leaves no dangling link. */
  lemma EmptyTableHasNoLinks(s: Space, f: nat, i: nat)
    requires EmptyTable(s, f, i)
    ensures forall k :: k in s.edges ==> k.0 != s.edges[(f, i)]
    ensures s.edges[(f, i)] != s.root && s.edges[(f, i)] != f
  {
    var g := s.edges[(f, i)];
    forall k | k in s.edges ensures k.0 != g {
      assert LinkSlot(s, k.0, k.1) && Linked(s, k.0, k.1);
    }
  }

  lemma CutTableShape(s: Space, f: nat, i: nat)
    requires EmptyTable(s, f, i)
    ensures Shaped(WithoutTable(s, f, i))
  {
    EmptyTableHasNoLinks(s, f, i);
    CutKeepsShape(s.edges, s.root, f, i);
    var s' := WithoutTable(s, f, i);
    forall h: nat, j: nat | LinkSlot(s', h, j) ensures Linked(s', h, j) {
      assert LinkSlot(s, h, j) && Linked(s, h, j);
    }
  }

  lemma CutTableTranslates(s: Space, f: nat, i: nat, u: Path)
    requires EmptyTable(s, f, i) && InTables(u)
    ensures Translate(WithoutTable(s, f, i), u) == Translate(s, u)
  {
    EmptyTableHasNoLinks(s, f, i);
    WalkCut(s.edges, s.root, f, i, Upper(u));
    if LowTable(s, u).Some? { LowTableRank(s, u); }
  }

  lemma {:induction false} CutTableShrinks(s: Space, f: nat, i: nat, p: seq<nat>)
    requires EmptyTable(s, f, i)
    ensures ShrunkAt(s, WithoutTable(s, f, i), p)
  {
    EmptyTableHasNoLinks(s, f, i);
    WalkCut(s.edges, s.root, f, i, p);
    if p != [] {
      CutTableShrinks(s, f, i, p[..|p| - 1]);
      WalkCut(s.edges, s.root, f, i, p[..|p| - 1]);
    }
  }

  /** Only the table that loses its link may lose its last entry. */
  lemma CutTableIdles(s: Space, f: nat, i: nat)
    requires EmptyTable(s, f, i)
    ensures NoneIdled(s, WithoutTable(s, f, i), f)
    ensures Rooted(s) ==> Rooted(WithoutTable(s, f, i))
  {
    EmptyTableHasNoLinks(s, f, i);
    var s', g := WithoutTable(s, f, i), s.edges[(f, i)];
    if Rooted(s) {
      forall h | h in s'.r && h != s'.root ensures exists k :: k in s'.edges && s'.edges[k] == h {
        var k :| k in s.edges && s.edges[k] == h;
        assert k != (f, i);
        assert k in s'.edges && s'.edges[k] == h;
      }
    }
  }
}
