/** What mmap and munmap do together: which tables there are, and what the processor allows (mem/page.c). */
module PagesRun {
  import opened Common
  import opened Radix
  import opened PageShape
  import opened Pages

  // ----- Tables are there for mapped pages -----

  /** Every table hangs in the tree, and every table below the root has an entry. */
  ghost predicate Tidy(s: Space) { Shaped(s) && Rooted(s) && forall f :: !IsIdle(s, f) }

  lemma {:induction false} PathTo(s: Space, f: nat) returns (p: seq<nat>)
    requires Shaped(s) && Rooted(s) && f in s.r
    ensures Walk(s.edges, s.root, p) == Some(f)
    decreases 3 - s.r[f]
  {
    if f == s.root {
      p := [];
    } else {
      var k :| k in s.edges && s.edges[k] == f;
      p := PathTo(s, k.0);
      WalkSnoc(s.edges, s.root, p, k.1);
      p := p + [k.1];
    }
  }

  lemma {:induction false} WalkInTables(s: Space, p: seq<nat>)
    requires Shaped(s) && Walk(s.edges, s.root, p).Some?
    ensures forall j :: 0 <= j < |p| ==> p[j] < ENTRIES
  {
    if p != [] {
      WalkInTables(s, p[..|p| - 1]);
      var f := Walk(s.edges, s.root, p[..|p| - 1]).value;
      assert LinkSlot(s, f, p[|p| - 1]);
    }
  }

  /** A walk that gets to the end gets to every table on the way. */
  lemma {:induction false} PrefixWalk(e: Edges, root: nat, p: seq<nat>, k: nat)
    requires Walk(e, root, p).Some? && k <= |p|
    ensures Walk(e, root, p[..k]).Some?
  {
    if k < |p| {
      PrefixWalk(e, root, p[..|p| - 1], k);
      assert p[..|p| - 1][..k] == p[..k];
    } else {
      assert p[..k] == p;
    }
  }

  lemma EntryOf(s: Space, f: nat) returns (i: nat)
    requires Tidy(s) && f in s.r && f != s.root
    ensures i < ENTRIES && s.m[f][i].attr.present
  {
    assert !IsIdle(s, f);
    i :| 0 <= i < |s.m[f]| && s.m[f][i].attr.present;
  }

  lemma PrefixOf(p: seq<nat>, i: nat, q: seq<nat>)
    requires |p| < |q| && p + [i] == q[..|p + [i]|]
    ensures p == q[..|p|]
  {
    assert p == (p + [i])[..|p|] == q[..|p + [i]|][..|p|];
  }

  /** Below every table but the root a page is mapped. */
  lemma {:induction false} PageBelow(s: Space, p: seq<nat>) returns (u: Path)
    requires Tidy(s) && Walk(s.edges, s.root, p).Some? && p != []
    ensures InTables(u) && Translate(s, u).Some? && |p| <= 3 && p == Upper(u)[..|p|]
    decreases 3 - |p|
  {
    var f := Walk(s.edges, s.root, p).value;
    WalkRank(s, p);
    WalkInTables(s, p);
    var i := EntryOf(s, f);
    if |p| == 3 {
      u := Path(p[0], p[1], p[2], i);
      assert Upper(u) == p;
    } else {
      assert Linked(s, f, i);
      WalkSnoc(s.edges, s.root, p, i);
      u := PageBelow(s, p + [i]);
      PrefixOf(p, i, Upper(u));
    }
  }

  /** In a tidy space a table is where a mapped page needs it, and nowhere else. */
  lemma TableIffPage(s: Space, p: seq<nat>)
    requires Tidy(s) && 0 < |p| <= 3
    ensures Walk(s.edges, s.root, p).Some? <==>
            exists u :: InTables(u) && Translate(s, u).Some? && p == Upper(u)[..|p|]
  {
    if Walk(s.edges, s.root, p).Some? {
      var u := PageBelow(s, p);
    }
    forall u | InTables(u) && Translate(s, u).Some? && p == Upper(u)[..|p|] ensures Walk(s.edges, s.root, p).Some? {
      PrefixWalk(s.edges, s.root, Upper(u), |p|);
    }
  }

  // ----- Mapping and unmapping again -----

  lemma SameWalk(s: Space, s': Space, p: seq<nat>)
    requires Tidy(s) && Shaped(s') && SameTranslations(s, s') && Walk(s.edges, s.root, p).Some? && s'.root == s.root
    ensures Walk(s'.edges, s'.root, p).Some?
  {
    if p != [] {
      var u := PageBelow(s, p);
      PrefixWalk(s'.edges, s'.root, Upper(u), |p|);
    }
  }

  /** After growing and shrinking to the same translations the tables are the same pages. */
  lemma SameTables(s: Space, s1: Space, s2: Space, user: bool)
    requires Tidy(s) && Tidy(s2) && Grown(s, s1, user) && Shrunk(s1, s2) && SameTranslations(s, s2)
    ensures s2.r.Keys == s.r.Keys
  {
    forall f | f in s.r ensures f in s2.r {
      var p := PathTo(s, f);
      SameWalk(s, s2, p);
      assert GrownAt(s, s1, user, p) && ShrunkAt(s1, s2, p);
      WalkRank(s2, p);
    }
    forall f | f in s2.r ensures f in s.r {
      var p := PathTo(s2, f);
      SameWalk(s2, s, p);
      assert GrownAt(s, s1, user, p) && ShrunkAt(s1, s2, p);
      WalkRank(s, p);
    }
  }

  lemma SamePool(pool: seq<nat>, rank: Ranks, pool': seq<nat>, rank': Ranks)
    requires Stock(pool', rank') == Stock(pool, rank) && rank'.Keys == rank.Keys
    ensures multiset(pool') == multiset(pool)
  {
    assert multiset(pool) == Stock(pool, rank) - multiset(rank.Keys);
    assert multiset(pool') == Stock(pool', rank') - multiset(rank'.Keys);
  }

  /** No page of the range is mapped. */
  ghost predicate RangeUnmapped(s: Space, v: nat, n: nat) {
    forall u :: InTables(u) && Offset(u, v) < n ==> Translate(s, u).None?
  }

  lemma MappedThenUnmapped(s: Space, s1: Space, s2: Space, v: nat, n: nat, frame: nat, attr: Attr)
    requires Shaped(s2) && Tidy(s) && RangeUnmapped(s, v, n) && attr.present
    requires MapState(s, s1, v, n, frame, attr) && Unmapped(s1, s2, v, n) && Shed(s1, s2)
    ensures Tidy(s2) && SameTranslations(s, s2) && s2.r.Keys == s.r.Keys
  {
    forall u | InTables(u) ensures Translate(s2, u) == Translate(s, u) {
      assert Translate(s1, u) == Expected(s, u, v, n, frame, attr);
    }
    NoneIdledOn(s, s1, s2, s.root, s.root);
    assert forall f :: IsIdle(s2, f) ==> IsIdle(s, f);
    SameTables(s, s1, s2, attr.user);
  }

  lemma StaysAnchored(s: Space, s1: Space, v: nat, n: nat, frame: nat, attr: Attr)
    requires Anchored(s, v, n) && Mapped(s, s1, v, n, frame, attr)
    ensures Anchored(s1, v, n)
  {
    forall u | InTables(u) && Offset(u, v) < n ensures HasAnchor(s1, v, n, u.a) {
      assert HasAnchor(s, v, n, u.a);
      var w :| InTables(w) && w.a == u.a && Offset(w, v) >= n && Translate(s, w).Some?;
      assert Translate(s1, w) == Expected(s, w, v, n, frame, attr);
    }
  }

  lemma NowMapped(s: Space, s1: Space, v: nat, n: nat, frame: nat, attr: Attr)
    requires Mapped(s, s1, v, n, frame, attr) && attr.present
    ensures RangeMapped(s1, v, n)
  {
    forall u | InTables(u) && Offset(u, v) < n ensures Translate(s1, u).Some? {
      assert Translate(s1, u) == Expected(s, u, v, n, frame, attr);
    }
  }

  lemma SameAccess(s: Space, s1: Space, s2: Space, v: nat, n: nat, attr: Attr)
    requires RangeUnmapped(s, v, n) && RightsMapped(s, s1, v, n, attr) && RightsUnmapped(s1, s2, v, n)
    ensures forall u :: InTables(u) ==> Access(s2, u) == Access(s, u)
  {
    forall u | InTables(u) ensures Access(s2, u) == Access(s, u) {
      assert Access(s1, u) == if Offset(u, v) < n then Granted(s, u, attr) else Access(s, u);
    }
  }

  /** mmap of a range that is not mapped, and then munmap of it: every page translates and is allowed as before, the
      same pages are tables, and every page that was used on the way is back in the pool. */
  method MmapThenMunmap(pm: PageMemory, root: nat, frame: nat, v: nat, n: nat, attr: Attr, kernelRoot: nat)
    requires pm.Valid(root) && n <= SPAN && Tidy(pm.At(root)) && RangeUnmapped(pm.At(root), v, n)
    requires attr.present && |pm.pool| >= 3 * n && (kernelRoot == root || Anchored(pm.At(root), v, n))
    modifies pm
    ensures pm.Valid(root) && Tidy(pm.At(root)) && SameTranslations(old(pm.At(root)), pm.At(root))
    ensures forall u :: InTables(u) ==> Access(pm.At(root), u) == Access(old(pm.At(root)), u)
    ensures pm.rank.Keys == old(pm.rank.Keys) && multiset(pm.pool) == multiset(old(pm.pool))
  {
    ghost var s := pm.At(root);
    var done := Mmap(pm, root, frame, v, n, attr);
    ghost var s1 := pm.At(root);
    NowMapped(s, s1, v, n, frame, attr);
    if kernelRoot != root { StaysAnchored(s, s1, v, n, frame, attr); }
    Munmap(pm, root, v, n, kernelRoot);
    MappedThenUnmapped(s, s1, pm.At(root), v, n, frame, attr);
    SameAccess(s, s1, pm.At(root), v, n, attr);
    SamePool(old(pm.pool), old(pm.rank), pm.pool, pm.rank);
  }

  // ----- Who may use a page -----

  lemma {:induction false} FreshRights(s: Space, p: seq<nat>)
    requires p != [] && Walk(s.edges, s.root, p[..1]).None?
    ensures PathRights(s, p) == Rights(true, true)
  {
    if |p| > 1 {
      assert p[..|p| - 1][..1] == p[..1];
      FreshRights(s, p[..|p| - 1]);
      if Walk(s.edges, s.root, p[..|p| - 1]).Some? { PrefixWalk(s.edges, s.root, p[..|p| - 1], 1); }
    } else {
      assert p[..1] == p;
      WalkSnoc(s.edges, s.root, [], p[0]);
      assert [] + [p[0]] == p && p[..0] == [];
    }
  }

  /** A mapped page is allowed what its attributes say exactly if the entries that were on the way already allow it
      too; so it is if all tables on the way are new. */
  lemma RightsExactly(s: Space, s': Space, v: nat, n: nat, attr: Attr, u: Path)
    requires RightsMapped(s, s', v, n, attr) && attr.present && InTables(u) && Offset(u, v) < n
    ensures Access(s', u) == Some(RightsOf(attr)) <==>
            var r := PathRights(s, Upper(u)); (attr.rw ==> r.rw) && (attr.user ==> r.user)
    ensures Walk(s.edges, s.root, [u.a]).None? ==> Access(s', u) == Some(RightsOf(attr))
  {
    assert Access(s', u) == Granted(s, u, attr);
    if Walk(s.edges, s.root, [u.a]).None? {
      assert Upper(u)[..1] == [u.a];
      FreshRights(s, Upper(u));
    }
  }

  /** A right that is missing on a part of the way is missing on the whole way. */
  lemma {:induction false} RightsNarrow(s: Space, p: seq<nat>, k: nat)
    requires k <= |p|
    ensures (PathRights(s, p).rw ==> PathRights(s, p[..k]).rw) && (PathRights(s, p).user ==> PathRights(s, p[..k]).user)
  {
    if k < |p| {
      RightsNarrow(s, p[..|p| - 1], k);
      assert p[..|p| - 1][..k] == p[..k];
    } else {
      assert p[..k] == p;
    }
  }

  /** Once a page without the user bit has made the third-level table, no page below it is a user's. */
  lemma KernelTableHides(s: Space, s1: Space, v: Path, e: Entry, w: Path)
    requires PageMapped(s, s1, v, e) && InTables(v) && e.attr.present && !e.attr.user && w.a == v.a
    requires Walk(s.edges, s.root, [v.a]).None?
    ensures !PathRights(s1, Upper(w)).user
  {
    var p := [v.a];
    assert Translate(s1, v).Some? && Upper(v)[..1] == p;
    PrefixWalk(s1.edges, s1.root, Upper(v), 1);
    assert GrownAt(s, s1, e.attr.user, p);
    assert Upper(w)[..1] == p;
    RightsNarrow(s1, Upper(w), 1);
  }

  /** A kernel page and then a user page under the same top-level slot: no user may use the second one. */
  method HiddenPage(pm: PageMemory, root: nat, v: Path, w: Path, frame: nat, frame': nat)
    requires pm.Valid(root) && InTables(v) && InTables(w) && v != w && v.a == w.a && |pm.pool| >= 6
    requires Walk(pm.edges, root, [v.a]).None?
    modifies pm
    ensures pm.Valid(root) && Translate(pm.At(root), w) == Some(Entry(frame', Attr(true, true, true, 0)))
    ensures Access(pm.At(root), w) == Some(Rights(true, false))
  {
    ghost var s := pm.At(root);
    var ok := MapPage(pm, root, v, frame, Attr(true, true, false, 0));
    ghost var s1 := pm.At(root);
    KernelTableHides(s, s1, v, Entry(frame, Attr(true, true, false, 0)), w);
    assert GrownAt(s, s1, false, Upper(w));
    ok := MapPage(pm, root, w, frame', Attr(true, true, true, 0));
    assert Access(pm.At(root), w) == Granted(s1, w, Attr(true, true, true, 0));
    FreshWays(s, w);
  }

  lemma FreshWays(s: Space, w: Path)
    requires Walk(s.edges, s.root, [w.a]).None?
    ensures PathRights(s, Upper(w)) == Rights(true, true)
  {
    assert Upper(w)[..1] == [w.a];
    FreshRights(s, Upper(w));
  }
}
