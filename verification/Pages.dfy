/** mem/page.c: walking, mapping and unmapping on table pages in memory. */
module Pages {
  import opened Common
  import opened Radix
  import opened PageShape

  // ----- Virtual page numbers -----

  const SPAN: nat := 512 * 512 * 512 * 512

  /** The slot numbers of a virtual page: bits 39-47, 30-38, 21-29 and 12-20 of the address. */
  function PathOf(v: nat): (p: Path)
    ensures InTables(p)
  {
    Path(v / 134217728 % 512, v / 262144 % 512, v / 512 % 512, v % 512)
  }

  /** The virtual page number below 2^36 with the given slots. */
  function Number(p: Path): nat { ((p.a * 512 + p.b) * 512 + p.c) * 512 + p.d }

  lemma NumberPath(p: Path)
    requires InTables(p)
    ensures Number(p) < SPAN
  {}

  /** How many pages after v the page with slots u comes, counting around. */
  function Offset(u: Path, v: nat): nat {
    (Number(u) + SPAN - v % SPAN) % SPAN
  }

  lemma OffsetPath(u: Path, v: nat, k: nat)
    requires InTables(u) && k < SPAN
    ensures Offset(u, v) == k <==> u == PathOf(v + k)
  {
    NumberPath(u);
    PathIsNumber(u, v + k);
    OffsetArithmetic(Number(u), v, k);
  }

  /** Bits above 47 of an address are ignored: a path belongs to a page exactly when
      the page has its number, counting around. */
  lemma PathIsNumber(u: Path, w: nat)
    requires InTables(u)
    ensures u == PathOf(w) <==> Number(u) == w % SPAN
  {
    PathNumber(w);
    if Number(u) == w % SPAN {
      SameNumber(u, PathOf(w));
    }
  }

  lemma SameNumber(u: Path, v: Path)
    requires InTables(u) && InTables(v) && Number(u) == Number(v)
    ensures u == v
  {
    SameDigit((u.a * 512 + u.b) * 512 + u.c, u.d, (v.a * 512 + v.b) * 512 + v.c, v.d);
    SameDigit(u.a * 512 + u.b, u.c, v.a * 512 + v.b, v.c);
    SameDigit(u.a, u.b, v.a, v.b);
  }

  lemma SameDigit(high: nat, low: nat, high': nat, low': nat)
    requires low < 512 && low' < 512 && high * 512 + low == high' * 512 + low'
    ensures high == high' && low == low'
  {}

  lemma UnderSpan(v: nat, q: nat, r: nat)
    requires v == q * SPAN + r && r < SPAN
    ensures v % SPAN == r
  {}

  lemma OffsetArithmetic(n: nat, v: nat, k: nat)
    requires n < SPAN && k < SPAN
    ensures (n + SPAN - v % SPAN) % SPAN == k <==> n == (v + k) % SPAN
  {
    var q, r := v / SPAN, v % SPAN;
    if r + k < SPAN {
      UnderSpan(v + k, q, r + k);
    } else {
      UnderSpan(v + k, q + 1, r + k - SPAN);
    }
  }

  lemma DivideOn(v: nat)
    ensures v / 512 / 512 == v / 262144 && v / 262144 / 512 == v / 134217728
  {}

  lemma PathNumber(v: nat)
    ensures v % SPAN == Number(PathOf(v))
  {
    DivideOn(v);
    NumberPath(PathOf(v));
    UnderSpan(v, v / 134217728 / 512, Number(PathOf(v)));
  }

  // ----- Memory -----

  class PageMemory {
    /** The pages in use as tables, and those the page allocator can hand out. */
    var tables: Tables
    var pool: seq<nat>
    ghost var rank: Ranks
    ghost var edges: Edges
    /** What each page held when it was last given back. */
    ghost var last: Tables

    ghost function At(root: nat): Space
      reads this`tables, this`rank, this`edges
    {
      Space(tables, rank, edges, root)
    }

    ghost predicate Valid(root: nat)
      reads this
    {
      && Shaped(At(root))
      && (forall i :: 0 <= i < |pool| ==> pool[i] !in rank)
      && (forall i, j :: 0 <= i < j < |pool| ==> pool[i] != pool[j])
    }
  }

  /** Both spaces translate every page alike. */
  ghost predicate SameTranslations(s: Space, s': Space) {
    forall u :: InTables(u) ==> Translate(s', u) == Translate(s, u)
  }

  /** s' has tables that s has not: no translation changes, new tables have entries but for `but`, and their own
      entries are writable and have the given user bit. */
  ghost predicate Extended(s: Space, s': Space, user: bool, but: nat) {
    && SameTranslations(s, s') && Grown(s, s', user) && NoneIdled(s, s', but) && (Rooted(s) ==> Rooted(s'))
  }

  lemma AddTable(s: Space, f: nat, i: nat, e: Entry)
    requires NewTable(s, f, i, e) && e.attr.rw
    ensures Shaped(WithTable(s, f, i, e)) && Extended(s, WithTable(s, f, i, e), e.attr.user, e.frame)
    ensures !IsIdle(WithTable(s, f, i, e), f)
  {
    NewTableShape(s, f, i, e);
    NewTableIdles(s, f, i, e);
    forall u | InTables(u) ensures Translate(WithTable(s, f, i, e), u) == Translate(s, u) {
      NewTableTranslates(s, f, i, e, u);
    }
    forall p ensures GrownAt(s, WithTable(s, f, i, e), e.attr.user, p) { NewTableGrows(s, f, i, e, p); }
  }

  /** The pages in the pool and the pages in use as tables. */
  ghost function Stock(pool: seq<nat>, rank: Ranks): multiset<nat> { multiset(pool) + multiset(rank.Keys) }

  lemma TakeOne(pool: seq<nat>, rank: Ranks, h: nat)
    requires pool != [] && pool[0] !in rank
    ensures Stock(pool[1..], rank[pool[0] := h]) == Stock(pool, rank)
  {
    assert pool == [pool[0]] + pool[1..];
    assert rank[pool[0] := h].Keys == rank.Keys + {pool[0]};
  }

  /** Allocates a zeroed table page and links it into an empty slot. */
  method NewPage(pm: PageMemory, f: nat, i: nat, attr: Attr, ghost root: nat) returns (t: nat)
    requires pm.Valid(root) && LinkSlot(pm.At(root), f, i) && !pm.tables[f][i].attr.present && pm.pool != []
    modifies pm
    ensures pm.Valid(root) && t == old(pm.pool)[0] && pm.pool == old(pm.pool)[1..] && pm.last == old(pm.last)
    ensures var e := Entry(t, Attr(true, true, attr.user, 0));
            NewTable(old(pm.At(root)), f, i, e) && pm.At(root) == WithTable(old(pm.At(root)), f, i, e)
  {
    t := pm.pool[0];
    var e := Entry(t, Attr(true, true, attr.user, 0));
    AddTable(pm.At(root), f, i, e);
    ghost var s := WithTable(pm.At(root), f, i, e);
    pm.pool := pm.pool[1..];
    pm.tables := SetEntry(pm.tables[t := ZeroTable()], f, i, e);
    pm.rank, pm.edges := s.r, s.edges;
  }

  /** pagemap_traverse: the table below slot i of table f, made on demand if attr is not zero.
      None stands for NULL: the slot is empty and no page may be, or could be, allocated. */
  method Traverse(pm: PageMemory, f: nat, i: nat, attr: Attr, ghost root: nat) returns (t: Option<nat>)
    requires pm.Valid(root) && LinkSlot(pm.At(root), f, i)
    modifies pm
    ensures pm.Valid(root)
    ensures t.None? <==> !old(pm.tables[f][i]).attr.present && (attr == NO_ATTR || old(pm.pool) == [])
    ensures t.None? || old(pm.tables[f][i]).attr.present ==> unchanged(pm)
    ensures t.Some? && !old(pm.tables[f][i]).attr.present ==>
              && old(pm.pool) != [] && t.value == old(pm.pool)[0] && pm.pool == old(pm.pool)[1..]
              && pm.last == old(pm.last)
              && var e := Entry(t.value, Attr(true, true, attr.user, 0));
              && NewTable(old(pm.At(root)), f, i, e) && pm.At(root) == WithTable(old(pm.At(root)), f, i, e)
    ensures t.Some? ==> (f, i) in pm.edges && pm.edges[(f, i)] == t.value
  {
    if !pm.tables[f][i].attr.present {
      if attr == NO_ATTR || pm.pool == [] {
        return None;
      }
      var r := NewPage(pm, f, i, attr, root);
      return Some(r);
    } else {
      assert Linked(pm.At(root), f, i);
      return Some(pm.tables[f][i].frame);
    }
  }

  /** One step down on the way to a page, as the rest of mmap sees it: f may have been without entries. */
  ghost predicate WentDown(s: Space, s': Space, user: bool, f: nat, i: nat, t: nat) {
    && Extended(s, s', user, t) && !IsIdle(s', f)
    && (forall k :: k in s.edges ==> k in s'.edges && s'.edges[k] == s.edges[k])
    && (f, i) in s'.edges && s'.edges[(f, i)] == t
  }

  lemma AlreadyDown(s: Space, user: bool, f: nat, i: nat, t: nat)
    requires Shaped(s) && LinkSlot(s, f, i) && s.m[f][i].attr.present && (f, i) in s.edges && s.edges[(f, i)] == t
    ensures WentDown(s, s, user, f, i, t)
  {
    assert forall p :: GrownAt(s, s, user, p);
  }

  lemma NewlyDown(s: Space, f: nat, i: nat, e: Entry)
    requires NewTable(s, f, i, e) && e.attr.rw
    ensures WentDown(s, WithTable(s, f, i, e), e.attr.user, f, i, e.frame)
  {
    AddTable(s, f, i, e);
    assert Linked(s, f, i);
  }

  /** pagemap_traverse on the way to a page. */
  method GoDown(pm: PageMemory, f: nat, i: nat, attr: Attr, ghost root: nat) returns (t: Option<nat>)
    requires pm.Valid(root) && LinkSlot(pm.At(root), f, i)
    modifies pm
    ensures pm.Valid(root) && |pm.pool| >= |old(pm.pool)| - 1
    ensures t.Some? ==> WentDown(old(pm.At(root)), pm.At(root), attr.user, f, i, t.value)
    ensures t.None? ==> unchanged(pm) && (attr == NO_ATTR || pm.pool == [])
    ensures Stock(pm.pool, pm.rank) == Stock(old(pm.pool), old(pm.rank))
  {
    ghost var s := pm.At(root);
    ghost var present := pm.tables[f][i].attr.present;
    t := Traverse(pm, f, i, attr, root);
    if t.Some? {
      if present {
        AlreadyDown(s, attr.user, f, i, t.value);
      } else {
        NewlyDown(s, f, i, Entry(t.value, Attr(true, true, attr.user, 0)));
        TakeOne(old(pm.pool), s.r, s.r[f] - 1);
      }
    }
  }

  lemma WalkThree(e: Edges, root: nat, v: Path, x: nat, y: nat, z: nat)
    requires (root, v.a) in e && e[(root, v.a)] == x
    requires (x, v.b) in e && e[(x, v.b)] == y
    requires (y, v.c) in e && e[(y, v.c)] == z
    ensures Walk(e, root, Upper(v)) == Some(z)
  {
    WalkSnoc(e, root, [], v.a);
    WalkSnoc(e, root, [v.a], v.b);
    WalkSnoc(e, root, [v.a, v.b], v.c);
    assert [] + [v.a] == [v.a] && [v.a] + [v.b] == [v.a, v.b] && [v.a, v.b] + [v.c] == Upper(v);
  }

  lemma ExtendedOn(s: Space, s1: Space, s2: Space, user: bool, f: nat, g: nat)
    requires Extended(s, s1, user, f) && Extended(s1, s2, user, g) && !IsIdle(s2, f)
    ensures Extended(s, s2, user, g)
  {
    GrownOn(s, s1, s2, user);
    NoneIdledOn(s, s1, s2, f, g);
  }

  lemma NothingExtended(s: Space, user: bool, f: nat)
    ensures Extended(s, s, user, f)
  {
    assert forall p :: GrownAt(s, s, user, p);
  }

  /** The three steps of the walk down to the lowest table. */
  method Descend(pm: PageMemory, root: nat, v: Path, attr: Attr) returns (t: Option<nat>)
    requires pm.Valid(root) && InTables(v)
    modifies pm
    ensures pm.Valid(root) && Stock(pm.pool, pm.rank) == Stock(old(pm.pool), old(pm.rank))
    ensures t.Some? ==> LowTable(pm.At(root), v) == t && t.value in pm.rank && pm.rank[t.value] == 0
    ensures t.Some? ==> Extended(old(pm.At(root)), pm.At(root), attr.user, t.value)
    ensures t.None? ==> exists f :: Extended(old(pm.At(root)), pm.At(root), attr.user, f)
    ensures attr != NO_ATTR && |old(pm.pool)| >= 3 ==> t.Some?
    ensures |pm.pool| >= |old(pm.pool)| - 3
  {
    ghost var s0 := pm.At(root);
    NothingExtended(s0, attr.user, root);
    t := GoDown(pm, root, v.a, attr, root);
    if t.None? { return; }
    ghost var x, s1 := t.value, pm.At(root);
    t := GoDown(pm, t.value, v.b, attr, root);
    if t.None? { return; }
    ghost var y, s2 := t.value, pm.At(root);
    ExtendedOn(s0, s1, s2, attr.user, x, y);
    t := GoDown(pm, t.value, v.c, attr, root);
    if t.None? { return; }
    ExtendedOn(s0, s2, pm.At(root), attr.user, y, t.value);
    WalkThree(pm.edges, root, v, x, y, t.value);
  }

  /** What the processor makes of an entry: without the present bit there is no translation. */
  function Shown(e: Entry): Option<Entry> { if e.attr.present then Some(e) else None }

  /** Page v translates to `e`, and every other page as before. */
  ghost predicate Remapped(s: Space, s': Space, v: Path, e: Option<Entry>) {
    forall u :: InTables(u) ==> Translate(s', u) == if u == v then e else Translate(s, u)
  }

  lemma SetPage(s: Space, t: nat, v: Path, e: Entry)
    requires Shaped(s) && InTables(v) && LowTable(s, v) == Some(t) && t in s.r && s.r[t] == 0
    ensures var s' := s.(m := SetEntry(s.m, t, v.d, e));
            && Shaped(s') && Remapped(s, s', v, Shown(e))
            && forall p :: PathRights(s', p) == PathRights(s, p)
  {
    var s' := s.(m := SetEntry(s.m, t, v.d, e));
    SetLeafShape(s, t, v.d, e);
    forall u | InTables(u) ensures Translate(s', u) == if u == v then Shown(e) else Translate(s, u) {
      SetLeafTranslates(s, t, v, e, u);
    }
    forall p ensures PathRights(s', p) == PathRights(s, p) { SetLeafRights(s, t, v.d, e, p); }
  }

  /** Writes the entry of one page in its lowest table. */
  method WriteEntry(pm: PageMemory, t: nat, v: Path, e: Entry, ghost root: nat)
    requires pm.Valid(root) && InTables(v) && LowTable(pm.At(root), v) == Some(t) && t in pm.rank && pm.rank[t] == 0
    modifies pm`tables
    ensures pm.Valid(root)
    ensures Remapped(old(pm.At(root)), pm.At(root), v, Shown(e))
    ensures LowTable(pm.At(root), v) == Some(t)
    ensures pm.tables == SetEntry(old(pm.tables), t, v.d, e)
    ensures forall p :: PathRights(pm.At(root), p) == PathRights(old(pm.At(root)), p)
  {
    SetPage(pm.At(root), t, v, e);
    pm.tables := SetEntry(pm.tables, t, v.d, e);
  }

  /** What an entry with the given attributes, below those on the way, lets the processor do. */
  ghost function Granted(s: Space, u: Path, attr: Attr): Option<Rights> {
    if attr.present then Some(Both(PathRights(s, Upper(u)), RightsOf(attr))) else None
  }

  /** Page v has the rights of its new entry and of the entries that were on the way already; all other pages
      have the rights they had. */
  ghost predicate Regranted(s: Space, s': Space, v: Path, attr: Attr) {
    forall u :: InTables(u) ==> Access(s', u) == if u == v then Granted(s, v, attr) else Access(s, u)
  }

  lemma RemappedAccess(s: Space, s1: Space, s2: Space, v: Path, e: Entry)
    requires Grown(s, s1, e.attr.user) && SameTranslations(s, s1) && Remapped(s1, s2, v, Shown(e)) && InTables(v)
    requires forall p :: PathRights(s2, p) == PathRights(s1, p)
    ensures Regranted(s, s2, v, e.attr)
  {
    forall u | InTables(u) ensures Access(s2, u) == if u == v then Granted(s, v, e.attr) else Access(s, u) {
      assert GrownAt(s, s1, e.attr.user, Upper(u));
    }
  }

  /** Writing a present entry fills the one table that was still without entries. */
  lemma FilledUp(s: Space, s1: Space, t: nat, i: nat, e: Entry)
    requires Extended(s, s1, e.attr.user, t) && t in s1.m && i < |s1.m[t]| && e.attr.present
    ensures NoneIdled(s, s1.(m := SetEntry(s1.m, t, i, e)), s.root)
  {
    var s2 := s1.(m := SetEntry(s1.m, t, i, e));
    assert s2.m[t][i].attr.present;
    forall f | IsIdle(s2, f) ensures IsIdle(s, f) {
      assert f != t && IsIdle(s1, f);
    }
  }

  lemma GrownThenSet(s: Space, s1: Space, s2: Space, user: bool)
    requires Grown(s, s1, user) && s2.edges == s1.edges && s2.root == s1.root
    requires forall p :: PathRights(s2, p) == PathRights(s1, p)
    ensures Grown(s, s2, user)
  {
    forall p ensures GrownAt(s, s2, user, p) { assert GrownAt(s, s1, user, p); }
  }

  /** One page more: it translates to e and every other page as before; the tables have only grown, by tables that
      have entries if e is present. */
  ghost predicate PageMapped(s: Space, s': Space, v: Path, e: Entry) {
    && Remapped(s, s', v, Shown(e)) && Grown(s, s', e.attr.user)
    && (e.attr.present ==> NoneIdled(s, s', s.root)) && (Rooted(s) ==> Rooted(s'))
  }

  /** The body of mmap's loop. The result is false where the source would write through NULL. */
  method MapPage(pm: PageMemory, root: nat, v: Path, frame: nat, attr: Attr) returns (ok: bool)
    requires pm.Valid(root) && InTables(v)
    modifies pm
    ensures pm.Valid(root) && Stock(pm.pool, pm.rank) == Stock(old(pm.pool), old(pm.rank))
    ensures ok ==> PageMapped(old(pm.At(root)), pm.At(root), v, Entry(frame, attr))
    ensures ok ==> Regranted(old(pm.At(root)), pm.At(root), v, attr)
    ensures !ok ==> SameTranslations(old(pm.At(root)), pm.At(root)) && Grown(old(pm.At(root)), pm.At(root), attr.user)
    ensures attr != NO_ATTR && |old(pm.pool)| >= 3 ==> ok
    ensures |pm.pool| >= |old(pm.pool)| - 3
  {
    var t := Descend(pm, root, v, attr);
    if t.None? {
      return false;
    }
    ghost var s0, s1 := old(pm.At(root)), pm.At(root);
    WriteEntry(pm, t.value, v, Entry(frame, attr), root);
    RemappedAccess(s0, s1, pm.At(root), v, Entry(frame, attr));
    GrownThenSet(s0, s1, pm.At(root), attr.user);
    if attr.present { FilledUp(s0, s1, t.value, v.d, Entry(frame, attr)); }
    return true;
  }

  /** What page u should translate to once n pages from v on are mapped to frames from `frame` on. */
  ghost function Expected(s: Space, u: Path, v: nat, n: nat, frame: nat, attr: Attr): Option<Entry> {
    if Offset(u, v) < n then Shown(Entry(frame + Offset(u, v), attr)) else Translate(s, u)
  }

  ghost predicate Mapped(s: Space, s': Space, v: nat, n: nat, frame: nat, attr: Attr) {
    forall u :: InTables(u) ==> Translate(s', u) == Expected(s, u, v, n, frame, attr)
  }

  lemma MappedOneMore(s: Space, s1: Space, s2: Space, v: nat, n: nat, frame: nat, attr: Attr)
    requires n < SPAN && Mapped(s, s1, v, n, frame, attr)
    requires Remapped(s1, s2, PathOf(v + n), Shown(Entry(frame + n, attr)))
    ensures Mapped(s, s2, v, n + 1, frame, attr)
  {
    forall u | InTables(u) ensures Translate(s2, u) == Expected(s, u, v, n + 1, frame, attr) {
      OffsetPath(u, v, n);
    }
  }

  /** In terms of page numbers: page v + k goes to frame + k. */
  lemma MappedPages(s: Space, s': Space, v: nat, n: nat, frame: nat, attr: Attr, k: nat)
    requires n <= SPAN && Mapped(s, s', v, n, frame, attr) && k < SPAN
    ensures Translate(s', PathOf(v + k)) == if k < n then Shown(Entry(frame + k, attr)) else Translate(s, PathOf(v + k))
  {
    OffsetPath(PathOf(v + k), v, k);
  }

  /** The rights of n pages from v on after they are mapped with attr, and of all others. */
  ghost predicate RightsMapped(s: Space, s': Space, v: nat, n: nat, attr: Attr) {
    forall u :: InTables(u) ==> Access(s', u) == if Offset(u, v) < n then Granted(s, u, attr) else Access(s, u)
  }

  lemma MappedRights(s: Space, s': Space, v: nat, n: nat, frame: nat, attr: Attr)
    requires Mapped(s, s', v, n, frame, attr) && Grown(s, s', attr.user)
    ensures RightsMapped(s, s', v, n, attr)
  {
    forall u | InTables(u)
      ensures Access(s', u) == if Offset(u, v) < n then Granted(s, u, attr) else Access(s, u)
    {
      assert GrownAt(s, s', attr.user, Upper(u)) && Translate(s', u) == Expected(s, u, v, n, frame, attr);
    }
  }

  /** After `done` pages: the tables have only grown, by tables with entries. */
  ghost predicate MapState(s: Space, s': Space, v: nat, done: nat, frame: nat, attr: Attr) {
    && Mapped(s, s', v, done, frame, attr) && Grown(s, s', attr.user)
    && (attr.present ==> NoneIdled(s, s', s.root)) && (Rooted(s) ==> Rooted(s'))
  }

  lemma MapStateInit(s: Space, v: nat, frame: nat, attr: Attr)
    ensures MapState(s, s, v, 0, frame, attr)
  {
    NothingExtended(s, attr.user, s.root);
  }

  lemma MapStateOn(s: Space, s1: Space, s2: Space, v: nat, done: nat, frame: nat, attr: Attr, u: Path, f: nat)
    requires MapState(s, s1, v, done, frame, attr) && done < SPAN && u == PathOf(v + done) && f == frame + done
    requires PageMapped(s1, s2, u, Entry(f, attr))
    ensures MapState(s, s2, v, done + 1, frame, attr)
  {
    MappedOneMore(s, s1, s2, v, done, frame, attr);
    GrownOn(s, s1, s2, attr.user);
    if attr.present { NoneIdledOn(s, s1, s2, s.root, s.root); }
  }

  lemma MapStops(s: Space, s1: Space, s2: Space, v: nat, done: nat, frame: nat, attr: Attr)
    requires MapState(s, s1, v, done, frame, attr) && SameTranslations(s1, s2) && Grown(s1, s2, attr.user)
    ensures Mapped(s, s2, v, done, frame, attr) && RightsMapped(s, s2, v, done, attr) && Grown(s, s2, attr.user)
  {
    forall u | InTables(u) ensures Translate(s2, u) == Expected(s, u, v, done, frame, attr) {
      assert Translate(s1, u) == Expected(s, u, v, done, frame, attr);
    }
    GrownOn(s, s1, s2, attr.user);
    MappedRights(s, s2, v, done, frame, attr);
  }

  /** mmap without an index tree: n pages from virtual page v on, to frames from `frame` on.
      It stops early, where the source would write through NULL, only if no page is left or attr is zero. */
  method Mmap(pm: PageMemory, root: nat, frame: nat, v: nat, n: nat, attr: Attr) returns (done: nat)
    requires pm.Valid(root) && n <= SPAN
    modifies pm
    ensures pm.Valid(root) && done <= n && Stock(pm.pool, pm.rank) == Stock(old(pm.pool), old(pm.rank))
    ensures Mapped(old(pm.At(root)), pm.At(root), v, done, frame, attr)
    ensures RightsMapped(old(pm.At(root)), pm.At(root), v, done, attr)
    ensures Grown(old(pm.At(root)), pm.At(root), attr.user)
    ensures done == n ==> MapState(old(pm.At(root)), pm.At(root), v, n, frame, attr)
    ensures attr != NO_ATTR && |old(pm.pool)| >= 3 * n ==> done == n
  {
    done := 0;
    ghost var s0 := pm.At(root);
    MapStateInit(s0, v, frame, attr);
    while done < n
      invariant pm.Valid(root) && done <= n && Stock(pm.pool, pm.rank) == Stock(old(pm.pool), old(pm.rank))
      invariant MapState(s0, pm.At(root), v, done, frame, attr)
      invariant |pm.pool| >= |old(pm.pool)| - 3 * done
    {
      ghost var s := pm.At(root);
      var u, f := PathOf(v + done), frame + done;
      var ok := MapPage(pm, root, u, f, attr);
      if !ok {
        MapStops(s0, s, pm.At(root), v, done, frame, attr);
        return;
      }
      MapStateOn(s0, s, pm.At(root), v, done, frame, attr, u, f);
      done := done + 1;
    }
    MappedRights(s0, pm.At(root), v, done, frame, attr);
  }

  /** mmap on byte addresses: lengths are rounded up to pages, starting from the page of paddr,
      so that the mapped frames cover every byte of the range. */
  method MmapBytes(pm: PageMemory, root: nat, paddr: nat, vaddr: nat, len: nat, attr: Attr) returns (n: nat, done: nat)
    requires pm.Valid(root) && len + 2 * PAGE <= SPAN * PAGE
    modifies pm
    ensures pm.Valid(root) && done <= n
    ensures Mapped(old(pm.At(root)), pm.At(root), vaddr / PAGE, done, paddr / PAGE, attr)
    ensures RightsMapped(old(pm.At(root)), pm.At(root), vaddr / PAGE, done, attr)
    ensures (paddr / PAGE + n - 1) * PAGE < paddr + len <= (paddr / PAGE + n) * PAGE || (len == 0 && n == 0)
    ensures attr != NO_ATTR && |old(pm.pool)| >= 3 * n ==> done == n
  {
    n := (len + paddr % PAGE + PAGE - 1) / PAGE;
    done := Mmap(pm, root, paddr / PAGE, vaddr / PAGE, n, attr);
  }

  /** virt_to_phys, for a page whose upper levels are present. */
  method VirtToPhys(pm: PageMemory, root: nat, v: nat) returns (frame: nat)
    requires pm.Valid(root) && LowTable(pm.At(root), PathOf(v)).Some?
    ensures Translate(pm.At(root), PathOf(v)).Some? ==> frame == Translate(pm.At(root), PathOf(v)).value.frame
  {
    var p := PathOf(v);
    var cur := root;
    ReadDown(pm, root, p);
    cur := pm.tables[cur][p.a].frame;
    cur := pm.tables[cur][p.b].frame;
    cur := pm.tables[cur][p.c].frame;
    frame := pm.tables[cur][p.d].frame;
  }

  /** The frames read on the way down are the links of the walk. */
  lemma ReadDown(pm: PageMemory, root: nat, v: Path)
    requires pm.Valid(root) && InTables(v) && LowTable(pm.At(root), v).Some?
    ensures root in pm.tables && |pm.tables[root]| == ENTRIES
    ensures var x := pm.tables[root][v.a].frame;
            && (root, v.a) in pm.edges && pm.edges[(root, v.a)] == x
            && x in pm.rank && pm.rank[x] == 2 && x in pm.tables && |pm.tables[x]| == ENTRIES
            && var y := pm.tables[x][v.b].frame;
            && (x, v.b) in pm.edges && pm.edges[(x, v.b)] == y
            && y in pm.rank && pm.rank[y] == 1 && y in pm.tables && |pm.tables[y]| == ENTRIES
            && var z := pm.tables[y][v.c].frame;
            && (y, v.c) in pm.edges && pm.edges[(y, v.c)] == z
            && z in pm.rank && pm.rank[z] == 0 && z in pm.tables && |pm.tables[z]| == ENTRIES
            && LowTable(pm.At(root), v) == Some(z)
  {
    var e := pm.edges;
    WalkSnoc(e, root, [], v.a);
    WalkSnoc(e, root, [v.a], v.b);
    WalkSnoc(e, root, [v.a, v.b], v.c);
    assert [] + [v.a] == [v.a] && [v.a] + [v.b] == [v.a, v.b] && [v.a, v.b] + [v.c] == Upper(v);
    var s := pm.At(root);
    var x := e[(root, v.a)];
    var y := e[(x, v.b)];
    assert Linked(s, root, v.a) && Linked(s, x, v.b) && Linked(s, y, v.c);
  }

  // ----- Unmapping -----

  /** s' has lost tables of s: no translation changes, and no table but `but` has lost its last entry. */
  ghost predicate Reduced(s: Space, s': Space, but: nat) {
    && SameTranslations(s, s') && Shrunk(s, s') && NoneIdled(s, s', but) && (Rooted(s) ==> Rooted(s'))
  }

  lemma ReducedOn(s: Space, s1: Space, s2: Space, f: nat, g: nat)
    requires Reduced(s, s1, f) && Reduced(s1, s2, g) && !IsIdle(s2, f)
    ensures Reduced(s, s2, g)
  {
    ShrunkOn(s, s1, s2);
    NoneIdledOn(s, s1, s2, f, g);
  }

  lemma NothingReduced(s: Space, f: nat)
    ensures Reduced(s, s, f)
  {
    assert forall p :: ShrunkAt(s, s, p);
  }

  lemma CutTable(s: Space, f: nat, i: nat)
    requires EmptyTable(s, f, i)
    ensures Shaped(WithoutTable(s, f, i)) && Reduced(s, WithoutTable(s, f, i), f)
  {
    CutTableShape(s, f, i);
    CutTableIdles(s, f, i);
    forall p ensures ShrunkAt(s, WithoutTable(s, f, i), p) { CutTableShrinks(s, f, i, p); }
    forall u | InTables(u) ensures Translate(WithoutTable(s, f, i), u) == Translate(s, u) {
      CutTableTranslates(s, f, i, u);
    }
  }

  /** The scan of munmap_check_table. */
  method HasNoEntries(table: Table) returns (empty: bool)
    ensures empty <==> NoEntries(table)
  {
    var i := 0;
    while i < |table|
      invariant 0 <= i <= |table| && forall j :: 0 <= j < i ==> !table[j].attr.present
    {
      if table[i].attr.present {
        return false;
      }
      i := i + 1;
    }
    return true;
  }

  lemma ReturnOne(r: Ranks, f: nat, pool: seq<nat>, last: Tables, t: Table)
    requires f in r && NoEntries(t) && (forall i :: 0 <= i < |pool| ==> pool[i] !in r)
    ensures Returned(r, r - {f}, pool, [f] + pool, last, last[f := t])
    ensures forall i :: 0 <= i < |pool| + 1 ==> ([f] + pool)[i] !in r - {f}
    ensures forall i :: 0 < i < |pool| + 1 ==> ([f] + pool)[i] != f
    ensures Stock([f] + pool, r - {f}) == Stock(pool, r)
  {
    assert (r - {f}).Keys + {f} == r.Keys;
    assert multiset((r - {f}).Keys) + multiset{f} == multiset(r.Keys);
  }

  /** Unlinks a table without entries and returns its page. */
  method FreeTable(pm: PageMemory, table: nat, parent: nat, n: nat, ghost root: nat)
    requires pm.Valid(root) && LinkSlot(pm.At(root), parent, n)
    requires (parent, n) in pm.edges && pm.edges[(parent, n)] == table && NoEntries(pm.tables[table])
    modifies pm
    ensures pm.Valid(root) && Reduced(old(pm.At(root)), pm.At(root), parent)
    ensures pm.At(root) == WithoutTable(old(pm.At(root)), parent, n) && pm.pool == [table] + old(pm.pool)
    ensures Returned(old(pm.rank), pm.rank, old(pm.pool), pm.pool, old(pm.last), pm.last)
    ensures Stock(pm.pool, pm.rank) == Stock(old(pm.pool), old(pm.rank))
  {
    CutTable(pm.At(root), parent, n);
    ghost var s := WithoutTable(pm.At(root), parent, n);
    ReturnOne(pm.rank, table, pm.pool, pm.last, pm.tables[table]);
    pm.pool := [table] + pm.pool;
    pm.last := pm.last[table := pm.tables[table]];
    pm.tables := SetEntry(pm.tables, parent, n, EMPTY) - {table};
    pm.rank, pm.edges := s.r, s.edges;
    assert pm.At(root) == s;
  }

  /** munmap_check_table on a table of the tree: if it has no entries it is unlinked and its page returned. */
  method CheckTable(pm: PageMemory, table: nat, parent: nat, n: nat, ghost root: nat) returns (freed: bool)
    requires pm.Valid(root) && LinkSlot(pm.At(root), parent, n)
    requires (parent, n) in pm.edges && pm.edges[(parent, n)] == table
    modifies pm
    ensures pm.Valid(root) && Reduced(old(pm.At(root)), pm.At(root), parent)
    ensures Stock(pm.pool, pm.rank) == Stock(old(pm.pool), old(pm.rank))
    ensures freed <==> NoEntries(old(pm.tables)[table])
    ensures !freed ==> unchanged(pm)
    ensures freed ==> pm.At(root) == WithoutTable(old(pm.At(root)), parent, n) && pm.pool == [table] + old(pm.pool)
    ensures Returned(old(pm.rank), pm.rank, old(pm.pool), pm.pool, old(pm.last), pm.last)
  {
    freed := HasNoEntries(pm.tables[table]);
    NothingReduced(pm.At(root), parent);
    if freed {
      FreeTable(pm, table, parent, n, root);
    }
  }

  /** Some slot other than i is in use. */
  ghost predicate OtherEntry(t: Table, i: nat) {
    exists j :: 0 <= j < |t| && j != i && t[j].attr.present
  }

  lemma OtherEntryStays(t: Table, i: nat)
    requires i < |t|
    ensures OtherEntry(t, i) <==> !NoEntries(t[i := EMPTY])
  {
    if OtherEntry(t, i) {
      var j :| 0 <= j < |t| && j != i && t[j].attr.present;
      assert t[i := EMPTY][j].attr.present;
    }
  }

  ghost predicate LinksTo(pm: PageMemory, f: nat, i: nat, g: nat)
    reads pm`edges
  {
    (f, i) in pm.edges && pm.edges[(f, i)] == g
  }

  /** Pages that stop being tables had no entries, and are back in the pool. */
  ghost predicate Returned(before: Ranks, after: Ranks, pool: seq<nat>, pool': seq<nat>, last: Tables, last': Tables) {
    && (forall f :: f in pool ==> f in pool')
    && (forall f :: f in before && f !in after ==> f in pool' && GivenBackEmpty(last', f))
    && (forall f :: GivenBackEmpty(last, f) ==> GivenBackEmpty(last', f))
  }

  lemma ReturnedThen(r: Ranks, r1: Ranks, r2: Ranks, p: seq<nat>, p1: seq<nat>, p2: seq<nat>,
                     l: Tables, l1: Tables, l2: Tables)
    requires Returned(r, r1, p, p1, l, l1) && Returned(r1, r2, p1, p2, l1, l2)
    ensures Returned(r, r2, p, p2, l, l2)
  {}

  ghost predicate GivenBackEmpty(last: Tables, f: nat) { f in last && NoEntries(last[f]) }

  /** A page that is no table is not reached from the root. */
  lemma GivenBackUnreached(s: Space, f: nat, p: seq<nat>)
    requires Shaped(s) && f !in s.r
    ensures Walk(s.edges, s.root, p) != Some(f)
  {
    if Walk(s.edges, s.root, p).Some? { WalkRank(s, p); }
  }

  /** What the checks of munmap leave: no table below the root has lost its last entry, nor is `t` without one. */
  ghost predicate Pruned(s: Space, s': Space, t: nat) { Reduced(s, s', s.root) && !IsIdle(s', t) }

  lemma PrunedOn(s: Space, s1: Space, s2: Space, f: nat, t: nat)
    requires Reduced(s, s1, f) && Pruned(s1, s2, f) && t !in s1.r
    ensures Pruned(s, s2, t)
  {
    ReducedOn(s, s1, s2, f, s1.root);
  }

  /** The last check of munmap: the third-level table x, whose slot is cleared in the global
      pml4 `kernelRoot`, whatever the root of this address space is. */
  method PruneTop(pm: PageMemory, root: nat, v: Path, x: nat, kernelRoot: nat)
    requires pm.Valid(root) && InTables(v) && LinksTo(pm, root, v.a, x)
    requires kernelRoot == root || !NoEntries(pm.tables[x])
    modifies pm
    ensures pm.Valid(root) && Pruned(old(pm.At(root)), pm.At(root), x)
    ensures Returned(old(pm.rank), pm.rank, old(pm.pool), pm.pool, old(pm.last), pm.last)
    ensures Stock(pm.pool, pm.rank) == Stock(old(pm.pool), old(pm.rank))
  {
    NothingReduced(pm.At(root), root);
    var empty := HasNoEntries(pm.tables[x]);
    if empty {
      FreeTable(pm, x, kernelRoot, v.a, root);
    }
  }

  /** The last two checks: the second-level table y and then x. */
  method PruneMid(pm: PageMemory, root: nat, v: Path, x: nat, y: nat, kernelRoot: nat)
    requires pm.Valid(root) && InTables(v) && LinksTo(pm, root, v.a, x) && LinksTo(pm, x, v.b, y)
    requires kernelRoot == root || OtherEntry(pm.tables[x], v.b) || !NoEntries(pm.tables[y])
    modifies pm
    ensures pm.Valid(root) && Pruned(old(pm.At(root)), pm.At(root), y)
    ensures Returned(old(pm.rank), pm.rank, old(pm.pool), pm.pool, old(pm.last), pm.last)
    ensures Stock(pm.pool, pm.rank) == Stock(old(pm.pool), old(pm.rank))
  {
    OtherEntryStays(pm.tables[x], v.b);
    EdgesApart(pm, root, v.a, x, x, v.b, y);
    NothingReduced(pm.At(root), root);
    var freed := CheckTable(pm, y, x, v.b, root);
    if freed {
      ghost var s, rank, pool, last := pm.At(root), pm.rank, pm.pool, pm.last;
      PruneTop(pm, root, v, x, kernelRoot);
      PrunedOn(old(pm.At(root)), s, pm.At(root), x, y);
      ReturnedThen(old(pm.rank), rank, pm.rank, old(pm.pool), pool, pm.pool, old(pm.last), last, pm.last);
    }
  }

  /** All three checks. */
  method PruneLow(pm: PageMemory, root: nat, v: Path, x: nat, y: nat, z: nat, kernelRoot: nat)
    requires pm.Valid(root) && InTables(v)
    requires LinksTo(pm, root, v.a, x) && LinksTo(pm, x, v.b, y) && LinksTo(pm, y, v.c, z)
    requires kernelRoot == root ||
             OtherEntry(pm.tables[x], v.b) || OtherEntry(pm.tables[y], v.c) || !NoEntries(pm.tables[z])
    modifies pm
    ensures pm.Valid(root) && Pruned(old(pm.At(root)), pm.At(root), z)
    ensures Returned(old(pm.rank), pm.rank, old(pm.pool), pm.pool, old(pm.last), pm.last)
    ensures Stock(pm.pool, pm.rank) == Stock(old(pm.pool), old(pm.rank))
  {
    OtherEntryStays(pm.tables[y], v.c);
    EdgesApart(pm, root, v.a, x, y, v.c, z);
    EdgesApart(pm, x, v.b, y, y, v.c, z);
    NothingReduced(pm.At(root), root);
    var freed := CheckTable(pm, z, y, v.c, root);
    if freed {
      ghost var s, rank, pool, last := pm.At(root), pm.rank, pm.pool, pm.last;
      PruneMid(pm, root, v, x, y, kernelRoot);
      PrunedOn(old(pm.At(root)), s, pm.At(root), y, z);
      ReturnedThen(old(pm.rank), rank, pm.rank, old(pm.pool), pool, pm.pool, old(pm.last), last, pm.last);
    }
  }

  /** Different links have different sources and targets; ranks go down along links. */
  lemma EdgesApart(pm: PageMemory, f: nat, i: nat, x: nat, g: nat, j: nat, y: nat)
    requires exists root :: pm.Valid(root)
    requires LinksTo(pm, f, i, x) && LinksTo(pm, g, j, y) && f in pm.rank && g in pm.rank && pm.rank[f] > pm.rank[g]
    ensures f != g && x != y && x != f && y != g && f != y
    ensures g in pm.tables && x in pm.tables && y in pm.tables && x in pm.rank && y in pm.rank
  {}

  /** When page v is unmapped its third-level table keeps an entry: some other slot is in
      use in that table, in the second-level table, or in the lowest one. */
  ghost predicate KeepsThird(m: Tables, root: nat, v: Path)
  {
    root in m && v.a < |m[root]| &&
    var x := m[root][v.a].frame;
    x in m && v.b < |m[x]| &&
    var y := m[x][v.b].frame;
    y in m && v.c < |m[y]| &&
    var z := m[y][v.c].frame;
    z in m && (OtherEntry(m[x], v.b) || OtherEntry(m[y], v.c) || OtherEntry(m[z], v.d))
  }

  /** Tables have only gone, none has lost its last entry and stayed, and each stays in the tree. */
  ghost predicate Shed(s: Space, s': Space) {
    Shrunk(s, s') && NoneIdled(s, s', s.root) && (Rooted(s) ==> Rooted(s'))
  }

  lemma ShedOn(s: Space, s1: Space, s2: Space)
    requires Shed(s, s1) && Shed(s1, s2)
    ensures Shed(s, s2)
  {
    ShrunkOn(s, s1, s2);
    NoneIdledOn(s, s1, s2, s.root, s.root);
  }

  lemma ClearedThenPruned(s: Space, s2: Space, z: nat, i: nat)
    requires z in s.m && i < |s.m[z]| && Pruned(s.(m := SetEntry(s.m, z, i, EMPTY)), s2, z)
    requires forall p :: PathRights(s.(m := SetEntry(s.m, z, i, EMPTY)), p) == PathRights(s, p)
    ensures Shed(s, s2)
  {
    var s1 := s.(m := SetEntry(s.m, z, i, EMPTY));
    forall p ensures ShrunkAt(s, s2, p) { assert ShrunkAt(s1, s2, p); }
    assert NoneIdled(s, s1, z);
    NoneIdledOn(s, s1, s2, z, s.root);
  }

  /** The body of munmap's loop. */
  method UnmapPage(pm: PageMemory, root: nat, v: Path, kernelRoot: nat)
    requires pm.Valid(root) && InTables(v) && LowTable(pm.At(root), v).Some?
    requires kernelRoot == root || KeepsThird(pm.tables, root, v)
    modifies pm
    ensures pm.Valid(root)
    ensures Remapped(old(pm.At(root)), pm.At(root), v, None) && Shed(old(pm.At(root)), pm.At(root))
    ensures Returned(old(pm.rank), pm.rank, old(pm.pool), pm.pool, old(pm.last), pm.last)
    ensures Stock(pm.pool, pm.rank) == Stock(old(pm.pool), old(pm.rank))
  {
    ReadDown(pm, root, v);
    var x := pm.tables[root][v.a].frame;
    var y := pm.tables[x][v.b].frame;
    var z := pm.tables[y][v.c].frame;
    OtherEntryStays(pm.tables[z], v.d);
    ghost var s := pm.At(root);
    WriteEntry(pm, z, v, EMPTY, root);
    PruneLow(pm, root, v, x, y, z, kernelRoot);
    ClearedThenPruned(s, pm.At(root), z, v.d);
  }

  /** Another mapped page below the same top-level slot keeps the third-level table in use. */
  lemma NeighbourKeepsThird(pm: PageMemory, root: nat, v: Path, w: Path)
    requires pm.Valid(root) && InTables(v) && InTables(w) && w != v && w.a == v.a
    requires LowTable(pm.At(root), v).Some? && Translate(pm.At(root), w).Some?
    ensures KeepsThird(pm.tables, root, v)
  {
    ReadDown(pm, root, v);
    ReadDown(pm, root, w);
    var s := pm.At(root);
    var x := pm.tables[root][v.a].frame;
    var y := pm.tables[x][w.b].frame;
    assert Linked(s, x, w.b) && Linked(s, y, w.c);
  }

  /** n pages from v on have lost their translation; all others translate as before. */
  ghost predicate Unmapped(s: Space, s': Space, v: nat, n: nat) {
    forall u :: InTables(u) ==> Translate(s', u) == if Offset(u, v) < n then None else Translate(s, u)
  }

  lemma UnmappedOneMore(s: Space, s1: Space, s2: Space, v: nat, n: nat)
    requires n < SPAN && Unmapped(s, s1, v, n) && Remapped(s1, s2, PathOf(v + n), None)
    ensures Unmapped(s, s2, v, n + 1)
  {
    forall u | InTables(u) ensures Translate(s2, u) == if Offset(u, v) < n + 1 then None else Translate(s, u) {
      OffsetPath(u, v, n);
    }
  }

  /** Every page of the range is mapped. */
  ghost predicate RangeMapped(s: Space, v: nat, n: nat) {
    forall u :: InTables(u) && Offset(u, v) < n ==> Translate(s, u).Some?
  }

  /** Below every top-level slot that the range touches, a page outside the range is mapped. */
  ghost predicate Anchored(s: Space, v: nat, n: nat) {
    forall u :: InTables(u) && Offset(u, v) < n ==> HasAnchor(s, v, n, u.a)
  }

  ghost predicate HasAnchor(s: Space, v: nat, n: nat, a: nat) {
    exists w :: InTables(w) && w.a == a && Offset(w, v) >= n && Translate(s, w).Some?
  }

  /** The rights of the pages that stay mapped stay. */
  ghost predicate RightsUnmapped(s: Space, s': Space, v: nat, n: nat) {
    forall u :: InTables(u) ==> Access(s', u) == if Offset(u, v) < n then None else Access(s, u)
  }

  lemma UnmappedRights(s: Space, s': Space, v: nat, n: nat)
    requires Unmapped(s, s', v, n) && Shrunk(s, s')
    ensures RightsUnmapped(s, s', v, n)
  {
    forall u | InTables(u) ensures Access(s', u) == if Offset(u, v) < n then None else Access(s, u) {
      assert ShrunkAt(s, s', Upper(u)) && Translate(s', u) == if Offset(u, v) < n then None else Translate(s, u);
    }
  }

  /** munmap of a mapped range of n pages from v on: for the global root, or for any root
      if each third-level table keeps another page. */
  method Munmap(pm: PageMemory, root: nat, v: nat, n: nat, kernelRoot: nat)
    requires pm.Valid(root) && n <= SPAN && RangeMapped(pm.At(root), v, n)
    requires kernelRoot == root || Anchored(pm.At(root), v, n)
    modifies pm
    ensures pm.Valid(root)
    ensures Unmapped(old(pm.At(root)), pm.At(root), v, n) && Shed(old(pm.At(root)), pm.At(root))
    ensures RightsUnmapped(old(pm.At(root)), pm.At(root), v, n)
    ensures Returned(old(pm.rank), pm.rank, old(pm.pool), pm.pool, old(pm.last), pm.last)
    ensures Stock(pm.pool, pm.rank) == Stock(old(pm.pool), old(pm.rank))
  {
    var done := 0;
    ghost var s0 := pm.At(root);
    NothingReduced(s0, root);
    while done < n
      invariant pm.Valid(root) && done <= n && Stock(pm.pool, pm.rank) == Stock(old(pm.pool), old(pm.rank))
      invariant Unmapped(s0, pm.At(root), v, done) && Shed(s0, pm.At(root))
      invariant Returned(old(pm.rank), pm.rank, old(pm.pool), pm.pool, old(pm.last), pm.last)
    {
      ghost var s := pm.At(root);
      var u := PathOf(v + done);
      OffsetPath(u, v, done);
      assert Translate(s, u) == Translate(s0, u) && Translate(s0, u).Some?;
      if kernelRoot != root { AnchorHolds(pm, root, s0, v, n, done, u); }
      UnmapPage(pm, root, u, kernelRoot);
      UnmappedOneMore(s0, s, pm.At(root), v, done);
      ShedOn(s0, s, pm.At(root));
      done := done + 1;
    }
    UnmappedRights(s0, pm.At(root), v, n);
  }

  lemma AnchorHolds(pm: PageMemory, root: nat, s0: Space, v: nat, n: nat, done: nat, u: Path)
    requires pm.Valid(root) && Anchored(s0, v, n) && Unmapped(s0, pm.At(root), v, done) && done < n
    requires InTables(u) && Offset(u, v) == done && LowTable(pm.At(root), u).Some?
    ensures KeepsThird(pm.tables, root, u)
  {
    assert HasAnchor(s0, v, n, u.a);
    var w :| InTables(w) && w.a == u.a && Offset(w, v) >= n && Translate(s0, w).Some?;
    NeighbourKeepsThird(pm, root, u, w);
  }

  /** With another root the property fails as soon as a third-level table is freed: the code clears
      the slot in the global pml4, so the root still points to a page that is no table any more. */
  lemma ForeignRootDangles(s: Space, a: nat, edges': Edges)
    requires EmptyTable(s, s.root, a)
    ensures !Shaped(Space(s.m, s.r - {s.edges[(s.root, a)]}, edges', s.root))
  {
    var g := s.edges[(s.root, a)];
    var s' := Space(s.m, s.r - {g}, edges', s.root);
    EmptyTableHasNoLinks(s, s.root, a);
    assert Linked(s, s.root, a) && LinkSlot(s', s.root, a);
  }

  /** Cutting an empty table h off its parent g empties g, if it has no other entry. */
  lemma CutEmptiesParent(s: Space, f: nat, i: nat, g: nat, j: nat, h: nat)
    requires Shaped(s) && (f, i) in s.edges && s.edges[(f, i)] == g && (g, j) in s.edges && s.edges[(g, j)] == h
    requires NoEntries(s.m[h]) && !OtherEntry(s.m[g], j)
    ensures EmptyTable(s, g, j) && EmptyTable(WithoutTable(s, g, j), f, i)
    ensures WithoutTable(s, g, j).edges[(f, i)] == g
  {
    OtherEntryStays(s.m[g], j);
    EmptyTableHasNoLinks(s, g, j);
    CutTableShape(s, g, j);
  }

  /** And it is freed whenever KeepsThird does not hold: clearing the entry of page v empties
      the lowest table z, then the second-level table y, then the third-level table x. */
  lemma ForeignUnmapFreesThird(s: Space, v: Path, x: nat, y: nat, z: nat)
    requires Shaped(s) && InTables(v) && !KeepsThird(s.m, s.root, v)
    requires (s.root, v.a) in s.edges && s.edges[(s.root, v.a)] == x
    requires (x, v.b) in s.edges && s.edges[(x, v.b)] == y
    requires (y, v.c) in s.edges && s.edges[(y, v.c)] == z
    ensures var s1 := s.(m := SetEntry(s.m, z, v.d, EMPTY));
            EmptyTable(s1, y, v.c) &&
            var s2 := WithoutTable(s1, y, v.c);
            EmptyTable(s2, x, v.b) &&
            var s3 := WithoutTable(s2, x, v.b);
            EmptyTable(s3, s.root, v.a) && s3.edges[(s.root, v.a)] == x
  {
    assert Linked(s, s.root, v.a) && Linked(s, x, v.b) && Linked(s, y, v.c);
    OtherEntryStays(s.m[z], v.d);
    var s1 := s.(m := SetEntry(s.m, z, v.d, EMPTY));
    SetLeafShape(s, z, v.d, EMPTY);
    CutEmptiesParent(s1, x, v.b, y, v.c, z);
    var s2 := WithoutTable(s1, y, v.c);
    assert s2.m[x] == s.m[x];
    CutEmptiesParent(s2, s.root, v.a, x, v.b, y);
  }
}
