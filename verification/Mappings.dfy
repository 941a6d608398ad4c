/** mmap and munmap with their index: a red-black tree of the mapped ranges (mem/page.c, lib/rbtree.c). */
module Mappings {
  import opened Common
  import opened RbShape
  import opened RbHeap
  import opened RbInsert
  import opened RbQuery
  import opened RbDelete
  import BuddyLayout
  import PageShape
  import Pages

  // ----- The index -----

  /** A mapped range: its first address, and the physical address, the length and the attributes. */
  datatype Item = Item(start: Key, words: Extra)

  function Length(m: Item): Key { m.words.value2 }

  /** The tree holds exactly these ranges, by address. */
  ghost predicate Keeps(tree: RbTree, items: seq<Item>)
    reads tree, tree.repr
  {
    && tree.Valid() && |tree.Entries()| == |items|
    && forall i :: 0 <= i < |items| ==> Stores(tree.Entries()[i], tree.repr, items[i])
  }

  ghost predicate Stores(e: Entry, nodes: set<RbNode>, m: Item)
    reads nodes
  {
    e.n in nodes && e.key == m.start && e.n.extra == m.words
  }

  predicate Bounded(m: Item) { 0 < Length(m) && m.start + Length(m) < WORD }

  predicate Ends(m: Item, m': Item) { m.start + Length(m) <= m'.start }

  /** The ranges are in order and do not overlap. */
  ghost predicate Disjoint(items: seq<Item>) {
    && (forall i :: 0 <= i < |items| ==> Bounded(items[i]))
    && (forall i, j :: 0 <= i < j < |items| ==> Ends(items[i], items[j]))
  }

  predicate Meets(m: Item, m': Item) { m.start < m'.start + Length(m') && m'.start < m.start + Length(m) }

  ghost predicate MeetsAny(items: seq<Item>, m: Item) { exists i :: 0 <= i < |items| && Meets(items[i], m) }

  ghost predicate AllAbove(items: seq<Item>, m: Item) { forall i :: 0 <= i < |items| ==> m.start < items[i].start }

  lemma KeepsRanges(tree: RbTree, items: seq<Item>)
    requires Keeps(tree, items) && Disjoint(items)
    ensures RangeMap(tree.Entries(), tree.repr)
  {
    var s := tree.Entries();
    assert forall i :: 0 <= i < |s| ==> Stores(s[i], tree.repr, items[i]);
    assert forall i, j :: 0 <= i < j < |items| ==> Ends(items[i], items[j]);
  }

  /** The two conditions under which rbt_range_val2 finds nothing, in terms of the ranges. */
  lemma SeenRanges(tree: RbTree, items: seq<Item>, m: Item)
    requires Keeps(tree, items)
    ensures AllAbove(items, m) <==> forall i :: 0 <= i < |tree.Entries()| ==> m.start < tree.Entries()[i].key
    ensures !MeetsAny(items, m) <==>
            forall i :: 0 <= i < |tree.Entries()| ==> !Overlaps(tree.Entries()[i], m.start, Length(m))
  {
    var s := tree.Entries();
    forall i | 0 <= i < |items|
      ensures s[i].key == items[i].start && (Overlaps(s[i], m.start, Length(m)) <==> Meets(items[i], m))
    {
      assert Stores(s[i], tree.repr, items[i]);
    }
  }

  function InsertAtPlace(items: seq<Item>, at: nat, m: Item): seq<Item>
    requires at <= |items|
  {
    items[..at] + [m] + items[at..]
  }

  ghost predicate Rising(items: seq<Item>) { forall i, j :: 0 <= i < j < |items| ==> items[i].start < items[j].start }

  /** Element j of the longer sequence. */
  lemma InsertedAt(items: seq<Item>, at: nat, m: Item, j: nat)
    requires at <= |items| && j <= |items|
    ensures InsertAtPlace(items, at, m)[j] == if j < at then items[j] else if j == at then m else items[j - 1]
  {}

  lemma MeetingBreaks(items: seq<Item>, at: nat, m: Item, i: nat)
    requires at <= |items| && i < |items| && Meets(items[i], m)
    ensures !Disjoint(InsertAtPlace(items, at, m))
  {
    var items' := InsertAtPlace(items, at, m);
    InsertedAt(items, at, m, at);
    InsertedAt(items, at, m, if i < at then i else i + 1);
    assert if i < at then !Ends(items'[i], items'[at]) else !Ends(items'[at], items'[i + 1]);
  }

  lemma FreeKeeps(items: seq<Item>, at: nat, m: Item, i: nat, j: nat)
    requires at <= |items| && Disjoint(items) && Bounded(m) && !MeetsAny(items, m) && i < j <= |items|
    requires Rising(InsertAtPlace(items, at, m))
    ensures Ends(InsertAtPlace(items, at, m)[i], InsertAtPlace(items, at, m)[j])
  {
    InsertedAt(items, at, m, i);
    InsertedAt(items, at, m, j);
    if j == at {
      assert !Meets(items[i], m);
    } else if i == at {
      assert !Meets(items[j - 1], m);
    }
  }

  /** One more range in its place: still disjoint exactly if it meets none. */
  lemma DisjointExactly(items: seq<Item>, at: nat, m: Item)
    requires at <= |items| && Disjoint(items) && Bounded(m) && Rising(InsertAtPlace(items, at, m))
    ensures Disjoint(InsertAtPlace(items, at, m)) <==> !MeetsAny(items, m)
  {
    var items' := InsertAtPlace(items, at, m);
    if MeetsAny(items, m) {
      var i :| 0 <= i < |items| && Meets(items[i], m);
      MeetingBreaks(items, at, m, i);
    } else {
      forall i | 0 <= i < |items'| ensures Bounded(items'[i]) { InsertedAt(items, at, m, i); }
      forall i, j | 0 <= i < j < |items'| ensures Ends(items'[i], items'[j]) { FreeKeeps(items, at, m, i, j); }
    }
  }

  /** A new node with its words, under a new key. */
  method Store(tree: RbTree, m: Item, room: bool, ghost items: seq<Item>) returns (node: RbNode?, ghost at: nat)
    requires Keeps(tree, items) && forall i :: 0 <= i < |items| ==> items[i].start != m.start
    modifies tree, tree.repr
    ensures node == null <==> !room
    ensures node == null ==> Keeps(tree, items) && tree.repr == old(tree.repr)
    ensures node != null ==>
              && fresh(tree.repr - old(tree.repr)) && at <= |items|
              && Keeps(tree, InsertAtPlace(items, at, m))
  {
    ghost var s := tree.Entries();
    assert !HasKey(s, m.start);
    node, at := Insert(tree, m.start, room);
    if node != null {
      StoredAt(s, at, Entry(node, m.start), tree.Entries());
      SetWords(tree, node, m.words);
      ghost var items' := InsertAtPlace(items, at, m);
      StoredItems(items, at, m, items');
      forall j | 0 <= j < |items'| ensures Stores(tree.Entries()[j], tree.repr, items'[j]) {
        assert j < at ==> old(Stores(s[j], tree.repr, items[j]));
        assert j > at ==> old(Stores(s[j - 1], tree.repr, items[j - 1]));
      }
    }
  }

  lemma StoredAt(s: seq<Entry>, at: nat, e: Entry, s': seq<Entry>)
    requires at <= |s| && s' == s[..at] + [e] + s[at..]
    ensures |s'| == |s| + 1
    ensures forall j :: 0 <= j < |s'| ==> s'[j] == if j < at then s[j] else if j == at then e else s[j - 1]
  {}

  lemma StoredItems(items: seq<Item>, at: nat, m: Item, items': seq<Item>)
    requires at <= |items| && items' == InsertAtPlace(items, at, m)
    ensures |items'| == |items| + 1
    ensures forall j :: 0 <= j < |items'| ==>
              items'[j] == if j < at then items[j] else if j == at then m else items[j - 1]
  {}

  lemma RisingEntries(tree: RbTree, items: seq<Item>)
    requires Keeps(tree, items)
    ensures Rising(items)
  {
    var s := tree.Entries();
    forall i, j | 0 <= i < j < |items| ensures items[i].start < items[j].start {
      assert s[i].key < s[j].key && Stores(s[i], tree.repr, items[i]) && Stores(s[j], tree.repr, items[j]);
    }
  }

  /** The part of mmap on the index. It refuses a range that meets another one, but sees that only if some range
      starts at or below it; otherwise the new range goes in, and the ranges are no longer disjoint. */
  method Reserve(tree: RbTree, start: Key, words: Extra, room: bool, ghost items: seq<Item>)
    returns (taken: bool, ghost items': seq<Item>, ghost at: nat)
    requires Keeps(tree, items) && Disjoint(items) && Bounded(Item(start, words))
    modifies tree, tree.repr
    ensures Keeps(tree, items') && fresh(tree.repr - old(tree.repr))
    ensures taken <==> room && (!MeetsAny(items, Item(start, words)) || AllAbove(items, Item(start, words)))
    ensures !taken ==> items' == items
    ensures taken ==> at <= |items| && items' == InsertAtPlace(items, at, Item(start, words))
    ensures taken ==> (Disjoint(items') <==> !MeetsAny(items, Item(start, words)))
  {
    ghost var m := Item(start, words);
    taken, items', at := false, items, 0;
    KeepsRanges(tree, items);
    var test, _ := RangeVal2(tree, start, words.value2);
    SeenRanges(tree, items, m);
    assert test == null <==> AllAbove(items, m) || !MeetsAny(items, m);
    if test != null {
      return;
    }
    StartIsNew(items, m);
    var node;
    node, at := Store(tree, Item(start, words), room, items);
    if node != null {
      taken, items' := true, InsertAtPlace(items, at, m);
      RisingEntries(tree, items');
      DisjointExactly(items, at, m);
    }
  }

  lemma StartIsNew(items: seq<Item>, m: Item)
    requires Disjoint(items) && Bounded(m) && (!MeetsAny(items, m) || AllAbove(items, m))
    ensures forall i :: 0 <= i < |items| ==> items[i].start != m.start
  {
    forall i | 0 <= i < |items| ensures items[i].start != m.start {
      if items[i].start == m.start { assert Meets(items[i], m); }
    }
  }

  // ----- Index and page tables -----

  const ALL_PAGES: nat := WORD / PAGE

  /** n pages from v on, in the lower or in the upper half of the address space. */
  predicate Canonical(v: nat, n: nat) {
    v + n <= Pages.SPAN / 2 || (ALL_PAGES - Pages.SPAN / 2 <= v && v + n <= ALL_PAGES)
  }

  /** Canonical pages with the same four indices are the same. */
  lemma SamePathSamePage(w: nat, w': nat)
    requires Canonical(w, 1) && Canonical(w', 1) && Pages.PathOf(w) == Pages.PathOf(w')
    ensures w == w'
  {
    Pages.PathIsNumber(Pages.PathOf(w), w);
    Pages.PathIsNumber(Pages.PathOf(w), w');
    LowDigits(w);
    LowDigits(w');
  }

  lemma LowDigits(w: nat)
    requires Canonical(w, 1)
    ensures w % Pages.SPAN == if w < Pages.SPAN then w else w - (ALL_PAGES - Pages.SPAN)
  {
    if w >= Pages.SPAN {
      Pages.UnderSpan(w, 65535, w - (ALL_PAGES - Pages.SPAN));
    }
  }

  /** The attribute word of the source: bit 0 is present, bit 1 writable, bit 2 user. */
  function AttrOf(word: nat): PageShape.Attr {
    PageShape.Attr(word % 2 == 1, word / 2 % 2 == 1, word / 4 % 2 == 1, word / 8)
  }

  /** PAGE_PRESENT, PAGE_RW and PAGE_USER are 1, 2 and 4. */
  lemma AttrBits(word: nat)
    ensures AttrOf(word).present <==> BuddyLayout.Bit(word, 0)
    ensures AttrOf(word).rw <==> BuddyLayout.Bit(word, 1)
    ensures AttrOf(word).user <==> BuddyLayout.Bit(word, 2)
  {
    assert BuddyLayout.Bit(word, 1) == BuddyLayout.Bit(word / 2, 0);
    assert BuddyLayout.Bit(word, 2) == BuddyLayout.Bit(word / 2, 1) == BuddyLayout.Bit(word / 2 / 2, 0);
    assert word / 2 / 2 == word / 4;
  }

  /** An attribute word, and an entry as it stands in memory. */
  function AttrWord(a: PageShape.Attr): nat {
    (if a.present then 1 else 0) + (if a.rw then 2 else 0) + (if a.user then 4 else 0) + 8 * a.rest
  }

  function Raw(e: PageShape.Entry): nat { e.frame * PAGE + AttrWord(e.attr) }

  lemma AttrRoundTrip(word: nat)
    ensures AttrWord(AttrOf(word)) == word
  {
    var a, b := word / 2, word / 4;
    assert word == 2 * a + word % 2 && a == 2 * b + a % 2 && b == 2 * (word / 8) + b % 2;
  }

  function Page(m: Item): nat { m.start / PAGE }

  function Count(m: Item): nat { Length(m) / PAGE }

  function Attributes(m: Item): PageShape.Attr { AttrOf(m.words.value3) }

  /** What page number k of the range should translate to. */
  function PageEntry(m: Item, k: nat): PageShape.Entry { PageShape.Entry(m.words.value / PAGE + k, Attributes(m)) }

  /** Page number k of a range has the entry that mmap writes, its physical address or-ed with the attributes. */
  lemma RawWord(m: Item, k: nat)
    requires m.words.value % PAGE == 0 && BuddyLayout.NoCommonBit(m.words.value + k * PAGE, m.words.value3)
    ensures Raw(PageEntry(m, k)) == BuddyLayout.Or(m.words.value + k * PAGE, m.words.value3)
  {
    AttrRoundTrip(m.words.value3);
    BuddyLayout.OrDisjoint(m.words.value + k * PAGE, m.words.value3);
  }

  predicate Aligned(m: Item) {
    && m.start % PAGE == 0 && Length(m) % PAGE == 0 && m.words.value % PAGE == 0
    && Attributes(m).present && Canonical(Page(m), Count(m))
  }

  ghost predicate AllAligned(items: seq<Item>) { forall i :: 0 <= i < |items| ==> Aligned(items[i]) }

  ghost predicate PageAgrees(s: PageShape.Space, m: Item, k: nat) {
    PageShape.Translate(s, Pages.PathOf(Page(m) + k)) == Some(PageEntry(m, k))
  }

  /** Every page of every range in the index translates as the index says. */
  ghost predicate Agrees(s: PageShape.Space, items: seq<Item>) {
    forall i, k :: 0 <= i < |items| && 0 <= k < Count(items[i]) ==> PageAgrees(s, items[i], k)
  }

  ghost predicate Maps(s: PageShape.Space, s': PageShape.Space, m: Item) {
    Pages.Mapped(s, s', Page(m), Count(m), m.words.value / PAGE, Attributes(m))
  }

  /** A page outside the range keeps its translation, in mmap and in munmap. */
  lemma Elsewhere(m: Item, w: nat)
    requires Aligned(m) && Canonical(w, 1) && !(Page(m) <= w < Page(m) + Count(m))
    ensures Pages.Offset(Pages.PathOf(w), Page(m)) >= Count(m)
  {
    var k := Pages.Offset(Pages.PathOf(w), Page(m));
    if k < Count(m) {
      Pages.OffsetPath(Pages.PathOf(w), Page(m), k);
      SamePathSamePage(w, Page(m) + k);
    }
  }

  lemma Inside(m: Item, k: nat)
    requires Aligned(m) && k < Count(m)
    ensures Pages.Offset(Pages.PathOf(Page(m) + k), Page(m)) == k && Canonical(Page(m) + k, 1)
  {
    Pages.OffsetPath(Pages.PathOf(Page(m) + k), Page(m), k);
  }

  /** If page k of range m is also a page of m', both say the same about it. */
  ghost predicate SaysSame(m: Item, m': Item, k: nat) {
    var w := Page(m) + k;
    Page(m') <= w < Page(m') + Count(m') ==> PageEntry(m, k) == PageEntry(m', w - Page(m'))
  }

  ghost predicate Compatible(items: seq<Item>, m': Item) {
    forall i, k :: 0 <= i < |items| && 0 <= k < Count(items[i]) ==> SaysSame(items[i], m', k)
  }

  lemma PageMapped(s: PageShape.Space, s': PageShape.Space, m': Item, w: nat)
    requires Aligned(m') && Maps(s, s', m') && Page(m') <= w < Page(m') + Count(m')
    ensures PageShape.Translate(s', Pages.PathOf(w)) == Some(PageEntry(m', w - Page(m')))
  {
    Inside(m', w - Page(m'));
  }

  lemma PageKept(s: PageShape.Space, s': PageShape.Space, m': Item, w: nat)
    requires Aligned(m') && Maps(s, s', m') && Canonical(w, 1) && !(Page(m') <= w < Page(m') + Count(m'))
    ensures PageShape.Translate(s', Pages.PathOf(w)) == PageShape.Translate(s, Pages.PathOf(w))
  {
    Elsewhere(m', w);
  }

  /** Mapping m' leaves page k of range m right exactly if both ranges say the same about it. */
  lemma PageAfterMap(s: PageShape.Space, s': PageShape.Space, m: Item, m': Item, k: nat)
    requires Aligned(m) && Aligned(m') && k < Count(m) && PageAgrees(s, m, k) && Maps(s, s', m')
    ensures PageAgrees(s', m, k) <==> SaysSame(m, m', k)
  {
    var w := Page(m) + k;
    if Page(m') <= w < Page(m') + Count(m') {
      PageMapped(s, s', m', w);
    } else {
      Inside(m, k);
      PageKept(s, s', m', w);
    }
  }

  lemma NewPageAgrees(s: PageShape.Space, s': PageShape.Space, m': Item, k: nat)
    requires Aligned(m') && k < Count(m') && Maps(s, s', m')
    ensures PageAgrees(s', m', k)
  {
    PageMapped(s, s', m', Page(m') + k);
  }

  lemma ApartSaysSame(m: Item, m': Item, k: nat)
    requires Aligned(m) && Aligned(m') && !Meets(m, m') && k < Count(m)
    ensures SaysSame(m, m', k)
  {}

  /** mmap of a range keeps the index and the page tables in agreement exactly if the ranges that it meets say
      the same about the shared pages; so it does if it meets none. */
  lemma AgreesExactly(s: PageShape.Space, s': PageShape.Space, items: seq<Item>, at: nat, m': Item)
    requires at <= |items| && AllAligned(items) && Aligned(m') && Agrees(s, items) && Maps(s, s', m')
    ensures Agrees(s', InsertAtPlace(items, at, m')) <==> Compatible(items, m')
    ensures !MeetsAny(items, m') ==> Compatible(items, m')
  {
    var items' := InsertAtPlace(items, at, m');
    StoredItems(items, at, m', items');
    forall i, k | 0 <= i < |items| && 0 <= k < Count(items[i])
      ensures PageAgrees(s', items[i], k) <==> SaysSame(items[i], m', k)
      ensures !MeetsAny(items, m') ==> SaysSame(items[i], m', k)
    {
      assert PageAgrees(s, items[i], k);
      PageAfterMap(s, s', items[i], m', k);
      if !MeetsAny(items, m') { ApartSaysSame(items[i], m', k); }
    }
    forall k | 0 <= k < Count(m') ensures PageAgrees(s', m', k) { NewPageAgrees(s, s', m', k); }
    if Agrees(s', items') {
      forall i, k | 0 <= i < |items| && 0 <= k < Count(items[i]) ensures SaysSame(items[i], m', k) {
        assert items'[if i < at then i else i + 1] == items[i];
      }
    }
  }

  /** The smallest overlap that is missed: page 2 is mapped, and pages 1 and 2 are to be mapped elsewhere. */
  lemma MissedOverlap()
    ensures var m, m' := Item(2 * PAGE, Extra(256 * PAGE, PAGE, 3)), Item(PAGE, Extra(512 * PAGE, 2 * PAGE, 3));
            && Disjoint([m]) && AllAligned([m]) && Aligned(m') && Bounded(m')
            && MeetsAny([m], m') && AllAbove([m], m') && !Compatible([m], m')
  {
    var m, m' := Item(2 * PAGE, Extra(256 * PAGE, PAGE, 3)), Item(PAGE, Extra(512 * PAGE, 2 * PAGE, 3));
    assert Meets([m][0], m') && !SaysSame([m][0], m', 0);
  }

  // ----- The code -----

  /** The range that mmap enters: whole pages, from the page of paddr on. */
  function Request(paddr: Key, vaddr: Key, len: Key, attr: Key): Item
    requires len + 2 * PAGE <= WORD
  {
    Item(vaddr / PAGE * PAGE, Extra(paddr / PAGE * PAGE, (len + paddr % PAGE + PAGE - 1) / PAGE * PAGE, attr))
  }

  /** That range starts at the page of vaddr and of paddr, has the given attributes, and covers exactly the pages of
      the physical bytes that are asked for. */
  lemma RequestCovers(paddr: Key, vaddr: Key, len: Key, attr: Key)
    requires len + 2 * PAGE <= WORD
    ensures var m := Request(paddr, vaddr, len, attr);
            && m.start % PAGE == 0 && m.start <= vaddr < m.start + PAGE
            && m.words.value % PAGE == 0 && m.words.value <= paddr < m.words.value + PAGE && m.words.value3 == attr
            && Length(m) % PAGE == 0 && m.words.value + Length(m) - PAGE < paddr + len <= m.words.value + Length(m)
  {
    DownToPage(paddr);
    DownToPage(vaddr);
    DownToPage(len + paddr % PAGE + PAGE - 1);
  }

  lemma DownToPage(a: nat)
    ensures var b := a / PAGE * PAGE; b % PAGE == 0 && b <= a < b + PAGE && b == a - a % PAGE
  {}

  /** Ranges in order, aligned, and in agreement with the page tables. */
  ghost predicate Good(s: PageShape.Space, items: seq<Item>) {
    Disjoint(items) && AllAligned(items) && Agrees(s, items)
  }

  /** The outcome of mapping m when it is not refused: it is in the index, which stays disjoint exactly if m meets
      no range, and stays in agreement exactly if m says the same as those that it meets. */
  ghost predicate Entered(s: PageShape.Space, items: seq<Item>, items': seq<Item>, m: Item) {
    && (exists at :: 0 <= at <= |items| && items' == InsertAtPlace(items, at, m))
    && (Disjoint(items') <==> !MeetsAny(items, m))
    && (Agrees(s, items') <==> Compatible(items, m))
    && (!MeetsAny(items, m) ==> Good(s, items'))
  }

  lemma EnteredExactly(s: PageShape.Space, s': PageShape.Space, items: seq<Item>, at: nat, m: Item, items': seq<Item>)
    requires at <= |items| && Good(s, items) && Aligned(m) && Maps(s, s', m) && items' == InsertAtPlace(items, at, m)
    requires Disjoint(items') <==> !MeetsAny(items, m)
    ensures Entered(s', items, items', m)
  {
    AgreesExactly(s, s', items, at, m);
    StoredItems(items, at, m, items');
    assert AllAligned(items');
  }

  /** mmap with its index. It maps the range unless it sees that it meets another one, and it sees that unless
      all ranges start above. `done` counts the pages that got mapped before memory ran out. */
  method Mmap(pm: Pages.PageMemory, root: nat, tree: RbTree, paddr: Key, vaddr: Key, len: Key, attr: Key, room: bool,
              ghost items: seq<Item>)
    returns (taken: bool, done: nat, ghost items': seq<Item>)
    requires pm.Valid(root) && Keeps(tree, items) && Good(pm.At(root), items) && len + 2 * PAGE <= WORD
    requires Bounded(Request(paddr, vaddr, len, attr)) && Aligned(Request(paddr, vaddr, len, attr))
    modifies pm, tree, tree.repr
    ensures pm.Valid(root) && Keeps(tree, items')
    ensures !taken ==> items' == items && unchanged(pm)
    ensures var m := Request(paddr, vaddr, len, attr);
            && (taken <==> room && (!MeetsAny(items, m) || AllAbove(items, m)))
            && (taken && done == Count(m) ==> Entered(pm.At(root), items, items', m))
            && (taken && done == Count(m) ==>
                  Pages.RightsMapped(old(pm.At(root)), pm.At(root), Page(m), Count(m), Attributes(m)))
            && (taken && |old(pm.pool)| >= 3 * Count(m) ==> done == Count(m))
  {
    var m := Request(paddr, vaddr, len, attr);
    ghost var at;
    taken, items', at := Reserve(tree, m.start, m.words, room, items);
    done := 0;
    if taken {
      ghost var s := pm.At(root);
      done := Pages.Mmap(pm, root, m.words.value / PAGE, Page(m), Count(m), AttrOf(attr));
      if done == Count(m) { EnteredExactly(s, pm.At(root), items, at, m, items'); }
    }
  }

  /** Unmapping a range leaves the pages of the ranges before and after it. */
  lemma PageAfterUnmap(s: PageShape.Space, s': PageShape.Space, m: Item, gone: Item, k: nat)
    requires Aligned(m) && Aligned(gone) && (Ends(m, gone) || Ends(gone, m)) && k < Count(m) && PageAgrees(s, m, k)
    requires Pages.Unmapped(s, s', Page(gone), Count(gone))
    ensures PageAgrees(s', m, k)
  {
    Inside(m, k);
    Elsewhere(gone, Page(m) + k);
  }

  lemma WithoutAt(items: seq<Item>, i: nat, j: nat) returns (old_: nat)
    requires i < |items| && j < |items| - 1
    ensures old_ == (if j < i then j else j + 1) && old_ != i && old_ < |items| && Without(items, i)[j] == items[old_]
  {
    old_ := if j < i then j else j + 1;
  }

  lemma DisjointWithout(items: seq<Item>, i: nat)
    requires i < |items| && Disjoint(items)
    ensures Disjoint(Without(items, i))
  {
    var items' := Without(items, i);
    forall j | 0 <= j < |items'| ensures Bounded(items'[j]) { var a := WithoutAt(items, i, j); }
    forall j, k | 0 <= j < k < |items'| ensures Ends(items'[j], items'[k]) {
      var a := WithoutAt(items, i, j);
      var b := WithoutAt(items, i, k);
      assert Ends(items[a], items[b]);
    }
  }

  /** What is left of a good index after one of its ranges is unmapped. */
  lemma GoodWithout(s: PageShape.Space, s': PageShape.Space, items: seq<Item>, i: nat)
    requires i < |items| && Good(s, items) && Pages.Unmapped(s, s', Page(items[i]), Count(items[i]))
    ensures Good(s', Without(items, i))
  {
    var items' := Without(items, i);
    DisjointWithout(items, i);
    forall j | 0 <= j < |items'| ensures Aligned(items'[j]) { var a := WithoutAt(items, i, j); }
    forall j, k | 0 <= j < |items'| && 0 <= k < Count(items'[j]) ensures PageAgrees(s', items'[j], k) {
      var a := WithoutAt(items, i, j);
      assert PageAgrees(s, items[a], k);
      assert if a < i then Ends(items[a], items[i]) else Ends(items[i], items[a]);
      PageAfterUnmap(s, s', items[a], items[i], k);
    }
  }

  /** All pages of a range in the index are mapped. */
  lemma RangeIsMapped(s: PageShape.Space, items: seq<Item>, i: nat)
    requires i < |items| && Good(s, items)
    ensures Pages.RangeMapped(s, Page(items[i]), Count(items[i])) && Count(items[i]) <= Pages.SPAN
  {
    var m := items[i];
    forall u | PageShape.InTables(u) && Pages.Offset(u, Page(m)) < Count(m) ensures PageShape.Translate(s, u).Some? {
      var k := Pages.Offset(u, Page(m));
      Pages.OffsetPath(u, Page(m), k);
      assert PageAgrees(s, m, k);
    }
  }

  /** The entry under the given key, if there is one, can be deleted without the fixup loop. */
  ghost predicate Deletable(c: Ctx, t: Tree, key: Key)
    decreases t
  {
    t.Node? ==>
      if key == t.key then FixupIdle(c, t)
      else if key < t.key then Deletable(Down(c, t, L), t.left, key)
      else Deletable(Down(c, t, R), t.right, key)
  }

  /** With all red-black rules every entry can. */
  lemma {:induction false} RuledDeletable(c: Ctx, t: Tree, key: Key)
    requires Ruled(Plug(c, t))
    ensures Deletable(c, t, key)
    decreases t
  {
    if t.Node? {
      RuledIsIdle(c, t);
      if key < t.key { RuledDeletable(Down(c, t, L), t.left, key); }
      if key > t.key { RuledDeletable(Down(c, t, R), t.right, key); }
    }
  }

  lemma {:induction false} FindDeletable(c: Ctx, t: Tree, i: nat, key: Key) returns (c': Ctx, t': Tree)
    requires Sorted(Inorder(Plug(c, t))) && |Before(c)| <= i < |Before(c)| + |Inorder(t)| && i < |Inorder(Plug(c, t))|
    requires Inorder(Plug(c, t))[i].key == key && Deletable(c, t, key)
    ensures Plug(c', t') == Plug(c, t) && t'.Node? && Rank(c', t') == i && FixupIdle(c', t')
    decreases t
  {
    RankEntry(c, t);
    if i < Rank(c, t) {
      c', t' := FindDeletable(Down(c, t, L), t.left, i, key);
    } else if i == Rank(c, t) {
      c', t' := c, t;
    } else {
      c', t' := FindDeletable(Down(c, t, R), t.right, i, key);
    }
  }

  /** rbt_delete of range number i. */
  method Drop(tree: RbTree, node: RbNode, ghost items: seq<Item>, ghost i: nat)
    requires Keeps(tree, items) && i < |items| && tree.Entries()[i] == Entry(node, items[i].start)
    requires Deletable(Top, tree.shape, items[i].start)
    modifies tree, tree.repr
    ensures Keeps(tree, Without(items, i)) && tree.repr <= old(tree.repr)
  {
    ghost var s := tree.Entries();
    ghost var c, t := FindDeletable(Top, tree.shape, i, items[i].start);
    RankEntry(c, t);
    Delete(tree, node, c, t);
    ghost var items' := Without(items, i);
    forall j | 0 <= j < |items'| ensures Stores(tree.Entries()[j], tree.repr, items'[j]) {
      EntryCell(tree, j);
      assert old(Stores(s[if j < i then j else j + 1], tree.repr, items[if j < i then j else j + 1]));
    }
  }

  /** What rbt_search finds, in terms of the ranges. */
  lemma WhichItem(tree: RbTree, items: seq<Item>, vaddr: Key, node: RbNode?) returns (i: nat)
    requires Keeps(tree, items) && (node == null <==> !HasKey(tree.Entries(), vaddr))
    requires node != null ==> Entry(node, vaddr) in tree.Entries()
    ensures node == null ==> forall j :: 0 <= j < |items| ==> items[j].start != vaddr
    ensures node != null ==> i < |items| && tree.Entries()[i] == Entry(node, vaddr)
    ensures node != null ==> node in tree.repr && items[i] == Item(vaddr, node.extra)
  {
    i := 0;
    if node == null {
      forall j | 0 <= j < |items| ensures items[j].start != vaddr {
        assert Stores(tree.Entries()[j], tree.repr, items[j]);
      }
    } else {
      i :| 0 <= i < |tree.Entries()| && tree.Entries()[i] == Entry(node, vaddr);
      assert Stores(tree.Entries()[i], tree.repr, items[i]);
    }
  }

  /** munmap with its index: the range that starts at vaddr is gone from both, and they still agree. */
  method Munmap(pm: Pages.PageMemory, root: nat, tree: RbTree, vaddr: Key, kernelRoot: nat, ghost items: seq<Item>)
    returns (found: bool, ghost i: nat, ghost items': seq<Item>)
    requires pm.Valid(root) && Keeps(tree, items) && Good(pm.At(root), items)
    requires Deletable(Top, tree.shape, vaddr)
    requires kernelRoot == root || forall j :: 0 <= j < |items| && items[j].start == vaddr ==>
               Pages.Anchored(pm.At(root), Page(items[j]), Count(items[j]))
    modifies pm, tree, tree.repr
    ensures pm.Valid(root) && Keeps(tree, items') && Good(pm.At(root), items')
    ensures !found ==> items' == items && unchanged(pm) && forall j :: 0 <= j < |items| ==> items[j].start != vaddr
    ensures found ==>
              && i < |items| && items[i].start == vaddr && items' == Without(items, i)
              && Pages.Unmapped(old(pm.At(root)), pm.At(root), Page(items[i]), Count(items[i]))
              && Pages.RightsUnmapped(old(pm.At(root)), pm.At(root), Page(items[i]), Count(items[i]))
              && Pages.Shed(old(pm.At(root)), pm.At(root))
  {
    var node, _ := Search(tree, vaddr);
    found, i, items' := node != null, 0, items;
    i := WhichItem(tree, items, vaddr, node);
    if node == null {
      return;
    }
    RangeIsMapped(pm.At(root), items, i);
    ghost var s := pm.At(root);
    Pages.Munmap(pm, root, vaddr / PAGE, node.extra.value2 / PAGE, kernelRoot);
    Drop(tree, node, items, i);
    GoodWithout(s, pm.At(root), items, i);
    items' := Without(items, i);
  }
}
