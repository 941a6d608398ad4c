/** Runs of buddy_alloc_helper and buddy_free_helper on one region (mem/buddy.c). */
module BuddyRun {
  import opened Common
  import opened Powers
  import opened BuddyTree
  import opened Buddy
  import opened BuddyFree
  import BuddyLayout
  import Bitmap

  // ----- When a block is released -----

  /** A block of two or more pages is always released, and so is every block when the row below the
      pages was zeroed with the bitmap. */
  lemma AlwaysReleases(r: Region, d: Ctx, rest: nat)
    requires r.Valid() && r.tree == Plug(d, Used) && Depth(d) <= r.maxDepth
    requires Depth(d) < r.rows
    ensures Releases(r, d, rest)
  {
    RepPlug(d, Used, r.rows - Depth(d), Slots(r.bitmap[..]));
  }

  /** A one-page block above a row of stray marks, in terms of the two marks below it and, if one of them is
      free and the other is not, of the mark that the walk reads next. */
  lemma StrayMarks(r: Region, d: Ctx, rest: nat)
    requires r.Valid() && r.tree == Plug(d, Used) && Depth(d) == r.maxDepth
    ensures var s, j := Slots(r.bitmap[..]), Child(Hole(d), rest, PAGE);
            && Hole(d) < |s| && j < |s| && Sibling(j) < |s|
            && (s[j] == FREE ==> Releases(r, d, rest))
            && (s[j] != FREE && s[Sibling(j)] != FREE ==> !Releases(r, d, rest))
            && (s[j] != FREE && s[Sibling(j)] == FREE && 2 * j + 2 < |s| &&
                s[Child(j, Rest(rest, PAGE), PAGE / 2)] == FREE ==>
                  Releases(r, d, rest))
  {
    RepPlug(d, Used, r.rows - Depth(d), Slots(r.bitmap[..]));
    HoleIndex(d);
    NodeInside(r, d);
    Family(Hole(d));
    assert Bytes(0) == PAGE;
  }

  /** The two nodes below a block are in the memory that the region shows. */
  lemma NodeInside(r: Region, d: Ctx)
    requires r.Sized() && Depth(d) <= r.maxDepth
    ensures 2 * Hole(d) + 2 < 4 * r.bitmap.Length
  {
    HoleIndex(d);
    Pow2Mono(Depth(d), r.maxDepth);
    assert Pow2(r.maxDepth + 2) == 4 * Pow2(r.maxDepth);
  }

  // ----- Allocate, then free -----

  lemma {:induction false} DownChild(p: nat, i: nat, d: nat)
    requires Down(p, i, d)
    ensures Down(2 * p + 1, i, d + 1) && Down(2 * p + 2, i, d + 1)
    decreases d
  {
    if d > 0 {
      if Down(p, 2 * i + 1, d - 1) { DownChild(p, 2 * i + 1, d - 1); } else { DownChild(p, 2 * i + 2, d - 1); }
    }
  }

  lemma {:induction false} RowOf(j: nat, h: nat) returns (d: nat)
    requires j < Nodes(h)
    ensures d <= h && Down(j, 0, d)
  {
    if j == 0 {
      d := 0;
    } else {
      var p := (j - 1) / 2;
      d := RowOf(p, h - 1);
      DownChild(p, 0, d);
      d := d + 1;
    }
  }

  /** Two bitmaps of the same tree that agree below it are equal. */
  lemma SameTreeSameMarks(t: Block, h: nat, rows: nat, s: seq<nat>, s': seq<nat>)
    requires Rep(t, 0, rows, s) && Rep(t, 0, rows, s') && h <= rows && SameFrom(Nodes(h), s, s')
    ensures s == s'
  {
    Pow2Mono(h + 1, rows + 1);
    forall j | 0 <= j < |s| ensures s[j] == s'[j] {
      if j < Nodes(h) {
        var d := RowOf(j, h);
        RepUnique(t, 0, rows, s, s', j, d);
      } else {
        assert s[j] == s[Nodes(h)..][j - Nodes(h)];
      }
    }
  }

  lemma {:induction false} MergeUpKeepsRest(m: nat, s: seq<nat>, i: nat)
    requires i < m <= |s| && (i > 0 ==> Sibling(i) < |s|)
    ensures SameFrom(m, s, MergeUp(s, i))
    decreases i
  {
    WriteKeepsRest(m, s, i, FREE);
    if i > 0 && s[Sibling(i)] == FREE {
      MergeUpKeepsRest(m, s[i := FREE], Parent(i));
    }
  }

  /** The bitmap goes from s to s1 when `t` gives away a block of row k, which then is at `d`. */
  ghost predicate Gave(t: Block, k: nat, d: Ctx, h: nat, rows: nat, s: seq<nat>, s1: seq<nat>) {
    && CanAlloc(t, k) && Plug(d, Used) == Alloc(t, k) && Release(d) == t && Depth(d) == k <= h <= rows <= h + 1
    && Rep(t, 0, rows, s) && Rep(Alloc(t, k), 0, rows, s1)
    && SameFrom(Nodes(h), s, s1) && Nodes(h + 1) <= |s|
  }

  /** The new node was free and is in use, and the two marks below it are the same in both. */
  lemma NewBlockMarks(t: Block, k: nat, d: Ctx, h: nat, rows: nat, s: seq<nat>, s1: seq<nat>, j: nat)
    requires Gave(t, k, d, h, rows, s, s1)
    requires j == 2 * Hole(d) + 1 || j == 2 * Hole(d) + 2
    ensures 2 * Hole(d) + 2 < |s| && s[Hole(d)] == FREE && s1[Hole(d)] == USED && s[j] == s1[j]
    ensures s1[j] != FREE ==> k == rows && Nodes(h) <= j
  {
    HoleIndex(d);
    Pow2Mono(k, h);
    RepPlug(d, Used, rows - k, s1);
    ReleasedIsFree(d, rows - k, s);
    if k == rows {
      assert s[j] == s[Nodes(h)..][j - Nodes(h)] && s1[j] == s1[Nodes(h)..][j - Nodes(h)];
    }
  }

  /** Freeing the new block restores every mark exactly if the first mark read below it is free. */
  lemma RestoresExactly(t: Block, k: nat, d: Ctx, h: nat, rows: nat, s: seq<nat>, s1: seq<nat>, delta: nat)
    requires Gave(t, k, d, h, rows, s, s1)
    ensures 2 * Hole(d) + 2 < |s|
    ensures AfterWalk(s1, Hole(d), delta, Bytes(h - k)) == s <==> s[Child(Hole(d), delta, Bytes(h - k))] == FREE
  {
    var i, j := Hole(d), Child(Hole(d), delta, Bytes(h - k));
    NewBlockMarks(t, k, d, h, rows, s, s1, j);
    var walk := Descent(s1, i, delta, Bytes(h - k));
    if s1[j] == FREE {
      FreeExactly(d, delta, h - k, rows, s1);
      HoleIndex(d);
      NodeInTree(k, Pos(d), h);
      MergeUpKeepsRest(Nodes(h), s1, i);
      SameFromTrans(Nodes(h), s, s1, MergeUp(s1, i));
      SameTreeSameMarks(t, h, rows, s, MergeUp(s1, i));
    } else if walk.Some? {
      DescentNotFree(s1, i, delta, Bytes(h - k));
      MergeUpMarks(s1, walk.value, walk.value);
      assert s[walk.value] == s[Nodes(h)..][walk.value - Nodes(h)];
    }
  }

  /** The marks s' after allocating 2^j pages from `t` at s and freeing them again by byte `delta`: they are
      as before exactly if the mark below the block that the free reads first is free. */
  ghost predicate RestoredIffClear(t: Block, maxDepth: nat, j: nat, delta: nat, s: seq<nat>, s': seq<nat>) {
    j <= maxDepth && CanAlloc(t, maxDepth - j) &&
    var i := Index(maxDepth - j, AllocPos(t, maxDepth - j, 0));
    2 * i + 2 < |s| && (s' == s <==> s[Child(i, delta, Bytes(j))] == FREE)
  }

  lemma Restored(t: Block, k: nat, d: Ctx, h: nat, rows: nat, s: seq<nat>, s1: seq<nat>, delta: nat)
    returns (s2: seq<nat>)
    requires Gave(t, k, d, h, rows, s, s1) && Pos(d) == AllocPos(t, k, 0)
    ensures Hole(d) < |s1| && s2 == AfterWalk(s1, Hole(d), delta, Bytes(h - k))
    ensures RestoredIffClear(t, h, h - k, delta, s, s2)
  {
    HoleIndex(d);
    RestoresExactly(t, k, d, h, rows, s, s1, delta);
    s2 := AfterWalk(s1, Hole(d), delta, Bytes(h - k));
  }

  /** buddy_alloc_helper, then buddy_free_helper with any address inside the new block. The marks are
      those of the bitmap and of the memory behind it. */
  method AllocThenFreeAgain(r: Region, size: nat, delta: nat) returns (addr: nat)
    requires r.Valid() && size < WORD && r.maxDepth < 64
    requires size >= PAGE ==> delta < Bytes(Log2(size / PAGE))
    modifies r, r.bitmap
    ensures r.Valid()
    ensures addr == 0 ==> Slots(r.bitmap[..]) == old(Slots(r.bitmap[..]))
    ensures addr != 0 ==> size >= PAGE
    ensures addr != 0 ==>
              RestoredIffClear(old(r.tree), r.maxDepth, Log2(size / PAGE), delta,
                               old(Slots(r.bitmap[..])), Slots(r.bitmap[..]))
  {
    ghost var t, s := r.tree, Slots(r.bitmap[..]);
    addr := AllocHelper(r, size);
    if addr != 0 {
      ghost var k, s1 := r.maxDepth - Log2(size / PAGE), Slots(r.bitmap[..]);
      ghost var d := AllocThenRelease(Top, t, k);
      ghost var s2 := Restored(t, k, d, r.maxDepth, r.rows, s, s1, delta);
      var _ := FreeBlock(r, addr + delta, d, delta);
      assert Slots(r.bitmap[..]) == s2;
    }
  }

  // ----- Whole runs -----

  /** The same block, counted from address 0 and from the start of the region. */
  ghost predicate Shifted(base: nat, held: seq<Extent>, rel: seq<Extent>) {
    |held| == |rel| && forall i :: 0 <= i < |held| ==> held[i] == Extent(base + rel[i].start, rel[i].len)
  }

  /** One request on the tree; sizes below a page ask for nothing. */
  function NextAsk(h: nat, s: State, size: nat): State {
    if size < PAGE then s else Next(h, s, Request(Log2(size / PAGE)))
  }

  lemma AskKeeps(h: nat, s: State, size: nat)
    requires Owned(h, s)
    ensures Owned(h, NextAsk(h, s, size)) && (Good(h, s) ==> Good(h, NextAsk(h, s, size)))
  {
    if size >= PAGE && Log2(size / PAGE) <= h && CanAlloc(s.tree, h - Log2(size / PAGE)) {
      RequestKeeps(h, s, Log2(size / PAGE));
    }
  }

  /** There is room in the tree for the largest power of two of pages within the request. */
  ghost predicate HasRoom(h: nat, t: Block, size: nat) {
    size >= PAGE && Log2(size / PAGE) <= h && CanAlloc(t, h - Log2(size / PAGE))
  }

  /** What a caller gets for a request: with room one more block, of that size, that overlaps no block in anybody's
      hands; and nothing without. */
  ghost predicate Granted(h: nat, t: Block, held: seq<Extent>, held': seq<Extent>, size: nat) {
    if HasRoom(h, t, size) then
      && |held'| == |held| + 1 && held'[..|held|] == held && held'[|held|].len == Bytes(Log2(size / PAGE))
      && forall i :: 0 <= i < |held| ==> Apart(held[i], held'[|held|])
    else held' == held
  }

  /** What a caller is left with after a return. */
  ghost predicate GaveUp(held: seq<Extent>, held': seq<Extent>, i: nat, delta: nat) {
    if i < |held| && delta < held[i].len then
      |held'| == |held| - 1 && held'[..i] == held[..i] && held'[i..] == held[i + 1..]
    else held' == held
  }

  lemma GrantShifts(h: nat, base: nat, s: State, held: seq<Extent>, j: nat, e: Extent)
    requires j <= h && CanAlloc(s.tree, h - j) && GrantsNew(h, s, j) && Shifted(base, held, s.held)
    requires e == Extent(base + ExtentOf(AllocPos(s.tree, h - j, 0), j).start, Bytes(j))
    ensures Shifted(base, held + [e], Next(h, s, Request(j)).held)
    ensures forall i :: 0 <= i < |held| ==> Apart(held[i], e)
  {
    forall i | 0 <= i < |held| ensures Apart(held[i], e) {
      assert Apart(s.held[i], ExtentOf(AllocPos(s.tree, h - j, 0), j));
    }
  }

  /** buddy_alloc_helper for a caller, with the blocks that all callers hold. */
  method Ask(r: Region, held: seq<Extent>, size: nat, ghost rel: seq<Extent>)
    returns (held': seq<Extent>, ghost rel': seq<Extent>)
    requires r.Valid() && size < WORD && r.maxDepth < 64
    requires Shifted(r.base, held, rel) && Owned(r.maxDepth, State(r.tree, rel))
    modifies r, r.bitmap
    ensures r.Valid() && Shifted(r.base, held', rel')
    ensures State(r.tree, rel') == NextAsk(r.maxDepth, State(old(r.tree), rel), size)
    ensures Granted(r.maxDepth, old(r.tree), held, held', size)
    ensures SameFrom(Nodes(r.maxDepth), old(Slots(r.bitmap[..])), Slots(r.bitmap[..]))
  {
    ghost var s := State(r.tree, rel);
    var addr := AllocHelper(r, size);
    held', rel' := held, rel;
    if addr != 0 {
      var j := Log2(size / PAGE);
      held' := held + [Extent(addr, Bytes(j))];
      RequestIsNew(r.maxDepth, s, j);
      GrantShifts(r.maxDepth, r.base, s, held, j, Extent(addr, Bytes(j)));
      rel' := Next(r.maxDepth, s, Request(j)).held;
    }
  }

  /** The block that an address of a held block leads to. */
  lemma HeldBlock(r: Region, rel: seq<Extent>, i: nat, delta: nat) returns (d: Ctx)
    requires r.Valid() && Owned(r.maxDepth, State(r.tree, rel)) && i < |rel| && delta < rel[i].len
    ensures d == Find(Top, r.tree, rel[i].start + delta, r.maxDepth)
    ensures BlockAround(r, rel[i].start + delta, d, delta)
  {
    var h, e := r.maxDepth, rel[i];
    d := Find(Top, r.tree, e.start + delta, h);
    HeldIsLive(h, State(r.tree, rel), i);
    FindLive(Top, r.tree, e.start + delta, h, e, e.start + delta);
  }

  /** Whether the tree gets the block back or not, the other held blocks stay owned. */
  lemma EitherWay(h: nat, s: State, i: nat, delta: nat, held': seq<Extent>) returns (next: State)
    requires Owned(h, s) && i < |s.held| && delta < s.held[i].len && held' == Without(s.held, i)
    ensures Owned(h, State(s.tree, held')) && Owned(h, next)
    ensures next == State(Release(Find(Top, s.tree, s.held[i].start + delta, h)), held') == Next(h, s, Return(i, delta))
  {
    next := State(Release(Find(Top, s.tree, s.held[i].start + delta, h)), held');
    WithoutCount(s.held, i);
    ReturnKeeps(h, s, i, delta);
  }

  lemma WithoutShifts(base: nat, held: seq<Extent>, rel: seq<Extent>, i: nat)
    requires Shifted(base, held, rel) && i < |held|
    ensures Shifted(base, Without(held, i), Without(rel, i))
  {}

  /** buddy_free_helper for a caller that gives back block number i by the address of its byte `delta`. The tree
      gets the block back, or loses it if the marks below a one-page block are astray. */
  method GiveBack(r: Region, held: seq<Extent>, i: nat, delta: nat, ghost rel: seq<Extent>)
    returns (held': seq<Extent>, ghost rel': seq<Extent>)
    requires r.Valid() && i < |held| && delta < held[i].len
    requires Shifted(r.base, held, rel) && Owned(r.maxDepth, State(r.tree, rel))
    modifies r, r.bitmap
    ensures r.Valid() && held' == Without(held, i) && rel' == Without(rel, i) && Shifted(r.base, held', rel')
    ensures Owned(r.maxDepth, State(r.tree, rel'))
    ensures r.tree == old(r.tree) || State(r.tree, rel') == Next(r.maxDepth, State(old(r.tree), rel), Return(i, delta))
    ensures r.rows == r.maxDepth + 1 ==>
              State(r.tree, rel') == Next(r.maxDepth, State(old(r.tree), rel), Return(i, delta))
  {
    ghost var d := HeldBlock(r, rel, i, delta);
    held', rel' := Without(held, i), Without(rel, i);
    WithoutShifts(r.base, held, rel, i);
    ghost var kept := State(r.tree, rel');
    ghost var next := EitherWay(r.maxDepth, State(r.tree, rel), i, delta, rel');
    if r.rows == r.maxDepth + 1 { AlwaysReleases(r, d, delta); }
    var _ := FreeBlock(r, held[i].start + delta, d, delta);
    assert State(r.tree, rel') == if r.tree == kept.tree then kept else next;
  }

  datatype Call = Want(size: nat) | GiveUp(i: nat, delta: nat)

  /** The tree and the held blocks after one call, when no block is lost. */
  function NextCall(h: nat, s: State, call: Call): State {
    match call
    case Want(size) => NextAsk(h, s, size)
    case GiveUp(i, delta) => Next(h, s, Return(i, delta))
  }

  lemma NextCallKeeps(h: nat, s: State, call: Call)
    requires Good(h, s)
    ensures Good(h, NextCall(h, s, call))
  {
    match call
    case Want(size) => AskKeeps(h, s, size);
    case GiveUp(i, delta) => StepKeeps(h, s, Return(i, delta));
  }

  /** What one call may do: what the tree says, or, unless the region is exact, a return that leaves the block
      marked as in use. */
  ghost predicate May(h: nat, exact: bool, s: State, call: Call, s': State) {
    s' == NextCall(h, s, call) ||
    (!exact && call.GiveUp? && call.i < |s.held| && call.delta < s.held[call.i].len &&
     s' == State(s.tree, Without(s.held, call.i)))
  }

  /** Blocks in callers' hands: inside the region, and no two overlap. */
  ghost predicate Disjoint(base: nat, len: nat, held: seq<Extent>) {
    && (forall i :: 0 <= i < |held| ==> Within(held[i], Extent(base, len)))
    && (forall i, j :: 0 <= i < j < |held| ==> Apart(held[i], held[j]))
  }

  lemma OwnedDisjoint(h: nat, base: nat, s: State, held: seq<Extent>)
    requires Owned(h, s) && Shifted(base, held, s.held)
    ensures Disjoint(base, Bytes(h), held)
  {
    forall i | 0 <= i < |held| ensures Within(held[i], Extent(base, Bytes(h))) { HeldIsLive(h, s, i); }
    forall i, j | 0 <= i < j < |held| ensures Apart(held[i], held[j]) { HeldApart(h, s, i, j); }
  }

  /** One call. */
  method Serve(r: Region, held: seq<Extent>, call: Call, ghost rel: seq<Extent>)
    returns (held': seq<Extent>, ghost rel': seq<Extent>)
    requires r.Valid() && r.maxDepth < 64 && (call.Want? ==> call.size < WORD)
    requires Shifted(r.base, held, rel) && Owned(r.maxDepth, State(r.tree, rel))
    modifies r, r.bitmap
    ensures r.Valid() && Shifted(r.base, held', rel') && Owned(r.maxDepth, State(r.tree, rel'))
    ensures call.Want? ==> Granted(r.maxDepth, old(r.tree), held, held', call.size)
    ensures call.GiveUp? ==> GaveUp(held, held', call.i, call.delta)
    ensures May(r.maxDepth, r.rows == r.maxDepth + 1, State(old(r.tree), rel), call, State(r.tree, rel'))
  {
    match call
    case Want(size) =>
      AskKeeps(r.maxDepth, State(r.tree, rel), size);
      held', rel' := Ask(r, held, size, rel);
    case GiveUp(i, delta) =>
      if i < |held| && delta < held[i].len {
        held', rel' := GiveBack(r, held, i, delta, rel);
      } else {
        held', rel' := held, rel;
      }
  }

  /** What is held is in use in the tree, and, if the region is exact, nothing else is. */
  ghost predicate Reflects(r: Region, s: State) {
    Owned(r.maxDepth, s) && (r.rows == r.maxDepth + 1 ==> Good(r.maxDepth, s))
  }

  /** A whole run: the ranges that callers hold before and after every call, and the states of the tree. Held
      ranges never overlap, and every step is what the call may do. */
  ghost predicate Runs(r: Region, calls: seq<Call>, trace: seq<seq<Extent>>, states: seq<State>) {
    && |trace| == |states| == |calls| + 1 && states[0] == State(Free, [])
    && (forall n :: 0 <= n < |trace| ==> Disjoint(r.base, r.len, trace[n]) && Shifted(r.base, trace[n], states[n].held))
    && (forall n :: 0 <= n < |states| ==> Reflects(r, states[n]))
    && (forall n :: 0 <= n < |calls| ==> Step(r, calls[n], trace[n], trace[n + 1], states[n], states[n + 1]))
  }

  ghost predicate Step(r: Region, call: Call, held: seq<Extent>, held': seq<Extent>, s: State, s': State) {
    && May(r.maxDepth, r.rows == r.maxDepth + 1, s, call, s')
    && (call.Want? ==> Granted(r.maxDepth, s.tree, held, held', call.size))
    && (call.GiveUp? ==> GaveUp(held, held', call.i, call.delta))
  }

  lemma RunsOn(r: Region, calls: seq<Call>, trace: seq<seq<Extent>>, states: seq<State>, n: nat,
               held: seq<Extent>, s: State)
    requires n < |calls| && Runs(r, calls[..n], trace, states) && Step(r, calls[n], trace[n], held, states[n], s)
    requires Disjoint(r.base, r.len, held) && Shifted(r.base, held, s.held) && Reflects(r, s)
    ensures Runs(r, calls[..n + 1], trace + [held], states + [s])
  {
    var calls', trace', states' := calls[..n + 1], trace + [held], states + [s];
    forall m | 0 <= m < |calls'| ensures Step(r, calls'[m], trace'[m], trace'[m + 1], states'[m], states'[m + 1]) {
      if m < n { assert Step(r, calls[..n][m], trace[m], trace[m + 1], states[m], states[m + 1]); }
    }
  }

  /** Any run of requests and returns on a new region: no two callers ever hold a common byte, and every call does
      what it may. With the row below the pages zeroed no block is lost: the region is one free block when all is
      given back. */
  method Replay(r: Region, calls: seq<Call>) returns (trace: seq<seq<Extent>>, ghost states: seq<State>)
    requires r.Valid() && r.tree == Free && r.maxDepth < 64
    requires forall n :: 0 <= n < |calls| && calls[n].Want? ==> calls[n].size < WORD
    modifies r, r.bitmap
    ensures r.Valid() && Runs(r, calls, trace, states) && r.tree == states[|calls|].tree
    ensures r.rows == r.maxDepth + 1 && trace[|calls|] == [] ==> r.tree == Free
  {
    var held: seq<Extent> := [];
    trace, states := [held], [State(r.tree, [])];
    for n := 0 to |calls|
      invariant r.Valid() && Runs(r, calls[..n], trace, states) && trace[n] == held && states[n].tree == r.tree
    {
      ghost var s := states[n];
      ghost var rel;
      held, rel := Serve(r, held, calls[n], s.held);
      ghost var s' := State(r.tree, rel);
      if r.rows == r.maxDepth + 1 { NextCallKeeps(r.maxDepth, s, calls[n]); }
      OwnedDisjoint(r.maxDepth, r.base, s', held);
      RunsOn(r, calls, trace, states, n, held, s');
      trace, states := trace + [held], states + [s'];
    }
    assert calls[..|calls|] == calls;
    if r.rows == r.maxDepth + 1 && held == [] { NoneHeldIsFree(r.maxDepth, states[|calls|]); }
  }

  // ----- A page is lost -----

  /** The tree of a region of four pages with the first n of them in use. */
  function FirstPages(n: nat): Block
    requires n <= 4
  {
    if n == 0 then Free
    else if n <= 2 then Split(Split(Used, if n == 2 then Used else Free), Free)
    else Split(Split(Used, Used), Split(Used, if n == 4 then Used else Free))
  }

  function PageExtents(n: nat): seq<Extent> {
    if n == 0 then [] else PageExtents(n - 1) + [Extent((n - 1) * PAGE, PAGE)]
  }

  function PagesHeld(n: nat): State
    requires n <= 4
  {
    State(FirstPages(n), PageExtents(n))
  }

  lemma OneMorePage(n: nat)
    requires n < 4
    ensures CanAlloc(FirstPages(n), 2) && Alloc(FirstPages(n), 2) == FirstPages(n + 1) && Log2(PAGE / PAGE) == 0
    ensures AllocPos(FirstPages(n), 2, 0) == n && ExtentOf(n, 0) == Extent(n * PAGE, PAGE)
  {
    assert !CanAlloc(Split(Used, Used), 1);
  }

  lemma AskForPage(n: nat)
    requires n < 4
    ensures NextAsk(2, PagesHeld(n), PAGE) == PagesHeld(n + 1)
  {
    OneMorePage(n);
  }

  lemma SmallRegion(base: nat, usableBase: nat, maxDepth: nat)
    requires base % PAGE == 0 && usableBase == BuddyLayout.UsableBase(base, 20992)
    requires usableBase + Bytes(maxDepth) < base + 20992 <= usableBase + 2 * Bytes(maxDepth)
    ensures maxDepth == 2 && usableBase > 0 && BuddyLayout.BitmapBytes(20992) == 3
  {
    assert usableBase == base + PAGE;
    if maxDepth < 2 { Pow2Mono(maxDepth, 1); }
    if maxDepth > 2 { Pow2Mono(3, maxDepth); }
  }

  lemma StrayByte(bytes: seq<bv8>)
    requires |bytes| == 8 && bytes[3] == 0xFF
    ensures Slots(bytes)[13] != FREE && Slots(bytes)[14] != FREE
  {
    SlotsAt(bytes, 13);
    SlotsAt(bytes, 14);
    assert Bitmap.Bit(bytes, 26) && Bitmap.Bit(bytes, 28);
  }

  /** With 20992 bytes buddy_init_region zeroes three bytes for four pages, and the last marks below page 3 lie
      in the byte after them, which holds what was in memory. */
  method TightRegion(base: nat) returns (r: Region)
    requires base % PAGE == 0 && base + 20992 <= WORD
    ensures fresh(r) && fresh(r.bitmap) && r.Valid() && r.maxDepth == 2 && r.tree == Free
    ensures |Slots(r.bitmap[..])| == 32 && Slots(r.bitmap[..])[13] != FREE && Slots(r.bitmap[..])[14] != FREE
  {
    var usableBase, usableLen, maxDepth := BuddyLayout.InitRegion(base, 20992);
    SmallRegion(base, usableBase, maxDepth);
    var bitmap := new bv8[8](i => if i == 3 then 0xFF else 0);
    r := new Region(usableBase, maxDepth, bitmap, BuddyLayout.BitmapBytes(20992));
    StrayByte(bitmap[..]);
  }

  /** Four pages are asked for, and the last of them is given back. */
  const FOUR_AND_BACK: seq<Call> := [Want(PAGE), Want(PAGE), Want(PAGE), Want(PAGE), GiveUp(3, 0)]

  /** The run so far, after n pages have been asked for. */
  ghost predicate Filled(r: Region, n: nat, held: seq<Extent>, trace: seq<seq<Extent>>, states: seq<State>)
    reads r, r.bitmap
  {
    && n <= 4 && r.Valid() && r.maxDepth == 2 && Runs(r, FOUR_AND_BACK[..n], trace, states)
    && trace[n] == held && states[n] == PagesHeld(n) && r.tree == FirstPages(n) && Owned(2, PagesHeld(n))
  }

  method FillPages(r: Region) returns (held: seq<Extent>, trace: seq<seq<Extent>>, ghost states: seq<State>)
    requires r.Valid() && r.maxDepth == 2 && r.tree == Free
    modifies r, r.bitmap
    ensures Filled(r, 4, held, trace, states)
    ensures SameFrom(Nodes(2), old(Slots(r.bitmap[..])), Slots(r.bitmap[..]))
  {
    ghost var marks := Slots(r.bitmap[..]);
    held := [];
    trace, states := [held], [PagesHeld(0)];
    for n := 0 to 4
      invariant Filled(r, n, held, trace, states) && SameFrom(Nodes(2), marks, Slots(r.bitmap[..]))
    {
      held, trace, states := FillPage(r, n, held, trace, states);
    }
  }

  method FillPage(r: Region, n: nat, held: seq<Extent>, trace: seq<seq<Extent>>, ghost states: seq<State>)
    returns (held': seq<Extent>, trace': seq<seq<Extent>>, ghost states': seq<State>)
    requires n < 4 && Filled(r, n, held, trace, states)
    modifies r, r.bitmap
    ensures Filled(r, n + 1, held', trace', states')
    ensures SameFrom(Nodes(2), old(Slots(r.bitmap[..])), Slots(r.bitmap[..]))
  {
    ghost var rel;
    held', rel := Ask(r, held, PAGE, PageExtents(n));
    FilledOn(r, n, held, held', trace, states);
    trace', states' := trace + [held'], states + [PagesHeld(n + 1)];
  }

  lemma FilledOn(r: Region, n: nat, held: seq<Extent>, held': seq<Extent>, trace: seq<seq<Extent>>, states: seq<State>)
    requires n < 4 && r.maxDepth == 2 && r.len == Bytes(2) && Runs(r, FOUR_AND_BACK[..n], trace, states)
    requires trace[n] == held && states[n] == PagesHeld(n)
    requires Granted(2, FirstPages(n), held, held', PAGE) && Shifted(r.base, held', NextAsk(2, PagesHeld(n), PAGE).held)
    ensures NextAsk(2, PagesHeld(n), PAGE) == PagesHeld(n + 1) && Owned(2, PagesHeld(n + 1))
    ensures Runs(r, FOUR_AND_BACK[..n + 1], trace + [held'], states + [PagesHeld(n + 1)])
  {
    AskForPage(n);
    AskKeeps(2, PagesHeld(n), PAGE);
    OwnedDisjoint(2, r.base, PagesHeld(n + 1), held');
    RunsOn(r, FOUR_AND_BACK, trace, states, n, held', PagesHeld(n + 1));
  }

  /** The walk from the last page does not come back. */
  lemma LastStays(r: Region) returns (d: Ctx)
    requires r.Valid() && r.maxDepth == 2 && r.tree == FirstPages(4) && |Slots(r.bitmap[..])| == 32
    requires Slots(r.bitmap[..])[13] != FREE && Slots(r.bitmap[..])[14] != FREE
    ensures BlockAround(r, 3 * PAGE, d, 0) && !Releases(r, d, 0) && r.rows == 2
  {
    d := In(true, Used, In(true, Split(Used, Used), Top));
    assert Hole(d) == 6;
    StrayMarks(r, d, 0);
    if r.rows == 3 { AlwaysReleases(r, d, 0); }
  }

  lemma LastPage(base: nat, held: seq<Extent>)
    requires Shifted(base, held, PageExtents(4))
    ensures |held| == 4 && held[3] == Extent(base + 3 * PAGE, PAGE)
  {
    assert PageExtents(4)[3] == Extent(3 * PAGE, PAGE);
  }

  lemma NoPageLeft()
    ensures !CanAlloc(FirstPages(4), 2)
  {
    assert !CanAlloc(Split(Used, Used), 1);
  }

  lemma OwnedWithout(h: nat, s: State, i: nat)
    requires Owned(h, s) && i < |s.held|
    ensures Owned(h, State(s.tree, Without(s.held, i)))
  {
    WithoutCount(s.held, i);
  }

  lemma MarksStay(s: seq<nat>, s': seq<nat>)
    requires |s| == 32 && SameFrom(Nodes(2), s, s') && s[13] != FREE && s[14] != FREE
    ensures |s'| == 32 && s'[13] != FREE && s'[14] != FREE
  {
    assert s[13] == s[Nodes(2)..][6] && s[14] == s[Nodes(2)..][7];
  }

  /** The return takes the page from the caller, and may leave the tree as it is. */
  lemma LastReturn(r: Region, held: seq<Extent>, trace: seq<seq<Extent>>, states: seq<State>) returns (s: State)
    requires Runs(r, FOUR_AND_BACK[..4], trace, states) && trace[4] == held && states[4] == PagesHeld(4)
    requires Owned(2, PagesHeld(4)) && r.maxDepth == 2 && r.rows == 2 && r.len == Bytes(2)
    ensures |held| == 4 && s.tree == FirstPages(4)
    ensures Runs(r, FOUR_AND_BACK, trace + [Without(held, 3)], states + [s])
  {
    s := State(FirstPages(4), Without(PageExtents(4), 3));
    assert PageExtents(4)[3].len == PAGE;
    WithoutShifts(r.base, held, PageExtents(4), 3);
    OwnedWithout(2, PagesHeld(4), 3);
    OwnedDisjoint(2, r.base, s, Without(held, 3));
    assert Step(r, FOUR_AND_BACK[4], held, Without(held, 3), PagesHeld(4), s);
    RunsOn(r, FOUR_AND_BACK, trace, states, 4, Without(held, 3), s);
    assert FOUR_AND_BACK[..5] == FOUR_AND_BACK;
  }

  method ReturnLast(r: Region, held: seq<Extent>, trace: seq<seq<Extent>>, ghost states: seq<State>)
    returns (trace': seq<seq<Extent>>, ghost s: State)
    requires Filled(r, 4, held, trace, states) && |Slots(r.bitmap[..])| == 32
    requires Slots(r.bitmap[..])[13] != FREE && Slots(r.bitmap[..])[14] != FREE
    modifies r, r.bitmap
    ensures r.Valid() && r.tree == FirstPages(4) == s.tree && !CanAlloc(r.tree, 2)
    ensures Runs(r, FOUR_AND_BACK, trace', states + [s]) && |trace'| == 6 && |trace'[5]| == 3
  {
    NoPageLeft();
    ghost var d := LastStays(r);
    s := LastReturn(r, held, trace, states);
    LastPage(r.base, held);
    trace' := trace + [Without(held, 3)];
    var _ := FreeBlock(r, held[3].start, d, 0);
  }

  /** A reachable region that loses a page: after the return only three pages are held, but the tree is as before and
      has no free page. */
  method LosesPage(base: nat) returns (r: Region, trace: seq<seq<Extent>>, ghost states: seq<State>)
    requires base % PAGE == 0 && base + 20992 <= WORD
    ensures r.Valid() && Runs(r, FOUR_AND_BACK, trace, states)
    ensures r.tree == states[5].tree == states[4].tree && !CanAlloc(r.tree, 2) && |trace[5]| == 3
  {
    r := TightRegion(base);
    var held;
    ghost var s;
    ghost var marks := Slots(r.bitmap[..]);
    held, trace, states := FillPages(r);
    MarksStay(marks, Slots(r.bitmap[..]));
    trace, s := ReturnLast(r, held, trace, states);
    states := states + [s];
  }
}
