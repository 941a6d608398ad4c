/** The buddy allocator of mem/buddy.c as a tree of blocks, without its bitmap. */
module BuddyTree {
  import opened Common
  import opened Powers

  /** A block is free, in use, or split into two halves. */
  datatype Block = Free | Used | Split(left: Block, right: Block)

  /** A split block has a half that is not free: free buddies are merged. */
  predicate Merged(t: Block) {
    t.Split? ==> !(t.left.Free? && t.right.Free?) && Merged(t.left) && Merged(t.right)
  }

  /** Splits go down at most `h` levels. */
  predicate Fits(t: Block, h: nat) {
    t.Split? ==> h > 0 && Fits(t.left, h - 1) && Fits(t.right, h - 1)
  }

  /** Bytes in a block with `h` levels of halving down to one page. */
  function Bytes(h: nat): (b: nat)
    ensures b >= PAGE
  {
    PAGE * Pow2(h)
  }

  // ----- Allocation -----

  /** The search k levels down succeeds. */
  predicate CanAlloc(t: Block, k: nat) {
    match t
    case Free => true
    case Used => false
    case Split(l, r) => k > 0 && (CanAlloc(l, k - 1) || CanAlloc(r, k - 1))
  }

  /** First fit: the leftmost free block on the way is split as far as needed. */
  function Alloc(t: Block, k: nat): Block
    requires CanAlloc(t, k)
  {
    match t
    case Free => if k == 0 then Used else Split(Alloc(Free, k - 1), Free)
    case Split(l, r) => if CanAlloc(l, k - 1) then Split(Alloc(l, k - 1), r) else Split(l, Alloc(r, k - 1))
  }

  /** The number of the allocated block on its level, when `t` has number n on its own. */
  function AllocPos(t: Block, k: nat, n: nat): nat
    requires CanAlloc(t, k)
  {
    match t
    case Free => if k == 0 then n else AllocPos(Free, k - 1, 2 * n)
    case Split(l, r) => if CanAlloc(l, k - 1) then AllocPos(l, k - 1, 2 * n) else AllocPos(r, k - 1, 2 * n + 1)
  }

  /** The subtree at the end of a path of left (false) and right (true) turns, if splits lead there. */
  predicate Leads(t: Block, path: seq<bool>, end: Block) {
    if path == [] then t == end
    else t.Split? && Leads(if path[0] then t.right else t.left, path[1..], end)
  }

  /** The search succeeds exactly when some free block at or above the target level
      is reached through split blocks only. */
  lemma {:induction false} AllocSucceeds(t: Block, k: nat)
    ensures CanAlloc(t, k) <==> exists path: seq<bool> :: |path| <= k && Leads(t, path, Free)
  {
    if CanAlloc(t, k) {
      var path := FreePath(t, k);
    }
    forall path: seq<bool> | |path| <= k && Leads(t, path, Free) ensures CanAlloc(t, k) {
      FreePathGivesAlloc(t, k, path);
    }
  }

  lemma {:induction false} FreePath(t: Block, k: nat) returns (path: seq<bool>)
    requires CanAlloc(t, k)
    ensures |path| <= k && Leads(t, path, Free)
  {
    if t.Free? {
      path := [];
    } else if CanAlloc(t.left, k - 1) {
      var p := FreePath(t.left, k - 1);
      path := [false] + p;
    } else {
      var p := FreePath(t.right, k - 1);
      path := [true] + p;
    }
  }

  lemma {:induction false} FreePathGivesAlloc(t: Block, k: nat, path: seq<bool>)
    requires |path| <= k && Leads(t, path, Free)
    ensures CanAlloc(t, k)
  {
    if path != [] {
      FreePathGivesAlloc(if path[0] then t.right else t.left, k - 1, path[1..]);
    }
  }

  // ----- Release -----

  /** The way from a block up to the root: which half it is, and the other half. */
  datatype Ctx = Top | In(right: bool, buddy: Block, up: Ctx)

  function Pair(right: bool, t: Block, buddy: Block): Block {
    if right then Split(buddy, t) else Split(t, buddy)
  }

  function Plug(c: Ctx, t: Block): Block {
    if c.Top? then t else Plug(c.up, Pair(c.right, t, c.buddy))
  }

  function Depth(c: Ctx): nat { if c.Top? then 0 else 1 + Depth(c.up) }

  /** The number of the hole on its level. */
  function Pos(c: Ctx): nat { if c.Top? then 0 else 2 * Pos(c.up) + (if c.right then 1 else 0) }

  /** The tree after the block in the hole is freed and merged with free buddies. */
  function Release(c: Ctx): Block {
    if c.Top? then Free
    else if c.buddy.Free? then Release(c.up)
    else Plug(c, Free)
  }

  predicate MergedCtx(c: Ctx) {
    c.In? ==> Merged(c.buddy) && MergedCtx(c.up)
  }

  lemma {:induction false} MergedPlug(c: Ctx, t: Block)
    requires !t.Free?
    ensures Merged(Plug(c, t)) <==> Merged(t) && MergedCtx(c)
    decreases c
  {
    if c.In? { MergedPlug(c.up, Pair(c.right, t, c.buddy)); }
  }

  lemma {:induction false} ReleaseMerged(c: Ctx)
    requires MergedCtx(c)
    ensures Merged(Release(c))
  {
    if c.In? {
      if c.buddy.Free? { ReleaseMerged(c.up); }
      else { MergedPlug(c.up, Pair(c.right, Free, c.buddy)); }
    }
  }

  lemma {:induction false} AllocMerged(t: Block, k: nat)
    requires CanAlloc(t, k) && Merged(t)
    ensures Merged(Alloc(t, k)) && !Alloc(t, k).Free?
  {
    match t
    case Free => if k > 0 { AllocMerged(Free, k - 1); }
    case Split(l, r) =>
      if CanAlloc(l, k - 1) { AllocMerged(l, k - 1); } else { AllocMerged(r, k - 1); }
  }

  /** Allocating inside a subtree and then freeing the new block gives back the whole tree. */
  lemma {:induction false} AllocThenRelease(c: Ctx, t: Block, k: nat) returns (d: Ctx)
    requires CanAlloc(t, k) && Merged(Plug(c, t))
    ensures Plug(d, Used) == Plug(c, Alloc(t, k)) && Release(d) == Plug(c, t)
    ensures Depth(d) == Depth(c) + k && Pos(d) == AllocPos(t, k, Pos(c))
    decreases k
  {
    match t {
      case Free =>
        d := SplitDown(c, k);
        FreeHasBusyBuddy(c);
      case Split(l, r) =>
        if CanAlloc(l, k - 1) {
          d := AllocThenRelease(In(false, r, c), l, k - 1);
        } else {
          d := AllocThenRelease(In(true, l, c), r, k - 1);
        }
    }
  }

  /** In a merged tree the buddy of a free block is not free. */
  lemma FreeHasBusyBuddy(c: Ctx)
    requires Merged(Plug(c, Free))
    ensures c.In? ==> !c.buddy.Free?
    ensures Release(c) == Plug(c, Free)
  {
    if c.In? {
      MergedPlug(c.up, Pair(c.right, Free, c.buddy));
    }
  }

  /** Splitting one free block all the way down is undone by merging all the way up. */
  lemma {:induction false} SplitDown(c: Ctx, k: nat) returns (d: Ctx)
    ensures Plug(d, Used) == Plug(c, Alloc(Free, k)) && Release(d) == Release(c)
    ensures Depth(d) == Depth(c) + k && Pos(d) == AllocPos(Free, k, Pos(c))
    decreases k
  {
    if k == 0 {
      d := c;
    } else {
      d := SplitDown(In(false, Free, c), k - 1);
    }
  }

  // ----- Addresses -----

  /** A range of bytes, relative to the start of the usable area. */
  datatype Extent = Extent(start: nat, len: nat)

  /** The extent of block number n among blocks with `h` levels below them. */
  function ExtentOf(n: nat, h: nat): Extent { Extent(n * Bytes(h), Bytes(h)) }

  predicate Within(e: Extent, outer: Extent) {
    outer.start <= e.start && e.start + e.len <= outer.start + outer.len
  }

  predicate Apart(a: Extent, b: Extent) {
    a.start + a.len <= b.start || b.start + b.len <= a.start
  }

  /** The two halves of a block share it out. */
  lemma Halves(n: nat, h: nat)
    requires h > 0
    ensures Bytes(h) == 2 * Bytes(h - 1)
    ensures ExtentOf(2 * n, h - 1).start == ExtentOf(n, h).start
    ensures ExtentOf(2 * n + 1, h - 1).start == ExtentOf(n, h).start + Bytes(h - 1)
  {
    assert n * (2 * Bytes(h - 1)) == (2 * n) * Bytes(h - 1);
    assert (2 * n + 1) * Bytes(h - 1) == (2 * n) * Bytes(h - 1) + Bytes(h - 1);
  }

  /** The blocks in use below block number n. */
  ghost function Live(t: Block, n: nat, h: nat): set<Extent>
    requires Fits(t, h)
  {
    match t
    case Free => {}
    case Used => {ExtentOf(n, h)}
    case Split(l, r) => Live(l, 2 * n, h - 1) + Live(r, 2 * n + 1, h - 1)
  }

  lemma {:induction false} LiveWithin(t: Block, n: nat, h: nat)
    requires Fits(t, h)
    ensures forall e :: e in Live(t, n, h) ==> Within(e, ExtentOf(n, h)) && exists j :: 0 <= j <= h && e.len == Bytes(j)
  {
    match t
    case Free =>
    case Used => assert ExtentOf(n, h).len == Bytes(h);
    case Split(l, r) =>
      Halves(n, h);
      LiveWithin(l, 2 * n, h - 1);
      LiveWithin(r, 2 * n + 1, h - 1);
  }

  lemma {:induction false} LiveApart(t: Block, n: nat, h: nat)
    requires Fits(t, h)
    ensures forall a, b :: a in Live(t, n, h) && b in Live(t, n, h) && a != b ==> Apart(a, b)
  {
    if t.Split? {
      Halves(n, h);
      LiveApart(t.left, 2 * n, h - 1);
      LiveApart(t.right, 2 * n + 1, h - 1);
      LiveWithin(t.left, 2 * n, h - 1);
      LiveWithin(t.right, 2 * n + 1, h - 1);
    }
  }

  /** A merged tree without a used block is one free block. */
  lemma {:induction false} NoLiveIsFree(t: Block, n: nat, h: nat)
    requires Fits(t, h) && Merged(t) && Live(t, n, h) == {}
    ensures t == Free
  {
    if t.Split? {
      NoLiveIsFree(t.left, 2 * n, h - 1);
      NoLiveIsFree(t.right, 2 * n + 1, h - 1);
    }
  }

  predicate FitsCtx(c: Ctx, h: nat) {
    c.In? ==> Fits(c.buddy, h) && FitsCtx(c.up, h + 1)
  }

  lemma {:induction false} FitsPlug(c: Ctx, t: Block, h: nat)
    ensures Fits(Plug(c, t), Depth(c) + h) <==> Fits(t, h) && FitsCtx(c, h)
    decreases c
  {
    if c.In? { FitsPlug(c.up, Pair(c.right, t, c.buddy), h + 1); }
  }

  /** The blocks in use outside the hole, which has `h` levels below it. */
  ghost function LiveCtx(c: Ctx, h: nat): set<Extent>
    requires FitsCtx(c, h)
  {
    if c.Top? then {}
    else Live(c.buddy, 2 * Pos(c.up) + (if c.right then 0 else 1), h) + LiveCtx(c.up, h + 1)
  }

  lemma {:induction false} LivePlug(c: Ctx, t: Block, h: nat)
    requires Fits(Plug(c, t), Depth(c) + h)
    ensures Fits(t, h) && FitsCtx(c, h)
    ensures Live(Plug(c, t), 0, Depth(c) + h) == Live(t, Pos(c), h) + LiveCtx(c, h)
    decreases c
  {
    FitsPlug(c, t, h);
    if c.In? { LivePlug(c.up, Pair(c.right, t, c.buddy), h + 1); }
  }

  /** Blocks outside the hole do not touch the hole. */
  lemma {:induction false} CtxApart(c: Ctx, h: nat)
    requires FitsCtx(c, h)
    ensures forall e :: e in LiveCtx(c, h) ==> Apart(e, ExtentOf(Pos(c), h)) && e != ExtentOf(Pos(c), h)
  {
    if c.In? {
      Halves(Pos(c.up), h + 1);
      LiveWithin(c.buddy, 2 * Pos(c.up) + (if c.right then 0 else 1), h);
      CtxApart(c.up, h + 1);
    }
  }

  /** Merging free buddies changes no live block. */
  lemma {:induction false} LiveRelease(c: Ctx, h: nat)
    requires FitsCtx(c, h)
    ensures Fits(Release(c), Depth(c) + h) && Live(Release(c), 0, Depth(c) + h) == LiveCtx(c, h)
  {
    if c.In? {
      if c.buddy.Free? {
        LiveRelease(c.up, h + 1);
      } else {
        FitsPlug(c, Free, h);
        LivePlug(c, Free, h);
      }
    }
  }

  /** Freeing the block in the hole removes exactly that block from the live ones. */
  lemma ReleaseRemoves(c: Ctx, h: nat)
    requires Fits(Plug(c, Used), Depth(c) + h)
    ensures Fits(Release(c), Depth(c) + h)
    ensures ExtentOf(Pos(c), h) in Live(Plug(c, Used), 0, Depth(c) + h)
    ensures Live(Release(c), 0, Depth(c) + h) == Live(Plug(c, Used), 0, Depth(c) + h) - {ExtentOf(Pos(c), h)}
  {
    LivePlug(c, Used, h);
    CtxApart(c, h);
    LiveRelease(c, h);
  }

  /** An allocation adds exactly one block, of the requested size, apart from all live ones. */
  lemma AllocAdds(t: Block, k: nat, h: nat)
    requires Fits(t, h) && k <= h && CanAlloc(t, k) && Merged(t)
    ensures Fits(Alloc(t, k), h)
    ensures ExtentOf(AllocPos(t, k, 0), h - k) !in Live(t, 0, h)
    ensures Live(Alloc(t, k), 0, h) == Live(t, 0, h) + {ExtentOf(AllocPos(t, k, 0), h - k)}
  {
    AllocFits(t, k, h);
    var d := AllocThenRelease(Top, t, k);
    ReleaseRemoves(d, h - k);
  }

  lemma {:induction false} AllocFits(t: Block, k: nat, h: nat)
    requires Fits(t, h) && k <= h && CanAlloc(t, k)
    ensures Fits(Alloc(t, k), h)
  {
    match t
    case Free => if k > 0 { AllocFits(Free, k - 1, h - 1); }
    case Split(l, r) =>
      if CanAlloc(l, k - 1) { AllocFits(l, k - 1, h - 1); } else { AllocFits(r, k - 1, h - 1); }
  }

  predicate Holds(e: Extent, addr: nat) { e.start <= addr < e.start + e.len }

  /** The block around an offset, found from above. */
  function Find(c: Ctx, t: Block, off: nat, h: nat): Ctx
    requires Fits(t, h)
    decreases t
  {
    if !t.Split? then c
    else if off < Bytes(h - 1) then Find(In(false, t.right, c), t.left, off, h - 1)
    else Find(In(true, t.left, c), t.right, off - Bytes(h - 1), h - 1)
  }

  lemma {:induction false} FindPlug(c: Ctx, t: Block, off: nat, h: nat, addr: nat)
    requires Fits(Plug(c, t), Depth(c) + h) && off < Bytes(h) && addr == ExtentOf(Pos(c), h).start + off
    ensures Fits(t, h) && Find(Top, Plug(c, t), addr, Depth(c) + h) == Find(c, t, off, h)
    decreases c
  {
    FitsPlug(c, t, h);
    if c.In? {
      Halves(Pos(c.up), h + 1);
      FindPlug(c.up, Pair(c.right, t, c.buddy), if c.right then off + Bytes(h) else off, h + 1, addr);
    }
  }

  /** An address lies in at most one used block. */
  lemma UsedAround(c: Ctx, d: Ctx, h: nat, addr: nat)
    requires Plug(c, Used) == Plug(d, Used) && Fits(Plug(c, Used), h) && Depth(c) <= h && Depth(d) <= h
    requires Holds(ExtentOf(Pos(c), h - Depth(c)), addr) && Holds(ExtentOf(Pos(d), h - Depth(d)), addr)
    ensures c == d
  {
    FindPlug(c, Used, addr - ExtentOf(Pos(c), h - Depth(c)).start, h - Depth(c), addr);
    FindPlug(d, Used, addr - ExtentOf(Pos(d), h - Depth(d)).start, h - Depth(d), addr);
  }

  /** Allocating and then freeing any address inside the new block gives back the tree. */
  lemma AllocThenFree(t: Block, k: nat, h: nat, c: Ctx, addr: nat)
    requires Fits(t, h) && Merged(t) && k <= h && CanAlloc(t, k)
    requires Holds(ExtentOf(AllocPos(t, k, 0), h - k), addr)
    requires Plug(c, Used) == Alloc(t, k) && Depth(c) <= h && Holds(ExtentOf(Pos(c), h - Depth(c)), addr)
    ensures Release(c) == t
  {
    AllocFits(t, k, h);
    var d := AllocThenRelease(Top, t, k);
    UsedAround(c, d, h, addr);
  }

  // ----- Runs -----

  /** A request for a block of 2^j pages, or the return of held block number i by the address `delta`
      bytes into it. */
  datatype Event = Request(j: nat) | Return(i: nat, delta: nat)

  /** The allocator's tree, and the blocks handed out and not returned, in the order of their requests. */
  datatype State = State(tree: Block, held: seq<Extent>)

  /** One event on a region of 2^h pages. Requests that find no block and returns of nothing change nothing. */
  function Next(h: nat, s: State, ev: Event): State {
    match ev
    case Request(j) =>
      if j <= h && CanAlloc(s.tree, h - j)
      then State(Alloc(s.tree, h - j), s.held + [ExtentOf(AllocPos(s.tree, h - j, 0), j)])
      else s
    case Return(i, delta) =>
      if i < |s.held| && delta < s.held[i].len && Fits(s.tree, h)
      then State(Release(Find(Top, s.tree, s.held[i].start + delta, h)), Without(s.held, i))
      else s
  }

  /** The state after a run from an empty region. */
  function After(h: nat, events: seq<Event>): State {
    if events == [] then State(Free, []) else Next(h, After(h, events[..|events| - 1]), events[|events| - 1])
  }

  /** The held blocks are live, each held once. */
  ghost predicate Owned(h: nat, s: State) {
    Fits(s.tree, h) && Merged(s.tree) && multiset(s.held) <= multiset(Live(s.tree, 0, h))
  }

  /** And there are no other live blocks. */
  ghost predicate Good(h: nat, s: State) {
    Owned(h, s) && multiset(s.held) == multiset(Live(s.tree, 0, h))
  }

  /** A byte of a live block lies in the half that has the block. */
  lemma LiveHalf(l: Block, r: Block, n: nat, off: nat, h: nat, e: Extent, addr: nat)
    requires Fits(Split(l, r), h) && e in Live(Split(l, r), n, h) && Holds(e, addr)
    requires off < Bytes(h) && addr == ExtentOf(n, h).start + off
    ensures if off < Bytes(h - 1)
            then e in Live(l, 2 * n, h - 1) && addr == ExtentOf(2 * n, h - 1).start + off
            else e in Live(r, 2 * n + 1, h - 1) && addr == ExtentOf(2 * n + 1, h - 1).start + (off - Bytes(h - 1))
  {
    Halves(n, h);
    LiveWithin(l, 2 * n, h - 1);
    LiveWithin(r, 2 * n + 1, h - 1);
  }

  /** The search for a byte of a live block ends at that block. */
  lemma {:induction false} FindLive(c: Ctx, t: Block, off: nat, h: nat, e: Extent, addr: nat)
    requires Fits(t, h) && e in Live(t, Pos(c), h) && Holds(e, addr)
    requires off < Bytes(h) && addr == ExtentOf(Pos(c), h).start + off
    ensures var d := Find(c, t, off, h);
            && Plug(d, Used) == Plug(c, t) && Depth(c) <= Depth(d) <= Depth(c) + h
            && ExtentOf(Pos(d), Depth(c) + h - Depth(d)) == e
    decreases t
  {
    if t.Split? {
      LiveHalf(t.left, t.right, Pos(c), off, h, e, addr);
      Halves(Pos(c), h);
      if off < Bytes(h - 1) {
        FindLive(In(false, t.right, c), t.left, off, h - 1, e, addr);
      } else {
        FindLive(In(true, t.left, c), t.right, off - Bytes(h - 1), h - 1, e, addr);
      }
    }
  }

  /** A block inside a region of 2^h pages, with a power of two of pages. */
  ghost predicate InRegion(h: nat, e: Extent) {
    Within(e, Extent(0, Bytes(h))) && exists j :: 0 <= j <= h && e.len == Bytes(j)
  }

  lemma HeldIsLive(h: nat, s: State, i: nat)
    requires Owned(h, s) && i < |s.held|
    ensures s.held[i] in Live(s.tree, 0, h) && InRegion(h, s.held[i])
  {
    assert s.held[i] in multiset(s.held);
    LiveWithin(s.tree, 0, h);
  }

  /** What a successful request for 2^j pages hands out: a block of that size inside the region that
      shares no byte with any held block. */
  ghost predicate GrantsNew(h: nat, s: State, j: nat)
    requires j <= h && CanAlloc(s.tree, h - j)
  {
    var e := ExtentOf(AllocPos(s.tree, h - j, 0), j);
    && e.len == Bytes(j) && InRegion(h, e)
    && forall i :: 0 <= i < |s.held| ==> Apart(s.held[i], e)
  }

  lemma RequestIsNew(h: nat, s: State, j: nat)
    requires Owned(h, s) && j <= h && CanAlloc(s.tree, h - j)
    ensures GrantsNew(h, s, j)
  {
    var k := h - j;
    var e, t' := ExtentOf(AllocPos(s.tree, k, 0), j), Alloc(s.tree, k);
    AllocAdds(s.tree, k, h);
    LiveWithin(t', 0, h);
    LiveApart(t', 0, h);
    forall i | 0 <= i < |s.held| ensures Apart(s.held[i], e) {
      HeldIsLive(h, s, i);
    }
  }

  // ----- First fit -----

  /** The number of the block k levels up that block number n is in. */
  function Up(n: nat, k: nat): nat { if k == 0 then n else Up(n, k - 1) / 2 }

  lemma {:induction false} UpMono(a: nat, b: nat, k: nat)
    requires a <= b
    ensures Up(a, k) <= Up(b, k)
  {
    if k > 0 { UpMono(a, b, k - 1); }
  }

  lemma {:induction false} UpIsTop(n: nat, k: nat)
    ensures Up(n, k) == 0 <==> n < Pow2(k)
  {
    UpBelow(n, k, 0);
  }

  lemma {:induction false} UpBelow(n: nat, k: nat, m: nat)
    ensures Up(n, k) <= m <==> n < (m + 1) * Pow2(k)
  {
    if k > 0 {
      UpBelow(n, k - 1, 2 * m + 1);
      assert (2 * m + 2) * Pow2(k - 1) == (m + 1) * Pow2(k);
    }
  }

  lemma {:induction false} PlaceWithin(n: nat, k: nat, h: nat)
    requires k <= h
    ensures Within(ExtentOf(n, h - k), ExtentOf(Up(n, k), h))
    decreases k
  {
    if k > 0 {
      PlaceWithin(n, k - 1, h - 1);
      Halves(Up(n, k), h);
    }
  }

  lemma {:induction false} LeftmostIsLeast(n: nat, k: nat, m: nat)
    requires Up(n, k) >= m
    ensures n >= AllocPos(Free, k, m)
    decreases k
  {
    if k > 0 { LeftmostIsLeast(n, k - 1, 2 * m); }
  }

  lemma {:induction false} AllocUp(t: Block, k: nat, m: nat)
    requires CanAlloc(t, k)
    ensures Up(AllocPos(t, k, m), k) == m
    decreases k
  {
    match t
    case Free => if k > 0 { AllocUp(Free, k - 1, 2 * m); }
    case Split(l, r) =>
      if CanAlloc(l, k - 1) { AllocUp(l, k - 1, 2 * m); } else { AllocUp(r, k - 1, 2 * m + 1); }
  }

  /** Every place before the one that the search finds, and every place if it finds none, has a byte in use. */
  lemma {:induction false} PlaceTaken(t: Block, m: nat, h: nat, k: nat, n: nat) returns (e: Extent)
    requires Fits(t, h) && Merged(t) && k <= h && Up(n, k) == m && (CanAlloc(t, k) ==> n < AllocPos(t, k, m))
    ensures e in Live(t, m, h) && !Apart(e, ExtentOf(n, h - k))
    decreases k
  {
    PlaceWithin(n, k, h);
    match t
    case Free =>
      LeftmostIsLeast(n, k, m);
      assert false;
    case Used => e := ExtentOf(m, h);
    case Split(l, r) =>
      if k == 0 {
        if Live(t, m, h) == {} { NoLiveIsFree(t, m, h); }
        e :| e in Live(t, m, h);
        LiveWithin(t, m, h);
      } else if Up(n, k - 1) == 2 * m {
        e := PlaceTaken(l, 2 * m, h - 1, k - 1, n);
      } else {
        if CanAlloc(l, k - 1) {
          AllocUp(l, k - 1, 2 * m);
          UpMono(n, AllocPos(l, k - 1, 2 * m), k - 1);
        }
        e := PlaceTaken(r, 2 * m + 1, h - 1, k - 1, n);
      }
  }

  /** No block in use shares a byte with block number n of 2^j pages. */
  ghost predicate Vacant(t: Block, h: nat, n: nat, j: nat)
    requires Fits(t, h)
  {
    forall e :: e in Live(t, 0, h) ==> Apart(e, ExtentOf(n, j))
  }

  /** The search for 2^j pages finds the first vacant place, and finds one if there is any. */
  lemma FirstFit(t: Block, j: nat, h: nat)
    requires Fits(t, h) && Merged(t) && j <= h
    ensures CanAlloc(t, h - j) <==> exists n :: 0 <= n < Pow2(h - j) && Vacant(t, h, n, j)
    ensures CanAlloc(t, h - j) ==>
              var p := AllocPos(t, h - j, 0);
              p < Pow2(h - j) && Vacant(t, h, p, j) && forall n :: 0 <= n < p ==> !Vacant(t, h, n, j)
  {
    var k := h - j;
    forall n: nat | n < Pow2(k) && (CanAlloc(t, k) ==> n < AllocPos(t, k, 0)) ensures !Vacant(t, h, n, j) {
      UpIsTop(n, k);
      var e := PlaceTaken(t, 0, h, k, n);
    }
    if CanAlloc(t, k) {
      var p := AllocPos(t, k, 0);
      AllocUp(t, k, 0);
      UpIsTop(p, k);
      AllocAdds(t, k, h);
      LiveApart(Alloc(t, k), 0, h);
      assert Vacant(t, h, p, j);
    }
  }

  lemma RequestKeeps(h: nat, s: State, j: nat)
    requires Owned(h, s) && j <= h && CanAlloc(s.tree, h - j)
    ensures Owned(h, Next(h, s, Request(j)))
    ensures Good(h, s) ==> Good(h, Next(h, s, Request(j)))
  {
    AllocAdds(s.tree, h - j, h);
    AllocMerged(s.tree, h - j);
  }

  lemma WithoutCount<T>(s: seq<T>, i: nat)
    requires i < |s|
    ensures multiset(s) == multiset(Without(s, i)) + multiset{s[i]}
  {
    assert s == s[..i] + [s[i]] + s[i + 1..];
  }

  lemma Twice<T>(s: seq<T>, i: nat, j: nat)
    requires i < j < |s| && s[i] == s[j]
    ensures multiset(s)[s[i]] >= 2
  {
    assert s == s[..i] + [s[i]] + s[i + 1..j] + [s[j]] + s[j + 1..];
  }

  /** A sequence of different elements of a set, or of all of them, stays one when an element is taken
      out of both. */
  lemma DropFromBoth<T>(s: seq<T>, i: nat, a: set<T>)
    requires i < |s| && s[i] in a && multiset(s) <= multiset(a)
    ensures multiset(Without(s, i)) <= multiset(a - {s[i]})
    ensures multiset(s) == multiset(a) ==> multiset(Without(s, i)) == multiset(a - {s[i]})
  {
    WithoutCount(s, i);
    assert a == (a - {s[i]}) + {s[i]};
    assert multiset(Without(s, i)) == multiset(s) - multiset{s[i]};
    assert multiset(a - {s[i]}) == multiset(a) - multiset{s[i]};
  }

  /** Returning a block takes exactly that block out of the tree. */
  lemma ReturnKeeps(h: nat, s: State, i: nat, delta: nat)
    requires Owned(h, s) && i < |s.held| && delta < s.held[i].len
    ensures Owned(h, Next(h, s, Return(i, delta)))
    ensures Good(h, s) ==> Good(h, Next(h, s, Return(i, delta)))
  {
    var e := s.held[i];
    HeldIsLive(h, s, i);
    FindLive(Top, s.tree, e.start + delta, h, e, e.start + delta);
    var d := Find(Top, s.tree, e.start + delta, h);
    ReleaseRemoves(d, h - Depth(d));
    MergedPlug(d, Used);
    ReleaseMerged(d);
    DropFromBoth(s.held, i, Live(s.tree, 0, h));
  }

  lemma StepKeeps(h: nat, s: State, ev: Event)
    requires Good(h, s)
    ensures Good(h, Next(h, s, ev))
  {
    match ev
    case Request(j) => if j <= h && CanAlloc(s.tree, h - j) { RequestKeeps(h, s, j); }
    case Return(i, delta) => if i < |s.held| && delta < s.held[i].len { ReturnKeeps(h, s, i, delta); }
  }

  lemma {:induction false} RunKeeps(h: nat, events: seq<Event>)
    ensures Good(h, After(h, events))
  {
    if events != [] {
      RunKeeps(h, events[..|events| - 1]);
      StepKeeps(h, After(h, events[..|events| - 1]), events[|events| - 1]);
    }
  }

  /** Two held blocks, and so also two hand-outs of one block, never share a byte. */
  lemma HeldApart(h: nat, s: State, i: nat, j: nat)
    requires Owned(h, s) && i < j < |s.held|
    ensures Apart(s.held[i], s.held[j])
  {
    HeldIsLive(h, s, i);
    HeldIsLive(h, s, j);
    LiveApart(s.tree, 0, h);
    if s.held[i] == s.held[j] {
      Twice(s.held, i, j);
      assert false;
    }
  }

  lemma NoneHeldIsFree(h: nat, s: State)
    requires Good(h, s) && s.held == []
    ensures s.tree == Free
  {
    assert |Live(s.tree, 0, h)| == |multiset(s.held)|;
    NoLiveIsFree(s.tree, 0, h);
  }

  /** Nobody holds a byte of block number n of 2^j pages. */
  ghost predicate FreePlace(held: seq<Extent>, n: nat, j: nat) {
    forall i :: 0 <= i < |held| ==> Apart(held[i], ExtentOf(n, j))
  }

  lemma VacantIsFree(h: nat, s: State, n: nat, j: nat)
    requires Good(h, s)
    ensures Vacant(s.tree, h, n, j) <==> FreePlace(s.held, n, j)
  {
    forall e ensures e in Live(s.tree, 0, h) <==> e in s.held {
      assert e in Live(s.tree, 0, h) <==> e in multiset(s.held);
    }
  }

  /** What a request means to those who hold blocks: it is granted exactly if there is a place where nobody holds a
      byte, and then gives the first such place. */
  lemma RequestMeans(h: nat, s: State, j: nat)
    requires Good(h, s)
    ensures var s' := Next(h, s, Request(j));
            && Good(h, s')
            && (if j <= h && exists n :: 0 <= n < Pow2(h - j) && FreePlace(s.held, n, j) then
                  exists p :: 0 <= p < Pow2(h - j) && FreePlace(s.held, p, j) &&
                    (forall n :: 0 <= n < p ==> !FreePlace(s.held, n, j)) && s'.held == s.held + [ExtentOf(p, j)]
                else s' == s)
  {
    if j <= h {
      FirstFit(s.tree, j, h);
      forall n: nat ensures Vacant(s.tree, h, n, j) <==> FreePlace(s.held, n, j) { VacantIsFree(h, s, n, j); }
    }
    StepKeeps(h, s, Request(j));
  }

  /** What a return means: exactly that block is not held any more, and its bytes are free again. */
  lemma ReturnMeans(h: nat, s: State, i: nat, delta: nat)
    requires Good(h, s) && i < |s.held| && delta < s.held[i].len
    ensures var s' := Next(h, s, Return(i, delta));
            Good(h, s') && |s'.held| == |s.held| - 1 && s'.held[..i] == s.held[..i] && s'.held[i..] == s.held[i + 1..]
  {
    StepKeeps(h, s, Return(i, delta));
  }

  /** After every run, held blocks lie inside the region, have a power of two of pages, and do not overlap;
      a further request that succeeds hands out a block of the requested size that overlaps none of them;
      and when all have been returned, the region is one free block. */
  lemma RunSafe(h: nat, events: seq<Event>)
    ensures var s := After(h, events);
            && (forall i :: 0 <= i < |s.held| ==> InRegion(h, s.held[i]))
            && (forall i, j :: 0 <= i < j < |s.held| ==> Apart(s.held[i], s.held[j]))
            && (forall j :: 0 <= j <= h && CanAlloc(s.tree, h - j) ==> GrantsNew(h, s, j))
            && (s.held == [] ==> s.tree == Free)
  {
    var s := After(h, events);
    RunKeeps(h, events);
    forall i | 0 <= i < |s.held| ensures InRegion(h, s.held[i]) { HeldIsLive(h, s, i); }
    forall i, j | 0 <= i < j < |s.held| ensures Apart(s.held[i], s.held[j]) { HeldApart(h, s, i, j); }
    forall j | 0 <= j <= h && CanAlloc(s.tree, h - j) ensures GrantsNew(h, s, j) { RequestIsNew(h, s, j); }
    if s.held == [] { NoneHeldIsFree(h, s); }
  }
}
