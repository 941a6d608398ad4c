/** buddy_free_helper of mem/buddy.c: find the block around an address, mark it free, merge.

    The descent stops at the first free mark, so it always looks one row further than the block. Below a
    one-page block that row belongs to no block, and what is read there is whatever memory holds. */
module BuddyFree {
  import opened Common
  import opened Powers
  import opened BuddyTree
  import opened Buddy

  // ----- The two loops on marks -----

  lemma Family(p: nat)
    ensures Sibling(2 * p + 1) == 2 * p + 2 && Sibling(2 * p + 2) == 2 * p + 1
    ensures Parent(2 * p + 1) == p && Parent(2 * p + 2) == p
  {}

  /** The child of node i whose half of the block holds the offset, and the offset inside that half. */
  function Child(i: nat, off: nat, len: nat): nat { if off < len / 2 then 2 * i + 1 else 2 * i + 2 }

  function Rest(off: nat, len: nat): nat { if off < len / 2 then off else off - len / 2 }

  function Sibling(i: nat): nat
    requires i > 0
  {
    if i % 2 == 1 then i + 1 else i - 1
  }

  function Parent(i: nat): nat
    requires i > 0
  {
    (i - 1) / 2
  }

  /** The last node that is not marked free on the way down from node i, which is not.
      None: the walk leaves the memory that `s` shows. */
  function Descent(s: seq<nat>, i: nat, off: nat, len: nat): (last: Option<nat>)
    requires i < |s|
    ensures last.Some? ==> i <= last.value && 2 * last.value + 2 < |s|
    decreases |s| - i
  {
    if 2 * i + 2 >= |s| then None
    else
      var j := Child(i, off, len);
      if s[j] == FREE then Some(i) else Descent(s, j, Rest(off, len), len / 2)
  }

  /** Mark node i free, and its ancestors as long as the sibling on the way is free. */
  function MergeUp(s: seq<nat>, i: nat): (s': seq<nat>)
    requires i < |s| && (i > 0 ==> Sibling(i) < |s|)
    ensures |s'| == |s|
    decreases i
  {
    var s1 := s[i := FREE];
    if i > 0 && s[Sibling(i)] == FREE then MergeUp(s1, Parent(i)) else s1
  }

  /** All marks that the walk from node i passes have a free sibling, so that merging comes back to i. */
  ghost predicate ComesBack(s: seq<nat>, i: nat, off: nat, len: nat)
    requires i < |s| && Descent(s, i, off, len).Some?
    decreases |s| - i
  {
    var j := Child(i, off, len);
    s[j] == FREE || (s[Sibling(j)] == FREE && ComesBack(s, j, Rest(off, len), len / 2))
  }

  /** s and s' differ at most below node i. */
  ghost predicate SameAbove(i: nat, s: seq<nat>, s': seq<nat>) {
    i < |s| == |s'| && s[i] == s'[i] && Outside(i, s, s')
  }

  lemma AboveChild(i: nat, j: nat, s: seq<nat>, s': seq<nat>)
    requires (j == 2 * i + 1 || j == 2 * i + 2) && i < |s| && Outside(j, s, s')
    ensures SameAbove(i, s, s')
  {
    OutsideChild(i, j, s, s');
  }

  lemma MarkAfter(j: nat, s: seq<nat>, s1: seq<nat>)
    requires SameAbove(j, s, s1)
    ensures Outside(j, s, s1[j := FREE])
  {}

  lemma SiblingNotUnder(i: nat, off: nat, len: nat)
    ensures !Under(Sibling(Child(i, off, len)), Child(i, off, len)) && Parent(Child(i, off, len)) == i
  {
    Family(i);
    UnderChildren(2 * i + 2, i);
    UnderChildren(2 * i + 1, i);
  }

  /** Marking and merging from the end of the walk below node i: either it is as if node i itself were
      marked, or everything from node i up stays as it is. */
  lemma {:induction false} WalkAndMerge(s: seq<nat>, i: nat, off: nat, len: nat) returns (s1: seq<nat>)
    requires i < |s| && Descent(s, i, off, len).Some?
    ensures SameAbove(i, s, s1)
    ensures var last := Descent(s, i, off, len).value;
            MergeUp(s, last) == if ComesBack(s, i, off, len) then MergeUp(s1, i) else s1
    ensures s[Child(i, off, len)] == FREE ==> s1 == s
    decreases |s| - i
  {
    var j := Child(i, off, len);
    if s[j] == FREE {
      s1 := s;
    } else {
      var s2 := WalkAndMerge(s, j, Rest(off, len), len / 2);
      SiblingNotUnder(i, off, len);
      MarkAfter(j, s, s2);
      s1 := if ComesBack(s, j, Rest(off, len), len / 2) then s2[j := FREE] else s2;
      AboveChild(i, j, s, s1);
    }
  }

  lemma {:induction false} DescentNotFree(s: seq<nat>, i: nat, off: nat, len: nat)
    requires i < |s| && Descent(s, i, off, len).Some? && s[i] != FREE
    ensures s[Descent(s, i, off, len).value] != FREE
    decreases |s| - i
  {
    var j := Child(i, off, len);
    if s[j] != FREE { DescentNotFree(s, j, Rest(off, len), len / 2); }
  }

  lemma {:induction false} MergeUpMarks(s: seq<nat>, i: nat, k: nat)
    requires i < |s| && (i > 0 ==> Sibling(i) < |s|) && k < |s| && (s[k] == FREE || k == i)
    ensures MergeUp(s, i)[k] == FREE
    decreases i
  {
    if i > 0 && s[Sibling(i)] == FREE { MergeUpMarks(s[i := FREE], Parent(i), k); }
  }

  // ----- What the loops mean for the tree -----

  /** The root of the buddy is marked free exactly when the buddy is one free block. */
  lemma FreeMark(t: Block, i: nat, h: nat, s: seq<nat>)
    requires Rep(t, i, h, s)
    ensures i < |s| && (s[i] == FREE <==> t == Free)
  {}

  lemma HoleFamily(c: Ctx)
    requires c.In?
    ensures Hole(c) > 0 && Sibling(Hole(c)) == BuddyOf(c) && Parent(Hole(c)) == Hole(c.up)
  {
    Family(Hole(c.up));
  }

  /** Marking the block in the hole free leaves what is around it. */
  lemma MarkHole(c: Ctx, t: Block, h: nat, s: seq<nat>)
    requires t == Used || t == Split(Free, Free)
    requires Rep(t, Hole(c), h, s) && RepCtx(c, h, s)
    ensures Hole(c) < |s| && Rep(Free, Hole(c), h, s[Hole(c) := FREE]) && RepCtx(c, h, s[Hole(c) := FREE])
  {
    MarkFree(t, Hole(c), h, s);
    RepCtxFrame(c, h, s, s[Hole(c) := FREE]);
  }

  lemma SiblingMark(c: Ctx, h: nat, s: seq<nat>)
    requires c.In? && RepCtx(c, h, s)
    ensures Hole(c) > 0 && Sibling(Hole(c)) < |s| && Parent(Hole(c)) == Hole(c.up)
    ensures s[Sibling(Hole(c))] == FREE <==> c.buddy == Free
  {
    HoleFamily(c);
    FreeMark(c.buddy, BuddyOf(c), h, s);
  }

  lemma JoinFree(c: Ctx, h: nat, s: seq<nat>)
    requires c.In? && c.buddy == Free && Rep(Free, Hole(c), h, s) && RepCtx(c, h, s)
    ensures Rep(Split(Free, Free), Hole(c.up), h + 1, s) && RepCtx(c.up, h + 1, s)
  {}

  /** The marks after merging from the hole, following the tree. */
  ghost function MergeHole(c: Ctx, s: seq<nat>): seq<nat>
    requires Hole(c) < |s|
    decreases c
  {
    var s1 := s[Hole(c) := FREE];
    if c.In? && c.buddy == Free && Hole(c.up) < |s| then MergeHole(c.up, s1) else s1
  }

  /** Merging by the marks of the siblings is merging by the tree. */
  lemma {:induction false} MergeFollows(c: Ctx, h: nat, s: seq<nat>)
    requires Hole(c) < |s| && RepCtx(c, h, s)
    ensures (c.In? ==> Sibling(Hole(c)) < |s|) && MergeUp(s, Hole(c)) == MergeHole(c, s)
    decreases c
  {
    if c.In? {
      SiblingMark(c, h, s);
      if c.buddy == Free {
        RepCtxUnder(c, h, s);
        MergeFollows(c.up, h + 1, s[Hole(c) := FREE]);
      }
    }
  }

  lemma RepCtxUnder(c: Ctx, h: nat, s: seq<nat>)
    requires c.In? && Hole(c) < |s| && RepCtx(c, h, s)
    ensures RepCtx(c.up, h + 1, s[Hole(c) := FREE])
  {
    RepCtxFrame(c, h, s, s[Hole(c) := FREE]);
  }

  /** Merging ends at the hole `e`, filled with one free block. */
  lemma {:induction false} MergeEnds(c: Ctx, t: Block, h: nat, s: seq<nat>) returns (e: Ctx, rows: nat, s': seq<nat>)
    requires t == Used || t == Split(Free, Free)
    requires Rep(t, Hole(c), h, s) && RepCtx(c, h, s)
    ensures Hole(c) < |s| && s' == MergeHole(c, s)
    ensures Release(c) == Plug(e, Free) && Depth(e) + rows == Depth(c) + h
    ensures Rep(Free, Hole(e), rows, s') && RepCtx(e, rows, s')
    decreases c
  {
    MarkHole(c, t, h, s);
    s' := s[Hole(c) := FREE];
    if c.In? && c.buddy == Free {
      JoinFree(c, h, s');
      e, rows, s' := MergeEnds(c.up, Split(Free, Free), h + 1, s');
    } else {
      e, rows := c, h;
    }
  }

  /** Merging from a block in use releases it. */
  lemma MergeReleases(c: Ctx, h: nat, s: seq<nat>) returns (s': seq<nat>)
    requires Rep(Used, Hole(c), h, s) && RepCtx(c, h, s)
    ensures Hole(c) < |s| && (c.In? ==> Sibling(Hole(c)) < |s|) && s' == MergeUp(s, Hole(c))
    ensures Rep(Release(c), 0, Depth(c) + h, s')
  {
    var e, rows;
    e, rows, s' := MergeEnds(c, Used, h, s);
    MergeFollows(c, h, s);
    RepPlug(e, Free, rows, s');
  }

  /** The byte `off` of the block at `c`, counted from the start of the region. */
  ghost function Address(c: Ctx, off: nat, h: nat): nat { ExtentOf(Pos(c), h).start + off }

  lemma HalfAddress(c: Ctx, l: Block, r: Block, off: nat, h: nat, rest: nat, e: Ctx)
    requires h > 0 && rest == if off < Bytes(h - 1) then off else off - Bytes(h - 1)
    requires e == if off < Bytes(h - 1) then In(false, r, c) else In(true, l, c)
    ensures Address(e, rest, h - 1) == Address(c, off, h)
  {
    Halves(Pos(c), h);
  }

  lemma HalfDescent(s: seq<nat>, i: nat, off: nat, h: nat) returns (j: nat, rest: nat)
    requires h > 0 && 2 * i + 2 < |s| && s[if off < Bytes(h - 1) then 2 * i + 1 else 2 * i + 2] != FREE
    ensures j == if off < Bytes(h - 1) then 2 * i + 1 else 2 * i + 2
    ensures rest == if off < Bytes(h - 1) then off else off - Bytes(h - 1)
    ensures Descent(s, i, off, Bytes(h)) == Descent(s, j, rest, Bytes(h - 1))
  {
    assert Bytes(h) / 2 == Bytes(h - 1);
    j, rest := Child(i, off, Bytes(h)), Rest(off, Bytes(h));
  }

  /** The halves of a split block, and what their marks say. */
  lemma SplitHalves(l: Block, r: Block, i: nat, rows: nat, s: seq<nat>)
    requires Rep(Split(l, r), i, rows, s)
    ensures rows > 0 && 2 * i + 2 < |s| && Rep(l, 2 * i + 1, rows - 1, s) && Rep(r, 2 * i + 2, rows - 1, s)
    ensures (s[2 * i + 1] == FREE <==> l == Free) && (s[2 * i + 2] == FREE <==> r == Free)
  {
    FreeMark(l, 2 * i + 1, rows - 1, s);
    FreeMark(r, 2 * i + 2, rows - 1, s);
  }

  /** The walk goes from a split block to the half around the offset, at node j, which is not free. */
  lemma WalkToHalf(c: Ctx, l: Block, r: Block, off: nat, h: nat, s: seq<nat>)
    returns (e: Ctx, t: Block, rest: nat, j: nat)
    requires InUsed(Split(l, r), off, h) && 2 * Hole(c) + 2 < |s|
    requires (s[2 * Hole(c) + 1] == FREE <==> l == Free) && (s[2 * Hole(c) + 2] == FREE <==> r == Free)
    ensures h > 0 && InUsed(t, rest, h - 1) && j == Hole(e) < |s|
    ensures (t == l && j == 2 * Hole(c) + 1) || (t == r && j == 2 * Hole(c) + 2)
    ensures Plug(e, t) == Plug(c, Split(l, r)) && Depth(e) == Depth(c) + 1
    ensures Address(e, rest, h - 1) == Address(c, off, h)
    ensures Descent(s, Hole(c), off, Bytes(h)) == Descent(s, j, rest, Bytes(h - 1))
  {
    j, rest := HalfDescent(s, Hole(c), off, h);
    e, t := if off < Bytes(h - 1) then In(false, r, c) else In(true, l, c), if off < Bytes(h - 1) then l else r;
    HalfAddress(c, l, r, off, h, rest, e);
  }

  /** The walk goes straight through split blocks to the block in use around the offset: `d` is its place,
      `rest` the offset inside it, and k says how large it is. */
  lemma {:induction false} WalkToUsed(c: Ctx, t: Block, off: nat, h: nat, rows: nat, s: seq<nat>)
    returns (d: Ctx, rest: nat, k: nat)
    requires Rep(t, Hole(c), rows, s) && InUsed(t, off, h) && h <= rows
    ensures Plug(d, Used) == Plug(c, t) && Depth(d) + k == Depth(c) + h && k <= h
    ensures rest < Bytes(k) && Address(d, rest, k) == Address(c, off, h)
    ensures Hole(c) < |s| && Hole(d) < |s|
    ensures Descent(s, Hole(c), off, Bytes(h)) == Descent(s, Hole(d), rest, Bytes(k))
    decreases t
  {
    match t
    case Used => d, rest, k := c, off, h;
    case Split(l, r) =>
      SplitHalves(l, r, Hole(c), rows, s);
      var e, t', off', j := WalkToHalf(c, l, r, off, h, s);
      d, rest, k := WalkToUsed(e, t', off', h - 1, rows - 1, s);
  }

  /** The marks after a walk from node i that ends inside `s`. */
  function AfterWalk(s: seq<nat>, i: nat, off: nat, len: nat): seq<nat>
    requires i < |s|
  {
    var last := Descent(s, i, off, len);
    if last.Some? then MergeUp(s, last.value) else s
  }

  /** buddy_free_helper on the block at `d`, `rest` bytes into it: the block is released exactly if
      the walk comes back to it. Otherwise the tree stays as it is, with the block in use. */
  lemma FreeExactly(d: Ctx, rest: nat, k: nat, rows: nat, s: seq<nat>)
    requires Rep(Plug(d, Used), 0, rows, s) && Depth(d) + k <= rows
    requires Hole(d) < |s| && Descent(s, Hole(d), rest, Bytes(k)).Some?
    ensures var s' := MergeUp(s, Descent(s, Hole(d), rest, Bytes(k)).value);
            var back := ComesBack(s, Hole(d), rest, Bytes(k));
            && Rep(if back then Release(d) else Plug(d, Used), 0, rows, s')
            && (Rep(Release(d), 0, rows, s') <==> back)
  {
    var i, j := Hole(d), Child(Hole(d), rest, Bytes(k));
    var below := rows - Depth(d);
    RepPlug(d, Used, below, s);
    var s1 := WalkAndMerge(s, i, rest, Bytes(k));
    RepCtxFrame(d, below, s, s1);
    if below > 0 { assert s[j] == FREE; }
    assert Rep(Used, i, below, s1);
    if ComesBack(s, i, rest, Bytes(k)) {
      var _ := MergeReleases(d, below, s1);
    } else {
      RepPlug(d, Used, below, s1);
      if Rep(Release(d), 0, rows, s1) { ReleasedIsFree(d, below, s1); }
    }
  }

  /** Releasing a block leaves it marked free, whatever it is merged with. */
  lemma {:induction false} ReleasedIsFree(d: Ctx, h: nat, s: seq<nat>)
    requires Rep(Release(d), 0, Depth(d) + h, s)
    ensures AllFree(Hole(d), h, s)
    decreases d
  {
    if d.In? {
      if d.buddy.Free? { ReleasedIsFree(d.up, h + 1, s); }
      else { RepPlug(d, Free, h, s); }
    }
  }

  // ----- The code -----

  function Xor1(n: nat): nat { if n % 2 == 0 then n + 1 else n - 1 }

  /** Going down, sideways and up in rows and numbers. */
  lemma NodeBelow(depth: nat, n: nat, off: nat, len: nat)
    requires depth == 0 ==> n == 0
    ensures var m := 2 * n + (if off >= len / 2 then 1 else 0);
            Index(depth + 1, m) == Child(Index(depth, n), off, len)
  {
    IndexChildren(depth, n);
  }

  lemma NodeBeside(depth: nat, n: nat)
    requires depth > 0 && n < Pow2(depth)
    ensures Index(depth, n) > 0 && n / 2 < Pow2(depth - 1) && (depth == 1 ==> n / 2 == 0)
    ensures Index(depth, Xor1(n)) == Sibling(Index(depth, n))
    ensures Index(depth - 1, n / 2) == Parent(Index(depth, n))
  {
    var m := n / 2;
    IndexChildren(depth - 1, m);
    Family(Index(depth - 1, m));
    if n % 2 == 0 { assert n == 2 * m; } else { assert n == 2 * m + 1; }
  }

  /** The first loop of buddy_free_helper: `inside` tells whether it ends before leaving the memory. */
  method Descend(r: Region, off0: nat) returns (inside: bool, depth: nat, n: nat)
    requires 0 < r.bitmap.Length
    ensures n < Pow2(depth)
    ensures var s := Slots(r.bitmap[..]);
            if s[0] == FREE then inside && Index(depth, n) == 0
            else inside == Descent(s, 0, off0, r.len).Some? &&
                 (inside ==> Descent(s, 0, off0, r.len) == Some(Index(depth, n)))
  {
    ghost var s := Slots(r.bitmap[..]);
    var offset: nat, curlen: nat, d: nat, m: nat := off0, r.len, 0, 0;
    inside, depth, n := true, 0, 0;
    var val := BitmapGet(r.bitmap, d, m);
    while val != FREE
      invariant n < Pow2(depth) && m < Pow2(d) && s == Slots(r.bitmap[..])
      invariant val != FREE ==>
                  && Index(d, m) < |s| && s[0] != FREE
                  && Descent(s, 0, off0, r.len) == Descent(s, Index(d, m), offset, curlen)
      invariant val == FREE ==>
                  if s[0] == FREE then Index(depth, n) == 0 else Descent(s, 0, off0, r.len) == Some(Index(depth, n))
      decreases if val == FREE then 0 else |s| - Index(d, m)
    {
      depth, n := d, m;
      if 2 * Index(d, m) + 2 >= 4 * r.bitmap.Length {
        return false, depth, n;
      }
      d := d + 1;
      m, offset, curlen := Halve(depth, m, offset, curlen);
      val := BitmapGet(r.bitmap, d, m);
    }
  }

  /** The body of the loop. */
  method Halve(d: nat, m0: nat, offset0: nat, curlen0: nat) returns (m: nat, offset: nat, curlen: nat)
    requires m0 < Pow2(d)
    ensures m < Pow2(d + 1) && Index(d + 1, m) == Child(Index(d, m0), offset0, curlen0)
    ensures offset == Rest(offset0, curlen0) && curlen == curlen0 / 2
  {
    NodeBelow(d, m0, offset0, curlen0);
    m := 2 * m0;
    curlen := curlen0 / 2;
    offset := offset0;
    if offset >= curlen {
      offset := offset - curlen;
      m := m + 1;
    }
  }

  /** A node with a buddy in the bitmap, or the root. */
  ghost predicate Mergeable(s: seq<nat>, depth: nat, n: nat) {
    && n < Pow2(depth) && Index(depth, n) < |s|
    && (depth > 0 ==> Index(depth, n) > 0 && Sibling(Index(depth, n)) < |s|)
  }

  lemma ParentMergeable(s: seq<nat>, depth: nat, n: nat)
    requires Mergeable(s, depth, n) && depth > 0
    ensures Mergeable(s, depth - 1, n / 2)
  {
    NodeBeside(depth, n);
    if depth > 1 { NodeBeside(depth - 1, n / 2); }
  }

  /** One round of the second loop: look at the buddy, and if it is free go up and mark the parent. */
  method MergeOnce(r: Region, depth: nat, n: nat) returns (up: bool)
    requires Mergeable(Slots(r.bitmap[..]), depth, n) && depth > 0
    modifies r.bitmap
    ensures var s, i := old(Slots(r.bitmap[..])), Index(depth, n);
            && up == (s[Sibling(i)] == FREE)
            && Slots(r.bitmap[..]) == if up then s[Parent(i) := FREE] else s
  {
    NodeBeside(depth, n);
    ParentMergeable(Slots(r.bitmap[..]), depth, n);
    var val := BitmapGet(r.bitmap, depth, Xor1(n));
    up := val == FREE;
    if up {
      BitmapSet(r.bitmap, depth - 1, n / 2, FREE);
    }
  }

  /** Marking the node free, and the second loop. */
  method MarkAndMerge(r: Region, depth0: nat, n0: nat)
    requires Mergeable(Slots(r.bitmap[..]), depth0, n0)
    requires Index(depth0, n0) > 0 ==> Sibling(Index(depth0, n0)) < 4 * r.bitmap.Length
    modifies r.bitmap
    ensures Slots(r.bitmap[..]) == MergeUp(old(Slots(r.bitmap[..])), Index(depth0, n0))
  {
    var depth: nat, n: nat := depth0, n0;
    ghost var before: seq<nat> := Slots(r.bitmap[..]);
    BitmapSet(r.bitmap, depth, n, FREE);
    while depth > 0
      invariant Mergeable(before, depth, n) && |before| == 4 * r.bitmap.Length
      invariant Slots(r.bitmap[..]) == before[Index(depth, n) := FREE]
      invariant MergeUp(old(Slots(r.bitmap[..])), Index(depth0, n0)) == MergeUp(before, Index(depth, n))
    {
      ghost var s: seq<nat> := Slots(r.bitmap[..]);
      ParentMergeable(s, depth, n);
      NodeBeside(depth, n);
      var up := MergeOnce(r, depth, n);
      if !up {
        break;
      }
      before := s;
      n := n / 2;
      depth := depth - 1;
    }
  }

  /** The whole of buddy_free_helper on the marks. */
  method FreeHelperMarks(r: Region, off: nat) returns (inside: bool)
    requires 0 < r.bitmap.Length
    modifies r.bitmap
    ensures var s := old(Slots(r.bitmap[..]));
            if s[0] == FREE then inside && Slots(r.bitmap[..]) == MergeUp(s, 0)
            else inside == Descent(s, 0, off, r.len).Some? && Slots(r.bitmap[..]) == AfterWalk(s, 0, off, r.len)
  {
    var depth, n;
    inside, depth, n := Descend(r, off);
    if inside {
      LastMergeable(Slots(r.bitmap[..]), depth, n);
      MarkAndMerge(r, depth, n);
    }
  }

  lemma LastMergeable(s: seq<nat>, depth: nat, n: nat)
    requires n < Pow2(depth) && (Index(depth, n) == 0 || 2 * Index(depth, n) + 2 < |s|) && 0 < |s|
    ensures Mergeable(s, depth, n)
    ensures Index(depth, n) > 0 ==> Sibling(Index(depth, n)) < |s|
  {
    if depth > 0 { NodeBeside(depth, n); }
  }

  /** Where the block around an address is, as the walk over the bitmap sees it: its place in the tree, and the
      address counted from its start. */
  ghost predicate BlockAround(r: Region, off: nat, d: Ctx, rest: nat)
    reads r
  {
    UsedAt(r.tree, r.maxDepth, off, d, rest)
  }

  ghost predicate UsedAt(t: Block, h: nat, off: nat, d: Ctx, rest: nat) {
    t == Plug(d, Used) && Depth(d) <= h && rest < Bytes(h - Depth(d)) && off == Address(d, rest, h - Depth(d))
  }

  lemma OneBlock(t: Block, h: nat, off: nat, d: Ctx, rest: nat, d': Ctx, rest': nat)
    requires Fits(t, h) && UsedAt(t, h, off, d, rest) && UsedAt(t, h, off, d', rest')
    ensures d == d' && rest == rest'
  {
    UsedAround(d, d', h, off);
  }

  /** The walk below the block at `d` meets a free mark and stays inside the memory, and merging comes back. */
  ghost predicate Releases(r: Region, d: Ctx, rest: nat)
    requires r.Sized() && Depth(d) <= r.maxDepth
    reads r.bitmap
  {
    var s, len := Slots(r.bitmap[..]), Bytes(r.maxDepth - Depth(d));
    Hole(d) < |s| && Descent(s, Hole(d), rest, len).Some? && ComesBack(s, Hole(d), rest, len)
  }

  /** What buddy_free_helper means for the tree, on the marks. */
  lemma FreeOutcome(t: Block, off: nat, h: nat, rows: nat, s: seq<nat>) returns (d: Ctx, rest: nat)
    requires Rep(t, 0, rows, s) && InUsed(t, off, h) && h <= rows
    ensures Plug(d, Used) == t && Depth(d) <= h && rest < Bytes(h - Depth(d)) && off == Address(d, rest, h - Depth(d))
    ensures 0 < |s| && Hole(d) < |s|
    ensures s[0] != FREE && Descent(s, 0, off, Bytes(h)) == Descent(s, Hole(d), rest, Bytes(h - Depth(d)))
    ensures Descent(s, 0, off, Bytes(h)).Some? ==>
              var back := ComesBack(s, Hole(d), rest, Bytes(h - Depth(d)));
              var s' := AfterWalk(s, 0, off, Bytes(h));
              && Rep(if back then Release(d) else t, 0, rows, s')
              && (Rep(Release(d), 0, rows, s') <==> back)
  {
    var k;
    d, rest, k := WalkToUsed(Top, t, off, h, rows, s);
    FreeMark(t, 0, rows, s);
    if Descent(s, Hole(d), rest, Bytes(k)).Some? {
      FreeExactly(d, rest, k, rows, s);
    }
  }

  lemma ReleasedShape(d: Ctx, h: nat)
    requires Merged(Plug(d, Used)) && Fits(Plug(d, Used), h) && Depth(d) <= h
    ensures Merged(Release(d)) && Fits(Release(d), h)
  {
    MergedPlug(d, Used);
    ReleaseMerged(d);
    ReleaseRemoves(d, h - Depth(d));
  }

  /** buddy_free_helper, for an address inside a live block. The block is released, and merged as far as
      possible, exactly if Releases holds; otherwise the tree keeps the block. */
  method FreeHelper(r: Region, paddr: nat) returns (inside: bool, ghost d: Ctx, ghost rest: nat)
    requires r.Valid() && r.base <= paddr && InUsed(r.tree, paddr - r.base, r.maxDepth)
    modifies r, r.bitmap
    ensures r.Valid() && old(BlockAround(r, paddr - r.base, d, rest))
    ensures r.tree == if old(Releases(r, d, rest)) then Release(d) else old(r.tree)
    ensures var s, len := old(Slots(r.bitmap[..])), Bytes(r.maxDepth - Depth(d));
            && Hole(d) < |s| && inside == Descent(s, Hole(d), rest, len).Some?
            && Slots(r.bitmap[..]) == AfterWalk(s, Hole(d), rest, len)
  {
    d, rest := FreeOutcome(r.tree, paddr - r.base, r.maxDepth, r.rows, Slots(r.bitmap[..]));
    ghost var released := Releases(r, d, rest);
    inside := FreeHelperMarks(r, paddr - r.base);
    if released {
      ReleasedShape(d, r.maxDepth);
      r.tree := Release(d);
    }
  }

  /** A byte in use inside a part of the tree is in use in the whole. */
  lemma {:induction false} InUsedPlug(c: Ctx, t: Block, off: nat, h: nat)
    requires InUsed(t, off, h) && off < Bytes(h)
    ensures InUsed(Plug(c, t), Address(c, off, h), Depth(c) + h)
    decreases c
  {
    if c.In? {
      Halves(Pos(c.up), h + 1);
      InUsedPlug(c.up, Pair(c.right, t, c.buddy), if c.right then off + Bytes(h) else off, h + 1);
    }
  }

  /** buddy_free_helper, for the block at a known place. */
  method FreeBlock(r: Region, paddr: nat, ghost d: Ctx, ghost rest: nat) returns (inside: bool)
    requires r.Valid() && r.base <= paddr && BlockAround(r, paddr - r.base, d, rest)
    modifies r, r.bitmap
    ensures r.Valid()
    ensures r.tree == if old(Releases(r, d, rest)) then Release(d) else old(r.tree)
    ensures var s, len := old(Slots(r.bitmap[..])), Bytes(r.maxDepth - Depth(d));
            && Hole(d) < |s| && inside == Descent(s, Hole(d), rest, len).Some?
            && Slots(r.bitmap[..]) == AfterWalk(s, Hole(d), rest, len)
  {
    InUsedPlug(d, Used, rest, r.maxDepth - Depth(d));
    ghost var t := r.tree;
    ghost var d', rest';
    inside, d', rest' := FreeHelper(r, paddr);
    OneBlock(t, r.maxDepth, paddr - r.base, d, rest, d', rest');
  }
}
