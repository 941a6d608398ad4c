/** mem/buddy.c: the block tree packed into a bitmap, two bits a node, and the operations on it. */
module Buddy {
  import opened Common
  import opened Powers
  import opened BuddyTree
  import Bitmap

  const FREE: nat := 0
  const SPLIT: nat := 1
  const USED: nat := 2

  // ----- Two bits a node -----

  /** Nodes are numbered row by row from the root; the children of i are 2i + 1 and 2i + 2. */
  function Index(depth: nat, n: nat): nat {
    if depth == 0 then 0 else Pow2(depth) - 1 + n
  }

  lemma IndexChildren(depth: nat, n: nat)
    requires depth == 0 ==> n == 0
    ensures Index(depth + 1, 2 * n) == 2 * Index(depth, n) + 1
    ensures Index(depth + 1, 2 * n + 1) == 2 * Index(depth, n) + 2
  {}

  /** Different nodes have different numbers, and row by row they fill 0 .. 2^(d+1) - 2. */
  lemma IndexInjective(d: nat, n: nat, d': nat, n': nat)
    requires n < Pow2(d) && n' < Pow2(d')
    ensures Index(d, n) == Index(d', n') <==> d == d' && n == n'
    ensures Index(d, n) < Pow2(d + 1) - 1
  {
    if d < d' { Pow2Mono(d + 1, d'); }
    if d' < d { Pow2Mono(d' + 1, d); }
  }

  ghost function Slot(bytes: seq<bv8>, i: nat): nat
    requires i < 4 * |bytes|
  {
    (if Bitmap.Bit(bytes, 2 * i) then 2 else 0) + (if Bitmap.Bit(bytes, 2 * i + 1) then 1 else 0)
  }

  /** The first m nodes of the bitmap, in order. */
  ghost function FirstSlots(bytes: seq<bv8>, m: nat): (s: seq<nat>)
    requires m <= 4 * |bytes|
    ensures |s| == m
  {
    if m == 0 then [] else FirstSlots(bytes, m - 1) + [Slot(bytes, m - 1)]
  }

  /** All nodes of the bitmap. */
  ghost function Slots(bytes: seq<bv8>): (s: seq<nat>)
    ensures |s| == 4 * |bytes|
  {
    FirstSlots(bytes, 4 * |bytes|)
  }

  lemma {:induction false} FirstSlotsAt(bytes: seq<bv8>, m: nat, i: nat)
    requires i < m <= 4 * |bytes|
    ensures FirstSlots(bytes, m)[i] == Slot(bytes, i)
  {
    if i < m - 1 { FirstSlotsAt(bytes, m - 1, i); }
  }

  lemma SlotsAt(bytes: seq<bv8>, i: nat)
    requires i < 4 * |bytes|
    ensures Slots(bytes)[i] == Slot(bytes, i)
  {
    FirstSlotsAt(bytes, 4 * |bytes|, i);
  }

  lemma SlotsUpdated(bytes: seq<bv8>, bytes': seq<bv8>, i: nat, val: nat)
    requires |bytes| == |bytes'| && i < 4 * |bytes| && Slot(bytes', i) == val
    requires forall j :: 0 <= j < 4 * |bytes| && j != i ==> Slot(bytes', j) == Slot(bytes, j)
    ensures Slots(bytes') == Slots(bytes)[i := val]
  {
    forall j | 0 <= j < 4 * |bytes| ensures Slots(bytes')[j] == Slots(bytes)[i := val][j] {
      SlotsAt(bytes, j);
      SlotsAt(bytes', j);
    }
  }

  /** buddy_bitmap_set. */
  method BitmapSet(bitmap: array<bv8>, depth: nat, n: nat, val: nat)
    requires val < 4 && Index(depth, n) < 4 * bitmap.Length
    modifies bitmap
    ensures Slots(bitmap[..]) == old(Slots(bitmap[..]))[Index(depth, n) := val]
  {
    var a, m := 2 * Pow2(depth) - 2, n;
    if depth == 0 {
      a, m := 0, 0;
    }
    ghost var i := Index(depth, n);
    assert 2 * m + a == 2 * i;
    Bitmap.Set(bitmap, 2 * m + a, val / 2 % 2 == 1);
    Bitmap.Set(bitmap, 2 * m + a + 1, val % 2 == 1);
    SlotsUpdated(old(bitmap[..]), bitmap[..], i, val);
  }

  /** buddy_bitmap_get. */
  method BitmapGet(bitmap: array<bv8>, depth: nat, n: nat) returns (val: nat)
    requires Index(depth, n) < 4 * bitmap.Length
    ensures val == Slots(bitmap[..])[Index(depth, n)]
  {
    var a, m := 2 * Pow2(depth) - 2, n;
    if depth == 0 {
      a, m := 0, 0;
    }
    SlotsAt(bitmap[..], Index(depth, n));
    val := 0;
    var hi := Bitmap.Get(bitmap, 2 * m + a);
    var lo := Bitmap.Get(bitmap, 2 * m + a + 1);
    if hi { val := val + 2; }
    if lo { val := val + 1; }
  }

  // ----- What the bitmap means -----

  /** Node i and the `h` rows below it are marked free. */
  ghost predicate AllFree(i: nat, h: nat, s: seq<nat>)
    decreases h
  {
    && i < |s| && s[i] == FREE
    && (h > 0 ==> AllFree(2 * i + 1, h - 1, s) && AllFree(2 * i + 2, h - 1, s))
  }

  /** Node i and the `h` rows below it hold the tree `t`; everything below a free or
      used block is marked free. */
  ghost predicate Rep(t: Block, i: nat, h: nat, s: seq<nat>)
    decreases h
  {
    match t
    case Free => AllFree(i, h, s)
    case Used => i < |s| && s[i] == USED && (h > 0 ==> AllFree(2 * i + 1, h - 1, s) && AllFree(2 * i + 2, h - 1, s))
    case Split(l, r) => h > 0 && i < |s| && s[i] == SPLIT && Rep(l, 2 * i + 1, h - 1, s) && Rep(r, 2 * i + 2, h - 1, s)
  }

  /** j is i or lies below it. */
  predicate Under(j: nat, i: nat) {
    j == i || (j > i && Under((j - 1) / 2, i))
  }

  lemma {:induction false} UnderChildren(j: nat, i: nat)
    ensures Under(j, 2 * i + 1) ==> Under(j, i) && j > i
    ensures Under(j, 2 * i + 2) ==> Under(j, i) && j > i
    ensures !(Under(j, 2 * i + 1) && Under(j, 2 * i + 2))
  {
    if j > 2 * i + 1 {
      UnderChildren((j - 1) / 2, i);
    }
  }

  /** s and s' agree on node i and below. */
  ghost predicate Same(i: nat, s: seq<nat>, s': seq<nat>) {
    |s| == |s'| && forall j: nat {:trigger s[j]} {:trigger s'[j]} :: j < |s| && Under(j, i) ==> s[j] == s'[j]
  }

  lemma SameChildren(i: nat, s: seq<nat>, s': seq<nat>)
    requires Same(i, s, s')
    ensures Same(2 * i + 1, s, s') && Same(2 * i + 2, s, s')
  {
    forall j: nat | j < |s| && (Under(j, 2 * i + 1) || Under(j, 2 * i + 2)) ensures s[j] == s'[j] {
      UnderChildren(j, i);
    }
  }

  lemma {:induction false} AllFreeFrame(i: nat, h: nat, s: seq<nat>, s': seq<nat>)
    requires AllFree(i, h, s) && Same(i, s, s')
    ensures AllFree(i, h, s')
    decreases h
  {
    if h > 0 {
      SameChildren(i, s, s');
      AllFreeFrame(2 * i + 1, h - 1, s, s');
      AllFreeFrame(2 * i + 2, h - 1, s, s');
    }
  }

  lemma {:induction false} RepFrame(t: Block, i: nat, h: nat, s: seq<nat>, s': seq<nat>)
    requires Rep(t, i, h, s) && Same(i, s, s')
    ensures Rep(t, i, h, s')
    decreases h
  {
    if t.Free? {
      AllFreeFrame(i, h, s, s');
    } else if h > 0 {
      SameChildren(i, s, s');
      if t.Used? {
        AllFreeFrame(2 * i + 1, h - 1, s, s');
        AllFreeFrame(2 * i + 2, h - 1, s, s');
      } else {
        RepFrame(t.left, 2 * i + 1, h - 1, s, s');
        RepFrame(t.right, 2 * i + 2, h - 1, s, s');
      }
    }
  }

  /** The bitmap is determined by the tree: equal trees have equal bits. */
  lemma {:induction false} RepUnique(t: Block, i: nat, h: nat, s: seq<nat>, s': seq<nat>, j: nat, d: nat)
    requires Rep(t, i, h, s) && Rep(t, i, h, s') && d <= h && Down(j, i, d)
    ensures j < |s| && j < |s'| && s[j] == s'[j]
    decreases h
  {
    if d > 0 {
      var c := if Down(j, 2 * i + 1, d - 1) then 2 * i + 1 else 2 * i + 2;
      match t
      case Split(l, r) => RepUnique(if c == 2 * i + 1 then l else r, c, h - 1, s, s', j, d - 1);
      case _ => RepUnique(Free, c, h - 1, s, s', j, d - 1);
    }
  }

  /** j lies exactly d rows below i. */
  predicate Down(j: nat, i: nat, d: nat)
    decreases d
  {
    if d == 0 then j == i else Down(j, 2 * i + 1, d - 1) || Down(j, 2 * i + 2, d - 1)
  }

  // ----- One write at a time -----

  /** s and s' agree everywhere except at node i and below. */
  ghost predicate Outside(i: nat, s: seq<nat>, s': seq<nat>) {
    |s| == |s'| && forall j: nat {:trigger s[j]} {:trigger s'[j]} :: j < |s| && !Under(j, i) ==> s[j] == s'[j]
  }

  lemma OutsideChild(i: nat, c: nat, s: seq<nat>, s': seq<nat>)
    requires c == 2 * i + 1 || c == 2 * i + 2
    requires Outside(c, s, s')
    ensures Outside(i, s, s') && (i < |s| ==> s[i] == s'[i])
    ensures Same(if c == 2 * i + 1 then 2 * i + 2 else 2 * i + 1, s, s')
  {
    forall j: nat | j < |s| ensures !Under(j, i) ==> s[j] == s'[j] {
      UnderChildren(j, i);
    }
    UnderChildren(i, i);
    forall j: nat | j < |s| && Under(j, if c == 2 * i + 1 then 2 * i + 2 else 2 * i + 1) ensures s[j] == s'[j] {
      UnderChildren(j, i);
    }
  }

  /** Changing the left half of a split block leaves the right half alone, and vice versa. */
  lemma LeftChanged(l: Block, l': Block, r: Block, i: nat, h: nat, s: seq<nat>, s': seq<nat>)
    requires Rep(Split(l, r), i, h, s) && Outside(2 * i + 1, s, s') && Rep(l', 2 * i + 1, h - 1, s')
    ensures Rep(Split(l', r), i, h, s') && Outside(i, s, s')
  {
    OutsideChild(i, 2 * i + 1, s, s');
    RepFrame(r, 2 * i + 2, h - 1, s, s');
  }

  lemma RightChanged(l: Block, r: Block, r': Block, i: nat, h: nat, s: seq<nat>, s': seq<nat>)
    requires Rep(Split(l, r), i, h, s) && Outside(2 * i + 2, s, s') && Rep(r', 2 * i + 2, h - 1, s')
    ensures Rep(Split(l, r'), i, h, s') && Outside(i, s, s')
  {
    OutsideChild(i, 2 * i + 2, s, s');
    RepFrame(l, 2 * i + 1, h - 1, s, s');
  }

  /** Writing one node changes neither half below it. */
  lemma MarkKeepsHalves(i: nat, s: seq<nat>, val: nat)
    requires i < |s|
    ensures Outside(i, s, s[i := val])
    ensures Same(2 * i + 1, s, s[i := val]) && Same(2 * i + 2, s, s[i := val])
  {
    UnderChildren(i, i);
  }

  lemma MarkFreeHalves(i: nat, h: nat, s: seq<nat>, val: nat)
    requires i < |s| && (h > 0 ==> AllFree(2 * i + 1, h - 1, s) && AllFree(2 * i + 2, h - 1, s))
    ensures Outside(i, s, s[i := val])
    ensures h > 0 ==> AllFree(2 * i + 1, h - 1, s[i := val]) && AllFree(2 * i + 2, h - 1, s[i := val])
  {
    MarkKeepsHalves(i, s, val);
    if h > 0 {
      AllFreeFrame(2 * i + 1, h - 1, s, s[i := val]);
      AllFreeFrame(2 * i + 2, h - 1, s, s[i := val]);
    }
  }

  /** Marking a free block used or split, and a used or emptied block free. */
  lemma MarkUsed(i: nat, h: nat, s: seq<nat>)
    requires Rep(Free, i, h, s)
    ensures Rep(Used, i, h, s[i := USED]) && Outside(i, s, s[i := USED])
  {
    MarkFreeHalves(i, h, s, USED);
  }

  lemma MarkSplit(i: nat, h: nat, s: seq<nat>)
    requires Rep(Free, i, h, s) && h > 0
    ensures Rep(Split(Free, Free), i, h, s[i := SPLIT]) && Outside(i, s, s[i := SPLIT])
  {
    MarkFreeHalves(i, h, s, SPLIT);
    var s' := s[i := SPLIT];
    assert Rep(Free, 2 * i + 1, h - 1, s') && Rep(Free, 2 * i + 2, h - 1, s');
  }

  lemma MarkFree(t: Block, i: nat, h: nat, s: seq<nat>)
    requires Rep(t, i, h, s) && (t == Used || t == Split(Free, Free))
    ensures Rep(Free, i, h, s[i := FREE]) && Outside(i, s, s[i := FREE])
  {
    if t == Split(Free, Free) {
      assert Rep(t.left, 2 * i + 1, h - 1, s) && Rep(t.right, 2 * i + 2, h - 1, s);
    }
    MarkFreeHalves(i, h, s, FREE);
  }

  // ----- Regions -----

  class Region {
    const base: nat
    const len: nat
    const maxDepth: nat
    const bitmap: array<bv8>
    ghost const rows: nat
    ghost var tree: Block

    /** Sizes as buddy_init_region leaves them. Blocks lie on rows 0 .. maxDepth. The bytes from
        head->bitmap on are readable for one row more, because buddy_free_helper looks that far;
        `rows` says whether that extra row belongs to the zeroed bitmap. */
    ghost predicate Sized() {
      && base > 0 && len == Bytes(maxDepth) && maxDepth <= rows <= maxDepth + 1
      && 4 * bitmap.Length >= Pow2(maxDepth + 2) - 1
    }

    ghost predicate Valid()
      reads this, bitmap
    {
      Sized() && Rep(tree, 0, rows, Slots(bitmap[..])) && Merged(tree) && Fits(tree, maxDepth)
    }

    /** A region with a zeroed bitmap of `zeroed` bytes, and any bytes after it. */
    constructor (base: nat, maxDepth: nat, bitmap: array<bv8>, zeroed: nat)
      requires base > 0 && Pow2(maxDepth + 2) - 1 <= 4 * bitmap.Length
      requires zeroed <= bitmap.Length && Pow2(maxDepth + 1) - 1 <= 4 * zeroed
      requires forall k :: 0 <= k < zeroed ==> bitmap[k] == 0
      ensures Valid() && tree == Free
      ensures this.base == base && this.maxDepth == maxDepth && this.bitmap == bitmap
      ensures rows == if Pow2(maxDepth + 2) - 1 <= 4 * zeroed then maxDepth + 1 else maxDepth
    {
      this.base := base;
      this.maxDepth := maxDepth;
      this.len := Bytes(maxDepth);
      this.bitmap := bitmap;
      this.rows := if Pow2(maxDepth + 2) - 1 <= 4 * zeroed then maxDepth + 1 else maxDepth;
      tree := Free;
      ZeroIsFree(0, if Pow2(maxDepth + 2) - 1 <= 4 * zeroed then maxDepth + 1 else maxDepth, 0, bitmap[..], zeroed);
    }
  }

  lemma {:induction false} ZeroIsFree(i: nat, h: nat, depth: nat, bytes: seq<bv8>, zeroed: nat)
    requires zeroed <= |bytes| && forall k :: 0 <= k < zeroed ==> bytes[k] == 0
    requires i < Pow2(depth + 1) - 1 && Pow2(depth + h + 1) - 1 <= 4 * zeroed
    ensures AllFree(i, h, Slots(bytes))
    decreases h
  {
    Pow2Mono(depth + 1, depth + h + 1);
    SlotsAt(bytes, i);
    if h > 0 {
      ZeroIsFree(2 * i + 1, h - 1, depth + 1, bytes, zeroed);
      ZeroIsFree(2 * i + 2, h - 1, depth + 1, bytes, zeroed);
    }
  }

  /** usable_len >> depth is the length of a block on that row. */
  lemma {:induction false} RowLength(maxDepth: nat, depth: nat)
    requires depth <= maxDepth
    ensures Shr(Bytes(maxDepth), depth) == Bytes(maxDepth - depth)
    decreases depth
  {
    if depth > 0 {
      assert Bytes(maxDepth) == 2 * Bytes(maxDepth - 1);
      RowLength(maxDepth - 1, depth - 1);
    }
  }

  /** buddy_get_slab. */
  method GetSlab(r: Region, depth: nat, n: nat) returns (addr: nat)
    requires r.Sized() && depth <= r.maxDepth && (depth == 0 ==> n == 0)
    ensures addr == r.base + ExtentOf(n, r.maxDepth - depth).start
  {
    RowLength(r.maxDepth, depth);
    if depth == 0 {
      return r.base;
    }
    return r.base + n * Shr(r.len, depth);
  }

  // ----- Allocation -----

  /** Nodes from number m on are the same in both. */
  ghost predicate SameFrom(m: nat, s: seq<nat>, s': seq<nat>) {
    m <= |s| == |s'| && s[m..] == s'[m..]
  }

  /** The number of nodes on the rows that blocks lie on. */
  ghost function Nodes(maxDepth: nat): nat { Pow2(maxDepth + 1) - 1 }

  lemma NodeInTree(depth: nat, n: nat, maxDepth: nat)
    requires depth <= maxDepth && (depth == 0 || n < Pow2(depth))
    ensures Index(depth, n) < Nodes(maxDepth)
  {
    Pow2Mono(depth, maxDepth);
  }

  lemma WriteKeepsRest(m: nat, s: seq<nat>, i: nat, val: nat)
    requires i < m <= |s|
    ensures SameFrom(m, s, s[i := val])
  {}

  lemma SameFromTrans(m: nat, s: seq<nat>, s1: seq<nat>, s2: seq<nat>)
    requires SameFrom(m, s, s1) && SameFrom(m, s1, s2)
    ensures SameFrom(m, s, s2)
  {}

  /** The search does not enter this block but may try its buddy. */
  predicate Blocked(t: Block, k: nat) { t.Used? || (t.Split? && k == 0) }

  /** The call took a block out of the tree `t` at the given node: first fit, on the target
      row, with only the bits of that node and of blocks below it changed. */
  ghost predicate Took(r: Region, depth: nat, n: nat, tgt: nat, t: Block, s: seq<nat>, s': seq<nat>, addr: nat)
    requires depth <= tgt <= r.maxDepth <= r.rows
  {
    var i, k := Index(depth, n), tgt - depth;
    && CanAlloc(t, k)
    && Rep(Alloc(t, k), i, r.rows - depth, s') && Outside(i, s, s') && SameFrom(Nodes(r.maxDepth), s, s')
    && addr == r.base + ExtentOf(AllocPos(t, k, n), r.maxDepth - tgt).start
  }

  /** A node of row `depth`, or the root's missing buddy, which has the root's bits. */
  predicate OnRow(depth: nat, n: nat) { if depth == 0 then n <= 1 else n < Pow2(depth) }

  ghost predicate RepAt(r: Region, depth: nat, n: nat, t: Block, s: seq<nat>) {
    depth <= r.maxDepth <= r.rows && Rep(t, Index(depth, n), r.rows - depth, s)
  }

  /** What a call on a half means for the whole block. */
  lemma TookLeft(r: Region, depth: nat, n: nat, tgt: nat, t: Block, s: seq<nat>, s': seq<nat>, addr: nat)
    requires depth < tgt <= r.maxDepth <= r.rows && (depth == 0 ==> n == 0)
    requires t.Split? && RepAt(r, depth, n, t, s)
    requires Took(r, depth + 1, 2 * n, tgt, t.left, s, s', addr)
    ensures Took(r, depth, n, tgt, t, s, s', addr)
  {
    IndexChildren(depth, n);
    LeftChanged(t.left, Alloc(t.left, tgt - depth - 1), t.right, Index(depth, n), r.rows - depth, s, s');
  }

  lemma TookRight(r: Region, depth: nat, n: nat, tgt: nat, t: Block, s: seq<nat>, s': seq<nat>, addr: nat)
    requires depth < tgt <= r.maxDepth <= r.rows && (depth == 0 ==> n == 0)
    requires t.Split? && RepAt(r, depth, n, t, s) && !CanAlloc(t.left, tgt - depth - 1)
    requires Took(r, depth + 1, 2 * n + 1, tgt, t.right, s, s', addr)
    ensures Took(r, depth, n, tgt, t, s, s', addr)
  {
    IndexChildren(depth, n);
    RightChanged(t.left, t.right, Alloc(t.right, tgt - depth - 1), Index(depth, n), r.rows - depth, s, s');
  }

  lemma TookFree(r: Region, depth: nat, n: nat, tgt: nat, s: seq<nat>, s1: seq<nat>, s': seq<nat>, addr: nat)
    requires depth < tgt <= r.maxDepth <= r.rows && (depth == 0 ==> n == 0)
    requires RepAt(r, depth, n, Split(Free, Free), s1) && Outside(Index(depth, n), s, s1)
    requires SameFrom(Nodes(r.maxDepth), s, s1)
    requires Took(r, depth + 1, 2 * n, tgt, Free, s1, s', addr)
    ensures Took(r, depth, n, tgt, Free, s, s', addr)
  {
    TookLeft(r, depth, n, tgt, Split(Free, Free), s1, s', addr);
  }

  /** The result of a call on the tree `t` at the given node, whose buddy holds `buddy`. */
  ghost predicate Outcome(r: Region, depth: nat, n: nat, tgt: nat, t: Block, buddy: Block,
                          s: seq<nat>, s': seq<nat>, addr: nat) {
    r.maxDepth <= r.rows &&
    if depth > tgt || tgt > r.maxDepth then
      addr == 0 && s' == s
    else if CanAlloc(t, tgt - depth) then
      Took(r, depth, n, tgt, t, s, s', addr)
    else if Blocked(t, tgt - depth) && depth > 0 && n % 2 == 0 && CanAlloc(buddy, tgt - depth) then
      Took(r, depth, n + 1, tgt, buddy, s, s', addr)
    else
      addr == 0 && s' == s
  }

  /** The first of the two calls on the halves of a split block. */
  lemma SplitLeft(r: Region, depth: nat, n: nat, tgt: nat, t: Block, s: seq<nat>, s': seq<nat>, addr: nat)
    requires r.Sized() && depth < tgt <= r.maxDepth && (depth == 0 ==> n == 0)
    requires t.Split? && RepAt(r, depth, n, t, s)
    requires Outcome(r, depth + 1, 2 * n, tgt, t.left, t.right, s, s', addr)
    ensures addr != 0 ==> Took(r, depth, n, tgt, t, s, s', addr)
    ensures addr == 0 ==> !CanAlloc(t.left, tgt - depth - 1) && s' == s
  {
    if CanAlloc(t.left, tgt - depth - 1) {
      TookLeft(r, depth, n, tgt, t, s, s', addr);
    } else if addr != 0 {
      TookRight(r, depth, n, tgt, t, s, s', addr);
    }
  }

  lemma SplitRight(r: Region, depth: nat, n: nat, tgt: nat, t: Block, s: seq<nat>, s': seq<nat>, addr: nat)
    requires depth < tgt <= r.maxDepth <= r.rows && (depth == 0 ==> n == 0)
    requires t.Split? && RepAt(r, depth, n, t, s) && !CanAlloc(t.left, tgt - depth - 1)
    requires Outcome(r, depth + 1, 2 * n + 1, tgt, t.right, Free, s, s', addr)
    ensures Outcome(r, depth, n, tgt, t, Free, s, s', addr)
  {
    if CanAlloc(t.right, tgt - depth - 1) {
      TookRight(r, depth, n, tgt, t, s, s', addr);
    }
  }

  lemma TookLeaf(r: Region, depth: nat, n: nat, s: seq<nat>)
    requires RepAt(r, depth, n, Free, s) && OnRow(depth, n) && Nodes(r.maxDepth) <= |s|
    ensures Index(depth, n) < |s|
    ensures Took(r, depth, n, depth, Free, s, s[Index(depth, n) := USED],
                 r.base + ExtentOf(n, r.maxDepth - depth).start)
  {
    MarkUsed(Index(depth, n), r.rows - depth, s);
    NodeInTree(depth, n, r.maxDepth);
    WriteKeepsRest(Nodes(r.maxDepth), s, Index(depth, n), USED);
  }

  lemma RepHalves(r: Region, depth: nat, n: nat, t: Block, s: seq<nat>)
    requires RepAt(r, depth, n, t, s) && t.Split? && depth < r.maxDepth && (depth == 0 ==> n == 0)
    ensures RepAt(r, depth + 1, 2 * n, t.left, s) && RepAt(r, depth + 1, 2 * n + 1, t.right, s)
  {
    IndexChildren(depth, n);
  }

  /** The case of a free block above the target row: split it and go left. */
  method TraverseFree(r: Region, depth: nat, n: nat, tgt: nat) returns (addr: nat)
    requires r.Sized() && depth < tgt <= r.maxDepth && (depth == 0 ==> n == 0)
    requires RepAt(r, depth, n, Free, Slots(r.bitmap[..])) && OnRow(depth, n)
    modifies r.bitmap
    ensures Took(r, depth, n, tgt, Free, old(Slots(r.bitmap[..])), Slots(r.bitmap[..]), addr)
    decreases tgt + 1 - depth, 1
  {
    ghost var s := Slots(r.bitmap[..]);
    MarkSplit(Index(depth, n), r.rows - depth, s);
    NodeInTree(depth, n, r.maxDepth);
    WriteKeepsRest(Nodes(r.maxDepth), s, Index(depth, n), SPLIT);
    BitmapSet(r.bitmap, depth, n, SPLIT);
    ghost var s1 := Slots(r.bitmap[..]);
    RepHalves(r, depth, n, Split(Free, Free), s1);
    addr := Traverse(r, depth + 1, 2 * n, tgt, Free, Free);
    TookFree(r, depth, n, tgt, s, s1, Slots(r.bitmap[..]), addr);
  }

  /** The second call on a split block above the target row. */
  method TraverseRight(r: Region, depth: nat, n: nat, tgt: nat, ghost t: Block) returns (addr: nat)
    requires r.Sized() && depth < tgt <= r.maxDepth && OnRow(depth, n) && (depth == 0 ==> n == 0)
    requires t.Split? && RepAt(r, depth, n, t, Slots(r.bitmap[..])) && !CanAlloc(t.left, tgt - depth - 1)
    modifies r.bitmap
    ensures Outcome(r, depth, n, tgt, t, Free, old(Slots(r.bitmap[..])), Slots(r.bitmap[..]), addr)
    decreases tgt + 1 - depth, 1
  {
    RepHalves(r, depth, n, t, Slots(r.bitmap[..]));
    addr := Traverse(r, depth + 1, 2 * n + 1, tgt, t.right, Free);
    SplitRight(r, depth, n, tgt, t, old(Slots(r.bitmap[..])), Slots(r.bitmap[..]), addr);
  }

  /** The case of a split block above the target row: try the left half, then the right one. */
  method TraverseSplit(r: Region, depth: nat, n: nat, tgt: nat, ghost t: Block) returns (addr: nat)
    requires r.Sized() && depth < tgt <= r.maxDepth && OnRow(depth, n) && (depth == 0 ==> n == 0)
    requires t.Split? && RepAt(r, depth, n, t, Slots(r.bitmap[..]))
    modifies r.bitmap
    ensures Outcome(r, depth, n, tgt, t, Free, old(Slots(r.bitmap[..])), Slots(r.bitmap[..]), addr)
    decreases tgt + 1 - depth, 2
  {
    RepHalves(r, depth, n, t, Slots(r.bitmap[..]));
    addr := Traverse(r, depth + 1, 2 * n, tgt, t.left, t.right);
    SplitLeft(r, depth, n, tgt, t, old(Slots(r.bitmap[..])), Slots(r.bitmap[..]), addr);
    if addr == 0 {
      addr := TraverseRight(r, depth, n, tgt, t);
    }
  }

  /** What the two bits of a node say about its tree. */
  lemma ReadMark(r: Region, depth: nat, n: nat, t: Block, s: seq<nat>)
    requires RepAt(r, depth, n, t, s)
    ensures Index(depth, n) < |s|
    ensures s[Index(depth, n)] == (match t case Free => FREE case Used => USED case Split(_, _) => SPLIT)
  {}

  /** A free block on the target row is marked used. */
  method TakeLeaf(r: Region, depth: nat, n: nat) returns (addr: nat)
    requires r.Sized() && RepAt(r, depth, n, Free, Slots(r.bitmap[..])) && OnRow(depth, n) && (depth == 0 ==> n == 0)
    modifies r.bitmap
    ensures Took(r, depth, n, depth, Free, old(Slots(r.bitmap[..])), Slots(r.bitmap[..]), addr)
  {
    TookLeaf(r, depth, n, Slots(r.bitmap[..]));
    BitmapSet(r.bitmap, depth, n, USED);
    addr := GetSlab(r, depth, n);
  }

  lemma HopToBuddy(r: Region, depth: nat, n: nat, tgt: nat, t: Block, buddy: Block,
                   s: seq<nat>, s': seq<nat>, addr: nat)
    requires depth <= tgt <= r.maxDepth && n % 2 == 0 && Blocked(t, tgt - depth)
    requires Outcome(r, depth, n + 1, tgt, if depth == 0 then t else buddy, Free, s, s', addr)
    ensures Outcome(r, depth, n, tgt, t, buddy, s, s', addr)
  {}

  /** A node that may be entered: not the right child of the root's missing parent. */
  ghost predicate Callable(r: Region, depth: nat, n: nat, tgt: nat, t: Block, buddy: Block, s: seq<nat>) {
    depth <= tgt <= r.maxDepth ==>
      && RepAt(r, depth, n, t, s) && OnRow(depth, n)
      && (depth > 0 && n % 2 == 0 ==> RepAt(r, depth, n + 1, buddy, s))
      && (depth == 0 ==> n == 0 || (n == 1 && Blocked(t, tgt)))
  }

  /** buddy_alloc_traverse. A left half that is used, or split on the target row, passes
      the search on to its buddy. */
  method Traverse(r: Region, depth: nat, n: nat, tgt: nat, ghost t: Block, ghost buddy: Block) returns (addr: nat)
    requires r.Sized() && Callable(r, depth, n, tgt, t, buddy, Slots(r.bitmap[..]))
    modifies r.bitmap
    ensures Outcome(r, depth, n, tgt, t, buddy, old(Slots(r.bitmap[..])), Slots(r.bitmap[..]), addr)
    decreases if depth <= tgt then tgt + 1 - depth else 0, 4 - n % 2
  {
    addr := 0;
    if depth > tgt {
      return;
    }
    if tgt > r.maxDepth {
      return;
    }
    ReadMark(r, depth, n, t, Slots(r.bitmap[..]));
    var val := BitmapGet(r.bitmap, depth, n);
    if val == USED || (val == SPLIT && depth == tgt) {
      if n % 2 == 1 {
        return;
      }
      addr := Traverse(r, depth, n + 1, tgt, if depth == 0 then t else buddy, Free);
      HopToBuddy(r, depth, n, tgt, t, buddy, old(Slots(r.bitmap[..])), Slots(r.bitmap[..]), addr);
    } else if val == SPLIT {
      addr := TraverseSplit(r, depth, n, tgt, t);
    } else if val == FREE {
      if depth == tgt {
        addr := TakeLeaf(r, depth, n);
      } else {
        addr := TraverseFree(r, depth, n, tgt);
      }
    }
  }

  /** log2 of lib/math.c: the position of the highest set bit. */
  function Log2(n: nat): (j: nat)
    requires n > 0
    ensures Pow2(j) <= n < Pow2(j + 1)
  {
    if n == 1 then 0 else Log2(n / 2) + 1
  }

  /** A search from the root for a block on row `tgt`. */
  method AllocRow(r: Region, tgt: nat) returns (addr: nat)
    requires r.Valid()
    modifies r, r.bitmap
    ensures r.Valid()
    ensures addr == 0 <==> tgt > r.maxDepth || !CanAlloc(old(r.tree), tgt)
    ensures addr == 0 ==> r.tree == old(r.tree) && Slots(r.bitmap[..]) == old(Slots(r.bitmap[..]))
    ensures addr != 0 ==>
              && r.tree == Alloc(old(r.tree), tgt)
              && addr == r.base + ExtentOf(AllocPos(old(r.tree), tgt, 0), r.maxDepth - tgt).start
    ensures SameFrom(Nodes(r.maxDepth), old(Slots(r.bitmap[..])), Slots(r.bitmap[..]))
  {
    addr := Traverse(r, 0, 0, tgt, r.tree, Free);
    if addr != 0 {
      AllocMerged(r.tree, tgt);
      AllocFits(r.tree, tgt, r.maxDepth);
      r.tree := Alloc(r.tree, tgt);
    }
  }

  /** The row on which buddy_alloc_helper looks; size_t arithmetic wraps around. */
  function TargetRow(maxDepth: nat, size: nat): nat
    requires size >= PAGE
  {
    (WORD + maxDepth - Log2(size / PAGE)) % WORD
  }

  lemma TargetRowLength(maxDepth: nat, size: nat)
    requires PAGE <= size < WORD && maxDepth < 64
    ensures Log2(size / PAGE) <= maxDepth ==> TargetRow(maxDepth, size) == maxDepth - Log2(size / PAGE)
    ensures Log2(size / PAGE) > maxDepth ==> TargetRow(maxDepth, size) > maxDepth
  {
    Log2Small(size / PAGE);
  }

  /** buddy_alloc_helper. The requested number of bytes should be a power of two; the code only warns. */
  method AllocHelper(r: Region, size: nat) returns (addr: nat)
    requires r.Valid() && size < WORD && r.maxDepth < 64
    modifies r, r.bitmap
    ensures r.Valid()
    ensures size < PAGE || Log2(size / PAGE) > r.maxDepth ==> addr == 0
    ensures addr == 0 ==> r.tree == old(r.tree) && Slots(r.bitmap[..]) == old(Slots(r.bitmap[..]))
    ensures size >= PAGE && Log2(size / PAGE) <= r.maxDepth ==>
              var j := Log2(size / PAGE);
              && (addr == 0 <==> !CanAlloc(old(r.tree), r.maxDepth - j))
              && (addr != 0 ==>
                    && r.tree == Alloc(old(r.tree), r.maxDepth - j)
                    && addr == r.base + ExtentOf(AllocPos(old(r.tree), r.maxDepth - j, 0), j).start)
    ensures SameFrom(Nodes(r.maxDepth), old(Slots(r.bitmap[..])), Slots(r.bitmap[..]))
  {
    if size < PAGE {
      return 0;
    }
    TargetRowLength(r.maxDepth, size);
    addr := AllocRow(r, TargetRow(r.maxDepth, size));
  }

  lemma WordIsPow2()
    ensures Pow2(64) == WORD
  {
    assert Pow2(8) == 256;
    Pow2Add(8, 8);
    Pow2Add(16, 16);
    Pow2Add(32, 32);
  }

  lemma Log2Small(n: nat)
    requires 0 < n < WORD
    ensures Log2(n) < 64
  {
    WordIsPow2();
    if Log2(n) >= 64 { Pow2Mono(64, Log2(n)); }
  }

  /** The granted block covers the request exactly when the request is a power of two of pages;
      otherwise it is too small. */
  lemma GrantedSize(size: nat)
    requires size >= PAGE
    ensures Bytes(Log2(size / PAGE)) <= size < 2 * Bytes(Log2(size / PAGE))
    ensures Bytes(Log2(size / PAGE)) >= size <==> exists j :: size == Bytes(j)
  {
    var j := Log2(size / PAGE);
    assert Pow2(j + 1) == 2 * Pow2(j);
    forall i: nat | size == Bytes(i) ensures i == j {
      assert size / PAGE == Pow2(i);
      if i < j { Pow2Mono(i + 1, j); }
      if j < i { Pow2Mono(j + 1, i); }
    }
    assert Bytes(j) >= size ==> size == Bytes(j);
  }

  // ----- Release -----

  /** The number of the node in the hole. */
  function Hole(c: Ctx): nat {
    if c.Top? then 0 else 2 * Hole(c.up) + (if c.right then 2 else 1)
  }

  function BuddyOf(c: Ctx): nat
    requires c.In?
  {
    2 * Hole(c.up) + (if c.right then 1 else 2)
  }

  lemma {:induction false} HoleIndex(c: Ctx)
    ensures Hole(c) == Index(Depth(c), Pos(c)) && (c.Top? ==> Pos(c) == 0) && Pos(c) < Pow2(Depth(c))
  {
    if c.In? {
      HoleIndex(c.up);
      IndexChildren(Depth(c.up), Pos(c.up));
    }
  }

  /** The bitmap holds everything outside the hole, which has `h` rows below it. */
  ghost predicate RepCtx(c: Ctx, h: nat, s: seq<nat>)
    decreases c
  {
    c.In? ==>
      && Hole(c.up) < |s| && s[Hole(c.up)] == SPLIT
      && Rep(c.buddy, BuddyOf(c), h, s)
      && RepCtx(c.up, h + 1, s)
  }

  lemma {:induction false} RepPlug(c: Ctx, t: Block, h: nat, s: seq<nat>)
    ensures Rep(Plug(c, t), 0, Depth(c) + h, s) <==> Rep(t, Hole(c), h, s) && RepCtx(c, h, s)
    decreases c
  {
    if c.In? {
      RepPlug(c.up, Pair(c.right, t, c.buddy), h + 1, s);
    }
  }

  /** Changes in the hole do not reach the rest. */
  lemma {:induction false} RepCtxFrame(c: Ctx, h: nat, s: seq<nat>, s': seq<nat>)
    requires RepCtx(c, h, s) && Outside(Hole(c), s, s')
    ensures RepCtx(c, h, s')
    decreases c
  {
    if c.In? {
      OutsideChild(Hole(c.up), Hole(c), s, s');
      RepFrame(c.buddy, BuddyOf(c), h, s, s');
      RepCtxFrame(c.up, h + 1, s, s');
    }
  }

  /** The byte at offset `off` of the block lies in a used block. */
  predicate InUsed(t: Block, off: nat, h: nat) {
    match t
    case Free => false
    case Used => off < Bytes(h)
    case Split(l, r) =>
      h > 0 && if off < Bytes(h - 1) then InUsed(l, off, h - 1) else InUsed(r, off - Bytes(h - 1), h - 1)
  }

  ghost predicate InLive(t: Block, n: nat, h: nat, addr: nat)
    requires Fits(t, h)
  {
    exists e :: e in Live(t, n, h) && BuddyTree.Holds(e, addr)
  }

  /** The same, in terms of live blocks. */
  lemma {:induction false} InUsedIsLive(t: Block, off: nat, n: nat, h: nat, addr: nat)
    requires Fits(t, h) && off < Bytes(h) && addr == ExtentOf(n, h).start + off
    ensures InUsed(t, off, h) <==> InLive(t, n, h, addr)
  {
    match t
    case Free =>
    case Used => assert BuddyTree.Holds(ExtentOf(n, h), addr);
    case Split(l, r) =>
      Halves(n, h);
      LiveWithin(l, 2 * n, h - 1);
      LiveWithin(r, 2 * n + 1, h - 1);
      assert InLive(t, n, h, addr) <==> InLive(l, 2 * n, h - 1, addr) || InLive(r, 2 * n + 1, h - 1, addr);
      if off < Bytes(h - 1) {
        InUsedIsLive(l, off, 2 * n, h - 1, addr);
      } else {
        InUsedIsLive(r, off - Bytes(h - 1), 2 * n + 1, h - 1, addr);
      }
  }
}
