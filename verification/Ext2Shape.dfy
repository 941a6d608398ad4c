/** The block map of an ext2 file: which disk block holds which logical block. */
module Ext2Shape {
  import opened Common
  import opened Radix

  const N_DIRECT: nat := 12
  const N_BLOCKS: nat := 15
  const U32: nat := 0x1_0000_0000

  // ----- Index formulas -----

  function Div(a: nat, n: nat): nat
    requires n > 0
  {
    a / n
  }

  function Wrap32(a: nat): nat { a % U32 }

  /** ext2_get_block_idx with n entries per block: the slots to follow, the first one in the inode.
      None stands for n_indirs == -1. The limits are computed in 32 bits. */
  function BlockIdx(n: nat, block: nat): Option<seq<nat>>
    requires 0 < n < 65536
  {
    var limitIndirect := N_DIRECT + n;
    var limitDindirect := limitIndirect + n * n;
    var limit := Wrap32(limitDindirect + (n * n * n + n * n + n));
    if block < N_DIRECT then Some([block])
    else if block < limitIndirect then Some([N_DIRECT, block - N_DIRECT])
    else if block < limitDindirect then Some([N_DIRECT + 1, Div(block - N_DIRECT, n), (block - N_DIRECT) % n])
    else if block < limit then
      var b := block - (N_DIRECT + n * n);
      Some([N_DIRECT + 2, Div(Div(b, n), n), Div(b, n) % n, b % n])
    else None
  }

  /** Levels of indirection below a slot of the inode. */
  function RootHeight(i: nat): nat { if i < N_DIRECT then 0 else i - N_DIRECT + 1 }

  /** A path that ends at a data block and stays inside every table. */
  predicate DataPath(n: nat, p: seq<nat>) {
    && 0 < |p| && p[0] < N_BLOCKS && |p| == RootHeight(p[0]) + 1
    && forall i :: 0 < i < |p| ==> p[i] < n
  }

  /** The double and triple formulas leave their tables for the last part of their ranges. */
  lemma InTableExactly(n: nat, block: nat)
    requires 0 < n < 65536 && BlockIdx(n, block).Some?
    ensures DataPath(n, BlockIdx(n, block).value) <==>
              || block < N_DIRECT + n
              || (block < N_DIRECT + n + n * n && block - N_DIRECT < n * n)
              || (block >= N_DIRECT + n + n * n && block - N_DIRECT - n * n < n * n * n)
  {
    var p := BlockIdx(n, block).value;
    if N_DIRECT + n <= block < N_DIRECT + n + n * n {
      DivBelow(block - N_DIRECT, n, n);
      assert p[1] < n <==> block - N_DIRECT < n * n;
    } else if block >= N_DIRECT + n + n * n {
      var b := block - (N_DIRECT + n * n);
      DivBelow(b / n, n, n);
      DivBelow(b, n, n * n);
      assert n * n * n == (n * n) * n;
      assert p[1] < n <==> b < n * n * n;
    }
  }

  lemma DivBelow(a: nat, n: nat, m: nat)
    requires n > 0
    ensures a / n < m <==> a < m * n
  {
    assert a == n * (a / n) + a % n;
    if a / n < m {
      assert n * (a / n) <= n * (m - 1);
    } else {
      assert n * (a / n) >= n * m;
    }
  }

  /** The number that the slots after the first one spell in base n. */
  function Digits(n: nat, p: seq<nat>): nat {
    if |p| <= 1 then 0 else Digits(n, p[..|p| - 1]) * n + p[|p| - 1]
  }

  /** The logical block that a path stands for: direct blocks by their slot; behind each level of indirection blocks
      in the order of their slots, from 12 on for one and two levels and from 12 + n^2 on for three. */
  function BlockOf(n: nat, p: seq<nat>): nat
    requires p != []
  {
    if p[0] < N_DIRECT then p[0]
    else N_DIRECT + (if p[0] == N_DIRECT + 2 then n * n else 0) + Digits(n, p)
  }

  lemma DivMod(a: nat, n: nat)
    requires n > 0
    ensures a == Div(a, n) * n + a % n
  {}

  lemma DigitsOfTwo(n: nat, h: nat, a: nat)
    ensures Digits(n, [h, a]) == a
  {
    assert [h, a][..1] == [h];
    assert Digits(n, [h]) == 0;
  }

  lemma DigitsOfThree(n: nat, h: nat, a: nat, b: nat)
    ensures Digits(n, [h, a, b]) == a * n + b
  {
    assert [h, a, b][..2] == [h, a];
    DigitsOfTwo(n, h, a);
  }

  lemma DigitsOfFour(n: nat, h: nat, a: nat, b: nat, c: nat)
    ensures Digits(n, [h, a, b, c]) == (a * n + b) * n + c
  {
    assert [h, a, b, c][..3] == [h, a, b];
    DigitsOfThree(n, h, a, b);
  }

  /** The levels of indirection to the block. */
  function Levels(n: nat, block: nat): nat {
    if block < N_DIRECT then 0 else if block < N_DIRECT + n then 1 else if block < N_DIRECT + n + n * n then 2 else 3
  }

  /** The computed path stands for the block, has its levels, and only the first slot behind the inode may lie outside
      its table. */
  lemma BlockIdxSpells(n: nat, block: nat)
    requires 0 < n < 65536 && BlockIdx(n, block).Some?
    ensures var p := BlockIdx(n, block).value;
            && |p| == Levels(n, block) + 1 && p[0] < N_BLOCKS && RootHeight(p[0]) == Levels(n, block)
            && BlockOf(n, p) == block && forall i :: 1 < i < |p| ==> p[i] < n
  {
    var p := BlockIdx(n, block).value;
    if N_DIRECT <= block < N_DIRECT + n {
      DigitsOfTwo(n, p[0], p[1]);
    } else if N_DIRECT + n <= block < N_DIRECT + n + n * n {
      DivMod(block - N_DIRECT, n);
      DigitsOfThree(n, p[0], p[1], p[2]);
    } else if block >= N_DIRECT + n + n * n {
      var b := block - (N_DIRECT + n * n);
      DivMod(b, n);
      DivMod(Div(b, n), n);
      DigitsOfFour(n, p[0], p[1], p[2], p[3]);
    }
  }

  /** With at most 1024 words in a block the limit does not wrap around, and no larger block has a path. */
  lemma NoPathExactly(n: nat, block: nat)
    requires 0 < n <= 1024
    ensures BlockIdx(n, block).None? <==> block >= N_DIRECT + 2 * n + 2 * (n * n) + n * n * n
  {
    Squares(n, 1024);
    BehindLimits(n, block, n * n, n * n * n);
    SumBelow(n, n * n, n * n * n);
  }

  lemma BehindLimits(n: nat, block: nat, q: nat, c: nat)
    requires 0 < n < 65536 && q == n * n && c == n * n * n
    ensures BlockIdx(n, block).None? <==> block >= N_DIRECT + n + q && block >= Wrap32(N_DIRECT + n + q + (c + q + n))
  {}

  lemma SumBelow(n: nat, q: nat, c: nat)
    requires n <= 1024 && q <= 1048576 && c <= 1073741824
    ensures Wrap32(N_DIRECT + n + q + (c + q + n)) == N_DIRECT + 2 * n + 2 * q + c
  {
    NoWrap(N_DIRECT + n + q + (c + q + n));
  }

  lemma NoWrap(a: nat)
    requires a < U32
    ensures Wrap32(a) == a
  {}

  lemma Squares(n: nat, m: nat)
    requires n <= m
    ensures n * n <= m * m && n * n * n <= m * m * m
  {
    Products(n, m, n, m);
    Products(n * n, m * m, n, m);
  }

  lemma Products(a: nat, b: nat, c: nat, d: nat)
    requires a <= b && c <= d
    ensures a * c <= b * d
  {
    assert a * c <= a * d;
    assert a * d <= b * d;
  }

  /** Different logical blocks have different paths. */
  lemma BlockIdxInjective(n: nat, b: nat, c: nat)
    requires 0 < n < 65536 && BlockIdx(n, b).Some? && BlockIdx(n, b) == BlockIdx(n, c)
    ensures b == c
  {
    BlockIdxSpells(n, b);
    BlockIdxSpells(n, c);
  }

  /** The logical block that a path stands for in the ext2 format: each level of indirection goes on where the one
      before it ends. */
  function StandardBlockOf(n: nat, p: seq<nat>): nat
    requires p != []
  {
    if p[0] < N_DIRECT then p[0]
    else if p[0] == N_DIRECT then N_DIRECT + Digits(n, p)
    else if p[0] == N_DIRECT + 1 then N_DIRECT + n + Digits(n, p)
    else N_DIRECT + n + n * n + Digits(n, p)
  }

  /** The computed path is the one of the ext2 format exactly for direct and singly indirect blocks; all others are
      n blocks off. */
  lemma StandardExactly(n: nat, block: nat)
    requires 0 < n < 65536 && BlockIdx(n, block).Some?
    ensures var p := BlockIdx(n, block).value;
            p != [] && StandardBlockOf(n, p) == if block < N_DIRECT + n then block else block + n
  {
    BlockIdxSpells(n, block);
  }

  // ----- Inode, disk, and the tree they form -----

  /** A block is n words; the inode is node 0 of the tree, since no block has number 0. */
  type Disk = map<nat, seq<nat>>

  const INODE: nat := 0

  /** `height` gives the levels of indirection below each block of the file: 0 for data. */
  datatype File = File(n: nat, ino: seq<nat>, disk: Disk, height: map<nat, nat>, edges: Edges)

  ghost predicate LinkSlot(f: File, b: nat, i: nat) {
    if b == INODE then i < N_BLOCKS else b in f.height && f.height[b] > 0 && i < f.n
  }

  /** The word in slot i of the inode or of a pointer block; 0 means no block. */
  ghost function Word(f: File, b: nat, i: nat): nat
    requires LinkSlot(f, b, i) && |f.ino| == N_BLOCKS
    requires b != INODE ==> b in f.disk && |f.disk[b]| == f.n
  {
    if b == INODE then f.ino[i] else f.disk[b][i]
  }

  ghost function ChildHeight(f: File, b: nat, i: nat): nat
    requires LinkSlot(f, b, i)
  {
    if b == INODE then RootHeight(i) else f.height[b] - 1
  }

  ghost predicate Linked(f: File, b: nat, i: nat)
    requires LinkSlot(f, b, i) && |f.ino| == N_BLOCKS
    requires b != INODE ==> b in f.disk && |f.disk[b]| == f.n
  {
    && ((b, i) in f.edges <==> Word(f, b, i) != 0)
    && ((b, i) in f.edges ==> f.edges[(b, i)] == Word(f, b, i))
  }

  /** The blocks of the file hang below the inode as a tree. */
  ghost predicate Shaped(f: File) {
    && 0 < f.n < 65536 && |f.ino| == N_BLOCKS
    && (forall b :: b in f.height ==> b != INODE && b in f.disk && |f.disk[b]| == f.n)
    && (forall k :: k in f.edges ==>
          LinkSlot(f, k.0, k.1) && f.edges[k] in f.height && f.height[f.edges[k]] == ChildHeight(f, k.0, k.1))
    && (forall b: nat, i: nat :: LinkSlot(f, b, i) ==> Linked(f, b, i))
    && TreeShaped(f.edges, INODE)
  }

  ghost function BlockAt(f: File, p: seq<nat>): Option<nat> { Walk(f.edges, INODE, p) }

  /** The data that a path leads to. */
  ghost function Data(f: File, p: seq<nat>): Option<seq<nat>> {
    var b := BlockAt(f, p);
    if b.Some? && b.value in f.disk then Some(f.disk[b.value]) else None
  }

  lemma {:induction false} WalkHeight(f: File, p: seq<nat>)
    requires Shaped(f) && p != [] && BlockAt(f, p).Some?
    ensures BlockAt(f, p).value in f.height
    ensures p[0] < N_BLOCKS && f.height[BlockAt(f, p).value] == RootHeight(p[0]) - (|p| - 1)
  {
    if |p| > 1 {
      WalkHeight(f, p[..|p| - 1]);
    } else {
      WalkSnoc(f.edges, INODE, [], p[0]);
      assert [] + [p[0]] == p;
    }
  }

  /** A path to a data block ends at height 0. */
  lemma DataHeight(f: File, p: seq<nat>)
    requires Shaped(f) && DataPath(f.n, p) && BlockAt(f, p).Some?
    ensures BlockAt(f, p).value in f.height && f.height[BlockAt(f, p).value] == 0
  {
    WalkHeight(f, p);
  }

  // ----- A new block in an empty slot -----

  function Zeros(n: nat): (z: seq<nat>)
    ensures |z| == n && forall i :: 0 <= i < n ==> z[i] == 0
  {
    seq(n, i => 0)
  }

  ghost predicate NewBlock(f: File, b: nat, i: nat, g: nat) {
    Shaped(f) && LinkSlot(f, b, i) && Word(f, b, i) == 0 && g != INODE && g !in f.height
  }

  ghost function WithBlock(f: File, b: nat, i: nat, g: nat): File
    requires NewBlock(f, b, i, g)
  {
    var disk := f.disk[g := Zeros(f.n)];
    File(f.n, if b == INODE then f.ino[i := g] else f.ino,
         if b == INODE then disk else disk[b := disk[b][i := g]],
         f.height[g := ChildHeight(f, b, i)], f.edges[(b, i) := g])
  }

  lemma NewBlockFresh(f: File, b: nat, i: nat, g: nat)
    requires NewBlock(f, b, i, g)
    ensures Fresh(f.edges, INODE, g) && (b, i) !in f.edges && b != g
  {
    assert Linked(f, b, i);
  }

  lemma NewBlockShape(f: File, b: nat, i: nat, g: nat)
    requires NewBlock(f, b, i, g)
    ensures Shaped(WithBlock(f, b, i, g))
  {
    NewBlockFresh(f, b, i, g);
    AddKeepsShape(f.edges, INODE, b, i, g);
    var f' := WithBlock(f, b, i, g);
    forall c: nat, j: nat | LinkSlot(f', c, j) ensures Linked(f', c, j) {
      if c != g { assert LinkSlot(f, c, j) && Linked(f, c, j); }
    }
    forall k | k in f'.edges
      ensures LinkSlot(f', k.0, k.1) && f'.edges[k] in f'.height && f'.height[f'.edges[k]] == ChildHeight(f', k.0, k.1)
    {}
  }

  /** Every data path keeps its block and its data, except one that was missing and now
      leads to the zeroed new block. */
  lemma NewBlockData(f: File, b: nat, i: nat, g: nat, p: seq<nat>, q: seq<nat>)
    requires NewBlock(f, b, i, g) && BlockAt(f, p) == Some(b) && DataPath(f.n, q)
    ensures var f' := WithBlock(f, b, i, g);
            if q == p + [i] then Data(f, q) == None && Data(f', q) == Some(Zeros(f.n))
            else Data(f', q) == Data(f, q)
  {
    NewBlockFresh(f, b, i, g);
    WalkAdd(f.edges, INODE, b, i, g, q);
    var q0 := q[..|q| - 1];
    assert q == q0 + [q[|q| - 1]];
    if BlockAt(f, q0) == Some(b) { UniquePath(f.edges, INODE, q0, p); }
    if q == p + [i] { assert q0 == p; }
    if BlockAt(f, q).Some? { DataHeight(f, q); }
  }

  // ----- Writing a data block -----

  lemma WriteDataShape(f: File, d: nat, buf: seq<nat>)
    requires Shaped(f) && d in f.height && f.height[d] == 0 && |buf| == f.n
    ensures Shaped(f.(disk := f.disk[d := buf]))
  {
    var f' := f.(disk := f.disk[d := buf]);
    forall c: nat, j: nat | LinkSlot(f', c, j) ensures Linked(f', c, j) {
      assert LinkSlot(f, c, j) && Linked(f, c, j);
    }
  }

  /** Writing the block of one path changes the data of that path alone. */
  lemma WriteDataReads(f: File, p: seq<nat>, d: nat, buf: seq<nat>, q: seq<nat>)
    requires Shaped(f) && BlockAt(f, p) == Some(d)
    ensures Data(f.(disk := f.disk[d := buf]), q) == if q == p then Some(buf) else Data(f, q)
  {
    if BlockAt(f, q) == Some(d) { UniquePath(f.edges, INODE, p, q); }
  }
}
