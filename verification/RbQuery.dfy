/** The read-only operations of lib/rbtree.c: search, minimum, successor, next free key, range overlap. */
module RbQuery {
  import opened Common
  import opened Powers
  import opened RbShape
  import opened RbHeap
  import opened RbFixup
  import opened RbInsert

  // ----- Height of a balanced tree -----

  /** Black counts bound the height from above and the size from below. */
  lemma {:induction false} HeightByBlacks(t: Tree)
    requires Balanced(t) && NoRedRed(t)
    ensures Height(t) <= 2 * Blacks(t) + (if IsRed(t) then 1 else 0)
    ensures Pow2(Blacks(t)) <= |Inorder(t)| + 1
  {
    if t.Node? {
      HeightByBlacks(t.left);
      HeightByBlacks(t.right);
    }
  }

  /** The height is at most 2 * log2(n + 1), written without a logarithm. */
  lemma HeightBound(t: Tree)
    requires Balanced(t) && NoRedRed(t) && !IsRed(t)
    ensures Pow2(Height(t)) <= (|Inorder(t)| + 1) * (|Inorder(t)| + 1)
  {
    HeightByBlacks(t);
    var b, n := Blacks(t), |Inorder(t)| + 1;
    Pow2Mono(Height(t), 2 * b);
    Pow2Add(b, b);
    SquareMono(Pow2(b), n);
  }

  /** `v` is at most 2 * log2(n + 1). */
  predicate WithinLog(v: nat, n: nat) { Pow2(v) <= (n + 1) * (n + 1) }

  lemma PathBound(t: Tree, visited: nat)
    requires visited <= Height(t) && Balanced(t) && NoRedRed(t) && !IsRed(t)
    ensures WithinLog(visited, |Inorder(t)|)
  {
    HeightBound(t);
    Pow2Mono(visited, Height(t));
  }

  lemma SquareMono(a: nat, b: nat)
    requires a <= b
    ensures a * a <= b * b
  {}

  // ----- Search -----

  /** rbt_search. `visited` counts the nodes the loop looks at. */
  method Search(tree: RbTree, key: Key) returns (node: RbNode?, ghost visited: nat)
    requires tree.Linked() && Sorted(tree.Entries())
    ensures node == null <==> !HasKey(tree.Entries(), key)
    ensures node != null ==> Entry(node, key) in tree.Entries()
    ensures Balanced(tree.shape) && Searchable(tree.shape) ==> WithinLog(visited, |tree.Entries()|)
  {
    node := tree.root;
    visited := 0;
    ghost var c, t := Top, tree.shape;
    Focus(tree, c, t);
    while node != null
      invariant tree.At(c, t) && node == Root(t) && Between(c, key)
      invariant visited + Height(t) <= Height(tree.shape)
      decreases t
    {
      visited := visited + 1;
      if key < node.key {
        Narrow(c, t, key, L);
        FocusMoves(tree, c, t, Down(c, t, L), t.left);
        node := node.left;
        c, t := Down(c, t, L), t.left;
      } else if key > node.key {
        Narrow(c, t, key, R);
        FocusMoves(tree, c, t, Down(c, t, R), t.right);
        node := node.right;
        c, t := Down(c, t, R), t.right;
      } else {
        RankEntry(c, t);
        break;
      }
    }
    if t == Leaf { MissingKey(c, key); }
    if Balanced(tree.shape) && Searchable(tree.shape) { PathBound(tree.shape, visited); }
  }

  // ----- Minimum and successor -----

  /** The position of the root of `t` among all entries. */
  ghost function Rank(c: Ctx, t: Tree): nat
    requires t.Node?
  {
    |Before(c)| + |Inorder(t.left)|
  }

  lemma RankEntry(c: Ctx, t: Tree)
    requires t.Node?
    ensures Rank(c, t) < |Inorder(Plug(c, t))| && Inorder(Plug(c, t))[Rank(c, t)] == Entry(t.n, t.key)
  {
    InorderPlug(c, t);
  }

  /** Every entry is the root of a subtree at its own position. */
  lemma {:induction false} Locate(c: Ctx, t: Tree, i: nat) returns (c': Ctx, t': Tree)
    requires |Before(c)| <= i < |Before(c)| + |Inorder(t)|
    ensures Plug(c', t') == Plug(c, t) && t'.Node? && Rank(c', t') == i
    decreases t
  {
    if i < Rank(c, t) {
      c', t' := Locate(Down(c, t, L), t.left, i);
    } else if i == Rank(c, t) {
      c', t' := c, t;
    } else {
      c', t' := Locate(Down(c, t, R), t.right, i);
    }
  }

  /** The leftmost subtree of `t`, and the context of that subtree. */
  function MinTree(t: Tree): (m: Tree)
    requires t.Node?
    ensures m.Node? && m.left == Leaf
  {
    if t.left == Leaf then t else MinTree(t.left)
  }

  function MinCtx(c: Ctx, t: Tree): Ctx
    requires t.Node?
    decreases t
  {
    if t.left == Leaf then c else MinCtx(Down(c, t, L), t.left)
  }

  lemma {:induction false} MinZipper(c: Ctx, t: Tree)
    requires t.Node?
    ensures Plug(MinCtx(c, t), MinTree(t)) == Plug(c, t)
    ensures Before(MinCtx(c, t)) == Before(c)
    decreases t
  {
    if t.left != Leaf { MinZipper(Down(c, t, L), t.left); }
  }

  /** rbt_minimum: the leftmost node of a subtree. */
  method Minimum(tree: RbTree, node: RbNode, ghost c: Ctx, ghost t: Tree) returns (min: RbNode)
    requires tree.At(c, t) && t.Node? && t.n == node
    ensures min == MinTree(t).n && tree.At(MinCtx(c, t), MinTree(t))
    ensures Before(MinCtx(c, t)) == Before(c)
  {
    min := node;
    MinZipper(c, t);
    ghost var d, s := c, t;
    while min.left != null
      invariant tree.At(d, s) && s.Node? && s.n == min
      invariant MinTree(s) == MinTree(t) && MinCtx(d, s) == MinCtx(c, t)
      decreases s
    {
      FocusMoves(tree, d, s, Down(d, s, L), s.left);
      min := min.left;
      d, s := Down(d, s, L), s.left;
    }
  }

  /** rbt_successor: the node with the next larger key. */
  method Successor(tree: RbTree, node: RbNode, ghost i: nat) returns (next: RbNode?)
    requires tree.Linked()
    requires i < |tree.Entries()| && tree.Entries()[i].n == node
    ensures next == if i + 1 < |tree.Entries()| then tree.Entries()[i + 1].n else null
  {
    ghost var c, t := Locate(Top, tree.shape, i);
    Focus(tree, c, t);
    RankEntry(c, t);
    InorderPlug(c, t);
    if node.right != null {
      FocusMoves(tree, c, t, Down(c, t, R), t.right);
      next := Minimum(tree, node.right, Down(c, t, R), t.right);
      RankEntry(MinCtx(Down(c, t, R), t.right), MinTree(t.right));
      return;
    }
    next := Climb(tree, node, c, t);
    assert tree.Entries()[i + 1..] == After(c);
    assert After(c) != [] ==> tree.Entries()[i + 1..][0] == tree.Entries()[i + 1];
  }

  /** The loop of rbt_successor: climb until the node is a left child. */
  method Climb(tree: RbTree, node: RbNode, ghost c0: Ctx, ghost t0: Tree) returns (next: RbNode?)
    requires tree.At(c0, t0) && t0.Node? && t0.n == node
    ensures next == if After(c0) != [] then After(c0)[0].n else null
  {
    var child := node;
    next := node.parent;
    ghost var c, t := c0, t0;
    Surroundings(tree, c, t);
    while next != null && child == next.right
      invariant tree.At(c, t) && t.Node? && t.n == child && next == Parent(c) && After(c) == After(c0)
      invariant next != null ==> (child == next.right) == (c.side == R)
      decreases c
    {
      FocusMoves(tree, c, t, c.up, ParentTree(c, t));
      child := next;
      next := next.parent;
      c, t := c.up, ParentTree(c, t);
      Surroundings(tree, c, t);
    }
  }

  /** What an entry says about the heap. */
  lemma EntryCell(tree: RbTree, i: nat)
    requires tree.Linked() && i < |tree.Entries()|
    ensures tree.Entries()[i].n in tree.repr && tree.Entries()[i].n.key == tree.Entries()[i].key
  {
    var c, t := Locate(Top, tree.shape, i);
    Focus(tree, c, t);
    RankEntry(c, t);
  }

  // ----- First free key -----

  /** Entries 0..j hold consecutive keys, and entry j + 1 does not continue the run. */
  ghost predicate FirstRun(s: seq<Entry>, j: nat) {
    && j < |s|
    && (forall i :: 0 <= i <= j ==> s[i].key == s[0].key + i)
    && (j + 1 < |s| ==> s[j + 1].key != s[j].key + 1)
  }

  ghost predicate FreeAfterRun(s: seq<Entry>, j: nat, key: Key) {
    FirstRun(s, j) && key == Wrap(s[j].key + 1) && (|s| < WORD ==> !HasKey(s, key))
  }

  /** The key after the first run of consecutive keys is free. Only a tree holding
      all 2^64 keys has no such key. */
  lemma AfterRunIsFree(s: seq<Entry>, j: nat)
    requires Sorted(s) && FirstRun(s, j)
    ensures FreeAfterRun(s, j, Wrap(s[j].key + 1))
  {
    if s[j].key + 1 == WORD {
      assert s[0].key == WORD - 1 - j;
    } else {
      forall i | 0 <= i < |s| ensures s[i].key != s[j].key + 1 {
        if i > j + 1 { assert s[j + 1].key < s[i].key; }
      }
    }
  }

  /** The node with the smallest key. */
  method Leftmost(tree: RbTree) returns (node: RbNode)
    requires tree.Linked() && tree.root != null
    ensures tree.Entries() != [] && node == tree.Entries()[0].n
  {
    Focus(tree, Top, tree.shape);
    node := Minimum(tree, tree.root, Top, tree.shape);
    RankEntry(MinCtx(Top, tree.shape), MinTree(tree.shape));
  }

  /** rbt_next_key. */
  method NextKey(tree: RbTree) returns (key: Key, ghost j: nat)
    requires tree.Linked() && Sorted(tree.Entries())
    ensures if tree.Entries() == [] then key == 0 else FreeAfterRun(tree.Entries(), j, key)
    ensures |tree.Entries()| < WORD ==> !HasKey(tree.Entries(), key)
  {
    var node := tree.root;
    j := 0;
    if node == null {
      return 0, 0;
    }
    node := Leftmost(tree);
    ghost var s := tree.Entries();
    while true
      invariant s == tree.Entries() && j < |s| && s[j].n == node
      invariant forall i :: 0 <= i <= j ==> s[i].key == s[0].key + i
      decreases |s| - j
    {
      EntryCell(tree, j);
      var next := Successor(tree, node, j);
      if next == null {
        AfterRunIsFree(s, j);
        return Wrap(node.key + 1), j;
      } else {
        EntryCell(tree, j + 1);
        if next.key != Wrap(node.key + 1) {
          AfterRunIsFree(s, j);
          return Wrap(node.key + 1), j;
        } else {
          node := next;
          j := j + 1;
        }
      }
    }
  }

  // ----- Ranges -----

  /** The range that entry `e` stores: its key is the start, value2 the length. */
  ghost predicate Overlaps(e: Entry, start: int, len: int)
    reads e.n
  {
    e.key < start + len && start < e.key + e.n.extra.value2
  }

  /** Stored ranges are not empty, do not wrap around, and do not overlap each other. */
  ghost predicate RangeMap(s: seq<Entry>, nodes: set<RbNode>)
    reads nodes
  {
    && (forall i :: 0 <= i < |s| ==> s[i].n in nodes)
    && (forall i :: 0 <= i < |s| ==> 0 < s[i].n.extra.value2 && s[i].key + s[i].n.extra.value2 < WORD)
    && (forall i, j :: 0 <= i < j < |s| ==> s[i].key + s[i].n.extra.value2 <= s[j].key)
  }

  /** With the last range starting at or below `start` at position k, only ranges k and k + 1 matter. */
  lemma OnlyNeighbours(s: seq<Entry>, nodes: set<RbNode>, k: nat, start: Key, len: Key)
    requires RangeMap(s, nodes) && len > 0 && k < |s| && s[k].key <= start
    requires k + 1 < |s| ==> start < s[k + 1].key
    ensures Overlaps(s[k], start, len) <==> s[k].key + s[k].n.extra.value2 > start
    ensures k + 1 < |s| ==> (Overlaps(s[k + 1], start, len) <==> s[k + 1].key < start + len)
    ensures (exists i :: 0 <= i < |s| && Overlaps(s[i], start, len)) <==>
              Overlaps(s[k], start, len) || (k + 1 < |s| && Overlaps(s[k + 1], start, len))
  {
    forall i | 0 <= i < |s| && Overlaps(s[i], start, len)
      ensures i == k || (i > k && k + 1 < |s| && Overlaps(s[k + 1], start, len))
    {
      if i > k + 1 {
        assert s[k + 1].key + s[k + 1].n.extra.value2 <= s[i].key;
      }
    }
  }

  /** `closest` is the last entry whose key is at most `start`, at position k; NULL if there is none. */
  ghost predicate LastAtOrBelow(s: seq<Entry>, closest: RbNode?, k: int, start: Key) {
    && -1 <= k < |s|
    && closest == (if k < 0 then null else s[k].n)
    && (k >= 0 ==> s[k].key <= start)
    && (k + 1 < |s| ==> start < s[k + 1].key)
  }

  lemma ExactMatch(c: Ctx, t: Tree, start: Key)
    requires t.Node? && t.key == start && Sorted(Inorder(Plug(c, t)))
    ensures LastAtOrBelow(Inorder(Plug(c, t)), t.n, Rank(c, t), start)
  {
    RankEntry(c, t);
  }

  lemma GapMatch(c: Ctx, closest: RbNode?, start: Key)
    requires Between(c, start)
    requires closest == if Before(c) == [] then null else Before(c)[|Before(c)| - 1].n
    ensures LastAtOrBelow(Inorder(Plug(c, Leaf)), closest, |Before(c)| - 1, start)
  {
    InorderPlug(c, Leaf);
    var s, k := Inorder(Plug(c, Leaf)), |Before(c)| - 1;
    assert s == Before(c) + After(c);
    assert k >= 0 ==> s[k] == Before(c)[k] && Before(c)[k] in Before(c);
    assert k + 1 < |s| ==> s[k + 1] == After(c)[0] && After(c)[0] in After(c);
  }

  /** The loop of rbt_range_val2. */
  method Closest(tree: RbTree, start: Key) returns (closest: RbNode?, ghost k: int)
    requires tree.Linked() && Sorted(tree.Entries())
    ensures LastAtOrBelow(tree.Entries(), closest, k, start)
  {
    var node := tree.root;
    closest := null;
    ghost var c, t := Top, tree.shape;
    Focus(tree, c, t);
    while node != null
      invariant tree.At(c, t) && node == Root(t) && Between(c, start)
      invariant closest == if Before(c) == [] then null else Before(c)[|Before(c)| - 1].n
      decreases t
    {
      if node.key == start {
        closest := node;
        ExactMatch(c, t, start);
        k := Rank(c, t);
        return;
      } else if node.key < start {
        closest := node;
        Narrow(c, t, start, R);
        FocusMoves(tree, c, t, Down(c, t, R), t.right);
        node := node.right;
        c, t := Down(c, t, R), t.right;
      } else {
        Narrow(c, t, start, L);
        FocusMoves(tree, c, t, Down(c, t, L), t.left);
        node := node.left;
        c, t := Down(c, t, L), t.left;
      }
    }
    k := |Before(c)| - 1;
    GapMatch(c, closest, start);
  }

  /** rbt_range_val2. The result overlaps the query; NULL means that nothing does, except
      that ranges are missed when all of them start above the query's start. */
  method RangeVal2(tree: RbTree, start: Key, len: Key) returns (found: RbNode?, ghost at: int)
    requires tree.Linked() && Sorted(tree.Entries()) && RangeMap(tree.Entries(), tree.repr)
    requires 0 < len && start + len < WORD
    ensures found != null ==>
              0 <= at < |tree.Entries()| && tree.Entries()[at].n == found && Overlaps(tree.Entries()[at], start, len)
    ensures found == null <==>
              || (forall i :: 0 <= i < |tree.Entries()| ==> start < tree.Entries()[i].key)
              || (forall i :: 0 <= i < |tree.Entries()| ==> !Overlaps(tree.Entries()[i], start, len))
  {
    var closest;
    closest, at := Closest(tree, start);
    if closest == null {
      return null, at;
    }
    EntryCell(tree, at);
    OnlyNeighbours(tree.Entries(), tree.repr, at, start, len);
    if Wrap(closest.key + closest.extra.value2) > start {
      return closest, at;
    }
    var node := Successor(tree, closest, at);
    if node == null {
      return null, at;
    }
    EntryCell(tree, at + 1);
    if node.key < Wrap(start + len) {
      return node, at + 1;
    }
    return null, at;
  }
}
