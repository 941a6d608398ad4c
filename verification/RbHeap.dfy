/** The tree object, and the rotations that both insertion and deletion use. */
module RbHeap {
  import opened RbShape

  class RbTree {
    var root: RbNode?
    var numNodes: nat
    ghost var shape: Tree
    ghost var repr: set<RbNode>

    /** The pointers in the heap form exactly the tree `shape`. */
    ghost predicate Linked()
      reads this`root, this`shape, this`repr, repr
    {
      repr == Nodes(shape) && root == Root(shape) && Whole(shape, SnapOf(repr))
    }

    /** The same, looked at from the subtree `t` in context `c`. */
    ghost predicate At(c: Ctx, t: Tree)
      reads this`root, this`shape, this`repr, repr
    {
      && shape == Plug(c, t)
      && repr == Nodes(t) + CtxNodes(c)
      && root == CtxRoot(c, Root(t))
      && Zipped(c, t, SnapOf(repr))
    }

    /** Every red-black rule but equal black counts, and the node count. */
    ghost predicate Valid()
      reads this, repr
    {
      Linked() && Searchable(shape) && numNodes == |Inorder(shape)|
    }

    /** The contents: nodes with their keys, in key order. */
    ghost function Entries(): seq<Entry>
      reads this`shape
    {
      Inorder(shape)
    }

    /** An empty tree is a zeroed struct. */
    constructor ()
      ensures Valid() && Balanced(shape) && Entries() == [] && repr == {}
    {
      root := null;
      numNodes := 0;
      shape := Leaf;
      repr := {};
    }
  }

  lemma Focus(tree: RbTree, c: Ctx, t: Tree)
    requires tree.shape == Plug(c, t)
    ensures tree.Linked() <==> tree.At(c, t)
  {
    PlugWhole(c, t, SnapOf(tree.repr));
  }

  /** Moving the focus of a zipper to a child or back changes nothing in the heap. */
  lemma FocusMoves(tree: RbTree, c: Ctx, t: Tree, c': Ctx, t': Tree)
    requires tree.At(c, t)
    requires Plug(c, t) == Plug(c', t')
    ensures tree.At(c', t')
  {
    Focus(tree, c, t);
    Focus(tree, c', t');
  }

  function RotatedRight(t: Tree): Tree
    requires t.Node? && t.left.Node?
  {
    var l := t.left;
    Node(l.left, l.n, l.color, l.key, Node(l.right, t.n, t.color, t.key, t.right))
  }

  function RotatedLeft(t: Tree): Tree
    requires t.Node? && t.right.Node?
  {
    var r := t.right;
    Node(Node(t.left, t.n, t.color, t.key, r.left), r.n, r.color, r.key, r.right)
  }

  /** Rotations keep the sequence of entries. */
  lemma RotateRightKeepsOrder(t: Tree)
    requires t.Node? && t.left.Node?
    ensures Inorder(RotatedRight(t)) == Inorder(t)
  {
    var l := t.left;
    var r := RotatedRight(t);
    assert Inorder(l) == Inorder(l.left) + [Entry(l.n, l.key)] + Inorder(l.right);
    assert Inorder(r.right) == Inorder(l.right) + [Entry(t.n, t.key)] + Inorder(t.right);
  }

  lemma RotateLeftKeepsOrder(t: Tree)
    requires t.Node? && t.right.Node?
    ensures Inorder(RotatedLeft(t)) == Inorder(t)
  {
    RotateRightKeepsOrder(RotatedLeft(t));
  }

  lemma CtxRootIgnoresHole(c: Ctx, a: RbNode?, b: RbNode?)
    ensures c.In? ==> CtxRoot(c, a) == CtxRoot(c, b)
  {}

  /** The heap after the writes of rbt_rotate_right(node), where node is the child on `side` of its
      parent: three parent pointers, and the child pointers of four nodes. */
  ghost predicate WritesRotateRight(h: Snap, h': Snap, node: RbNode, side: Side)
    requires node in h && h[node].left in h
  {
    var left, up := h[node].left, h[node].parent;
    var mid := h[left].right;
    h'.Keys == h.Keys &&
    forall n :: n in h ==>
      h'[n] == Cell(
        if n == node then left else if n == left then up else if n == mid then node else h[n].parent,
        if n == node then mid else if n == up && side == L then left else h[n].left,
        if n == left then node else if n == up && side == R then left else h[n].right,
        h[n].color, h[n].key)
  }

  /** No object occurs twice after a rotation, because none did before. */
  lemma RotateRightDistinct(t: Tree)
    requires t.Node? && t.left.Node? && Distinct(t)
    ensures Distinct(RotatedRight(t)) && Nodes(RotatedRight(t)) == Nodes(t)
  {
    assert Distinct(t.left);
  }

  lemma RotateRightInside(t: Tree, h: Snap, h': Snap, p: RbNode?, side: Side)
    requires t.Node? && t.left.Node? && Linked(t, p, h) && Distinct(t) && p !in Nodes(t)
    requires h[t.n].left in h
    requires WritesRotateRight(h, h', t.n, side)
    ensures Linked(RotatedRight(t), p, h')
  {
    assert Linked(t.left, t.n, h) && Distinct(t.left);
    LinkedNodes(t, p, h);
    LinkedFrame(t.left.left, t.left.n, h, h');
    LinkedReparent(t.left.right, t.left.n, t.n, h, h');
    LinkedFrame(t.right, t.n, h, h');
  }

  lemma RotateRightLinks(c: Ctx, t: Tree, h: Snap, h': Snap)
    requires t.Node? && t.left.Node? && Zipped(c, t, h) && Nodes(t) + CtxNodes(c) == h.Keys
    requires t.n in h && h[t.n].left in h
    requires WritesRotateRight(h, h', t.n, if c.In? then c.side else L)
    ensures Zipped(c, RotatedRight(t), h')
    ensures Nodes(RotatedRight(t)) + CtxNodes(c) == h.Keys
    ensures c.In? ==> CtxRoot(c, t.left.n) == CtxRoot(c, t.n)
  {
    RotateRightDistinct(t);
    RotateRightInside(t, h, h', Parent(c), if c.In? then c.side else L);
    assert LinkedCtx(c, t.left.n, h') by {
      RootIn(t.left); RootIn(t.left.right);
      LinkedCtxRehole(c, t.n, t.left.n, h, h');
    }
    CtxRootIgnoresHole(c, t.n, t.left.n);
  }

  /** The heap after the writes of rbt_rotate_left(node), where node is the child on `side` of its
      parent: three parent pointers, and the child pointers of four nodes. */
  ghost predicate WritesRotateLeft(h: Snap, h': Snap, node: RbNode, side: Side)
    requires node in h && h[node].right in h
  {
    var right, up := h[node].right, h[node].parent;
    var mid := h[right].left;
    h'.Keys == h.Keys &&
    forall n :: n in h ==>
      h'[n] == Cell(
        if n == node then right else if n == right then up else if n == mid then node else h[n].parent,
        if n == right then node else if n == up && side == L then right else h[n].left,
        if n == node then mid else if n == up && side == R then right else h[n].right,
        h[n].color, h[n].key)
  }

  /** No object occurs twice after a rotation, because none did before. */
  lemma RotateLeftDistinct(t: Tree)
    requires t.Node? && t.right.Node? && Distinct(t)
    ensures Distinct(RotatedLeft(t)) && Nodes(RotatedLeft(t)) == Nodes(t)
  {
    assert Distinct(t.right);
  }

  lemma RotateLeftInside(t: Tree, h: Snap, h': Snap, p: RbNode?, side: Side)
    requires t.Node? && t.right.Node? && Linked(t, p, h) && Distinct(t) && p !in Nodes(t)
    requires h[t.n].right in h
    requires WritesRotateLeft(h, h', t.n, side)
    ensures Linked(RotatedLeft(t), p, h')
  {
    assert Linked(t.right, t.n, h) && Distinct(t.right);
    LinkedNodes(t, p, h);
    LinkedFrame(t.right.right, t.right.n, h, h');
    LinkedReparent(t.right.left, t.right.n, t.n, h, h');
    LinkedFrame(t.left, t.n, h, h');
  }

  lemma RotateLeftLinks(c: Ctx, t: Tree, h: Snap, h': Snap)
    requires t.Node? && t.right.Node? && Zipped(c, t, h) && Nodes(t) + CtxNodes(c) == h.Keys
    requires t.n in h && h[t.n].right in h
    requires WritesRotateLeft(h, h', t.n, if c.In? then c.side else L)
    ensures Zipped(c, RotatedLeft(t), h')
    ensures Nodes(RotatedLeft(t)) + CtxNodes(c) == h.Keys
    ensures c.In? ==> CtxRoot(c, t.right.n) == CtxRoot(c, t.n)
  {
    RotateLeftDistinct(t);
    RotateLeftInside(t, h, h', Parent(c), if c.In? then c.side else L);
    assert LinkedCtx(c, t.right.n, h') by {
      RootIn(t.right); RootIn(t.right.left);
      LinkedCtxRehole(c, t.n, t.right.n, h, h');
    }
    CtxRootIgnoresHole(c, t.n, t.right.n);
  }

  /** The four nodes that rbt_rotate_right(node) writes are different objects of `S`. */
  ghost predicate SiteRight(node: RbNode, S: set<RbNode>, side: Side)
    reads S
  {
    && node in S && node.left in S && node.left != node
    && (node.left.right != null ==>
          node.left.right in S && node.left.right !in {node, node.left, node.parent})
    && (node.parent != null ==>
          && node.parent in S && node.parent !in {node, node.left}
          && (node.parent.right == node) == (side == R) && (node.parent.left == node) == (side == L))
  }

  lemma FindSiteRight(tree: RbTree, c: Ctx, t: Tree)
    requires tree.At(c, t) && t.Node? && t.left.Node?
    ensures SiteRight(t.n, tree.repr, if c.In? then c.side else L)
    ensures t.n.left == t.left.n && t.n.parent == Parent(c)
  {
    var h := SnapOf(tree.repr);
    assert Linked(t.left, t.n, h) && Distinct(t.left);
    RootIn(t.left.right);
    if c.In? { RootIn(c.sibling); }
  }

  /** The pointer writes of rbt_rotate_right, over any set of nodes that holds the four concerned. */
  method SwingRight(tree: RbTree, node: RbNode, ghost S: set<RbNode>, ghost side: Side)
    requires SiteRight(node, S, side)
    modifies tree`root, S`parent, S`left, S`right
    ensures WritesRotateRight(old(SnapOf(S)), SnapOf(S), node, side)
    ensures tree.root == if old(node.parent) == null then old(node.left) else old(tree.root)
  {
    var left := node.left;
    node.left := left.right;
    if left.right != null {
      left.right.parent := node;
    }
    left.parent := node.parent;
    if node.parent == null {
      tree.root := left;
    } else if node == node.parent.right {
      node.parent.right := left;
    } else {
      node.parent.left := left;
    }
    left.right := node;
    node.parent := left;
  }

  /** rbt_rotate_right: rotates the subtree in the hole and leaves the context alone. */
  method RotateRight(tree: RbTree, node: RbNode, ghost c: Ctx, ghost t: Tree)
    requires tree.At(c, t)
    requires t.Node? && t.n == node && t.left.Node?
    modifies tree`root, tree`shape, tree.repr`parent, tree.repr`left, tree.repr`right
    ensures tree.At(c, RotatedRight(t))
    ensures tree.repr == old(tree.repr)
  {
    ghost var h := SnapOf(tree.repr);
    FindSiteRight(tree, c, t);
    tree.shape := Plug(c, RotatedRight(t));
    SwingRight(tree, node, tree.repr, if c.In? then c.side else L);
    RotateRightLinks(c, t, h, SnapOf(tree.repr));
  }

  /** The four nodes that rbt_rotate_left(node) writes are different objects of `S`. */
  ghost predicate SiteLeft(node: RbNode, S: set<RbNode>, side: Side)
    reads S
  {
    && node in S && node.right in S && node.right != node
    && (node.right.left != null ==>
          node.right.left in S && node.right.left !in {node, node.right, node.parent})
    && (node.parent != null ==>
          && node.parent in S && node.parent !in {node, node.right}
          && (node.parent.right == node) == (side == R) && (node.parent.left == node) == (side == L))
  }

  lemma FindSiteLeft(tree: RbTree, c: Ctx, t: Tree)
    requires tree.At(c, t) && t.Node? && t.right.Node?
    ensures SiteLeft(t.n, tree.repr, if c.In? then c.side else L)
    ensures t.n.right == t.right.n && t.n.parent == Parent(c)
  {
    var h := SnapOf(tree.repr);
    assert Linked(t.right, t.n, h) && Distinct(t.right);
    RootIn(t.right.left);
    if c.In? { RootIn(c.sibling); }
  }

  /** The pointer writes of rbt_rotate_left, over any set of nodes that holds the four concerned. */
  method SwingLeft(tree: RbTree, node: RbNode, ghost S: set<RbNode>, ghost side: Side)
    requires SiteLeft(node, S, side)
    modifies tree`root, S`parent, S`left, S`right
    ensures WritesRotateLeft(old(SnapOf(S)), SnapOf(S), node, side)
    ensures tree.root == if old(node.parent) == null then old(node.right) else old(tree.root)
  {
    var right := node.right;
    node.right := right.left;
    if right.left != null {
      right.left.parent := node;
    }
    right.parent := node.parent;
    if node.parent == null {
      tree.root := right;
    } else if node == node.parent.left {
      node.parent.left := right;
    } else {
      node.parent.right := right;
    }
    right.left := node;
    node.parent := right;
  }

  /** rbt_rotate_left: rotates the subtree in the hole and leaves the context alone. */
  method RotateLeft(tree: RbTree, node: RbNode, ghost c: Ctx, ghost t: Tree)
    requires tree.At(c, t)
    requires t.Node? && t.n == node && t.right.Node?
    modifies tree`root, tree`shape, tree.repr`parent, tree.repr`left, tree.repr`right
    ensures tree.At(c, RotatedLeft(t))
    ensures tree.repr == old(tree.repr)
  {
    ghost var h := SnapOf(tree.repr);
    FindSiteLeft(tree, c, t);
    tree.shape := Plug(c, RotatedLeft(t));
    SwingLeft(tree, node, tree.repr, if c.In? then c.side else L);
    RotateLeftLinks(c, t, h, SnapOf(tree.repr));
  }
}
