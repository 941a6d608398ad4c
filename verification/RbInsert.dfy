/** rbt_insert and its fixup loop on the heap. */
module RbInsert {
  import opened RbShape
  import opened RbHeap
  import opened RbFixup

  /** What the pointers around a node say about its place in the tree. */
  lemma Surroundings(tree: RbTree, c: Ctx, t: Tree)
    requires tree.At(c, t) && t.Node?
    ensures t.n in tree.repr && t.n.parent == Parent(c)
    ensures c.In? ==>
              && c.n in tree.repr && c.n.color == c.color && c.n.parent == Parent(c.up)
              && (c.n.left == t.n) == (c.side == L) && (c.n.right == t.n) == (c.side == R)
  {
    if c.In? { RootIn(c.sibling); }
  }

  lemma FamilySurroundings(tree: RbTree, c: Ctx, t: Tree)
    requires tree.At(c, t) && t.Node? && c.In? && c.up.In?
    ensures t.n in tree.repr && t.n.parent == c.n && c.n in tree.repr && c.n.parent == c.up.n && c.up.n in tree.repr
    ensures (c.n.left == t.n) == (c.side == L) && (c.n.right == t.n) == (c.side == R)
    ensures (c.up.n.left == c.n) == (c.up.side == L)
    ensures (if c.up.side == L then c.up.n.right else c.up.n.left) == Root(c.up.sibling)
    ensures c.up.sibling.Node? ==> c.up.sibling.n in tree.repr && c.up.sibling.n.color == c.up.sibling.color
  {
    Surroundings(tree, c, t);
    FocusMoves(tree, c, t, c.up, ParentTree(c, t));
    Surroundings(tree, c.up, ParentTree(c, t));
    RootIn(c.up.sibling);
  }

  /** rbt_uncle, for a node that has a grandparent. */
  method Uncle(tree: RbTree, node: RbNode, ghost c: Ctx, ghost t: Tree) returns (uncle: RbNode?)
    requires tree.At(c, t) && t.Node? && t.n == node
    ensures uncle == if c.In? && c.up.In? then Root(c.up.sibling) else null
  {
    Surroundings(tree, c, t);
    if c.In? && c.up.In? { FamilySurroundings(tree, c, t); }
    if node.parent == null || node.parent.parent == null {
      return null;
    }
    if node.parent == node.parent.parent.left {
      return node.parent.parent.right;
    } else {
      return node.parent.parent.left;
    }
  }

  lemma SameEntriesAround(c: Ctx, t: Tree, t': Tree)
    requires Inorder(t) == Inorder(t')
    ensures Inorder(Plug(c, t)) == Inorder(Plug(c, t'))
  {
    InorderPlug(c, t);
    InorderPlug(c, t');
  }

  /** The inner step is one rotation of the parent. */
  lemma InnerIsRotation(c: Ctx, t: Tree)
    requires NeedsFix(c, t)
    ensures c.side == R ==> Plug(InnerCtx(c, t), InnerTree(c, t)) == Plug(c.up, RotatedLeft(ParentTree(c, t)))
    ensures c.side == L ==> Plug(InnerCtx(c, t), InnerTree(c, t)) == Plug(c.up, RotatedRight(ParentTree(c, t)))
    ensures Inorder(Plug(InnerCtx(c, t), InnerTree(c, t))) == Inorder(Plug(c, t))
  {
    var p := ParentTree(c, t);
    if c.side == R {
      RotateLeftKeepsOrder(p);
      SameEntriesAround(c.up, p, RotatedLeft(p));
    } else {
      RotateRightKeepsOrder(p);
      SameEntriesAround(c.up, p, RotatedRight(p));
    }
  }

  /** The grandparent's subtree after the two colour writes of the outer case. */
  function OuterPainted(c: Ctx, t: Tree): Tree
    requires NeedsFix(c, t)
  {
    Join(c.up.side, Join(c.side, t, c.n, Black, c.key, c.sibling), c.up.n, Red, c.up.key, c.up.sibling)
  }

  /** The outer step is one rotation of the repainted grandparent. */
  lemma OuterIsRotation(c: Ctx, t: Tree)
    requires NeedsFix(c, t) && c.side == c.up.side
    ensures c.side == L ==> Plug(OuterCtx(c, t), t) == Plug(c.up.up, RotatedRight(OuterPainted(c, t)))
    ensures c.side == R ==> Plug(OuterCtx(c, t), t) == Plug(c.up.up, RotatedLeft(OuterPainted(c, t)))
    ensures Inorder(Plug(OuterCtx(c, t), t)) == Inorder(Plug(c, t))
  {
    var g := OuterPainted(c, t);
    assert Inorder(Join(c.side, t, c.n, Black, c.key, c.sibling)) == Inorder(ParentTree(c, t));
    assert Inorder(g) == Inorder(GrandTree(c, t));
    SameEntriesAround(c.up.up, g, GrandTree(c, t));
    if c.side == L {
      RotateRightKeepsOrder(g);
      SameEntriesAround(c.up.up, g, RotatedRight(g));
    } else {
      RotateLeftKeepsOrder(g);
      SameEntriesAround(c.up.up, g, RotatedLeft(g));
    }
  }

  lemma RecolorEntries(c: Ctx, t: Tree)
    requires NeedsFix(c, t) && IsRed(c.up.sibling) && Fixing(c, t)
    ensures Inorder(Plug(c.up.up, RecolorTree(c, t))) == Inorder(Plug(c, t))
  {
    RecolorKeeps(c, t);
    SameEntriesAround(c.up.up, RecolorTree(c, t), GrandTree(c, t));
  }

  /** What every turn of the loop keeps: the entries, the links, and the rules away from the focus. */
  ghost predicate FixState(tree: RbTree, c: Ctx, t: Tree, entries: seq<Entry>, balanced: bool)
    reads tree, tree.repr
  {
    && tree.At(c, t) && Fixing(c, t)
    && Inorder(tree.shape) == entries
    && (balanced ==> BalancedAt(c, t))
  }

  /** The focus moved towards the root, or an inner child became an outer one. */
  predicate Closer(c: Ctx, c': Ctx) {
    || Depth(c') < Depth(c)
    || (&& Depth(c') == Depth(c)
        && c.In? && c.up.In? && c.side != c.up.side
        && c'.In? && c'.up.In? && c'.side == c'.up.side)
  }

  /** One turn of the loop when the parent is a left child; returns the new focus. */
  method FixStepLeft(tree: RbTree, node: RbNode, ghost c: Ctx, ghost t: Tree,
                     ghost entries: seq<Entry>, ghost balanced: bool)
    returns (next: RbNode, ghost c': Ctx, ghost t': Tree)
    requires FixState(tree, c, t, entries, balanced) && t.n == node && NeedsFix(c, t) && c.up.side == L
    modifies tree`root, tree`shape, tree.repr`parent, tree.repr`left, tree.repr`right, tree.repr`color
    ensures FixState(tree, c', t', entries, balanced) && t'.n == next
    ensures tree.repr == old(tree.repr)
    ensures Closer(c, c')
  {
    FamilySurroundings(tree, c, t);
    var uncle := Uncle(tree, node, c, t);
    if uncle != null && uncle.color == Red {
      RecolorKeeps(c, t);
      RecolorEntries(c, t);
      next := node.parent.parent;
      PaintFamily(tree, uncle, node.parent, node.parent.parent, c, t);
      c', t' := c.up.up, RecolorTree(c, t);
    } else if node == node.parent.right {
      next := node.parent;
      c', t' := InnerCtx(c, t), InnerTree(c, t);
      InnerKeeps(c, t);
      InnerIsRotation(c, t);
      FocusMoves(tree, c, t, c.up, ParentTree(c, t));
      RotateLeft(tree, next, c.up, ParentTree(c, t));
      FocusMoves(tree, c.up, RotatedLeft(ParentTree(c, t)), c', t');
    } else {
      next := node;
      c', t' := OuterCtx(c, t), t;
      OuterKeeps(c, t);
      OuterIsRotation(c, t);
      PaintOuter(tree, node.parent, node.parent.parent, c, t);
      RotateRight(tree, node.parent.parent, c.up.up, OuterPainted(c, t));
      FocusMoves(tree, c.up.up, RotatedRight(OuterPainted(c, t)), c', t');
    }
  }

  /** One turn of the loop when the parent is a right child; returns the new focus. */
  method FixStepRight(tree: RbTree, node: RbNode, ghost c: Ctx, ghost t: Tree,
                      ghost entries: seq<Entry>, ghost balanced: bool)
    returns (next: RbNode, ghost c': Ctx, ghost t': Tree)
    requires FixState(tree, c, t, entries, balanced) && t.n == node && NeedsFix(c, t) && c.up.side == R
    modifies tree`root, tree`shape, tree.repr`parent, tree.repr`left, tree.repr`right, tree.repr`color
    ensures FixState(tree, c', t', entries, balanced) && t'.n == next
    ensures tree.repr == old(tree.repr)
    ensures Closer(c, c')
  {
    FamilySurroundings(tree, c, t);
    var uncle := Uncle(tree, node, c, t);
    if uncle != null && uncle.color == Red {
      RecolorKeeps(c, t);
      RecolorEntries(c, t);
      next := node.parent.parent;
      PaintFamily(tree, uncle, node.parent, node.parent.parent, c, t);
      c', t' := c.up.up, RecolorTree(c, t);
    } else if node == node.parent.left {
      next := node.parent;
      c', t' := InnerCtx(c, t), InnerTree(c, t);
      InnerKeeps(c, t);
      InnerIsRotation(c, t);
      FocusMoves(tree, c, t, c.up, ParentTree(c, t));
      RotateRight(tree, next, c.up, ParentTree(c, t));
      FocusMoves(tree, c.up, RotatedRight(ParentTree(c, t)), c', t');
    } else {
      next := node;
      c', t' := OuterCtx(c, t), t;
      OuterKeeps(c, t);
      OuterIsRotation(c, t);
      PaintOuter(tree, node.parent, node.parent.parent, c, t);
      RotateLeft(tree, node.parent.parent, c.up.up, OuterPainted(c, t));
      FocusMoves(tree, c.up.up, RotatedLeft(OuterPainted(c, t)), c', t');
    }
  }

  /** rbt_insert_fixup. */
  method InsertFixup(tree: RbTree, node: RbNode, ghost c0: Ctx, ghost t0: Tree)
    requires tree.At(c0, t0) && Fixing(c0, t0) && t0.n == node
    modifies tree`root, tree`shape, tree.repr`parent, tree.repr`left, tree.repr`right, tree.repr`color
    ensures tree.Linked() && tree.repr == old(tree.repr)
    ensures Inorder(tree.shape) == old(Inorder(tree.shape))
    ensures NoRedRed(tree.shape) && !IsRed(tree.shape)
    ensures BalancedAt(c0, t0) ==> Balanced(tree.shape)
  {
    var node := node;
    ghost var c, t := c0, t0;
    ghost var entries := Inorder(tree.shape);
    ghost var balanced := BalancedAt(c0, t0);
    Surroundings(tree, c, t);
    while node.parent != null && node.parent.color == Red
      invariant FixState(tree, c, t, entries, balanced) && t.n == node && tree.repr == old(tree.repr)
      invariant node.parent == Parent(c) && node in tree.repr
      invariant c.In? ==> c.n in tree.repr && c.n.color == c.color
      decreases Depth(c), c.In? && c.up.In? && c.side != c.up.side
    {
      RedParentHasGrandparent(c, t);
      FamilySurroundings(tree, c, t);
      if node.parent.parent != null && node.parent == node.parent.parent.left {
        node, c, t := FixStepLeft(tree, node, c, t, entries, balanced);
      } else {
        node, c, t := FixStepRight(tree, node, c, t, entries, balanced);
      }
      Surroundings(tree, c, t);
    }
    FinishFixup(tree, c, t);
  }

  /** The last statement of the fixup: the root turns black. */
  method FinishFixup(tree: RbTree, ghost c: Ctx, ghost t: Tree)
    requires tree.At(c, t) && Fixing(c, t) && !RedCtx(c)
    modifies tree`shape, tree.repr`color
    ensures tree.Linked() && tree.repr == old(tree.repr)
    ensures Inorder(tree.shape) == old(Inorder(tree.shape))
    ensures NoRedRed(tree.shape) && !IsRed(tree.shape)
    ensures BalancedAt(c, t) ==> Balanced(tree.shape)
  {
    NoRedRedPlug(c, t);
    BalancedPlug(c, t);
    ghost var s := tree.shape;
    FocusMoves(tree, c, t, Top, s);
    if tree.root != null {
      Paint(tree, tree.root, Black, Top, s);
    }
    Focus(tree, Top, tree.shape);
  }

  // ----- Insertion -----

  /** Everything left of the hole is below `key` and everything right of it above. */
  ghost predicate Between(c: Ctx, key: Key) {
    (forall e :: e in Before(c) ==> e.key < key) && (forall e :: e in After(c) ==> key < e.key)
  }

  /** The context one level down, on the given side. */
  function Down(c: Ctx, t: Tree, side: Side): Ctx
    requires t.Node?
  {
    In(side, t.n, t.color, t.key, if side == L then t.right else t.left, c)
  }

  function Child(t: Tree, side: Side): Tree
    requires t.Node?
  {
    if side == L then t.left else t.right
  }

  lemma SortedAround(a: seq<Entry>, left: seq<Entry>, e: Entry, right: seq<Entry>, b: seq<Entry>)
    requires Sorted(a + (left + [e] + right) + b)
    ensures forall x :: x in left ==> x.key < e.key
    ensures forall x :: x in right ==> e.key < x.key
  {
    var s := a + (left + [e] + right) + b;
    assert s[|a| + |left|] == e;
    forall x | x in left ensures x.key < e.key {
      var i :| 0 <= i < |left| && left[i] == x;
      assert s[|a| + i] == x;
    }
    forall x | x in right ensures e.key < x.key {
      var i :| 0 <= i < |right| && right[i] == x;
      assert s[|a| + |left| + 1 + i] == x;
    }
  }

  /** Comparing with one node narrows the search to one side. */
  lemma Narrow(c: Ctx, t: Tree, key: Key, side: Side)
    requires t.Node? && Sorted(Inorder(Plug(c, t))) && Between(c, key)
    requires if side == L then key < t.key else t.key < key
    ensures Between(Down(c, t, side), key) && Plug(Down(c, t, side), Child(t, side)) == Plug(c, t)
  {
    InorderPlug(c, t);
    SortedAround(Before(c), Inorder(t.left), Entry(t.n, t.key), Inorder(t.right), After(c));
  }

  /** Putting a fresh red node into an empty hole. */
  method Attach(tree: RbTree, node: RbNode, parent: RbNode?, ghost c: Ctx)
    requires tree.At(c, Leaf) && Between(c, node.key)
    requires parent == Parent(c) == node.parent && node !in tree.repr
    requires node.left == null && node.right == null && node.color == Red
    modifies tree`root, tree`shape, tree`repr, tree.repr`left, tree.repr`right
    ensures tree.repr == old(tree.repr) + {node}
    ensures tree.At(c, Node(Leaf, node, Red, node.key, Leaf))
  {
    ghost var h := SnapOf(tree.repr);
    ghost var t := Node(Leaf, node, Red, node.key, Leaf);
    if c.In? {
      RootIn(c.sibling);
      assert Entry(c.n, c.key) in if c.side == L then After(c) else Before(c);
    }
    if parent == null {
      tree.root := node;
    } else if node.key < parent.key {
      parent.left := node;
    } else {
      parent.right := node;
    }
    tree.repr := tree.repr + {node};
    tree.shape := Plug(c, t);
    AttachLinks(c, t, h, SnapOf(tree.repr));
  }

  lemma AttachLinks(c: Ctx, t: Tree, h: Snap, h': Snap)
    requires t.Node? && t.left == t.right == Leaf
    requires Zipped(c, Leaf, h) && h.Keys == CtxNodes(c) && t.n !in h
    requires h'.Keys == h.Keys + {t.n} && h'[t.n] == Cell(Parent(c), null, null, t.color, t.key)
    requires forall n :: n in h && n != Parent(c) ==> h'[n] == h[n]
    requires c.In? ==> h'[c.n] == SetChild(h[c.n], c.side, t.n)
    ensures Zipped(c, t, h') && h'.Keys == Nodes(t) + CtxNodes(c)
    ensures c.In? ==> CtxRoot(c, null) == CtxRoot(c, t.n)
  {
    LinkedCtxRehole(c, null, t.n, h, h');
    CtxRootIgnoresHole(c, null, t.n);
  }

  lemma SortedInsert(a: seq<Entry>, e: Entry, b: seq<Entry>)
    requires Sorted(a + b)
    requires (forall x :: x in a ==> x.key < e.key) && (forall x :: x in b ==> e.key < x.key)
    ensures Sorted(a + [e] + b)
  {
    var s, s' := a + b, a + [e] + b;
    forall i, j | 0 <= i < j < |s'| ensures s'[i].key < s'[j].key {
      if i < |a| { assert s[i] == s'[i] && s[i] in a; }
      if i > |a| { assert s[i - 1] == s'[i]; }
      if j < |a| { assert s[j] == s'[j]; }
      if j > |a| { assert s[j - 1] == s'[j] && s'[j] in b; }
    }
  }

  /** One more entry keeps the order. */
  lemma AttachEntries(c: Ctx, node: RbNode, key: Key)
    requires Sorted(Inorder(Plug(c, Leaf))) && Between(c, key)
    ensures Inorder(Plug(c, Leaf)) == Before(c) + After(c)
    ensures Inorder(Plug(c, Node(Leaf, node, Red, key, Leaf))) == Before(c) + [Entry(node, key)] + After(c)
    ensures Sorted(Before(c) + [Entry(node, key)] + After(c))
  {
    InorderPlug(c, Leaf);
    InorderPlug(c, Node(Leaf, node, Red, key, Leaf));
    assert Inorder(Node(Leaf, node, Red, key, Leaf)) == [Entry(node, key)];
    assert Inorder(Plug(c, Leaf)) == Before(c) + After(c);
    SortedInsert(Before(c), Entry(node, key), After(c));
  }

  /** A fresh red leaf keeps all other rules except, perhaps, the colour rule with its parent. */
  lemma AttachKeeps(c: Ctx, node: RbNode, key: Key)
    requires NoRedRed(Plug(c, Leaf)) && !IsRed(Plug(c, Leaf))
    ensures Fixing(c, Node(Leaf, node, Red, key, Leaf))
    ensures Balanced(Plug(c, Leaf)) ==> BalancedAt(c, Node(Leaf, node, Red, key, Leaf))
  {
    NoRedRedPlug(c, Leaf);
    RedPlug(c, Leaf);
    BalancedPlug(c, Leaf);
  }

  lemma Attached(c: Ctx, node: RbNode, key: Key) returns (t: Tree, entries: seq<Entry>)
    requires Searchable(Plug(c, Leaf)) && Between(c, key)
    ensures t == Node(Leaf, node, Red, key, Leaf) && Fixing(c, t)
    ensures entries == Before(c) + [Entry(node, key)] + After(c) && Inorder(Plug(c, t)) == entries && Sorted(entries)
    ensures Balanced(Plug(c, Leaf)) ==> BalancedAt(c, t)
  {
    t, entries := Node(Leaf, node, Red, key, Leaf), Before(c) + [Entry(node, key)] + After(c);
    AttachKeeps(c, node, key);
    AttachEntries(c, node, key);
  }

  ghost predicate HasKey(s: seq<Entry>, key: Key) {
    exists i :: 0 <= i < |s| && s[i].key == key
  }

  lemma MissingKey(c: Ctx, key: Key)
    requires Between(c, key)
    ensures !HasKey(Inorder(Plug(c, Leaf)), key)
  {
    InorderPlug(c, Leaf);
    var s := Inorder(Plug(c, Leaf));
    assert forall i :: 0 <= i < |s| ==> s[i] in Before(c) || s[i] in After(c);
  }

  /** The descent of rbt_insert: either the key is found, or its place in the tree is. */
  method FindPlace(tree: RbTree, key: Key) returns (parent: RbNode?, present: bool, ghost c: Ctx)
    requires tree.Linked() && Sorted(tree.Entries())
    ensures present <==> HasKey(tree.Entries(), key)
    ensures !present ==> tree.At(c, Leaf) && Between(c, key) && parent == Parent(c)
  {
    var node := tree.root;
    parent := null;
    ghost var t := tree.shape;
    c := Top;
    Focus(tree, c, t);
    while node != null
      invariant tree.At(c, t) && node == Root(t) && parent == Parent(c) && Between(c, key)
      decreases t
    {
      parent := node;
      if key < node.key {
        Narrow(c, t, key, L);
        FocusMoves(tree, c, t, Down(c, t, L), t.left);
        node := node.left;
        c, t := Down(c, t, L), t.left;
      } else if key > node.key {
        Narrow(c, t, key, R);
        FocusMoves(tree, c, t, Down(c, t, R), t.right);
        node := node.right;
        c, t := Down(c, t, R), t.right;
      } else {
        InorderPlug(c, t);
        assert tree.Entries()[|Before(c)| + |Inorder(t.left)|] == Entry(t.n, t.key);
        return parent, true, c;
      }
    }
    MissingKey(c, key);
    return parent, false, c;
  }

  /** The part of rbt_insert under the tree's lock: attach the new node at its place and rebalance. */
  method InsertAt(tree: RbTree, node: RbNode, parent: RbNode?, ghost c: Ctx)
    requires tree.At(c, Leaf) && Between(c, node.key) && Searchable(tree.shape)
    requires parent == Parent(c) == node.parent && node !in tree.repr
    requires node.left == null && node.right == null && node.color == Red
    modifies tree`root, tree`shape, tree`repr, node`parent, node`left, node`right, node`color
    modifies tree.repr`parent, tree.repr`left, tree.repr`right, tree.repr`color
    ensures tree.Linked() && Searchable(tree.shape)
    ensures tree.repr == old(tree.repr) + {node}
    ensures node.key == old(node.key) && node.extra == old(node.extra)
    ensures tree.Entries() == Before(c) + [Entry(node, node.key)] + After(c)
    ensures old(Balanced(tree.shape)) ==> Balanced(tree.shape)
  {
    ghost var t, entries := Attached(c, node, node.key);
    Attach(tree, node, parent, c);
    InsertFixup(tree, node, c, t);
  }

  /** The rest of rbt_insert once the place is known. */
  method Add(tree: RbTree, key: Key, parent: RbNode?, ghost c: Ctx) returns (node: RbNode)
    requires tree.At(c, Leaf) && Between(c, key) && Searchable(tree.shape) && parent == Parent(c)
    modifies tree, tree.repr`parent, tree.repr`left, tree.repr`right, tree.repr`color
    ensures tree.Linked() && Searchable(tree.shape)
    ensures fresh(node) && node.extra == Extra(0, 0, 0) && tree.repr == old(tree.repr) + {node}
    ensures tree.Entries() == Before(c) + [Entry(node, key)] + After(c)
    ensures tree.numNodes == old(tree.numNodes) + 1
    ensures old(Balanced(tree.shape)) ==> Balanced(tree.shape)
  {
    node := new RbNode(key, parent);
    InsertAt(tree, node, parent, c);
    tree.numNodes := tree.numNodes + 1;
  }

  /** rbt_insert. The slab allocator is outside this method: `room` says whether it has a node left. */
  method Insert(tree: RbTree, key: Key, room: bool) returns (node: RbNode?, ghost at: nat)
    requires tree.Valid()
    modifies tree, tree.repr`parent, tree.repr`left, tree.repr`right, tree.repr`color
    ensures tree.Valid()
    ensures node == null <==> HasKey(old(tree.Entries()), key) || !room
    ensures node == null ==> unchanged(tree) && unchanged(old(tree.repr))
    ensures node != null ==>
              && fresh(node) && node.extra == Extra(0, 0, 0)
              && tree.repr == old(tree.repr) + {node}
              && at <= |old(tree.Entries())|
              && tree.Entries() == old(tree.Entries())[..at] + [Entry(node, key)] + old(tree.Entries())[at..]
              && tree.numNodes == old(tree.numNodes) + 1
    ensures old(Balanced(tree.shape)) ==> Balanced(tree.shape)
  {
    var parent, present;
    ghost var c;
    parent, present, c := FindPlace(tree, key);
    at := 0;
    if present || !room {
      return null, at;
    }
    InorderPlug(c, Leaf);
    at := |Before(c)|;
    assert tree.Entries()[..at] == Before(c) && tree.Entries()[at..] == After(c);
    node := Add(tree, key, parent, c);
  }

  /** The words of a node are no part of the tree's shape. */
  method SetWords(tree: RbTree, node: RbNode, words: Extra)
    requires tree.Valid() && node in tree.repr
    modifies node`extra
    ensures tree.Valid() && node.extra == words
  {
    node.extra := words;
    assert SnapOf(tree.repr) == old(SnapOf(tree.repr));
  }
}
