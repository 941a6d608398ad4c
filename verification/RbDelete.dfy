/** rbt_delete: splices a node out, or moves its successor into its place. */
module RbDelete {
  import opened RbShape
  import opened RbHeap
  import opened RbFixup
  import opened RbInsert
  import opened RbQuery

  // ----- Shapes -----

  function Blacken(t: Tree): Tree { if t.Leaf? then Leaf else t.(color := Black) }

  /** `t` with its leftmost subtree replaced. */
  function ReplaceMin(t: Tree, s: Tree): Tree
    requires t.Node?
  {
    if t.left == Leaf then s else t.(left := ReplaceMin(t.left, s))
  }

  lemma {:induction false} PlugMin(c: Ctx, t: Tree, s: Tree)
    requires t.Node?
    ensures Plug(MinCtx(c, t), s) == Plug(c, ReplaceMin(t, s))
    decreases t
  {
    if t.left != Leaf { PlugMin(Down(c, t, L), t.left, s); }
  }

  lemma {:induction false} InorderMin(t: Tree, s: Tree)
    requires t.Node? && Inorder(s) == Inorder(MinTree(t).right)
    ensures Inorder(t) == [Entry(MinTree(t).n, MinTree(t).key)] + Inorder(ReplaceMin(t, s))
  {
    if t.left != Leaf { InorderMin(t.left, s); }
  }

  /** The node that leaves its place: the deleted one if it lacks a child, else its successor. */
  function Spliced(t: Tree): (s: Tree)
    requires t.Node?
    ensures s.Node? && (s.left == Leaf || s.right == Leaf)
  {
    if t.left == Leaf || t.right == Leaf then t else MinTree(t.right)
  }

  function OnlyChild(s: Tree): Tree
    requires s.Node?
  {
    if s.left == Leaf then s.right else s.left
  }

  /** The subtree that stands where `t` stood after its root is deleted. */
  function Removed(t: Tree): Tree
    requires t.Node?
  {
    if t.left == Leaf || t.right == Leaf then Blacken(OnlyChild(t))
    else
      var y := MinTree(t.right);
      Node(t.left, y.n, t.color, y.key, ReplaceMin(t.right, Blacken(y.right)))
  }

  lemma RemovedEntries(t: Tree)
    requires t.Node?
    ensures Inorder(Removed(t)) == Inorder(t.left) + Inorder(t.right)
  {
    assert forall x: Tree :: Inorder(Blacken(x)) == Inorder(x);
    if t.left != Leaf && t.right != Leaf {
      InorderMin(t.right, Blacken(MinTree(t.right).right));
    }
  }

  // ----- Colours -----

  /** The colour rules that survive every insertion and deletion. */
  predicate Coloured(t: Tree) { NoRedRed(t) && !IsRed(t) }

  /** All red-black rules. */
  predicate Ruled(t: Tree) { Coloured(t) && Balanced(t) }

  /** The loop of rbt_delete_fixup is not entered when the root of `t` is deleted in context `c`: it would be for
      a black child that moves up, unless that becomes the root or the fixup is not called. */
  predicate FixupIdle(c: Ctx, t: Tree)
    requires t.Node?
  {
    var x := OnlyChild(Spliced(t));
    x.Node? && x.color == Black ==> if t.left == Leaf || t.right == Leaf then c.Top? else IsRed(Spliced(t))
  }

  /** In a tree that meets all rules, a node with a missing child has at most one
      child, which is a red leaf below a black node. */
  lemma SplicedChild(c: Ctx, s: Tree)
    requires s.Node? && (s.left == Leaf || s.right == Leaf) && Ruled(Plug(c, s))
    ensures var x := OnlyChild(s);
            x.Node? ==> x.color == Red && x.left == Leaf && x.right == Leaf && s.color == Black
  {
    NoRedRedPlug(c, s);
    BalancedPlug(c, s);
    var x := OnlyChild(s);
    if x.Node? {
      assert NoRedRed(x) && Balanced(x) && Blacks(x) == 0;
      assert Blacks(x.left) == 0 && Blacks(x.right) == 0;
    }
  }

  /** So the loop is only ever entered in trees that have lost their equal black counts. */
  lemma RuledIsIdle(c: Ctx, t: Tree)
    requires t.Node? && Ruled(Plug(c, t))
    ensures FixupIdle(c, t)
  {
    if t.left == Leaf || t.right == Leaf {
      SplicedChild(c, t);
    } else {
      MinZipper(Down(c, t, R), t.right);
      SplicedChild(MinCtx(Down(c, t, R), t.right), MinTree(t.right));
    }
  }

  /** Splicing out a node that lacks a child, with its other child painted black, keeps every rule but the black
      counts. From a tree that meets them all it keeps those too, unless a black leaf left a larger tree. */
  lemma SpliceKeeps(c: Ctx, s: Tree)
    requires s.Node? && (s.left == Leaf || s.right == Leaf) && Coloured(Plug(c, s))
    ensures var x := OnlyChild(s);
            && Coloured(Plug(c, Blacken(x)))
            && (Balanced(Plug(c, s)) ==> (Balanced(Plug(c, Blacken(x))) <==> IsRed(s) || x.Node? || c.Top?))
  {
    var x := OnlyChild(s);
    NoRedRedPlug(c, s);
    NoRedRedPlug(c, Blacken(x));
    RedPlug(c, s);
    RedPlug(c, Blacken(x));
    if Balanced(Plug(c, s)) {
      SplicedChild(c, s);
      BalancedPlug(c, s);
      BalancedPlug(c, Blacken(x));
    }
  }

  /** Another node in the same place with the same colour changes no rule. */
  lemma Relabel(c: Ctx, t: Tree, n: RbNode, key: Key)
    requires t.Node?
    ensures var t' := t.(n := n, key := key);
            && (NoRedRed(Plug(c, t')) <==> NoRedRed(Plug(c, t)))
            && (IsRed(Plug(c, t')) <==> IsRed(Plug(c, t)))
            && (Balanced(Plug(c, t')) <==> Balanced(Plug(c, t)))
  {
    var t' := t.(n := n, key := key);
    NoRedRedPlug(c, t);
    NoRedRedPlug(c, t');
    RedPlug(c, t);
    RedPlug(c, t');
    BalancedPlug(c, t);
    BalancedPlug(c, t');
  }

  /** Black counts survive a deletion exactly when this holds of the subtree `t`
      whose root is deleted, in context `c`. */
  predicate CountsSurvive(c: Ctx, t: Tree)
    requires t.Node?
  {
    IsRed(Spliced(t)) || OnlyChild(Spliced(t)).Node? || (c.Top? && Spliced(t) == t)
  }

  /** The colour rules after a deletion. */
  lemma RemovedKeeps(c: Ctx, t: Tree)
    requires t.Node? && Coloured(Plug(c, t))
    ensures Coloured(Plug(c, Removed(t)))
    ensures Balanced(Plug(c, t)) ==> (Balanced(Plug(c, Removed(t))) <==> CountsSurvive(c, t))
  {
    if t.left == Leaf || t.right == Leaf {
      SpliceKeeps(c, t);
    } else {
      var d, y := MinCtx(Down(c, t, R), t.right), MinTree(t.right);
      MinZipper(Down(c, t, R), t.right);
      MinInside(Down(c, t, R), t.right);
      SpliceKeeps(d, y);
      PlugMin(Down(c, t, R), t.right, Blacken(y.right));
      Relabel(c, t.(right := ReplaceMin(t.right, Blacken(y.right))), y.n, y.key);
    }
  }

  /** The smallest loss: three black nodes, of which one leaf goes. */
  lemma LosesBlackCounts(a: RbNode, b: RbNode, d: RbNode)
    ensures var leaf := Node(Leaf, a, Black, 1, Leaf);
            var c := In(L, b, Black, 2, Node(Leaf, d, Black, 3, Leaf), Top);
            && Ruled(Plug(c, leaf)) && Sorted(Inorder(Plug(c, leaf)))
            && !Balanced(Plug(c, Removed(leaf)))
  {
    var leaf := Node(Leaf, a, Black, 1, Leaf);
    var c := In(L, b, Black, 2, Node(Leaf, d, Black, 3, Leaf), Top);
    var right := Node(Leaf, d, Black, 3, Leaf);
    assert Plug(c, leaf) == Node(leaf, b, Black, 2, right);
    OneBlackNode(a, 1);
    OneBlackNode(d, 3);
    assert Plug(c, Removed(leaf)) == Node(Leaf, b, Black, 2, right);
  }

  lemma OneBlackNode(n: RbNode, key: Key)
    ensures var t := Node(Leaf, n, Black, key, Leaf);
            Inorder(t) == [Entry(n, key)] && NoRedRed(t) && Balanced(t) && Blacks(t) == 1
  {}

  lemma {:induction false} MinInside(c: Ctx, t: Tree)
    requires t.Node? && c.In?
    ensures MinCtx(c, t).In?
    decreases t
  {
    if t.left != Leaf { MinInside(Down(c, t, L), t.left); }
  }

  // ----- Links -----

  /** The heap after rbt_transplant(old, new), seen on the nodes of `h'`. */
  ghost predicate WritesTransplant(h: Snap, h': Snap, old_: RbNode, new_: RbNode?, side: Side)
    requires old_ in h
  {
    var up := h[old_].parent;
    h'.Keys <= h.Keys &&
    forall n :: n in h' ==>
      h'[n] == Cell(
        if n == new_ then up else h[n].parent,
        if n == up && side == L then new_ else h[n].left,
        if n == up && side == R then new_ else h[n].right,
        h[n].color, h[n].key)
  }

  /** The nodes rbt_transplant touches are different objects of `S`. */
  ghost predicate TransplantSite(old_: RbNode, new_: RbNode?, S: set<RbNode>, side: Side)
    reads S
  {
    && old_ in S && (new_ != null ==> new_ in S) && new_ != old_
    && (old_.parent != null ==>
          && old_.parent in S && old_.parent != new_ && old_.parent != old_
          && (old_.parent.left == old_) == (side == L))
  }

  ghost predicate Kept(node: RbNode, parent: RbNode?, left: RbNode?, right: RbNode?)
    reads node
  {
    node.parent == parent && node.left == left && node.right == right
  }

  lemma FindSpliceSite(tree: RbTree, c: Ctx, t: Tree)
    requires tree.At(c, t) && t.Node?
    ensures TransplantSite(t.n, Root(OnlyChild(t)), tree.repr, if c.In? then c.side else L)
    ensures t.n.parent == Parent(c)
  {
    Surroundings(tree, c, t);
    RootIn(OnlyChild(t));
  }

  /** rbt_transplant, over any set of nodes that holds the three concerned. */
  method Transplant(tree: RbTree, old_: RbNode, new_: RbNode?, ghost S: set<RbNode>, ghost side: Side)
    requires TransplantSite(old_, new_, S, side)
    modifies tree`root, S`parent, S`left, S`right
    ensures WritesTransplant(old(SnapOf(S)), SnapOf(S), old_, new_, side)
    ensures tree.root == if old(old_.parent) == null then new_ else old(tree.root)
    ensures Kept(old_, old(old_.parent), old(old_.left), old(old_.right))
  {
    if old_.parent == null {
      tree.root := new_;
    } else if old_ == old_.parent.left {
      old_.parent.left := new_;
    } else {
      old_.parent.right := new_;
    }
    if new_ != null {
      new_.parent := old_.parent;
    }
  }

  lemma SpliceLinks(c: Ctx, t: Tree, h: Snap, h': Snap)
    requires t.Node? && (t.left == Leaf || t.right == Leaf) && Zipped(c, t, h) && h.Keys == Nodes(t) + CtxNodes(c)
    requires WritesTransplant(h, h', t.n, Root(OnlyChild(t)), if c.In? then c.side else L)
    requires h'.Keys == h.Keys - {t.n}
    ensures Zipped(c, OnlyChild(t), h') && h'.Keys == Nodes(OnlyChild(t)) + CtxNodes(c)
    ensures c.In? ==> CtxRoot(c, Root(OnlyChild(t))) == CtxRoot(c, t.n)
  {
    var x := OnlyChild(t);
    RootIn(x);
    LinkedReparent(x, t.n, Parent(c), h, h');
    LinkedCtxRehole(c, t.n, Root(x), h, h');
    CtxRootIgnoresHole(c, t.n, Root(x));
  }

  /** Takes a node with at most one child out of the tree; the child moves up.
      The node itself keeps its fields. */
  method SpliceOut(tree: RbTree, node: RbNode, child: RbNode?, ghost c: Ctx, ghost t: Tree)
    requires tree.At(c, t) && t.Node? && t.n == node && (t.left == Leaf || t.right == Leaf)
    requires child == Root(OnlyChild(t))
    modifies tree`root, tree`shape, tree`repr, tree.repr`parent, tree.repr`left, tree.repr`right
    ensures tree.At(c, OnlyChild(t)) && tree.repr == old(tree.repr) - {node}
    ensures Kept(node, old(node.parent), old(node.left), old(node.right))
  {
    ghost var S := tree.repr;
    ghost var h := SnapOf(S);
    FindSpliceSite(tree, c, t);
    tree.shape := Plug(c, OnlyChild(t));
    tree.repr := tree.repr - {node};
    Transplant(tree, node, child, S, if c.In? then c.side else L);
    SpliceLinks(c, t, h, SnapOf(tree.repr));
  }

  // ----- Moving the successor into the place of the deleted node -----

  /** `y` is ready to replace `del`: it holds the subtree `r` on its right, `del` still
      holds `l` on its left and its place in `c`, and nothing is shared. */
  ghost predicate Crownable(c: Ctx, l: Tree, r: Tree, del: RbNode, y: RbNode, h: Snap) {
    && del in h && y in h && del != y
    && h[del].parent == Parent(c) && h[del].left == Root(l) && h[y].right == Root(r)
    && LinkedCtx(c, del, h) && Linked(l, del, h) && Linked(r, y, h)
    && Distinct(l) && Distinct(r) && DistinctCtx(c)
    && Nodes(l) !! Nodes(r) && Nodes(l) !! CtxNodes(c) && Nodes(r) !! CtxNodes(c)
    && {del, y} !! Nodes(l) + Nodes(r) + CtxNodes(c)
    && h.Keys == Nodes(l) + Nodes(r) + CtxNodes(c) + {del, y}
  }

  /** The heap after `y` has taken over parent, left child and colour of `del`. */
  ghost predicate WritesCrown(h: Snap, h': Snap, del: RbNode, y: RbNode, side: Side)
    requires del in h
  {
    var up, left := h[del].parent, h[del].left;
    h'.Keys <= h.Keys &&
    forall n :: n in h' ==>
      h'[n] == Cell(
        if n == y then up else if n == left then y else h[n].parent,
        if n == y then left else if n == up && side == L then y else h[n].left,
        if n == up && side == R then y else h[n].right,
        if n == y then h[del].color else h[n].color, h[n].key)
  }

  lemma CrownLinks(c: Ctx, l: Tree, r: Tree, del: RbNode, y: RbNode, h: Snap, h': Snap)
    requires Crownable(c, l, r, del, y, h)
    requires WritesCrown(h, h', del, y, if c.In? then c.side else L) && h'.Keys == h.Keys - {del}
    ensures var t := Node(l, y, h[del].color, h[y].key, r);
            Zipped(c, t, h') && h'.Keys == Nodes(t) + CtxNodes(c)
    ensures c.In? ==> CtxRoot(c, y) == CtxRoot(c, del)
  {
    RootIn(l);
    LinkedReparent(l, del, y, h, h');
    LinkedFrame(r, y, h, h');
    LinkedCtxRehole(c, del, y, h, h');
    CtxRootIgnoresHole(c, y, del);
  }

  /** The last statements of the two-children case, as heap writes. */
  method TakeOver(tree: RbTree, del: RbNode, y: RbNode, ghost S: set<RbNode>, ghost side: Side)
    requires TransplantSite(del, y, S, side)
    requires del.left != null ==> del.left in S && del.left !in {del, y, del.parent}
    modifies tree`root, S`parent, S`left, S`right, S`color
    ensures WritesCrown(old(SnapOf(S)), SnapOf(S - {del}), del, y, side)
    ensures tree.root == if old(del.parent) == null then y else old(tree.root)
  {
    Transplant(tree, del, y, S, side);
    y.left := del.left;
    if y.left != null {
      y.left.parent := y;
    }
    y.color := del.color;
  }

  lemma FindCrownSite(c: Ctx, l: Tree, r: Tree, del: RbNode, y: RbNode, S: set<RbNode>)
    requires Crownable(c, l, r, del, y, SnapOf(S))
    ensures TransplantSite(del, y, S, if c.In? then c.side else L)
    ensures del.left != null ==> del.left in S && del.left !in {del, y, del.parent}
    ensures del.parent == Parent(c)
  {
    RootIn(l);
    if c.In? { RootIn(c.sibling); }
  }

  method Crown(tree: RbTree, del: RbNode, y: RbNode, ghost c: Ctx, ghost l: Tree, ghost r: Tree)
    requires Crownable(c, l, r, del, y, SnapOf(tree.repr + {y}))
    requires tree.root == CtxRoot(c, del)
    modifies tree`root, tree`shape, tree`repr
    modifies tree.repr`parent, tree.repr`left, tree.repr`right, tree.repr`color, y`parent, y`left, y`right, y`color
    ensures tree.At(c, Node(l, y, old(del.color), old(y.key), r))
    ensures tree.repr == old(tree.repr) + {y} - {del}
  {
    ghost var S := tree.repr + {y};
    ghost var h := SnapOf(S);
    FindCrownSite(c, l, r, del, y, S);
    tree.shape := Plug(c, Node(l, y, del.color, y.key, r));
    tree.repr := S - {del};
    TakeOver(tree, del, y, S, if c.In? then c.side else L);
    CrownAt(tree, c, l, r, del, y, h);
  }

  lemma CrownAt(tree: RbTree, c: Ctx, l: Tree, r: Tree, del: RbNode, y: RbNode, h: Snap)
    requires Crownable(c, l, r, del, y, h) && tree.repr == h.Keys - {del}
    requires WritesCrown(h, SnapOf(tree.repr), del, y, if c.In? then c.side else L)
    requires tree.root == if c.Top? then y else CtxRoot(c, del)
    requires tree.shape == Plug(c, Node(l, y, h[del].color, h[y].key, r))
    ensures tree.At(c, Node(l, y, h[del].color, h[y].key, r))
  {
    CrownLinks(c, l, r, del, y, h, SnapOf(tree.repr));
  }

  /** The successor is the right child: it already holds its own right subtree. */
  lemma ReadyNear(c: Ctx, t: Tree, h: Snap)
    requires t.Node? && t.right.Node? && t.right.left == Leaf
    requires Zipped(c, t, h) && h.Keys == Nodes(t) + CtxNodes(c)
    ensures Crownable(c, t.left, t.right.right, t.n, t.right.n, h)
    ensures h[t.n].color == t.color && h[t.right.n].key == t.right.key
  {
    assert Linked(t.right, t.n, h) && Distinct(t.right);
  }

  /** The successor was further down: it has been spliced out and given the right subtree. */
  lemma ReadyFar(c: Ctx, t: Tree, y: RbNode, h: Snap, h': Snap)
    requires t.Node? && t.right.Node?
    requires Zipped(c, t, h) && h.Keys == Nodes(t) + CtxNodes(c) && y !in h
    requires h'.Keys == h.Keys + {y} && h'[y].right == t.right.n
    requires h'[t.right.n] == h[t.right.n].(parent := y)
    requires forall n :: n in h && n != t.right.n ==> h'[n] == h[n]
    ensures Crownable(c, t.left, t.right, t.n, y, h')
  {
    LinkedReparent(t.right, t.n, y, h, h');
    LinkedFrame(t.left, t.n, h, h');
    LinkedCtxFrame(c, t.n, h, h');
  }

  lemma {:induction false} MinParent(c: Ctx, t: Tree)
    requires t.Node?
    ensures t.left == Leaf ==> MinCtx(c, t) == c
    ensures t.left != Leaf ==> MinCtx(c, t).In? && MinCtx(c, t).n in Nodes(t)
    ensures t.left != Leaf ==> forall s :: ReplaceMin(t, s).Node? && ReplaceMin(t, s).n == t.n
    decreases t
  {
    if t.left != Leaf { MinParent(Down(c, t, L), t.left); }
  }

  /** The spliced-out successor gets the right subtree of the deleted node. */
  method HandOver(tree: RbTree, del: RbNode, y: RbNode, ghost c: Ctx, ghost t: Tree)
    requires tree.At(c, t) && t.Node? && t.right.Node? && t.n == del && y !in tree.repr
    modifies y`right, tree.repr`parent
    ensures Crownable(c, t.left, t.right, del, y, SnapOf(tree.repr + {y}))
    ensures del.color == t.color && tree.root == CtxRoot(c, del)
  {
    ghost var h := SnapOf(tree.repr);
    RootIn(t.right);
    y.right := del.right;
    if y.right != null {
      y.right.parent := y;
    }
    ReadyFar(c, t, y, h, SnapOf(tree.repr + {y}));
  }

  /** The far case up to the take-over: splice the successor out, then hand it the right subtree. */
  method DetachSuccessor(tree: RbTree, del: RbNode, y: RbNode, ghost c: Ctx, ghost t: Tree)
    requires t.Node? && t.left.Node? && t.right.Node? && t.right.left != Leaf && t.n == del
    requires tree.At(MinCtx(Down(c, t, R), t.right), MinTree(t.right)) && y == MinTree(t.right).n
    modifies tree`root, tree`shape, tree`repr, tree.repr`parent, tree.repr`left, tree.repr`right
    ensures tree.repr == old(tree.repr) - {y} && y !in tree.repr
    ensures Crownable(c, t.left, ReplaceMin(t.right, MinTree(t.right).right), del, y, SnapOf(tree.repr + {y}))
    ensures tree.root == CtxRoot(c, del)
    ensures del.color == t.color
  {
    ghost var cy, ty := MinCtx(Down(c, t, R), t.right), MinTree(t.right);
    ghost var t' := t.(right := ReplaceMin(t.right, ty.right));
    PlugMin(Down(c, t, R), t.right, ty.right);
    MinParent(Down(c, t, R), t.right);
    Surroundings(tree, cy, ty);
    SpliceOut(tree, y, y.right, cy, ty);
    FocusMoves(tree, cy, ty.right, c, t');
    HandOver(tree, del, y, c, t');
  }

  /** The near case: the one write stores what is already there. */
  method NearSuccessor(tree: RbTree, del: RbNode, y: RbNode, x: RbNode?, ghost c: Ctx, ghost t: Tree)
    requires tree.At(c, t) && t.Node? && t.right.Node? && t.right.left == Leaf && t.n == del
    requires y == t.right.n && x == y.right
    modifies tree.repr`parent
    ensures Crownable(c, t.left, t.right.right, del, y, SnapOf(tree.repr + {y}))
    ensures tree.root == CtxRoot(c, del) && y in tree.repr
    ensures del.color == t.color
  {
    ghost var h := SnapOf(tree.repr);
    ReadyNear(c, t, h);
    RootIn(t.right.right);
    if x != null {
      x.parent := y;
    }
    assert tree.repr + {y} == tree.repr && SnapOf(tree.repr) == h;
  }

  /** The shape after the successor took the place of the deleted node, before the fixup. */
  function Moved(t: Tree): Tree
    requires t.Node? && t.right.Node?
  {
    var y := MinTree(t.right);
    Node(t.left, y.n, t.color, y.key, ReplaceMin(t.right, y.right))
  }

  /** The successor of a node with two children, and how to tell whether it is the right child. */
  method FindSuccessor(tree: RbTree, del: RbNode, ghost c: Ctx, ghost t: Tree) returns (y: RbNode)
    requires tree.At(c, t) && t.Node? && t.right.Node? && t.n == del
    ensures tree.At(MinCtx(Down(c, t, R), t.right), MinTree(t.right)) && y == MinTree(t.right).n
    ensures y.right == Root(MinTree(t.right).right)
    ensures y.color == MinTree(t.right).color && y.key == MinTree(t.right).key
    ensures y.parent == del <==> t.right.left == Leaf
  {
    ghost var d := Down(c, t, R);
    FocusMoves(tree, c, t, d, t.right);
    y := Minimum(tree, del.right, d, t.right);
    MinParent(d, t.right);
    Surroundings(tree, MinCtx(d, t.right), MinTree(t.right));
  }

  /** Finds the successor and makes it hold the right subtree. */
  method PrepareSuccessor(tree: RbTree, del: RbNode, ghost c: Ctx, ghost t: Tree)
    returns (y: RbNode, x: RbNode?, color: Color)
    requires tree.At(c, t) && t.Node? && t.left.Node? && t.right.Node? && t.n == del
    modifies tree`root, tree`shape, tree`repr, tree.repr`parent, tree.repr`left, tree.repr`right
    ensures Crownable(c, t.left, ReplaceMin(t.right, MinTree(t.right).right), del, y, SnapOf(tree.repr + {y}))
    ensures tree.root == CtxRoot(c, del) && del.color == t.color
    ensures y == MinTree(t.right).n && y.key == MinTree(t.right).key && y in old(tree.repr)
    ensures x == Root(MinTree(t.right).right) && color == MinTree(t.right).color
    ensures tree.repr + {y} == old(tree.repr)
  {
    y := FindSuccessor(tree, del, c, t);
    x, color := y.right, y.color;
    if y.parent == del {
      NearSuccessor(tree, del, y, x, c, t);
    } else {
      DetachSuccessor(tree, del, y, c, t);
    }
  }

  /** The two-children case of rbt_delete up to the fixup. Nodes move; no key is copied. */
  method MoveSuccessor(tree: RbTree, del: RbNode, ghost c: Ctx, ghost t: Tree) returns (x: RbNode?, color: Color)
    requires tree.At(c, t) && t.Node? && t.left.Node? && t.right.Node? && t.n == del
    modifies tree`root, tree`shape, tree`repr
    modifies tree.repr`parent, tree.repr`left, tree.repr`right, tree.repr`color
    ensures tree.At(c, Moved(t)) && tree.repr == old(tree.repr) - {del}
    ensures x == Root(MinTree(t.right).right) && color == MinTree(t.right).color
  {
    var y;
    y, x, color := PrepareSuccessor(tree, del, c, t);
    Crown(tree, del, y, c, t.left, ReplaceMin(t.right, MinTree(t.right).right));
  }

  /** The guard of the loop in rbt_delete_fixup. */
  ghost predicate FixupLoops(tree: RbTree, node: RbNode)
    reads tree, node
  {
    node != tree.root && node.color == Black
  }

  /** rbt_delete_fixup, called where its loop does not run. */
  method DeleteFixup(tree: RbTree, node: RbNode?, ghost c: Ctx, ghost t: Tree)
    requires tree.At(c, t) && node == Root(t)
    requires node != null ==> !FixupLoops(tree, node)
    requires !IsRed(Plug(c, Blacken(t)))
    modifies tree`shape, tree.repr`color
    ensures tree.At(c, Blacken(t)) && tree.repr == old(tree.repr)
  {
    if node == null {
      return;
    }
    Paint(tree, node, Black, c, t);
    ghost var s := tree.shape;
    FocusMoves(tree, c, Blacken(t), Top, s);
    Paint(tree, tree.root, Black, Top, s);
    FocusMoves(tree, Top, s, c, Blacken(t));
  }

  /** A deletion of a node that lacks a child, with its fixup. */
  method DeleteSpliced(tree: RbTree, del: RbNode, child: RbNode?, ghost c: Ctx, ghost t: Tree)
    requires tree.At(c, t) && t.Node? && t.n == del && (t.left == Leaf || t.right == Leaf)
    requires child == Root(OnlyChild(t)) && Coloured(tree.shape) && FixupIdle(c, t)
    modifies tree`root, tree`shape, tree`repr, tree.repr`parent, tree.repr`left, tree.repr`right, tree.repr`color
    ensures tree.At(c, Removed(t)) && tree.repr == old(tree.repr) - {del}
  {
    SpliceKeeps(c, t);
    SpliceOut(tree, del, child, c, t);
    DeleteFixup(tree, child, c, OnlyChild(t));
  }

  /** Where the successor's child ends up, before and after it is painted. */
  lemma MovedZipper(c: Ctx, t: Tree)
    requires t.Node? && t.left.Node? && t.right.Node? && Coloured(Plug(c, t)) && FixupIdle(c, t)
    ensures var y := MinTree(t.right);
            var d := MinCtx(In(R, y.n, t.color, y.key, t.left, c), t.right);
            && Plug(d, y.right) == Plug(c, Moved(t))
            && Plug(d, Blacken(y.right)) == Plug(c, Removed(t)) && !IsRed(Plug(c, Removed(t)))
            && (y.right.Node? ==> y.right.color != y.color)
  {
    var y := MinTree(t.right);
    var d := In(R, y.n, t.color, y.key, t.left, c);
    PlugMin(d, t.right, y.right);
    PlugMin(d, t.right, Blacken(y.right));
    RemovedKeeps(c, t);
    MinZipper(Down(c, t, R), t.right);
    NoRedRedPlug(MinCtx(Down(c, t, R), t.right), y);
  }

  /** A deletion of a node with two children, with its fixup. */
  method DeleteInner(tree: RbTree, del: RbNode, ghost c: Ctx, ghost t: Tree)
    requires tree.At(c, t) && t.Node? && t.left.Node? && t.right.Node? && t.n == del
    requires Coloured(tree.shape) && FixupIdle(c, t)
    modifies tree`root, tree`shape, tree`repr, tree.repr`parent, tree.repr`left, tree.repr`right, tree.repr`color
    ensures tree.At(c, Removed(t)) && tree.repr == old(tree.repr) - {del}
  {
    MovedZipper(c, t);
    ghost var y := MinTree(t.right);
    ghost var d := MinCtx(In(R, y.n, t.color, y.key, t.left, c), t.right);
    var x, color := MoveSuccessor(tree, del, c, t);
    FocusMoves(tree, c, Moved(t), d, y.right);
    if color == Black {
      DeleteFixup(tree, x, d, y.right);
    }
    FocusMoves(tree, d, Blacken(y.right), c, Removed(t));
  }

  lemma DropMiddle(a: seq<Entry>, l: seq<Entry>, e: Entry, r: seq<Entry>, b: seq<Entry>)
    ensures var s, i := a + (l + [e] + r) + b, |a| + |l|;
            s[..i] + s[i + 1..] == a + (l + r) + b
  {
    var s, i := a + (l + [e] + r) + b, |a| + |l|;
    assert s[..i] == a + l;
    assert s[i + 1..] == r + b;
  }

  lemma DeletedEntries(c: Ctx, t: Tree)
    requires t.Node? && Sorted(Inorder(Plug(c, t)))
    ensures var s, i := Inorder(Plug(c, t)), Rank(c, t);
            i < |s| && Inorder(Plug(c, Removed(t))) == s[..i] + s[i + 1..] && Sorted(s[..i] + s[i + 1..])
  {
    InorderPlug(c, t);
    InorderPlug(c, Removed(t));
    RemovedEntries(t);
    DropMiddle(Before(c), Inorder(t.left), Entry(t.n, t.key), Inorder(t.right), After(c));
    SortedWithout(Inorder(Plug(c, t)), Rank(c, t));
  }

  lemma SortedWithout(s: seq<Entry>, i: nat)
    requires Sorted(s) && i < |s|
    ensures Sorted(s[..i] + s[i + 1..])
  {
    var r := s[..i] + s[i + 1..];
    assert forall j :: 0 <= j < |r| ==> r[j] == s[if j < i then j else j + 1];
  }

  /** The three cases of rbt_delete. */
  method DeleteAt(tree: RbTree, del: RbNode, ghost c: Ctx, ghost t: Tree)
    requires tree.At(c, t) && t.Node? && t.n == del && Coloured(tree.shape) && FixupIdle(c, t)
    modifies tree`root, tree`shape, tree`repr, tree.repr`parent, tree.repr`left, tree.repr`right, tree.repr`color
    ensures tree.Linked() && tree.shape == Plug(c, Removed(t)) && tree.repr == old(tree.repr) - {del}
  {
    Surroundings(tree, c, t);
    if del.left == null {
      DeleteSpliced(tree, del, del.right, c, t);
    } else if del.right == null {
      DeleteSpliced(tree, del, del.left, c, t);
    } else {
      DeleteInner(tree, del, c, t);
    }
    Focus(tree, c, Removed(t));
  }

  /** The deletion without the node count. */
  method DeleteNode(tree: RbTree, del: RbNode, ghost c: Ctx, ghost t: Tree)
    requires tree.Linked() && Searchable(tree.shape)
    requires tree.shape == Plug(c, t) && t.Node? && t.n == del && FixupIdle(c, t)
    modifies tree`root, tree`shape, tree`repr, tree.repr`parent, tree.repr`left, tree.repr`right, tree.repr`color
    ensures tree.Linked() && Searchable(tree.shape) && tree.shape == Plug(c, Removed(t))
    ensures tree.repr == old(tree.repr) - {del}
  {
    Focus(tree, c, t);
    DeletedEntries(c, t);
    RemovedKeeps(c, t);
    DeleteAt(tree, del, c, t);
  }

  /** rbt_delete of the node at place (c, t) of the tree, when the fixup loop is not entered. The node leaves, and
      every other node object stays with its key and values. From a tree with all red-black rules, where the loop
      is never entered (RuledIsIdle), the black counts stay equal exactly when CountsSurvive(c, t). */
  method Delete(tree: RbTree, del: RbNode, ghost c: Ctx, ghost t: Tree)
    requires tree.Valid() && tree.shape == Plug(c, t) && t.Node? && t.n == del && FixupIdle(c, t)
    modifies tree, tree.repr`parent, tree.repr`left, tree.repr`right, tree.repr`color
    ensures tree.Valid() && tree.repr == old(tree.repr) - {del}
    ensures var s, i := old(tree.Entries()), Rank(c, t);
            i < |s| && s[i].n == del && tree.Entries() == s[..i] + s[i + 1..]
    ensures old(Balanced(tree.shape)) ==> (Balanced(tree.shape) <==> CountsSurvive(c, t))
  {
    RankEntry(c, t);
    DeletedEntries(c, t);
    RemovedKeeps(c, t);
    DeleteNode(tree, del, c, t);
    tree.numNodes := tree.numNodes - 1;
  }
}
