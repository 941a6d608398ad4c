/** The steps of rbt_insert_fixup as functions on zippers, and what each of them keeps. */
module RbFixup {
  import opened RbShape
  import opened RbHeap

  /** The tree holds a red node in the hole, and every colour rule holds except
      perhaps between that node and its parent. */
  predicate Fixing(c: Ctx, t: Tree) {
    IsRed(t) && NoRedRed(t) && NoRedRedCtx(c) && BlackTop(c)
  }

  predicate BalancedAt(c: Ctx, t: Tree) {
    Balanced(t) && BalancedCtx(c, Blacks(t))
  }

  /** With a red parent the grandparent exists and is black. */
  predicate NeedsFix(c: Ctx, t: Tree) {
    t.Node? && c.In? && c.color == Red && c.up.In? && c.up.color == Black
  }

  lemma RedParentHasGrandparent(c: Ctx, t: Tree)
    requires Fixing(c, t) && RedCtx(c)
    ensures NeedsFix(c, t)
  {}

  /** The subtree rooted at the parent. */
  function ParentTree(c: Ctx, t: Tree): Tree
    requires c.In?
  {
    Join(c.side, t, c.n, c.color, c.key, c.sibling)
  }

  /** The subtree rooted at the grandparent. */
  function GrandTree(c: Ctx, t: Tree): Tree
    requires c.In? && c.up.In?
  {
    ParentTree(c.up, ParentTree(c, t))
  }

  /** Red uncle: parent and uncle turn black, the grandparent turns red and becomes the focus. */
  function RecolorTree(c: Ctx, t: Tree): Tree
    requires NeedsFix(c, t) && IsRed(c.up.sibling)
  {
    Join(c.up.side, Join(c.side, t, c.n, Black, c.key, c.sibling),
         c.up.n, Red, c.up.key, c.up.sibling.(color := Black))
  }

  /** Inner child: rotate the parent away from the grandparent; the old parent becomes the focus. */
  function InnerTree(c: Ctx, t: Tree): Tree
    requires NeedsFix(c, t)
  {
    Join(c.side, if c.side == L then t.right else t.left, c.n, c.color, c.key, c.sibling)
  }

  function InnerCtx(c: Ctx, t: Tree): Ctx
    requires NeedsFix(c, t)
  {
    In(Opposite(c.side), t.n, t.color, t.key, if c.side == L then t.left else t.right, c.up)
  }

  /** Outer child: the parent turns black and takes the place of the grandparent, now red below it. */
  function OuterCtx(c: Ctx, t: Tree): Ctx
    requires NeedsFix(c, t)
  {
    In(c.side, c.n, Black, c.key,
       Join(c.side, c.sibling, c.up.n, Red, c.up.key, c.up.sibling), c.up.up)
  }

  lemma RecolorKeeps(c: Ctx, t: Tree)
    requires NeedsFix(c, t) && IsRed(c.up.sibling) && Fixing(c, t)
    ensures Fixing(c.up.up, RecolorTree(c, t))
    ensures BalancedAt(c, t) ==> BalancedAt(c.up.up, RecolorTree(c, t))
    ensures Inorder(RecolorTree(c, t)) == Inorder(GrandTree(c, t))
  {
    assert NoRedRedCtx(c.up) && BlackTop(c.up);
    assert BalancedCtx(c, Blacks(t)) ==> BalancedCtx(c.up, Blacks(t));
    var u, p := c.up.sibling.(color := Black), Join(c.side, t, c.n, Black, c.key, c.sibling);
    assert NoRedRed(u) && NoRedRed(p);
    assert Inorder(u) == Inorder(c.up.sibling) && Inorder(p) == Inorder(ParentTree(c, t));
    assert BalancedAt(c, t) ==> Balanced(u) && Balanced(p) && Blacks(u) == Blacks(p) == Blacks(t) + 1;
  }

  lemma InnerKeeps(c: Ctx, t: Tree)
    requires NeedsFix(c, t) && Fixing(c, t) && c.side != c.up.side
    ensures Fixing(InnerCtx(c, t), InnerTree(c, t)) && NeedsFix(InnerCtx(c, t), InnerTree(c, t))
    ensures BalancedAt(c, t) ==> BalancedAt(InnerCtx(c, t), InnerTree(c, t))
  {}

  lemma OuterKeeps(c: Ctx, t: Tree)
    requires NeedsFix(c, t) && Fixing(c, t) && !IsRed(c.up.sibling)
    ensures Fixing(OuterCtx(c, t), t) && !RedCtx(OuterCtx(c, t))
    ensures BalancedAt(c, t) ==> BalancedAt(OuterCtx(c, t), t)
  {
    assert NoRedRedCtx(c.up) && BlackTop(c.up);
    assert BalancedCtx(c, Blacks(t)) ==> BalancedCtx(c.up, Blacks(t));
    assert NoRedRed(OuterCtx(c, t).sibling);
    assert BalancedAt(c, t) ==> BalancedCtx(c.up.up, Blacks(t) + 1);
  }

  // ----- The same steps on the heap -----

  /** An assignment to the color field. */
  method Paint(tree: RbTree, node: RbNode, color: Color, ghost c: Ctx, ghost t: Tree)
    requires tree.At(c, t) && t.Node? && t.n == node
    modifies tree`shape, node`color
    ensures tree.At(c, t.(color := color)) && tree.repr == old(tree.repr)
  {
    ghost var h := SnapOf(tree.repr);
    node.color := color;
    tree.shape := Plug(c, t.(color := color));
    PaintLinks(c, t, color, h, SnapOf(tree.repr));
  }

  lemma PaintLinks(c: Ctx, t: Tree, color: Color, h: Snap, h': Snap)
    requires t.Node? && Zipped(c, t, h) && h.Keys == Nodes(t) + CtxNodes(c)
    requires h' == h[t.n := h[t.n].(color := color)]
    ensures Zipped(c, t.(color := color), h')
    ensures Nodes(t.(color := color)) == Nodes(t)
  {
    LinkedFrame(t.left, t.n, h, h');
    LinkedFrame(t.right, t.n, h, h');
    LinkedCtxFrame(c, t.n, h, h');
  }

  /** The red-uncle case: three colour writes. */
  method PaintFamily(tree: RbTree, uncle: RbNode, parent: RbNode, grand: RbNode, ghost c: Ctx, ghost t: Tree)
    requires tree.At(c, t) && NeedsFix(c, t) && IsRed(c.up.sibling)
    requires uncle == c.up.sibling.n && parent == c.n && grand == c.up.n
    modifies tree`shape, tree.repr`color
    ensures tree.At(c.up.up, RecolorTree(c, t)) && tree.repr == old(tree.repr)
  {
    ghost var g := c.up;
    ghost var p := ParentTree(c, t);
    FocusMoves(tree, c, t, In(Opposite(g.side), g.n, g.color, g.key, p, g.up), g.sibling);
    Paint(tree, uncle, Black, In(Opposite(g.side), g.n, g.color, g.key, p, g.up), g.sibling);
    ghost var u := g.sibling.(color := Black);
    FocusMoves(tree, In(Opposite(g.side), g.n, g.color, g.key, p, g.up), u,
               In(g.side, g.n, g.color, g.key, u, g.up), p);
    Paint(tree, parent, Black, In(g.side, g.n, g.color, g.key, u, g.up), p);
    ghost var p' := p.(color := Black);
    FocusMoves(tree, In(g.side, g.n, g.color, g.key, u, g.up), p',
               g.up, Join(g.side, p', g.n, g.color, g.key, u));
    Paint(tree, grand, Red, g.up, Join(g.side, p', g.n, g.color, g.key, u));
  }

  /** The two colour writes before the last rotation. */
  method PaintOuter(tree: RbTree, parent: RbNode, grand: RbNode, ghost c: Ctx, ghost t: Tree)
    requires tree.At(c, t) && NeedsFix(c, t)
    requires parent == c.n && grand == c.up.n
    modifies tree`shape, tree.repr`color
    ensures tree.At(c.up.up, Join(c.up.side, Join(c.side, t, c.n, Black, c.key, c.sibling),
                                  c.up.n, Red, c.up.key, c.up.sibling))
    ensures tree.repr == old(tree.repr)
  {
    ghost var g := c.up;
    ghost var p := ParentTree(c, t);
    FocusMoves(tree, c, t, g, p);
    Paint(tree, parent, Black, g, p);
    ghost var p' := p.(color := Black);
    FocusMoves(tree, g, p', g.up, ParentTree(g, p'));
    Paint(tree, grand, Red, g.up, ParentTree(g, p'));
  }
}
