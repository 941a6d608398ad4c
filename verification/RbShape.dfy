/** Red-black trees of lib/rbtree.c.

    The kernel's tree is a heap of nodes with parent, left and right pointers.
    Its meaning is a shape: an algebraic tree whose nodes name the heap objects.
    `Linked` says that a snapshot of the heap has exactly the links of a shape.
    A position inside a tree is a zipper: a context with a hole, plus the subtree
    in the hole. Rotations, recolourings and splices are small steps on zippers. */
module RbShape {
  import opened Common

  /** A uint64_t. */
  type Key = k: int | 0 <= k < WORD

  /** uint64_t arithmetic wraps around. */
  function Wrap(x: nat): (k: Key)
    ensures x < WORD ==> k == x
    ensures WORD <= x < 2 * WORD ==> k == x - WORD
  {
    x % WORD
  }

  datatype Color = Red | Black

  /** The three words a caller may keep in a node. */
  datatype Extra = Extra(value: Key, value2: Key, value3: Key)

  class RbNode {
    var parent: RbNode?
    var left: RbNode?
    var right: RbNode?
    var color: Color
    var key: Key
    var extra: Extra

    constructor (key: Key, parent: RbNode?)
      ensures this.key == key && this.parent == parent
      ensures left == null && right == null && color == Red
      ensures extra == Extra(0, 0, 0)
    {
      this.key := key;
      this.parent := parent;
      left, right, color := null, null, Red;
      extra := Extra(0, 0, 0);
    }
  }

  /** The fields of one node that the algorithms read and write. */
  datatype Cell = Cell(parent: RbNode?, left: RbNode?, right: RbNode?, color: Color, key: Key)

  type Snap = map<RbNode, Cell>

  ghost function SnapOf(nodes: set<RbNode>): (h: Snap)
    reads nodes
    ensures h.Keys == nodes
  {
    map n | n in nodes :: Cell(n.parent, n.left, n.right, n.color, n.key)
  }

  datatype Tree = Leaf | Node(left: Tree, n: RbNode, color: Color, key: Key, right: Tree)

  datatype Side = L | R

  /** The path from a hole up to the root: on each level the hole lies on `side`
      of node `n`, whose other child is `sibling`. */
  datatype Ctx = Top | In(side: Side, n: RbNode, color: Color, key: Key, sibling: Tree, up: Ctx)

  function Opposite(s: Side): Side { if s == L then R else L }

  function Join(side: Side, t: Tree, n: RbNode, color: Color, key: Key, sibling: Tree): Tree {
    if side == L then Node(t, n, color, key, sibling) else Node(sibling, n, color, key, t)
  }

  function Plug(c: Ctx, t: Tree): Tree {
    match c
    case Top => t
    case In(side, n, color, key, sibling, up) => Plug(up, Join(side, t, n, color, key, sibling))
  }

  function Root(t: Tree): RbNode? { if t.Leaf? then null else t.n }

  function Parent(c: Ctx): RbNode? { if c.Top? then null else c.n }

  /** The object at the top of the whole tree when the hole holds `hole`. */
  function CtxRoot(c: Ctx, hole: RbNode?): RbNode? {
    if c.Top? then hole else CtxRoot(c.up, c.n)
  }

  ghost function Nodes(t: Tree): set<RbNode> {
    if t.Leaf? then {} else Nodes(t.left) + {t.n} + Nodes(t.right)
  }

  ghost function CtxNodes(c: Ctx): set<RbNode> {
    if c.Top? then {} else {c.n} + Nodes(c.sibling) + CtxNodes(c.up)
  }

  // ----- Links -----

  ghost predicate Linked(t: Tree, p: RbNode?, h: Snap) {
    t.Node? ==>
      && t.n in h
      && h[t.n] == Cell(p, Root(t.left), Root(t.right), t.color, t.key)
      && Linked(t.left, t.n, h)
      && Linked(t.right, t.n, h)
  }

  ghost predicate LinkedCtx(c: Ctx, hole: RbNode?, h: Snap) {
    c.In? ==>
      && c.n in h
      && h[c.n] == Cell(Parent(c.up),
                        if c.side == L then hole else Root(c.sibling),
                        if c.side == L then Root(c.sibling) else hole,
                        c.color, c.key)
      && Linked(c.sibling, c.n, h)
      && LinkedCtx(c.up, c.n, h)
  }

  ghost predicate Distinct(t: Tree) {
    t.Node? ==>
      && t.n !in Nodes(t.left) && t.n !in Nodes(t.right)
      && Nodes(t.left) !! Nodes(t.right)
      && Distinct(t.left) && Distinct(t.right)
  }

  ghost predicate DistinctCtx(c: Ctx) {
    c.In? ==>
      && c.n !in Nodes(c.sibling) && c.n !in CtxNodes(c.up)
      && Nodes(c.sibling) !! CtxNodes(c.up)
      && Distinct(c.sibling) && DistinctCtx(c.up)
  }

  /** Heap `h` holds tree `t` in context `c`, and no object occurs twice. */
  ghost predicate Zipped(c: Ctx, t: Tree, h: Snap) {
    && Linked(t, Parent(c), h) && LinkedCtx(c, Root(t), h)
    && Distinct(t) && DistinctCtx(c) && Nodes(t) !! CtxNodes(c)
  }

  ghost predicate Whole(t: Tree, h: Snap) {
    Linked(t, null, h) && Distinct(t)
  }

  /** A zipper is the same statement about the heap as the whole tree. */
  lemma {:induction false} PlugWhole(c: Ctx, t: Tree, h: Snap)
    ensures Whole(Plug(c, t), h) <==> Zipped(c, t, h)
    ensures Nodes(Plug(c, t)) == Nodes(t) + CtxNodes(c)
    ensures Root(Plug(c, t)) == CtxRoot(c, Root(t))
    decreases c
  {
    if c.In? {
      PlugWhole(c.up, Join(c.side, t, c.n, c.color, c.key, c.sibling), h);
    }
  }

  lemma RootIn(t: Tree)
    ensures Root(t) != null ==> Root(t) in Nodes(t)
  {}

  lemma {:induction false} LinkedNodes(t: Tree, p: RbNode?, h: Snap)
    requires Linked(t, p, h)
    ensures Nodes(t) <= h.Keys
  {
    if t.Node? {
      LinkedNodes(t.left, t.n, h);
      LinkedNodes(t.right, t.n, h);
    }
  }

  lemma {:induction false} LinkedFrame(t: Tree, p: RbNode?, h: Snap, h': Snap)
    requires Linked(t, p, h)
    requires forall n :: n in Nodes(t) ==> n in h' && n in h && h'[n] == h[n]
    ensures Linked(t, p, h')
  {
    if t.Node? {
      LinkedFrame(t.left, t.n, h, h');
      LinkedFrame(t.right, t.n, h, h');
    }
  }

  lemma {:induction false} LinkedCtxFrame(c: Ctx, hole: RbNode?, h: Snap, h': Snap)
    requires LinkedCtx(c, hole, h)
    requires forall n :: n in CtxNodes(c) ==> n in h' && n in h && h'[n] == h[n]
    ensures LinkedCtx(c, hole, h')
  {
    if c.In? {
      LinkedFrame(c.sibling, c.n, h, h');
      LinkedCtxFrame(c.up, c.n, h, h');
    }
  }

  /** Changing only the parent pointer of the root moves a subtree. */
  lemma LinkedReparent(t: Tree, p: RbNode?, q: RbNode?, h: Snap, h': Snap)
    requires Linked(t, p, h) && Distinct(t)
    requires forall n :: n in Nodes(t) && n != Root(t) ==> n in h' && n in h && h'[n] == h[n]
    requires t.Node? ==> t.n in h' && h'[t.n] == h[t.n].(parent := q)
    ensures Linked(t, q, h')
  {
    if t.Node? {
      LinkedFrame(t.left, t.n, h, h');
      LinkedFrame(t.right, t.n, h, h');
    }
  }

  /** What replacing the child in the hole does to the node above it. */
  function SetChild(cell: Cell, side: Side, child: RbNode?): Cell {
    if side == L then cell.(left := child) else cell.(right := child)
  }

  lemma LinkedCtxRehole(c: Ctx, hole: RbNode?, hole': RbNode?, h: Snap, h': Snap)
    requires LinkedCtx(c, hole, h) && DistinctCtx(c)
    requires forall n :: n in CtxNodes(c) && n != Parent(c) ==> n in h' && n in h && h'[n] == h[n]
    requires c.In? ==> c.n in h' && h'[c.n] == SetChild(h[c.n], c.side, hole')
    ensures LinkedCtx(c, hole', h')
  {
    if c.In? {
      LinkedFrame(c.sibling, c.n, h, h');
      LinkedCtxFrame(c.up, c.n, h, h');
    }
  }

  // ----- Contents, in key order -----

  datatype Entry = Entry(n: RbNode, key: Key)

  ghost function Inorder(t: Tree): seq<Entry> {
    if t.Leaf? then [] else Inorder(t.left) + [Entry(t.n, t.key)] + Inorder(t.right)
  }

  /** The entries left and right of the hole. */
  ghost function Before(c: Ctx): seq<Entry> {
    if c.Top? then []
    else if c.side == L then Before(c.up)
    else Before(c.up) + Inorder(c.sibling) + [Entry(c.n, c.key)]
  }

  ghost function After(c: Ctx): seq<Entry> {
    if c.Top? then []
    else if c.side == R then After(c.up)
    else [Entry(c.n, c.key)] + Inorder(c.sibling) + After(c.up)
  }

  lemma {:induction false} InorderPlug(c: Ctx, t: Tree)
    ensures Inorder(Plug(c, t)) == Before(c) + Inorder(t) + After(c)
    decreases c
  {
    if c.In? {
      InorderPlug(c.up, Join(c.side, t, c.n, c.color, c.key, c.sibling));
    }
  }

  ghost predicate Sorted(s: seq<Entry>) {
    forall i, j :: 0 <= i < j < |s| ==> s[i].key < s[j].key
  }

  // ----- Colours -----

  predicate IsRed(t: Tree) { t.Node? && t.color == Red }

  predicate NoRedRed(t: Tree) {
    t.Node? ==>
      && (t.color == Red ==> !IsRed(t.left) && !IsRed(t.right))
      && NoRedRed(t.left) && NoRedRed(t.right)
  }

  predicate RedCtx(c: Ctx) { c.In? && c.color == Red }

  /** No red node with a red child, except perhaps between the hole's parent and the hole. */
  predicate NoRedRedCtx(c: Ctx) {
    c.In? ==>
      && (c.color == Red ==> !IsRed(c.sibling) && !RedCtx(c.up))
      && NoRedRed(c.sibling) && NoRedRedCtx(c.up)
  }

  lemma {:induction false} NoRedRedPlug(c: Ctx, t: Tree)
    ensures NoRedRed(Plug(c, t)) <==> NoRedRed(t) && NoRedRedCtx(c) && !(IsRed(t) && RedCtx(c))
    decreases c
  {
    if c.In? {
      NoRedRedPlug(c.up, Join(c.side, t, c.n, c.color, c.key, c.sibling));
    }
  }

  /** The root of the whole tree is black, if it lies above the hole. */
  predicate BlackTop(c: Ctx) {
    c.In? ==> if c.up.Top? then c.color == Black else BlackTop(c.up)
  }

  lemma {:induction false} RedPlug(c: Ctx, t: Tree)
    ensures IsRed(Plug(c, t)) <==> if c.Top? then IsRed(t) else !BlackTop(c)
    decreases c
  {
    if c.In? {
      RedPlug(c.up, Join(c.side, t, c.n, c.color, c.key, c.sibling));
    }
  }

  // ----- Black counts -----

  function Weight(c: Color): nat { if c == Black then 1 else 0 }

  /** Black nodes on the leftmost path; on every path when `Balanced`. */
  function Blacks(t: Tree): nat {
    if t.Leaf? then 0 else Blacks(t.left) + Weight(t.color)
  }

  predicate Balanced(t: Tree) {
    t.Node? ==> Blacks(t.left) == Blacks(t.right) && Balanced(t.left) && Balanced(t.right)
  }

  /** All paths have equal black counts if a subtree with count `b` fills the hole. */
  predicate BalancedCtx(c: Ctx, b: nat) {
    c.In? ==>
      Blacks(c.sibling) == b && Balanced(c.sibling) && BalancedCtx(c.up, b + Weight(c.color))
  }

  lemma {:induction false} BalancedPlug(c: Ctx, t: Tree)
    ensures Balanced(Plug(c, t)) <==> Balanced(t) && BalancedCtx(c, Blacks(t))
    decreases c
  {
    if c.In? {
      BalancedPlug(c.up, Join(c.side, t, c.n, c.color, c.key, c.sibling));
    }
  }

  /** The red-black rules other than equal black counts. */
  ghost predicate Searchable(t: Tree) {
    Sorted(Inorder(t)) && NoRedRed(t) && !IsRed(t)
  }

  function Depth(c: Ctx): nat { if c.Top? then 0 else 1 + Depth(c.up) }

  function Height(t: Tree): nat {
    if t.Leaf? then 0
    else 1 + if Height(t.left) > Height(t.right) then Height(t.left) else Height(t.right)
  }
}
