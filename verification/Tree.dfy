/** Red-black trees as values: what the linked nodes stand for. */
module Tree {
  datatype Color = Red | Black

  /** A node as it lies in memory. `key` is what the comparator looks at. */
  class RBNode {
    const key: nat
    var left: RBNode?
    var right: RBNode?
    var parent: RBNode?
    var color: Color

    constructor (key: nat)
      ensures this.key == key && left == null && right == null && parent == null && color == Red
    {
      this.key, left, right, parent, color := key, null, null, null, Red;
    }
  }

  datatype Tree = Leaf | Node(left: Tree, n: RBNode, color: Color, right: Tree)

  /** What surrounds a subtree, from the inside out. */
  datatype Ctx =
    | Top
    | LeftOf(up: Ctx, n: RBNode, color: Color, right: Tree)
    | RightOf(up: Ctx, left: Tree, n: RBNode, color: Color)

  function Plug(c: Ctx, t: Tree): Tree {
    match c
    case Top => t
    case LeftOf(up, n, col, r) => Plug(up, Node(t, n, col, r))
    case RightOf(up, l, n, col) => Plug(up, Node(l, n, col, t))
  }

  // ----- contents -----

  ghost function Nodes(t: Tree): set<RBNode> {
    match t
    case Leaf => {}
    case Node(l, n, _, r) => Nodes(l) + {n} + Nodes(r)
  }

  ghost function CtxNodes(c: Ctx): set<RBNode> {
    match c
    case Top => {}
    case LeftOf(up, n, _, r) => CtxNodes(up) + {n} + Nodes(r)
    case RightOf(up, l, n, _) => CtxNodes(up) + {n} + Nodes(l)
  }

  function Inorder(t: Tree): seq<RBNode> {
    match t
    case Leaf => []
    case Node(l, n, _, r) => Inorder(l) + [n] + Inorder(r)
  }

  /** What comes before and after the hole, in order. */
  function Before(c: Ctx): seq<RBNode> {
    match c
    case Top => []
    case LeftOf(up, _, _, _) => Before(up)
    case RightOf(up, l, n, _) => Before(up) + (Inorder(l) + [n])
  }

  function After(c: Ctx): seq<RBNode> {
    match c
    case Top => []
    case LeftOf(up, n, _, r) => [n] + Inorder(r) + After(up)
    case RightOf(up, _, _, _) => After(up)
  }

  lemma {:induction false} InorderPlug(c: Ctx, t: Tree)
    ensures Inorder(Plug(c, t)) == Before(c) + Inorder(t) + After(c)
  {
    match c
    case Top =>
    case LeftOf(up, n, col, r) => InorderPlug(up, Node(t, n, col, r));
    case RightOf(up, l, n, col) => InorderPlug(up, Node(l, n, col, t));
  }

  lemma {:induction false} NodesPlug(c: Ctx, t: Tree)
    ensures Nodes(Plug(c, t)) == CtxNodes(c) + Nodes(t)
  {
    match c
    case Top =>
    case LeftOf(up, n, col, r) => NodesPlug(up, Node(t, n, col, r));
    case RightOf(up, l, n, col) => NodesPlug(up, Node(l, n, col, t));
  }

  lemma {:induction false} InorderNodes(t: Tree, n: RBNode)
    ensures n in Inorder(t) <==> n in Nodes(t)
  {
    match t
    case Leaf =>
    case Node(l, _, _, r) =>
      InorderNodes(l, n);
      InorderNodes(r, n);
  }

  // ----- every node occurs once -----

  ghost predicate Distinct(t: Tree) {
    match t
    case Leaf => true
    case Node(l, n, _, r) => n !in Nodes(l) && n !in Nodes(r) && Nodes(l) !! Nodes(r) && Distinct(l) && Distinct(r)
  }

  ghost predicate CtxDistinct(c: Ctx) {
    match c
    case Top => true
    case LeftOf(up, n, _, r) => n !in CtxNodes(up) && n !in Nodes(r) && Nodes(r) !! CtxNodes(up) && Distinct(r) && CtxDistinct(up)
    case RightOf(up, l, n, _) => n !in CtxNodes(up) && n !in Nodes(l) && Nodes(l) !! CtxNodes(up) && Distinct(l) && CtxDistinct(up)
  }

  ghost predicate Apart(c: Ctx, t: Tree) {
    Nodes(t) !! CtxNodes(c) && Distinct(t) && CtxDistinct(c)
  }

  lemma {:induction false} ApartPlug(c: Ctx, t: Tree)
    ensures Apart(c, t) <==> Distinct(Plug(c, t))
  {
    match c
    case Top =>
    case LeftOf(up, n, col, r) => ApartPlug(up, Node(t, n, col, r));
    case RightOf(up, l, n, col) => ApartPlug(up, Node(l, n, col, t));
  }

  // ----- the linked nodes -----

  /** The nodes linked from `n` are the tree `t`, with parent `p` above it. */
  ghost predicate IsTree(t: Tree, n: RBNode?, p: RBNode?)
    reads Nodes(t)
  {
    match t
    case Leaf => n == null
    case Node(l, x, c, r) => n == x && x.parent == p && x.color == c && IsTree(l, x.left, x) && IsTree(r, x.right, x)
  }

  /** The node above the hole. */
  function Parent(c: Ctx): RBNode? {
    match c
    case Top => null
    case LeftOf(_, n, _, _) => n
    case RightOf(_, _, n, _) => n
  }

  /** The nodes linked around a hole that holds `hole` are the context `c`, from `root` down. */
  ghost predicate IsCtx(c: Ctx, hole: RBNode?, root: RBNode?)
    reads CtxNodes(c)
  {
    match c
    case Top => hole == root
    case LeftOf(up, n, col, r) =>
      n.left == hole && n.color == col && n.parent == Parent(up) && IsTree(r, n.right, n) && IsCtx(up, n, root)
    case RightOf(up, l, n, col) =>
      n.right == hole && n.color == col && n.parent == Parent(up) && IsTree(l, n.left, n) && IsCtx(up, n, root)
  }

  /** A context around a tree is linked exactly as the whole is. */
  lemma {:induction false} PlugIsTree(c: Ctx, t: Tree, hole: RBNode?, root: RBNode?)
    requires IsCtx(c, hole, root) && IsTree(t, hole, Parent(c))
    ensures IsTree(Plug(c, t), root, null)
  {
    match c
    case Top =>
    case LeftOf(up, n, col, r) => PlugIsTree(up, Node(t, n, col, r), n, root);
    case RightOf(up, l, n, col) => PlugIsTree(up, Node(l, n, col, t), n, root);
  }

  // ----- colours -----

  predicate IsRed(t: Tree) { t.Node? && t.color == Red }

  predicate NoRedRed(t: Tree) {
    match t
    case Leaf => true
    case Node(l, _, c, r) => (c == Red ==> !IsRed(l) && !IsRed(r)) && NoRedRed(l) && NoRedRed(r)
  }

  function BlackCount(c: Color): nat { if c == Black then 1 else 0 }

  /** Every path from the root to a leaf has `h` black nodes. */
  predicate Balanced(t: Tree, h: nat) {
    match t
    case Leaf => h == 0
    case Node(l, _, c, r) => h >= BlackCount(c) && Balanced(l, h - BlackCount(c)) && Balanced(r, h - BlackCount(c))
  }

  ghost predicate IsBalanced(t: Tree) {
    exists h: nat :: Balanced(t, h)
  }

  /** A valid red-black tree. */
  ghost predicate RedBlack(t: Tree) {
    !IsRed(t) && NoRedRed(t) && IsBalanced(t)
  }

  /** The context is one in which a tree of black height `h` makes a red-black tree, except that
      the tree's root and the node above it may both be red. */
  predicate CtxBalanced(c: Ctx, h: nat) {
    match c
    case Top => true
    case LeftOf(up, _, col, r) => Balanced(r, h) && CtxBalanced(up, h + BlackCount(col))
    case RightOf(up, l, _, col) => Balanced(l, h) && CtxBalanced(up, h + BlackCount(col))
  }

  predicate CtxIsRed(c: Ctx) { !c.Top? && c.color == Red }

  predicate CtxNoRedRed(c: Ctx) {
    match c
    case Top => true
    case LeftOf(up, _, col, r) => (col == Red ==> !IsRed(r) && !CtxIsRed(up) && !up.Top?) && NoRedRed(r) && CtxNoRedRed(up)
    case RightOf(up, l, _, col) => (col == Red ==> !IsRed(l) && !CtxIsRed(up) && !up.Top?) && NoRedRed(l) && CtxNoRedRed(up)
  }

  /** Colours of a context and of the tree in its hole make those of the whole. */
  lemma {:induction false} BalancedPlug(c: Ctx, t: Tree, h: nat)
    requires Balanced(t, h) && CtxBalanced(c, h)
    ensures IsBalanced(Plug(c, t))
  {
    match c
    case Top =>
    case LeftOf(up, n, col, r) => BalancedPlug(up, Node(t, n, col, r), h + BlackCount(col));
    case RightOf(up, l, n, col) => BalancedPlug(up, Node(l, n, col, t), h + BlackCount(col));
  }

  lemma {:induction false} NoRedRedPlug(c: Ctx, t: Tree)
    requires NoRedRed(t) && CtxNoRedRed(c) && (CtxIsRed(c) || c.Top? ==> !IsRed(t))
    ensures NoRedRed(Plug(c, t)) && !IsRed(Plug(c, t))
  {
    match c
    case Top =>
    case LeftOf(up, n, col, r) => NoRedRedPlug(up, Node(t, n, col, r));
    case RightOf(up, l, n, col) => NoRedRedPlug(up, Node(l, n, col, t));
  }

  /** And back. */
  lemma {:induction false} PlugColours(c: Ctx, t: Tree)
    requires NoRedRed(Plug(c, t)) && !IsRed(Plug(c, t))
    ensures NoRedRed(t) && CtxNoRedRed(c) && (CtxIsRed(c) || c.Top? ==> !IsRed(t))
  {
    match c
    case Top =>
    case LeftOf(up, n, col, r) => PlugColours(up, Node(t, n, col, r));
    case RightOf(up, l, n, col) => PlugColours(up, Node(l, n, col, t));
  }

  lemma {:induction false} PlugHeights(c: Ctx, t: Tree, h: nat) returns (k: nat)
    requires Balanced(Plug(c, t), h)
    ensures Balanced(t, k) && CtxBalanced(c, k)
  {
    match c
    case Top => k := h;
    case LeftOf(up, n, col, r) =>
      k := PlugHeights(up, Node(t, n, col, r), h);
      k := k - BlackCount(col);
    case RightOf(up, l, n, col) =>
      k := PlugHeights(up, Node(l, n, col, t), h);
      k := k - BlackCount(col);
  }

  // ----- the repair after an insertion, on values -----

  /** The tree with its root painted. */
  function Paint(t: Tree, c: Color): Tree {
    if t.Node? then t.(color := c) else t
  }

  /** The innermost node of the context, painted, with `t` in the hole. */
  function Around(c: Ctx, t: Tree, col: Color): Tree
    requires !c.Top?
  {
    match c
    case LeftOf(_, n, _, r) => Node(t, n, col, r)
    case RightOf(_, l, n, _) => Node(l, n, col, t)
  }

  /** The subtree on the other side of the innermost node. */
  function Sibling(c: Ctx): Tree
    requires !c.Top?
  {
    match c
    case LeftOf(_, _, _, r) => r
    case RightOf(_, l, _, _) => l
  }

  /** The uncle of the hole's tree. */
  function Uncle(c: Ctx): Tree
    requires !c.Top? && !c.up.Top?
  {
    Sibling(c.up)
  }

  /** Red uncle: parent and uncle become black, the grandparent red. */
  function Recolored(c: Ctx, t: Tree): Tree
    requires !c.Top? && !c.up.Top?
  {
    var p := Around(c, t, Black);
    match c.up
    case LeftOf(_, g, _, u) => Node(p, g, Red, Paint(u, Black))
    case RightOf(_, u, g, _) => Node(Paint(u, Black), g, Red, p)
  }

  ghost predicate Repairable(c: Ctx, t: Tree) {
    IsRed(t) && NoRedRed(t) && CtxNoRedRed(c) && SameHeight(c, t)
  }

  ghost predicate SameHeight(c: Ctx, t: Tree) {
    exists h: nat :: Balanced(t, h) && CtxBalanced(c, h)
  }

  /** The root is black, unless the hole is the root. */
  predicate RootBlack(c: Ctx) {
    match c
    case Top => true
    case LeftOf(up, _, col, _) => if up.Top? then col == Black else RootBlack(up)
    case RightOf(up, _, _, col) => if up.Top? then col == Black else RootBlack(up)
  }

  function Depth(c: Ctx): nat {
    match c
    case Top => 0
    case LeftOf(up, _, _, _) => 1 + Depth(up)
    case RightOf(up, _, _, _) => 1 + Depth(up)
  }

  lemma PlugAround(c: Ctx, t: Tree)
    requires !c.Top?
    ensures Plug(c, t) == Plug(c.up, Around(c, t, c.color))
  {
  }

  lemma RecoloredInorder(c: Ctx, t: Tree)
    requires !c.Top? && !c.up.Top?
    ensures Inorder(Plug(c.up.up, Recolored(c, t))) == Inorder(Plug(c, t))
  {
    InorderPlug(c.up.up, Recolored(c, t));
    InorderPlug(c.up.up, Around(c.up, Around(c, t, c.color), c.up.color));
    PlugAround(c, t);
    PlugAround(c.up, Around(c, t, c.color));
  }

  lemma RecoloredRepairable(c: Ctx, t: Tree)
    requires !c.Top? && !c.up.Top? && Repairable(c, t) && c.color == Red && IsRed(Uncle(c))
    ensures Repairable(c.up.up, Recolored(c, t))
  {
    var h: nat :| Balanced(t, h) && CtxBalanced(c, h);
    assert CtxBalanced(c.up, h) && c.up.color == Black;
    assert CtxNoRedRed(c.up);
    assert CtxNoRedRed(c.up.up);
    assert NoRedRed(Around(c, t, Black)) && NoRedRed(Paint(Uncle(c), Black));
    var p := Around(c, t, Black);
    assert Balanced(p, h + 1);
    assert Balanced(Uncle(c), h) && Balanced(Paint(Uncle(c), Black), h + 1);
    assert Balanced(Recolored(c, t), h + 1) && CtxBalanced(c.up.up, h + 1);
  }

  // The shape that the second rotation works on: the red child on the outer side.

  datatype Outer = Outer(a: Tree, p: RBNode, b: Tree)

  /** `t` in context `c` is below a left child. */
  function OuterLeft(c: Ctx, t: Tree): Outer
    requires !c.Top? && t.Node?
  {
    match c
    case LeftOf(_, p, _, r) => Outer(t, p, r)
    case RightOf(_, l, p, _) => Outer(Node(l, p, Red, t.left), t.n, t.right)
  }

  /** `t` in context `c` is below a right child. */
  function OuterRight(c: Ctx, t: Tree): Outer
    requires !c.Top? && t.Node?
  {
    match c
    case LeftOf(_, p, _, r) => Outer(Node(t.right, p, Red, r), t.n, t.left)
    case RightOf(_, l, p, _) => Outer(t, p, l)
  }

  /** What surrounds the outer child after the rotation of the grandparent. */
  function RotatedCtx(c: Ctx, t: Tree): Ctx
    requires !c.Top? && !c.up.Top? && t.Node?
  {
    match c.up
    case LeftOf(up, g, _, u) =>
      var o := OuterLeft(c, t);
      LeftOf(up, o.p, Black, Node(o.b, g, Red, u))
    case RightOf(up, u, g, _) =>
      var o := OuterRight(c, t);
      RightOf(up, Node(u, g, Red, o.b), o.p, Black)
  }

  function RotatedTree(c: Ctx, t: Tree): Tree
    requires !c.Top? && !c.up.Top? && t.Node?
  {
    if c.up.LeftOf? then OuterLeft(c, t).a else OuterRight(c, t).a
  }

  lemma RotatedInorder(c: Ctx, t: Tree)
    requires !c.Top? && !c.up.Top? && t.Node?
    ensures Inorder(Plug(RotatedCtx(c, t), RotatedTree(c, t))) == Inorder(Plug(c, t))
  {
    var d, a := RotatedCtx(c, t), RotatedTree(c, t);
    var up := c.up.up;
    PlugAround(d, a);
    PlugAround(c, t);
    PlugAround(c.up, Around(c, t, c.color));
    InorderPlug(up, Around(d, a, Black));
    InorderPlug(up, Around(c.up, Around(c, t, c.color), c.up.color));
    SameInorder(c, t);
  }

  lemma Regroup(a: seq<RBNode>, p: RBNode, b: seq<RBNode>, g: RBNode, u: seq<RBNode>)
    ensures a + [p] + (b + [g] + u) == (a + [p] + b) + [g] + u
  {
  }

  lemma InorderRight(a: Tree, p: RBNode, pc: Color, b: Tree, g: RBNode, gc: Color, u: Tree)
    ensures Inorder(Node(a, p, pc, Node(b, g, gc, u))) == Inorder(a) + [p] + (Inorder(b) + [g] + Inorder(u))
    ensures Inorder(Node(a, p, pc, Node(b, g, gc, u))) == Inorder(Node(Node(a, p, gc, b), g, pc, u))
  {
    assert Inorder(Node(b, g, gc, u)) == Inorder(b) + [g] + Inorder(u);
    assert Inorder(Node(a, p, gc, b)) == Inorder(a) + [p] + Inorder(b);
    Regroup(Inorder(a), p, Inorder(b), g, Inorder(u));
  }

  /** Rotations change neither order nor contents. */
  lemma SameInorder(c: Ctx, t: Tree)
    requires !c.Top? && !c.up.Top? && t.Node?
    ensures Inorder(Around(RotatedCtx(c, t), RotatedTree(c, t), Black)) == Inorder(Around(c.up, Around(c, t, c.color), c.up.color))
  {
    var g, u := c.up.n, Uncle(c);
    if c.up.LeftOf? {
      var o := OuterLeft(c, t);
      InorderRight(o.a, o.p, Black, o.b, g, Red, u);
      var inner := Around(c, t, c.color);
      if c.RightOf? {
        InorderRight(c.left, c.n, Black, t.left, t.n, Red, t.right);
      }
      assert Inorder(Node(o.a, o.p, Red, o.b)) == Inorder(inner);
      assert Inorder(Node(inner, g, c.up.color, u)) == Inorder(inner) + [g] + Inorder(u);
    } else {
      var o := OuterRight(c, t);
      InorderRight(u, g, Black, o.b, o.p, Red, o.a);
      var inner := Around(c, t, c.color);
      if c.LeftOf? {
        InorderRight(t.left, t.n, Black, t.right, c.n, Red, c.right);
      }
      assert Inorder(Node(o.b, o.p, Red, o.a)) == Inorder(inner);
      assert Inorder(Node(u, g, c.up.color, inner)) == Inorder(u) + [g] + Inorder(inner);
    }
  }

  lemma RotatedRepairable(c: Ctx, t: Tree)
    requires !c.Top? && !c.up.Top? && Repairable(c, t) && c.color == Red && !IsRed(Uncle(c))
    ensures Repairable(RotatedCtx(c, t), RotatedTree(c, t))
  {
    var h: nat :| Balanced(t, h) && CtxBalanced(c, h);
    assert CtxBalanced(c.up, h) && c.up.color == Black && CtxNoRedRed(c.up) && CtxNoRedRed(c.up.up);
    var o := if c.up.LeftOf? then OuterLeft(c, t) else OuterRight(c, t);
    assert NoRedRed(o.a) && IsRed(o.a) && NoRedRed(o.b) && !IsRed(o.b) && Balanced(o.a, h) && Balanced(o.b, h);
    RotatedIsRedBlack(c.up.up, o.a, o.p, o.b, c.up.n, Uncle(c), h);
    assert CtxBalanced(RotatedCtx(c, t), h);
  }

  /** Black uncle, after the outer child has been made: the rotated trees are red-black again. */
  lemma RotatedIsRedBlack(up: Ctx, a: Tree, p: RBNode, b: Tree, g: RBNode, u: Tree, h: nat)
    requires CtxNoRedRed(up) && CtxBalanced(up, h + 1)
    requires NoRedRed(a) && NoRedRed(b) && NoRedRed(u) && !IsRed(b) && !IsRed(u)
    requires Balanced(a, h) && Balanced(b, h) && Balanced(u, h)
    ensures CtxNoRedRed(LeftOf(up, p, Black, Node(b, g, Red, u))) && CtxBalanced(LeftOf(up, p, Black, Node(b, g, Red, u)), h)
    ensures CtxNoRedRed(RightOf(up, Node(u, g, Red, b), p, Black)) && CtxBalanced(RightOf(up, Node(u, g, Red, b), p, Black), h)
  {
    hide NoRedRed, Balanced;
    RedNode(b, g, u, h);
    RedNode(u, g, b, h);
  }

  /** A red node over two trees with black roots is as good as they are. */
  lemma RedNode(l: Tree, n: RBNode, r: Tree, h: nat)
    requires NoRedRed(l) && NoRedRed(r) && !IsRed(l) && !IsRed(r) && Balanced(l, h) && Balanced(r, h)
    ensures NoRedRed(Node(l, n, Red, r)) && Balanced(Node(l, n, Red, r), h)
  {
  }

  lemma {:induction false} BlackRootAbove(c: Ctx, t: Tree)
    requires !IsRed(Plug(c, t))
    ensures RootBlack(c)
  {
    match c
    case Top =>
    case LeftOf(up, n, col, r) => BlackRootAbove(up, Node(t, n, col, r));
    case RightOf(up, l, n, col) => BlackRootAbove(up, Node(l, n, col, t));
  }

  // ----- search order -----

  ghost predicate Sorted(s: seq<RBNode>) {
    forall i, j :: 0 <= i < j < |s| ==> s[i].key <= s[j].key
  }

  ghost predicate AllAtMost(s: seq<RBNode>, k: nat) {
    forall i :: 0 <= i < |s| ==> s[i].key <= k
  }

  ghost predicate AllAbove(s: seq<RBNode>, k: nat) {
    forall i :: 0 <= i < |s| ==> s[i].key > k
  }

  lemma SplitSorted(a: seq<RBNode>, n: RBNode, b: seq<RBNode>, k: nat)
    requires Sorted(a + [n] + b)
    ensures n.key <= k ==> AllAtMost(a + [n], k)
    ensures n.key > k ==> AllAbove([n] + b, k)
  {
    var s := a + [n] + b;
    assert s[|a|] == n;
    forall i | 0 <= i < |a + [n]| && n.key <= k ensures (a + [n])[i].key <= k {
      assert (a + [n])[i] == s[i];
    }
    forall i | 0 <= i < |[n] + b| && n.key > k ensures ([n] + b)[i].key > k {
      assert ([n] + b)[i] == s[|a| + i];
    }
  }

  /** In a sorted tree, what lies left of a node with a small key is small, and so on. */
  lemma SearchOrder(c: Ctx, l: Tree, n: RBNode, col: Color, r: Tree, k: nat)
    requires Sorted(Inorder(Plug(c, Node(l, n, col, r))))
    ensures n.key <= k ==> AllAtMost(Before(RightOf(c, l, n, col)), k)
    ensures n.key > k ==> AllAbove(After(LeftOf(c, n, col, r)), k)
  {
    InorderPlug(c, Node(l, n, col, r));
    var a, b := Before(c) + Inorder(l), Inorder(r) + After(c);
    Regroup5(Before(c), Inorder(l), n, Inorder(r), After(c));
    SplitSorted(a, n, b, k);
    SplitPlace(c, l, n, col, r);
  }

  lemma SplitPlace(c: Ctx, l: Tree, n: RBNode, col: Color, r: Tree)
    ensures Before(RightOf(c, l, n, col)) == (Before(c) + Inorder(l)) + [n]
    ensures After(LeftOf(c, n, col, r)) == [n] + (Inorder(r) + After(c))
  {
  }

  // ----- heights -----

  function Height(t: Tree): nat {
    match t
    case Leaf => 0
    case Node(l, _, _, r) => 1 + (if Height(l) < Height(r) then Height(r) else Height(l))
  }

  function Pow2(h: nat): nat { if h == 0 then 1 else 2 * Pow2(h - 1) }

  lemma {:induction false} HeightBound(t: Tree, h: nat)
    requires NoRedRed(t) && Balanced(t, h)
    ensures Height(t) <= 2 * h + (if IsRed(t) then 1 else 0)
  {
    match t
    case Leaf =>
    case Node(l, _, c, r) =>
      HeightBound(l, h - BlackCount(c));
      HeightBound(r, h - BlackCount(c));
  }

  lemma {:induction false} SizeBound(t: Tree, h: nat)
    requires Balanced(t, h)
    ensures Pow2(h) <= |Inorder(t)| + 1
  {
    match t
    case Leaf =>
    case Node(l, _, c, r) =>
      SizeBound(l, h - BlackCount(c));
      SizeBound(r, h - BlackCount(c));
  }

  /** The height of a red-black tree is at most twice the logarithm of its size plus one. */
  lemma LogarithmicHeight(t: Tree) returns (h: nat)
    requires RedBlack(t)
    ensures Height(t) <= 2 * h && Pow2(h) <= |Inorder(t)| + 1
  {
    h :| Balanced(t, h);
    HeightBound(t, h);
    SizeBound(t, h);
  }

  // ----- removal, on values -----

  /** The linked nodes of the whole are linked in its parts. */
  lemma {:induction false} Unplug(c: Ctx, t: Tree, root: RBNode?)
    requires IsTree(Plug(c, t), root, null) && t.Node?
    ensures IsCtx(c, t.n, root) && IsTree(t, t.n, Parent(c))
  {
    match c
    case Top =>
    case LeftOf(up, n, col, r) => Unplug(up, Node(t, n, col, r), root);
    case RightOf(up, l, n, col) => Unplug(up, Node(l, n, col, t), root);
  }

  function MinNode(t: Tree): RBNode
    requires t.Node?
  {
    if t.left.Leaf? then t.n else MinNode(t.left)
  }

  function MinColor(t: Tree): Color
    requires t.Node?
  {
    if t.left.Leaf? then t.color else MinColor(t.left)
  }

  /** Unlinks the first node; its right subtree moves up, unpainted. */
  function DelMin(t: Tree): Tree
    requires t.Node?
  {
    if t.left.Leaf? then t.right else t.(left := DelMin(t.left))
  }

  /** What is left in place of a node with subtrees `l` and `r`: with two children the in-order
      successor in the node's colour; otherwise the only child, black if the node was. */
  function Erased(l: Tree, col: Color, r: Tree): Tree {
    if l.Node? && r.Node? then Node(l, MinNode(r), col, DelMin(r))
    else
      var child := if l.Node? then l else r;
      if col == Black then Paint(child, Black) else child
  }

  lemma {:induction false} DelMinInorder(t: Tree)
    requires t.Node?
    ensures Inorder(t) == [MinNode(t)] + Inorder(DelMin(t))
  {
    if t.left.Node? {
      DelMinInorder(t.left);
    }
  }

  lemma ErasedParts(l: Tree, col: Color, r: Tree)
    ensures Inorder(Erased(l, col, r)) == Inorder(l) + Inorder(r)
  {
    if l.Node? && r.Node? {
      DelMinInorder(r);
    } else {
      var child := if l.Node? then l else r;
      assert Inorder(child) == Inorder(l) + Inorder(r);
    }
  }

  lemma Regroup5(b: seq<RBNode>, l: seq<RBNode>, n: RBNode, r: seq<RBNode>, a: seq<RBNode>)
    ensures b + (l + [n] + r) + a == (b + l) + [n] + (r + a)
    ensures b + (l + r) + a == (b + l) + (r + a)
  {
  }

  lemma ErasedInorder(c: Ctx, l: Tree, n: RBNode, col: Color, r: Tree)
    ensures Inorder(Plug(c, Node(l, n, col, r))) == (Before(c) + Inorder(l)) + [n] + (Inorder(r) + After(c))
    ensures Inorder(Plug(c, Erased(l, col, r))) == (Before(c) + Inorder(l)) + (Inorder(r) + After(c))
  {
    InorderPlug(c, Node(l, n, col, r));
    InorderPlug(c, Erased(l, col, r));
    ErasedParts(l, col, r);
    Regroup5(Before(c), Inorder(l), n, Inorder(r), After(c));
  }

  /** Black nodes on the leftmost path. */
  function LeftBlacks(t: Tree): nat {
    match t
    case Leaf => 0
    case Node(l, _, c, _) => BlackCount(c) + LeftBlacks(l)
  }

  lemma {:induction false} BalancedLeft(t: Tree, h: nat)
    requires Balanced(t, h)
    ensures LeftBlacks(t) == h
  {
    match t
    case Leaf =>
    case Node(l, _, c, _) => BalancedLeft(l, h - BlackCount(c));
  }

  /** Removing the first node of a balanced tree keeps the balance just when it is red. */
  lemma {:induction false} DelMinColours(t: Tree, h: nat)
    requires t.Node? && Balanced(t, h) && NoRedRed(t)
    ensures MinColor(t) == Red ==> Balanced(DelMin(t), h) && NoRedRed(DelMin(t)) && (IsRed(DelMin(t)) ==> IsRed(t))
    ensures MinColor(t) == Black ==> LeftBlacks(DelMin(t)) == h - 1
  {
    if t.left.Node? {
      DelMinColours(t.left, h - BlackCount(t.color));
    } else {
      var c := BlackCount(t.color);
      if t.right.Node? {
        LoneChildIsRedLeaf(t.right, h - c);
      }
    }
  }

  /** A balanced tree without black nodes below is a single red node. */
  lemma LoneChildIsRedLeaf(t: Tree, h: nat)
    requires t.Node? && Balanced(t, h) && NoRedRed(t) && h == 0
    ensures t.color == Red && t.left.Leaf? && t.right.Leaf?
  {
  }

  /** When erasing keeps a red-black tree red-black. */
  predicate ErasesCleanly(c: Ctx, l: Tree, col: Color, r: Tree) {
    if l.Node? && r.Node? then MinColor(r) == Red
    else col == Red || l.Node? || r.Node? || c.Top?
  }

  /** Nothing repairs the black heights after a removal. They stay right exactly if the node had two
      children and its successor was red, or had at most one and was red, had a red child to take its
      place, or was the root. That a black successor has a red child of its own does not help: the child
      moves up unpainted. */
  lemma {:induction false} EraseKeepsRedBlack(c: Ctx, l: Tree, n: RBNode, col: Color, r: Tree)
    requires RedBlack(Plug(c, Node(l, n, col, r)))
    ensures RedBlack(Plug(c, Erased(l, col, r))) <==> ErasesCleanly(c, l, col, r)
  {
    var t, x := Node(l, n, col, r), Erased(l, col, r);
    var h0: nat :| Balanced(Plug(c, t), h0);
    PlugColours(c, t);
    var h := PlugHeights(c, t, h0);
    var k := h - BlackCount(col);
    if l.Node? && r.Node? {
      DelMinColours(r, k);
      EraseTwoChildren(c, l, n, col, r, h);
    } else {
      EraseOneChild(c, l, n, col, r, h);
    }
  }

  /** The failing case: `c`, black with a red child, takes the place of `b`. */
  lemma BlackSuccessorUnbalances(a: RBNode, b: RBNode, c: RBNode, d: RBNode)
    ensures var l, r := Node(Leaf, a, Black, Leaf), Node(Leaf, c, Black, Node(Leaf, d, Red, Leaf));
      RedBlack(Node(l, b, Black, r)) && !RedBlack(Erased(l, Black, r))
  {
    var l, r := Node(Leaf, a, Black, Leaf), Node(Leaf, c, Black, Node(Leaf, d, Red, Leaf));
    assert Balanced(Node(Leaf, d, Red, Leaf), 0) && Balanced(Leaf, 0);
    assert Balanced(r, 1);
    assert Balanced(l, 1);
    assert Balanced(Node(l, b, Black, r), 2);
    var x := Erased(l, Black, r);
    if h: nat :| Balanced(x, h) {
      BalancedLeft(x.left, h - 1);
      BalancedLeft(x.right, h - 1);
    }
  }

  lemma EraseTwoChildren(c: Ctx, l: Tree, n: RBNode, col: Color, r: Tree, h: nat)
    requires l.Node? && r.Node? && Balanced(Node(l, n, col, r), h) && NoRedRed(Node(l, n, col, r))
    requires CtxNoRedRed(c) && CtxBalanced(c, h) && (CtxIsRed(c) || c.Top? ==> col == Black)
    ensures RedBlack(Plug(c, Erased(l, col, r))) <==> MinColor(r) == Red
  {
    var k := h - BlackCount(col);
    var x := Erased(l, col, r);
    DelMinColours(r, k);
    if MinColor(r) == Red {
      assert Balanced(x, h) && NoRedRed(x);
      BalancedPlug(c, x, h);
      NoRedRedPlug(c, x);
    } else if RedBlack(Plug(c, x)) {
      var h1: nat :| Balanced(Plug(c, x), h1);
      var k1 := PlugHeights(c, x, h1);
      BalancedLeft(l, k);
      BalancedLeft(l, k1 - BlackCount(col));
      BalancedLeft(DelMin(r), k1 - BlackCount(col));
    }
  }

  lemma EraseOneChild(c: Ctx, l: Tree, n: RBNode, col: Color, r: Tree, h: nat)
    requires (l.Leaf? || r.Leaf?) && Balanced(Node(l, n, col, r), h) && NoRedRed(Node(l, n, col, r))
    requires CtxNoRedRed(c) && CtxBalanced(c, h) && (CtxIsRed(c) || c.Top? ==> col == Black)
    ensures RedBlack(Plug(c, Erased(l, col, r))) <==> col == Red || l.Node? || r.Node? || c.Top?
  {
    var x := Erased(l, col, r);
    var child := if l.Node? then l else r;
    assert h == BlackCount(col) && Balanced(child, 0);
    if child.Node? {
      LoneChildIsRedLeaf(child, 0);
    }
    if col == Red || child.Node? {
      assert Balanced(x, h) && NoRedRed(x) && !IsRed(x);
      BalancedPlug(c, x, h);
      NoRedRedPlug(c, x);
    } else if c.Top? {
      assert Balanced(x, 0);
    } else if RedBlack(Plug(c, x)) {
      var h1: nat :| Balanced(Plug(c, x), h1);
      var k1 := PlugHeights(c, x, h1);
      BalancedLeft(Sibling(c), h);
      BalancedLeft(Sibling(c), k1);
    }
  }
}
