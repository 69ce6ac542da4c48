/** The red-black tree as linked nodes: rotations, insertion and its repair. */
module RBTree {
  import opened Tree
  import opened Repair

  /** Links a subtree to a new parent, if there is a subtree. */
  method SetParent(x: RBNode?, p: RBNode?, ghost q: RBNode?, ghost t: Tree)
    requires IsTree(t, x, q) && Distinct(t)
    modifies if x == null then {} else {x}
    ensures IsTree(t, x, p)
    ensures x != null ==> x.left == old(x.left) && x.right == old(x.right) && x.color == old(x.color)
  {
    if x != null {
      x.parent := p;
    }
  }

  lemma RootNode(t: Tree, x: RBNode?, p: RBNode?)
    requires IsTree(t, x, p)
    ensures (x == null <==> t.Leaf?) && (x != null ==> x in Nodes(t) && t.n == x)
  {
  }

  lemma ParentIsOutside(c: Ctx)
    ensures Parent(c) != null ==> Parent(c) in CtxNodes(c)
  {
  }

  lemma {:induction false} NodesAllocated(t: Tree)
    ensures forall o :: o in Nodes(t) ==> allocated(o)
  {
    match t
    case Leaf =>
    case Node(l, n, _, r) =>
      NodesAllocated(l);
      NodesAllocated(r);
  }

  lemma {:induction false} CtxAllocated(c: Ctx)
    ensures forall o :: o in CtxNodes(c) ==> allocated(o)
  {
    match c
    case Top =>
    case LeftOf(up, n, _, r) =>
      CtxAllocated(up);
      NodesAllocated(r);
    case RightOf(up, l, n, _) =>
      CtxAllocated(up);
      NodesAllocated(l);
  }

  class RBRoot {
    var rb_node: RBNode?

    constructor ()
      ensures rb_node == null
    {
      rb_node := null;
    }

    /** Makes the node above `node` (or the root) point to `other` instead. */
    method ReplaceChild(node: RBNode, other: RBNode?, ghost c: Ctx)
      requires IsCtx(c, node, rb_node) && node.parent == Parent(c) && CtxDistinct(c) && node !in CtxNodes(c)
      modifies `rb_node, if node.parent == null then {} else {node.parent}
      ensures IsCtx(c, other, rb_node) && node.parent == old(node.parent)
    {
      if node.parent == null {
        rb_node := other;
      } else if node == node.parent.left {
        node.parent.left := other;
      } else {
        node.parent.right := other;
      }
    }

    /** Puts `other` where `node` is and hangs `node` below it, on the left or on the right. */
    method Lower(node: RBNode, other: RBNode, toLeft: bool, ghost c: Ctx)
      requires IsCtx(c, node, rb_node) && node.parent == Parent(c) && CtxDistinct(c)
      requires node !in CtxNodes(c) && other !in CtxNodes(c) && other != node
      modifies `rb_node, other`parent, other`left, other`right, node`parent, if node.parent == null then {} else {node.parent}
      ensures IsCtx(c, other, rb_node) && other.parent == Parent(c) && node.parent == other
      ensures if toLeft then other.left == node && other.right == old(other.right)
              else other.right == node && other.left == old(other.left)
    {
      CtxAllocated(c);
      other.parent := node.parent;
      ReplaceChild(node, other, c);
      if toLeft {
        other.left := node;
      } else {
        other.right := node;
      }
      node.parent := other;
    }

    /** Lowers `node` to the left: its right child takes its place. */
    method RotateLeft(node: RBNode, ghost c: Ctx, ghost a: Tree, ghost b: Tree, ghost d: Tree)
      requires node.right != null && Pieces(c, a, node, b, node.right, d)
      requires IsCtx(c, node, rb_node) && node.parent == Parent(c)
      requires IsTree(a, node.left, node) && IsTree(b, node.right.left, node.right) && IsTree(d, node.right.right, node.right)
      modifies this, CtxNodes(c), {node, node.right}, Nodes(b)
      ensures var y := old(node.right);
        && IsCtx(c, y, rb_node) && y.parent == Parent(c)
        && y.left == node && node.parent == y
        && IsTree(a, node.left, node) && IsTree(b, node.right, node) && IsTree(d, y.right, y)
        && y.color == old(node.right.color) && node.color == old(node.color)
    {
      hide IsCtx, IsTree, Nodes;
      var right := node.right;
      PiecesAllocated(c, a, b, d);
      RootNode(b, right.left, right);
      PassChild(node, right, b);
      Lower(node, right, true, c);
    }

    /** Lowers `node` to the right: its left child takes its place. */
    method RotateRight(node: RBNode, ghost c: Ctx, ghost a: Tree, ghost b: Tree, ghost d: Tree)
      requires node.left != null && Pieces(c, a, node.left, b, node, d)
      requires IsCtx(c, node, rb_node) && node.parent == Parent(c)
      requires IsTree(a, node.left.left, node.left) && IsTree(b, node.left.right, node.left) && IsTree(d, node.right, node)
      modifies this, CtxNodes(c), {node, node.left}, Nodes(b)
      ensures var y := old(node.left);
        && IsCtx(c, y, rb_node) && y.parent == Parent(c)
        && y.right == node && node.parent == y
        && IsTree(a, y.left, y) && IsTree(b, node.left, node) && IsTree(d, node.right, node)
        && y.color == old(node.left.color) && node.color == old(node.color)
    {
      hide IsCtx, Nodes;
      var left := node.left;
      PiecesAllocated(c, a, b, d);
      RootNode(b, left.right, left);
      PassLeft(node, left, b);
      Lower(node, left, false, c);
    }

    // ----- repair after an insertion -----

    /** The tree `t` hangs from `node` in the context `c`. */
    ghost predicate At(c: Ctx, t: Tree, node: RBNode?)
      reads this, CtxNodes(c), Nodes(t)
    {
      IsCtx(c, node, rb_node) && IsTree(t, node, Parent(c)) && Apart(c, t)
    }

    /** The parts of the two levels above `t`, as they are linked. */
    ghost predicate Around2(c: Ctx, t: Tree, node: RBNode?)
      requires !c.Top? && !c.up.Top? && Uncle(c).Node?
      reads this, Nodes(t), CtxNodes(c.up.up), Nodes(Sibling(c)), Nodes(Uncle(c).left), Nodes(Uncle(c).right)
      reads c.n, c.up.n, Uncle(c).n
    {
      var p, g, u, up := c.n, c.up.n, Uncle(c), c.up.up;
      && p.parent == g && g.parent == Parent(up) && u.n.parent == g && IsCtx(up, g, rb_node)
      && (if c.LeftOf? then p.left == node && IsTree(c.right, p.right, p) else p.right == node && IsTree(c.left, p.left, p))
      && (if c.up.LeftOf? then g.left == p && g.right == u.n else g.right == p && g.left == u.n)
      && IsTree(t, node, p) && IsTree(u.left, u.n.left, u.n) && IsTree(u.right, u.n.right, u.n)
    }

    lemma UnfoldAround2(c: Ctx, t: Tree, node: RBNode?)
      requires At(c, t, node) && !c.Top? && !c.up.Top? && Uncle(c).Node?
      ensures Around2(c, t, node)
    {
      assert IsCtx(c.up, c.n, rb_node);
      assert IsTree(Uncle(c), Uncle(c).n, c.up.n);
    }

    lemma FoldRecolored(c: Ctx, t: Tree, node: RBNode?)
      requires !c.Top? && !c.up.Top? && Uncle(c).Node? && Around2(c, t, node)
      requires c.n.color == Black && Uncle(c).n.color == Black && c.up.n.color == Red
      ensures IsTree(Recolored(c, t), c.up.n, Parent(c.up.up))
    {
      assert IsTree(Around(c, t, Black), c.n, c.up.n);
      assert IsTree(Paint(Uncle(c), Black), Uncle(c).n, c.up.n);
    }

    /** Red uncle: only colours change, and the trouble moves two levels up. */
    method Recolor(parent: RBNode, uncle: RBNode, grandparent: RBNode, node: RBNode?, ghost c: Ctx, ghost t: Tree)
      requires At(c, t, node) && !c.Top? && !c.up.Top? && parent == c.n && grandparent == c.up.n
      requires Uncle(c).Node? && uncle == Uncle(c).n
      modifies parent`color, uncle`color, grandparent`color
      ensures At(c.up.up, Recolored(c, t), grandparent)
    {
      RecolorPieces(c, t);
      UnfoldAround2(c, t, node);
      PaintOne(parent, Black, node, c, t);
      PaintOne(uncle, Black, node, c, t);
      PaintOne(grandparent, Red, node, c, t);
      FoldRecolored(c, t, node);
    }

    method PaintOne(x: RBNode, color: Color, node: RBNode?, ghost c: Ctx, ghost t: Tree)
      requires !c.Top? && !c.up.Top? && Uncle(c).Node? && (x == c.n || x == c.up.n || x == Uncle(c).n)
      requires Around2(c, t, node) && Apart(c, t)
      modifies x`color
      ensures x.color == color && Around2(c, t, node)
    {
      hide Apart, Nodes;
      RecolorPieces(c, t);
      NodesAllocated(t);
      x.color := color;
    }

    /** Black uncle, `parent` on the left: `grandparent` is lowered to the right. */
    method StraightLeft(parent: RBNode, grandparent: RBNode, ghost up: Ctx, ghost a: Tree, ghost b: Tree, ghost u: Tree)
      requires grandparent.left == parent && Pieces(up, a, parent, b, grandparent, u)
      requires IsCtx(up, grandparent, rb_node) && grandparent.parent == Parent(up)
      requires IsTree(a, parent.left, parent) && IsTree(b, parent.right, parent) && IsTree(u, grandparent.right, grandparent)
      modifies this, CtxNodes(up), {grandparent, parent}, Nodes(b)
      ensures IsCtx(up, parent, rb_node) && parent.parent == Parent(up) && parent.color == Black && grandparent.color == Red
      ensures parent.right == grandparent && grandparent.parent == parent
      ensures IsTree(a, parent.left, parent) && IsTree(b, grandparent.left, grandparent) && IsTree(u, grandparent.right, grandparent)
    {
      PaintTwo(parent, grandparent, up, a, b, u);
      RotateRight(grandparent, up, a, b, u);
    }

    /** Black uncle, `parent` on the right: the mirror image. */
    method StraightRight(parent: RBNode, grandparent: RBNode, ghost up: Ctx, ghost u: Tree, ghost b: Tree, ghost a: Tree)
      requires grandparent.right == parent && Pieces(up, u, grandparent, b, parent, a)
      requires IsCtx(up, grandparent, rb_node) && grandparent.parent == Parent(up)
      requires IsTree(u, grandparent.left, grandparent) && IsTree(b, parent.left, parent) && IsTree(a, parent.right, parent)
      modifies this, CtxNodes(up), {grandparent, parent}, Nodes(b)
      ensures IsCtx(up, parent, rb_node) && parent.parent == Parent(up) && parent.color == Black && grandparent.color == Red
      ensures parent.left == grandparent && grandparent.parent == parent
      ensures IsTree(a, parent.right, parent) && IsTree(b, grandparent.right, grandparent) && IsTree(u, grandparent.left, grandparent)
    {
      PaintTwo(parent, grandparent, up, u, b, a);
      RotateLeft(grandparent, up, u, b, a);
    }

    /** Before the rotation the parent becomes black and the grandparent red. */
    method PaintTwo(parent: RBNode, grandparent: RBNode, ghost up: Ctx, ghost a: Tree, ghost b: Tree, ghost d: Tree)
      requires parent !in CtxNodes(up) + Nodes(a) + Nodes(b) + Nodes(d) && grandparent !in CtxNodes(up) + Nodes(a) + Nodes(b) + Nodes(d)
      requires parent != grandparent
      modifies parent`color, grandparent`color
      ensures parent.color == Black && grandparent.color == Red
      ensures IsCtx(up, grandparent, rb_node) == old(IsCtx(up, grandparent, rb_node))
      ensures forall x, y {:trigger IsTree(a, x, y)} :: old(allocated(x) && allocated(y)) ==> IsTree(a, x, y) == old(IsTree(a, x, y))
      ensures forall x, y {:trigger IsTree(b, x, y)} :: old(allocated(x) && allocated(y)) ==> IsTree(b, x, y) == old(IsTree(b, x, y))
      ensures forall x, y {:trigger IsTree(d, x, y)} :: old(allocated(x) && allocated(y)) ==> IsTree(d, x, y) == old(IsTree(d, x, y))
    {
      PiecesAllocated(up, a, b, d);
      parent.color := Black;
      grandparent.color := Red;
    }

    /** The grandparent with its two subtrees, as linked before the second rotation. */
    ghost predicate ReadyLeft(up: Ctx, a: Tree, p: RBNode, b: Tree, g: RBNode, u: Tree)
      reads this, CtxNodes(up), p, g, Nodes(a), Nodes(b), Nodes(u)
    {
      && IsCtx(up, g, rb_node) && g.parent == Parent(up) && g.left == p
      && IsTree(a, p.left, p) && IsTree(b, p.right, p) && IsTree(u, g.right, g)
    }

    ghost predicate ReadyRight(up: Ctx, u: Tree, g: RBNode, b: Tree, p: RBNode, a: Tree)
      reads this, CtxNodes(up), p, g, Nodes(a), Nodes(b), Nodes(u)
    {
      && IsCtx(up, g, rb_node) && g.parent == Parent(up) && g.right == p
      && IsTree(u, g.left, g) && IsTree(b, p.left, p) && IsTree(a, p.right, p)
    }

    /** An inner child is rotated to the outside; `top` is then the grandparent's child. */
    method MakeOuterLeft(node: RBNode, parent: RBNode, grandparent: RBNode, ghost c: Ctx, ghost t: Tree) returns (child: RBNode, top: RBNode)
      requires At(c, t, node) && IsRed(t) && !c.Top? && c.up.LeftOf? && parent == c.n && grandparent == c.up.n && c.color == Red
      modifies this, CtxNodes(c), Nodes(t)
      ensures var o := OuterLeft(c, t);
        top == o.p && child == o.a.n && ReadyLeft(c.up.up, o.a, o.p, o.b, grandparent, c.up.right)
    {
      child, top := node, parent;
      assert IsCtx(c.up, parent, rb_node);
      InnerPieces(c, t);
      if node == parent.right {
        RootsDiffer(c, t, node);
        RotateLeft(parent, c.up, c.left, t.left, t.right);
        child, top := parent, node;
      }
    }

    method MakeOuterRight(node: RBNode, parent: RBNode, grandparent: RBNode, ghost c: Ctx, ghost t: Tree) returns (child: RBNode, top: RBNode)
      requires At(c, t, node) && IsRed(t) && !c.Top? && c.up.RightOf? && parent == c.n && grandparent == c.up.n && c.color == Red
      modifies this, CtxNodes(c), Nodes(t)
      ensures var o := OuterRight(c, t);
        top == o.p && child == o.a.n && ReadyRight(c.up.up, c.up.left, grandparent, o.b, o.p, o.a)
    {
      child, top := node, parent;
      assert IsCtx(c.up, parent, rb_node);
      InnerPieces(c, t);
      if node == parent.left {
        RootsDiffer(c, t, node);
        RotateRight(parent, c.up, t.left, t.right, c.right);
        child, top := parent, node;
      }
    }

    /** Black uncle: one or two rotations, after which the parent is black. */
    method FixByRotation(node: RBNode, parent: RBNode, grandparent: RBNode, ghost c: Ctx, ghost t: Tree) returns (child: RBNode, top: RBNode)
      requires At(c, t, node) && IsRed(t) && !c.Top? && !c.up.Top? && parent == c.n && grandparent == c.up.n && c.color == Red
      modifies this, CtxNodes(c), Nodes(t)
      ensures At(RotatedCtx(c, t), RotatedTree(c, t), child) && top == RotatedCtx(c, t).n && top.color == Black
    {
      ghost var up, u := c.up.up, Uncle(c);
      OuterPieces(c, t);
      GrandparentSide(c, t, node);
      if parent == grandparent.left {
        child, top := MakeOuterLeft(node, parent, grandparent, c, t);
        ghost var o := OuterLeft(c, t);
        StraightLeft(top, grandparent, up, o.a, o.b, u);
        FoldLeft(up, o.a, top, o.b, grandparent, u);
        RootNode(o.a, top.left, top);
      } else {
        child, top := MakeOuterRight(node, parent, grandparent, c, t);
        ghost var o := OuterRight(c, t);
        StraightRight(top, grandparent, up, u, o.b, o.a);
        FoldRight(up, u, grandparent, o.b, top, o.a);
        RootNode(o.a, top.right, top);
      }
    }

    lemma GrandparentSide(c: Ctx, t: Tree, node: RBNode?)
      requires At(c, t, node) && !c.Top? && !c.up.Top?
      ensures c.n == c.up.n.left <==> c.up.LeftOf?
    {
      assert IsCtx(c.up, c.n, rb_node);
      assert CtxDistinct(c.up);
    }

    lemma FoldLeft(up: Ctx, a: Tree, p: RBNode, b: Tree, g: RBNode, u: Tree)
      requires IsCtx(up, p, rb_node) && p.parent == Parent(up) && p.color == Black && g.color == Red && p.right == g && g.parent == p
      requires IsTree(a, p.left, p) && IsTree(b, g.left, g) && IsTree(u, g.right, g) && Pieces(up, a, p, b, g, u)
      ensures At(LeftOf(up, p, Black, Node(b, g, Red, u)), a, p.left)
    {
      assert IsTree(Node(b, g, Red, u), g, p);
      RotatedApart(up, a, p, b, g, u);
    }

    lemma FoldRight(up: Ctx, u: Tree, g: RBNode, b: Tree, p: RBNode, a: Tree)
      requires IsCtx(up, p, rb_node) && p.parent == Parent(up) && p.color == Black && g.color == Red && p.left == g && g.parent == p
      requires IsTree(a, p.right, p) && IsTree(b, g.right, g) && IsTree(u, g.left, g) && Pieces(up, u, g, b, p, a)
      ensures At(RightOf(up, Node(u, g, Red, b), p, Black), a, p.right)
    {
      assert IsTree(Node(u, g, Red, b), g, p);
      RotatedApart(up, a, p, b, g, u);
    }

    /** Recolours and rotates from `start` upwards until no red node has a red parent. */
    method InsertFixup(start: RBNode, ghost c0: Ctx, ghost t0: Tree) returns (ghost t': Tree)
      requires At(c0, t0, start) && IsRed(t0) && RootBlack(c0)
      modifies this, CtxNodes(c0), Nodes(t0)
      ensures t' == Fixed(c0, t0) && IsTree(t', rb_node, null) && Distinct(t')
    {
      ghost var c, t := c0, t0;
      var node, parent := start, start.parent;
      ghost var all := CtxNodes(c0) + Nodes(t0);
      while parent != null && parent.color == Red
        invariant At(c, t, node) && IsRed(t) && RootBlack(c) && parent == Parent(c) && t.n == node
        invariant CtxNodes(c) + Nodes(t) == all && Fixed(c, t) == Fixed(c0, t0)
        decreases if parent != null && parent.color == Red then Depth(c) + 1 else 0
      {
        var grandparent := parent.parent;
        UnderGrandparent(c, t, node);
        var uncle := if parent == grandparent.left then grandparent.right else grandparent.left;
        if uncle != null && uncle.color == Red {
          RecoloredFacts(c, t);
          Recolor(parent, uncle, grandparent, node, c, t);
          c, t := c.up.up, Recolored(c, t);
          node := grandparent;
          parent := node.parent;
        } else {
          RotatedFacts(c, t);
          node, parent := FixByRotation(node, parent, grandparent, c, t);
          c, t := RotatedCtx(c, t), RotatedTree(c, t);
        }
      }
      t' := BlackenRoot(c, t, node);
    }

    // ----- insertion -----

    /** The linked nodes are exactly `t`, whose root is black. */
    ghost predicate Holds(t: Tree)
      reads this, Nodes(t)
    {
      IsTree(t, rb_node, null) && Distinct(t) && !IsRed(t)
    }

    /** Walks down to the place for `key`: right of what is not larger, left of what is larger. */
    method FindPlace(key: nat, ghost t: Tree) returns (parent: RBNode?, onLeft: bool, ghost c: Ctx)
      requires Holds(t)
      ensures c == PlaceFor(Top, t, key) && At(c, Leaf, null) && parent == Parent(c) && (parent != null ==> onLeft == c.LeftOf?)
    {
      var current := rb_node;
      parent, onLeft := null, false;
      ghost var s := t;
      c := Top;
      while current != null
        invariant PlaceFor(c, s, key) == PlaceFor(Top, t, key) && At(c, s, current)
        invariant parent == Parent(c) && (parent != null ==> onLeft == c.LeftOf?)
        decreases s
      {
        parent := current;
        if key < current.key {
          current := current.left;
          onLeft := true;
          c, s := LeftOf(c, s.n, s.color, s.right), s.left;
        } else {
          current := current.right;
          onLeft := false;
          c, s := RightOf(c, s.left, s.n, s.color), s.right;
        }
      }
    }

    /** Links `node` into the empty place below `parent`. */
    method Link(node: RBNode, parent: RBNode?, onLeft: bool, ghost c: Ctx)
      requires At(c, Leaf, null) && parent == Parent(c) && (parent != null ==> onLeft == c.LeftOf?) && node !in CtxNodes(c)
      modifies `rb_node, node, if parent == null then {} else {parent}
      ensures At(c, Node(Leaf, node, Red, Leaf), node)
    {
      CtxAllocated(c);
      if parent == null {
        rb_node := node;
      } else if onLeft {
        parent.left := node;
      } else {
        parent.right := node;
      }
      node.parent := parent;
      node.left := null;
      node.right := null;
      node.color := Red;
    }

    /** Inserts `node` behind everything that is not larger. The tree stays a search tree, and
        red-black if it was. */
    method InsertWithCompare(node: RBNode, ghost t: Tree) returns (ghost t': Tree, ghost k: nat)
      requires Holds(t) && node !in Nodes(t)
      modifies this, Nodes(t), node
      ensures t' == InsertedTree(t, node) && Holds(t')
      ensures k <= |Inorder(t)| && Inorder(t') == Inorder(t)[..k] + [node] + Inorder(t)[k..]
      ensures Sorted(Inorder(t)) ==> AllAtMost(Inorder(t)[..k], node.key) && AllAbove(Inorder(t)[k..], node.key)
      ensures Sorted(Inorder(t)) ==> Sorted(Inorder(t'))
      ensures RedBlack(t) ==> RedBlack(t')
    {
      ghost var c;
      var parent, onLeft;
      parent, onLeft, c := FindPlace(node.key, t);
      ghost var x := Node(Leaf, node, Red, Leaf);
      NodesPlug(c, Leaf);
      ParentIsOutside(c);
      BlackRootAbove(c, Leaf);
      Link(node, parent, onLeft, c);
      t' := InsertFixup(node, c, x);
      k := InsertedTreeFacts(t, node);
    }

    // ----- removal -----

    /** The children of a node are linked as the tree has them. */
    lemma Children(c: Ctx, t: Tree, x: RBNode)
      requires At(c, t, x) && t.Node?
      ensures x == t.n && (x.left == null <==> t.left.Leaf?) && (x.right == null <==> t.right.Leaf?)
      ensures x.left != null ==> t.left.n == x.left && At(LeftOf(c, x, t.color, t.right), t.left, x.left)
      ensures x.right != null ==> t.right.n == x.right && At(RightOf(c, t.left, x, t.color), t.right, x.right)
    {
      RootNode(t.left, x.left, x);
      RootNode(t.right, x.right, x);
    }

    /** Finds the first node of the right subtree, `cs` being what surrounds it. */
    method Successor(node: RBNode, ghost c: Ctx, ghost l: Tree, ghost col: Color, ghost r: Tree) returns (successor: RBNode, ghost cs: Ctx, ghost s: Tree)
      requires At(c, Node(l, node, col, r), node) && r.Node?
      ensures s.Node? && s.left.Leaf? && successor == s.n == MinNode(r) && At(cs, s, successor)
      ensures cs.RightOf? ==> cs == RightOf(c, l, node, col) && s == r
      ensures cs.LeftOf? ==> r.left.Node?
      ensures !cs.Top? && Plug(cs, s.right) == Plug(c, Node(l, node, col, DelMin(r)))
    {
      hide At;
      Children(c, Node(l, node, col, r), node);
      successor := node.right;
      cs, s := RightOf(c, l, node, col), r;
      Children(cs, s, successor);
      while successor.left != null
        invariant s.Node? && successor == s.n && At(cs, s, successor) && MinNode(s) == MinNode(r)
        invariant !cs.Top? && Plug(cs, DelMin(s)) == Plug(c, Node(l, node, col, DelMin(r)))
        invariant cs.RightOf? ==> cs == RightOf(c, l, node, col) && s == r
        invariant cs.LeftOf? ==> r.left.Node?
        invariant successor.left == null <==> s.left.Leaf?
        decreases s
      {
        Children(cs, s, successor);
        successor := successor.left;
        cs, s := LeftOf(cs, s.n, s.color, s.right), s.left;
        Children(cs, s, successor);
      }
    }

    /** Unlinks a successor that is not the node's own child: its right subtree moves up. */
    method Detach(successor: RBNode, ghost cs: Ctx, ghost s: Tree)
      requires At(cs, s, successor) && s.Node? && s.left.Leaf? && s.n == successor && cs.LeftOf?
      modifies CtxNodes(cs), Nodes(s.right)
      ensures exists child :: At(cs, s.right, child)
    {
      CtxAllocated(cs);
      NodesAllocated(s.right);
      ParentIsOutside(cs);
      var child := successor.right;
      RootNode(s.right, child, successor);
      assert Distinct(s.right);
      SetParent(child, successor.parent, successor, s.right);
      successor.parent.left := child;
      assert At(cs, s.right, child);
    }

    /** Puts `successor` where `node` is, with the node's left subtree and `r` below it; `r` is
        already below `successor` if that was the node's own child. */
    method TakePlaceOf(node: RBNode, successor: RBNode, direct: bool, ghost c: Ctx, ghost l: Tree, ghost r: Tree)
      requires IsCtx(c, node, rb_node) && node.parent == Parent(c) && Pieces(c, l, node, r, successor, Leaf) && l.Node?
      requires IsTree(l, node.left, node)
      requires if direct then IsTree(r, successor.right, successor) else IsTree(r, node.right, node) && r.Node?
      modifies this, CtxNodes(c), {node, successor}, Nodes(l), Nodes(r)
      ensures At(c, Node(l, successor, old(node.color), r), successor)
    {
      hide IsCtx;
      PiecesAllocated(c, l, r, Leaf);
      RootNode(l, node.left, node);
      HangLeft(node, successor, l, r);
      if !direct {
        RootNode(r, node.right, node);
        HangRight(node, successor, l, r);
      }
      ReplaceAndSwap(node, successor, c, l, r);
    }

    method ReplaceAndSwap(node: RBNode, successor: RBNode, ghost c: Ctx, ghost l: Tree, ghost r: Tree)
      requires IsCtx(c, node, rb_node) && node.parent == Parent(c) && Pieces(c, l, node, r, successor, Leaf)
      requires IsTree(l, successor.left, successor) && IsTree(r, successor.right, successor)
      modifies `rb_node, CtxNodes(c), node`color, successor`parent, successor`color
      ensures At(c, Node(l, successor, old(node.color), r), successor)
    {
      hide IsCtx;
      PiecesAllocated(c, l, r, Leaf);
      ReplaceChild(node, successor, c);
      successor.parent := node.parent;
      SwapColours(node, successor, c, l, r);
      assert IsTree(Node(l, successor, successor.color, r), successor, Parent(c));
    }

    method SwapColours(node: RBNode, successor: RBNode, ghost c: Ctx, ghost l: Tree, ghost r: Tree)
      requires IsCtx(c, successor, rb_node) && Pieces(c, l, node, r, successor, Leaf)
      requires IsTree(l, successor.left, successor) && IsTree(r, successor.right, successor)
      modifies node`color, successor`color
      ensures IsCtx(c, successor, rb_node) && IsTree(l, successor.left, successor) && IsTree(r, successor.right, successor)
      ensures successor.color == old(node.color)
    {
      PiecesAllocated(c, l, r, Leaf);
      node.color, successor.color := successor.color, node.color;
    }

    /** A node with two children: the in-order successor takes its place and colour. */
    method EraseTwo(node: RBNode, ghost c: Ctx, ghost l: Tree, ghost col: Color, ghost r: Tree)
      requires At(c, Node(l, node, col, r), node) && l.Node? && r.Node?
      modifies this, CtxNodes(c), {node}, Nodes(l), Nodes(r)
      ensures At(c, Erased(l, col, r), MinNode(r))
    {
      PiecesAllocated(c, l, r, Leaf);
      var successor, cs, s := Successor(node, c, l, col, r);
      SuccessorIsChild(node, successor, c, l, col, r, cs, s);
      EraseTwoPieces(c, l, node, col, r);
      var direct := successor == node.right;
      if !direct {
        DetachSuccessor(node, successor, c, l, col, r, cs, s);
      }
      TakePlaceOf(node, successor, direct, c, l, DelMin(r));
    }

    method DetachSuccessor(node: RBNode, successor: RBNode, ghost c: Ctx, ghost l: Tree, ghost col: Color, ghost r: Tree, ghost cs: Ctx, ghost s: Tree)
      requires r.Node? && At(cs, s, successor) && s.Node? && s.left.Leaf? && s.n == successor && cs.LeftOf?
      requires Plug(cs, s.right) == Plug(c, Node(l, node, col, DelMin(r)))
      modifies CtxNodes(c), {node}, Nodes(l), Nodes(r)
      ensures IsCtx(c, node, rb_node) && IsTree(Node(l, node, col, DelMin(r)), node, Parent(c))
    {
      CtxNodesOf(c, l, node, col, r, cs, s);
      Detach(successor, cs, s);
      ghost var child :| At(cs, s.right, child);
      PlugIsTree(cs, s.right, child, rb_node);
      Unplug(c, Node(l, node, col, DelMin(r)), rb_node);
    }

    lemma SuccessorIsChild(node: RBNode, successor: RBNode, c: Ctx, l: Tree, col: Color, r: Tree, cs: Ctx, s: Tree)
      requires At(c, Node(l, node, col, r), node) && r.Node? && successor == MinNode(r) && At(cs, s, successor) && s.Node? && s.left.Leaf?
      requires !cs.Top? && (if cs.RightOf? then cs == RightOf(c, l, node, col) && s == r else r.left.Node?)
      ensures successor == node.right <==> cs.RightOf?
      ensures if cs.RightOf? then DelMin(r) == s.right && IsTree(s.right, successor.right, successor) else DelMin(r).Node?
    {
      RootNode(r, node.right, node);
      assert Distinct(r);
      if cs.LeftOf? {
        MinIsBelow(r.left);
      }
    }

    /** A node with at most one child: the child moves up, and the repair starts at it if the node
        was black. */
    method EraseOne(node: RBNode, ghost c: Ctx, ghost l: Tree, ghost col: Color, ghost r: Tree) returns (alive: bool, ghost t': Tree)
      requires At(c, Node(l, node, col, r), node) && (l.Leaf? || r.Leaf?)
      modifies this, CtxNodes(c), Nodes(l), Nodes(r)
      ensures alive <==> ErasedTree(c, l, col, r).Some?
      ensures alive ==> t' == ErasedTree(c, l, col, r).value && IsTree(t', rb_node, null)
    {
      PiecesAllocated(c, l, r, Leaf);
      RootNode(l, node.left, node);
      RootNode(r, node.right, node);
      var child := if node.left != null then node.left else node.right;
      ghost var x := if l.Node? then l else r;
      var removed := node.color;
      SetParent(child, node.parent, node, x);
      ReplaceChild(node, child, c);
      if removed == Black && child != null {
        alive, t' := EraseFixup(child, c, x);
      } else {
        alive, t' := true, Plug(c, x);
        PlugIsTree(c, x, child, rb_node);
      }
    }

    /** Unlinks `node`, wherever it is: unless the repair follows a null sibling, what is left is what
        `ErasedTree` says, and the links are in order. */
    method Erase(node: RBNode, ghost c: Ctx, ghost l: Tree, ghost col: Color, ghost r: Tree) returns (alive: bool, ghost t': Tree)
      requires Holds(Plug(c, Node(l, node, col, r)))
      modifies this, Nodes(Plug(c, Node(l, node, col, r)))
      ensures alive <==> ErasedTree(c, l, col, r).Some?
      ensures alive <==> !(BlackOverBlack(l, col, r) && exists k: nat :: StuckAfter(c, k))
      ensures alive ==> t' == ErasedTree(c, l, col, r).value && Holds(t')
      ensures alive ==> Nodes(t') == Nodes(Plug(c, Node(l, node, col, r))) - {node}
      ensures RedBlack(Plug(c, Node(l, node, col, r))) ==> alive && (RedBlack(t') <==> ErasesCleanly(c, l, col, r))
    {
      ErasedTreeFacts(c, l, node, col, r);
      EraseMeetsNullIff(c, l, col, r);
      Dismantled(c, l, node, col, r);
      RootNode(l, node.left, node);
      RootNode(r, node.right, node);
      if node.left != null && node.right != null {
        EraseTwo(node, c, l, col, r);
        alive, t' := true, Plug(c, Erased(l, col, r));
        PlugIsTree(c, Erased(l, col, r), MinNode(r), rb_node);
      } else {
        alive, t' := EraseOne(node, c, l, col, r);
      }
    }

    lemma Dismantled(c: Ctx, l: Tree, node: RBNode, col: Color, r: Tree)
      requires Holds(Plug(c, Node(l, node, col, r)))
      ensures At(c, Node(l, node, col, r), node)
      ensures CtxNodes(c) + Nodes(l) + {node} + Nodes(r) == Nodes(Plug(c, Node(l, node, col, r)))
    {
      Unplug(c, Node(l, node, col, r), rb_node);
      ApartPlug(c, Node(l, node, col, r));
      NodesPlug(c, Node(l, node, col, r));
    }

    // ----- repair after a removal -----

    /** The same linked nodes, seen from another place. */
    lemma Refocus(c: Ctx, t: Tree, x: RBNode?, d: Ctx, u: Tree)
      requires At(c, t, x) && u.Node? && Plug(d, u) == Plug(c, t)
      ensures At(d, u, u.n) && CtxNodes(d) + Nodes(u) == CtxNodes(c) + Nodes(t)
    {
      PlugIsTree(c, t, x, rb_node);
      Unplug(d, u, rb_node);
      ApartPlug(c, t);
      ApartPlug(d, u);
      NodesPlug(c, t);
      NodesPlug(d, u);
    }

    method PaintAt(x: RBNode, color: Color, ghost c: Ctx, ghost t: Tree)
      requires At(c, t, x) && t.Node?
      modifies x`color
      ensures At(c, Paint(t, color), x)
    {
      PiecesAllocated(c, t, Leaf, Leaf);
      RootNode(t, x, Parent(c));
      assert IsTree(t.left, x.left, x) && IsTree(t.right, x.right, x);
      x.color := color;
    }

    /** A rotation in its surroundings. */
    method RotateAt(x: RBNode, toLeft: bool, ghost c: Ctx, ghost t: Tree)
      requires At(c, t, x) && t.Node? && Far(toLeft, t).Node?
      modifies this, CtxNodes(c), Nodes(t)
      ensures At(c, Turned(toLeft, t), Far(toLeft, t).n)
    {
      ghost var y := Far(toLeft, t);
      PiecesAllocated(c, t.left, t.right, Leaf);
      TurnPieces(toLeft, c, t);
      if toLeft {
        RootNode(y, x.right, x);
        RotateLeft(x, c, t.left, y.left, y.right);
      } else {
        RootNode(y, x.left, x);
        RotateRight(x, c, y.left, y.right, t.right);
      }
      TurnedApart(toLeft, c, t);
      assert IsTree(Side(toLeft, Near(toLeft, t), x, t.color, Near(toLeft, y)), x, y.n);
    }

    /** The hole is on one side of its parent, the sibling on the other. */
    lemma HoleSide(c: Ctx, t: Tree, node: RBNode)
      requires At(c, t, node) && t.Node? && !c.Top?
      ensures node != rb_node && node.parent == c.n && (node == c.n.left <==> c.LeftOf?)
      ensures var s := if c.LeftOf? then c.n.right else c.n.left; IsTree(Sibling(c), s, c.n)
    {
      RootNode(t, node, Parent(c));
      RootOutside(c, node);
      RootNode(Sibling(c), if c.LeftOf? then c.n.right else c.n.left, c.n);
    }

    lemma {:induction false} RootOutside(c: Ctx, hole: RBNode?)
      requires IsCtx(c, hole, rb_node) && !c.Top?
      ensures rb_node != null && rb_node in CtxNodes(c)
    {
      if !c.up.Top? {
        RootOutside(c.up, c.n);
      }
    }

    /** Red sibling: it becomes black, the parent red, and the parent goes down. */
    method Raise(parent: RBNode, sibling: RBNode, onLeft: bool, node: RBNode, ghost c: Ctx, ghost t: Tree)
      requires At(c, t, node) && t.Node? && !c.Top? && onLeft == c.LeftOf? && parent == c.n
      requires IsRed(Sibling(c)) && sibling == Sibling(c).n
      modifies this, CtxNodes(c), Nodes(t)
      ensures At(Raised(c), t, node) && CtxNodes(Raised(c)) + Nodes(t) == CtxNodes(c) + Nodes(t)
    {
      ghost var s := Paint(Sibling(c), Black);
      ghost var d := Beside(!onLeft, c.up, parent, c.color, t);
      ghost var p := Side(onLeft, t, parent, c.color, s);
      Refocus(c, t, node, d, Sibling(c));
      PaintAt(sibling, Black, d, Sibling(c));
      Refocus(d, s, sibling, c.up, p);
      PaintAt(parent, Red, c.up, p);
      RotateAt(parent, onLeft, c.up, Paint(p, Red));
      Refocus(c.up, Turned(onLeft, Paint(p, Red)), sibling, Raised(c), t);
    }

    /** Black sibling with black children: it becomes red, and the parent is next. */
    method MoveUp(sibling: RBNode, node: RBNode, ghost c: Ctx, ghost t: Tree)
      requires At(c, t, node) && t.Node? && !c.Top? && Sibling(c).Node? && sibling == Sibling(c).n
      modifies sibling`color
      ensures At(c.up, Around(WithSibling(c, Paint(Sibling(c), Red)), t, c.color), c.n)
    {
      ghost var d := Beside(!c.LeftOf?, c.up, c.n, c.color, t);
      ghost var s := Paint(Sibling(c), Red);
      Refocus(c, t, node, d, Sibling(c));
      PaintAt(sibling, Red, d, Sibling(c));
      Refocus(d, s, sibling, c.up, Around(WithSibling(c, s), t, c.color));
    }

    /** The sibling's near child only is red: it becomes the sibling. */
    method Straighten(sibling: RBNode, nephew: RBNode, onLeft: bool, node: RBNode, ghost c: Ctx, ghost t: Tree)
      requires At(c, t, node) && t.Node? && !c.Top? && onLeft == c.LeftOf? && Sibling(c).Node? && sibling == Sibling(c).n
      requires Near(onLeft, Sibling(c)).Node? && nephew == Near(onLeft, Sibling(c)).n
      modifies this, CtxNodes(c), Nodes(t)
      ensures At(WithSibling(c, Straightened(onLeft, Sibling(c))), t, node)
      ensures CtxNodes(WithSibling(c, Straightened(onLeft, Sibling(c)))) == CtxNodes(c)
    {
      ghost var w := Sibling(c);
      ghost var x := Near(onLeft, w);
      ghost var d := Beside(!onLeft, c.up, c.n, c.color, t);
      ghost var e := Beside(onLeft, d, w.n, w.color, Far(onLeft, w));
      ghost var w1 := Side(onLeft, Paint(x, Black), w.n, w.color, Far(onLeft, w));
      Refocus(c, t, node, e, x);
      PaintAt(nephew, Black, e, x);
      Refocus(e, Paint(x, Black), nephew, d, w1);
      PaintAt(sibling, Red, d, w1);
      RotateAt(sibling, !onLeft, d, Paint(w1, Red));
      StraightenedNodes(onLeft, w);
      Refocus(d, Straightened(onLeft, w), nephew, WithSibling(c, Straightened(onLeft, w)), t);
    }

    /** The last rotation: the sibling takes the parent's place and colour. */
    method TurnOver(parent: RBNode, sibling: RBNode, onLeft: bool, node: RBNode, ghost c: Ctx, ghost t: Tree)
      requires At(c, t, node) && t.Node? && !c.Top? && onLeft == c.LeftOf? && parent == c.n
      requires Sibling(c).Node? && sibling == Sibling(c).n
      modifies this, CtxNodes(c), Nodes(t)
      ensures At(c.up, TurnedOver(c, t), sibling)
    {
      PaintThree(parent, sibling, onLeft, node, c, t);
      RotateAt(parent, onLeft, c.up, BeforeTurn(c, t));
    }

    /** The three paints before the last rotation. */
    method PaintThree(parent: RBNode, sibling: RBNode, onLeft: bool, node: RBNode, ghost c: Ctx, ghost t: Tree)
      requires At(c, t, node) && t.Node? && !c.Top? && onLeft == c.LeftOf? && parent == c.n
      requires Sibling(c).Node? && sibling == Sibling(c).n
      modifies CtxNodes(c)
      ensures At(c.up, BeforeTurn(c, t), parent) && CtxNodes(c.up) + Nodes(BeforeTurn(c, t)) == CtxNodes(c) + Nodes(t)
    {
      BeforeTurnNodes(c, t);
      ghost var w := Sibling(c);
      ghost var d := Beside(!onLeft, c.up, parent, c.color, t);
      ghost var w1 := Paint(w, c.color);
      Refocus(c, t, node, d, w);
      PaintAt(sibling, parent.color, d, w);
      ghost var p := Side(onLeft, t, parent, c.color, w1);
      Refocus(d, w1, sibling, c.up, p);
      PaintAt(parent, Black, c.up, p);
      PaintFar(sibling, onLeft, c.up, t, parent, w1);
    }

    method PaintFar(sibling: RBNode, onLeft: bool, ghost up: Ctx, ghost t: Tree, parent: RBNode, ghost w: Tree)
      requires w.Node? && sibling == w.n && At(up, Side(onLeft, t, parent, Black, w), parent)
      modifies Nodes(Far(onLeft, w))
      ensures At(up, Side(onLeft, t, parent, Black, Side(onLeft, Near(onLeft, w), w.n, w.color, Paint(Far(onLeft, w), Black))), parent)
    {
      ghost var p, far := Side(onLeft, t, parent, Black, w), Far(onLeft, w);
      ghost var d := Beside(!onLeft, up, parent, Black, t);
      Refocus(up, p, parent, d, w);
      var x := if onLeft then sibling.right else sibling.left;
      RootNode(far, x, sibling);
      if x != null {
        ghost var e := Beside(!onLeft, d, w.n, w.color, Near(onLeft, w));
        Refocus(up, p, parent, e, far);
        PaintAt(x, Black, e, far);
        Refocus(e, Paint(far, Black), x, up, Side(onLeft, t, parent, Black, Side(onLeft, Near(onLeft, w), w.n, w.color, Paint(far, Black))));
      }
    }

    /** The sibling has a red child: one or two rotations. */
    method Settle(parent: RBNode, sibling: RBNode, onLeft: bool, node: RBNode, ghost c: Ctx, ghost t: Tree)
      requires At(c, t, node) && t.Node? && !c.Top? && onLeft == c.LeftOf? && parent == c.n
      requires Sibling(c).Node? && sibling == Sibling(c).n && RedChild(Sibling(c))
      modifies this, CtxNodes(c), Nodes(t)
      ensures At(c.up, Settled(c, t), Settled(c, t).n)
    {
      ghost var w := Sibling(c);
      SiblingLinks(c, t, node);
      var near, far := if onLeft then sibling.left else sibling.right, if onLeft then sibling.right else sibling.left;
      if far == null || far.color == Black {
        Straighten(sibling, near, onLeft, node, c, t);
        TurnOver(parent, near, onLeft, node, WithSibling(c, Straightened(onLeft, w)), t);
      } else {
        TurnOver(parent, sibling, onLeft, node, c, t);
      }
    }

    /** The colours of the sibling's children can be read off. */
    lemma SiblingLinks(c: Ctx, t: Tree, node: RBNode)
      requires At(c, t, node) && t.Node? && !c.Top? && Sibling(c).Node?
      ensures var w := Sibling(c);
        && (w.n.left != null <==> w.left.Node?) && (w.left.Node? ==> w.left.n == w.n.left && w.n.left.color == w.left.color)
        && (w.n.right != null <==> w.right.Node?) && (w.right.Node? ==> w.right.n == w.n.right && w.n.right.color == w.right.color)
    {
      var w := Sibling(c);
      HoleSide(c, t, node);
      assert IsTree(w.left, w.n.left, w.n) && IsTree(w.right, w.n.right, w.n);
    }

    /** The rest of a round, once there is a black sibling. */
    method Balance(parent: RBNode, sibling: RBNode, onLeft: bool, node: RBNode, ghost c: Ctx, ghost t: Tree)
      returns (next: RBNode, ghost d: Ctx, ghost u: Tree)
      requires At(c, t, node) && t.Node? && !c.Top? && onLeft == c.LeftOf? && parent == c.n
      requires Sibling(c).Node? && sibling == Sibling(c).n
      modifies this, CtxNodes(c), Nodes(t)
      ensures At(d, u, next) && u.Node? && CtxNodes(d) + Nodes(u) == CtxNodes(c) + Nodes(t)
      ensures if RedChild(Sibling(c)) then d == Top && u == Plug(c.up, Settled(c, t))
              else d == c.up && u == Around(WithSibling(c, Paint(Sibling(c), Red)), t, c.color)
    {
      hide Sibling, IsTree;
      BalancedNodes(c, t);
      SiblingLinks(c, t, node);
      if (sibling.left == null || sibling.left.color == Black) && (sibling.right == null || sibling.right.color == Black) {
        MoveUp(sibling, node, c, t);
        next, d, u := parent, c.up, Around(WithSibling(c, Paint(Sibling(c), Red)), t, c.color);
      } else {
        Settle(parent, sibling, onLeft, node, c, t);
        PlugIsTree(c.up, Settled(c, t), Settled(c, t).n, rb_node);
        PlugIsNode(c.up, Settled(c, t));
        d, u := Top, Plug(c.up, Settled(c, t));
        next := rb_node;
      }
    }

    /** One round of the loop: false if it follows a null sibling. */
    method RepairOnce(node: RBNode, ghost c: Ctx, ghost t: Tree) returns (alive: bool, next: RBNode, ghost d: Ctx, ghost u: Tree)
      requires At(c, t, node) && t.Node? && !c.Top?
      modifies this, CtxNodes(c), Nodes(t)
      ensures alive <==> !RepairRound(c, t).NullSibling?
      ensures alive ==> At(d, u, next) && u.Node? && CtxNodes(d) + Nodes(u) == CtxNodes(c) + Nodes(t)
      ensures alive ==>
        match RepairRound(c, t)
        case Done(whole) => d == Top && u == whole
        case Climb(c1, t1) => d == c1 && u == t1
        case NullSibling => false
    {
      var parent := node.parent;
      var onLeft := node == parent.left;
      HoleSide(c, t, node);
      var sibling := if onLeft then parent.right else parent.left;
      d, u, next, alive := c, t, node, false;
      RootNode(Sibling(c), sibling, parent);
      if sibling != null && sibling.color == Red {
        Raise(parent, sibling, onLeft, node, c, t);
        d := Raised(c);
        HoleSide(d, t, node);
        sibling := if onLeft then parent.right else parent.left;
        RootNode(Sibling(d), sibling, parent);
      }
      if sibling != null {
        alive := true;
        next, d, u := Balance(parent, sibling, onLeft, node, d, t);
      }
    }

    /** Repairs from `start` upwards: false if that follows a null sibling. */
    method EraseFixup(start: RBNode, ghost c0: Ctx, ghost t0: Tree) returns (alive: bool, ghost t': Tree)
      requires At(c0, t0, start) && t0.Node?
      modifies this, CtxNodes(c0), Nodes(t0)
      ensures alive <==> Repaired(c0, t0).Some?
      ensures alive ==> t' == Repaired(c0, t0).value && IsTree(t', rb_node, null)
    {
      ghost var c, t := c0, t0;
      ghost var all := CtxNodes(c0) + Nodes(t0);
      var node := start;
      AtRoot(c, t, node);
      while node != rb_node && node.color == Black
        invariant At(c, t, node) && t.Node? && CtxNodes(c) + Nodes(t) == all
        invariant Repaired(c, t) == Repaired(c0, t0) && (node == rb_node <==> c.Top?) && node.color == t.color
        decreases if c.Top? || t.color == Red then 0 else Depth(c) + 1
      {
        alive, node, c, t := RepairOnce(node, c, t);
        if !alive {
          return false, Leaf;
        }
        AtRoot(c, t, node);
      }
      PaintAt(node, Black, c, t);
      PlugIsTree(c, Paint(t, Black), node, rb_node);
      alive, t' := true, Plug(c, Paint(t, Black));
    }

    lemma AtRoot(c: Ctx, t: Tree, node: RBNode)
      requires At(c, t, node) && t.Node?
      ensures (node == rb_node <==> c.Top?) && node.color == t.color
    {
      if !c.Top? {
        HoleSide(c, t, node);
      }
    }

    /** The root becomes black, which it already is unless `t` itself has come to the top. */
    method BlackenRoot(ghost c: Ctx, ghost t: Tree, node: RBNode) returns (ghost t': Tree)
      requires At(c, t, node) && IsRed(t) && RootBlack(c) && (!c.Top? ==> c.n.color == Black)
      modifies CtxNodes(c), Nodes(t)
      ensures t' == Blackened(c, t) && IsTree(t', rb_node, null) && Distinct(t')
    {
      ghost var w := Plug(c, t);
      PlugIsTree(c, t, node, rb_node);
      ApartPlug(c, t);
      NodesPlug(c, t);
      PlugIsNode(c, t);
      NodesAllocated(w);
      assert IsTree(w.left, rb_node.left, rb_node) && IsTree(w.right, rb_node.right, rb_node);
      rb_node.color := Black;
      t' := Paint(w, Black);
    }

    lemma UnderGrandparent(c: Ctx, t: Tree, node: RBNode?)
      requires At(c, t, node) && !c.Top? && c.n.color == Red && RootBlack(c)
      ensures !c.up.Top? && c.n.parent == c.up.n && c.color == Red
      ensures c.n == c.up.n.left <==> c.up.LeftOf?
      ensures IsTree(Uncle(c), if c.up.LeftOf? then c.up.n.right else c.up.n.left, c.up.n)
    {
      assert IsCtx(c.up, c.n, rb_node);
      GrandparentSide(c, t, node);
    }
  }

  lemma OuterPieces(c: Ctx, t: Tree)
    requires Apart(c, t) && t.Node? && !c.Top? && !c.up.Top?
    ensures c.up.LeftOf? ==> var o := OuterLeft(c, t); Pieces(c.up.up, o.a, o.p, o.b, c.up.n, Uncle(c))
    ensures c.up.RightOf? ==> var o := OuterRight(c, t); Pieces(c.up.up, Uncle(c), c.up.n, o.b, o.p, o.a)
  {
    assert CtxDistinct(c.up);
  }

  lemma EraseTwoPieces(c: Ctx, l: Tree, n: RBNode, col: Color, r: Tree)
    requires Apart(c, Node(l, n, col, r)) && r.Node?
    ensures Pieces(c, l, n, DelMin(r), MinNode(r), Leaf) && Nodes(DelMin(r)) <= Nodes(r) && MinNode(r) in Nodes(r)
  {
    MinIsBelow(r);
    DelMinDistinct(r);
  }

  lemma CtxNodesOf(c: Ctx, l: Tree, n: RBNode, col: Color, r: Tree, cs: Ctx, s: Tree)
    requires s.Node? && r.Node? && Plug(cs, s.right) == Plug(c, Node(l, n, col, DelMin(r)))
    ensures CtxNodes(cs) + Nodes(s.right) <= CtxNodes(c) + Nodes(l) + {n} + Nodes(r)
  {
    NodesPlug(cs, s.right);
    NodesPlug(c, Node(l, n, col, DelMin(r)));
    MinIsBelow(r);
  }

  /** The parent's subtree painted, before the last rotation. */
  function BeforeTurn(c: Ctx, t: Tree): Tree
    requires !c.Top? && Sibling(c).Node?
  {
    var w, onLeft := Sibling(c), c.LeftOf?;
    Side(onLeft, t, c.n, Black, Side(onLeft, Near(onLeft, w), w.n, c.color, Paint(Far(onLeft, w), Black)))
  }

  lemma BeforeTurnNodes(c: Ctx, t: Tree)
    requires !c.Top? && Sibling(c).Node?
    ensures CtxNodes(c.up) + Nodes(BeforeTurn(c, t)) == CtxNodes(c) + Nodes(t)
  {
    var w, onLeft := Sibling(c), c.LeftOf?;
    assert Nodes(Paint(Far(onLeft, w), Black)) == Nodes(Far(onLeft, w));
    assert Nodes(Side(onLeft, Near(onLeft, w), w.n, c.color, Paint(Far(onLeft, w), Black))) == Nodes(w);
  }

  lemma TurnPieces(toLeft: bool, c: Ctx, t: Tree)
    requires Apart(c, t) && t.Node? && Far(toLeft, t).Node?
    ensures toLeft ==> Pieces(c, t.left, t.n, t.right.left, t.right.n, t.right.right)
    ensures !toLeft ==> Pieces(c, t.left.left, t.left.n, t.left.right, t.n, t.right)
  {
    assert Distinct(Far(toLeft, t));
  }

  lemma TurnedApart(toLeft: bool, c: Ctx, t: Tree)
    requires Apart(c, t) && t.Node? && Far(toLeft, t).Node?
    ensures Apart(c, Turned(toLeft, t)) && Nodes(Turned(toLeft, t)) == Nodes(t)
  {
    var y := Far(toLeft, t);
    assert Distinct(y) && Distinct(Near(toLeft, t));
    assert Distinct(Side(toLeft, Near(toLeft, t), t.n, t.color, Near(toLeft, y)));
  }

  lemma StraightenedNodes(onLeft: bool, w: Tree)
    requires w.Node? && Near(onLeft, w).Node?
    ensures Nodes(Straightened(onLeft, w)) == Nodes(w)
  {
  }

  lemma BalancedNodes(c: Ctx, t: Tree)
    requires Apart(c, t) && !c.Top? && Sibling(c).Node?
    ensures RedChild(Sibling(c)) ==> var u := Plug(c.up, Settled(c, t)); Nodes(u) == CtxNodes(c) + Nodes(t) && Distinct(u)
    ensures var u := Around(WithSibling(c, Paint(Sibling(c), Red)), t, c.color); CtxNodes(c.up) + Nodes(u) == CtxNodes(c) + Nodes(t)
  {
    hide Apart;
    if RedChild(Sibling(c)) {
      SettledInorder(c, t);
      InorderPlug(c.up, Settled(c, t));
      PlugAround(c, t);
      InorderPlug(c.up, Around(c, t, c.color));
      SameOrderSameNodes(Plug(c.up, Settled(c, t)), Plug(c, t));
      NodesPlug(c, t);
      ApartPlug(c, t);
    }
  }

  /** The node's left subtree goes below its successor. */
  method HangLeft(node: RBNode, successor: RBNode, ghost l: Tree, ghost r: Tree)
    requires IsTree(l, node.left, node) && node.left != null && Distinct(l)
    requires node !in Nodes(l) && successor !in Nodes(l) && node != successor
    requires Nodes(r) !! Nodes(l) && node !in Nodes(r) && successor !in Nodes(r)
    modifies node.left, successor`left
    ensures IsTree(l, successor.left, successor) && successor.right == old(successor.right) && unchanged(node)
    ensures successor.color == old(successor.color)
    ensures forall x, y {:trigger IsTree(r, x, y)} :: old(allocated(x) && allocated(y)) ==> IsTree(r, x, y) == old(IsTree(r, x, y))
  {
    NodesAllocated(l);
    NodesAllocated(r);
    RootNode(l, node.left, node);
    SetParent(node.left, successor, node, l);
    successor.left := node.left;
  }

  /** And so does what is left of its right subtree. */
  method HangRight(node: RBNode, successor: RBNode, ghost l: Tree, ghost r: Tree)
    requires IsTree(r, node.right, node) && node.right != null && Distinct(r)
    requires node !in Nodes(r) && successor !in Nodes(r) && node != successor
    requires Nodes(r) !! Nodes(l) && node !in Nodes(l) && successor !in Nodes(l)
    modifies node.right, successor`right
    ensures IsTree(r, successor.right, successor) && successor.left == old(successor.left) && unchanged(node)
    ensures successor.color == old(successor.color)
    ensures forall x, y {:trigger IsTree(l, x, y)} :: old(allocated(x) && allocated(y)) ==> IsTree(l, x, y) == old(IsTree(l, x, y))
  {
    NodesAllocated(l);
    NodesAllocated(r);
    RootNode(r, node.right, node);
    successor.right := node.right;
    SetParent(node.right, successor, node, r);
  }

  lemma RotatedApart(up: Ctx, a: Tree, p: RBNode, b: Tree, g: RBNode, u: Tree)
    requires Pieces(up, a, p, b, g, u) || Pieces(up, u, g, b, p, a)
    ensures Apart(LeftOf(up, p, Black, Node(b, g, Red, u)), a)
    ensures Apart(RightOf(up, Node(u, g, Red, b), p, Black), a)
  {
    assert Distinct(Node(b, g, Red, u)) && Distinct(Node(u, g, Red, b));
  }

  lemma RootsDiffer(c: Ctx, t: Tree, node: RBNode)
    requires !c.Top? && t.Node? && t.n == node && Apart(c, t)
    requires IsTree(Sibling(c), if c.LeftOf? then c.n.right else c.n.left, c.n)
    ensures c.LeftOf? ==> c.n.right != node
    ensures c.RightOf? ==> c.n.left != node
  {
  }

  lemma InnerPieces(c: Ctx, t: Tree)
    requires Apart(c, t) && t.Node? && !c.Top?
    ensures c.RightOf? ==> Pieces(c.up, c.left, c.n, t.left, t.n, t.right)
    ensures c.LeftOf? ==> Pieces(c.up, t.left, t.n, t.right, c.n, c.right)
  {
  }

  lemma RecolorPieces(c: Ctx, t: Tree)
    requires Apart(c, t) && !c.Top? && !c.up.Top? && Uncle(c).Node?
    ensures var sib, u, up := Sibling(c), Uncle(c), c.up.up; var p, g, x := c.n, c.up.n, Uncle(c).n;
      && p != g && p != x && g != x
      && p !in Nodes(t) && p !in Nodes(sib) && p !in Nodes(u) && p !in CtxNodes(up)
      && g !in Nodes(t) && g !in Nodes(sib) && g !in Nodes(u) && g !in CtxNodes(up)
      && x !in Nodes(t) && x !in Nodes(sib) && x !in CtxNodes(up) && x !in Nodes(u.left) && x !in Nodes(u.right)
      && Nodes(u.left) <= Nodes(u) && Nodes(u.right) <= Nodes(u)
      && Apart(up, Recolored(c, t))
    ensures forall o :: o in Nodes(Uncle(c).left) ==> allocated(o)
    ensures forall o :: o in Nodes(Uncle(c).right) ==> allocated(o)
    ensures forall o :: o in Nodes(Sibling(c)) ==> allocated(o)
    ensures forall o :: o in CtxNodes(c.up.up) ==> allocated(o)
  {
    NodesAllocated(Uncle(c).left);
    NodesAllocated(Uncle(c).right);
    NodesAllocated(Sibling(c));
    CtxAllocated(c.up.up);
    assert CtxDistinct(c.up);
    assert Distinct(Paint(Uncle(c), Black)) && Nodes(Paint(Uncle(c), Black)) == Nodes(Uncle(c));
    assert Distinct(Around(c, t, Black)) && Nodes(Around(c, t, Black)) == Nodes(t) + {c.n} + Nodes(Sibling(c));
  }

  /** Makes the right child of `left` the left child of `node`. */
  method PassLeft(node: RBNode, left: RBNode, ghost b: Tree)
    requires IsTree(b, left.right, left) && Distinct(b) && node !in Nodes(b) && left !in Nodes(b) && node != left
    modifies node`left, if left.right == null then {} else {left.right}
    ensures node.left == left.right == old(left.right) && IsTree(b, node.left, node)
    ensures unchanged(left) && node.parent == old(node.parent) && node.right == old(node.right) && node.color == old(node.color)
  {
    NodesAllocated(b);
    node.left := left.right;
    SetParent(left.right, node, left, b);
  }

  /** The parts of a rotation have no node in common. */
  ghost predicate Pieces(c: Ctx, a: Tree, x: RBNode, b: Tree, y: RBNode, d: Tree) {
    && Distinct(a) && Distinct(b) && Distinct(d) && CtxDistinct(c)
    && Nodes(a) !! Nodes(b) && Nodes(a) !! Nodes(d) && Nodes(b) !! Nodes(d)
    && x != y && x !in Nodes(a) && x !in Nodes(b) && x !in Nodes(d) && y !in Nodes(a) && y !in Nodes(b) && y !in Nodes(d)
    && Nodes(a) !! CtxNodes(c) && Nodes(b) !! CtxNodes(c) && Nodes(d) !! CtxNodes(c) && x !in CtxNodes(c) && y !in CtxNodes(c)
  }

  lemma PiecesAllocated(c: Ctx, a: Tree, b: Tree, d: Tree)
    ensures forall o :: o in CtxNodes(c) ==> allocated(o)
    ensures forall o :: o in Nodes(a) ==> allocated(o)
    ensures forall o :: o in Nodes(b) ==> allocated(o)
    ensures forall o :: o in Nodes(d) ==> allocated(o)
    ensures Parent(c) != null ==> Parent(c) in CtxNodes(c)
  {
    CtxAllocated(c);
    NodesAllocated(a);
    NodesAllocated(b);
    NodesAllocated(d);
  }

  /** Makes the left child of `right` the right child of `node`. */
  method PassChild(node: RBNode, right: RBNode, ghost b: Tree)
    requires IsTree(b, right.left, right) && Distinct(b) && node !in Nodes(b) && right !in Nodes(b) && node != right
    modifies node`right, if right.left == null then {} else {right.left}
    ensures node.right == right.left == old(right.left) && IsTree(b, node.right, node)
    ensures unchanged(right) && node.parent == old(node.parent) && node.left == old(node.left) && node.color == old(node.color)
  {
    NodesAllocated(b);
    node.right := right.left;
    SetParent(right.left, node, right, b);
  }
}
