/** Insertion and removal as functions of trees, repairs included. */
module Repair {
  import opened Wrappers
  import opened Tree

  // ----- insertion -----

  /** The tree with a black root. */
  function Blackened(c: Ctx, t: Tree): Tree {
    Paint(Plug(c, t), Black)
  }

  /** What the repair after an insertion makes of a red `t` in the context `c`. */
  function Fixed(c: Ctx, t: Tree): Tree
    requires IsRed(t) && RootBlack(c)
    decreases Depth(c)
  {
    if !CtxIsRed(c) then Blackened(c, t)
    else if IsRed(Uncle(c)) then
      assert RootBlack(c.up) && RootBlack(c.up.up) && Depth(c) == Depth(c.up) + 1;
      Fixed(c.up.up, Recolored(c, t))
    else Blackened(RotatedCtx(c, t), RotatedTree(c, t))
  }

  lemma {:induction false} PlugIsNode(c: Ctx, t: Tree)
    requires t.Node?
    ensures Plug(c, t).Node?
  {
    match c
    case Top =>
    case LeftOf(up, n, col, r) => PlugIsNode(up, Node(t, n, col, r));
    case RightOf(up, l, n, col) => PlugIsNode(up, Node(l, n, col, t));
  }

  lemma BlackenedIsRedBlack(c: Ctx, t: Tree)
    requires IsRed(t)
    ensures Repairable(c, t) && (!c.Top? ==> c.color == Black) ==> RedBlack(Blackened(c, t))
  {
    if Repairable(c, t) && (!c.Top? ==> c.color == Black) {
      var h: nat :| Balanced(t, h) && CtxBalanced(c, h);
      BalancedPlug(c, t, h);
      var w := Plug(c, t);
      if c.Top? {
        assert Balanced(Paint(t, Black), h + 1);
      } else {
        NoRedRedPlug(c, t);
        PlugIsNode(c, t);
        assert Paint(w, Black) == w;
      }
    }
  }

  lemma RecoloredFacts(c: Ctx, t: Tree)
    requires !c.Top? && !c.up.Top? && Uncle(c).Node? && RootBlack(c)
    ensures CtxNodes(c.up.up) + Nodes(Recolored(c, t)) == CtxNodes(c) + Nodes(t)
    ensures Inorder(Plug(c.up.up, Recolored(c, t))) == Inorder(Plug(c, t))
    ensures IsRed(Recolored(c, t)) && Recolored(c, t).n == c.up.n && RootBlack(c.up.up) && Depth(c.up.up) < Depth(c)
    ensures Repairable(c, t) && c.color == Red && IsRed(Uncle(c)) ==> Repairable(c.up.up, Recolored(c, t))
  {
    RecoloredInorder(c, t);
    if Repairable(c, t) && c.color == Red && IsRed(Uncle(c)) {
      RecoloredRepairable(c, t);
    }
    assert Nodes(Paint(Uncle(c), Black)) == Nodes(Uncle(c));
    assert Nodes(Around(c, t, Black)) == Nodes(t) + {c.n} + Nodes(Sibling(c));
  }

  lemma RotatedFacts(c: Ctx, t: Tree)
    requires !c.Top? && !c.up.Top? && IsRed(t) && RootBlack(c)
    ensures CtxNodes(RotatedCtx(c, t)) + Nodes(RotatedTree(c, t)) == CtxNodes(c) + Nodes(t)
    ensures Inorder(Plug(RotatedCtx(c, t), RotatedTree(c, t))) == Inorder(Plug(c, t))
    ensures RootBlack(RotatedCtx(c, t)) && RotatedTree(c, t).Node?
    ensures c.color == Red ==> IsRed(RotatedTree(c, t))
    ensures Repairable(c, t) && c.color == Red && !IsRed(Uncle(c)) ==> Repairable(RotatedCtx(c, t), RotatedTree(c, t))
  {
    RotatedInorder(c, t);
    if Repairable(c, t) && c.color == Red && !IsRed(Uncle(c)) {
      RotatedRepairable(c, t);
    }
  }

  /** The empty place for `key` below `t`: right of what is not larger, left of what is larger. */
  function PlaceFor(c: Ctx, t: Tree, key: nat): (d: Ctx)
    ensures Plug(d, Leaf) == Plug(c, t)
    decreases t
  {
    match t
    case Leaf => c
    case Node(l, n, col, r) =>
      if key < n.key then PlaceFor(LeftOf(c, n, col, r), l, key) else PlaceFor(RightOf(c, l, n, col), r, key)
  }

  function InsertedTree(t: Tree, n: RBNode): Tree
    requires !IsRed(t)
  {
    var c := PlaceFor(Top, t, n.key);
    BlackRootAbove(c, Leaf);
    Fixed(c, Node(Leaf, n, Red, Leaf))
  }

  // ----- the repair after a removal -----

  // The code has every case twice, once for each side. `onLeft` says on which side the hole is.

  function Side(onLeft: bool, near: Tree, n: RBNode, col: Color, far: Tree): Tree {
    if onLeft then Node(near, n, col, far) else Node(far, n, col, near)
  }

  function Beside(onLeft: bool, up: Ctx, n: RBNode, col: Color, sibling: Tree): Ctx {
    if onLeft then LeftOf(up, n, col, sibling) else RightOf(up, sibling, n, col)
  }

  function Near(onLeft: bool, t: Tree): Tree
    requires t.Node?
  {
    if onLeft then t.left else t.right
  }

  function Far(onLeft: bool, t: Tree): Tree
    requires t.Node?
  {
    Near(!onLeft, t)
  }

  function WithSibling(c: Ctx, sibling: Tree): Ctx
    requires !c.Top?
  {
    Beside(c.LeftOf?, c.up, c.n, c.color, sibling)
  }

  /** The root goes down on one side, its child on the other side comes up. */
  function Turned(toLeft: bool, t: Tree): Tree
    requires t.Node? && Far(toLeft, t).Node?
  {
    var y := Far(toLeft, t);
    Side(toLeft, Side(toLeft, Near(toLeft, t), t.n, t.color, Near(toLeft, y)), y.n, y.color, Far(toLeft, y))
  }

  predicate RedChild(t: Tree)
    requires t.Node?
  {
    IsRed(t.left) || IsRed(t.right)
  }

  /** Red sibling: it is rotated over the parent, which becomes red. */
  function Raised(c: Ctx): Ctx
    requires !c.Top? && IsRed(Sibling(c))
  {
    var s, onLeft := Sibling(c), c.LeftOf?;
    Beside(onLeft, Beside(onLeft, c.up, s.n, Black, Far(onLeft, s)), c.n, Red, Near(onLeft, s))
  }

  function Ready(c: Ctx): Ctx
    requires !c.Top?
  {
    if IsRed(Sibling(c)) then Raised(c) else c
  }

  /** The sibling with a red near child only, before the last rotation: that child comes up. */
  function Straightened(onLeft: bool, w: Tree): Tree
    requires w.Node? && Near(onLeft, w).Node?
  {
    var x := Near(onLeft, w);
    Side(onLeft, Near(onLeft, x), x.n, Black, Side(onLeft, Far(onLeft, x), w.n, Red, Far(onLeft, w)))
  }

  /** The last rotation: the sibling takes the parent's place and colour. */
  function TurnedOver(c: Ctx, t: Tree): Tree
    requires !c.Top? && Sibling(c).Node?
  {
    var w, onLeft := Sibling(c), c.LeftOf?;
    Side(onLeft, Side(onLeft, t, c.n, Black, Near(onLeft, w)), w.n, c.color, Paint(Far(onLeft, w), Black))
  }

  /** The sibling has a red child: one or two rotations, and the parent's subtree is in order. */
  function Settled(c: Ctx, t: Tree): Tree
    requires !c.Top? && Sibling(c).Node? && RedChild(Sibling(c))
  {
    if IsRed(Far(c.LeftOf?, Sibling(c))) then TurnedOver(c, t)
    else TurnedOver(WithSibling(c, Straightened(c.LeftOf?, Sibling(c))), t)
  }

  /** What one round of the loop leads to. */
  datatype Round = Climb(c: Ctx, t: Tree) | Done(whole: Tree) | NullSibling

  function RepairRound(c: Ctx, t: Tree): Round
    requires !c.Top?
  {
    var d := Ready(c);
    var w := Sibling(d);
    if Sibling(c).Leaf? || w.Leaf? then NullSibling
    else if RedChild(w) then Done(Plug(d.up, Settled(d, t)))
    else Climb(d.up, Around(WithSibling(d, Paint(w, Red)), t, d.color))
  }

  /** What the loop makes of `t` in the context `c`; nothing if it follows a null sibling. */
  function Repaired(c: Ctx, t: Tree): Option<Tree>
    requires t.Node?
    decreases if c.Top? || t.color == Red then 0 else Depth(c) + 1
  {
    if c.Top? || t.color == Red then Some(Plug(c, Paint(t, Black)))
    else
      match RepairRound(c, t)
      case NullSibling => None
      case Done(whole) => Some(Paint(whole, Black))
      case Climb(d, u) => Repaired(d, u)
  }

  // ----- when the loop follows a null sibling -----

  /** Black parent, black sibling, black nephews: the loop moves up one level. */
  predicate Quiet(c: Ctx) {
    !c.Top? && c.color == Black && Sibling(c).Node? && !IsRed(Sibling(c)) && !RedChild(Sibling(c))
  }

  /** There is no sibling, or there will be none once a red one has been rotated away. */
  predicate Stuck(c: Ctx) {
    !c.Top? && (Sibling(c).Leaf? || (IsRed(Sibling(c)) && Near(c.LeftOf?, Sibling(c)).Leaf?))
  }

  /** The context `k` levels up. */
  function Above(c: Ctx, k: nat): Ctx {
    if k == 0 || c.Top? then c else Above(c.up, k - 1)
  }

  /** `k` quiet levels, and then no sibling. */
  ghost predicate StuckAfter(c: Ctx, k: nat) {
    Stuck(Above(c, k)) && forall j: nat :: j < k ==> Quiet(Above(c, j))
  }

  lemma StuckOneUp(c: Ctx, k: nat)
    requires !c.Top?
    ensures StuckAfter(c, k + 1) <==> Quiet(c) && StuckAfter(c.up, k)
  {
    assert Above(c, 0) == c;
    forall j: nat ensures Above(c, j + 1) == Above(c.up, j) {
    }
    if StuckAfter(c, k + 1) {
      forall j: nat | j < k ensures Quiet(Above(c.up, j)) {
        assert Quiet(Above(c, j + 1));
      }
    } else if Quiet(c) && StuckAfter(c.up, k) {
      forall j: nat | j < k + 1 ensures Quiet(Above(c, j)) {
        assert j > 0 ==> Above(c, j) == Above(c.up, j - 1);
      }
    }
  }

  lemma {:induction false} NullSiblingIff(c: Ctx, t: Tree)
    requires t.Node? && t.color == Black
    ensures Repaired(c, t).None? <==> exists k: nat :: StuckAfter(c, k)
    decreases Depth(c)
  {
    assert StuckAfter(c, 0) == Stuck(c);
    if Quiet(c) {
      var u := Around(WithSibling(c, Paint(Sibling(c), Red)), t, c.color);
      assert Repaired(c, t) == Repaired(c.up, u);
      NullSiblingIff(c.up, u);
    }
    if k: nat :| StuckAfter(c, k) {
      if k > 0 {
        StuckOneUp(c, k - 1);
      }
    } else if Quiet(c) && exists k: nat :: StuckAfter(c.up, k) {
      var k: nat :| StuckAfter(c.up, k);
      StuckOneUp(c, k);
    }
  }

  /** A node with one child is black, and so is the child. */
  predicate BlackOverBlack(l: Tree, col: Color, r: Tree) {
    col == Black && l.Leaf? != r.Leaf? && !IsRed(if l.Node? then l else r)
  }

  /** The tree without a node that has the subtrees `l` and `r`, in the context `c`. */
  function ErasedTree(c: Ctx, l: Tree, col: Color, r: Tree): Option<Tree> {
    if l.Node? && r.Node? then Some(Plug(c, Node(l, MinNode(r), col, DelMin(r))))
    else
      var child := if l.Node? then l else r;
      if col == Black && child.Node? then Repaired(c, child) else Some(Plug(c, child))
  }

  /** A removal follows a null sibling exactly if the node is black with one child, a black one, and
      on the way up from it, behind quiet levels only, a sibling is missing. */
  lemma EraseMeetsNullIff(c: Ctx, l: Tree, col: Color, r: Tree)
    ensures ErasedTree(c, l, col, r).None? <==> BlackOverBlack(l, col, r) && exists k: nat :: StuckAfter(c, k)
  {
    if BlackOverBlack(l, col, r) {
      NullSiblingIff(c, if l.Node? then l else r);
    }
  }

  /** Elsewhere the child is painted, if at all, and that is all. */
  lemma ErasedPlainly(c: Ctx, l: Tree, col: Color, r: Tree)
    requires !BlackOverBlack(l, col, r)
    ensures ErasedTree(c, l, col, r) == Some(Plug(c, Erased(l, col, r)))
  {
  }

  // ----- what insertion keeps -----

  /** What linking a red leaf into an empty place gives. */
  lemma InsertedFacts(c: Ctx, node: RBNode, t: Tree)
    requires Plug(c, Leaf) == t && !IsRed(t)
    ensures var x := Node(Leaf, node, Red, Leaf); var k := |Before(c)|;
      && RootBlack(c) && CtxNodes(c) == Nodes(t)
      && k <= |Inorder(t)| && Inorder(t)[..k] == Before(c) && Inorder(t)[k..] == After(c)
      && Inorder(Plug(c, x)) == Inorder(t)[..k] + [node] + Inorder(t)[k..]
      && (RedBlack(t) ==> Repairable(c, x))
    ensures Sorted(Inorder(t)) && AllAtMost(Before(c), node.key) && AllAbove(After(c), node.key) ==>
      Sorted(Before(c) + [node] + After(c))
  {
    BlackRootAbove(c, Leaf);
    NodesPlug(c, Leaf);
    LeafInserted(c, node, t);
    if RedBlack(t) {
      LeafRepairable(c, node, t);
    }
    if Sorted(Inorder(t)) && AllAtMost(Before(c), node.key) && AllAbove(After(c), node.key) {
      SortedInsert(Before(c), node, After(c));
    }
  }

  lemma LeafInserted(c: Ctx, node: RBNode, t: Tree)
    requires Plug(c, Leaf) == t
    ensures var k := |Before(c)|; var s := Inorder(t);
      && k <= |s| && s[..k] == Before(c) && s[k..] == After(c) && s == Before(c) + After(c)
      && Inorder(Plug(c, Node(Leaf, node, Red, Leaf))) == s[..k] + [node] + s[k..]
  {
    InorderPlug(c, Leaf);
    InorderPlug(c, Node(Leaf, node, Red, Leaf));
    assert Inorder(Node(Leaf, node, Red, Leaf)) == [node];
    assert Inorder(t) == Before(c) + After(c);
  }

  lemma LeafRepairable(c: Ctx, node: RBNode, t: Tree)
    requires Plug(c, Leaf) == t && RedBlack(t)
    ensures Repairable(c, Node(Leaf, node, Red, Leaf))
  {
    var h: nat :| Balanced(t, h);
    PlugColours(c, Leaf);
    var k := PlugHeights(c, Leaf, h);
    assert Balanced(Node(Leaf, node, Red, Leaf), k);
  }

  lemma SortedInsert(a: seq<RBNode>, n: RBNode, b: seq<RBNode>)
    requires Sorted(a + b) && AllAtMost(a, n.key) && AllAbove(b, n.key)
    ensures Sorted(a + [n] + b)
  {
    var s := a + [n] + b;
    forall i, j | 0 <= i < j < |s| ensures s[i].key <= s[j].key {
      var p := if i < |a| then i else i - 1;
      var q := if j < |a| then j else j - 1;
      assert i < |a| ==> s[i] == (a + b)[i];
      assert i > |a| ==> s[i] == (a + b)[p];
      assert j < |a| ==> s[j] == (a + b)[j];
      assert j > |a| ==> s[j] == (a + b)[q];
    }
  }

  lemma {:induction false} FixedFacts(c: Ctx, t: Tree)
    requires IsRed(t) && RootBlack(c)
    ensures Inorder(Fixed(c, t)) == Inorder(Plug(c, t)) && !IsRed(Fixed(c, t))
    ensures Repairable(c, t) ==> RedBlack(Fixed(c, t))
    decreases Depth(c)
  {
    if !CtxIsRed(c) {
      BlackenedIsRedBlack(c, t);
      BlackenedFacts(c, t);
    } else {
      assert !c.up.Top? && RootBlack(c.up) && RootBlack(c.up.up);
      if IsRed(Uncle(c)) {
        RecoloredFacts(c, t);
        FixedFacts(c.up.up, Recolored(c, t));
      } else {
        RotatedFacts(c, t);
        BlackenedIsRedBlack(RotatedCtx(c, t), RotatedTree(c, t));
        BlackenedFacts(RotatedCtx(c, t), RotatedTree(c, t));
      }
    }
  }

  lemma BlackenedFacts(c: Ctx, t: Tree)
    ensures Inorder(Blackened(c, t)) == Inorder(Plug(c, t)) && !IsRed(Blackened(c, t))
  {
  }

  /** Insertion puts the node behind everything that is not larger, and a search tree stays one, a
      red-black tree too. */
  lemma InsertedTreeFacts(t: Tree, n: RBNode) returns (k: nat)
    requires !IsRed(t)
    ensures var u := InsertedTree(t, n); k <= |Inorder(t)| && Inorder(u) == Inorder(t)[..k] + [n] + Inorder(t)[k..] && !IsRed(u)
    ensures Sorted(Inorder(t)) ==> AllAtMost(Inorder(t)[..k], n.key) && AllAbove(Inorder(t)[k..], n.key)
    ensures Sorted(Inorder(t)) ==> Sorted(Inorder(InsertedTree(t, n)))
    ensures RedBlack(t) ==> RedBlack(InsertedTree(t, n))
  {
    var c := PlaceFor(Top, t, n.key);
    InsertedFacts(c, n, t);
    FixedFacts(c, Node(Leaf, n, Red, Leaf));
    if Sorted(Inorder(t)) {
      PlaceForFacts(Top, t, n.key);
    }
    k := |Before(c)|;
  }

  lemma {:induction false} PlaceForFacts(c: Ctx, t: Tree, key: nat)
    requires Sorted(Inorder(Plug(c, t))) && AllAtMost(Before(c), key) && AllAbove(After(c), key)
    ensures var d := PlaceFor(c, t, key); AllAtMost(Before(d), key) && AllAbove(After(d), key)
    decreases t
  {
    match t
    case Leaf =>
    case Node(l, n, col, r) =>
      SearchOrder(c, l, n, col, r, key);
      if key < n.key {
        PlaceForFacts(LeftOf(c, n, col, r), l, key);
      } else {
        PlaceForFacts(RightOf(c, l, n, col), r, key);
      }
  }

  // ----- each node once -----

  ghost predicate Once(s: seq<RBNode>) {
    forall i, j :: 0 <= i < j < |s| ==> s[i] != s[j]
  }

  ghost function Elems(s: seq<RBNode>): set<RBNode> { set x | x in s }

  lemma OnceParts(a: seq<RBNode>, n: RBNode, b: seq<RBNode>)
    ensures Once(a + [n] + b) <==> Once(a) && Once(b) && n !in Elems(a) && n !in Elems(b) && Elems(a) !! Elems(b)
  {
    var s := a + [n] + b;
    assert s[|a|] == n && s[..|a|] == a && s[|a| + 1..] == b;
    if Once(s) {
      OnceWhole(a, n, b);
    } else {
      var i, j :| 0 <= i < j < |s| && s[i] == s[j];
      assert i < |a| ==> s[i] in Elems(a);
      assert j > |a| ==> s[j] == b[j - |a| - 1] && s[j] in Elems(b);
      assert j < |a| ==> !Once(a);
      assert i > |a| ==> b[i - |a| - 1] == s[i] && b[j - |a| - 1] == s[j];
    }
  }

  lemma OnceWhole(a: seq<RBNode>, n: RBNode, b: seq<RBNode>)
    requires Once(a + [n] + b)
    ensures Once(a) && Once(b) && n !in Elems(a) && n !in Elems(b) && Elems(a) !! Elems(b)
  {
    var s := a + [n] + b;
    assert s[|a|] == n;
    forall i | 0 <= i < |a| ensures s[i] == a[i] {
    }
    forall i | 0 <= i < |b| ensures s[|a| + 1 + i] == b[i] {
    }
    forall i, j | 0 <= i < |a| && 0 <= j < |b| ensures a[i] != b[j] {
      assert s[i] != s[|a| + 1 + j];
    }
    forall i, j | 0 <= i < j < |b| ensures b[i] != b[j] {
      assert s[|a| + 1 + i] != s[|a| + 1 + j];
    }
  }

  lemma {:induction false} NodesAre(t: Tree)
    ensures Nodes(t) == Elems(Inorder(t))
  {
    match t
    case Leaf =>
    case Node(l, n, _, r) =>
      NodesAre(l);
      NodesAre(r);
      assert Elems(Inorder(t)) == Elems(Inorder(l)) + {n} + Elems(Inorder(r));
  }

  lemma {:induction false} DistinctOnce(t: Tree)
    ensures Distinct(t) <==> Once(Inorder(t))
  {
    match t
    case Leaf =>
    case Node(l, n, _, r) =>
      DistinctOnce(l);
      DistinctOnce(r);
      OnceParts(Inorder(l), n, Inorder(r));
      NodesAre(l);
      NodesAre(r);
  }

  /** Trees with the same nodes in the same order have the same set of nodes, each as often. */
  lemma SameOrderSameNodes(t: Tree, u: Tree)
    requires Inorder(t) == Inorder(u)
    ensures Nodes(t) == Nodes(u) && (Distinct(t) <==> Distinct(u))
  {
    DistinctOnce(t);
    DistinctOnce(u);
    NodesAre(t);
    NodesAre(u);
  }

  // ----- what the repair after a removal keeps -----

  /** Two in-order walks over three trees. */
  lemma TwoNodes(a: Tree, x: RBNode, c: Color, b: Tree, y: RBNode, d: Color, e: Tree, c': Color, d': Color)
    ensures Inorder(Node(a, x, c, Node(b, y, d, e))) == Inorder(Node(Node(a, x, c', b), y, d', e))
  {
    InorderRight(a, x, d', b, y, c', e);
    assert Inorder(Node(b, y, d, e)) == Inorder(Node(b, y, c', e));
  }

  lemma RaisedInorder(c: Ctx, t: Tree)
    requires !c.Top? && IsRed(Sibling(c))
    ensures Inorder(Plug(Raised(c), t)) == Inorder(Plug(c, t))
  {
    var s, d := Sibling(c), Raised(c);
    var above := Around(d.up, Around(d, t, Red), Black);
    PlugAround(d, t);
    PlugAround(d.up, Around(d, t, Red));
    PlugAround(c, t);
    if c.LeftOf? {
      TwoNodes(t, c.n, c.color, s.left, s.n, Red, s.right, Red, Black);
    } else {
      TwoNodes(s.left, s.n, Black, s.right, c.n, Red, t, Red, c.color);
    }
    InorderPlug(c.up, above);
    InorderPlug(c.up, Around(c, t, c.color));
  }

  lemma SettledInorder(c: Ctx, t: Tree)
    requires !c.Top? && Sibling(c).Node? && RedChild(Sibling(c))
    ensures Inorder(Settled(c, t)) == Inorder(Around(c, t, c.color))
  {
    var w, onLeft := Sibling(c), c.LeftOf?;
    if IsRed(Far(onLeft, w)) {
      assert Inorder(Paint(Far(onLeft, w), Black)) == Inorder(Far(onLeft, w));
      if onLeft {
        TwoNodes(t, c.n, c.color, w.left, w.n, w.color, w.right, Black, c.color);
      } else {
        TwoNodes(w.left, w.n, c.color, w.right, c.n, Black, t, w.color, c.color);
      }
    } else {
      var x := Near(onLeft, w);
      if onLeft {
        TwoNodes(x.left, x.n, x.color, x.right, w.n, Black, w.right, x.color, w.color);
        TwoNodes(t, c.n, c.color, x.left, x.n, x.color, Node(x.right, w.n, Black, w.right), Black, c.color);
        assert Inorder(w) == Inorder(Node(x.left, x.n, x.color, Node(x.right, w.n, Black, w.right)));
      } else {
        TwoNodes(w.left, w.n, w.color, x.left, x.n, x.color, x.right, Black, x.color);
        TwoNodes(Node(w.left, w.n, Black, x.left), x.n, c.color, x.right, c.n, Black, t, x.color, c.color);
        assert Inorder(w) == Inorder(Node(Node(w.left, w.n, Black, x.left), x.n, x.color, x.right));
      }
    }
  }

  lemma RoundFacts(c: Ctx, t: Tree)
    requires !c.Top? && RootBlack(c)
    ensures RepairRound(c, t).Done? ==> Inorder(RepairRound(c, t).whole) == Inorder(Plug(c, t)) && RepairRound(c, t).whole.Node?
    ensures RepairRound(c, t).Climb? ==>
      Inorder(Plug(RepairRound(c, t).c, RepairRound(c, t).t)) == Inorder(Plug(c, t)) && RootBlack(RepairRound(c, t).c)
  {
    if !RepairRound(c, t).NullSibling? {
      var d := Ready(c);
      var w := Sibling(d);
      if IsRed(Sibling(c)) {
        RaisedInorder(c, t);
      }
      PlugAround(d, t);
      InorderPlug(d.up, Around(d, t, d.color));
      if RedChild(w) {
        SettledInorder(d, t);
        InorderPlug(d.up, Settled(d, t));
        PlugIsNode(d.up, Settled(d, t));
      } else {
        var u := Around(WithSibling(d, Paint(w, Red)), t, d.color);
        assert Inorder(Paint(w, Red)) == Inorder(w);
        InorderPlug(d.up, u);
      }
    }
  }

  lemma {:induction false} RepairedFacts(c: Ctx, t: Tree)
    requires t.Node? && RootBlack(c) && Repaired(c, t).Some?
    ensures Inorder(Repaired(c, t).value) == Inorder(Plug(c, t)) && !IsRed(Repaired(c, t).value)
    decreases if c.Top? || t.color == Red then 0 else Depth(c) + 1
  {
    if c.Top? || t.color == Red {
      InorderPlug(c, t);
      InorderPlug(c, Paint(t, Black));
      if !c.Top? {
        RootIsBlack(c, Paint(t, Black));
      }
    } else {
      RoundFacts(c, t);
      var round := RepairRound(c, t);
      if round.Climb? {
        RepairedFacts(round.c, round.t);
      } else {
        assert Inorder(Paint(round.whole, Black)) == Inorder(round.whole);
      }
    }
  }

  lemma {:induction false} RootIsBlack(c: Ctx, t: Tree)
    requires !c.Top? && RootBlack(c)
    ensures !IsRed(Plug(c, t))
  {
    if !c.up.Top? {
      RootIsBlack(c.up, Around(c, t, c.color));
    }
  }

  /** The tree in the hole is one black node short, and nothing else is wrong. */
  ghost predicate Short(c: Ctx, t: Tree) {
    NoRedRed(Paint(t, Black)) && CtxNoRedRed(c) && exists h: nat :: Balanced(t, h) && CtxBalanced(c, h + 1)
  }

  /** Entered like that, the repair never meets a null sibling, and makes a red-black tree. */
  lemma {:induction false} ShortIsRepaired(c: Ctx, t: Tree)
    requires t.Node? && Short(c, t)
    ensures Repaired(c, t).Some? && RedBlack(Repaired(c, t).value)
    decreases if c.Top? || t.color == Red then 0 else Depth(c) + 1
  {
    var h: nat :| Balanced(t, h) && CtxBalanced(c, h + 1);
    var b := Paint(t, Black);
    if c.Top? {
      assert Balanced(b, if t.color == Red then h + 1 else h);
    } else if t.color == Red {
      assert Balanced(b, h + 1);
      BalancedPlug(c, b, h + 1);
      NoRedRedPlug(c, b);
    } else {
      ReadyIsShort(c, t, h);
      var d := Ready(c);
      if RedChild(Sibling(d)) {
        SettledIsRedBlack(d, t, h);
      } else {
        ClimbIsShort(d, t, h);
        ShortIsRepaired(d.up, Around(WithSibling(d, Paint(Sibling(d), Red)), t, d.color));
      }
    }
  }

  lemma ReadyIsShort(c: Ctx, t: Tree, h: nat)
    requires !c.Top? && t.Node? && t.color == Black && NoRedRed(t) && CtxNoRedRed(c) && Balanced(t, h) && CtxBalanced(c, h + 1)
    ensures Sibling(c).Node? && !Ready(c).Top? && Sibling(Ready(c)).Node? && !IsRed(Sibling(Ready(c)))
    ensures CtxNoRedRed(Ready(c)) && CtxBalanced(Ready(c), h + 1)
  {
    var s := Sibling(c);
    assert Balanced(s, h + 1) && h > 0;
    if IsRed(s) {
      assert Balanced(s.left, h + 1) && Balanced(s.right, h + 1) && c.color == Black;
      var outer := Raised(c).up;
      assert CtxNoRedRed(outer) && CtxBalanced(outer, h + 1);
    }
  }

  lemma SettledIsRedBlack(d: Ctx, t: Tree, h: nat)
    requires !d.Top? && NoRedRed(t) && CtxNoRedRed(d) && Balanced(t, h) && CtxBalanced(d, h + 1)
    requires Sibling(d).Node? && !IsRed(Sibling(d)) && RedChild(Sibling(d))
    ensures RedBlack(Paint(Plug(d.up, Settled(d, t)), Black))
  {
    hide Plug, IsBalanced, CtxIsRed;
    var x, k := Settled(d, t), h + 1 + BlackCount(d.color);
    var near, far := Near(d.LeftOf?, Sibling(d)), Far(d.LeftOf?, Sibling(d));
    assert NoRedRed(near) && NoRedRed(far) && Balanced(near, h) && Balanced(far, h);
    SettledColours(d, t, h);
    assert CtxNoRedRed(d.up) && CtxBalanced(d.up, k) && x.color == d.color;
    BalancedPlug(d.up, x, k);
    NoRedRedPlug(d.up, x);
  }

  lemma SettledColours(d: Ctx, t: Tree, h: nat)
    requires !d.Top? && Sibling(d).Node? && RedChild(Sibling(d)) && NoRedRed(t) && Balanced(t, h)
    requires var w := Sibling(d); NoRedRed(w.left) && NoRedRed(w.right) && Balanced(w.left, h) && Balanced(w.right, h)
    ensures NoRedRed(Settled(d, t)) && Balanced(Settled(d, t), h + 1 + BlackCount(d.color))
  {
    var w, onLeft := Sibling(d), d.LeftOf?;
    if IsRed(Far(onLeft, w)) {
      OuterColours(onLeft, t, d.n, Near(onLeft, w), w.n, d.color, Far(onLeft, w), h);
    } else {
      InnerColours(onLeft, t, d.n, Near(onLeft, w), w.n, d.color, Far(onLeft, w), h);
    }
  }

  lemma OuterColours(onLeft: bool, t: Tree, n: RBNode, near: Tree, m: RBNode, col: Color, far: Tree, h: nat)
    requires NoRedRed(t) && NoRedRed(near) && NoRedRed(far) && IsRed(far)
    requires Balanced(t, h) && Balanced(near, h) && Balanced(far, h)
    ensures var x := Side(onLeft, Side(onLeft, t, n, Black, near), m, col, Paint(far, Black));
      NoRedRed(x) && Balanced(x, h + 1 + BlackCount(col))
  {
    SideColours(onLeft, t, n, Black, near, h);
    SideColours(onLeft, Side(onLeft, t, n, Black, near), m, col, Paint(far, Black), h + 1);
  }

  lemma InnerColours(onLeft: bool, t: Tree, n: RBNode, near: Tree, m: RBNode, col: Color, far: Tree, h: nat)
    requires NoRedRed(t) && NoRedRed(near) && NoRedRed(far) && IsRed(near)
    requires Balanced(t, h) && Balanced(near, h) && Balanced(far, h)
    ensures var a, b := Near(onLeft, near), Far(onLeft, near);
      var x := Side(onLeft, Side(onLeft, t, n, Black, a), near.n, col, Side(onLeft, b, m, Black, far));
      NoRedRed(x) && Balanced(x, h + 1 + BlackCount(col))
  {
    var a, b := Near(onLeft, near), Far(onLeft, near);
    assert NoRedRed(a) && NoRedRed(b) && Balanced(a, h) && Balanced(b, h);
    SideColours(onLeft, t, n, Black, a, h);
    SideColours(onLeft, b, m, Black, far, h);
    SideColours(onLeft, Side(onLeft, t, n, Black, a), near.n, col, Side(onLeft, b, m, Black, far), h + 1);
  }

  lemma SideColours(onLeft: bool, a: Tree, n: RBNode, col: Color, b: Tree, h: nat)
    requires Balanced(a, h) && Balanced(b, h) && NoRedRed(a) && NoRedRed(b) && (col == Red ==> !IsRed(a) && !IsRed(b))
    ensures Balanced(Side(onLeft, a, n, col, b), h + BlackCount(col)) && NoRedRed(Side(onLeft, a, n, col, b))
  {
  }

  lemma ClimbIsShort(d: Ctx, t: Tree, h: nat)
    requires !d.Top? && NoRedRed(t) && !IsRed(t) && CtxNoRedRed(d) && Balanced(t, h) && CtxBalanced(d, h + 1)
    requires Sibling(d).Node? && !IsRed(Sibling(d)) && !RedChild(Sibling(d))
    ensures Short(d.up, Around(WithSibling(d, Paint(Sibling(d), Red)), t, d.color))
  {
    var w := Paint(Sibling(d), Red);
    var u := Around(WithSibling(d, w), t, d.color);
    assert Balanced(w, h) && Balanced(u, h + BlackCount(d.color)) && NoRedRed(w);
  }

  // ----- what removal keeps -----

  /** In a red-black tree no black node has a black child only. */
  lemma LoneChildIsRed(c: Ctx, l: Tree, n: RBNode, col: Color, r: Tree)
    requires RedBlack(Plug(c, Node(l, n, col, r)))
    ensures !BlackOverBlack(l, col, r)
  {
    var t := Node(l, n, col, r);
    var h0: nat :| Balanced(Plug(c, t), h0);
    var h := PlugHeights(c, t, h0);
    assert Balanced(t, h);
    if l.Leaf? {
      assert Balanced(r, 0);
    } else if r.Leaf? {
      assert Balanced(l, 0);
    }
  }

  lemma {:induction false} MinIsBelow(t: Tree)
    requires t.Node?
    ensures MinNode(t) in Nodes(t) && Nodes(DelMin(t)) <= Nodes(t)
  {
    if t.left.Node? {
      MinIsBelow(t.left);
    }
  }

  lemma {:induction false} DelMinDistinct(t: Tree)
    requires t.Node? && Distinct(t)
    ensures Distinct(DelMin(t)) && Nodes(DelMin(t)) == Nodes(t) - {MinNode(t)}
  {
    MinIsBelow(t);
    if t.left.Node? {
      MinIsBelow(t.left);
      DelMinDistinct(t.left);
    }
  }

  lemma ErasedTreeInorder(c: Ctx, l: Tree, n: RBNode, col: Color, r: Tree)
    requires RootBlack(c) && (c.Top? ==> col == Black) && ErasedTree(c, l, col, r).Some?
    ensures var t := ErasedTree(c, l, col, r).value;
      Inorder(t) == (Before(c) + Inorder(l)) + (Inorder(r) + After(c)) && !IsRed(t)
  {
    ErasedInorder(c, l, n, col, r);
    if l.Node? && r.Node? {
      if !c.Top? {
        RootIsBlack(c, Erased(l, col, r));
      }
    } else {
      var child := if l.Node? then l else r;
      InorderPlug(c, child);
      assert Inorder(child) == Inorder(l) + Inorder(r);
      Regroup5(Before(c), Inorder(l), n, Inorder(r), After(c));
      if col == Black && child.Node? {
        RepairedFacts(c, child);
      } else if !c.Top? {
        RootIsBlack(c, child);
      }
    }
  }

  lemma TakenOut(a: seq<RBNode>, n: RBNode, b: seq<RBNode>)
    requires Once(a + [n] + b)
    ensures Once(a + b) && Elems(a + b) == Elems(a + [n] + b) - {n}
  {
    OnceWhole(a, n, b);
    forall i, j | 0 <= i < j < |a + b| ensures (a + b)[i] != (a + b)[j] {
      assert (a + [n] + b)[if i < |a| then i else i + 1] != (a + [n] + b)[if j < |a| then j else j + 1];
    }
  }

  /** Removal takes one node out of the order; and a red-black tree, whose removals never meet a null
      sibling, stays one in just the cases that `ErasesCleanly` names. */
  lemma ErasedTreeFacts(c: Ctx, l: Tree, n: RBNode, col: Color, r: Tree)
    requires Distinct(Plug(c, Node(l, n, col, r))) && !IsRed(Plug(c, Node(l, n, col, r)))
    ensures var t, o := Plug(c, Node(l, n, col, r)), ErasedTree(c, l, col, r);
      && (o.Some? ==> Distinct(o.value) && !IsRed(o.value) && Nodes(o.value) == Nodes(t) - {n}
                      && Inorder(o.value) == (Before(c) + Inorder(l)) + (Inorder(r) + After(c)))
      && (RedBlack(t) ==> o.Some? && (RedBlack(o.value) <==> ErasesCleanly(c, l, col, r)))
  {
    var t, o := Plug(c, Node(l, n, col, r)), ErasedTree(c, l, col, r);
    if o.Some? {
      BlackRootAbove(c, Node(l, n, col, r));
      ErasedTreeInorder(c, l, n, col, r);
      ErasedInorder(c, l, n, col, r);
      DistinctOnce(t);
      TakenOut(Before(c) + Inorder(l), n, Inorder(r) + After(c));
      DistinctOnce(o.value);
      NodesAre(t);
      NodesAre(o.value);
    }
    if RedBlack(t) {
      LoneChildIsRed(c, l, n, col, r);
      ErasedPlainly(c, l, col, r);
      EraseKeepsRedBlack(c, l, n, col, r);
    }
  }
}
