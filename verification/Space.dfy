/** The tree and the ranges it stands for, side by side: additions and removals as functions. */
module Space {
  import opened Wrappers
  import opened Tree
  import opened Repair
  import opened AddressSpace

  datatype Space = Space(tree: Tree, rs: seq<Range>) {
    /** As many nodes as ranges, below a black root. */
    predicate Ok() { !IsRed(tree) && |Inorder(tree)| == |rs| }
  }

  // ----- removal by position -----

  datatype Spot = Spot(c: Ctx, t: Tree)

  /** Where the node at position `i` of the order is. */
  function SpotOf(c: Ctx, t: Tree, i: nat): (s: Spot)
    requires i < |Inorder(t)|
    ensures s.t.Node? && Plug(s.c, s.t) == Plug(c, t)
    decreases t
  {
    var k := |Inorder(t.left)|;
    if i < k then SpotOf(LeftOf(c, t.n, t.color, t.right), t.left, i)
    else if i == k then Spot(c, t)
    else SpotOf(RightOf(c, t.left, t.n, t.color), t.right, i - k - 1)
  }

  lemma {:induction false} SpotIs(c: Ctx, t: Tree, i: nat)
    requires i < |Inorder(t)|
    ensures var s := SpotOf(c, t, i); s.t.n == Inorder(t)[i] && |Before(s.c)| + |Inorder(s.t.left)| == |Before(c)| + i
    decreases t
  {
    var k := |Inorder(t.left)|;
    if i < k {
      SpotIs(LeftOf(c, t.n, t.color, t.right), t.left, i);
    } else if i > k {
      SpotIs(RightOf(c, t.left, t.n, t.color), t.right, i - k - 1);
    }
  }

  /** The tree without the node at position `i`; nothing if the repair follows a null sibling. */
  function ErasedAt(t: Tree, i: nat): Option<Tree>
    requires i < |Inorder(t)|
  {
    var s := SpotOf(Top, t, i);
    ErasedTree(s.c, s.t.left, s.t.color, s.t.right)
  }

  /** The node at position `i` is black with a black lone child, and on the way up from it, behind
      quiet levels only, a sibling is missing. */
  ghost predicate MeetsNull(t: Tree, i: nat)
    requires i < |Inorder(t)|
  {
    var s := SpotOf(Top, t, i);
    BlackOverBlack(s.t.left, s.t.color, s.t.right) && exists k: nat :: StuckAfter(s.c, k)
  }

  predicate CleanAt(t: Tree, i: nat)
    requires i < |Inorder(t)|
  {
    var s := SpotOf(Top, t, i);
    ErasesCleanly(s.c, s.t.left, s.t.color, s.t.right)
  }

  lemma ErasedAtFacts(t: Tree, i: nat)
    requires i < |Inorder(t)| && !IsRed(t)
    ensures ErasedAt(t, i).None? <==> MeetsNull(t, i)
    ensures ErasedAt(t, i).Some? ==> Inorder(ErasedAt(t, i).value) == Inorder(t)[..i] + Inorder(t)[i + 1..] && !IsRed(ErasedAt(t, i).value)
  {
    var s := SpotOf(Top, t, i);
    var l, r := s.t.left, s.t.right;
    SpotIs(Top, t, i);
    EraseMeetsNullIff(s.c, l, s.t.color, r);
    BlackRootAbove(s.c, s.t);
    ErasedInorder(s.c, l, s.t.n, s.t.color, r);
    if ErasedAt(t, i).Some? {
      ErasedTreeInorder(s.c, l, s.t.n, s.t.color, r);
      assert Inorder(t)[..i] == Before(s.c) + Inorder(l);
      assert Inorder(t)[i + 1..] == Inorder(r) + After(s.c);
    }
  }

  /** A red-black tree never meets a null sibling, and stays red-black in just the cases of `CleanAt`. */
  lemma ErasedAtRedBlack(t: Tree, i: nat)
    requires i < |Inorder(t)| && RedBlack(t)
    ensures ErasedAt(t, i).Some? && (RedBlack(ErasedAt(t, i).value) <==> CleanAt(t, i))
  {
    var s := SpotOf(Top, t, i);
    LoneChildIsRed(s.c, s.t.left, s.t.n, s.t.color, s.t.right);
    ErasedPlainly(s.c, s.t.left, s.t.color, s.t.right);
    EraseKeepsRedBlack(s.c, s.t.left, s.t.n, s.t.color, s.t.right);
  }

  // ----- additions -----

  lemma InsertedSize(t: Tree, n: RBNode)
    requires !IsRed(t)
    ensures |Inorder(InsertedTree(t, n))| == |Inorder(t)| + 1 && !IsRed(InsertedTree(t, n))
  {
    var k := InsertedTreeFacts(t, n);
  }

  /** Ranges `k` and `k + 1` become one, and the second node leaves the tree. */
  function JoinedAt(t: Tree, ss: seq<Range>, k: nat): Option<Space>
    requires k + 1 < |ss| == |Inorder(t)|
  {
    var o := ErasedAt(t, k + 1);
    if o.Some? then Some(Space(o.value, Joined(ss, k))) else None
  }

  /** Which range is swallowed by the one before it, if any: the new one at `k`, or else the next. */
  function Swallowed(ss: seq<Range>, k: nat): (i: Option<nat>)
    requires k < |ss|
    ensures i.Some? <==> Joins(ss, k)
    ensures i.Some? ==> 0 < i.value < |ss|
  {
    if k > 0 && ss[k - 1].CanMergeWith(ss[k]) then Some(k)
    else if k + 1 < |ss| && ss[k].CanMergeWith(ss[k + 1]) then Some(k + 1)
    else None
  }

  /** What an addition leaves; nothing if it follows a null sibling. */
  function AddedTo(sp: Space, n: RBNode, r: Range): Option<Space>
    requires sp.Ok()
  {
    InsertedSize(sp.tree, n);
    var k := Place(sp.rs, r.start);
    var t, ss := InsertedTree(sp.tree, n), Inserted(sp.rs, k, r);
    var i := Swallowed(ss, k);
    if i.Some? then JoinedAt(t, ss, i.value - 1) else Some(Space(t, ss))
  }

  /** The addition joins ranges, and taking a node out of the tree for that meets a null sibling. */
  ghost predicate AdditionMeetsNull(sp: Space, n: RBNode, r: Range)
    requires sp.Ok()
  {
    InsertedSize(sp.tree, n);
    var k := Place(sp.rs, r.start);
    var i := Swallowed(Inserted(sp.rs, k, r), k);
    i.Some? && MeetsNull(InsertedTree(sp.tree, n), i.value)
  }

  lemma AddedToFacts(sp: Space, n: RBNode, r: Range)
    requires sp.Ok()
    ensures AddedTo(sp, n, r).None? <==> AdditionMeetsNull(sp, n, r)
    ensures AddedTo(sp, n, r).Some? ==> AddedTo(sp, n, r).value.Ok() && AddedTo(sp, n, r).value.rs == Added(sp.rs, r)
  {
    InsertedSize(sp.tree, n);
    var k := Place(sp.rs, r.start);
    var t, ss := InsertedTree(sp.tree, n), Inserted(sp.rs, k, r);
    var i := Swallowed(ss, k);
    if i.Some? {
      ErasedAtFacts(t, i.value);
    }
  }

  /** The join, if there is one, takes out a node that leaves the tree clean. */
  predicate AddsCleanly(sp: Space, n: RBNode, r: Range)
    requires sp.Ok()
  {
    InsertedSize(sp.tree, n);
    var k := Place(sp.rs, r.start);
    var i := Swallowed(Inserted(sp.rs, k, r), k);
    i.Some? ==> CleanAt(InsertedTree(sp.tree, n), i.value)
  }

  /** From a red-black tree no addition meets a null sibling, and the tree stays red-black unless a
      join takes out a node that leaves it unclean. */
  lemma AddedToRedBlack(sp: Space, n: RBNode, r: Range)
    requires sp.Ok() && RedBlack(sp.tree)
    ensures AddedTo(sp, n, r).Some? && (RedBlack(AddedTo(sp, n, r).value.tree) <==> AddsCleanly(sp, n, r))
  {
    InsertedSize(sp.tree, n);
    var k := InsertedTreeFacts(sp.tree, n);
    var p := Place(sp.rs, r.start);
    var i := Swallowed(Inserted(sp.rs, p, r), p);
    if i.Some? {
      ErasedAtRedBlack(InsertedTree(sp.tree, n), i.value);
    }
  }

  // ----- whole runs -----

  datatype Addition = Addition(n: RBNode, r: Range)

  function Ranges(news: seq<Addition>): (rs: seq<Range>)
    ensures |rs| == |news| && forall i :: 0 <= i < |news| ==> rs[i] == news[i].r
  {
    if news == [] then [] else [news[0].r] + Ranges(news[1..])
  }

  function AddedAll(sp: Space, news: seq<Addition>): (o: Option<Space>)
    requires sp.Ok()
    decreases |news|
  {
    if news == [] then Some(sp)
    else
      var o := AddedTo(sp, news[0].n, news[0].r);
      AddedToFacts(sp, news[0].n, news[0].r);
      if o.Some? then AddedAll(o.value, news[1..]) else None
  }

  /** No addition of the run meets a null sibling when its turn comes. */
  ghost predicate NoneMeetsNull(sp: Space, news: seq<Addition>)
    requires sp.Ok()
    decreases |news|
  {
    news == [] || (AddedToFacts(sp, news[0].n, news[0].r);
      !AdditionMeetsNull(sp, news[0].n, news[0].r) && NoneMeetsNull(AddedTo(sp, news[0].n, news[0].r).value, news[1..]))
  }

  /** Over a run of page-aligned additions, each taken and fitting when its turn comes, the run gets to
      its end exactly if no addition meets a null sibling; and then every address is translated by the
      one range that brought it in, as if that range stood alone, however ranges were joined on the way. */
  lemma {:induction false} RunOverTree(sp: Space, news: seq<Addition>, a: U64)
    requires sp.Ok() && Disjoint(sp.rs) && Proper(sp.rs) && PageAligned(sp.rs) && PageAligned(Ranges(news)) && AllTaken(sp.rs, Ranges(news))
    ensures AddedAll(sp, news).Some? <==> NoneMeetsNull(sp, news)
    ensures AddedAll(sp, news).Some? ==>
      && AddedAll(sp, news).value.rs == AddAll(sp.rs, Ranges(news))
      && Translate(AddedAll(sp, news).value.rs, a) ==
           if Translate(Ranges(news), a).Some? then Translate(Ranges(news), a) else Translate(sp.rs, a)
  {
    RunGoesOn(sp, news);
    RunTranslation(sp.rs, Ranges(news), a);
  }

  lemma {:induction false} RunGoesOn(sp: Space, news: seq<Addition>)
    requires sp.Ok()
    ensures AddedAll(sp, news).Some? <==> NoneMeetsNull(sp, news)
    ensures AddedAll(sp, news).Some? ==> AddedAll(sp, news).value.rs == AddAll(sp.rs, Ranges(news))
    decreases |news|
  {
    if news != [] {
      AddedToFacts(sp, news[0].n, news[0].r);
      if AddedTo(sp, news[0].n, news[0].r).Some? {
        RunGoesOn(AddedTo(sp, news[0].n, news[0].r).value, news[1..]);
        assert Ranges(news)[0] == news[0].r && Ranges(news)[1..] == Ranges(news[1..]);
      }
    }
  }

  // ----- runs that add and remove -----

  datatype Change = Add(n: RBNode, r: Range) | Remove(i: nat)

  /** What an addition or a removal leaves; nothing if it follows a null sibling. */
  function ChangedTo(sp: Space, c: Change): Option<Space>
    requires sp.Ok() && (c.Remove? ==> c.i < |sp.rs|)
  {
    match c
    case Add(n, r) => AddedTo(sp, n, r)
    case Remove(i) =>
      var o := ErasedAt(sp.tree, i);
      if o.Some? then Some(Space(o.value, Dropped(sp.rs, i))) else None
  }

  ghost predicate ChangeMeetsNull(sp: Space, c: Change)
    requires sp.Ok() && (c.Remove? ==> c.i < |sp.rs|)
  {
    match c
    case Add(n, r) => AdditionMeetsNull(sp, n, r)
    case Remove(i) => MeetsNull(sp.tree, i)
  }

  function Dropped(rs: seq<Range>, i: nat): seq<Range>
    requires i < |rs|
  {
    rs[..i] + rs[i + 1..]
  }

  /** The same on the ranges alone. */
  function RangesAfter(rs: seq<Range>, c: Change): seq<Range>
    requires c.Remove? ==> c.i < |rs|
  {
    match c
    case Add(_, r) => Added(rs, r)
    case Remove(i) => Dropped(rs, i)
  }

  /** A new range is page-aligned, taken and fits; a range that goes is there. */
  predicate Allowed(rs: seq<Range>, c: Change) {
    match c
    case Add(_, r) => Accepts(rs, r) && Fits(rs, r) && r.start % PAGE == 0 && r.end % PAGE == 0
    case Remove(i) => i < |rs|
  }

  /** Each change is allowed when its turn comes. */
  predicate AllAllowed(rs: seq<Range>, changes: seq<Change>)
    decreases |changes|
  {
    changes == [] || (Allowed(rs, changes[0]) && AllAllowed(RangesAfter(rs, changes[0]), changes[1..]))
  }

  function ChangedAll(sp: Space, changes: seq<Change>): (o: Option<Space>)
    requires sp.Ok() && AllAllowed(sp.rs, changes)
    decreases |changes|
  {
    if changes == [] then Some(sp)
    else
      var o := ChangedTo(sp, changes[0]);
      ChangedToFacts(sp, changes[0]);
      if o.Some? then ChangedAll(o.value, changes[1..]) else None
  }

  /** No change of the run meets a null sibling when its turn comes. */
  ghost predicate NoChangeMeetsNull(sp: Space, changes: seq<Change>)
    requires sp.Ok() && AllAllowed(sp.rs, changes)
    decreases |changes|
  {
    changes == [] || (ChangedToFacts(sp, changes[0]);
      !ChangeMeetsNull(sp, changes[0]) && NoChangeMeetsNull(ChangedTo(sp, changes[0]).value, changes[1..]))
  }

  /** Where one address leads through a run, and with which permissions, as each change by itself would have it: a new range
      maps its addresses, and one that goes takes its own with it. */
  function MappedBy(m: Option<Mapping>, rs: seq<Range>, changes: seq<Change>, a: U64): Option<Mapping>
    requires AllAllowed(rs, changes)
    decreases |changes|
  {
    if changes == [] then m else MappedBy(MappedOnce(m, rs, changes[0], a), RangesAfter(rs, changes[0]), changes[1..], a)
  }

  function MappedOnce(m: Option<Mapping>, rs: seq<Range>, c: Change, a: U64): Option<Mapping>
    requires Allowed(rs, c)
  {
    match c
    case Add(_, r) => if r.Contains(a) then Some(r.MapOf(a)) else m
    case Remove(i) => if rs[i].Contains(a) then None else m
  }

  lemma ChangedToFacts(sp: Space, c: Change)
    requires sp.Ok() && (c.Remove? ==> c.i < |sp.rs|)
    ensures ChangedTo(sp, c).None? <==> ChangeMeetsNull(sp, c)
    ensures ChangedTo(sp, c).Some? ==> ChangedTo(sp, c).value.Ok() && ChangedTo(sp, c).value.rs == RangesAfter(sp.rs, c)
  {
    match c
    case Add(n, r) => AddedToFacts(sp, n, r);
    case Remove(i) => ErasedAtFacts(sp.tree, i);
  }

  /** Taking a range away unmaps its addresses and no others. */
  lemma DroppedTranslation(rs: seq<Range>, i: nat, a: U64)
    requires Disjoint(rs) && i < |rs|
    ensures Translate(Dropped(rs, i), a) == if rs[i].Contains(a) then None else Translate(rs, a)
  {
    hide Disjoint, Scan;
    var r, rest := rs[i], rs[i + 1..];
    TranslateOne(r, a);
    assert rs == rs[..i] + ([r] + rest);
    ScanAppend(rs[..i], [r] + rest, a);
    ScanAppend([r], rest, a);
    ScanAppend(rs[..i], rest, a);
    if r.Contains(a) {
      OnlyOne(rs, a, i);
      var s := Dropped(rs, i);
      var j := Scan(s, a);
      if j < |s| {
        OnlyOne(rs, a, if j < i then j else j + 1);
      }
    }
  }

  lemma DroppedOrder(rs: seq<Range>, i: nat)
    requires Disjoint(rs) && Proper(rs) && PageAligned(rs) && i < |rs|
    ensures Disjoint(Dropped(rs, i)) && Proper(Dropped(rs, i)) && PageAligned(Dropped(rs, i))
  {
    var s := Dropped(rs, i);
    assert forall j :: 0 <= j < |s| ==> s[j] == rs[if j < i then j else j + 1];
  }

  lemma ChangedOnce(rs: seq<Range>, c: Change, a: U64)
    requires Disjoint(rs) && Proper(rs) && PageAligned(rs) && Allowed(rs, c)
    ensures var s := RangesAfter(rs, c);
      Disjoint(s) && Proper(s) && PageAligned(s) && Translate(s, a) == MappedOnce(Translate(rs, a), rs, c, a)
  {
    match c
    case Add(_, r) =>
      assert PageAligned(rs + [r]);
      AddedTranslation(rs, r, a);
    case Remove(i) =>
      DroppedOrder(rs, i);
      DroppedTranslation(rs, i, a);
  }

  /** A run of allowed additions and removals gets to its end exactly if none of them meets a null
      sibling; and then every address is translated by the last range that brought it in, unless a range
      that held it has gone since, however ranges were joined on the way. */
  lemma {:induction false} RunOfChanges(sp: Space, changes: seq<Change>, a: U64)
    requires sp.Ok() && Disjoint(sp.rs) && Proper(sp.rs) && PageAligned(sp.rs) && AllAllowed(sp.rs, changes)
    ensures ChangedAll(sp, changes).Some? <==> NoChangeMeetsNull(sp, changes)
    ensures ChangedAll(sp, changes).Some? ==>
      var t := ChangedAll(sp, changes).value;
      && t.Ok() && Disjoint(t.rs) && Proper(t.rs) && PageAligned(t.rs)
      && Translate(t.rs, a) == MappedBy(Translate(sp.rs, a), sp.rs, changes, a)
    decreases |changes|
  {
    if changes != [] {
      ChangedToFacts(sp, changes[0]);
      ChangedOnce(sp.rs, changes[0], a);
      if ChangedTo(sp, changes[0]).Some? {
        RunOfChanges(ChangedTo(sp, changes[0]).value, changes[1..], a);
      }
    }
  }
}
