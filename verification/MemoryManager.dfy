/** Virtual memory areas kept in a search tree and an address-ordered list at once. */
module MemoryManager {
  import opened Wrappers
  import opened Tree
  import opened Repair
  import opened RBTree
  import opened LinkedList
  import opened AddressSpace
  import opened Space

  class VMA {
    const rb: RBNode
    const list: ListHead
    const vm_start: U64
    var vm_end: U64
    const vm_pfn: U64
    const vm_flags: nat

    constructor (start: U64, end: U64, pfn: U64, flags: nat)
      ensures Area() == Range(start, end, pfn, flags) && rb.key == vm_start && fresh(rb) && fresh(list)
    {
      rb := new RBNode(start);
      list := new ListHead();
      vm_start, vm_end, vm_pfn, vm_flags := start, end, pfn, flags;
    }

    function Area(): Range
      reads this
    {
      Range(vm_start, vm_end, vm_pfn, vm_flags)
    }
  }

  ghost function Areas(vs: seq<VMA>): (rs: seq<Range>)
    reads vs
    ensures |rs| == |vs| && forall i {:trigger rs[i]} :: 0 <= i < |vs| ==> rs[i] == vs[i].Area()
  {
    seq(|vs|, i requires 0 <= i < |vs| reads vs => vs[i].Area())
  }

  /** The list's own head and those of the areas. */
  ghost function Heads(head: ListHead, vs: seq<VMA>): (s: seq<ListHead>)
    ensures |s| == |vs| + 1 && s[0] == head && forall j {:trigger s[j]} :: 0 < j < |s| ==> s[j] == vs[j - 1].list
  {
    [head] + seq(|vs|, i requires 0 <= i < |vs| => vs[i].list)
  }

  ghost function AreaSet(vs: seq<VMA>): set<VMA> { set v | v in vs }

  ghost function HeadSet(hs: seq<ListHead>): set<ListHead> { set h | h in hs }

  /** The nodes `ns` are those of the areas, in the same order. */
  ghost predicate SameOrder(ns: seq<RBNode>, vs: seq<VMA>) {
    |ns| == |vs| && forall i {:trigger ns[i]} :: 0 <= i < |vs| ==> ns[i] == vs[i].rb && vs[i].rb.key == vs[i].vm_start
  }

  /** An area is found from either of its embedded nodes. */
  ghost predicate Contained(vs: seq<VMA>, ofNode: map<RBNode, VMA>, ofHead: map<ListHead, VMA>) {
    forall i {:trigger vs[i].rb in ofNode} {:trigger vs[i].list in ofHead} :: 0 <= i < |vs| ==>
      vs[i].rb in ofNode && ofNode[vs[i].rb] == vs[i] && vs[i].list in ofHead && ofHead[vs[i].list] == vs[i]
  }

  /** At most twice the logarithm of `n + 1`. */
  ghost predicate AtMostTwiceLog(visits: nat, n: nat) {
    exists h: nat :: visits <= 2 * h && Pow2(h) <= n + 1
  }

  /** What becomes of an addition: it is refused, or taken, or follows a null sibling. */
  datatype Outcome = Refused | Taken | Lost

  class MemoryManager {
    const root: RBRoot
    const head: ListHead
    var total_vmas: nat
    /** Where the embedded nodes lie: what pointer arithmetic finds in the original. */
    var ofNode: map<RBNode, VMA>
    var ofHead: map<ListHead, VMA>
    ghost var tree: Tree
    ghost var vmas: seq<VMA>

    constructor ()
      ensures Valid() && vmas == [] && RedBlack(tree) && fresh(root) && fresh(head)
    {
      root := new RBRoot();
      head := new ListHead();
      total_vmas := 0;
      ofNode, ofHead := map[], map[];
      tree, vmas := Leaf, [];
      new;
      assert Balanced(tree, 0);
      assert Heads(head, vmas) == [head];
    }

    /** Tree, list and count agree, and the areas lie in order of their starts. */
    ghost predicate Valid()
      reads this, root, Nodes(tree), Heads(head, vmas), vmas
    {
      && InTree(tree, vmas) && Ring(Heads(head, vmas))
      && Contained(vmas, ofNode, ofHead)
      && total_vmas == |vmas| && Ordered(Areas(vmas))
    }

    ghost predicate InTree(t: Tree, vs: seq<VMA>)
      reads root, Nodes(t)
    {
      root.Holds(t) && SameOrder(Inorder(t), vs)
    }

    // ----- lookup -----

    /** Descends to an area with address `addr`. For disjoint areas that finds what walking along
        the list finds, in no more steps than the tree is high. */
    method FindVma(addr: U64) returns (r: VMA?, ghost visits: nat)
      requires Valid()
      ensures r != null ==> r in vmas && r.Area().Contains(addr)
      ensures Disjoint(Areas(vmas)) ==>
        var k := Scan(Areas(vmas), addr);
        if k < |vmas| then r == vmas[k] else r == null
      ensures visits <= Height(tree)
      ensures RedBlack(tree) ==> AtMostTwiceLog(visits, |vmas|)
    {
      ghost var found;
      OrderedMeans(Areas(vmas));
      r, visits, found := Descend(addr, tree, vmas, Areas(vmas));
      if RedBlack(tree) {
        ghost var h := LogarithmicHeight(tree);
      }
      if r != null && Disjoint(Areas(vmas)) {
        OnlyOne(Areas(vmas), addr, found);
      }
    }

    method Descend(addr: U64, ghost t: Tree, ghost vs: seq<VMA>, ghost rs: seq<Range>) returns (r: VMA?, ghost visits: nat, ghost found: nat)
      requires IsTree(t, root.rb_node, null) && SameOrder(Inorder(t), vs) && Contained(vs, ofNode, ofHead)
      requires |rs| == |vs| && (forall i :: 0 <= i < |vs| ==> rs[i] == vs[i].Area()) && ByStart(rs) && Proper(rs)
      ensures r == null && Disjoint(rs) ==> Scan(rs, addr) == |rs|
      ensures r != null ==> found < |rs| && r == vs[found] && rs[found].Contains(addr)
      ensures visits <= Height(t)
    {
      hide Contained, ByStart;
      var node := root.rb_node;
      ghost var s, p, lo, hi := t, null, 0, |rs|;
      visits, found := 0, 0;
      while node != null
        invariant IsTree(s, node, p) && Window(t, s, lo, hi) && (Disjoint(rs) ==> RuledOut(rs, lo, hi, addr))
        invariant visits + Height(s) <= Height(t)
        decreases s
      {
        visits, found := visits + 1, lo + |Inorder(s.left)|;
        SplitWindow(t, s, lo, hi);
        RuleOut(rs, lo, hi, found, addr);
        var vma := AreaOf(node, vs, found);
        assert rs[found] == vma.Area();
        if addr < vma.vm_start {
          p, node := node, node.left;
          s, hi := s.left, found;
        } else if addr >= vma.vm_end {
          p, node := node, node.right;
          s, lo := s.right, found + 1;
        } else {
          return vma, visits, found;
        }
      }
      r := null;
      if Disjoint(rs) {
        NotFound(rs, lo, addr);
      }
    }

    /** The first area that starts at `addr` or later. */
    method FindVmaAfter(addr: U64) returns (r: VMA?)
      requires Valid()
      ensures var k := Later(Areas(vmas), addr); if k < |vmas| then r == vmas[k] else r == null
    {
      ghost var k;
      OrderedMeans(Areas(vmas));
      r, k := DescendAfter(addr, tree, vmas, Areas(vmas));
      LaterIs(Areas(vmas), addr, k);
    }

    method DescendAfter(addr: U64, ghost t: Tree, ghost vs: seq<VMA>, ghost rs: seq<Range>) returns (r: VMA?, ghost k: nat)
      requires IsTree(t, root.rb_node, null) && SameOrder(Inorder(t), vs) && Contained(vs, ofNode, ofHead)
      requires Starts(rs, vs) && ByStart(rs)
      ensures k <= |rs| && Divides(rs, addr, k, k) && if k < |vs| then r == vs[k] else r == null
    {
      hide ByStart, AreaOf, Contained;
      var node := root.rb_node;
      ghost var s, p, lo := t, null, 0;
      r, k := null, |rs|;
      while node != null
        invariant IsTree(s, node, p) && Window(t, s, lo, k) && Divides(rs, addr, lo, k)
        invariant if k < |vs| then r == vs[k] else r == null
        decreases s
      {
        ghost var mid := lo + |Inorder(s.left)|;
        SplitWindow(t, s, lo, k);
        DividesMore(rs, addr, lo, k, mid);
        var vma := AreaOf(node, vs, mid);
        if vma.vm_start >= addr {
          r := vma;
          p, node := node, node.left;
          s, k := s.left, mid;
        } else {
          p, node := node, node.right;
          s, lo := s.right, mid + 1;
        }
      }
    }

    /** Walks along the list: it passes every area, in address order. */
    method ForEachVma() returns (passed: seq<VMA>)
      requires Valid()
      ensures passed == vmas
    {
      ghost var hs, i := Heads(head, vmas), 0;
      passed := [];
      var pos := head.next;
      assert pos == hs[Succ(hs, 0)];
      while pos != head
        invariant 0 <= i <= |vmas| && pos == hs[Succ(hs, i)] && passed == vmas[..i]
        decreases |vmas| - i
      {
        assert i < |vmas| && pos == hs[i + 1] == vmas[i].list && vmas[i].list in ofHead;
        var vma := ofHead[pos];
        passed := passed + [vma];
        i := i + 1;
        pos := pos.next;
      }
      BackAtHead(hs, i);
    }

    method IsEmpty() returns (empty: bool)
      requires Valid()
      ensures empty <==> vmas == []
    {
      ghost var hs := Heads(head, vmas);
      assert head.next == hs[Succ(hs, 0)];
      empty := head.next == head;
    }

    /** Translates an address; 0 where nothing is mapped. */
    method VirtToPhys(vaddr: U64) returns (phys: U64)
      requires Valid()
      ensures Disjoint(Areas(vmas)) ==>
        var t := Translate(Areas(vmas), vaddr);
        phys == if t.Some? then t.value.phys else 0
      ensures phys == 0 || exists v :: v in vmas && v.Area().Contains(vaddr) && phys == v.Area().VirtToPhys(vaddr)
    {
      var vma, _ := FindVma(vaddr);
      if vma == null {
        return 0;
      }
      phys := vma.Area().VirtToPhys(vaddr);
    }

    // ----- adding -----

    /** Links the area into the tree, behind those that start no later. */
    method InsertVmaRb(vma: VMA, ghost hs: seq<ListHead>, ghost rs: seq<Range>) returns (ghost k: nat)
      requires InTree(tree, vmas) && Ring(hs) && vma.rb !in Nodes(tree) && vma.rb.key == vma.vm_start
      requires Starts(rs, vmas) && Ordered(rs)
      modifies this`tree, root, Nodes(tree), vma.rb
      ensures k == Place(rs, vma.vm_start) && InTree(tree, vmas[..k] + [vma] + vmas[k..]) && Ring(hs)
      ensures Nodes(tree) == old(Nodes(tree)) + {vma.rb}
      ensures old(!IsRed(tree)) && tree == InsertedTree(old(tree), vma.rb)
    {
      ListAllocated(hs);
      ghost var t := tree;
      tree, k := root.InsertWithCompare(vma.rb, t);
      OrderedMeans(rs);
      StartsSorted(Inorder(t), rs, vmas);
      PlaceIs(Inorder(t), rs, vmas, k, vma);
      NodesOfInserted(t, tree, k, vma.rb);
    }

    /** Links the area into the list, before the first one that starts later. */
    method InsertVmaListOrdered(vma: VMA, ghost hs: seq<ListHead>, ghost rs: seq<Range>, ghost t: Tree, ghost ws: seq<VMA>)
      requires Ring(hs) && hs == Heads(head, vmas) && Contained(vmas, ofNode, ofHead) && vma.list !in hs
      requires Starts(rs, vmas) && InTree(t, ws)
      modifies hs, vma.list
      ensures Ring(Spliced(hs, Place(rs, vma.vm_start), vma.list)) && InTree(t, ws)
    {
      hide Heads;
      NodesAllocated(t);
      ListAllocated(hs);
      var pos, k := FirstLater(vma.vm_start, hs, rs);
      assert Ring(hs);
      if pos != head {
        assert pos == hs[k + 1] && pos.prev == hs[Pred(hs, k + 1)];
        LinkedList.Add(vma.list, pos.prev, hs, k);
      } else {
        AddTail(vma.list, head, hs);
      }
    }

    /** Walks along the list to the first area that starts later than `start`. */
    method FirstLater(start: U64, ghost hs: seq<ListHead>, ghost rs: seq<Range>) returns (pos: ListHead, ghost k: nat)
      requires Ring(hs) && hs == Heads(head, vmas) && Contained(vmas, ofNode, ofHead) && Starts(rs, vmas)
      ensures k == Place(rs, start) && k < |hs| && pos == hs[Succ(hs, k)] && (pos == head <==> k + 1 == |hs|)
    {
      k := 0;
      assert head.next == hs[Succ(hs, 0)];
      pos := head.next;
      while pos != head
        invariant k <= Place(rs, start) && pos == hs[Succ(hs, k)]
        decreases |hs| - k
      {
        assert k < |vmas| && pos == hs[k + 1] == vmas[k].list && vmas[k].list in ofHead;
        var existing := ofHead[pos];
        assert existing == vmas[k] && rs[k].start == existing.vm_start;
        if existing.vm_start > start {
          return pos, k;
        }
        assert pos.next == hs[Succ(hs, k + 1)];
        pos := pos.next;
        k := k + 1;
      }
      BackAtHead(hs, k);
    }

    /** The tree and the ranges. */
    ghost function Both(): (sp: Space)
      requires Valid()
      reads this, root, Nodes(tree), Heads(head, vmas), vmas
      ensures sp.Ok() && sp.tree == tree && sp.rs == Areas(vmas)
    {
      Space(tree, Areas(vmas))
    }

    /** Adds an area. Only its start is checked against the areas that are there. Unless the join
        follows a null sibling, tree, list and count agree again, and are what `AddedTo` says. */
    method AddVma(vma: VMA?) returns (o: Outcome)
      requires Valid()
      requires vma != null ==> vma !in vmas && vma.rb !in Nodes(tree) && vma.list !in Heads(head, vmas) && vma.rb.key == vma.vm_start
      modifies this, root, Nodes(tree), HeadSet(Heads(head, vmas)), AreaSet(vmas), vma, if vma == null then {} else {vma.rb}, if vma == null then {} else {vma.list}
      ensures o.Refused? ==> Valid() && Both() == old(Both()) && vmas == old(vmas)
      ensures vma != null && Disjoint(old(Areas(vmas))) ==> (!o.Refused? <==> Accepts(old(Areas(vmas)), old(vma.Area())))
      ensures !o.Refused? ==> vma != null && vma.vm_start < old(vma.vm_end)
      ensures !o.Refused? ==> (o.Lost? <==> AdditionMeetsNull(old(Both()), vma.rb, old(vma.Area())))
      ensures o.Taken? ==> Valid() && AddedTo(old(Both()), vma.rb, old(vma.Area())) == Some(Both())
      ensures o.Taken? ==> Areas(vmas) == Added(old(Areas(vmas)), old(vma.Area()))
      ensures o.Taken? && Disjoint(old(Areas(vmas))) && Fits(old(Areas(vmas)), old(vma.Area())) && PageAligned(old(Areas(vmas)) + [old(vma.Area())]) ==>
        MapsAlso(old(Areas(vmas)), Areas(vmas), vma.vm_start, old(vma.vm_end), vma.vm_pfn, vma.vm_flags)
      ensures !o.Refused? && old(RedBlack(tree)) ==> o.Taken? && (RedBlack(tree) <==> AddsCleanly(old(Both()), vma.rb, old(vma.Area())))
    {
      hide Nodes;
      if vma == null || vma.vm_start >= vma.vm_end {
        return Refused;
      }
      NodesAllocated(tree);
      HeadsAllocated(head, vmas);
      var overlaps := StartTaken(vma);
      if overlaps {
        return Refused;
      }
      ghost var rs, r := Areas(vmas), vma.Area();
      OrderedMeans(rs);
      if Disjoint(rs) && Fits(rs, r) && PageAligned(rs + [r]) {
        AddedEverywhere(rs, r);
      }
      var alive := Adopt(vma);
      o := if alive then Taken else Lost;
    }

    /** Whether the start lies in an area that is there. */
    method StartTaken(vma: VMA) returns (taken: bool)
      requires Valid()
      ensures Disjoint(Areas(vmas)) ==> (taken <==> Scan(Areas(vmas), vma.vm_start) < |vmas|)
    {
      var existing, _ := FindVma(vma.vm_start);
      taken := existing != null && existing.Area().Contains(vma.vm_start);
    }

    method Adopt(vma: VMA) returns (alive: bool)
      requires Valid() && vma.vm_start < vma.vm_end
      requires vma.rb !in Nodes(tree) && vma.list !in Heads(head, vmas) && vma.rb.key == vma.vm_start
      modifies this, root, Nodes(tree), HeadSet(Heads(head, vmas)), AreaSet(vmas), vma, vma.rb, vma.list
      ensures !alive <==> AdditionMeetsNull(old(Both()), vma.rb, old(vma.Area()))
      ensures alive ==> Valid() && AddedTo(old(Both()), vma.rb, old(vma.Area())) == Some(Both())
      ensures alive ==> Areas(vmas) == Added(old(Areas(vmas)), old(vma.Area()))
      ensures old(RedBlack(tree)) ==> alive && (RedBlack(tree) <==> AddsCleanly(old(Both()), vma.rb, old(vma.Area())))
    {
      hide Valid;
      ghost var sp, rs, r := Both(), Areas(vmas), vma.Area();
      ghost var k := Place(rs, r.start);
      ghost var ss := Inserted(rs, k, r);
      AddedToFacts(sp, vma.rb, r);
      if RedBlack(tree) {
        AddedToRedBlack(sp, vma.rb, r);
      }
      SetWith(vmas, vma, k);
      SetSpliced(Heads(head, vmas), vma.list, k);
      Insert(vma, rs, k, ss);
      alive := TryMergeAdjacent(vma, k, ss);
    }

    method Insert(vma: VMA, ghost rs: seq<Range>, ghost k: nat, ghost ss: seq<Range>)
      requires Valid() && vma.vm_start < vma.vm_end && rs == Areas(vmas)
      requires vma.rb !in Nodes(tree) && vma.list !in Heads(head, vmas) && vma.rb.key == vma.vm_start
      requires k == Place(rs, vma.vm_start) && ss == Inserted(rs, k, vma.Area())
      modifies this, root, Nodes(tree), HeadSet(Heads(head, vmas)), vma.rb, vma.list
      ensures Valid() && tree == InsertedTree(old(Both()).tree, vma.rb) && Nodes(tree) == old(Nodes(tree)) + {vma.rb}
      ensures Areas(vmas) == ss && vmas == old(vmas[..k] + [vma] + vmas[k..])
      ensures Heads(head, vmas) == Spliced(old(Heads(head, vmas)), k, vma.list)
    {
      hide Areas, Nodes, Heads;
      ghost var ws := vmas[..k] + [vma] + vmas[k..];
      WillBe(vma, ws, k);
      LinkIn(vma, ws, k);
      assert Areas(ws) == ss;
      Record(ws, ofNode[vma.rb := vma], ofHead[vma.list := vma], total_vmas + 1);
    }

    /** Once tree and list have been linked, the count follows. */
    method Record(ghost ws: seq<VMA>, nodes: map<RBNode, VMA>, heads: map<ListHead, VMA>, count: nat)
      requires InTree(tree, ws) && Ring(Heads(head, ws)) && Contained(ws, nodes, heads)
      requires count == |ws| && Ordered(Areas(ws))
      modifies this`vmas, this`total_vmas, this`ofNode, this`ofHead
      ensures Valid() && vmas == ws && Areas(ws) == old(Areas(ws))
    {
      NodesAllocated(tree);
      HeadsAllocated(head, ws);
      ofNode, ofHead, vmas, total_vmas := nodes, heads, ws, count;
    }

    method LinkIn(vma: VMA, ghost ws: seq<VMA>, ghost k: nat)
      requires InTree(tree, vmas) && Contained(vmas, ofNode, ofHead) && Ring(Heads(head, vmas)) && Ordered(Areas(vmas))
      requires vma.rb !in Nodes(tree) && vma.list !in Heads(head, vmas) && vma.rb.key == vma.vm_start
      requires k == Place(Areas(vmas), vma.vm_start) && ws == vmas[..k] + [vma] + vmas[k..]
      requires Heads(head, ws) == Spliced(Heads(head, vmas), k, vma.list)
      modifies this`tree, root, Nodes(tree), HeadSet(Heads(head, vmas)), vma.rb, vma.list
      ensures InTree(tree, ws) && Ring(Heads(head, ws)) && Nodes(tree) == old(Nodes(tree)) + {vma.rb}
      ensures Areas(ws) == old(Areas(ws)) && old(!IsRed(tree)) && tree == InsertedTree(old(tree), vma.rb)
    {
      hide InTree, Contained;
      ghost var rs, hs := Areas(vmas), Heads(head, vmas);
      ghost var p := InsertVmaRb(vma, hs, rs);
      InsertVmaListOrdered(vma, hs, rs, tree, ws);
    }

    /** What tree, list and maps have to agree on once the area is in. */
    lemma WillBe(vma: VMA, ws: seq<VMA>, k: nat)
      requires Valid() && vma.vm_start < vma.vm_end && vma.rb !in Nodes(tree) && vma.list !in Heads(head, vmas)
      requires k == Place(Areas(vmas), vma.vm_start) && ws == vmas[..k] + [vma] + vmas[k..]
      ensures Heads(head, ws) == Spliced(Heads(head, vmas), k, vma.list)
      ensures Contained(ws, ofNode[vma.rb := vma], ofHead[vma.list := vma])
      ensures Areas(ws) == Inserted(Areas(vmas), k, vma.Area()) && Ordered(Areas(ws))
    {
      NodesOutside(vma);
      With(head, vmas, vma, ofNode, ofHead, k);
      OrderedMeans(Areas(vmas));
      InsertedOrder(Areas(vmas), vma.Area());
      OrderedMeans(Areas(ws));
    }

    lemma NodesOutside(vma: VMA)
      requires Valid() && vma.rb !in Nodes(tree)
      ensures forall i :: 0 <= i < |vmas| ==> vmas[i].rb != vma.rb
    {
      InorderNodes(tree, vma.rb);
      forall i | 0 <= i < |vmas| ensures vmas[i].rb != vma.rb {
        assert Inorder(tree)[i] == vmas[i].rb;
      }
    }

    /** Joins the area with the one before it or, failing that, with the one after it. */
    method TryMergeAdjacent(vma: VMA, ghost k: nat, ghost rs: seq<Range>) returns (alive: bool)
      requires Valid() && rs == Areas(vmas) && k < |vmas| && vma == vmas[k]
      modifies this, root, Nodes(tree), HeadSet(Heads(head, vmas)), AreaSet(vmas)
      ensures var i, t := Swallowed(rs, k), old(Both()).tree;
        if i.None? then alive && Valid() && Both() == Space(t, rs)
        else if ErasedAt(t, i.value).None? then !alive
        else alive && Valid() && Both() == Space(ErasedAt(t, i.value).value, Joined(rs, i.value - 1))
    {
      hide ErasedAt, InTree, Ordered;
      ghost var hs := Heads(head, vmas);
      var prev_node, next_node := vma.list.prev, vma.list.next;
      assert vma.list == hs[k + 1] && prev_node == hs[Pred(hs, k + 1)] && next_node == hs[Succ(hs, k + 1)];
      alive := true;
      if prev_node != head {
        assert prev_node == vmas[k - 1].list && vmas[k - 1].list in ofHead;
        var prev := ofHead[prev_node];
        assert prev == vmas[k - 1];
        if prev.Area().CanMergeWith(vma.Area()) {
          alive := Join(prev, vma, k - 1);
          return;
        }
      }
      if next_node != head {
        assert next_node == vmas[k + 1].list && vmas[k + 1].list in ofHead;
        var next := ofHead[next_node];
        assert next == vmas[k + 1];
        if vma.Area().CanMergeWith(next.Area()) {
          alive := Join(vma, next, k);
        }
      }
    }

    /** Stretches `left` over `right`, which leaves tree and list. */
    method Join(left: VMA, right: VMA, ghost k: nat) returns (alive: bool)
      requires Valid() && k + 1 < |vmas| && left == vmas[k] && right == vmas[k + 1] && left.vm_end == right.vm_start
      modifies this, root, Nodes(tree), HeadSet(Heads(head, vmas)), left
      ensures alive <==> ErasedAt(old(Both()).tree, k + 1).Some?
      ensures alive ==> Valid() && Both() == Space(ErasedAt(old(Both()).tree, k + 1).value, Joined(old(Areas(vmas)), k))
    {
      ghost var vs, rs := vmas, Areas(vmas);
      Stretch(left, right, k);
      alive := RemoveVma(right, k + 1);
      if alive {
        JoinedAreas(vs, rs, k);
      }
    }

    method Stretch(left: VMA, right: VMA, ghost k: nat)
      requires Valid() && k + 1 < |vmas| && left == vmas[k] && right == vmas[k + 1] && left.vm_end == right.vm_start
      modifies left
      ensures Valid() && Areas(vmas) == old(Areas(vmas))[k := old(Areas(vmas))[k].(end := old(Areas(vmas))[k + 1].end)]
    {
      ghost var rs := Areas(vmas);
      VmasDiffer(k);
      NodesAllocated(tree);
      HeadsAllocated(head, vmas);
      left.vm_end := right.vm_end;
      StretchedOrder(rs, k);
      assert Areas(vmas) == rs[k := rs[k].(end := rs[k + 1].end)];
    }

    lemma VmasDiffer(k: nat)
      requires Valid() && k < |vmas|
      ensures forall i :: 0 <= i < |vmas| && i != k ==> vmas[i] != vmas[k]
    {
      var hs := Heads(head, vmas);
      NoRepeatsMeans(hs);
      forall i | 0 <= i < |vmas| && i != k ensures vmas[i] != vmas[k] {
        assert hs[i + 1] == vmas[i].list && hs[k + 1] == vmas[k].list;
      }
    }

    // ----- removing -----

    /** Takes the area out of tree and list, unless the removal from the tree follows a null sibling. */
    method RemoveVma(vma: VMA, ghost i: nat) returns (alive: bool)
      requires Valid() && i < |vmas| && vma == vmas[i]
      modifies this, root, Nodes(tree), HeadSet(Heads(head, vmas))
      ensures alive <==> !MeetsNull(old(Both()).tree, i)
      ensures alive <==> ErasedAt(old(Both()).tree, i).Some?
      ensures alive ==> Valid() && vmas == old(vmas[..i] + vmas[i + 1..]) && tree == ErasedAt(old(Both()).tree, i).value
      ensures old(RedBlack(tree)) ==> alive && (RedBlack(tree) <==> CleanAt(old(Both()).tree, i))
      ensures alive ==> Areas(vmas) == old(Areas(vmas[..i] + vmas[i + 1..]))
    {
      hide Nodes, Ordered, Ring;
      ghost var ws := vmas[..i] + vmas[i + 1..];
      ErasedAtFacts(tree, i);
      if RedBlack(tree) {
        ErasedAtRedBlack(tree, i);
      }
      Without(head, vmas, ofNode, ofHead, i);
      alive := Unlink(vma, ws, i);
      if alive {
        Record(ws, ofNode, ofHead, total_vmas - 1);
      }
    }

    method Unlink(vma: VMA, ghost ws: seq<VMA>, ghost i: nat) returns (alive: bool)
      requires InTree(tree, vmas) && i < |vmas| && vma == vmas[i]
      requires Contained(vmas, ofNode, ofHead) && Ring(Heads(head, vmas))
      requires ws == vmas[..i] + vmas[i + 1..] && Heads(head, ws) == Cut(Heads(head, vmas), i + 1)
      modifies this`tree, root, Nodes(tree), HeadSet(Heads(head, vmas))
      ensures |Inorder(old(tree))| == |vmas| && (alive <==> ErasedAt(old(tree), i).Some?)
      ensures alive ==> InTree(tree, ws) && Ring(Heads(head, ws)) && Areas(ws) == old(Areas(ws)) && tree == ErasedAt(old(tree), i).value
    {
      ghost var hs := Heads(head, vmas);
      alive := RemoveFromTree(vma, hs, i);
      if alive {
        RemoveFromList(vma, hs, ws, i);
      }
    }

    method RemoveFromList(vma: VMA, ghost hs: seq<ListHead>, ghost ws: seq<VMA>, ghost i: nat)
      requires InTree(tree, ws) && Ring(hs) && i + 1 < |hs| && vma.list == hs[i + 1]
      modifies hs
      ensures InTree(tree, ws) && Ring(Cut(hs, i + 1))
    {
      NodesAllocated(tree);
      Delete(vma.list, hs, i + 1);
    }

    method RemoveFromTree(vma: VMA, ghost hs: seq<ListHead>, ghost i: nat) returns (alive: bool)
      requires InTree(tree, vmas) && i < |vmas| && vma == vmas[i]
      requires Contained(vmas, ofNode, ofHead) && Ring(hs) && hs == Heads(head, vmas)
      modifies this`tree, root, Nodes(tree)
      ensures |Inorder(old(tree))| == |vmas| && (alive <==> ErasedAt(old(tree), i).Some?)
      ensures alive ==> InTree(tree, vmas[..i] + vmas[i + 1..]) && Ring(hs) && tree == ErasedAt(old(tree), i).value
    {
      HeadsAllocated(head, vmas);
      ghost var t := tree;
      ghost var s := SpotOf(Top, t, i);
      SpotIs(Top, t, i);
      ErasedAtFacts(t, i);
      assert Inorder(t)[i] == vma.rb;
      alive, tree := root.Erase(vma.rb, s.c, s.t.left, s.t.color, s.t.right);
      if alive {
        SameOrderWithout(Inorder(t), vmas, i);
      }
    }

    /** The area that a tree node lies in. */
    function AreaOf(node: RBNode, ghost vs: seq<VMA>, ghost i: nat): (vma: VMA)
      requires i < |vs| && node == vs[i].rb && Contained(vs, ofNode, ofHead)
      reads this
      ensures vma == vs[i]
    {
      assert vs[i].rb in ofNode;
      ofNode[node]
    }
  }

  lemma {:induction false} HeadsWithout(head: ListHead, vs: seq<VMA>, i: nat)
    requires i < |vs|
    ensures Heads(head, vs[..i] + vs[i + 1..]) == Cut(Heads(head, vs), i + 1)
  {
    var ws := vs[..i] + vs[i + 1..];
    forall k | 0 <= k < |vs| ensures Heads(head, ws)[k] == Cut(Heads(head, vs), i + 1)[k] {
      if k > 0 {
        assert Heads(head, ws)[k - 1 + 1] == ws[k - 1].list;
      }
    }
  }

  lemma AreasWithout(vs: seq<VMA>, i: nat)
    requires i < |vs| && Ordered(Areas(vs))
    ensures Ordered(Areas(vs[..i] + vs[i + 1..]))
  {
    var ws, rs := vs[..i] + vs[i + 1..], Areas(vs);
    forall k | 0 <= k < |ws| ensures Areas(ws)[k] == (rs[..i] + rs[i + 1..])[k] {
    }
    assert Areas(ws) == rs[..i] + rs[i + 1..];
    OrderedMeans(rs);
    StillInOrder(rs, i);
    OrderedMeans(Areas(ws));
  }

  lemma ContainedWithout(vs: seq<VMA>, ofNode: map<RBNode, VMA>, ofHead: map<ListHead, VMA>, i: nat)
    requires i < |vs| && Contained(vs, ofNode, ofHead)
    ensures Contained(vs[..i] + vs[i + 1..], ofNode, ofHead)
  {
    var ws := vs[..i] + vs[i + 1..];
    forall k | 0 <= k < |ws| ensures ws[k] == vs[if k < i then k else k + 1] {
    }
  }

  lemma Without(head: ListHead, vs: seq<VMA>, ofNode: map<RBNode, VMA>, ofHead: map<ListHead, VMA>, i: nat)
    requires i < |vs| && Contained(vs, ofNode, ofHead) && Ordered(Areas(vs))
    ensures var ws := vs[..i] + vs[i + 1..];
      && Heads(head, ws) == Cut(Heads(head, vs), i + 1) && Contained(ws, ofNode, ofHead)
      && Ordered(Areas(ws))
  {
    HeadsWithout(head, vs, i);
    AreasWithout(vs, i);
    ContainedWithout(vs, ofNode, ofHead, i);
  }

  lemma JoinedAreas(vs: seq<VMA>, rs: seq<Range>, k: nat)
    requires k + 1 < |vs| == |rs| && Areas(vs) == rs[k := rs[k].(end := rs[k + 1].end)]
    ensures Areas(vs[..k + 1] + vs[k + 2..]) == Joined(rs, k)
  {
    var ws, ss := vs[..k + 1] + vs[k + 2..], Areas(vs);
    forall i | 0 <= i < |ws| ensures Areas(ws)[i] == Joined(rs, k)[i] {
      assert ws[i] == vs[if i <= k then i else i + 1];
      assert Areas(ws)[i] == ss[if i <= k then i else i + 1];
    }
  }

  lemma With(head: ListHead, vs: seq<VMA>, vma: VMA, ofNode: map<RBNode, VMA>, ofHead: map<ListHead, VMA>, k: nat)
    requires k <= |vs| && Contained(vs, ofNode, ofHead) && vma.list !in Heads(head, vs)
    requires forall i :: 0 <= i < |vs| ==> vs[i].rb != vma.rb
    ensures var ws := vs[..k] + [vma] + vs[k..];
      && Heads(head, ws) == Spliced(Heads(head, vs), k, vma.list)
      && Contained(ws, ofNode[vma.rb := vma], ofHead[vma.list := vma])
      && Areas(ws) == Inserted(Areas(vs), k, vma.Area())
  {
    var ws := vs[..k] + [vma] + vs[k..];
    forall i | 0 <= i < |ws| ensures ws[i] == if i < k then vs[i] else if i == k then vma else vs[i - 1] {
    }
    HeadsWith(head, vs, vma, k);
    ContainedWith(head, vs, vma, ofNode, ofHead, k);
    forall i | 0 <= i < |ws| ensures Areas(ws)[i] == Inserted(Areas(vs), k, vma.Area())[i] {
      InsertedAt(Areas(vs), k, vma.Area(), i);
    }
  }

  lemma HeadsWith(head: ListHead, vs: seq<VMA>, vma: VMA, k: nat)
    requires k <= |vs|
    ensures Heads(head, vs[..k] + [vma] + vs[k..]) == Spliced(Heads(head, vs), k, vma.list)
  {
    var ws := vs[..k] + [vma] + vs[k..];
    forall i | 0 <= i <= |ws| ensures Heads(head, ws)[i] == Spliced(Heads(head, vs), k, vma.list)[i] {
      if i > 0 {
        assert Heads(head, ws)[i - 1 + 1] == ws[i - 1].list;
      }
    }
  }

  lemma ContainedWith(head: ListHead, vs: seq<VMA>, vma: VMA, ofNode: map<RBNode, VMA>, ofHead: map<ListHead, VMA>, k: nat)
    requires k <= |vs| && Contained(vs, ofNode, ofHead) && vma.list !in Heads(head, vs)
    requires forall i :: 0 <= i < |vs| ==> vs[i].rb != vma.rb
    ensures Contained(vs[..k] + [vma] + vs[k..], ofNode[vma.rb := vma], ofHead[vma.list := vma])
  {
    var ws := vs[..k] + [vma] + vs[k..];
    forall i | 0 <= i < |ws| && i != k ensures ws[i].rb != vma.rb && ws[i].list != vma.list && ws[i] in vs {
      var j := if i < k then i else i - 1;
      assert ws[i] == vs[j] && Heads(head, vs)[j + 1] == vs[j].list;
    }
  }

  lemma SetWith(vs: seq<VMA>, vma: VMA, k: nat)
    requires k <= |vs|
    ensures AreaSet(vs[..k] + [vma] + vs[k..]) == AreaSet(vs) + {vma}
  {
    assert vs == vs[..k] + vs[k..];
  }

  lemma SetSpliced(hs: seq<ListHead>, h: ListHead, k: nat)
    requires k < |hs|
    ensures HeadSet(Spliced(hs, k, h)) == HeadSet(hs) + {h}
  {
    assert hs == hs[..k + 1] + hs[k + 1..];
    assert Spliced(hs, k, h) == hs[..k + 1] + [h] + hs[k + 1..];
  }

  lemma BackAtHead(hs: seq<ListHead>, i: nat)
    requires NoRepeats(hs) && i < |hs| && hs[Succ(hs, i)] == hs[0]
    ensures i + 1 == |hs|
  {
    NoRepeatsMeans(hs);
  }

  lemma ListAllocated(hs: seq<ListHead>)
    ensures forall o :: o in hs ==> allocated(o)
  {
  }

  lemma StartsSorted(ns: seq<RBNode>, rs: seq<Range>, vs: seq<VMA>)
    requires SameOrder(ns, vs) && Starts(rs, vs) && ByStart(rs)
    ensures Sorted(ns)
  {
    forall i, j | 0 <= i < j < |ns| ensures ns[i].key <= ns[j].key {
      assert rs[i].start <= rs[j].start;
      assert ns[i].key == vs[i].vm_start && ns[j].key == vs[j].vm_start;
    }
  }

  /** The place that the tree gives to a new area is the one that the list gives it. */
  lemma PlaceIs(ns: seq<RBNode>, rs: seq<Range>, vs: seq<VMA>, k: nat, vma: VMA)
    requires SameOrder(ns, vs) && Starts(rs, vs) && k <= |ns| && vma.rb.key == vma.vm_start
    requires AllAtMost(ns[..k], vma.vm_start) && AllAbove(ns[k..], vma.vm_start)
    ensures k == Place(rs, vma.vm_start)
    ensures SameOrder(ns[..k] + [vma.rb] + ns[k..], vs[..k] + [vma] + vs[k..])
  {
    forall i | 0 <= i < |rs| ensures if i < k then rs[i].start <= vma.vm_start else rs[i].start > vma.vm_start {
      assert ns[i] == if i < k then ns[..k][i] else ns[k..][i - k];
    }
    PlaceUnique(rs, k, vma.vm_start);
    var ms, ws := ns[..k] + [vma.rb] + ns[k..], vs[..k] + [vma] + vs[k..];
    forall i | 0 <= i < |ws| ensures ms[i] == ws[i].rb && ws[i].rb.key == ws[i].vm_start {
      var j := if i < k then i else i - 1;
      assert i != k ==> ms[i] == ns[j] && ws[i] == vs[j];
    }
  }

  lemma NodesOfInserted(t: Tree, t': Tree, k: nat, n: RBNode)
    requires k <= |Inorder(t)| && Inorder(t') == Inorder(t)[..k] + [n] + Inorder(t)[k..]
    ensures Nodes(t') == Nodes(t) + {n}
  {
    NodesAllocated(t);
    NodesAllocated(t');
    hide Nodes, Inorder;
    forall m: RBNode ensures m in Nodes(t') <==> m in Nodes(t) || m == n {
      InorderNodes(t, m);
      InorderNodes(t', m);
      InInserted(Inorder(t), k, n, m);
    }
  }

  lemma InInserted(ns: seq<RBNode>, k: nat, n: RBNode, m: RBNode)
    requires k <= |ns|
    ensures m in ns[..k] + [n] + ns[k..] <==> m in ns || m == n
  {
    assert ns == ns[..k] + ns[k..];
  }

  lemma StretchedOrder(rs: seq<Range>, k: nat)
    requires k + 1 < |rs| && Ordered(rs) && rs[k].end == rs[k + 1].start
    ensures Ordered(rs[k := rs[k].(end := rs[k + 1].end)])
  {
    var ss := rs[k := rs[k].(end := rs[k + 1].end)];
    OrderedMeans(rs);
    OrderedMeans(ss);
  }

  lemma StillInOrder(rs: seq<Range>, i: nat)
    requires i < |rs| && ByStart(rs) && Proper(rs)
    ensures ByStart(rs[..i] + rs[i + 1..]) && Proper(rs[..i] + rs[i + 1..])
  {
  }

  lemma SameOrderWithout(ns: seq<RBNode>, vs: seq<VMA>, i: nat)
    requires SameOrder(ns, vs) && i < |vs|
    ensures SameOrder(ns[..i] + ns[i + 1..], vs[..i] + vs[i + 1..])
  {
    var ms, ws := ns[..i] + ns[i + 1..], vs[..i] + vs[i + 1..];
    forall j | 0 <= j < |ws| ensures ms[j] == ws[j].rb && ws[j].rb.key == ws[j].vm_start {
      assert ms[j] == ns[if j < i then j else j + 1] && ws[j] == vs[if j < i then j else j + 1];
    }
  }

  lemma HeadsAllocated(head: ListHead, vs: seq<VMA>)
    ensures forall o :: o in Heads(head, vs) ==> allocated(o)
  {
    forall o | o in Heads(head, vs) ensures allocated(o) {
      var i :| 0 <= i < |Heads(head, vs)| && Heads(head, vs)[i] == o;
      assert i > 0 ==> o == vs[i - 1].list;
    }
  }

  /** The subtree `s` holds the nodes from place `lo` up to `hi`. */
  ghost predicate Window(t: Tree, s: Tree, lo: int, hi: int) {
    0 <= lo <= hi <= |Inorder(t)| && Inorder(t)[lo..hi] == Inorder(s)
  }

  lemma SplitWindow(t: Tree, s: Tree, lo: int, hi: int)
    requires Window(t, s, lo, hi) && s.Node?
    ensures var mid := lo + |Inorder(s.left)|;
      && lo <= mid < hi && Inorder(t)[mid] == s.n && Window(t, s.left, lo, mid) && Window(t, s.right, mid + 1, hi)
  {
    Slices(Inorder(t), lo, hi, Inorder(s.left), s.n, Inorder(s.right));
  }

  lemma Slices(u: seq<RBNode>, lo: int, hi: int, l: seq<RBNode>, n: RBNode, r: seq<RBNode>)
    requires 0 <= lo <= hi <= |u| && u[lo..hi] == l + [n] + r
    ensures var mid := lo + |l|; mid < hi && u[mid] == n && u[lo..mid] == l && u[mid + 1..hi] == r
  {
    var w, mid := u[lo..hi], lo + |l|;
    assert |w| == hi - lo == |l| + 1 + |r|;
    assert w[|l|] == n;
    assert u[lo..mid] == w[..|l|];
    assert u[mid + 1..hi] == w[|l| + 1..];
  }

  /** No range outside the window has the address. */
  ghost predicate RuledOut(rs: seq<Range>, lo: int, hi: int, a: U64) {
    0 <= lo <= hi <= |rs| && forall i :: 0 <= i < lo || hi <= i < |rs| ==> !rs[i].Contains(a)
  }

  lemma RuleOut(rs: seq<Range>, lo: int, hi: int, mid: int, a: U64)
    requires 0 <= lo <= mid < hi <= |rs| && ByStart(rs) && Proper(rs) && (Disjoint(rs) ==> RuledOut(rs, lo, hi, a))
    ensures Disjoint(rs) && a < rs[mid].start ==> RuledOut(rs, lo, mid, a)
    ensures Disjoint(rs) && a >= rs[mid].end ==> RuledOut(rs, mid + 1, hi, a)
  {
    if Disjoint(rs) && a >= rs[mid].end {
      forall i | 0 <= i < mid ensures rs[i].end <= a {
        assert rs[i].end <= rs[mid].start < rs[mid].end;
      }
    }
  }

  lemma NotFound(rs: seq<Range>, lo: int, a: U64)
    requires RuledOut(rs, lo, lo, a)
    ensures Scan(rs, a) == |rs|
  {
    var k := Scan(rs, a);
    if k < |rs| {
      assert false;
    }
  }

  /** The number of ranges, from the first one, that start before `addr`. */
  function Later(rs: seq<Range>, addr: U64): (k: nat)
    ensures k <= |rs| && (k < |rs| ==> rs[k].start >= addr)
    ensures forall i :: 0 <= i < k ==> rs[i].start < addr
  {
    if rs == [] || rs[0].start >= addr then 0 else 1 + Later(rs[1..], addr)
  }

  /** Below `lo` the ranges start before `addr`, from `hi` on they do not. */
  ghost predicate Divides(rs: seq<Range>, addr: U64, lo: int, hi: int) {
    && 0 <= lo <= hi <= |rs|
    && (forall i :: 0 <= i < lo ==> rs[i].start < addr)
    && (forall i :: hi <= i < |rs| ==> rs[i].start >= addr)
  }

  ghost predicate Starts(rs: seq<Range>, vs: seq<VMA>) {
    |rs| == |vs| && forall i {:trigger rs[i]} :: 0 <= i < |vs| ==> rs[i].start == vs[i].vm_start
  }

  lemma DividesMore(rs: seq<Range>, addr: U64, lo: int, hi: int, mid: int)
    requires Divides(rs, addr, lo, hi) && lo <= mid < hi && ByStart(rs)
    ensures if rs[mid].start >= addr then Divides(rs, addr, lo, mid) else Divides(rs, addr, mid + 1, hi)
  {
  }

  lemma {:induction false} LaterIs(rs: seq<Range>, addr: U64, k: nat)
    requires Divides(rs, addr, k, k)
    ensures Later(rs, addr) == k
  {
    if k > 0 {
      forall i | k - 1 <= i < |rs[1..]| ensures rs[1..][i].start >= addr {
        assert rs[1..][i] == rs[i + 1];
      }
      LaterIs(rs[1..], addr, k - 1);
    }
  }
}
