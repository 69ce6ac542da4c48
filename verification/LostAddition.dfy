/** A run of eleven additions that follows a null sibling: each is page-aligned, is taken and fits, and
    the last one joins a range whose node is black with a black lone child and has no sibling. */
module LostAddition {
  import opened Wrappers
  import opened Tree
  import opened Repair
  import opened AddressSpace
  import opened Space

  /** From page `a` up to page `b`, mapped to the pages with the same numbers. */
  function Pages(a: nat, b: nat): Range
    requires a < 64 && b < 64
  {
    Range(a * PAGE, b * PAGE, a, 0)
  }

  /** The ranges that are added, in this order. */
  const NEWS: seq<Range> := [
    Pages(12, 13), Pages(8, 9), Pages(4, 5), Pages(0, 1), Pages(6, 8), Pages(20, 21),
    Pages(18, 19), Pages(16, 18), Pages(10, 12), Pages(2, 4), Pages(14, 16)
  ]

  /** Eleven nodes with the keys of these ranges. */
  ghost predicate Keyed(n: seq<RBNode>) {
    |n| == 11 && forall i :: 0 <= i < 11 ==> n[i].key == NEWS[i].start
  }

  function Tip(x: RBNode): Tree { Node(Leaf, x, Red, Leaf) }

  function B(l: Tree, x: RBNode, r: Tree): Tree { Node(l, x, Black, r) }

  function R(l: Tree, x: RBNode, r: Tree): Tree { Node(l, x, Red, r) }

  /** The trees before each addition. */
  function Trees(n: seq<RBNode>): seq<Tree>
    requires |n| == 11
  {
    [
      Leaf,
      B(Leaf, n[0], Leaf),
      B(Tip(n[1]), n[0], Leaf),
      B(Tip(n[2]), n[1], Tip(n[0])),
      B(B(Tip(n[3]), n[2], Leaf), n[1], B(Leaf, n[0], Leaf)),
      B(B(Tip(n[3]), n[2], Tip(n[4])), n[0], Leaf),
      B(B(Tip(n[3]), n[2], Tip(n[4])), n[0], Tip(n[5])),
      B(R(B(Tip(n[3]), n[2], Tip(n[4])), n[0], Leaf), n[6], Tip(n[5])),
      B(B(B(Tip(n[3]), n[2], Tip(n[4])), n[0], Tip(n[7])), n[5], Leaf),
      B(B(R(B(Leaf, n[3], Leaf), n[2], B(Leaf, n[4], Tip(n[8]))), n[7], Leaf), n[5], Leaf),
      B(B(R(B(Leaf, n[3], Tip(n[9])), n[4], Tip(n[8])), n[7], Leaf), n[5], Leaf)
    ]
  }

  /** And the ranges. */
  const RANGES: seq<seq<Range>> := [
    [],
    [Pages(12, 13)],
    [Pages(8, 9), Pages(12, 13)],
    [Pages(4, 5), Pages(8, 9), Pages(12, 13)],
    [Pages(0, 1), Pages(4, 5), Pages(8, 9), Pages(12, 13)],
    [Pages(0, 1), Pages(4, 5), Pages(6, 9), Pages(12, 13)],
    [Pages(0, 1), Pages(4, 5), Pages(6, 9), Pages(12, 13), Pages(20, 21)],
    [Pages(0, 1), Pages(4, 5), Pages(6, 9), Pages(12, 13), Pages(18, 19), Pages(20, 21)],
    [Pages(0, 1), Pages(4, 5), Pages(6, 9), Pages(12, 13), Pages(16, 19), Pages(20, 21)],
    [Pages(0, 1), Pages(4, 5), Pages(6, 9), Pages(10, 13), Pages(16, 19), Pages(20, 21)],
    [Pages(0, 1), Pages(2, 5), Pages(6, 9), Pages(10, 13), Pages(16, 19), Pages(20, 21)]
  ]

  function Stage(n: seq<RBNode>, j: nat): Space
    requires |n| == 11 && j < 11
  {
    Space(Trees(n)[j], RANGES[j])
  }

  /** Addition `j` is taken and leads to the next stage; the last one leads nowhere. */
  ghost predicate Leads(n: seq<RBNode>, j: nat)
    requires |n| == 11 && j < 11 && Stage(n, j).Ok()
  {
    && Accepts(RANGES[j], NEWS[j]) && Fits(RANGES[j], NEWS[j])
    && AddedTo(Stage(n, j), n[j], NEWS[j]) == (if j < 10 then Some(Stage(n, j + 1)) else None)
    && (j < 10 ==> Added(RANGES[j], NEWS[j]) == RANGES[j + 1])
  }

  /** Range `j` is taken, fits at place `k`, and range `i`, if any, is swallowed then. */
  predicate Fitting(j: nat, k: nat, i: Option<nat>)
    requires j < 11
  {
    var rs, r := RANGES[j], NEWS[j];
    && Accepts(rs, r) && Fits(rs, r) && Place(rs, r.start) == k && Swallowed(Inserted(rs, k, r), k) == i
    && (j < 10 ==> Added(rs, r) == RANGES[j + 1])
  }

  lemma Ranges0()
    ensures Fitting(0, 0, None)
  {
    var rs := RANGES[0];
    PlaceUnique(rs, 0, NEWS[0].start);
    assert Inserted(rs, 0, NEWS[0]) == [NEWS[0]];
  }

  lemma Step0(n: seq<RBNode>)
    requires Keyed(n) && Stage(n, 0).Ok()
    ensures Leads(n, 0)
  {
    var t, x := Trees(n)[0], Tip(n[0]);
    assert Fixed(Top, x) == Blackened(Top, x);
    assert InsertedTree(t, n[0]) == Trees(n)[1];
    Ranges0();
  }

  lemma Ranges1()
    ensures Fitting(1, 0, None)
  {
    var rs := RANGES[1];
    PlaceUnique(rs, 0, NEWS[1].start);
    assert Inserted(rs, 0, NEWS[1]) == [NEWS[1], rs[0]];
  }

  lemma Step1(n: seq<RBNode>)
    requires Keyed(n) && Stage(n, 1).Ok()
    ensures Leads(n, 1)
  {
    var t, x := Trees(n)[1], Tip(n[1]);
    var c1 := LeftOf(Top, t.n, t.color, t.right);
    assert PlaceFor(Top, t, n[1].key) == c1;
    assert Fixed(c1, x) == Blackened(c1, x);
    assert Plug(c1, x) == Around(c1, x, c1.color);
    assert InsertedTree(t, n[1]) == Trees(n)[2];
    Ranges1();
  }

  lemma Ranges2()
    ensures Fitting(2, 0, None)
  {
    var rs := RANGES[2];
    PlaceUnique(rs, 0, NEWS[2].start);
    assert Inserted(rs, 0, NEWS[2]) == [NEWS[2], rs[0], rs[1]];
  }

  lemma Step2(n: seq<RBNode>)
    requires Keyed(n) && Stage(n, 2).Ok()
    ensures Leads(n, 2)
  {
    var t, x := Trees(n)[2], Tip(n[2]);
    var c1 := LeftOf(Top, t.n, t.color, t.right);
    var c2 := LeftOf(c1, t.left.n, t.left.color, t.left.right);
    assert PlaceFor(Top, t, n[2].key) == PlaceFor(c1, t.left, n[2].key) == c2;
    var d, y := RotatedCtx(c2, x), RotatedTree(c2, x);
    assert Fixed(c2, x) == Blackened(d, y);
    assert Plug(d, y) == Around(d, y, d.color);
    assert InsertedTree(t, n[2]) == Trees(n)[3];
    Ranges2();
  }

  lemma Ranges3()
    ensures Fitting(3, 0, None)
  {
    var rs := RANGES[3];
    PlaceUnique(rs, 0, NEWS[3].start);
    assert Inserted(rs, 0, NEWS[3]) == [NEWS[3], rs[0], rs[1], rs[2]];
  }

  lemma Step3(n: seq<RBNode>)
    requires Keyed(n) && Stage(n, 3).Ok()
    ensures Leads(n, 3)
  {
    var t, x := Trees(n)[3], Tip(n[3]);
    var c1 := LeftOf(Top, t.n, t.color, t.right);
    var c2 := LeftOf(c1, t.left.n, t.left.color, t.left.right);
    assert PlaceFor(Top, t, n[3].key) == PlaceFor(c1, t.left, n[3].key) == c2;
    var y0 := Recolored(c2, x);
    assert Fixed(c2, x) == Fixed(Top, y0);
    assert Fixed(Top, y0) == Blackened(Top, y0);
    assert InsertedTree(t, n[3]) == Trees(n)[4];
    Ranges3();
  }

  lemma Ranges4()
    ensures Fitting(4, 2, Some(3))
  {
    var rs := RANGES[4];
    PlaceUnique(rs, 2, NEWS[4].start);
    assert Inserted(rs, 2, NEWS[4]) == [rs[0], rs[1], NEWS[4], rs[2], rs[3]];
  }

  lemma Step4(n: seq<RBNode>)
    requires Keyed(n) && Stage(n, 4).Ok()
    ensures Leads(n, 4)
  {
    var t, x := Trees(n)[4], Tip(n[4]);
    var c1 := LeftOf(Top, t.n, t.color, t.right);
    var c2 := RightOf(c1, t.left.left, t.left.n, t.left.color);
    assert PlaceFor(Top, t, n[4].key) == PlaceFor(c1, t.left, n[4].key) == c2;
    assert Fixed(c2, x) == Blackened(c2, x);
    var u := B(B(Tip(n[3]), n[2], Tip(n[4])), n[1], B(Leaf, n[0], Leaf));
    assert Plug(c2, x) == Plug(c1, Around(c2, x, c2.color)) == Around(c1, Around(c2, x, c2.color), c1.color);
    assert InsertedTree(t, n[4]) == u;
    assert |Inorder(u.left.left)| == 1;
    assert |Inorder(u.left.right)| == 1;
    assert |Inorder(u.left)| == 3;
    assert SpotOf(Top, u, 3) == Spot(Top, u);
    assert ErasedAt(u, 3) == Some(Trees(n)[5]);
    Ranges4();
  }

  lemma Ranges5()
    ensures Fitting(5, 4, None)
  {
    var rs := RANGES[5];
    PlaceUnique(rs, 4, NEWS[5].start);
    assert Inserted(rs, 4, NEWS[5]) == [rs[0], rs[1], rs[2], rs[3], NEWS[5]];
  }

  lemma Step5(n: seq<RBNode>)
    requires Keyed(n) && Stage(n, 5).Ok()
    ensures Leads(n, 5)
  {
    var t, x := Trees(n)[5], Tip(n[5]);
    var c1 := RightOf(Top, t.left, t.n, t.color);
    assert PlaceFor(Top, t, n[5].key) == c1;
    assert Fixed(c1, x) == Blackened(c1, x);
    assert Plug(c1, x) == Around(c1, x, c1.color);
    assert InsertedTree(t, n[5]) == Trees(n)[6];
    Ranges5();
  }

  lemma Ranges6()
    ensures Fitting(6, 4, None)
  {
    var rs := RANGES[6];
    PlaceUnique(rs, 4, NEWS[6].start);
    assert Inserted(rs, 4, NEWS[6]) == [rs[0], rs[1], rs[2], rs[3], NEWS[6], rs[4]];
  }

  lemma Step6(n: seq<RBNode>)
    requires Keyed(n) && Stage(n, 6).Ok()
    ensures Leads(n, 6)
  {
    var t, x := Trees(n)[6], Tip(n[6]);
    var c1 := RightOf(Top, t.left, t.n, t.color);
    var c2 := LeftOf(c1, t.right.n, t.right.color, t.right.right);
    assert PlaceFor(Top, t, n[6].key) == PlaceFor(c1, t.right, n[6].key) == c2;
    var d, y := RotatedCtx(c2, x), RotatedTree(c2, x);
    assert Fixed(c2, x) == Blackened(d, y);
    assert Plug(d, y) == Around(d, y, d.color);
    assert InsertedTree(t, n[6]) == Trees(n)[7];
    Ranges6();
  }

  lemma Ranges7()
    ensures Fitting(7, 4, Some(5))
  {
    var rs := RANGES[7];
    PlaceUnique(rs, 4, NEWS[7].start);
    assert Inserted(rs, 4, NEWS[7]) == [rs[0], rs[1], rs[2], rs[3], NEWS[7], rs[4], rs[5]];
  }

  lemma Step7(n: seq<RBNode>)
    requires Keyed(n) && Stage(n, 7).Ok()
    ensures Leads(n, 7)
  {
    var t, x := Trees(n)[7], Tip(n[7]);
    var c1 := LeftOf(Top, t.n, t.color, t.right);
    var c2 := RightOf(c1, t.left.left, t.left.n, t.left.color);
    assert PlaceFor(Top, t, n[7].key) == PlaceFor(c1, t.left, n[7].key) == c2;
    var y0 := Recolored(c2, x);
    assert Fixed(c2, x) == Fixed(Top, y0);
    assert Fixed(Top, y0) == Blackened(Top, y0);
    var u := B(B(B(Tip(n[3]), n[2], Tip(n[4])), n[0], Tip(n[7])), n[6], B(Leaf, n[5], Leaf));
    assert InsertedTree(t, n[7]) == u;
    assert |Inorder(u.left.left.left)| == 1;
    assert |Inorder(u.left.left.right)| == 1;
    assert |Inorder(u.left.left)| == 3;
    assert |Inorder(u.left.right)| == 1;
    assert |Inorder(u.left)| == 5;
    assert SpotOf(Top, u, 5) == Spot(Top, u);
    assert ErasedAt(u, 5) == Some(Trees(n)[8]);
    Ranges7();
  }

  lemma Ranges8()
    ensures Fitting(8, 3, Some(4))
  {
    var rs := RANGES[8];
    PlaceUnique(rs, 3, NEWS[8].start);
    assert Inserted(rs, 3, NEWS[8]) == [rs[0], rs[1], rs[2], NEWS[8], rs[3], rs[4], rs[5]];
  }

  lemma Step8(n: seq<RBNode>)
    requires Keyed(n) && Stage(n, 8).Ok()
    ensures Leads(n, 8)
  {
    var t, x := Trees(n)[8], Tip(n[8]);
    var c1 := LeftOf(Top, t.n, t.color, t.right);
    var c2 := LeftOf(c1, t.left.n, t.left.color, t.left.right);
    var c3 := RightOf(c2, t.left.left.left, t.left.left.n, t.left.left.color);
    var c4 := RightOf(c3, t.left.left.right.left, t.left.left.right.n, t.left.left.right.color);
    assert PlaceFor(Top, t, n[8].key) == PlaceFor(c1, t.left, n[8].key) == PlaceFor(c2, t.left.left, n[8].key) ==
      PlaceFor(c3, t.left.left.right, n[8].key) == c4;
    assert RootBlack(c2);
    var y0 := Recolored(c4, x);
    assert Fixed(c4, x) == Fixed(c2, y0);
    assert Fixed(c2, y0) == Blackened(c2, y0);
    var u := B(B(R(B(Leaf, n[3], Leaf), n[2], B(Leaf, n[4], Tip(n[8]))), n[0], Tip(n[7])), n[5], Leaf);
    assert Plug(c2, y0) == Plug(c1, Around(c2, y0, c2.color)) == Around(c1, Around(c2, y0, c2.color), c1.color);
    assert InsertedTree(t, n[8]) == u;
    assert |Inorder(u.left.left.left)| == 1;
    assert |Inorder(u.left.left.right.right)| == 1;
    assert |Inorder(u.left.left.right)| == 2;
    assert |Inorder(u.left.left)| == 4;
    assert |Inorder(u.left.right)| == 1;
    assert |Inorder(u.left)| == 6;
    var e1 := LeftOf(Top, u.n, u.color, u.right);
    assert SpotOf(Top, u, 4) == SpotOf(e1, u.left, 4) == Spot(e1, u.left);
    var v := Erased(u.left.left, u.left.color, u.left.right);
    assert Plug(e1, v) == Around(e1, v, e1.color);
    assert ErasedAt(u, 4) == Some(Trees(n)[9]);
    Ranges8();
  }

  lemma Ranges9()
    ensures Fitting(9, 1, Some(2))
  {
    var rs := RANGES[9];
    PlaceUnique(rs, 1, NEWS[9].start);
    assert Inserted(rs, 1, NEWS[9]) == [rs[0], NEWS[9], rs[1], rs[2], rs[3], rs[4], rs[5]];
  }

  lemma Step9(n: seq<RBNode>)
    requires Keyed(n) && Stage(n, 9).Ok()
    ensures Leads(n, 9)
  {
    var t, x := Trees(n)[9], Tip(n[9]);
    var c1 := LeftOf(Top, t.n, t.color, t.right);
    var c2 := LeftOf(c1, t.left.n, t.left.color, t.left.right);
    var c3 := LeftOf(c2, t.left.left.n, t.left.left.color, t.left.left.right);
    var c4 := RightOf(c3, t.left.left.left.left, t.left.left.left.n, t.left.left.left.color);
    assert PlaceFor(Top, t, n[9].key) == PlaceFor(c1, t.left, n[9].key) == PlaceFor(c2, t.left.left, n[9].key) ==
      PlaceFor(c3, t.left.left.left, n[9].key) == c4;
    assert RootBlack(c2);
    assert Fixed(c4, x) == Blackened(c4, x);
    var u := B(B(R(B(Leaf, n[3], Tip(n[9])), n[2], B(Leaf, n[4], Tip(n[8]))), n[7], Leaf), n[5], Leaf);
    assert Plug(c4, x) == Plug(c3, Around(c4, x, c4.color)) == Plug(c2, Around(c3, Around(c4, x, c4.color), c3.color)) ==
      Plug(c1, Around(c2, Around(c3, Around(c4, x, c4.color), c3.color), c2.color)) ==
      Around(c1, Around(c2, Around(c3, Around(c4, x, c4.color), c3.color), c2.color), c1.color);
    assert InsertedTree(t, n[9]) == u;
    assert |Inorder(u.left.left.left.right)| == 1;
    assert |Inorder(u.left.left.left)| == 2;
    assert |Inorder(u.left.left.right.right)| == 1;
    assert |Inorder(u.left.left.right)| == 2;
    assert |Inorder(u.left.left)| == 5;
    assert |Inorder(u.left)| == 6;
    var e1 := LeftOf(Top, u.n, u.color, u.right);
    var e2 := LeftOf(e1, u.left.n, u.left.color, u.left.right);
    assert SpotOf(Top, u, 2) == SpotOf(e1, u.left, 2) == SpotOf(e2, u.left.left, 2) == Spot(e2, u.left.left);
    var v := Erased(u.left.left.left, u.left.left.color, u.left.left.right);
    assert Plug(e2, v) == Plug(e1, Around(e2, v, e2.color)) == Around(e1, Around(e2, v, e2.color), e1.color);
    assert ErasedAt(u, 2) == Some(Trees(n)[10]);
    Ranges9();
  }

  lemma Ranges10()
    ensures Fitting(10, 4, Some(5))
  {
    var rs := RANGES[10];
    PlaceUnique(rs, 4, NEWS[10].start);
    assert Inserted(rs, 4, NEWS[10]) == [rs[0], rs[1], rs[2], rs[3], NEWS[10], rs[4], rs[5]];
  }

  lemma Step10(n: seq<RBNode>)
    requires Keyed(n) && Stage(n, 10).Ok()
    ensures Leads(n, 10)
  {
    var t, x := Trees(n)[10], Tip(n[10]);
    var c1 := LeftOf(Top, t.n, t.color, t.right);
    var c2 := LeftOf(c1, t.left.n, t.left.color, t.left.right);
    var c3 := RightOf(c2, t.left.left.left, t.left.left.n, t.left.left.color);
    var c4 := RightOf(c3, t.left.left.right.left, t.left.left.right.n, t.left.left.right.color);
    assert PlaceFor(Top, t, n[10].key) == PlaceFor(c1, t.left, n[10].key) == PlaceFor(c2, t.left.left, n[10].key) ==
      PlaceFor(c3, t.left.left.right, n[10].key) == c4;
    assert RootBlack(c2);
    var d, y := RotatedCtx(c4, x), RotatedTree(c4, x);
    assert Fixed(c4, x) == Blackened(d, y);
    var u := B(B(B(R(B(Leaf, n[3], Tip(n[9])), n[4], Leaf), n[8], Tip(n[10])), n[7], Leaf), n[5], Leaf);
    assert Plug(d, y) == Plug(c2, Around(d, y, d.color)) == Plug(c1, Around(c2, Around(d, y, d.color), c2.color)) ==
      Around(c1, Around(c2, Around(d, y, d.color), c2.color), c1.color);
    assert InsertedTree(t, n[10]) == u;
    assert |Inorder(u.left.left.left.left.right)| == 1;
    assert |Inorder(u.left.left.left.left)| == 2;
    assert |Inorder(u.left.left.left)| == 3;
    assert |Inorder(u.left.left.right)| == 1;
    assert |Inorder(u.left.left)| == 5;
    assert |Inorder(u.left)| == 6;
    var e1 := LeftOf(Top, u.n, u.color, u.right);
    assert SpotOf(Top, u, 5) == SpotOf(e1, u.left, 5) == Spot(e1, u.left);
    assert ErasedAt(u, 5) == None;
    Ranges10();
  }

  // ----- the run -----

  function News(n: seq<RBNode>): (news: seq<Addition>)
    requires |n| == 11
    ensures |news| == 11 && forall i :: 0 <= i < 11 ==> news[i] == Addition(n[i], NEWS[i])
  {
    seq(11, i requires 0 <= i < 11 => Addition(n[i], NEWS[i]))
  }

  lemma EachStep(n: seq<RBNode>, j: nat)
    requires Keyed(n) && j < 11 && Stage(n, j).Ok()
    ensures Leads(n, j)
  {
    match j
    case 0 => Step0(n);
    case 1 => Step1(n);
    case 2 => Step2(n);
    case 3 => Step3(n);
    case 4 => Step4(n);
    case 5 => Step5(n);
    case 6 => Step6(n);
    case 7 => Step7(n);
    case 8 => Step8(n);
    case 9 => Step9(n);
    case 10 => Step10(n);
  }

  lemma {:induction false} RestIsLost(n: seq<RBNode>, j: nat)
    requires Keyed(n) && j < 11 && Stage(n, j).Ok()
    ensures AllTaken(RANGES[j], NEWS[j..]) && AddedAll(Stage(n, j), News(n)[j..]) == None
    decreases 11 - j
  {
    var rs, news := NEWS[j..], News(n)[j..];
    EachStep(n, j);
    AddedToFacts(Stage(n, j), n[j], NEWS[j]);
    assert rs[0] == NEWS[j] && news[0] == Addition(n[j], NEWS[j]);
    assert rs[1..] == NEWS[j + 1..] && news[1..] == News(n)[j + 1..];
    if j < 10 {
      RestIsLost(n, j + 1);
    }
  }

  lemma NewsAre(n: seq<RBNode>)
    requires |n| == 11
    ensures Ranges(News(n)) == NEWS
  {
    var news, rs := News(n), Ranges(News(n));
    forall i | 0 <= i < 11 ensures rs[i] == NEWS[i] {
      assert rs[i] == news[i].r;
    }
  }

  lemma NewsAligned()
    ensures PageAligned(NEWS)
  {
  }

  lemma FirstStage(n: seq<RBNode>)
    requires |n| == 11
    ensures Stage(n, 0) == Space(Leaf, []) && Stage(n, 0).Ok() && RANGES[0] == []
    ensures NEWS[0..] == NEWS && News(n)[0..] == News(n)
  {
  }

  /** Every range is page-aligned, taken and fitting, and yet the run does not get to its end. */
  lemma RunIsLost(n: seq<RBNode>)
    requires Keyed(n)
    ensures PageAligned(NEWS) && AllTaken([], NEWS) && Ranges(News(n)) == NEWS
    ensures Space(Leaf, []).Ok() && AddedAll(Space(Leaf, []), News(n)) == None
  {
    NewsAre(n);
    NewsAligned();
    FirstStage(n);
    RestIsLost(n, 0);
  }
}
