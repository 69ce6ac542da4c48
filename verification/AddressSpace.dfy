/** Address ranges as values: what a manager of virtual memory areas stands for. */
module AddressSpace {
  import opened Wrappers

  const WORD := 0x1_0000_0000_0000_0000
  const PAGE := 4096

  type U64 = x: int | 0 <= x < 0x1_0000_0000_0000_0000

  /** The fields of an area that decide lookup, merging and translation. */
  datatype Range = Range(start: U64, end: U64, pfn: U64, flags: nat) {
    predicate Contains(a: U64) { start <= a < end }

    predicate CanMergeWith(other: Range) {
      end == other.start && flags == other.flags && (pfn + (end - start) % WORD / PAGE) % WORD == other.pfn
    }

    function VirtToPhys(a: U64): U64 {
      if Contains(a) then ((pfn * PAGE) % WORD + (a - start)) % WORD else 0
    }

    /** What the range makes of one of its addresses. */
    function MapOf(a: U64): Mapping { Mapping(VirtToPhys(a), flags) }
  }

  /** Where an address leads, and with which permissions. */
  datatype Mapping = Mapping(phys: U64, flags: nat)

  /** The ranges are not empty and lie in order of their starts. */
  ghost predicate Ordered(rs: seq<Range>) {
    rs == [] || (rs[0].start < rs[0].end && (|rs| > 1 ==> rs[0].start <= rs[1].start) && Ordered(rs[1..]))
  }

  /** Which is to say of any range, and of any two. */
  lemma {:induction false} OrderedMeans(rs: seq<Range>)
    ensures Ordered(rs) <==> ByStart(rs) && Proper(rs)
  {
    if rs != [] {
      var t := rs[1..];
      OrderedMeans(t);
      assert forall i :: 0 < i < |rs| ==> rs[i] == t[i - 1];
      if Ordered(rs) {
        forall i, j | 0 <= i < j < |rs| ensures rs[i].start <= rs[j].start {
          assert i > 0 ==> t[i - 1].start <= t[j - 1].start;
          assert j > 1 ==> t[0].start <= t[j - 1].start;
        }
      }
    }
  }

  ghost predicate Proper(rs: seq<Range>) {
    forall i :: 0 <= i < |rs| ==> rs[i].start < rs[i].end
  }

  ghost predicate ByStart(rs: seq<Range>) {
    forall i, j :: 0 <= i < j < |rs| ==> rs[i].start <= rs[j].start
  }

  ghost predicate Disjoint(rs: seq<Range>) {
    forall i, j :: 0 <= i < j < |rs| ==> rs[i].end <= rs[j].start
  }

  /** Every boundary lies on a page. */
  ghost predicate PageAligned(rs: seq<Range>) {
    forall i :: 0 <= i < |rs| ==> rs[i].start % PAGE == 0 && rs[i].end % PAGE == 0
  }

  // ----- lookup by walking along the ranges -----

  /** The index of the first range with address `a`, or the number of ranges. */
  function Scan(rs: seq<Range>, a: U64): (k: nat)
    ensures k <= |rs| && (k < |rs| ==> rs[k].Contains(a))
    ensures forall i :: 0 <= i < k ==> !rs[i].Contains(a)
  {
    if rs == [] || rs[0].Contains(a) then 0 else 1 + Scan(rs[1..], a)
  }

  function Translate(rs: seq<Range>, a: U64): Option<Mapping> {
    var k := Scan(rs, a);
    if k < |rs| then Some(rs[k].MapOf(a)) else None
  }

  /** A single address lies in at most one of several disjoint ranges. */
  lemma OnlyOne(rs: seq<Range>, a: U64, k: nat)
    requires Disjoint(rs) && k < |rs| && rs[k].Contains(a)
    ensures Scan(rs, a) == k
  {
    var j := Scan(rs, a);
    assert j <= k;
  }

  lemma {:induction false} ScanAppend(xs: seq<Range>, ys: seq<Range>, a: U64)
    ensures Translate(xs + ys, a) == if Translate(xs, a).Some? then Translate(xs, a) else Translate(ys, a)
  {
    if xs == [] {
      assert xs + ys == ys;
    } else if !xs[0].Contains(a) {
      assert (xs + ys)[1..] == xs[1..] + ys;
      ScanAppend(xs[1..], ys, a);
    }
  }

  // ----- adding a range -----

  /** The place behind the ranges that start no later. */
  function Place(rs: seq<Range>, start: U64): (k: nat)
    ensures k <= |rs| && (k < |rs| ==> rs[k].start > start)
    ensures forall i :: 0 <= i < k ==> rs[i].start <= start
  {
    if rs == [] || rs[0].start > start then 0 else 1 + Place(rs[1..], start)
  }

  lemma {:induction false} PlaceUnique(rs: seq<Range>, k: nat, start: U64)
    requires k <= |rs| && forall i :: 0 <= i < |rs| ==> if i < k then rs[i].start <= start else rs[i].start > start
    ensures Place(rs, start) == k
  {
    if k > 0 {
      PlaceUnique(rs[1..], k - 1, start);
    }
  }

  function Inserted(rs: seq<Range>, k: nat, r: Range): seq<Range>
    requires k <= |rs|
  {
    rs[..k] + [r] + rs[k..]
  }

  /** Range `k` swallowed by the one before it, or swallowing the one after it. */
  function Merged(rs: seq<Range>, k: nat): seq<Range>
    requires k < |rs|
  {
    if k > 0 && rs[k - 1].CanMergeWith(rs[k]) then Joined(rs, k - 1)
    else if k + 1 < |rs| && rs[k].CanMergeWith(rs[k + 1]) then Joined(rs, k)
    else rs
  }

  /** Range `k` is joined with a neighbour. */
  predicate Joins(rs: seq<Range>, k: nat)
    requires k < |rs|
  {
    (k > 0 && rs[k - 1].CanMergeWith(rs[k])) || (k + 1 < |rs| && rs[k].CanMergeWith(rs[k + 1]))
  }

  /** Ranges `k` and `k + 1` made one. */
  function Joined(rs: seq<Range>, k: nat): seq<Range>
    requires k + 1 < |rs|
  {
    rs[..k] + [rs[k].(end := rs[k + 1].end)] + rs[k + 2..]
  }

  /** What adding `r` leaves. */
  function Added(rs: seq<Range>, r: Range): seq<Range> {
    var k := Place(rs, r.start);
    Merged(Inserted(rs, k, r), k)
  }

  /** Whether a new range is taken: only its start is looked at. */
  predicate Accepts(rs: seq<Range>, r: Range) {
    r.start < r.end && Scan(rs, r.start) == |rs|
  }

  /** In fields: the range is not empty, and no range that is there has its start. */
  lemma AcceptsIff(rs: seq<Range>, r: Range)
    ensures Accepts(rs, r) <==> r.start < r.end && forall x :: x in rs ==> !(x.start <= r.start < x.end)
  {
    var k := Scan(rs, r.start);
    if k < |rs| {
      assert rs[k] in rs;
    }
  }

  /** The new range ends before the next one starts. */
  predicate Fits(rs: seq<Range>, r: Range) {
    var k := Place(rs, r.start);
    k < |rs| ==> r.end <= rs[k].start
  }

  // ----- order -----

  lemma InsertedAt(rs: seq<Range>, k: nat, r: Range, i: nat)
    requires k <= |rs| && i <= |rs|
    ensures |Inserted(rs, k, r)| == |rs| + 1
    ensures Inserted(rs, k, r)[i] == if i < k then rs[i] else if i == k then r else rs[i - 1]
  {
  }

  lemma InsertedOrder(rs: seq<Range>, r: Range)
    requires ByStart(rs) && Proper(rs) && r.start < r.end
    ensures var s := Inserted(rs, Place(rs, r.start), r); ByStart(s) && Proper(s)
  {
    var k := Place(rs, r.start);
    var s := Inserted(rs, k, r);
    forall i | 0 <= i < |s| ensures s[i].start < s[i].end {
      InsertedAt(rs, k, r, i);
    }
    forall i, j | 0 <= i < j < |s| ensures s[i].start <= s[j].start {
      InsertedAt(rs, k, r, i);
      InsertedAt(rs, k, r, j);
    }
  }

  /** The ranges stay disjoint exactly if the new one fits: that its start is free is not enough. */
  lemma DisjointIffFits(rs: seq<Range>, r: Range)
    requires Disjoint(rs) && Proper(rs) && Accepts(rs, r)
    ensures Disjoint(Inserted(rs, Place(rs, r.start), r)) <==> Fits(rs, r)
  {
    var k := Place(rs, r.start);
    var s := Inserted(rs, k, r);
    InsertedAt(rs, k, r, k);
    if k < |rs| {
      InsertedAt(rs, k, r, k + 1);
    }
    if Fits(rs, r) {
      DisjointOrder(rs);
      forall i, j | 0 <= i < j < |s| ensures s[i].end <= s[j].start {
        InsertedAt(rs, k, r, i);
        InsertedAt(rs, k, r, j);
        if i < k {
          assert !rs[i].Contains(r.start);
        }
      }
    }
  }

  /** A start that is free, and ranges that overlap all the same. */
  lemma FreeStartIsNotEnough()
    ensures exists rs: seq<Range>, r: Range ::
      Disjoint(rs) && Proper(rs) && Accepts(rs, r) && !Disjoint(Inserted(rs, Place(rs, r.start), r))
  {
    var rs, r := [Range(8192, 12288, 2, 0)], Range(4096, 16384, 1, 0);
    DisjointIffFits(rs, r);
    assert Accepts(rs, r) && !Fits(rs, r);
  }

  lemma JoinedOrder(rs: seq<Range>, k: nat)
    requires k + 1 < |rs| && ByStart(rs) && Proper(rs) && rs[k].end == rs[k + 1].start
    ensures ByStart(Joined(rs, k)) && Proper(Joined(rs, k))
    ensures Disjoint(rs) ==> Disjoint(Joined(rs, k))
  {
    var s := Joined(rs, k);
    forall i | 0 <= i < |s|
      ensures s[i].start == rs[if i <= k then i else i + 1].start
      ensures s[i].end == rs[if i < k then i else i + 1].end
    {
    }
  }

  // ----- translation -----

  /** Shifting by whole words changes nothing. */
  lemma AddMod(x: int, y: int)
    ensures (x % WORD + y) % WORD == (x + y) % WORD
  {
    assert x == (x / WORD) * WORD + x % WORD;
    ModShift(x % WORD + y, x / WORD);
  }

  lemma ModShift(x: int, n: int)
    ensures (x + n * WORD) % WORD == x % WORD
  {
  }

  lemma MulMod(x: int, n: int)
    ensures ((x % WORD) * n) % WORD == (x * n) % WORD
  {
    var q := x / WORD;
    assert x * n == (x % WORD) * n + (q * n) * WORD by {
      assert x == q * WORD + x % WORD;
    }
    ModShift((x % WORD) * n, q * n);
  }

  /** Two mergeable ranges translate as one exactly if the left one is a whole number of pages. */
  lemma MergeKeepsTranslation(l: Range, r: Range)
    requires l.start < l.end && r.start < r.end && l.CanMergeWith(r)
    ensures var m := l.(end := r.end);
      && (forall a: U64 :: l.Contains(a) ==> m.VirtToPhys(a) == l.VirtToPhys(a))
      && ((forall a: U64 :: r.Contains(a) ==> m.VirtToPhys(a) == r.VirtToPhys(a)) <==> (l.end - l.start) % PAGE == 0)
  {
    var m := l.(end := r.end);
    forall a: U64 | r.Contains(a) ensures m.VirtToPhys(a) == r.VirtToPhys(a) <==> (l.end - l.start) % PAGE == 0 {
      MergeAt(l, r, a);
    }
    assert r.Contains(r.start);
  }

  lemma MergeAt(l: Range, r: Range, a: U64)
    requires l.start < l.end && l.CanMergeWith(r) && r.Contains(a)
    ensures l.(end := r.end).VirtToPhys(a) == r.VirtToPhys(a) <==> (l.end - l.start) % PAGE == 0
  {
    var n := l.end - l.start;
    OffsetOfMerge(l.pfn, n, r.pfn, a - r.start);
    assert a - l.start == n + (a - r.start);
  }

  lemma OffsetOfMerge(pfn: U64, n: U64, other: U64, off: U64)
    requires (pfn + n / PAGE) % WORD == other
    ensures ((pfn * PAGE) % WORD + (n + off)) % WORD == ((other * PAGE) % WORD + off) % WORD <==> n % PAGE == 0
  {
    var x := pfn * PAGE + n / PAGE * PAGE + off;
    AddMod(pfn * PAGE, n + off);
    assert pfn * PAGE + (n + off) == x + n % PAGE;
    AddMod(other * PAGE, off);
    MulMod(pfn + n / PAGE, PAGE);
    AddMod((pfn + n / PAGE) * PAGE, off);
    assert ((other * PAGE) % WORD + off) % WORD == x % WORD;
    SmallShift(x, n % PAGE);
  }

  lemma SmallShift(x: int, d: int)
    requires 0 <= d < PAGE
    ensures (x + d) % WORD == x % WORD <==> d == 0
  {
    var r := x % WORD;
    AddMod(x, d);
    if r + d >= WORD {
      ModShift(r + d - WORD, 1);
    }
  }

  lemma TranslateOne(r: Range, a: U64)
    ensures Translate([r], a) == if r.Contains(a) then Some(r.MapOf(a)) else None
  {
  }

  /** Joining keeps every translation if the left range is made of whole pages. */
  lemma JoinedTranslation(rs: seq<Range>, k: nat, a: U64)
    requires k + 1 < |rs| && Proper(rs) && rs[k].CanMergeWith(rs[k + 1]) && (rs[k].end - rs[k].start) % PAGE == 0
    ensures Translate(Joined(rs, k), a) == Translate(rs, a)
  {
    var l, r := rs[k], rs[k + 1];
    var m := l.(end := r.end);
    MergeKeepsTranslation(l, r);
    TranslateOne(l, a);
    TranslateOne(r, a);
    TranslateOne(m, a);
    ScanAppend([l], [r], a);
    assert rs == rs[..k] + ([l] + [r] + rs[k + 2..]);
    ScanAppend(rs[..k], [l] + [r] + rs[k + 2..], a);
    ScanAppend([l] + [r], rs[k + 2..], a);
    assert Joined(rs, k) == rs[..k] + ([m] + rs[k + 2..]);
    ScanAppend(rs[..k], [m] + rs[k + 2..], a);
    ScanAppend([m], rs[k + 2..], a);
  }

  lemma InsertedTranslation(rs: seq<Range>, k: nat, r: Range, a: U64)
    requires k <= |rs| && Disjoint(Inserted(rs, k, r))
    ensures Translate(Inserted(rs, k, r), a) == if r.Contains(a) then Some(r.MapOf(a)) else Translate(rs, a)
  {
    hide Disjoint, Scan;
    var s := Inserted(rs, k, r);
    if r.Contains(a) {
      assert s[k] == r;
      OnlyOne(s, a, k);
    } else {
      TranslateOne(r, a);
      assert s == rs[..k] + ([r] + rs[k..]);
      ScanAppend(rs[..k], [r] + rs[k..], a);
      ScanAppend([r], rs[k..], a);
      assert rs == rs[..k] + rs[k..];
      ScanAppend(rs[..k], rs[k..], a);
    }
  }

  /** Adding a page-aligned range that fits, with whatever merging follows, leaves every old
      translation as it was and maps the new range as it would be mapped alone. */
  lemma AddedTranslation(rs: seq<Range>, r: Range, a: U64)
    requires Disjoint(rs) && Proper(rs) && Accepts(rs, r) && Fits(rs, r) && PageAligned(rs + [r])
    ensures Translate(Added(rs, r), a) == if r.Contains(a) then Some(r.MapOf(a)) else Translate(rs, a)
    ensures Disjoint(Added(rs, r)) && Proper(Added(rs, r)) && PageAligned(Added(rs, r))
  {
    var k := Place(rs, r.start);
    DisjointOrder(rs);
    InsertedOrder(rs, r);
    DisjointIffFits(rs, r);
    InsertedTranslation(rs, k, r, a);
    InsertedAligned(rs, k, r);
    MergedTranslation(Inserted(rs, k, r), k, a);
  }

  lemma MergedTranslation(s: seq<Range>, k: nat, a: U64)
    requires k < |s| && ByStart(s) && Disjoint(s) && Proper(s) && PageAligned(s)
    ensures Translate(Merged(s, k), a) == Translate(s, a)
    ensures Disjoint(Merged(s, k)) && Proper(Merged(s, k)) && PageAligned(Merged(s, k))
  {
    if k > 0 && s[k - 1].CanMergeWith(s[k]) {
      JoinedFacts(s, k - 1, a);
    } else if k + 1 < |s| && s[k].CanMergeWith(s[k + 1]) {
      JoinedFacts(s, k, a);
    }
  }

  lemma JoinedFacts(s: seq<Range>, k: nat, a: U64)
    requires k + 1 < |s| && ByStart(s) && Disjoint(s) && Proper(s) && PageAligned(s) && s[k].CanMergeWith(s[k + 1])
    ensures Translate(Joined(s, k), a) == Translate(s, a)
    ensures Disjoint(Joined(s, k)) && Proper(Joined(s, k)) && PageAligned(Joined(s, k))
  {
    var l := s[k];
    assert (l.end - l.start) % PAGE == 0 by {
      assert l.start % PAGE == 0 && l.end % PAGE == 0;
    }
    JoinedOrder(s, k);
    JoinedTranslation(s, k, a);
    assert s[k + 1].end % PAGE == 0;
  }

  lemma DisjointOrder(rs: seq<Range>)
    requires Disjoint(rs) && Proper(rs)
    ensures ByStart(rs)
  {
    forall i, j | 0 <= i < j < |rs| ensures rs[i].start <= rs[j].start {
      assert rs[i].start < rs[i].end;
    }
  }

  lemma InsertedAligned(rs: seq<Range>, k: nat, r: Range)
    requires k <= |rs| && PageAligned(rs + [r])
    ensures PageAligned(Inserted(rs, k, r))
  {
    var s := Inserted(rs, k, r);
    forall i | 0 <= i < |s| ensures s[i].start % PAGE == 0 && s[i].end % PAGE == 0 {
      assert s[i] == (rs + [r])[if i < k then i else if i == k then |rs| else i - 1];
    }
  }

  /** `now` leads from the addresses of a range to its page frames, with its flags, and otherwise where
      `before` does. */
  ghost predicate MapsAlso(before: seq<Range>, now: seq<Range>, start: U64, end: U64, pfn: U64, flags: nat) {
    forall a: U64 :: Translate(now, a) ==
      (if start <= a < end then Some(Mapping((pfn * 4096 + (a - start)) % 0x1_0000_0000_0000_0000, flags)) else Translate(before, a))
  }

  /** For every address at once, in the fields of the new range. */
  lemma AddedEverywhere(rs: seq<Range>, r: Range)
    requires Disjoint(rs) && Proper(rs) && Accepts(rs, r) && Fits(rs, r) && PageAligned(rs + [r])
    ensures MapsAlso(rs, Added(rs, r), r.start, r.end, r.pfn, r.flags)
  {
    hide Disjoint, Proper, PageAligned, Accepts, Fits, Added, Translate;
    forall a: U64 ensures Translate(Added(rs, r), a) ==
      (if r.start <= a < r.end then Some(Mapping((r.pfn * 4096 + (a - r.start)) % 0x1_0000_0000_0000_0000, r.flags)) else Translate(rs, a))
    {
      AddedTranslation(rs, r, a);
      PhysicalAddress(r, a);
    }
  }

  /** The physical address of a virtual one: its page frame's, and the offset into the range. */
  lemma PhysicalAddress(r: Range, a: U64)
    ensures r.VirtToPhys(a) == if r.start <= a < r.end then (r.pfn * 4096 + (a - r.start)) % 0x1_0000_0000_0000_0000 else 0
  {
    AddMod(r.pfn * 4096, a - r.start);
  }

  // ----- when ranges are joined -----

  /** `r` begins where `l` ends, in address and in page frame, and has the same flags. */
  predicate Continues(l: Range, r: Range) {
    l.end == r.start && l.flags == r.flags && (l.pfn + (l.end - l.start) / 4096) % 0x1_0000_0000_0000_0000 == r.pfn
  }

  /** A new range that fits is joined with one that is there exactly if one continues the other; if not,
      there is one range more. */
  lemma JoinedIffContinues(rs: seq<Range>, r: Range)
    requires Disjoint(rs) && Proper(rs) && Accepts(rs, r) && Fits(rs, r)
    ensures |Added(rs, r)| == |rs| <==> exists x :: x in rs && (Continues(x, r) || Continues(r, x))
    ensures |Added(rs, r)| == |rs| || Added(rs, r) == Inserted(rs, Place(rs, r.start), r)
  {
    hide Disjoint;
    var k := Place(rs, r.start);
    var s := Inserted(rs, k, r);
    DisjointIffFits(rs, r);
    JoinsIff(rs, k, r);
    hide Place, Disjoint, Continues;
    if x :| x in rs && (Continues(x, r) || Continues(r, x)) {
      var i :| 0 <= i < |rs| && rs[i] == x;
      Neighbour(rs, k, r, i);
    }
  }

  lemma JoinsIff(rs: seq<Range>, k: nat, r: Range)
    requires k <= |rs| && Proper(rs) && r.start < r.end
    ensures Joins(Inserted(rs, k, r), k) <==> (k > 0 && Continues(rs[k - 1], r)) || (k < |rs| && Continues(r, rs[k]))
  {
    var s := Inserted(rs, k, r);
    if k > 0 {
      assert s[k - 1] == rs[k - 1];
      MergeIsContinues(rs[k - 1], r);
    }
    if k < |rs| {
      assert s[k + 1] == rs[k];
      MergeIsContinues(r, rs[k]);
    }
  }

  lemma MergeIsContinues(l: Range, r: Range)
    requires l.start < l.end
    ensures l.CanMergeWith(r) <==> Continues(l, r)
  {
  }

  lemma Neighbour(rs: seq<Range>, k: nat, r: Range, i: nat)
    requires k <= |rs| && i < |rs| && Disjoint(Inserted(rs, k, r)) && Proper(rs) && r.start < r.end
    ensures Continues(rs[i], r) ==> i == k - 1
    ensures Continues(r, rs[i]) ==> i == k
  {
    hide Disjoint;
    NextTo(rs, k, r, i);
  }

  /** The range before the new one comes first: if that one is continued it grows and the next one stays;
      else the new range takes in the next one, if that continues it. */
  lemma JoinsBeforeFirst(rs: seq<Range>, r: Range, x: Range)
    requires Disjoint(rs) && Proper(rs) && Accepts(rs, r) && Fits(rs, r) && x in rs
    ensures Continues(x, r) ==>
      Range(x.start, r.end, x.pfn, x.flags) in Added(rs, r) && forall y :: y in rs && y != x ==> y in Added(rs, r)
    ensures Continues(r, x) && (forall y :: y in rs ==> !Continues(y, r)) ==>
      Range(r.start, x.end, r.pfn, r.flags) in Added(rs, r) && forall y :: y in rs && y != x ==> y in Added(rs, r)
  {
    hide Joined, Inserted, Disjoint, Continues;
    var k := Place(rs, r.start);
    var i :| 0 <= i < |rs| && rs[i] == x;
    DisjointIffFits(rs, r);
    Neighbour(rs, k, r, i);
    MergedIs(rs, k, r);
    InsertedAt(rs, k, r, k);
    hide Proper, Accepts, Fits, Merged, Place;
    if Continues(x, r) {
      InsertedAt(rs, k, r, k - 1);
      JoinedHas(rs, k, r, k - 1);
    } else if Continues(r, x) && (forall y :: y in rs ==> !Continues(y, r)) {
      assert k > 0 ==> rs[k - 1] in rs;
      InsertedAt(rs, k, r, k + 1);
      JoinedHas(rs, k, r, k);
    }
  }

  lemma MergedIs(rs: seq<Range>, k: nat, r: Range)
    requires k <= |rs| && Proper(rs) && r.start < r.end
    ensures var s := Inserted(rs, k, r);
      Merged(s, k) == if k > 0 && Continues(rs[k - 1], r) then Joined(s, k - 1)
                      else if k < |rs| && Continues(r, rs[k]) then Joined(s, k) else s
  {
    hide Joined, Continues;
    var s := Inserted(rs, k, r);
    if k > 0 {
      MergeIsContinues(rs[k - 1], r);
      assert s[k - 1] == rs[k - 1];
    }
    if k < |rs| {
      MergeIsContinues(r, rs[k]);
      assert s[k + 1] == rs[k];
    }
  }

  /** What is in the list after joining the new range, at place `k`, with the one before or behind it. */
  lemma JoinedHas(rs: seq<Range>, k: nat, r: Range, j: nat)
    requires k <= |rs| && (j + 1 == k || (j == k && k < |rs|))
    ensures var s := Inserted(rs, k, r); var t := Joined(s, j);
      s[j].(end := s[j + 1].end) in t && forall i :: 0 <= i < |rs| && i != (if j == k then k else k - 1) ==> rs[i] in t
  {
    var s := Inserted(rs, k, r);
    var t := Joined(s, j);
    assert t[j] == s[j].(end := s[j + 1].end);
    forall i | 0 <= i < |rs| && i != (if j == k then k else k - 1) ensures rs[i] in t {
      var m := if i < k then i else i + 1;
      assert s[m] == rs[i];
      assert t[if m < j then m else m - 1] == s[m];
    }
  }

  /** Among disjoint ranges those that touch are neighbours. */
  lemma NextTo(rs: seq<Range>, k: nat, r: Range, i: nat)
    requires k <= |rs| && i < |rs| && Disjoint(Inserted(rs, k, r)) && Proper(rs) && r.start < r.end
    ensures rs[i].end == r.start ==> i == k - 1
    ensures r.end == rs[i].start ==> i == k
  {
    var s := Inserted(rs, k, r);
    var j := if i < k then i else i + 1;
    assert s[j] == rs[i] && s[k] == r;
    if i < k - 1 {
      assert s[k - 1] == rs[k - 1] && s[j].end <= s[k - 1].start;
    } else if i > k {
      assert s[k + 1] == rs[k] && s[k + 1].end <= s[j].start;
    }
  }

  // ----- whole runs -----

  function AddAll(rs: seq<Range>, news: seq<Range>): seq<Range>
    decreases |news|
  {
    if news == [] then rs else AddAll(Added(rs, news[0]), news[1..])
  }

  /** Each range is taken, and fits, when its turn comes. */
  predicate AllTaken(rs: seq<Range>, news: seq<Range>)
    decreases |news|
  {
    news == [] || (Accepts(rs, news[0]) && Fits(rs, news[0]) && AllTaken(Added(rs, news[0]), news[1..]))
  }

  /** A range that fits has no address that is mapped already. */
  lemma NewAddresses(rs: seq<Range>, r: Range, a: U64)
    requires Disjoint(rs) && Proper(rs) && Accepts(rs, r) && Fits(rs, r) && r.Contains(a)
    ensures Translate(rs, a) == None
  {
    hide Disjoint;
    var k := Place(rs, r.start);
    var s := Inserted(rs, k, r);
    DisjointIffFits(rs, r);
    assert s[k] == r;
    OnlyOne(s, a, k);
    var j := Scan(rs, a);
    if j < |rs| {
      InsertedAt(rs, k, r, if j < k then j else j + 1);
      OnlyOne(s, a, if j < k then j else j + 1);
    }
  }

  lemma {:induction false} MappedStaysMapped(rs: seq<Range>, news: seq<Range>, a: U64)
    requires Disjoint(rs) && Proper(rs) && AllTaken(rs, news) && PageAligned(rs) && PageAligned(news) && Translate(rs, a).Some?
    ensures Translate(news, a) == None
    decreases |news|
  {
    if news != [] {
      var r, rest := news[0], news[1..];
      AlignedParts(rs, news);
      AddedTranslation(rs, r, a);
      if r.Contains(a) {
        NewAddresses(rs, r, a);
      }
      MappedStaysMapped(Added(rs, r), rest, a);
      TranslateHead(r, rest, a);
      assert news == [r] + rest;
    }
  }

  lemma TranslateHead(r: Range, rest: seq<Range>, a: U64)
    ensures Translate([r] + rest, a) == if r.Contains(a) then Some(r.MapOf(a)) else Translate(rest, a)
  {
    TranslateOne(r, a);
    ScanAppend([r], rest, a);
  }

  lemma AlignedParts(rs: seq<Range>, news: seq<Range>)
    requires PageAligned(rs) && PageAligned(news) && news != []
    ensures PageAligned(rs + [news[0]]) && PageAligned(news[1..])
  {
  }

  /** Over a run of additions every address is translated by the one range that brought it in, as if
      that range stood alone, however the ranges were merged on the way. */
  lemma {:induction false} RunTranslation(rs: seq<Range>, news: seq<Range>, a: U64)
    requires Disjoint(rs) && Proper(rs) && PageAligned(rs) && PageAligned(news) && AllTaken(rs, news)
    ensures Translate(AddAll(rs, news), a) == if Translate(news, a).Some? then Translate(news, a) else Translate(rs, a)
    decreases |news|
  {
    if news != [] {
      var r, rest := news[0], news[1..];
      AlignedParts(rs, news);
      AddedTranslation(rs, r, a);
      RunTranslation(Added(rs, r), rest, a);
      if r.Contains(a) {
        MappedStaysMapped(Added(rs, r), rest, a);
      }
      TranslateHead(r, rest, a);
      assert news == [r] + rest;
    }
  }

  /** Without whole pages a merge does change translations: a left range of half a page. */
  lemma UnalignedMergeMovesAddresses()
    ensures exists l: Range, r: Range, a: U64 ::
      l.CanMergeWith(r) && r.Contains(a) && l.(end := r.end).VirtToPhys(a) != r.VirtToPhys(a)
  {
    var l, r := Range(0, 2048, 7, 0), Range(2048, 4096, 7, 0);
    assert l.CanMergeWith(r) && r.Contains(2048) && l.(end := r.end).VirtToPhys(2048) != r.VirtToPhys(2048);
  }
}
