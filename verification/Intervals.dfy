/** The list of live intervals that the allocator works on, and the map it stands for. */
module Intervals {
  import opened Machine
  import opened Spans
  import opened Allocation

  datatype LiveInterval = LiveInterval(vreg: nat, start: nat, end: nat)

  ghost predicate Distinct(ivs: seq<LiveInterval>) {
    forall a, b :: 0 <= a < b < |ivs| ==> ivs[a].vreg != ivs[b].vreg
  }

  ghost predicate HasInterval(ivs: seq<LiveInterval>, r: nat) {
    exists k :: 0 <= k < |ivs| && ivs[k].vreg == r
  }

  /** `ivs` lists the spans of `sp`, one interval for each register. */
  ghost predicate Represents(ivs: seq<LiveInterval>, sp: map<nat, Span>) {
    && Distinct(ivs)
    && (forall k :: 0 <= k < |ivs| ==> ivs[k].vreg in sp && sp[ivs[k].vreg] == Span(ivs[k].start, ivs[k].end))
    && (forall r :: r in sp ==> HasInterval(ivs, r))
  }

  ghost predicate SortedByStart(ivs: seq<LiveInterval>) {
    forall a, b :: 0 <= a < b < |ivs| ==> ivs[a].start <= ivs[b].start
  }

  lemma RepresentsPush(ivs: seq<LiveInterval>, sp: map<nat, Span>, x: LiveInterval)
    requires Represents(ivs, sp) && x.vreg !in sp
    ensures Represents(ivs + [x], sp[x.vreg := Span(x.start, x.end)])
  {
    var ivs' := ivs + [x];
    forall r | r in sp[x.vreg := Span(x.start, x.end)] ensures HasInterval(ivs', r) {
      if r == x.vreg {
        assert ivs'[|ivs|].vreg == r;
      } else {
        var k :| 0 <= k < |ivs| && ivs[k].vreg == r;
        assert ivs'[k].vreg == r;
      }
    }
  }

  lemma RepresentsUpdate(ivs: seq<LiveInterval>, sp: map<nat, Span>, k: nat, x: LiveInterval)
    requires Represents(ivs, sp) && k < |ivs| && ivs[k].vreg == x.vreg
    ensures Represents(ivs[k := x], sp[x.vreg := Span(x.start, x.end)])
  {
    var ivs' := ivs[k := x];
    forall r | r in sp[x.vreg := Span(x.start, x.end)] ensures HasInterval(ivs', r) {
      var j :| 0 <= j < |ivs| && ivs[j].vreg == r;
      assert ivs'[j].vreg == r;
    }
  }

  /** Sorting by start, as the library sort promises it. */
  function Insert(ivs: seq<LiveInterval>, x: LiveInterval): seq<LiveInterval> {
    if ivs == [] || ivs[|ivs| - 1].start <= x.start then ivs + [x]
    else Insert(ivs[..|ivs| - 1], x) + [ivs[|ivs| - 1]]
  }

  function Sort(ivs: seq<LiveInterval>): seq<LiveInterval> {
    if ivs == [] then [] else Insert(Sort(ivs[..|ivs| - 1]), ivs[|ivs| - 1])
  }

  lemma {:induction false} InsertMembers(ivs: seq<LiveInterval>, x: LiveInterval)
    ensures multiset(Insert(ivs, x)) == multiset(ivs) + multiset{x}
  {
    if !(ivs == [] || ivs[|ivs| - 1].start <= x.start) {
      InsertMembers(ivs[..|ivs| - 1], x);
      assert ivs == ivs[..|ivs| - 1] + [ivs[|ivs| - 1]];
    }
  }

  lemma {:induction false} InsertSorts(ivs: seq<LiveInterval>, x: LiveInterval, max: nat)
    requires SortedByStart(ivs) && x.start <= max && forall a :: 0 <= a < |ivs| ==> ivs[a].start <= max
    ensures SortedByStart(Insert(ivs, x))
    ensures forall a :: 0 <= a < |Insert(ivs, x)| ==> Insert(ivs, x)[a].start <= max
  {
    if !(ivs == [] || ivs[|ivs| - 1].start <= x.start) {
      InsertSorts(ivs[..|ivs| - 1], x, ivs[|ivs| - 1].start);
    }
  }

  function MaxStart(ivs: seq<LiveInterval>): (m: nat)
    ensures forall a :: 0 <= a < |ivs| ==> ivs[a].start <= m
  {
    if ivs == [] then 0 else Max(MaxStart(ivs[..|ivs| - 1]), ivs[|ivs| - 1].start)
  }

  lemma {:induction false} SortSorts(ivs: seq<LiveInterval>)
    ensures SortedByStart(Sort(ivs)) && multiset(Sort(ivs)) == multiset(ivs)
  {
    hide Insert;
    if ivs != [] {
      SortSorts(ivs[..|ivs| - 1]);
      var front := Sort(ivs[..|ivs| - 1]);
      InsertSorts(front, ivs[|ivs| - 1], Max(MaxStart(front), ivs[|ivs| - 1].start));
      InsertMembers(front, ivs[|ivs| - 1]);
      assert ivs == ivs[..|ivs| - 1] + [ivs[|ivs| - 1]];
    }
  }

  /** Registers are distinct exactly when no register has two occurrences. */
  function CountOf(ivs: seq<LiveInterval>, r: nat): nat {
    if ivs == [] then 0 else CountOf(ivs[..|ivs| - 1], r) + (if ivs[|ivs| - 1].vreg == r then 1 else 0)
  }

  lemma {:induction false} CountOfInsert(ivs: seq<LiveInterval>, x: LiveInterval, r: nat)
    ensures CountOf(Insert(ivs, x), r) == CountOf(ivs, r) + (if x.vreg == r then 1 else 0)
  {
    if ivs == [] || ivs[|ivs| - 1].start <= x.start {
      assert (ivs + [x])[..|ivs|] == ivs;
    } else {
      var front := ivs[..|ivs| - 1];
      CountOfInsert(front, x, r);
      var c := Insert(front, x) + [ivs[|ivs| - 1]];
      assert c[..|c| - 1] == Insert(front, x);
    }
  }

  lemma {:induction false} CountOfSort(ivs: seq<LiveInterval>, r: nat)
    ensures CountOf(Sort(ivs), r) == CountOf(ivs, r)
  {
    if ivs != [] {
      CountOfSort(ivs[..|ivs| - 1], r);
      CountOfInsert(Sort(ivs[..|ivs| - 1]), ivs[|ivs| - 1], r);
    }
  }

  lemma {:induction false} CountOfTwo(ivs: seq<LiveInterval>, a: nat, b: nat)
    requires a < b < |ivs| && ivs[a].vreg == ivs[b].vreg
    ensures CountOf(ivs, ivs[a].vreg) >= 2
  {
    var front := ivs[..|ivs| - 1];
    if b < |front| {
      CountOfTwo(front, a, b);
    } else {
      CountOfOne(front, a);
    }
  }

  lemma {:induction false} CountOfOne(ivs: seq<LiveInterval>, a: nat)
    requires a < |ivs|
    ensures CountOf(ivs, ivs[a].vreg) >= 1
  {
    if a < |ivs| - 1 {
      CountOfOne(ivs[..|ivs| - 1], a);
    }
  }

  lemma {:induction false} DistinctCount(ivs: seq<LiveInterval>, r: nat)
    requires Distinct(ivs)
    ensures CountOf(ivs, r) <= 1 && (CountOf(ivs, r) == 1 ==> HasInterval(ivs, r))
  {
    if ivs != [] {
      var front := ivs[..|ivs| - 1];
      DistinctCount(front, r);
      if HasInterval(front, r) {
        var k :| 0 <= k < |front| && front[k].vreg == r;
        assert ivs[k].vreg == r;
      }
      if CountOf(ivs, r) == 1 && ivs[|ivs| - 1].vreg == r {
        assert HasInterval(ivs, r);
      }
    }
  }

  lemma SortRepresents(ivs: seq<LiveInterval>, sp: map<nat, Span>)
    requires Represents(ivs, sp)
    ensures Represents(Sort(ivs), sp) && SortedByStart(Sort(ivs))
  {
    hide Sort, SortedByStart;
    SortSorts(ivs);
    var s := Sort(ivs);
    forall a, b | 0 <= a < b < |s| ensures s[a].vreg != s[b].vreg {
      if s[a].vreg == s[b].vreg {
        CountOfTwo(s, a, b);
        CountOfSort(ivs, s[a].vreg);
        DistinctCount(ivs, s[a].vreg);
      }
    }
    forall k | 0 <= k < |s| ensures s[k].vreg in sp && sp[s[k].vreg] == Span(s[k].start, s[k].end) {
      assert s[k] in multiset(s);
      assert s[k] in ivs;
    }
    forall r | r in sp ensures HasInterval(s, r) {
      var k :| 0 <= k < |ivs| && ivs[k].vreg == r;
      assert ivs[k] in multiset(ivs);
      assert ivs[k] in s;
      var j :| 0 <= j < |s| && s[j] == ivs[k];
      assert s[j].vreg == r;
    }
  }

  // ----- what linear scan establishes -----

  /** The physical registers, in the order in which the allocator tries them. */
  function PhysicalRegs(): seq<Reg> { [Eax, Ebx, Ecx, Edx] }

  /** At the start of interval `b`, earlier intervals that are still live hold `reg`. */
  ghost predicate Held(ivs: seq<LiveInterval>, b: nat, p: Placement, reg: Reg)
    requires b < |ivs|
  {
    exists a :: 0 <= a < b && ivs[a].vreg in p.regs && p.regs[ivs[a].vreg] == reg && ivs[a].end >= ivs[b].start
  }

  /** Each of the first `n` intervals has exactly one home, and no one else has. */
  ghost predicate OneHome(ivs: seq<LiveInterval>, n: nat, p: Placement)
    requires n <= |ivs|
  {
    && (forall r :: r in p.regs || r in p.slots ==> HasInterval(ivs[..n], r))
    && (forall a :: 0 <= a < n ==> (ivs[a].vreg in p.regs <==> ivs[a].vreg !in p.slots))
  }

  /** Overlapping intervals do not share a register. */
  ghost predicate Unshared(ivs: seq<LiveInterval>, n: nat, p: Placement)
    requires n <= |ivs|
  {
    forall a, b :: 0 <= a < b < n && ivs[a].end >= ivs[b].start && ivs[a].vreg in p.regs && ivs[b].vreg in p.regs ==>
      p.regs[ivs[a].vreg] != p.regs[ivs[b].vreg]
  }

  /** Slots are pairwise different words of the frame. */
  ghost predicate SlotsOk(p: Placement, slotBytes: nat) {
    && (forall r :: r in p.slots ==> p.slots[r] % 4 == 0 && p.slots[r] < slotBytes)
    && (forall r, q :: r in p.slots && q in p.slots && r != q ==> p.slots[r] != p.slots[q])
    && slotBytes == 4 * |p.slots|
  }

  /** An interval is spilled only where earlier live intervals hold all physical registers. */
  ghost predicate SpilledOnlyIfFull(ivs: seq<LiveInterval>, n: nat, p: Placement)
    requires n <= |ivs|
  {
    forall b, reg :: 0 <= b < n && ivs[b].vreg in p.slots ==> Held(ivs, b, p, reg)
  }

  /** What linear scan has established after `n` intervals. */
  ghost predicate Allocated(ivs: seq<LiveInterval>, n: nat, p: Placement, slotBytes: nat)
    requires n <= |ivs|
  {
    OneHome(ivs, n, p) && Unshared(ivs, n, p) && SlotsOk(p, slotBytes) && SpilledOnlyIfFull(ivs, n, p)
  }

  lemma NothingAllocated(ivs: seq<LiveInterval>)
    ensures Allocated(ivs, 0, Placement(map[], map[]), 0)
  {
  }

  lemma EveryoneHasAHome(ivs: seq<LiveInterval>, sp: map<nat, Span>, p: Placement)
    requires Represents(ivs, sp) && OneHome(ivs, |ivs|, p)
    ensures forall r :: r in sp ==> (r in p.regs <==> r !in p.slots)
    ensures forall r :: r in p.regs || r in p.slots ==> r in sp
  {
    assert ivs[..|ivs|] == ivs;
    forall r | r in sp ensures r in p.regs <==> r !in p.slots {
      var k :| 0 <= k < |ivs| && ivs[k].vreg == r;
    }
    forall r | r in p.regs || r in p.slots ensures r in sp {
      var k :| 0 <= k < |ivs| && ivs[k].vreg == r;
    }
  }

  /** An allocation of all intervals is a sound placement. */
  lemma AllocatedIsSound(ivs: seq<LiveInterval>, sp: map<nat, Span>, p: Placement, slotBytes: nat)
    requires Represents(ivs, sp) && SortedByStart(ivs) && Allocated(ivs, |ivs|, p, slotBytes)
    ensures Sound(p, sp)
    ensures p.regs.Keys + p.slots.Keys == sp.Keys
  {
    hide Represents, SortedByStart, OneHome, Unshared, SlotsOk, SpilledOnlyIfFull, Overlap, Place;
    EveryoneHasAHome(ivs, sp, p);
    forall r, q | r in sp && q in sp && r != q && Overlap(sp[r], sp[q]) ensures Place(p, r) != Place(p, q) {
      HomesDiffer(ivs, sp, p, slotBytes, r, q);
    }
  }

  lemma HomesDiffer(ivs: seq<LiveInterval>, sp: map<nat, Span>, p: Placement, slotBytes: nat, r: nat, q: nat)
    requires Represents(ivs, sp) && SortedByStart(ivs) && Allocated(ivs, |ivs|, p, slotBytes)
    requires r in sp && q in sp && r != q && Overlap(sp[r], sp[q])
    ensures Place(p, r) != Place(p, q)
  {
    hide SortedByStart;
    assert HasInterval(ivs, r) && HasInterval(ivs, q);
    var i :| 0 <= i < |ivs| && ivs[i].vreg == r;
    var j :| 0 <= j < |ivs| && ivs[j].vreg == q;
    if r in p.regs && q in p.regs {
      SharedOnlyApart(ivs, p, slotBytes, if i < j then i else j, if i < j then j else i);
    }
  }

  lemma SharedOnlyApart(ivs: seq<LiveInterval>, p: Placement, slotBytes: nat, a: nat, b: nat)
    requires Allocated(ivs, |ivs|, p, slotBytes) && a < b < |ivs| && ivs[a].end >= ivs[b].start
    requires ivs[a].vreg in p.regs && ivs[b].vreg in p.regs
    ensures p.regs[ivs[a].vreg] != p.regs[ivs[b].vreg]
  {
  }

  /** Fewer than four live registers leave a physical one free. */
  lemma FreeRegisterExists(active: set<nat>, regs: map<nat, Reg>)
    requires active <= regs.Keys && |active| < 4
    ensures exists k :: 0 <= k < 4 && forall r :: r in active ==> regs[r] != PhysicalRegs()[k]
  {
    var used := set r | r in active :: regs[r];
    UsedAtMost(active, regs);
    var all := {Eax, Ebx, Ecx, Edx};
    assert |all| == 4;
    if forall k :: 0 <= k < 4 ==> PhysicalRegs()[k] in used {
      assert PhysicalRegs()[0] in used && PhysicalRegs()[1] in used && PhysicalRegs()[2] in used && PhysicalRegs()[3] in used;
      assert all <= used;
      SubsetCardinality(all, used);
    } else {
      var k :| 0 <= k < 4 && PhysicalRegs()[k] !in used;
    }
  }

  lemma {:induction false} UsedAtMost(active: set<nat>, regs: map<nat, Reg>)
    requires active <= regs.Keys
    ensures |set r | r in active :: regs[r]| <= |active|
    decreases |active|
  {
    if active != {} {
      var x :| x in active;
      var rest := active - {x};
      UsedAtMost(rest, regs);
      assert (set r | r in active :: regs[r]) == (set r | r in rest :: regs[r]) + {regs[x]};
    }
  }

  lemma {:induction false} SubsetCardinality<T>(a: set<T>, b: set<T>)
    requires a <= b
    ensures |a| <= |b|
    decreases |a|
  {
    if a != {} {
      var x :| x in a;
      SubsetCardinality(a - {x}, b - {x});
    }
  }

  /** Four live registers with different homes hold all physical ones. */
  lemma {:induction false} AllRegistersHeld(active: set<nat>, regs: map<nat, Reg>, reg: Reg)
    requires active <= regs.Keys && |active| >= 4
    requires forall r, q :: r in active && q in active && r != q ==> regs[r] != regs[q]
    ensures exists r :: r in active && regs[r] == reg
  {
    var others := {Eax, Ebx, Ecx, Edx} - {reg};
    assert reg in {Eax, Ebx, Ecx, Edx};
    assert |others| == 3;
    if forall r :: r in active ==> regs[r] != reg {
      var used := set r | r in active :: regs[r];
      DistinctHomes(active, regs);
      SubsetCardinality(used, others);
    }
  }

  lemma {:induction false} DistinctHomes(active: set<nat>, regs: map<nat, Reg>)
    requires active <= regs.Keys
    requires forall r, q :: r in active && q in active && r != q ==> regs[r] != regs[q]
    ensures |set r | r in active :: regs[r]| == |active|
    decreases |active|
  {
    if active != {} {
      var x :| x in active;
      var rest := active - {x};
      DistinctHomes(rest, regs);
      assert (set r | r in active :: regs[r]) == (set r | r in rest :: regs[r]) + {regs[x]};
    }
  }

  // ----- one step of linear scan -----

  /** `active` holds the registers of those of the first `n` intervals that do not end before
      `start` and have a physical home; the homes differ. */
  ghost predicate ActiveOk(ivs: seq<LiveInterval>, regs: map<nat, Reg>, active: set<nat>, n: nat, start: nat)
    requires n <= |ivs|
  {
    && active <= regs.Keys
    && (forall a :: 0 <= a < n && ivs[a].vreg in regs && ivs[a].end >= start ==> ivs[a].vreg in active)
    && (forall r :: r in active ==> LateInterval(ivs, n, r, start))
    && (forall r, q :: r in active && q in active && r != q ==> regs[r] != regs[q])
  }

  ghost predicate LateInterval(ivs: seq<LiveInterval>, n: nat, r: nat, start: nat)
    requires n <= |ivs|
  {
    exists a :: 0 <= a < n && ivs[a].vreg == r && ivs[a].end >= start
  }

  /** Dropping the registers whose intervals have ended. */
  lemma ExpireKeepsActive(ivs: seq<LiveInterval>, sp: map<nat, Span>, regs: map<nat, Reg>, active: set<nat>, n: nat, before: nat, start: nat, left: set<nat>)
    requires Represents(ivs, sp) && n <= |ivs| && before <= start
    requires ActiveOk(ivs, regs, active, n, before)
    requires left <= active && forall r :: r in active ==> r in sp && (r in left <==> sp[r].end >= start)
    ensures ActiveOk(ivs, regs, left, n, start)
  {
    forall r | r in left ensures LateInterval(ivs, n, r, start) {
      assert LateInterval(ivs, n, r, before);
      var a :| 0 <= a < n && ivs[a].vreg == r && ivs[a].end >= before;
      assert sp[r] == Span(ivs[a].start, ivs[a].end);
    }
  }

  lemma NextIsNew(ivs: seq<LiveInterval>, n: nat, p: Placement, bytes: nat)
    requires Distinct(ivs) && n < |ivs| && Allocated(ivs, n, p, bytes)
    ensures ivs[n].vreg !in p.regs && ivs[n].vreg !in p.slots
  {
    forall k | 0 <= k < |ivs[..n]| ensures ivs[..n][k].vreg != ivs[n].vreg {
      assert ivs[..n][k] == ivs[k];
    }
  }

  lemma MoreIntervals(ivs: seq<LiveInterval>, n: nat, r: nat)
    requires n < |ivs| && (HasInterval(ivs[..n], r) || r == ivs[n].vreg)
    ensures HasInterval(ivs[..n + 1], r)
  {
    if HasInterval(ivs[..n], r) {
      var k :| 0 <= k < |ivs[..n]| && ivs[..n][k].vreg == r;
      assert ivs[..n + 1][k].vreg == r;
    } else {
      assert ivs[..n + 1][n].vreg == r;
    }
  }

  lemma HeldStays(ivs: seq<LiveInterval>, b: nat, p: Placement, q: Placement, reg: Reg)
    requires b < |ivs| && Held(ivs, b, p, reg)
    requires forall r :: r in p.regs ==> r in q.regs && q.regs[r] == p.regs[r]
    ensures Held(ivs, b, q, reg)
  {
    var a :| 0 <= a < b && ivs[a].vreg in p.regs && p.regs[ivs[a].vreg] == reg && ivs[a].end >= ivs[b].start;
    assert ivs[a].vreg in q.regs;
  }

  /** A new home for interval `n`'s register, and nothing else. */
  ghost predicate Extends(ivs: seq<LiveInterval>, n: nat, p: Placement, q: Placement)
    requires n < |ivs|
  {
    var x := ivs[n].vreg;
    && x !in p.regs && x !in p.slots && (x in q.regs <==> x !in q.slots)
    && (forall r :: r != x ==> (r in q.regs <==> r in p.regs) && (r in q.slots <==> r in p.slots))
    && (forall r :: r in p.regs ==> q.regs[r] == p.regs[r])
    && (forall r :: r in p.slots ==> q.slots[r] == p.slots[r])
  }

  lemma ExtendsOneHome(ivs: seq<LiveInterval>, n: nat, p: Placement, q: Placement)
    requires n < |ivs| && Distinct(ivs) && OneHome(ivs, n, p) && Extends(ivs, n, p, q)
    ensures OneHome(ivs, n + 1, q)
  {
    forall r | r in q.regs || r in q.slots ensures HasInterval(ivs[..n + 1], r) {
      MoreIntervals(ivs, n, r);
    }
    forall a | 0 <= a < n + 1 ensures ivs[a].vreg in q.regs <==> ivs[a].vreg !in q.slots {
      assert a < n ==> ivs[a].vreg != ivs[n].vreg;
    }
  }

  lemma ExtendsSpills(ivs: seq<LiveInterval>, n: nat, p: Placement, q: Placement)
    requires n < |ivs| && Distinct(ivs) && SpilledOnlyIfFull(ivs, n, p) && Extends(ivs, n, p, q)
    requires ivs[n].vreg in q.slots ==> forall reg :: Held(ivs, n, q, reg)
    ensures SpilledOnlyIfFull(ivs, n + 1, q)
  {
    forall b, reg | 0 <= b < n + 1 && ivs[b].vreg in q.slots ensures Held(ivs, b, q, reg) {
      if b < n {
        assert ivs[b].vreg != ivs[n].vreg;
        HeldStays(ivs, b, p, q, reg);
      }
    }
  }

  lemma ExtendsUnshared(ivs: seq<LiveInterval>, n: nat, p: Placement, q: Placement, active: set<nat>)
    requires n < |ivs| && Distinct(ivs) && Unshared(ivs, n, p) && Extends(ivs, n, p, q)
    requires ActiveOk(ivs, p.regs, active, n, ivs[n].start)
    requires ivs[n].vreg in q.regs ==> forall r :: r in active ==> p.regs[r] != q.regs[ivs[n].vreg]
    ensures Unshared(ivs, n + 1, q)
  {
    forall a, b | 0 <= a < b < n + 1 && ivs[a].end >= ivs[b].start && ivs[a].vreg in q.regs && ivs[b].vreg in q.regs
      ensures q.regs[ivs[a].vreg] != q.regs[ivs[b].vreg]
    {
      assert ivs[a].vreg != ivs[n].vreg;
      assert b < n ==> ivs[b].vreg != ivs[n].vreg;
    }
  }

  /** Giving interval `n` a register that no active register holds. */
  lemma GiveRegister(ivs: seq<LiveInterval>, n: nat, p: Placement, bytes: nat, active: set<nat>, preg: Reg)
    requires Distinct(ivs) && n < |ivs| && Allocated(ivs, n, p, bytes)
    requires ActiveOk(ivs, p.regs, active, n, ivs[n].start) && forall r :: r in active ==> p.regs[r] != preg
    ensures Allocated(ivs, n + 1, p.(regs := p.regs[ivs[n].vreg := preg]), bytes)
  {
    NextIsNew(ivs, n, p, bytes);
    var q := p.(regs := p.regs[ivs[n].vreg := preg]);
    ExtendsOneHome(ivs, n, p, q);
    ExtendsUnshared(ivs, n, p, q, active);
    ExtendsSpills(ivs, n, p, q);
  }

  lemma RegisterIsActive(ivs: seq<LiveInterval>, n: nat, regs: map<nat, Reg>, active: set<nat>, preg: Reg)
    requires Distinct(ivs) && n < |ivs| && ivs[n].vreg !in regs && ivs[n].start <= ivs[n].end
    requires ActiveOk(ivs, regs, active, n, ivs[n].start) && forall r :: r in active ==> regs[r] != preg
    ensures ActiveOk(ivs, regs[ivs[n].vreg := preg], active + {ivs[n].vreg}, n + 1, ivs[n].start)
  {
    forall r | r in active + {ivs[n].vreg} ensures LateInterval(ivs, n + 1, r, ivs[n].start) {
      if r in active {
        assert LateInterval(ivs, n, r, ivs[n].start);
      }
    }
  }

  lemma SpilledIsNotActive(ivs: seq<LiveInterval>, n: nat, regs: map<nat, Reg>, active: set<nat>)
    requires n < |ivs| && ivs[n].vreg !in regs && ActiveOk(ivs, regs, active, n, ivs[n].start)
    ensures ActiveOk(ivs, regs, active, n + 1, ivs[n].start)
  {
    forall r | r in active ensures LateInterval(ivs, n + 1, r, ivs[n].start) {
      assert LateInterval(ivs, n, r, ivs[n].start);
    }
  }

  /** Giving interval `n` a slot when four registers are active. */
  lemma GiveSlot(ivs: seq<LiveInterval>, n: nat, p: Placement, bytes: nat, active: set<nat>)
    requires Distinct(ivs) && n < |ivs| && Allocated(ivs, n, p, bytes)
    requires ActiveOk(ivs, p.regs, active, n, ivs[n].start) && |active| >= 4
    ensures Allocated(ivs, n + 1, p.(slots := p.slots[ivs[n].vreg := bytes]), bytes + 4)
  {
    NextIsNew(ivs, n, p, bytes);
    var q := p.(slots := p.slots[ivs[n].vreg := bytes]);
    ExtendsOneHome(ivs, n, p, q);
    ExtendsUnshared(ivs, n, p, q, active);
    SlotHolders(ivs, n, p, q, active);
    ExtendsSpills(ivs, n, p, q);
    NewSlotOk(p, ivs[n].vreg, bytes);
  }

  lemma SlotHolders(ivs: seq<LiveInterval>, n: nat, p: Placement, q: Placement, active: set<nat>)
    requires n < |ivs| && ActiveOk(ivs, p.regs, active, n, ivs[n].start) && |active| >= 4 && q.regs == p.regs
    ensures forall reg :: Held(ivs, n, q, reg)
  {
    forall reg ensures Held(ivs, n, q, reg) {
      AllHeldAt(ivs, n, p, active, reg);
      HeldStays(ivs, n, p, q, reg);
    }
  }

  lemma NewSlotOk(p: Placement, x: nat, bytes: nat)
    requires SlotsOk(p, bytes) && x !in p.slots
    ensures SlotsOk(p.(slots := p.slots[x := bytes]), bytes + 4)
  {
    SlotsCount(p, x, bytes);
  }

  lemma SlotsCount(p: Placement, x: nat, bytes: nat)
    requires x !in p.slots && bytes == 4 * |p.slots|
    ensures bytes + 4 == 4 * |p.slots[x := bytes]|
  {
    assert p.slots[x := bytes].Keys == p.slots.Keys + {x};
  }

  lemma AllHeldAt(ivs: seq<LiveInterval>, n: nat, p: Placement, active: set<nat>, reg: Reg)
    requires n < |ivs| && ActiveOk(ivs, p.regs, active, n, ivs[n].start) && |active| >= 4
    ensures Held(ivs, n, p, reg)
  {
    AllRegistersHeld(active, p.regs, reg);
    var r :| r in active && p.regs[r] == reg;
    assert LateInterval(ivs, n, r, ivs[n].start);
  }
}
