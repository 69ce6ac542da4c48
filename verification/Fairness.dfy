/** Fair scheduling as a run of choices: always the task with the least virtual runtime. */
module Fairness {

  const MAX_VRUNTIME := 0x7FFF_FFFF_FFFF_FFFF
  const DEFAULT_WEIGHT := 1024
  /** What a time slice of ten milliseconds adds at the default weight. */
  const SLICE := 1000

  type Weight = w: int | w in {512, 820, 1024, 1280, 2048} witness 1024

  /** A slice at a weight: inversely proportional, rounded down. */
  function SliceAt(w: Weight): (d: nat)
    ensures d * w <= SLICE * DEFAULT_WEIGHT < (d + 1) * w && 500 <= d <= 2000
  {
    SLICE * DEFAULT_WEIGHT / w
  }

  datatype Task = Task(vmId: nat, vruntime: nat, weight: Weight) {
    /** What one slice adds to the virtual runtime. */
    function Slice(): (d: nat)
      ensures 500 <= d <= 2000
    {
      SliceAt(weight)
    }

    /** The task after one slice; its virtual runtime stops at the largest signed 64-bit value. */
    function Ran(): (t: Task)
      ensures t.vmId == vmId && t.weight == weight
      ensures vruntime <= MAX_VRUNTIME ==> vruntime <= t.vruntime <= MAX_VRUNTIME
    {
      this.(vruntime := if vruntime + Slice() > MAX_VRUNTIME then MAX_VRUNTIME else vruntime + Slice())
    }

    /** The order of the run queue. */
    predicate Before(other: Task) {
      if vruntime != other.vruntime then vruntime < other.vruntime else vmId < other.vmId
    }
  }

  /** A fixed set of tasks, in no particular order. */
  ghost predicate Distinct(ts: seq<Task>) {
    forall i, j :: 0 <= i < j < |ts| ==> ts[i].vmId != ts[j].vmId
  }

  /** Task `k` is the first of all. */
  ghost predicate First(ts: seq<Task>, k: nat) {
    k < |ts| && forall i :: 0 <= i < |ts| && i != k ==> ts[k].Before(ts[i])
  }

  /** A run: the tasks chosen, each the first when its turn came. */
  ghost predicate Run(ts: seq<Task>, picks: seq<nat>, end: seq<Task>)
    decreases |picks|
  {
    if picks == [] then end == ts
    else First(ts, picks[0]) && Run(ts[picks[0] := ts[picks[0]].Ran()], picks[1..], end)
  }

  /** At most one task is the first. */
  lemma OneFirst(ts: seq<Task>, j: nat, k: nat)
    requires First(ts, j) && First(ts, k)
    ensures j == k
  {
    assert ts[k].Before(ts[j]) || j == k;
  }

  lemma {:induction false} RunThenStep(ts: seq<Task>, picks: seq<nat>, now: seq<Task>, k: nat)
    requires Run(ts, picks, now) && First(now, k)
    ensures Run(ts, picks + [k], now[k := now[k].Ran()])
    decreases |picks|
  {
    if picks == [] {
      assert Run(now[k := now[k].Ran()], [k][1..], now[k := now[k].Ran()]);
    } else {
      assert (picks + [k])[1..] == picks[1..] + [k];
      RunThenStep(ts[picks[0] := ts[picks[0]].Ran()], picks[1..], now, k);
    }
  }

  // ----- no task runs ahead -----

  /** No task is ahead of another by more than one slice of its own. */
  ghost predicate Close(ts: seq<Task>) {
    forall i, j :: 0 <= i < |ts| && 0 <= j < |ts| ==> ts[i].vruntime <= ts[j].vruntime + ts[i].Slice()
  }

  ghost predicate InRange(ts: seq<Task>) {
    forall i :: 0 <= i < |ts| ==> ts[i].vruntime <= MAX_VRUNTIME
  }

  lemma StepClose(ts: seq<Task>, k: nat)
    requires Close(ts) && InRange(ts) && First(ts, k)
    ensures Close(ts[k := ts[k].Ran()]) && InRange(ts[k := ts[k].Ran()])
  {
    var us := ts[k := ts[k].Ran()];
    forall i, j | 0 <= i < |us| && 0 <= j < |us| ensures us[i].vruntime <= us[j].vruntime + us[i].Slice() {
      assert ts[i].vruntime <= ts[j].vruntime + ts[i].Slice();
      assert j != k ==> ts[k].Before(ts[j]);
    }
  }

  lemma {:induction false} RunClose(ts: seq<Task>, picks: seq<nat>, end: seq<Task>)
    requires Close(ts) && InRange(ts) && Run(ts, picks, end)
    ensures Close(end) && InRange(end)
    decreases |picks|
  {
    if picks != [] {
      StepClose(ts, picks[0]);
      RunClose(ts[picks[0] := ts[picks[0]].Ran()], picks[1..], end);
    }
  }

  ghost predicate AtZero(ts: seq<Task>) {
    forall i :: 0 <= i < |ts| ==> ts[i].vruntime == 0
  }

  /** In every state that can be reached from tasks that have not run, the virtual runtimes are no
      further apart than the largest slice. */
  lemma Spread(ts: seq<Task>, picks: seq<nat>, end: seq<Task>, largest: nat)
    requires AtZero(ts) && Run(ts, picks, end) && forall i :: 0 <= i < |end| ==> end[i].Slice() <= largest
    ensures forall i, j :: 0 <= i < |end| && 0 <= j < |end| ==> end[i].vruntime - end[j].vruntime <= largest
  {
    RunClose(ts, picks, end);
    forall i, j | 0 <= i < |end| && 0 <= j < |end| ensures end[i].vruntime - end[j].vruntime <= largest {
      assert end[i].vruntime <= end[j].vruntime + end[i].Slice();
    }
  }

  // ----- turns -----

  function Turns(picks: seq<nat>, k: nat): nat {
    if picks == [] then 0 else (if picks[0] == k then 1 else 0) + Turns(picks[1..], k)
  }

  /** Nobody has run to the end of the scale. */
  ghost predicate Unsaturated(ts: seq<Task>) {
    forall i :: 0 <= i < |ts| ==> ts[i].vruntime < MAX_VRUNTIME
  }

  lemma {:induction false} RunGrows(ts: seq<Task>, picks: seq<nat>, end: seq<Task>)
    requires InRange(ts) && Run(ts, picks, end)
    ensures |end| == |ts| && InRange(end)
    ensures forall i :: 0 <= i < |ts| ==> ts[i].vruntime <= end[i].vruntime && end[i].weight == ts[i].weight && end[i].vmId == ts[i].vmId
    decreases |picks|
  {
    if picks != [] {
      RunGrows(ts[picks[0] := ts[picks[0]].Ran()], picks[1..], end);
    }
  }

  /** Below the end of the scale, virtual runtime counts turns. */
  lemma {:induction false} RuntimeCountsTurns(ts: seq<Task>, picks: seq<nat>, end: seq<Task>, k: nat)
    requires Run(ts, picks, end) && InRange(ts) && Unsaturated(end) && k < |ts|
    ensures |end| == |ts| && end[k].vruntime == ts[k].vruntime + Turns(picks, k) * ts[k].Slice()
    decreases |picks|
  {
    if picks != [] {
      var us := ts[picks[0] := ts[picks[0]].Ran()];
      RunGrows(us, picks[1..], end);
      RuntimeCountsTurns(us, picks[1..], end, k);
      if picks[0] == k {
        assert us[k].vruntime <= end[k].vruntime < MAX_VRUNTIME;
        OneTurnMore(Turns(picks[1..], k), ts[k].Slice());
      }
    }
  }

  lemma OneTurnMore(n: nat, d: nat)
    ensures (1 + n) * d == d + n * d
  {
  }

  /** So turns are shared by weight: turns times slices differ by no more than the largest slice. */
  lemma FairShares(ts: seq<Task>, picks: seq<nat>, end: seq<Task>, i: nat, j: nat, largest: nat)
    requires AtZero(ts) && Run(ts, picks, end) && Unsaturated(end) && i < |ts| && j < |ts|
    requires forall k :: 0 <= k < |ts| ==> ts[k].Slice() <= largest
    ensures Turns(picks, i) * ts[i].Slice() - Turns(picks, j) * ts[j].Slice() <= largest
  {
    RunGrows(ts, picks, end);
    Spread(ts, picks, end, largest);
    RuntimeCountsTurns(ts, picks, end, i);
    RuntimeCountsTurns(ts, picks, end, j);
  }

  // ----- nobody waits for ever -----

  /** How often task `p` can still be chosen before task `v`. */
  function Ahead(p: Task, v: Task): nat {
    if p.vruntime <= v.vruntime then (v.vruntime - p.vruntime) / 500 + 1 else 0
  }

  /** The same for all of the tasks but `v`, from number `i` on. */
  function AllAhead(ts: seq<Task>, v: nat, i: nat): nat
    requires v < |ts| && i <= |ts|
    decreases |ts| - i
  {
    if i == |ts| then 0 else (if i == v then 0 else Ahead(ts[i], ts[v])) + AllAhead(ts, v, i + 1)
  }

  lemma AheadShrinks(p: Task, v: Task)
    requires p.Before(v) && v.vruntime < MAX_VRUNTIME
    ensures Ahead(p.Ran(), v) < Ahead(p, v)
  {
    assert p.Ran().vruntime >= p.vruntime + 500 || p.Ran().vruntime == MAX_VRUNTIME;
  }

  lemma {:induction false} AllAheadShrinks(ts: seq<Task>, v: nat, k: nat, i: nat)
    requires v < |ts| && First(ts, k) && k != v && i <= |ts| && ts[v].vruntime < MAX_VRUNTIME
    ensures var us := ts[k := ts[k].Ran()];
      if i <= k then AllAhead(us, v, i) < AllAhead(ts, v, i) else AllAhead(us, v, i) == AllAhead(ts, v, i)
    decreases |ts| - i
  {
    if i < |ts| {
      AllAheadShrinks(ts, v, k, i + 1);
      if i == k {
        AheadShrinks(ts[k], ts[v]);
      }
    }
  }

  /** A run in which `v` does not get a turn is no longer than what is ahead of `v`. */
  lemma {:induction false} WaitIsBounded(ts: seq<Task>, picks: seq<nat>, end: seq<Task>, v: nat)
    requires Run(ts, picks, end) && v < |ts| && ts[v].vruntime < MAX_VRUNTIME && Turns(picks, v) == 0
    ensures |picks| <= AllAhead(ts, v, 0)
    decreases |picks|
  {
    if picks != [] {
      var k := picks[0];
      var us := ts[k := ts[k].Ran()];
      AllAheadShrinks(ts, v, k, 0);
      WaitIsBounded(us, picks[1..], end, v);
    }
  }

  lemma {:induction false} LittleAhead(ts: seq<Task>, v: nat, i: nat)
    requires Close(ts) && v < |ts| && i <= |ts|
    ensures AllAhead(ts, v, i) <= (if i <= v then |ts| - i - 1 else |ts| - i) * (ts[v].Slice() / 500 + 1)
    decreases |ts| - i
  {
    if i < |ts| {
      LittleAhead(ts, v, i + 1);
      var bound := ts[v].Slice() / 500 + 1;
      if i != v {
        assert ts[v].vruntime <= ts[i].vruntime + ts[v].Slice();
        assert Ahead(ts[i], ts[v]) <= bound;
        var n := if i + 1 <= v then |ts| - (i + 1) - 1 else |ts| - (i + 1);
        OneTurnMore(n, bound);
      }
    }
  }

  /** The turns that `others` tasks can take between two turns of a task with this slice. */
  function WaitBound(others: nat, slice: nat): (n: nat)
    requires slice <= 2000
    ensures n <= 5 * others
  {
    assert slice / 500 + 1 <= 5;
    SmallerFactor(others, slice / 500 + 1, 5);
    others * (slice / 500 + 1)
  }

  lemma SmallerFactor(n: nat, a: nat, b: nat)
    requires a <= b
    ensures n * a <= n * b
  {
  }

  lemma LittleAheadOfAny(ts: seq<Task>, v: nat)
    requires Close(ts) && v < |ts|
    ensures AllAhead(ts, v, 0) <= WaitBound(|ts| - 1, ts[v].Slice())
  {
    LittleAhead(ts, v, 0);
  }

  /** From any state that is reached, a task that has not come to the end of the scale waits for at most
      five turns of each of the others; at the default weight three. Where the others are on the scale
      does not matter. */
  lemma NoStarvation(ts: seq<Task>, before: seq<nat>, now: seq<Task>, picks: seq<nat>, end: seq<Task>, v: nat)
    requires AtZero(ts) && Run(ts, before, now) && Run(now, picks, end)
    requires v < |ts| == |now| && now[v].vruntime < MAX_VRUNTIME && Turns(picks, v) == 0
    ensures |picks| <= WaitBound(|ts| - 1, ts[v].Slice())
  {
    RunClose(ts, before, now);
    RunGrows(ts, before, now);
    assert now[v].Slice() == ts[v].Slice();
    WaitIsBounded(now, picks, end, v);
    LittleAheadOfAny(now, v);
  }

  /** At the end of the scale fairness ends: once the first task has got there, every further turn is
      its own. */
  lemma {:induction false} SaturatedStarves(ts: seq<Task>, picks: seq<nat>, end: seq<Task>, k: nat)
    requires InRange(ts) && First(ts, k) && ts[k].vruntime == MAX_VRUNTIME && Run(ts, picks, end)
    ensures end == ts && forall i :: 0 <= i < |picks| ==> picks[i] == k
    decreases |picks|
  {
    if picks != [] {
      OneFirst(ts, picks[0], k);
      assert ts[k].Ran() == ts[k] && ts[k := ts[k].Ran()] == ts;
      SaturatedStarves(ts, picks[1..], end, k);
    }
  }

  // ----- how far the scale goes -----

  /** A round adds 2000 at most. */
  lemma {:induction false} RuntimeBound(ts: seq<Task>, picks: seq<nat>, end: seq<Task>, k: nat)
    requires Run(ts, picks, end) && k < |ts|
    ensures |end| == |ts| && end[k].vruntime <= ts[k].vruntime + 2000 * |picks|
    decreases |picks|
  {
    if picks != [] {
      RuntimeBound(ts[picks[0] := ts[picks[0]].Ran()], picks[1..], end, k);
    }
  }

  /** Fewer than 2^63 / 2000 rounds, with tasks that have not run: nobody comes to the end of the scale,
      and every virtual runtime is the number of turns times 1024000 over the weight. */
  lemma NobodySaturates(ts: seq<Task>, picks: seq<nat>, end: seq<Task>, k: nat)
    requires AtZero(ts) && Run(ts, picks, end) && k < |ts| && |picks| < 0x8000_0000_0000_0000 / 2000
    ensures |end| == |ts| && end[k].vruntime < 0x7FFF_FFFF_FFFF_FFFF
    ensures end[k].vruntime == Turns(picks, k) * (1024000 / ts[k].weight)
  {
    forall i | 0 <= i < |ts| ensures |end| == |ts| && end[i].vruntime < 0x7FFF_FFFF_FFFF_FFFF {
      RuntimeBound(ts, picks, end, i);
    }
    RuntimeCountsTurns(ts, picks, end, k);
  }

  /** Turns times 1024000 over the weight differ by 2000 at most. */
  ghost predicate SharedFairly(ts: seq<Task>, picks: seq<nat>) {
    forall i, j :: 0 <= i < |ts| && 0 <= j < |ts| ==>
      Turns(picks, i) * (1024000 / ts[i].weight) - Turns(picks, j) * (1024000 / ts[j].weight) <= 2000
  }

  /** Nobody is left out for more than five rounds for each of the others. */
  ghost predicate NobodyWaits(ts: seq<Task>, picks: seq<nat>) {
    forall m, v :: 0 <= m <= |picks| && 0 <= v < |ts| && Turns(picks[m..], v) == 0 ==> |picks| - m <= 5 * (|ts| - 1)
  }

  /** So such a run is fair without further ado. */
  lemma FairFromZero(ts: seq<Task>, picks: seq<nat>, end: seq<Task>)
    requires AtZero(ts) && Run(ts, picks, end) && |picks| < 0x8000_0000_0000_0000 / 2000
    ensures SharedFairly(ts, picks) && NobodyWaits(ts, picks)
  {
    forall i | 0 <= i < |ts| ensures |end| == |ts| && end[i].vruntime < MAX_VRUNTIME {
      NobodySaturates(ts, picks, end, i);
    }
    forall i, j | 0 <= i < |ts| && 0 <= j < |ts|
      ensures Turns(picks, i) * (1024000 / ts[i].weight) - Turns(picks, j) * (1024000 / ts[j].weight) <= 2000
    {
      NobodySaturates(ts, picks, end, i);
      NobodySaturates(ts, picks, end, j);
      FairShares(ts, picks, end, i, j, 2000);
    }
    forall m, v | 0 <= m <= |picks| && 0 <= v < |ts| && Turns(picks[m..], v) == 0 ensures |picks| - m <= 5 * (|ts| - 1) {
      var now := RunSplit(ts, picks, end, m);
      NobodySaturates(ts, picks[..m], now, v);
      NoStarvation(ts, picks[..m], now, picks[m..], end, v);
    }
  }

  lemma {:induction false} RunSplit(ts: seq<Task>, picks: seq<nat>, end: seq<Task>, m: nat) returns (now: seq<Task>)
    requires Run(ts, picks, end) && m <= |picks|
    ensures Run(ts, picks[..m], now) && Run(now, picks[m..], end) && |now| == |ts|
    decreases |picks|
  {
    if m == 0 {
      now := ts;
      assert picks[0..] == picks;
    } else {
      now := RunSplit(ts[picks[0] := ts[picks[0]].Ran()], picks[1..], end, m - 1);
      assert picks[1..][..m - 1] == picks[..m][1..] && picks[1..][m - 1..] == picks[m..];
    }
  }
}
