/** The completely fair scheduler: an ordered run queue and a map of tasks, kept in step. */
module CfsScheduler {
  import opened Fairness

  /** Priorities and their weights; any other priority has the default weight. */
  function WeightOf(priority: int): Weight {
    if priority == -2 then 512 else if priority == -1 then 820 else if priority == 1 then 1280
    else if priority == 2 then 2048 else 1024
  }

  function PriorityOf(w: Weight): int {
    if w == 512 then -2 else if w == 820 then -1 else if w == 1280 then 1 else if w == 2048 then 2 else 0
  }

  /** The queue orders tasks by virtual runtime and id, and cannot tell apart two that agree in both. */
  predicate SameKey(a: Task, b: Task) {
    a.vmId == b.vmId && a.vruntime == b.vruntime
  }

  function Erase(queue: set<Task>, t: Task): set<Task> {
    set x | x in queue && !SameKey(x, t)
  }

  function Insert(queue: set<Task>, t: Task): set<Task> {
    if exists x :: x in queue && SameKey(x, t) then queue else queue + {t}
  }

  class CFSScheduler {
    var runQueue: set<Task>
    var taskMap: map<nat, Task>

    constructor ()
      ensures Valid() && runQueue == {} && taskMap == map[]
    {
      runQueue, taskMap := {}, map[];
    }

    /** Queue and map agree: what is queued is what the map has under its id. */
    ghost predicate Valid()
      reads this
    {
      && (forall t :: t in runQueue ==> t.vmId in taskMap && taskMap[t.vmId] == t)
      && (forall id :: id in taskMap ==> taskMap[id].vmId == id && taskMap[id].vruntime <= MAX_VRUNTIME)
    }

    predicate Runnable(id: nat)
      reads this
    {
      id in taskMap && taskMap[id] in runQueue
    }

    /** A new task starts at virtual runtime 0. The id must not be in use. */
    method RegisterVm(vmId: nat)
      requires Valid() && vmId !in taskMap
      modifies this
      ensures Valid() && taskMap == old(taskMap)[vmId := Task(vmId, 0, 1024)]
      ensures runQueue == old(runQueue) + {Task(vmId, 0, 1024)}
    {
      var task := Task(vmId, 0, 1024);
      taskMap := taskMap[vmId := task];
      runQueue := Insert(runQueue, task);
    }

    method UnregisterVm(vmId: nat)
      requires Valid()
      modifies this
      ensures Valid() && taskMap == old(taskMap) - {vmId}
      ensures runQueue == set t | t in old(runQueue) && t.vmId != vmId
    {
      if vmId in taskMap {
        runQueue := Erase(runQueue, taskMap[vmId]);
        taskMap := taskMap - {vmId};
      }
    }

    /** Takes a task off the queue; its virtual runtime is kept. */
    method BlockVm(vmId: nat)
      requires Valid()
      modifies this
      ensures Valid() && taskMap == old(taskMap) && !Runnable(vmId)
      ensures forall id :: id != vmId ==> Runnable(id) == old(Runnable(id))
    {
      if vmId in taskMap {
        runQueue := Erase(runQueue, taskMap[vmId]);
      }
    }

    /** Puts it back as it was. */
    method WakeVm(vmId: nat)
      requires Valid()
      modifies this
      ensures Valid() && taskMap == old(taskMap) && Runnable(vmId) == (vmId in taskMap)
      ensures forall id :: id != vmId ==> Runnable(id) == old(Runnable(id))
    {
      if vmId in taskMap {
        runQueue := Insert(runQueue, taskMap[vmId]);
      }
    }

    /** Changes the weight and nothing else, except that the task is queued afterwards even if it was
        blocked. */
    method SetVmPriority(vmId: nat, priority: int)
      requires Valid()
      modifies this
      ensures Valid() && taskMap.Keys == old(taskMap.Keys) && Runnable(vmId) == (vmId in taskMap)
      ensures vmId in taskMap ==> taskMap[vmId] == old(taskMap[vmId]).(weight := WeightOf(priority))
      ensures forall id :: id in taskMap && id != vmId ==> taskMap[id] == old(taskMap[id]) && Runnable(id) == old(Runnable(id))
    {
      if vmId in taskMap {
        var task := taskMap[vmId].(weight := WeightOf(priority));
        runQueue := Erase(runQueue, taskMap[vmId]);
        taskMap := taskMap[vmId := task];
        runQueue := Insert(runQueue, task);
      }
    }

    /** The priority that has been set, as far as it is one of the five. */
    function GetVmPriority(vmId: nat): (p: int)
      reads this
      ensures vmId in taskMap ==> WeightOf(p) == taskMap[vmId].weight
    {
      if vmId in taskMap then PriorityOf(taskMap[vmId].weight) else 0
    }

    /** The id of the first task of the queue; 0 if there is none. */
    method PickNextTask() returns (next: nat)
      requires Valid()
      ensures runQueue == {} ==> next == 0
      ensures runQueue != {} ==> Runnable(next) && forall t :: t in runQueue && t.vmId != next ==> taskMap[next].Before(t)
      ensures runQueue != {} ==> forall t :: t in runQueue && t.vmId != next ==>
        taskMap[next].vruntime < t.vruntime || (taskMap[next].vruntime == t.vruntime && next < t.vmId)
    {
      if runQueue == {} {
        return 0;
      }
      ghost var some :| some in runQueue;
      ghost var least := LeastOf(runQueue, some);
      assert IsLeast(runQueue, least);
      var it :| it in runQueue && IsLeast(runQueue, it);
      next := it.vmId;
      assert taskMap[next] == it;
      assert IsLeast(runQueue, it);
      assert forall x :: x in runQueue ==> x == it || it.Before(x) || SameKey(x, it);
    }

    /** Charges a task for one slice and queues it anew. */
    method UpdateVruntime(vmId: nat)
      requires Valid()
      modifies this
      ensures Valid() && taskMap.Keys == old(taskMap.Keys) && Runnable(vmId) == (vmId in taskMap)
      ensures vmId in taskMap ==> taskMap[vmId] == old(taskMap[vmId]).Ran()
      ensures vmId in taskMap ==>
        var was, now := old(taskMap[vmId]), taskMap[vmId];
        && now.weight == was.weight
        && now.vruntime ==
             if was.vruntime + 1024000 / was.weight <= 0x7FFF_FFFF_FFFF_FFFF then was.vruntime + 1024000 / was.weight
             else 0x7FFF_FFFF_FFFF_FFFF
      ensures forall id :: id in taskMap && id != vmId ==> taskMap[id] == old(taskMap[id]) && Runnable(id) == old(Runnable(id))
    {
      if vmId in taskMap {
        var task := taskMap[vmId].Ran();
        runQueue := Erase(runQueue, taskMap[vmId]);
        taskMap := taskMap[vmId := task];
        runQueue := Insert(runQueue, task);
      }
    }

    /** The tasks of the queue, listed. */
    ghost predicate Lists(ts: seq<Task>)
      reads this
    {
      Distinct(ts) && (forall t :: t in runQueue <==> t in ts)
    }

    /** One round of the scheduler: pick, then charge. The listed tasks take one step of a run, unless
        the first one has the id 0, which is taken for an empty queue. */
    method ScheduleOnce(ghost ts: seq<Task>) returns (next: nat, ghost k: nat)
      requires Valid() && Lists(ts)
      modifies this
      ensures Valid() && taskMap.Keys == old(taskMap.Keys)
      ensures ts == [] ==> next == 0 && taskMap == old(taskMap)
      ensures ts != [] ==> First(ts, k) && next == ts[k].vmId
      ensures ts != [] && next != 0 ==> Lists(ts[k := ts[k].Ran()])
      ensures next == 0 ==> runQueue == old(runQueue) && taskMap == old(taskMap)
    {
      next := PickNextTask();
      k := 0;
      if ts != [] {
        assert ts[0] in runQueue;
        k := PickedIsFirst(ts, next);
      } else {
        assert forall t :: t !in runQueue;
        assert runQueue == {};
      }
      if next != 0 {
        UpdateVruntime(next);
        StillLists(ts, k, old(runQueue));
      }
    }

    /** Any number of rounds, with no task of id 0: the listed tasks go through a run, and as long as no
        round is disturbed no queued task gets further ahead of another than the largest slice. */
    method ScheduleRounds(n: nat, ghost ts: seq<Task>) returns (ghost picks: seq<nat>, ghost end: seq<Task>)
      requires Valid() && Lists(ts) && ts != [] && forall i :: 0 <= i < |ts| ==> ts[i].vmId != 0
      modifies this
      ensures Valid() && |picks| == n && Run(ts, picks, end) && Lists(end)
      ensures AtZero(ts) ==> forall t, u :: t in runQueue && u in runQueue ==> t.vruntime - u.vruntime <= 2000
      ensures AtZero(ts) && n < 0x8000_0000_0000_0000 / 2000 ==>
        SharedFairly(ts, picks) && NobodyWaits(ts, picks) && forall t :: t in runQueue ==> t.vruntime < 0x7FFF_FFFF_FFFF_FFFF
    {
      picks, end := [], ts;
      for i := 0 to n
        invariant Valid() && |picks| == i && Run(ts, picks, end) && Lists(end) && |end| == |ts|
        invariant forall j :: 0 <= j < |end| ==> end[j].vmId != 0
      {
        var next;
        ghost var k, was := 0, end;
        next, k := ScheduleOnce(end);
        end := was[k := was[k].Ran()];
        RunThenStep(ts, picks, was, k);
        picks := picks + [k];
      }
      if AtZero(ts) {
        Spread(ts, picks, end, 2000);
        forall t, u | t in runQueue && u in runQueue ensures t.vruntime - u.vruntime <= 2000 {
          var i :| 0 <= i < |end| && end[i] == t;
          var j :| 0 <= j < |end| && end[j] == u;
        }
        if n < 0x8000_0000_0000_0000 / 2000 {
          FairFromZero(ts, picks, end);
          forall t | t in runQueue ensures t.vruntime < 0x7FFF_FFFF_FFFF_FFFF {
            var i :| 0 <= i < |end| && end[i] == t;
            NobodySaturates(ts, picks, end, i);
          }
        }
      }
    }

    lemma PickedIsFirst(ts: seq<Task>, next: nat) returns (k: nat)
      requires Valid() && Lists(ts) && Runnable(next) && forall t :: t in runQueue && t.vmId != next ==> taskMap[next].Before(t)
      ensures First(ts, k) && ts[k] == taskMap[next] && ts[k].vmId == next
    {
      assert taskMap[next] in ts;
      k :| 0 <= k < |ts| && ts[k] == taskMap[next];
      forall i | 0 <= i < |ts| && i != k ensures ts[k].Before(ts[i]) {
        assert ts[i] in runQueue && ts[i].vmId != ts[k].vmId;
      }
    }

    lemma StillLists(ts: seq<Task>, k: nat, before: set<Task>)
      requires Valid() && Distinct(ts) && k < |ts| && (forall t :: t in before <==> t in ts)
      requires ts[k].vmId in taskMap && taskMap[ts[k].vmId] == ts[k].Ran() && ts[k].Ran() in runQueue
      requires forall t: Task :: t.vmId != ts[k].vmId ==> (t in runQueue <==> t in before)
      ensures Lists(ts[k := ts[k].Ran()])
    {
      var us := ts[k := ts[k].Ran()];
      forall t: Task ensures t in runQueue <==> t in us {
        if t.vmId == ts[k].vmId {
          assert us[k] == ts[k].Ran();
          if t in us {
            var i :| 0 <= i < |us| && us[i] == t;
            assert i == k;
          }
        } else {
          if t in us {
            var i :| 0 <= i < |us| && us[i] == t;
            assert ts[i] == t;
          }
          if t in ts {
            var i :| 0 <= i < |ts| && ts[i] == t;
            assert us[i] == t;
          }
        }
      }
    }
  }

  predicate IsLeast(queue: set<Task>, t: Task) {
    forall x :: x in queue ==> x == t || t.Before(x) || SameKey(x, t)
  }

  /** A queue that is not empty has a first task. */
  lemma {:induction false} LeastOf(queue: set<Task>, t: Task) returns (least: Task)
    requires t in queue
    ensures least in queue && IsLeast(queue, least)
    decreases |queue|
  {
    var rest := queue - {t};
    least := t;
    if rest == {} {
      assert queue == {t};
    } else {
      var u :| u in rest;
      var first := LeastOf(rest, u);
      if first.Before(t) {
        least := first;
      }
      forall x | x in queue && x != least ensures least.Before(x) || SameKey(x, least) {
        if x in rest && x != first {
          assert first.Before(x) || SameKey(x, first);
        }
      }
    }
  }

  /** A priority that is set is the one that is read back, if it is one of the five. */
  lemma PriorityRoundTrip(p: int)
    ensures PriorityOf(WeightOf(p)) == if -2 <= p <= 2 then p else 0
    ensures p == 0 || p < -2 || p > 2 ==> WeightOf(p) == 1024
  {
  }

  /** The higher the priority, the less a slice costs. */
  lemma HigherPriorityCostsLess(p: int, q: int, t: Task)
    requires -2 <= p < q <= 2
    ensures t.(weight := WeightOf(q)).Slice() < t.(weight := WeightOf(p)).Slice()
  {
  }
}
