/** The thread pool: submitters, workers and shutdown, interleaved at the queue's lock and the stop
    flag. */
module ThreadPool {
  import opened Wrappers

  datatype Worker = Idle | Running(task: nat) | Finishing | Exited

  /** Tasks are numbered in the order in which they are accepted. */
  datatype State = State(
    stop: bool,
    submitting: bool,        // a submitter holds the lock and has found the pool running
    accepted: nat,
    queue: seq<nat>,
    workers: seq<Worker>,
    finished: seq<nat>,      // tasks in the order in which they ended
    active: int)

  datatype Action =
    | BeginSubmit | Accept
    | Take(worker: nat) | End(worker: nat) | CountDown(worker: nat) | Leave(worker: nat)
    | Shutdown

  function Init(threads: nat): State {
    State(false, false, 0, [], seq(threads, i => Idle), [], 0)
  }

  /** One step; none if it is not possible. Taking a task and leaving need the lock, which a submitter
      holds from its look at the flag until its task is in the queue; the flag itself is set without
      the lock. */
  function Step(s: State, a: Action): Option<State> {
    match a
    case BeginSubmit => if s.submitting || s.stop then None else Some(s.(submitting := true))
    case Accept =>
      if !s.submitting then None
      else Some(s.(submitting := false, queue := s.queue + [s.accepted], accepted := s.accepted + 1))
    case Take(w) =>
      if w >= |s.workers| || s.workers[w] != Idle || s.submitting || s.queue == [] then None
      else Some(s.(workers := s.workers[w := Running(s.queue[0])], queue := s.queue[1..], active := s.active + 1))
    case End(w) =>
      if w >= |s.workers| || !s.workers[w].Running? then None
      else Some(s.(workers := s.workers[w := Finishing], finished := s.finished + [s.workers[w].task]))
    case CountDown(w) =>
      if w >= |s.workers| || !s.workers[w].Finishing? then None
      else Some(s.(workers := s.workers[w := Idle], active := s.active - 1))
    case Leave(w) =>
      if w >= |s.workers| || s.workers[w] != Idle || s.submitting || s.queue != [] || !s.stop then None
      else Some(s.(workers := s.workers[w := Exited]))
    case Shutdown => if s.stop then None else Some(s.(stop := true))
  }

  // ----- where a task is -----

  predicate Queued(s: State, t: nat) { t in s.queue }

  predicate RunBy(s: State, w: nat, t: nat) { w < |s.workers| && s.workers[w] == Running(t) }

  ghost predicate IsRunning(s: State, t: nat) { exists w :: RunBy(s, w, t) }

  predicate Ended(s: State, t: nat) { t in s.finished }

  /** How often a task has been run to its end. */
  function Times(finished: seq<nat>, t: nat): nat {
    if finished == [] then 0 else (if finished[0] == t then 1 else 0) + Times(finished[1..], t)
  }

  function Busy(workers: seq<Worker>): nat {
    if workers == [] then 0 else (if workers[0].Running? || workers[0].Finishing? then 1 else 0) + Busy(workers[1..])
  }

  /** The number of tasks that have been taken from the queue. */
  function Started(s: State): int { s.accepted - |s.queue| }

  ghost predicate Inv(s: State) {
    && Started(s) >= 0
    && (forall i :: 0 <= i < |s.queue| ==> s.queue[i] == Started(s) + i)
    && (forall t: nat :: t < Started(s) ==> (IsRunning(s, t) || Ended(s, t)))
    && (forall w, t: nat :: RunBy(s, w, t) ==> t < Started(s) && !Ended(s, t))
    && (forall v, w, t: nat :: RunBy(s, v, t) && RunBy(s, w, t) ==> v == w)
    && (forall t: nat :: t in s.finished ==> t < Started(s))
    && (forall t: nat :: Times(s.finished, t) <= 1)
    && (forall w :: 0 <= w < |s.workers| && s.workers[w] == Exited ==> s.stop && s.queue == [] && !s.submitting)
    && s.active == Busy(s.workers)
  }

  lemma {:induction false} TimesAppend(f: seq<nat>, x: nat, t: nat)
    ensures Times(f + [x], t) == Times(f, t) + if x == t then 1 else 0
  {
    if f == [] {
      assert f + [x] == [x];
    } else {
      assert (f + [x])[0] == f[0] && (f + [x])[1..] == f[1..] + [x];
      TimesAppend(f[1..], x, t);
    }
  }

  lemma {:induction false} TimesZero(f: seq<nat>, t: nat)
    ensures Times(f, t) == 0 <==> t !in f
  {
    if f != [] {
      TimesZero(f[1..], t);
    }
  }

  lemma {:induction false} BusyUpdate(workers: seq<Worker>, w: nat, x: Worker)
    requires w < |workers|
    ensures Busy(workers[w := x]) == Busy(workers)
      + (if x.Running? || x.Finishing? then 1 else 0) - (if workers[w].Running? || workers[w].Finishing? then 1 else 0)
  {
    if w == 0 {
      assert workers[w := x][1..] == workers[1..];
    } else {
      assert workers[w := x][1..] == workers[1..][w - 1 := x];
      BusyUpdate(workers[1..], w - 1, x);
    }
  }

  lemma {:induction false} NoneBusy(threads: nat)
    ensures Busy(seq(threads, i => Idle)) == 0
  {
    if threads > 0 {
      assert seq(threads, i => Idle)[1..] == seq(threads - 1, i => Idle);
      NoneBusy(threads - 1);
    }
  }

  lemma InitInv(threads: nat)
    ensures Inv(Init(threads))
  {
    NoneBusy(threads);
  }

  lemma TakeInv(s: State, w: nat)
    requires Inv(s) && Step(s, Take(w)).Some?
    ensures Inv(Step(s, Take(w)).value)
  {
    var t := Step(s, Take(w)).value;
    var x := s.queue[0];
    BusyUpdate(s.workers, w, Running(x));
    assert RunBy(t, w, x);
    forall u: nat | u < Started(t) ensures IsRunning(t, u) || Ended(t, u) {
      if u != x && IsRunning(s, u) {
        var v :| RunBy(s, v, u);
        assert RunBy(t, v, u);
      }
    }
    forall v, u: nat | RunBy(t, v, u) ensures u < Started(t) && !Ended(t, u) {
      assert v != w ==> RunBy(s, v, u);
    }
    forall v, y, u: nat | RunBy(t, v, u) && RunBy(t, y, u) ensures v == y {
      assert v != w ==> RunBy(s, v, u);
      assert y != w ==> RunBy(s, y, u);
    }
  }

  lemma EndInv(s: State, w: nat)
    requires Inv(s) && Step(s, End(w)).Some?
    ensures Inv(Step(s, End(w)).value)
  {
    var t := Step(s, End(w)).value;
    var x := s.workers[w].task;
    BusyUpdate(s.workers, w, Finishing);
    assert RunBy(s, w, x);
    forall u: nat ensures Times(t.finished, u) <= 1 {
      TimesAppend(s.finished, x, u);
      TimesZero(s.finished, x);
    }
    forall u: nat | u < Started(t) ensures IsRunning(t, u) || Ended(t, u) {
      if u == x {
        assert t.finished[|s.finished|] == x;
      } else if IsRunning(s, u) {
        var v :| RunBy(s, v, u);
        assert RunBy(t, v, u);
      } else {
        assert u in s.finished;
      }
    }
    forall v, u: nat | RunBy(t, v, u) ensures u < Started(t) && !Ended(t, u) {
      assert RunBy(s, v, u);
    }
    forall v, y, u: nat | RunBy(t, v, u) && RunBy(t, y, u) ensures v == y {
      assert RunBy(s, v, u) && RunBy(s, y, u);
    }
  }

  /** Steps that change no task. */
  lemma SameTasksInv(s: State, a: Action, w: nat)
    requires Inv(s) && Step(s, a).Some? && (a == CountDown(w) || a == Leave(w))
    ensures Inv(Step(s, a).value)
  {
    var t := Step(s, a).value;
    BusyUpdate(s.workers, w, t.workers[w]);
    forall v, u ensures RunBy(t, v, u) == RunBy(s, v, u) {
    }
    forall u: nat | u < Started(t) ensures IsRunning(t, u) || Ended(t, u) {
      if IsRunning(s, u) {
        var v :| RunBy(s, v, u);
        assert RunBy(t, v, u);
      }
    }
  }

  lemma SubmitInv(s: State, a: Action)
    requires Inv(s) && Step(s, a).Some? && (a.BeginSubmit? || a.Accept? || a.Shutdown?)
    ensures Inv(Step(s, a).value)
  {
    var t := Step(s, a).value;
    assert Started(t) == Started(s);
    forall v, u ensures RunBy(t, v, u) == RunBy(s, v, u) {
    }
    forall u: nat | u < Started(t) ensures IsRunning(t, u) || Ended(t, u) {
      if IsRunning(s, u) {
        var v :| RunBy(s, v, u);
        assert RunBy(t, v, u);
      }
    }
  }

  lemma StepInv(s: State, a: Action)
    requires Inv(s) && Step(s, a).Some?
    ensures Inv(Step(s, a).value)
  {
    match a
    case Take(w) => TakeInv(s, w);
    case End(w) => EndInv(s, w);
    case CountDown(w) => SameTasksInv(s, a, w);
    case Leave(w) => SameTasksInv(s, a, w);
    case _ => SubmitInv(s, a);
  }

  // ----- runs -----

  ghost predicate Run(s: State, actions: seq<Action>, t: State)
    decreases |actions|
  {
    if actions == [] then s == t
    else Step(s, actions[0]).Some? && Run(Step(s, actions[0]).value, actions[1..], t)
  }

  lemma {:induction false} RunInv(s: State, actions: seq<Action>, t: State)
    requires Inv(s) && Run(s, actions, t)
    ensures Inv(t) && |t.workers| == |s.workers|
    decreases |actions|
  {
    if actions != [] {
      StepInv(s, actions[0]);
      RunInv(Step(s, actions[0]).value, actions[1..], t);
    }
  }

  /** On every interleaving each accepted task is in exactly one place: waiting, being run by one
      worker, or ended, once. */
  lemma Conservation(threads: nat, actions: seq<Action>, s: State, t: nat)
    requires Run(Init(threads), actions, s)
    ensures t < s.accepted <==> Queued(s, t) || IsRunning(s, t) || Ended(s, t)
    ensures !(Queued(s, t) && IsRunning(s, t)) && !(Queued(s, t) && Ended(s, t)) && !(IsRunning(s, t) && Ended(s, t))
    ensures Times(s.finished, t) <= 1
  {
    InitInv(threads);
    RunInv(Init(threads), actions, s);
    if Started(s) <= t < s.accepted {
      assert s.queue[t - Started(s)] == t;
    }
  }

  /** Once a worker has left, no task is accepted any more. */
  lemma NothingAfterLeaving(threads: nat, actions: seq<Action>, s: State, w: nat)
    requires Run(Init(threads), actions, s) && w < |s.workers| && s.workers[w] == Exited
    ensures Step(s, BeginSubmit) == None && Step(s, Accept) == None
  {
    InitInv(threads);
    RunInv(Init(threads), actions, s);
  }

  /** When all workers have returned, every accepted task has been run exactly once. */
  lemma AllRunOnce(threads: nat, actions: seq<Action>, s: State, t: nat)
    requires threads > 0 && Run(Init(threads), actions, s) && forall w :: 0 <= w < |s.workers| ==> s.workers[w] == Exited
    ensures Times(s.finished, t) == if t < s.accepted then 1 else 0
    ensures s.active == 0
  {
    InitInv(threads);
    RunInv(Init(threads), actions, s);
    assert s.workers[0] == Exited && s.queue == [];
    assert !IsRunning(s, t);
    TimesZero(s.finished, t);
    AllIdle(s.workers);
  }

  lemma {:induction false} AllIdle(workers: seq<Worker>)
    requires forall w :: 0 <= w < |workers| ==> workers[w] == Exited
    ensures Busy(workers) == 0
  {
    if workers != [] {
      AllIdle(workers[1..]);
    }
  }

  /** Nor is a task lost by a shutdown that does not wait: the workers empty the queue all the same. */
  lemma NobodyLeavesWorkBehind(s: State, w: nat)
    requires Inv(s) && Step(s, Leave(w)).Some?
    ensures forall t: nat :: t < s.accepted ==> IsRunning(s, t) || Ended(s, t)
  {
  }

  // ----- when tasks are accepted, and that the pool comes to rest -----

  /** Some step of the run is a shutdown. */
  predicate HasShutdown(actions: seq<Action>) {
    exists i :: 0 <= i < |actions| && actions[i].Shutdown?
  }

  lemma {:induction false} StopIsShutdown(s: State, actions: seq<Action>, t: State)
    requires Run(s, actions, t)
    ensures t.stop <==> s.stop || HasShutdown(actions)
    decreases |actions|
  {
    if actions != [] {
      var u := Step(s, actions[0]).value;
      StopIsShutdown(u, actions[1..], t);
      assert forall i :: 0 < i < |actions| ==> actions[i] == actions[1..][i - 1];
      assert HasShutdown(actions) <==> actions[0].Shutdown? || HasShutdown(actions[1..]);
    }
  }

  /** A submission that gets the lock puts its task at the end of the queue if there has been no shutdown,
      and is refused if there has been one. */
  lemma AcceptedIffRunning(threads: nat, actions: seq<Action>, s: State)
    requires Run(Init(threads), actions, s) && !s.submitting
    ensures Step(s, BeginSubmit).Some? <==> !HasShutdown(actions)
    ensures !HasShutdown(actions) ==>
      Run(s, [BeginSubmit, Accept], s.(queue := s.queue + [s.accepted], accepted := s.accepted + 1))
  {
    StopIsShutdown(Init(threads), actions, s);
    if !HasShutdown(actions) {
      var u, t := s.(submitting := true), s.(queue := s.queue + [s.accepted], accepted := s.accepted + 1);
      assert [BeginSubmit, Accept][1..] == [Accept] && [Accept][1..] == [];
      assert Run(t, [], t) && Run(u, [Accept], t);
    }
  }

  /** As long as a worker has not left a pool that is shut down, some thread can go on; before that, as
      long as there is a task to take or to end. */
  lemma SomeoneGoesOn(s: State, w: nat)
    requires w < |s.workers| && s.workers[w] != Exited
    ensures s.stop || s.queue != [] || s.workers[w] != Idle ==>
      exists a :: (a == Accept || a == Take(w) || a == End(w) || a == CountDown(w) || a == Leave(w)) && Step(s, a).Some?
  {
    if s.workers[w].Running? {
      assert Step(s, End(w)).Some?;
    } else if s.workers[w].Finishing? {
      assert Step(s, CountDown(w)).Some?;
    } else if s.submitting {
      assert Step(s, Accept).Some?;
    } else if s.queue != [] {
      assert Step(s, Take(w)).Some?;
    } else if s.stop {
      assert Step(s, Leave(w)).Some?;
    }
  }

  /** How many steps the workers still have to make. */
  function Ahead(workers: seq<Worker>): nat {
    if workers == [] then 0
    else (match workers[0] case Idle => 1 case Running(_) => 3 case Finishing => 2 case Exited => 0) + Ahead(workers[1..])
  }

  function ToDo(s: State): nat {
    3 * |s.queue| + (if s.submitting then 4 else 0) + Ahead(s.workers)
  }

  lemma {:induction false} AheadUpdate(workers: seq<Worker>, w: nat, x: Worker)
    requires w < |workers|
    ensures Ahead(workers[w := x]) == Ahead(workers) - Ahead([workers[w]]) + Ahead([x])
  {
    assert [x][1..] == [] && [workers[w]][1..] == [];
    if w == 0 {
      assert workers[w := x][1..] == workers[1..];
    } else {
      assert workers[w := x][1..] == workers[1..][w - 1 := x];
      AheadUpdate(workers[1..], w - 1, x);
    }
  }

  /** After a shutdown every step brings the pool closer to its end: it comes to rest. */
  lemma {:induction false} ComesToRest(s: State, actions: seq<Action>, t: State)
    requires s.stop && Run(s, actions, t)
    ensures |actions| <= ToDo(s) && t.stop
    decreases |actions|
  {
    if actions != [] {
      var a, u := actions[0], Step(s, actions[0]).value;
      if a.Take? || a.End? || a.CountDown? || a.Leave? {
        var w := a.worker;
        AheadUpdate(s.workers, w, u.workers[w]);
        assert [s.workers[w]][1..] == [] && [u.workers[w]][1..] == [];
      }
      assert ToDo(u) < ToDo(s);
      ComesToRest(u, actions[1..], t);
    }
  }
}
