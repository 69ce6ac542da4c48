/** When a waiting VM is answered by the clock, and that it waits until it is answered. */
module InterruptTimes {
  import opened Wrappers
  import opened Interrupts
  import opened InterruptAnswers

  // ----- the scan -----

  /** A scan leaves the record of every VM whose time has not passed, and takes every other one. */
  lemma ScanByTime(s: State, t: State, vm: Vm)
    requires Inv(s) && Step(s, Scan) == Some(t) && vm in s.pending
    ensures s.now < s.pending[vm].time + s.pending[vm].req.timeout ==>
      vm in t.pending && t.pending[vm] == s.pending[vm] && s.pending[vm].req !in t.worker.timedOut
    ensures s.now >= s.pending[vm].time + s.pending[vm].req.timeout ==> vm !in t.pending && s.pending[vm].req in t.worker.timedOut
    ensures t.blocked == s.blocked && t.delivered == s.delivered
  {
  }

  /** The worker takes the timers that have run out, and calls back those that no one has cancelled. */
  lemma CollectByTime(s: State, t: State, r: Req)
    requires Step(s, Collect) == Some(t) && r in s.timers
    ensures s.now < s.timers[r].expiry ==> r in t.timers && t.timers[r] == s.timers[r] && r !in t.worker.due
    ensures s.now >= s.timers[r].expiry ==> r !in t.timers && (r in t.worker.due <==> !s.timers[r].cancelled)
  {
  }

  /** When the manager is done with unregistering a VM, its record is gone and the timer of that record
      cancelled; no other VM's are. */
  lemma NothingIsLeft(s: State, t: State, vm: Vm)
    requires Inv(s) && Step(s, DropPending(vm)) == Some(t)
    ensures vm !in t.pending && vm !in t.registered && vm !in t.scheduled
    ensures vm in s.pending && s.pending[vm].req in s.timers ==> t.timers[s.pending[vm].req].cancelled
    ensures forall q :: q in s.timers && q.vm != vm ==> q in t.timers && t.timers[q] == s.timers[q]
    ensures forall v :: v in s.pending && v != vm ==> v in t.pending && t.pending[v] == s.pending[v]
  {
  }

  /** Handlers are called for registered VMs only, and one at a time. */
  lemma DeliveredToRegistered(s: State, a: Action, t: State)
    requires Step(s, a) == Some(t) && t.delivered != s.delivered
    ensures exists r: Req :: r.vm in s.registered && t.delivered == s.delivered + [r]
  {
    var r := if a.WakeResult? then s.worker.req else a.req;
    assert t.delivered == s.delivered + [r];
  }

  /** The results that wait for the worker are a queue: whatever happens, one comes behind the others, or
      the worker takes the first one in hand, or they stay as they are. */
  lemma ResultsAreAQueue(s: State, a: Action, t: State)
    requires Step(s, a) == Some(t)
    ensures t.results == s.results || (exists r :: t.results == s.results + [r])
      || (s.results != [] && t.results == s.results[1..] && t.worker == Popped(s.results[0]))
  {
    if a.PushResult? {
      assert t.results == s.results + [a.reply.req];
    } else if a.CallbackPushes? {
      assert t.results == s.results + [s.worker.req];
    }
  }

  // ----- never too soon -----

  /** The times that records and timers go by. */
  ghost predicate TimeBook(s: State, r: Req) {
    var p := s.past;
    && (r in s.requests && (s.requests[r].Timed? || s.requests[r].Armed?) ==> r in p.taken && p.taken[r] == s.requests[r].time)
    && (r in s.requests && !(s.requests[r].Timed? || s.requests[r].Armed?) ==> r !in p.taken)
    && (IsPending(s, r) ==> r in p.taken && p.taken[r] == s.pending[r.vm].time)
    && (r in s.timers ==> r in p.taken && s.timers[r].expiry >= p.taken[r] + r.timeout)
    && (r in p.swept || r in p.collected ==> r in p.taken && s.now >= p.taken[r] + r.timeout)
    && (r in p.taken ==> r in p.asked)
  }

  lemma TimeOfRequest(s: State, a: Action, r: Req)
    requires Books(s) && TimeBook(s, r) && RequestStep(s, a).Some?
    ensures TimeBook(RequestStep(s, a).value, r)
  {
    hide Crossing;
    assert BookOf(s, r);
  }

  lemma TimeOfRouter(s: State, a: Action, r: Req)
    requires TimeBook(s, r)
    ensures DeviceStep(s, a).Some? ==> TimeBook(DeviceStep(s, a).value, r)
    ensures ManagerStep(s, a).Some? ==> TimeBook(ManagerStep(s, a).value, r)
  {
    hide Crossing, Asked;
  }

  lemma TimeOfWorker(s: State, a: Action, r: Req)
    requires Books(s) && TimeBook(s, r)
    ensures DrainStep(s, a).Some? ==> TimeBook(DrainStep(s, a).value, r)
    ensures CallbackStep(s, a).Some? ==> TimeBook(CallbackStep(s, a).value, r)
    ensures ScanStep(s, a).Some? ==> TimeBook(ScanStep(s, a).value, r)
  {
    hide Books;
    if a.Scan? {
      ExpiredIs(s, r);
    }
  }

  lemma TimeStep(s: State, a: Action, r: Req)
    requires Books(s) && TimeBook(s, r) && Step(s, a).Some?
    ensures TimeBook(Step(s, a).value, r)
  {
    hide Books, TimeBook, RequestStep, DeviceStep, DrainStep, CallbackStep, ScanStep, ManagerStep;
    if RequestStep(s, a).Some? {
      TimeOfRequest(s, a, r);
    }
    TimeOfRouter(s, a, r);
    TimeOfWorker(s, a, r);
  }

  lemma {:induction false} TimeRun(s: State, actions: seq<Action>, t: State, r: Req)
    requires Books(s) && TimeBook(s, r) && Run(s, actions, t)
    ensures Books(t) && TimeBook(t, r)
    decreases |actions|
  {
    hide Books, TimeBook, Step;
    if actions != [] {
      BooksStep(s, actions[0]);
      TimeStep(s, actions[0], r);
      TimeRun(Step(s, actions[0]).value, actions[1..], t, r);
    }
  }

  /** On every interleaving, and so at the very moment: neither the scan nor the timer answers a request
      before its timeout has passed since the time for its record was taken. */
  lemma NeverTooSoon(actions: seq<Action>, t: State, r: Req)
    requires Run(Init(), actions, t) && (r in t.past.swept || r in t.past.collected)
    ensures r in t.past.taken && t.now >= t.past.taken[r] + r.timeout
  {
    TimeRun(Init(), actions, t, r);
  }

  // ----- blocked until answered -----

  /** The router has blocked the VM for the request, or its record is pending. */
  predicate Waits(s: State, r: Req) {
    (r in s.requests && !s.requests[r].Checked?) || IsPending(s, r)
  }

  /** A request that meets no other keeps its VM blocked until its first answer. */
  ghost predicate WaitBook(s: State, r: Req) {
    r in s.past.asked && r !in s.past.left && r !in s.past.renewed && r !in s.past.crossed && Waits(s, r) && Count(s.delivered, r) == 0 ==>
      r.vm in s.blocked
  }

  lemma WaitOfRequest(s: State, a: Action, r: Req)
    requires Kept(s, r) && Inv(s) && WaitBook(s, r) && RequestStep(s, a).Some?
    ensures WaitBook(RequestStep(s, a).value, r)
  {
    hide Crossing;
    var t := RequestStep(s, a).value;
    assert BookOf(s, r) && PendingBook(s, r.vm);
    assert t.delivered == s.delivered && s.blocked <= t.blocked;
    if r in t.past.asked && r !in t.past.left && !Waits(s, r) && Waits(t, r) {
      assert a == BlockVm(r) && r.vm in s.registered && r.vm in s.scheduled;
    }
  }

  lemma WaitOfRouter(s: State, a: Action, r: Req)
    requires Kept(s, r) && Inv(s) && WaitBook(s, r)
    ensures DeviceStep(s, a).Some? ==> WaitBook(DeviceStep(s, a).value, r)
    ensures ManagerStep(s, a).Some? ==> WaitBook(ManagerStep(s, a).value, r)
  {
    hide Crossing;
    assert BookOf(s, r);
  }

  lemma WaitOfWorker(s: State, a: Action, r: Req)
    requires Kept(s, r) && Inv(s) && WaitBook(s, r)
    ensures DrainStep(s, a).Some? ==> WaitBook(DrainStep(s, a).value, r)
    ensures CallbackStep(s, a).Some? ==> WaitBook(CallbackStep(s, a).value, r)
    ensures ScanStep(s, a).Some? ==> WaitBook(ScanStep(s, a).value, r)
  {
    hide RunOut, Due, Inv, Count;
    assert BookOf(s, r);
    if a.WakeResult? && s.worker.Erased? {
      CountAppend(s.delivered, s.worker.req, r);
    } else if a.WakeTimedOut? {
      CountAppend(s.delivered, a.req, r);
    }
  }

  lemma WaitStep(s: State, a: Action, r: Req)
    requires Kept(s, r) && Inv(s) && WaitBook(s, r) && Step(s, a).Some?
    ensures WaitBook(Step(s, a).value, r)
  {
    hide Kept, Inv, WaitBook, DeviceStep, DrainStep, CallbackStep, ScanStep, ManagerStep;
    if ByRequest(a) {
      WaitOfRequest(s, a, r);
    } else {
      WaitOfRouter(s, a, r);
      WaitOfWorker(s, a, r);
    }
  }

  lemma {:induction false} WaitRun(s: State, actions: seq<Action>, t: State, r: Req)
    requires Kept(s, r) && Inv(s) && WaitBook(s, r) && Run(s, actions, t)
    ensures WaitBook(t, r)
    decreases |actions|
  {
    hide Kept, Inv, WaitBook, Step;
    if actions != [] {
      KeptStep(s, actions[0], r);
      StepInv(s, actions[0]);
      WaitStep(s, actions[0], r);
      WaitRun(Step(s, actions[0]).value, actions[1..], t, r);
    }
  }

  /** On every interleaving the VM is blocked from the router's step on until the request is answered, as
      long as nothing else is under way for it and it is not registered anew. */
  lemma BlockedUntilAnswered(actions: seq<Action>, t: State, r: Req)
    requires Run(Init(), actions, t) && r in t.past.asked && r !in t.past.left && r !in t.past.renewed && r !in t.past.crossed
    requires (r in t.requests && !t.requests[r].Checked?) || (r.vm in t.pending && t.pending[r.vm].req == r)
    requires r !in t.delivered
    ensures r.vm in t.blocked
  {
    KeptInit(r);
    InitInv();
    WaitRun(Init(), actions, t, r);
    CountAbsent(t.delivered, r);
  }
}
