/** How often a request is answered: by results that come, by the callback of its timer and by the
    worker's scan, which know nothing of each other. */
module InterruptAnswers {
  import opened Wrappers
  import opened Interrupts

  // ----- every answer has a cause -----

  function Count(rs: seq<Req>, r: Req): nat {
    if rs == [] then 0 else One(rs[0] == r) + Count(rs[1..], r)
  }

  lemma {:induction false} CountAppend(rs: seq<Req>, q: Req, r: Req)
    ensures Count(rs + [q], r) == Count(rs, r) + One(q == r)
  {
    if rs == [] {
      assert Count([q], r) == One(q == r) + Count([q][1..], r);
    } else {
      assert (rs + [q])[1..] == rs[1..] + [q];
      CountAppend(rs[1..], q, r);
    }
  }

  /** The results for a request that are being handled. */
  function Flying(replies: map<Reply, Handling>, r: Req): set<Reply> {
    set x | x in replies && x.req == r
  }

  lemma FlyingMore(replies: map<Reply, Handling>, x: Reply, h: Handling, r: Req)
    ensures |Flying(replies[x := h], r)| == |Flying(replies, r)| + One(x !in replies && x.req == r)
  {
    assert Flying(replies[x := h], r) == Flying(replies, r) + if x.req == r then {x} else {};
  }

  lemma FlyingLess(replies: map<Reply, Handling>, x: Reply, r: Req)
    requires x in replies
    ensures |Flying(replies - {x}, r)| == |Flying(replies, r)| - One(x.req == r)
  {
    assert Flying(replies - {x}, r) == Flying(replies, r) - {x};
  }

  /** The answers to a request, delivered or still under way. */
  function Answers(s: State, r: Req): nat {
    |Flying(s.replies, r)| + Count(s.results, r) + Held(s.worker, r) + Count(s.delivered, r)
  }

  /** What causes them: results, any number of them, the timer and the scan, at most once each. */
  function Causes(s: State, r: Req): nat {
    s.past.answered[r] + One(r in s.past.collected) + One(r in s.past.swept)
  }

  /** What the books say of one request at any time. */
  ghost predicate BookOf(s: State, r: Req) {
    var p := s.past;
    && (r in p.asked <==> r in s.requests || r in p.recorded) && !(r in s.requests && r in p.recorded)
    && (r in p.asked && r !in p.left ==> r.vm in s.registered) && (r in p.left ==> r in p.asked)
    && (r in p.hasty ==> r in p.answered) && (r in p.answered && r !in p.recorded ==> r in p.hasty)
    && (r in p.swept ==> r in p.recorded)
    && (r in p.early ==> r in p.collected) && (r in p.collected && r !in p.recorded ==> r in p.early)
    && (r in s.timers ==> r !in p.collected)
    && (r in s.timers || r in p.collected ==> r in p.asked && r.timeout > 0 && (r in s.requests ==> s.requests[r].Armed?))
    && ((s.worker.Firing? || s.worker.InCallback?) && r in s.worker.due ==> r in p.collected)
  }

  /** What they say of a result: if it has found the record of its own request and is the only one for
      it, then none came before that record. */
  ghost predicate ReplyBook(s: State, x: Reply) {
    x in s.replies ==>
      && x.req in s.past.answered && CancelsOwn(s, s.replies[x], x.req.vm)
      && (s.replies[x] == Found(Some(x.req)) && s.past.answered[x.req] == 1 ==> x.req !in s.past.hasty)
  }

  ghost predicate PendingBook(s: State, vm: Vm) {
    vm in s.pending ==> s.pending[vm].req.vm == vm && s.pending[vm].req in s.past.recorded && s.pending[vm].req !in s.past.swept
  }

  ghost predicate WorkerBook(s: State) {
    && s.registered !! s.leaving
    && (s.worker.InCallback? ==> s.worker.req in s.worker.due && CancelsOwn(s, s.worker.handling, s.worker.req.vm))
  }

  /** A result cancels no timer but that of a recorded request of its own VM. */
  ghost predicate CancelsOwn(s: State, h: Handling, vm: Vm) {
    h.Found? && h.timer.Some? ==> h.timer.value in s.past.recorded && h.timer.value.vm == vm
  }

  ghost predicate Books(s: State) {
    && (forall r :: BookOf(s, r)) && (forall x :: ReplyBook(s, x)) && (forall vm :: PendingBook(s, vm)) && WorkerBook(s)
  }

  lemma BookOfRequest(s: State, a: Action, r: Req)
    requires Books(s) && RequestStep(s, a).Some?
    ensures BookOf(RequestStep(s, a).value, r)
  {
    assert BookOf(s, r) && BookOf(s, a.req);
  }

  lemma BookOfDevice(s: State, a: Action, r: Req)
    requires Books(s) && DeviceStep(s, a).Some?
    ensures BookOf(DeviceStep(s, a).value, r)
  {
    assert BookOf(s, r);
  }

  lemma BookOfDrain(s: State, a: Action, r: Req)
    requires Books(s) && DrainStep(s, a).Some?
    ensures BookOf(DrainStep(s, a).value, r)
  {
    assert BookOf(s, r);
  }

  lemma BookOfCallback(s: State, a: Action, r: Req)
    requires Books(s) && CallbackStep(s, a).Some?
    ensures BookOf(CallbackStep(s, a).value, r)
  {
    assert BookOf(s, r);
  }

  lemma BookOfScan(s: State, a: Action, r: Req)
    requires Books(s) && ScanStep(s, a).Some?
    ensures BookOf(ScanStep(s, a).value, r)
  {
    assert BookOf(s, r);
    if a.Scan? && r in Expired(s) {
      ExpiredIs(s, r);
    }
  }

  lemma BookOfManager(s: State, a: Action, r: Req)
    requires Books(s) && ManagerStep(s, a).Some?
    ensures BookOf(ManagerStep(s, a).value, r)
  {
    assert BookOf(s, r);
  }

  /** An expired record is the one pending for its VM. */
  lemma ExpiredIs(s: State, r: Req)
    requires Books(s)
    ensures r in Expired(s) <==> r.vm in ExpiredVms(s) && s.pending[r.vm].req == r
    ensures r in Expired(s) ==> r in s.past.recorded && r !in s.past.swept
  {
    if r in Expired(s) {
      var vm :| vm in s.pending && s.pending[vm].req == r && vm in ExpiredVms(s);
      assert PendingBook(s, vm);
    }
  }

  lemma BookStep(s: State, a: Action, r: Req)
    requires Books(s) && Step(s, a).Some?
    ensures BookOf(Step(s, a).value, r)
  {
    if ByRequest(a) {
      BookOfRequest(s, a, r);
    } else if ByDevice(a) {
      BookOfDevice(s, a, r);
    } else if ByDrain(a) {
      BookOfDrain(s, a, r);
    } else if ByCallback(a) {
      BookOfCallback(s, a, r);
    } else if ByScan(a) {
      BookOfScan(s, a, r);
    } else {
      BookOfManager(s, a, r);
    }
  }

  lemma PendingOfRouter(s: State, a: Action, vm: Vm)
    requires Books(s)
    ensures RequestStep(s, a).Some? ==> PendingBook(RequestStep(s, a).value, vm)
    ensures DeviceStep(s, a).Some? ==> PendingBook(DeviceStep(s, a).value, vm)
    ensures ManagerStep(s, a).Some? ==> PendingBook(ManagerStep(s, a).value, vm)
  {
    assert PendingBook(s, vm);
    if a.Record? {
      assert BookOf(s, a.req);
    }
  }

  lemma PendingOfWorker(s: State, a: Action, vm: Vm)
    requires Books(s)
    ensures DrainStep(s, a).Some? ==> PendingBook(DrainStep(s, a).value, vm)
    ensures CallbackStep(s, a).Some? ==> PendingBook(CallbackStep(s, a).value, vm)
    ensures ScanStep(s, a).Some? ==> PendingBook(ScanStep(s, a).value, vm)
  {
    assert PendingBook(s, vm);
    if a.Scan? && vm in s.pending {
      ExpiredIs(s, s.pending[vm].req);
    }
  }

  lemma WorkerBookRouter(s: State, a: Action)
    requires Books(s)
    ensures RequestStep(s, a).Some? ==> WorkerBook(RequestStep(s, a).value)
    ensures DeviceStep(s, a).Some? ==> WorkerBook(DeviceStep(s, a).value)
    ensures ManagerStep(s, a).Some? ==> WorkerBook(ManagerStep(s, a).value)
  {
  }

  lemma WorkerBookWorker(s: State, a: Action)
    requires Books(s)
    ensures DrainStep(s, a).Some? ==> WorkerBook(DrainStep(s, a).value)
    ensures CallbackStep(s, a).Some? ==> WorkerBook(CallbackStep(s, a).value)
    ensures ScanStep(s, a).Some? ==> WorkerBook(ScanStep(s, a).value)
  {
    if a.BeginCallback? {
      assert PendingBook(s, a.req.vm);
    }
  }

  lemma ReplyOfDevice(s: State, a: Action, x: Reply)
    requires Books(s) && DeviceStep(s, a).Some?
    ensures ReplyBook(DeviceStep(s, a).value, x)
  {
    hide Crossing;
    assert ReplyBook(s, x) && BookOf(s, x.req) && PendingBook(s, x.req.vm);
  }

  lemma ReplyOfOthers(s: State, a: Action, x: Reply)
    requires Books(s) && Step(s, a).Some? && !ByDevice(a)
    ensures ReplyBook(Step(s, a).value, x)
  {
    hide DeviceStep, Crossing, RunOut, Due, Expired, ExpiredVms, WithCancelled;
    assert ReplyBook(s, x);
  }

  lemma ReplyStep(s: State, a: Action, x: Reply)
    requires Books(s) && Step(s, a).Some?
    ensures ReplyBook(Step(s, a).value, x)
  {
    if ByDevice(a) {
      ReplyOfDevice(s, a, x);
    } else {
      ReplyOfOthers(s, a, x);
    }
  }

  lemma BooksStep(s: State, a: Action)
    requires Books(s) && Step(s, a).Some?
    ensures Books(Step(s, a).value)
  {
    hide BookOf, ReplyBook, PendingBook, WorkerBook, RequestStep, DeviceStep, DrainStep, CallbackStep, ScanStep, ManagerStep;
    forall r ensures BookOf(Step(s, a).value, r) {
      BookStep(s, a, r);
    }
    forall x ensures ReplyBook(Step(s, a).value, x) {
      ReplyStep(s, a, x);
    }
    forall vm ensures PendingBook(Step(s, a).value, vm) {
      PendingOfRouter(s, a, vm);
      PendingOfWorker(s, a, vm);
    }
    WorkerBookRouter(s, a);
    WorkerBookWorker(s, a);
  }

  // ----- as many answers as causes -----

  /** As long as its VM stays registered, a request has as many answers as causes. */
  ghost predicate Balanced(s: State, r: Req) {
    && (r !in s.past.asked && r !in s.past.answered ==> Answers(s, r) == 0)
    && (r in s.past.asked && r !in s.past.left ==> Answers(s, r) == Causes(s, r))
  }

  lemma BalancedRequest(s: State, a: Action, r: Req)
    requires Books(s) && Balanced(s, r) && RequestStep(s, a).Some?
    ensures Balanced(RequestStep(s, a).value, r)
  {
    assert BookOf(s, r);
  }

  lemma BalancedManager(s: State, a: Action, r: Req)
    requires Books(s) && Balanced(s, r) && ManagerStep(s, a).Some?
    ensures Balanced(ManagerStep(s, a).value, r)
  {
    assert BookOf(s, r);
  }

  lemma BalancedDevice(s: State, a: Action, r: Req)
    requires Books(s) && Balanced(s, r) && DeviceStep(s, a).Some?
    ensures Balanced(DeviceStep(s, a).value, r)
  {
    hide Count, Flying, Crossing, WithCancelled;
    match a
    case BeginResult(x) => FlyingMore(s.replies, x, Found(Lookup(s, x.req.vm)), r);
    case CancelTimer(x) => FlyingMore(s.replies, x, Cancelled, r);
    case PushResult(x) =>
      FlyingLess(s.replies, x, r);
      CountAppend(s.results, x.req, r);
      assert ReplyBook(s, x);
    case _ =>
  }

  lemma BalancedDrain(s: State, a: Action, r: Req)
    requires Books(s) && Balanced(s, r) && DrainStep(s, a).Some?
    ensures Balanced(DrainStep(s, a).value, r)
  {
    hide Flying;
    assert BookOf(s, r);
    if a.WakeResult? {
      CountAppend(s.delivered, s.worker.req, r);
    }
  }

  lemma BalancedCallback(s: State, a: Action, r: Req)
    requires Books(s) && Balanced(s, r) && CallbackStep(s, a).Some?
    ensures Balanced(CallbackStep(s, a).value, r)
  {
    hide Count;
    assert BookOf(s, r) && WorkerBook(s);
    if a.CallbackPushes? {
      CountAppend(s.results, s.worker.req, r);
    }
  }

  lemma BalancedScan(s: State, a: Action, r: Req)
    requires Books(s) && Balanced(s, r) && ScanStep(s, a).Some?
    ensures Balanced(ScanStep(s, a).value, r)
  {
    assert BookOf(s, r);
    if a.Scan? {
      ExpiredIs(s, r);
    } else if a.WakeTimedOut? {
      CountAppend(s.delivered, a.req, r);
    }
  }

  lemma BalancedStep(s: State, a: Action, r: Req)
    requires Books(s) && Balanced(s, r) && Step(s, a).Some?
    ensures Balanced(Step(s, a).value, r)
  {
    if ByDrain(a) {
      BalancedDrain(s, a, r);
    } else if ByCallback(a) {
      BalancedCallback(s, a, r);
    } else if ByScan(a) {
      BalancedScan(s, a, r);
    } else if ByDevice(a) {
      BalancedDevice(s, a, r);
    } else if ByRequest(a) {
      BalancedRequest(s, a, r);
    } else {
      BalancedManager(s, a, r);
    }
  }

  // ----- the timer of a request that meets no other -----

  /** While the request is under way, nothing else is for its VM. */
  ghost predicate Alone(s: State, r: Req) {
    r in s.past.asked && r !in s.past.crossed && UnderWay(s, r) ==> forall q: Req :: q.vm == r.vm && q != r ==> !UnderWay(s, q)
  }

  /** Who is under way has asked for it, or is the label of a result. */
  lemma OnlySeenUnderWay(s: State, q: Req)
    requires Books(s) && Balanced(s, q) && UnderWay(s, q)
    ensures q in s.past.asked + Labels(s)
  {
    assert BookOf(s, q) && PendingBook(s, q.vm);
    if q in s.results {
      CountPresent(s.results, q);
    }
    if x :| x in s.replies && x.req == q {
      assert ReplyBook(s, x);
    }
  }

  lemma {:induction false} CountPresent(rs: seq<Req>, r: Req)
    requires r in rs
    ensures Count(rs, r) > 0
  {
    if rs[0] != r {
      CountPresent(rs[1..], r);
    }
  }

  /** Only a request that begins, or a result for it, brings it under way. */
  predicate Brings(a: Action, q: Req) {
    (a.BeginRequest? && a.req == q) || (a.BeginResult? && a.reply.req == q)
  }

  lemma StaysQuiet(s: State, a: Action, q: Req)
    requires Books(s) && !UnderWay(s, q) && Step(s, a).Some? && !Brings(a, q)
    ensures !UnderWay(Step(s, a).value, q)
  {
    hide Books, UnderWay, RequestStep, DeviceStep, DrainStep, CallbackStep, ScanStep, ManagerStep;
    QuietRouter(s, a, q);
    QuietWorker(s, a, q);
    QuietOthers(s, a, q);
  }

  lemma QuietRouter(s: State, a: Action, q: Req)
    requires Books(s) && !UnderWay(s, q) && !Brings(a, q)
    ensures RequestStep(s, a).Some? ==> !UnderWay(RequestStep(s, a).value, q)
    ensures DeviceStep(s, a).Some? ==> !UnderWay(DeviceStep(s, a).value, q)
  {
    assert ByDevice(a) && a.reply in s.replies ==> a.reply.req != q;
  }

  lemma QuietOthers(s: State, a: Action, q: Req)
    requires !UnderWay(s, q)
    ensures DrainStep(s, a).Some? ==> !UnderWay(DrainStep(s, a).value, q)
    ensures ManagerStep(s, a).Some? ==> !UnderWay(ManagerStep(s, a).value, q)
  {
  }

  lemma QuietWorker(s: State, a: Action, q: Req)
    requires Books(s) && !UnderWay(s, q)
    ensures ScanStep(s, a).Some? ==> !UnderWay(ScanStep(s, a).value, q)
    ensures CallbackStep(s, a).Some? ==> !UnderWay(CallbackStep(s, a).value, q)
  {
    assert WorkerBook(s);
    if a.Scan? {
      ExpiredIs(s, q);
    }
  }

  lemma AloneStep(s: State, a: Action, r: Req)
    requires Books(s) && (forall q :: Balanced(s, q)) && Alone(s, r) && Step(s, a).Some?
    ensures Alone(Step(s, a).value, r)
  {
    var t := Step(s, a).value;
    if r in t.past.asked && r !in t.past.crossed && UnderWay(t, r) {
      forall q: Req | q.vm == r.vm && q != r ensures !UnderWay(t, q) {
        OtherStaysQuiet(s, a, r, q);
      }
    }
  }

  lemma OtherStaysQuiet(s: State, a: Action, r: Req, q: Req)
    requires Books(s) && (forall q :: Balanced(s, q)) && Alone(s, r) && Step(s, a).Some? && q.vm == r.vm && q != r
    requires var t := Step(s, a).value; r in t.past.asked && r !in t.past.crossed && UnderWay(t, r)
    ensures !UnderWay(Step(s, a).value, q)
  {
    hide Books, Balanced, UnderWay, Others, Step;
    PastGrows(s, a, r);
    if UnderWay(s, q) {
      IsAmongOthers(s, r, q);
    }
    if UnderWay(s, r) {
      IsAmongOthers(s, q, r);
    } else if !Brings(a, r) {
      StaysQuiet(s, a, r);
    }
    if Brings(a, r) {
      CrossesOthers(s, a, r);
    }
    if Brings(a, q) {
      CrossesOthers(s, a, q);
    } else {
      StaysQuiet(s, a, q);
    }
  }

  lemma PastGrows(s: State, a: Action, r: Req)
    requires Step(s, a).Some?
    ensures Grows(s, a, Step(s, a).value, r)
  {
    hide Grows, RequestStep, DeviceStep, DrainStep, CallbackStep, ScanStep, ManagerStep;
    GrowsWithRouter(s, a, r);
    GrowsWithWorker(s, a, r);
  }

  predicate Grows(s: State, a: Action, t: State, r: Req) {
    (r in s.past.crossed ==> r in t.past.crossed) && (r in t.past.asked && !Brings(a, r) ==> r in s.past.asked)
  }

  lemma GrowsWithRouter(s: State, a: Action, r: Req)
    ensures RequestStep(s, a).Some? ==> Grows(s, a, RequestStep(s, a).value, r)
    ensures DeviceStep(s, a).Some? ==> Grows(s, a, DeviceStep(s, a).value, r)
    ensures ManagerStep(s, a).Some? ==> Grows(s, a, ManagerStep(s, a).value, r)
  {
    hide Crossing, Asked;
  }

  lemma GrowsWithWorker(s: State, a: Action, r: Req)
    ensures DrainStep(s, a).Some? ==> Grows(s, a, DrainStep(s, a).value, r)
    ensures CallbackStep(s, a).Some? ==> Grows(s, a, CallbackStep(s, a).value, r)
    ensures ScanStep(s, a).Some? ==> Grows(s, a, ScanStep(s, a).value, r)
  {
    hide RunOut, Due, Expired, ExpiredVms;
  }

  lemma IsAmongOthers(s: State, r: Req, q: Req)
    requires Books(s) && Balanced(s, q) && UnderWay(s, q) && q.vm == r.vm && q != r
    ensures q in Others(s, r)
  {
    hide Books, Balanced, UnderWay;
    OnlySeenUnderWay(s, q);
  }

  lemma CrossesOthers(s: State, a: Action, q: Req)
    requires Step(s, a).Some? && Brings(a, q)
    ensures Others(s, q) <= Step(s, a).value.past.crossed && (Others(s, q) != {} ==> q in Step(s, a).value.past.crossed)
  {
    hide Others;
  }

  /** Between collecting its timers and scanning the records. */
  predicate BeforeScan(w: Worker) { w.Firing? || w.InCallback? || w.Called? }

  /** A timer runs out no sooner than its record, and is cancelled only once that is pending. */
  ghost predicate TimerBook(s: State, r: Req) {
    && (r in s.timers && r in s.requests && s.requests[r].Armed? ==> s.timers[r].expiry >= s.requests[r].time + r.timeout)
    && (r in s.timers && IsPending(s, r) ==> s.timers[r].expiry >= s.pending[r.vm].time + r.timeout)
    && (r in s.timers && r !in s.past.recorded ==> !s.timers[r].cancelled)
    && (r in s.requests && s.requests[r].Armed? && r.timeout > 0 ==> r in s.timers || r in s.past.collected)
  }

  /** The only result for the request has found its record and is about to cancel its timer. */
  ghost predicate Incoming(s: State, r: Req) {
    exists x :: x in s.replies && x.req == r && s.replies[x] == Found(Some(r))
  }

  /** No result has found the record of the request: none has come, or one, too soon. */
  predicate Unheard(s: State, r: Req) {
    s.past.answered[r] == 0 || (s.past.answered[r] == 1 && r in s.past.hasty)
  }

  /** At most one result has come, and none before the record. */
  predicate InTime(s: State, r: Req) {
    s.past.answered[r] <= 1 && r !in s.past.hasty
  }

  /** Then its timer runs until the worker takes it. */
  ghost predicate Ticking(s: State, r: Req) {
    Unheard(s, r) ==> (r in s.timers && !s.timers[r].cancelled) || r in s.past.collected
  }

  /** A timer that runs is that of a pending record, and the result, if there is one, is on its way to
      it. */
  ghost predicate Running(s: State, r: Req) {
    InTime(s, r) && r in s.timers && !s.timers[r].cancelled && r !in s.past.swept ==>
      IsPending(s, r) && (r in s.past.answered ==> Incoming(s, r))
  }

  /** Once the timer of a recorded request has been collected, the scan of the same pass finds the
      request overdue. */
  ghost predicate Overtaken(s: State, r: Req) {
    InTime(s, r) && r in s.past.collected && r !in s.past.early && r !in s.past.swept ==>
      BeforeScan(s.worker) && IsPending(s, r) && s.now - s.pending[r.vm].time >= r.timeout
  }

  /** What holds of a request that meets no other. */
  ghost predicate LoneBook(s: State, r: Req) {
    && TimerBook(s, r)
    && (r.timeout > 0 && r in s.past.recorded && r !in s.past.left && r !in s.past.crossed ==>
          Ticking(s, r) && Running(s, r) && Overtaken(s, r))
  }

  /** What a step of the books starts from. */
  ghost predicate Kept(s: State, r: Req) {
    Books(s) && (forall q :: Balanced(s, q)) && Alone(s, r) && LoneBook(s, r)
  }

  lemma LoneRequest(s: State, a: Action, r: Req)
    requires Kept(s, r) && RequestStep(s, a).Some?
    ensures LoneBook(RequestStep(s, a).value, r)
  {
    assert BookOf(s, r) && BookOf(s, a.req) && PendingBook(s, r.vm);
  }

  lemma LoneDevice(s: State, a: Action, r: Req)
    requires Kept(s, r) && DeviceStep(s, a).Some?
    ensures LoneBook(DeviceStep(s, a).value, r)
  {
    assert BookOf(s, r) && ReplyBook(s, a.reply);
  }

  lemma LoneManager(s: State, a: Action, r: Req)
    requires Kept(s, r) && ManagerStep(s, a).Some?
    ensures LoneBook(ManagerStep(s, a).value, r)
  {
    assert BookOf(s, r) && PendingBook(s, r.vm);
    if a.DropPending? {
      assert PendingBook(s, a.vm);
    }
  }

  lemma LoneDrain(s: State, a: Action, r: Req)
    requires Kept(s, r) && DrainStep(s, a).Some?
    ensures LoneBook(DrainStep(s, a).value, r)
  {
    assert BookOf(s, r);
    if a.ErasePending? {
      assert Balanced(s, r);
      if x :| x in s.replies && x.req == r && s.replies[x] == Found(Some(r)) {
        assert x in Flying(s.replies, r);
      }
    }
  }

  lemma LoneCallback(s: State, a: Action, r: Req)
    requires Kept(s, r) && CallbackStep(s, a).Some?
    ensures LoneBook(CallbackStep(s, a).value, r)
  {
    assert BookOf(s, r) && WorkerBook(s);
    if a.CallbackCancels? {
      assert BookOf(s, s.worker.req);
    }
  }

  lemma LoneScan(s: State, a: Action, r: Req)
    requires Kept(s, r) && ScanStep(s, a).Some?
    ensures LoneBook(ScanStep(s, a).value, r)
  {
    assert BookOf(s, r);
    if a.Scan? {
      ExpiredIs(s, r);
    }
  }

  lemma KeptStep(s: State, a: Action, r: Req)
    requires Kept(s, r) && Step(s, a).Some?
    ensures Kept(Step(s, a).value, r)
  {
    hide Books, Balanced, Alone, LoneBook;
    BooksStep(s, a);
    AloneStep(s, a, r);
    forall q ensures Balanced(Step(s, a).value, q) {
      BalancedStep(s, a, q);
    }
    if ByRequest(a) {
      LoneRequest(s, a, r);
    } else if ByDevice(a) {
      LoneDevice(s, a, r);
    } else if ByDrain(a) {
      LoneDrain(s, a, r);
    } else if ByCallback(a) {
      LoneCallback(s, a, r);
    } else if ByScan(a) {
      LoneScan(s, a, r);
    } else {
      LoneManager(s, a, r);
    }
  }

  lemma KeptInit(r: Req)
    ensures Kept(Init(), r)
  {
    forall q ensures Balanced(Init(), q) {
      assert Flying(map[], q) == {};
    }
  }

  lemma {:induction false} KeptRun(s: State, actions: seq<Action>, t: State, r: Req)
    requires Kept(s, r) && Run(s, actions, t)
    ensures Kept(t, r)
    decreases |actions|
  {
    if actions != [] {
      KeptStep(s, actions[0], r);
      KeptRun(Step(s, actions[0]).value, actions[1..], t, r);
    }
  }

  // ----- exactly once -----

  lemma {:induction false} CountAbsent(rs: seq<Req>, r: Req)
    requires r !in rs
    ensures Count(rs, r) == 0
  {
    if rs != [] {
      CountAbsent(rs[1..], r);
    }
  }

  /** On every interleaving, a settled request whose VM has stayed registered has been answered once for
      each cause: each result that came for it, its timer's callback, the worker's scan. */
  lemma OncePerCause(actions: seq<Action>, t: State, r: Req)
    requires Run(Init(), actions, t) && Settled(t, r) && r !in t.past.left
    ensures Count(t.delivered, r) == t.past.answered[r] + One(r in t.past.collected) + One(r in t.past.swept)
  {
    KeptInit(r);
    KeptRun(Init(), actions, t, r);
    assert Balanced(t, r);
    CountAbsent(t.results, r);
    assert Flying(t.replies, r) == {};
  }

  /** Exactly when a request that never was under way together with anything else for its VM is answered
      once. With a timer: a single result, not before the record, and no scan that finds the record
      overdue; or, where the timer ran out before there was a record, neither result nor scan. Without
      one: a single result or a scan, but not both. */
  lemma AnsweredOnceIff(actions: seq<Action>, t: State, r: Req)
    requires Run(Init(), actions, t) && Settled(t, r) && r !in t.past.left && r !in t.past.crossed
    ensures Count(t.delivered, r) == 1 <==>
      if r.timeout <= 0 then t.past.answered[r] + One(r in t.past.swept) == 1
      else if r in t.past.early then t.past.answered[r] == 0 && r !in t.past.swept
      else t.past.answered[r] == 1 && r !in t.past.hasty && r !in t.past.swept
  {
    KeptInit(r);
    KeptRun(Init(), actions, t, r);
    OncePerCause(actions, t, r);
    assert BookOf(t, r);
  }

  /** In particular a recorded request with a timer for which no result comes is answered twice: by the
      callback of that timer and by the scan of the same pass. */
  lemma TimeoutAnsweredTwice(actions: seq<Action>, t: State, r: Req)
    requires Run(Init(), actions, t) && Settled(t, r) && r !in t.past.left && r !in t.past.crossed && r.timeout > 0
    requires r !in t.past.early && r !in t.past.answered
    ensures r in t.past.collected && r in t.past.swept && Count(t.delivered, r) == 2
  {
    KeptInit(r);
    KeptRun(Init(), actions, t, r);
    OncePerCause(actions, t, r);
    assert BookOf(t, r);
  }

  /** So is, twice or more often, one with a result that comes before the record: that result does not
      find the timer. */
  lemma HastyAnsweredAgain(actions: seq<Action>, t: State, r: Req)
    requires Run(Init(), actions, t) && Settled(t, r) && r !in t.past.left && r !in t.past.crossed && r.timeout > 0
    requires r in t.past.hasty
    ensures Count(t.delivered, r) >= 2
  {
    KeptInit(r);
    KeptRun(Init(), actions, t, r);
    OncePerCause(actions, t, r);
    assert BookOf(t, r);
  }

  // ----- runs that answer twice -----

  const ASKED := Req(0, 7, 100)
  const FIRST := Reply(0, ASKED)
  const SECOND := Reply(1, ASKED)

  lemma More(xs: seq<Action>, s: State, a: Action, t: State) returns (ys: seq<Action>)
    requires Run(Init(), xs, s) && Step(s, a) == Some(t)
    ensures Run(Init(), ys, t)
  {
    RunMore(Init(), xs, s, a, t);
    ys := xs + [a];
  }

  lemma {:induction false} RunMore(s0: State, xs: seq<Action>, s: State, a: Action, t: State)
    requires Run(s0, xs, s) && Step(s, a) == Some(t)
    ensures Run(s0, xs + [a], t)
    decreases |xs|
  {
    hide Step;
    if xs == [] {
      assert [a][1..] == [] && xs + [a] == [a];
      assert Run(t, [], t);
    } else {
      assert (xs + [a])[1..] == xs[1..] + [a];
      RunMore(Step(s0, xs[0]).value, xs[1..], s, a, t);
    }
  }

  // The steps of these runs, from any state.

  lemma Nothing() returns (xs: seq<Action>)
    ensures Run(Init(), xs, Init())
  {
    xs := [];
  }

  lemma Begin() returns (xs: seq<Action>, t: State)
    ensures Run(Init(), xs, t)
    ensures t == Init().(registered := {7}, scheduled := {7}, requests := map[ASKED := Checked], past := Init().past.(asked := {ASKED}))
  {
    hide Run;
    var s := Init().(registered := {7}, scheduled := {7});
    t := s.(requests := map[ASKED := Checked], past := s.past.(asked := {ASKED}));
    assert Init().registered + {7} == {7} && Init().blocked - {7} == {} && Init().past.renewed + Asked(Init(), 7) == {};
    assert Others(s, ASKED) == {} && s.past.crossed + Crossing(s, ASKED) == {} && s.past.asked + {ASKED} == {ASKED};
    assert s.requests[ASKED := Checked] == map[ASKED := Checked];
    xs := Nothing();
    xs := More(xs, Init(), Register(7), s);
    xs := More(xs, s, BeginRequest(ASKED), t);
  }

  /** The VM is blocked and the timer of the request is set, but there is no record yet. */
  lemma Arm(ws: seq<Action>, s: State) returns (xs: seq<Action>, t: State)
    requires Run(Init(), ws, s) && s.requests == map[ASKED := Checked] && s.timers == map[] && s.blocked == {}
    requires s.now == 0 && 7 in s.scheduled
    ensures Run(Init(), xs, t)
    ensures t == s.(blocked := {7}, requests := map[ASKED := Armed(0)], timers := map[ASKED := Timer(100, false)],
                    past := s.past.(taken := s.past.taken[ASKED := 0]))
  {
    hide Run, DeviceStep, DrainStep, CallbackStep, ScanStep, ManagerStep;
    var s1 := s.(requests := map[ASKED := Blocking], blocked := {7});
    var s2 := s1.(requests := map[ASKED := Timed(0)], past := s.past.(taken := s.past.taken[ASKED := 0]));
    t := s2.(requests := map[ASKED := Armed(0)], timers := map[ASKED := Timer(100, false)]);
    assert s.requests[ASKED := Blocking] == s1.requests && s.blocked + {7} == {7} && s1.requests[ASKED := Timed(0)] == s2.requests;
    assert s2.timers[ASKED := Timer(100, false)] == t.timers && s2.requests[ASKED := Armed(0)] == t.requests;
    xs := More(ws, s, BlockVm(ASKED), s1);
    xs := More(xs, s1, TakeTime(ASKED), s2);
    xs := More(xs, s2, ArmTimer(ASKED, 0), t);
  }

  lemma Enter(ws: seq<Action>, s: State) returns (xs: seq<Action>, t: State)
    requires Run(Init(), ws, s) && s.requests == map[ASKED := Armed(0)] && s.pending == map[] && s.past.recorded == {}
    ensures Run(Init(), xs, t)
    ensures t == s.(requests := map[], pending := map[7 := Pending(ASKED, 0)], past := s.past.(recorded := {ASKED}))
  {
    hide Run, DeviceStep, DrainStep, CallbackStep, ScanStep, ManagerStep;
    t := s.(requests := map[], pending := map[7 := Pending(ASKED, 0)], past := s.past.(recorded := {ASKED}));
    assert s.requests - {ASKED} == map[] && s.past.recorded + {ASKED} == {ASKED};
    assert s.pending[7 := Pending(ASKED, 0)] == t.pending;
    xs := More(ws, s, Record(ASKED), t);
  }

  function Heard(p: Past): Past {
    p.(answered := p.answered + multiset{ASKED}, hasty := if ASKED in p.recorded then p.hasty else p.hasty + {ASKED})
  }

  /** The message `x` comes: it cancels the timer if there is a record, and its result is queued. */
  lemma Receive(ws: seq<Action>, s: State, x: Reply) returns (xs: seq<Action>, t: State)
    requires Run(Init(), ws, s) && x.req == ASKED && s.replies == map[] && s.worker.Start?
    requires s.past.asked == {ASKED} && (forall q :: q in s.past.answered ==> q == ASKED)
    requires s.timers.Keys == {ASKED} && s.timers[ASKED].expiry == 100 && (7 in s.pending ==> s.pending[7].req == ASKED)
    ensures Run(Init(), xs, t)
    ensures t == s.(timers := map[ASKED := Timer(100, s.timers[ASKED].cancelled || 7 in s.pending)], results := s.results + [ASKED],
                    past := Heard(s.past))
  {
    hide Run, RequestStep, DrainStep, CallbackStep, ScanStep, ManagerStep, Crossing, Heard;
    var timers := map[ASKED := Timer(100, s.timers[ASKED].cancelled || 7 in s.pending)];
    var s1 := s.(replies := map[x := Found(Lookup(s, 7))], past := Heard(s.past));
    var s2 := s.(timers := timers, replies := map[x := Cancelled], past := Heard(s.past));
    t := s.(timers := timers, results := s.results + [ASKED], past := Heard(s.past));
    ResultBegins(s, x);
    assert WithCancelled(s.timers, Lookup(s, 7)) == timers;
    assert s1.replies[x := Cancelled] == s2.replies && s2.replies - {x} == map[];
    xs := More(ws, s, BeginResult(x), s1);
    xs := More(xs, s1, CancelTimer(x), s2);
    xs := More(xs, s2, PushResult(x), t);
  }

  lemma ResultBegins(s: State, x: Reply)
    requires x.req == ASKED && s.replies == map[] && s.past.asked == {ASKED} && forall q :: q in s.past.answered ==> q == ASKED
    ensures DeviceStep(s, BeginResult(x)) == Some(s.(replies := map[x := Found(Lookup(s, 7))], past := Heard(s.past)))
  {
    NoOthers(s);
    assert s.replies[x := Found(Lookup(s, 7))] == map[x := Found(Lookup(s, 7))];
  }

  lemma NoOthers(s: State)
    requires s.past.asked == {ASKED} && forall q :: q in s.past.answered ==> q == ASKED
    ensures s.past.crossed + Crossing(s, ASKED) == s.past.crossed
  {
    assert Others(s, ASKED) == {};
  }

  /** The first result of the queue reaches the VM. */
  lemma Deliver(ws: seq<Action>, s: State) returns (xs: seq<Action>, t: State)
    requires Run(Init(), ws, s) && s.worker.Draining? && s.results != [] && s.results[0] == ASKED
    requires 7 in s.scheduled && 7 in s.registered
    ensures Run(Init(), xs, t)
    ensures t == s.(results := s.results[1..], pending := s.pending - {7}, blocked := s.blocked - {7}, delivered := s.delivered + [ASKED])
  {
    hide Run, RequestStep, DeviceStep, CallbackStep, ScanStep, ManagerStep;
    var s1 := s.(results := s.results[1..], worker := Popped(ASKED));
    var s2 := s1.(pending := s.pending - {7}, worker := Erased(ASKED));
    t := s2.(blocked := s.blocked - {7}, delivered := s.delivered + [ASKED], worker := Draining);
    xs := More(ws, s, Pop, s1);
    xs := More(xs, s1, ErasePending, s2);
    xs := More(xs, s2, WakeResult, t);
  }

  /** The timer has run out, and the worker takes it: it is due unless it was cancelled. */
  lemma CollectTimer(ws: seq<Action>, s: State) returns (xs: seq<Action>, t: State)
    requires Run(Init(), ws, s) && s.worker.Draining? && s.results == [] && s.now == 100
    requires ASKED in s.past.recorded && s.past.collected == {} && s.timers.Keys == {ASKED} && s.timers[ASKED].expiry == 100
    ensures Run(Init(), xs, t)
    ensures var due := if s.timers[ASKED].cancelled then {} else {ASKED};
      t == s.(worker := Firing(due), timers := map[], past := s.past.(collected := due))
  {
    hide Run, RequestStep, DeviceStep, ScanStep, ManagerStep;
    var s1, due := s.(worker := Calling), if s.timers[ASKED].cancelled then {} else {ASKED};
    t := s.(worker := Firing(due), timers := map[], past := s.past.(collected := due));
    assert RunOut(s1) == {ASKED} && Due(s1) == due && s.timers - {ASKED} == map[];
    assert s.past.early + (due - s.past.recorded) == s.past.early && s.past.collected + due == due;
    xs := More(ws, s, EndDrain, s1);
    xs := More(xs, s1, Collect, t);
  }

  lemma CallBack(ws: seq<Action>, s: State) returns (xs: seq<Action>, t: State)
    requires Run(Init(), ws, s) && s.worker == Firing({ASKED}) && s.timers == map[]
    ensures Run(Init(), xs, t)
    ensures t == s.(results := s.results + [ASKED], worker := Called)
  {
    hide Run, RequestStep, DeviceStep, DrainStep, ScanStep, ManagerStep, RunOut, Due;
    var s1 := s.(worker := InCallback({ASKED}, ASKED, Found(Lookup(s, 7))));
    var s2 := s.(worker := InCallback({ASKED}, ASKED, Cancelled));
    var s3 := s.(results := s.results + [ASKED], worker := Firing({}));
    t := s.(results := s.results + [ASKED], worker := Called);
    assert {ASKED} - {ASKED} == {};
    xs := More(ws, s, BeginCallback(ASKED), s1);
    xs := More(xs, s1, CallbackCancels, s2);
    xs := More(xs, s2, CallbackPushes, s3);
    xs := More(xs, s3, EndCallbacks, t);
  }

  /** The scan finds the record overdue, if it is still there, and the next pass begins. */
  lemma ScanRecords(ws: seq<Action>, s: State) returns (xs: seq<Action>, t: State)
    requires Run(Init(), ws, s) && s.worker.Called? && s.now == 100 && s.pending == map[7 := Pending(ASKED, 0)]
    requires 7 in s.scheduled && 7 in s.registered && s.past.swept == {}
    ensures Run(Init(), xs, t)
    ensures t == s.(blocked := s.blocked - {7}, pending := map[], worker := Draining, delivered := s.delivered + [ASKED],
                    past := s.past.(swept := {ASKED}))
  {
    hide Run, RequestStep, DeviceStep, CallbackStep, ManagerStep;
    var s1 := s.(pending := map[], worker := Waking({ASKED}), past := s.past.(swept := {ASKED}));
    var s2 := s1.(blocked := s.blocked - {7}, delivered := s.delivered + [ASKED], worker := Waking({}));
    t := s2.(worker := Draining);
    FindOverdue(s);
    assert {ASKED} - {ASKED} == {};
    xs := More(ws, s, Scan, s1);
    xs := More(xs, s1, WakeTimedOut(ASKED), s2);
    xs := More(xs, s2, EndPass, s2.(worker := Start));
    xs := More(xs, s2.(worker := Start), BeginPass, t);
  }

  lemma FindOverdue(s: State)
    requires s.worker.Called? && s.now == 100 && s.pending == map[7 := Pending(ASKED, 0)] && s.past.swept == {}
    ensures ScanStep(s, Scan) == Some(s.(pending := map[], worker := Waking({ASKED}), past := s.past.(swept := {ASKED})))
  {
    assert 7 in ExpiredVms(s) && ExpiredVms(s) == {7};
    assert s.pending[7].req in Expired(s) && Expired(s) == {ASKED};
    assert s.pending - {7} == map[] && s.past.swept + {ASKED} == {ASKED};
  }

  lemma ScanNothing(ws: seq<Action>, s: State) returns (xs: seq<Action>, t: State)
    requires Run(Init(), ws, s) && s.worker.Called? && s.pending == map[]
    ensures Run(Init(), xs, t) && t == s.(worker := Draining)
  {
    hide Run, RequestStep, DeviceStep, CallbackStep, ManagerStep;
    var s1 := s.(worker := Waking({}));
    assert Expired(s) == {} && ExpiredVms(s) == {} && s.pending - {} == s.pending && s.past.swept + {} == s.past.swept;
    xs := More(ws, s, Scan, s1);
    xs := More(xs, s1, EndPass, s.(worker := Start));
    t := s.(worker := Draining);
    xs := More(xs, s.(worker := Start), BeginPass, t);
  }

  lemma Wait(ws: seq<Action>, s: State) returns (xs: seq<Action>, t: State)
    requires Run(Init(), ws, s) && s.worker.Start?
    ensures Run(Init(), xs, t) && t == s.(now := s.now + 100, worker := Draining)
  {
    hide Run;
    t := s.(now := s.now + 100, worker := Draining);
    xs := More(ws, s, Tick(100), s.(now := s.now + 100));
    xs := More(xs, s.(now := s.now + 100), BeginPass, t);
  }

  /** No result comes: the VM's handler is called by the scan and for the timer. */
  lemma NoResult() returns (xs: seq<Action>, t: State)
    ensures Run(Init(), xs, t) && Settled(t, ASKED) && ASKED !in t.past.left && ASKED !in t.past.crossed
    ensures ASKED !in t.past.answered && t.delivered == [ASKED, ASKED]
  {
    hide Run, Step;
    xs, t := Begin();
    xs, t := Arm(xs, t);
    xs, t := Enter(xs, t);
    xs, t := Wait(xs, t);
    xs, t := CollectTimer(xs, t);
    xs, t := CallBack(xs, t);
    xs, t := ScanRecords(xs, t);
    xs, t := Deliver(xs, t);
  }

  /** Two results, both after the record and long before the timer would run out: the VM's handler is
      called for each. A routed request reaches its device as the VM sent it and as the manager forwarded
      it, and is answered both times. */
  lemma ResultTwice() returns (xs: seq<Action>, t: State)
    ensures Run(Init(), xs, t) && Settled(t, ASKED) && ASKED !in t.past.left && ASKED !in t.past.crossed
    ensures ASKED !in t.past.hasty && ASKED !in t.past.collected && ASKED !in t.past.swept
    ensures t.past.answered[ASKED] == 2 && t.delivered == [ASKED, ASKED]
  {
    hide Run, Step;
    xs, t := Begin();
    xs, t := Arm(xs, t);
    xs, t := Enter(xs, t);
    xs, t := Receive(xs, t, FIRST);
    xs, t := Receive(xs, t, SECOND);
    xs, t := Wait(xs, t);
    xs, t := Deliver(xs, t);
    xs, t := Deliver(xs, t);
    xs, t := CollectTimer(xs, t);
  }

  /** A single result, which comes before the record: the VM's handler is called for it and for the
      timer. */
  lemma ResultTooSoon() returns (xs: seq<Action>, t: State)
    ensures Run(Init(), xs, t) && Settled(t, ASKED) && ASKED !in t.past.left && ASKED !in t.past.crossed
    ensures t.past.answered[ASKED] == 1 && ASKED !in t.past.swept && t.delivered == [ASKED, ASKED]
  {
    hide Run, Step;
    xs, t := Begin();
    xs, t := Arm(xs, t);
    xs, t := Receive(xs, t, FIRST);
    xs, t := Enter(xs, t);
    xs, t := Wait(xs, t);
    xs, t := Deliver(xs, t);
    xs, t := CollectTimer(xs, t);
    xs, t := CallBack(xs, t);
    xs, t := ScanNothing(xs, t);
    xs, t := Deliver(xs, t);
  }
}
