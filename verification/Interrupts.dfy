/** How a VM waits for an interrupt result: requests and results from the router, timers and their
    callbacks, the worker's passes, registration and unregistration, interleaved at every lock. */
module Interrupts {
  import opened Wrappers

  type Vm = nat

  /** A request, told apart from all others by its number. */
  datatype Req = Req(serial: nat, vm: Vm, timeout: int)

  /** A message with a result, told apart from all others by its number. It names a VM only; `req` says
      for whom it counts: for the request that it answers, or for one that no VM ever makes. */
  datatype Reply = Reply(serial: nat, req: Req)

  /** How far the router is with a request: checked; with the VM blocked; with its time taken; with its
      timer set, if the timeout is positive. */
  datatype Stage = Checked | Blocking | Timed(time: int) | Armed(time: int)

  datatype Pending = Pending(req: Req, time: int)

  datatype Timer = Timer(expiry: int, cancelled: bool)

  /** How far the handling of a result is: it has looked up whose timer to cancel; it has done so. */
  datatype Handling = Found(timer: Option<Req>) | Cancelled

  /** Where the worker is in its pass. In `Firing` it runs the callbacks of the timers it has collected. */
  datatype Worker =
    | Start
    | Draining
    | Popped(req: Req)
    | Erased(req: Req)
    | Calling
    | Firing(due: set<Req>)
    | InCallback(due: set<Req>, req: Req, handling: Handling)
    | Called
    | Waking(timedOut: set<Req>)

  datatype State = State(
    now: int,
    registered: set<Vm>,             // VMs of the manager
    leaving: set<Vm>,                // VMs being unregistered
    scheduled: set<Vm>,              // VMs of the scheduler
    blocked: set<Vm>,
    requests: map<Req, Stage>,       // the requests being handled
    pending: map<Vm, Pending>,
    timers: map<Req, Timer>,
    replies: map<Reply, Handling>,   // the results being handled
    results: seq<Req>,               // the queue of asynchronous results
    worker: Worker,
    delivered: seq<Req>,             // for which requests an interrupt handler has been called
    past: Past)

  /** What has happened to requests: begun; when the time for the record was taken; recorded as pending; how many results have come, and which
      had one before they were recorded; their timer collected by the worker, before they were recorded
      or at all; found overdue by its scan; under way at the same time as another request of their VM, or
      as a result for it that counts for another; their VM unregistered, or registered anew, since they were begun. */
  datatype Past = Past(asked: set<Req>, taken: map<Req, int>, recorded: set<Req>, answered: multiset<Req>, hasty: set<Req>, early: set<Req>,
                       collected: set<Req>, swept: set<Req>, crossed: set<Req>, left: set<Req>, renewed: set<Req>)

  datatype Action =
    | Tick(ms: nat)
    | Register(vm: Vm)
    | LeaveManager(vm: Vm) | LeaveScheduler(vm: Vm) | DropPending(vm: Vm)
    | BeginRequest(req: Req) | BlockVm(req: Req) | TakeTime(req: Req) | ArmTimer(req: Req, at: int) | Record(req: Req)
    | BeginResult(reply: Reply) | CancelTimer(reply: Reply) | PushResult(reply: Reply)
    | BeginPass | Pop | ErasePending | WakeResult | EndDrain
    | Collect | BeginCallback(req: Req) | CallbackCancels | CallbackPushes | EndCallbacks
    | Scan | WakeTimedOut(req: Req) | EndPass

  function Init(): State {
    State(0, {}, {}, {}, {}, map[], map[], map[], map[], [], Start, [], Past({}, map[], {}, multiset{}, {}, {}, {}, {}, {}, {}, {}))
  }

  function One(b: bool): nat { if b then 1 else 0 }

  /** The worker holds an answer to the request. */
  function Held(w: Worker, r: Req): nat {
    match w
    case Popped(q) => One(q == r)
    case Erased(q) => One(q == r)
    case Firing(due) => One(r in due)
    case InCallback(due, _, _) => One(r in due)
    case Waking(rs) => One(r in rs)
    case _ => 0
  }

  predicate IsPending(s: State, r: Req) {
    r.vm in s.pending && s.pending[r.vm].req == r
  }

  /** The request is being handled, or its timer is set, its record pending, or a result for it is on
      its way to the VM. */
  predicate UnderWay(s: State, r: Req) {
    || r in s.requests || r in s.timers || IsPending(s, r)
    || (exists x :: x in s.replies && x.req == r) || r in s.results || Held(s.worker, r) > 0
  }

  /** All that was begun for the request has come to its end. */
  predicate Settled(s: State, r: Req) { r in s.past.asked && !UnderWay(s, r) }

  /** Whatever else is under way for its VM when something begins for `r`. */
  function Others(s: State, r: Req): set<Req> {
    set q | q in s.past.asked + Labels(s) && q.vm == r.vm && q != r && UnderWay(s, q)
  }

  /** For whom results have counted. */
  function Labels(s: State): set<Req> {
    set q | q in s.past.answered
  }

  /** The requests that are under way together from now on. */
  function Crossing(s: State, r: Req): set<Req> {
    if Others(s, r) == {} then {} else Others(s, r) + {r}
  }

  /** The worker answers a request: the scheduler clears the blocked flag of a VM that it knows, and the
      manager calls the handler of a VM that is still registered. */
  function Answer(s: State, r: Req, next: Worker): State {
    s.(blocked := if r.vm in s.scheduled then s.blocked - {r.vm} else s.blocked,
       delivered := if r.vm in s.registered then s.delivered + [r] else s.delivered,
       worker := next)
  }

  /** The pending requests whose time has passed. */
  function Expired(s: State): set<Req> {
    set vm | vm in s.pending && s.now - s.pending[vm].time >= s.pending[vm].req.timeout :: s.pending[vm].req
  }

  function ExpiredVms(s: State): set<Vm> {
    set vm | vm in s.pending && s.now - s.pending[vm].time >= s.pending[vm].req.timeout
  }

  /** The timers that have run out; those not cancelled are due. */
  function RunOut(s: State): set<Req> {
    set r | r in s.timers && s.timers[r].expiry <= s.now
  }

  function Due(s: State): set<Req> {
    set r | r in RunOut(s) && !s.timers[r].cancelled
  }

  /** Whose timer a result for the VM cancels. */
  function Lookup(s: State, vm: Vm): Option<Req> {
    if vm in s.pending then Some(s.pending[vm].req) else None
  }

  function WithCancelled(timers: map<Req, Timer>, r: Option<Req>): map<Req, Timer> {
    if r.Some? && r.value in timers then timers[r.value := timers[r.value].(cancelled := true)] else timers
  }

  /** The queue of results is locked while the worker drains it. */
  predicate ResultsLocked(s: State) {
    s.worker.Draining? || s.worker.Popped? || s.worker.Erased?
  }

  // The actions, by who takes them.

  predicate ByRequest(a: Action) { a.BeginRequest? || a.BlockVm? || a.TakeTime? || a.ArmTimer? || a.Record? }

  predicate ByDevice(a: Action) { a.BeginResult? || a.CancelTimer? || a.PushResult? }

  predicate ByDrain(a: Action) { a.BeginPass? || a.Pop? || a.ErasePending? || a.WakeResult? || a.EndDrain? }

  predicate ByCallback(a: Action) { a.Collect? || a.BeginCallback? || a.CallbackCancels? || a.CallbackPushes? || a.EndCallbacks? }

  predicate ByScan(a: Action) { a.Scan? || a.WakeTimedOut? || a.EndPass? }

  /** One step; none if the action is not possible. */
  function Step(s: State, a: Action): Option<State> {
    if ByRequest(a) then RequestStep(s, a)
    else if ByDevice(a) then DeviceStep(s, a)
    else if ByDrain(a) then DrainStep(s, a)
    else if ByCallback(a) then CallbackStep(s, a)
    else if ByScan(a) then ScanStep(s, a)
    else ManagerStep(s, a)
  }

  /** What the VM has asked for so far. */
  function Asked(s: State, vm: Vm): set<Req> {
    set r | r in s.past.asked && r.vm == vm
  }

  /** Time, registration and unregistration: that of a VM holds the manager's lock throughout. */
  function ManagerStep(s: State, a: Action): Option<State> {
    match a
    case Tick(ms) => Some(s.(now := s.now + ms))
    case Register(vm) =>
      if vm in s.leaving then None
      else Some(s.(registered := s.registered + {vm}, scheduled := s.scheduled + {vm}, blocked := s.blocked - {vm},
                   past := s.past.(renewed := s.past.renewed + Asked(s, vm))))
    case LeaveManager(vm) =>
      Some(s.(registered := s.registered - {vm}, leaving := s.leaving + {vm},
              past := s.past.(left := s.past.left + Asked(s, vm))))
    case LeaveScheduler(vm) => if vm in s.leaving then Some(s.(scheduled := s.scheduled - {vm})) else None
    case DropPending(vm) =>
      if vm in s.leaving && vm !in s.scheduled then
        Some(s.(timers := WithCancelled(s.timers, Lookup(s, vm)), pending := s.pending - {vm}, leaving := s.leaving - {vm}))
      else None
    case _ => None
  }

  function RequestStep(s: State, a: Action): Option<State> {
    match a
    case BeginRequest(r) =>
      if r in s.past.asked || r in s.past.answered || r.vm !in s.registered then None
      else Some(s.(requests := s.requests[r := Checked],
                   past := s.past.(asked := s.past.asked + {r}, crossed := s.past.crossed + Crossing(s, r))))
    case BlockVm(r) =>
      if r in s.requests && s.requests[r].Checked? then
        Some(s.(blocked := if r.vm in s.scheduled then s.blocked + {r.vm} else s.blocked, requests := s.requests[r := Blocking]))
      else None
    case TakeTime(r) =>
      if r in s.requests && s.requests[r].Blocking? then
        Some(s.(requests := s.requests[r := Timed(s.now)], past := s.past.(taken := s.past.taken[r := s.now])))
      else None
    case ArmTimer(r, at) =>
      if r in s.requests && s.requests[r].Timed? && s.requests[r].time <= at <= s.now then
        Some(s.(timers := if r.timeout > 0 then s.timers[r := Timer(at + r.timeout, false)] else s.timers,
                requests := s.requests[r := Armed(s.requests[r].time)]))
      else None
    case Record(r) =>
      if r in s.requests && s.requests[r].Armed? then
        Some(s.(pending := s.pending[r.vm := Pending(r, s.requests[r].time)], requests := s.requests - {r},
                past := s.past.(recorded := s.past.recorded + {r})))
      else None
    case _ => None
  }

  /** A result comes for a VM: at any time, any number of times, for any VM. */
  function DeviceStep(s: State, a: Action): Option<State> {
    match a
    case BeginResult(x) =>
      if x in s.replies then None
      else Some(s.(replies := s.replies[x := Found(Lookup(s, x.req.vm))],
                   past := s.past.(answered := s.past.answered + multiset{x.req},
                                   hasty := if x.req in s.past.recorded then s.past.hasty else s.past.hasty + {x.req},
                                   crossed := s.past.crossed + Crossing(s, x.req))))
    case CancelTimer(x) =>
      if x in s.replies && s.replies[x].Found? then
        Some(s.(timers := WithCancelled(s.timers, s.replies[x].timer), replies := s.replies[x := Cancelled]))
      else None
    case PushResult(x) =>
      if x in s.replies && s.replies[x].Cancelled? && !ResultsLocked(s) then
        Some(s.(results := s.results + [x.req], replies := s.replies - {x}))
      else None
    case _ => None
  }

  /** The worker empties the queue of results. */
  function DrainStep(s: State, a: Action): Option<State> {
    match a
    case BeginPass => if s.worker.Start? then Some(s.(worker := Draining)) else None
    case Pop =>
      if s.worker.Draining? && s.results != [] then Some(s.(worker := Popped(s.results[0]), results := s.results[1..])) else None
    case ErasePending =>
      if s.worker.Popped? then Some(s.(worker := Erased(s.worker.req), pending := s.pending - {s.worker.req.vm})) else None
    case WakeResult => if s.worker.Erased? then Some(Answer(s, s.worker.req, Draining)) else None
    case EndDrain => if s.worker.Draining? && s.results == [] then Some(s.(worker := Calling)) else None
    case _ => None
  }

  /** The worker takes the timers that have run out and calls back those not cancelled. A callback
      sends a result for its VM, as a device would. */
  function CallbackStep(s: State, a: Action): Option<State> {
    match a
    case Collect =>
      if s.worker.Calling? then
        Some(s.(worker := Firing(Due(s)), timers := s.timers - RunOut(s),
                past := s.past.(early := s.past.early + (Due(s) - s.past.recorded), collected := s.past.collected + Due(s))))
      else None
    case BeginCallback(r) =>
      if s.worker.Firing? && r in s.worker.due then Some(s.(worker := InCallback(s.worker.due, r, Found(Lookup(s, r.vm))))) else None
    case CallbackCancels =>
      if s.worker.InCallback? && s.worker.handling.Found? then
        Some(s.(timers := WithCancelled(s.timers, s.worker.handling.timer), worker := s.worker.(handling := Cancelled)))
      else None
    case CallbackPushes =>
      if s.worker.InCallback? && s.worker.handling.Cancelled? then
        Some(s.(results := s.results + [s.worker.req], worker := Firing(s.worker.due - {s.worker.req})))
      else None
    case EndCallbacks => if s.worker.Firing? && s.worker.due == {} then Some(s.(worker := Called)) else None
    case _ => None
  }

  /** The worker takes the records whose time has passed and answers them itself. */
  function ScanStep(s: State, a: Action): Option<State> {
    match a
    case Scan =>
      if s.worker.Called? then
        Some(s.(worker := Waking(Expired(s)), pending := s.pending - ExpiredVms(s), past := s.past.(swept := s.past.swept + Expired(s))))
      else None
    case WakeTimedOut(r) =>
      if s.worker.Waking? && r in s.worker.timedOut then Some(Answer(s, r, Waking(s.worker.timedOut - {r}))) else None
    case EndPass => if s.worker.Waking? && s.worker.timedOut == {} then Some(s.(worker := Start)) else None
    case _ => None
  }

  // ----- no VM is stuck -----

  /** No request of the VM is being handled. */
  ghost predicate NoRequest(s: State, vm: Vm) {
    forall r :: r in s.requests ==> r.vm != vm
  }

  /** A request for the VM is past blocking it. */
  ghost predicate BlockedByRequest(s: State, vm: Vm) {
    exists r :: r in s.requests && r.vm == vm && !s.requests[r].Checked?
  }

  /** The worker holds the VM and will wake it. */
  ghost predicate WakeInProgress(s: State, vm: Vm) {
    match s.worker
    case Popped(r) => r.vm == vm
    case Erased(r) => r.vm == vm
    case Waking(rs) => exists r :: r in rs && r.vm == vm
    case _ => false
  }

  /** A blocked VM that is registered has a pending record, or a request or a wake under way. */
  ghost predicate NotStuck(s: State, vm: Vm) {
    vm in s.registered && vm in s.blocked ==> vm in s.pending || BlockedByRequest(s, vm) || WakeInProgress(s, vm)
  }

  ghost predicate Inv(s: State) {
    Framed(s) && forall vm :: NotStuck(s, vm)
  }

  lemma InitInv()
    ensures Inv(Init())
  {
  }

  lemma RequestStepInv(s: State, a: Action, vm: Vm)
    requires Inv(s) && RequestStep(s, a).Some?
    ensures NotStuck(RequestStep(s, a).value, vm)
  {
    var t := RequestStep(s, a).value;
    assert NotStuck(s, vm);
    if vm in t.registered && vm in t.blocked && vm !in t.pending {
      if BlockedByRequest(s, vm) {
        var r :| r in s.requests && r.vm == vm && !s.requests[r].Checked?;
        assert r in t.requests && !t.requests[r].Checked?;
      } else if vm !in s.blocked {
        assert a.req in t.requests && a.req.vm == vm && !t.requests[a.req].Checked?;
      }
    }
  }

  lemma DrainStepInv(s: State, a: Action, vm: Vm)
    requires Inv(s) && DrainStep(s, a).Some?
    ensures NotStuck(DrainStep(s, a).value, vm)
  {
    assert NotStuck(s, vm);
    assert BlockedByRequest(DrainStep(s, a).value, vm) == BlockedByRequest(s, vm);
  }

  lemma CallbackStepInv(s: State, a: Action, vm: Vm)
    requires Inv(s) && CallbackStep(s, a).Some?
    ensures NotStuck(CallbackStep(s, a).value, vm)
  {
    assert NotStuck(s, vm);
    assert BlockedByRequest(CallbackStep(s, a).value, vm) == BlockedByRequest(s, vm);
  }

  lemma ScanStepInv(s: State, a: Action, vm: Vm)
    requires Inv(s) && ScanStep(s, a).Some?
    ensures NotStuck(ScanStep(s, a).value, vm)
  {
    var t := ScanStep(s, a).value;
    assert NotStuck(s, vm);
    assert BlockedByRequest(t, vm) == BlockedByRequest(s, vm);
    if a.Scan? && vm in s.pending && vm !in t.pending {
      assert s.pending[vm].req in t.worker.timedOut && s.pending[vm].req.vm == vm;
    }
    if a.WakeTimedOut? && vm in t.blocked && vm in t.registered && WakeInProgress(s, vm) {
      var r :| r in s.worker.timedOut && r.vm == vm;
      assert r in t.worker.timedOut;
    }
  }

  lemma OtherStepInv(s: State, a: Action, vm: Vm)
    requires Inv(s) && (DeviceStep(s, a).Some? || ManagerStep(s, a).Some?)
    ensures DeviceStep(s, a).Some? ==> NotStuck(DeviceStep(s, a).value, vm)
    ensures ManagerStep(s, a).Some? ==> NotStuck(ManagerStep(s, a).value, vm)
  {
    assert NotStuck(s, vm);
    if DeviceStep(s, a).Some? {
      assert BlockedByRequest(DeviceStep(s, a).value, vm) == BlockedByRequest(s, vm);
    }
    if ManagerStep(s, a).Some? {
      assert BlockedByRequest(ManagerStep(s, a).value, vm) == BlockedByRequest(s, vm);
    }
  }

  lemma NotStuckStep(s: State, a: Action, vm: Vm)
    requires Inv(s) && Step(s, a).Some?
    ensures NotStuck(Step(s, a).value, vm)
  {
    if ByRequest(a) {
      RequestStepInv(s, a, vm);
    } else if ByDrain(a) {
      DrainStepInv(s, a, vm);
    } else if ByCallback(a) {
      CallbackStepInv(s, a, vm);
    } else if ByScan(a) {
      ScanStepInv(s, a, vm);
    } else {
      OtherStepInv(s, a, vm);
    }
  }

  /** What else the invariant says. */
  ghost predicate Framed(s: State) {
    && s.registered <= s.scheduled && s.registered !! s.leaving && s.requests.Keys <= s.past.asked
    && (forall vm :: vm in s.pending ==> s.pending[vm].req.vm == vm)
  }

  lemma FramedRouter(s: State, a: Action)
    requires Framed(s)
    ensures RequestStep(s, a).Some? ==> Framed(RequestStep(s, a).value)
    ensures DeviceStep(s, a).Some? ==> Framed(DeviceStep(s, a).value)
    ensures ManagerStep(s, a).Some? ==> Framed(ManagerStep(s, a).value)
  {
  }

  lemma FramedWorker(s: State, a: Action)
    requires Framed(s)
    ensures DrainStep(s, a).Some? ==> Framed(DrainStep(s, a).value)
    ensures CallbackStep(s, a).Some? ==> Framed(CallbackStep(s, a).value)
    ensures ScanStep(s, a).Some? ==> Framed(ScanStep(s, a).value)
  {
  }

  lemma FramedStep(s: State, a: Action)
    requires Framed(s) && Step(s, a).Some?
    ensures Framed(Step(s, a).value)
  {
    FramedRouter(s, a);
    FramedWorker(s, a);
  }

  lemma StepInv(s: State, a: Action)
    requires Inv(s) && Step(s, a).Some?
    ensures Inv(Step(s, a).value)
  {
    FramedStep(s, a);
    forall vm ensures NotStuck(Step(s, a).value, vm) {
      NotStuckStep(s, a, vm);
    }
  }

  // ----- runs -----

  ghost predicate Run(s: State, actions: seq<Action>, t: State)
    decreases |actions|
  {
    if actions == [] then s == t
    else Step(s, actions[0]).Some? && Run(Step(s, actions[0]).value, actions[1..], t)
  }

  /** On every interleaving, no registered VM is ever stuck. */
  lemma {:induction false} RunInv(s: State, actions: seq<Action>, t: State)
    requires Inv(s) && Run(s, actions, t)
    ensures Inv(t)
    decreases |actions|
  {
    if actions != [] {
      StepInv(s, actions[0]);
      RunInv(Step(s, actions[0]).value, actions[1..], t);
    }
  }

  lemma NoVmIsStuck(actions: seq<Action>, t: State, vm: Vm)
    requires Run(Init(), actions, t) && vm in t.registered && vm in t.blocked
    ensures vm in t.pending || BlockedByRequest(t, vm) || WakeInProgress(t, vm)
  {
    InitInv();
    RunInv(Init(), actions, t);
    assert NotStuck(t, vm);
  }

  // ----- a full pass after the timeout -----

  /** The VM asks for nothing new. */
  predicate Quiet(actions: seq<Action>, vm: Vm) {
    forall i :: 0 <= i < |actions| ==> !(actions[i].BeginRequest? && actions[i].req.vm == vm)
  }

  /** No request of the VM is being handled, and one that is pending has run out of time. */
  ghost predicate Overdue(s: State, vm: Vm) {
    NoRequest(s, vm) && (vm in s.pending ==> s.now - s.pending[vm].time >= s.pending[vm].req.timeout)
  }

  /** After the scan of the pass nothing is pending any more. */
  ghost predicate Scanned(s: State, vm: Vm) {
    Overdue(s, vm) && (s.worker.Waking? ==> vm !in s.pending)
  }

  lemma ScannedRouter(s: State, a: Action, vm: Vm)
    requires Inv(s) && Scanned(s, vm) && !(a.BeginRequest? && a.req.vm == vm)
    ensures RequestStep(s, a).Some? ==> Scanned(RequestStep(s, a).value, vm)
    ensures DeviceStep(s, a).Some? ==> Scanned(DeviceStep(s, a).value, vm)
    ensures ManagerStep(s, a).Some? ==> Scanned(ManagerStep(s, a).value, vm)
  {
    if RequestStep(s, a).Some? && !a.BeginRequest? {
      assert a.req in s.requests && a.req.vm != vm;
    }
  }

  lemma ScannedWorker(s: State, a: Action, vm: Vm)
    requires Inv(s) && Scanned(s, vm)
    ensures DrainStep(s, a).Some? ==> Scanned(DrainStep(s, a).value, vm)
    ensures CallbackStep(s, a).Some? ==> Scanned(CallbackStep(s, a).value, vm)
    ensures ScanStep(s, a).Some? ==> Scanned(ScanStep(s, a).value, vm)
    ensures a.EndPass? && ScanStep(s, a).Some? ==> vm !in ScanStep(s, a).value.pending
  {
  }

  lemma ScannedStep(s: State, a: Action, vm: Vm)
    requires Inv(s) && Scanned(s, vm) && Step(s, a).Some? && !(a.BeginRequest? && a.req.vm == vm)
    ensures Scanned(Step(s, a).value, vm)
    ensures a.EndPass? ==> vm !in Step(s, a).value.pending
  {
    hide Inv;
    ScannedRouter(s, a, vm);
    ScannedWorker(s, a, vm);
  }

  lemma {:induction false} ScannedRun(s: State, actions: seq<Action>, t: State, vm: Vm)
    requires Inv(s) && Scanned(s, vm) && Run(s, actions, t) && Quiet(actions, vm)
    ensures Inv(t) && Scanned(t, vm)
    decreases |actions|
  {
    if actions != [] {
      StepInv(s, actions[0]);
      ScannedStep(s, actions[0], vm);
      ScannedRun(Step(s, actions[0]).value, actions[1..], t, vm);
    }
  }

  /** Whenever the VM's pending request, if any, is overdue when the worker starts a pass, and the VM
      issues no newer request, it is not blocked when that pass ends. */
  lemma PassUnblocks(s: State, actions: seq<Action>, last: State, t: State, vm: Vm)
    requires Inv(s) && s.worker.Start? && Overdue(s, vm)
    requires Run(s, actions, last) && Quiet(actions, vm) && Step(last, EndPass) == Some(t)
    ensures vm in t.registered ==> vm !in t.blocked && vm !in t.pending
  {
    ScannedRun(s, actions, last, vm);
    StepInv(last, EndPass);
    ScannedStep(last, EndPass, vm);
    assert NotStuck(t, vm);
    assert !BlockedByRequest(t, vm);
  }
}
