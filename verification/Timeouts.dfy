/** Timeouts: a queue ordered by expiry and a map by id, and what has been triggered so far. */
module Timeouts {
  import opened Wrappers

  /** Nanoseconds of the steady clock in a millisecond. */
  const MS := 1_000_000

  /** A timer: one-shot, or with a period in milliseconds. */
  datatype Entry = Entry(id: nat, expire: int, period: Option<int>)

  datatype Mapped = Mapped(entry: Entry, cancelled: bool)

  /** An entry that has been taken, and when. */
  datatype Take = Take(entry: Entry, time: int)

  /** A periodic timer after it has been taken. */
  function Next(e: Entry, now: int): Entry
    requires e.period.Some?
  {
    e.(expire := now + e.period.value * MS)
  }

  function Rescheduled(taken: seq<Entry>, now: int): set<Entry> {
    set e | e in taken && e.period.Some? :: Next(e, now)
  }

  function Takes(taken: seq<Entry>, now: int): seq<Take> {
    seq(|taken|, i requires 0 <= i < |taken| => Take(taken[i], now))
  }

  /** Queue and map hold the same timers, and each id once. */
  ghost predicate Agree(queue: set<Entry>, timers: map<nat, Mapped>) {
    && (forall e :: e in queue ==> e.id in timers && timers[e.id].entry == e)
    && (forall id :: id in timers ==> timers[id].entry in queue && timers[id].entry.id == id)
  }

  predicate InOrder(taken: seq<Entry>) {
    forall i, j :: 0 <= i < j < |taken| ==> taken[i].expire <= taken[j].expire && taken[i] != taken[j]
  }

  /** Two takes of one timer: it is periodic, and they are a period apart. */
  ghost predicate Spaced(a: Take, b: Take) {
    a.entry.id == b.entry.id ==> a.entry.period.Some? && b.entry.period == a.entry.period && a.time + a.entry.period.value * MS <= b.time
  }

  /** A waiting timer that has been taken before is due a period after that. */
  ghost predicate Waits(e: Entry, a: Take) {
    a.entry.id == e.id ==> a.entry.period.Some? && e.period == a.entry.period && a.time + a.entry.period.value * MS <= e.expire
  }

  ghost predicate LogOk(log: seq<Take>, queue: set<Entry>, nextId: nat) {
    && (forall i, j :: 0 <= i < j < |log| ==> Spaced(log[i], log[j]))
    && (forall e, i :: e in queue && 0 <= i < |log| ==> Waits(e, log[i]))
    && (forall i :: 0 <= i < |log| ==> log[i].entry.id < nextId)
  }

  ghost predicate EntriesOk(queue: set<Entry>, nextId: nat) {
    forall e :: e in queue ==> 0 < e.id < nextId && (e.period.Some? ==> e.period.value > 0)
  }

  class TimeoutManager {
    var queue: set<Entry>
    var timers: map<nat, Mapped>
    var nextId: nat
    ghost var log: seq<Take>

    constructor ()
      ensures Valid() && queue == {} && log == []
    {
      queue, timers, nextId, log := {}, map[], 1, [];
    }

    ghost predicate Valid()
      reads this
    {
      nextId > 0 && Agree(queue, timers) && EntriesOk(queue, nextId) && LogOk(log, queue, nextId)
    }

    predicate Cancelled(id: nat)
      reads this
    {
      id in timers && timers[id].cancelled
    }

    /** Registers a timer, with a period if it is to be periodic; 0 if the time or the callback is
        missing. */
    method Register(timeoutMs: int, periodic: bool, hasCallback: bool, now: int) returns (id: nat)
      requires Valid()
      modifies this
      ensures Valid() && log == old(log)
      ensures timeoutMs <= 0 || !hasCallback ==> id == 0 && queue == old(queue) && timers == old(timers)
      ensures timeoutMs > 0 && hasCallback ==>
        var e := Entry(id, now + timeoutMs * 1_000_000, if periodic then Some(timeoutMs) else None);
        && id > 0 && id !in old(timers) && queue == old(queue) + {e} && timers == old(timers)[id := Mapped(e, false)]
    {
      if timeoutMs <= 0 || !hasCallback {
        return 0;
      }
      id := nextId;
      nextId := nextId + 1;
      var entry := Entry(id, now + timeoutMs * MS, if periodic then Some(timeoutMs) else None);
      queue := queue + {entry};
      timers := timers[id := Mapped(entry, false)];
    }

    /** Marks a timer; it stays in the queue until its time. */
    method Cancel(id: nat) returns (ok: bool)
      requires Valid()
      modifies this
      ensures Valid() && log == old(log) && queue == old(queue) && timers.Keys == old(timers.Keys)
      ensures ok <==> id in timers
      ensures forall x :: x in timers ==> Cancelled(x) == (old(Cancelled(x)) || x == id)
    {
      if id == 0 {
        return false;
      }
      if id !in timers {
        return false;
      }
      timers := timers[id := timers[id].(cancelled := true)];
      ok := true;
    }

    /** An entry of the queue that expires no later than any other. */
    method Top() returns (top: Entry)
      requires queue != {}
      ensures top in queue && forall e :: e in queue ==> top.expire <= e.expire
    {
      ghost var some :| some in queue;
      ghost var least := Earliest(queue, some);
      assert IsEarliest(queue, least);
      top :| top in queue && IsEarliest(queue, top);
      assert IsEarliest(queue, top);
      assert forall e :: e in queue ==> top.expire <= e.expire;
    }

    /** Takes, in order of expiry, exactly the timers that are due and not cancelled, and queues the
        periodic ones anew. Nothing that is due remains. */
    method ProcessTimeouts(now: int) returns (taken: seq<Entry>)
      requires Valid()
      modifies this
      ensures Valid() && InOrder(taken) && log == old(log) + Takes(taken, now)
      ensures forall e :: e in taken <==> e in old(queue) && e.expire <= now && !old(Cancelled(e.id))
      ensures queue == (set e | e in old(queue) && e.expire > now) + Rescheduled(taken, now)
      ensures forall e :: e in taken && e.period.Some? ==>
        Entry(e.id, now + e.period.value * 1_000_000, e.period) in queue && !Cancelled(e.id)
      ensures forall e, x :: e in taken && e.period.None? && x in queue ==> x.id != e.id
      ensures forall e :: e in queue ==> e.expire > now
      ensures forall e :: e in queue ==> Cancelled(e.id) == (e in old(queue) && old(Cancelled(e.id)))
    {
      var reschedule: seq<Entry>;
      taken, reschedule := CollectDue(now);
      RescheduledIds(old(queue), old(timers), queue, timers, taken, now, reschedule);
      LogAfter(old(queue), log, queue, taken, now, nextId);
      NextTurns(old(queue), old(timers), queue, timers, taken, now);
      Requeue(reschedule, taken, now);
      log := log + Takes(taken, now);
    }

    method CollectDue(now: int) returns (taken: seq<Entry>, reschedule: seq<Entry>)
      requires Valid()
      modifies `queue, `timers
      ensures Collected(old(queue), old(timers), queue, timers, taken, now) && reschedule == Again(taken, now)
      ensures forall e :: e in queue ==> e.expire > now
    {
      hide Agree, LogOk;
      taken, reschedule := [], [];
      while queue != {}
        invariant Collected(old(queue), old(timers), queue, timers, taken, now) && reschedule == Again(taken, now)
        decreases |queue|
      {
        var top := Top();
        if top.expire > now {
          break;
        }
        CollectOne(old(queue), old(timers), queue, timers, taken, now, top);
        queue := queue - {top};
        if top.id !in timers {
          continue;
        }
        var cancelled := timers[top.id].cancelled;
        timers := timers - {top.id};
        if cancelled {
          continue;
        }
        assert (taken + [top])[..|taken|] == taken;
        taken := taken + [top];
        if top.period.Some? {
          reschedule := reschedule + [Next(top, now)];
        }
      }
    }

    /** Queues the periodic timers anew. */
    method Requeue(reschedule: seq<Entry>, ghost taken: seq<Entry>, ghost now: int)
      requires Agree(queue, timers) && IdsDiffer(reschedule) && forall i :: 0 <= i < |reschedule| ==> reschedule[i].id !in timers
      modifies `queue, `timers
      ensures Agree(queue, timers) && queue == old(queue) + Elements(reschedule)
      ensures forall id :: id in old(timers) ==> id in timers && timers[id] == old(timers)[id]
      ensures forall i :: 0 <= i < |reschedule| ==> reschedule[i].id in timers && !timers[reschedule[i].id].cancelled
    {
      var i := 0;
      while i < |reschedule|
        invariant 0 <= i <= |reschedule| && Agree(queue, timers) && queue == old(queue) + Elements(reschedule[..i])
        invariant forall id :: id in old(timers) ==> id in timers && timers[id] == old(timers)[id]
        invariant forall k :: 0 <= k < i ==> reschedule[k].id in timers && !timers[reschedule[k].id].cancelled
        invariant forall k :: i <= k < |reschedule| ==> reschedule[k].id !in timers
      {
        var entry := reschedule[i];
        assert reschedule[..i + 1] == reschedule[..i] + [entry];
        queue := queue + {entry};
        timers := timers[entry.id := Mapped(entry, false)];
        i := i + 1;
      }
      assert reschedule[..i] == reschedule;
    }

    /** Milliseconds to the next expiry, rounded down; 0 if it is past, -1 if there is none. A
        cancelled timer counts until its time. */
    method GetNextTimeoutMs(now: int) returns (ms: int)
      requires Valid()
      ensures queue == {} ==> ms == -1
      ensures queue != {} ==> ms >= 0 && (ms == 0 || forall e :: e in queue ==> now + ms * 1_000_000 <= e.expire)
      ensures queue != {} ==> exists e :: e in queue && e.expire < now + (ms + 1) * 1_000_000
    {
      if queue == {} {
        return -1;
      }
      var top := Top();
      if top.expire <= now {
        return 0;
      }
      ms := (top.expire - now) / MS;
    }

    method ClearAll()
      requires Valid()
      modifies this
      ensures Valid() && queue == {} && timers == map[] && log == old(log)
    {
      while queue != {}
        invariant log == old(log) && nextId == old(nextId)
        decreases |queue|
      {
        var top := Top();
        queue := queue - {top};
      }
      timers := map[];
    }
  }

  function Elements(s: seq<Entry>): set<Entry> { set e | e in s }

  /** The periodic ones among the timers taken, for their next turn. */
  function Again(taken: seq<Entry>, now: int): seq<Entry> {
    if taken == [] then []
    else
      var last := taken[|taken| - 1];
      Again(taken[..|taken| - 1], now) + if last.period.Some? then [Next(last, now)] else []
  }

  ghost predicate IdsDiffer(s: seq<Entry>) {
    forall i, j :: 0 <= i < j < |s| ==> s[i].id != s[j].id
  }

  lemma {:induction false} AgainIds(taken: seq<Entry>, now: int)
    requires IdsDiffer(taken)
    ensures IdsDiffer(Again(taken, now)) && Elements(Again(taken, now)) == Rescheduled(taken, now)
    ensures forall i :: 0 <= i < |Again(taken, now)| ==> exists k :: 0 <= k < |taken| && taken[k].id == Again(taken, now)[i].id
  {
    if taken != [] {
      var n := |taken| - 1;
      var last := taken[n];
      AgainIds(taken[..n], now);
      assert taken == taken[..n] + [last];
      forall e ensures e in Elements(Again(taken, now)) <==> e in Rescheduled(taken, now) {
        if e in Rescheduled(taken, now) {
          var t :| t in taken && t.period.Some? && e == Next(t, now);
          assert t in taken[..n] || t == last;
        }
        if e in Rescheduled(taken[..n], now) {
          var t :| t in taken[..n] && t.period.Some? && e == Next(t, now);
          assert t in taken;
        }
      }
    }
  }

  lemma RescheduledIds(queue0: set<Entry>, timers0: map<nat, Mapped>, queue: set<Entry>, timers: map<nat, Mapped>, taken: seq<Entry>, now: int, reschedule: seq<Entry>)
    requires Collected(queue0, timers0, queue, timers, taken, now) && reschedule == Again(taken, now)
    ensures IdsDiffer(taken) && IdsDiffer(reschedule) && Elements(reschedule) == Rescheduled(taken, now)
    ensures forall i :: 0 <= i < |reschedule| ==> reschedule[i].id !in timers
  {
    forall i, j | 0 <= i < j < |taken| ensures taken[i].id != taken[j].id {
      assert taken[i] in taken && taken[j] in taken;
    }
    AgainIds(taken, now);
    forall i | 0 <= i < |reschedule| ensures reschedule[i].id !in timers {
      var k :| 0 <= k < |taken| && taken[k].id == reschedule[i].id;
      assert taken[k] in taken;
    }
  }

  /** The log stays in order: a timer is taken when it is due, which is a period after the last time. */
  lemma LogAfter(queue0: set<Entry>, log: seq<Take>, queue: set<Entry>, taken: seq<Entry>, now: int, nextId: nat)
    requires LogOk(log, queue0, nextId) && EntriesOk(queue0, nextId) && queue <= queue0 && IdsDiffer(taken)
    requires forall e :: e in taken ==> e in queue0 && e !in queue && e.expire <= now
    requires forall e, f :: e in queue0 && f in queue0 && e.id == f.id ==> e == f
    ensures LogOk(log + Takes(taken, now), queue + Rescheduled(taken, now), nextId)
    ensures EntriesOk(queue + Rescheduled(taken, now), nextId)
  {
    var more := Takes(taken, now);
    var all := log + more;
    forall i, j | 0 <= i < j < |all| ensures Spaced(all[i], all[j]) {
      if j >= |log| {
        var e := taken[j - |log|];
        assert e in taken && all[j] == Take(e, now);
        if i < |log| {
          assert Waits(e, log[i]);
        }
      }
    }
    forall e, i | e in queue + Rescheduled(taken, now) && 0 <= i < |all| ensures Waits(e, all[i]) {
      WaitsAfter(queue0, log, queue, taken, now, nextId, e, i);
    }
    forall i | 0 <= i < |all| ensures all[i].entry.id < nextId {
      if i >= |log| {
        assert taken[i - |log|] in taken;
      }
    }
  }

  lemma WaitsAfter(queue0: set<Entry>, log: seq<Take>, queue: set<Entry>, taken: seq<Entry>, now: int, nextId: nat, e: Entry, i: nat)
    requires LogOk(log, queue0, nextId) && EntriesOk(queue0, nextId) && queue <= queue0 && IdsDiffer(taken)
    requires forall e :: e in taken ==> e in queue0 && e !in queue && e.expire <= now
    requires forall e, f :: e in queue0 && f in queue0 && e.id == f.id ==> e == f
    requires e in queue + Rescheduled(taken, now) && i < |log + Takes(taken, now)|
    ensures Waits(e, (log + Takes(taken, now))[i])
  {
    if e in queue {
      if i >= |log| {
        assert taken[i - |log|] in taken;
      }
    } else {
      var t :| t in taken && t.period.Some? && e == Next(t, now);
      if i < |log| {
        assert Waits(t, log[i]);
      } else {
        assert taken[i - |log|] in taken;
      }
    }
  }

  /** A periodic timer that has been taken is among those queued anew; a one-shot one is gone. */
  lemma NextTurns(queue0: set<Entry>, timers0: map<nat, Mapped>, queue: set<Entry>, timers: map<nat, Mapped>, taken: seq<Entry>, now: int)
    requires Collected(queue0, timers0, queue, timers, taken, now)
    ensures forall e :: e in taken && e.period.Some? ==> Entry(e.id, now + e.period.value * 1_000_000, e.period) in Rescheduled(taken, now)
    ensures forall e, x :: e in taken && e.period.None? && x in queue + Rescheduled(taken, now) ==> x.id != e.id
  {
    forall e | e in taken && e.period.Some? ensures Entry(e.id, now + e.period.value * 1_000_000, e.period) in Rescheduled(taken, now) {
      assert Next(e, now) == Entry(e.id, now + e.period.value * 1_000_000, e.period);
    }
    forall e, x | e in taken && e.period.None? && x in queue + Rescheduled(taken, now) ensures x.id != e.id {
      if x !in queue {
        var t :| t in taken && t.period.Some? && x == Next(t, now);
      }
    }
  }

  predicate IsEarliest(queue: set<Entry>, top: Entry) {
    forall e :: e in queue ==> top.expire <= e.expire
  }

  lemma {:induction false} Earliest(queue: set<Entry>, some: Entry) returns (top: Entry)
    requires some in queue
    ensures top in queue && IsEarliest(queue, top)
    decreases |queue|
  {
    var rest := queue - {some};
    top := some;
    if rest == {} {
      assert queue == {some};
    } else {
      var next :| next in rest;
      var first := Earliest(rest, next);
      if first.expire < some.expire {
        top := first;
      }
      forall e | e in queue ensures top.expire <= e.expire {
        assert e in rest ==> first.expire <= e.expire;
      }
    }
  }

  /** Part of the due timers has been taken out of queue and map, earliest first. */
  ghost predicate Collected(queue0: set<Entry>, timers0: map<nat, Mapped>, queue: set<Entry>, timers: map<nat, Mapped>, taken: seq<Entry>, now: int) {
    && Agree(queue0, timers0) && Agree(queue, timers) && queue <= queue0
    && (forall id :: id in timers ==> id in timers0 && timers[id] == timers0[id])
    && (forall e :: e in queue0 && e !in queue ==> e.expire <= now)
    && (forall e :: e in taken <==> e in queue0 && e !in queue && !timers0[e.id].cancelled)
    && InOrder(taken)
    && (forall i, e :: 0 <= i < |taken| && e in queue ==> taken[i].expire <= e.expire)
  }

  lemma CollectOne(queue0: set<Entry>, timers0: map<nat, Mapped>, queue: set<Entry>, timers: map<nat, Mapped>, taken: seq<Entry>, now: int, top: Entry)
    requires Collected(queue0, timers0, queue, timers, taken, now)
    requires top in queue && top.expire <= now && forall e :: e in queue ==> top.expire <= e.expire
    ensures top.id in timers && timers[top.id] == timers0[top.id]
    ensures timers[top.id].cancelled ==> Collected(queue0, timers0, queue - {top}, timers - {top.id}, taken, now)
    ensures !timers[top.id].cancelled ==> Collected(queue0, timers0, queue - {top}, timers - {top.id}, taken + [top], now)
  {
  }

  /** In every run a one-shot timer is taken at most once, and a periodic one never sooner than a
      period after the last time. */
  lemma TakesAreSpaced(m: TimeoutManager, i: nat, j: nat)
    requires m.Valid() && i < j < |m.log| && m.log[i].entry.id == m.log[j].entry.id
    ensures m.log[i].entry.period.Some?
    ensures m.log[j].time - m.log[i].time >= m.log[i].entry.period.value * 1_000_000
  {
    assert Spaced(m.log[i], m.log[j]);
  }

  /** A periodic timer that has been taken is taken again by the first call a period later or more, at
      which it is the timer that is due then; and not by one before. */
  method TakenAgain(m: TimeoutManager, now: int, later: int, e: Entry) returns (first: seq<Entry>, second: seq<Entry>)
    requires m.Valid() && e in m.queue && e.expire <= now && !m.Cancelled(e.id) && e.period.Some?
    modifies m
    ensures m.Valid() && e in first
    ensures Entry(e.id, now + e.period.value * 1_000_000, e.period) in second <==> later >= now + e.period.value * 1_000_000
  {
    hide Agree, LogOk, EntriesOk, Rescheduled, Takes, InOrder, TimeoutManager.Valid;
    first := m.ProcessTimeouts(now);
    ghost var next := Entry(e.id, now + e.period.value * 1_000_000, e.period);
    assert e in first && next in m.queue && !m.Cancelled(next.id);
    second := m.ProcessTimeouts(later);
  }
}
