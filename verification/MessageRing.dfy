/** The lock-free ring between one producer and one consumer, step by atomic step. */
module MessageRing {
  import opened Wrappers

  const MAX_QUEUE_SIZE := 1024

  type Message(0, ==, !new)

  /** Where the producer is in `try_push`; writing a slot takes time, and until it is over the slot
      holds no message. */
  datatype Producer =
    | Resting
    | LoadedTail(msg: Message, tail: nat)
    | MayWrite(msg: Message, tail: nat)
    | Writing(msg: Message, tail: nat)
    | Written(msg: Message, tail: nat)

  /** Where the consumer is in `try_pop`. */
  datatype Consumer =
    | Waiting
    | LoadedHead(head: nat)
    | MayRead(head: nat)
    | Reading(head: nat)
    | Taken(head: nat, msg: Message)

  datatype State = State(
    slots: seq<Option<Message>>,
    head: nat,
    tail: nat,
    producer: Producer,
    consumer: Consumer,
    pushed: seq<Message>,    // what `try_push` has accepted so far
    popped: seq<Message>)    // what `try_pop` has returned so far

  datatype Action =
    | LoadTail(msg: Message) | CheckFull | BeginWrite | EndWrite | StoreTail
    | LoadHead | CheckEmpty | BeginRead | EndRead | StoreHead

  ghost predicate Init(s: State) {
    |s.slots| == MAX_QUEUE_SIZE && s.head == 0 && s.tail == 0 && s.producer.Resting? && s.consumer.Waiting?
    && s.pushed == [] && s.popped == []
  }

  function After(i: nat): nat { (i + 1) % MAX_QUEUE_SIZE }

  function Step(s: State, a: Action): Option<State>
    requires |s.slots| == MAX_QUEUE_SIZE && s.head < MAX_QUEUE_SIZE && s.tail < MAX_QUEUE_SIZE
    requires !s.producer.Resting? ==> s.producer.tail < MAX_QUEUE_SIZE
    requires !s.consumer.Waiting? ==> s.consumer.head < MAX_QUEUE_SIZE
  {
    match a
    case LoadTail(m) => if s.producer.Resting? then Some(s.(producer := LoadedTail(m, s.tail))) else None
    case CheckFull =>
      if s.producer.LoadedTail? then
        var p := s.producer;
        Some(s.(producer := if After(p.tail) == s.head then Resting else MayWrite(p.msg, p.tail)))
      else None
    case BeginWrite =>
      if s.producer.MayWrite? then
        Some(s.(producer := Writing(s.producer.msg, s.producer.tail), slots := s.slots[s.producer.tail := None]))
      else None
    case EndWrite =>
      if s.producer.Writing? then
        Some(s.(producer := Written(s.producer.msg, s.producer.tail), slots := s.slots[s.producer.tail := Some(s.producer.msg)]))
      else None
    case StoreTail =>
      if s.producer.Written? then
        Some(s.(producer := Resting, tail := After(s.producer.tail), pushed := s.pushed + [s.producer.msg]))
      else None
    case LoadHead => if s.consumer.Waiting? then Some(s.(consumer := LoadedHead(s.head))) else None
    case CheckEmpty =>
      if s.consumer.LoadedHead? then
        Some(s.(consumer := if s.consumer.head == s.tail then Waiting else MayRead(s.consumer.head)))
      else None
    case BeginRead => if s.consumer.MayRead? then Some(s.(consumer := Reading(s.consumer.head))) else None
    case EndRead =>
      if s.consumer.Reading? && s.slots[s.consumer.head].Some? then
        Some(s.(consumer := Taken(s.consumer.head, s.slots[s.consumer.head].value)))
      else None
    case StoreHead =>
      if s.consumer.Taken? then
        Some(s.(consumer := Waiting, head := After(s.consumer.head), popped := s.popped + [s.consumer.msg]))
      else None
  }

  /** How many messages the ring holds. */
  function Count(s: State): int { |s.pushed| - |s.popped| }

  function SlotOf(i: nat): nat { i % MAX_QUEUE_SIZE }

  /** The ring holds what has been pushed and not popped, oldest first from the head, and both ends
      know what they need to. */
  ghost predicate Inv(s: State) {
    && |s.slots| == MAX_QUEUE_SIZE
    && 0 <= Count(s) < MAX_QUEUE_SIZE && s.popped <= s.pushed
    && s.head == SlotOf(|s.popped|) && s.tail == SlotOf(|s.pushed|)
    && (forall i :: |s.popped| <= i < |s.pushed| ==> s.slots[SlotOf(i)] == Some(s.pushed[i]))
    && ProducerOk(s) && ConsumerOk(s)
  }

  ghost predicate ProducerOk(s: State)
    requires |s.slots| == MAX_QUEUE_SIZE
  {
    && (!s.producer.Resting? ==> s.producer.tail == SlotOf(|s.pushed|))
    && (s.producer.MayWrite? || s.producer.Writing? || s.producer.Written? ==> Count(s) + 1 < MAX_QUEUE_SIZE)
    && (s.producer.Written? ==> s.slots[s.producer.tail] == Some(s.producer.msg))
  }

  ghost predicate ConsumerOk(s: State) {
    && (!s.consumer.Waiting? ==> s.consumer.head == SlotOf(|s.popped|))
    && (s.consumer.MayRead? || s.consumer.Reading? || s.consumer.Taken? ==> Count(s) > 0)
    && (s.consumer.Taken? ==> |s.popped| < |s.pushed| && s.consumer.msg == s.pushed[|s.popped|])
  }

  /** Different messages in the ring have different slots, and the free slot is none of them. */
  lemma SlotsDiffer(i: nat, j: nat)
    requires i < j < i + MAX_QUEUE_SIZE
    ensures SlotOf(i) != SlotOf(j)
  {
    var q := j / MAX_QUEUE_SIZE - i / MAX_QUEUE_SIZE;
    assert j - i == q * MAX_QUEUE_SIZE + SlotOf(j) - SlotOf(i);
    assert q <= 0 || q >= 1;
  }

  lemma AfterSlot(i: nat)
    ensures After(SlotOf(i)) == SlotOf(i + 1)
  {
  }

  lemma StepInv(s: State, a: Action)
    requires Inv(s) && Step(s, a).Some?
    ensures Inv(Step(s, a).value)
  {
    var t := Step(s, a).value;
    AfterSlot(|s.pushed|);
    AfterSlot(|s.popped|);
    if a.CheckFull? {
      FullWhenNext(s);
    } else if a.BeginWrite? || a.EndWrite? {
      forall i | |s.popped| <= i < |s.pushed| ensures SlotOf(i) != s.producer.tail {
        SlotsDiffer(i, |s.pushed|);
      }
    } else if a.StoreTail? {
      forall i | |t.popped| <= i < |t.pushed| ensures t.slots[SlotOf(i)] == Some(t.pushed[i]) {
        assert i < |s.pushed| ==> t.pushed[i] == s.pushed[i];
      }
    } else if a.StoreHead? {
      assert t.popped == s.pushed[..|t.popped|];
    } else if a.CheckEmpty? {
      if |s.popped| < |s.pushed| {
        SlotsDiffer(|s.popped|, |s.pushed|);
      }
    }
  }

  /** The next tail meets the head exactly when 1023 messages are in the ring. */
  lemma FullWhenNext(s: State)
    requires Inv(s)
    ensures After(s.tail) == s.head <==> Count(s) == MAX_QUEUE_SIZE - 1
  {
    var n, k := |s.pushed|, |s.popped|;
    AfterSlot(n);
    if Count(s) < MAX_QUEUE_SIZE - 1 {
      SlotsDiffer(k, n + 1);
    } else {
      assert n + 1 == k + MAX_QUEUE_SIZE;
    }
  }

  // ----- runs -----

  ghost predicate Run(s: State, actions: seq<Action>, t: State)
    requires Inv(s)
    decreases |actions|
  {
    if actions == [] then s == t
    else if Step(s, actions[0]).None? then false
    else
      StepInv(s, actions[0]);
      Run(Step(s, actions[0]).value, actions[1..], t)
  }

  lemma {:induction false} RunInv(s: State, actions: seq<Action>, t: State)
    requires Inv(s) && Run(s, actions, t)
    ensures Inv(t)
    decreases |actions|
  {
    if actions != [] {
      StepInv(s, actions[0]);
      RunInv(Step(s, actions[0]).value, actions[1..], t);
    }
  }

  lemma InitInv(s: State)
    requires Init(s)
    ensures Inv(s)
  {
  }

  /** On every interleaving, what has been popped is a prefix of what has been pushed, never more than
      1023 messages are between them, and no slot is read while it is written. */
  lemma FirstInFirstOut(s: State, actions: seq<Action>, t: State)
    requires Init(s)
    ensures Inv(s)
    ensures Run(s, actions, t) ==>
      && Inv(t) && t.popped <= t.pushed && |Queue(t)| <= 1023
      && (t.producer.Writing? && t.consumer.Reading? ==> t.producer.tail != t.consumer.head)
      && (t.consumer.Reading? ==> Queue(t) != [] && t.slots[t.head] == Some(Queue(t)[0]) && t.consumer.head == t.head)
  {
    InitInv(s);
    if Run(s, actions, t) {
      RunInv(s, actions, t);
      if t.producer.Writing? && t.consumer.Reading? {
        SlotsDiffer(|t.popped|, |t.pushed|);
      }
      if t.consumer.Reading? {
        assert t.slots[SlotOf(|t.popped|)] == Some(t.pushed[|t.popped|]);
      }
    }
  }

  /** Each step is one of a queue of capacity 1023: it appends a message, takes the oldest, or leaves
      the queue as it is. */
  function Queue(s: State): seq<Message>
    requires Inv(s)
  {
    s.pushed[|s.popped|..]
  }

  lemma StepRefinesQueue(s: State, a: Action)
    requires Inv(s) && Step(s, a).Some?
    ensures Inv(Step(s, a).value)
    ensures var t := Step(s, a).value;
      && (a.StoreTail? ==> |Queue(s)| < 1023 && Queue(t) == Queue(s) + [s.producer.msg] && t.popped == s.popped)
      && (a.StoreHead? ==> Queue(s) == [s.consumer.msg] + Queue(t) && t.popped == s.popped + [s.consumer.msg])
      && (!a.StoreTail? && !a.StoreHead? ==> Queue(t) == Queue(s) && t.popped == s.popped)
  {
    StepInv(s, a);
    var t := Step(s, a).value;
    if a.StoreHead? {
      assert s.pushed[|s.popped|..] == [s.pushed[|s.popped|]] + s.pushed[|s.popped| + 1..];
    } else if a.StoreTail? {
      assert t.pushed[|s.popped|..] == s.pushed[|s.popped|..] + [s.producer.msg];
    }
  }

  /** A push is refused exactly if the ring is full when it looks at the head, a pop exactly if it is
      empty when it looks at the tail. */
  lemma RefusedIffFullOrEmpty(s: State)
    requires Inv(s)
    ensures s.producer.LoadedTail? ==> (Step(s, CheckFull).value.producer.Resting? <==> |Queue(s)| == 1023)
    ensures s.consumer.LoadedHead? ==> (Step(s, CheckEmpty).value.consumer.Waiting? <==> |Queue(s)| == 0)
  {
    FullWhenNext(s);
    if |s.popped| < |s.pushed| {
      SlotsDiffer(|s.popped|, |s.pushed|);
    }
  }

  /** What `size` computes from the two ends. */
  function SizeFrom(head: nat, tail: nat): int {
    if tail >= head then tail - head else MAX_QUEUE_SIZE - head + tail
  }

  /** Either end may load the head early and the tail later: as long as its own end has not moved
      in between, the result is the number of messages from the older head to the newer tail. */
  lemma SizeIsExact(s: State, later: State)
    requires Inv(s) && Inv(later) && s.popped <= later.popped && s.pushed <= later.pushed
    requires later.popped == s.popped || later.pushed == s.pushed
    ensures SizeFrom(s.head, later.tail) == |later.pushed| - |s.popped|
  {
    var k, n := |s.popped|, |later.pushed|;
    assert k <= n < k + MAX_QUEUE_SIZE;
    SizeMod(k, n);
  }

  lemma SizeMod(k: nat, n: nat)
    requires k <= n < k + MAX_QUEUE_SIZE
    ensures SizeFrom(SlotOf(k), SlotOf(n)) == n - k
  {
    var q := n / MAX_QUEUE_SIZE - k / MAX_QUEUE_SIZE;
    assert n - k == q * MAX_QUEUE_SIZE + SlotOf(n) - SlotOf(k);
    assert q == 0 || q == 1;
  }

  // ----- the operations as they run undisturbed -----

  /** The slot `i` places behind `h`. */
  function Slot(h: nat, i: nat): (k: nat)
    ensures k < MAX_QUEUE_SIZE
  {
    SlotOf(h + i)
  }

  function Items(slots: seq<Message>, h: nat, n: nat): seq<Message>
    requires |slots| == MAX_QUEUE_SIZE
  {
    seq(n, i requires 0 <= i < n => slots[Slot(h, i)])
  }

  class LockFreeMessageQueue {
    const queue: array<Message>
    var head: nat
    var tail: nat

    constructor ()
      ensures Valid() && Contents() == [] && fresh(queue)
    {
      queue := new Message[MAX_QUEUE_SIZE];
      head, tail := 0, 0;
    }

    ghost predicate Valid()
      reads this
    {
      queue.Length == MAX_QUEUE_SIZE && head < MAX_QUEUE_SIZE && tail < MAX_QUEUE_SIZE
    }

    function Size(): (n: nat)
      requires Valid()
      reads this
      ensures n < MAX_QUEUE_SIZE && Slot(head, n) == tail
    {
      SizeFrom(head, tail)
    }

    ghost function Contents(): (s: seq<Message>)
      requires Valid()
      reads this, queue
      ensures |s| == Size()
    {
      Items(queue[..], head, Size())
    }

    predicate Empty()
      requires Valid()
      reads this
      ensures Empty() <==> Size() == 0
    {
      head == tail
    }

    /** Appends the message unless 1023 are waiting. */
    method TryPush(msg: Message) returns (ok: bool)
      requires Valid()
      modifies `tail, queue
      ensures Valid() && ok == (|old(Contents())| < 1023)
      ensures Contents() == if ok then old(Contents()) + [msg] else old(Contents())
    {
      var nextTail := After(tail);
      ghost var n := Size();
      NextTail(head, n);
      if nextTail == head {
        return false;
      }
      PushedItems(queue[..], head, n, msg);
      queue[tail] := msg;
      tail := nextTail;
      ok := true;
    }

    /** Takes the oldest message, if there is one. */
    method TryPop() returns (r: Option<Message>)
      requires Valid()
      modifies `head
      ensures Valid() && r.Some? == (old(Contents()) != [])
      ensures if r.Some? then old(Contents()) == [r.value] + Contents() else Contents() == []
    {
      if head == tail {
        return None;
      }
      PoppedItems(queue[..], head, Size());
      var msg := queue[head];
      head := After(head);
      r := Some(msg);
    }
  }

  /** The next tail meets the head when 1023 messages are waiting, and otherwise counts one more. */
  lemma NextTail(h: nat, n: nat)
    requires h < MAX_QUEUE_SIZE && n < MAX_QUEUE_SIZE
    ensures After(Slot(h, n)) == h <==> n == MAX_QUEUE_SIZE - 1
    ensures n < MAX_QUEUE_SIZE - 1 ==> SizeFrom(h, After(Slot(h, n))) == n + 1
  {
    AfterSlot(h + n);
    if n < MAX_QUEUE_SIZE - 1 {
      SlotsDiffer(h, h + n + 1);
      SizeMod(h, h + n + 1);
    }
  }

  lemma PushedItems(slots: seq<Message>, h: nat, n: nat, msg: Message)
    requires |slots| == MAX_QUEUE_SIZE && h < MAX_QUEUE_SIZE && n < MAX_QUEUE_SIZE - 1
    ensures Items(slots[Slot(h, n) := msg], h, n + 1) == Items(slots, h, n) + [msg]
  {
    forall i | 0 <= i < n ensures Slot(h, i) != Slot(h, n) {
      SlotsDiffer(h + i, h + n);
    }
  }

  lemma PoppedItems(slots: seq<Message>, h: nat, n: nat)
    requires |slots| == MAX_QUEUE_SIZE && h < MAX_QUEUE_SIZE && 0 < n < MAX_QUEUE_SIZE
    ensures Items(slots, h, n) == [slots[h]] + Items(slots, After(h), n - 1)
    ensures SizeFrom(After(h), Slot(h, n)) == n - 1
  {
    hide SizeFrom;
    forall i | 0 <= i < n - 1 ensures Slot(After(h), i) == Slot(h, i + 1) {
    }
    SizeMod(h + 1, h + n);
    assert Slot(h, 0) == h;
    var xs, ys := Items(slots, h, n), [slots[h]] + Items(slots, After(h), n - 1);
    forall i | 0 <= i < n ensures xs[i] == ys[i] {
      if i > 0 {
        assert Slot(After(h), i - 1) == Slot(h, i - 1 + 1);
      }
    }
  }
}
