/** Building a control-flow graph: a work list of entry points, one basic block for each. */
module ControlFlowGraph {
  import opened Wrappers
  import opened MachineCode
  import opened Discovery

  /** One mark for every byte of the code. */
  class DisassemblyTracker {
    var state: seq<State>

    constructor (codeSize: nat)
      ensures |state| == codeSize && forall i :: 0 <= i < codeSize ==> state[i] == Unprocessed
    {
      state := seq(codeSize, i => Unprocessed);
    }

    predicate IsEntryPoint(offset: nat)
      reads this
    {
      offset < |state| && state[offset] != Unprocessed
    }

    predicate IsProcessed(offset: nat)
      reads this
    {
      offset < |state| && state[offset] == Processed
    }

    /** Sets a mark, whatever the old one was; addresses outside the code have none. */
    method MarkAs(offset: nat, s: State)
      modifies this
      ensures state == if offset < |old(state)| then old(state)[offset := s] else old(state)
    {
      if offset < |state| {
        state := state[offset := s];
      }
    }
  }

  // ----- the block under construction -----

  /** Instructions from the start up to `current`, none of which transfers control. */
  ghost predicate Open(p: Program, b: BasicBlock, current: nat) {
    && Straight(p, b) && !b.terminated && b.end == current && b.start <= current
    && (b.instructions == [] <==> current == b.start)
    && b.successors == [] && b.predecessors == []
  }

  function Extended(b: BasicBlock, i: Instruction): BasicBlock {
    b.(instructions := b.instructions + [i], end := i.End(), terminated := i.kind != Ordinary)
  }

  lemma ExtendOpen(p: Program, b: BasicBlock, i: Instruction)
    requires p.Valid() && Open(p, b, i.address) && p.Decodes(i.address) && p.decode(i.address).value == i
    ensures Straight(p, Extended(b, i))
    ensures i.kind == Ordinary ==> Open(p, Extended(b, i), i.End())
  {
    var e := Extended(b, i);
    var s, n := e.instructions, |b.instructions|;
    assert s[n] == i && forall k :: 0 <= k < n ==> s[k] == b.instructions[k];
    forall k | 0 <= k < n ensures Consecutive(s, k) {
      assert b.instructions[n - 1].kind == Ordinary && b.end == b.instructions[n - 1].End();
      if k < n - 1 {
        assert b.instructions[k].End() == s[k].End() && Consecutive(b.instructions, k);
      }
    }
  }

  lemma FallsThrough(p: Program, i: Instruction)
    requires p.Decodes(i.address) && p.decode(i.address).value == i && i.kind == Ordinary
    ensures p.Next(i.address) == p.Inside(i.End())
  {
  }

  lemma ExtendAddresses(b: BasicBlock, i: Instruction)
    ensures Addresses(Extended(b, i)) == Addresses(b) + {i.address}
  {
    var s, n := Extended(b, i).instructions, |b.instructions|;
    assert forall k :: 0 <= k < n ==> s[k] == b.instructions[k];
    forall a | a in Addresses(b) + {i.address} ensures a in Addresses(Extended(b, i)) {
      if a == i.address {
        assert s[n].address == a;
      } else {
        var k :| 0 <= k < n && b.instructions[k].address == a;
        assert s[k].address == a;
      }
    }
  }

  /** The addresses in a block behind its start. */
  function Interior(b: BasicBlock): set<nat> {
    set i | 0 < i < |b.instructions| :: b.instructions[i].address
  }

  lemma ExtendInterior(b: BasicBlock, i: Instruction)
    ensures Interior(Extended(b, i)) == Interior(b) + (if b.instructions == [] then {} else {i.address})
  {
    var s, n := Extended(b, i).instructions, |b.instructions|;
    assert forall k :: 0 <= k < n ==> s[k] == b.instructions[k];
    forall a | a in Interior(b) + (if n == 0 then {} else {i.address}) ensures a in Interior(Extended(b, i)) {
      if n > 0 && a == i.address {
        assert s[n].address == a;
      } else {
        var k :| 0 < k < n && b.instructions[k].address == a;
        assert s[k].address == a;
      }
    }
  }

  function Targets(edges: map<nat, seq<nat>>, k: nat): set<nat> {
    if k in edges then set t | t in edges[k] else {}
  }

  function Recorded(edges: map<nat, seq<nat>>, from: nat, to: nat): map<nat, seq<nat>> {
    edges[from := (if from in edges then edges[from] else []) + [to]]
  }

  lemma RecordedTargets(edges: map<nat, seq<nat>>, from: nat, to: nat)
    ensures Targets(Recorded(edges, from, to), from) == Targets(edges, from) + {to}
    ensures forall k :: k != from ==> Targets(Recorded(edges, from, to), k) == Targets(edges, k)
  {
  }

  /** Nothing has been recorded except for `start`. */
  predicate OnlyFor(start: nat, edges: map<nat, seq<nat>>, now: map<nat, seq<nat>>) {
    now - {start} == edges - {start} && now.Keys <= edges.Keys + {start}
  }

  class ControlFlowGraph {
    const code: Program
    const tracker: DisassemblyTracker
    var blocks: map<nat, BasicBlock>
    var pending: set<nat>
    ghost var entries: set<nat>
    ghost var covered: set<nat>
    /** Where the blocks start, the one under construction included, and what lies inside them. */
    ghost var starts: set<nat>
    ghost var inner: set<nat>

    constructor (code: Program)
      requires code.Valid()
      ensures this.code == code && fresh(tracker) && Valid() && blocks == map[] && entries == {} && covered == {}
    {
      this.code := code;
      tracker := new DisassemblyTracker(code.size);
      blocks, pending, entries, covered, starts, inner := map[], {}, {}, {}, {}, {};
    }

    /** Between builds the blocks hold exactly what the entries so far can reach. */
    ghost predicate Valid()
      reads this, tracker
    {
      && code.Valid() && pending == {} && Exploring({}, code.size) && BlocksOk(code, blocks, covered) && EdgesOk(code, blocks)
      && Ordered()
    }

    /** The books on starts and insides are those of the blocks. */
    ghost predicate Ordered()
      reads this, tracker
    {
      Queued() && Listed() && starts == blocks.Keys && InnerOk(blocks, inner)
    }

    /** What is pending has been marked, and is not marked as processed unless it has its block; and
        what lies inside a block has been marked. */
    ghost predicate Queued()
      reads `pending, `starts, `inner, tracker
    {
      && (forall v :: v in pending && v < |tracker.state| ==>
        tracker.state[v] != Unprocessed && (tracker.state[v] == Processed ==> v in starts))
      && (forall a :: a in inner ==> a < |tracker.state| && tracker.state[a] != Unprocessed)
    }

    /** What has a block, or will have one, is an entry or what some transfer of control leads to. */
    ghost predicate Listed()
      reads `entries, `covered, `starts, `pending
    {
      ListOk(code, entries, covered, starts + pending)
    }

    ghost predicate Exploring(owed: set<nat>, start: nat)
      reads `entries, `pending, `covered, tracker
    {
      Discovery.Exploring(code, entries, tracker.state, pending, covered, owed, start)
    }

    /** A target inside the code: it is marked, put on the work list, and the edge is noted. */
    method Branch(from: nat, target: nat, edges: map<nat, seq<nat>>, ghost owed: set<nat>) returns (now: map<nat, seq<nat>>)
      requires Exploring(owed, from) && code.Inside(target) <= owed + pending && Queued()
      modifies `pending, tracker
      ensures Exploring(owed - code.Inside(target), from) && Queued()
      ensures pending == old(pending) + code.Inside(target)
      ensures OnlyFor(from, edges, now) && Targets(now, from) == Targets(edges, from) + code.Inside(target)
    {
      now := edges;
      if target < code.size {
        Mark(code, entries, tracker.state, pending, covered, owed, from, target);
        tracker.MarkAs(target, JumpTarget);
        pending := pending + {target};
        RecordedTargets(edges, from, target);
        now := Recorded(edges, from, target);
      }
    }

    /** The successors of a control transfer go on the work list, each by its own branch. */
    method Leave(from: nat, i: Instruction, edges: map<nat, seq<nat>>) returns (now: map<nat, seq<nat>>)
      requires code.Valid() && code.Decodes(i.address) && code.decode(i.address).value == i && i.kind != Ordinary
      requires Exploring(code.Next(i.address), from) && Queued()
      modifies `pending, tracker
      ensures Exploring({}, from) && Queued()
      ensures pending == old(pending) + code.Next(i.address)
      ensures OnlyFor(from, edges, now) && Targets(now, from) == Targets(edges, from) + code.Next(i.address)
    {
      now := edges;
      if i.kind.Call? {
        now := BranchAndFallThrough(from, i, now);
      } else if i.kind.Jump? {
        now := Branch(from, i.target, now, code.Inside(i.target));
      } else if i.kind.CondJump? {
        now := BranchAndFallThrough(from, i, now);
      }
    }

    method BranchAndFallThrough(from: nat, i: Instruction, edges: map<nat, seq<nat>>) returns (now: map<nat, seq<nat>>)
      requires Exploring(code.Inside(i.target) + code.Inside(i.End()), from) && Queued()
      modifies `pending, tracker
      ensures Exploring({}, from) && Queued()
      ensures pending == old(pending) + (code.Inside(i.target) + code.Inside(i.End()))
      ensures OnlyFor(from, edges, now)
      ensures Targets(now, from) == Targets(edges, from) + (code.Inside(i.target) + code.Inside(i.End()))
    {
      ghost var owed := code.Inside(i.target) + code.Inside(i.End());
      now := Branch(from, i.target, edges, owed);
      ghost var rest := owed - code.Inside(i.target);
      now := Branch(from, i.End(), now, rest);
      assert rest - code.Inside(i.End()) == {};
    }

    /** The inside of a block is none of another's. */
    ghost predicate OwnInside(block: BasicBlock, others: set<nat>)
      reads `inner
    {
      inner == others + Interior(block) && others !! Interior(block)
    }

    /** A block that is still growing, with `current` the next address to look at. */
    ghost predicate Growing(block: BasicBlock, current: nat, base: set<nat>)
      reads `entries, `pending, `covered, `starts, `inner, tracker
    {
      && Queued() && Listed()
      && Open(code, block, current) && Exploring(code.Inside(current), block.start)
      && covered == base + Addresses(block) && (block.instructions != [] ==> block.start in covered)
    }

    /** A block that has ended, with its ways out recorded. */
    ghost predicate Grown(block: BasicBlock, start: nat, base: set<nat>, edges: map<nat, seq<nat>>)
      reads `entries, `pending, `covered, `starts, `inner, tracker
    {
      && Queued() && Listed() && (code.Decodes(start) ==> block.instructions != [])
      && block.start == start && Straight(code, block) && block.successors == [] && block.predecessors == []
      && Exploring({}, start) && (code.Decodes(start) ==> start in covered)
      && covered == base + Addresses(block) && ExitsIn(code, block, Targets(edges, start))
    }

    lemma StartsInside(start: nat)
      requires Exploring({start}, start)
      ensures Exploring(code.Inside(start), start)
    {
      if start >= code.size {
        Settle(code, entries, tracker.state, pending, covered, {start}, start, start);
        assert {start} - {start} == {};
      }
    }

    /** The block ends before `current`, which is outside the code or does not decode. */
    lemma EndsBefore(block: BasicBlock, current: nat, base: set<nat>, edges: map<nat, seq<nat>>)
      requires Growing(block, current, base) && !code.Decodes(current) && block.start !in edges
      ensures Grown(block, block.start, base, edges)
    {
      Settle(code, entries, tracker.state, pending, covered, code.Inside(current), block.start, current);
      assert code.Inside(current) - {current} == {};
    }

    /** The block ends before `current`, where something begins that is known already. */
    lemma EndsAtEntry(block: BasicBlock, current: nat, base: set<nat>, edges: map<nat, seq<nat>>)
      requires Growing(block, current, base) && current != block.start && tracker.IsEntryPoint(current) && block.start !in edges
      ensures Grown(block, block.start, base, Recorded(edges, block.start, current))
    {
      Settle(code, entries, tracker.state, pending, covered, {current}, block.start, current);
      assert {current} - {current} == {};
      RecordedTargets(edges, block.start, current);
      assert Targets(edges, block.start) + {current} == {current};
    }

    /** The block ends with a transfer of control. */
    lemma EndsWithTransfer(block: BasicBlock, i: Instruction, base: set<nat>, edges: map<nat, seq<nat>>, was: set<nat>, had: set<nat>)
      requires Straight(code, block) && block.instructions != [] && i == block.instructions[|block.instructions| - 1]
      requires block.successors == [] && block.predecessors == [] && code.Decodes(i.address)
      requires Exploring({}, block.start) && block.start in covered && covered == base + Addresses(block)
      requires Targets(edges, block.start) == code.Next(i.address) && Queued()
      requires code.decode(i.address).value.kind != Ordinary && covered == was + {i.address} && pending == had + code.Next(i.address)
      requires ListOk(code, entries, was, starts + had)
      ensures Grown(block, block.start, base, edges)
    {
      ListedAfter(was, had, i.address);
    }

    /** Adds the instruction at the current address to the block. */
    method Append(block: BasicBlock, i: Instruction, ghost base: set<nat>, ghost others: set<nat>) returns (now: BasicBlock)
      requires code.Valid() && code.Decodes(i.address) && code.decode(i.address).value == i && Growing(block, i.address, base)
      requires OwnInside(block, others) && (i.address == block.start || !tracker.IsEntryPoint(i.address))
      modifies `covered, `inner, tracker
      ensures now == Extended(block, i) && Straight(code, now) && block.start in covered && covered == base + Addresses(now)
      ensures Exploring(code.Next(i.address), block.start) && Queued() && OwnInside(now, others) && covered == old(covered) + {i.address}
      ensures i.kind == Ordinary ==> Growing(now, i.End(), base)
    {
      now := Extended(block, i);
      ExtendInterior(block, i);
      Note(i.address, block.start);
      assert covered == old(covered) + {i.address};
      StillListed(old(covered), i.address);
      GrowsBy(block, i, base);
    }

    /** An instruction that does not transfer control adds no starts. */
    lemma StillListed(was: set<nat>, a: nat)
      requires code.Decodes(a) && covered == was + {a}
      requires ListOk(code, entries, was, starts + pending)
      ensures code.decode(a).value.kind == Ordinary ==> Listed()
    {
      if code.decode(a).value.kind == Ordinary {
        forall v ensures StartsAt(code, entries, covered, v) <==> StartsAt(code, entries, was, v) {
          MoreStarts(code, entries, was, a, v);
        }
      }
    }

    lemma GrowsBy(block: BasicBlock, i: Instruction, base: set<nat>)
      requires code.Valid() && code.Decodes(i.address) && code.decode(i.address).value == i && Open(code, block, i.address)
      requires Exploring(code.Next(i.address), block.start) && covered == base + Addresses(block) + {i.address}
      requires (block.instructions != [] ==> block.start in covered) && Queued() && (i.kind == Ordinary ==> Listed())
      ensures Straight(code, Extended(block, i)) && block.start in covered && covered == base + Addresses(Extended(block, i))
      ensures i.kind == Ordinary ==> Growing(Extended(block, i), i.End(), base)
    {
      ExtendOpen(code, block, i);
      ExtendAddresses(block, i);
      assert base + Addresses(block) + {i.address} == base + (Addresses(block) + {i.address});
      if i.kind == Ordinary {
        FallsThrough(code, i);
        assert Exploring(code.Inside(i.End()), block.start);
      }
    }

    /** An address has been decoded; unless it is where the block starts it is marked at once. */
    method Note(a: nat, start: nat)
      requires code.Decodes(a) && Exploring({a}, start) && Queued() && (a == start || !tracker.IsEntryPoint(a))
      modifies `covered, `inner, tracker
      ensures Exploring(code.Next(a), start) && covered == old(covered) + {a} && Queued()
      ensures a != start ==> a !in old(inner) && inner == old(inner) + {a}
      ensures a == start ==> inner == old(inner)
    {
      Cover(code, entries, tracker.state, pending, covered, {a}, start, a);
      assert {a} - {a} + code.Next(a) == code.Next(a);
      covered := covered + {a};
      if a != start {
        inner := inner + {a};
        tracker.MarkAs(a, Processed);
      }
    }

    /** Adds an instruction that transfers control, and notes where to. */
    method AppendTransfer(block: BasicBlock, i: Instruction, edges: map<nat, seq<nat>>, ghost base: set<nat>, ghost others: set<nat>)
      returns (done: BasicBlock, now: map<nat, seq<nat>>)
      requires code.Valid() && code.Decodes(i.address) && code.decode(i.address).value == i && Growing(block, i.address, base)
      requires OwnInside(block, others) && (i.address == block.start || !tracker.IsEntryPoint(i.address))
      requires i.kind != Ordinary && block.start !in edges
      modifies `pending, `covered, `inner, tracker
      ensures Grown(done, block.start, base, now) && OwnInside(done, others) && OnlyFor(block.start, edges, now)
      ensures old(pending) <= pending <= old(pending) + Bytes(code)
    {
      hide Exploring, Queued, ListOk, Straight, ExitsIn, Addresses, Interior;
      done := Append(block, i, base, others);
      now := Leave(block.start, i, edges);
      assert Targets(edges, block.start) == {};
      EndsWithTransfer(done, i, base, now, old(covered), old(pending));
    }

    /** What an instruction that transfers control leads to has been put on the work list. */
    lemma ListedAfter(was: set<nat>, had: set<nat>, a: nat)
      requires code.Decodes(a) && code.decode(a).value.kind != Ordinary && covered == was + {a} && pending == had + code.Next(a)
      requires ListOk(code, entries, was, starts + had)
      ensures Listed()
    {
      forall v ensures v in starts + pending <==> StartsAt(code, entries, covered, v) {
        MoreStarts(code, entries, was, a, v);
      }
    }

    /** Looks at the next address: the block ends before it, ends with it, or goes on behind it. */
    method Advance(block: BasicBlock, current: nat, edges: map<nat, seq<nat>>, ghost base: set<nat>, ghost others: set<nat>)
      returns (next: BasicBlock, behind: nat, now: map<nat, seq<nat>>, goesOn: bool)
      requires code.Valid() && Growing(block, current, base) && OwnInside(block, others) && block.start !in edges
      modifies `pending, `covered, `inner, tracker
      ensures OwnInside(next, others) && next.start == block.start && old(pending) <= pending <= old(pending) + Bytes(code)
      ensures goesOn ==> Growing(next, behind, base) && current < behind <= code.size && now == edges && pending == old(pending)
      ensures !goesOn ==> Grown(next, block.start, base, now) && OnlyFor(block.start, edges, now)
    {
      hide Exploring, Queued, Listed, Straight, ExitsIn, Addresses, Interior, Targets;
      next, behind, now, goesOn := block, current, edges, false;
      if current >= code.size {
        EndsBefore(block, current, base, now);
        return;
      }
      if current != block.start && tracker.IsEntryPoint(current) {
        EndsAtEntry(block, current, base, now);
        now := Recorded(now, block.start, current);
        return;
      }
      var found := code.decode(current);
      if found.None? {
        EndsBefore(block, current, base, now);
        return;
      }
      var i := found.value;
      if i.kind != Ordinary {
        next, now := AppendTransfer(block, i, now, base, others);
      } else {
        next := Append(block, i, base, others);
        behind, goesOn := current + i.size, true;
      }
    }

    method CreateBasicBlock(start: nat, edges: map<nat, seq<nat>>) returns (block: BasicBlock, now: map<nat, seq<nat>>)
      requires code.Valid() && Exploring({start}, start) && start !in edges && Queued() && Listed()
      modifies `pending, `covered, `inner, tracker
      ensures Grown(block, start, old(covered), now) && OwnInside(block, old(inner)) && OnlyFor(start, edges, now)
      ensures old(pending) <= pending <= old(pending) + Bytes(code)
    {
      block, now := EmptyBlock(start), edges;
      ghost var base, others := covered, inner;
      StartsInside(start);
      var current, shouldContinue := start, true;
      while shouldContinue
        invariant block.start == start && OwnInside(block, others) && old(pending) <= pending <= old(pending) + Bytes(code)
        invariant shouldContinue ==> Growing(block, current, base) && now == edges && pending == old(pending)
        invariant !shouldContinue ==> Grown(block, start, base, now) && OnlyFor(start, edges, now)
        decreases shouldContinue, code.size - current
      {
        block, current, now, shouldContinue := Advance(block, current, now, base, others);
      }
    }

    /** The blocks are in order, those of this build still without their edges. */
    ghost predicate BlocksIn(before: map<nat, BasicBlock>, edges: map<nat, seq<nat>>)
      reads `blocks, `covered, `starts, `inner
    {
      && BlocksOk(code, blocks, covered) && NewBlocks(code, before, blocks, edges)
      && starts == blocks.Keys && InnerOk(blocks, inner)
    }

    /** All is in order between two entries. */
    ghost predicate Discovering(before: map<nat, BasicBlock>, edges: map<nat, seq<nat>>)
      reads this, tracker
    {
      code.Valid() && Exploring({}, code.size) && Queued() && Listed() && BlocksIn(before, edges)
    }

    /** Explores one entry that has neither been decoded nor given a block yet. */
    method Explore(e: nat, edges: map<nat, seq<nat>>, ghost before: map<nat, BasicBlock>) returns (now: map<nat, seq<nat>>)
      requires code.Valid() && Exploring({e}, e) && e !in blocks
      requires BlocksOk(code, blocks, covered) && NewBlocks(code, before, blocks, edges)
      requires Queued() && Listed() && starts == blocks.Keys + {e} && InnerOk(blocks, inner)
      modifies `blocks, `pending, `covered, `inner, tracker
      ensures Discovering(before, now)
      ensures blocks.Keys == old(blocks.Keys) + {e} && old(pending) <= pending <= old(pending) + Bytes(code)
    {
      ghost var base, others := covered, inner;
      var block;
      block, now := CreateBasicBlock(e, edges);
      assert BlocksOk(code, blocks, base) && NewBlocks(code, before, blocks, edges);
      Stored(e, block, edges, now, before, base, others);
      Store(e, block, now, before);
    }

    /** Keeps a finished block and marks its start. */
    method Store(e: nat, block: BasicBlock, ghost now: map<nat, seq<nat>>, ghost before: map<nat, BasicBlock>)
      requires code.Valid() && Exploring({}, e) && (code.Decodes(e) ==> e in covered)
      requires Queued() && Listed() && starts == blocks.Keys + {e}
      requires BlocksOk(code, blocks[e := block], covered) && NewBlocks(code, before, blocks[e := block], now)
      requires InnerOk(blocks[e := block], inner)
      modifies `blocks, tracker
      ensures Discovering(before, now) && blocks == old(blocks)[e := block]
    {
      hide Exploring, Queued, Listed, BlocksOk, NewBlocks, InnerOk;
      MarkDone(e);
      blocks := blocks[e := block];
    }

    /** Marks the start of a finished block. */
    method MarkDone(e: nat)
      requires Exploring({}, e) && (code.Decodes(e) ==> e in covered) && Queued() && e in starts
      modifies tracker
      ensures Exploring({}, code.size) && Queued()
    {
      Finish(code, entries, tracker.state, pending, covered, e);
      tracker.MarkAs(e, Processed);
    }

    lemma Stored(e: nat, block: BasicBlock, edges: map<nat, seq<nat>>, now: map<nat, seq<nat>>,
                 before: map<nat, BasicBlock>, base: set<nat>, others: set<nat>)
      requires Grown(block, e, base, now) && OwnInside(block, others) && InnerOk(blocks, others) && OnlyFor(e, edges, now) && e !in blocks
      requires BlocksOk(code, blocks, base) && NewBlocks(code, before, blocks, edges)
      ensures BlocksOk(code, blocks[e := block], covered) && NewBlocks(code, before, blocks[e := block], now)
      ensures InnerOk(blocks[e := block], inner)
    {
      StoreOk(code, blocks, base, e, block);
      StoreInner(blocks, others, e, block);
      StoreNew(code, before, blocks, edges, e, block, now);
    }

    /** An entry that has its block is passed over. */
    method PassOver(e: nat)
      requires Exploring({}, code.size) && Queued() && Listed() && e in pending && e in starts && (code.Decodes(e) ==> e in covered)
      modifies `pending
      ensures Exploring({}, code.size) && Queued() && Listed() && pending == old(pending) - {e}
    {
      Take(code, entries, tracker.state, pending, covered, e);
      assert starts + pending == starts + (pending - {e});
      pending := pending - {e};
    }

    lemma KnownStarts(e: nat, edges: map<nat, seq<nat>>, before: map<nat, BasicBlock>)
      requires Discovering(before, edges) && e in pending && (tracker.IsProcessed(e) || e in blocks)
      ensures e in starts
    {
    }

    /** An entry without a block is about to get one. */
    method Begin(e: nat)
      requires Exploring({}, code.size) && Queued() && Listed() && e in pending
      modifies `pending, `starts
      ensures Exploring({e}, e) && Queued() && Listed() && starts == old(starts) + {e} && pending == old(pending) - {e}
    {
      Take(code, entries, tracker.state, pending, covered, e);
      assert starts + pending == (starts + {e}) + (pending - {e});
      starts := starts + {e};
      pending := pending - {e};
    }

    /** Takes one entry from the work list; an entry that is known already is passed over. */
    method ProcessEntry(e: nat, edges: map<nat, seq<nat>>, ghost before: map<nat, BasicBlock>, ghost all: set<nat>) returns (now: map<nat, seq<nat>>)
      requires Discovering(before, edges) && e in pending && pending <= all && Bytes(code) <= all
      modifies `blocks, `pending, `covered, `starts, `inner, tracker
      ensures Discovering(before, now) && pending <= all
      ensures |all - blocks.Keys| < old(|all - blocks.Keys|) || (|all - blocks.Keys| == old(|all - blocks.Keys|) && |pending| < old(|pending|))
    {
      hide Exploring, BlocksIn, Listed, Queued;
      ghost var keys, was := blocks.Keys, pending;
      if tracker.IsProcessed(e) || e in blocks {
        KnownStarts(e, edges, before);
        ProcessKnown(e, edges, before);
        now := edges;
      } else {
        now := ProcessNew(e, edges, before);
      }
      LessToDo(all, keys, was, e, blocks.Keys, pending);
    }

    /** An entry with a block is done. */
    method ProcessKnown(e: nat, ghost edges: map<nat, seq<nat>>, ghost before: map<nat, BasicBlock>)
      requires Discovering(before, edges) && e in pending && e in starts
      modifies `pending
      ensures Discovering(before, edges) && pending == old(pending) - {e}
    {
      hide Exploring, Queued, Listed;
      if code.Decodes(e) {
        CoveredStart(code, blocks, covered, e);
      }
      PassOver(e);
    }

    /** An entry without a block gets one. */
    method ProcessNew(e: nat, edges: map<nat, seq<nat>>, ghost before: map<nat, BasicBlock>) returns (now: map<nat, seq<nat>>)
      requires Discovering(before, edges) && e in pending && e !in blocks
      modifies `blocks, `pending, `covered, `starts, `inner, tracker
      ensures Discovering(before, now)
      ensures blocks.Keys == old(blocks.Keys) + {e} && old(pending) - {e} <= pending <= old(pending) + Bytes(code)
    {
      Begin(e);
      now := Explore(e, edges, before);
    }

    /** The work list, smallest entry first, until it is empty; then the edges. */
    method ProcessPendingEntries()
      requires Discovering(blocks, map[]) && EdgesOk(code, blocks)
      modifies `blocks, `pending, `covered, `starts, `inner, tracker
      ensures pending == {} && Exploring({}, code.size) && BlocksOk(code, blocks, covered) && EdgesOk(code, blocks) && Ordered()
      ensures old(blocks.Keys) <= blocks.Keys && LinkedMutual(old(blocks), blocks)
    {
      hide EdgesOk;
      ghost var before := blocks;
      var edges := ProcessEntries(before);
      LinkUp(edges, before);
    }

    method ProcessEntries(ghost before: map<nat, BasicBlock>) returns (edges: map<nat, seq<nat>>)
      requires Discovering(before, map[])
      modifies `blocks, `pending, `covered, `starts, `inner, tracker
      ensures Discovering(before, edges) && pending == {}
    {
      ghost var all := Bytes(code) + pending;
      edges := map[];
      while pending != {}
        invariant Discovering(before, edges) && pending <= all
        decreases |all - blocks.Keys|, |pending|
      {
        ghost var some :| some in pending;
        ghost var least := SmallestFrom(pending, 0, some);
        var e :| e in pending && forall x :: x in pending ==> e <= x;
        edges := ProcessEntry(e, edges, before, all);
      }
    }

    method LinkUp(edges: map<nat, seq<nat>>, ghost before: map<nat, BasicBlock>)
      requires Discovering(before, edges) && EdgesOk(code, before)
      modifies `blocks
      ensures Exploring({}, code.size) && BlocksOk(code, blocks, covered) && EdgesOk(code, blocks) && Ordered()
      ensures blocks.Keys == old(blocks.Keys) && LinkedMutual(before, blocks)
    {
      hide BlocksOk, InnerOk, EdgesOk, AllEdges, LinkedMutual, Exploring, Queued, Listed;
      ghost var was := blocks;
      ghost var done := AddEdges(edges, before);
      LinkedUp(code, before, was, edges, done, blocks, covered);
      SameInner(was, done, blocks, inner);
    }

    /** Builds the graph from one more entry. Afterwards the instructions in all blocks are exactly
        those that some run from one of the entries reaches, blocks start exactly at the entries and
        where these instructions transfer control to, and whether successors and predecessors mirror
        each other has been decided by the graph before. */
    method Build(entry: nat)
      requires Valid()
      modifies this, tracker
      ensures Valid() && entries == old(entries) + {entry} && old(blocks.Keys) <= blocks.Keys
      ensures forall a :: InSome(blocks, a) <==> Reaches(code, entries, a)
      ensures forall v :: v in blocks <==> IsStart(code, entries, v)
      ensures forall k :: k in blocks ==> LaidOut(code, blocks, k)
      ensures forall a :: InSome(blocks, a) ==> code.decode(a).Some? && (a in entries || ComesFrom(blocks, a, false))
      ensures forall v :: v in blocks ==> v in entries || ComesFrom(blocks, v, true)
      ensures Mutual(blocks) <==> StaysMutual(code, old(entries) + {entry}, old(blocks))
    {
      hide Mutual, StaysMutual, LinkedMutual, IsStart, Reaches, InSome, BlocksOk, EdgesOk, InnerOk, LaidOut, ComesFrom;
      ghost var before := blocks;
      Enter(code, entries, tracker.state, covered, entry);
      tracker.MarkAs(entry, EntryPoint);
      pending := pending + {entry};
      entries := entries + {entry};
      ProcessPendingEntries();
      Built(code, entries, tracker.state, covered, blocks);
      AllLaidOut(code, entries, covered, blocks);
      StaysIff(code, entries, before, blocks);
    }

    /** Adds one edge: the target to the successors of the source, and the source to the predecessors
        of the target if there is such a block; nothing if there is no source. */
    method AddEdge(from: nat, to: nat)
      modifies `blocks
      ensures if from in old(blocks) then WithEdges(old(blocks), blocks, {(from, to)}) else blocks == old(blocks)
    {
      if from !in blocks {
        return;
      }
      ghost var was := blocks;
      if to !in blocks[from].successors {
        blocks := blocks[from := blocks[from].(successors := blocks[from].successors + [to])];
      }
      ghost var half := blocks;
      if to in blocks {
        if from !in blocks[to].predecessors {
          blocks := blocks[to := blocks[to].(predecessors := blocks[to].predecessors + [from])];
        }
      }
      OneEdge(was, half, blocks, from, to);
    }

    /** Adds the edges of one source. */
    method AddEdgesFrom(from: nat, targets: seq<nat>)
      requires from in blocks
      modifies `blocks
      ensures WithEdges(old(blocks), blocks, EdgesTo(from, targets))
    {
      ghost var was := blocks;
      var i := 0;
      NoEdges(blocks);
      while i < |targets|
        invariant 0 <= i <= |targets| && from in blocks && WithEdges(was, blocks, EdgesTo(from, targets[..i]))
      {
        ghost var half := blocks;
        AddEdge(from, targets[i]);
        MoreEdges(was, half, blocks, EdgesTo(from, targets[..i]), {(from, targets[i])});
        assert EdgesTo(from, targets[..i + 1]) == EdgesTo(from, targets[..i]) + {(from, targets[i])};
        i := i + 1;
      }
      assert targets[..i] == targets;
    }

    /** Adds all edges, source by source. */
    method AddEdges(edges: map<nat, seq<nat>>, ghost before: map<nat, BasicBlock>) returns (ghost done: set<(nat, nat)>)
      requires edges.Keys <= blocks.Keys
      modifies `blocks
      ensures AllEdges(edges, done) && WithEdges(old(blocks), blocks, done)
    {
      hide WithEdges;
      ghost var was := blocks;
      done := {};
      var todo := edges.Keys;
      NoEdges(blocks);
      while todo != {}
        invariant todo <= edges.Keys <= blocks.Keys && WithEdges(was, blocks, done)
        invariant forall u, v :: (u, v) in done <==> u in edges && u !in todo && v in edges[u]
      {
        var from :| from in todo;
        ghost var half := blocks;
        AddEdgesFrom(from, edges[from]);
        MoreEdges(was, half, blocks, done, EdgesTo(from, edges[from]));
        done := done + EdgesTo(from, edges[from]);
        todo := todo - {from};
      }
      assert AllEdges(edges, done);
    }
  }

  function Bytes(p: Program): set<nat> { set a: nat {:trigger p.decode(a)} | a < p.size }

  ghost predicate BlocksOk(p: Program, blocks: map<nat, BasicBlock>, covered: set<nat>) {
    && Holds(blocks, covered)
    && (forall k {:trigger blocks[k]} :: k in blocks ==>
      blocks[k].start == k && Straight(p, blocks[k]) && (p.Decodes(k) ==> k in covered && blocks[k].instructions != []))
  }

  /** No address lies inside two blocks. */
  ghost predicate InnerOk(blocks: map<nat, BasicBlock>, inner: set<nat>) {
    (forall k :: InnerAt(blocks, inner, k)) && (forall u, v :: ApartAt(blocks, u, v))
  }

  ghost predicate InnerAt(blocks: map<nat, BasicBlock>, inner: set<nat>, k: nat) {
    k in blocks ==> Interior(blocks[k]) <= inner
  }

  ghost predicate ApartAt(blocks: map<nat, BasicBlock>, u: nat, v: nat) {
    u in blocks && v in blocks && u != v ==> Interior(blocks[u]) !! Interior(blocks[v])
  }

  lemma StoreInner(blocks: map<nat, BasicBlock>, inner: set<nat>, e: nat, block: BasicBlock)
    requires InnerOk(blocks, inner) && e !in blocks && inner !! Interior(block)
    ensures InnerOk(blocks[e := block], inner + Interior(block))
  {
    var bs := blocks[e := block];
    forall k ensures InnerAt(bs, inner + Interior(block), k) {
      assert InnerAt(blocks, inner, k);
    }
    forall u, v ensures ApartAt(bs, u, v) {
      assert ApartAt(blocks, u, v) && InnerAt(blocks, inner, u) && InnerAt(blocks, inner, v);
    }
  }

  lemma SameInner(was: map<nat, BasicBlock>, done: set<(nat, nat)>, now: map<nat, BasicBlock>, inner: set<nat>)
    requires InnerOk(was, inner) && WithEdges(was, now, done)
    ensures InnerOk(now, inner)
  {
    forall k | k in now ensures Interior(now[k]) == Interior(was[k]) {
      assert SameCode(was[k], now[k]);
    }
    forall k ensures InnerAt(now, inner, k) {
      assert InnerAt(was, inner, k);
    }
    forall u, v ensures ApartAt(now, u, v) {
      assert ApartAt(was, u, v);
    }
  }

  /** The instruction at `a` transfers control to `v`, perhaps. */
  ghost predicate Transfers(p: Program, a: nat, v: nat) {
    p.Decodes(a) && p.decode(a).value.kind != Ordinary && v in p.Next(a)
  }

  /** A block has to start here: at an entry, or where one of the covered instructions transfers control to. */
  ghost predicate StartsAt(p: Program, entries: set<nat>, covered: set<nat>, v: nat) {
    v in entries || exists a :: a in covered && Transfers(p, a, v)
  }

  ghost predicate ListOk(p: Program, entries: set<nat>, covered: set<nat>, starts: set<nat>) {
    forall v :: v in starts <==> StartsAt(p, entries, covered, v)
  }

  lemma StartsWhenDone(p: Program, entries: set<nat>, covered: set<nat>)
    requires forall a :: a in covered <==> Reaches(p, entries, a)
    ensures forall v :: StartsAt(p, entries, covered, v) <==> IsStart(p, entries, v)
  {
    forall v ensures StartsAt(p, entries, covered, v) <==> IsStart(p, entries, v) {
      if a :| a in covered && Transfers(p, a, v) {
        assert Reaches(p, entries, a);
      }
      if a :| Reaches(p, entries, a) && Transfers(p, a, v) {
        assert a in covered;
      }
    }
  }

  /** With nothing pending the blocks have just what can be reached, and start just where they should. */
  lemma Built(p: Program, entries: set<nat>, marks: seq<State>, covered: set<nat>, blocks: map<nat, BasicBlock>)
    requires Discovery.Exploring(p, entries, marks, {}, covered, {}, p.size)
    requires BlocksOk(p, blocks, covered) && ListOk(p, entries, covered, blocks.Keys)
    ensures forall a :: InSome(blocks, a) <==> Reaches(p, entries, a)
    ensures forall v :: v in blocks <==> IsStart(p, entries, v)
  {
    ExactWhenDone(p, entries, marks, covered);
    StartsWhenDone(p, entries, covered);
    hide Discovery.Exploring, StartsAt, IsStart, Reaches, Straight;
    forall v ensures v in blocks <==> IsStart(p, entries, v) {
      assert v in blocks.Keys <==> StartsAt(p, entries, covered, v);
    }
  }

  lemma MoreStarts(p: Program, entries: set<nat>, covered: set<nat>, a: nat, v: nat)
    ensures StartsAt(p, entries, covered + {a}, v) <==> StartsAt(p, entries, covered, v) || Transfers(p, a, v)
  {
    if b :| b in covered && Transfers(p, b, v) {
      assert b in covered + {a};
    } else if Transfers(p, a, v) {
      assert a in covered + {a};
    }
  }

  ghost predicate EdgesOk(p: Program, blocks: map<nat, BasicBlock>) {
    && (forall k {:trigger blocks[k]} :: k in blocks ==> ExitsIn(p, blocks[k], Elements(blocks[k].successors)))
    && (forall k {:trigger blocks[k]} :: k in blocks ==> NoRepeats(blocks[k].successors) && NoRepeats(blocks[k].predecessors))
    && PredecessorsOk(blocks)
  }

  /** Every predecessor is a block that has this one as a successor. */
  ghost predicate PredecessorsOk(blocks: map<nat, BasicBlock>) {
    forall u, v {:trigger u in blocks[v].predecessors} :: v in blocks && u in blocks[v].predecessors ==> u in blocks && v in blocks[u].successors
  }

  function Elements(s: seq<nat>): set<nat> { set x | x in s }

  ghost predicate NoRepeats(s: seq<nat>) {
    forall i, j :: 0 <= i < j < |s| ==> s[i] != s[j]
  }

  /** The blocks made in this build, with the edges that are still to be added to them. */
  ghost predicate NewBlocks(p: Program, before: map<nat, BasicBlock>, blocks: map<nat, BasicBlock>, edges: map<nat, seq<nat>>) {
    && before.Keys <= blocks.Keys && (forall k {:trigger before[k]} :: k in before ==> blocks[k] == before[k])
    && edges.Keys <= blocks.Keys - before.Keys
    && (forall k {:trigger blocks[k]} :: k in blocks && k !in before ==>
      blocks[k].successors == [] && blocks[k].predecessors == [] && ExitsIn(p, blocks[k], Targets(edges, k)))
  }

  lemma StoreOk(p: Program, blocks: map<nat, BasicBlock>, covered: set<nat>, e: nat, block: BasicBlock)
    requires BlocksOk(p, blocks, covered) && e !in blocks
    requires block.start == e && Straight(p, block) && (p.Decodes(e) ==> e in covered + Addresses(block) && block.instructions != [])
    ensures BlocksOk(p, blocks[e := block], covered + Addresses(block))
  {
    StoreHolds(blocks, covered, e, block);
    var bs := blocks[e := block];
    forall k | k in bs
      ensures bs[k].start == k && Straight(p, bs[k]) && (p.Decodes(k) ==> k in covered + Addresses(block) && bs[k].instructions != [])
    {
      assert k != e ==> bs[k] == blocks[k];
    }
  }

  lemma StoreHolds(blocks: map<nat, BasicBlock>, covered: set<nat>, e: nat, block: BasicBlock)
    requires Holds(blocks, covered) && e !in blocks
    ensures Holds(blocks[e := block], covered + Addresses(block))
  {
    var bs := blocks[e := block];
    forall a | a in covered + Addresses(block) ensures InSome(bs, a) {
      if a in Addresses(block) {
        assert e in bs && a in Addresses(bs[e]);
      } else {
        var k :| k in blocks && a in Addresses(blocks[k]);
        assert k in bs && a in Addresses(bs[k]);
      }
    }
    forall k | k in bs ensures Addresses(bs[k]) <= covered + Addresses(block) {
      assert k != e ==> bs[k] == blocks[k];
    }
  }

  lemma StoreNew(p: Program, before: map<nat, BasicBlock>, blocks: map<nat, BasicBlock>, edges: map<nat, seq<nat>>,
                 e: nat, block: BasicBlock, now: map<nat, seq<nat>>)
    requires NewBlocks(p, before, blocks, edges) && e !in blocks && OnlyFor(e, edges, now)
    requires block.successors == [] && block.predecessors == [] && ExitsIn(p, block, Targets(now, e))
    ensures NewBlocks(p, before, blocks[e := block], now)
  {
    var bs := blocks[e := block];
    forall k | k in bs && k !in before
      ensures bs[k].successors == [] && bs[k].predecessors == [] && ExitsIn(p, bs[k], Targets(now, k))
    {
      if k != e {
        assert bs[k] == blocks[k];
        SameTargets(e, edges, now, k);
      }
    }
  }

  lemma SameTargets(start: nat, edges: map<nat, seq<nat>>, now: map<nat, seq<nat>>, k: nat)
    requires OnlyFor(start, edges, now) && k != start
    ensures Targets(now, k) == Targets(edges, k)
  {
    assert k in now <==> k in now - {start};
    assert k in edges <==> k in edges - {start};
    if k in now {
      assert (now - {start})[k] == (edges - {start})[k];
    }
  }

  lemma {:induction false} SmallestFrom(s: set<nat>, k: nat, y: nat) returns (e: nat)
    requires y in s && k <= y && forall x :: x in s ==> k <= x
    ensures e in s && forall x :: x in s ==> e <= x
    decreases y - k
  {
    e := k;
    if k !in s {
      e := SmallestFrom(s, k + 1, y);
    }
  }

  lemma CoveredStart(p: Program, blocks: map<nat, BasicBlock>, covered: set<nat>, e: nat)
    requires BlocksOk(p, blocks, covered) && e in blocks && p.Decodes(e)
    ensures e in covered
  {
    assert blocks[e].start == e;
  }

  lemma LessToDo(all: set<nat>, keys: set<nat>, pending: set<nat>, e: nat, keys': set<nat>, pending': set<nat>)
    requires e in pending && pending <= all
    requires (keys' == keys && pending' == pending - {e}) || (keys' == keys + {e} && e !in keys)
    ensures |all - keys'| < |all - keys| || (|all - keys'| == |all - keys| && |pending'| < |pending|)
  {
    if keys' != keys {
      assert all - keys' == (all - keys) - {e};
    }
  }

  /** Between blocks, every successor has the block as a predecessor. */
  ghost predicate Mutual(blocks: map<nat, BasicBlock>) {
    forall u, v :: u in blocks && v in blocks && v in blocks[u].successors ==> u in blocks[v].predecessors
  }

  /** A block leads here, but none starts here. */
  ghost predicate Dangling(blocks: map<nat, BasicBlock>, v: nat) {
    v !in blocks && exists u :: u in blocks && v in blocks[u].successors
  }

  /** Where blocks start once the code has been explored from the entries: at the entries, and where
      what they reach transfers control to. */
  ghost predicate IsStart(p: Program, entries: set<nat>, v: nat) {
    v in entries || exists a :: Reaches(p, entries, a) && Transfers(p, a, v)
  }

  /** Lists that mirror each other, and no dangling successor at which a block will start. */
  ghost predicate StaysMutual(p: Program, entries: set<nat>, blocks: map<nat, BasicBlock>) {
    Mutual(blocks) && forall v :: Dangling(blocks, v) ==> !IsStart(p, entries, v)
  }

  // ----- edges -----

  /** `now` is `was` with the edges of `done` added. */
  ghost predicate WithEdges(was: map<nat, BasicBlock>, now: map<nat, BasicBlock>, done: set<(nat, nat)>) {
    && now.Keys == was.Keys
    && (forall k {:trigger now[k]} :: k in now ==> SameCode(was[k], now[k]))
    && (forall k {:trigger now[k]} :: k in now ==>
      forall t :: t in now[k].successors <==> t in was[k].successors || (k, t) in done)
    && (forall k {:trigger now[k]} :: k in now ==>
      forall f :: f in now[k].predecessors <==> f in was[k].predecessors || (f, k) in done)
    && (forall k {:trigger now[k]} :: k in now && NoRepeats(was[k].successors) ==> NoRepeats(now[k].successors))
    && (forall k {:trigger now[k]} :: k in now && NoRepeats(was[k].predecessors) ==> NoRepeats(now[k].predecessors))
  }

  predicate SameCode(a: BasicBlock, b: BasicBlock) {
    b == a.(successors := b.successors, predecessors := b.predecessors)
  }

  function EdgesTo(from: nat, targets: seq<nat>): set<(nat, nat)> {
    set t | t in targets :: (from, t)
  }

  ghost predicate AllEdges(edges: map<nat, seq<nat>>, done: set<(nat, nat)>) {
    forall u, v :: (u, v) in done <==> u in edges && v in edges[u]
  }

  lemma NoEdges(blocks: map<nat, BasicBlock>)
    ensures WithEdges(blocks, blocks, {})
  {
  }

  lemma MoreEdges(a: map<nat, BasicBlock>, b: map<nat, BasicBlock>, c: map<nat, BasicBlock>, done: set<(nat, nat)>, more: set<(nat, nat)>)
    requires WithEdges(a, b, done) && WithEdges(b, c, more)
    ensures WithEdges(a, c, done + more)
  {
    forall k | k in c ensures SameCode(a[k], c[k]) {
      assert SameCode(a[k], b[k]) && SameCode(b[k], c[k]);
    }
  }

  lemma OneEdge(was: map<nat, BasicBlock>, half: map<nat, BasicBlock>, now: map<nat, BasicBlock>, from: nat, to: nat)
    requires from in was
    requires half == if to in was[from].successors then was else was[from := was[from].(successors := was[from].successors + [to])]
    requires now == if to !in half || from in half[to].predecessors then half
      else half[to := half[to].(predecessors := half[to].predecessors + [from])]
    ensures WithEdges(was, now, {(from, to)})
  {
    Appended(was[from].successors, to);
    assert WithSuccessor(was, half, from, to);
    if to in half {
      Appended(half[to].predecessors, from);
    }
    forall k | k in now
      ensures SameCode(was[k], now[k]) && now[k].successors == half[k].successors
      ensures forall f :: f in now[k].predecessors <==> f in was[k].predecessors || (f, k) == (from, to)
      ensures NoRepeats(was[k].predecessors) ==> NoRepeats(now[k].predecessors)
    {
    }
  }

  ghost predicate WithSuccessor(was: map<nat, BasicBlock>, half: map<nat, BasicBlock>, from: nat, to: nat) {
    && half.Keys == was.Keys
    && (forall k {:trigger half[k]} :: k in half ==> HasSuccessor(was[k], half[k], k == from, to))
  }

  ghost predicate HasSuccessor(a: BasicBlock, b: BasicBlock, added: bool, to: nat) {
    && b == a.(successors := b.successors)
    && (forall t :: t in b.successors <==> t in a.successors || (added && t == to))
    && (NoRepeats(a.successors) ==> NoRepeats(b.successors))
  }

  /** Adding the edges of the new blocks leaves code and order of all blocks as they were, and makes
      the lists of successors and predecessors right. */
  lemma LinkedUp(p: Program, before: map<nat, BasicBlock>, was: map<nat, BasicBlock>, edges: map<nat, seq<nat>>,
                 done: set<(nat, nat)>, now: map<nat, BasicBlock>, covered: set<nat>)
    requires BlocksOk(p, was, covered) && NewBlocks(p, before, was, edges) && EdgesOk(p, before)
    requires AllEdges(edges, done) && WithEdges(was, now, done)
    ensures BlocksOk(p, now, covered) && EdgesOk(p, now) && LinkedMutual(before, now)
  {
    SameBlocks(p, was, now, done, covered);
    NewEdgesOk(p, before, was, edges, done, now);
    MutualIff(before, was, edges, done, now);
  }

  lemma NewEdgesOk(p: Program, before: map<nat, BasicBlock>, was: map<nat, BasicBlock>, edges: map<nat, seq<nat>>,
                   done: set<(nat, nat)>, now: map<nat, BasicBlock>)
    requires NewBlocks(p, before, was, edges) && EdgesOk(p, before) && AllEdges(edges, done) && WithEdges(was, now, done)
    ensures EdgesOk(p, now)
  {
    PredecessorsRight(before, was, edges, done, now);
    forall k | k in now
      ensures ExitsIn(p, now[k], Elements(now[k].successors)) && NoRepeats(now[k].successors) && NoRepeats(now[k].predecessors)
    {
      ExitsRight(p, before, was, edges, done, now, k);
    }
  }

  lemma SameBlocks(p: Program, was: map<nat, BasicBlock>, now: map<nat, BasicBlock>, done: set<(nat, nat)>, covered: set<nat>)
    requires BlocksOk(p, was, covered) && WithEdges(was, now, done)
    ensures BlocksOk(p, now, covered)
  {
    SameHolds(was, now, done, covered);
    forall k | k in now
      ensures now[k].start == k && Straight(p, now[k]) && (p.Decodes(k) ==> k in covered && now[k].instructions != [])
    {
      SameCodeSame(p, was[k], now[k]);
    }
  }

  lemma SameHolds(was: map<nat, BasicBlock>, now: map<nat, BasicBlock>, done: set<(nat, nat)>, covered: set<nat>)
    requires Holds(was, covered) && WithEdges(was, now, done)
    ensures Holds(now, covered)
  {
    forall k | k in now ensures Addresses(now[k]) == Addresses(was[k]) {
      assert SameCode(was[k], now[k]);
    }
    forall a | a in covered ensures InSome(now, a) {
      var k :| k in was && a in Addresses(was[k]);
      assert k in now && a in Addresses(now[k]);
    }
  }

  lemma SameCodeSame(p: Program, a: BasicBlock, b: BasicBlock)
    requires SameCode(a, b)
    ensures Addresses(a) == Addresses(b) && (Straight(p, a) ==> Straight(p, b)) && a.start == b.start
    ensures forall t :: ExitsIn(p, a, t) ==> ExitsIn(p, b, t)
  {
    assert a.instructions == b.instructions;
    forall i | 0 <= i < |b.instructions| - 1 && Straight(p, a) ensures Consecutive(b.instructions, i) {
      assert a.instructions[i].End() == b.instructions[i].End();
    }
  }

  lemma ExitsRight(p: Program, before: map<nat, BasicBlock>, was: map<nat, BasicBlock>, edges: map<nat, seq<nat>>,
                   done: set<(nat, nat)>, now: map<nat, BasicBlock>, k: nat)
    requires NewBlocks(p, before, was, edges) && EdgesOk(p, before) && AllEdges(edges, done) && WithEdges(was, now, done) && k in now
    ensures ExitsIn(p, now[k], Elements(now[k].successors)) && NoRepeats(now[k].successors) && NoRepeats(now[k].predecessors)
  {
    SameCodeSame(p, was[k], now[k]);
    if k in before {
      assert was[k] == before[k] && k !in edges;
      assert Elements(now[k].successors) == Elements(was[k].successors);
    } else {
      assert Elements(now[k].successors) == Targets(edges, k);
    }
  }

  lemma PredecessorsRight(before: map<nat, BasicBlock>, was: map<nat, BasicBlock>, edges: map<nat, seq<nat>>,
                          done: set<(nat, nat)>, now: map<nat, BasicBlock>)
    requires before.Keys <= was.Keys && (forall k {:trigger before[k]} :: k in before ==> was[k] == before[k])
    requires edges.Keys <= was.Keys && (forall k {:trigger was[k]} :: k in was && k !in before ==> was[k].predecessors == [])
    requires PredecessorsOk(before)
    requires AllEdges(edges, done) && WithEdges(was, now, done)
    ensures PredecessorsOk(now)
  {
    forall u, v | v in now && u in now[v].predecessors ensures u in now && v in now[u].successors {
      if (u, v) !in done {
        assert u in was[v].predecessors && v in before && was[v] == before[v];
        assert was[u] == before[u];
      }
    }
  }

  /** Whether the lists mirror each other after a build is decided before it: they do exactly if they
      did, and no dangling successor becomes the start of a block. */
  ghost predicate LinkedMutual(before: map<nat, BasicBlock>, now: map<nat, BasicBlock>) {
    Mutual(now) <==> Mutual(before) && forall v :: Dangling(before, v) ==> v !in now
  }

  // ----- what a built graph looks like, kind by kind -----

  /** Block `k` by the kinds of its instructions: whatever comes before the last one is ordinary and
      followed by the next one; behind a call or a conditional jump the target and the next address are
      blocks and successors, each if it is inside the code; behind a jump the target only; behind a
      terminator nothing; and what an ordinary last instruction runs on into is in a block and a
      successor, if it decodes. */
  ghost predicate LaidOut(p: Program, blocks: map<nat, BasicBlock>, k: nat)
    requires k in blocks
  {
    var ins := blocks[k].instructions;
    && (forall j :: 0 <= j < |ins| - 1 ==> RunsOn(ins, j))
    && if ins == [] then blocks[k].successors == [] else LeftBy(p, blocks, blocks[k], ins[|ins| - 1])
  }

  predicate RunsOn(ins: seq<Instruction>, j: nat)
    requires j + 1 < |ins|
  {
    ins[j].kind == Ordinary && ins[j + 1].address == ins[j].address + ins[j].size
  }

  ghost predicate LeftBy(p: Program, blocks: map<nat, BasicBlock>, b: BasicBlock, i: Instruction) {
    var next := i.address + i.size;
    match i.kind
    case Call => IsExit(p, blocks, b, i.target) && IsExit(p, blocks, b, next) && OnlyExits(p, b, {i.target, next})
    case CondJump => IsExit(p, blocks, b, i.target) && IsExit(p, blocks, b, next) && OnlyExits(p, b, {i.target, next})
    case Jump => IsExit(p, blocks, b, i.target) && OnlyExits(p, b, {i.target})
    case Terminator => b.successors == []
    case Ordinary =>
      (next < p.size && p.decode(next).Some? ==> next in b.successors && InSome(blocks, next)) && OnlyExits(p, b, {next})
  }

  /** An address inside the code is a block, and a successor of `b`. */
  predicate IsExit(p: Program, blocks: map<nat, BasicBlock>, b: BasicBlock, v: nat) {
    v < p.size ==> v in blocks && v in b.successors
  }

  predicate OnlyExits(p: Program, b: BasicBlock, exits: set<nat>) {
    forall v :: v in b.successors ==> v < p.size && v in exits
  }

  /** Some instruction of some block leads to `a`: by its target or, if it is not a jump or terminator,
      by running on; `transfer` leaves out ordinary instructions. */
  ghost predicate ComesFrom(blocks: map<nat, BasicBlock>, a: nat, transfer: bool) {
    exists k, j :: k in blocks && 0 <= j < |blocks[k].instructions| && LeadsTo(blocks[k].instructions[j], a, transfer)
  }

  predicate LeadsTo(i: Instruction, a: nat, transfer: bool) {
    match i.kind
    case Call => a == i.target || a == i.address + i.size
    case CondJump => a == i.target || a == i.address + i.size
    case Jump => a == i.target
    case Terminator => false
    case Ordinary => !transfer && a == i.address + i.size
  }

  lemma AllLaidOut(p: Program, entries: set<nat>, covered: set<nat>, blocks: map<nat, BasicBlock>)
    requires p.Valid() && BlocksOk(p, blocks, covered) && EdgesOk(p, blocks)
    requires (forall a :: InSome(blocks, a) <==> Reaches(p, entries, a)) && forall v :: v in blocks <==> IsStart(p, entries, v)
    ensures forall k :: k in blocks ==> LaidOut(p, blocks, k)
    ensures forall a :: InSome(blocks, a) ==> p.decode(a).Some? && (a in entries || ComesFrom(blocks, a, false))
    ensures forall v :: v in blocks ==> v in entries || ComesFrom(blocks, v, true)
  {
    hide LaidOut, BlocksOk, EdgesOk, InSome, Reaches, IsStart, ComesFrom;
    forall k | k in blocks ensures LaidOut(p, blocks, k) {
      IsLaidOut(p, entries, covered, blocks, k);
    }
    forall a | InSome(blocks, a) ensures p.decode(a).Some? && (a in entries || ComesFrom(blocks, a, false)) {
      ReachedFrom(p, entries, covered, blocks, a);
    }
    forall v | v in blocks ensures v in entries || ComesFrom(blocks, v, true) {
      StartedFrom(p, entries, covered, blocks, v);
    }
  }

  lemma IsLaidOut(p: Program, entries: set<nat>, covered: set<nat>, blocks: map<nat, BasicBlock>, k: nat)
    requires p.Valid() && BlocksOk(p, blocks, covered) && EdgesOk(p, blocks) && k in blocks
    requires (forall a :: InSome(blocks, a) <==> Reaches(p, entries, a)) && forall v :: v in blocks <==> IsStart(p, entries, v)
    ensures LaidOut(p, blocks, k)
  {
    hide InSome, Reaches, IsStart, LeftBy;
    var b, ins := blocks[k], blocks[k].instructions;
    assert ExitsIn(p, b, Elements(b.successors)) && Straight(p, b);
    forall j | 0 <= j < |ins| - 1 ensures RunsOn(ins, j) {
      assert Consecutive(ins, j) && ins[j].End() == ins[j].address + ins[j].size;
    }
    if ins == [] {
      NoElements(b.successors);
    } else {
      var i := ins[|ins| - 1];
      InBlock(b, |ins| - 1);
      LastReaches(p, entries, covered, blocks, k, i);
      IsLeftBy(p, entries, blocks, b, i);
    }
  }

  lemma NoElements(s: seq<nat>)
    ensures Elements(s) == {} ==> s == []
  {
    assert s != [] ==> s[0] in Elements(s);
  }

  lemma IsLeftBy(p: Program, entries: set<nat>, blocks: map<nat, BasicBlock>, b: BasicBlock, i: Instruction)
    requires p.Decodes(i.address) && p.decode(i.address).value == i && Reaches(p, entries, i.address)
    requires Elements(b.successors) <= p.Next(i.address)
    requires forall t :: t in p.Next(i.address) && (i.kind != Ordinary || p.Decodes(t)) ==> t in Elements(b.successors)
    requires (forall a :: InSome(blocks, a) <==> Reaches(p, entries, a)) && forall v :: v in blocks <==> IsStart(p, entries, v)
    ensures LeftBy(p, blocks, b, i)
  {
    hide InSome, Reaches, IsStart;
    forall v | v in p.Next(i.address) ensures (i.kind != Ordinary ==> v in blocks) && (p.Decodes(v) ==> InSome(blocks, v)) {
      FollowsReached(p, entries, i.address, v);
    }
    assert forall v :: v in b.successors <==> v in Elements(b.successors);
    NoElements(b.successors);
  }

  lemma InBlock(b: BasicBlock, j: nat)
    requires j < |b.instructions|
    ensures b.instructions[j].address in Addresses(b)
  {
  }

  lemma LastReaches(p: Program, entries: set<nat>, covered: set<nat>, blocks: map<nat, BasicBlock>, k: nat, i: Instruction)
    requires BlocksOk(p, blocks, covered) && k in blocks && i.address in Addresses(blocks[k])
    requires forall a :: InSome(blocks, a) <==> Reaches(p, entries, a)
    ensures Reaches(p, entries, i.address)
  {
    hide Reaches;
    assert InSome(blocks, i.address);
  }

  lemma FollowsReached(p: Program, entries: set<nat>, a: nat, v: nat)
    requires Reaches(p, entries, a) && p.Decodes(a) && v in p.Next(a)
    ensures p.decode(a).value.kind != Ordinary ==> IsStart(p, entries, v)
    ensures p.Decodes(v) ==> Reaches(p, entries, v)
  {
    hide Reaches;
    assert Transfers(p, a, v) || p.decode(a).value.kind == Ordinary;
    assert Follows(p, a, v);
    assert Candidate(p, entries, v);
    if p.Decodes(v) {
      CandidateReaches(p, entries, v);
    }
  }

  /** What is reached is an entry, or follows what is reached before it. */
  lemma ReachedFrom(p: Program, entries: set<nat>, covered: set<nat>, blocks: map<nat, BasicBlock>, a: nat)
    requires p.Valid() && BlocksOk(p, blocks, covered) && InSome(blocks, a)
    requires forall a :: InSome(blocks, a) <==> Reaches(p, entries, a)
    ensures p.decode(a).Some? && (a in entries || ComesFrom(blocks, a, false))
  {
    hide BlocksOk, InSome, ComesFrom;
    var path :| IsPath(p, entries, path) && EndsAt(path, a);
    var n := |path|;
    assert p.Decodes(path[n - 1]);
    if n > 1 {
      var before := path[..n - 1];
      forall i | 0 < i < |before| ensures StepAt(p, before, i) {
        assert StepAt(p, path, i);
      }
      assert IsPath(p, entries, before) && EndsAt(before, path[n - 2]);
      assert StepAt(p, path, n - 1);
      assert Reaches(p, entries, path[n - 2]);
      LedFrom(p, covered, blocks, path[n - 2], a, false);
    }
  }

  lemma StartedFrom(p: Program, entries: set<nat>, covered: set<nat>, blocks: map<nat, BasicBlock>, v: nat)
    requires p.Valid() && BlocksOk(p, blocks, covered) && IsStart(p, entries, v)
    requires forall a :: InSome(blocks, a) <==> Reaches(p, entries, a)
    ensures v in entries || ComesFrom(blocks, v, true)
  {
    hide BlocksOk, InSome, ComesFrom, Reaches;
    if v !in entries {
      var a :| Reaches(p, entries, a) && Transfers(p, a, v);
      LedFrom(p, covered, blocks, a, v, true);
    }
  }

  lemma LedFrom(p: Program, covered: set<nat>, blocks: map<nat, BasicBlock>, a: nat, v: nat, transfer: bool)
    requires BlocksOk(p, blocks, covered) && InSome(blocks, a) && Follows(p, a, v)
    requires transfer ==> p.decode(a).value.kind != Ordinary
    ensures ComesFrom(blocks, v, transfer)
  {
    hide BlocksOk;
    var k, j := Where(p, covered, blocks, a);
    assert LeadsTo(blocks[k].instructions[j], v, transfer);
  }

  lemma Where(p: Program, covered: set<nat>, blocks: map<nat, BasicBlock>, a: nat) returns (k: nat, j: nat)
    requires BlocksOk(p, blocks, covered) && InSome(blocks, a)
    ensures k in blocks && j < |blocks[k].instructions| && p.Decodes(a) && blocks[k].instructions[j] == p.decode(a).value
  {
    k :| k in blocks && a in Addresses(blocks[k]);
    j :| 0 <= j < |blocks[k].instructions| && blocks[k].instructions[j].address == a;
    assert Straight(p, blocks[k]);
  }

  lemma StaysIff(p: Program, entries: set<nat>, before: map<nat, BasicBlock>, now: map<nat, BasicBlock>)
    requires LinkedMutual(before, now) && forall v :: v in now <==> IsStart(p, entries, v)
    ensures Mutual(now) <==> StaysMutual(p, entries, before)
  {
    hide Mutual, Dangling, IsStart;
  }

  lemma MutualIff(before: map<nat, BasicBlock>, was: map<nat, BasicBlock>, edges: map<nat, seq<nat>>,
                  done: set<(nat, nat)>, now: map<nat, BasicBlock>)
    requires before.Keys <= was.Keys && (forall k {:trigger before[k]} :: k in before ==> was[k] == before[k])
    requires edges.Keys <= was.Keys - before.Keys
    requires forall k {:trigger was[k]} :: k in was && k !in before ==> was[k].successors == [] && was[k].predecessors == []
    requires AllEdges(edges, done) && WithEdges(was, now, done)
    ensures LinkedMutual(before, now)
  {
    forall u, v | u in now && v in now
      ensures v in now[u].successors <==> (u in before && v in before[u].successors) || (u, v) in done
      ensures u in now[v].predecessors <==> (v in before && u in before[v].predecessors) || (u, v) in done
    {
      assert u in before ==> was[u] == before[u];
      assert v in before ==> was[v] == before[v];
    }
    if Mutual(now) {
      forall v | Dangling(before, v) ensures v !in now {
        var u :| u in before && v in before[u].successors;
        assert u in now && v in was[u].successors;
      }
    }
  }

  lemma Appended(s: seq<nat>, x: nat)
    ensures forall t :: t in s + [x] <==> t in s || t == x
    ensures x !in s && NoRepeats(s) ==> NoRepeats(s + [x])
  {
  }

  // ----- a graph whose lists stop mirroring each other -----

  /** Two bytes at 0, one at 1, and a jump at 2 back to 1: the code at 0 and at 1 both runs on to 2. */
  function Merging(): Program {
    Program(4, a =>
      if a == 0 then Some(Instruction(0, 2, Ordinary, 0))
      else if a == 1 then Some(Instruction(1, 1, Ordinary, 0))
      else if a == 2 then Some(Instruction(2, 2, Jump, 1))
      else None)
  }

  lemma MergingReaches()
    ensures Merging().Valid() && Reaches(Merging(), {0}, 2)
    ensures IsStart(Merging(), {0}, 0) && IsStart(Merging(), {0}, 1) && !IsStart(Merging(), {0}, 2)
  {
    var p, path := Merging(), [0, 2];
    assert p.Next(0) == {2} && p.Next(2) == {1};
    assert StepAt(p, path, 1);
    assert IsPath(p, {0}, path) && EndsAt(path, 2);
    assert Transfers(p, 2, 1);
  }

  /** Only one of the two blocks can hold the jump, and the other one ends before it. */
  lemma MergingDangles(blocks: map<nat, BasicBlock>, covered: set<nat>, inner: set<nat>)
    requires BlocksOk(Merging(), blocks, covered) && EdgesOk(Merging(), blocks) && InnerOk(blocks, inner)
    requires 0 in blocks && 1 in blocks && 2 !in blocks
    ensures Dangling(blocks, 2)
  {
    RunsOnTo2(blocks[0]);
    RunsOnTo2(blocks[1]);
    assert ApartAt(blocks, 0, 1);
  }

  lemma RunsOnTo2(b: BasicBlock)
    requires Straight(Merging(), b) && b.instructions != [] && (b.start == 0 || b.start == 1)
    requires ExitsIn(Merging(), b, Elements(b.successors))
    ensures 2 in b.successors || 2 in Interior(b)
  {
    var p, i := Merging(), b.instructions[0];
    assert p.Next(b.start) == {2} && i.kind == Ordinary && i.End() == 2;
    if |b.instructions| == 1 {
      assert 2 in Elements(b.successors);
    } else {
      assert Consecutive(b.instructions, 0);
      assert b.instructions[1].address == 2;
    }
  }

  lemma EntryNotKnown(p: Program, entries: set<nat>, blocks: map<nat, BasicBlock>, v: nat)
    requires Dangling(blocks, v) && v in entries
    ensures !StaysMutual(p, entries, blocks)
  {
    assert IsStart(p, entries, v);
  }

  /** Built from 0 and then from 2, the graph has a block that leads to 2 and that the block at 2 does
      not know of. */
  method BuildTwice() returns (g: ControlFlowGraph)
    ensures g.Valid() && g.entries == {0, 2} && !Mutual(g.blocks)
  {
    hide BlocksOk, EdgesOk, InnerOk, IsStart, Reaches, Merging, Mutual, Dangling, StaysMutual, InSome, Exploring, LaidOut, ComesFrom;
    MergingReaches();
    g := new ControlFlowGraph(Merging());
    g.Build(0);
    assert g.entries == {0};
    MergingDangles(g.blocks, g.covered, g.inner);
    EntryNotKnown(g.code, {0} + {2}, g.blocks, 2);
    g.Build(2);
    assert {0} + {2} == {0, 2};
  }
}
