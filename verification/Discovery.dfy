/** The invariant of code discovery, on values: what the marks, the work list and the blocks found
    so far say about each other. */
module Discovery {
  import opened MachineCode

  datatype State = Unprocessed | EntryPoint | JumpTarget | Processed

  datatype BasicBlock = BasicBlock(
    start: nat, end: nat, instructions: seq<Instruction>,
    successors: seq<nat>, predecessors: seq<nat>, terminated: bool)

  function EmptyBlock(start: nat): BasicBlock {
    BasicBlock(start, start, [], [], [], false)
  }

  function Addresses(b: BasicBlock): set<nat> {
    set i | 0 <= i < |b.instructions| :: b.instructions[i].address
  }

  /** The blocks hold instructions at just these addresses. */
  ghost predicate Holds(blocks: map<nat, BasicBlock>, covered: set<nat>) {
    && (forall k {:trigger blocks[k]} :: k in blocks ==> Addresses(blocks[k]) <= covered)
    && (forall a :: a in covered ==> InSome(blocks, a))
  }

  ghost predicate InSome(blocks: map<nat, BasicBlock>, a: nat) {
    exists k :: k in blocks && a in Addresses(blocks[k])
  }

  // ----- a block is a run of instructions -----

  /** Consecutive instructions from `start` on, with control leaving at the last one only. */
  ghost predicate Straight(p: Program, b: BasicBlock) {
    && (forall i {:trigger b.instructions[i]} :: 0 <= i < |b.instructions| ==>
      p.Decodes(b.instructions[i].address) && p.decode(b.instructions[i].address).value == b.instructions[i])
    && (b.instructions != [] ==> b.instructions[0].address == b.start)
    && (forall i {:trigger b.instructions[i].End()} :: 0 <= i < |b.instructions| - 1 ==> Consecutive(b.instructions, i))
    && b.end == (if b.instructions == [] then b.start else b.instructions[|b.instructions| - 1].End())
    && (b.terminated <==> b.instructions != [] && b.instructions[|b.instructions| - 1].kind != Ordinary)
  }

  predicate Consecutive(s: seq<Instruction>, i: nat)
    requires i + 1 < |s|
  {
    s[i].kind == Ordinary && s[i + 1].address == s[i].End()
  }

  /** The addresses that control may go to when it leaves the block are all in `targets`: every one
      that decodes, and after a jump or call simply every one. */
  ghost predicate ExitsIn(p: Program, b: BasicBlock, targets: set<nat>) {
    if b.instructions == [] then targets == {}
    else
      var last := b.instructions[|b.instructions| - 1];
      && p.Decodes(last.address) && targets <= p.Next(last.address)
      && (forall t {:trigger t in targets} {:trigger t in p.Next(last.address)} :: t in p.Next(last.address) && (last.kind != Ordinary || p.Decodes(t)) ==> t in targets)
  }

  // ----- marks, work list and blocks -----

  /** `start` is being explored; the addresses in `owed` follow what has been found, and are neither
      covered nor pending yet. */
  ghost predicate Exploring(p: Program, entries: set<nat>, marks: seq<State>, pending: set<nat>, covered: set<nat>, owed: set<nat>, start: nat) {
    && |marks| == p.size
    && Marked(p, marks, pending, covered, start)
    && (forall a, b {:trigger a in covered, Follows(p, a, b)} :: a in covered && Follows(p, a, b) && p.Decodes(b) ==> b in covered || b in pending || b in owed)
    && (forall e {:trigger e in entries} :: e in entries && p.Decodes(e) ==> e in covered || e in pending || e in owed)
    && (forall a {:trigger a in covered} :: a in covered ==> p.Decodes(a) && Reaches(p, entries, a))
    && (forall b :: b in pending || b in owed ==> Candidate(p, entries, b))
  }

  ghost predicate Marked(p: Program, marks: seq<State>, pending: set<nat>, covered: set<nat>, start: nat)
    requires |marks| == p.size
  {
    && (forall b {:trigger marks[b]} :: 0 <= b < p.size && marks[b] != Unprocessed && p.Decodes(b) ==> b in covered || b in pending || b == start)
    && (forall b {:trigger marks[b]} :: 0 <= b < p.size && marks[b] == Processed && p.Decodes(b) ==> b in covered)
  }

  /** Takes the instruction at `a` into the block: what follows it becomes owed. */
  lemma Cover(p: Program, entries: set<nat>, marks: seq<State>, pending: set<nat>, covered: set<nat>, owed: set<nat>, start: nat, a: nat)
    requires Exploring(p, entries, marks, pending, covered, owed, start) && a in owed && p.Decodes(a)
    ensures var c, o := covered + {a}, owed - {a} + p.Next(a);
      && Exploring(p, entries, marks, pending, c, o, start)
      && Exploring(p, entries, marks[a := Processed], pending, c, o, start)
  {
    CandidateReaches(p, entries, a);
    var c, o := covered + {a}, owed - {a} + p.Next(a);
    forall b | b in o ensures Candidate(p, entries, b) {
      if b in p.Next(a) {
        assert Follows(p, a, b);
      }
    }
    var m := marks[a := Processed];
    assert forall b :: 0 <= b < p.size && b != a ==> m[b] == marks[b];
  }

  /** Marks a target and puts it on the work list. */
  lemma Mark(p: Program, entries: set<nat>, marks: seq<State>, pending: set<nat>, covered: set<nat>, owed: set<nat>, start: nat, t: nat)
    requires Exploring(p, entries, marks, pending, covered, owed, start) && (t in owed || t in pending) && t < p.size
    ensures Exploring(p, entries, marks[t := JumpTarget], pending + {t}, covered, owed - {t}, start)
  {
    var m := marks[t := JumpTarget];
    assert forall b :: 0 <= b < p.size && b != t ==> m[b] == marks[b];
  }

  /** Nothing is owed for an address that is known or does not decode. */
  lemma Settle(p: Program, entries: set<nat>, marks: seq<State>, pending: set<nat>, covered: set<nat>, owed: set<nat>, start: nat, b: nat)
    requires Exploring(p, entries, marks, pending, covered, owed, start)
    requires p.Decodes(b) ==> b in covered || b in pending
    ensures Exploring(p, entries, marks, pending, covered, owed - {b}, start)
  {
  }

  /** The block at `start` is complete. */
  lemma Finish(p: Program, entries: set<nat>, marks: seq<State>, pending: set<nat>, covered: set<nat>, start: nat)
    requires Exploring(p, entries, marks, pending, covered, {}, start) && (p.Decodes(start) ==> start in covered)
    ensures Exploring(p, entries, marks, pending, covered, {}, p.size)
    ensures start < p.size ==> Exploring(p, entries, marks[start := Processed], pending, covered, {}, p.size)
  {
    if start < p.size {
      var m := marks[start := Processed];
      assert forall b :: 0 <= b < p.size && b != start ==> m[b] == marks[b];
    }
  }

  /** The next entry is taken from the work list. */
  lemma Take(p: Program, entries: set<nat>, marks: seq<State>, pending: set<nat>, covered: set<nat>, e: nat)
    requires Exploring(p, entries, marks, pending, covered, {}, p.size) && e in pending
    ensures Exploring(p, entries, marks, pending - {e}, covered, {e}, e)
    ensures (p.Decodes(e) ==> e in covered) ==> Exploring(p, entries, marks, pending - {e}, covered, {}, p.size)
  {
  }

  /** A new entry is marked and put on the work list. */
  lemma Enter(p: Program, entries: set<nat>, marks: seq<State>, covered: set<nat>, e: nat)
    requires Exploring(p, entries, marks, {}, covered, {}, p.size)
    ensures Exploring(p, entries + {e}, if e < p.size then marks[e := EntryPoint] else marks, {e}, covered, {}, p.size)
  {
    var m := if e < p.size then marks[e := EntryPoint] else marks;
    assert forall b :: 0 <= b < p.size && b != e ==> m[b] == marks[b];
    forall a | a in covered ensures Reaches(p, entries + {e}, a) {
      MoreEntries(p, entries, entries + {e}, a);
    }
  }

  /** When the work list is empty, the blocks hold exactly what can be reached. */
  lemma ExactWhenDone(p: Program, entries: set<nat>, marks: seq<State>, covered: set<nat>)
    requires Exploring(p, entries, marks, {}, covered, {}, p.size)
    ensures forall a :: a in covered <==> Reaches(p, entries, a)
  {
    forall a | Reaches(p, entries, a) ensures a in covered {
      var path :| IsPath(p, entries, path) && EndsAt(path, a);
      ClosedIsAll(p, entries, covered, path);
    }
  }
}
