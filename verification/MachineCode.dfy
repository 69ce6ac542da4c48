/** Machine code as the control-flow graph sees it: what decodes where, and what runs next. */
module MachineCode {
  import opened Wrappers

  datatype Kind = Call | Jump | CondJump | Terminator | Ordinary

  datatype Instruction = Instruction(address: nat, size: nat, kind: Kind, target: nat) {
    function End(): nat { address + size }
  }

  /** A code segment of `size` bytes with whatever the disassembler finds at each address. */
  datatype Program = Program(size: nat, decode: nat -> Option<Instruction>) {
    /** What a disassembler finds lies at the address asked for, and inside the segment. */
    ghost predicate Valid() {
      forall a: nat :: a < size && decode(a).Some? ==>
        decode(a).value.address == a && 0 < decode(a).value.size && decode(a).value.End() <= size
    }

    predicate Decodes(a: nat) { a < size && decode(a).Some? }

    function Inside(a: nat): set<nat> { if a < size then {a} else {} }

    /** Where control may go after the instruction at `a`: on to the next one, to the target, or
        both; only addresses inside the segment count. */
    function Next(a: nat): set<nat>
      requires Decodes(a)
    {
      var i := decode(a).value;
      match i.kind
      case Call => Inside(i.target) + Inside(i.End())
      case CondJump => Inside(i.target) + Inside(i.End())
      case Jump => Inside(i.target)
      case Terminator => {}
      case Ordinary => Inside(i.End())
    }
  }

  /** The addresses of a run through code that decodes. */
  ghost predicate IsPath(p: Program, entries: set<nat>, path: seq<nat>) {
    && path != [] && path[0] in entries
    && (forall i :: 0 <= i < |path| ==> p.Decodes(path[i]))
    && (forall i :: 0 < i < |path| ==> StepAt(p, path, i))
  }

  predicate StepAt(p: Program, path: seq<nat>, i: nat)
    requires 0 < i < |path|
  {
    Follows(p, path[i - 1], path[i])
  }

  ghost predicate EndsAt(path: seq<nat>, a: nat) { path != [] && path[|path| - 1] == a }

  /** Some run from one of the entries comes to an instruction at `a`. */
  ghost predicate Reaches(p: Program, entries: set<nat>, a: nat) {
    exists path :: IsPath(p, entries, path) && EndsAt(path, a)
  }

  /** A place to which control may come, whether or not it decodes. */
  ghost predicate Candidate(p: Program, entries: set<nat>, b: nat) {
    b in entries || exists a :: Reaches(p, entries, a) && Follows(p, a, b)
  }

  predicate Follows(p: Program, a: nat, b: nat) {
    p.Decodes(a) && b in p.Next(a)
  }

  lemma CandidateReaches(p: Program, entries: set<nat>, b: nat)
    requires Candidate(p, entries, b) && p.Decodes(b)
    ensures Reaches(p, entries, b)
  {
    if b in entries {
      assert IsPath(p, entries, [b]) && EndsAt([b], b);
    } else {
      var a :| Reaches(p, entries, a) && Follows(p, a, b);
      var path :| IsPath(p, entries, path) && EndsAt(path, a);
      var more := path + [b];
      forall i | 0 < i < |more| ensures StepAt(p, more, i) {
        assert i < |path| ==> StepAt(p, path, i);
      }
      assert IsPath(p, entries, more) && EndsAt(more, b);
    }
  }

  lemma {:induction false} MoreEntries(p: Program, entries: set<nat>, more: set<nat>, a: nat)
    requires Reaches(p, entries, a) && entries <= more
    ensures Reaches(p, more, a)
  {
    var path :| IsPath(p, entries, path) && EndsAt(path, a);
    assert IsPath(p, more, path);
  }

  /** A set that has the entries and all that follows its members has all that is reached. */
  lemma {:induction false} ClosedIsAll(p: Program, entries: set<nat>, covered: set<nat>, path: seq<nat>)
    requires IsPath(p, entries, path)
    requires forall e :: e in entries && p.Decodes(e) ==> e in covered
    requires forall a, b :: a in covered && Follows(p, a, b) && p.Decodes(b) ==> b in covered
    ensures path[|path| - 1] in covered
  {
    if |path| > 1 {
      var before := path[..|path| - 1];
      forall i | 0 < i < |before| ensures StepAt(p, before, i) {
        assert StepAt(p, path, i);
      }
      ClosedIsAll(p, entries, covered, before);
      assert StepAt(p, path, |path| - 1);
    }
  }
}
