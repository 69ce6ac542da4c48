/** The IR generator as the object it is: instructions are appended, counters bumped, intervals
    and homes filled in, and operands replaced in place. */
module IRGenerator {
  import opened Wrappers
  import opened Ast
  import opened Machine
  import opened Codegen
  import opened Liveness
  import opened Spans
  import opened Allocation
  import opened Intervals

  class IR {
    var irNodes: seq<Instr>
    var vregCounter: nat
    var labCounter: nat
    var intervals: seq<LiveInterval>
    var vregToPreg: map<nat, Reg>
    var spillMap: map<nat, nat>
    var stackOffset: nat

    constructor ()
      ensures irNodes == [] && vregCounter == 0 && labCounter == 0 && intervals == []
      ensures vregToPreg == map[] && spillMap == map[] && stackOffset == 0
    {
      irNodes, vregCounter, labCounter, intervals := [], 0, 0, [];
      vregToPreg, spillMap, stackOffset := map[], map[], 0;
    }

    // ----- code generation -----

    method NewVReg() returns (r: nat)
      modifies `vregCounter
      ensures r == old(vregCounter) && vregCounter == r + 1
    {
      r := vregCounter;
      vregCounter := vregCounter + 1;
    }

    method NewLab() returns (l: nat)
      modifies `labCounter
      ensures l == old(labCounter) && labCounter == l + 1
    {
      l := labCounter;
      labCounter := labCounter + 1;
    }

    method Emit(x: Instr)
      modifies `irNodes
      ensures irNodes == old(irNodes) + [x]
    {
      irNodes := irNodes + [x];
    }

    method GenerateExpression(e: Expr) returns (r: nat)
      modifies `irNodes, `vregCounter
      ensures var g := GenExpr(e, old(vregCounter));
        irNodes == old(irNodes) + g.code && r == g.result && vregCounter == g.next
      decreases e, 1
    {
      match e
      case Literal(text) =>
        r := NewVReg();
        Emit(Mov(VReg(r), Imm(text)));
      case Identifier(x) =>
        r := NewVReg();
        Emit(Mov(VReg(r), At(Var(x))));
      case Binary(op, left, right) =>
        var a := GenerateExpression(left);
        var b := GenerateExpression(right);
        r := NewVReg();
        Emit(Op3(op, VReg(r), VReg(a), VReg(b)));
      case Not(operand) =>
        var a := GenerateExpression(operand);
        r := NewVReg();
        Emit(Neg(VReg(r), VReg(a)));
      case Increment(x) =>
        var a := NewVReg();
        Emit(Mov(VReg(a), At(Var(x))));
        Emit(Inc(Var(x)));
        r := NewVReg();
        Emit(Mov(VReg(r), At(Var(x))));
      case Assign(x, right) =>
        r := GenerateExpression(right);
        Emit(Mov(Var(x), At(VReg(r))));
      case Call(f, args) =>
        r := GenerateCall(f, args);
    }

    method GenerateCall(f: string, args: seq<Expr>) returns (r: nat)
      modifies `irNodes, `vregCounter
      ensures var g := GenExpr(Call(f, args), old(vregCounter));
        irNodes == old(irNodes) + g.code && r == g.result && vregCounter == g.next
      decreases args, 1
    {
      ghost var g := GenArgs(args, vregCounter);
      GenArgsNoControl(args, vregCounter);
      var params := GenerateArguments(args);
      GeneratePushes(params);
      ghost var base := irNodes;
      CallAppended(base, f, |args|, vregCounter);
      Emit(Invoke(f));
      if |params| > 0 {
        Emit(AddEsp(|params| * 4));
      }
      r := NewVReg();
      Emit(Mov(VReg(r), At(PReg(Eax))));
      Assoc(old(irNodes), g.code, Pushes(g.results));
      Assoc(old(irNodes), g.code + Pushes(g.results), CallTail(f, |args|, g.next));
    }

    /** Evaluates the arguments from left to right. */
    method GenerateArguments(args: seq<Expr>) returns (params: seq<nat>)
      modifies `irNodes, `vregCounter
      ensures var g := GenArgs(args, old(vregCounter));
        irNodes == old(irNodes) + g.code && params == g.results && vregCounter == g.next
      decreases args, 0
    {
      ghost var g := GenArgs(args, vregCounter);
      params := [];
      var i := 0;
      while i < |args|
        invariant 0 <= i <= |args|
        invariant var rest := GenArgs(args[i..], vregCounter);
          && irNodes + rest.code == old(irNodes) + g.code
          && params + rest.results == g.results && rest.next == g.next
      {
        ghost var a := GenExpr(args[i], vregCounter);
        ghost var rest := GenArgs(args[i + 1..], a.next);
        assert args[i..][1..] == args[i + 1..];
        Assoc(irNodes, a.code, rest.code);
        var p := GenerateExpression(args[i]);
        assert params + ([p] + rest.results) == params + [p] + rest.results;
        params := params + [p];
        i := i + 1;
      }
    }

    /** Pushes the arguments from the last to the first. */
    method GeneratePushes(params: seq<nat>)
      modifies `irNodes
      ensures irNodes == old(irNodes) + Pushes(params)
    {
      var j := |params|;
      while j > 0
        invariant 0 <= j <= |params|
        invariant irNodes == old(irNodes) + Pushes(params[j..])
      {
        j := j - 1;
        assert params[j..][1..] == params[j + 1..];
        Emit(Push(VReg(params[j])));
      }
    }

    method GenerateVarDecl(x: string, init: Option<Expr>)
      modifies `irNodes, `vregCounter
      ensures var g := GenDeclare(x, init, old(vregCounter), labCounter);
        irNodes == old(irNodes) + g.code && vregCounter == g.nextV
    {
      if init.Some? {
        var r := GenerateExpression(init.value);
        Emit(Mov(Var(x), At(VReg(r))));
      } else {
        Emit(Nop(x));
      }
    }

    method GenerateReturn(value: Option<Expr>)
      modifies `irNodes, `vregCounter
      ensures var g := GenReturn(value, old(vregCounter), labCounter);
        irNodes == old(irNodes) + g.code && vregCounter == g.nextV
    {
      if value.Some? {
        var r := GenerateExpression(value.value);
        Emit(Mov(PReg(Eax), At(VReg(r))));
      }
      Emit(Machine.Ret);
    }

    method Generate(s: Stmt)
      modifies `irNodes, `vregCounter, `labCounter
      ensures var g := GenStmt(s, old(vregCounter), old(labCounter));
        irNodes == old(irNodes) + g.code && vregCounter == g.nextV && labCounter == g.nextL
      decreases s, 1
    {
      match s
      case Block(ss) =>
        var i := 0;
        ghost var g := GenAll(ss, vregCounter, labCounter);
        while i < |ss|
          invariant 0 <= i <= |ss|
          invariant var rest := GenAll(ss[i..], vregCounter, labCounter);
            irNodes + rest.code == old(irNodes) + g.code && rest.nextV == g.nextV && rest.nextL == g.nextL
        {
          Generate(ss[i]);
          assert ss[i..][1..] == ss[i + 1..];
          i := i + 1;
        }
      case Return(value) => GenerateReturn(value);
      case Evaluate(e) => var _ := GenerateExpression(e);
      case Declare(x, init) => GenerateVarDecl(x, init);
      case If(_, _, _) => GenerateIf(s);
      case For(_, _, _, _) => GenerateFor(s);
    }

    method GenerateIf(s: Stmt)
      requires s.If?
      modifies `irNodes, `vregCounter, `labCounter
      ensures var g := GenIf(s, old(vregCounter), old(labCounter));
        irNodes == old(irNodes) + g.code && vregCounter == g.nextV && labCounter == g.nextL
      decreases s, 0, 1
    {
      hide GenExpr, GenStmt, IfCode;
      ghost var a := GenExpr(s.cond, vregCounter);
      ghost var b := GenStmt(s.thenBlock, a.next, labCounter + 3);
      ghost var g := if s.elseBlock.Some? then Some(GenStmt(s.elseBlock.value, b.nextV, b.nextL).code) else None;
      IfCodeAppended(irNodes, a.code, a.result, labCounter, b.code, g);
      var cond := GenerateExpression(s.cond);
      var thenLab := NewLab();
      var elseLab := NewLab();
      var endLab := NewLab();
      Emit(Cmp(VReg(cond)));
      Emit(Je(elseLab));
      Emit(Label(thenLab));
      Generate(s.thenBlock);
      Emit(Jmp(endLab));
      Emit(Label(elseLab));
      if s.elseBlock.Some? {
        GenerateElse(s, endLab);
      }
    }

    /** The second branch, and the end label that only it brings. */
    method GenerateElse(s: Stmt, endLab: nat)
      requires s.If? && s.elseBlock.Some?
      modifies `irNodes, `vregCounter, `labCounter
      ensures var g := GenStmt(s.elseBlock.value, old(vregCounter), old(labCounter));
        irNodes == old(irNodes) + (g.code + [Label(endLab)]) && vregCounter == g.nextV && labCounter == g.nextL
      decreases s, 0, 0
    {
      ghost var before, g := irNodes, GenStmt(s.elseBlock.value, vregCounter, labCounter).code;
      Generate(s.elseBlock.value);
      Emit(Label(endLab));
      Assoc(before, g, [Label(endLab)]);
    }

    method GenerateFor(s: Stmt)
      requires s.For?
      modifies `irNodes, `vregCounter, `labCounter
      ensures var g := GenFor(s, old(vregCounter), old(labCounter));
        irNodes == old(irNodes) + g.code && vregCounter == g.nextV && labCounter == g.nextL
      decreases s, 0
    {
      hide GenStmt, ForCode, CallTail;
      ghost var i := GenStmt(s.initStmt, vregCounter, labCounter + 2);
      ghost var a := GenExpr(s.cond, i.nextV);
      ghost var b := GenStmt(s.body, a.next, i.nextL);
      ghost var u := GenStmt(s.update, b.nextV, b.nextL);
      ForCodeAppended(irNodes, i.code, a.code, a.result, labCounter, b.code, u.code);
      var loopLab := NewLab();
      var endLab := NewLab();
      Generate(s.initStmt);
      Emit(Label(loopLab));
      var cond := GenerateExpression(s.cond);
      Emit(Cmp(VReg(cond)));
      Emit(Je(endLab));
      Generate(s.body);
      Generate(s.update);
      Emit(Jmp(loopLab));
      Emit(Label(endLab));
    }

    // ----- live intervals -----

    /** Seeing register `r` in instruction `i`: a new interval, or a later end for the old one. */
    method SeeOperand(r: nat, i: nat, seen: set<nat>, ghost sp: map<nat, Span>)
      requires Represents(intervals, sp) && seen == sp.Keys
      modifies `intervals
      ensures Represents(intervals, Touch(sp, r, i))
    {
      if r !in seen {
        RepresentsPush(intervals, sp, LiveInterval(r, i, i));
        intervals := intervals + [LiveInterval(r, i, i)];
      } else {
        var k := Find(r, sp);
        RepresentsUpdate(intervals, sp, k, intervals[k].(end := i));
        intervals := intervals[k := intervals[k].(end := i)];
      }
    }

    /** The first interval of register `r`. */
    method Find(r: nat, ghost sp: map<nat, Span>) returns (k: nat)
      requires Represents(intervals, sp) && r in sp
      ensures k < |intervals| && intervals[k].vreg == r
    {
      k := 0;
      assert HasInterval(intervals, r);
      while intervals[k].vreg != r
        invariant k < |intervals| && forall j :: 0 <= j < k ==> intervals[j].vreg != r
        decreases |intervals| - k
      {
        k := k + 1;
      }
    }

    method SeeOperands(ops: seq<Loc>, i: nat, seen: set<nat>, ghost sp: map<nat, Span>) returns (now: set<nat>)
      requires Represents(intervals, sp) && seen == sp.Keys
      modifies `intervals
      ensures Represents(intervals, TouchAll(sp, ops, i)) && now == TouchAll(sp, ops, i).Keys
    {
      now := seen;
      var k := 0;
      while k < |ops|
        invariant 0 <= k <= |ops|
        invariant Represents(intervals, TouchAll(sp, ops[..k], i)) && now == TouchAll(sp, ops[..k], i).Keys
      {
        assert ops[..k + 1][..k] == ops[..k];
        if ops[k].VReg? {
          SeeOperand(ops[k].id, i, now, TouchAll(sp, ops[..k], i));
          now := now + {ops[k].id};
        }
        k := k + 1;
      }
      assert ops[..k] == ops;
    }

    /** A definition moves the start of its register's interval. */
    method SeeDefinition(x: Instr, i: nat, ghost sp: map<nat, Span>)
      requires Represents(intervals, sp)
      requires IsDefinition(x) && x.dst.VReg? ==> x.dst.id in sp
      modifies `intervals
      ensures Represents(intervals, Redefine(sp, x, i))
    {
      if IsDefinition(x) && x.dst.VReg? {
        var k := Find(x.dst.id, sp);
        var iv := intervals[k].(start := i, end := Max(intervals[k].end, i));
        RepresentsUpdate(intervals, sp, k, iv);
        intervals := intervals[k := iv];
      }
    }

    method AnalyzeLiveness()
      requires intervals == []
      modifies `intervals
      ensures Represents(intervals, SpansUpTo(irNodes, |irNodes|)) && SortedByStart(intervals)
    {
      hide Operands;
      var seen: set<nat> := {};
      var i := 0;
      while i < |irNodes|
        invariant 0 <= i <= |irNodes|
        invariant Represents(intervals, SpansUpTo(irNodes, i)) && seen == SpansUpTo(irNodes, i).Keys
      {
        ghost var sp := SpansUpTo(irNodes, i);
        seen := SeeOperands(Operands(irNodes[i]), i, seen, sp);
        DestinationIsSeen(sp, irNodes[i], i);
        SeeDefinition(irNodes[i], i, TouchAll(sp, Operands(irNodes[i]), i));
        i := i + 1;
      }
      SortRepresents(intervals, SpansUpTo(irNodes, |irNodes|));
      intervals := Sort(intervals);
    }

    // ----- linear scan -----

    /** Which of the registers in `active` have intervals that end before `start`. */
    method Expired(active: set<nat>, start: nat, ghost sp: map<nat, Span>) returns (gone: set<nat>)
      requires Represents(intervals, sp) && active <= sp.Keys
      ensures gone == set r | r in active && sp[r].end < start
    {
      gone := {};
      var todo := active;
      while todo != {}
        invariant todo <= active
        invariant gone == set r | r in active - todo && sp[r].end < start
        decreases |todo|
      {
        var r :| r in todo;
        var k := Find(r, sp);
        assert sp[r].end == intervals[k].end;
        if intervals[k].end < start {
          gone := gone + {r};
        }
        todo := todo - {r};
      }
    }

    method SpillAtInterval(r: nat)
      modifies `spillMap, `stackOffset
      ensures spillMap == old(spillMap)[r := old(stackOffset)] && stackOffset == old(stackOffset) + 4
    {
      spillMap := spillMap[r := stackOffset];
      stackOffset := stackOffset + 4;
    }

    /** The first physical register that no active register holds. */
    method PickRegister(active: set<nat>) returns (preg: Reg)
      requires active <= vregToPreg.Keys && |active| < 4
      ensures forall r :: r in active ==> vregToPreg[r] != preg
    {
      FreeRegisterExists(active, vregToPreg);
      var k := 0;
      preg := PhysicalRegs()[0];
      while exists r :: r in active && vregToPreg[r] == preg
        invariant 0 <= k < 4 && preg == PhysicalRegs()[k]
        invariant forall j :: 0 <= j < k ==> exists r :: r in active && vregToPreg[r] == PhysicalRegs()[j]
        decreases 4 - k
      {
        k := k + 1;
        preg := PhysicalRegs()[k];
      }
    }

    /** Drops the registers whose intervals have ended before interval `n` starts. */
    method ExpireOld(n: nat, active: set<nat>, ghost sp: map<nat, Span>) returns (now: set<nat>)
      requires Represents(intervals, sp) && SortedByStart(intervals) && n < |intervals| && active <= sp.Keys
      requires ActiveOk(intervals, vregToPreg, active, n, if n == 0 then 0 else intervals[n - 1].start)
      ensures ActiveOk(intervals, vregToPreg, now, n, intervals[n].start) && now <= sp.Keys
    {
      var gone := Expired(active, intervals[n].start, sp);
      now := active - gone;
      ExpireKeepsActive(intervals, sp, vregToPreg, active, n, if n == 0 then 0 else intervals[n - 1].start, intervals[n].start, now);
    }

    /** Takes a free register for interval `n`, or spills it. */
    method AssignHome(n: nat, active: set<nat>) returns (now: set<nat>)
      requires n < |intervals| && Distinct(intervals) && intervals[n].start <= intervals[n].end
      requires Allocated(intervals, n, Placement(vregToPreg, spillMap), stackOffset)
      requires ActiveOk(intervals, vregToPreg, active, n, intervals[n].start)
      modifies `vregToPreg, `spillMap, `stackOffset
      ensures Allocated(intervals, n + 1, Placement(vregToPreg, spillMap), stackOffset)
      ensures ActiveOk(intervals, vregToPreg, now, n + 1, intervals[n].start)
      ensures now <= active + {intervals[n].vreg}
    {
      now := active;
      ghost var p := Placement(vregToPreg, spillMap);
      NextIsNew(intervals, n, p, stackOffset);
      if |active| < |PhysicalRegs()| {
        var preg := PickRegister(active);
        GiveRegister(intervals, n, p, stackOffset, active, preg);
        RegisterIsActive(intervals, n, vregToPreg, active, preg);
        vregToPreg := vregToPreg[intervals[n].vreg := preg];
        now := active + {intervals[n].vreg};
      } else {
        GiveSlot(intervals, n, p, stackOffset, active);
        SpilledIsNotActive(intervals, n, vregToPreg, active);
        SpillAtInterval(intervals[n].vreg);
      }
    }

    /** The first `n` intervals have their homes, and `active` those that still hold a register. */
    ghost predicate ScannedTo(n: nat, active: set<nat>)
      reads this
    {
      && n <= |intervals| && Allocated(intervals, n, Placement(vregToPreg, spillMap), stackOffset)
      && ActiveOk(intervals, vregToPreg, active, n, if n == 0 then 0 else intervals[n - 1].start)
    }

    method ScanInterval(n: nat, active: set<nat>, ghost sp: map<nat, Span>) returns (now: set<nat>)
      requires Represents(intervals, sp) && SortedByStart(intervals) && n < |intervals| && active <= sp.Keys
      requires intervals[n].start <= intervals[n].end && ScannedTo(n, active)
      modifies `vregToPreg, `spillMap, `stackOffset
      ensures ScannedTo(n + 1, now) && now <= sp.Keys
    {
      now := ExpireOld(n, active, sp);
      now := AssignHome(n, now);
    }

    method LinearScanAllocate(ghost sp: map<nat, Span>)
      requires Represents(intervals, sp) && SortedByStart(intervals) && forall r :: r in sp ==> sp[r].start <= sp[r].end
      requires vregToPreg == map[] && spillMap == map[] && stackOffset == 0
      modifies `vregToPreg, `spillMap, `stackOffset
      ensures Allocated(intervals, |intervals|, Placement(vregToPreg, spillMap), stackOffset)
    {
      hide Allocated;
      var active: set<nat> := {};
      var n := 0;
      NothingAllocated(intervals);
      while n < |intervals|
        invariant ScannedTo(n, active) && active <= sp.Keys
      {
        assert intervals[n].vreg in sp && sp[intervals[n].vreg].start <= sp[intervals[n].vreg].end;
        active := ScanInterval(n, active, sp);
        n := n + 1;
      }
    }

    // ----- rewriting -----

    method RewriteIR()
      modifies `irNodes
      ensures irNodes == RewriteAll(Placement(vregToPreg, spillMap), old(irNodes))
    {
      var p := Placement(vregToPreg, spillMap);
      var i := 0;
      while i < |irNodes|
        invariant 0 <= i <= |irNodes| == |old(irNodes)|
        invariant forall k :: 0 <= k < i ==> irNodes[k] == Rewrite(p, old(irNodes)[k])
        invariant forall k :: i <= k < |irNodes| ==> irNodes[k] == old(irNodes)[k]
      {
        irNodes := irNodes[i := Rewrite(p, irNodes[i])];
        i := i + 1;
      }
    }

    /** Generate, analyse, allocate, rewrite. */
    method CompileToIR(body: Stmt)
      modifies this
      ensures var code := GenStmt(body, 0, 0).code; var p := Placement(vregToPreg, spillMap);
        && irNodes == RewriteAll(p, code)
        && Sound(p, SpansUpTo(code, |code|))
        && Represents(intervals, SpansUpTo(code, |code|)) && SortedByStart(intervals)
        && Allocated(intervals, |intervals|, p, stackOffset)
    {
      irNodes, vregCounter, labCounter, intervals := [], 0, 0, [];
      vregToPreg, spillMap, stackOffset := map[], map[], 0;
      Generate(body);
      assert irNodes == GenStmt(body, 0, 0).code;
      Allocate(body);
      RewriteIR();
    }

    /** The intervals of the generated code, and homes for its registers. */
    method Allocate(ghost body: Stmt)
      requires irNodes == GenStmt(body, 0, 0).code && intervals == []
      requires vregToPreg == map[] && spillMap == map[] && stackOffset == 0
      modifies `intervals, `vregToPreg, `spillMap, `stackOffset
      ensures var p := Placement(vregToPreg, spillMap); var sp := SpansUpTo(irNodes, |irNodes|);
        && Sound(p, sp) && Represents(intervals, sp) && SortedByStart(intervals)
        && Allocated(intervals, |intervals|, p, stackOffset)
    {
      ghost var code := GenStmt(body, 0, 0).code;
      ghost var sp := SpansUpTo(code, |code|);
      SpansHaveEnds(body, code, sp);
      AnalyzeLiveness();
      LinearScanAllocate(sp);
      AllocatedIsSound(intervals, sp, Placement(vregToPreg, spillMap), stackOffset);
    }
  }

  /** The intervals of generated code end no earlier than they start. */
  lemma SpansHaveEnds(body: Stmt, code: seq<Instr>, sp: map<nat, Span>)
    requires code == GenStmt(body, 0, 0).code && sp == SpansUpTo(code, |code|)
    ensures forall r :: r in sp ==> sp[r].start <= sp[r].end
  {
    StmtScoped(body, 0, 0);
    ScopedIsSafe(code, 0, GenStmt(body, 0, 0).nextV);
  }
}
