/** The generated code runs as the source program does: statements, jumps and loops. */
module Simulation {
  import opened Wrappers
  import opened Ast
  import opened Machine
  import opened Semantics
  import opened Codegen
  import opened ExprSimulation

  /** The instruction before `pc` loads the return register. */
  ghost predicate AfterLoad(prog: seq<Instr>, pc: nat) {
    0 < pc <= |prog| && prog[pc - 1].Mov? && prog[pc - 1].dst == PReg(Eax)
  }

  /** How a run of `n` steps of statement code ends, given the statement's outcome. */
  ghost predicate StmtDone(prog: seq<Instr>, o: Outcome, c: Config, n: nat, fuel: nat, end: nat) {
    match o
    case Normal(st) => c.status == Running && c.st.pc == end && Agrees(st, c.st.mem)
    case Exited(st, value) =>
      && c.status == Returned && Agrees(st, c.st.mem)
      && (value.Some? ==> Get(c.st.mem, PReg(Eax)) == value.value && AfterLoad(prog, c.st.pc))
    case Abort(why, st) => c.status == why && Agrees(st, c.st.mem)
    case OutOfFuel => c.status == Running && n >= fuel
  }

  lemma JumpFinds(prog: seq<Instr>, lost: set<nat>, pc: nat, id: nat)
    requires LabelsOk(prog, lost) && pc < |prog| && prog[pc] == Label(id)
    ensures FindLabel(prog, id, 0) == Some(pc)
  {
    assert LabelCount(prog, id) <= 1;
    forall i | 0 <= i < |prog| && prog[i] == Label(id) ensures i == pc {
      var j, k := if i < pc then i else pc, if i < pc then pc else i;
      if j < k {
        LabelCountAt(prog, id, j);
        LabelCountAt(prog[j + 1..], id, k - j - 1);
      }
    }
    FindLabelFound(prog, id, 0, pc);
  }

  lemma JumpMisses(prog: seq<Instr>, lost: set<nat>, id: nat)
    requires LabelsOk(prog, lost) && id in lost
    ensures FindLabel(prog, id, 0) == None
  {
    assert LabelCount(prog, id) == 0;
    forall i | 0 <= i < |prog| ensures prog[i] != Label(id) {
      if prog[i] == Label(id) {
        LabelCountAt(prog, id, i);
      }
    }
    FindLabelMissing(prog, id, 0);
  }

  lemma CodeAtOne(prog: seq<Instr>, pc: nat, i: Instr)
    requires CodeAt(prog, pc, [i])
    ensures pc < |prog| && prog[pc] == i
  {
    CodeAtHead(prog, pc, [i]);
    assert prog[pc + 0] == [i][0];
  }

  lemma CodeAtTwo(prog: seq<Instr>, pc: nat, i: Instr, j: Instr)
    requires CodeAt(prog, pc, [i, j])
    ensures pc + 1 < |prog| && prog[pc] == i && prog[pc + 1] == j
  {
    assert [i, j] == [i] + [j];
    CodeAtSplit(prog, pc, [i], [j]);
    CodeAtOne(prog, pc, i);
    CodeAtOne(prog, pc + 1, j);
  }

  // ----- where the pieces of `if` and `for` code lie -----

  ghost predicate IfPlaced(prog: seq<Instr>, pc: nat, cond: seq<Instr>, r: nat, l: nat, thenCode: seq<Instr>, elseCode: Option<seq<Instr>>) {
    var p1 := pc + |cond|;
    var p2 := p1 + 3 + |thenCode|;
    && CodeAt(prog, pc, cond)
    && p2 + 2 <= |prog|
    && prog[p1] == Cmp(VReg(r)) && prog[p1 + 1] == Je(l + 1) && prog[p1 + 2] == Label(l)
    && CodeAt(prog, p1 + 3, thenCode)
    && prog[p2] == Jmp(l + 2) && prog[p2 + 1] == Label(l + 1)
    && (elseCode.Some? ==>
          var p3 := p2 + 2 + |elseCode.value|;
          CodeAt(prog, p2 + 2, elseCode.value) && p3 < |prog| && prog[p3] == Label(l + 2))
  }

  lemma IfIsPlaced(prog: seq<Instr>, pc: nat, cond: seq<Instr>, r: nat, l: nat, thenCode: seq<Instr>, elseCode: Option<seq<Instr>>)
    requires CodeAt(prog, pc, IfCode(cond, r, l, thenCode, elseCode))
    ensures IfPlaced(prog, pc, cond, r, l, thenCode, elseCode)
    ensures |IfCode(cond, r, l, thenCode, elseCode)| ==
      |cond| + 5 + |thenCode| + (if elseCode.Some? then |elseCode.value| + 1 else 0)
  {
    var tail := if elseCode.Some? then elseCode.value + [Label(l + 2)] else [];
    var p1 := pc + |cond|;
    var p2 := p1 + 3 + |thenCode|;
    CodeAtSplit(prog, pc, cond, Test(r, l + 1) + ([Label(l)] + (thenCode + ([Jmp(l + 2), Label(l + 1)] + tail))));
    CodeAtSplit(prog, p1, Test(r, l + 1), [Label(l)] + (thenCode + ([Jmp(l + 2), Label(l + 1)] + tail)));
    CodeAtTwo(prog, p1, Cmp(VReg(r)), Je(l + 1));
    CodeAtSplit(prog, p1 + 2, [Label(l)], thenCode + ([Jmp(l + 2), Label(l + 1)] + tail));
    CodeAtOne(prog, p1 + 2, Label(l));
    CodeAtSplit(prog, p1 + 3, thenCode, [Jmp(l + 2), Label(l + 1)] + tail);
    IfTailIsPlaced(prog, p2, l, elseCode);
  }

  lemma IfTailIsPlaced(prog: seq<Instr>, pc: nat, l: nat, elseCode: Option<seq<Instr>>)
    requires CodeAt(prog, pc, [Jmp(l + 2), Label(l + 1)] + (if elseCode.Some? then elseCode.value + [Label(l + 2)] else []))
    ensures pc + 2 <= |prog| && prog[pc] == Jmp(l + 2) && prog[pc + 1] == Label(l + 1)
    ensures elseCode.Some? ==>
      var p3 := pc + 2 + |elseCode.value|;
      CodeAt(prog, pc + 2, elseCode.value) && p3 < |prog| && prog[p3] == Label(l + 2)
  {
    CodeAtSplit(prog, pc, [Jmp(l + 2), Label(l + 1)], if elseCode.Some? then elseCode.value + [Label(l + 2)] else []);
    CodeAtTwo(prog, pc, Jmp(l + 2), Label(l + 1));
    if elseCode.Some? {
      CodeAtSplit(prog, pc + 2, elseCode.value, [Label(l + 2)]);
      CodeAtOne(prog, pc + 2 + |elseCode.value|, Label(l + 2));
    }
  }

  ghost predicate ForPlaced(prog: seq<Instr>, pc: nat, init: seq<Instr>, cond: seq<Instr>, r: nat, l: nat, body: seq<Instr>) {
    var p1 := pc + |init|;
    var p2 := p1 + 1 + |cond|;
    var p3 := p2 + 2 + |body|;
    && CodeAt(prog, pc, init)
    && p3 + 1 < |prog|
    && prog[p1] == Label(l)
    && CodeAt(prog, p1 + 1, cond)
    && prog[p2] == Cmp(VReg(r)) && prog[p2 + 1] == Je(l + 1)
    && CodeAt(prog, p2 + 2, body)
    && prog[p3] == Jmp(l) && prog[p3 + 1] == Label(l + 1)
  }

  lemma ForIsPlaced(prog: seq<Instr>, pc: nat, init: seq<Instr>, cond: seq<Instr>, r: nat, l: nat, body: seq<Instr>)
    requires CodeAt(prog, pc, ForCode(init, cond, r, l, body))
    ensures ForPlaced(prog, pc, init, cond, r, l, body)
    ensures |ForCode(init, cond, r, l, body)| == |init| + 1 + |cond| + 2 + |body| + 2
  {
    var tail := [Jmp(l), Label(l + 1)];
    var p1 := pc + |init|;
    var p2 := p1 + 1 + |cond|;
    CodeAtSplit(prog, pc, init, [Label(l)] + (cond + (Test(r, l + 1) + (body + tail))));
    CodeAtSplit(prog, p1, [Label(l)], cond + (Test(r, l + 1) + (body + tail)));
    CodeAtOne(prog, p1, Label(l));
    CodeAtSplit(prog, p1 + 1, cond, Test(r, l + 1) + (body + tail));
    CodeAtSplit(prog, p2, Test(r, l + 1), body + tail);
    CodeAtTwo(prog, p2, Cmp(VReg(r)), Je(l + 1));
    CodeAtSplit(prog, p2 + 2, body, tail);
    CodeAtTwo(prog, p2 + 2 + |body|, Jmp(l), Label(l + 1));
  }

  // ----- single control steps -----

  lemma StepLabel(m: Meaning, prog: seq<Instr>, s: State)
    requires s.pc < |prog| && prog[s.pc].Label?
    ensures Run(m, prog, Config(s, Running), 1) == Config(s.(pc := s.pc + 1), Running)
  {
    RunOneMore(m, prog, Config(s, Running), 0);
  }

  lemma StepJump(m: Meaning, prog: seq<Instr>, s: State)
    requires s.pc < |prog| && prog[s.pc].Jmp?
    ensures Run(m, prog, Config(s, Running), 1) == Jump(prog, s, prog[s.pc].target)
  {
    RunOneMore(m, prog, Config(s, Running), 0);
  }

  /** Comparing with 0 and jumping if equal. */
  lemma StepTest(m: Meaning, prog: seq<Instr>, s: State, r: nat, l: nat, target: nat)
    requires s.pc + 1 < |prog| && prog[s.pc] == Cmp(VReg(r)) && prog[s.pc + 1] == Je(l)
    requires FindLabel(prog, l, 0) == Some(target)
    ensures var z := Get(s.mem, VReg(r)) == 0;
      Run(m, prog, Config(s, Running), 2) == Config(s.(pc := if z then target else s.pc + 2, zf := z), Running)
  {
    RunOneMore(m, prog, Config(s, Running), 0);
    RunOneMore(m, prog, Config(s, Running), 1);
  }

  /** Where a condition and its test lead: on behind the test, or to `target` on 0. */
  ghost predicate CondDone(o: EvalResult, c: Config, next: nat, target: nat) {
    match o
    case Stopped(why, st) => c.status == why && Agrees(st, c.st.mem)
    case Value(x, st) => c.status == Running && Agrees(st, c.st.mem) && c.st.pc == (if x == 0 then target else next)
  }

  lemma SimCond(m: Meaning, prog: seq<Instr>, e: Expr, v: nat, st: Store, t: State, l: nat, target: nat) returns (n: nat)
    requires var a := GenExpr(e, v);
      && CodeAt(prog, t.pc, a.code)
      && t.pc + |a.code| + 1 < |prog|
      && prog[t.pc + |a.code|] == Cmp(VReg(a.result)) && prog[t.pc + |a.code| + 1] == Je(l)
    requires Agrees(st, t.mem) && FindLabel(prog, l, 0) == Some(target)
    ensures CondDone(Eval(m, e, st), Run(m, prog, Config(t, Running), n), t.pc + |GenExpr(e, v).code| + 2, target)
  {
    n := SimExpr(m, prog, e, v, st, t);
    if Eval(m, e, st).Value? {
      var c := Config(t, Running);
      StepTest(m, prog, Run(m, prog, c, n).st, GenExpr(e, v).result, l, target);
      RunAdd(m, prog, c, n, 2);
      n := n + 2;
    }
  }

  // ----- statements -----

  lemma {:induction false} SimStmt(m: Meaning, prog: seq<Instr>, lost: set<nat>, s: Stmt, v: nat, l: nat, st: Store, t: State, fuel: nat) returns (n: nat)
    requires CodeAt(prog, t.pc, GenStmt(s, v, l).code) && Agrees(st, t.mem)
    requires LabelsOk(prog, lost) && Lost(s, v, l) <= lost
    ensures StmtDone(prog, Exec(m, AsCompiled, s, st, fuel), Run(m, prog, Config(t, Running), n), n, fuel, t.pc + |GenStmt(s, v, l).code|)
    decreases fuel, s, 2
  {
    hide StmtDone, CodeAt, LabelsOk, Agrees, Run;
    match s
    case Block(ss) => n := SimAll(m, prog, lost, ss, v, l, st, t, fuel);
    case Return(value) => n := SimReturn(m, prog, value, v, l, st, t, fuel, t.pc + |GenStmt(s, v, l).code|);
    case Evaluate(e) => n := SimSimple(m, prog, s, v, l, st, t, fuel);
    case Declare(x, init) => n := SimSimple(m, prog, s, v, l, st, t, fuel);
    case If(_, _, _) =>
      IfIsReady(prog, lost, t.pc, s, v, l);
      n := SimIf(m, prog, lost, s, v, l, st, t, t.pc + |GenIf(s, v, l).code|, fuel);
    case For(_, _, _, _) =>
      ForIsReady(prog, lost, t.pc, s, v, l);
      n := SimFor(m, prog, lost, s, v, l, st, t, t.pc + |GenFor(s, v, l).code|, fuel);
  }

  lemma SimSimple(m: Meaning, prog: seq<Instr>, s: Stmt, v: nat, l: nat, st: Store, t: State, fuel: nat) returns (n: nat)
    requires s.Evaluate? || s.Declare?
    requires CodeAt(prog, t.pc, GenStmt(s, v, l).code) && Agrees(st, t.mem)
    ensures StmtDone(prog, Exec(m, AsCompiled, s, st, fuel), Run(m, prog, Config(t, Running), n), n, fuel, t.pc + |GenStmt(s, v, l).code|)
  {
    hide CodeAt, GenExpr;
    match s
    case Evaluate(e) => n := SimExpr(m, prog, e, v, st, t);
    case Declare(x, init) =>
      if init.None? {
        CodeAtOne(prog, t.pc, Nop(x));
        RunOneMore(m, prog, Config(t, Running), 0);
        n := 1;
      } else {
        n := SimStore(m, prog, x, init.value, v, st, t);
      }
  }

  lemma SimReturn(m: Meaning, prog: seq<Instr>, value: Option<Expr>, v: nat, l: nat, st: Store, t: State, fuel: nat, end: nat) returns (n: nat)
    requires CodeAt(prog, t.pc, GenReturn(value, v, l).code) && Agrees(st, t.mem)
    ensures StmtDone(prog, Leave(m, value, st), Run(m, prog, Config(t, Running), n), n, fuel, end)
  {
    hide CodeAt, GenExpr;
    var c := Config(t, Running);
    if value.None? {
      CodeAtOne(prog, t.pc, Machine.Ret);
      RunOneMore(m, prog, c, 0);
      n := 1;
    } else {
      var a := GenExpr(value.value, v);
      var mov := Mov(PReg(Eax), At(VReg(a.result)));
      CodeAtSplit(prog, t.pc, a.code, [mov, Machine.Ret]);
      CodeAtTwo(prog, t.pc + |a.code|, mov, Machine.Ret);
      n := SimExpr(m, prog, value.value, v, st, t);
      var r := Eval(m, value.value, st);
      if r.Value? {
        ReturnSteps(m, prog, a.result, r.v, r.st, Run(m, prog, c, n).st, fuel);
        RunOneMore(m, prog, c, n);
        RunOneMore(m, prog, c, n + 1);
        n := n + 2;
      }
    }
  }

  /** The value goes to eax, and the function returns. */
  lemma ReturnSteps(m: Meaning, prog: seq<Instr>, result: nat, x: int, st: Store, s: State, fuel: nat)
    requires s.pc + 1 < |prog| && prog[s.pc] == Mov(PReg(Eax), At(VReg(result))) && prog[s.pc + 1] == Machine.Ret
    requires Get(s.mem, VReg(result)) == x && Agrees(st, s.mem)
    ensures Step(m, prog, s).status == Running
    ensures forall n :: StmtDone(prog, Exited(st, Some(x)), Step(m, prog, Step(m, prog, s).st), n, fuel, 0)
  {
    assert Step(m, prog, s) == Config(s.(pc := s.pc + 1, mem := s.mem[PReg(Eax) := x]), Running);
  }

  lemma {:induction false} SimAll(m: Meaning, prog: seq<Instr>, lost: set<nat>, ss: seq<Stmt>, v: nat, l: nat, st: Store, t: State, fuel: nat) returns (n: nat)
    requires CodeAt(prog, t.pc, GenAll(ss, v, l).code) && Agrees(st, t.mem)
    requires LabelsOk(prog, lost) && LostAll(ss, v, l) <= lost
    ensures StmtDone(prog, ExecAll(m, AsCompiled, ss, st, fuel), Run(m, prog, Config(t, Running), n), n, fuel, t.pc + |GenAll(ss, v, l).code|)
    decreases fuel, ss, 0
  {
    hide CodeAt, LabelsOk, SameFrom;
    if ss == [] {
      n := 0;
    } else {
      var c := Config(t, Running);
      var a := GenStmt(ss[0], v, l);
      CodeAtSplit(prog, t.pc, a.code, GenAll(ss[1..], a.nextV, a.nextL).code);
      n := SimStmt(m, prog, lost, ss[0], v, l, st, t, fuel);
      var o := Exec(m, AsCompiled, ss[0], st, fuel);
      if o.Normal? {
        var k := SimAll(m, prog, lost, ss[1..], a.nextV, a.nextL, o.st, Run(m, prog, c, n).st, fuel);
        RunAdd(m, prog, c, n, k);
        n := n + k;
      }
    }
  }

  datatype IfParts = IfParts(a: ExprCode, b: StmtCode, g: Option<seq<Instr>>)

  function PartsOfIf(s: Stmt, v: nat, l: nat): IfParts
    requires s.If?
  {
    var a := GenExpr(s.cond, v);
    var b := GenStmt(s.thenBlock, a.next, l + 3);
    IfParts(a, b, if s.elseBlock.Some? then Some(GenStmt(s.elseBlock.value, b.nextV, b.nextL).code) else None)
  }

  /** An `if` whose code lies at `pc` and ends at `end`, in a program with good labels. */
  ghost predicate IfReady(prog: seq<Instr>, lost: set<nat>, pc: nat, end: nat, s: Stmt, v: nat, l: nat)
    requires s.If?
  {
    var p := PartsOfIf(s, v, l);
    && IfPlaced(prog, pc, p.a.code, p.a.result, l, p.b.code, p.g)
    && end == pc + |p.a.code| + 5 + |p.b.code| + (if p.g.Some? then |p.g.value| + 1 else 0)
    && LabelsOk(prog, lost) && Lost(s.thenBlock, p.a.next, l + 3) <= lost
    && (if s.elseBlock.Some? then Lost(s.elseBlock.value, p.b.nextV, p.b.nextL) <= lost else l + 2 in lost)
  }

  lemma IfIsReady(prog: seq<Instr>, lost: set<nat>, pc: nat, s: Stmt, v: nat, l: nat)
    requires s.If? && CodeAt(prog, pc, GenIf(s, v, l).code) && LabelsOk(prog, lost) && LostIf(s, v, l) <= lost
    ensures IfReady(prog, lost, pc, pc + |GenIf(s, v, l).code|, s, v, l)
  {
    var p := PartsOfIf(s, v, l);
    IfIsPlaced(prog, pc, p.a.code, p.a.result, l, p.b.code, p.g);
    assert s.elseBlock.None? ==> l + 2 in LostIf(s, v, l);
  }

  lemma {:induction false} SimIf(m: Meaning, prog: seq<Instr>, lost: set<nat>, s: Stmt, v: nat, l: nat, st: Store, t: State, end: nat, fuel: nat) returns (n: nat)
    requires s.If? && IfReady(prog, lost, t.pc, end, s, v, l) && Agrees(st, t.mem)
    ensures StmtDone(prog, ExecIf(m, AsCompiled, s, st, fuel), Run(m, prog, Config(t, Running), n), n, fuel, end)
    decreases fuel, s, 1
  {
    hide Agrees, Run, GenExpr;
    var c := Config(t, Running);
    var p := PartsOfIf(s, v, l);
    var p2 := t.pc + |p.a.code| + 3 + |p.b.code|;
    JumpFinds(prog, lost, p2 + 1, l + 1);
    n := SimCond(m, prog, s.cond, v, st, t, l + 1, p2 + 1);
    var r := Eval(m, s.cond, st);
    if r.Value? {
      var k := SimBranches(m, prog, lost, s, v, l, r.st, t.pc, Run(m, prog, c, n).st, r.v != 0, end, fuel);
      RunAdd(m, prog, c, n, k);
      n := n + k;
    }
  }

  /** What happens after the test. */
  function Branch(m: Meaning, s: Stmt, st: Store, taken: bool, fuel: nat): Outcome
    requires s.If?
  {
    if taken then EndThen(AsCompiled, s, Exec(m, AsCompiled, s.thenBlock, st, fuel))
    else if s.elseBlock.None? then Normal(st)
    else Exec(m, AsCompiled, s.elseBlock.value, st, fuel)
  }

  /** From the branch's label to the end of the `if`. */
  lemma {:induction false} SimBranches(m: Meaning, prog: seq<Instr>, lost: set<nat>, s: Stmt, v: nat, l: nat, st: Store, pc: nat, t: State, taken: bool, end: nat, fuel: nat) returns (n: nat)
    requires s.If? && IfReady(prog, lost, pc, end, s, v, l) && Agrees(st, t.mem)
    requires var p := PartsOfIf(s, v, l); t.pc == pc + |p.a.code| + (if taken then 2 else 4 + |p.b.code|)
    ensures StmtDone(prog, Branch(m, s, st, taken, fuel), Run(m, prog, Config(t, Running), n), n, fuel, end)
    decreases fuel, s, 0, 1, 1
  {
    if taken {
      n := SimTaken(m, prog, lost, s, v, l, st, pc, t, end, fuel);
    } else {
      n := SimNotTaken(m, prog, lost, s, v, l, st, pc, t, end, fuel);
    }
  }

  lemma {:induction false} SimTaken(m: Meaning, prog: seq<Instr>, lost: set<nat>, s: Stmt, v: nat, l: nat, st: Store, pc: nat, t: State, end: nat, fuel: nat) returns (n: nat)
    requires s.If? && IfReady(prog, lost, pc, end, s, v, l) && Agrees(st, t.mem) && t.pc == pc + |PartsOfIf(s, v, l).a.code| + 2
    ensures StmtDone(prog, Branch(m, s, st, true, fuel), Run(m, prog, Config(t, Running), n), n, fuel, end)
    decreases fuel, s, 0, 1, 0
  {
    var c := Config(t, Running);
    var p := PartsOfIf(s, v, l);
    StepLabel(m, prog, t);
    n := 1;
    var k := SimThen(m, prog, lost, s, p.a.next, l, st, t.(pc := t.pc + 1), t.pc + 1 + |p.b.code|, end, fuel);
    RunAdd(m, prog, c, n, k);
    n := n + k;
  }

  lemma {:induction false} SimNotTaken(m: Meaning, prog: seq<Instr>, lost: set<nat>, s: Stmt, v: nat, l: nat, st: Store, pc: nat, t: State, end: nat, fuel: nat) returns (n: nat)
    requires s.If? && IfReady(prog, lost, pc, end, s, v, l) && Agrees(st, t.mem)
    requires var p := PartsOfIf(s, v, l); t.pc == pc + |p.a.code| + 4 + |p.b.code|
    ensures StmtDone(prog, Branch(m, s, st, false, fuel), Run(m, prog, Config(t, Running), n), n, fuel, end)
    decreases fuel, s, 0, 1, 0
  {
    hide Run;
    var c := Config(t, Running);
    var p := PartsOfIf(s, v, l);
    StepLabel(m, prog, t);
    n := 1;
    if s.elseBlock.Some? {
      var k := SimElse(m, prog, lost, s, p.b.nextV, p.b.nextL, l, st, t.(pc := t.pc + 1), fuel);
      RunAdd(m, prog, c, n, k);
      n := n + k;
    }
  }

  /** The then-block, and the jump behind it: over the else-block, or to nowhere. */
  lemma {:induction false} SimThen(m: Meaning, prog: seq<Instr>, lost: set<nat>, s: Stmt, v: nat, l: nat, st: Store, t: State, p2: nat, end: nat, fuel: nat) returns (n: nat)
    requires s.If?
    requires CodeAt(prog, t.pc, GenStmt(s.thenBlock, v, l + 3).code) && Agrees(st, t.mem)
    requires LabelsOk(prog, lost) && Lost(s.thenBlock, v, l + 3) <= lost
    requires p2 == t.pc + |GenStmt(s.thenBlock, v, l + 3).code| && p2 < |prog| && prog[p2] == Jmp(l + 2)
    requires if s.elseBlock.None? then l + 2 in lost else 0 < end <= |prog| && prog[end - 1] == Label(l + 2)
    ensures StmtDone(prog, Branch(m, s, st, true, fuel), Run(m, prog, Config(t, Running), n), n, fuel, end)
    decreases fuel, s, 0, 0
  {
    hide CodeAt, GenStmt, Agrees;
    var c := Config(t, Running);
    n := SimStmt(m, prog, lost, s.thenBlock, v, l + 3, st, t, fuel);
    var o := Exec(m, AsCompiled, s.thenBlock, st, fuel);
    if o.Normal? {
      var s1 := Run(m, prog, c, n).st;
      StepJump(m, prog, s1);
      RunAdd(m, prog, c, n, 1);
      n := n + 1;
      if s.elseBlock.None? {
        JumpMisses(prog, lost, l + 2);
      } else {
        JumpFinds(prog, lost, end - 1, l + 2);
        StepLabel(m, prog, s1.(pc := end - 1));
        RunAdd(m, prog, c, n, 1);
        n := n + 1;
      }
    }
  }

  lemma {:induction false} SimElse(m: Meaning, prog: seq<Instr>, lost: set<nat>, s: Stmt, v: nat, l': nat, l: nat, st: Store, t: State, fuel: nat) returns (n: nat)
    requires s.If? && s.elseBlock.Some?
    requires CodeAt(prog, t.pc, GenStmt(s.elseBlock.value, v, l').code) && Agrees(st, t.mem)
    requires LabelsOk(prog, lost) && Lost(s.elseBlock.value, v, l') <= lost
    requires var p3 := t.pc + |GenStmt(s.elseBlock.value, v, l').code|; p3 < |prog| && prog[p3] == Label(l + 2)
    ensures StmtDone(prog, Exec(m, AsCompiled, s.elseBlock.value, st, fuel), Run(m, prog, Config(t, Running), n), n, fuel,
                     t.pc + |GenStmt(s.elseBlock.value, v, l').code| + 1)
    decreases fuel, s, 0, 0
  {
    var c := Config(t, Running);
    n := SimStmt(m, prog, lost, s.elseBlock.value, v, l', st, t, fuel);
    if Exec(m, AsCompiled, s.elseBlock.value, st, fuel).Normal? {
      StepLabel(m, prog, Run(m, prog, c, n).st);
      RunAdd(m, prog, c, n, 1);
      n := n + 1;
    }
  }

  datatype ForParts = ForParts(i: StmtCode, a: ExprCode, b: StmtCode, u: StmtCode)

  function PartsOfFor(s: Stmt, v: nat, l: nat): ForParts
    requires s.For?
  {
    var i := GenStmt(s.initStmt, v, l + 2);
    var a := GenExpr(s.cond, i.nextV);
    var b := GenStmt(s.body, a.next, i.nextL);
    ForParts(i, a, b, GenStmt(s.update, b.nextV, b.nextL))
  }

  /** A `for` whose code lies at `pc` and ends at `end`, in a program with good labels. */
  ghost predicate ForReady(prog: seq<Instr>, lost: set<nat>, pc: nat, end: nat, s: Stmt, v: nat, l: nat)
    requires s.For?
  {
    var p := PartsOfFor(s, v, l);
    && ForPlaced(prog, pc, p.i.code, p.a.code, p.a.result, l, p.b.code + p.u.code)
    && end == pc + |p.i.code| + 5 + |p.a.code| + |p.b.code| + |p.u.code|
    && LabelsOk(prog, lost) && Lost(s.initStmt, v, l + 2) <= lost
    && Lost(s.body, p.a.next, p.i.nextL) <= lost && Lost(s.update, p.b.nextV, p.b.nextL) <= lost
  }

  lemma ForIsReady(prog: seq<Instr>, lost: set<nat>, pc: nat, s: Stmt, v: nat, l: nat)
    requires s.For? && CodeAt(prog, pc, GenFor(s, v, l).code) && LabelsOk(prog, lost) && LostFor(s, v, l) <= lost
    ensures ForReady(prog, lost, pc, pc + |GenFor(s, v, l).code|, s, v, l)
  {
    var p := PartsOfFor(s, v, l);
    ForIsPlaced(prog, pc, p.i.code, p.a.code, p.a.result, l, p.b.code + p.u.code);
  }

  lemma {:induction false} SimFor(m: Meaning, prog: seq<Instr>, lost: set<nat>, s: Stmt, v: nat, l: nat, st: Store, t: State, end: nat, fuel: nat) returns (n: nat)
    requires s.For? && ForReady(prog, lost, t.pc, end, s, v, l) && Agrees(st, t.mem)
    ensures StmtDone(prog, ExecFor(m, AsCompiled, s, st, fuel), Run(m, prog, Config(t, Running), n), n, fuel, end)
    decreases fuel, s, 1
  {
    hide Run, CodeAt;
    var c := Config(t, Running);
    n := SimStmt(m, prog, lost, s.initStmt, v, l + 2, st, t, fuel);
    var o := Exec(m, AsCompiled, s.initStmt, st, fuel);
    if o.Normal? {
      var k := SimLoop(m, prog, lost, s, v, l, o.st, t.pc, Run(m, prog, c, n).st, end, fuel);
      RunAdd(m, prog, c, n, k);
      n := n + k;
    }
  }

  /** The iterations, from the loop label; `pc` is where the whole `for` starts. */
  lemma {:induction false} SimLoop(m: Meaning, prog: seq<Instr>, lost: set<nat>, s: Stmt, v: nat, l: nat, st: Store, pc: nat, t: State, end: nat, fuel: nat) returns (n: nat)
    requires s.For? && ForReady(prog, lost, pc, end, s, v, l) && Agrees(st, t.mem)
    requires t.pc == pc + |PartsOfFor(s, v, l).i.code|
    ensures StmtDone(prog, Loop(m, AsCompiled, s, st, fuel), Run(m, prog, Config(t, Running), n), n, fuel, end)
    decreases fuel, s, 0
  {
    hide Run, CodeAt;
    var c := Config(t, Running);
    var p := PartsOfFor(s, v, l);
    StepLabel(m, prog, t);
    JumpFinds(prog, lost, end - 1, l + 1);
    n := SimCond(m, prog, s.cond, p.i.nextV, st, t.(pc := t.pc + 1), l + 1, end - 1);
    RunAdd(m, prog, c, 1, n);
    n := 1 + n;
    var r := Eval(m, s.cond, st);
    if r.Value? {
      var t2 := Run(m, prog, c, n).st;
      if r.v == 0 {
        StepLabel(m, prog, t2);
        RunAdd(m, prog, c, n, 1);
        n := n + 1;
      } else if fuel > 0 {
        var k := SimIteration(m, prog, lost, s, v, l, r.st, pc, t2, end, fuel);
        RunAdd(m, prog, c, n, k);
        n := n + k;
      }
    }
  }

  /** Body, update, the jump back, and the remaining iterations. */
  lemma {:induction false} SimIteration(m: Meaning, prog: seq<Instr>, lost: set<nat>, s: Stmt, v: nat, l: nat, st: Store, pc: nat, t: State, end: nat, fuel: nat) returns (n: nat)
    requires s.For? && ForReady(prog, lost, pc, end, s, v, l) && Agrees(st, t.mem) && fuel > 0
    requires var p := PartsOfFor(s, v, l); t.pc == pc + |p.i.code| + 3 + |p.a.code|
    ensures var o := Iterate(m, AsCompiled, s, st, fuel);
      StmtDone(prog, if o.Normal? then Loop(m, AsCompiled, s, o.st, fuel - 1) else o,
               Run(m, prog, Config(t, Running), n), n, fuel - 1, end)
    decreases fuel - 1, s, 4
  {
    hide Loop, Run, CodeAt;
    var c := Config(t, Running);
    var p := PartsOfFor(s, v, l);
    CodeAtSplit(prog, t.pc, p.b.code, p.u.code);
    n := SimBody(m, prog, lost, s, p.a.next, p.i.nextL, st, t, fuel);
    var o := Iterate(m, AsCompiled, s, st, fuel);
    if o.Normal? {
      var k := SimAgain(m, prog, lost, s, v, l, o.st, pc, Run(m, prog, c, n).st, end, fuel - 1);
      RunAdd(m, prog, c, n, k);
      n := n + k;
    }
  }

  /** The jump back to the loop label, and the remaining iterations. */
  lemma {:induction false} SimAgain(m: Meaning, prog: seq<Instr>, lost: set<nat>, s: Stmt, v: nat, l: nat, st: Store, pc: nat, t: State, end: nat, fuel: nat) returns (n: nat)
    requires s.For? && ForReady(prog, lost, pc, end, s, v, l) && Agrees(st, t.mem) && t.pc == end - 2
    ensures StmtDone(prog, Loop(m, AsCompiled, s, st, fuel), Run(m, prog, Config(t, Running), n), n, fuel, end)
    decreases fuel, s, 1
  {
    var c := Config(t, Running);
    var top := pc + |PartsOfFor(s, v, l).i.code|;
    JumpFinds(prog, lost, top, l);
    StepJump(m, prog, t);
    var k := SimLoop(m, prog, lost, s, v, l, st, pc, t.(pc := top), end, fuel);
    RunAdd(m, prog, c, 1, k);
    n := 1 + k;
  }

  lemma {:induction false} SimBody(m: Meaning, prog: seq<Instr>, lost: set<nat>, s: Stmt, v: nat, l: nat, st: Store, t: State, fuel: nat) returns (n: nat)
    requires s.For? && fuel > 0 && Agrees(st, t.mem)
    requires var b := GenStmt(s.body, v, l); var u := GenStmt(s.update, b.nextV, b.nextL);
      && CodeAt(prog, t.pc, b.code) && CodeAt(prog, t.pc + |b.code|, u.code)
      && Lost(s.body, v, l) <= lost && Lost(s.update, b.nextV, b.nextL) <= lost
    requires LabelsOk(prog, lost)
    ensures var b := GenStmt(s.body, v, l); var u := GenStmt(s.update, b.nextV, b.nextL);
      StmtDone(prog, Iterate(m, AsCompiled, s, st, fuel), Run(m, prog, Config(t, Running), n), n, fuel - 1, t.pc + |b.code| + |u.code|)
    decreases fuel - 1, s, 3
  {
    var c := Config(t, Running);
    var b := GenStmt(s.body, v, l);
    n := SimStmt(m, prog, lost, s.body, v, l, st, t, fuel - 1);
    var o := Exec(m, AsCompiled, s.body, st, fuel - 1);
    if o.Normal? {
      var k := SimStmt(m, prog, lost, s.update, b.nextV, b.nextL, o.st, Run(m, prog, c, n).st, fuel - 1);
      RunAdd(m, prog, c, n, k);
      n := n + k;
    }
  }
}
