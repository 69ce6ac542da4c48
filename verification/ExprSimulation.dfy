/** The code of an expression computes what the expression evaluates to. */
module ExprSimulation {
  import opened Ast
  import opened Machine
  import opened Semantics
  import opened Codegen

  /** The machine's memory holds the store's variables. */
  ghost predicate Agrees(st: Store, mem: map<Loc, int>) {
    forall x :: Lookup(st, x) == Get(mem, Var(x))
  }

  /** Virtual registers below `v` hold the same values in both memories. */
  ghost predicate Keeps(mem: map<Loc, int>, mem': map<Loc, int>, v: nat) {
    forall r: nat :: r < v ==> Get(mem', VReg(r)) == Get(mem, VReg(r))
  }

  /** A run over expression code ends as the expression's evaluation does. */
  ghost predicate ExprDone(r: EvalResult, c: Config, mem: map<Loc, int>, v: nat, result: nat, end: nat) {
    && Agrees(r.st, c.st.mem)
    && match r
       case Value(x, _) => c.status == Running && c.st.pc == end && Get(c.st.mem, VReg(result)) == x && Keeps(mem, c.st.mem, v)
       case Stopped(why, _) => c.status == why
  }

  lemma WriteReg(st: Store, mem0: map<Loc, int>, mem: map<Loc, int>, v: nat, r: nat, x: int)
    requires Agrees(st, mem) && Keeps(mem0, mem, v) && v <= r
    ensures var mem' := mem[VReg(r) := x];
      Agrees(st, mem') && Keeps(mem0, mem', v) && Get(mem', VReg(r)) == x
  {
  }

  lemma WriteVar(st: Store, mem0: map<Loc, int>, mem: map<Loc, int>, v: nat, y: string, x: int)
    requires Agrees(st, mem) && Keeps(mem0, mem, v)
    ensures var mem' := mem[Var(y) := x];
      Agrees(st[y := x], mem') && Keeps(mem0, mem', v)
    ensures forall r: nat :: Get(mem[Var(y) := x], VReg(r)) == Get(mem, VReg(r))
  {
  }

  lemma KeepsTrans(mem0: map<Loc, int>, mem1: map<Loc, int>, mem2: map<Loc, int>, v: nat, w: nat)
    requires Keeps(mem0, mem1, v) && Keeps(mem1, mem2, w) && v <= w
    ensures Keeps(mem0, mem2, v)
  {
  }

  /** Extending a run by one step. */
  lemma RunOneMore(m: Meaning, prog: seq<Instr>, c: Config, n: nat)
    requires Run(m, prog, c, n).status == Running
    ensures Run(m, prog, c, n + 1) == Step(m, prog, Run(m, prog, c, n).st)
  {
    RunAdd(m, prog, c, n, 1);
    RunStopped(m, prog, Step(m, prog, Run(m, prog, c, n).st), 0);
  }

  lemma {:induction false} SimExpr(m: Meaning, prog: seq<Instr>, e: Expr, v: nat, st: Store, s: State) returns (n: nat)
    requires CodeAt(prog, s.pc, GenExpr(e, v).code) && Agrees(st, s.mem)
    ensures var g := GenExpr(e, v);
      ExprDone(Eval(m, e, st), Run(m, prog, Config(s, Running), n), s.mem, v, g.result, s.pc + |g.code|)
    ensures Eval(m, e, st).Value? ==> n > 0
    decreases e, 1
  {
    match e
    case Literal(_) => n := SimLeaf(m, prog, e, v, st, s);
    case Identifier(_) => n := SimLeaf(m, prog, e, v, st, s);
    case Increment(_) => n := SimIncrement(m, prog, e, v, st, s);
    case Binary(_, _, _) => n := SimBinary(m, prog, e, v, st, s);
    case Not(_) => n := SimNot(m, prog, e, v, st, s);
    case Assign(_, _) => n := SimAssign(m, prog, e, v, st, s);
    case Call(_, _) => n := SimCall(m, prog, e, v, st, s);
  }

  lemma SimLeaf(m: Meaning, prog: seq<Instr>, e: Expr, v: nat, st: Store, s: State) returns (n: nat)
    requires e.Literal? || e.Identifier?
    requires CodeAt(prog, s.pc, GenExpr(e, v).code) && Agrees(st, s.mem)
    ensures ExprDone(Eval(m, e, st), Run(m, prog, Config(s, Running), n), s.mem, v, v, s.pc + 1) && n > 0
  {
    CodeAtHead(prog, s.pc, GenExpr(e, v).code);
    RunOneMore(m, prog, Config(s, Running), 0);
    n := 1;
    var x := if e.Literal? then m.literal(e.text) else Lookup(st, e.name);
    assert prog[s.pc] == GenExpr(e, v).code[0];
    assert Step(m, prog, s) == Advance(s, s.mem[VReg(v) := x]);
    WriteReg(st, s.mem, s.mem, v, v, x);
  }

  lemma SimIncrement(m: Meaning, prog: seq<Instr>, e: Expr, v: nat, st: Store, s: State) returns (n: nat)
    requires e.Increment?
    requires CodeAt(prog, s.pc, GenExpr(e, v).code) && Agrees(st, s.mem)
    ensures ExprDone(Eval(m, e, st), Run(m, prog, Config(s, Running), n), s.mem, v, v + 1, s.pc + 3) && n > 0
  {
    var c := Config(s, Running);
    var y := e.name;
    var x := m.increment(Lookup(st, y));
    CodeAtHead(prog, s.pc, GenExpr(e, v).code);
    n := 3;
    RunOneMore(m, prog, c, 0);
    var mem1 := s.mem[VReg(v) := Lookup(st, y)];
    assert prog[s.pc + 0] == GenExpr(e, v).code[0];
    assert Step(m, prog, s) == Advance(s, mem1);
    WriteReg(st, s.mem, s.mem, v, v, Lookup(st, y));
    var s1 := s.(pc := s.pc + 1, mem := mem1);
    RunOneMore(m, prog, c, 1);
    assert prog[s.pc + 1] == GenExpr(e, v).code[1];
    var mem2 := mem1[Var(y) := x];
    assert Step(m, prog, s1) == Advance(s1, mem2);
    WriteVar(st, s.mem, mem1, v, y, x);
    var s2 := s1.(pc := s1.pc + 1, mem := mem2);
    RunOneMore(m, prog, c, 2);
    assert prog[s.pc + 2] == GenExpr(e, v).code[2];
    assert Step(m, prog, s2) == Advance(s2, mem2[VReg(v + 1) := x]);
    WriteReg(st[y := x], s.mem, mem2, v, v + 1, x);
  }

  lemma {:induction false} SimNot(m: Meaning, prog: seq<Instr>, e: Expr, v: nat, st: Store, s: State) returns (n: nat)
    requires e.Not?
    requires CodeAt(prog, s.pc, GenExpr(e, v).code) && Agrees(st, s.mem)
    ensures var g := GenExpr(e, v);
      ExprDone(Eval(m, e, st), Run(m, prog, Config(s, Running), n), s.mem, v, g.result, s.pc + |g.code|)
    ensures Eval(m, e, st).Value? ==> n > 0
    decreases e, 0
  {
    var c := Config(s, Running);
    var a := GenExpr(e.operand, v);
    var last := [Neg(VReg(a.next), VReg(a.result))];
    CodeAtSplit(prog, s.pc, a.code, last);
    CodeAtHead(prog, s.pc + |a.code|, last);
    n := SimExpr(m, prog, e.operand, v, st, s);
    var r := Eval(m, e.operand, st);
    if r.Value? {
      GenExprNoControl(e.operand, v);
      var s1 := Run(m, prog, c, n).st;
      assert prog[s1.pc + 0] == last[0];
      assert Step(m, prog, s1) == Advance(s1, s1.mem[VReg(a.next) := m.negate(r.v)]);
      WriteReg(r.st, s.mem, s1.mem, v, a.next, m.negate(r.v));
      RunOneMore(m, prog, c, n);
      n := n + 1;
    }
  }

  lemma {:induction false} SimAssign(m: Meaning, prog: seq<Instr>, e: Expr, v: nat, st: Store, s: State) returns (n: nat)
    requires e.Assign?
    requires CodeAt(prog, s.pc, GenExpr(e, v).code) && Agrees(st, s.mem)
    ensures var g := GenExpr(e, v);
      ExprDone(Eval(m, e, st), Run(m, prog, Config(s, Running), n), s.mem, v, g.result, s.pc + |g.code|)
    ensures Eval(m, e, st).Value? ==> n > 0
    decreases e, 0
  {
    n := SimStore(m, prog, e.name, e.right, v, st, s);
  }

  /** Evaluating an expression and moving its result into a variable. */
  lemma {:induction false} SimStore(m: Meaning, prog: seq<Instr>, y: string, e: Expr, v: nat, st: Store, s: State) returns (n: nat)
    requires CodeAt(prog, s.pc, GenExpr(e, v).code + [Mov(Var(y), At(VReg(GenExpr(e, v).result)))]) && Agrees(st, s.mem)
    ensures var g := GenExpr(e, v);
      ExprDone(Eval(m, Assign(y, e), st), Run(m, prog, Config(s, Running), n), s.mem, v, g.result, s.pc + |g.code| + 1)
    ensures Eval(m, e, st).Value? ==> n > 0
    decreases e, 2
  {
    hide CodeAt, GenExpr;
    var c := Config(s, Running);
    var a := GenExpr(e, v);
    var last := [Mov(Var(y), At(VReg(a.result)))];
    CodeAtSplit(prog, s.pc, a.code, last);
    CodeAtHead(prog, s.pc + |a.code|, last);
    n := SimExpr(m, prog, e, v, st, s);
    var r := Eval(m, e, st);
    if r.Value? {
      var s1 := Run(m, prog, c, n).st;
      assert prog[s1.pc + 0] == last[0];
      StoreStep(m, prog, y, v, a.result, r.v, r.st, s.mem, s1);
      RunOneMore(m, prog, c, n);
      n := n + 1;
    }
  }

  lemma StoreStep(m: Meaning, prog: seq<Instr>, y: string, v: nat, result: nat, x: int, st: Store, mem: map<Loc, int>, s: State)
    requires s.pc < |prog| && prog[s.pc] == Mov(Var(y), At(VReg(result))) && Get(s.mem, VReg(result)) == x
    requires Agrees(st, s.mem) && Keeps(mem, s.mem, v)
    ensures ExprDone(Value(x, st[y := x]), Step(m, prog, s), mem, v, result, s.pc + 1)
  {
    assert Step(m, prog, s) == Advance(s, s.mem[Var(y) := x]);
    WriteVar(st, mem, s.mem, v, y, x);
  }

  lemma {:induction false} SimBinary(m: Meaning, prog: seq<Instr>, e: Expr, v: nat, st: Store, s: State) returns (n: nat)
    requires e.Binary?
    requires CodeAt(prog, s.pc, GenExpr(e, v).code) && Agrees(st, s.mem)
    ensures var g := GenExpr(e, v);
      ExprDone(Eval(m, e, st), Run(m, prog, Config(s, Running), n), s.mem, v, g.result, s.pc + |g.code|)
    ensures Eval(m, e, st).Value? ==> n > 0
    decreases e, 0, 1
  {
    hide CodeAt, Run;
    var c := Config(s, Running);
    var a := GenExpr(e.left, v);
    var b := GenExpr(e.right, a.next);
    var last := [Op3(e.op, VReg(b.next), VReg(a.result), VReg(b.result))];
    CodeAtSplit(prog, s.pc, a.code + b.code, last);
    n := SimOperands(m, prog, e, e.left, e.right, v, st, s);
    var r1 := Eval(m, e.left, st);
    if r1.Value? && Eval(m, e.right, r1.st).Value? {
      var r2 := Eval(m, e.right, r1.st);
      var s2 := Run(m, prog, c, n).st;
      CodeAtHead(prog, s2.pc, last);
      assert prog[s2.pc + 0] == last[0];
      SimOp(m, prog, e.op, st, r2.st, s, s2, v, b.next, a.result, b.result, r1.v, r2.v);
      RunOneMore(m, prog, c, n);
      n := n + 1;
    }
  }

  /** Both operands, one after the other. */
  lemma {:induction false} SimOperands(m: Meaning, prog: seq<Instr>, e: Expr, x: Expr, y: Expr, v: nat, st: Store, s: State) returns (n: nat)
    requires e.Binary? && x == e.left && y == e.right
    requires CodeAt(prog, s.pc, GenExpr(x, v).code + GenExpr(y, GenExpr(x, v).next).code) && Agrees(st, s.mem)
    ensures var a := GenExpr(x, v); var b := GenExpr(y, a.next); var d := Run(m, prog, Config(s, Running), n);
      OperandsDone(Eval(m, x, st), if Eval(m, x, st).Value? then Eval(m, y, Eval(m, x, st).st) else Eval(m, x, st),
                   d, s.mem, v, a.result, b.result, b.next, s.pc + |a.code + b.code|)
    decreases e, 0, 0
  {
    hide CodeAt, GenExpr;
    var c := Config(s, Running);
    var a := GenExpr(x, v);
    var b := GenExpr(y, a.next);
    CodeAtSplit(prog, s.pc, a.code, b.code);
    GenExprNoControl(x, v);
    GenExprNoControl(y, a.next);
    n := SimExpr(m, prog, x, v, st, s);
    var r1 := Eval(m, x, st);
    if r1.Value? {
      var s1 := Run(m, prog, c, n).st;
      var k := SimExpr(m, prog, y, a.next, r1.st, s1);
      RunAdd(m, prog, c, n, k);
      n := n + k;
      if Eval(m, y, r1.st).Value? {
        KeepsTrans(s.mem, s1.mem, Run(m, prog, c, n).st.mem, v, a.next);
      }
    }
  }

  /** `r1` is the first operand's outcome, `r2` the second's, or the first's again if that stopped. */
  ghost predicate OperandsDone(r1: EvalResult, r2: EvalResult, d: Config, mem: map<Loc, int>, v: nat, ra: nat, rb: nat, next: nat, end: nat) {
    && Agrees(r2.st, d.st.mem)
    && (r1.Value? && r2.Value? ==>
      && d.status == Running && d.st.pc == end && v <= next && Keeps(mem, d.st.mem, v)
      && Get(d.st.mem, VReg(ra)) == r1.v && Get(d.st.mem, VReg(rb)) == r2.v)
    && (!(r1.Value? && r2.Value?) ==> r2.Stopped? && d.status == r2.why)
  }

  /** The operator instruction, once both of its operands are in their registers. */
  lemma SimOp(m: Meaning, prog: seq<Instr>, op: BinOp, st: Store, st2: Store, s: State, s2: State,
              v: nat, dst: nat, ra: nat, rb: nat, x: int, y: int)
    requires s2.pc < |prog| && prog[s2.pc] == Op3(op, VReg(dst), VReg(ra), VReg(rb))
    requires Get(s2.mem, VReg(ra)) == x && Get(s2.mem, VReg(rb)) == y
    requires Agrees(st2, s2.mem) && Keeps(s.mem, s2.mem, v) && v <= dst
    ensures var r := m.binary(op, x, y);
      ExprDone(if r.Some? then Value(r.value, st2) else Stopped(Trapped, st2), Step(m, prog, s2), s.mem, v, dst, s2.pc + 1)
  {
    var r := m.binary(op, x, y);
    if r.Some? {
      WriteReg(st2, s.mem, s2.mem, v, dst, r.value);
    }
  }

  /** A call never yields a value in the model: it stops at its first push or at the call. */
  lemma {:induction false} SimCall(m: Meaning, prog: seq<Instr>, e: Expr, v: nat, st: Store, s: State) returns (n: nat)
    requires e.Call?
    requires CodeAt(prog, s.pc, GenExpr(e, v).code) && Agrees(st, s.mem)
    ensures var r := Eval(m, e, st); var c := Run(m, prog, Config(s, Running), n);
      r.Stopped? && c.status == r.why && Agrees(r.st, c.st.mem)
    decreases e, 0
  {
    hide CodeAt, Run, GenArgs, EvalArgs;
    var a := GenArgs(e.args, v);
    AfterArguments(prog, s.pc, a.code, a.results, CallTail(e.func, |e.args|, a.next));
    n := SimArgs(m, prog, e.args, v, st, s);
    if EvalArgs(m, e.args, st).Values? {
      RunOneMore(m, prog, Config(s, Running), n);
      n := n + 1;
    }
  }

  /** After the arguments' code comes a push or the call itself. */
  lemma AfterArguments(prog: seq<Instr>, pc: nat, code: seq<Instr>, results: seq<nat>, tail: seq<Instr>)
    requires CodeAt(prog, pc, code + Pushes(results) + tail) && |tail| > 0 && tail[0].Invoke?
    ensures CodeAt(prog, pc, code)
    ensures pc + |code| < |prog| && (prog[pc + |code|].Push? || prog[pc + |code|].Invoke?)
  {
    CodeAtSplit(prog, pc, code + Pushes(results), tail);
    CodeAtSplit(prog, pc, code, Pushes(results));
    PushesNoControl(results);
    if results == [] {
      CodeAtHead(prog, pc + |code + Pushes(results)|, tail);
      assert prog[pc + |code| + 0] == tail[0];
    } else {
      CodeAtHead(prog, pc + |code|, Pushes(results));
      assert prog[pc + |code| + 0] == Pushes(results)[0];
    }
  }

  lemma {:induction false} SimArgs(m: Meaning, prog: seq<Instr>, args: seq<Expr>, v: nat, st: Store, s: State) returns (n: nat)
    requires CodeAt(prog, s.pc, GenArgs(args, v).code) && Agrees(st, s.mem)
    ensures var c := Run(m, prog, Config(s, Running), n);
      match EvalArgs(m, args, st)
      case Values(_, st1) => c.status == Running && c.st.pc == s.pc + |GenArgs(args, v).code| && Agrees(st1, c.st.mem)
      case StoppedArgs(why, st1) => c.status == why && Agrees(st1, c.st.mem)
    decreases args, 0
  {
    if args == [] {
      n := 0;
    } else {
      var c0 := Config(s, Running);
      var a := GenExpr(args[0], v);
      var rest := GenArgs(args[1..], a.next);
      CodeAtSplit(prog, s.pc, a.code, rest.code);
      n := SimExpr(m, prog, args[0], v, st, s);
      var r := Eval(m, args[0], st);
      if r.Value? {
        var c1 := Run(m, prog, c0, n);
        var k := SimArgs(m, prog, args[1..], a.next, r.st, c1.st);
        RunAdd(m, prog, c0, n, k);
        n := n + k;
      }
    }
  }
}
