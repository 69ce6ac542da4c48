/** The code the generator emits for a tree, as functions of the tree and of the next free
    virtual register and label, and which labels it emits. */
module Codegen {
  import opened Wrappers
  import opened Ast
  import opened Machine

  // ----- the emitted code -----

  datatype ExprCode = ExprCode(code: seq<Instr>, result: nat, next: nat)

  datatype ArgsCode = ArgsCode(code: seq<Instr>, results: seq<nat>, next: nat)

  function GenExpr(e: Expr, v: nat): (r: ExprCode)
    decreases e, 1
  {
    match e
    case Literal(text) => ExprCode([Mov(VReg(v), Imm(text))], v, v + 1)
    case Identifier(x) => ExprCode([Mov(VReg(v), At(Var(x)))], v, v + 1)
    case Binary(op, l, r) =>
      var a := GenExpr(l, v);
      var b := GenExpr(r, a.next);
      ExprCode(a.code + b.code + [Op3(op, VReg(b.next), VReg(a.result), VReg(b.result))], b.next, b.next + 1)
    case Not(operand) =>
      var a := GenExpr(operand, v);
      ExprCode(a.code + [Neg(VReg(a.next), VReg(a.result))], a.next, a.next + 1)
    case Increment(x) =>
      ExprCode([Mov(VReg(v), At(Var(x))), Inc(Var(x)), Mov(VReg(v + 1), At(Var(x)))], v + 1, v + 2)
    case Assign(x, r) =>
      var a := GenExpr(r, v);
      ExprCode(a.code + [Mov(Var(x), At(VReg(a.result)))], a.result, a.next)
    case Call(f, args) =>
      var a := GenArgs(args, v);
      ExprCode(a.code + Pushes(a.results) + CallTail(f, |args|, a.next), a.next, a.next + 1)
  }

  function GenArgs(args: seq<Expr>, v: nat): (r: ArgsCode)
    decreases args, 0
  {
    if args == [] then ArgsCode([], [], v) else
    var a := GenExpr(args[0], v);
    var rest := GenArgs(args[1..], a.next);
    ArgsCode(a.code + rest.code, [a.result] + rest.results, rest.next)
  }

  /** Arguments are pushed from the last to the first. */
  function Pushes(results: seq<nat>): seq<Instr> {
    if results == [] then [] else Pushes(results[1..]) + [Push(VReg(results[0]))]
  }

  function CallTail(f: string, n: nat, v: nat): seq<Instr> {
    [Invoke(f)] + (if n > 0 then [AddEsp(n * 4)] else []) + [Mov(VReg(v), At(PReg(Eax)))]
  }

  datatype StmtCode = StmtCode(code: seq<Instr>, nextV: nat, nextL: nat)

  function Test(r: nat, l: nat): seq<Instr> {
    [Cmp(VReg(r)), Je(l)]
  }

  /** The end label is only emitted when there is an else-block. */
  function IfCode(cond: seq<Instr>, r: nat, l: nat, thenCode: seq<Instr>, elseCode: Option<seq<Instr>>): seq<Instr> {
    cond + (Test(r, l + 1) + ([Label(l)] + (thenCode + ([Jmp(l + 2), Label(l + 1)] +
      (if elseCode.Some? then elseCode.value + [Label(l + 2)] else [])))))
  }

  function ForCode(init: seq<Instr>, cond: seq<Instr>, r: nat, l: nat, body: seq<Instr>): seq<Instr> {
    init + ([Label(l)] + (cond + (Test(r, l + 1) + (body + [Jmp(l), Label(l + 1)]))))
  }

  function GenStmt(s: Stmt, v: nat, l: nat): StmtCode
    decreases s, 1
  {
    match s
    case Block(ss) => GenAll(ss, v, l)
    case Return(value) => GenReturn(value, v, l)
    case Evaluate(e) => var a := GenExpr(e, v); StmtCode(a.code, a.next, l)
    case Declare(x, init) => GenDeclare(x, init, v, l)
    case If(_, _, _) => GenIf(s, v, l)
    case For(_, _, _, _) => GenFor(s, v, l)
  }

  function GenReturn(value: Option<Expr>, v: nat, l: nat): StmtCode {
    if value.None? then StmtCode([Ret], v, l) else
    var a := GenExpr(value.value, v);
    StmtCode(a.code + [Mov(PReg(Eax), At(VReg(a.result))), Ret], a.next, l)
  }

  function GenDeclare(x: string, init: Option<Expr>, v: nat, l: nat): StmtCode {
    if init.None? then StmtCode([Nop(x)], v, l) else
    var a := GenExpr(init.value, v);
    StmtCode(a.code + [Mov(Var(x), At(VReg(a.result)))], a.next, l)
  }

  function GenIf(s: Stmt, v: nat, l: nat): StmtCode
    requires s.If?
    decreases s, 0
  {
    var a := GenExpr(s.cond, v);
    var b := GenStmt(s.thenBlock, a.next, l + 3);
    if s.elseBlock.None? then StmtCode(IfCode(a.code, a.result, l, b.code, None), b.nextV, b.nextL) else
    var g := GenStmt(s.elseBlock.value, b.nextV, b.nextL);
    StmtCode(IfCode(a.code, a.result, l, b.code, Some(g.code)), g.nextV, g.nextL)
  }

  function GenFor(s: Stmt, v: nat, l: nat): StmtCode
    requires s.For?
    decreases s, 0
  {
    var i := GenStmt(s.initStmt, v, l + 2);
    var a := GenExpr(s.cond, i.nextV);
    var b := GenStmt(s.body, a.next, i.nextL);
    var u := GenStmt(s.update, b.nextV, b.nextL);
    StmtCode(ForCode(i.code, a.code, a.result, l, b.code + u.code), u.nextV, u.nextL)
  }

  function GenAll(ss: seq<Stmt>, v: nat, l: nat): StmtCode
    decreases ss, 0
  {
    if ss == [] then StmtCode([], v, l) else
    var a := GenStmt(ss[0], v, l);
    var b := GenAll(ss[1..], a.nextV, a.nextL);
    StmtCode(a.code + b.code, b.nextV, b.nextL)
  }

  // ----- placement of code inside a program -----

  ghost predicate CodeAt(prog: seq<Instr>, pc: nat, code: seq<Instr>) {
    pc + |code| <= |prog| && SameFrom(prog, pc, code)
  }

  ghost predicate SameFrom(prog: seq<Instr>, pc: nat, code: seq<Instr>)
    requires pc + |code| <= |prog|
    decreases |code|
  {
    code == [] || (prog[pc] == code[0] && SameFrom(prog, pc + 1, code[1..]))
  }

  lemma {:induction false} CodeAtIsSlice(prog: seq<Instr>, pc: nat, code: seq<Instr>)
    requires pc + |code| <= |prog|
    ensures CodeAt(prog, pc, code) <==> prog[pc..pc + |code|] == code
    decreases |code|
  {
    if code != [] {
      var tail := code[1..];
      CodeAtIsSlice(prog, pc + 1, tail);
      var w := prog[pc..pc + |code|];
      assert w[0] == prog[pc] && w[1..] == prog[pc + 1..pc + 1 + |tail|];
      assert code == [code[0]] + tail && w == [w[0]] + w[1..];
    }
  }

  lemma CodeAtSplit(prog: seq<Instr>, pc: nat, a: seq<Instr>, b: seq<Instr>)
    requires CodeAt(prog, pc, a + b)
    ensures CodeAt(prog, pc, a) && CodeAt(prog, pc + |a|, b)
  {
    CodeAtIsSlice(prog, pc, a + b);
    CodeAtIsSlice(prog, pc, a);
    CodeAtIsSlice(prog, pc + |a|, b);
    assert (a + b)[..|a|] == a && (a + b)[|a|..] == b;
    assert prog[pc..pc + |a + b|][..|a|] == prog[pc..pc + |a|];
    assert prog[pc..pc + |a + b|][|a|..] == prog[pc + |a|..pc + |a| + |b|];
  }

  lemma CodeAtHead(prog: seq<Instr>, pc: nat, code: seq<Instr>)
    requires CodeAt(prog, pc, code)
    ensures forall k {:trigger code[k]} :: 0 <= k < |code| ==> prog[pc + k] == code[k]
  {
    CodeAtIsSlice(prog, pc, code);
    forall k {:trigger code[k]} | 0 <= k < |code| ensures prog[pc + k] == code[k] {
      assert prog[pc..pc + |code|][k] == prog[pc + k];
    }
  }

  ghost predicate NoControl(code: seq<Instr>) {
    forall i :: 0 <= i < |code| ==> !code[i].Label? && !code[i].Jmp? && !code[i].Je? && !code[i].Ret?
  }

  lemma {:induction false} GenExprNoControl(e: Expr, v: nat)
    ensures NoControl(GenExpr(e, v).code) && v < GenExpr(e, v).next && v <= GenExpr(e, v).result < GenExpr(e, v).next
    decreases e, 1
  {
    hide GenArgs, Pushes;
    match e
    case Binary(_, l, r) =>
      GenExprNoControl(l, v);
      GenExprNoControl(r, GenExpr(l, v).next);
    case Not(x) => GenExprNoControl(x, v);
    case Assign(_, r) => GenExprNoControl(r, v);
    case Call(_, args) =>
      GenArgsNoControl(args, v);
      PushesNoControl(GenArgs(args, v).results);
    case _ =>
  }

  lemma {:induction false} PushesNoControl(results: seq<nat>)
    ensures NoControl(Pushes(results)) && |Pushes(results)| == |results|
    ensures forall k {:trigger Pushes(results)[k]} :: 0 <= k < |results| ==> Pushes(results)[k] == Push(VReg(results[|results| - 1 - k]))
  {
    if results != [] {
      PushesNoControl(results[1..]);
    }
  }

  lemma {:induction false} GenArgsNoControl(args: seq<Expr>, v: nat)
    ensures NoControl(GenArgs(args, v).code) && v <= GenArgs(args, v).next && |GenArgs(args, v).results| == |args|
    decreases args, 0
  {
    if args != [] {
      GenExprNoControl(args[0], v);
      GenArgsNoControl(args[1..], GenExpr(args[0], v).next);
    }
  }

  // ----- labels -----

  /** How often label `id` is emitted. */
  function LabelCount(code: seq<Instr>, id: nat): nat {
    if code == [] then 0 else (if code[0] == Label(id) then 1 else 0) + LabelCount(code[1..], id)
  }

  lemma {:induction false} LabelCountConcat(a: seq<Instr>, b: seq<Instr>, id: nat)
    ensures LabelCount(a + b, id) == LabelCount(a, id) + LabelCount(b, id)
  {
    if a == [] {
      assert a + b == b;
    } else {
      assert (a + b)[1..] == a[1..] + b;
      LabelCountConcat(a[1..], b, id);
    }
  }

  lemma {:induction false} LabelCountZero(code: seq<Instr>, id: nat)
    requires forall i :: 0 <= i < |code| ==> code[i] != Label(id)
    ensures LabelCount(code, id) == 0
  {
    if code != [] {
      LabelCountZero(code[1..], id);
    }
  }

  lemma LabelCountOne(x: Instr, id: nat)
    ensures LabelCount([x], id) == if x == Label(id) then 1 else 0
  {
    assert [x][1..] == [];
  }

  lemma LabelCountPair(x: Instr, y: Instr, id: nat)
    ensures LabelCount([x, y], id) == (if x == Label(id) then 1 else 0) + (if y == Label(id) then 1 else 0)
  {
    assert [x, y] == [x] + [y];
    LabelCountConcat([x], [y], id);
    LabelCountOne(x, id);
    LabelCountOne(y, id);
  }

  lemma {:induction false} LabelCountAt(code: seq<Instr>, id: nat, i: nat)
    requires i < |code| && code[i] == Label(id)
    ensures LabelCount(code, id) >= 1
    ensures LabelCount(code[i + 1..], id) >= 1 ==> LabelCount(code, id) >= 2
  {
    assert code == code[..i] + ([code[i]] + code[i + 1..]);
    LabelCountConcat(code[..i], [code[i]] + code[i + 1..], id);
    LabelCountConcat([code[i]], code[i + 1..], id);
  }

  /** The end labels of the else-less ifs of a statement: jumped to, never emitted. */
  function Lost(s: Stmt, v: nat, l: nat): set<nat>
    decreases s, 1
  {
    match s
    case Block(ss) => LostAll(ss, v, l)
    case If(_, _, _) => LostIf(s, v, l)
    case For(_, _, _, _) => LostFor(s, v, l)
    case _ => {}
  }

  function LostIf(s: Stmt, v: nat, l: nat): set<nat>
    requires s.If?
    decreases s, 0
  {
    var a := GenExpr(s.cond, v);
    var b := GenStmt(s.thenBlock, a.next, l + 3);
    Lost(s.thenBlock, a.next, l + 3) + (if s.elseBlock.Some? then Lost(s.elseBlock.value, b.nextV, b.nextL) else {l + 2})
  }

  function LostFor(s: Stmt, v: nat, l: nat): set<nat>
    requires s.For?
    decreases s, 0
  {
    var i := GenStmt(s.initStmt, v, l + 2);
    var a := GenExpr(s.cond, i.nextV);
    var b := GenStmt(s.body, a.next, i.nextL);
    Lost(s.initStmt, v, l + 2) + Lost(s.body, a.next, i.nextL) + Lost(s.update, b.nextV, b.nextL)
  }

  function LostAll(ss: seq<Stmt>, v: nat, l: nat): set<nat>
    decreases ss, 0
  {
    if ss == [] then {} else
    var a := GenStmt(ss[0], v, l);
    Lost(ss[0], v, l) + LostAll(ss[1..], a.nextV, a.nextL)
  }

  lemma IfCodeLabels(cond: seq<Instr>, r: nat, l: nat, thenCode: seq<Instr>, elseCode: Option<seq<Instr>>, id: nat)
    requires LabelCount(cond, id) == 0
    ensures LabelCount(IfCode(cond, r, l, thenCode, elseCode), id) ==
      LabelCount(thenCode, id) + (if id == l || id == l + 1 then 1 else 0)
      + (if elseCode.Some? then LabelCount(elseCode.value, id) + (if id == l + 2 then 1 else 0) else 0)
  {
    hide LabelCount;
    var tail := if elseCode.Some? then elseCode.value + [Label(l + 2)] else [];
    LabelCountZero(Test(r, l + 1), id);
    LabelCountPair(Jmp(l + 2), Label(l + 1), id);
    LabelCountOne(Label(l), id);
    if elseCode.Some? {
      LabelCountConcat(elseCode.value, [Label(l + 2)], id);
      LabelCountOne(Label(l + 2), id);
    } else {
      LabelCountZero(tail, id);
    }
    LabelCountConcat([Jmp(l + 2), Label(l + 1)], tail, id);
    var rest := [Jmp(l + 2), Label(l + 1)] + tail;
    LabelCountConcat(thenCode, rest, id);
    LabelCountConcat([Label(l)], thenCode + rest, id);
    LabelCountConcat(Test(r, l + 1), [Label(l)] + (thenCode + rest), id);
    LabelCountConcat(cond, Test(r, l + 1) + ([Label(l)] + (thenCode + rest)), id);
  }

  lemma ForCodeLabels(init: seq<Instr>, cond: seq<Instr>, r: nat, l: nat, body: seq<Instr>, id: nat)
    requires LabelCount(cond, id) == 0
    ensures LabelCount(ForCode(init, cond, r, l, body), id) ==
      LabelCount(init, id) + LabelCount(body, id) + (if id == l || id == l + 1 then 1 else 0)
  {
    var tail := body + [Jmp(l), Label(l + 1)];
    assert [Jmp(l), Label(l + 1)] == [Jmp(l)] + [Label(l + 1)];
    LabelCountConcat([Jmp(l)], [Label(l + 1)], id);
    assert LabelCount([Label(l)], id) == (if id == l then 1 else 0);
    LabelCountZero(Test(r, l + 1), id);
    LabelCountConcat(body, [Jmp(l), Label(l + 1)], id);
    LabelCountConcat(Test(r, l + 1), tail, id);
    LabelCountConcat(cond, Test(r, l + 1) + tail, id);
    LabelCountConcat([Label(l)], cond + (Test(r, l + 1) + tail), id);
    LabelCountConcat(init, [Label(l)] + (cond + (Test(r, l + 1) + tail)), id);
  }

  /** Every label the generator numbers for a statement is emitted exactly once, the lost
      ones never, and no others are emitted. */
  lemma {:induction false} GenStmtLabels(s: Stmt, v: nat, l: nat, id: nat)
    ensures var r := GenStmt(s, v, l);
      && v <= r.nextV && l <= r.nextL
      && (id in Lost(s, v, l) ==> l <= id < r.nextL)
      && LabelCount(r.code, id) == (if l <= id < r.nextL && id !in Lost(s, v, l) then 1 else 0)
    decreases s, 1
  {
    match s
    case Block(ss) => GenAllLabels(ss, v, l, id);
    case Return(value) =>
      if value.Some? {
        var a := GenExpr(value.value, v);
        GenExprNoLabel(value.value, v, id);
        LabelCountZero([Mov(PReg(Eax), At(VReg(a.result))), Ret], id);
        LabelCountConcat(a.code, [Mov(PReg(Eax), At(VReg(a.result))), Ret], id);
      }
    case Evaluate(e) => GenExprNoLabel(e, v, id);
    case Declare(x, init) =>
      if init.Some? {
        var a := GenExpr(init.value, v);
        GenExprNoLabel(init.value, v, id);
        LabelCountConcat(a.code, [Mov(Var(x), At(VReg(a.result)))], id);
      }
    case If(_, _, _) => IfLabels(s, v, l, id);
    case For(_, _, _, _) => ForLabels(s, v, l, id);
  }

  lemma {:induction false} IfLabels(s: Stmt, v: nat, l: nat, id: nat)
    requires s.If?
    ensures var r := GenIf(s, v, l);
      && v <= r.nextV && l <= r.nextL
      && (id in LostIf(s, v, l) ==> l <= id < r.nextL)
      && LabelCount(r.code, id) == (if l <= id < r.nextL && id !in LostIf(s, v, l) then 1 else 0)
    decreases s, 0
  {
    GenExprNoLabel(s.cond, v, id);
    var a := GenExpr(s.cond, v);
    GenStmtLabels(s.thenBlock, a.next, l + 3, id);
    var b := GenStmt(s.thenBlock, a.next, l + 3);
    if s.elseBlock.Some? {
      var els := s.elseBlock.value;
      GenStmtLabels(els, b.nextV, b.nextL, id);
      IfCodeLabels(a.code, a.result, l, b.code, Some(GenStmt(els, b.nextV, b.nextL).code), id);
    } else {
      IfCodeLabels(a.code, a.result, l, b.code, None, id);
    }
  }

  lemma {:induction false} ForLabels(s: Stmt, v: nat, l: nat, id: nat)
    requires s.For?
    ensures var r := GenFor(s, v, l);
      && v <= r.nextV && l <= r.nextL
      && (id in LostFor(s, v, l) ==> l <= id < r.nextL)
      && LabelCount(r.code, id) == (if l <= id < r.nextL && id !in LostFor(s, v, l) then 1 else 0)
    decreases s, 0
  {
    GenStmtLabels(s.initStmt, v, l + 2, id);
    var i := GenStmt(s.initStmt, v, l + 2);
    GenExprNoLabel(s.cond, i.nextV, id);
    var a := GenExpr(s.cond, i.nextV);
    GenStmtLabels(s.body, a.next, i.nextL, id);
    var b := GenStmt(s.body, a.next, i.nextL);
    GenStmtLabels(s.update, b.nextV, b.nextL, id);
    var u := GenStmt(s.update, b.nextV, b.nextL);
    LabelCountConcat(b.code, u.code, id);
    ForCodeLabels(i.code, a.code, a.result, l, b.code + u.code, id);
  }

  lemma {:induction false} GenAllLabels(ss: seq<Stmt>, v: nat, l: nat, id: nat)
    ensures var r := GenAll(ss, v, l);
      && v <= r.nextV && l <= r.nextL
      && (id in LostAll(ss, v, l) ==> l <= id < r.nextL)
      && LabelCount(r.code, id) == (if l <= id < r.nextL && id !in LostAll(ss, v, l) then 1 else 0)
    decreases ss, 0
  {
    if ss != [] {
      GenStmtLabels(ss[0], v, l, id);
      var a := GenStmt(ss[0], v, l);
      GenAllLabels(ss[1..], a.nextV, a.nextL, id);
      LabelCountConcat(a.code, GenAll(ss[1..], a.nextV, a.nextL).code, id);
    }
  }

  lemma GenExprNoLabel(e: Expr, v: nat, id: nat)
    ensures LabelCount(GenExpr(e, v).code, id) == 0 && v < GenExpr(e, v).next
  {
    GenExprNoControl(e, v);
    LabelCountZero(GenExpr(e, v).code, id);
  }

  /** No label is emitted twice in `prog`, and those in `lost` never. */
  ghost predicate LabelsOk(prog: seq<Instr>, lost: set<nat>) {
    forall id :: LabelCount(prog, id) <= (if id in lost then 0 else 1)
  }

  lemma GenStmtLabelsOk(s: Stmt, v: nat, l: nat)
    ensures LabelsOk(GenStmt(s, v, l).code, Lost(s, v, l))
    ensures forall id: nat :: l <= id < GenStmt(s, v, l).nextL ==>
      LabelCount(GenStmt(s, v, l).code, id) == (if id in Lost(s, v, l) then 0 else 1)
  {
    forall id: nat
      ensures LabelCount(GenStmt(s, v, l).code, id) == (if l <= id < GenStmt(s, v, l).nextL && id !in Lost(s, v, l) then 1 else 0)
    {
      GenStmtLabels(s, v, l, id);
    }
  }

  // ----- the same code, appended instruction by instruction -----

  lemma Assoc(a: seq<Instr>, b: seq<Instr>, c: seq<Instr>)
    ensures a + (b + c) == a + b + c
  {
  }

  lemma TestAppended(base: seq<Instr>, r: nat, l: nat)
    ensures base + Test(r, l) == base + [Cmp(VReg(r))] + [Je(l)]
  {
  }

  lemma IfCodeAppended(base: seq<Instr>, cond: seq<Instr>, r: nat, l: nat, thenCode: seq<Instr>, elseCode: Option<seq<Instr>>)
    ensures base + IfCode(cond, r, l, thenCode, elseCode) ==
      base + cond + [Cmp(VReg(r))] + [Je(l + 1)] + [Label(l)] + thenCode + [Jmp(l + 2)] + [Label(l + 1)]
      + (if elseCode.Some? then elseCode.value + [Label(l + 2)] else [])
  {
    var tail := if elseCode.Some? then elseCode.value + [Label(l + 2)] else [];
    var mid := [Jmp(l + 2), Label(l + 1)];
    Assoc(base, cond, Test(r, l + 1) + ([Label(l)] + (thenCode + (mid + tail))));
    Assoc(base + cond, Test(r, l + 1), [Label(l)] + (thenCode + (mid + tail)));
    TestAppended(base + cond, r, l + 1);
    var b1 := base + cond + Test(r, l + 1);
    Assoc(b1, [Label(l)], thenCode + (mid + tail));
    Assoc(b1 + [Label(l)], thenCode, mid + tail);
    var b2 := b1 + [Label(l)] + thenCode;
    Assoc(b2, mid, tail);
    assert mid == [Jmp(l + 2)] + [Label(l + 1)];
    Assoc(b2, [Jmp(l + 2)], [Label(l + 1)]);
  }

  lemma ForCodeAppended(base: seq<Instr>, init: seq<Instr>, cond: seq<Instr>, r: nat, l: nat, body: seq<Instr>, update: seq<Instr>)
    ensures base + ForCode(init, cond, r, l, body + update) ==
      base + init + [Label(l)] + cond + [Cmp(VReg(r))] + [Je(l + 1)] + body + update + [Jmp(l)] + [Label(l + 1)]
  {
    var tail := [Jmp(l), Label(l + 1)];
    Assoc(base, init, [Label(l)] + (cond + (Test(r, l + 1) + (body + update + tail))));
    Assoc(base + init, [Label(l)], cond + (Test(r, l + 1) + (body + update + tail)));
    var b1 := base + init + [Label(l)];
    Assoc(b1, cond, Test(r, l + 1) + (body + update + tail));
    Assoc(b1 + cond, Test(r, l + 1), body + update + tail);
    TestAppended(b1 + cond, r, l + 1);
    var b2 := b1 + cond + Test(r, l + 1);
    Assoc(b2, body + update, tail);
    Assoc(b2, body, update);
    assert tail == [Jmp(l)] + [Label(l + 1)];
    Assoc(b2 + body + update, [Jmp(l)], [Label(l + 1)]);
  }

  lemma CallAppended(base: seq<Instr>, f: string, n: nat, v: nat)
    ensures base + CallTail(f, n, v) ==
      base + [Invoke(f)] + (if n > 0 then [AddEsp(n * 4)] else []) + [Mov(VReg(v), At(PReg(Eax)))]
  {
  }
}
