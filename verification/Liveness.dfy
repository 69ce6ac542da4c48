/** Live intervals, and why they are safe for the generated code although that code jumps. */
module Liveness {
  import opened Ast
  import opened Machine
  import opened Codegen

  // ----- what an instruction touches -----

  /** The operands that name a location, in the order in which the instruction lists them. */
  function Operands(i: Instr): seq<Loc> {
    match i
    case Mov(dst, At(src)) => [dst, src]
    case Mov(dst, Imm(_)) => [dst]
    case Op3(_, dst, a, b) => [dst, a, b]
    case Neg(dst, a) => [dst, a]
    case Inc(dst) => [dst]
    case Cmp(a) => [a]
    case Push(a) => [a]
    case _ => []
  }

  predicate Mentions(i: Instr, r: nat) {
    VReg(r) in Operands(i)
  }

  predicate Defines(i: Instr, r: nat) {
    (i.Mov? || i.Op3? || i.Neg?) && i.dst == VReg(r)
  }

  predicate Reads(i: Instr, l: Loc) {
    match i
    case Mov(_, At(src)) => l == src
    case Op3(_, _, a, b) => l == a || l == b
    case Neg(_, a) => l == a
    case Inc(dst) => l == dst
    case Cmp(a) => l == a
    case Push(a) => l == a
    case _ => false
  }

  /** Control transfers, labels, and loads of the return register. */
  predicate Barrier(i: Instr) {
    i.Je? || i.Jmp? || i.Label? || i.Ret? || (i.Mov? && i.dst.PReg?)
  }

  // ----- well-scoped code -----

  ghost predicate DefinedIn(code: seq<Instr>, r: nat) {
    exists j :: 0 <= j < |code| && Defines(code[j], r)
  }

  /** The registers of `code` are numbered in [lo, hi), each is defined at most once and before
      it is read, and none is mentioned on both sides of a barrier. */
  ghost predicate Scoped(code: seq<Instr>, lo: nat, hi: nat) {
    && lo <= hi
    && (forall i, r: nat :: 0 <= i < |code| && Mentions(code[i], r) ==> lo <= r < hi)
    && (forall i, r: nat :: 0 <= i < |code| && Reads(code[i], VReg(r)) ==> DefinedIn(code[..i], r))
    && (forall i, j, r: nat :: 0 <= i < j < |code| && Defines(code[i], r) ==> !Defines(code[j], r))
    && (forall i, k, j, r: nat :: 0 <= i < k < j < |code| && Barrier(code[k]) && Mentions(code[i], r) ==> !Mentions(code[j], r))
  }

  ghost predicate NoBarrier(code: seq<Instr>) {
    forall k :: 0 <= k < |code| ==> !Barrier(code[k])
  }

  lemma MentionIsReadOrDef(i: Instr, r: nat)
    ensures Mentions(i, r) <==> Reads(i, VReg(r)) || Defines(i, r)
  {
  }

  lemma DefinedConcat(a: seq<Instr>, b: seq<Instr>, r: nat)
    ensures DefinedIn(a, r) || DefinedIn(b, r) ==> DefinedIn(a + b, r)
  {
    if DefinedIn(a, r) {
      var j :| 0 <= j < |a| && Defines(a[j], r);
      assert (a + b)[j] == a[j];
    }
    if DefinedIn(b, r) {
      var j :| 0 <= j < |b| && Defines(b[j], r);
      assert (a + b)[|a| + j] == b[j];
    }
  }

  lemma ScopedReads(a: seq<Instr>, b: seq<Instr>, lo: nat, mid: nat, hi: nat, i: nat, r: nat)
    requires Scoped(a, lo, mid) && Scoped(b, mid, hi) && i < |a + b| && Reads((a + b)[i], VReg(r))
    ensures DefinedIn((a + b)[..i], r)
  {
    if i < |a| {
      assert (a + b)[..i] == a[..i];
    } else {
      assert (a + b)[i] == b[i - |a|];
      assert DefinedIn(b[..i - |a|], r);
      assert (a + b)[..i] == a + b[..i - |a|];
      DefinedConcat(a, b[..i - |a|], r);
    }
  }

  lemma ScopedConcat(a: seq<Instr>, b: seq<Instr>, lo: nat, mid: nat, hi: nat)
    requires Scoped(a, lo, mid) && Scoped(b, mid, hi)
    ensures Scoped(a + b, lo, hi)
  {
    var c := a + b;
    forall i, r: nat | 0 <= i < |c| && Reads(c[i], VReg(r)) ensures DefinedIn(c[..i], r) {
      ScopedReads(a, b, lo, mid, hi, i, r);
    }
    forall i, j, r: nat | 0 <= i < j < |c| && Defines(c[i], r) ensures !Defines(c[j], r) {
      MentionIsReadOrDef(c[i], r);
      MentionIsReadOrDef(c[j], r);
      assert i >= |a| ==> c[i] == b[i - |a|];
      assert j >= |a| ==> c[j] == b[j - |a|];
    }
    forall i, k, j, r: nat | 0 <= i < k < j < |c| && Barrier(c[k]) && Mentions(c[i], r) ensures !Mentions(c[j], r) {
      assert i >= |a| ==> c[i] == b[i - |a|];
      assert j >= |a| ==> c[j] == b[j - |a|];
      assert k >= |a| ==> c[k] == b[k - |a|];
    }
  }

  /** Appending one instruction that reads registers the code defines and may define the next. */
  lemma ScopedAppend(a: seq<Instr>, lo: nat, hi: nat, x: Instr, hi': nat)
    requires Scoped(a, lo, hi) && NoBarrier(a) && hi <= hi' <= hi + 1
    requires forall r: nat :: Reads(x, VReg(r)) ==> DefinedIn(a, r)
    requires forall r: nat :: Defines(x, r) ==> r == hi && hi' == hi + 1
    ensures Scoped(a + [x], lo, hi')
  {
    var c := a + [x];
    forall i, r: nat | 0 <= i < |c| && Mentions(c[i], r) ensures lo <= r < hi' {
      MentionIsReadOrDef(c[i], r);
      if i == |a| && Reads(x, VReg(r)) {
        var j :| 0 <= j < |a| && Defines(a[j], r);
        MentionIsReadOrDef(a[j], r);
      }
    }
    forall i, r: nat | 0 <= i < |c| && Reads(c[i], VReg(r)) ensures DefinedIn(c[..i], r) {
      assert c[..i] == a[..i];
      assert i == |a| ==> a[..i] == a;
    }
    forall i, j, r: nat | 0 <= i < j < |c| && Defines(c[i], r) ensures !Defines(c[j], r) {
      MentionIsReadOrDef(c[i], r);
    }
  }

  // ----- the generated code is well scoped -----

  lemma {:induction false} ExprScoped(e: Expr, v: nat)
    ensures var g := GenExpr(e, v);
      Scoped(g.code, v, g.next) && NoBarrier(g.code) && DefinedIn(g.code, g.result)
    decreases e, 1
  {
    match e
    case Literal(t) => FirstDef(Mov(VReg(v), Imm(t)), v);
    case Identifier(x) => FirstDef(Mov(VReg(v), At(Var(x))), v);
    case Increment(x) => IncrementScoped(x, v);
    case Binary(op, l, r) =>
      ExprScoped(l, v);
      var a := GenExpr(l, v);
      ExprScoped(r, a.next);
      BinaryScoped(op, a, GenExpr(r, a.next), v);
    case Not(x) =>
      ExprScoped(x, v);
      var a := GenExpr(x, v);
      ExtendDef(a.code, v, a.next, Neg(VReg(a.next), VReg(a.result)), a.next + 1, a.next);
    case Assign(y, x) =>
      ExprScoped(x, v);
      var a := GenExpr(x, v);
      ExtendDef(a.code, v, a.next, Mov(Var(y), At(VReg(a.result))), a.next, a.result);
    case Call(f, args) => CallScoped(f, args, v);
  }

  lemma IncrementScoped(x: string, v: nat)
    ensures var g := GenExpr(Increment(x), v);
      Scoped(g.code, v, g.next) && NoBarrier(g.code) && DefinedIn(g.code, g.result)
  {
    var load := Mov(VReg(v), At(Var(x)));
    var again := Mov(VReg(v + 1), At(Var(x)));
    FirstDef(load, v);
    ExtendDef([load], v, v + 1, Inc(Var(x)), v + 1, v);
    ExtendDef([load] + [Inc(Var(x))], v, v + 1, again, v + 2, v + 1);
    assert [load, Inc(Var(x)), again] == [load] + [Inc(Var(x))] + [again];
  }

  lemma BinaryScoped(op: BinOp, a: ExprCode, b: ExprCode, v: nat)
    requires Scoped(a.code, v, a.next) && NoBarrier(a.code) && DefinedIn(a.code, a.result)
    requires Scoped(b.code, a.next, b.next) && NoBarrier(b.code) && DefinedIn(b.code, b.result)
    ensures var code := a.code + b.code + [Op3(op, VReg(b.next), VReg(a.result), VReg(b.result))];
      Scoped(code, v, b.next + 1) && NoBarrier(code) && DefinedIn(code, b.next)
  {
    ScopedConcat(a.code, b.code, v, a.next, b.next);
    DefinedConcat(a.code, b.code, a.result);
    DefinedConcat(a.code, b.code, b.result);
    ExtendDef(a.code + b.code, v, b.next, Op3(op, VReg(b.next), VReg(a.result), VReg(b.result)), b.next + 1, b.next);
  }

  lemma FirstDef(x: Instr, v: nat)
    requires forall r: nat :: !Reads(x, VReg(r))
    requires Defines(x, v) && !Barrier(x)
    ensures Scoped([x], v, v + 1) && NoBarrier([x]) && DefinedIn([x], v)
  {
    forall r: nat | Mentions(x, r) ensures r == v {
      MentionIsReadOrDef(x, r);
    }
    assert [x][0] == x;
  }

  /** ScopedAppend, together with what it means for barriers and for register `w`. */
  lemma ExtendDef(a: seq<Instr>, lo: nat, hi: nat, x: Instr, hi': nat, w: nat)
    requires Scoped(a, lo, hi) && NoBarrier(a) && hi <= hi' <= hi + 1 && !Barrier(x)
    requires forall r: nat :: Reads(x, VReg(r)) ==> DefinedIn(a, r)
    requires forall r: nat :: Defines(x, r) ==> r == hi && hi' == hi + 1
    requires DefinedIn(a, w) || Defines(x, w)
    ensures Scoped(a + [x], lo, hi') && NoBarrier(a + [x]) && DefinedIn(a + [x], w)
  {
    ScopedAppend(a, lo, hi, x, hi');
    assert [x][0] == x;
    DefinedConcat(a, [x], w);
  }

  lemma {:induction false} ArgsScoped(args: seq<Expr>, v: nat)
    ensures var g := GenArgs(args, v);
      Scoped(g.code, v, g.next) && NoBarrier(g.code) && forall k :: 0 <= k < |g.results| ==> DefinedIn(g.code, g.results[k])
    decreases args, 0
  {
    if args != [] {
      ExprScoped(args[0], v);
      var a := GenExpr(args[0], v);
      ArgsScoped(args[1..], a.next);
      var rest := GenArgs(args[1..], a.next);
      ScopedConcat(a.code, rest.code, v, a.next, rest.next);
      var g := GenArgs(args, v);
      forall k | 0 <= k < |g.results| ensures DefinedIn(g.code, g.results[k]) {
        DefinedConcat(a.code, rest.code, g.results[k]);
      }
    }
  }

  lemma {:induction false} PushesScoped(a: seq<Instr>, lo: nat, hi: nat, results: seq<nat>)
    requires Scoped(a, lo, hi) && NoBarrier(a)
    requires forall k :: 0 <= k < |results| ==> DefinedIn(a, results[k])
    ensures Scoped(a + Pushes(results), lo, hi) && NoBarrier(a + Pushes(results))
    ensures forall r: nat :: DefinedIn(a, r) ==> DefinedIn(a + Pushes(results), r)
  {
    if results == [] {
      assert a + Pushes(results) == a;
    } else {
      PushesScoped(a, lo, hi, results[1..]);
      var c := a + Pushes(results[1..]);
      ExtendDef(c, lo, hi, Push(VReg(results[0])), hi, results[0]);
      assert a + Pushes(results) == c + [Push(VReg(results[0]))];
      forall r: nat | DefinedIn(a, r) ensures DefinedIn(a + Pushes(results), r) {
        DefinedConcat(c, [Push(VReg(results[0]))], r);
      }
    }
  }

  lemma {:induction false} CallScoped(f: string, args: seq<Expr>, v: nat)
    ensures var g := GenExpr(Call(f, args), v);
      Scoped(g.code, v, g.next) && NoBarrier(g.code) && DefinedIn(g.code, g.result)
    decreases args, 1
  {
    hide Scoped, DefinedIn, GenArgs;
    ArgsScoped(args, v);
    var a := GenArgs(args, v);
    PushesScoped(a.code, v, a.next, a.results);
    var n := |args|;
    var tail := [Invoke(f)] + (if n > 0 then [AddEsp(n * 4)] else []);
    ControlScoped(tail, a.next);
    assert NoBarrier(tail);
    var c := a.code + Pushes(a.results);
    ScopedConcat(c, tail, v, a.next, a.next);
    assert Scoped(c + tail, v, a.next) && NoBarrier(c + tail);
    ExtendDef(c + tail, v, a.next, Mov(VReg(a.next), At(PReg(Eax))), a.next + 1, a.next);
    assert GenExpr(Call(f, args), v).code == c + tail + [Mov(VReg(a.next), At(PReg(Eax)))];
  }

  /** An expression's code followed by its test. */
  lemma TestScoped(e: Expr, v: nat, l: nat)
    ensures var a := GenExpr(e, v); Scoped(a.code + Test(a.result, l), v, a.next)
  {
    hide GenExpr;
    ExprScoped(e, v);
    var a := GenExpr(e, v);
    ExtendDef(a.code, v, a.next, Cmp(VReg(a.result)), a.next, a.result);
    ScopedAppend(a.code + [Cmp(VReg(a.result))], v, a.next, Je(l), a.next);
    assert a.code + Test(a.result, l) == a.code + [Cmp(VReg(a.result))] + [Je(l)];
  }

  lemma ControlScoped(code: seq<Instr>, v: nat)
    requires forall i, r: nat :: 0 <= i < |code| ==> !Mentions(code[i], r)
    ensures Scoped(code, v, v)
  {
    forall i, r: nat | 0 <= i < |code| ensures !Reads(code[i], VReg(r)) && !Defines(code[i], r) {
      MentionIsReadOrDef(code[i], r);
    }
  }

  lemma {:induction false} StmtScoped(s: Stmt, v: nat, l: nat)
    ensures var g := GenStmt(s, v, l); Scoped(g.code, v, g.nextV)
    decreases s, 1
  {
    match s
    case Block(ss) => AllScoped(ss, v, l);
    case Return(value) =>
      if value.Some? {
        ExprScoped(value.value, v);
        var a := GenExpr(value.value, v);
        var mov := Mov(PReg(Eax), At(VReg(a.result)));
        ScopedAppend(a.code, v, a.next, mov, a.next);
        ControlScoped([Machine.Ret], a.next);
        ScopedConcat(a.code + [mov], [Machine.Ret], v, a.next, a.next);
        assert a.code + [mov, Machine.Ret] == a.code + [mov] + [Machine.Ret];
      } else {
        ControlScoped([Machine.Ret], v);
      }
    case Evaluate(e) => ExprScoped(e, v);
    case Declare(x, init) =>
      if init.Some? {
        ExprScoped(init.value, v);
        var a := GenExpr(init.value, v);
        ScopedAppend(a.code, v, a.next, Mov(Var(x), At(VReg(a.result))), a.next);
      } else {
        ControlScoped([Nop(x)], v);
      }
    case If(_, _, _) => IfScoped(s, v, l);
    case For(_, _, _, _) => ForScoped(s, v, l);
  }

  lemma {:induction false} AllScoped(ss: seq<Stmt>, v: nat, l: nat)
    ensures var g := GenAll(ss, v, l); Scoped(g.code, v, g.nextV)
    decreases ss, 0
  {
    if ss != [] {
      StmtScoped(ss[0], v, l);
      var a := GenStmt(ss[0], v, l);
      AllScoped(ss[1..], a.nextV, a.nextL);
      ScopedConcat(a.code, GenAll(ss[1..], a.nextV, a.nextL).code, v, a.nextV, GenAll(ss, v, l).nextV);
    }
  }

  lemma {:induction false} IfScoped(s: Stmt, v: nat, l: nat)
    requires s.If?
    ensures var g := GenIf(s, v, l); Scoped(g.code, v, g.nextV)
    decreases s, 0
  {
    var a := GenExpr(s.cond, v);
    TestScoped(s.cond, v, l + 1);
    StmtScoped(s.thenBlock, a.next, l + 3);
    var b := GenStmt(s.thenBlock, a.next, l + 3);
    if s.elseBlock.Some? {
      StmtScoped(s.elseBlock.value, b.nextV, b.nextL);
      var g := GenStmt(s.elseBlock.value, b.nextV, b.nextL);
      ControlScoped([Label(l + 2)], g.nextV);
      ScopedConcat(g.code, [Label(l + 2)], b.nextV, g.nextV, g.nextV);
      IfPiecesScoped(a.code, a.result, l, b.code, g.code + [Label(l + 2)], v, a.next, b.nextV, g.nextV);
    } else {
      IfPiecesScoped(a.code, a.result, l, b.code, [], v, a.next, b.nextV, b.nextV);
    }
  }

  lemma IfPiecesScoped(cond: seq<Instr>, r: nat, l: nat, thenCode: seq<Instr>, tail: seq<Instr>, v0: nat, v1: nat, v2: nat, v3: nat)
    requires Scoped(cond + Test(r, l + 1), v0, v1) && Scoped(thenCode, v1, v2) && Scoped(tail, v2, v3)
    ensures Scoped(cond + (Test(r, l + 1) + ([Label(l)] + (thenCode + ([Jmp(l + 2), Label(l + 1)] + tail)))), v0, v3)
  {
    var mid := [Jmp(l + 2), Label(l + 1)];
    ControlScoped([Label(l)], v1);
    ControlScoped(mid, v2);
    ScopedConcat(mid, tail, v2, v2, v3);
    ScopedConcat(thenCode, mid + tail, v1, v2, v3);
    ScopedConcat([Label(l)], thenCode + (mid + tail), v1, v1, v3);
    var rest := [Label(l)] + (thenCode + (mid + tail));
    ScopedConcat(cond + Test(r, l + 1), rest, v0, v1, v3);
    assert cond + Test(r, l + 1) + rest == cond + (Test(r, l + 1) + rest);
  }

  lemma {:induction false} ForScoped(s: Stmt, v: nat, l: nat)
    requires s.For?
    ensures var g := GenFor(s, v, l); Scoped(g.code, v, g.nextV)
    decreases s, 0
  {
    StmtScoped(s.initStmt, v, l + 2);
    var i := GenStmt(s.initStmt, v, l + 2);
    TestScoped(s.cond, i.nextV, l + 1);
    var a := GenExpr(s.cond, i.nextV);
    StmtScoped(s.body, a.next, i.nextL);
    var b := GenStmt(s.body, a.next, i.nextL);
    StmtScoped(s.update, b.nextV, b.nextL);
    var u := GenStmt(s.update, b.nextV, b.nextL);
    ScopedConcat(b.code, u.code, a.next, b.nextV, u.nextV);
    ForPiecesScoped(i.code, a.code, a.result, l, b.code + u.code, v, i.nextV, a.next, u.nextV);
  }

  lemma ForPiecesScoped(init: seq<Instr>, cond: seq<Instr>, r: nat, l: nat, body: seq<Instr>, v0: nat, v1: nat, v2: nat, v3: nat)
    requires Scoped(init, v0, v1) && Scoped(cond + Test(r, l + 1), v1, v2) && Scoped(body, v2, v3)
    ensures Scoped(ForCode(init, cond, r, l, body), v0, v3)
  {
    var tail := [Jmp(l), Label(l + 1)];
    ControlScoped([Label(l)], v1);
    ControlScoped(tail, v3);
    ScopedConcat(body, tail, v2, v3, v3);
    ScopedConcat(cond + Test(r, l + 1), body + tail, v1, v2, v3);
    assert cond + Test(r, l + 1) + (body + tail) == cond + (Test(r, l + 1) + (body + tail));
    ScopedConcat([Label(l)], cond + (Test(r, l + 1) + (body + tail)), v1, v1, v3);
    ScopedConcat(init, [Label(l)] + (cond + (Test(r, l + 1) + (body + tail))), v0, v1, v3);
  }
}
