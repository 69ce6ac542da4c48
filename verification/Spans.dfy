/** The live intervals that one pass over the code computes, and what they say of scoped code. */
module Spans {
  import opened Ast
  import opened Machine
  import opened Codegen
  import opened Liveness

  /** First and last position; both ends belong to the interval. */
  datatype Span = Span(start: nat, end: nat)

  predicate Overlap(a: Span, b: Span) {
    a.start <= b.end && b.start <= a.end
  }

  /** Seeing register `r` at position `i`. */
  function Touch(sp: map<nat, Span>, r: nat, i: nat): map<nat, Span> {
    if r in sp then sp[r := sp[r].(end := i)] else sp[r := Span(i, i)]
  }

  function TouchAll(sp: map<nat, Span>, ls: seq<Loc>, i: nat): map<nat, Span> {
    if ls == [] then sp else
    var l := ls[|ls| - 1];
    var sp1 := TouchAll(sp, ls[..|ls| - 1], i);
    if l.VReg? then Touch(sp1, l.id, i) else sp1
  }

  /** The operations whose first operand the analysis takes for a definition. */
  predicate IsDefinition(x: Instr) {
    x.Mov? || x.Neg? || (x.Op3? && (x.op.Add? || x.op.Sub? || x.op.Mul? || x.op.Div?))
  }

  function Max(a: nat, b: nat): nat { if a < b then b else a }

  function Redefine(sp: map<nat, Span>, x: Instr, i: nat): map<nat, Span> {
    if IsDefinition(x) && x.dst.VReg? then
      var r := x.dst.id;
      sp[r := Span(i, if r in sp then Max(sp[r].end, i) else i)]
    else sp
  }

  /** The intervals after the first `n` instructions. */
  function SpansUpTo(code: seq<Instr>, n: nat): map<nat, Span>
    requires n <= |code|
  {
    if n == 0 then map[] else
    Redefine(TouchAll(SpansUpTo(code, n - 1), Operands(code[n - 1]), n - 1), code[n - 1], n - 1)
  }

  lemma {:induction false} TouchAllEffect(sp: map<nat, Span>, ls: seq<Loc>, i: nat, r: nat)
    ensures var sp' := TouchAll(sp, ls, i);
      && (r in sp' <==> r in sp || VReg(r) in ls)
      && (r in sp' ==> sp'[r] == if VReg(r) in ls then Span(if r in sp then sp[r].start else i, i) else sp[r])
  {
    if ls != [] {
      TouchAllEffect(sp, ls[..|ls| - 1], i, r);
      assert ls == ls[..|ls| - 1] + [ls[|ls| - 1]];
    }
  }

  /** `r` is mentioned first at `s.start` and last at `s.end` among the first `n` instructions. */
  ghost predicate Covers(code: seq<Instr>, n: nat, r: nat, s: Span)
    requires n <= |code|
  {
    && s.start <= s.end < n
    && Defines(code[s.start], r) && Mentions(code[s.end], r)
    && forall i :: 0 <= i < n && Mentions(code[i], r) ==> s.start <= i <= s.end
  }

  ghost predicate Mentioned(code: seq<Instr>, n: nat, r: nat)
    requires n <= |code|
  {
    exists i :: 0 <= i < n && Mentions(code[i], r)
  }

  /** In scoped code the analysis finds, for each register that is mentioned, the span from its
      only definition to its last mention. */
  lemma {:induction false} SpansOfScoped(code: seq<Instr>, lo: nat, hi: nat, n: nat, r: nat)
    requires Scoped(code, lo, hi) && n <= |code|
    ensures var sp := SpansUpTo(code, n);
      (r in sp <==> Mentioned(code, n, r)) && (r in sp ==> Covers(code, n, r, sp[r]))
    decreases n
  {
    if n > 0 {
      SpansOfScoped(code, lo, hi, n - 1, r);
      var sp := SpansUpTo(code, n - 1);
      FirstMentionDefines(code, lo, hi, n - 1, r);
      NotDefinedAgain(code, lo, hi, n, r, sp);
      SpansStep(code, n, r, sp);
    }
  }

  lemma NotDefinedAgain(code: seq<Instr>, lo: nat, hi: nat, n: nat, r: nat, sp: map<nat, Span>)
    requires Scoped(code, lo, hi) && 0 < n <= |code| && (r in sp ==> Covers(code, n - 1, r, sp[r]))
    ensures r in sp ==> !Defines(code[n - 1], r)
  {
    hide Scoped;
    if r in sp {
      DefinedOnce(code, lo, hi, sp[r].start, n - 1, r);
    }
  }

  /** A register that was not mentioned before is not read. */
  lemma FirstMentionDefines(code: seq<Instr>, lo: nat, hi: nat, i: nat, r: nat)
    requires Scoped(code, lo, hi) && i < |code|
    ensures Mentions(code[i], r) ==> Defines(code[i], r) || Mentioned(code, i, r)
  {
    MentionIsReadOrDef(code[i], r);
    if Reads(code[i], VReg(r)) {
      assert DefinedIn(code[..i], r);
      var j :| 0 <= j < |code[..i]| && Defines(code[..i][j], r);
      MentionIsReadOrDef(code[j], r);
    }
  }

  lemma DefinedOnce(code: seq<Instr>, lo: nat, hi: nat, i: nat, j: nat, r: nat)
    requires Scoped(code, lo, hi) && i < j < |code| && Defines(code[i], r)
    ensures !Defines(code[j], r)
  {
  }

  /** One step of the analysis, for one register. */
  lemma SpansStep(code: seq<Instr>, n: nat, r: nat, sp: map<nat, Span>)
    requires 0 < n <= |code| && sp == SpansUpTo(code, n - 1)
    requires r in sp <==> Mentioned(code, n - 1, r)
    requires r in sp ==> Covers(code, n - 1, r, sp[r]) && !Defines(code[n - 1], r)
    requires Mentions(code[n - 1], r) ==> r in sp || Defines(code[n - 1], r)
    ensures var sp' := SpansUpTo(code, n);
      (r in sp' <==> Mentioned(code, n, r)) && (r in sp' ==> Covers(code, n, r, sp'[r]))
  {
    var x := code[n - 1];
    TouchAllEffect(sp, Operands(x), n - 1, r);
    MentionIsReadOrDef(x, r);
    var sp' := SpansUpTo(code, n);
    assert r in sp' <==> r in sp || Mentions(x, r);
    assert Mentioned(code, n, r) <==> Mentioned(code, n - 1, r) || Mentions(x, r);
    if r in sp {
      assert sp'[r] == if Mentions(x, r) then Span(sp[r].start, n - 1) else sp[r];
    } else if Mentions(x, r) {
      assert sp'[r] == Span(n - 1, n - 1);
    }
  }

  /** What register allocation relies on. */
  ghost predicate SafeSpans(code: seq<Instr>, sp: map<nat, Span>) {
    && (forall r :: r in sp ==> sp[r].start <= sp[r].end)
    && (forall i, r: nat :: 0 <= i < |code| && Reads(code[i], VReg(r)) ==> r in sp && sp[r].start < i <= sp[r].end)
    && (forall i, r: nat :: 0 <= i < |code| && Defines(code[i], r) ==> r in sp && sp[r].start == i)
    && (forall k, r :: 0 <= k < |code| && r in sp && Barrier(code[k]) ==> !(sp[r].start < k < sp[r].end))
    && (forall r :: r in sp ==> sp[r].end < |code| && Mentions(code[sp[r].end], r) && Mentions(code[sp[r].start], r))
  }

  /** Straight-line intervals are safe for scoped code, whatever its jumps: no interval has a
      label or a jump strictly inside it. */
  lemma ScopedIsSafe(code: seq<Instr>, lo: nat, hi: nat)
    requires Scoped(code, lo, hi)
    ensures SafeSpans(code, SpansUpTo(code, |code|))
  {
    hide Scoped, SpansUpTo, Mentions, Reads, Defines, Operands;
    var sp := SpansUpTo(code, |code|);
    forall r: nat | r in sp ensures sp[r].start <= sp[r].end < |code| && Mentions(code[sp[r].end], r) && Mentions(code[sp[r].start], r) {
      SpanEnds(code, lo, hi, r);
    }
    forall i, r: nat | 0 <= i < |code| && Reads(code[i], VReg(r)) ensures r in sp && sp[r].start < i <= sp[r].end {
      ReadIsInside(code, lo, hi, i, r);
    }
    forall i, r: nat | 0 <= i < |code| && Defines(code[i], r) ensures r in sp && sp[r].start == i {
      DefinitionStarts(code, lo, hi, i, r);
    }
    BarriersAreOutside(code, lo, hi);
  }

  lemma SpanEnds(code: seq<Instr>, lo: nat, hi: nat, r: nat)
    requires Scoped(code, lo, hi)
    ensures var sp := SpansUpTo(code, |code|);
      r in sp ==> sp[r].start <= sp[r].end < |code| && Mentions(code[sp[r].end], r) && Mentions(code[sp[r].start], r)
  {
    SpansOfScoped(code, lo, hi, |code|, r);
    var sp := SpansUpTo(code, |code|);
    if r in sp {
      MentionIsReadOrDef(code[sp[r].start], r);
    }
  }

  lemma BarriersAreOutside(code: seq<Instr>, lo: nat, hi: nat)
    requires Scoped(code, lo, hi)
    ensures var sp := SpansUpTo(code, |code|);
      forall k, r :: 0 <= k < |code| && r in sp && Barrier(code[k]) ==> !(sp[r].start < k < sp[r].end)
  {
    var sp := SpansUpTo(code, |code|);
    forall k, r | 0 <= k < |code| && r in sp && Barrier(code[k]) ensures !(sp[r].start < k < sp[r].end) {
      BarrierIsOutside(code, lo, hi, k, r);
    }
  }

  lemma BarrierIsOutside(code: seq<Instr>, lo: nat, hi: nat, k: nat, r: nat)
    requires Scoped(code, lo, hi) && k < |code| && Barrier(code[k])
    ensures var sp := SpansUpTo(code, |code|); r in sp ==> !(sp[r].start < k < sp[r].end)
  {
    var sp := SpansUpTo(code, |code|);
    SpansOfScoped(code, lo, hi, |code|, r);
    if r in sp {
      MentionIsReadOrDef(code[sp[r].start], r);
    }
  }

  lemma ReadIsInside(code: seq<Instr>, lo: nat, hi: nat, i: nat, r: nat)
    requires Scoped(code, lo, hi) && i < |code| && Reads(code[i], VReg(r))
    ensures var sp := SpansUpTo(code, |code|); r in sp && sp[r].start < i <= sp[r].end
  {
    MentionIsReadOrDef(code[i], r);
    SpansOfScoped(code, lo, hi, |code|, r);
    assert DefinedIn(code[..i], r);
    var j :| 0 <= j < |code[..i]| && Defines(code[..i][j], r);
    MentionIsReadOrDef(code[j], r);
  }

  lemma DefinitionStarts(code: seq<Instr>, lo: nat, hi: nat, i: nat, r: nat)
    requires Scoped(code, lo, hi) && i < |code| && Defines(code[i], r)
    ensures var sp := SpansUpTo(code, |code|); r in sp && sp[r].start == i
  {
    MentionIsReadOrDef(code[i], r);
    SpansOfScoped(code, lo, hi, |code|, r);
    var s := SpansUpTo(code, |code|)[r].start;
    if s < i {
      DefinedOnce(code, lo, hi, s, i, r);
    }
  }

  /** The register that an instruction defines has been seen among its operands. */
  lemma DestinationIsSeen(sp: map<nat, Span>, x: Instr, i: nat)
    ensures IsDefinition(x) && x.dst.VReg? ==> x.dst.id in TouchAll(sp, Operands(x), i)
  {
    if IsDefinition(x) && x.dst.VReg? {
      DestinationIsOperand(x);
      TouchAllEffect(sp, Operands(x), i, x.dst.id);
    }
  }

  // ----- the return register -----

  predicate Stops(x: Instr) {
    x.Ret? || x.Push? || x.Invoke? || x.AddEsp?
  }

  /** The return register is loaded right before a return and read right after a call; no other
      physical register or slot is named, and only variables are incremented. */
  ghost predicate EaxOk(code: seq<Instr>) {
    && (forall i :: 0 <= i < |code| && LoadsEax(code[i]) ==> i + 1 < |code| && code[i + 1].Ret?)
    && (forall i :: 0 <= i < |code| && ReadsEax(code[i]) ==> i > 0 && Stops(code[i - 1]))
    && (forall i, l :: 0 <= i < |code| && l in Operands(code[i]) ==>
          l.VReg? || l.Var? || (l == PReg(Eax) && (LoadsEax(code[i]) || ReadsEax(code[i]))))
    && (forall i :: 0 <= i < |code| && LoadsEax(code[i]) ==> !ReadsEax(code[i]))
    && (forall i :: 0 <= i < |code| && code[i].Inc? ==> code[i].dst.Var?)
  }

  predicate LoadsEax(x: Instr) {
    x.Mov? && x.dst == PReg(Eax)
  }

  predicate ReadsEax(x: Instr) {
    x.Mov? && x.src == At(PReg(Eax))
  }

  lemma EaxOkConcat(a: seq<Instr>, b: seq<Instr>)
    requires EaxOk(a) && EaxOk(b)
    ensures EaxOk(a + b)
  {
    var c := a + b;
    forall i | |a| <= i < |c| ensures c[i] == b[i - |a|] {
    }
  }

  lemma DestinationIsOperand(x: Instr)
    requires x.Mov? || x.Op3? || x.Neg?
    ensures x.dst in Operands(x)
  {
    if x.Mov? {
      OperandsOfMov(x);
    } else {
      assert Operands(x)[0] == x.dst;
    }
  }

  lemma OperandsOfMov(x: Instr)
    requires x.Mov?
    ensures x.dst in Operands(x) && (x.src.At? ==> x.src.loc in Operands(x))
  {
    match x
    case Mov(dst, At(l)) => assert Operands(x) == [dst, l];
    case Mov(dst, Imm(_)) => assert Operands(x) == [dst];
  }

  lemma EaxOkPlain(code: seq<Instr>)
    requires forall i, l :: 0 <= i < |code| && l in Operands(code[i]) ==> l.VReg? || l.Var?
    requires forall i :: 0 <= i < |code| && code[i].Inc? ==> code[i].dst.Var?
    ensures EaxOk(code)
  {
    forall i | 0 <= i < |code| ensures !LoadsEax(code[i]) && !ReadsEax(code[i]) {
      if code[i].Mov? {
        OperandsOfMov(code[i]);
        assert code[i].dst.VReg? || code[i].dst.Var?;
        assert code[i].src.At? ==> code[i].src.loc.VReg? || code[i].src.loc.Var?;
      }
    }
  }

  lemma {:induction false} ExprEaxOk(e: Expr, v: nat)
    ensures EaxOk(GenExpr(e, v).code)
    decreases e, 1
  {
    match e
    case Literal(_) => EaxOkPlain(GenExpr(e, v).code);
    case Identifier(_) => EaxOkPlain(GenExpr(e, v).code);
    case Increment(_) => EaxOkPlain(GenExpr(e, v).code);
    case Binary(op, l, r) =>
      ExprEaxOk(l, v);
      var a := GenExpr(l, v);
      ExprEaxOk(r, a.next);
      var b := GenExpr(r, a.next);
      EaxOkConcat(a.code, b.code);
      EaxOkPlain([Op3(op, VReg(b.next), VReg(a.result), VReg(b.result))]);
      EaxOkConcat(a.code + b.code, [Op3(op, VReg(b.next), VReg(a.result), VReg(b.result))]);
    case Not(x) =>
      ExprEaxOk(x, v);
      var a := GenExpr(x, v);
      EaxOkPlain([Neg(VReg(a.next), VReg(a.result))]);
      EaxOkConcat(a.code, [Neg(VReg(a.next), VReg(a.result))]);
    case Assign(y, x) => StoreEaxOk(y, x, v);
    case Call(f, args) => CallEaxOk(f, args, v);
  }

  lemma {:induction false} StoreEaxOk(y: string, x: Expr, v: nat)
    ensures var a := GenExpr(x, v); EaxOk(a.code + [Mov(Var(y), At(VReg(a.result)))])
    decreases x, 2
  {
    ExprEaxOk(x, v);
    var a := GenExpr(x, v);
    EaxOkPlain([Mov(Var(y), At(VReg(a.result)))]);
    EaxOkConcat(a.code, [Mov(Var(y), At(VReg(a.result)))]);
  }

  lemma {:induction false} ArgsEaxOk(args: seq<Expr>, v: nat)
    ensures EaxOk(GenArgs(args, v).code)
    decreases args, 0
  {
    if args != [] {
      ExprEaxOk(args[0], v);
      ArgsEaxOk(args[1..], GenExpr(args[0], v).next);
      EaxOkConcat(GenExpr(args[0], v).code, GenArgs(args[1..], GenExpr(args[0], v).next).code);
    }
  }

  lemma {:induction false} CallEaxOk(f: string, args: seq<Expr>, v: nat)
    ensures EaxOk(GenExpr(Call(f, args), v).code)
    decreases args, 1
  {
    hide EaxOk;
    var a := GenArgs(args, v);
    ArgsEaxOk(args, v);
    PushesNoControl(a.results);
    EaxOkPlain(Pushes(a.results));
    EaxOkConcat(a.code, Pushes(a.results));
    var tail := CallTail(f, |args|, a.next);
    TailEaxOk(f, |args|, a.next);
    EaxOkConcat(a.code + Pushes(a.results), tail);
  }

  lemma ReturnEaxOk(r: nat)
    ensures EaxOk([Mov(PReg(Eax), At(VReg(r))), Machine.Ret])
  {
  }

  lemma TailEaxOk(f: string, n: nat, v: nat)
    ensures EaxOk(CallTail(f, n, v))
  {
    var tail := CallTail(f, n, v);
    assert tail[0] == Invoke(f) && tail[|tail| - 1] == Mov(VReg(v), At(PReg(Eax))) && Stops(tail[|tail| - 2]);
  }

  lemma {:induction false} StmtEaxOk(s: Stmt, v: nat, l: nat)
    ensures EaxOk(GenStmt(s, v, l).code)
    decreases s, 1
  {
    hide GenExpr;
    match s
    case Block(ss) => AllEaxOk(ss, v, l);
    case Return(value) =>
      if value.Some? {
        var a := GenExpr(value.value, v);
        ExprEaxOk(value.value, v);
        ReturnEaxOk(a.result);
        EaxOkConcat(a.code, [Mov(PReg(Eax), At(VReg(a.result))), Machine.Ret]);
      }
    case Evaluate(e) => ExprEaxOk(e, v);
    case Declare(x, init) =>
      if init.Some? {
        StoreEaxOk(x, init.value, v);
      }
    case If(_, _, _) => IfEaxOk(s, v, l);
    case For(_, _, _, _) => ForEaxOk(s, v, l);
  }

  lemma {:induction false} AllEaxOk(ss: seq<Stmt>, v: nat, l: nat)
    ensures EaxOk(GenAll(ss, v, l).code)
    decreases ss, 0
  {
    if ss != [] {
      StmtEaxOk(ss[0], v, l);
      var a := GenStmt(ss[0], v, l);
      AllEaxOk(ss[1..], a.nextV, a.nextL);
      EaxOkConcat(a.code, GenAll(ss[1..], a.nextV, a.nextL).code);
    }
  }

  lemma {:induction false} IfEaxOk(s: Stmt, v: nat, l: nat)
    requires s.If?
    ensures EaxOk(GenIf(s, v, l).code)
    decreases s, 0
  {
    ExprEaxOk(s.cond, v);
    var a := GenExpr(s.cond, v);
    StmtEaxOk(s.thenBlock, a.next, l + 3);
    var b := GenStmt(s.thenBlock, a.next, l + 3);
    var tail: seq<Instr> := [];
    if s.elseBlock.Some? {
      StmtEaxOk(s.elseBlock.value, b.nextV, b.nextL);
      var g := GenStmt(s.elseBlock.value, b.nextV, b.nextL);
      EaxOkPlain([Label(l + 2)]);
      EaxOkConcat(g.code, [Label(l + 2)]);
      tail := g.code + [Label(l + 2)];
    }
    IfPiecesEaxOk(a.code, a.result, l, b.code, tail);
  }

  lemma IfPiecesEaxOk(cond: seq<Instr>, r: nat, l: nat, thenCode: seq<Instr>, tail: seq<Instr>)
    requires EaxOk(cond) && EaxOk(thenCode) && EaxOk(tail)
    ensures EaxOk(cond + (Test(r, l + 1) + ([Label(l)] + (thenCode + ([Jmp(l + 2), Label(l + 1)] + tail)))))
  {
    hide EaxOk;
    var mid := [Jmp(l + 2), Label(l + 1)];
    EaxOkPlain(mid);
    EaxOkConcat(mid, tail);
    EaxOkConcat(thenCode, mid + tail);
    EaxOkPlain([Label(l)]);
    EaxOkConcat([Label(l)], thenCode + (mid + tail));
    EaxOkPlain(Test(r, l + 1));
    EaxOkConcat(Test(r, l + 1), [Label(l)] + (thenCode + (mid + tail)));
    EaxOkConcat(cond, Test(r, l + 1) + ([Label(l)] + (thenCode + (mid + tail))));
  }

  lemma {:induction false} ForEaxOk(s: Stmt, v: nat, l: nat)
    requires s.For?
    ensures EaxOk(GenFor(s, v, l).code)
    decreases s, 0
  {
    StmtEaxOk(s.initStmt, v, l + 2);
    var i := GenStmt(s.initStmt, v, l + 2);
    ExprEaxOk(s.cond, i.nextV);
    var a := GenExpr(s.cond, i.nextV);
    StmtEaxOk(s.body, a.next, i.nextL);
    var b := GenStmt(s.body, a.next, i.nextL);
    StmtEaxOk(s.update, b.nextV, b.nextL);
    var u := GenStmt(s.update, b.nextV, b.nextL);
    EaxOkConcat(b.code, u.code);
    ForPiecesEaxOk(i.code, a.code, a.result, l, b.code + u.code);
  }

  lemma ForPiecesEaxOk(init: seq<Instr>, cond: seq<Instr>, r: nat, l: nat, body: seq<Instr>)
    requires EaxOk(init) && EaxOk(cond) && EaxOk(body)
    ensures EaxOk(ForCode(init, cond, r, l, body))
  {
    var tail := [Jmp(l), Label(l + 1)];
    EaxOkPlain(tail);
    EaxOkConcat(body, tail);
    EaxOkPlain(Test(r, l + 1));
    EaxOkConcat(Test(r, l + 1), body + tail);
    EaxOkConcat(cond, Test(r, l + 1) + (body + tail));
    EaxOkPlain([Label(l)]);
    EaxOkConcat([Label(l)], cond + (Test(r, l + 1) + (body + tail)));
    EaxOkConcat(init, [Label(l)] + (cond + (Test(r, l + 1) + (body + tail))));
  }
}
