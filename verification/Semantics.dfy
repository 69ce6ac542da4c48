/** What a source program means: a big-step evaluator over a store of variables. */
module Semantics {
  import opened Wrappers
  import opened Ast
  import opened Machine

  type Store = map<string, int>

  function Lookup(st: Store, x: string): int {
    if x in st then st[x] else 0
  }

  datatype EvalResult = Value(v: int, st: Store) | Stopped(why: Status, st: Store)

  datatype ArgsResult = Values(vs: seq<int>, st: Store) | StoppedArgs(why: Status, st: Store)

  /** `&&` and `||` are operators like any other here: both sides are always evaluated. */
  function Eval(m: Meaning, e: Expr, st: Store): EvalResult
    decreases e, 1
  {
    match e
    case Literal(text) => Value(m.literal(text), st)
    case Identifier(x) => Value(Lookup(st, x), st)
    case Binary(op, l, r) =>
      (match Eval(m, l, st)
       case Stopped(why, st1) => Stopped(why, st1)
       case Value(a, st1) =>
         (match Eval(m, r, st1)
          case Stopped(why, st2) => Stopped(why, st2)
          case Value(b, st2) =>
            (match m.binary(op, a, b)
             case None => Stopped(Trapped, st2)
             case Some(v) => Value(v, st2))))
    case Not(operand) =>
      (match Eval(m, operand, st)
       case Stopped(why, st1) => Stopped(why, st1)
       case Value(a, st1) => Value(m.negate(a), st1))
    case Increment(x) =>
      var v := m.increment(Lookup(st, x));
      Value(v, st[x := v])
    case Assign(x, r) =>
      (match Eval(m, r, st)
       case Stopped(why, st1) => Stopped(why, st1)
       case Value(a, st1) => Value(a, st1[x := a]))
    case Call(_, args) =>
      (match EvalArgs(m, args, st)
       case StoppedArgs(why, st1) => Stopped(why, st1)
       case Values(_, st1) => Stopped(Foreign, st1))
  }

  function EvalArgs(m: Meaning, args: seq<Expr>, st: Store): ArgsResult
    decreases args, 0
  {
    if args == [] then Values([], st) else
    match Eval(m, args[0], st)
    case Stopped(why, st1) => StoppedArgs(why, st1)
    case Value(v, st1) =>
      (match EvalArgs(m, args[1..], st1)
       case StoppedArgs(why, st2) => StoppedArgs(why, st2)
       case Values(vs, st2) => Values([v] + vs, st2))
  }

  /** `Abort` carries the reason the machine would give; `OutOfFuel` means that a loop was
      still going after as many iterations as there was fuel. */
  datatype Outcome =
    | Normal(st: Store)
    | Exited(st: Store, value: Option<int>)
    | Abort(why: Status, st: Store)
    | OutOfFuel

  /** `Intended` is the usual meaning of `if`. `AsCompiled` differs in one place: an `if`
      without `else` whose then-branch runs to its end stops with a lost jump, because the
      generator jumps to an end label that it only emits when there is an `else`. */
  datatype Dialect = Intended | AsCompiled

  function Exec(m: Meaning, d: Dialect, s: Stmt, st: Store, fuel: nat): Outcome
    decreases fuel, s, 1
  {
    match s
    case Block(ss) => ExecAll(m, d, ss, st, fuel)
    case Return(value) => Leave(m, value, st)
    case Evaluate(e) => Then(Eval(m, e, st))
    case Declare(x, init) => if init.None? then Normal(st) else Then(Eval(m, Assign(x, init.value), st))
    case If(_, _, _) => ExecIf(m, d, s, st, fuel)
    case For(_, _, _, _) => ExecFor(m, d, s, st, fuel)
  }

  function Then(r: EvalResult): Outcome {
    match r
    case Stopped(why, st) => Abort(why, st)
    case Value(_, st) => Normal(st)
  }

  function Leave(m: Meaning, value: Option<Expr>, st: Store): Outcome {
    if value.None? then Exited(st, None) else
    match Eval(m, value.value, st)
    case Stopped(why, st1) => Abort(why, st1)
    case Value(v, st1) => Exited(st1, Some(v))
  }

  function ExecIf(m: Meaning, d: Dialect, s: Stmt, st: Store, fuel: nat): Outcome
    requires s.If?
    decreases fuel, s, 0
  {
    match Eval(m, s.cond, st)
    case Stopped(why, st1) => Abort(why, st1)
    case Value(v, st1) =>
      if v != 0 then EndThen(d, s, Exec(m, d, s.thenBlock, st1, fuel))
      else if s.elseBlock.None? then Normal(st1)
      else Exec(m, d, s.elseBlock.value, st1, fuel)
  }

  /** What follows a then-block. */
  function EndThen(d: Dialect, s: Stmt, o: Outcome): Outcome
    requires s.If?
  {
    if o.Normal? && s.elseBlock.None? && d.AsCompiled? then Abort(LostJump, o.st) else o
  }

  function ExecFor(m: Meaning, d: Dialect, s: Stmt, st: Store, fuel: nat): Outcome
    requires s.For?
    decreases fuel, s, 0, 1
  {
    var o := Exec(m, d, s.initStmt, st, fuel);
    if o.Normal? then Loop(m, d, s, o.st, fuel) else o
  }

  function ExecAll(m: Meaning, d: Dialect, ss: seq<Stmt>, st: Store, fuel: nat): Outcome
    decreases fuel, ss, 0
  {
    if ss == [] then Normal(st) else
    var o := Exec(m, d, ss[0], st, fuel);
    if o.Normal? then ExecAll(m, d, ss[1..], o.st, fuel) else o
  }

  /** The iterations of a `for`, after its initialiser; one unit of fuel pays for one. */
  function Loop(m: Meaning, d: Dialect, s: Stmt, st: Store, fuel: nat): Outcome
    requires s.For?
    decreases fuel, s, 0, 0
  {
    match Eval(m, s.cond, st)
    case Stopped(why, st1) => Abort(why, st1)
    case Value(v, st1) =>
      if v == 0 then Normal(st1)
      else if fuel == 0 then OutOfFuel
      else
        var o := Iterate(m, d, s, st1, fuel);
        if o.Normal? then Loop(m, d, s, o.st, fuel - 1) else o
  }

  /** One iteration: the body, then the update. */
  function Iterate(m: Meaning, d: Dialect, s: Stmt, st: Store, fuel: nat): Outcome
    requires s.For? && fuel > 0
    decreases fuel - 1, s, 2
  {
    var o := Exec(m, d, s.body, st, fuel - 1);
    if o.Normal? then Exec(m, d, s.update, o.st, fuel - 1) else o
  }

  /** More fuel never changes an outcome that has been reached. */
  lemma {:induction false} FuelMonotone(m: Meaning, d: Dialect, s: Stmt, st: Store, fuel: nat, more: nat)
    requires fuel <= more
    ensures var o := Exec(m, d, s, st, fuel); o.OutOfFuel? || Exec(m, d, s, st, more) == o
    decreases fuel, s, 1
  {
    match s
    case Block(ss) => FuelMonotoneAll(m, d, ss, st, fuel, more);
    case If(c, t, els) =>
      var r := Eval(m, c, st);
      if r.Value? {
        FuelMonotone(m, d, t, r.st, fuel, more);
        if els.Some? {
          FuelMonotone(m, d, els.value, r.st, fuel, more);
        }
      }
    case For(init, _, _, _) =>
      FuelMonotone(m, d, init, st, fuel, more);
      var o := Exec(m, d, init, st, fuel);
      if o.Normal? {
        FuelMonotoneLoop(m, d, s, o.st, fuel, more);
      }
    case _ =>
  }

  lemma {:induction false} FuelMonotoneAll(m: Meaning, d: Dialect, ss: seq<Stmt>, st: Store, fuel: nat, more: nat)
    requires fuel <= more
    ensures var o := ExecAll(m, d, ss, st, fuel); o.OutOfFuel? || ExecAll(m, d, ss, st, more) == o
    decreases fuel, ss, 0
  {
    if ss != [] {
      FuelMonotone(m, d, ss[0], st, fuel, more);
      var o := Exec(m, d, ss[0], st, fuel);
      if o.Normal? {
        FuelMonotoneAll(m, d, ss[1..], o.st, fuel, more);
      }
    }
  }

  lemma {:induction false} FuelMonotoneLoop(m: Meaning, d: Dialect, s: Stmt, st: Store, fuel: nat, more: nat)
    requires fuel <= more && s.For?
    ensures var o := Loop(m, d, s, st, fuel); o.OutOfFuel? || Loop(m, d, s, st, more) == o
    decreases fuel, s, 0
  {
    var r := Eval(m, s.cond, st);
    if r.Value? && r.v != 0 && fuel > 0 {
      FuelMonotone(m, d, s.body, r.st, fuel - 1, more - 1);
      var o := Exec(m, d, s.body, r.st, fuel - 1);
      if o.Normal? {
        FuelMonotone(m, d, s.update, o.st, fuel - 1, more - 1);
        var o2 := Exec(m, d, s.update, o.st, fuel - 1);
        if o2.Normal? {
          FuelMonotoneLoop(m, d, s, o2.st, fuel - 1, more - 1);
        }
      }
    }
  }

  // ----- where the two dialects part -----

  /** In the intended execution, somewhere the then-block of an `if` without `else` runs to its end. */
  predicate FallsOut(m: Meaning, s: Stmt, st: Store, fuel: nat)
    decreases fuel, s, 1
  {
    match s
    case Block(ss) => FallsOutOfAll(m, ss, st, fuel)
    case If(c, t, els) =>
      var r := Eval(m, c, st);
      r.Value? &&
      (if r.v != 0 then FallsOut(m, t, r.st, fuel) || (els.None? && Exec(m, Intended, t, r.st, fuel).Normal?)
       else els.Some? && FallsOut(m, els.value, r.st, fuel))
    case For(init, _, _, _) =>
      var o := Exec(m, Intended, init, st, fuel);
      FallsOut(m, init, st, fuel) || (o.Normal? && FallsOutOfLoop(m, s, o.st, fuel))
    case _ => false
  }

  predicate FallsOutOfAll(m: Meaning, ss: seq<Stmt>, st: Store, fuel: nat)
    decreases fuel, ss, 0
  {
    ss != [] &&
    var o := Exec(m, Intended, ss[0], st, fuel);
    FallsOut(m, ss[0], st, fuel) || (o.Normal? && FallsOutOfAll(m, ss[1..], o.st, fuel))
  }

  predicate FallsOutOfLoop(m: Meaning, s: Stmt, st: Store, fuel: nat)
    requires s.For?
    decreases fuel, s, 0
  {
    var r := Eval(m, s.cond, st);
    r.Value? && r.v != 0 && fuel > 0 &&
    var o := Exec(m, Intended, s.body, r.st, fuel - 1);
    FallsOut(m, s.body, r.st, fuel - 1) ||
    (o.Normal? &&
     var o2 := Exec(m, Intended, s.update, o.st, fuel - 1);
     FallsOut(m, s.update, o.st, fuel - 1) || (o2.Normal? && FallsOutOfLoop(m, s, o2.st, fuel - 1)))
  }

  predicate LosesJump(o: Outcome) { o.Abort? && o.why == LostJump }

  /** The compiled meaning loses a jump exactly if the intended execution falls out of an `if` without
      `else`; otherwise the two are the same. */
  lemma {:induction false} LostIffFallsOut(m: Meaning, s: Stmt, st: Store, fuel: nat)
    ensures LosesJump(Exec(m, AsCompiled, s, st, fuel)) <==> FallsOut(m, s, st, fuel)
    ensures !FallsOut(m, s, st, fuel) ==> Exec(m, AsCompiled, s, st, fuel) == Exec(m, Intended, s, st, fuel)
    decreases fuel, s, 1
  {
    match s
    case Block(ss) => LostIffFallsOutOfAll(m, ss, st, fuel);
    case Return(value) => if value.Some? { EvalStops(m, value.value, st); }
    case Evaluate(e) => EvalStops(m, e, st);
    case Declare(_, init) => if init.Some? { EvalStops(m, init.value, st); }
    case If(c, t, els) =>
      EvalStops(m, c, st);
      var r := Eval(m, c, st);
      if r.Value? {
        LostIffFallsOut(m, t, r.st, fuel);
        if els.Some? {
          LostIffFallsOut(m, els.value, r.st, fuel);
        }
      }
    case For(init, _, _, _) =>
      LostIffFallsOut(m, init, st, fuel);
      var o := Exec(m, Intended, init, st, fuel);
      if o.Normal? && !FallsOut(m, init, st, fuel) {
        LostIffFallsOutOfLoop(m, s, o.st, fuel);
      }
  }

  lemma {:induction false} LostIffFallsOutOfAll(m: Meaning, ss: seq<Stmt>, st: Store, fuel: nat)
    ensures LosesJump(ExecAll(m, AsCompiled, ss, st, fuel)) <==> FallsOutOfAll(m, ss, st, fuel)
    ensures !FallsOutOfAll(m, ss, st, fuel) ==> ExecAll(m, AsCompiled, ss, st, fuel) == ExecAll(m, Intended, ss, st, fuel)
    decreases fuel, ss, 0
  {
    if ss != [] {
      LostIffFallsOut(m, ss[0], st, fuel);
      var o := Exec(m, Intended, ss[0], st, fuel);
      if o.Normal? && !FallsOut(m, ss[0], st, fuel) {
        LostIffFallsOutOfAll(m, ss[1..], o.st, fuel);
      }
    }
  }

  lemma {:induction false} LostIffFallsOutOfLoop(m: Meaning, s: Stmt, st: Store, fuel: nat)
    requires s.For?
    ensures LosesJump(Loop(m, AsCompiled, s, st, fuel)) <==> FallsOutOfLoop(m, s, st, fuel)
    ensures !FallsOutOfLoop(m, s, st, fuel) ==> Loop(m, AsCompiled, s, st, fuel) == Loop(m, Intended, s, st, fuel)
    decreases fuel, s, 0
  {
    EvalStops(m, s.cond, st);
    var r := Eval(m, s.cond, st);
    if r.Value? && r.v != 0 && fuel > 0 {
      LostIffFallsOut(m, s.body, r.st, fuel - 1);
      var o := Exec(m, Intended, s.body, r.st, fuel - 1);
      if o.Normal? && !FallsOut(m, s.body, r.st, fuel - 1) {
        LostIffFallsOut(m, s.update, o.st, fuel - 1);
        var o2 := Exec(m, Intended, s.update, o.st, fuel - 1);
        if o2.Normal? && !FallsOut(m, s.update, o.st, fuel - 1) {
          LostIffFallsOutOfLoop(m, s, o2.st, fuel - 1);
        }
      }
    }
  }

  // ----- why executions stop -----

  lemma {:induction false} EvalStops(m: Meaning, e: Expr, st: Store)
    ensures var r := Eval(m, e, st); r.Stopped? ==> r.why == Trapped || r.why == Foreign
    decreases e, 1
  {
    match e
    case Binary(_, l, r) =>
      EvalStops(m, l, st);
      var a := Eval(m, l, st);
      if a.Value? {
        EvalStops(m, r, a.st);
      }
    case Not(x) => EvalStops(m, x, st);
    case Assign(_, r) => EvalStops(m, r, st);
    case Call(_, args) => EvalArgsStops(m, args, st);
    case _ =>
  }

  lemma {:induction false} EvalArgsStops(m: Meaning, args: seq<Expr>, st: Store)
    ensures var r := EvalArgs(m, args, st); r.StoppedArgs? ==> r.why == Trapped || r.why == Foreign
    decreases args, 0
  {
    if args != [] {
      EvalStops(m, args[0], st);
      var a := Eval(m, args[0], st);
      if a.Value? {
        EvalArgsStops(m, args[1..], a.st);
      }
    }
  }

  lemma {:induction false} IntendedNeverLosesJump(m: Meaning, s: Stmt, st: Store, fuel: nat)
    ensures var o := Exec(m, Intended, s, st, fuel); o.Abort? ==> o.why == Trapped || o.why == Foreign
    decreases fuel, s, 1
  {
    match s
    case Block(ss) => IntendedNeverLosesJumpAll(m, ss, st, fuel);
    case Return(value) => if value.Some? { EvalStops(m, value.value, st); }
    case Evaluate(e) => EvalStops(m, e, st);
    case Declare(_, init) => if init.Some? { EvalStops(m, init.value, st); }
    case If(c, t, els) =>
      EvalStops(m, c, st);
      var r := Eval(m, c, st);
      if r.Value? {
        IntendedNeverLosesJump(m, t, r.st, fuel);
        if els.Some? {
          IntendedNeverLosesJump(m, els.value, r.st, fuel);
        }
      }
    case For(init, _, _, _) =>
      IntendedNeverLosesJump(m, init, st, fuel);
      var o := Exec(m, Intended, init, st, fuel);
      if o.Normal? {
        IntendedNeverLosesJumpLoop(m, s, o.st, fuel);
      }
  }

  lemma {:induction false} IntendedNeverLosesJumpAll(m: Meaning, ss: seq<Stmt>, st: Store, fuel: nat)
    ensures var o := ExecAll(m, Intended, ss, st, fuel); o.Abort? ==> o.why == Trapped || o.why == Foreign
    decreases fuel, ss, 0
  {
    if ss != [] {
      IntendedNeverLosesJump(m, ss[0], st, fuel);
      var o := Exec(m, Intended, ss[0], st, fuel);
      if o.Normal? {
        IntendedNeverLosesJumpAll(m, ss[1..], o.st, fuel);
      }
    }
  }

  lemma {:induction false} IntendedNeverLosesJumpLoop(m: Meaning, s: Stmt, st: Store, fuel: nat)
    requires s.For?
    ensures var o := Loop(m, Intended, s, st, fuel); o.Abort? ==> o.why == Trapped || o.why == Foreign
    decreases fuel, s, 0
  {
    EvalStops(m, s.cond, st);
    var r := Eval(m, s.cond, st);
    if r.Value? && r.v != 0 && fuel > 0 {
      IntendedNeverLosesJump(m, s.body, r.st, fuel - 1);
      var o := Exec(m, Intended, s.body, r.st, fuel - 1);
      if o.Normal? {
        IntendedNeverLosesJump(m, s.update, o.st, fuel - 1);
        var o2 := Exec(m, Intended, s.update, o.st, fuel - 1);
        if o2.Normal? {
          IntendedNeverLosesJumpLoop(m, s, o2.st, fuel - 1);
        }
      }
    }
  }
}
