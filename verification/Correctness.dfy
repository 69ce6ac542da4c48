/** Compilation from end to end: generated, allocated and rewritten code against the source. */
module Correctness {
  import opened Wrappers
  import opened Ast
  import opened Machine
  import opened Semantics
  import opened Codegen
  import opened ExprSimulation
  import opened Simulation
  import opened Liveness
  import opened Spans
  import opened Allocation

  /** How a run of `n` steps of a whole program answers the source's outcome. */
  ghost predicate Matches(o: Outcome, c: Config, n: nat, fuel: nat) {
    match o
    case Normal(st) => c.status == Finished && Agrees(st, c.st.mem)
    case Exited(st, value) =>
      c.status == Returned && Agrees(st, c.st.mem) && (value.Some? ==> Get(c.st.mem, PReg(Eax)) == value.value)
    case Abort(why, st) => c.status == why && Agrees(st, c.st.mem)
    case OutOfFuel => c.status == Running && n >= fuel
  }

  /** For every meaning of the operators, every initial store and every memory that holds it,
      the program ends as the source does, and runs on as long as the source does. */
  ghost predicate Implements(prog: seq<Instr>, body: Stmt) {
    forall m: Meaning, st: Store, s: State, fuel: nat :: s.pc == 0 && Agrees(st, s.mem) ==> Answers(m, prog, body, st, s, fuel)
  }

  /** Some number of steps brings the program to the end that the outcome calls for. */
  ghost predicate Answers(m: Meaning, prog: seq<Instr>, body: Stmt, st: Store, s: State, fuel: nat) {
    exists n :: Matches(Exec(m, AsCompiled, body, st, fuel), Run(m, prog, Config(s, Running), n), n, fuel)
  }

  function VirtualCode(body: Stmt): seq<Instr> {
    GenStmt(body, 0, 0).code
  }

  ghost predicate SoundFor(p: Placement, body: Stmt) {
    Sound(p, SpansUpTo(VirtualCode(body), |VirtualCode(body)|))
  }

  lemma {:induction false} RunVirtual(m: Meaning, body: Stmt, st: Store, s: State, fuel: nat) returns (n: nat)
    requires s.pc == 0 && Agrees(st, s.mem)
    ensures StmtDone(VirtualCode(body), Exec(m, AsCompiled, body, st, fuel),
                     Run(m, VirtualCode(body), Config(s, Running), n), n, fuel, |VirtualCode(body)|)
  {
    GenStmtLabelsOk(body, 0, 0);
    CodeAtIsSlice(VirtualCode(body), 0, VirtualCode(body));
    n := SimStmt(m, VirtualCode(body), Lost(body, 0, 0), body, 0, 0, st, s, fuel);
  }

  /** The code as generated, still over virtual registers. */
  lemma {:induction false} VirtualImplements(body: Stmt)
    ensures Implements(VirtualCode(body), body)
  {
    var prog := VirtualCode(body);
    forall m: Meaning, st: Store, s: State, fuel: nat | s.pc == 0 && Agrees(st, s.mem)
      ensures Answers(m, prog, body, st, s, fuel)
    {
      var n := RunVirtual(m, body, st, s, fuel);
      RunToEnd(m, prog, body, st, s, fuel, n);
    }
  }

  /** A run that has reached the end of the program stops there. */
  lemma RunToEnd(m: Meaning, prog: seq<Instr>, body: Stmt, st: Store, s: State, fuel: nat, n: nat)
    requires StmtDone(prog, Exec(m, AsCompiled, body, st, fuel), Run(m, prog, Config(s, Running), n), n, fuel, |prog|)
    ensures Answers(m, prog, body, st, s, fuel)
  {
    var o := Exec(m, AsCompiled, body, st, fuel);
    if o.Normal? {
      RunOneMore(m, prog, Config(s, Running), n);
      assert Matches(o, Run(m, prog, Config(s, Running), n + 1), n + 1, fuel);
    } else {
      assert Matches(o, Run(m, prog, Config(s, Running), n), n, fuel);
    }
  }

  /** The code after register allocation, for every sound placement. */
  lemma {:induction false} RewrittenImplements(body: Stmt, p: Placement)
    requires SoundFor(p, body)
    ensures Implements(RewriteAll(p, VirtualCode(body)), body)
  {
    var code := VirtualCode(body);
    var prog := RewriteAll(p, code);
    StmtScoped(body, 0, 0);
    ScopedIsSafe(code, 0, GenStmt(body, 0, 0).nextV);
    StmtEaxOk(body, 0, 0);
    forall m: Meaning, st: Store, s: State, fuel: nat | s.pc == 0 && Agrees(st, s.mem)
      ensures Answers(m, prog, body, st, s, fuel)
    {
      RunRewritten(m, body, p, st, s, fuel);
    }
  }

  lemma {:induction false} RunRewritten(m: Meaning, body: Stmt, p: Placement, st: Store, s: State, fuel: nat)
    requires Ready(VirtualCode(body), p, SpansUpTo(VirtualCode(body), |VirtualCode(body)|))
    requires s.pc == 0 && Agrees(st, s.mem)
    ensures Answers(m, RewriteAll(p, VirtualCode(body)), body, st, s, fuel)
  {
    var code := VirtualCode(body);
    var n := RunVirtual(m, body, st, s, fuel);
    RunsAlike(m, code, p, SpansUpTo(code, |code|), Config(s, Running), Config(s, Running), n);
    RewrittenDone(code, p, SpansUpTo(code, |code|), Exec(m, AsCompiled, body, st, fuel),
                  Run(m, code, Config(s, Running), n), Run(m, RewriteAll(p, code), Config(s, Running), n), n, fuel);
    RunToEnd(m, RewriteAll(p, code), body, st, s, fuel, n);
  }

  /** Machines that are alike answer alike. */
  lemma RewrittenDone(code: seq<Instr>, p: Placement, sp: map<nat, Span>, o: Outcome, c: Config, d: Config, n: nat, fuel: nat)
    requires Alike(code, p, sp, c, d) && StmtDone(code, o, c, n, fuel, |code|)
    ensures StmtDone(RewriteAll(p, code), o, d, n, fuel, |code|)
  {
    if o.Exited? && o.value.Some? {
      assert c.status == Returned;
      assert RewriteAll(p, code)[c.st.pc - 1] == Rewrite(p, code[c.st.pc - 1]);
    }
  }

  // ----- consequences -----

  /** If the source goes on for ever, so does the program. */
  lemma {:induction false} DivergesTogether(m: Meaning, prog: seq<Instr>, body: Stmt, st: Store, s: State, n: nat)
    requires Implements(prog, body) && s.pc == 0 && Agrees(st, s.mem)
    requires Exec(m, AsCompiled, body, st, n).OutOfFuel?
    ensures Run(m, prog, Config(s, Running), n).status == Running
  {
    assert Answers(m, prog, body, st, s, n);
    var k :| Matches(Exec(m, AsCompiled, body, st, n), Run(m, prog, Config(s, Running), k), k, n);
    RunningPrefix(m, prog, Config(s, Running), k, n);
  }

  /** Conversely, a program that stops after `n` steps does so because the source ends, within
      `n` loop iterations, in the way the program shows. */
  lemma {:induction false} StopsTogether(m: Meaning, prog: seq<Instr>, body: Stmt, st: Store, s: State, n: nat)
    requires Implements(prog, body) && s.pc == 0 && Agrees(st, s.mem)
    requires Run(m, prog, Config(s, Running), n).status != Running
    ensures var o := Exec(m, AsCompiled, body, st, n);
      !o.OutOfFuel? && Matches(o, Run(m, prog, Config(s, Running), n), n, n)
  {
    var c := Config(s, Running);
    var o := Exec(m, AsCompiled, body, st, n);
    assert Answers(m, prog, body, st, s, n);
    var k :| Matches(o, Run(m, prog, c, k), k, n);
    LostIffFallsOut(m, body, st, n);
    IntendedNeverLosesJump(m, body, st, n);
    if o.OutOfFuel? {
      RunningPrefix(m, prog, c, k, n);
    } else {
      SameEnd(m, prog, c, n, k);
    }
  }

  lemma {:induction false} SameEnd(m: Meaning, prog: seq<Instr>, c: Config, n: nat, k: nat)
    requires Run(m, prog, c, n).status != Running && Run(m, prog, c, k).status != Running
    ensures Run(m, prog, c, n) == Run(m, prog, c, k)
  {
    var lo, hi := if n < k then n else k, if n < k then k else n;
    RunAdd(m, prog, c, lo, hi - lo);
    RunStopped(m, prog, Run(m, prog, c, lo), hi - lo);
  }

  // ----- without fuel -----

  /** However long it takes, the execution comes to this end. */
  ghost predicate Ends(m: Meaning, body: Stmt, st: Store, o: Outcome) {
    !o.OutOfFuel? && exists fuel: nat :: Exec(m, AsCompiled, body, st, fuel) == o
  }

  ghost predicate Stops(m: Meaning, prog: seq<Instr>, s: State) {
    exists n: nat :: Run(m, prog, Config(s, Running), n).status != Running
  }

  lemma EndsOnce(m: Meaning, body: Stmt, st: Store, o: Outcome, fuel: nat)
    requires Ends(m, body, st, o) && !Exec(m, AsCompiled, body, st, fuel).OutOfFuel?
    ensures Exec(m, AsCompiled, body, st, fuel) == o
  {
    var f: nat :| Exec(m, AsCompiled, body, st, f) == o;
    FuelMonotone(m, AsCompiled, body, st, if f < fuel then f else fuel, if f < fuel then fuel else f);
  }

  /** A program stops exactly if the execution of the source comes to an end, and wherever it stops it
      shows that end, which is the only one. */
  lemma EndsTogether(m: Meaning, prog: seq<Instr>, body: Stmt, st: Store, s: State)
    requires Implements(prog, body) && s.pc == 0 && Agrees(st, s.mem)
    ensures Stops(m, prog, s) <==> exists o :: Ends(m, body, st, o)
    ensures forall n: nat, o {:trigger Run(m, prog, Config(s, Running), n), Ends(m, body, st, o)} ::
      Run(m, prog, Config(s, Running), n).status != Running && Ends(m, body, st, o) ==>
      Matches(o, Run(m, prog, Config(s, Running), n), n, n)
  {
    forall n: nat, o | Run(m, prog, Config(s, Running), n).status != Running && Ends(m, body, st, o)
      ensures Matches(o, Run(m, prog, Config(s, Running), n), n, n)
    {
      StopsTogether(m, prog, body, st, s, n);
      EndsOnce(m, body, st, o, n);
    }
    if n: nat :| Run(m, prog, Config(s, Running), n).status != Running {
      StopsTogether(m, prog, body, st, s, n);
      assert Ends(m, body, st, Exec(m, AsCompiled, body, st, n));
    }
    if o :| Ends(m, body, st, o) {
      var fuel: nat :| Exec(m, AsCompiled, body, st, fuel) == o;
      var n := EndIsReached(m, prog, body, st, s, fuel);
    }
  }

  /** An execution that ends is answered by a run that stops. */
  lemma EndIsReached(m: Meaning, prog: seq<Instr>, body: Stmt, st: Store, s: State, fuel: nat) returns (n: nat)
    requires Implements(prog, body) && s.pc == 0 && Agrees(st, s.mem) && !Exec(m, AsCompiled, body, st, fuel).OutOfFuel?
    ensures Run(m, prog, Config(s, Running), n).status != Running
    ensures Matches(Exec(m, AsCompiled, body, st, fuel), Run(m, prog, Config(s, Running), n), n, fuel)
  {
    assert Answers(m, prog, body, st, s, fuel);
    n :| Matches(Exec(m, AsCompiled, body, st, fuel), Run(m, prog, Config(s, Running), n), n, fuel);
    LostIffFallsOut(m, body, st, fuel);
    IntendedNeverLosesJump(m, body, st, fuel);
  }

  // ----- when a jump is lost -----

  /** A program that stops has kept to the intended meaning exactly if the intended execution does not
      fall out of an `if` without `else`; if it does, the program has lost a jump. */
  lemma IntendedUnlessLost(m: Meaning, prog: seq<Instr>, body: Stmt, st: Store, s: State, n: nat)
    requires Implements(prog, body) && s.pc == 0 && Agrees(st, s.mem)
    requires Run(m, prog, Config(s, Running), n).status != Running
    ensures var c := Run(m, prog, Config(s, Running), n);
      && (c.status == LostJump <==> FallsOut(m, body, st, n))
      && (Matches(Exec(m, Intended, body, st, n), c, n, n) <==> !FallsOut(m, body, st, n))
  {
    StopsTogether(m, prog, body, st, s, n);
    LostIffFallsOut(m, body, st, n);
    IntendedNeverLosesJump(m, body, st, n);
  }

  ghost predicate JumpsNowhere(m: Meaning, prog: seq<Instr>, s: State) {
    exists n: nat :: Run(m, prog, Config(s, Running), n).status == LostJump
  }

  /** A program loses a jump exactly if the intended execution, sooner or later, falls out of an `if`
      without `else`. */
  lemma LosesJumpIff(m: Meaning, prog: seq<Instr>, body: Stmt, st: Store, s: State)
    requires Implements(prog, body) && s.pc == 0 && Agrees(st, s.mem)
    ensures JumpsNowhere(m, prog, s) <==> exists fuel: nat :: FallsOut(m, body, st, fuel)
  {
    if n: nat :| Run(m, prog, Config(s, Running), n).status == LostJump {
      IntendedUnlessLost(m, prog, body, st, s, n);
    }
    if fuel: nat :| FallsOut(m, body, st, fuel) {
      FallingOutLosesJump(m, prog, body, st, s, fuel);
    }
  }

  lemma FallingOutLosesJump(m: Meaning, prog: seq<Instr>, body: Stmt, st: Store, s: State, fuel: nat)
    requires Implements(prog, body) && s.pc == 0 && Agrees(st, s.mem) && FallsOut(m, body, st, fuel)
    ensures JumpsNowhere(m, prog, s)
  {
    LostIffFallsOut(m, body, st, fuel);
    var n := EndIsReached(m, prog, body, st, s, fuel);
  }

  // ----- which programs never lose a jump -----

  /** Every path through the statement ends in a return. */
  predicate Leaves(s: Stmt) {
    match s
    case Block(ss) => exists i :: 0 <= i < |ss| && Leaves(ss[i])
    case Return(_) => true
    case If(_, t, els) => els.Some? && Leaves(t) && Leaves(els.value)
    case For(init, _, _, _) => Leaves(init)
    case _ => false
  }

  /** Every if has an else, or its then-block always returns. */
  predicate Guarded(s: Stmt) {
    match s
    case Block(ss) => forall i :: 0 <= i < |ss| ==> Guarded(ss[i])
    case If(_, t, els) => Guarded(t) && if els.Some? then Guarded(els.value) else Leaves(t)
    case For(init, _, update, body) => Guarded(init) && Guarded(update) && Guarded(body)
    case _ => true
  }

  lemma {:induction false} LeavesIsNotNormal(m: Meaning, d: Dialect, s: Stmt, st: Store, fuel: nat)
    requires Leaves(s)
    ensures !Exec(m, d, s, st, fuel).Normal?
    decreases fuel, s, 1
  {
    match s
    case Block(ss) =>
      var i :| 0 <= i < |ss| && Leaves(ss[i]);
      LeavesAll(m, d, ss, i, st, fuel);
    case If(c, t, els) =>
      var r := Eval(m, c, st);
      if r.Value? {
        LeavesIsNotNormal(m, d, t, r.st, fuel);
        LeavesIsNotNormal(m, d, els.value, r.st, fuel);
      }
    case For(init, _, _, _) => LeavesIsNotNormal(m, d, init, st, fuel);
    case Return(_) =>
  }

  lemma {:induction false} LeavesAll(m: Meaning, d: Dialect, ss: seq<Stmt>, i: nat, st: Store, fuel: nat)
    requires i < |ss| && Leaves(ss[i])
    ensures !ExecAll(m, d, ss, st, fuel).Normal?
    decreases fuel, ss, 0
  {
    if i == 0 {
      LeavesIsNotNormal(m, d, ss[0], st, fuel);
    } else {
      var o := Exec(m, d, ss[0], st, fuel);
      if o.Normal? {
        assert ss[1..][i - 1] == ss[i];
        LeavesAll(m, d, ss[1..], i - 1, o.st, fuel);
      }
    }
  }

  lemma {:induction false} GuardedKeepsJumps(m: Meaning, s: Stmt, st: Store, fuel: nat)
    requires Guarded(s)
    ensures !FallsOut(m, s, st, fuel)
    decreases fuel, s, 1
  {
    match s
    case Block(ss) => GuardedAll(m, ss, st, fuel);
    case If(c, t, els) =>
      var r := Eval(m, c, st);
      if r.Value? {
        GuardedKeepsJumps(m, t, r.st, fuel);
        if els.Some? {
          GuardedKeepsJumps(m, els.value, r.st, fuel);
        } else {
          LeavesIsNotNormal(m, Intended, t, r.st, fuel);
        }
      }
    case For(init, _, _, _) =>
      GuardedKeepsJumps(m, init, st, fuel);
      var o := Exec(m, Intended, init, st, fuel);
      if o.Normal? {
        GuardedLoop(m, s, o.st, fuel);
      }
    case _ =>
  }

  lemma {:induction false} GuardedAll(m: Meaning, ss: seq<Stmt>, st: Store, fuel: nat)
    requires forall i :: 0 <= i < |ss| ==> Guarded(ss[i])
    ensures !FallsOutOfAll(m, ss, st, fuel)
    decreases fuel, ss, 0
  {
    if ss != [] {
      GuardedKeepsJumps(m, ss[0], st, fuel);
      var o := Exec(m, Intended, ss[0], st, fuel);
      if o.Normal? {
        GuardedAll(m, ss[1..], o.st, fuel);
      }
    }
  }

  lemma {:induction false} GuardedLoop(m: Meaning, s: Stmt, st: Store, fuel: nat)
    requires s.For? && Guarded(s)
    ensures !FallsOutOfLoop(m, s, st, fuel)
    decreases fuel, s, 0
  {
    var r := Eval(m, s.cond, st);
    if r.Value? && r.v != 0 && fuel > 0 {
      GuardedKeepsJumps(m, s.body, r.st, fuel - 1);
      var o := Exec(m, Intended, s.body, r.st, fuel - 1);
      if o.Normal? {
        GuardedKeepsJumps(m, s.update, o.st, fuel - 1);
        var o2 := Exec(m, Intended, s.update, o.st, fuel - 1);
        if o2.Normal? {
          GuardedLoop(m, s, o2.st, fuel - 1);
        }
      }
    }
  }

  /** A program without unguarded ifs means what was intended. */
  lemma GuardedMeansIntended(m: Meaning, prog: seq<Instr>, body: Stmt, st: Store, s: State, n: nat)
    requires Guarded(body) && Implements(prog, body) && s.pc == 0 && Agrees(st, s.mem)
    requires Run(m, prog, Config(s, Running), n).status != Running
    ensures Matches(Exec(m, Intended, body, st, n), Run(m, prog, Config(s, Running), n), n, n)
  {
    GuardedKeepsJumps(m, body, st, n);
    IntendedUnlessLost(m, prog, body, st, s, n);
  }

  /** `if (1) x = 1;` without else: the run of the generated code stops at a jump to a label that was
      never emitted, where the source would have gone on. */
  lemma ElselessIfLosesItsJump(m: Meaning, x: string, st: Store, s: State)
    requires m.literal("1") != 0 && s.pc == 0 && Agrees(st, s.mem)
    ensures var body := If(Literal("1"), Evaluate(Assign(x, Literal("1"))), None);
      && Exec(m, Intended, body, st, 0) == Normal(st[x := m.literal("1")])
      && JumpsNowhere(m, VirtualCode(body), s)
  {
    var c := Literal("1");
    var t := Evaluate(Assign(x, c));
    var body := If(c, t, None);
    assert Eval(m, c, st) == Value(m.literal("1"), st);
    assert Eval(m, Assign(x, c), st) == Value(m.literal("1"), st[x := m.literal("1")]);
    assert Exec(m, Intended, t, st, 0) == Normal(st[x := m.literal("1")]);
    assert FallsOut(m, body, st, 0);
    VirtualImplements(body);
    FallingOutLosesJump(m, VirtualCode(body), body, st, s, 0);
  }
}
