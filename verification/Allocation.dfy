/** Replacing virtual registers by physical registers and stack slots, and why the code means
    the same afterwards. */
module Allocation {
  import opened Machine
  import opened Liveness
  import opened Spans

  datatype Placement = Placement(regs: map<nat, Reg>, slots: map<nat, nat>)

  function Place(p: Placement, r: nat): Loc {
    if r in p.regs then PReg(p.regs[r]) else if r in p.slots then Slot(p.slots[r]) else VReg(r)
  }

  function RewriteLoc(p: Placement, l: Loc): Loc {
    if l.VReg? then Place(p, l.id) else l
  }

  function RewriteOperand(p: Placement, o: Operand): Operand {
    if o.At? then At(RewriteLoc(p, o.loc)) else o
  }

  function Rewrite(p: Placement, x: Instr): Instr {
    match x
    case Mov(dst, src) => Mov(RewriteLoc(p, dst), RewriteOperand(p, src))
    case Op3(op, dst, a, b) => Op3(op, RewriteLoc(p, dst), RewriteLoc(p, a), RewriteLoc(p, b))
    case Neg(dst, a) => Neg(RewriteLoc(p, dst), RewriteLoc(p, a))
    case Inc(dst) => Inc(RewriteLoc(p, dst))
    case Cmp(a) => Cmp(RewriteLoc(p, a))
    case Push(a) => Push(RewriteLoc(p, a))
    case _ => x
  }

  function RewriteAll(p: Placement, code: seq<Instr>): seq<Instr> {
    seq(|code|, i requires 0 <= i < |code| => Rewrite(p, code[i]))
  }

  /** Every register has exactly one home, and registers with overlapping spans do not share. */
  ghost predicate Sound(p: Placement, sp: map<nat, Span>) {
    && (forall r :: r in sp ==> (r in p.regs <==> r !in p.slots))
    && (forall r, q :: r in sp && q in sp && r != q && Overlap(sp[r], sp[q]) ==> Place(p, r) != Place(p, q))
  }

  ghost predicate LiveAt(sp: map<nat, Span>, r: nat, pc: nat) {
    r in sp && sp[r].start < pc <= sp[r].end
  }

  /** Two machines in step: equal variables, and every live register's value in its new home. */
  ghost predicate InStep(code: seq<Instr>, p: Placement, sp: map<nat, Span>, s: State, t: State) {
    && s.pc == t.pc <= |code| && s.zf == t.zf
    && (forall x :: Get(s.mem, Var(x)) == Get(t.mem, Var(x)))
    && (forall r :: LiveAt(sp, r, s.pc) ==> Get(s.mem, VReg(r)) == Get(t.mem, Place(p, r)))
    && (s.pc > 0 && LoadsEax(code[s.pc - 1]) ==> Get(s.mem, PReg(Eax)) == Get(t.mem, PReg(Eax)))
    && (s.pc > 0 && !(s.pc < |code| && code[s.pc].Label?) ==> !Stops(code[s.pc - 1]))
  }

  /** What the theorem assumes of the code and of the placement. */
  ghost predicate Ready(code: seq<Instr>, p: Placement, sp: map<nat, Span>) {
    SafeSpans(code, sp) && EaxOk(code) && Sound(p, sp)
  }

  lemma ReadsAgree(code: seq<Instr>, p: Placement, sp: map<nat, Span>, s: State, t: State, l: Loc)
    requires Ready(code, p, sp) && InStep(code, p, sp, s, t) && s.pc < |code|
    requires Reads(code[s.pc], l)
    ensures Get(s.mem, l) == Get(t.mem, RewriteLoc(p, l))
  {
    ReadIsOperand(code[s.pc], l);
    if l.VReg? {
      assert LiveAt(sp, l.id, s.pc);
    } else if !l.Var? {
      OnlyMovNamesEax(code, s.pc, l);
    }
  }

  lemma ReadIsOperand(x: Instr, l: Loc)
    requires Reads(x, l)
    ensures l in Operands(x)
  {
    match x
    case Mov(dst, At(a)) => assert Operands(x)[1] == a;
    case Op3(_, dst, a, b) => assert Operands(x)[1] == a && Operands(x)[2] == b;
    case Neg(dst, a) => assert Operands(x)[1] == a;
    case Inc(_) => assert Operands(x)[0] == l;
    case Cmp(_) => assert Operands(x)[0] == l;
    case Push(_) => assert Operands(x)[0] == l;
  }

  lemma OnlyMovNamesEax(code: seq<Instr>, i: nat, l: Loc)
    requires EaxOk(code) && i < |code| && Reads(code[i], l) && l in Operands(code[i]) && !l.VReg? && !l.Var?
    ensures i > 0 && Stops(code[i - 1]) && !code[i].Label?
  {
    assert l == PReg(Eax) && (LoadsEax(code[i]) || ReadsEax(code[i]));
    assert ReadsEax(code[i]);
  }

  /** A register live behind an instruction was live before it, or is defined by it. */
  lemma StillLive(code: seq<Instr>, sp: map<nat, Span>, pc: nat, r: nat)
    requires SafeSpans(code, sp) && pc < |code| && LiveAt(sp, r, pc + 1)
    ensures Defines(code[pc], r) || LiveAt(sp, r, pc)
    ensures !Barrier(code[pc])
  {
    if sp[r].start == pc {
      assert Mentions(code[pc], r);
      MentionIsReadOrDef(code[pc], r);
      assert Defines(code[pc], r);
    } else {
      assert sp[r].start < pc < sp[r].end;
    }
  }

  /** A definition does not overwrite the home of another live register. */
  lemma OtherHome(code: seq<Instr>, p: Placement, sp: map<nat, Span>, pc: nat, d: nat, r: nat)
    requires SafeSpans(code, sp) && Sound(p, sp) && pc < |code|
    requires Defines(code[pc], d) && LiveAt(sp, r, pc + 1) && d != r
    ensures Place(p, d) != Place(p, r)
  {
    assert d in sp && sp[d].start == pc;
    assert Overlap(sp[d], sp[r]);
  }

  lemma HomeIsPhysical(p: Placement, sp: map<nat, Span>, r: nat)
    requires Sound(p, sp) && r in sp
    ensures Place(p, r).PReg? || Place(p, r).Slot?
  {
  }

  /** Both machines write the same value to corresponding places and go on. */
  lemma WriteKeepsStep(code: seq<Instr>, p: Placement, sp: map<nat, Span>, s: State, t: State, dst: Loc, v: int)
    requires Ready(code, p, sp) && InStep(code, p, sp, s, t) && s.pc < |code| && !Stops(code[s.pc])
    requires dst in Operands(code[s.pc])
    requires match dst
      case VReg(r) => Defines(code[s.pc], r)
      case Var(_) => !LoadsEax(code[s.pc]) && forall r: nat :: !Defines(code[s.pc], r)
      case PReg(_) => LoadsEax(code[s.pc]) && dst == PReg(Eax)
      case Slot(_) => false
    ensures InStep(code, p, sp, s.(pc := s.pc + 1, mem := s.mem[dst := v]), t.(pc := t.pc + 1, mem := t.mem[RewriteLoc(p, dst) := v]))
  {
    match dst
    case VReg(d) => WriteRegister(code, p, sp, s, t, d, v);
    case Var(x) => WriteVariable(code, p, sp, s, t, x, v);
    case PReg(_) => WriteEax(code, p, sp, s, t, v);
  }

  lemma WriteRegister(code: seq<Instr>, p: Placement, sp: map<nat, Span>, s: State, t: State, d: nat, v: int)
    requires Ready(code, p, sp) && InStep(code, p, sp, s, t) && s.pc < |code| && !Stops(code[s.pc])
    requires Defines(code[s.pc], d)
    ensures InStep(code, p, sp, s.(pc := s.pc + 1, mem := s.mem[VReg(d) := v]), t.(pc := t.pc + 1, mem := t.mem[Place(p, d) := v]))
  {
    HomeIsPhysical(p, sp, d);
    HomesAfterWrite(code, p, sp, s, t, d, v);
    StepAfterWrite(code, p, sp, s, t, d, v);
  }

  lemma HomesAfterWrite(code: seq<Instr>, p: Placement, sp: map<nat, Span>, s: State, t: State, d: nat, v: int)
    requires SafeSpans(code, sp) && Sound(p, sp) && s.pc < |code| && Defines(code[s.pc], d)
    requires forall r :: LiveAt(sp, r, s.pc) ==> Get(s.mem, VReg(r)) == Get(t.mem, Place(p, r))
    ensures forall r :: LiveAt(sp, r, s.pc + 1) ==> Get(s.mem[VReg(d) := v], VReg(r)) == Get(t.mem[Place(p, d) := v], Place(p, r))
  {
    var s', t' := s.mem[VReg(d) := v], t.mem[Place(p, d) := v];
    forall r | LiveAt(sp, r, s.pc + 1) ensures Get(s', VReg(r)) == Get(t', Place(p, r)) {
      HomeAfterWrite(code, p, sp, s, t, d, v, r);
    }
  }

  lemma StepAfterWrite(code: seq<Instr>, p: Placement, sp: map<nat, Span>, s: State, t: State, d: nat, v: int)
    requires InStep(code, p, sp, s, t) && s.pc < |code| && Defines(code[s.pc], d) && (Place(p, d).PReg? || Place(p, d).Slot?)
    requires forall r :: LiveAt(sp, r, s.pc + 1) ==> Get(s.mem[VReg(d) := v], VReg(r)) == Get(t.mem[Place(p, d) := v], Place(p, r))
    ensures InStep(code, p, sp, s.(pc := s.pc + 1, mem := s.mem[VReg(d) := v]), t.(pc := t.pc + 1, mem := t.mem[Place(p, d) := v]))
  {
  }

  lemma HomeAfterWrite(code: seq<Instr>, p: Placement, sp: map<nat, Span>, s: State, t: State, d: nat, v: int, r: nat)
    requires SafeSpans(code, sp) && Sound(p, sp) && s.pc < |code| && Defines(code[s.pc], d) && LiveAt(sp, r, s.pc + 1)
    requires LiveAt(sp, r, s.pc) ==> Get(s.mem, VReg(r)) == Get(t.mem, Place(p, r))
    ensures Get(s.mem[VReg(d) := v], VReg(r)) == Get(t.mem[Place(p, d) := v], Place(p, r))
  {
    if r != d {
      StillLive(code, sp, s.pc, r);
      OtherHome(code, p, sp, s.pc, d, r);
    }
  }

  lemma WriteVariable(code: seq<Instr>, p: Placement, sp: map<nat, Span>, s: State, t: State, x: string, v: int)
    requires Ready(code, p, sp) && InStep(code, p, sp, s, t) && s.pc < |code| && !Stops(code[s.pc])
    requires !LoadsEax(code[s.pc]) && forall r: nat :: !Defines(code[s.pc], r)
    ensures InStep(code, p, sp, s.(pc := s.pc + 1, mem := s.mem[Var(x) := v]), t.(pc := t.pc + 1, mem := t.mem[Var(x) := v]))
  {
    var s', t' := s.mem[Var(x) := v], t.mem[Var(x) := v];
    forall r | LiveAt(sp, r, s.pc + 1) ensures Get(s', VReg(r)) == Get(t', Place(p, r)) {
      StillLive(code, sp, s.pc, r);
      HomeIsPhysical(p, sp, r);
    }
  }

  lemma WriteEax(code: seq<Instr>, p: Placement, sp: map<nat, Span>, s: State, t: State, v: int)
    requires Ready(code, p, sp) && InStep(code, p, sp, s, t) && s.pc < |code| && !Stops(code[s.pc])
    requires LoadsEax(code[s.pc])
    ensures InStep(code, p, sp, s.(pc := s.pc + 1, mem := s.mem[PReg(Eax) := v]), t.(pc := t.pc + 1, mem := t.mem[PReg(Eax) := v]))
  {
    var next := s.pc + 1;
    forall r ensures !LiveAt(sp, r, next) {
      if LiveAt(sp, r, next) {
        StillLive(code, sp, s.pc, r);
      }
    }
  }

  /** Both machines go on without writing. */
  lemma SkipKeepsStep(code: seq<Instr>, p: Placement, sp: map<nat, Span>, s: State, t: State, zf: bool)
    requires Ready(code, p, sp) && InStep(code, p, sp, s, t) && s.pc < |code| && !Stops(code[s.pc])
    requires !LoadsEax(code[s.pc]) && forall r: nat :: !Defines(code[s.pc], r)
    ensures InStep(code, p, sp, s.(pc := s.pc + 1, zf := zf), t.(pc := t.pc + 1, zf := zf))
  {
    forall r | LiveAt(sp, r, s.pc + 1) ensures Get(s.mem, VReg(r)) == Get(t.mem, Place(p, r)) {
      StillLive(code, sp, s.pc, r);
    }
  }

  lemma {:induction false} LabelsStay(p: Placement, code: seq<Instr>, l: nat, from: nat)
    ensures FindLabel(RewriteAll(p, code), l, from) == FindLabel(code, l, from)
    decreases |code| - from
  {
    if from < |code| && code[from] != Label(l) {
      LabelsStay(p, code, l, from + 1);
    }
  }

  lemma NothingLiveAtLabel(code: seq<Instr>, sp: map<nat, Span>, k: nat, r: nat)
    requires SafeSpans(code, sp) && k < |code| && code[k].Label?
    ensures !LiveAt(sp, r, k)
  {
    if LiveAt(sp, r, k) {
      assert Mentions(code[sp[r].end], r);
      assert !Mentions(code[k], r);
      assert Barrier(code[k]);
      assert false;
    }
  }

  lemma NoLoadBeforeLabel(code: seq<Instr>, k: nat)
    requires EaxOk(code) && 0 < k < |code| && code[k].Label?
    ensures !LoadsEax(code[k - 1])
  {
    var i := k - 1;
    assert !LoadsEax(code[i]);
  }

  lemma JumpKeepsStep(code: seq<Instr>, p: Placement, sp: map<nat, Span>, s: State, t: State, l: nat)
    requires Ready(code, p, sp) && InStep(code, p, sp, s, t)
    ensures var c := Jump(code, s, l); var d := Jump(RewriteAll(p, code), t, l);
      c.status == d.status && (if c.status == Running then InStep(code, p, sp, c.st, d.st) else c.st == s && d.st == t)
  {
    LabelsStay(p, code, l, 0);
    FindLabelSound(code, l, 0);
    if FindLabel(code, l, 0).Some? {
      LandsInStep(code, p, sp, s, t, FindLabel(code, l, 0).value);
    }
  }

  lemma LandsInStep(code: seq<Instr>, p: Placement, sp: map<nat, Span>, s: State, t: State, k: nat)
    requires Ready(code, p, sp) && InStep(code, p, sp, s, t) && k < |code| && code[k].Label?
    ensures InStep(code, p, sp, s.(pc := k), t.(pc := k))
  {
    forall r ensures !LiveAt(sp, r, k) {
      NothingLiveAtLabel(code, sp, k, r);
    }
    if k > 0 {
      NoLoadBeforeLabel(code, k);
    }
  }

  /** How far two stopped machines agree. */
  ghost predicate StoppedAlike(code: seq<Instr>, s: State, t: State) {
    && s.pc == t.pc <= |code|
    && (forall x :: Get(s.mem, Var(x)) == Get(t.mem, Var(x)))
    && (s.pc > 0 && LoadsEax(code[s.pc - 1]) ==> Get(s.mem, PReg(Eax)) == Get(t.mem, PReg(Eax)))
  }

  ghost predicate Alike(code: seq<Instr>, p: Placement, sp: map<nat, Span>, c: Config, d: Config) {
    c.status == d.status && if c.status == Running then InStep(code, p, sp, c.st, d.st) else StoppedAlike(code, c.st, d.st)
  }

  lemma MovKeepsStep(m: Meaning, code: seq<Instr>, p: Placement, sp: map<nat, Span>, s: State, t: State)
    requires Ready(code, p, sp) && InStep(code, p, sp, s, t) && s.pc < |code| && code[s.pc].Mov?
    ensures Alike(code, p, sp, Step(m, code, s), Step(m, RewriteAll(p, code), t))
  {
    var x := code[s.pc];
    assert RewriteAll(p, code)[s.pc] == Rewrite(p, x);
    if x.src.At? {
      ReadsAgree(code, p, sp, s, t, x.src.loc);
    }
    OperandsOfMov(x);
    WritesAreNamed(code, s.pc);
    WriteKeepsStep(code, p, sp, s, t, x.dst, Read(m, s.mem, x.src));
  }

  lemma OpKeepsStep(m: Meaning, code: seq<Instr>, p: Placement, sp: map<nat, Span>, s: State, t: State)
    requires Ready(code, p, sp) && InStep(code, p, sp, s, t) && s.pc < |code| && code[s.pc].Op3?
    ensures Alike(code, p, sp, Step(m, code, s), Step(m, RewriteAll(p, code), t))
  {
    var x := code[s.pc];
    assert RewriteAll(p, code)[s.pc] == Rewrite(p, x);
    ReadsAgree(code, p, sp, s, t, x.a);
    ReadsAgree(code, p, sp, s, t, x.b);
    var r := m.binary(x.op, Get(s.mem, x.a), Get(s.mem, x.b));
    if r.Some? {
      assert Operands(x)[0] == x.dst;
      WritesAreNamed(code, s.pc);
      WriteKeepsStep(code, p, sp, s, t, x.dst, r.value);
    }
  }

  lemma WriterKeepsStep(m: Meaning, code: seq<Instr>, p: Placement, sp: map<nat, Span>, s: State, t: State)
    requires Ready(code, p, sp) && InStep(code, p, sp, s, t) && s.pc < |code| && (code[s.pc].Neg? || code[s.pc].Inc?)
    ensures Alike(code, p, sp, Step(m, code, s), Step(m, RewriteAll(p, code), t))
  {
    var x := code[s.pc];
    assert RewriteAll(p, code)[s.pc] == Rewrite(p, x);
    assert Operands(x)[0] == x.dst;
    WritesAreNamed(code, s.pc);
    var a := if x.Neg? then x.a else x.dst;
    ReadsAgree(code, p, sp, s, t, a);
    WriteKeepsStep(code, p, sp, s, t, x.dst, if x.Neg? then m.negate(Get(s.mem, a)) else m.increment(Get(s.mem, a)));
  }

  lemma ControlKeepsStep(m: Meaning, code: seq<Instr>, p: Placement, sp: map<nat, Span>, s: State, t: State)
    requires Ready(code, p, sp) && InStep(code, p, sp, s, t) && s.pc < |code|
    requires code[s.pc].Cmp? || code[s.pc].Je? || code[s.pc].Jmp? || code[s.pc].Label? || code[s.pc].Nop?
    ensures Alike(code, p, sp, Step(m, code, s), Step(m, RewriteAll(p, code), t))
  {
    var x := code[s.pc];
    assert RewriteAll(p, code)[s.pc] == Rewrite(p, x);
    if x.Cmp? {
      ReadsAgree(code, p, sp, s, t, x.a);
      SkipKeepsStep(code, p, sp, s, t, Get(s.mem, x.a) == 0);
    } else if x.Jmp? || (x.Je? && s.zf) {
      JumpKeepsStep(code, p, sp, s, t, x.target);
    } else {
      SkipKeepsStep(code, p, sp, s, t, s.zf);
    }
  }

  lemma StepKeepsStep(m: Meaning, code: seq<Instr>, p: Placement, sp: map<nat, Span>, s: State, t: State)
    requires Ready(code, p, sp) && InStep(code, p, sp, s, t)
    ensures Alike(code, p, sp, Step(m, code, s), Step(m, RewriteAll(p, code), t))
  {
    if s.pc < |code| {
      match code[s.pc]
      case Mov(_, _) => MovKeepsStep(m, code, p, sp, s, t);
      case Op3(_, _, _, _) => OpKeepsStep(m, code, p, sp, s, t);
      case Neg(_, _) => WriterKeepsStep(m, code, p, sp, s, t);
      case Inc(_) => WriterKeepsStep(m, code, p, sp, s, t);
      case Ret => StopKeepsStep(m, code, p, sp, s, t);
      case Push(_) => StopKeepsStep(m, code, p, sp, s, t);
      case Invoke(_) => StopKeepsStep(m, code, p, sp, s, t);
      case AddEsp(_) => StopKeepsStep(m, code, p, sp, s, t);
      case _ => ControlKeepsStep(m, code, p, sp, s, t);
    }
  }

  lemma StopKeepsStep(m: Meaning, code: seq<Instr>, p: Placement, sp: map<nat, Span>, s: State, t: State)
    requires InStep(code, p, sp, s, t) && s.pc < |code| && Stops(code[s.pc])
    ensures Alike(code, p, sp, Step(m, code, s), Step(m, RewriteAll(p, code), t))
  {
    assert RewriteAll(p, code)[s.pc] == Rewrite(p, code[s.pc]);
  }

  /** The destination of a data instruction is a register, a variable, or the return register. */
  lemma WritesAreNamed(code: seq<Instr>, i: nat)
    requires EaxOk(code) && i < |code| && (code[i].Mov? || code[i].Op3? || code[i].Neg? || code[i].Inc?)
    ensures code[i].dst.VReg? || code[i].dst.Var? || (LoadsEax(code[i]) && code[i].dst == PReg(Eax))
  {
    var x := code[i];
    if x.Mov? {
      OperandsOfMov(x);
    } else {
      assert Operands(x)[0] == x.dst;
    }
    assert x.dst in Operands(x);
    if !x.dst.VReg? && !x.dst.Var? {
      assert x.dst == PReg(Eax) && (LoadsEax(x) || ReadsEax(x));
    }
  }

  /** Any number of steps: the rewritten code does what the original does. */
  lemma {:induction false} RunsAlike(m: Meaning, code: seq<Instr>, p: Placement, sp: map<nat, Span>, c: Config, d: Config, n: nat)
    requires Ready(code, p, sp) && Alike(code, p, sp, c, d)
    ensures Alike(code, p, sp, Run(m, code, c, n), Run(m, RewriteAll(p, code), d, n))
    decreases n
  {
    if n > 0 && c.status == Running {
      StepKeepsStep(m, code, p, sp, c.st, d.st);
      RunsAlike(m, code, p, sp, Step(m, code, c.st), Step(m, RewriteAll(p, code), d.st), n - 1);
    }
  }
}
