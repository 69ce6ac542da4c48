/** The three-address IR and the machine that runs it. One machine runs both the
    virtual-register code and the register-allocated code: they differ only in
    which locations their instructions name. */
module Machine {
  import opened Wrappers
  import opened Ast

  datatype Reg = Eax | Ebx | Ecx | Edx

  datatype Loc = VReg(id: nat) | PReg(reg: Reg) | Slot(offset: nat) | Var(name: string)

  datatype Operand = At(loc: Loc) | Imm(text: string)

  datatype Instr =
    | Mov(dst: Loc, src: Operand)
    | Op3(op: BinOp, dst: Loc, a: Loc, b: Loc)
    | Neg(dst: Loc, a: Loc)         // logical NOT
    | Inc(dst: Loc)
    | Cmp(a: Loc)                   // compare with 0
    | Je(target: nat)
    | Jmp(target: nat)
    | Label(id: nat)
    | Ret
    | Nop(name: string)
    | Push(a: Loc)
    | Invoke(func: string)
    | AddEsp(bytes: nat)

  /** What the operators and literals mean. Every theorem holds for every meaning, so in
      particular for 32-bit wrap-around arithmetic with a trapping division. */
  datatype Meaning = Meaning(
    literal: string -> int,
    binary: (BinOp, int, int) -> Option<int>,
    negate: int -> int,
    increment: int -> int)

  datatype State = State(pc: nat, mem: map<Loc, int>, zf: bool)

  /** Why a machine is not running: it ran past its last instruction, returned, trapped in
      an operator, jumped to a label that no instruction carries, or reached a call. */
  datatype Status = Running | Finished | Returned | Trapped | LostJump | Foreign

  datatype Config = Config(st: State, status: Status)

  function Get(mem: map<Loc, int>, l: Loc): int {
    if l in mem then mem[l] else 0
  }

  function Read(m: Meaning, mem: map<Loc, int>, o: Operand): int {
    match o
    case At(l) => Get(mem, l)
    case Imm(text) => m.literal(text)
  }

  /** The index of the first instruction that carries label `l`, at or after `from`. */
  function FindLabel(prog: seq<Instr>, l: nat, from: nat): (r: Option<nat>)
    decreases |prog| - from
  {
    if from >= |prog| then None
    else if prog[from] == Label(l) then Some(from)
    else FindLabel(prog, l, from + 1)
  }

  function Jump(prog: seq<Instr>, s: State, l: nat): Config {
    match FindLabel(prog, l, 0)
    case None => Config(s, LostJump)
    case Some(t) => Config(s.(pc := t), Running)
  }

  function Advance(s: State, mem: map<Loc, int>): Config {
    Config(s.(pc := s.pc + 1, mem := mem), Running)
  }

  function Step(m: Meaning, prog: seq<Instr>, s: State): Config {
    if s.pc >= |prog| then Config(s, Finished) else
    match prog[s.pc]
    case Mov(dst, src) => Advance(s, s.mem[dst := Read(m, s.mem, src)])
    case Op3(op, dst, a, b) =>
      (match m.binary(op, Get(s.mem, a), Get(s.mem, b))
       case None => Config(s, Trapped)
       case Some(v) => Advance(s, s.mem[dst := v]))
    case Neg(dst, a) => Advance(s, s.mem[dst := m.negate(Get(s.mem, a))])
    case Inc(dst) => Advance(s, s.mem[dst := m.increment(Get(s.mem, dst))])
    case Cmp(a) => Config(s.(pc := s.pc + 1, zf := Get(s.mem, a) == 0), Running)
    case Je(l) => if s.zf then Jump(prog, s, l) else Advance(s, s.mem)
    case Jmp(l) => Jump(prog, s, l)
    case Label(_) => Advance(s, s.mem)
    case Nop(_) => Advance(s, s.mem)
    case Ret => Config(s, Returned)
    case Push(_) => Config(s, Foreign)
    case Invoke(_) => Config(s, Foreign)
    case AddEsp(_) => Config(s, Foreign)
  }

  /** At most `n` steps. */
  function Run(m: Meaning, prog: seq<Instr>, c: Config, n: nat): Config
    decreases n
  {
    if n == 0 || c.status != Running then c
    else Run(m, prog, Step(m, prog, c.st), n - 1)
  }

  lemma {:induction false} RunAdd(m: Meaning, prog: seq<Instr>, c: Config, n: nat, k: nat)
    ensures Run(m, prog, c, n + k) == Run(m, prog, Run(m, prog, c, n), k)
    decreases n
  {
    if n == 0 || c.status != Running {
      RunStopped(m, prog, c, n + k);
      RunStopped(m, prog, c, n);
    } else {
      RunAdd(m, prog, Step(m, prog, c.st), n - 1, k);
    }
  }

  lemma RunStopped(m: Meaning, prog: seq<Instr>, c: Config, n: nat)
    ensures c.status != Running || n == 0 ==> Run(m, prog, c, n) == c
  {
  }

  /** A machine still running after `n` steps was running after every smaller number. */
  lemma {:induction false} RunningPrefix(m: Meaning, prog: seq<Instr>, c: Config, n: nat, k: nat)
    requires k <= n && Run(m, prog, c, n).status == Running
    ensures Run(m, prog, c, k).status == Running
  {
    RunAdd(m, prog, c, k, n - k);
    RunStopped(m, prog, Run(m, prog, c, k), n - k);
  }

  lemma {:induction false} FindLabelFound(prog: seq<Instr>, l: nat, from: nat, t: nat)
    requires from <= t < |prog| && prog[t] == Label(l)
    requires forall i :: from <= i < |prog| && prog[i] == Label(l) ==> i == t
    ensures FindLabel(prog, l, from) == Some(t)
    decreases t - from
  {
    if from < t {
      FindLabelFound(prog, l, from + 1, t);
    }
  }

  lemma {:induction false} FindLabelMissing(prog: seq<Instr>, l: nat, from: nat)
    requires forall i :: from <= i < |prog| ==> prog[i] != Label(l)
    ensures FindLabel(prog, l, from) == None
    decreases |prog| - from
  {
    if from < |prog| {
      FindLabelMissing(prog, l, from + 1);
    }
  }

  lemma {:induction false} FindLabelSound(prog: seq<Instr>, l: nat, from: nat)
    ensures var r := FindLabel(prog, l, from); r.Some? ==> from <= r.value < |prog| && prog[r.value] == Label(l)
    decreases |prog| - from
  {
    if from < |prog| && prog[from] != Label(l) {
      FindLabelSound(prog, l, from + 1);
    }
  }
}
