/** What 64-bit addition and subtraction leave in RFLAGS, and what the conditional jumps make of it. */
module ArithmeticFlags {
  import opened AddressSpace

  const HALF := 0x8000_0000_0000_0000

  /** The flags register as its 64 bits, lowest first. */
  type Flags = f: seq<bool> | |f| == 64 witness seq(64, i => false)

  /** Bit positions of the flags. */
  const FLAG_CF := 0
  const FLAG_PF := 2
  const FLAG_ZF := 6
  const FLAG_SF := 7
  const FLAG_OF := 11

  /** A word read as a signed number in two's complement. */
  function Signed(x: U64): int { if x >= HALF then x - WORD else x }

  function GetFlag(flags: Flags, bit: nat): bool
    requires bit < 64
  {
    flags[bit]
  }

  function WithFlag(flags: Flags, bit: nat, on: bool): Flags
    requires bit < 64
  {
    flags[bit := on]
  }

  /** The five arithmetic flags set as given. */
  function WithFlags(flags: Flags, z: bool, s: bool, c: bool, o: bool, p: bool): Flags {
    WithFlag(WithFlag(WithFlag(WithFlag(WithFlag(flags, FLAG_ZF, z), FLAG_SF, s), FLAG_CF, c), FLAG_OF, o), FLAG_PF, p)
  }

  // ----- what the code computes -----

  predicate CarryOut(result: U64, a: U64, b: U64, subtraction: bool) {
    if subtraction then a < b else result < a || result < b
  }

  predicate SignsOverflow(result: U64, a: U64, b: U64, subtraction: bool) {
    var sa, sb, sr := a >= HALF, b >= HALF, result >= HALF;
    if subtraction then sa != sb && sr != sa else sa == sb && sr != sa
  }

  /** The number of ones among the low `n` bits. */
  function Ones(x: nat, n: nat): nat {
    if n == 0 then 0 else x % 2 + Ones(x / 2, n - 1)
  }

  function FlagsOf(flags: Flags, result: U64, a: U64, b: U64, subtraction: bool): Flags {
    WithFlags(flags, result == 0, result >= HALF, CarryOut(result, a, b, subtraction),
              SignsOverflow(result, a, b, subtraction), Ones(result % 256, 8) % 2 == 0)
  }

  /** Registers by number, in the order RAX, RBX, RCX, RDX, RSI, RDI, RBP, RSP, R8 to R15. */
  function CapstoneRegToX86Reg(id: int): (r: nat)
    ensures r < 16
  {
    if 57 <= id <= 72 then id - 57 else 0
  }

  datatype Operand = Register(regId: int) | Immediate(value: U64) | Memory

  class X86CPUVM {
    var registers: seq<U64>
    var rflags: Flags

    ghost predicate Valid()
      reads this
    {
      |registers| == 16
    }

    constructor ()
      ensures Valid()
    {
      registers := seq(16, i => 0);
      rflags := seq(64, i => false);
    }

    method UpdateArithmeticFlags(result: U64, op1: U64, op2: U64, isSubtraction: bool)
      modifies `rflags
      ensures rflags == FlagsOf(old(rflags), result, op1, op2, isSubtraction)
    {
      var flags := rflags;
      flags := WithFlag(flags, FLAG_ZF, result == 0);
      flags := WithFlag(flags, FLAG_SF, result >= HALF);
      if isSubtraction {
        flags := WithFlag(flags, FLAG_CF, op1 < op2);
      } else {
        flags := WithFlag(flags, FLAG_CF, result < op1 || result < op2);
      }
      var op1Sign, op2Sign, resultSign := op1 >= HALF, op2 >= HALF, result >= HALF;
      if isSubtraction {
        flags := WithFlag(flags, FLAG_OF, op1Sign != op2Sign && resultSign != op1Sign);
      } else {
        flags := WithFlag(flags, FLAG_OF, op1Sign == op2Sign && resultSign != op1Sign);
      }
      var bitCount := CountLowBits(result);
      rflags := WithFlag(flags, FLAG_PF, bitCount % 2 == 0);
    }

    method CountLowBits(result: U64) returns (bitCount: nat)
      ensures bitCount == Ones(result % 256, 8)
    {
      var left: nat := result % 256;
      bitCount := 0;
      for i := 0 to 8
        invariant bitCount + Ones(left, 8 - i) == Ones(result % 256, 8)
      {
        if left % 2 == 1 {
          bitCount := bitCount + 1;
        }
        left := left / 2;
      }
    }

    /** Adds one register to another; any other pair of operands does nothing. */
    method ExecuteAdd(dest: Operand, src: Operand)
      requires Valid()
      modifies this
      ensures Valid()
      ensures if dest.Register? && src.Register? then
          var d := CapstoneRegToX86Reg(dest.regId);
          var a, b := old(registers)[d], old(registers)[CapstoneRegToX86Reg(src.regId)];
          registers == old(registers)[d := (a + b) % WORD] && rflags == FlagsOf(old(rflags), (a + b) % WORD, a, b, false)
        else registers == old(registers) && rflags == old(rflags)
    {
      if dest.Register? && src.Register? {
        var d, s := CapstoneRegToX86Reg(dest.regId), CapstoneRegToX86Reg(src.regId);
        var val1, val2 := registers[d], registers[s];
        var result := (val1 + val2) % WORD;
        registers := registers[d := result];
        UpdateArithmeticFlags(result, val1, val2, false);
      }
    }

    /** Subtracts one register from another. */
    method ExecuteSub(dest: Operand, src: Operand)
      requires Valid()
      modifies this
      ensures Valid()
      ensures if dest.Register? && src.Register? then
          var d := CapstoneRegToX86Reg(dest.regId);
          var a, b := old(registers)[d], old(registers)[CapstoneRegToX86Reg(src.regId)];
          registers == old(registers)[d := (a - b) % WORD] && rflags == FlagsOf(old(rflags), (a - b) % WORD, a, b, true)
        else registers == old(registers) && rflags == old(rflags)
    {
      if dest.Register? && src.Register? {
        var d, s := CapstoneRegToX86Reg(dest.regId), CapstoneRegToX86Reg(src.regId);
        var val1, val2 := registers[d], registers[s];
        var result := (val1 - val2) % WORD;
        registers := registers[d := result];
        UpdateArithmeticFlags(result, val1, val2, true);
      }
    }
  }

  // ----- what that means -----

  predicate FitsSigned(x: int) { -HALF <= x < HALF }

  /** After an addition CF tells unsigned overflow and OF signed overflow. */
  lemma AddOverflow(flags: Flags, a: U64, b: U64)
    ensures var r: U64 := (a + b) % WORD; var f := FlagsOf(flags, r, a, b, false);
      && (f[0] <==> a + b >= 0x1_0000_0000_0000_0000)
      && (f[11] <==> !(-0x8000_0000_0000_0000 <= Signed(a) + Signed(b) < 0x8000_0000_0000_0000))
      && (f[6] <==> r == 0) && (f[7] <==> Signed(r) < 0)
  {
    var r: U64 := (a + b) % WORD;
    assert r == if a + b >= WORD then a + b - WORD else a + b;
  }

  /** After a subtraction CF tells the borrow and OF signed overflow. */
  lemma SubOverflow(flags: Flags, a: U64, b: U64)
    ensures var r: U64 := (a - b) % WORD; var f := FlagsOf(flags, r, a, b, true);
      && (f[0] <==> a < b)
      && (f[11] <==> !(-0x8000_0000_0000_0000 <= Signed(a) - Signed(b) < 0x8000_0000_0000_0000))
      && (f[6] <==> a == b) && (f[7] <==> Signed(r) < 0)
  {
    var r: U64 := (a - b) % WORD;
    assert r == if a < b then a - b + WORD else a - b;
  }

  /** The sixteen conditions of the short jumps. */
  predicate TakesBranch(condition: nat, flags: Flags)
    requires condition < 16
  {
    var cf, zf, sf, of, pf := GetFlag(flags, FLAG_CF), GetFlag(flags, FLAG_ZF), GetFlag(flags, FLAG_SF), GetFlag(flags, FLAG_OF), GetFlag(flags, FLAG_PF);
    match condition
    case 0x0 => of
    case 0x1 => !of
    case 0x2 => cf
    case 0x3 => !cf
    case 0x4 => zf
    case 0x5 => !zf
    case 0x6 => cf || zf
    case 0x7 => !(cf || zf)
    case 0x8 => sf
    case 0x9 => !sf
    case 0xA => pf
    case 0xB => !pf
    case 0xC => sf != of
    case 0xD => sf == of
    case 0xE => zf || sf != of
    case _ => !zf && sf == of
  }

  /** After subtracting `b` from `a` the conditional jumps are the comparisons they are named for,
      unsigned and signed. */
  lemma JumpsCompare(flags: Flags, a: U64, b: U64)
    ensures var f := FlagsOf(flags, (a - b) % WORD, a, b, true);
      && (TakesBranch(0x2, f) <==> a < b) && (TakesBranch(0x3, f) <==> a >= b)
      && (TakesBranch(0x4, f) <==> a == b) && (TakesBranch(0x5, f) <==> a != b)
      && (TakesBranch(0x6, f) <==> a <= b) && (TakesBranch(0x7, f) <==> a > b)
      && (TakesBranch(0xC, f) <==> Signed(a) < Signed(b)) && (TakesBranch(0xD, f) <==> Signed(a) >= Signed(b))
      && (TakesBranch(0xE, f) <==> Signed(a) <= Signed(b)) && (TakesBranch(0xF, f) <==> Signed(a) > Signed(b))
  {
    SubOverflow(flags, a, b);
    SignOfDifference(a, b);
  }

  /** The sign of the difference is wrong exactly when it overflows. */
  lemma SignOfDifference(a: U64, b: U64)
    ensures var r: U64 := (a - b) % WORD;
      (Signed(r) < 0) != !FitsSigned(Signed(a) - Signed(b)) <==> Signed(a) < Signed(b)
  {
    var r: U64 := (a - b) % WORD;
    assert r == if a < b then a - b + WORD else a - b;
  }

  /** A word read as signed differs from itself read as unsigned by 2 to the 64, if the top bit is set. */
  lemma SignedIs(x: U64)
    ensures Signed(x) == if x < 0x8000_0000_0000_0000 then x else x - 0x1_0000_0000_0000_0000
  {
  }

  /** The six jumps on single flags: on signed overflow, on the sign, and on an even number of ones in
      the low byte of the result, and their opposites. */
  lemma JumpsOnFlags(flags: Flags, a: U64, b: U64)
    ensures var r: U64 := (a - b) % WORD; var f := FlagsOf(flags, r, a, b, true);
      && (TakesBranch(0x0, f) <==> !(-0x8000_0000_0000_0000 <= Signed(a) - Signed(b) < 0x8000_0000_0000_0000))
      && (TakesBranch(0x8, f) <==> Signed(r) < 0) && (TakesBranch(0xA, f) <==> EvenOnes(r))
      && TakesBranch(0x1, f) == !TakesBranch(0x0, f) && TakesBranch(0x9, f) == !TakesBranch(0x8, f)
      && TakesBranch(0xB, f) == !TakesBranch(0xA, f)
  {
    var r: U64 := (a - b) % WORD;
    SubOverflow(flags, a, b);
    OtherBitsStay(flags, r, a, b, true, 2);
  }

  /** The bits of the low byte have an even sum. */
  predicate EvenOnes(x: U64) {
    var b0 := x % 256;
    var b1 := b0 / 2;
    var b2 := b1 / 2;
    var b3 := b2 / 2;
    var b4 := b3 / 2;
    var b5 := b4 / 2;
    var b6 := b5 / 2;
    var b7 := b6 / 2;
    (b0 % 2 + b1 % 2 + b2 % 2 + b3 % 2 + b4 % 2 + b5 % 2 + b6 % 2 + b7 % 2) % 2 == 0
  }

  lemma Halves(y: nat, n: nat)
    ensures Ones(y, n + 1) == y % 2 + Ones(y / 2, n) && Ones(y, 0) == 0
  {
  }

  /** The registers, RAX to RDI, RBP, RSP, and R8 to R15, by the numbers 57 to 72; any other is RAX. */
  lemma RegisterNumbers(id: int)
    ensures var names := ["RAX", "RBX", "RCX", "RDX", "RSI", "RDI", "RBP", "RSP",
                          "R8", "R9", "R10", "R11", "R12", "R13", "R14", "R15"];
      names[CapstoneRegToX86Reg(id)] ==
        match id
        case 58 => "RBX" case 59 => "RCX" case 60 => "RDX" case 61 => "RSI" case 62 => "RDI" case 63 => "RBP" case 64 => "RSP"
        case 65 => "R8" case 66 => "R9" case 67 => "R10" case 68 => "R11" case 69 => "R12" case 70 => "R13" case 71 => "R14"
        case 72 => "R15"
        case _ => "RAX"
  {
  }

  /** Neither operation touches a bit of RFLAGS that is not an arithmetic flag, and PF tells whether
      the low byte has an even number of ones. */
  lemma OtherBitsStay(flags: Flags, result: U64, a: U64, b: U64, subtraction: bool, bit: nat)
    requires bit < 64
    ensures var f := FlagsOf(flags, result, a, b, subtraction);
      && (bit !in {0, 2, 6, 7, 11} ==> f[bit] == flags[bit])
      && (f[2] <==> EvenOnes(result))
  {
    var b0: nat := result % 256;
    var b1 := b0 / 2;
    var b2 := b1 / 2;
    var b3 := b2 / 2;
    var b4 := b3 / 2;
    var b5 := b4 / 2;
    var b6 := b5 / 2;
    var b7 := b6 / 2;
    hide Ones;
    Halves(b0, 7);
    Halves(b1, 6);
    Halves(b2, 5);
    Halves(b3, 4);
    Halves(b4, 3);
    Halves(b5, 2);
    Halves(b6, 1);
    Halves(b7, 0);
    Halves(b7 / 2, 0);
  }
}
