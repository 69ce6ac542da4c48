/** What tokens are read as, and one program from its tokens to the result of its code. */
module EndToEnd {
  import opened Wrappers
  import opened Ast
  import opened Grammar
  import opened Statements
  import Machine
  import Semantics
  import ExprSimulation
  import Correctness

  // ----- tokens -----

  /** Digits are literals; what begins with a letter or an underscore is a name, but for six keywords. */
  lemma TokenTypes(t: Token)
    ensures TypeOf(t) == Literals <==> forall i :: 0 <= i < |t| ==> t[i] in "0123456789"
    ensures t != [] && ('a' <= t[0] <= 'z' || 'A' <= t[0] <= 'Z' || t[0] == '_') ==>
      TypeOf(t) == if t in {"int", "return", "if", "else", "for", "syscall"} then Keywords else Identifiers
  {
    assert AllDigits(t) <==> forall i :: 0 <= i < |t| ==> t[i] in "0123456789" by {
      forall c: char ensures c in "0123456789" <==> '0' <= c <= '9' {
        DigitIs(c);
      }
    }
    if AllDigits(t) {
      assert t == [] || '0' <= t[0] <= '9';
    }
  }

  lemma DigitIs(c: char)
    ensures c in "0123456789" <==> '0' <= c <= '9'
  {
    var s := "0123456789";
    assert s[0] == '0' && s[1] == '1' && s[2] == '2' && s[3] == '3' && s[4] == '4';
    assert s[5] == '5' && s[6] == '6' && s[7] == '7' && s[8] == '8' && s[9] == '9';
  }

  // ----- precedence -----

  /** What a binary operator's token stands for, and how tightly it binds. */
  function Meant(t: Token): Option<(BinOp, nat)> {
    match t
    case "||" => Some((Or, 0))
    case "&&" => Some((And, 1))
    case "==" => Some((Eq, 2)) case "!=" => Some((Ne, 2)) case ">" => Some((Gt, 2)) case "<" => Some((Lt, 2))
    case ">=" => Some((Ge, 2)) case "<=" => Some((Le, 2))
    case "+" => Some((Add, 3)) case "-" => Some((Sub, 3))
    case "*" => Some((Mul, 4)) case "/" => Some((Div, 4))
    case _ => None
  }

  lemma MeantIs(t: Token)
    requires Meant(t).Some?
    ensures var (op, l) := Meant(t).value; OpToken(op) == t && OpLevel(op) == l
  {
  }

  lemma PrintedLiteral(a: string, l: nat)
    requires TypeOf(a) == Literals && l <= FACTOR
    ensures Printable(Literal(a)) && Print(l, Literal(a)) == [a]
  {
  }

  lemma PrintedPair(l: nat, op: BinOp, a: string, b: string)
    requires TypeOf(a) == TypeOf(b) == Literals && l <= OpLevel(op)
    ensures var e := Binary(op, Literal(a), Literal(b)); Printable(e) && Print(l, e) == [a, OpToken(op), b]
  {
    PrintedLiteral(a, OpLevel(op));
    PrintedLiteral(b, OpLevel(op) + 1);
  }

  /** Of two operators the one that binds more tightly is applied first, and of two that bind alike the
      first one. */
  lemma Precedence(a: string, t: Token, b: string, u: Token, c: string)
    requires TypeOf(a) == TypeOf(b) == TypeOf(c) == Literals && Meant(t).Some? && Meant(u).Some?
    ensures var ((f, k), (g, l)) := (Meant(t).value, Meant(u).value);
      Parse(0, [a, t, b, u, c]) == Some((
        if k >= l then Binary(g, Binary(f, Literal(a), Literal(b)), Literal(c))
        else Binary(f, Literal(a), Binary(g, Literal(b), Literal(c))), []))
  {
    var ((f, k), (g, l)) := (Meant(t).value, Meant(u).value);
    MeantIs(t);
    MeantIs(u);
    var e := if k >= l then Binary(g, Binary(f, Literal(a), Literal(b)), Literal(c))
      else Binary(f, Literal(a), Binary(g, Literal(b), Literal(c)));
    var ts := [a, t, b, u, c];
    hide Parse, ParseFactor;
    PrintedLiteral(a, OpLevel(f));
    if k >= l {
      PrintedPair(l, f, a, b);
      PrintedLiteral(c, l + 1);
      assert [a, t, b] + [u] + [c] == ts;
    } else {
      PrintedPair(k + 1, g, b, c);
      assert [a] + [t] + [b, u, c] == ts;
    }
    assert ts + [] == ts;
    RoundTrip(0, e, []);
  }

  /** `!` binds more tightly than any of them. */
  lemma NotBindsTightest(a: string, t: Token, b: string)
    requires TypeOf(a) == TypeOf(b) == Literals && Meant(t).Some?
    ensures Parse(0, ["!", a, t, b]) == Some((Binary(Meant(t).value.0, Not(Literal(a)), Literal(b)), []))
  {
    var (f, k) := Meant(t).value;
    MeantIs(t);
    var e := Binary(f, Not(Literal(a)), Literal(b));
    hide Parse, ParseFactor;
    PrintedLiteral(a, FACTOR);
    PrintedLiteral(b, k + 1);
    assert Print(k, e.left) == ["!", a];
    assert ["!", a] + [t] + [b] == ["!", a, t, b] && ["!", a, t, b] + [] == ["!", a, t, b];
    RoundTrip(0, e, []);
  }

  // ----- two oddities of statements -----

  /** An `else` with nothing behind it is taken, and counts for nothing. */
  lemma ElseAtTheEnd(c: Expr, t: Stmt)
    requires Printable(c) && PrintableStmt(t) && !EndsOpen(t)
    ensures ParseStatement(["if", "("] + (Print(0, c) + ([")"] + (PrintStmt(t) + ["else"])))) == Some((If(c, t, None), []))
  {
    hide Print, Printable, PrintStmt, PrintableStmt, ParseExprThen;
    var rest := PrintStmt(t) + ["else"];
    var ts := ["("] + (Print(0, c) + ([")"] + rest));
    assert (["if", "("] + (Print(0, c) + ([")"] + rest)))[1..] == ts;
    assert ts[1..] == Print(0, c) + ([")"] + rest);
    ExprThen(c, ")", rest);
    StmtRoundTrip(t, ["else"]);
    assert ["else"][1..] == [];
    hide ParseStatement;
    IfWithoutElse(ts, c, t);
    StartsWithIf(["if", "("] + (Print(0, c) + ([")"] + rest)));
  }

  lemma IfWithoutElse(ts: seq<Token>, c: Expr, t: Stmt)
    requires ts != [] && ts[0] == "(" && ParseExprThen(ts[1..], ")").Some?
    requires ParseExprThen(ts[1..], ")").value.0 == c
    requires ParseStatement(ParseExprThen(ts[1..], ")").value.1) == Some((t, ["else"]))
    ensures ParseIf(ts) == Some((If(c, t, None), []))
  {
    assert ["else"][1..] == [];
  }

  lemma StartsWithIf(ts: seq<Token>)
    requires ts != [] && ts[0] == "if"
    ensures ParseStatement(ts) == ParseIf(ts[1..])
  {
  }

  /** A loop whose update is a plain name or number is refused: the token is not consumed, and is not the
      closing parenthesis that has to follow. */
  lemma PlainUpdateIsRefused(i: Stmt, c: Expr, x: Token, rest: seq<Token>)
    requires PrintableStmt(i) && Printable(c) && (TypeOf(x) == Identifiers || TypeOf(x) == Literals)
    ensures ParseStatement(["for", "("] + (PrintStmt(i) + (Print(0, c) + ([";"] + ([x, ")"] + rest))))) == None
  {
    hide Printable, PrintStmt, PrintableStmt, ParseExprThen, ParseStatement;
    var us := [x, ")"] + rest;
    var cs := Print(0, c) + ([";"] + us);
    var ts := ["("] + (PrintStmt(i) + cs);
    assert (["for", "("] + (PrintStmt(i) + cs))[1..] == ts && ts[1..] == PrintStmt(i) + cs;
    FirstIsNotElse(c, [";"] + us);
    StmtRoundTrip(i, cs);
    ExprThen(c, ";", us);
    assert ParseUpdate(us).Some? && ParseUpdate(us).value.1 == us && x != ")";
    StartsWithFor(["for", "("] + (PrintStmt(i) + cs));
  }

  lemma FirstIsNotElse(c: Expr, rest: seq<Token>)
    requires Printable(c)
    ensures Print(0, c) + rest != [] && (Print(0, c) + rest)[0] != "else"
  {
    FirstOfPrint(0, c);
    hide Print, Printable;
    assert (Print(0, c) + rest)[0] == Print(0, c)[0];
  }

  lemma {:induction false} FirstOfPrint(l: nat, e: Expr)
    requires Printable(e)
    ensures Print(l, e) != [] && Print(l, e)[0] != "else"
    decreases e
  {
    match e
    case Binary(op, a, _) => FirstOfPrint(OpLevel(op), a);
    case _ =>
  }

  lemma StartsWithFor(ts: seq<Token>)
    requires ts != [] && ts[0] == "for"
    ensures ParseStatement(ts) == ParseFor(ts[1..])
  {
  }

  // ----- a program, from its tokens to its result -----

  /** Doubles the sum of the numbers below `n`. */
  function Tokens(): seq<Token> {
    ["{", "int", "s", "=", "0", ";"] +
    ["for", "(", "int", "i", "=", "0", ";", "i", "<", "n", ";", "i", "++", ")", "s", "=", "s", "+", "i", "*", "2", ";"] +
    ["if", "(", "s", "==", "0", ")", "return", "0", ";", "else", "return", "s", ";"] + ["}"]
  }

  function Start(): Stmt { Declare("s", Some(Literal("0"))) }

  function Sum(): Stmt {
    For(Declare("i", Some(Literal("0"))), Binary(Lt, Identifier("i"), Identifier("n")), Evaluate(Increment("i")),
        Evaluate(Assign("s", Binary(Add, Identifier("s"), Binary(Mul, Identifier("i"), Literal("2"))))))
  }

  function Answer(): Stmt {
    If(Binary(Eq, Identifier("s"), Literal("0")), Return(Some(Literal("0"))), Some(Return(Some(Identifier("s")))))
  }

  function Program(): Stmt { Block([Start(), Sum(), Answer()]) }

  lemma Names()
    ensures TypeOf("s") == TypeOf("i") == TypeOf("n") == Identifiers && TypeOf("0") == TypeOf("2") == Literals
  {
    hide TypeOf;
    assert "s"[0] == 's' && "i"[0] == 'i' && "n"[0] == 'n';
    TokenTypes("s");
    TokenTypes("i");
    TokenTypes("n");
    TokenTypes("0");
    TokenTypes("2");
  }

  lemma PrintedName(x: string, l: nat)
    requires TypeOf(x) == Identifiers && l <= FACTOR
    ensures Printable(Identifier(x)) && Print(l, Identifier(x)) == [x]
  {
    hide TypeOf;
  }

  /** An operator between printed operands. */
  lemma PrintedBinary(l: nat, op: BinOp, a: Expr, b: Expr, xs: seq<Token>, ys: seq<Token>)
    requires l <= OpLevel(op) && Printable(a) && Printable(b) && Print(OpLevel(op), a) == xs && Print(OpLevel(op) + 1, b) == ys
    ensures Printable(Binary(op, a, b)) && Print(l, Binary(op, a, b)) == xs + [OpToken(op)] + ys
  {
    hide OpToken;
  }

  lemma ZeroPrints(x: string)
    requires x == "s" || x == "i"
    ensures var s := Declare(x, Some(Literal("0"))); PrintableStmt(s) && PrintStmt(s) == ["int", x, "=", "0", ";"]
  {
    hide TypeOf;
    Names();
    PrintedLiteral("0", 0);
    hide Print, Printable;
    assert ["int", x, "="] + ["0"] + [";"] == ["int", x, "=", "0", ";"];
  }

  lemma TermPrints()
    ensures var e := Binary(Add, Identifier("s"), Binary(Mul, Identifier("i"), Literal("2")));
      Printable(e) && Print(0, e) == ["s", "+", "i", "*", "2"]
  {
    hide TypeOf, Print, Printable;
    Names();
    PrintedName("s", 3);
    PrintedName("i", 4);
    PrintedLiteral("2", 5);
    PrintedBinary(4, Mul, Identifier("i"), Literal("2"), ["i"], ["2"]);
    PrintedBinary(0, Add, Identifier("s"), Binary(Mul, Identifier("i"), Literal("2")), ["s"], ["i"] + ["*"] + ["2"]);
    assert ["s"] + ["+"] + (["i"] + ["*"] + ["2"]) == ["s", "+", "i", "*", "2"];
  }

  lemma BodyPrints()
    ensures PrintableStmt(Sum().body) && PrintStmt(Sum().body) == ["s", "=", "s", "+", "i", "*", "2", ";"]
  {
    hide TypeOf, Print, Printable;
    Names();
    TermPrints();
    assert ["s", "="] + ["s", "+", "i", "*", "2"] + [";"] == ["s", "=", "s", "+", "i", "*", "2", ";"];
  }

  lemma HeadPrints()
    ensures Printable(Sum().cond) && Print(0, Sum().cond) == ["i", "<", "n"]
    ensures PrintableUpdate(Sum().update.e) && PrintUpdate(Sum().update.e) == ["i", "++"]
  {
    hide TypeOf, Print, Printable;
    Names();
    PrintedName("i", 2);
    PrintedName("n", 3);
    PrintedBinary(0, Lt, Identifier("i"), Identifier("n"), ["i"], ["n"]);
    assert ["i"] + ["<"] + ["n"] == ["i", "<", "n"];
  }

  lemma SumPrints()
    ensures PrintableStmt(Sum())
    ensures PrintStmt(Sum()) ==
      ["for", "(", "int", "i", "=", "0", ";", "i", "<", "n", ";", "i", "++", ")", "s", "=", "s", "+", "i", "*", "2", ";"]
  {
    hide TypeOf, Print, Printable, PrintableUpdate, PrintUpdate;
    ZeroPrints("i");
    HeadPrints();
    BodyPrints();
    LoopPrints(Sum().initStmt, Sum().cond, Sum().update, Sum().body);
    assert ["for", "("] + ["int", "i", "=", "0", ";"] + ["i", "<", "n"] + [";"] + ["i", "++"] + [")"] + ["s", "=", "s", "+", "i", "*", "2", ";"]
      == ["for", "(", "int", "i", "=", "0", ";", "i", "<", "n", ";", "i", "++", ")", "s", "=", "s", "+", "i", "*", "2", ";"];
  }

  lemma LoopPrints(init: Stmt, cond: Expr, update: Stmt, body: Stmt)
    requires PrintableStmt(init) && Printable(cond) && update.Evaluate? && PrintableUpdate(update.e) && PrintableStmt(body)
    ensures PrintableStmt(For(init, cond, update, body))
    ensures PrintStmt(For(init, cond, update, body)) ==
      ["for", "("] + PrintStmt(init) + Print(0, cond) + [";"] + PrintUpdate(update.e) + [")"] + PrintStmt(body)
  {
    hide TypeOf, Print, Printable, PrintableUpdate, PrintUpdate;
  }

  lemma AnswerPrints()
    ensures PrintableStmt(Answer())
    ensures PrintStmt(Answer()) == ["if", "(", "s", "==", "0", ")", "return", "0", ";", "else", "return", "s", ";"]
  {
    hide TypeOf, Print, Printable;
    Names();
    PrintedName("s", 2);
    PrintedName("s", 0);
    PrintedLiteral("0", 3);
    PrintedLiteral("0", 0);
    PrintedBinary(0, Eq, Identifier("s"), Literal("0"), ["s"], ["0"]);
    assert ["s"] + ["=="] + ["0"] == ["s", "==", "0"];
    var (t, e) := (Return(Some(Literal("0"))), Return(Some(Identifier("s"))));
    assert PrintStmt(t) == ["return"] + ["0"] + [";"] == ["return", "0", ";"];
    assert PrintStmt(e) == ["return"] + ["s"] + [";"] == ["return", "s", ";"];
    assert ["if", "("] + ["s", "==", "0"] + [")"] + ["return", "0", ";"] + ["else"] + ["return", "s", ";"]
      == ["if", "(", "s", "==", "0", ")", "return", "0", ";", "else", "return", "s", ";"];
  }

  lemma ThreePrint(a: Stmt, b: Stmt, c: Stmt)
    requires PrintableStmt(a) && PrintableStmt(b) && PrintableStmt(c)
    ensures PrintableStmt(Block([a, b, c]))
    ensures PrintStmt(Block([a, b, c])) == ["{"] + PrintStmt(a) + PrintStmt(b) + PrintStmt(c) + ["}"]
  {
    hide PrintStmt, PrintableStmt;
    AppendPrinted(c, []);
    AppendPrinted(b, [c]);
    AppendPrinted(a, [b, c]);
    BlockPrints([a, b, c]);
    assert [a] + [b, c] == [a, b, c] && [b] + [c] == [b, c] && [c] + [] == [c];
  }

  lemma AppendPrinted(s: Stmt, ss: seq<Stmt>)
    requires PrintableStmt(s) && forall i :: 0 <= i < |ss| ==> PrintableStmt(ss[i])
    ensures forall i :: 0 <= i < |ss| + 1 ==> PrintableStmt(([s] + ss)[i])
    ensures PrintStmts([s] + ss) == PrintStmt(s) + PrintStmts(ss) && PrintStmts([]) == []
  {
    hide PrintStmt, PrintableStmt;
    assert ([s] + ss)[1..] == ss;
  }

  lemma BlockPrints(ss: seq<Stmt>)
    requires forall i :: 0 <= i < |ss| ==> PrintableStmt(ss[i])
    ensures PrintableStmt(Block(ss)) && PrintStmt(Block(ss)) == ["{"] + PrintStmts(ss) + ["}"]
  {
  }

  lemma ProgramIsRead()
    ensures ParseStatement(Tokens()) == Some((Program(), []))
  {
    hide ParseStatement, Start, Sum, Answer, PrintStmt, PrintableStmt;
    StartPrints();
    SumPrints();
    AnswerPrints();
    ThreePrint(Start(), Sum(), Answer());
    assert PrintStmt(Program()) + [] == Tokens();
    StmtRoundTrip(Program(), []);
  }

  lemma StartPrints()
    ensures PrintableStmt(Start()) && PrintStmt(Start()) == ["int", "s", "=", "0", ";"]
  {
    hide PrintStmt, PrintableStmt;
    ZeroPrints("s");
  }

  // ----- and what it does -----

  /** Operators and literals mean what one expects. */
  ghost predicate Usual(m: Machine.Meaning) {
    && m.literal("0") == 0 && m.literal("2") == 2
    && (forall a, b :: m.binary(Lt, a, b) == Some(if a < b then 1 else 0))
    && (forall a, b :: m.binary(Eq, a, b) == Some(if a == b then 1 else 0))
    && (forall a, b :: m.binary(Add, a, b) == Some(a + b)) && (forall a, b :: m.binary(Mul, a, b) == Some(a * b))
    && (forall a :: m.increment(a) == a + 1)
  }

  lemma CondIs(m: Machine.Meaning, st: Semantics.Store)
    requires Usual(m)
    ensures Semantics.Eval(m, Sum().cond, st) == Semantics.Value(if Semantics.Lookup(st, "i") < Semantics.Lookup(st, "n") then 1 else 0, st)
  {
    var cond := Sum().cond;
    assert Semantics.Eval(m, cond.left, st) == Semantics.Value(Semantics.Lookup(st, "i"), st);
    assert Semantics.Eval(m, cond.right, st) == Semantics.Value(Semantics.Lookup(st, "n"), st);
  }

  lemma BodyIs(m: Machine.Meaning, st: Semantics.Store)
    requires Usual(m)
    ensures var v := Semantics.Lookup(st, "s") + Semantics.Lookup(st, "i") * 2;
      Semantics.Eval(m, Sum().body.e, st) == Semantics.Value(v, st["s" := v])
  {
    hide Usual;
    var sum := Sum().body.e.right;
    TwiceIs(m, st);
    AddIs(m, sum.left, sum.right, st, Semantics.Lookup(st, "s"), Semantics.Lookup(st, "i") * 2);
  }

  lemma TwiceIs(m: Machine.Meaning, st: Semantics.Store)
    requires Usual(m)
    ensures Semantics.Eval(m, Sum().body.e.right.left, st) == Semantics.Value(Semantics.Lookup(st, "s"), st)
    ensures Semantics.Eval(m, Sum().body.e.right.right, st) == Semantics.Value(Semantics.Lookup(st, "i") * 2, st)
  {
    var e := Sum().body.e.right.right;
    assert Semantics.Eval(m, e.left, st) == Semantics.Value(Semantics.Lookup(st, "i"), st);
    assert Semantics.Eval(m, e.right, st) == Semantics.Value(2, st);
  }

  lemma AddIs(m: Machine.Meaning, l: Expr, r: Expr, st: Semantics.Store, a: int, b: int)
    requires Usual(m) && Semantics.Eval(m, l, st) == Semantics.Value(a, st) && Semantics.Eval(m, r, st) == Semantics.Value(b, st)
    ensures Semantics.Eval(m, Binary(Add, l, r), st) == Semantics.Value(a + b, st)
  {
  }

  /** One round of the loop. */
  lemma OneRound(m: Machine.Meaning, d: Semantics.Dialect, st: Semantics.Store, fuel: nat)
    requires Usual(m) && fuel > 0 && Semantics.Lookup(st, "i") < Semantics.Lookup(st, "n")
    ensures var (i, s) := (Semantics.Lookup(st, "i"), Semantics.Lookup(st, "s"));
      Semantics.Loop(m, d, Sum(), st, fuel) == Semantics.Loop(m, d, Sum(), st["s" := s + i * 2]["i" := i + 1], fuel - 1)
  {
    var (i, s) := (Semantics.Lookup(st, "i"), Semantics.Lookup(st, "s"));
    var st1 := st["s" := s + i * 2];
    CondIs(m, st);
    BodyIs(m, st);
    IncrementIs(m, st1);
    hide Usual, Semantics.Eval;
    assert Semantics.Exec(m, d, Sum().body, st, fuel - 1) == Semantics.Normal(st1);
    assert Semantics.Exec(m, d, Sum().update, st1, fuel - 1) == Semantics.Normal(st1["i" := i + 1]);
    assert Semantics.Iterate(m, d, Sum(), st, fuel) == Semantics.Normal(st1["i" := i + 1]);
  }

  lemma IncrementIs(m: Machine.Meaning, st: Semantics.Store)
    requires Usual(m)
    ensures var i := Semantics.Lookup(st, "i"); Semantics.Eval(m, Sum().update.e, st) == Semantics.Value(i + 1, st["i" := i + 1])
  {
  }

  lemma NextSum(i: int)
    ensures i * (i - 1) + i * 2 == (i + 1) * (i + 1 - 1)
  {
  }

  lemma {:induction false} LoopSums(m: Machine.Meaning, d: Semantics.Dialect, st: Semantics.Store, fuel: nat) returns (end: Semantics.Store)
    requires Usual(m)
    requires 0 <= Semantics.Lookup(st, "i") <= Semantics.Lookup(st, "n") <= Semantics.Lookup(st, "i") + fuel
    requires Semantics.Lookup(st, "s") == Semantics.Lookup(st, "i") * (Semantics.Lookup(st, "i") - 1)
    ensures Semantics.Loop(m, d, Sum(), st, fuel) == Semantics.Normal(end)
    ensures Semantics.Lookup(end, "s") == Semantics.Lookup(st, "n") * (Semantics.Lookup(st, "n") - 1)
    decreases fuel
  {
    hide Usual;
    var (i, s, n) := (Semantics.Lookup(st, "i"), Semantics.Lookup(st, "s"), Semantics.Lookup(st, "n"));
    if i < n {
      OneRound(m, d, st, fuel);
      NextSum(i);
      end := LoopSums(m, d, st["s" := s + i * 2]["i" := i + 1], fuel - 1);
    } else {
      CondIs(m, st);
      end := st;
    }
  }

  /** The program returns twice the sum of the numbers below `n`, under both readings of `if`. */
  lemma ProgramReturns(m: Machine.Meaning, d: Semantics.Dialect, st: Semantics.Store, n: nat) returns (end: Semantics.Store)
    requires Usual(m) && Semantics.Lookup(st, "n") == n
    ensures Semantics.Exec(m, d, Program(), st, n) == Semantics.Exited(end, Some(n * (n - 1)))
  {
    var st1 := st["s" := 0];
    ZeroIs(m, d, "s", st, n);
    end := SumIs(m, d, st1, n);
    AnswerReturns(m, d, end, n);
    hide Usual, Start, Sum, Answer, Semantics.Exec;
    ThreeInARow(m, d, Start(), Sum(), Answer(), st, n);
    assert Semantics.Exec(m, d, Program(), st, n) == Semantics.Exec(m, d, Answer(), end, n);
  }

  lemma ZeroIs(m: Machine.Meaning, d: Semantics.Dialect, x: string, st: Semantics.Store, fuel: nat)
    requires Usual(m)
    ensures Semantics.Exec(m, d, Declare(x, Some(Literal("0"))), st, fuel) == Semantics.Normal(st[x := 0])
  {
    assert Semantics.Eval(m, Literal("0"), st) == Semantics.Value(0, st);
  }

  lemma SumIs(m: Machine.Meaning, d: Semantics.Dialect, st: Semantics.Store, n: nat) returns (end: Semantics.Store)
    requires Usual(m) && Semantics.Lookup(st, "n") == n && Semantics.Lookup(st, "s") == 0
    ensures Semantics.Exec(m, d, Sum(), st, n) == Semantics.Normal(end) && Semantics.Lookup(end, "s") == n * (n - 1)
  {
    ZeroIs(m, d, "i", st, n);
    end := LoopSums(m, d, st["i" := 0], n);
    hide Usual, Semantics.Loop;
    assert Semantics.ExecFor(m, d, Sum(), st, n) == Semantics.Loop(m, d, Sum(), st["i" := 0], n);
  }

  lemma ThreeInARow(m: Machine.Meaning, d: Semantics.Dialect, a: Stmt, b: Stmt, c: Stmt, st: Semantics.Store, fuel: nat)
    requires Semantics.Exec(m, d, a, st, fuel).Normal? && Semantics.Exec(m, d, b, Semantics.Exec(m, d, a, st, fuel).st, fuel).Normal?
    ensures Semantics.Exec(m, d, Block([a, b, c]), st, fuel) ==
      Semantics.Exec(m, d, c, Semantics.Exec(m, d, b, Semantics.Exec(m, d, a, st, fuel).st, fuel).st, fuel)
  {
    var st1 := Semantics.Exec(m, d, a, st, fuel).st;
    var st2 := Semantics.Exec(m, d, b, st1, fuel).st;
    OneFirst(m, d, c, [], st2, fuel);
    OneFirst(m, d, b, [c], st1, fuel);
    OneFirst(m, d, a, [b, c], st, fuel);
    assert [a] + [b, c] == [a, b, c] && [b] + [c] == [b, c] && [c] + [] == [c];
    AllOfBlock(m, d, [a, b, c], st, fuel);
  }

  lemma AllOfBlock(m: Machine.Meaning, d: Semantics.Dialect, ss: seq<Stmt>, st: Semantics.Store, fuel: nat)
    ensures Semantics.Exec(m, d, Block(ss), st, fuel) == Semantics.ExecAll(m, d, ss, st, fuel)
  {
  }

  lemma OneFirst(m: Machine.Meaning, d: Semantics.Dialect, s: Stmt, ss: seq<Stmt>, st: Semantics.Store, fuel: nat)
    ensures var o := Semantics.Exec(m, d, s, st, fuel);
      Semantics.ExecAll(m, d, [s] + ss, st, fuel) == if o.Normal? then Semantics.ExecAll(m, d, ss, o.st, fuel) else o
    ensures Semantics.ExecAll(m, d, [], st, fuel) == Semantics.Normal(st)
  {
    hide Semantics.Exec;
    assert ([s] + ss)[1..] == ss;
  }

  lemma AnswerReturns(m: Machine.Meaning, d: Semantics.Dialect, st: Semantics.Store, fuel: nat)
    requires Usual(m)
    ensures Semantics.Exec(m, d, Answer(), st, fuel) == Semantics.Exited(st, Some(Semantics.Lookup(st, "s")))
  {
    var s := Semantics.Lookup(st, "s");
    var cond := Answer().cond;
    assert Semantics.Eval(m, cond.left, st) == Semantics.Value(s, st);
    assert Semantics.Eval(m, cond.right, st) == Semantics.Value(0, st);
    assert Semantics.Eval(m, cond, st) == Semantics.Value(if s == 0 then 1 else 0, st);
    assert Semantics.Exec(m, d, Answer().thenBlock, st, fuel) == Semantics.Exited(st, Some(0));
    assert Semantics.Exec(m, d, Answer().elseBlock.value, st, fuel) == Semantics.Exited(st, Some(s));
  }

  /** From its tokens to its result: the tokens are read as the program, and whatever code implements it
      comes to a return with twice the sum of the numbers below `n` in eax. */
  lemma TokensToResult(m: Machine.Meaning, prog: seq<Machine.Instr>, s: Machine.State, st: Semantics.Store, n: nat)
    requires Usual(m) && ParseStatement(Tokens()).Some? && Correctness.Implements(prog, ParseStatement(Tokens()).value.0)
    requires s.pc == 0 && ExprSimulation.Agrees(st, s.mem) && Semantics.Lookup(st, "n") == n
    ensures exists k :: var c := Machine.Run(m, prog, Machine.Config(s, Machine.Running), k);
      c.status == Machine.Returned && Machine.Get(c.st.mem, Machine.PReg(Machine.Eax)) == n * (n - 1)
  {
    ProgramIsRead();
    var end := ProgramReturns(m, Semantics.AsCompiled, st, n);
    var k := Correctness.EndIsReached(m, prog, Program(), st, s, n);
    assert Machine.Run(m, prog, Machine.Config(s, Machine.Running), k).status == Machine.Returned;
  }
}
