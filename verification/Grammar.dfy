/** Expressions as token sequences: the grammar that the parser accepts, and a printer. */
module Grammar {
  import opened Wrappers
  import opened Ast

  type Token = string

  datatype TokenType = Keywords | Identifiers | Literals | Operators | Punctuators

  function IsKeyword(t: Token): bool { t in {"int", "return", "if", "else", "for", "syscall"} }

  function IsOperator(t: Token): bool {
    t in {"+", "-", "*", "/", "&&", "||", "!", ">", "<", "==", "!=", ">=", "<=", "++"}
  }

  function IsPunctuator(t: Token): bool { t in {"(", ")", "[", "]", "{", "}", ";", ","} }

  predicate AllDigits(t: Token) { forall i :: 0 <= i < |t| ==> '0' <= t[i] <= '9' }

  /** What the lexer calls a token; whatever it does not know is an identifier. */
  function TypeOf(t: Token): TokenType {
    if IsKeyword(t) then Keywords
    else if IsOperator(t) then Operators
    else if IsPunctuator(t) then Punctuators
    else if AllDigits(t) then Literals
    else Identifiers
  }

  // ----- operators -----

  const FACTOR := 5

  /** The binary operator of a token at precedence level `l`: `||`, `&&`, comparisons, sums, products. */
  function OpAt(l: nat, t: Token): Option<BinOp> {
    if l == 0 then (if t == "||" then Some(Or) else None)
    else if l == 1 then (if t == "&&" then Some(And) else None)
    else if l == 2 then
      (if t == "==" then Some(Eq) else if t == "!=" then Some(Ne) else if t == ">" then Some(Gt)
       else if t == "<" then Some(Lt) else if t == ">=" then Some(Ge) else if t == "<=" then Some(Le) else None)
    else if l == 3 then (if t == "+" then Some(Add) else if t == "-" then Some(Sub) else None)
    else if l == 4 then (if t == "*" then Some(Mul) else if t == "/" then Some(Div) else None)
    else None
  }

  function OpToken(op: BinOp): Token {
    match op
    case Or => "||" case And => "&&"
    case Eq => "==" case Ne => "!=" case Gt => ">" case Lt => "<" case Ge => ">=" case Le => "<="
    case Add => "+" case Sub => "-" case Mul => "*" case Div => "/"
  }

  function OpLevel(op: BinOp): (l: nat)
    ensures l < FACTOR
  {
    match op
    case Or => 0
    case And => 1
    case Eq => 2 case Ne => 2 case Gt => 2 case Lt => 2 case Ge => 2 case Le => 2
    case Add => 3 case Sub => 3
    case Mul => 4 case Div => 4
  }

  /** A token is an operator of one level at most. */
  lemma OpAtLevel(l: nat, op: BinOp)
    ensures OpAt(l, OpToken(op)) == if l == OpLevel(op) then Some(op) else None
    ensures OpToken(op) != "(" && TypeOf(OpToken(op)) == Operators
  {
  }

  // ----- the grammar -----

  /** An expression of level `l` at the head of `ts`, and what is left behind it. */
  function Parse(l: nat, ts: seq<Token>): (r: Option<(Expr, seq<Token>)>)
    requires l <= FACTOR
    ensures r.Some? ==> |r.value.1| < |ts|
    decreases |ts|, FACTOR + 1 - l, 1
  {
    if l == FACTOR then ParseFactor(ts)
    else
      var first := Parse(l + 1, ts);
      if first.None? then None else ParseMore(l, first.value.0, first.value.1)
  }

  /** The operators of level `l` that follow an operand, taken from the left. */
  function ParseMore(l: nat, e: Expr, ts: seq<Token>): (r: Option<(Expr, seq<Token>)>)
    requires l < FACTOR
    ensures r.Some? ==> |r.value.1| <= |ts|
    decreases |ts|, FACTOR + 1 - l, 0
  {
    if ts == [] || OpAt(l, ts[0]).None? then Some((e, ts))
    else
      var right := Parse(l + 1, ts[1..]);
      if right.None? then None
      else ParseMore(l, Binary(OpAt(l, ts[0]).value, e, right.value.0), right.value.1)
  }

  function ParseFactor(ts: seq<Token>): (r: Option<(Expr, seq<Token>)>)
    ensures r.Some? ==> |r.value.1| < |ts|
    decreases |ts|, 0, 0
  {
    if ts == [] then None
    else if ts[0] == "!" then
      var operand := ParseFactor(ts[1..]);
      if operand.None? then None else Some((Not(operand.value.0), operand.value.1))
    else if ts[0] == "(" then
      var inner := Parse(0, ts[1..]);
      if inner.None? || inner.value.1 == [] || inner.value.1[0] != ")" then None
      else Some((inner.value.0, inner.value.1[1..]))
    else if TypeOf(ts[0]) == Literals then Some((Literal(ts[0]), ts[1..]))
    else if TypeOf(ts[0]) == Identifiers then
      if |ts| > 1 && ts[1] == "(" then ParseCall(ts[0], ts[2..]) else Some((Identifier(ts[0]), ts[1..]))
    else None
  }

  /** What follows the opening parenthesis of a call. */
  function ParseCall(func: string, ts: seq<Token>): (r: Option<(Expr, seq<Token>)>)
    ensures r.Some? ==> |r.value.1| < |ts|
    decreases |ts|, FACTOR + 3, 0
  {
    if ts != [] && ts[0] == ")" then Some((Call(func, []), ts[1..]))
    else
      var args := ParseArgs(ts);
      if args.None? || args.value.1 == [] || args.value.1[0] != ")" then None
      else Some((Call(func, args.value.0), args.value.1[1..]))
  }

  function ParseArgs(ts: seq<Token>): (r: Option<(seq<Expr>, seq<Token>)>)
    ensures r.Some? ==> |r.value.1| < |ts|
    decreases |ts|, FACTOR + 2, 0
  {
    var arg := Parse(0, ts);
    if arg.None? then None
    else if arg.value.1 != [] && arg.value.1[0] == "," then
      var more := ParseArgs(arg.value.1[1..]);
      if more.None? then None else Some(([arg.value.0] + more.value.0, more.value.1))
    else Some(([arg.value.0], arg.value.1))
  }

  // ----- the printer -----

  function Level(e: Expr): (l: nat)
    ensures l <= FACTOR
  {
    match e
    case Binary(op, _, _) => OpLevel(op)
    case _ => FACTOR
  }

  /** The trees that the expression grammar can make. */
  predicate Printable(e: Expr) {
    match e
    case Literal(t) => TypeOf(t) == Literals
    case Identifier(n) => TypeOf(n) == Identifiers
    case Binary(_, l, r) => Printable(l) && Printable(r)
    case Not(x) => Printable(x)
    case Call(f, args) => TypeOf(f) == Identifiers && forall i :: 0 <= i < |args| ==> Printable(args[i])
    case _ => false
  }

  /** Prints a tree where an operand of level `l` is wanted: in parentheses if it binds less. */
  function Print(l: nat, e: Expr): seq<Token>
    requires Printable(e)
    decreases e, 1
  {
    if Level(e) < l then ["("] + Bare(e) + [")"] else Bare(e)
  }

  function Bare(e: Expr): seq<Token>
    requires Printable(e)
    decreases e, 0
  {
    match e
    case Literal(t) => [t]
    case Identifier(n) => [n]
    case Binary(op, l, r) => Print(OpLevel(op), l) + [OpToken(op)] + Print(OpLevel(op) + 1, r)
    case Not(x) => ["!"] + Print(FACTOR, x)
    case Call(f, args) => [f, "("] + PrintArgs(args) + [")"]
    case _ => []
  }

  function PrintArgs(args: seq<Expr>): seq<Token>
    requires forall i :: 0 <= i < |args| ==> Printable(args[i])
    decreases args, 0
  {
    if args == [] then []
    else if |args| == 1 then Print(0, args[0])
    else Print(0, args[0]) + [","] + PrintArgs(args[1..])
  }

  // ----- the printer's tokens parse back -----

  /** No token that continues an expression of level `l`. */
  predicate Ends(l: nat, ts: seq<Token>) {
    ts == [] || (ts[0] != "(" && forall k :: l <= k < FACTOR ==> OpAt(k, ts[0]).None?)
  }

  /** Parsing what was printed at level `l` gives back the tree, and stops at the first token that
      cannot extend it. */
  lemma {:induction false} RoundTrip(l: nat, e: Expr, rest: seq<Token>)
    requires l <= FACTOR && Printable(e) && Ends(l, rest)
    ensures Parse(l, Print(l, e) + rest) == Some((e, rest))
    decreases e, l > Level(e), FACTOR - l, 1
  {
    if l == FACTOR {
      FactorRoundTrip(e, rest);
    } else {
      Chain(l, e, rest);
    }
  }

  /** A chain of operators of one level: after the tokens of its tree the loop stands at `rest` with
      that tree. */
  lemma {:induction false} Chain(l: nat, e: Expr, rest: seq<Token>)
    requires l < FACTOR && Printable(e) && Ends(l + 1, rest)
    ensures Parse(l, Print(l, e) + rest) == ParseMore(l, e, rest)
    decreases e, l > Level(e), FACTOR - l, 0
  {
    hide Ends, ParseFactor;
    if Level(e) == l {
      var op, x, y := e.op, e.left, e.right;
      OpAtLevel(l, op);
      var tail := Print(l + 1, y) + rest;
      ChainedOpEnds(l, op, tail);
      Chain(l, x, [OpToken(op)] + tail);
      RoundTrip(l + 1, y, rest);
      assert Print(l, e) + rest == Print(l, x) + ([OpToken(op)] + tail);
      assert ([OpToken(op)] + tail)[1..] == tail;
    } else {
      assert Print(l, e) == Print(l + 1, e);
      RoundTrip(l + 1, e, rest);
    }
  }

  lemma ChainedOpEnds(l: nat, op: BinOp, tail: seq<Token>)
    requires OpLevel(op) == l
    ensures Ends(l + 1, [OpToken(op)] + tail)
  {
    forall k | l + 1 <= k < FACTOR ensures OpAt(k, OpToken(op)).None? {
      OpAtLevel(k, op);
    }
    OpAtLevel(l, op);
  }

  // What `ParseFactor` makes of each kind of factor.

  lemma FactorOfParens(a: seq<Token>, e: Expr, rest: seq<Token>)
    requires Parse(0, a + ([")"] + rest)) == Some((e, [")"] + rest))
    ensures ParseFactor(["("] + a + [")"] + rest) == Some((e, rest))
  {
    assert (["("] + a + [")"] + rest)[1..] == a + ([")"] + rest);
    assert ([")"] + rest)[1..] == rest;
  }

  lemma FactorOfNot(a: seq<Token>, x: Expr, rest: seq<Token>)
    requires ParseFactor(a + rest) == Some((x, rest))
    ensures ParseFactor(["!"] + a + rest) == Some((Not(x), rest))
  {
    assert (["!"] + a + rest)[1..] == a + rest;
  }

  lemma FactorOfCall(f: string, a: seq<Token>, e: Expr, rest: seq<Token>)
    requires TypeOf(f) == Identifiers && ParseCall(f, a + [")"] + rest) == Some((e, rest))
    ensures ParseFactor([f, "("] + a + [")"] + rest) == Some((e, rest))
  {
    IdentifierTokens(f);
    assert ([f, "("] + a + [")"] + rest)[2..] == a + [")"] + rest;
  }

  lemma FactorOfAtom(e: Expr, rest: seq<Token>)
    requires (e.Literal? || e.Identifier?) && Printable(e) && Ends(FACTOR, rest)
    ensures ParseFactor(Bare(e) + rest) == Some((e, rest))
  {
    match e
    case Literal(t) =>
      LiteralTokens(t);
      assert ([t] + rest)[1..] == rest;
    case Identifier(n) =>
      IdentifierTokens(n);
      assert ([n] + rest)[1..] == rest;
  }

  lemma {:induction false} FactorRoundTrip(e: Expr, rest: seq<Token>)
    requires Printable(e) && Ends(FACTOR, rest)
    ensures ParseFactor(Print(FACTOR, e) + rest) == Some((e, rest))
    decreases e, FACTOR > Level(e), 0, 0
  {
    hide ParseFactor, Parse, ParseCall, Ends;
    if Level(e) < FACTOR {
      ParenEnds(0, rest);
      RoundTrip(0, e, [")"] + rest);
      FactorOfParens(Print(0, e), e, rest);
    } else {
      match e
      case Not(x) =>
        FactorRoundTrip(x, rest);
        FactorOfNot(Print(FACTOR, x), x, rest);
      case Call(f, args) =>
        CallRoundTrip(f, args, rest);
        FactorOfCall(f, PrintArgs(args), e, rest);
      case _ => FactorOfAtom(e, rest);
    }
  }

  lemma ParenEnds(l: nat, rest: seq<Token>)
    ensures Ends(l, [")"] + rest) && Ends(l, [","] + rest)
  {
  }

  lemma LiteralTokens(t: Token)
    requires TypeOf(t) == Literals
    ensures t != "!" && t != "("
  {
  }

  lemma IdentifierTokens(t: Token)
    requires TypeOf(t) == Identifiers
    ensures t != "!" && t != "("
  {
  }

  lemma {:induction false} CallRoundTrip(f: string, args: seq<Expr>, rest: seq<Token>)
    requires forall i :: 0 <= i < |args| ==> Printable(args[i])
    ensures ParseCall(f, PrintArgs(args) + [")"] + rest) == Some((Call(f, args), rest))
    decreases args, true, 0, 0
  {
    var ts := PrintArgs(args) + [")"] + rest;
    if args == [] {
      assert ts[1..] == rest;
    } else {
      ArgsRoundTrip(args, rest);
      NotClosing(args, [")"] + rest);
      assert ts == PrintArgs(args) + ([")"] + rest);
      assert ([")"] + rest)[1..] == rest;
    }
  }

  lemma {:induction false} ArgsRoundTrip(args: seq<Expr>, rest: seq<Token>)
    requires args != [] && forall i :: 0 <= i < |args| ==> Printable(args[i])
    ensures ParseArgs(PrintArgs(args) + ([")"] + rest)) == Some((args, [")"] + rest))
    decreases args, false, 0, 0
  {
    hide Printable, Print, Ends;
    var tail := [")"] + rest;
    ParenEnds(0, rest);
    if |args| == 1 {
      RoundTrip(0, args[0], tail);
      assert args == [args[0]];
    } else {
      var more := PrintArgs(args[1..]) + tail;
      ParenEnds(0, more);
      RoundTrip(0, args[0], [","] + more);
      ArgsRoundTrip(args[1..], rest);
      assert PrintArgs(args) + tail == Print(0, args[0]) + ([","] + more);
      assert ([","] + more)[1..] == more;
      assert [args[0]] + args[1..] == args;
    }
  }

  /** No printed expression begins with a closing parenthesis. */
  lemma {:induction false} NotClosing(args: seq<Expr>, rest: seq<Token>)
    requires args != [] && forall i :: 0 <= i < |args| ==> Printable(args[i])
    ensures PrintArgs(args) != [] && (PrintArgs(args) + rest)[0] != ")"
  {
    FirstToken(0, args[0]);
  }

  lemma {:induction false} FirstToken(l: nat, e: Expr)
    requires Printable(e)
    ensures Print(l, e) != [] && Print(l, e)[0] != ")"
    decreases e
  {
    match e
    case Binary(op, x, _) => FirstToken(OpLevel(op), x);
    case _ =>
  }

  // ----- what the parser makes can be printed -----

  lemma {:induction false} ParsedPrintable(l: nat, ts: seq<Token>)
    requires l <= FACTOR && Parse(l, ts).Some?
    ensures Printable(Parse(l, ts).value.0)
    decreases |ts|, FACTOR + 1 - l, 1
  {
    if l == FACTOR {
      FactorPrintable(ts);
    } else {
      ParsedPrintable(l + 1, ts);
      var first := Parse(l + 1, ts).value;
      MorePrintable(l, first.0, first.1);
    }
  }

  lemma {:induction false} MorePrintable(l: nat, e: Expr, ts: seq<Token>)
    requires l < FACTOR && Printable(e) && ParseMore(l, e, ts).Some?
    ensures Printable(ParseMore(l, e, ts).value.0)
    decreases |ts|, FACTOR + 1 - l, 0
  {
    if ts != [] && OpAt(l, ts[0]).Some? {
      ParsedPrintable(l + 1, ts[1..]);
      var right := Parse(l + 1, ts[1..]).value;
      MorePrintable(l, Binary(OpAt(l, ts[0]).value, e, right.0), right.1);
    }
  }

  lemma {:induction false} FactorPrintable(ts: seq<Token>)
    requires ParseFactor(ts).Some?
    ensures Printable(ParseFactor(ts).value.0)
    decreases |ts|, 0, 0
  {
    if ts[0] == "!" {
      FactorPrintable(ts[1..]);
    } else if ts[0] == "(" {
      ParsedPrintable(0, ts[1..]);
    } else if TypeOf(ts[0]) == Identifiers && |ts| > 1 && ts[1] == "(" {
      CallPrintable(ts[0], ts[2..]);
    }
  }

  lemma {:induction false} CallPrintable(func: string, ts: seq<Token>)
    requires TypeOf(func) == Identifiers && ParseCall(func, ts).Some?
    ensures ParseCall(func, ts).value.0.Call? && Printable(ParseCall(func, ts).value.0)
    decreases |ts|, FACTOR + 3, 0
  {
    if !(ts != [] && ts[0] == ")") {
      ArgsPrintable(ts);
    }
  }

  lemma {:induction false} ArgsPrintable(ts: seq<Token>)
    requires ParseArgs(ts).Some?
    ensures forall i :: 0 <= i < |ParseArgs(ts).value.0| ==> Printable(ParseArgs(ts).value.0[i])
    decreases |ts|, FACTOR + 2, 0
  {
    ParsedPrintable(0, ts);
    var arg := Parse(0, ts).value;
    if arg.1 != [] && arg.1[0] == "," {
      ArgsPrintable(arg.1[1..]);
    }
  }

  /** Printing what has been parsed, and parsing that, gives the same tree again. */
  lemma Reparse(ts: seq<Token>, rest: seq<Token>)
    requires Parse(0, ts).Some? && Ends(0, rest)
    ensures Printable(Parse(0, ts).value.0)
    ensures Parse(0, Print(0, Parse(0, ts).value.0) + rest) == Some((Parse(0, ts).value.0, rest))
  {
    ParsedPrintable(0, ts);
    RoundTrip(0, Parse(0, ts).value.0, rest);
  }
}
