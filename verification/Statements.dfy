/** Statements as token sequences: the grammar that the parser accepts, and a printer. */
module Statements {
  import opened Wrappers
  import opened Ast
  import opened Grammar

  /** The token `i` places ahead; the empty one behind the end. */
  function Ahead(ts: seq<Token>, i: nat): Token { if i < |ts| then ts[i] else "" }

  /** What is left after a token that has to be there. */
  function Expect(t: Token, ts: seq<Token>): (r: Option<seq<Token>>)
    ensures r.Some? ==> ts != [] && ts[0] == t && r.value == ts[1..]
  {
    if ts != [] && ts[0] == t then Some(ts[1..]) else None
  }

  function ParseExpr(ts: seq<Token>): (r: Option<(Expr, seq<Token>)>)
    ensures r.Some? ==> |r.value.1| < |ts|
  {
    Parse(0, ts)
  }

  /** An expression with a token behind it. */
  function ParseExprThen(ts: seq<Token>, t: Token): (r: Option<(Expr, seq<Token>)>)
    ensures r.Some? ==> |r.value.1| < |ts|
  {
    var e := ParseExpr(ts);
    if e.None? || Expect(t, e.value.1).None? then None
    else Some((e.value.0, Expect(t, e.value.1).value))
  }

  // ----- the grammar -----

  function ParseStatement(ts: seq<Token>): (r: Option<(Stmt, seq<Token>)>)
    ensures r.Some? ==> |r.value.1| < |ts|
    decreases |ts|, 1
  {
    if ts == [] then None
    else if ts[0] == "return" then ParseReturn(ts[1..])
    else if ts[0] == "if" then ParseIf(ts[1..])
    else if ts[0] == "int" && Ahead(ts, 1) != "(" then ParseDeclaration(ts[1..])
    else if ts[0] == "for" then ParseFor(ts[1..])
    else if ts[0] == "{" then
      var b := ParseBlock(ts[1..]);
      if b.None? then None else Some((Block(b.value.0), b.value.1))
    else if TypeOf(ts[0]) == Identifiers then ParseSimple(ts)
    else None
  }

  function ParseReturn(ts: seq<Token>): (r: Option<(Stmt, seq<Token>)>)
    ensures r.Some? ==> |r.value.1| < |ts|
  {
    if Expect(";", ts).Some? then Some((Return(None), ts[1..]))
    else
      var e := ParseExprThen(ts, ";");
      if e.None? then None else Some((Return(Some(e.value.0)), e.value.1))
  }

  function ParseDeclaration(ts: seq<Token>): (r: Option<(Stmt, seq<Token>)>)
    ensures r.Some? ==> |r.value.1| < |ts|
  {
    if ts == [] || TypeOf(ts[0]) != Identifiers then None
    else if Ahead(ts, 1) == "=" then
      var e := ParseExprThen(ts[2..], ";");
      if e.None? then None else Some((Declare(ts[0], Some(e.value.0)), e.value.1))
    else if Ahead(ts, 1) == ";" then Some((Declare(ts[0], None), ts[2..]))
    else None
  }

  /** An assignment, a call or an increment, with its semicolon. */
  function ParseSimple(ts: seq<Token>): (r: Option<(Stmt, seq<Token>)>)
    requires ts != []
    ensures r.Some? ==> |r.value.1| < |ts|
  {
    if Ahead(ts, 1) == "=" then
      var e := ParseExprThen(ts[2..], ";");
      if e.None? then None else Some((Evaluate(Assign(ts[0], e.value.0)), e.value.1))
    else if Ahead(ts, 1) == "(" then
      var c := ParseCall(ts[0], ts[2..]);
      if c.None? || Expect(";", c.value.1).None? then None
      else Some((Evaluate(c.value.0), Expect(";", c.value.1).value))
    else if Ahead(ts, 1) == "++" then
      if Expect(";", ts[2..]).None? then None else Some((Evaluate(Increment(ts[0])), ts[3..]))
    else None
  }

  /** What follows `if`. An `else` at the very end of the tokens has no statement. */
  function ParseIf(ts: seq<Token>): (r: Option<(Stmt, seq<Token>)>)
    ensures r.Some? ==> |r.value.1| < |ts|
    decreases |ts|, 0
  {
    if Expect("(", ts).None? then None
    else
      var c := ParseExprThen(ts[1..], ")");
      if c.None? then None
      else
        var t := ParseStatement(c.value.1);
        if t.None? then None
        else if Expect("else", t.value.1).None? then Some((If(c.value.0, t.value.0, None), t.value.1))
        else
          var rest := t.value.1[1..];
          if rest == [] then Some((If(c.value.0, t.value.0, None), rest))
          else
            var e := ParseStatement(rest);
            if e.None? then None else Some((If(c.value.0, t.value.0, Some(e.value.0)), e.value.1))
  }

  /** What follows `for`. */
  function ParseFor(ts: seq<Token>): (r: Option<(Stmt, seq<Token>)>)
    ensures r.Some? ==> |r.value.1| < |ts|
    decreases |ts|, 0
  {
    if Expect("(", ts).None? then None
    else
      var i := ParseStatement(ts[1..]);
      if i.None? then None
      else
        var c := ParseExprThen(i.value.1, ";");
        if c.None? then None
        else
          var u := ParseUpdate(c.value.1);
          if u.None? || Expect(")", u.value.1).None? then None
          else
            var b := ParseStatement(u.value.1[1..]);
            if b.None? then None
            else Some((For(i.value.0, c.value.0, Evaluate(u.value.0), b.value.0), b.value.1))
  }

  /** The update of a loop, without a semicolon. A plain name or number is returned but stays where
      it is. */
  function ParseUpdate(ts: seq<Token>): (r: Option<(Expr, seq<Token>)>)
    ensures r.Some? ==> |r.value.1| <= |ts|
  {
    if ts == [] then None
    else if TypeOf(ts[0]) == Identifiers then
      if Ahead(ts, 1) == "=" then
        var e := ParseExpr(ts[2..]);
        if e.None? then None else Some((Assign(ts[0], e.value.0), e.value.1))
      else if Ahead(ts, 1) == "++" then Some((Increment(ts[0]), ts[2..]))
      else if Ahead(ts, 1) == "(" then ParseCall(ts[0], ts[2..])
      else Some((Identifier(ts[0]), ts))
    else if TypeOf(ts[0]) == Literals then Some((Literal(ts[0]), ts))
    else ParseExpr(ts)
  }

  /** The statements of a block, up to and with its closing brace. */
  function ParseBlock(ts: seq<Token>): (r: Option<(seq<Stmt>, seq<Token>)>)
    ensures r.Some? ==> |r.value.1| < |ts|
    decreases |ts|, 2
  {
    if ts == [] then None
    else if ts[0] == "}" then Some(([], ts[1..]))
    else
      var s := ParseStatement(ts);
      if s.None? then None
      else
        var more := ParseBlock(s.value.1);
        if more.None? then None else Some(([s.value.0] + more.value.0, more.value.1))
  }

  // ----- the printer -----

  /** The statement ends in an `if` that would take an `else` behind it. */
  predicate EndsOpen(s: Stmt) {
    match s
    case If(_, _, None) => true
    case If(_, _, Some(e)) => EndsOpen(e)
    case For(_, _, _, b) => EndsOpen(b)
    case _ => false
  }

  /** The statements that the grammar can make: an `if` with an `else` does not have one without as
      the end of its first branch. */
  predicate PrintableStmt(s: Stmt) {
    match s
    case Block(ss) => forall i :: 0 <= i < |ss| ==> PrintableStmt(ss[i])
    case Return(None) => true
    case Return(Some(e)) => Printable(e)
    case Evaluate(e) => PrintableSimple(e)
    case Declare(n, None) => TypeOf(n) == Identifiers
    case Declare(n, Some(e)) => TypeOf(n) == Identifiers && Printable(e)
    case If(c, t, None) => Printable(c) && PrintableStmt(t)
    case If(c, t, Some(e)) => Printable(c) && PrintableStmt(t) && !EndsOpen(t) && PrintableStmt(e)
    case For(i, c, u, b) => PrintableStmt(i) && Printable(c) && u.Evaluate? && PrintableUpdate(u.e) && PrintableStmt(b)
  }

  predicate PrintableSimple(e: Expr) {
    match e
    case Assign(n, x) => TypeOf(n) == Identifiers && Printable(x)
    case Increment(n) => TypeOf(n) == Identifiers
    case Call(_, _) => Printable(e)
    case _ => false
  }

  /** A loop's update: what could be a statement, or any expression, which is put in parentheses. */
  predicate PrintableUpdate(e: Expr) {
    PrintableSimple(e) || Printable(e)
  }

  function PrintStmt(s: Stmt): seq<Token>
    requires PrintableStmt(s)
    decreases s, 0
  {
    match s
    case Block(ss) => ["{"] + PrintStmts(ss) + ["}"]
    case Return(None) => ["return", ";"]
    case Return(Some(e)) => ["return"] + Print(0, e) + [";"]
    case Evaluate(e) => PrintSimple(e) + [";"]
    case Declare(n, None) => ["int", n, ";"]
    case Declare(n, Some(e)) => ["int", n, "="] + Print(0, e) + [";"]
    case If(c, t, None) => ["if", "("] + Print(0, c) + [")"] + PrintStmt(t)
    case If(c, t, Some(e)) => ["if", "("] + Print(0, c) + [")"] + PrintStmt(t) + ["else"] + PrintStmt(e)
    case For(i, c, u, b) =>
      ["for", "("] + PrintStmt(i) + Print(0, c) + [";"] + PrintUpdate(u.e) + [")"] + PrintStmt(b)
  }

  function PrintStmts(ss: seq<Stmt>): seq<Token>
    requires forall i :: 0 <= i < |ss| ==> PrintableStmt(ss[i])
    decreases ss, 0
  {
    if ss == [] then [] else PrintStmt(ss[0]) + PrintStmts(ss[1..])
  }

  function PrintSimple(e: Expr): seq<Token>
    requires PrintableSimple(e)
  {
    match e
    case Assign(n, x) => [n, "="] + Print(0, x)
    case Increment(n) => [n, "++"]
    case Call(_, _) => Print(0, e)
    case _ => []
  }

  function PrintUpdate(e: Expr): seq<Token>
    requires PrintableUpdate(e)
  {
    if PrintableSimple(e) then PrintSimple(e) else ["("] + Print(0, e) + [")"]
  }

  // ----- round trip -----

  /** Nothing that the statement would take as its own. */
  predicate StmtEnds(s: Stmt, rest: seq<Token>) {
    EndsOpen(s) ==> rest == [] || rest[0] != "else"
  }

  lemma SemicolonEnds(rest: seq<Token>)
    ensures Ends(0, [";"] + rest) && Ends(0, [")"] + rest)
  {
  }

  lemma ExprThen(e: Expr, t: Token, rest: seq<Token>)
    requires Printable(e) && (t == ";" || t == ")")
    ensures ParseExprThen(Print(0, e) + ([t] + rest), t) == Some((e, rest))
  {
    SemicolonEnds(rest);
    RoundTrip(0, e, [t] + rest);
    assert ([t] + rest)[1..] == rest;
  }

  /** No printed statement begins like the end of a block or an `else`. */
  lemma {:induction false} FirstOfStmt(s: Stmt)
    requires PrintableStmt(s)
    ensures PrintStmt(s) != [] && PrintStmt(s)[0] != "}" && PrintStmt(s)[0] != "else"
  {
    if s.Evaluate? && s.e.Call? {
      CallTokens(s.e);
    }
  }

  lemma CallTokens(e: Expr)
    requires e.Call? && Printable(e)
    ensures Print(0, e) == [e.func, "("] + (PrintArgs(e.args) + [")"])
  {
    assert Bare(e) == [e.func, "("] + PrintArgs(e.args) + [")"];
  }

  lemma {:induction false} ExprIsNoElse(l: nat, e: Expr)
    requires Printable(e)
    ensures Print(l, e) != [] && Print(l, e)[0] != "else" && Print(l, e)[0] != ";"
    decreases e
  {
    match e
    case Binary(op, x, _) => ExprIsNoElse(OpLevel(op), x);
    case _ =>
  }

  lemma ReturnRoundTrip(e: Expr, rest: seq<Token>)
    requires Printable(e)
    ensures ParseStatement(PrintStmt(Return(Some(e))) + rest) == Some((Return(Some(e)), rest))
  {
    var ts := PrintStmt(Return(Some(e))) + rest;
    ExprThen(e, ";", rest);
    ExprIsNoElse(0, e);
    assert ts[1..] == Print(0, e) + ([";"] + rest);
  }

  lemma DeclarationRoundTrip(n: string, e: Expr, rest: seq<Token>)
    requires TypeOf(n) == Identifiers && Printable(e)
    ensures ParseStatement(PrintStmt(Declare(n, Some(e))) + rest) == Some((Declare(n, Some(e)), rest))
  {
    var ts := PrintStmt(Declare(n, Some(e))) + rest;
    ExprThen(e, ";", rest);
    IdentifierTokens(n);
    assert ts == ["int", n, "="] + (Print(0, e) + ([";"] + rest));
    assert ts[1..] == [n, "="] + (Print(0, e) + ([";"] + rest));
    assert ts[1..][2..] == Print(0, e) + ([";"] + rest);
  }

  lemma PlainDeclarationRoundTrip(n: string, rest: seq<Token>)
    requires TypeOf(n) == Identifiers
    ensures ParseStatement(PrintStmt(Declare(n, None)) + rest) == Some((Declare(n, None), rest))
  {
    var ts := ["int", n, ";"] + rest;
    IdentifierTokens(n);
    assert ts[1..] == [n, ";"] + rest;
    assert ts[1..][2..] == rest;
  }

  /** An assignment, an increment or a call, up to the token behind it. */
  lemma SimpleTokens(e: Expr, tail: seq<Token>)
    requires PrintableSimple(e) && Ends(0, tail)
    ensures var ts := PrintSimple(e) + tail;
      && |ts| > 1 && TypeOf(ts[0]) == Identifiers
      && (e.Assign? ==> ts[0] == e.name && ts[1] == "=" && Parse(0, ts[2..]) == Some((e.right, tail)))
      && (e.Increment? ==> ts[0] == e.name && ts[1] == "++" && ts[2..] == tail)
      && (e.Call? ==> ts[0] == e.func && ts[1] == "(" && ParseCall(ts[0], ts[2..]) == Some((e, tail)))
  {
    hide Ends, Parse;
    var ts := PrintSimple(e) + tail;
    if e.Assign? {
      RoundTrip(0, e.right, tail);
      assert ts[2..] == Print(0, e.right) + tail;
    } else if e.Call? {
      CallSimple(e, tail);
    }
  }

  lemma CallSimple(e: Expr, tail: seq<Token>)
    requires e.Call? && Printable(e)
    ensures var ts := Print(0, e) + tail;
      |ts| > 1 && ts[0] == e.func && ts[1] == "(" && ParseCall(ts[0], ts[2..]) == Some((e, tail))
  {
    hide Print, PrintArgs, ParseCall;
    var ts := Print(0, e) + tail;
    var inner := PrintArgs(e.args) + [")"] + tail;
    CallTokens(e);
    CallRoundTrip(e.func, e.args, tail);
    assert ts == [e.func, "("] + inner && ts[2..] == inner;
  }

  lemma SimpleRoundTrip(e: Expr, rest: seq<Token>)
    requires PrintableSimple(e)
    ensures ParseStatement(PrintStmt(Evaluate(e)) + rest) == Some((Evaluate(e), rest))
  {
    var tail := [";"] + rest;
    SemicolonEnds(rest);
    SimpleTokens(e, tail);
    var ts := PrintSimple(e) + tail;
    assert PrintStmt(Evaluate(e)) + rest == ts;
    assert tail[1..] == rest;
    assert e.Increment? ==> ts[3..] == rest;
  }

  lemma UpdateRoundTrip(e: Expr, rest: seq<Token>)
    requires PrintableUpdate(e)
    ensures ParseUpdate(PrintUpdate(e) + ([")"] + rest)) == Some((e, [")"] + rest))
  {
    var tail := [")"] + rest;
    SemicolonEnds(rest);
    if PrintableSimple(e) {
      SimpleTokens(e, tail);
    } else {
      InParentheses(0, e, tail);
      assert PrintUpdate(e) + tail == ["("] + (Print(0, e) + ([")"] + tail));
    }
  }

  lemma {:induction false} InParentheses(l: nat, e: Expr, tail: seq<Token>)
    requires l <= FACTOR && Printable(e) && Ends(l, tail)
    ensures Parse(l, ["("] + (Print(0, e) + ([")"] + tail))) == Some((e, tail))
    decreases FACTOR - l
  {
    if l == FACTOR {
      var inner := Print(0, e) + ([")"] + tail);
      ParenEnds(0, tail);
      RoundTrip(0, e, [")"] + tail);
      assert (["("] + inner)[1..] == inner && ([")"] + tail)[1..] == tail;
    } else {
      InParentheses(l + 1, e, tail);
    }
  }

  /** Parsing the tokens of a printed statement gives back the statement, and stops behind it. */
  lemma {:induction false} StmtRoundTrip(s: Stmt, rest: seq<Token>)
    requires PrintableStmt(s) && StmtEnds(s, rest)
    ensures ParseStatement(PrintStmt(s) + rest) == Some((s, rest))
    decreases s, 1
  {
    hide StmtEnds, PrintStmts;
    match s
    case Block(ss) =>
      BlockRoundTrip(ss, rest);
      assert PrintStmt(s) + rest == ["{"] + (PrintStmts(ss) + (["}"] + rest));
    case Return(None) =>
      assert (PrintStmt(s) + rest)[1..] == [";"] + rest;
    case Return(Some(e)) => ReturnRoundTrip(e, rest);
    case Evaluate(e) => SimpleRoundTrip(e, rest);
    case Declare(n, None) => PlainDeclarationRoundTrip(n, rest);
    case Declare(n, Some(e)) => DeclarationRoundTrip(n, e, rest);
    case If(c, t, None) => IfRoundTrip(c, t, rest);
    case If(c, t, Some(e)) => IfElseRoundTrip(c, t, e, rest);
    case For(i, c, u, b) => ForRoundTrip(i, c, u, b, rest);
  }

  lemma IfParses(inner: seq<Token>, c: Expr, body: seq<Token>, t: Stmt, rest: seq<Token>)
    requires ParseExprThen(inner, ")") == Some((c, body)) && ParseStatement(body) == Some((t, rest))
    ensures Expect("else", rest).None? ==> ParseStatement(["if", "("] + inner) == Some((If(c, t, None), rest))
    ensures Expect("else", rest).Some? && rest[1..] != [] && ParseStatement(rest[1..]).Some? ==>
      var e := ParseStatement(rest[1..]).value;
      ParseStatement(["if", "("] + inner) == Some((If(c, t, Some(e.0)), e.1))
  {
    var ts := ["if", "("] + inner;
    assert ts[1..] == ["("] + inner && ts[1..][1..] == inner;
  }

  lemma ForParses(inner: seq<Token>, i: Stmt, cond: seq<Token>, c: Expr, update: seq<Token>, u: Expr, after: seq<Token>, b: Stmt, rest: seq<Token>)
    requires ParseStatement(inner) == Some((i, cond)) && ParseExprThen(cond, ";") == Some((c, update))
    requires ParseUpdate(update) == Some((u, after)) && Expect(")", after).Some? && ParseStatement(after[1..]) == Some((b, rest))
    ensures ParseStatement(["for", "("] + inner) == Some((For(i, c, Evaluate(u), b), rest))
  {
    var ts := ["for", "("] + inner;
    assert ts[1..] == ["("] + inner && ts[1..][1..] == inner;
  }

  lemma PrintedIf(c: Expr, t: Stmt, rest: seq<Token>)
    requires PrintableStmt(If(c, t, None))
    ensures PrintStmt(If(c, t, None)) + rest == ["if", "("] + (Print(0, c) + ([")"] + (PrintStmt(t) + rest)))
  {
  }

  lemma PrintedIfElse(c: Expr, t: Stmt, e: Stmt, rest: seq<Token>)
    requires PrintableStmt(If(c, t, Some(e)))
    ensures PrintStmt(If(c, t, Some(e))) + rest
      == ["if", "("] + (Print(0, c) + ([")"] + (PrintStmt(t) + (["else"] + (PrintStmt(e) + rest)))))
  {
  }

  lemma PrintedFor(i: Stmt, c: Expr, u: Stmt, b: Stmt, rest: seq<Token>)
    requires PrintableStmt(For(i, c, u, b))
    ensures PrintStmt(For(i, c, u, b)) + rest
      == ["for", "("] + (PrintStmt(i) + (Print(0, c) + ([";"] + (PrintUpdate(u.e) + ([")"] + (PrintStmt(b) + rest))))))
  {
  }

  lemma {:induction false} IfRoundTrip(c: Expr, t: Stmt, rest: seq<Token>)
    requires PrintableStmt(If(c, t, None)) && StmtEnds(If(c, t, None), rest)
    ensures ParseStatement(PrintStmt(If(c, t, None)) + rest) == Some((If(c, t, None), rest))
    decreases If(c, t, None), 0
  {
    var body := PrintStmt(t) + rest;
    PrintedIf(c, t, rest);
    ExprThen(c, ")", body);
    StmtRoundTrip(t, rest);
    IfParses(Print(0, c) + ([")"] + body), c, body, t, rest);
  }

  lemma {:induction false} IfElseRoundTrip(c: Expr, t: Stmt, e: Stmt, rest: seq<Token>)
    requires PrintableStmt(If(c, t, Some(e))) && StmtEnds(If(c, t, Some(e)), rest)
    ensures ParseStatement(PrintStmt(If(c, t, Some(e))) + rest) == Some((If(c, t, Some(e)), rest))
    decreases If(c, t, Some(e)), 0
  {
    var last := PrintStmt(e) + rest;
    var other := ["else"] + last;
    var body := PrintStmt(t) + other;
    PrintedIfElse(c, t, e, rest);
    ExprThen(c, ")", body);
    StmtRoundTrip(t, other);
    StmtRoundTrip(e, rest);
    FirstOfStmt(e);
    assert other[1..] == last;
    IfParses(Print(0, c) + ([")"] + body), c, body, t, other);
  }

  lemma {:induction false} ForRoundTrip(i: Stmt, c: Expr, u: Stmt, b: Stmt, rest: seq<Token>)
    requires PrintableStmt(For(i, c, u, b)) && StmtEnds(For(i, c, u, b), rest)
    ensures ParseStatement(PrintStmt(For(i, c, u, b)) + rest) == Some((For(i, c, u, b), rest))
    decreases For(i, c, u, b), 0
  {
    var body := PrintStmt(b) + rest;
    var after := [")"] + body;
    var update := PrintUpdate(u.e) + after;
    var cond := Print(0, c) + ([";"] + update);
    PrintedFor(i, c, u, b, rest);
    CondIsNoElse(c, [";"] + update);
    StmtRoundTrip(i, cond);
    ExprThen(c, ";", update);
    UpdateRoundTrip(u.e, body);
    assert after[1..] == body;
    StmtRoundTrip(b, rest);
    ForParses(PrintStmt(i) + cond, i, cond, c, update, u.e, after, b, rest);
  }

  lemma CondIsNoElse(c: Expr, tail: seq<Token>)
    requires Printable(c)
    ensures Print(0, c) + tail != [] && (Print(0, c) + tail)[0] != "else"
  {
    ExprIsNoElse(0, c);
  }

  lemma {:induction false} BlockRoundTrip(ss: seq<Stmt>, rest: seq<Token>)
    requires forall i :: 0 <= i < |ss| ==> PrintableStmt(ss[i])
    ensures ParseBlock(PrintStmts(ss) + (["}"] + rest)) == Some((ss, rest))
    decreases ss, 0
  {
    hide PrintableStmt, PrintStmt;
    var tail := ["}"] + rest;
    if ss == [] {
      assert PrintStmts(ss) + tail == tail && tail[1..] == rest;
    } else {
      var more := PrintStmts(ss[1..]) + tail;
      var ts := PrintStmts(ss) + tail;
      assert ts == PrintStmt(ss[0]) + more;
      FirstOfStmt(ss[0]);
      NotElse(ss[1..], rest);
      StmtRoundTrip(ss[0], more);
      BlockRoundTrip(ss[1..], rest);
      assert [ss[0]] + ss[1..] == ss;
      assert ts[0] != "}" && ParseStatement(ts) == Some((ss[0], more));
    }
  }

  lemma NotElse(ss: seq<Stmt>, rest: seq<Token>)
    requires forall i :: 0 <= i < |ss| ==> PrintableStmt(ss[i])
    ensures (PrintStmts(ss) + (["}"] + rest))[0] != "else"
  {
    if ss != [] {
      FirstOfStmt(ss[0]);
    }
  }

  // ----- what the parser makes can be printed -----

  /** Every parsed statement can be printed; and if it ends in an `if` without an `else`, there was no
      `else` to take. */
  lemma {:induction false} ParsedStatement(ts: seq<Token>)
    requires ParseStatement(ts).Some?
    ensures PrintableStmt(ParseStatement(ts).value.0)
    ensures StmtEnds(ParseStatement(ts).value.0, ParseStatement(ts).value.1)
    decreases |ts|, 1
  {
    if ts[0] == "return" {
      if !Expect(";", ts[1..]).Some? {
        ParsedPrintable(0, ts[1..]);
      }
    } else if ts[0] == "if" {
      ParsedIf(ts[1..]);
    } else if ts[0] == "int" && Ahead(ts, 1) != "(" {
      if Ahead(ts[1..], 1) == "=" {
        ParsedPrintable(0, ts[1..][2..]);
      }
    } else if ts[0] == "for" {
      ParsedFor(ts[1..]);
    } else if ts[0] == "{" {
      ParsedBlock(ts[1..]);
    } else {
      ParsedSimple(ts);
    }
  }

  lemma ParsedSimple(ts: seq<Token>)
    requires ts != [] && TypeOf(ts[0]) == Identifiers && ParseSimple(ts).Some?
    ensures ParseSimple(ts).value.0.Evaluate? && PrintableStmt(ParseSimple(ts).value.0)
  {
    if Ahead(ts, 1) == "=" {
      ParsedPrintable(0, ts[2..]);
    } else if Ahead(ts, 1) == "(" {
      CallPrintable(ts[0], ts[2..]);
    }
  }

  lemma {:induction false} ParsedIf(ts: seq<Token>)
    requires ParseIf(ts).Some?
    ensures PrintableStmt(ParseIf(ts).value.0) && StmtEnds(ParseIf(ts).value.0, ParseIf(ts).value.1)
    decreases |ts|, 0
  {
    ParsedPrintable(0, ts[1..]);
    var c := ParseExprThen(ts[1..], ")").value;
    ParsedStatement(c.1);
    var t := ParseStatement(c.1).value;
    if Expect("else", t.1).Some? && t.1[1..] != [] {
      ParsedStatement(t.1[1..]);
    }
  }

  lemma {:induction false} ParsedFor(ts: seq<Token>)
    requires ParseFor(ts).Some?
    ensures PrintableStmt(ParseFor(ts).value.0) && StmtEnds(ParseFor(ts).value.0, ParseFor(ts).value.1)
    decreases |ts|, 0
  {
    ParsedStatement(ts[1..]);
    var i := ParseStatement(ts[1..]).value;
    ParsedPrintable(0, i.1);
    var c := ParseExprThen(i.1, ";").value;
    ParsedUpdate(c.1);
    var u := ParseUpdate(c.1).value;
    ParsedStatement(u.1[1..]);
  }

  lemma ParsedUpdate(ts: seq<Token>)
    requires ParseUpdate(ts).Some? && Expect(")", ParseUpdate(ts).value.1).Some?
    ensures PrintableUpdate(ParseUpdate(ts).value.0)
  {
    if TypeOf(ts[0]) == Identifiers {
      if Ahead(ts, 1) == "=" {
        ParsedPrintable(0, ts[2..]);
      } else if Ahead(ts, 1) == "(" {
        CallPrintable(ts[0], ts[2..]);
      }
    } else {
      ParsedPrintable(0, ts);
    }
  }

  lemma {:induction false} ParsedBlock(ts: seq<Token>)
    requires ParseBlock(ts).Some?
    ensures forall i :: 0 <= i < |ParseBlock(ts).value.0| ==> PrintableStmt(ParseBlock(ts).value.0[i])
    decreases |ts|, 2
  {
    if ts[0] != "}" {
      ParsedStatement(ts);
      ParsedBlock(ParseStatement(ts).value.1);
    }
  }

  /** Printing a parsed statement and parsing that gives the same statement again, whatever follows
      that is not an `else`. */
  lemma ReparseStatement(ts: seq<Token>, rest: seq<Token>)
    requires ParseStatement(ts).Some? && (rest == [] || rest[0] != "else")
    ensures PrintableStmt(ParseStatement(ts).value.0)
    ensures ParseStatement(PrintStmt(ParseStatement(ts).value.0) + rest) == Some((ParseStatement(ts).value.0, rest))
  {
    ParsedStatement(ts);
    StmtRoundTrip(ParseStatement(ts).value.0, rest);
  }
}
