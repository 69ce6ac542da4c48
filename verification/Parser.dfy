/** The recursive-descent parser, with its position in the tokens. */
module Parser {
  import opened Wrappers
  import opened Ast
  import opened Grammar
  import opened Statements

  /** What parsing a statement makes: an error, nothing at the end of the tokens, or a statement. */
  datatype Outcome = Failed | Nothing | Made(stmt: Stmt)

  class AST {
    const tokens: seq<Token>
    var currentPos: nat

    constructor (tokenList: seq<Token>)
      ensures Valid() && tokens == tokenList && Left() == tokenList
    {
      tokens, currentPos := tokenList, 0;
    }

    ghost predicate Valid()
      reads this
    {
      currentPos <= |tokens|
    }

    function Left(): seq<Token>
      requires currentPos <= |tokens|
      reads this
    {
      tokens[currentPos..]
    }

    // ----- tokens -----

    predicate IsAtEnd()
      reads this
    {
      currentPos >= |tokens|
    }

    predicate Match(target: Token)
      reads this
    {
      !IsAtEnd() && tokens[currentPos] == target
    }

    /** The token `offset` places ahead; the empty one behind the end. */
    function Peek(offset: nat): Token
      reads this
    {
      if currentPos + offset >= |tokens| then "" else tokens[currentPos + offset]
    }

    method Consume() returns (t: Token)
      requires Valid() && !IsAtEnd()
      modifies this
      ensures Valid() && currentPos == old(currentPos) + 1 && t == old(Left())[0] && Left() == old(Left())[1..]
    {
      t := tokens[currentPos];
      currentPos := currentPos + 1;
    }

    method ExpectToken(target: Token) returns (ok: bool)
      requires Valid()
      modifies this
      ensures Valid() && ok == Expect(target, old(Left())).Some?
      ensures if ok then Left() == Expect(target, old(Left())).value else currentPos == old(currentPos)
    {
      ok := Match(target);
      if ok {
        var _ := Consume();
      }
    }

    // ----- expressions -----

    /** The method has done what the grammar says: made the same tree and stopped at the same place. */
    ghost predicate Did(r: Option<Expr>, p: Option<(Expr, seq<Token>)>)
      reads this
    {
      && Valid() && (r.Some? <==> p.Some?)
      && (r.Some? ==> r.value == p.value.0 && Left() == p.value.1)
    }

    method ParseLogicalOr() returns (r: Option<Expr>)
      requires Valid()
      modifies this
      ensures Did(r, Parse(0, old(Left())))
      decreases |tokens| - currentPos, 6
    {
      var node := ParseLogicalAnd();
      if node.None? {
        return None;
      }
      while Match("||")
        invariant node.Some? && Valid() && currentPos > old(currentPos)
        invariant ParseMore(0, node.value, Left()) == Parse(0, old(Left()))
        decreases |tokens| - currentPos
      {
        var op := Consume();
        var right := ParseLogicalAnd();
        if right.None? {
          return None;
        }
        node := Some(Binary(OpAt(0, op).value, node.value, right.value));
      }
      r := node;
    }

    method ParseLogicalAnd() returns (r: Option<Expr>)
      requires Valid()
      modifies this
      ensures Did(r, Parse(1, old(Left())))
      decreases |tokens| - currentPos, 5
    {
      var node := ParseComparison();
      if node.None? {
        return None;
      }
      while Match("&&")
        invariant node.Some? && Valid() && currentPos > old(currentPos)
        invariant ParseMore(1, node.value, Left()) == Parse(1, old(Left()))
        decreases |tokens| - currentPos
      {
        var op := Consume();
        var right := ParseComparison();
        if right.None? {
          return None;
        }
        node := Some(Binary(OpAt(1, op).value, node.value, right.value));
      }
      r := node;
    }

    method ParseComparison() returns (r: Option<Expr>)
      requires Valid()
      modifies this
      ensures Did(r, Parse(2, old(Left())))
      decreases |tokens| - currentPos, 4
    {
      var node := ParseExpression();
      if node.None? {
        return None;
      }
      while Match("==") || Match("!=") || Match(">") || Match("<") || Match(">=") || Match("<=")
        invariant node.Some? && Valid() && currentPos > old(currentPos)
        invariant ParseMore(2, node.value, Left()) == Parse(2, old(Left()))
        decreases |tokens| - currentPos
      {
        var op := Consume();
        var right := ParseExpression();
        if right.None? {
          return None;
        }
        node := Some(Binary(OpAt(2, op).value, node.value, right.value));
      }
      r := node;
    }

    method ParseExpression() returns (r: Option<Expr>)
      requires Valid()
      modifies this
      ensures Did(r, Parse(3, old(Left())))
      decreases |tokens| - currentPos, 3
    {
      var node := ParseTerm();
      if node.None? {
        return None;
      }
      while Match("+") || Match("-")
        invariant node.Some? && Valid() && currentPos > old(currentPos)
        invariant ParseMore(3, node.value, Left()) == Parse(3, old(Left()))
        decreases |tokens| - currentPos
      {
        var op := Consume();
        var right := ParseTerm();
        if right.None? {
          return None;
        }
        node := Some(Binary(OpAt(3, op).value, node.value, right.value));
      }
      r := node;
    }

    method ParseTerm() returns (r: Option<Expr>)
      requires Valid()
      modifies this
      ensures Did(r, Parse(4, old(Left())))
      decreases |tokens| - currentPos, 2
    {
      var node := ParseFactorAt();
      if node.None? {
        return None;
      }
      while Match("*") || Match("/")
        invariant node.Some? && Valid() && currentPos > old(currentPos)
        invariant ParseMore(4, node.value, Left()) == Parse(4, old(Left()))
        decreases |tokens| - currentPos
      {
        var op := Consume();
        var right := ParseFactorAt();
        if right.None? {
          return None;
        }
        node := Some(Binary(OpAt(4, op).value, node.value, right.value));
      }
      r := node;
    }

    /** Reading behind the end is an error here; the original reads whatever lies there. */
    method ParseFactorAt() returns (r: Option<Expr>)
      requires Valid()
      modifies this
      ensures Did(r, ParseFactor(old(Left())))
      decreases |tokens| - currentPos, 1
    {
      if IsAtEnd() {
        return None;
      }
      var content := tokens[currentPos];
      if content == "!" {
        var _ := Consume();
        var operand := ParseFactorAt();
        return if operand.None? then None else Some(Not(operand.value));
      }
      if content == "(" {
        var _ := Consume();
        var expr := ParseLogicalOr();
        if expr.None? {
          return None;
        }
        var closed := ExpectToken(")");
        return if closed then expr else None;
      }
      if TypeOf(content) == Literals {
        var _ := Consume();
        return Some(Literal(content));
      }
      if TypeOf(content) == Identifiers {
        ghost var ts := Left();
        var _ := Consume();
        if Match("(") {
          assert ts[1..][1..] == ts[2..];
          r := ParseFunctionCall(content);
          return;
        }
        return Some(Identifier(content));
      }
      r := None;
    }

    method ParseFunctionCall(funcName: string) returns (r: Option<Expr>)
      requires Valid() && Match("(")
      modifies this
      ensures Did(r, ParseCall(funcName, old(Left())[1..]))
      decreases |tokens| - currentPos, 0
    {
      var _ := ExpectToken("(");
      var args: seq<Expr> := [];
      if !Match(")") {
        ghost var start := Left();
        var more := true;
        PrefixedStart(start);
        while more
          invariant Valid() && currentPos > old(currentPos)
          invariant Prefixed(args, more, Left()) == ParseArgs(start)
          decreases more, |tokens| - currentPos
        {
          PrefixedStep(args, Left());
          var param := ParseLogicalOr();
          if param.None? {
            return None;
          }
          args := args + [param.value];
          more := Match(",");
          if more {
            var _ := Consume();
          }
        }
      }
      var closed := ExpectToken(")");
      r := if closed then Some(Call(funcName, args)) else None;
    }

    // ----- statements -----

    ghost predicate DidStmt(r: Outcome, p: Option<(Stmt, seq<Token>)>)
      reads this
    {
      && Valid() && (r.Made? <==> p.Some?) && (r.Nothing? ==> false)
      && (r.Made? ==> r.stmt == p.value.0 && Left() == p.value.1)
    }

    /** A statement; nothing at the end of the tokens. */
    method ParseStatementAt() returns (r: Outcome)
      requires Valid()
      modifies this
      ensures old(Left()) == [] ==> r == Nothing && Valid() && currentPos == old(currentPos)
      ensures old(Left()) != [] ==> DidStmt(r, ParseStatement(old(Left())))
      decreases |tokens| - currentPos, 1
    {
      if IsAtEnd() {
        return Nothing;
      }
      ghost var ts := Left();
      var content := tokens[currentPos];
      assert content == ts[0] && Peek(1) == Ahead(ts, 1);
      if content == "return" {
        r := ParseReturnStatement();
      } else if content == "if" {
        r := ParseIfStatement();
      } else if content == "int" && Peek(1) != "(" {
        r := ParseVariableDeclaration();
      } else if content == "for" {
        r := ParseForStatement();
      } else if content == "{" {
        r := ParseStatementBlock();
      } else if TypeOf(content) == Identifiers {
        r := ParseSimpleStatement();
      } else {
        r := Failed;
      }
    }

    /** An expression with a token behind it that has to be there. */
    method ParseThen(t: Token) returns (r: Option<Expr>)
      requires Valid()
      modifies this
      ensures Did(r, ParseExprThen(old(Left()), t))
    {
      r := ParseLogicalOr();
      if r.Some? {
        var ok := ExpectToken(t);
        if !ok {
          r := None;
        }
      }
    }

    method ParseReturnStatement() returns (r: Outcome)
      requires Valid() && Match("return")
      modifies this
      ensures DidStmt(r, ParseReturn(old(Left())[1..]))
    {
      var _ := Consume();
      if !Match(";") {
        var expr := ParseThen(";");
        return if expr.None? then Failed else Made(Return(Some(expr.value)));
      }
      var _ := ExpectToken(";");
      r := Made(Return(None));
    }

    method ParseVariableDeclaration() returns (r: Outcome)
      requires Valid() && Match("int")
      modifies this
      ensures DidStmt(r, ParseDeclaration(old(Left())[1..]))
    {
      var _ := ExpectToken("int");
      if IsAtEnd() {
        return Failed;
      }
      ghost var ts := Left();
      var varName := tokens[currentPos];
      if TypeOf(varName) != Identifiers {
        return Failed;
      }
      var _ := Consume();
      assert Left() == ts[1..];
      if Match("=") {
        var _ := Consume();
        assert Left() == ts[2..];
        var init := ParseThen(";");
        return if init.None? then Failed else Made(Declare(varName, Some(init.value)));
      }
      var ok := ExpectToken(";");
      assert ok ==> Left() == ts[2..];
      r := if ok then Made(Declare(varName, None)) else Failed;
    }

    method ParseSimpleStatement() returns (r: Outcome)
      requires Valid() && !IsAtEnd() && TypeOf(tokens[currentPos]) == Identifiers
      modifies this
      ensures DidStmt(r, ParseSimple(old(Left())))
    {
      ghost var ts := Left();
      var varName := tokens[currentPos];
      if Peek(1) == "=" {
        var _ := Consume();
        var _ := Consume();
        assert Left() == ts[2..];
        var rhs := ParseThen(";");
        return if rhs.None? then Failed else Made(Evaluate(Assign(varName, rhs.value)));
      }
      if Peek(1) == "(" {
        var _ := Consume();
        assert Left()[1..] == ts[2..];
        var call := ParseFunctionCall(varName);
        if call.None? {
          return Failed;
        }
        var ok := ExpectToken(";");
        return if ok then Made(Evaluate(call.value)) else Failed;
      }
      if Peek(1) == "++" {
        var _ := Consume();
        var _ := Consume();
        assert Left() == ts[2..];
        var ok := ExpectToken(";");
        assert ok ==> Left() == ts[3..];
        return if ok then Made(Evaluate(Increment(varName))) else Failed;
      }
      r := Failed;
    }

    method ParseIfStatement() returns (r: Outcome)
      requires Valid() && Match("if")
      modifies this
      ensures DidStmt(r, ParseIf(old(Left())[1..]))
      decreases |tokens| - currentPos, 0
    {
      var _ := Consume();
      var open := ExpectToken("(");
      if !open {
        return Failed;
      }
      var condition := ParseThen(")");
      if condition.None? {
        return Failed;
      }
      var thenBlock := ParseStatementAt();
      if !thenBlock.Made? {
        return Failed;
      }
      if Match("else") {
        var _ := Consume();
        var elseBlock := ParseStatementAt();
        return match elseBlock
          case Failed => Failed
          case Nothing => Made(If(condition.value, thenBlock.stmt, None))
          case Made(e) => Made(If(condition.value, thenBlock.stmt, Some(e)));
      }
      r := Made(If(condition.value, thenBlock.stmt, None));
    }

    method ParseForStatement() returns (r: Outcome)
      requires Valid() && Match("for")
      modifies this
      ensures DidStmt(r, ParseFor(old(Left())[1..]))
      decreases |tokens| - currentPos, 0
    {
      hide Valid, IsAtEnd, ParseStatement, Did;
      var _ := Consume();
      var open := ExpectToken("(");
      if !open {
        return Failed;
      }
      var initStmt := ParseStatementAt();
      if !initStmt.Made? {
        return Failed;
      }
      var condition := ParseThen(";");
      if condition.None? {
        return Failed;
      }
      var update := ParseExpressionStatement();
      if update.None? {
        return Failed;
      }
      var closed := ExpectToken(")");
      if !closed {
        return Failed;
      }
      var body := ParseStatementAt();
      r := if body.Made? then Made(For(initStmt.stmt, condition.value, Evaluate(update.value), body.stmt)) else Failed;
    }

    /** The update of a loop: no semicolon, and a plain name or number is not even consumed. */
    method ParseExpressionStatement() returns (r: Option<Expr>)
      requires Valid()
      modifies this
      ensures Did(r, ParseUpdate(old(Left())))
    {
      if IsAtEnd() {
        return None;
      }
      ghost var ts := Left();
      var content := tokens[currentPos];
      if TypeOf(content) == Identifiers {
        if Peek(1) == "=" {
          var _ := Consume();
          var _ := Consume();
          assert Left() == ts[2..];
          var rhs := ParseLogicalOr();
          return if rhs.None? then None else Some(Assign(content, rhs.value));
        }
        if Peek(1) == "++" {
          var _ := Consume();
          var _ := Consume();
          assert Left() == ts[2..];
          return Some(Increment(content));
        }
        if Peek(1) == "(" {
          var _ := Consume();
          assert Left()[1..] == ts[2..];
          r := ParseFunctionCall(content);
          return;
        }
        return Some(Identifier(content));
      }
      if TypeOf(content) == Literals {
        return Some(Literal(content));
      }
      r := ParseLogicalOr();
    }

    method ParseStatementBlock() returns (r: Outcome)
      requires Valid() && Match("{")
      modifies this
      ensures Valid() && !r.Nothing?
      ensures var p := ParseBlock(old(Left())[1..]);
        (r.Made? <==> p.Some?) && (r.Made? ==> r.stmt == Block(p.value.0) && Left() == p.value.1)
      decreases |tokens| - currentPos, 0
    {
      var _ := ExpectToken("{");
      var stmts: seq<Stmt> := [];
      ghost var start := Left();
      BlockStart(start);
      while !Match("}") && !IsAtEnd()
        invariant Valid() && currentPos > old(currentPos)
        invariant AfterStmts(stmts, Left()) == ParseBlock(start)
        decreases |tokens| - currentPos
      {
        BlockStep(stmts, Left());
        var stmt := ParseStatementAt();
        if !stmt.Made? {
          return Failed;
        }
        stmts := stmts + [stmt.stmt];
      }
      var closed := ExpectToken("}");
      r := if closed then Made(Block(stmts)) else Failed;
    }
  }

  /** The statements taken so far, with the rest of the block. */
  function AfterStmts(stmts: seq<Stmt>, ts: seq<Token>): Option<(seq<Stmt>, seq<Token>)> {
    var p := ParseBlock(ts);
    if p.None? then None else Some((stmts + p.value.0, p.value.1))
  }

  lemma BlockStart(ts: seq<Token>)
    ensures AfterStmts([], ts) == ParseBlock(ts)
  {
    var p := ParseBlock(ts);
    if p.Some? {
      assert [] + p.value.0 == p.value.0;
    }
  }

  lemma BlockStep(stmts: seq<Stmt>, ts: seq<Token>)
    requires ts != [] && ts[0] != "}"
    ensures var p := ParseStatement(ts);
      AfterStmts(stmts, ts) == if p.None? then None else AfterStmts(stmts + [p.value.0], p.value.1)
  {
    var p := ParseStatement(ts);
    if p.Some? {
      var more := ParseBlock(p.value.1);
      if more.Some? {
        assert stmts + ([p.value.0] + more.value.0) == (stmts + [p.value.0]) + more.value.0;
      }
    }
  }

  /** The arguments taken so far, with those still to come if there is more. */
  function Prefixed(args: seq<Expr>, more: bool, ts: seq<Token>): Option<(seq<Expr>, seq<Token>)> {
    if !more then Some((args, ts))
    else
      var p := ParseArgs(ts);
      if p.None? then None else Some((args + p.value.0, p.value.1))
  }

  lemma PrefixedStart(ts: seq<Token>)
    ensures Prefixed([], true, ts) == ParseArgs(ts)
  {
    var p := ParseArgs(ts);
    if p.Some? {
      assert [] + p.value.0 == p.value.0;
    }
  }

  /** One argument more. */
  lemma PrefixedStep(args: seq<Expr>, ts: seq<Token>)
    ensures var p := Parse(0, ts);
      if p.None? then Prefixed(args, true, ts) == None
      else
        var now, rest := args + [p.value.0], p.value.1;
        Prefixed(args, true, ts) == if rest != [] && rest[0] == "," then Prefixed(now, true, rest[1..]) else Prefixed(now, false, rest)
  {
    var p := Parse(0, ts);
    if p.Some? && p.value.1 != [] && p.value.1[0] == "," {
      var more := ParseArgs(p.value.1[1..]);
      if more.Some? {
        assert args + ([p.value.0] + more.value.0) == (args + [p.value.0]) + more.value.0;
      }
    }
  }
}
