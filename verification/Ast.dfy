/** Abstract syntax trees, as the parser builds them and the IR generator walks them. */
module Ast {
  import opened Wrappers

  /** The binary operators the lexer and the generator know. */
  datatype BinOp = Add | Sub | Mul | Div | And | Or | Gt | Lt | Ge | Le | Eq | Ne

  datatype Expr =
    | Literal(text: string)
    | Identifier(name: string)
    | Binary(op: BinOp, left: Expr, right: Expr)
    | Not(operand: Expr)
    | Increment(name: string)
    | Assign(name: string, right: Expr)
    | Call(func: string, args: seq<Expr>)

  datatype Stmt =
    | Block(stmts: seq<Stmt>)
    | Return(value: Option<Expr>)
    | Evaluate(e: Expr)
    | Declare(name: string, init: Option<Expr>)
    | If(cond: Expr, thenBlock: Stmt, elseBlock: Option<Stmt>)
    | For(initStmt: Stmt, cond: Expr, update: Stmt, body: Stmt)
}
