/**
  The syntax tree of expression.h and statements.h.

  The C tagged unions become datatypes: the tag is the constructor and the
  union member its fields. The operator checks `unary_operator_ASSERT` and
  `binary_operator_ASSERT` that `unary_c` and `binary_c` perform become the
  subset types `UnaryOp` and `BinaryOp`, so no node can carry another
  operator.
*/
module Ast {
  import opened Wrappers
  import opened Tokens

  /** `literal` with its `literal_t` tag. */
  datatype Literal = LNumber(n: real) | LString(s: string) | LTrue | LFalse | LNil

  predicate IsUnaryOp(op: TokenKind)
  {
    op == MINUS || op == BANG
  }

  predicate IsBinaryOp(op: TokenKind)
  {
    || op == EQUAL_EQUAL || op == BANG_EQUAL || op == LESS || op == LESS_EQUAL
    || op == GREATER || op == GREATER_EQUAL || op == PLUS || op == MINUS
    || op == STAR || op == SLASH
  }

  type UnaryOp = op: TokenKind | IsUnaryOp(op) witness MINUS

  type BinaryOp = op: TokenKind | IsBinaryOp(op) witness PLUS

  /** `expr` with its `expr_t` tag: ET_LITERAL, ET_UNARY, ET_BINARY, ET_GROUPING, ET_VARIABLE. */
  datatype Expr =
    | Lit(lit: Literal)
    | Unary(op: UnaryOp, operand: Expr)
    | Binary(left: Expr, bop: BinaryOp, right: Expr)
    | Grouping(inner: Expr)
    | Variable(name: string)

  /** `stmt` with its `stmt_t` tag; a declaration without initializer has `init == None` (the C NULL). */
  datatype Stmt =
    | ExprStmt(e: Expr)
    | PrintStmt(e: Expr)
    | VarDecl(name: string, init: Option<Expr>)
}
