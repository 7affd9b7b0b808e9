/** The slice of the Groovy syntax tree that the scope visitor dispatches on.
    Node kinds the visitor does not tell apart are folded into OtherStmt / OtherExpr. */
module Syntax {

  datatype Option<+T> = None | Some(value: T)

  /** The operator token of a binary expression: `<<`, `=`, or any other token.
      The symbol of OtherOp is never `<<` or `=`: those tokens are LeftShift and Assign. */
  datatype Op = LeftShift | Assign | OtherOp(symbol: string)

  datatype Stmt =
    | Block(stmts: seq<Stmt>)
    | ExprStmt(expr: Expr)
    /** Every other statement kind (if, for, return, ...), identified by a description. */
    | OtherStmt(kind: string)

  datatype Expr =
    /** A method call with the two facts the visitor asks of it already resolved:
        `constName` is the constant method name, if there is one, and `closureCode`
        is the code of the call's single closure argument, if it has exactly one. */
    | MethodCall(constName: Option<string>, closureCode: Option<Stmt>)
    | Binary(op: Op, left: Expr, right: Expr)
    /** A variable reference `x`. */
    | Var(name: string)
    /** A property access `receiver.property` (the receiver may be any expression). */
    | Prop(receiver: Expr, property: string)
    /** A closure literal `{ ... }` with its code. */
    | Closure(code: Stmt)
    /** Every other expression kind (constants, lists, ...), identified by a description. */
    | OtherExpr(kind: string)

  /** A node a diagnostic can be attached to. */
  datatype Node = StmtNode(stmt: Stmt) | ExprNode(expr: Expr)
}
