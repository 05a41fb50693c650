/** The syntax tree. */
module Ast {
  import opened Common
  import opened Ir

  datatype Expr =
    | True | False
    | IntLit(v: int)
    | FloatLit(f: Double)
    | StringLit(s: string)
    | Symbol(name: string)
    | MemberRef(body: Expr, member: string)
    | ArrayRef(body: Expr, index: Expr)
    | Unary(uop: UniOp, a: Expr)
    | Binary(bop: BinOp, a: Expr, b: Expr)
    | Ite(a: Expr, b: Expr, c: Expr)
    | FuncCall(func: Expr, args: seq<Expr>)

  datatype TypeExpr =
    | VoidType | BooleanType | IntType | FloatType | StringType
    | ArrayType(elem: TypeExpr) | SetType(elem: TypeExpr) | MapType(key: TypeExpr, elem: TypeExpr)
    | NamedType(path: Expr)

  datatype EnumConst = EnumConst(name: string, val: Option<Expr>)

  datatype Param = Param(name: string, ty: TypeExpr, init: Option<Expr>)

  datatype Stmt =
    | Block(stmts: seq<Stmt>)
    | Break
    | Continue
    | NullStmt
    | ConstDecl(name: string, ty: TypeExpr, def: Expr)
    | EnumDecl(name: string, consts: seq<EnumConst>)
    | FuncDecl(name: string, ty: TypeExpr, params: seq<Param>, body: Stmt)
    | VarDecl(name: string, ty: TypeExpr, init: Option<Expr>)
    | Incr(lhs: Expr)
    | Decr(lhs: Expr)
    | Assignment(lhs: Expr, rhs: Expr)
    | InplaceOp(op: BinOp, lhs: Expr, rhs: Expr)
    | ExprStmt(e: Expr)
    | If(cond: Expr, thn: Stmt, els: Option<Stmt>)
    | While(cond: Expr, body: Stmt)
    | DoWhile(body: Stmt, cond: Expr)
    | For(first: Stmt, cond: Expr, step: Stmt, body: Stmt)
    | Return(val: Option<Expr>)
}
