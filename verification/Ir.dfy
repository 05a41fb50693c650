/** Operators and the intermediate representation: types, handles, expression nodes and the
    elements of a code block's node list. */
module Ir {
  import opened Common

  datatype UniOp = CastBoolean | CastInt | CastFloat | BitNeg | LogNot | UniMinus

  datatype BinOp =
    | BitAnd | BitOr | BitXor | LogAnd | LogOr | Add | Sub | Mul | Div | Mod | Lshift | Rshift
    | Equal | NotEq | Lt | Le

  /** A double-precision number is a bit pattern; its arithmetic is a parameter (`Interp.FloatOps`). */
  type Bits64 = n: nat | n < 0x1_0000_0000_0000_0000

  datatype Double = Double(bits: Bits64)

  /** Types up to structural equality; an enum type is its own identity. */
  datatype Ty =
    | Void | Boolean | Int | Float | String
    | Array(elem: Ty) | Set(elem: Ty) | Map(key: Ty, elem: Ty)
    | Func(output: Ty, inputs: seq<Ty>)
    | Enum(ident: nat)

  /** Symbol-table handles and handles for array elements. A scope is named by its index. */
  datatype Handle =
    | ScopeHandle(name: string, scope: nat)
    | GlobalVar(name: string, ty: Ty, modIndex: nat, index: nat)
    | LocalVar(name: string, ty: Ty, modIndex: nat, index: nat)
    | Function(name: string, ty: Ty, modIndex: nat, index: nat)
    | BooleanConst(name: string, bval: bool)
    | IntConst(name: string, ival: int)
    | FloatConst(name: string, fval: Double)
    | StringConst(name: string, sval: string)
    | NamedType(name: string, named: Ty, scope: nat)
    | ArrayRef(base: Node, offset: Node)

  /** Expression nodes and the nodes with an effect. `FuncCall` carries the position of its
      entry in the list of calls still to be resolved. */
  datatype Node =
    | UniOp(uop: UniOp, ty: Ty, a: Node)
    | BinOp(bop: BinOp, ty: Ty, a: Node, b: Node)
    | TriOp(ty: Ty, a: Node, b: Node, c: Node)
    | Load(ty: Ty, addr: Handle)
    | FuncCall(args: seq<Node>, stub: nat)
    | Store(addr: Handle, val: Node)
    | InplaceUniOp(inc: bool, addr: Handle)
    | InplaceBinOp(bop: BinOp, addr: Handle, val: Node)
    | NullNode

  /** An element of a node list. Labels are compared by identity, so a label is a number. */
  datatype Instr =
    | Label(id: nat)
    | Jump(target: nat)
    | BranchTrue(target: nat, cond: Node)
    | BranchFalse(target: nat, cond: Node)
    | Return(val: Option<Node>)
    | Action(node: Node)
}
