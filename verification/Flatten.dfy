/** How the statement elaborator lays structured control flow out as one node list. */
module Flatten {
  import opened Common
  import opened Ir

  /** A statement whose names and expressions are resolved. `Skip` is a statement that emits
      nothing (a declaration, an empty statement, a rejected assignment); `FuncDecl` emits nothing
      in the enclosing block and opens a block of its own. */
  datatype Stmt =
    | Skip
    | Do(node: Node)
    | Block(stmts: seq<Stmt>)
    | Break
    | Continue
    | Ret(val: Option<Node>)
    | If(cond: Node, thn: Stmt, els: Stmt)
    | While(cond: Node, body: Stmt)
    | DoWhile(body: Stmt, cond: Node)
    | For(init: Stmt, cond: Node, body: Stmt, next: Stmt)
    | FuncDecl(body: Stmt)

  /** Nodes emitted into the current block, the node lists of the functions opened on the way
      (in the order of the function table), and the next unused label. */
  datatype Code = Code(nodes: seq<Instr>, funcs: seq<seq<Instr>>, next: nat)

  function Emit(s: Stmt, start: Option<nat>, end: Option<nat>, next: nat): (c: Code)
    decreases s, 1
  {
    match s
    case Skip => Code([], [], next)
    case Do(node) => Code([Action(node)], [], next)
    case Block(stmts) => EmitAll(stmts, start, end, next)
    case Break => Code(if end.Some? then [Jump(end.value)] else [], [], next)
    case Continue => Code(if start.Some? then [Jump(start.value)] else [], [], next)
    case Ret(val) => Code([Return(val)], [], next)
    case If(cond, thn, els) =>
      var t := Emit(thn, start, end, next + 2);
      var e := Emit(els, start, end, t.next);
      Code([BranchFalse(next, cond)] + t.nodes + [Jump(next + 1), Label(next)] + e.nodes + [Label(next + 1)],
           t.funcs + e.funcs, e.next)
    case While(_, _) => EmitLoop(s, next)
    case DoWhile(_, _) => EmitLoop(s, next)
    case For(init, _, _, _) =>
      var i := Emit(init, None, None, next);
      var l := EmitLoop(s, i.next);
      Code(i.nodes + l.nodes, i.funcs + l.funcs, l.next)
    case FuncDecl(body) =>
      var b := Emit(body, None, None, next);
      Code([], [b.nodes] + b.funcs, b.next)
  }

  predicate IsLoop(s: Stmt) { s.While? || s.DoWhile? || s.For? }

  /** A loop from its start label to its end label. */
  function EmitLoop(s: Stmt, next: nat): (c: Code)
    requires IsLoop(s)
    decreases s, 0
  {
    match s
    case While(cond, body) =>
      var b := Emit(body, Some(next), Some(next + 1), next + 2);
      Code([Label(next), BranchFalse(next + 1, cond)] + b.nodes + [Jump(next), Label(next + 1)], b.funcs, b.next)
    case DoWhile(body, cond) =>
      var b := Emit(body, Some(next), Some(next + 1), next + 2);
      Code([Label(next)] + b.nodes + [BranchTrue(next, cond), Label(next + 1)], b.funcs, b.next)
    case For(_, cond, body, step) =>
      var b := Emit(body, Some(next), Some(next + 1), next + 2);
      var n := Emit(step, Some(next), Some(next + 1), b.next);
      Code([Label(next), BranchFalse(next + 1, cond)] + (b.nodes + n.nodes) + [Jump(next), Label(next + 1)],
           b.funcs + n.funcs, n.next)
  }

  function EmitAll(stmts: seq<Stmt>, start: Option<nat>, end: Option<nat>, next: nat): (c: Code)
    decreases stmts, 0
  {
    if stmts == [] then Code([], [], next) else
      var first := Emit(stmts[0], start, end, next);
      var rest := EmitAll(stmts[1..], start, end, first.next);
      Code(first.nodes + rest.nodes, first.funcs + rest.funcs, rest.next)
  }
}
