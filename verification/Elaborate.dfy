/** What elaboration makes of a program: names resolved in their scopes, expressions typed, slots
    handed out. The result of a statement is its resolved form (module Flatten lays that out as
    nodes) and the new state of the compiler. */
module Elaborate {
  import opened Common
  import opened Ir
  import opened Ast
  import opened Typing
  import opened Interp
  import opened ScopeGraph
  import F = Flatten

  /** The string hash and the arithmetic of floats. */
  datatype Env = Env(hash: string -> nat, fp: FloatOps)

  /** A call whose callee is looked up after the whole module is elaborated. */
  datatype CallStub = CallStub(func: Expr, scope: nat)

  /** The declarations of one code block: the top level, or a function with its handle, its
      arguments and their default values. */
  datatype BlockRec = BlockRec(vars: seq<Handle>, handle: Option<Handle>, args: seq<Handle>, inits: seq<Option<Node>>)

  /** Block 0 is the top level; block i + 1 is function i of the function table. */
  datatype State =
    State(scopes: seq<ScopeRec>, blocks: seq<BlockRec>, globals: seq<Handle>, enums: nat, calls: seq<CallStub>)

  function TopBlock(): BlockRec { BlockRec([], None, [], []) }

  datatype Out<+T> = Out(r: Res<T>, calls: seq<CallStub>)

  // ----- expressions -----

  function NewLoad(h: Handle): Res<Node> {
    match LoadType(h)
    case Ok(ty) => Ok(Load(ty, h))
    case Null => Null
    case Abort => Abort
  }

  function FromSig(s: Res<Sig>, mk: Ty -> Node): Res<Node> {
    match s
    case Ok(sig) => Ok(mk(sig.result))
    case Null => Null
    case Abort => Abort
  }

  function ElabExpr(e: Expr, sc: nat, scopes: seq<ScopeRec>, calls: seq<CallStub>, hash: string -> nat): Out<Node>
    requires Wf(scopes) && sc < |scopes|
    decreases e, 1
  {
    match e
    case True => Out(NewLoad(BooleanConst("", true)), calls)
    case False => Out(NewLoad(BooleanConst("", false)), calls)
    case IntLit(v) => Out(NewLoad(IntConst("", v)), calls)
    case FloatLit(f) => Out(NewLoad(FloatConst("", f)), calls)
    case StringLit(s) => Out(NewLoad(StringConst("", s)), calls)
    case Symbol(_) => LoadPrimary(ElabPrimary(e, sc, scopes, calls, hash))
    case ArrayRef(_, _) => LoadPrimary(ElabPrimary(e, sc, scopes, calls, hash))
    case MemberRef(_, _) => LoadPrimary(ElabPrimary(e, sc, scopes, calls, hash))
    case FuncCall(func, args) =>
      var a := ElabArgs(args, sc, scopes, calls, hash);
      (match a.r
       case Ok(nodes) => Out(Ok(Node.FuncCall(nodes, |a.calls|)), a.calls + [CallStub(func, sc)])
       case Null => Out(Null, a.calls)
       case Abort => Out(Abort, a.calls))
    case Unary(op, a) =>
      var x := ElabExpr(a, sc, scopes, calls, hash);
      if !x.r.Ok? then x else
        var n := x.r.value;
        Out(FromSig(CalcType1(op, TypeOf(n)), ty => UniOp(op, ty, n)), x.calls)
    case Binary(op, a, b) =>
      var x := ElabExpr(a, sc, scopes, calls, hash);
      if !x.r.Ok? then x else
        var y := ElabExpr(b, sc, scopes, x.calls, hash);
        if !y.r.Ok? then y else
          var n, m := x.r.value, y.r.value;
          Out(FromSig(CalcType2(op, TypeOf(n), TypeOf(m)), ty => BinOp(op, ty, n, m)), y.calls)
    case Ite(a, b, c) =>
      var x := ElabExpr(a, sc, scopes, calls, hash);
      if !x.r.Ok? then x else
        var y := ElabExpr(b, sc, scopes, x.calls, hash);
        if !y.r.Ok? then y else
          var z := ElabExpr(c, sc, scopes, y.calls, hash);
          if !z.r.Ok? then z else
            var n, m, k := x.r.value, y.r.value, z.r.value;
            Out(FromSig(CalcType3(TypeOf(n), TypeOf(m), TypeOf(k)), ty => TriOp(ty, n, m, k)), z.calls)
  }

  function LoadPrimary(p: Out<Handle>): Out<Node> {
    match p.r
    case Ok(h) => Out(NewLoad(h), p.calls)
    case Null => Out(Null, p.calls)
    case Abort => Out(Abort, p.calls)
  }

  function ElabArgs(args: seq<Expr>, sc: nat, scopes: seq<ScopeRec>, calls: seq<CallStub>,
                    hash: string -> nat): Out<seq<Node>>
    requires Wf(scopes) && sc < |scopes|
    decreases args, 0
  {
    if args == [] then Out(Ok([]), calls) else
      var x := ElabExpr(args[0], sc, scopes, calls, hash);
      match x.r
      case Null => Out(Null, x.calls)
      case Abort => Out(Abort, x.calls)
      case Ok(n) =>
        var rest := ElabArgs(args[1..], sc, scopes, x.calls, hash);
        match rest.r
        case Null => Out(Null, rest.calls)
        case Abort => Out(Abort, rest.calls)
        case Ok(ns) => Out(Ok([n] + ns), rest.calls)
  }

  /** A handle for a name, an element of an array, or a member of a scope or of an enum type. A body
      or an index that yields NULL is dereferenced. Members of variables are not modelled. */
  function ElabPrimary(e: Expr, sc: nat, scopes: seq<ScopeRec>, calls: seq<CallStub>, hash: string -> nat): Out<Handle>
    requires Wf(scopes) && sc < |scopes|
    decreases e, 0
  {
    match e
    case Symbol(name) =>
      (match Find(scopes, sc, name, hash)
       case Some(h) => Out(Ok(h), calls)
       case None => Out(Null, calls))
    case ArrayRef(body, index) =>
      var p := ElabPrimary(body, sc, scopes, calls, hash);
      if !p.r.Ok? then p else
        var base := NewLoad(p.r.value);
        if !base.Ok? then Out(Abort, p.calls)
        else if !TypeOf(base.value).value.Array? then Out(Null, p.calls)
        else
          Element(base.value, ElabExpr(index, sc, scopes, p.calls, hash))
    case MemberRef(body, member) =>
      var p := ElabPrimary(body, sc, scopes, calls, hash);
      if !p.r.Ok? then Out(Abort, p.calls) else
        var h := p.r.value;
        if (h.ScopeHandle? || h.NamedType?) && h.scope < |scopes| then
          match Find(scopes, h.scope, member, hash)
          case Some(m) => Out(Ok(m), p.calls)
          case None => Out(Null, p.calls)
        else Out(Abort, p.calls)
    case _ => Out(Abort, calls)
  }

  function Element(base: Node, off: Out<Node>): Out<Handle> {
    if !off.r.Ok? || TypeOf(off.r.value).None? then Out(Abort, off.calls)
    else if TypeOf(off.r.value) != Some(Int) then Out(Null, off.calls)
    else Out(Ok(Handle.ArrayRef(base, off.r.value)), off.calls)
  }

  // ----- types -----

  function ResolveType(t: TypeExpr, sc: nat, scopes: seq<ScopeRec>, calls: seq<CallStub>, hash: string -> nat): Out<Ty>
    requires Wf(scopes) && sc < |scopes|
    decreases t
  {
    match t
    case VoidType => Out(Ok(Void), calls)
    case BooleanType => Out(Ok(Boolean), calls)
    case IntType => Out(Ok(Int), calls)
    case FloatType => Out(Ok(Float), calls)
    case StringType => Out(Ok(String), calls)
    case ArrayType(elem) =>
      var x := ResolveType(elem, sc, scopes, calls, hash);
      if x.r.Ok? then Out(Ok(Array(x.r.value)), x.calls) else x
    case SetType(elem) =>
      var x := ResolveType(elem, sc, scopes, calls, hash);
      if x.r.Ok? then Out(Ok(Set(x.r.value)), x.calls) else x
    case MapType(key, elem) =>
      var x := ResolveType(key, sc, scopes, calls, hash);
      if !x.r.Ok? then x else
        var y := ResolveType(elem, sc, scopes, x.calls, hash);
        if y.r.Ok? then Out(Ok(Map(x.r.value, y.r.value)), y.calls) else y
    case NamedType(path) =>
      var p := ElabPrimary(path, sc, scopes, calls, hash);
      match p.r
      case Ok(h) => Out(if h.NamedType? then Ok(h.named) else Null, p.calls)
      case Null => Out(Null, p.calls)
      case Abort => Out(Abort, p.calls)
  }

  // ----- declarations -----

  /** A name may be declared when the scope itself does not define it yet. */
  function NameFree(st: State, sc: nat, name: string, env: Env): bool
    requires Wf(st.scopes) && sc < |st.scopes|
  {
    assert ScopeWf(st.scopes, sc);
    FindLocal(st.scopes, sc, name, env.hash).None?
  }

  function Declare(st: State, sc: nat, h: Handle, env: Env): (r: State)
    requires Wf(st.scopes) && sc < |st.scopes|
    ensures Wf(r.scopes) && |r.scopes| == |st.scopes| && r == st.(scopes := r.scopes)
  {
    assert ScopeWf(st.scopes, sc);
    AddWf(st.scopes, sc, h, env.hash);
    st.(scopes := AddHandle(st.scopes, sc, h, env.hash))
  }

  function Open(st: State, parent: nat): (r: State)
    requires Wf(st.scopes) && parent < |st.scopes|
    ensures Wf(r.scopes) && |r.scopes| == |st.scopes| + 1 && r == st.(scopes := r.scopes)
  {
    NewScopeWf(st.scopes, Some(parent));
    st.(scopes := NewScope(st.scopes, Some(parent)))
  }

  /** The handle of a named constant: its value, evaluated once. Strings are not supported, and an
      expression without a defined value leaves nothing to continue with. */
  function ConstHandle(name: string, n: Node, fp: FloatOps): Res<Handle> {
    match TypeOf(n)
    case Some(Boolean) => (match EvalBoolean(n, fp) case Val(v) => Ok(BooleanConst(name, v)) case _ => Abort)
    case Some(Int) => (match EvalInt(n, fp) case Val(v) => Ok(IntConst(name, v)) case _ => Abort)
    case Some(Float) => (match EvalFloat(n, fp) case Val(v) => Ok(FloatConst(name, v)) case _ => Abort)
    case _ => Abort
  }

  function RegConst(name: string, t: TypeExpr, e: Expr, sc: nat, st: State, env: Env): (r: Res<State>)
    requires Wf(st.scopes) && sc < |st.scopes|
    ensures r.Ok? ==> Wf(r.value.scopes) && |r.value.scopes| == |st.scopes| && r.value.blocks == st.blocks
    ensures !r.Null?
  {
    if !NameFree(st, sc, name, env) then Ok(st) else
      var ty := ResolveType(t, sc, st.scopes, st.calls, env.hash);
      if ty.r.Abort? then Abort
      else if ty.r.Null? then Ok(st.(calls := ty.calls))
      else
        var x := ElabExpr(e, sc, st.scopes, ty.calls, env.hash);
        if x.r.Abort? then Abort
        else if x.r.Null? || !IsStatic(x.r.value) then Ok(st.(calls := x.calls))
        else
          match ConstHandle(name, x.r.value, env.fp)
          case Ok(h) => Ok(Declare(st.(calls := x.calls), sc, h, env))
          case _ => Abort
  }

  ghost function Above(used: seq<int>, from: int): set<int> {
    set u | u in used && u >= from
  }

  lemma FewerAbove(used: seq<int>, from: int)
    requires from in used
    ensures Above(used, from + 1) < Above(used, from)
  {
    assert from in Above(used, from) && from !in Above(used, from + 1);
    assert Above(used, from + 1) <= Above(used, from);
  }

  /** The least value from `from` on that is not used. */
  function FirstFree(used: seq<int>, from: nat): (v: nat)
    ensures v >= from && v !in used && forall w :: from <= w < v ==> w in used
    decreases Above(used, from)
  {
    if from in used then
      FewerAbove(used, from);
      FirstFree(used, from + 1)
    else from
  }

  /** All constants have values; or one is rejected and the declaration is dropped. */
  datatype EnumOut = EnumOk(st: State, vals: seq<int>) | EnumRejected(st: State) | EnumAbort

  /** Values of the constants still to come, each declared in the scope `es` of the enum: an explicit
      one must be an unused constant integer, an implicit one is the next unused value. */
  function EnumValues(consts: seq<EnumConst>, es: nat, st: State, used: seq<int>, next: nat, env: Env): (r: EnumOut)
    requires Wf(st.scopes) && es < |st.scopes|
    ensures !r.EnumAbort? ==> Wf(r.st.scopes) && |r.st.scopes| == |st.scopes| && r.st.blocks == st.blocks
  {
    if consts == [] then EnumOk(st, used) else
      match consts[0].val
      case None =>
        var v := FirstFree(used, next);
        EnumValues(consts[1..], es, Declare(st, es, IntConst(consts[0].name, v), env), used + [v], v + 1, env)
      case Some(e) =>
        var x := ElabExpr(e, es, st.scopes, st.calls, env.hash);
        if x.r.Abort? then EnumAbort
        else if x.r.Null? || !IsStatic(x.r.value) || TypeOf(x.r.value) != Some(Int) then
          EnumRejected(st.(calls := x.calls))
        else
          match EvalInt(x.r.value, env.fp)
          case Val(v) =>
            if v in used then EnumRejected(st.(calls := x.calls))
            else EnumValues(consts[1..], es, Declare(st.(calls := x.calls), es, IntConst(consts[0].name, v), env),
                            used + [v], next, env)
          case _ => EnumAbort
  }

  function RegEnum(name: string, consts: seq<EnumConst>, sc: nat, st: State, env: Env): (r: Res<State>)
    requires Wf(st.scopes) && sc < |st.scopes|
    ensures r.Ok? ==> Wf(r.value.scopes) && |r.value.scopes| >= |st.scopes| && r.value.blocks == st.blocks
    ensures !r.Null?
  {
    if !NameFree(st, sc, name, env) then Ok(st) else
      var es := |st.scopes|;
      match EnumValues(consts, es, Open(st, sc), [], 0, env)
      case EnumAbort => Abort
      case EnumRejected(st') => Ok(st')
      case EnumOk(st', _) =>
        Ok(Declare(st'.(enums := st'.enums + 1), sc, Handle.NamedType(name, Enum(st'.enums), es), env))
  }

  /** Types of the parameters, resolved outside the function. */
  function ParamTypes(params: seq<Param>, fs: nat, sc: nat, st: State, env: Env): (r: Out<seq<Ty>>)
    requires Wf(st.scopes) && sc < |st.scopes| && fs < |st.scopes|
    ensures r.r.Ok? ==> |r.r.value| == |params|
  {
    if params == [] then Out(Ok([]), st.calls)
    else if !NameFree(st, fs, params[0].name, env) then Out(Null, st.calls)
    else
      var t := ResolveType(params[0].ty, sc, st.scopes, st.calls, env.hash);
      match t.r
      case Null => Out(Null, t.calls)
      case Abort => Out(Abort, t.calls)
      case Ok(ty) =>
        var rest := ParamTypes(params[1..], fs, sc, st.(calls := t.calls), env);
        match rest.r
        case Null => Out(Null, rest.calls)
        case Abort => Out(Abort, rest.calls)
        case Ok(tys) => Out(Ok([ty] + tys), rest.calls)
  }

  datatype ParamsOut =
    | ParamsOk(st: State, args: seq<Handle>, inits: seq<Option<Node>>)
    | ParamsRejected(st: State)
    | ParamsAbort

  /** Parameter `i` and those after it: declared in the function's scope, defaults elaborated outside. */
  function DeclareParams(params: seq<Param>, tys: seq<Ty>, i: nat, fs: nat, sc: nat, st: State,
                         env: Env): (r: ParamsOut)
    requires Wf(st.scopes) && sc < |st.scopes| && fs < |st.scopes| && |tys| == |params| && i <= |params|
    ensures !r.ParamsAbort? ==> Wf(r.st.scopes) && |r.st.scopes| == |st.scopes| && r.st.blocks == st.blocks
    decreases |params| - i
  {
    if i == |params| then ParamsOk(st, [], []) else
      var h := LocalVar(params[i].name, tys[i], 0, i);
      var st1 := Declare(st, fs, h, env);
      var x := if params[i].init.None? then Out(Null, st1.calls)
               else ElabExpr(params[i].init.value, sc, st1.scopes, st1.calls, env.hash);
      if x.r.Abort? then ParamsAbort
      else if params[i].init.Some? && x.r.Null? then ParamsRejected(st1.(calls := x.calls))
      else
        match DeclareParams(params, tys, i + 1, fs, sc, st1.(calls := x.calls), env)
        case ParamsOk(st2, args, inits) =>
          ParamsOk(st2, [h] + args, [if x.r.Ok? then Some(x.r.value) else None] + inits)
        case r => r
  }

  /** A function about to be compiled: its scope and its block. */
  datatype Header = Header(st: State, scope: nat, block: nat) | NoFunction(st: State) | HeaderAbort

  function GlobalOf(st: State, sc: nat): (g: nat)
    requires Wf(st.scopes) && sc < |st.scopes|
    ensures g < |st.scopes|
  {
    assert ScopeWf(st.scopes, sc);
    if st.scopes[sc].globalScope.Some? then st.scopes[sc].globalScope.value else sc
  }

  /** Everything of a function declaration up to its body. The scope of the function hangs below the
      global scope, not below the scope of the declaration. */
  function RegFunc(name: string, t: TypeExpr, params: seq<Param>, sc: nat, st: State, env: Env): (r: Header)
    requires Wf(st.scopes) && sc < |st.scopes| && st.blocks != []
    ensures !r.HeaderAbort? ==> Wf(r.st.scopes) && |r.st.scopes| >= |st.scopes|
    ensures r.Header? ==> r.scope < |r.st.scopes| && r.block == |st.blocks| && |r.st.blocks| == r.block + 1
    ensures r.NoFunction? ==> r.st.blocks == st.blocks
  {
    if !NameFree(st, sc, name, env) then NoFunction(st) else
      var fs := |st.scopes|;
      var st1 := Open(st, GlobalOf(st, sc));
      var out := ResolveType(t, sc, st1.scopes, st1.calls, env.hash);
      if out.r.Abort? then HeaderAbort
      else if out.r.Null? then NoFunction(st1.(calls := out.calls))
      else
        var tys := ParamTypes(params, fs, sc, st1.(calls := out.calls), env);
        if tys.r.Abort? then HeaderAbort
        else if tys.r.Null? then NoFunction(st1.(calls := tys.calls))
        else
          match DeclareParams(params, tys.r.value, 0, fs, sc, st1.(calls := tys.calls), env)
          case ParamsAbort => HeaderAbort
          case ParamsRejected(st2) => NoFunction(st2)
          case ParamsOk(st2, args, inits) =>
            var h := Function(name, Func(out.r.value, tys.r.value), 0, |st2.blocks| - 1);
            var st3 := Declare(st2, sc, h, env);
            Header(st3.(blocks := st3.blocks + [BlockRec([], Some(h), args, inits)]), fs, |st3.blocks|)
  }

  // ----- statements -----

  /** The resolved statement and the state after it; `Failed` when elaboration cannot go on. */
  datatype Elab = Elab(code: F.Stmt, st: State) | Failed

  ghost predicate Ready(st: State, sc: nat, b: nat) {
    Wf(st.scopes) && sc < |st.scopes| && b < |st.blocks|
  }

  /** Nothing is ever taken away. */
  ghost predicate Grown(st: State, r: State) {
    Wf(r.scopes) && |r.scopes| >= |st.scopes| && |r.blocks| >= |st.blocks|
  }

  function Keep(code: F.Stmt, st: State): Elab { Elab.Elab(code, st) }

  /** Declare a variable: global at the top level of the module, otherwise the next slot of the block. */
  function DeclareVar(name: string, ty: Ty, sc: nat, b: nat, st: State, env: Env): (r: (State, Handle))
    requires Ready(st, sc, b)
    ensures Grown(st, r.0)
  {
    if st.scopes[sc].globalScope.None? then
      var h := GlobalVar(name, ty, 0, |st.globals|);
      (Declare(st.(globals := st.globals + [h]), sc, h, env), h)
    else
      var rec := st.blocks[b];
      var h := LocalVar(name, ty, 0, |rec.vars|);
      (Declare(st.(blocks := st.blocks[b := rec.(vars := rec.vars + [h])]), sc, h, env), h)
  }

  function VarDeclaration(name: string, t: TypeExpr, init: Option<Expr>, sc: nat, b: nat, st: State,
                          env: Env): (r: Elab)
    requires Ready(st, sc, b)
    ensures r.Elab? ==> Grown(st, r.st)
  {
    if !NameFree(st, sc, name, env) then Keep(F.Skip, st) else
      var ty := ResolveType(t, sc, st.scopes, st.calls, env.hash);
      if ty.r.Abort? then Failed
      else if ty.r.Null? then Keep(F.Skip, st.(calls := ty.calls))
      else
        var (st1, h) := DeclareVar(name, ty.r.value, sc, b, st.(calls := ty.calls), env);
        if init.None? then Keep(F.Skip, st1) else
          var x := ElabExpr(init.value, sc, st1.scopes, st1.calls, env.hash);
          match x.r
          case Ok(n) => Keep(F.Do(Store(h, n)), st1.(calls := x.calls))
          case Null => Keep(F.Skip, st1.(calls := x.calls))
          case Abort => Failed
  }

  /** The right-hand side first, then the place it goes to; either may reject the statement. */
  function Assign(lhs: Expr, rhs: Expr, mk: (Handle, Node) -> Node, sc: nat, st: State, env: Env): (r: Elab)
    requires Wf(st.scopes) && sc < |st.scopes|
    ensures r.Elab? ==> Grown(st, r.st)
  {
    var x := ElabExpr(rhs, sc, st.scopes, st.calls, env.hash);
    if x.r.Abort? then Failed
    else if x.r.Null? then Keep(F.Skip, st.(calls := x.calls))
    else
      var p := ElabPrimary(lhs, sc, st.scopes, x.calls, env.hash);
      match p.r
      case Ok(h) => Keep(F.Do(mk(h, x.r.value)), st.(calls := p.calls))
      case Null => Keep(F.Skip, st.(calls := p.calls))
      case Abort => Failed
  }

  function Step(lhs: Expr, inc: bool, sc: nat, st: State, env: Env): (r: Elab)
    requires Wf(st.scopes) && sc < |st.scopes|
    ensures r.Elab? ==> Grown(st, r.st)
  {
    var p := ElabPrimary(lhs, sc, st.scopes, st.calls, env.hash);
    match p.r
    case Ok(h) => Keep(F.Do(InplaceUniOp(inc, h)), st.(calls := p.calls))
    case Null => Keep(F.Skip, st.(calls := p.calls))
    case Abort => Failed
  }

  function FromState(r: Res<State>): Elab {
    if r.Ok? then Keep(F.Skip, r.value) else Failed
  }

  /** Elaborate `s` in scope `sc` for block `b`. A condition that does not elaborate, and an if
      without an else branch, end elaboration. */
  function ElabStmt(s: Stmt, sc: nat, b: nat, st: State, env: Env): (r: Elab)
    requires Ready(st, sc, b)
    ensures r.Elab? ==> Grown(st, r.st)
    decreases s, 0
  {
    hide Wf, ElabExpr, ElabPrimary, RegConst, RegEnum, RegFunc, VarDeclaration, Assign, Step, Open;
    match s
    case Block(stmts) =>
      var r := ElabAll(stmts, |st.scopes|, b, Open(st, sc), env);
      if r.ElabSeq? then Keep(F.Block(r.codes), r.st) else Failed
    case Break => Keep(F.Break, st)
    case Continue => Keep(F.Continue, st)
    case NullStmt => Keep(F.Skip, st)
    case ConstDecl(name, ty, e) => FromState(RegConst(name, ty, e, sc, st, env))
    case EnumDecl(name, consts) => FromState(RegEnum(name, consts, sc, st, env))
    case FuncDecl(name, ty, params, body) =>
      (match RegFunc(name, ty, params, sc, st, env)
       case HeaderAbort => Failed
       case NoFunction(st1) => Keep(F.Skip, st1)
       case Header(st1, fs, fb) =>
         var r := ElabStmt(body, fs, fb, st1, env);
         if r.Elab? then Keep(F.FuncDecl(r.code), r.st) else Failed)
    case VarDecl(name, ty, init) => VarDeclaration(name, ty, init, sc, b, st, env)
    case Incr(lhs) => Step(lhs, true, sc, st, env)
    case Decr(lhs) => Step(lhs, false, sc, st, env)
    case Assignment(lhs, rhs) => Assign(lhs, rhs, (h, n) => Store(h, n), sc, st, env)
    case InplaceOp(op, lhs, rhs) => Assign(lhs, rhs, (h, n) => InplaceBinOp(op, h, n), sc, st, env)
    case ExprStmt(e) =>
      var x := ElabExpr(e, sc, st.scopes, st.calls, env.hash);
      if x.r.Abort? then Failed
      else Keep(F.Do(if x.r.Ok? then x.r.value else NullNode), st.(calls := x.calls))
    case If(cond, thn, els) =>
      var x := ElabExpr(cond, sc, st.scopes, st.calls, env.hash);
      if !x.r.Ok? || els.None? then Failed else
        var t := ElabStmt(thn, sc, b, st.(calls := x.calls), env);
        if t.Failed? then Failed else
          var e := ElabStmt(els.value, sc, b, t.st, env);
          if e.Failed? then Failed else Keep(F.If(x.r.value, t.code, e.code), e.st)
    case While(cond, body) =>
      var x := ElabExpr(cond, sc, st.scopes, st.calls, env.hash);
      if !x.r.Ok? then Failed else
        var r := ElabStmt(body, sc, b, st.(calls := x.calls), env);
        if r.Failed? then Failed else Keep(F.While(x.r.value, r.code), r.st)
    case DoWhile(body, cond) =>
      var r := ElabStmt(body, sc, b, st, env);
      if r.Failed? then Failed else
        var x := ElabExpr(cond, sc, r.st.scopes, r.st.calls, env.hash);
        if !x.r.Ok? then Failed else Keep(F.DoWhile(r.code, x.r.value), r.st.(calls := x.calls))
    case For(first, cond, step, body) =>
      var fs := |st.scopes|;
      var i := ElabStmt(first, fs, b, Open(st, sc), env);
      if i.Failed? then Failed else
        var x := ElabExpr(cond, fs, i.st.scopes, i.st.calls, env.hash);
        if !x.r.Ok? then Failed else
          var r := ElabStmt(body, fs, b, i.st.(calls := x.calls), env);
          if r.Failed? then Failed else
            var n := ElabStmt(step, fs, b, r.st, env);
            if n.Failed? then Failed else Keep(F.For(i.code, x.r.value, r.code, n.code), n.st)
    case Return(val) =>
      if val.None? then Keep(F.Ret(None), st) else
        var x := ElabExpr(val.value, sc, st.scopes, st.calls, env.hash);
        if x.r.Abort? then Failed
        else Keep(F.Ret(if x.r.Ok? then Some(x.r.value) else None), st.(calls := x.calls))
  }

  datatype ElabSeq = ElabSeq(codes: seq<F.Stmt>, st: State) | SeqFailed

  function ElabAll(stmts: seq<Stmt>, sc: nat, b: nat, st: State, env: Env): (r: ElabSeq)
    requires Ready(st, sc, b)
    ensures r.ElabSeq? ==> Grown(st, r.st)
    decreases stmts, 0
  {
    if stmts == [] then ElabSeq([], st) else
      var x := ElabStmt(stmts[0], sc, b, st, env);
      if x.Failed? then SeqFailed else
        var rest := ElabAll(stmts[1..], sc, b, x.st, env);
        if rest.SeqFailed? then SeqFailed else ElabSeq([x.code] + rest.codes, rest.st)
  }
}
