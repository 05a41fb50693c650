/** Compilation keeps the meaning of source programs: what the elaborator makes of an expression or a statement does
    what the source says. */
module Meaning {
  import opened Common
  import opened Ir
  import opened Ast
  import opened ScopeGraph
  import opened Elaborate
  import opened Semantics
  import opened Source
  import Typing
  import Interp
  import ScopeTable
  import F = Flatten
  import K = Kinds

  // ----- the list of calls only grows -----

  lemma PrefixTrans<T>(a: seq<T>, b: seq<T>, c: seq<T>)
    requires a <= b && b <= c
    ensures a <= c
  {
  }

  lemma {:induction false} ExprGrows(e: Expr, sc: nat, scopes: seq<ScopeRec>, cs: seq<CallStub>, hash: string -> nat)
    requires Wf(scopes) && sc < |scopes|
    ensures cs <= ElabExpr(e, sc, scopes, cs, hash).calls
    decreases e, 1
  {
    hide Wf, Find;
    match e
    case Symbol(_) => PrimaryGrows(e, sc, scopes, cs, hash);
    case ArrayRef(_, _) => PrimaryGrows(e, sc, scopes, cs, hash);
    case MemberRef(_, _) => PrimaryGrows(e, sc, scopes, cs, hash);
    case FuncCall(_, args) => ArgsGrow(args, sc, scopes, cs, hash);
    case Unary(_, a) => ExprGrows(a, sc, scopes, cs, hash);
    case Binary(_, a, b) =>
      ExprGrows(a, sc, scopes, cs, hash);
      ExprGrows(b, sc, scopes, ElabExpr(a, sc, scopes, cs, hash).calls, hash);
    case Ite(a, b, d) =>
      ExprGrows(a, sc, scopes, cs, hash);
      var x := ElabExpr(a, sc, scopes, cs, hash);
      ExprGrows(b, sc, scopes, x.calls, hash);
      ExprGrows(d, sc, scopes, ElabExpr(b, sc, scopes, x.calls, hash).calls, hash);
    case _ =>
  }

  lemma {:induction false} ArgsGrow(es: seq<Expr>, sc: nat, scopes: seq<ScopeRec>, cs: seq<CallStub>,
                                    hash: string -> nat)
    requires Wf(scopes) && sc < |scopes|
    ensures cs <= ElabArgs(es, sc, scopes, cs, hash).calls
    decreases es, 0
  {
    hide Wf, ElabExpr;
    if es != [] {
      ExprGrows(es[0], sc, scopes, cs, hash);
      ArgsGrow(es[1..], sc, scopes, ElabExpr(es[0], sc, scopes, cs, hash).calls, hash);
    }
  }

  lemma {:induction false} PrimaryGrows(e: Expr, sc: nat, scopes: seq<ScopeRec>, cs: seq<CallStub>,
                                        hash: string -> nat)
    requires Wf(scopes) && sc < |scopes|
    ensures cs <= ElabPrimary(e, sc, scopes, cs, hash).calls
    decreases e, 0
  {
    hide Wf, Find, ElabExpr;
    match e
    case ArrayRef(body, index) =>
      PrimaryGrows(body, sc, scopes, cs, hash);
      ExprGrows(index, sc, scopes, ElabPrimary(body, sc, scopes, cs, hash).calls, hash);
    case MemberRef(body, _) => PrimaryGrows(body, sc, scopes, cs, hash);
    case _ =>
  }

  lemma {:induction false} TypeGrows(t: TypeExpr, sc: nat, scopes: seq<ScopeRec>, cs: seq<CallStub>,
                                     hash: string -> nat)
    requires Wf(scopes) && sc < |scopes|
    ensures cs <= ResolveType(t, sc, scopes, cs, hash).calls
  {
    hide Wf, ElabPrimary;
    match t
    case ArrayType(e) => TypeGrows(e, sc, scopes, cs, hash);
    case SetType(e) => TypeGrows(e, sc, scopes, cs, hash);
    case MapType(k, e) =>
      TypeGrows(k, sc, scopes, cs, hash);
      TypeGrows(e, sc, scopes, ResolveType(k, sc, scopes, cs, hash).calls, hash);
    case NamedType(p) => PrimaryGrows(p, sc, scopes, cs, hash);
    case _ =>
  }

  // ----- expressions -----

  /** The expression is accepted, and its calls are among those of the module. */
  ghost predicate Elaborated(e: Expr, c: Context, cs: seq<CallStub>)
    requires c.Valid()
  {
    var x := ElabExpr(e, c.sc, c.scopes, cs, c.hash);
    x.r.Ok? && x.calls <= c.calls
  }

  ghost function NodeOf(e: Expr, c: Context, cs: seq<CallStub>): Node
    requires c.Valid() && Elaborated(e, c, cs)
  {
    ElabExpr(e, c.sc, c.scopes, cs, c.hash).r.value
  }

  /** Evaluating the node of an accepted expression gives the value, and leaves the store, that the expression
      says; operands come in the order of the source. */
  lemma {:induction false} ExprMeans<S, V>(l: Lang<S, V>, e: Expr, c: Context, cs: seq<CallStub>, s: S)
    requires c.Valid() && Elaborated(e, c, cs)
    ensures NodeValue(l, c.calls, NodeOf(e, c, cs), s) == Value(l, e, c, s)
    decreases e, 3
  {
    hide Wf, Find, Value, NodeValue, ElabExpr, ElabPrimary, ElabArgs;
    match e
    case Unary(_, _) => UnaryMeans(l, e, c, cs, s);
    case Binary(_, _, _) => BinaryMeans(l, e, c, cs, s);
    case Ite(_, _, _) => IteMeans(l, e, c, cs, s);
    case FuncCall(_, _) => CallMeans(l, e, c, cs, s);
    case Symbol(_) => PrimaryMeans(l, e, c, cs, s);
    case ArrayRef(_, _) => PrimaryMeans(l, e, c, cs, s);
    case MemberRef(_, _) => PrimaryMeans(l, e, c, cs, s);
    case _ => LiteralMeans(l, e, c, cs, s);
  }

  lemma LiteralMeans<S, V>(l: Lang<S, V>, e: Expr, c: Context, cs: seq<CallStub>, s: S)
    requires c.Valid() && Elaborated(e, c, cs)
    requires e.True? || e.False? || e.IntLit? || e.FloatLit? || e.StringLit?
    ensures NodeValue(l, c.calls, NodeOf(e, c, cs), s) == Value(l, e, c, s)
  {
    hide Wf;
  }

  lemma {:induction false} UnaryMeans<S, V>(l: Lang<S, V>, e: Expr, c: Context, cs: seq<CallStub>, s: S)
    requires e.Unary? && c.Valid() && Elaborated(e, c, cs)
    ensures NodeValue(l, c.calls, NodeOf(e, c, cs), s) == Value(l, e, c, s)
    decreases e, 2
  {
    hide Wf, Typing.CalcType1;
    ExprMeans(l, e.a, c, cs, s);
  }

  lemma {:induction false} BinaryMeans<S, V>(l: Lang<S, V>, e: Expr, c: Context, cs: seq<CallStub>, s: S)
    requires e.Binary? && c.Valid() && Elaborated(e, c, cs)
    ensures NodeValue(l, c.calls, NodeOf(e, c, cs), s) == Value(l, e, c, s)
    decreases e, 2
  {
    hide Wf, Typing.CalcType2;
    var x := ElabExpr(e.a, c.sc, c.scopes, cs, c.hash);
    ExprGrows(e.b, c.sc, c.scopes, x.calls, c.hash);
    ExprMeans(l, e.a, c, cs, s);
    var v := Value(l, e.a, c, s);
    if v.Some? { ExprMeans(l, e.b, c, x.calls, v.value.1); }
  }

  lemma {:induction false} IteMeans<S, V>(l: Lang<S, V>, e: Expr, c: Context, cs: seq<CallStub>, s: S)
    requires e.Ite? && c.Valid() && Elaborated(e, c, cs)
    ensures NodeValue(l, c.calls, NodeOf(e, c, cs), s) == Value(l, e, c, s)
    decreases e, 2
  {
    hide Wf, Typing.CalcType3;
    var x := ElabExpr(e.a, c.sc, c.scopes, cs, c.hash);
    var y := ElabExpr(e.b, c.sc, c.scopes, x.calls, c.hash);
    ExprGrows(e.b, c.sc, c.scopes, x.calls, c.hash);
    ExprGrows(e.c, c.sc, c.scopes, y.calls, c.hash);
    ExprMeans(l, e.a, c, cs, s);
    var v := Value(l, e.a, c, s);
    if v.Some? {
      ExprMeans(l, e.b, c, x.calls, v.value.1);
      ExprMeans(l, e.c, c, y.calls, v.value.1);
    }
  }

  lemma {:induction false} CallMeans<S, V>(l: Lang<S, V>, e: Expr, c: Context, cs: seq<CallStub>, s: S)
    requires e.FuncCall? && c.Valid() && Elaborated(e, c, cs)
    ensures NodeValue(l, c.calls, NodeOf(e, c, cs), s) == Value(l, e, c, s)
    decreases e, 2
  {
    hide Wf, ElabArgs, Values, NodeValues;
    var a := ElabArgs(e.args, c.sc, c.scopes, cs, c.hash);
    ArgsMean(l, e.args, c, cs, s);
    assert c.calls[|a.calls|] == (a.calls + [CallStub(e.func, c.sc)])[|a.calls|];
  }

  lemma {:induction false} ArgsMean<S, V>(l: Lang<S, V>, es: seq<Expr>, c: Context, cs: seq<CallStub>, s: S)
    requires c.Valid()
    requires var x := ElabArgs(es, c.sc, c.scopes, cs, c.hash); x.r.Ok? && x.calls <= c.calls
    ensures NodeValues(l, c.calls, ElabArgs(es, c.sc, c.scopes, cs, c.hash).r.value, s) == Values(l, es, c, s)
    decreases es, 0
  {
    hide Wf, Value, NodeValue, ElabExpr;
    if es != [] {
      var x := ElabExpr(es[0], c.sc, c.scopes, cs, c.hash);
      var rest := ElabArgs(es[1..], c.sc, c.scopes, x.calls, c.hash);
      ArgsGrow(es[1..], c.sc, c.scopes, x.calls, c.hash);
      ExprMeans(l, es[0], c, cs, s);
      var all := ElabArgs(es, c.sc, c.scopes, cs, c.hash).r.value;
      assert all[0] == x.r.value && all[1..] == rest.r.value;
      var v := Value(l, es[0], c, s);
      if v.Some? { ArgsMean(l, es[1..], c, x.calls, v.value.1); }
    }
  }

  lemma {:induction false} PrimaryMeans<S, V>(l: Lang<S, V>, e: Expr, c: Context, cs: seq<CallStub>, s: S)
    requires (e.Symbol? || e.ArrayRef? || e.MemberRef?) && c.Valid() && Elaborated(e, c, cs)
    ensures NodeValue(l, c.calls, NodeOf(e, c, cs), s) == Value(l, e, c, s)
    decreases e, 2
  {
    hide Wf, ElabPrimary, PlaceOf, HandlePlace, ReadPlace, Typing.LoadType;
    PlaceMeans(l, e, c, cs, s);
  }

  /** The handle of an accepted place, evaluated, is the place the expression stands for. */
  lemma {:induction false} PlaceMeans<S, V>(l: Lang<S, V>, e: Expr, c: Context, cs: seq<CallStub>, s: S)
    requires c.Valid()
    requires var p := ElabPrimary(e, c.sc, c.scopes, cs, c.hash); p.r.Ok? && p.calls <= c.calls
    ensures HandlePlace(l, c.calls, ElabPrimary(e, c.sc, c.scopes, cs, c.hash).r.value, s) == PlaceOf(l, e, c, s)
    decreases e, 1
  {
    hide Wf, Value, NodeValue, ElabExpr;
    match e
    case ArrayRef(body, index) => ElementMeans(l, e, c, cs, s);
    case _ => NamedMeans(e, c, cs);
  }

  lemma {:induction false} NamedMeans(e: Expr, c: Context, cs: seq<CallStub>)
    requires c.Valid() && !e.ArrayRef? && ElabPrimary(e, c.sc, c.scopes, cs, c.hash).r.Ok?
    ensures Named(e, c) == Some(ElabPrimary(e, c.sc, c.scopes, cs, c.hash).r.value)
    decreases e
  {
    hide Wf, Find;
    if e.MemberRef? {
      var p := ElabPrimary(e.body, c.sc, c.scopes, cs, c.hash);
      if e.body.ArrayRef? { ElementIs(e.body, c, cs); } else { NamedMeans(e.body, c, cs); }
    }
  }

  lemma ElementIs(e: Expr, c: Context, cs: seq<CallStub>)
    requires e.ArrayRef? && c.Valid() && ElabPrimary(e, c.sc, c.scopes, cs, c.hash).r.Ok?
    ensures ElabPrimary(e, c.sc, c.scopes, cs, c.hash).r.value.ArrayRef?
  {
    hide Wf, ElabExpr;
  }

  lemma {:induction false} ElementMeans<S, V>(l: Lang<S, V>, e: Expr, c: Context, cs: seq<CallStub>, s: S)
    requires e.ArrayRef? && c.Valid()
    requires var p := ElabPrimary(e, c.sc, c.scopes, cs, c.hash); p.r.Ok? && p.calls <= c.calls
    ensures HandlePlace(l, c.calls, ElabPrimary(e, c.sc, c.scopes, cs, c.hash).r.value, s) == PlaceOf(l, e, c, s)
    decreases e, 0
  {
    hide Wf, ElabExpr, Value, ReadPlace;
    var p := ElabPrimary(e.body, c.sc, c.scopes, cs, c.hash);
    ExprGrows(e.index, c.sc, c.scopes, p.calls, c.hash);
    PlaceMeans(l, e.body, c, cs, s);
    var a := Contents(l, e.body, c, s);
    if a.Some? { ExprMeans(l, e.index, c, p.calls, a.value.1); }
  }

  // ----- declarations and statements only add calls -----

  lemma {:induction false} EnumGrows(consts: seq<EnumConst>, es: nat, st: State, used: seq<int>, next: nat, env: Env)
    requires Wf(st.scopes) && es < |st.scopes|
    ensures var r := EnumValues(consts, es, st, used, next, env); !r.EnumAbort? ==> st.calls <= r.st.calls
    decreases consts
  {
    hide Wf, ElabExpr, Declare, Interp.EvalInt;
    if consts != [] {
      match consts[0].val
      case None =>
        var v := FirstFree(used, next);
        EnumGrows(consts[1..], es, Declare(st, es, IntConst(consts[0].name, v), env), used + [v], v + 1, env);
      case Some(e) =>
        ExprGrows(e, es, st.scopes, st.calls, env.hash);
        var x := ElabExpr(e, es, st.scopes, st.calls, env.hash);
        if x.r.Ok? && Interp.EvalInt(x.r.value, env.fp).Val? {
          var v := Interp.EvalInt(x.r.value, env.fp).v;
          EnumGrows(consts[1..], es, Declare(st.(calls := x.calls), es, IntConst(consts[0].name, v), env),
                    used + [v], next, env);
        }
    }
  }

  lemma RegEnumGrows(name: string, consts: seq<EnumConst>, sc: nat, st: State, env: Env)
    requires Wf(st.scopes) && sc < |st.scopes| && RegEnum(name, consts, sc, st, env).Ok?
    ensures st.calls <= RegEnum(name, consts, sc, st, env).value.calls
  {
    hide Wf, EnumValues, Declare, NameFree, Open;
    if NameFree(st, sc, name, env) { EnumGrows(consts, |st.scopes|, Open(st, sc), [], 0, env); }
  }

  lemma RegConstGrows(name: string, t: TypeExpr, d: Expr, sc: nat, st: State, env: Env)
    requires Wf(st.scopes) && sc < |st.scopes| && RegConst(name, t, d, sc, st, env).Ok?
    ensures st.calls <= RegConst(name, t, d, sc, st, env).value.calls
  {
    hide Wf, ElabExpr, ResolveType, ConstHandle, Declare, NameFree, Typing.IsStatic;
    TypeGrows(t, sc, st.scopes, st.calls, env.hash);
    ExprGrows(d, sc, st.scopes, ResolveType(t, sc, st.scopes, st.calls, env.hash).calls, env.hash);
  }

  lemma {:induction false} ParamTypesGrow(params: seq<Param>, fs: nat, sc: nat, st: State, env: Env)
    requires Wf(st.scopes) && sc < |st.scopes| && fs < |st.scopes|
    ensures st.calls <= ParamTypes(params, fs, sc, st, env).calls
    decreases params
  {
    hide Wf, ResolveType, NameFree;
    if params != [] {
      TypeGrows(params[0].ty, sc, st.scopes, st.calls, env.hash);
      var t := ResolveType(params[0].ty, sc, st.scopes, st.calls, env.hash);
      ParamTypesGrow(params[1..], fs, sc, st.(calls := t.calls), env);
    }
  }

  lemma {:induction false} ParamsGrow(params: seq<Param>, tys: seq<Ty>, i: nat, fs: nat, sc: nat, st: State, env: Env)
    requires Wf(st.scopes) && sc < |st.scopes| && fs < |st.scopes| && |tys| == |params| && i <= |params|
    ensures var r := DeclareParams(params, tys, i, fs, sc, st, env); !r.ParamsAbort? ==> st.calls <= r.st.calls
    decreases |params| - i
  {
    hide Wf, ElabExpr, Declare;
    if i < |params| {
      var st1 := Declare(st, fs, LocalVar(params[i].name, tys[i], 0, i), env);
      if params[i].init.Some? { ExprGrows(params[i].init.value, sc, st1.scopes, st1.calls, env.hash); }
      var x := if params[i].init.None? then Out(Null, st1.calls)
               else ElabExpr(params[i].init.value, sc, st1.scopes, st1.calls, env.hash);
      ParamsGrow(params, tys, i + 1, fs, sc, st1.(calls := x.calls), env);
    }
  }

  lemma RegFuncGrows(name: string, t: TypeExpr, params: seq<Param>, sc: nat, st: State, env: Env)
    requires Wf(st.scopes) && sc < |st.scopes| && st.blocks != [] && !RegFunc(name, t, params, sc, st, env).HeaderAbort?
    ensures st.calls <= RegFunc(name, t, params, sc, st, env).st.calls
  {
    hide Wf, ResolveType, ParamTypes, DeclareParams, Declare, Open, NameFree;
    if NameFree(st, sc, name, env) {
      var fs, st1 := |st.scopes|, Open(st, GlobalOf(st, sc));
      TypeGrows(t, sc, st1.scopes, st1.calls, env.hash);
      var out := ResolveType(t, sc, st1.scopes, st1.calls, env.hash);
      if out.r.Ok? {
        ParamTypesGrow(params, fs, sc, st1.(calls := out.calls), env);
        var tys := ParamTypes(params, fs, sc, st1.(calls := out.calls), env);
        if tys.r.Ok? { ParamsGrow(params, tys.r.value, 0, fs, sc, st1.(calls := tys.calls), env); }
      }
    }
  }

  lemma VarGrows(name: string, t: TypeExpr, init: Option<Expr>, sc: nat, b: nat, st: State, env: Env)
    requires Ready(st, sc, b) && VarDeclaration(name, t, init, sc, b, st, env).Elab?
    ensures st.calls <= VarDeclaration(name, t, init, sc, b, st, env).st.calls
  {
    hide Wf, ElabExpr, ResolveType, NameFree, Declare;
    TypeGrows(t, sc, st.scopes, st.calls, env.hash);
    var ty := ResolveType(t, sc, st.scopes, st.calls, env.hash);
    if NameFree(st, sc, name, env) && ty.r.Ok? {
      var (st1, h) := DeclareVar(name, ty.r.value, sc, b, st.(calls := ty.calls), env);
      if init.Some? { ExprGrows(init.value, sc, st1.scopes, st1.calls, env.hash); }
    }
  }

  lemma SimpleGrows(s: Stmt, sc: nat, b: nat, st: State, env: Env)
    requires !s.Block? && !s.FuncDecl? && !s.If? && !s.While? && !s.DoWhile? && !s.For?
    requires Ready(st, sc, b) && ElabStmt(s, sc, b, st, env).Elab?
    ensures st.calls <= ElabStmt(s, sc, b, st, env).st.calls
  {
    hide Wf, ElabExpr, ElabPrimary, VarDeclaration, RegConst, RegEnum;
    match s
    case ConstDecl(n, t, d) => RegConstGrows(n, t, d, sc, st, env);
    case EnumDecl(n, consts) => RegEnumGrows(n, consts, sc, st, env);
    case VarDecl(n, t, init) => VarGrows(n, t, init, sc, b, st, env);
    case Incr(lhs) => PrimaryGrows(lhs, sc, st.scopes, st.calls, env.hash);
    case Decr(lhs) => PrimaryGrows(lhs, sc, st.scopes, st.calls, env.hash);
    case Assignment(lhs, rhs) => SidesGrow(lhs, rhs, sc, st, env);
    case InplaceOp(_, lhs, rhs) => SidesGrow(lhs, rhs, sc, st, env);
    case ExprStmt(e) => ExprGrows(e, sc, st.scopes, st.calls, env.hash);
    case Return(Some(e)) => ExprGrows(e, sc, st.scopes, st.calls, env.hash);
    case _ =>
  }

  lemma SidesGrow(lhs: Expr, rhs: Expr, sc: nat, st: State, env: Env)
    requires Wf(st.scopes) && sc < |st.scopes|
    ensures var x := ElabExpr(rhs, sc, st.scopes, st.calls, env.hash);
            var p := ElabPrimary(lhs, sc, st.scopes, x.calls, env.hash);
            st.calls <= x.calls <= p.calls && st.calls <= p.calls
  {
    hide Wf, ElabExpr, ElabPrimary;
    ExprGrows(rhs, sc, st.scopes, st.calls, env.hash);
    PrimaryGrows(lhs, sc, st.scopes, ElabExpr(rhs, sc, st.scopes, st.calls, env.hash).calls, env.hash);
  }

  lemma {:induction false} LoopGrows(s: Stmt, sc: nat, b: nat, st: State, env: Env)
    requires s.If? || s.While? || s.DoWhile?
    requires Ready(st, sc, b) && ElabStmt(s, sc, b, st, env).Elab?
    ensures st.calls <= ElabStmt(s, sc, b, st, env).st.calls
    decreases s, 0
  {
    hide Wf, ElabExpr;
    if s.DoWhile? {
      StmtGrows(s.body, sc, b, st, env);
      var st1 := ElabStmt(s.body, sc, b, st, env).st;
      ExprGrows(s.cond, sc, st1.scopes, st1.calls, env.hash);
    } else {
      ExprGrows(s.cond, sc, st.scopes, st.calls, env.hash);
      var st1 := Tested(s.cond, sc, st, env);
      var first := if s.If? then s.thn else s.body;
      StmtGrows(first, sc, b, st1, env);
      if s.If? { StmtGrows(s.els.value, sc, b, ElabStmt(first, sc, b, st1, env).st, env); }
    }
  }

  lemma {:induction false} ForGrows(s: Stmt, sc: nat, b: nat, st: State, env: Env)
    requires s.For? && Ready(st, sc, b) && ElabStmt(s, sc, b, st, env).Elab?
    ensures var fs, st0 := |st.scopes|, Open(st, sc);
            var st1 := ElabStmt(s.first, fs, b, st0, env).st;
            var st2 := Tested(s.cond, fs, st1, env);
            var st3 := ElabStmt(s.body, fs, b, st2, env).st;
            var r := ElabStmt(s, sc, b, st, env).st;
            && st.calls <= st1.calls <= st2.calls <= st3.calls <= r.calls
            && st2.calls <= r.calls && st1.calls <= r.calls && st.calls <= r.calls
    decreases s, 0
  {
    hide Wf, ElabExpr;
    var fs, st0 := |st.scopes|, Open(st, sc);
    StmtGrows(s.first, fs, b, st0, env);
    var st1 := ElabStmt(s.first, fs, b, st0, env).st;
    ExprGrows(s.cond, fs, st1.scopes, st1.calls, env.hash);
    var st2 := Tested(s.cond, fs, st1, env);
    StmtGrows(s.body, fs, b, st2, env);
    var st3 := ElabStmt(s.body, fs, b, st2, env).st;
    StmtGrows(s.step, fs, b, st3, env);
  }

  lemma {:induction false} StmtGrows(s: Stmt, sc: nat, b: nat, st: State, env: Env)
    requires Ready(st, sc, b) && ElabStmt(s, sc, b, st, env).Elab?
    ensures st.calls <= ElabStmt(s, sc, b, st, env).st.calls
    decreases s, 1
  {
    hide Wf, RegFunc;
    match s
    case Block(stmts) => ListGrows(stmts, |st.scopes|, b, Open(st, sc), env);
    case FuncDecl(name, ty, params, body) =>
      RegFuncGrows(name, ty, params, sc, st, env);
      var h := RegFunc(name, ty, params, sc, st, env);
      if h.Header? { StmtGrows(body, h.scope, h.block, h.st, env); }
    case If(_, _, _) => LoopGrows(s, sc, b, st, env);
    case While(_, _) => LoopGrows(s, sc, b, st, env);
    case DoWhile(_, _) => LoopGrows(s, sc, b, st, env);
    case For(_, _, _, _) => ForGrows(s, sc, b, st, env);
    case _ => SimpleGrows(s, sc, b, st, env);
  }

  lemma {:induction false} ListGrows(stmts: seq<Stmt>, sc: nat, b: nat, st: State, env: Env)
    requires Ready(st, sc, b) && ElabAll(stmts, sc, b, st, env).ElabSeq?
    ensures st.calls <= ElabAll(stmts, sc, b, st, env).st.calls
    decreases stmts, 0
  {
    hide Wf, ElabStmt;
    if stmts != [] {
      StmtGrows(stmts[0], sc, b, st, env);
      ListGrows(stmts[1..], sc, b, ElabStmt(stmts[0], sc, b, st, env).st, env);
    }
  }

  // ----- statements -----

  /** The statement is accepted, and its calls are among those of the module. */
  ghost predicate Compiled(s: Stmt, sc: nat, b: nat, st: State, env: Env, calls: seq<CallStub>)
    requires Ready(st, sc, b)
  {
    var r := ElabStmt(s, sc, b, st, env);
    r.Elab? && r.st.calls <= calls
  }

  ghost predicate AllCompiled(stmts: seq<Stmt>, sc: nat, b: nat, st: State, env: Env, calls: seq<CallStub>)
    requires Ready(st, sc, b)
  {
    var r := ElabAll(stmts, sc, b, st, env);
    r.ElabSeq? && r.st.calls <= calls
  }

  ghost function CodeOf(s: Stmt, sc: nat, b: nat, st: State, env: Env): F.Stmt
    requires Ready(st, sc, b) && ElabStmt(s, sc, b, st, env).Elab?
  {
    ElabStmt(s, sc, b, st, env).code
  }

  /** Testing the node of an accepted condition. */
  lemma TruthMeans<S, V>(l: Lang<S, V>, e: Expr, sc: nat, st: State, env: Env, calls: seq<CallStub>, m: S)
    requires Wf(st.scopes) && sc < |st.scopes| && Elaborated(e, Here(sc, st, env, calls), st.calls)
    ensures var c := Here(sc, st, env, calls);
            NodeSem(l, calls).test(NodeOf(e, c, st.calls), m) == Truth(l, e, c, m)
  {
    hide Wf, Value, NodeValue, ElabExpr;
    ExprMeans(l, e, Here(sc, st, env, calls), st.calls, m);
  }

  function SetNode(op: Option<BinOp>, h: Handle, n: Node): Node {
    if op.Some? then InplaceBinOp(op.value, h, n) else Store(h, n)
  }

  lemma EffectOfSet<S, V>(l: Lang<S, V>, calls: seq<CallStub>, op: Option<BinOp>, h: Handle, n: Node, m: S)
    ensures var v := NodeValue(l, calls, n, m);
            NodeEffect(l, calls, SetNode(op, h, n), m) ==
              if v.None? then None else
                var p := HandlePlace(l, calls, h, v.value.1);
                if p.None? then None else Put(l, op, p.value.0, v.value.0, p.value.1)
  {
    hide NodeValue, HandlePlace, Put;
  }

  lemma AssignMeans<S, V>(l: Lang<S, V>, lhs: Expr, op: Option<BinOp>, rhs: Expr, sc: nat, st: State, env: Env,
                          calls: seq<CallStub>, m: S)
    requires Wf(st.scopes) && sc < |st.scopes|
    requires var x := ElabExpr(rhs, sc, st.scopes, st.calls, env.hash);
             var p := ElabPrimary(lhs, sc, st.scopes, x.calls, env.hash);
             x.r.Ok? && p.r.Ok? && p.calls <= calls
    ensures var x := ElabExpr(rhs, sc, st.scopes, st.calls, env.hash);
            var h := ElabPrimary(lhs, sc, st.scopes, x.calls, env.hash).r.value;
            NodeEffect(l, calls, SetNode(op, h, x.r.value), m) == Assigned(l, lhs, op, rhs, Here(sc, st, env, calls), m)
  {
    hide Wf, Value, NodeValue, NodeEffect, ElabExpr, ElabPrimary, HandlePlace, PlaceOf, Put, SetNode;
    var c := Here(sc, st, env, calls);
    var x := ElabExpr(rhs, sc, st.scopes, st.calls, env.hash);
    SidesGrow(lhs, rhs, sc, st, env);
    ExprMeans(l, rhs, c, st.calls, m);
    EffectOfSet(l, calls, op, ElabPrimary(lhs, sc, st.scopes, x.calls, env.hash).r.value, x.r.value, m);
    var v := Value(l, rhs, c, m);
    if v.Some? { PlaceMeans(l, lhs, c, x.calls, v.value.1); }
  }

  /** The variable just declared is what its name stands for. */
  lemma DeclaredFound(name: string, ty: Ty, sc: nat, b: nat, st: State, env: Env)
    requires Ready(st, sc, b)
    ensures var (r, h) := DeclareVar(name, ty, sc, b, st, env);
            Find(r.scopes, sc, name, env.hash) == Some(h) && (h.GlobalVar? || h.LocalVar?) && h.name == name
  {
    hide ScopeTable.Add, ScopeTable.FindLocal;
    var (r, h) := DeclareVar(name, ty, sc, b, st, env);
    assert ScopeWf(st.scopes, sc) && ScopeWf(r.scopes, sc);
    OwnFound(st.scopes[sc].table, h, env.hash);
  }

  lemma InitMeans<S, V>(l: Lang<S, V>, s: Stmt, sc: nat, b: nat, st: State, env: Env, calls: seq<CallStub>, br: bool,
                        m: S, fuel: nat)
    requires s.VarDecl? && Ready(st, sc, b) && Compiled(s, sc, b, st, env, calls)
    ensures Semantics.Exec(NodeSem(l, calls), CodeOf(s, sc, b, st, env), br, br, m, fuel)
         == Source.Exec(l, calls, s, sc, b, st, env, br, m, fuel)
  {
    hide Wf, Value, NodeValue, ElabExpr, ResolveType, NameFree, Find, Put, Kind;
    var ty := ResolveType(s.ty, sc, st.scopes, st.calls, env.hash);
    if s.init.Some? && NameFree(st, sc, s.name, env) && ty.r.Ok? {
      var st0 := st.(calls := ty.calls);
      var (st1, h) := DeclareVar(s.name, ty.r.value, sc, b, st0, env);
      DeclaredFound(s.name, ty.r.value, sc, b, st0, env);
      hide DeclareVar;
      var x := ElabExpr(s.init.value, sc, st1.scopes, st1.calls, env.hash);
      K.KindHere(s.init.value, sc, st1, st1.calls, env);
      if x.r.Ok? {
        NameElaborated(s.name, h, sc, st1, x.calls, env);
        AssignMeans(l, Symbol(s.name), None, s.init.value, sc, st1, env, calls, m);
      }
    }
  }

  lemma NameElaborated(n: string, h: Handle, sc: nat, st: State, cs: seq<CallStub>, env: Env)
    requires Wf(st.scopes) && sc < |st.scopes| && Find(st.scopes, sc, n, env.hash) == Some(h)
    ensures ElabPrimary(Symbol(n), sc, st.scopes, cs, env.hash) == Out(Ok(h), cs)
  {
    hide Find;
  }

  lemma StepMeans<S, V>(l: Lang<S, V>, s: Stmt, sc: nat, b: nat, st: State, env: Env, calls: seq<CallStub>, br: bool,
                        m: S, fuel: nat)
    requires (s.Incr? || s.Decr?) && Ready(st, sc, b) && Compiled(s, sc, b, st, env, calls)
    ensures Semantics.Exec(NodeSem(l, calls), CodeOf(s, sc, b, st, env), br, br, m, fuel)
         == Source.Exec(l, calls, s, sc, b, st, env, br, m, fuel)
  {
    hide Wf, ElabPrimary, HandlePlace, PlaceOf, ChangePlace, PlaceKind;
    var p := ElabPrimary(s.lhs, sc, st.scopes, st.calls, env.hash);
    K.PlaceHere(s.lhs, sc, st, st.calls, env);
    if p.r.Ok? { PlaceMeans(l, s.lhs, Here(sc, st, env, calls), st.calls, m); }
  }

  lemma AssignmentMeans<S, V>(l: Lang<S, V>, s: Stmt, sc: nat, b: nat, st: State, env: Env, calls: seq<CallStub>,
                              br: bool, m: S, fuel: nat)
    requires (s.Assignment? || s.InplaceOp?) && Ready(st, sc, b) && Compiled(s, sc, b, st, env, calls)
    ensures Semantics.Exec(NodeSem(l, calls), CodeOf(s, sc, b, st, env), br, br, m, fuel)
         == Source.Exec(l, calls, s, sc, b, st, env, br, m, fuel)
  {
    hide Wf, ElabExpr, ElabPrimary, NodeEffect, Assigned, Kind, PlaceKind;
    var x := ElabExpr(s.rhs, sc, st.scopes, st.calls, env.hash);
    K.KindHere(s.rhs, sc, st, st.calls, env);
    K.PlaceHere(s.lhs, sc, Tested(s.rhs, sc, st, env), x.calls, env);
    if x.r.Ok? && ElabPrimary(s.lhs, sc, st.scopes, x.calls, env.hash).r.Ok? {
      AssignMeans(l, s.lhs, if s.InplaceOp? then Some(s.op) else None, s.rhs, sc, st, env, calls, m);
    }
  }

  lemma EffectOfValue<S, V>(l: Lang<S, V>, e: Expr, c: Context, cs: seq<CallStub>, s: S)
    requires c.Valid() && Elaborated(e, c, cs)
    ensures var n := NodeOf(e, c, cs);
            var v := NodeValue(l, c.calls, n, s);
            NodeEffect(l, c.calls, n, s) == if v.None? then None else Some(v.value.1)
  {
    hide Wf, ElabPrimary, ElabArgs, Typing.CalcType1, Typing.CalcType2, Typing.CalcType3, NodeValue;
  }

  lemma ValueMeans<S, V>(l: Lang<S, V>, s: Stmt, sc: nat, b: nat, st: State, env: Env, calls: seq<CallStub>,
                         br: bool, m: S, fuel: nat)
    requires (s.ExprStmt? || s.Return?) && Ready(st, sc, b) && Compiled(s, sc, b, st, env, calls)
    ensures Semantics.Exec(NodeSem(l, calls), CodeOf(s, sc, b, st, env), br, br, m, fuel)
         == Source.Exec(l, calls, s, sc, b, st, env, br, m, fuel)
  {
    hide Wf, ElabExpr, Value, NodeValue, NodeEffect, Kind;
    if s.ExprStmt? || s.val.Some? {
      var e := if s.ExprStmt? then s.e else s.val.value;
      var c := Here(sc, st, env, calls);
      K.KindHere(e, sc, st, st.calls, env);
      if ElabExpr(e, sc, st.scopes, st.calls, env.hash).r.Ok? {
        ExprMeans(l, e, c, st.calls, m);
        EffectOfValue(l, e, c, st.calls, m);
      } else {
        NothingMeans(l, calls, m);
      }
    }
  }

  lemma NothingMeans<S, V>(l: Lang<S, V>, calls: seq<CallStub>, m: S)
    ensures NodeEffect(l, calls, NullNode, m) == Some(m)
  {
  }

  lemma SimpleMeans<S, V>(l: Lang<S, V>, s: Stmt, sc: nat, b: nat, st: State, env: Env, calls: seq<CallStub>, br: bool,
                          m: S, fuel: nat)
    requires !s.Block? && !s.If? && !s.While? && !s.DoWhile? && !s.For?
    requires Ready(st, sc, b) && Compiled(s, sc, b, st, env, calls)
    ensures Semantics.Exec(NodeSem(l, calls), CodeOf(s, sc, b, st, env), br, br, m, fuel)
         == Source.Exec(l, calls, s, sc, b, st, env, br, m, fuel)
  {
    hide Wf, ElabExpr, ElabPrimary, RegConst, RegEnum, RegFunc, VarDeclaration;
    match s
    case VarDecl(_, _, _) => InitMeans(l, s, sc, b, st, env, calls, br, m, fuel);
    case Incr(_) => StepMeans(l, s, sc, b, st, env, calls, br, m, fuel);
    case Decr(_) => StepMeans(l, s, sc, b, st, env, calls, br, m, fuel);
    case Assignment(_, _) => AssignmentMeans(l, s, sc, b, st, env, calls, br, m, fuel);
    case InplaceOp(_, _, _) => AssignmentMeans(l, s, sc, b, st, env, calls, br, m, fuel);
    case ExprStmt(_) => ValueMeans(l, s, sc, b, st, env, calls, br, m, fuel);
    case Return(_) => ValueMeans(l, s, sc, b, st, env, calls, br, m, fuel);
    case _ =>
  }

  lemma {:induction false} IfMeans<S, V>(l: Lang<S, V>, s: Stmt, sc: nat, b: nat, st: State, env: Env,
                                         calls: seq<CallStub>, br: bool, m: S, fuel: nat)
    requires s.If? && Ready(st, sc, b) && Compiled(s, sc, b, st, env, calls)
    ensures Semantics.Exec(NodeSem(l, calls), CodeOf(s, sc, b, st, env), br, br, m, fuel)
         == Source.Exec(l, calls, s, sc, b, st, env, br, m, fuel)
    decreases fuel, s, 2
  {
    hide Wf, ElabExpr, Truth, NodeSem;
    var st1 := Tested(s.cond, sc, st, env);
    var t := ElabStmt(s.thn, sc, b, st1, env);
    StmtGrows(s.thn, sc, b, st1, env);
    StmtGrows(s.els.value, sc, b, t.st, env);
    TruthMeans(l, s.cond, sc, st, env, calls, m);
    var x := Truth(l, s.cond, Here(sc, st, env, calls), m);
    if x.Some? {
      StmtMeans(l, s.thn, sc, b, st1, env, calls, br, x.value.1, fuel);
      StmtMeans(l, s.els.value, sc, b, t.st, env, calls, br, x.value.1, fuel);
    }
  }

  lemma {:induction false} WhileMeans<S, V>(l: Lang<S, V>, s: Stmt, sc: nat, b: nat, st: State, env: Env,
                                            calls: seq<CallStub>, m: S, fuel: nat)
    requires s.While? && Ready(st, sc, b) && Compiled(s, sc, b, st, env, calls)
    ensures Semantics.Loop(NodeSem(l, calls), CodeOf(s, sc, b, st, env), m, fuel)
         == Source.Loop(l, calls, s, sc, b, st, env, m, fuel)
    decreases fuel, s, 1
  {
    hide Wf, ElabExpr, Truth, NodeSem, Semantics.Exec, Source.Exec;
    if fuel > 0 {
      var st1 := Tested(s.cond, sc, st, env);
      StmtGrows(s.body, sc, b, st1, env);
      TruthMeans(l, s.cond, sc, st, env, calls, m);
      var x := Truth(l, s.cond, Here(sc, st, env, calls), m);
      if x.Some? && x.value.0 {
        StmtMeans(l, s.body, sc, b, st1, env, calls, true, x.value.1, fuel);
        var r := Source.Exec(l, calls, s.body, sc, b, st1, env, true, x.value.1, fuel);
        if r.Done? { WhileMeans(l, s, sc, b, st, env, calls, r.st, fuel - 1); }
      }
    }
  }

  lemma {:induction false} DoWhileMeans<S, V>(l: Lang<S, V>, s: Stmt, sc: nat, b: nat, st: State, env: Env,
                                              calls: seq<CallStub>, m: S, fuel: nat)
    requires s.DoWhile? && Ready(st, sc, b) && Compiled(s, sc, b, st, env, calls)
    ensures Semantics.Loop(NodeSem(l, calls), CodeOf(s, sc, b, st, env), m, fuel)
         == Source.Loop(l, calls, s, sc, b, st, env, m, fuel)
    decreases fuel, s, 1
  {
    hide Wf, ElabExpr, Truth, NodeSem, Semantics.Exec, Source.Exec;
    if fuel > 0 {
      var st1 := ElabStmt(s.body, sc, b, st, env).st;
      ExprGrows(s.cond, sc, st1.scopes, st1.calls, env.hash);
      StmtMeans(l, s.body, sc, b, st, env, calls, true, m, fuel);
      var r := Source.Exec(l, calls, s.body, sc, b, st, env, true, m, fuel);
      if r.Done? {
        TruthMeans(l, s.cond, sc, st1, env, calls, r.st);
        DoWhileMeans(l, s, sc, b, st, env, calls, r.st, fuel - 1);
        var x := Truth(l, s.cond, Here(sc, st1, env, calls), r.st);
        if x.Some? { DoWhileMeans(l, s, sc, b, st, env, calls, x.value.1, fuel - 1); }
      }
    }
  }

  /** The parts of an accepted for statement; `st1` is the state behind its first part. */
  ghost predicate ForCompiled(s: Stmt, sc: nat, b: nat, st1: State, env: Env, calls: seq<CallStub>)
    requires s.For? && Ready(st1, sc, b)
  {
    && Elaborated(s.cond, Here(sc, st1, env, calls), st1.calls)
    && var st2 := Tested(s.cond, sc, st1, env);
    && Compiled(s.body, sc, b, st2, env, calls)
    && Compiled(s.step, sc, b, ElabStmt(s.body, sc, b, st2, env).st, env, calls)
  }

  ghost function ForCode(s: Stmt, first: F.Stmt, sc: nat, b: nat, st1: State, env: Env, calls: seq<CallStub>): F.Stmt
    requires s.For? && Ready(st1, sc, b) && ForCompiled(s, sc, b, st1, env, calls)
  {
    var st2 := Tested(s.cond, sc, st1, env);
    F.For(first, NodeOf(s.cond, Here(sc, st1, env, calls), st1.calls), CodeOf(s.body, sc, b, st2, env),
          CodeOf(s.step, sc, b, ElabStmt(s.body, sc, b, st2, env).st, env))
  }

  lemma {:induction false} RoundMeans<S, V>(l: Lang<S, V>, s: Stmt, code: F.Stmt, sc: nat, b: nat, st: State, env: Env,
                                            calls: seq<CallStub>, m: S, fuel: nat)
    requires s.For? && Ready(st, sc, b) && Compiled(s.body, sc, b, st, env, calls)
    requires Compiled(s.step, sc, b, ElabStmt(s.body, sc, b, st, env).st, env, calls)
    requires code.For? && code.body == CodeOf(s.body, sc, b, st, env)
    requires code.next == CodeOf(s.step, sc, b, ElabStmt(s.body, sc, b, st, env).st, env)
    ensures Semantics.BodyStep(NodeSem(l, calls), code, m, fuel) == Source.Round(l, calls, s, sc, b, st, env, m, fuel)
    decreases fuel, s, 0
  {
    hide Wf, NodeSem, ElabStmt, Semantics.Exec, Source.Exec;
    StmtMeans(l, s.body, sc, b, st, env, calls, true, m, fuel);
    var r := Source.Exec(l, calls, s.body, sc, b, st, env, true, m, fuel);
    if r.Done? { StmtMeans(l, s.step, sc, b, ElabStmt(s.body, sc, b, st, env).st, env, calls, true, r.st, fuel); }
  }

  lemma {:induction false} ForLoopMeans<S, V>(l: Lang<S, V>, s: Stmt, first: F.Stmt, sc: nat, b: nat, st: State,
                                              env: Env, calls: seq<CallStub>, m: S, fuel: nat)
    requires s.For? && Ready(st, sc, b) && ForCompiled(s, sc, b, st, env, calls)
    ensures Semantics.Loop(NodeSem(l, calls), ForCode(s, first, sc, b, st, env, calls), m, fuel)
         == Source.Loop(l, calls, s, sc, b, st, env, m, fuel)
    decreases fuel, s, 1
  {
    hide Wf, ElabExpr, ElabStmt, Truth, NodeSem, Semantics.BodyStep, Source.Round;
    if fuel > 0 {
      TruthMeans(l, s.cond, sc, st, env, calls, m);
      var x := Truth(l, s.cond, Here(sc, st, env, calls), m);
      if x.Some? && x.value.0 {
        var st1, code := Tested(s.cond, sc, st, env), ForCode(s, first, sc, b, st, env, calls);
        RoundMeans(l, s, code, sc, b, st1, env, calls, x.value.1, fuel);
        var r := Source.Round(l, calls, s, sc, b, st1, env, x.value.1, fuel);
        if r.Done? { ForLoopMeans(l, s, first, sc, b, st, env, calls, r.st, fuel - 1); }
      }
    }
  }

  lemma ForParts(s: Stmt, sc: nat, b: nat, st: State, env: Env, calls: seq<CallStub>)
    requires s.For? && Ready(st, sc, b) && Compiled(s, sc, b, st, env, calls)
    ensures var fs, st0 := |st.scopes|, Open(st, sc);
            && Compiled(s.first, fs, b, st0, env, calls)
            && var i := ElabStmt(s.first, fs, b, st0, env);
            && ForCompiled(s, fs, b, i.st, env, calls)
            && CodeOf(s, sc, b, st, env) == ForCode(s, i.code, fs, b, i.st, env, calls)
  {
    hide Wf, ElabExpr;
    ForGrows(s, sc, b, st, env);
  }

  lemma {:induction false} ForMeans<S, V>(l: Lang<S, V>, s: Stmt, sc: nat, b: nat, st: State, env: Env,
                                          calls: seq<CallStub>, br: bool, m: S, fuel: nat)
    requires s.For? && Ready(st, sc, b) && Compiled(s, sc, b, st, env, calls)
    ensures Semantics.Exec(NodeSem(l, calls), CodeOf(s, sc, b, st, env), br, br, m, fuel)
         == Source.Exec(l, calls, s, sc, b, st, env, br, m, fuel)
    decreases fuel, s, 2
  {
    hide Wf, ElabExpr, ElabStmt, NodeSem, Semantics.Loop, Source.Loop, ForCompiled;
    ForParts(s, sc, b, st, env, calls);
    var fs, st0 := |st.scopes|, Open(st, sc);
    var i := ElabStmt(s.first, fs, b, st0, env);
    StmtMeans(l, s.first, fs, b, st0, env, calls, false, m, fuel);
    var r := Source.Exec(l, calls, s.first, fs, b, st0, env, false, m, fuel);
    if r.Done? { ForLoopMeans(l, s, i.code, fs, b, i.st, env, calls, r.st, fuel); }
  }

  /** What an accepted statement compiles to does what the statement says: same outcome, same store, with the same
      bound on the rounds of loops. */
  lemma {:induction false} StmtMeans<S, V>(l: Lang<S, V>, s: Stmt, sc: nat, b: nat, st: State, env: Env,
                                           calls: seq<CallStub>, br: bool, m: S, fuel: nat)
    requires Ready(st, sc, b) && Compiled(s, sc, b, st, env, calls)
    ensures Semantics.Exec(NodeSem(l, calls), CodeOf(s, sc, b, st, env), br, br, m, fuel)
         == Source.Exec(l, calls, s, sc, b, st, env, br, m, fuel)
    decreases fuel, s, 3
  {
    hide Wf, NodeSem, Semantics.Loop, Source.Loop;
    match s
    case Block(stmts) => ListMeans(l, stmts, |st.scopes|, b, Open(st, sc), env, calls, br, m, fuel);
    case If(_, _, _) => IfMeans(l, s, sc, b, st, env, calls, br, m, fuel);
    case While(_, _) => WhileMeans(l, s, sc, b, st, env, calls, m, fuel);
    case DoWhile(_, _) => DoWhileMeans(l, s, sc, b, st, env, calls, m, fuel);
    case For(_, _, _, _) => ForMeans(l, s, sc, b, st, env, calls, br, m, fuel);
    case _ => SimpleMeans(l, s, sc, b, st, env, calls, br, m, fuel);
  }

  lemma {:induction false} ListMeans<S, V>(l: Lang<S, V>, stmts: seq<Stmt>, sc: nat, b: nat, st: State, env: Env,
                                           calls: seq<CallStub>, br: bool, m: S, fuel: nat)
    requires Ready(st, sc, b) && AllCompiled(stmts, sc, b, st, env, calls)
    ensures Semantics.ExecAll(NodeSem(l, calls), ElabAll(stmts, sc, b, st, env).codes, br, br, m, fuel)
         == Source.ExecAll(l, calls, stmts, sc, b, st, env, br, m, fuel)
    decreases fuel, stmts, 0
  {
    hide Wf, NodeSem, ElabStmt, Semantics.Exec, Source.Exec;
    if stmts != [] {
      var x := ElabStmt(stmts[0], sc, b, st, env);
      var rest := ElabAll(stmts[1..], sc, b, x.st, env);
      ListGrows(stmts[1..], sc, b, x.st, env);
      assert ([x.code] + rest.codes)[1..] == rest.codes;
      StmtMeans(l, stmts[0], sc, b, st, env, calls, br, m, fuel);
      var r := Source.Exec(l, calls, stmts[0], sc, b, st, env, br, m, fuel);
      if r.Done? { ListMeans(l, stmts[1..], sc, b, x.st, env, calls, br, r.st, fuel); }
    }
  }
}
