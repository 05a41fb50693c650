/** Which programs are compiled: the elaborator accepts, rejects, or stops at exactly the expressions and statements
    the source language says. */
module Kinds {
  import opened Common
  import opened Ir
  import opened Ast
  import opened Typing
  import opened ScopeGraph
  import opened Elaborate
  import opened Source

  function Shape(r: Res<Node>): Res<Option<Ty>> {
    match r
    case Ok(n) => Ok(TypeOf(n))
    case Null => Null
    case Abort => Abort
  }

  function PlaceShape(r: Res<Handle>): Res<Res<Ty>> {
    match r
    case Ok(h) => Ok(LoadType(h))
    case Null => Null
    case Abort => Abort
  }

  /** An expression is accepted, with that type, rejected, or the end of compilation, as its kind says. */
  lemma {:induction false} ExprKind(e: Expr, c: Context, cs: seq<CallStub>)
    requires c.Valid()
    ensures Shape(ElabExpr(e, c.sc, c.scopes, cs, c.hash).r) == Kind(e, c)
    decreases e, 1
  {
    hide Wf, Find, CalcType1, CalcType2, CalcType3, LoadType;
    match e
    case Unary(_, a) => ExprKind(a, c, cs);
    case Binary(_, a, b) =>
      ExprKind(a, c, cs);
      ExprKind(b, c, ElabExpr(a, c.sc, c.scopes, cs, c.hash).calls);
    case Ite(a, b, d) =>
      ExprKind(a, c, cs);
      var x := ElabExpr(a, c.sc, c.scopes, cs, c.hash);
      ExprKind(b, c, x.calls);
      ExprKind(d, c, ElabExpr(b, c.sc, c.scopes, x.calls, c.hash).calls);
    case FuncCall(_, args) => ArgsKind(args, c, cs);
    case Symbol(_) => PrimaryKind(e, c, cs);
    case ArrayRef(_, _) => PrimaryKind(e, c, cs);
    case MemberRef(_, _) => PrimaryKind(e, c, cs);
    case _ => LiteralKind(e, c, cs);
  }

  lemma LiteralKind(e: Expr, c: Context, cs: seq<CallStub>)
    requires c.Valid() && (e.True? || e.False? || e.IntLit? || e.FloatLit? || e.StringLit?)
    ensures Shape(ElabExpr(e, c.sc, c.scopes, cs, c.hash).r) == Kind(e, c)
  {
  }

  lemma {:induction false} ArgsKind(es: seq<Expr>, c: Context, cs: seq<CallStub>)
    requires c.Valid()
    ensures var r := ElabArgs(es, c.sc, c.scopes, cs, c.hash).r;
            AllKinds(es, c) == if r.Ok? then Ok(None) else if r.Null? then Null else Abort
    decreases es, 0
  {
    hide Wf, ElabExpr, Kind;
    if es != [] {
      ExprKind(es[0], c, cs);
      ArgsKind(es[1..], c, ElabExpr(es[0], c.sc, c.scopes, cs, c.hash).calls);
    }
  }

  /** The same for places. */
  lemma {:induction false} PrimaryKind(e: Expr, c: Context, cs: seq<CallStub>)
    requires c.Valid()
    ensures PlaceShape(ElabPrimary(e, c.sc, c.scopes, cs, c.hash).r) == PlaceKind(e, c)
    ensures var r := ElabPrimary(e, c.sc, c.scopes, cs, c.hash).r;
            !e.ArrayRef? && r.Ok? ==> Named(e, c) == Some(r.value)
    ensures e.ArrayRef? && ElabPrimary(e, c.sc, c.scopes, cs, c.hash).r.Ok? ==>
              ElabPrimary(e, c.sc, c.scopes, cs, c.hash).r.value.ArrayRef?
    decreases e, 0
  {
    hide Wf, Find, ElabExpr, Kind;
    match e
    case ArrayRef(body, index) =>
      PrimaryKind(body, c, cs);
      ExprKind(index, c, ElabPrimary(body, c.sc, c.scopes, cs, c.hash).calls);
    case MemberRef(body, m) => PrimaryKind(body, c, cs);
    case _ =>
  }

  // ----- statements -----

  ghost function KindAt(e: Expr, sc: nat, st: State, env: Env): Res<Option<Ty>>
    requires Wf(st.scopes) && sc < |st.scopes|
  {
    Kind(e, Here(sc, st, env, []))
  }

  ghost function PlaceAt(e: Expr, sc: nat, st: State, env: Env): Res<Res<Ty>>
    requires Wf(st.scopes) && sc < |st.scopes|
  {
    PlaceKind(e, Here(sc, st, env, []))
  }

  /** Compilation gets through the statement: no expression ends it, conditions are accepted, and every if has an else
      branch. */
  ghost predicate Goes(s: Stmt, sc: nat, b: nat, st: State, env: Env)
    requires Ready(st, sc, b)
    decreases s, 0
  {
    match s
    case Block(stmts) => AllGo(stmts, |st.scopes|, b, Open(st, sc), env)
    case ConstDecl(name, t, d) => RegConst(name, t, d, sc, st, env).Ok?
    case EnumDecl(name, consts) => RegEnum(name, consts, sc, st, env).Ok?
    case FuncDecl(name, t, params, body) =>
      (match RegFunc(name, t, params, sc, st, env)
       case HeaderAbort => false
       case NoFunction(_) => true
       case Header(st1, fs, fb) => Goes(body, fs, fb, st1, env))
    case VarDecl(name, t, init) =>
      NameFree(st, sc, name, env) ==>
        && !ResolveType(t, sc, st.scopes, st.calls, env.hash).r.Abort?
        && (init.Some? ==>
              match Initial(name, t, sc, b, st, env)
              case Some(st1) => !KindAt(init.value, sc, st1, env).Abort?
              case None => true)
    case Incr(lhs) => !PlaceAt(lhs, sc, st, env).Abort?
    case Decr(lhs) => !PlaceAt(lhs, sc, st, env).Abort?
    case Assignment(lhs, rhs) => SidesGo(lhs, rhs, sc, st, env)
    case InplaceOp(_, lhs, rhs) => SidesGo(lhs, rhs, sc, st, env)
    case ExprStmt(e) => !KindAt(e, sc, st, env).Abort?
    case Return(Some(e)) => !KindAt(e, sc, st, env).Abort?
    case If(cond, thn, els) =>
      var st1 := Tested(cond, sc, st, env);
      && KindAt(cond, sc, st, env).Ok? && els.Some?
      && Goes(thn, sc, b, st1, env) && Goes(els.value, sc, b, Behind(thn, sc, b, st1, env), env)
    case While(cond, body) => KindAt(cond, sc, st, env).Ok? && Goes(body, sc, b, Tested(cond, sc, st, env), env)
    case DoWhile(body, cond) =>
      Goes(body, sc, b, st, env) && KindAt(cond, sc, Behind(body, sc, b, st, env), env).Ok?
    case For(first, cond, step, body) =>
      var fs, st0 := |st.scopes|, Open(st, sc);
      var st1 := Behind(first, fs, b, st0, env);
      var st2 := Tested(cond, fs, st1, env);
      && Goes(first, fs, b, st0, env) && KindAt(cond, fs, st1, env).Ok?
      && Goes(body, fs, b, st2, env) && Goes(step, fs, b, Behind(body, fs, b, st2, env), env)
    case _ => true
  }

  ghost predicate SidesGo(lhs: Expr, rhs: Expr, sc: nat, st: State, env: Env)
    requires Wf(st.scopes) && sc < |st.scopes|
  {
    && !KindAt(rhs, sc, st, env).Abort?
    && (KindAt(rhs, sc, st, env).Ok? ==> !PlaceAt(lhs, sc, st, env).Abort?)
  }

  ghost predicate AllGo(stmts: seq<Stmt>, sc: nat, b: nat, st: State, env: Env)
    requires Ready(st, sc, b)
    decreases stmts, 0
  {
    stmts != [] ==>
      Goes(stmts[0], sc, b, st, env) && AllGo(stmts[1..], sc, b, Behind(stmts[0], sc, b, st, env), env)
  }

  lemma KindHere(e: Expr, sc: nat, st: State, cs: seq<CallStub>, env: Env)
    requires Wf(st.scopes) && sc < |st.scopes|
    ensures Shape(ElabExpr(e, sc, st.scopes, cs, env.hash).r) == KindAt(e, sc, st, env)
  {
    hide Wf, ElabExpr, Kind;
    ExprKind(e, Here(sc, st, env, []), cs);
  }

  lemma PlaceHere(e: Expr, sc: nat, st: State, cs: seq<CallStub>, env: Env)
    requires Wf(st.scopes) && sc < |st.scopes|
    ensures PlaceShape(ElabPrimary(e, sc, st.scopes, cs, env.hash).r) == PlaceAt(e, sc, st, env)
  {
    hide Wf, ElabPrimary, PlaceKind;
    PrimaryKind(e, Here(sc, st, env, []), cs);
  }

  lemma SidesCompiled(s: Stmt, sc: nat, b: nat, st: State, env: Env)
    requires (s.Assignment? || s.InplaceOp?) && Ready(st, sc, b)
    ensures ElabStmt(s, sc, b, st, env).Elab? <==> Goes(s, sc, b, st, env)
  {
    hide Wf, ElabExpr, ElabPrimary, KindAt, PlaceAt;
    KindHere(s.rhs, sc, st, st.calls, env);
    PlaceHere(s.lhs, sc, st, ElabExpr(s.rhs, sc, st.scopes, st.calls, env.hash).calls, env);
  }

  lemma VarCompiled(s: Stmt, sc: nat, b: nat, st: State, env: Env)
    requires s.VarDecl? && Ready(st, sc, b)
    ensures ElabStmt(s, sc, b, st, env).Elab? <==> Goes(s, sc, b, st, env)
  {
    hide Wf, ElabExpr, ResolveType, NameFree, DeclareVar, KindAt;
    var i := Initial(s.name, s.ty, sc, b, st, env);
    if s.init.Some? && i.Some? { KindHere(s.init.value, sc, i.value, i.value.calls, env); }
  }

  lemma SimpleCompiled(s: Stmt, sc: nat, b: nat, st: State, env: Env)
    requires s.Incr? || s.Decr? || s.ExprStmt? || s.Return? || s.ConstDecl? || s.EnumDecl?
    requires Ready(st, sc, b)
    ensures ElabStmt(s, sc, b, st, env).Elab? <==> Goes(s, sc, b, st, env)
  {
    hide Wf, ElabExpr, ElabPrimary, KindAt, PlaceAt, RegConst, RegEnum;
    match s
    case Incr(lhs) => PlaceHere(lhs, sc, st, st.calls, env);
    case Decr(lhs) => PlaceHere(lhs, sc, st, st.calls, env);
    case ExprStmt(e) => KindHere(e, sc, st, st.calls, env);
    case Return(Some(e)) => KindHere(e, sc, st, st.calls, env);
    case _ =>
  }

  lemma {:induction false} ForCompiled(s: Stmt, sc: nat, b: nat, st: State, env: Env)
    requires s.For? && Ready(st, sc, b)
    ensures ElabStmt(s, sc, b, st, env).Elab? <==> Goes(s, sc, b, st, env)
    decreases s, 0
  {
    hide Wf, ElabExpr, KindAt;
    var fs, st0 := |st.scopes|, Open(st, sc);
    StmtCompiled(s.first, fs, b, st0, env);
    var i := ElabStmt(s.first, fs, b, st0, env);
    if i.Elab? {
      KindHere(s.cond, fs, i.st, i.st.calls, env);
      var st2 := Tested(s.cond, fs, i.st, env);
      StmtCompiled(s.body, fs, b, st2, env);
      var r := ElabStmt(s.body, fs, b, st2, env);
      if r.Elab? { StmtCompiled(s.step, fs, b, r.st, env); }
    }
  }

  lemma {:induction false} ConditionalCompiled(s: Stmt, sc: nat, b: nat, st: State, env: Env)
    requires (s.If? || s.While? || s.DoWhile?) && Ready(st, sc, b)
    ensures ElabStmt(s, sc, b, st, env).Elab? <==> Goes(s, sc, b, st, env)
    decreases s, 0
  {
    hide Wf, ElabExpr, KindAt;
    if s.DoWhile? {
      StmtCompiled(s.body, sc, b, st, env);
      var r := ElabStmt(s.body, sc, b, st, env);
      if r.Elab? { KindHere(s.cond, sc, r.st, r.st.calls, env); }
    } else {
      KindHere(s.cond, sc, st, st.calls, env);
      var st1, first := Tested(s.cond, sc, st, env), if s.If? then s.thn else s.body;
      StmtCompiled(first, sc, b, st1, env);
      var t := ElabStmt(first, sc, b, st1, env);
      if s.If? && s.els.Some? && t.Elab? { StmtCompiled(s.els.value, sc, b, t.st, env); }
    }
  }

  /** Exactly the statements through which compilation gets are compiled. */
  lemma {:induction false} StmtCompiled(s: Stmt, sc: nat, b: nat, st: State, env: Env)
    requires Ready(st, sc, b)
    ensures ElabStmt(s, sc, b, st, env).Elab? <==> Goes(s, sc, b, st, env)
    decreases s, 1
  {
    hide Wf, RegFunc;
    match s
    case Block(stmts) => AllCompiled(stmts, |st.scopes|, b, Open(st, sc), env);
    case FuncDecl(name, t, params, body) =>
      var h := RegFunc(name, t, params, sc, st, env);
      if h.Header? { StmtCompiled(body, h.scope, h.block, h.st, env); }
    case VarDecl(_, _, _) => VarCompiled(s, sc, b, st, env);
    case Assignment(_, _) => SidesCompiled(s, sc, b, st, env);
    case InplaceOp(_, _, _) => SidesCompiled(s, sc, b, st, env);
    case If(_, _, _) => ConditionalCompiled(s, sc, b, st, env);
    case While(_, _) => ConditionalCompiled(s, sc, b, st, env);
    case DoWhile(_, _) => ConditionalCompiled(s, sc, b, st, env);
    case For(_, _, _, _) => ForCompiled(s, sc, b, st, env);
    case Break =>
    case Continue =>
    case NullStmt =>
    case _ => SimpleCompiled(s, sc, b, st, env);
  }

  lemma {:induction false} AllCompiled(stmts: seq<Stmt>, sc: nat, b: nat, st: State, env: Env)
    requires Ready(st, sc, b)
    ensures ElabAll(stmts, sc, b, st, env).ElabSeq? <==> AllGo(stmts, sc, b, st, env)
    decreases stmts, 0
  {
    hide Wf, ElabStmt, Goes;
    if stmts != [] {
      StmtCompiled(stmts[0], sc, b, st, env);
      var x := ElabStmt(stmts[0], sc, b, st, env);
      if x.Elab? { AllCompiled(stmts[1..], sc, b, x.st, env); }
    }
  }
}
