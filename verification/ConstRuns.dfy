/** Constants through a whole elaboration: once declared, a constant keeps its meaning through every statement
    that declares neither its name nor a name of its definition. */
module ConstRuns {
  import opened Common
  import opened Ir
  import opened Ast
  import opened ScopeGraph
  import opened Elaborate
  import opened ConstProp
  import opened Constants
  import Buckets
  import ScopeTable

  // ----- the names a statement declares -----

  /** Every name declared in the statement, at any depth. */
  function Declared(s: Stmt): set<string>
    decreases s
  {
    match s
    case Block(stmts) => DeclaredAll(stmts)
    case ConstDecl(n, _, _) => {n}
    case EnumDecl(n, consts) => {n} + EnumNames(consts)
    case FuncDecl(n, _, params, body) => {n} + ParamNames(params) + Declared(body)
    case VarDecl(n, _, _) => {n}
    case If(_, t, e) => Declared(t) + if e.Some? then Declared(e.value) else {}
    case While(_, body) => Declared(body)
    case DoWhile(body, _) => Declared(body)
    case For(first, _, step, body) => Declared(first) + Declared(step) + Declared(body)
    case _ => {}
  }

  function DeclaredAll(stmts: seq<Stmt>): set<string>
    decreases stmts
  {
    if stmts == [] then {} else Declared(stmts[0]) + DeclaredAll(stmts[1..])
  }

  function EnumNames(consts: seq<EnumConst>): set<string> { set i | 0 <= i < |consts| :: consts[i].name }

  function ParamNames(params: seq<Param>): set<string> { set i | 0 <= i < |params| :: params[i].name }

  /** No enum and no parameter list in the statement repeats one of the names. (The elaborator does not check
      either: both are declared without another lookup.) */
  ghost predicate NoRepeats(s: Stmt, names: set<string>)
    decreases s
  {
    match s
    case Block(stmts) => NoneRepeats(stmts, names)
    case EnumDecl(_, consts) => EnumDistinct(consts, names)
    case FuncDecl(_, _, params, body) => ParamsDistinct(params, names) && NoRepeats(body, names)
    case If(_, t, e) => NoRepeats(t, names) && (e.Some? ==> NoRepeats(e.value, names))
    case While(_, body) => NoRepeats(body, names)
    case DoWhile(body, _) => NoRepeats(body, names)
    case For(first, _, step, body) => NoRepeats(first, names) && NoRepeats(step, names) && NoRepeats(body, names)
    case _ => true
  }

  ghost predicate NoneRepeats(stmts: seq<Stmt>, names: set<string>)
    decreases stmts
  {
    stmts == [] || (NoRepeats(stmts[0], names) && NoneRepeats(stmts[1..], names))
  }

  ghost predicate EnumDistinct(consts: seq<EnumConst>, names: set<string>) {
    forall i, j :: 0 <= i < j < |consts| && consts[i].name in names ==> consts[i].name != consts[j].name
  }

  ghost predicate ParamsDistinct(params: seq<Param>, names: set<string>) {
    forall i, j :: 0 <= i < j < |params| && params[i].name in names ==> params[i].name != params[j].name
  }

  // ----- what every step keeps -----

  ghost predicate AllSettled(scopes: seq<ScopeRec>, names: set<string>, hash: string -> nat) {
    forall k :: 0 <= k < |scopes| ==> Settled(scopes[k].table, names, hash)
  }

  /** The names stay unique in every scope; and, if nothing declares them, lookups find what they found. */
  ghost predicate Keeps(s1: seq<ScopeRec>, s2: seq<ScopeRec>, names: set<string>, same: bool, hash: string -> nat) {
    AllSettled(s2, names, hash) && (same ==> SameFinds(names, s1, s2, hash))
  }

  lemma KeepsSelf(scopes: seq<ScopeRec>, names: set<string>, same: bool, hash: string -> nat)
    requires Wf(scopes) && AllSettled(scopes, names, hash)
    ensures Keeps(scopes, scopes, names, same, hash)
  {
  }

  lemma KeepsTrans(s1: seq<ScopeRec>, s2: seq<ScopeRec>, s3: seq<ScopeRec>, names: set<string>, same: bool,
                   hash: string -> nat)
    requires Keeps(s1, s2, names, same, hash) && Keeps(s2, s3, names, same, hash)
    ensures Keeps(s1, s3, names, same, hash)
  {
    hide AllSettled;
  }

  lemma KeepsSettled(s1: seq<ScopeRec>, s2: seq<ScopeRec>, names: set<string>, same: bool, hash: string -> nat)
    requires Keeps(s1, s2, names, same, hash)
    ensures AllSettled(s2, names, hash)
  {
  }

  /** The empty global scope. */
  lemma StartSettled(names: set<string>, hash: string -> nat)
    ensures AllSettled(NewScope([], None), names, hash)
  {
    EmptySettled(names, hash);
  }

  lemma EmptySettled(names: set<string>, hash: string -> nat)
    ensures Settled(ScopeTable.NewTable(), names, hash)
  {
    Buckets.FlatEmpty(ScopeTable.NewTable<Handle>().chains);
  }

  lemma DeclareKeeps(st: State, sc: nat, h: Handle, names: set<string>, same: bool, env: Env)
    requires Wf(st.scopes) && sc < |st.scopes| && AllSettled(st.scopes, names, env.hash)
    requires NameOf(h) in names ==> !same && NameFree(st, sc, NameOf(h), env)
    ensures Keeps(st.scopes, Declare(st, sc, h, env).scopes, names, same, env.hash)
  {
    hide Settled, SameFinds, ScopeTable.Add, ScopeTable.FindLocal;
    assert ScopeWf(st.scopes, sc);
    SettledAdd(st.scopes[sc].table, h, names, env.hash);
    if same { DeclareSameFinds(names, st.scopes, sc, h, env.hash); }
  }

  lemma OpenKeeps(st: State, parent: nat, names: set<string>, same: bool, env: Env)
    requires Wf(st.scopes) && parent < |st.scopes| && AllSettled(st.scopes, names, env.hash)
    ensures Keeps(st.scopes, Open(st, parent).scopes, names, same, env.hash)
  {
    hide Settled, SameFinds;
    EmptySettled(names, env.hash);
    OpenSameFinds(names, st.scopes, parent, env.hash);
  }

  lemma OpenedFree(st: State, parent: nat, n: string, env: Env)
    requires Wf(st.scopes) && parent < |st.scopes|
    ensures NameFree(Open(st, parent), |st.scopes|, n, env)
  {
  }

  lemma StaysFree(st: State, sc: nat, h: Handle, n: string, names: set<string>, env: Env)
    requires Wf(st.scopes) && sc < |st.scopes| && AllSettled(st.scopes, names, env.hash)
    requires n in names && n != NameOf(h) && NameFree(st, sc, n, env)
    ensures NameFree(Declare(st, sc, h, env), sc, n, env)
  {
    hide Settled, ScopeTable.Add, ScopeTable.FindLocal;
    assert ScopeWf(st.scopes, sc);
    OthersFound(st.scopes[sc].table, h, n, names, env.hash);
  }

  // ----- declarations -----

  lemma AfterIsDeclared(name: string, t: TypeExpr, d: Expr, sc: nat, st: State, env: Env)
    requires Wf(st.scopes) && sc < |st.scopes| && Declares(name, t, d, sc, st, env)
    ensures NameFree(st, sc, name, env) && Constant(d, sc, st.scopes, env)
    ensures After(name, d, sc, st.scopes, env) == Declare(st, sc, HandleOf(name, d, sc, st.scopes, env), env).scopes
  {
    hide Constant, HandleOf, AddHandle, NameFree, ResolveType;
  }

  lemma RegConstKeeps(name: string, t: TypeExpr, d: Expr, sc: nat, st: State, names: set<string>, same: bool, env: Env)
    requires Wf(st.scopes) && sc < |st.scopes| && AllSettled(st.scopes, names, env.hash) && (same ==> name !in names)
    requires RegConst(name, t, d, sc, st, env).Ok?
    ensures Keeps(st.scopes, RegConst(name, t, d, sc, st, env).value.scopes, names, same, env.hash)
  {
    hide RegConst, NameFree, Keeps, AllSettled, HandleOf, Declares, After, Declare, Wf;
    RegConstAdds(name, t, d, sc, st, env);
    if Declares(name, t, d, sc, st, env) {
      AfterIsDeclared(name, t, d, sc, st, env);
      DeclareKeeps(st, sc, HandleOf(name, d, sc, st.scopes, env), names, same, env);
    } else {
      KeepsSelf(st.scopes, names, same, env.hash);
    }
  }

  lemma {:induction false} EnumKeeps(consts: seq<EnumConst>, es: nat, st: State, used: seq<int>, next: nat,
                                     names: set<string>, same: bool, env: Env)
    requires Wf(st.scopes) && es < |st.scopes| && AllSettled(st.scopes, names, env.hash)
    requires EnumDistinct(consts, names)
    requires forall i :: 0 <= i < |consts| && consts[i].name in names ==> !same && NameFree(st, es, consts[i].name, env)
    ensures var r := EnumValues(consts, es, st, used, next, env);
            !r.EnumAbort? ==> Keeps(st.scopes, r.st.scopes, names, same, env.hash)
    decreases |consts|, 1
  {
    hide Keeps, AllSettled, FindLocal, Declare, ElabExpr;
    KeepsSelf(st.scopes, names, same, env.hash);
    if consts != [] {
      var x := if consts[0].val.None? then Out(Null, st.calls)
               else ElabExpr(consts[0].val.value, es, st.scopes, st.calls, env.hash);
      var st0 := st.(calls := x.calls);
      if consts[0].val.None? {
        var v := FirstFree(used, next);
        EnumKeepsStep(consts, es, st0, v, used + [v], v + 1, names, same, env);
      } else if x.r.Ok? && Interp.EvalInt(x.r.value, env.fp).Val? {
        EnumKeepsStep(consts, es, st0, Interp.EvalInt(x.r.value, env.fp).v,
                      used + [Interp.EvalInt(x.r.value, env.fp).v], next, names, same, env);
      }
    }
  }

  lemma {:induction false} EnumKeepsStep(consts: seq<EnumConst>, es: nat, st: State, v: int, used: seq<int>, next: nat,
                                         names: set<string>, same: bool, env: Env)
    requires Wf(st.scopes) && es < |st.scopes| && AllSettled(st.scopes, names, env.hash)
    requires consts != [] && EnumDistinct(consts, names)
    requires forall i :: 0 <= i < |consts| && consts[i].name in names ==> !same && NameFree(st, es, consts[i].name, env)
    ensures var st1 := Declare(st, es, IntConst(consts[0].name, v), env);
            var r := EnumValues(consts[1..], es, st1, used, next, env);
            !r.EnumAbort? ==> Keeps(st.scopes, r.st.scopes, names, same, env.hash)
    decreases |consts|, 0
  {
    hide Keeps, AllSettled, NameFree, Declare, EnumValues;
    var h := IntConst(consts[0].name, v);
    var st1 := Declare(st, es, h, env);
    DeclareKeeps(st, es, h, names, same, env);
    KeepsSettled(st.scopes, st1.scopes, names, same, env.hash);
    forall i | 0 <= i < |consts[1..]| && consts[1..][i].name in names
      ensures !same && NameFree(st1, es, consts[1..][i].name, env)
    {
      assert consts[1..][i] == consts[i + 1];
      StaysFree(st, es, h, consts[i + 1].name, names, env);
    }
    EnumKeeps(consts[1..], es, st1, used, next, names, same, env);
    var r := EnumValues(consts[1..], es, st1, used, next, env);
    if !r.EnumAbort? { KeepsTrans(st.scopes, st1.scopes, r.st.scopes, names, same, env.hash); }
  }

  /** Enum constants go to the scope of the enum alone. */
  lemma {:induction false} EnumTouches(consts: seq<EnumConst>, es: nat, st: State, used: seq<int>, next: nat, sc: nat,
                                       env: Env)
    requires Wf(st.scopes) && es < |st.scopes| && sc < |st.scopes| && sc != es
    ensures var r := EnumValues(consts, es, st, used, next, env);
            !r.EnumAbort? ==> r.st.scopes[sc] == st.scopes[sc]
    decreases consts
  {
    hide ScopeTable.Add, ElabExpr;
    if consts != [] {
      match consts[0].val
      case None =>
        var v := FirstFree(used, next);
        EnumTouches(consts[1..], es, Declare(st, es, IntConst(consts[0].name, v), env), used + [v], v + 1, sc, env);
      case Some(e) =>
        var x := ElabExpr(e, es, st.scopes, st.calls, env.hash);
        if x.r.Ok? && Interp.EvalInt(x.r.value, env.fp).Val? {
          var v := Interp.EvalInt(x.r.value, env.fp).v;
          EnumTouches(consts[1..], es, Declare(st.(calls := x.calls), es, IntConst(consts[0].name, v), env),
                      used + [v], next, sc, env);
        }
    }
  }

  lemma SameFree(st: State, r: State, sc: nat, n: string, env: Env)
    requires Wf(st.scopes) && Wf(r.scopes) && sc < |st.scopes| && sc < |r.scopes| && r.scopes[sc] == st.scopes[sc]
    ensures NameFree(r, sc, n, env) == NameFree(st, sc, n, env)
  {
  }

  lemma RegEnumKeeps(name: string, consts: seq<EnumConst>, sc: nat, st: State, names: set<string>, same: bool, env: Env)
    requires Wf(st.scopes) && sc < |st.scopes| && AllSettled(st.scopes, names, env.hash)
    requires EnumDistinct(consts, names) && (same ==> names !! {name} + EnumNames(consts))
    requires RegEnum(name, consts, sc, st, env).Ok?
    ensures Keeps(st.scopes, RegEnum(name, consts, sc, st, env).value.scopes, names, same, env.hash)
  {
    hide Keeps, AllSettled, NameFree, Declare, EnumValues, Open, EnumDistinct;
    KeepsSelf(st.scopes, names, same, env.hash);
    if NameFree(st, sc, name, env) {
      var es, st1 := |st.scopes|, Open(st, sc);
      OpenKeeps(st, sc, names, same, env);
      KeepsSettled(st.scopes, st1.scopes, names, same, env.hash);
      forall i | 0 <= i < |consts| && consts[i].name in names ensures !same && NameFree(st1, es, consts[i].name, env) {
        assert consts[i].name in EnumNames(consts);
        OpenedFree(st, sc, consts[i].name, env);
      }
      EnumKeeps(consts, es, st1, [], 0, names, same, env);
      var r := EnumValues(consts, es, st1, [], 0, env);
      KeepsTrans(st.scopes, st1.scopes, r.st.scopes, names, same, env.hash);
      if r.EnumOk? {
        KeepsSettled(st.scopes, r.st.scopes, names, same, env.hash);
        EnumTouches(consts, es, st1, [], 0, sc, env);
        OpenTouches(st, sc, sc);
        SameFree(st, r.st.(enums := r.st.enums + 1), sc, name, env);
        var h := Handle.NamedType(name, Enum(r.st.enums), es);
        DeclareKeeps(r.st.(enums := r.st.enums + 1), sc, h, names, same, env);
        KeepsTrans(st.scopes, r.st.scopes, RegEnum(name, consts, sc, st, env).value.scopes, names, same, env.hash);
      }
    }
  }

  lemma OpenTouches(st: State, parent: nat, k: nat)
    requires Wf(st.scopes) && parent < |st.scopes| && k < |st.scopes|
    ensures Open(st, parent).scopes[k] == st.scopes[k]
  {
  }

  // ----- functions -----

  lemma {:induction false} ParamsKeep(params: seq<Param>, tys: seq<Ty>, i: nat, fs: nat, sc: nat, st: State,
                                      names: set<string>, same: bool, env: Env)
    requires Wf(st.scopes) && sc < |st.scopes| && fs < |st.scopes| && |tys| == |params| && i <= |params|
    requires AllSettled(st.scopes, names, env.hash) && ParamsDistinct(params, names)
    requires forall j :: i <= j < |params| && params[j].name in names ==> !same && NameFree(st, fs, params[j].name, env)
    ensures var r := DeclareParams(params, tys, i, fs, sc, st, env);
            !r.ParamsAbort? ==>
              && Keeps(st.scopes, r.st.scopes, names, same, env.hash)
              && forall k :: 0 <= k < |st.scopes| && k != fs ==> r.st.scopes[k] == st.scopes[k]
    decreases |params| - i
  {
    hide Keeps, AllSettled, NameFree, Declare, ElabExpr;
    KeepsSelf(st.scopes, names, same, env.hash);
    if i < |params| {
      var h := LocalVar(params[i].name, tys[i], 0, i);
      var st1 := Declare(st, fs, h, env);
      var x := if params[i].init.None? then Out(Null, st1.calls)
               else ElabExpr(params[i].init.value, sc, st1.scopes, st1.calls, env.hash);
      var st2 := st1.(calls := x.calls);
      DeclareKeeps(st, fs, h, names, same, env);
      KeepsSettled(st.scopes, st1.scopes, names, same, env.hash);
      forall j | i < j < |params| && params[j].name in names ensures !same && NameFree(st2, fs, params[j].name, env) {
        StaysFree(st, fs, h, params[j].name, names, env);
        SameFree(st1, st2, fs, params[j].name, env);
      }
      DeclareTouches(st, fs, h, env);
      ParamsKeep(params, tys, i + 1, fs, sc, st2, names, same, env);
      var r := DeclareParams(params, tys, i + 1, fs, sc, st2, env);
      if !r.ParamsAbort? { KeepsTrans(st.scopes, st1.scopes, r.st.scopes, names, same, env.hash); }
    }
  }

  lemma DeclareTouches(st: State, sc: nat, h: Handle, env: Env)
    requires Wf(st.scopes) && sc < |st.scopes|
    ensures forall k :: 0 <= k < |st.scopes| && k != sc ==> Declare(st, sc, h, env).scopes[k] == st.scopes[k]
  {
  }

  lemma RegFuncKeeps(name: string, t: TypeExpr, params: seq<Param>, sc: nat, st: State, names: set<string>, same: bool,
                     env: Env)
    requires Wf(st.scopes) && sc < |st.scopes| && st.blocks != [] && AllSettled(st.scopes, names, env.hash)
    requires ParamsDistinct(params, names) && (same ==> names !! {name} + ParamNames(params))
    requires !RegFunc(name, t, params, sc, st, env).HeaderAbort?
    ensures Keeps(st.scopes, RegFunc(name, t, params, sc, st, env).st.scopes, names, same, env.hash)
  {
    hide Keeps, AllSettled, NameFree, Declare, DeclareParams, ParamTypes, ResolveType, Open, ParamsDistinct;
    KeepsSelf(st.scopes, names, same, env.hash);
    if NameFree(st, sc, name, env) {
      var fs, st1 := |st.scopes|, Open(st, GlobalOf(st, sc));
      OpenKeeps(st, GlobalOf(st, sc), names, same, env);
      KeepsSettled(st.scopes, st1.scopes, names, same, env.hash);
      OpenTouches(st, GlobalOf(st, sc), sc);
      var out := ResolveType(t, sc, st1.scopes, st1.calls, env.hash);
      if out.r.Ok? {
        var tys := ParamTypes(params, fs, sc, st1.(calls := out.calls), env);
        if tys.r.Ok? {
          var st2 := st1.(calls := tys.calls);
          forall i | 0 <= i < |params| && params[i].name in names
            ensures !same && NameFree(st2, fs, params[i].name, env)
          {
            assert params[i].name in ParamNames(params);
            OpenedFree(st, GlobalOf(st, sc), params[i].name, env);
            SameFree(st1, st2, fs, params[i].name, env);
          }
          HeaderKeeps(name, out.r.value, params, tys.r.value, sc, st, st2, names, same, env);
        }
      }
    }
  }

  /** From the scope of the function on. */
  lemma HeaderKeeps(name: string, ty: Ty, params: seq<Param>, tys: seq<Ty>, sc: nat, st0: State, st: State,
                    names: set<string>, same: bool, env: Env)
    requires Wf(st0.scopes) && Wf(st.scopes) && sc < |st0.scopes| < |st.scopes| && |tys| == |params| && st.blocks != []
    requires AllSettled(st.scopes, names, env.hash) && ParamsDistinct(params, names)
    requires Keeps(st0.scopes, st.scopes, names, same, env.hash) && st.scopes[sc] == st0.scopes[sc]
    requires NameFree(st0, sc, name, env) && (same ==> name !in names)
    requires var fs := |st0.scopes|;
             forall i :: 0 <= i < |params| && params[i].name in names ==> !same && NameFree(st, fs, params[i].name, env)
    ensures match DeclareParams(params, tys, 0, |st0.scopes|, sc, st, env)
            case ParamsAbort => true
            case ParamsRejected(r) => Keeps(st0.scopes, r.scopes, names, same, env.hash)
            case ParamsOk(r, _, _) =>
              forall ty, i :: Keeps(st0.scopes,
                                    Declare(r, sc, Function(name, ty, 0, i), env).scopes, names, same, env.hash)
  {
    hide Keeps, AllSettled, NameFree, Declare, DeclareParams, ParamsDistinct;
    var fs := |st0.scopes|;
    ParamsKeep(params, tys, 0, fs, sc, st, names, same, env);
    var p := DeclareParams(params, tys, 0, fs, sc, st, env);
    if !p.ParamsAbort? {
      KeepsTrans(st0.scopes, st.scopes, p.st.scopes, names, same, env.hash);
      if p.ParamsOk? {
        KeepsSettled(st.scopes, p.st.scopes, names, same, env.hash);
        SameFree(st0, p.st, sc, name, env);
        forall ty, i ensures Keeps(st0.scopes,
                                   Declare(p.st, sc, Function(name, ty, 0, i), env).scopes, names, same, env.hash)
        {
          var h := Function(name, ty, 0, i);
          DeclareKeeps(p.st, sc, h, names, same, env);
          KeepsTrans(st0.scopes, p.st.scopes, Declare(p.st, sc, h, env).scopes, names, same, env.hash);
        }
      }
    }
  }

  // ----- statements -----

  lemma VarKeeps(name: string, t: TypeExpr, init: Option<Expr>, sc: nat, b: nat, st: State, names: set<string>,
                 same: bool, env: Env)
    requires Ready(st, sc, b) && AllSettled(st.scopes, names, env.hash) && (same ==> name !in names)
    requires VarDeclaration(name, t, init, sc, b, st, env).Elab?
    ensures Keeps(st.scopes, VarDeclaration(name, t, init, sc, b, st, env).st.scopes, names, same, env.hash)
  {
    hide Keeps, AllSettled, NameFree, Declare, ElabExpr, ResolveType;
    KeepsSelf(st.scopes, names, same, env.hash);
    if NameFree(st, sc, name, env) {
      var ty := ResolveType(t, sc, st.scopes, st.calls, env.hash);
      if ty.r.Ok? {
        var (st1, h) := DeclareVar(name, ty.r.value, sc, b, st.(calls := ty.calls), env);
        var st0 := st.(calls := ty.calls, globals := st1.globals, blocks := st1.blocks);
        SameFree(st, st0, sc, name, env);
        DeclareKeeps(st0, sc, h, names, same, env);
      }
    }
  }

  lemma SimpleKeeps(s: Stmt, sc: nat, b: nat, st: State, names: set<string>, same: bool, env: Env)
    requires !s.Block? && !s.FuncDecl? && !s.If? && !s.While? && !s.DoWhile? && !s.For?
    requires Ready(st, sc, b) && AllSettled(st.scopes, names, env.hash) && ElabStmt(s, sc, b, st, env).Elab?
    requires NoRepeats(s, names) && (same ==> names !! Declared(s))
    ensures Keeps(st.scopes, ElabStmt(s, sc, b, st, env).st.scopes, names, same, env.hash)
  {
    hide Keeps, AllSettled, ElabExpr, ElabPrimary, VarDeclaration, RegConst, RegEnum;
    match s
    case ConstDecl(n, t, d) => RegConstKeeps(n, t, d, sc, st, names, same, env);
    case EnumDecl(n, consts) => RegEnumKeeps(n, consts, sc, st, names, same, env);
    case VarDecl(n, t, init) => VarKeeps(n, t, init, sc, b, st, names, same, env);
    case _ => KeepsSelf(st.scopes, names, same, env.hash);
  }

  lemma {:induction false} LoopKeeps(s: Stmt, sc: nat, b: nat, st: State, names: set<string>, same: bool, env: Env)
    requires s.If? || s.While? || s.DoWhile?
    requires Ready(st, sc, b) && AllSettled(st.scopes, names, env.hash) && ElabStmt(s, sc, b, st, env).Elab?
    requires NoRepeats(s, names) && (same ==> names !! Declared(s))
    ensures Keeps(st.scopes, ElabStmt(s, sc, b, st, env).st.scopes, names, same, env.hash)
    decreases s, 0
  {
    hide Keeps, AllSettled, ElabExpr;
    var st1 := if s.DoWhile? then st else st.(calls := ElabExpr(s.cond, sc, st.scopes, st.calls, env.hash).calls);
    var first := if s.If? then s.thn else s.body;
    StmtKeeps(first, sc, b, st1, names, same, env);
    if s.If? {
      var st2 := ElabStmt(first, sc, b, st1, env).st;
      KeepsSettled(st.scopes, st2.scopes, names, same, env.hash);
      StmtKeeps(s.els.value, sc, b, st2, names, same, env);
      KeepsTrans(st.scopes, st2.scopes, ElabStmt(s, sc, b, st, env).st.scopes, names, same, env.hash);
    }
  }

  lemma {:induction false} ForKeeps(s: Stmt, sc: nat, b: nat, st: State, names: set<string>, same: bool, env: Env)
    requires s.For?
    requires Ready(st, sc, b) && AllSettled(st.scopes, names, env.hash) && ElabStmt(s, sc, b, st, env).Elab?
    requires NoRepeats(s, names) && (same ==> names !! Declared(s))
    ensures Keeps(st.scopes, ElabStmt(s, sc, b, st, env).st.scopes, names, same, env.hash)
    decreases s, 0
  {
    hide Keeps, AllSettled, ElabExpr, Open;
    var fs, st0 := |st.scopes|, Open(st, sc);
    OpenKeeps(st, sc, names, same, env);
    KeepsSettled(st.scopes, st0.scopes, names, same, env.hash);
    StmtKeeps(s.first, fs, b, st0, names, same, env);
    var st1 := ElabStmt(s.first, fs, b, st0, env).st;
    KeepsTrans(st.scopes, st0.scopes, st1.scopes, names, same, env.hash);
    KeepsSettled(st.scopes, st1.scopes, names, same, env.hash);
    var st2 := st1.(calls := ElabExpr(s.cond, fs, st1.scopes, st1.calls, env.hash).calls);
    StmtKeeps(s.body, fs, b, st2, names, same, env);
    var st3 := ElabStmt(s.body, fs, b, st2, env).st;
    KeepsTrans(st.scopes, st1.scopes, st3.scopes, names, same, env.hash);
    KeepsSettled(st.scopes, st3.scopes, names, same, env.hash);
    StmtKeeps(s.step, fs, b, st3, names, same, env);
    KeepsTrans(st.scopes, st3.scopes, ElabStmt(s, sc, b, st, env).st.scopes, names, same, env.hash);
  }

  /** Through every statement, however nested: names that were unique in every scope stay unique, and names the
      statement does not declare mean what they meant, in every scope there was. */
  lemma {:induction false} StmtKeeps(s: Stmt, sc: nat, b: nat, st: State, names: set<string>, same: bool, env: Env)
    requires Ready(st, sc, b) && AllSettled(st.scopes, names, env.hash) && ElabStmt(s, sc, b, st, env).Elab?
    requires NoRepeats(s, names) && (same ==> names !! Declared(s))
    ensures Keeps(st.scopes, ElabStmt(s, sc, b, st, env).st.scopes, names, same, env.hash)
    decreases s, 1
  {
    hide Keeps, AllSettled, Open, RegFunc;
    match s
    case Block(stmts) =>
      var st1 := Open(st, sc);
      OpenKeeps(st, sc, names, same, env);
      KeepsSettled(st.scopes, st1.scopes, names, same, env.hash);
      ListKeeps(stmts, |st.scopes|, b, st1, names, same, env);
      KeepsTrans(st.scopes, st1.scopes, ElabStmt(s, sc, b, st, env).st.scopes, names, same, env.hash);
    case FuncDecl(name, ty, params, body) =>
      RegFuncKeeps(name, ty, params, sc, st, names, same, env);
      var h := RegFunc(name, ty, params, sc, st, env);
      if h.Header? {
        KeepsSettled(st.scopes, h.st.scopes, names, same, env.hash);
        StmtKeeps(body, h.scope, h.block, h.st, names, same, env);
        KeepsTrans(st.scopes, h.st.scopes, ElabStmt(s, sc, b, st, env).st.scopes, names, same, env.hash);
      }
    case If(_, _, _) => LoopKeeps(s, sc, b, st, names, same, env);
    case While(_, _) => LoopKeeps(s, sc, b, st, names, same, env);
    case DoWhile(_, _) => LoopKeeps(s, sc, b, st, names, same, env);
    case For(_, _, _, _) => ForKeeps(s, sc, b, st, names, same, env);
    case _ => SimpleKeeps(s, sc, b, st, names, same, env);
  }

  lemma {:induction false} ListKeeps(stmts: seq<Stmt>, sc: nat, b: nat, st: State, names: set<string>, same: bool,
                                     env: Env)
    requires Ready(st, sc, b) && AllSettled(st.scopes, names, env.hash) && ElabAll(stmts, sc, b, st, env).ElabSeq?
    requires NoneRepeats(stmts, names) && (same ==> names !! DeclaredAll(stmts))
    ensures Keeps(st.scopes, ElabAll(stmts, sc, b, st, env).st.scopes, names, same, env.hash)
    decreases stmts, 0
  {
    hide Keeps, AllSettled;
    KeepsSelf(st.scopes, names, same, env.hash);
    if stmts != [] {
      StmtKeeps(stmts[0], sc, b, st, names, same, env);
      var st1 := ElabStmt(stmts[0], sc, b, st, env).st;
      KeepsSettled(st.scopes, st1.scopes, names, same, env.hash);
      ListKeeps(stmts[1..], sc, b, st1, names, same, env);
      KeepsTrans(st.scopes, st1.scopes, ElabAll(stmts, sc, b, st, env).st.scopes, names, same, env.hash);
    }
  }

  // ----- constants among statements -----

  /** The state in which statement `i` of the list is elaborated. */
  ghost function Before(stmts: seq<Stmt>, i: nat, sc: nat, b: nat, st: State, env: Env): (r: State)
    requires Ready(st, sc, b) && i < |stmts| && ElabAll(stmts, sc, b, st, env).ElabSeq?
    ensures Ready(r, sc, b)
    decreases i
  {
    if i == 0 then st else Before(stmts[1..], i - 1, sc, b, ElabStmt(stmts[0], sc, b, st, env).st, env)
  }

  /** Statement `i` declares a constant whose definition does not look up its name, and nothing after it in the
      list declares that name or a name of the definition. */
  ghost predicate LastingConstant(stmts: seq<Stmt>, i: nat, sc: nat, b: nat, st: State, env: Env)
    requires Ready(st, sc, b) && ElabAll(stmts, sc, b, st, env).ElabSeq?
  {
    && i < |stmts| && stmts[i].ConstDecl?
    && var (c, d) := (stmts[i].name, stmts[i].def);
    && Declares(c, stmts[i].ty, d, sc, Before(stmts, i, sc, b, st, env), env)
    && c !in Names(d)
    && {c} + Names(d) !! DeclaredAll(stmts[i + 1..])
    && NoneRepeats(stmts, {c} + Names(d))
  }

  lemma LastingIndex(stmts: seq<Stmt>, i: nat, sc: nat, b: nat, st: State, env: Env)
    requires Ready(st, sc, b) && ElabAll(stmts, sc, b, st, env).ElabSeq? && LastingConstant(stmts, i, sc, b, st, env)
    ensures i < |stmts| && stmts[i].ConstDecl?
  {
  }

  lemma ConstantDefined(c: string, t: TypeExpr, d: Expr, sc: nat, st: State, env: Env)
    requires Wf(st.scopes) && sc < |st.scopes| && Declares(c, t, d, sc, st, env) && c !in Names(d)
    requires AllSettled(st.scopes, {c} + Names(d), env.hash)
    ensures RegConst(c, t, d, sc, st, env).Ok? && Defines(c, d, sc, RegConst(c, t, d, sc, st, env).value.scopes, env)
  {
    hide RegConst, After, Settled, Defines, NameFree, Constant, ResolveType;
    RegConstAdds(c, t, d, sc, st, env);
    FewerSettled(st.scopes[sc].table, Names(d), {c} + Names(d), env.hash);
    FreshNameDefines(c, d, sc, st.scopes, env);
  }

  lemma SameDefines(c: string, d: Expr, sc: nat, s1: seq<ScopeRec>, s2: seq<ScopeRec>, env: Env)
    requires Keeps(s1, s2, {c} + Names(d), true, env.hash) && sc < |s1| && Wf(s1) && Defines(c, d, sc, s1, env)
    ensures Wf(s2) && sc < |s2| && Defines(c, d, sc, s2, env)
  {
    hide Find, AllSettled, Defines;
    assert {c} + Heads(d) <= {c} + Names(d) && Members(d) <= {c} + Names(d);
    DefinesCarries(c, d, sc, s1, sc, s2, env);
  }

  /** Behind the whole list the constant still stands for its definition. */
  lemma {:induction false} ConstantLasts(stmts: seq<Stmt>, i: nat, sc: nat, b: nat, st: State, env: Env)
    requires Ready(st, sc, b) && ElabAll(stmts, sc, b, st, env).ElabSeq?
    requires LastingConstant(stmts, i, sc, b, st, env)
    requires AllSettled(st.scopes, {stmts[i].name} + Names(stmts[i].def), env.hash)
    ensures Defines(stmts[i].name, stmts[i].def, sc, ElabAll(stmts, sc, b, st, env).st.scopes, env)
    decreases i
  {
    hide Defines, Keeps, AllSettled, Declares;
    var names := {stmts[i].name} + Names(stmts[i].def);
    var st1 := ElabStmt(stmts[0], sc, b, st, env).st;
    StmtKeeps(stmts[0], sc, b, st, names, false, env);
    KeepsSettled(st.scopes, st1.scopes, names, false, env.hash);
    if i == 0 {
      ConstantDefined(stmts[0].name, stmts[0].ty, stmts[0].def, sc, st, env);
      ListKeeps(stmts[1..], sc, b, st1, names, true, env);
      SameDefines(stmts[0].name, stmts[0].def, sc, st1.scopes, ElabAll(stmts[1..], sc, b, st1, env).st.scopes, env);
    } else {
      assert stmts[1..][i - 1] == stmts[i] && stmts[1..][i..] == stmts[i + 1..];
      ConstantLasts(stmts[1..], i - 1, sc, b, st1, env);
    }
  }

  /** Constants of a statement list whose definitions may mention the earlier ones: behind the list their
      definitions can be written out in any order and to any depth, in any expression. */
  lemma ConstantsWrittenOut(stmts: seq<Stmt>, picked: seq<nat>, cs: seq<Const>, e: Expr, sc: nat, b: nat, st: State,
                            calls: seq<CallStub>, env: Env)
    requires Ready(st, sc, b) && ElabAll(stmts, sc, b, st, env).ElabSeq? && |cs| == |picked|
    requires forall k :: 0 <= k < |picked| ==>
               && LastingConstant(stmts, picked[k], sc, b, st, env)
               && cs[k] == Const(stmts[picked[k]].name, stmts[picked[k]].def)
               && AllSettled(st.scopes, {cs[k].name} + Names(cs[k].def), env.hash)
    ensures var r := ElabAll(stmts, sc, b, st, env).st;
            Same(ElabExpr(InlineEach(e, cs), sc, r.scopes, calls, env.hash),
                 ElabExpr(e, sc, r.scopes, calls, env.hash), env.fp)
  {
    hide Same, Defines, InlineEach, ElabExpr, AllSettled, LastingConstant;
    var r := ElabAll(stmts, sc, b, st, env).st;
    forall k | 0 <= k < |cs| ensures Defines(cs[k].name, cs[k].def, sc, r.scopes, env) {
      LastingIndex(stmts, picked[k], sc, b, st, env);
      ConstantLasts(stmts, picked[k], sc, b, st, env);
    }
    InlineEachAgrees(e, cs, sc, r.scopes, calls, env);
  }

  /** In a module that starts with an empty global scope nothing else is needed. */
  lemma ModuleConstantsWrittenOut(stmts: seq<Stmt>, picked: seq<nat>, cs: seq<Const>, e: Expr, b: nat, st: State,
                                  calls: seq<CallStub>, env: Env)
    requires Ready(st, 0, b) && st.scopes == NewScope([], None)
    requires ElabAll(stmts, 0, b, st, env).ElabSeq? && |cs| == |picked|
    requires forall k :: 0 <= k < |picked| ==>
               LastingConstant(stmts, picked[k], 0, b, st, env)
                 && cs[k] == Const(stmts[picked[k]].name, stmts[picked[k]].def)
    ensures var r := ElabAll(stmts, 0, b, st, env).st;
            Same(ElabExpr(InlineEach(e, cs), 0, r.scopes, calls, env.hash),
                 ElabExpr(e, 0, r.scopes, calls, env.hash), env.fp)
  {
    hide Same, InlineEach, ElabExpr, AllSettled, LastingConstant, ElabAll;
    forall k | 0 <= k < |cs| ensures AllSettled(st.scopes, {cs[k].name} + Names(cs[k].def), env.hash) {
      StartSettled({cs[k].name} + Names(cs[k].def), env.hash);
    }
    ConstantsWrittenOut(stmts, picked, cs, e, 0, b, st, calls, env);
  }
}
