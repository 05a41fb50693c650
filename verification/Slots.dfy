/** Slot allocation: whatever is elaborated, accepted or rejected, a handle's index is its position. */
module Slots {
  import opened Common
  import opened Ir
  import opened Ast
  import opened ScopeGraph
  import opened Elaborate
  import F = Flatten

  ghost predicate Numbered(hs: seq<Handle>) {
    forall i :: 0 <= i < |hs| ==> hs[i].LocalVar? && hs[i].index == i
  }

  /** Variables and arguments of each block, global variables and functions are numbered from zero in
      the order of their lists. */
  ghost predicate SlotsOk(st: State) {
    && (forall i :: 0 <= i < |st.globals| ==>
      st.globals[i].GlobalVar? && st.globals[i].index == i && st.globals[i].modIndex == 0)
    && (forall b :: 0 <= b < |st.blocks| ==> Numbered(st.blocks[b].vars) && Numbered(st.blocks[b].args))
    && (forall b :: 0 < b < |st.blocks| ==> IsFunction(st.blocks[b].handle, b - 1))
  }

  ghost predicate IsFunction(h: Option<Handle>, i: nat) {
    h.Some? && h.value.Function? && h.value.index == i && h.value.modIndex == 0
  }

  /** Lists only grow at their ends. */
  ghost predicate Extends(st: State, r: State) {
    && st.globals <= r.globals
    && |st.blocks| <= |r.blocks|
    && forall b :: 0 <= b < |st.blocks| ==>
         st.blocks[b].vars <= r.blocks[b].vars && r.blocks[b].(vars := []) == st.blocks[b].(vars := [])
  }

  ghost predicate Safe(st: State, r: State) {
    SlotsOk(r) && Extends(st, r)
  }

  lemma {:induction false} DeclareParamsSlots(params: seq<Param>, tys: seq<Ty>, i: nat, fs: nat, sc: nat, st: State,
                                              env: Env)
    requires Wf(st.scopes) && sc < |st.scopes| && fs < |st.scopes| && |tys| == |params| && i <= |params|
    ensures var r := DeclareParams(params, tys, i, fs, sc, st, env);
            && (!r.ParamsAbort? ==> r.st.globals == st.globals)
            && (r.ParamsOk? ==>
                  |r.args| == |params| - i && forall k :: 0 <= k < |r.args| ==>
                    r.args[k].LocalVar? && r.args[k].index == i + k)
    decreases |params| - i
  {
    hide ElabExpr, Declare, Wf;
    if i < |params| {
      var st1 := Declare(st, fs, LocalVar(params[i].name, tys[i], 0, i), env);
      var x := if params[i].init.None? then Out(Null, st1.calls)
               else ElabExpr(params[i].init.value, sc, st1.scopes, st1.calls, env.hash);
      DeclareParamsSlots(params, tys, i + 1, fs, sc, st1.(calls := x.calls), env);
    }
  }

  lemma RegFuncSlots(name: string, t: TypeExpr, params: seq<Param>, sc: nat, st: State, env: Env)
    requires Wf(st.scopes) && sc < |st.scopes| && st.blocks != [] && SlotsOk(st)
    ensures var r := RegFunc(name, t, params, sc, st, env); !r.HeaderAbort? ==> Safe(st, r.st)
  {
    hide ResolveType, ParamTypes, DeclareParams, Declare, Open, NameFree;
    var r := RegFunc(name, t, params, sc, st, env);
    if NameFree(st, sc, name, env) {
      var st1 := Open(st, GlobalOf(st, sc));
      var fs := |st.scopes|;
      var out := ResolveType(t, sc, st1.scopes, st1.calls, env.hash);
      if out.r.Ok? {
        var tys := ParamTypes(params, fs, sc, st1.(calls := out.calls), env);
        if tys.r.Ok? {
          DeclareParamsSlots(params, tys.r.value, 0, fs, sc, st1.(calls := tys.calls), env);
        }
      }
    }
  }

  lemma {:induction false} EnumSlots(consts: seq<EnumConst>, es: nat, st: State, used: seq<int>, next: nat, env: Env)
    requires Wf(st.scopes) && es < |st.scopes|
    ensures var r := EnumValues(consts, es, st, used, next, env); !r.EnumAbort? ==> r.st.globals == st.globals
  {
    hide ElabExpr, Declare, Wf, Interp.EvalInt;
    if consts != [] {
      match consts[0].val
      case None =>
        var v := FirstFree(used, next);
        EnumSlots(consts[1..], es, Declare(st, es, IntConst(consts[0].name, v), env), used + [v], v + 1, env);
      case Some(e) =>
        var x := ElabExpr(e, es, st.scopes, st.calls, env.hash);
        if x.r.Ok? && Interp.EvalInt(x.r.value, env.fp).Val? {
          var v := Interp.EvalInt(x.r.value, env.fp).v;
          EnumSlots(consts[1..], es,
                    Declare(st.(calls := x.calls), es, IntConst(consts[0].name, v), env), used + [v], next, env);
        }
    }
  }

  lemma SameLists(st: State, r: State)
    requires SlotsOk(st) && r.globals == st.globals && r.blocks == st.blocks
    ensures Safe(st, r)
  {
  }

  lemma SafeTrans(a: State, b: State, c: State)
    requires Safe(a, b) && Safe(b, c)
    ensures Safe(a, c)
  {
  }

  lemma DeclareVarSlots(name: string, ty: Ty, sc: nat, b: nat, st: State, env: Env)
    requires Ready(st, sc, b) && SlotsOk(st)
    ensures Safe(st, DeclareVar(name, ty, sc, b, st, env).0)
  {
  }

  lemma VarSlots(name: string, t: TypeExpr, init: Option<Expr>, sc: nat, b: nat, st: State, env: Env)
    requires Ready(st, sc, b) && SlotsOk(st) && VarDeclaration(name, t, init, sc, b, st, env).Elab?
    ensures Safe(st, VarDeclaration(name, t, init, sc, b, st, env).st)
  {
    hide SlotsOk, Extends, DeclareVar, ElabExpr, ResolveType;
    SameLists(st, st);
    if NameFree(st, sc, name, env) {
      var ty := ResolveType(t, sc, st.scopes, st.calls, env.hash);
      var st0 := st.(calls := ty.calls);
      SameLists(st, st0);
      if ty.r.Ok? {
        DeclareVarSlots(name, ty.r.value, sc, b, st0, env);
        var st1 := DeclareVar(name, ty.r.value, sc, b, st0, env).0;
        SafeTrans(st, st0, st1);
        var r := VarDeclaration(name, t, init, sc, b, st, env);
        SameLists(st1, r.st);
        SafeTrans(st, st1, r.st);
      }
    }
  }

  lemma SimpleSlots(s: Stmt, sc: nat, b: nat, st: State, env: Env)
    requires !s.Block? && !s.FuncDecl? && !s.If? && !s.While? && !s.DoWhile? && !s.For?
    requires Ready(st, sc, b) && SlotsOk(st) && ElabStmt(s, sc, b, st, env).Elab?
    ensures Safe(st, ElabStmt(s, sc, b, st, env).st)
  {
    hide SlotsOk, Extends, VarDeclaration, ElabExpr, ElabPrimary;
    if s.VarDecl? {
      VarSlots(s.name, s.ty, s.init, sc, b, st, env);
    } else {
      if s.EnumDecl? {
        EnumSlots(s.consts, |st.scopes|, Open(st, sc), [], 0, env);
      }
      SameLists(st, ElabStmt(s, sc, b, st, env).st);
    }
  }

  lemma {:induction false} LoopSlots(s: Stmt, sc: nat, b: nat, st: State, env: Env)
    requires s.If? || s.While? || s.DoWhile?
    requires Ready(st, sc, b) && SlotsOk(st) && ElabStmt(s, sc, b, st, env).Elab?
    ensures Safe(st, ElabStmt(s, sc, b, st, env).st)
    decreases s, 0
  {
    hide SlotsOk, Extends, ElabExpr;
    var st1 := if s.DoWhile? then st else st.(calls := ElabExpr(s.cond, sc, st.scopes, st.calls, env.hash).calls);
    SameLists(st, st1);
    var first := if s.If? then s.thn else s.body;
    ElabKeepsSlots(first, sc, b, st1, env);
    var st2 := ElabStmt(first, sc, b, st1, env).st;
    SafeTrans(st, st1, st2);
    var r := ElabStmt(s, sc, b, st, env).st;
    if s.If? {
      ElabKeepsSlots(s.els.value, sc, b, st2, env);
    } else {
      SameLists(st2, r);
    }
    SafeTrans(st, st2, r);
  }

  lemma {:induction false} ForSlots(s: Stmt, sc: nat, b: nat, st: State, env: Env)
    requires s.For?
    requires Ready(st, sc, b) && SlotsOk(st) && ElabStmt(s, sc, b, st, env).Elab?
    ensures Safe(st, ElabStmt(s, sc, b, st, env).st)
    decreases s, 0
  {
    hide SlotsOk, Extends, ElabExpr;
    var fs, st0 := |st.scopes|, Open(st, sc);
    SameLists(st, st0);
    ElabKeepsSlots(s.first, fs, b, st0, env);
    var st1 := ElabStmt(s.first, fs, b, st0, env).st;
    var st2 := st1.(calls := ElabExpr(s.cond, fs, st1.scopes, st1.calls, env.hash).calls);
    SameLists(st1, st2);
    ElabKeepsSlots(s.body, fs, b, st2, env);
    var st3 := ElabStmt(s.body, fs, b, st2, env).st;
    ElabKeepsSlots(s.step, fs, b, st3, env);
    SafeTrans(st, st0, st1);
    SafeTrans(st, st1, st2);
    SafeTrans(st, st2, st3);
    SafeTrans(st, st3, ElabStmt(s, sc, b, st, env).st);
  }

  /** Through every declaration, nested function and early rejection: slots stay dense, and what was
      allocated stays where it was. */
  lemma {:induction false} ElabKeepsSlots(s: Stmt, sc: nat, b: nat, st: State, env: Env)
    requires Ready(st, sc, b) && SlotsOk(st) && ElabStmt(s, sc, b, st, env).Elab?
    ensures Safe(st, ElabStmt(s, sc, b, st, env).st)
    decreases s, 1
  {
    hide SlotsOk, Extends;
    match s
    case Block(stmts) =>
      SameLists(st, Open(st, sc));
      ElabAllKeepsSlots(stmts, |st.scopes|, b, Open(st, sc), env);
      SafeTrans(st, Open(st, sc), ElabStmt(s, sc, b, st, env).st);
    case FuncDecl(name, ty, params, body) =>
      RegFuncSlots(name, ty, params, sc, st, env);
      var h := RegFunc(name, ty, params, sc, st, env);
      if h.Header? {
        ElabKeepsSlots(body, h.scope, h.block, h.st, env);
        SafeTrans(st, h.st, ElabStmt(s, sc, b, st, env).st);
      }
    case If(_, _, _) => LoopSlots(s, sc, b, st, env);
    case While(_, _) => LoopSlots(s, sc, b, st, env);
    case DoWhile(_, _) => LoopSlots(s, sc, b, st, env);
    case For(_, _, _, _) => ForSlots(s, sc, b, st, env);
    case _ => SimpleSlots(s, sc, b, st, env);
  }

  lemma {:induction false} ElabAllKeepsSlots(stmts: seq<Stmt>, sc: nat, b: nat, st: State, env: Env)
    requires Ready(st, sc, b) && SlotsOk(st) && ElabAll(stmts, sc, b, st, env).ElabSeq?
    ensures Safe(st, ElabAll(stmts, sc, b, st, env).st)
    decreases stmts, 0
  {
    hide SlotsOk, Extends;
    SameLists(st, st);
    if stmts != [] {
      ElabKeepsSlots(stmts[0], sc, b, st, env);
      var st1 := ElabStmt(stmts[0], sc, b, st, env).st;
      ElabAllKeepsSlots(stmts[1..], sc, b, st1, env);
      SafeTrans(st, st1, ElabAll(stmts, sc, b, st, env).st);
    }
  }
}
