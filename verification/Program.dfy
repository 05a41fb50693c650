/** The node lists of a module do what its source says: the top level and every function, from the syntax tree down to
    execution by a program counter. */
module Program {
  import opened Common
  import opened Ir
  import opened Ast
  import opened ScopeGraph
  import opened Elaborate
  import opened Source
  import F = Flatten
  import Labels
  import M = Meaning
  import P = Preservation
  import Sem = Semantics

  /** What runs on its own, and where it stands: the statements of a module, or the body of a function, in scope `sc`
      and for block `b`. */
  datatype Part =
    | TopLevel(stmts: seq<Stmt>, sc: nat, b: nat, st: State)
    | Body(s: Stmt, sc: nat, b: nat, st: State)

  ghost predicate Stands(p: Part) { Ready(p.st, p.sc, p.b) }

  /** The function bodies in `s`, in the order of their declarations, a function before those inside it. */
  ghost function Funcs(s: Stmt, sc: nat, b: nat, st: State, env: Env): (parts: seq<Part>)
    requires Ready(st, sc, b)
    decreases s, 0
  {
    match s
    case Block(stmts) => AllFuncs(stmts, |st.scopes|, b, Open(st, sc), env)
    case If(cond, thn, els) =>
      var st1 := Tested(cond, sc, st, env);
      Funcs(thn, sc, b, st1, env)
      + (if els.None? then [] else Funcs(els.value, sc, b, Behind(thn, sc, b, st1, env), env))
    case While(cond, body) => Funcs(body, sc, b, Tested(cond, sc, st, env), env)
    case DoWhile(body, _) => Funcs(body, sc, b, st, env)
    case For(first, cond, step, body) =>
      var fs, st0 := |st.scopes|, Open(st, sc);
      var st1 := Behind(first, fs, b, st0, env);
      var st2 := Tested(cond, fs, st1, env);
      Funcs(first, fs, b, st0, env)
      + (Funcs(body, fs, b, st2, env) + Funcs(step, fs, b, Behind(body, fs, b, st2, env), env))
    case FuncDecl(name, t, params, body) =>
      (match RegFunc(name, t, params, sc, st, env)
       case Header(st1, fs, fb) => [Body(body, fs, fb, st1)] + Funcs(body, fs, fb, st1, env)
       case _ => [])
    case _ => []
  }

  ghost function AllFuncs(stmts: seq<Stmt>, sc: nat, b: nat, st: State, env: Env): (parts: seq<Part>)
    requires Ready(st, sc, b)
    decreases stmts, 0
  {
    if stmts == [] then [] else
      Funcs(stmts[0], sc, b, st, env) + AllFuncs(stmts[1..], sc, b, Behind(stmts[0], sc, b, st, env), env)
  }

  /** All that runs on its own in a module. */
  ghost function Parts(stmts: seq<Stmt>, sc: nat, b: nat, st: State, env: Env): seq<Part>
    requires Ready(st, sc, b)
  {
    [TopLevel(stmts, sc, b, st)] + AllFuncs(stmts, sc, b, st, env)
  }

  // ----- what the source says -----

  ghost function Execute<S, V>(l: Lang<S, V>, calls: seq<CallStub>, p: Part, env: Env, m: S,
                               fuel: nat): Sem.Result<S, V>
    requires Stands(p)
  {
    match p
    case TopLevel(stmts, sc, b, st) => Source.ExecAll(l, calls, stmts, sc, b, st, env, false, m, fuel)
    case Body(s, sc, b, st) => Source.Exec(l, calls, s, sc, b, st, env, false, m, fuel)
  }

  ghost predicate Ends<S(!new), V(!new)>(l: Lang<S, V>, calls: seq<CallStub>, p: Part, env: Env, m: S,
                                         out: Sem.Outcome<V>, m': S)
    requires Stands(p)
  {
    exists fuel: nat :: Execute(l, calls, p, env, m, fuel) == Sem.Done(out, m')
  }

  ghost predicate Breaks<S(!new), V(!new)>(l: Lang<S, V>, calls: seq<CallStub>, p: Part, env: Env, m: S)
    requires Stands(p)
  {
    exists fuel: nat :: Execute(l, calls, p, env, m, fuel) == Sem.Stuck
  }

  ghost predicate GoesOn<S(!new), V(!new)>(l: Lang<S, V>, calls: seq<CallStub>, p: Part, env: Env, m: S)
    requires Stands(p)
  {
    forall fuel: nat :: Execute(l, calls, p, env, m, fuel) == Sem.Timeout
  }

  // ----- parts and blocks -----

  /** Part `k` elaborates to `bodies[k]` for block `first + k`, and its calls are among those of the module. */
  ghost predicate Elaborates(p: Part, body: F.Stmt, env: Env, calls: seq<CallStub>) {
    && Stands(p)
    && match p
       case TopLevel(stmts, sc, b, st) =>
         M.AllCompiled(stmts, sc, b, st, env, calls) && body == F.Block(ElabAll(stmts, sc, b, st, env).codes)
       case Body(s, sc, b, st) => M.Compiled(s, sc, b, st, env, calls) && body == M.CodeOf(s, sc, b, st, env)
  }

  ghost predicate Agree(parts: seq<Part>, bodies: seq<F.Stmt>, first: nat, env: Env, calls: seq<CallStub>) {
    && |parts| == |bodies|
    && forall k :: 0 <= k < |parts| ==> parts[k].b == first + k && Elaborates(parts[k], bodies[k], env, calls)
  }

  lemma AgreeJoin(p: seq<Part>, q: seq<Part>, c: seq<F.Stmt>, d: seq<F.Stmt>, first: nat, env: Env,
                  calls: seq<CallStub>)
    requires Agree(p, c, first, env, calls) && Agree(q, d, first + |p|, env, calls)
    ensures Agree(p + q, c + d, first, env, calls)
  {
    hide Elaborates;
  }

  lemma AgreeThree(p: seq<Part>, q: seq<Part>, r: seq<Part>, c: seq<F.Stmt>, d: seq<F.Stmt>, e: seq<F.Stmt>, first: nat,
                   env: Env, calls: seq<CallStub>)
    requires Agree(p, c, first, env, calls) && Agree(q, d, first + |p|, env, calls)
    requires Agree(r, e, first + |p| + |q|, env, calls)
    ensures Agree(p + (q + r), c + (d + e), first, env, calls)
  {
    hide Agree;
    AgreeJoin(q, r, d, e, first + |p|, env, calls);
    AgreeJoin(p, q + r, c, d + e, first, env, calls);
  }

  /** Function bodies are compiled in the order of their declarations, each for the next block. */
  lemma {:induction false} FuncsAgree(s: Stmt, sc: nat, b: nat, st: State, env: Env, calls: seq<CallStub>)
    requires Ready(st, sc, b) && M.Compiled(s, sc, b, st, env, calls)
    ensures var r, parts := ElabStmt(s, sc, b, st, env), Funcs(s, sc, b, st, env);
            Agree(parts, P.Bodies(r.code), |st.blocks|, env, calls) && |r.st.blocks| == |st.blocks| + |parts|
    decreases s, 1
  {
    hide Wf, ElabExpr, Agree, RegFunc;
    match s
    case Block(stmts) => AllAgree(stmts, |st.scopes|, b, Open(st, sc), env, calls);
    case If(_, _, _) => IfAgrees(s, sc, b, st, env, calls);
    case While(cond, body) => FuncsAgree(body, sc, b, Tested(cond, sc, st, env), env, calls);
    case DoWhile(body, cond) =>
      var st1 := ElabStmt(body, sc, b, st, env).st;
      M.ExprGrows(cond, sc, st1.scopes, st1.calls, env.hash);
      FuncsAgree(body, sc, b, st, env, calls);
    case For(_, _, _, _) => ForAgrees(s, sc, b, st, env, calls);
    case FuncDecl(_, _, _, _) => FuncAgrees(s, sc, b, st, env, calls);
    case _ => SimpleAgrees(s, sc, b, st, env, calls);
  }

  lemma SimpleAgrees(s: Stmt, sc: nat, b: nat, st: State, env: Env, calls: seq<CallStub>)
    requires !s.Block? && !s.FuncDecl? && !s.If? && !s.While? && !s.DoWhile? && !s.For?
    requires Ready(st, sc, b) && M.Compiled(s, sc, b, st, env, calls)
    ensures var r := ElabStmt(s, sc, b, st, env);
            P.Bodies(r.code) == [] && Funcs(s, sc, b, st, env) == [] && |r.st.blocks| == |st.blocks|
    ensures Agree([], [], |st.blocks|, env, calls)
  {
    hide Wf, ElabExpr, ElabPrimary, ResolveType, RegConst, RegEnum, Declare, NameFree, Elaborates;
  }

  lemma {:induction false} IfAgrees(s: Stmt, sc: nat, b: nat, st: State, env: Env, calls: seq<CallStub>)
    requires s.If? && Ready(st, sc, b) && M.Compiled(s, sc, b, st, env, calls)
    ensures var r, parts := ElabStmt(s, sc, b, st, env), Funcs(s, sc, b, st, env);
            Agree(parts, P.Bodies(r.code), |st.blocks|, env, calls) && |r.st.blocks| == |st.blocks| + |parts|
    decreases s, 0
  {
    hide Wf, ElabExpr, Agree;
    var st1 := Tested(s.cond, sc, st, env);
    var t := ElabStmt(s.thn, sc, b, st1, env);
    var e := ElabStmt(s.els.value, sc, b, t.st, env);
    M.StmtGrows(s.els.value, sc, b, t.st, env);
    FuncsAgree(s.thn, sc, b, st1, env, calls);
    FuncsAgree(s.els.value, sc, b, t.st, env, calls);
    AgreeJoin(Funcs(s.thn, sc, b, st1, env), Funcs(s.els.value, sc, b, t.st, env),
              P.Bodies(t.code), P.Bodies(e.code), |st.blocks|, env, calls);
  }

  /** A for statement by its parts: its code, its functions, and what is behind it. */
  lemma ForShape(s: Stmt, sc: nat, b: nat, st: State, env: Env, calls: seq<CallStub>)
    requires s.For? && Ready(st, sc, b) && M.Compiled(s, sc, b, st, env, calls)
    ensures var fs, st0 := |st.scopes|, Open(st, sc);
            var i := ElabStmt(s.first, fs, b, st0, env);
            && M.Compiled(s.first, fs, b, st0, env, calls)
            && var st2 := Tested(s.cond, fs, i.st, env);
            && M.Compiled(s.body, fs, b, st2, env, calls) && st2.blocks == i.st.blocks && st0.blocks == st.blocks
            && var r := ElabStmt(s.body, fs, b, st2, env);
            && M.Compiled(s.step, fs, b, r.st, env, calls)
            && var n, whole := ElabStmt(s.step, fs, b, r.st, env), ElabStmt(s, sc, b, st, env);
            && whole.Elab? && whole.st == n.st
            && P.Bodies(whole.code) == P.Bodies(i.code) + (P.Bodies(r.code) + P.Bodies(n.code))
            && Funcs(s, sc, b, st, env)
               == Funcs(s.first, fs, b, st0, env) + (Funcs(s.body, fs, b, st2, env) + Funcs(s.step, fs, b, r.st, env))
  {
    hide Wf, ElabExpr;
    M.ForGrows(s, sc, b, st, env);
  }

  lemma {:induction false} ForAgrees(s: Stmt, sc: nat, b: nat, st: State, env: Env, calls: seq<CallStub>)
    requires s.For? && Ready(st, sc, b) && M.Compiled(s, sc, b, st, env, calls)
    ensures var r, parts := ElabStmt(s, sc, b, st, env), Funcs(s, sc, b, st, env);
            Agree(parts, P.Bodies(r.code), |st.blocks|, env, calls) && |r.st.blocks| == |st.blocks| + |parts|
    decreases s, 0
  {
    hide Wf, Agree, ElabStmt, Funcs, P.Bodies;
    ForShape(s, sc, b, st, env, calls);
    var fs, st0 := |st.scopes|, Open(st, sc);
    var i := ElabStmt(s.first, fs, b, st0, env);
    var st2 := Tested(s.cond, fs, i.st, env);
    var r := ElabStmt(s.body, fs, b, st2, env);
    var n := ElabStmt(s.step, fs, b, r.st, env);
    hide Open, Tested;
    FuncsAgree(s.first, fs, b, st0, env, calls);
    FuncsAgree(s.body, fs, b, st2, env, calls);
    FuncsAgree(s.step, fs, b, r.st, env, calls);
    AgreeThree(Funcs(s.first, fs, b, st0, env), Funcs(s.body, fs, b, st2, env), Funcs(s.step, fs, b, r.st, env),
               P.Bodies(i.code), P.Bodies(r.code), P.Bodies(n.code), |st.blocks|, env, calls);
  }

  lemma FuncShape(s: Stmt, sc: nat, b: nat, st: State, env: Env, calls: seq<CallStub>)
    requires s.FuncDecl? && Ready(st, sc, b) && M.Compiled(s, sc, b, st, env, calls)
    ensures var h, whole := RegFunc(s.name, s.ty, s.params, sc, st, env), ElabStmt(s, sc, b, st, env);
            if h.Header? then
              && h.block == |st.blocks| && |h.st.blocks| == |st.blocks| + 1
              && M.Compiled(s.body, h.scope, h.block, h.st, env, calls)
              && var c := ElabStmt(s.body, h.scope, h.block, h.st, env);
              && whole.st == c.st && P.Bodies(whole.code) == [c.code] + P.Bodies(c.code)
              && Funcs(s, sc, b, st, env)
                 == [Body(s.body, h.scope, h.block, h.st)] + Funcs(s.body, h.scope, h.block, h.st, env)
            else |whole.st.blocks| == |st.blocks| && P.Bodies(whole.code) == [] && Funcs(s, sc, b, st, env) == []
  {
    hide Wf, RegFunc;
  }

  lemma {:induction false} FuncAgrees(s: Stmt, sc: nat, b: nat, st: State, env: Env, calls: seq<CallStub>)
    requires s.FuncDecl? && Ready(st, sc, b) && M.Compiled(s, sc, b, st, env, calls)
    ensures var r, parts := ElabStmt(s, sc, b, st, env), Funcs(s, sc, b, st, env);
            Agree(parts, P.Bodies(r.code), |st.blocks|, env, calls) && |r.st.blocks| == |st.blocks| + |parts|
    decreases s, 0
  {
    hide Wf, RegFunc, ElabStmt, Funcs, P.Bodies;
    FuncShape(s, sc, b, st, env, calls);
    var h := RegFunc(s.name, s.ty, s.params, sc, st, env);
    if h.Header? {
      var c := ElabStmt(s.body, h.scope, h.block, h.st, env).code;
      FuncsAgree(s.body, h.scope, h.block, h.st, env, calls);
      AgreeJoin([Body(s.body, h.scope, h.block, h.st)], Funcs(s.body, h.scope, h.block, h.st, env),
                [c], P.Bodies(c), |st.blocks|, env, calls);
    }
  }

  lemma {:induction false} AllAgree(stmts: seq<Stmt>, sc: nat, b: nat, st: State, env: Env, calls: seq<CallStub>)
    requires Ready(st, sc, b) && M.AllCompiled(stmts, sc, b, st, env, calls)
    ensures var r, parts := ElabAll(stmts, sc, b, st, env), AllFuncs(stmts, sc, b, st, env);
            Agree(parts, P.AllBodies(r.codes), |st.blocks|, env, calls) && |r.st.blocks| == |st.blocks| + |parts|
    decreases stmts, 0
  {
    hide Wf, ElabStmt, Elaborates;
    if stmts != [] {
      var x := ElabStmt(stmts[0], sc, b, st, env);
      var rest := ElabAll(stmts[1..], sc, b, x.st, env);
      M.ListGrows(stmts[1..], sc, b, x.st, env);
      FuncsAgree(stmts[0], sc, b, st, env, calls);
      AllAgree(stmts[1..], sc, b, x.st, env, calls);
      assert ([x.code] + rest.codes)[1..] == rest.codes;
      AgreeJoin(Funcs(stmts[0], sc, b, st, env), AllFuncs(stmts[1..], sc, b, x.st, env),
                P.Bodies(x.code), P.AllBodies(rest.codes), |st.blocks|, env, calls);
    }
  }

  // ----- the whole module -----

  /** What a part elaborates to does, structured, what the source says. */
  lemma PartMeans<S, V>(l: Lang<S, V>, p: Part, body: F.Stmt, env: Env, calls: seq<CallStub>, m: S, fuel: nat)
    requires Elaborates(p, body, env, calls)
    ensures Sem.Exec(NodeSem(l, calls), body, false, false, m, fuel) == Execute(l, calls, p, env, m, fuel)
  {
    hide Wf, NodeSem, ElabStmt, ElabAll, Source.Exec, Source.ExecAll;
    match p
    case TopLevel(stmts, sc, b, st) => M.ListMeans(l, stmts, sc, b, st, env, calls, false, m, fuel);
    case Body(s, sc, b, st) => M.StmtMeans(l, s, sc, b, st, env, calls, false, m, fuel);
  }

  lemma PartEnds<S(!new), V(!new)>(l: Lang<S, V>, p: Part, body: F.Stmt, env: Env, calls: seq<CallStub>, m: S)
    requires Elaborates(p, body, env, calls)
    ensures forall out, m' :: P.Finishes(NodeSem(l, calls), body, m, out, m') <==> Ends(l, calls, p, env, m, out, m')
    ensures P.Fails(NodeSem(l, calls), body, m) <==> Breaks(l, calls, p, env, m)
    ensures P.Diverges(NodeSem(l, calls), body, m) <==> GoesOn(l, calls, p, env, m)
  {
    assert Stands(p);
    hide Elaborates, Stands, NodeSem, Execute, Sem.Exec;
    forall fuel: nat
      ensures Sem.Exec(NodeSem(l, calls), body, false, false, m, fuel) == Execute(l, calls, p, env, m, fuel)
    {
      PartMeans(l, p, body, env, calls, m, fuel);
    }
  }

  /** The blocks of a module and the parts of its source correspond one to one, in the order of the function table,
      and running a block ends as executing its part does: with the same store and the same returned value, at an
      expression without a value, or never. */
  lemma ModuleDoesWhatItSays<S(!new), V(!new)>(l: Lang<S, V>, stmts: seq<Stmt>, sc: nat, st: State, env: Env, k: nat,
                                               m: S)
    requires Ready(st, sc, 0) && |st.blocks| == 1 && ElabAll(stmts, sc, 0, st, env).ElabSeq?
    requires k < |Parts(stmts, sc, 0, st, env)|
    ensures var r, parts := ElabAll(stmts, sc, 0, st, env), Parts(stmts, sc, 0, st, env);
            var blocks := Labels.Blocks(F.Emit(F.Block(r.codes), None, None, 0));
            && |blocks| == |parts| == |r.st.blocks| && parts[k].b == k && Stands(parts[k])
            && var code, sem, calls := blocks[k], NodeSem(l, r.st.calls), r.st.calls;
            && (forall m' :: Ends(l, calls, parts[k], env, m, Sem.Normal, m')
                        <==> P.RunsTo(sem, code, m, Sem.At(|code|, m')))
            && (forall v, m' :: Ends(l, calls, parts[k], env, m, Sem.Returned(v), m')
                           <==> P.RunsTo(sem, code, m, Sem.Halted(v, m')))
            && (Breaks(l, calls, parts[k], env, m) <==> P.RunsTo(sem, code, m, Sem.Fault))
            && (GoesOn(l, calls, parts[k], env, m) <==> P.RunsForever(sem, code, m))
  {
    hide Wf, F.Emit, F.EmitAll, NodeSem, ElabAll, Elaborates, P.Finishes, P.Fails, P.Diverges, P.RunsTo, P.RunsForever;
    hide Ends, Breaks, GoesOn, AllFuncs;
    var r, parts := ElabAll(stmts, sc, 0, st, env), Parts(stmts, sc, 0, st, env);
    var bodies := [F.Block(r.codes)] + P.Bodies(F.Block(r.codes));
    ModuleAgrees(stmts, sc, st, env);
    PartStands(parts, bodies, k, env, r.st.calls);
    hide Agree, Parts, Stands;
    P.ProgramPreservesMeaning(NodeSem(l, r.st.calls), F.Block(r.codes), 0, k, m);
    PartEnds(l, parts[k], bodies[k], env, r.st.calls, m);
  }

  lemma PartStands(parts: seq<Part>, bodies: seq<F.Stmt>, k: nat, env: Env, calls: seq<CallStub>)
    requires Agree(parts, bodies, 0, env, calls) && k < |parts|
    ensures |parts| == |bodies| && parts[k].b == k && Stands(parts[k])
    ensures Elaborates(parts[k], bodies[k], env, calls)
  {
  }

  lemma ModuleAgrees(stmts: seq<Stmt>, sc: nat, st: State, env: Env)
    requires Ready(st, sc, 0) && |st.blocks| == 1 && ElabAll(stmts, sc, 0, st, env).ElabSeq?
    ensures var r := ElabAll(stmts, sc, 0, st, env);
            && Agree(Parts(stmts, sc, 0, st, env), [F.Block(r.codes)] + P.Bodies(F.Block(r.codes)), 0, env, r.st.calls)
            && |Parts(stmts, sc, 0, st, env)| == |r.st.blocks|
            && |Labels.Blocks(F.Emit(F.Block(r.codes), None, None, 0))| == |r.st.blocks|
  {
    hide Wf, ElabAll, AllFuncs, F.Emit, F.EmitAll;
    var r := ElabAll(stmts, sc, 0, st, env);
    AllAgree(stmts, sc, 0, st, env, r.st.calls);
    AgreeJoin([TopLevel(stmts, sc, 0, st)], AllFuncs(stmts, sc, 0, st, env), [F.Block(r.codes)], P.AllBodies(r.codes),
              0, env, r.st.calls);
    P.FunctionsCompiled(F.Block(r.codes), None, None, 0);
  }
}
