/** The elaborator as it works: one pass over a statement that appends nodes, variables and functions
    to the blocks and handles to the scopes. */
module IrManager {
  import opened Common
  import opened Ir
  import opened Ast
  import opened ScopeGraph
  import Typing
  import Interp
  import Labels
  import F = Flatten
  import E = Elaborate

  /** Is the value already taken? */
  method Check(used: seq<int>, val: int) returns (found: bool)
    ensures found <==> val in used
  {
    for p := 0 to |used|
      invariant val !in used[..p]
    {
      if used[p] == val {
        return true;
      }
      assert used[..p + 1] == used[..p] + [used[p]];
    }
    assert used[..|used|] == used;
    return false;
  }

  /** Nodes appended to block `b` and blocks appended after the others. */
  ghost function Appended(nodes: seq<seq<Instr>>, b: nat, more: seq<Instr>,
                          funcs: seq<seq<Instr>>): (r: seq<seq<Instr>>)
    requires b < |nodes|
    ensures |r| == |nodes| + |funcs|
  {
    nodes[b := nodes[b] + more] + funcs
  }

  lemma AppendedTwice(nodes: seq<seq<Instr>>, b: nat, m1: seq<Instr>, f1: seq<seq<Instr>>, m2: seq<Instr>,
                      f2: seq<seq<Instr>>)
    requires b < |nodes|
    ensures Appended(Appended(nodes, b, m1, f1), b, m2, f2) == Appended(nodes, b, m1 + m2, f1 + f2)
  {
    var r := Appended(Appended(nodes, b, m1, f1), b, m2, f2);
    var t := Appended(nodes, b, m1 + m2, f1 + f2);
    assert r[b] == t[b];
    forall i | 0 <= i < |r| && i != b ensures r[i] == t[i] {}
  }

  lemma AppendedNothing(nodes: seq<seq<Instr>>, b: nat)
    requires b < |nodes|
    ensures Appended(nodes, b, [], []) == nodes
  {
    assert nodes[b] + [] == nodes[b];
  }

  /** The nodes of a loop that tests first, appended one piece at a time. */
  lemma TestFirstNodes(n: seq<seq<Instr>>, b: nat, l1: Instr, br: Instr, body: seq<Instr>, f: seq<seq<Instr>>,
                       j: Instr, l2: Instr)
    requires b < |n|
    ensures Appended(Appended(Appended(Appended(Appended(n, b, [l1], []), b, [br], []), b, body, f), b, [j], []), b,
                     [l2], [])
         == Appended(n, b, [l1, br] + body + [j, l2], f)
  {
    AppendedTwice(n, b, [l1], [], [br], []);
    AppendedTwice(n, b, [l1] + [br], [] + [], body, f);
    AppendedTwice(n, b, [l1] + [br] + body, [] + [] + f, [j], []);
    AppendedTwice(n, b, [l1] + [br] + body + [j], [] + [] + f + [], [l2], []);
    assert [l1] + [br] + body + [j] + [l2] == [l1, br] + body + [j, l2];
    assert [] + [] + f + [] + [] == f;
  }

  lemma TestLastNodes(n: seq<seq<Instr>>, b: nat, l1: Instr, body: seq<Instr>, f: seq<seq<Instr>>, br: Instr, l2: Instr)
    requires b < |n|
    ensures Appended(Appended(Appended(Appended(n, b, [l1], []), b, body, f), b, [br], []), b, [l2], [])
         == Appended(n, b, [l1] + body + [br, l2], f)
  {
    AppendedTwice(n, b, [l1], [], body, f);
    AppendedTwice(n, b, [l1] + body, [] + f, [br], []);
    AppendedTwice(n, b, [l1] + body + [br], [] + f + [], [l2], []);
    assert [l1] + body + [br] + [l2] == [l1] + body + [br, l2];
    assert [] + f + [] + [] == f;
  }

  lemma IfNodes(n: seq<seq<Instr>>, b: nat, br: Instr, t: seq<Instr>, f: seq<seq<Instr>>, j: Instr, l1: Instr,
                e: seq<Instr>, g: seq<seq<Instr>>, l2: Instr)
    requires b < |n|
    ensures Appended(Appended(Appended(Appended(Appended(Appended(n, b, [br], []), b, t, f), b, [j], []), b, [l1], []),
                              b, e, g), b, [l2], [])
         == Appended(n, b, [br] + t + [j, l1] + e + [l2], f + g)
  {
    AppendedTwice(n, b, [br], [], t, f);
    AppendedTwice(n, b, [br] + t, [] + f, [j], []);
    AppendedTwice(n, b, [br] + t + [j], [] + f + [], [l1], []);
    AppendedTwice(n, b, [br] + t + [j] + [l1], [] + f + [] + [], e, g);
    AppendedTwice(n, b, [br] + t + [j] + [l1] + e, [] + f + [] + [] + g, [l2], []);
    assert [br] + t + [j] + [l1] + e + [l2] == [br] + t + [j, l1] + e + [l2];
    assert [] + f + [] + [] + g + [] == f + g;
  }

  lemma ForNodes(n: seq<seq<Instr>>, b: nat, init: seq<Instr>, f0: seq<seq<Instr>>, l1: Instr, br: Instr,
                 body: seq<Instr>, f: seq<seq<Instr>>, step: seq<Instr>, g: seq<seq<Instr>>, j: Instr, l2: Instr)
    requires b < |n|
    ensures Appended(Appended(Appended(Appended(Appended(Appended(Appended(n, b, init, f0), b, [l1], []), b, [br], []),
                                                b, body, f), b, step, g), b, [j], []), b, [l2], [])
         == Appended(n, b, init + ([l1, br] + (body + step) + [j, l2]), f0 + (f + g))
  {
    var m := Appended(n, b, init, f0);
    AppendedTwice(Appended(Appended(m, b, [l1], []), b, [br], []), b, body, f, step, g);
    TestFirstNodes(m, b, l1, br, body + step, f + g, j, l2);
    AppendedTwice(n, b, init, f0, [l1, br] + (body + step) + [j, l2], f + g);
  }

  /** Advance past the values already taken, then take one. */
  method NextFree(used: seq<int>, next: int) returns (v: int, next': int)
    requires next >= 0
    ensures v == E.FirstFree(used, next) && next' == v + 1
  {
    v := next;
    var taken := Check(used, v);
    while taken
      invariant v >= next && taken == (v in used)
      invariant E.FirstFree(used, next) == E.FirstFree(used, v)
      decreases E.Above(used, v), taken
    {
      E.FewerAbove(used, v);
      v := v + 1;
      taken := Check(used, v);
    }
    next' := v + 1;
  }

  lemma EmitAllFirst(code: F.Stmt, rest: seq<F.Stmt>, start: Option<nat>, end: Option<nat>, next: nat)
    ensures var d := F.Emit(code, start, end, next);
            var r := F.EmitAll(rest, start, end, d.next);
            F.EmitAll([code] + rest, start, end, next) == F.Code(d.nodes + r.nodes, d.funcs + r.funcs, r.next)
  {
    hide F.Emit;
    assert ([code] + rest)[1..] == rest;
  }

  lemma EmitNothing(start: Option<nat>, end: Option<nat>, next: nat)
    ensures F.EmitAll([], start, end, next) == F.Code([], [], next)
  {
  }

  lemma {:induction false} EmitAllSnoc(codes: seq<F.Stmt>, code: F.Stmt, start: Option<nat>, end: Option<nat>,
                                       next: nat)
    ensures var c := F.EmitAll(codes, start, end, next);
            var d := F.Emit(code, start, end, c.next);
            F.EmitAll(codes + [code], start, end, next) == F.Code(c.nodes + d.nodes, c.funcs + d.funcs, d.next)
  {
    hide F.Emit, F.EmitAll;
    if codes == [] {
      assert [] + [code] == [code] + [];
      EmitAllFirst(code, [], start, end, next);
      EmitNothing(start, end, next);
      EmitNothing(start, end, F.Emit(code, start, end, next).next);
    } else {
      var f := F.Emit(codes[0], start, end, next);
      assert codes + [code] == [codes[0]] + (codes[1..] + [code]) && codes == [codes[0]] + codes[1..];
      EmitAllFirst(codes[0], codes[1..], start, end, next);
      EmitAllFirst(codes[0], codes[1..] + [code], start, end, next);
      EmitAllSnoc(codes[1..], code, start, end, f.next);
    }
  }

  /** After `i` statements with code `codes` in state `st`, the rest decides the whole. */
  ghost predicate Continues(stmts: seq<Stmt>, i: nat, sc: nat, b: nat, st0: E.State, st: E.State, codes: seq<F.Stmt>,
                            env: E.Env)
    requires i <= |stmts| && E.Ready(st0, sc, b) && E.Ready(st, sc, b)
  {
    E.ElabAll(stmts, sc, b, st0, env) ==
      match E.ElabAll(stmts[i..], sc, b, st, env)
      case SeqFailed => E.SeqFailed
      case ElabSeq(rest, st') => E.ElabSeq(codes + rest, st')
  }

  lemma ContinuesNext(stmts: seq<Stmt>, i: nat, sc: nat, b: nat, st0: E.State, st: E.State, codes: seq<F.Stmt>,
                      env: E.Env)
    requires i < |stmts| && E.Ready(st0, sc, b) && E.Ready(st, sc, b)
    requires Continues(stmts, i, sc, b, st0, st, codes, env)
    ensures var x := E.ElabStmt(stmts[i], sc, b, st, env);
            if x.Elab? then Continues(stmts, i + 1, sc, b, st0, x.st, codes + [x.code], env)
            else E.ElabAll(stmts, sc, b, st0, env).SeqFailed?
  {
    var x := E.ElabStmt(stmts[i], sc, b, st, env);
    assert stmts[i..][1..] == stmts[i + 1..] && stmts[i..][0] == stmts[i];
    if x.Elab? {
      var rest := E.ElabAll(stmts[i + 1..], sc, b, x.st, env);
      if rest.ElabSeq? {
        assert codes + ([x.code] + rest.codes) == codes + [x.code] + rest.codes;
      }
    }
  }

  // ----- the state of the pass, as a value -----

  datatype Snap = Snap(st: E.State, nodes: seq<seq<Instr>>, next: nat)

  ghost predicate Able(m: Snap, sc: nat, b: nat) {
    E.Ready(m.st, sc, b) && |m.nodes| == |m.st.blocks|
  }

  ghost function Put(m: Snap, b: nat, node: Instr): (r: Snap)
    requires b < |m.nodes|
    ensures r.st == m.st && r.next == m.next && |r.nodes| == |m.nodes|
  {
    m.(nodes := Appended(m.nodes, b, [node], []))
  }

  /** From `m` to `m'` as resolving the statement and then laying it out says. */
  ghost predicate Compiles(env: E.Env, s: Stmt, sc: nat, b: nat, start: Option<nat>, end: Option<nat>, m: Snap,
                           m': Snap)
    requires Able(m, sc, b)
  {
    var r := E.ElabStmt(s, sc, b, m.st, env);
    r.Elab? &&
    var c := F.Emit(r.code, start, end, m.next);
    m' == Snap(r.st, Appended(m.nodes, b, c.nodes, c.funcs), c.next)
  }

  ghost predicate Rejects(env: E.Env, s: Stmt, sc: nat, b: nat, m: Snap)
    requires Able(m, sc, b)
  {
    E.ElabStmt(s, sc, b, m.st, env).Failed?
  }

  /** The condition of `s`, elaborated in scope `sc`. */
  function Cond(cond: Expr, sc: nat, m: Snap, env: E.Env): E.Out<Node>
    requires Wf(m.st.scopes) && sc < |m.st.scopes|
  {
    E.ElabExpr(cond, sc, m.st.scopes, m.st.calls, env.hash)
  }

  function Called(m: Snap, calls: seq<E.CallStub>): Snap { m.(st := m.st.(calls := calls)) }

  lemma WhileCompiles(env: E.Env, s: Stmt, sc: nat, b: nat, start: Option<nat>, end: Option<nat>, m: Snap, m2: Snap)
    requires s.While? && Able(m, sc, b)
    ensures !Cond(s.cond, sc, m, env).r.Ok? ==> Rejects(env, s, sc, b, m)
    ensures Cond(s.cond, sc, m, env).r.Ok? ==>
              var x := Cond(s.cond, sc, m, env);
              var m1 := Put(Put(Called(m, x.calls), b, Label(m.next)), b,
                            BranchFalse(m.next + 1, x.r.value)).(next := m.next + 2);
              && Able(m1, sc, b)
              && (Rejects(env, s.body, sc, b, m1) ==> Rejects(env, s, sc, b, m))
              && (Compiles(env, s.body, sc, b, Some(m.next), Some(m.next + 1), m1, m2) ==>
                    b < |m2.nodes| && Compiles(env, s, sc, b, start, end, m,
                                               Put(Put(m2, b, Jump(m.next)), b, Label(m.next + 1))))
  {
    hide Appended, F.Emit, F.EmitLoop, E.ElabExpr, Wf;
    var x := Cond(s.cond, sc, m, env);
    if x.r.Ok? {
      var l := m.next;
      var m1 := Put(Put(Called(m, x.calls), b, Label(l)), b, BranchFalse(l + 1, x.r.value)).(next := l + 2);
      var r := E.ElabStmt(s.body, sc, b, m1.st, env);
      if r.Elab? { WhileEmits(m.nodes, b, x.r.value, r.code, start, end, l); }
    }
  }

  /** The nodes of a while statement, appended one piece at a time. */
  lemma WhileEmits(n: seq<seq<Instr>>, b: nat, cond: Node, body: F.Stmt, start: Option<nat>, end: Option<nat>, l: nat)
    requires b < |n|
    ensures var d := F.Emit(body, Some(l), Some(l + 1), l + 2);
            var c := F.Emit(F.While(cond, body), start, end, l);
            && c.next == d.next
            && Appended(Appended(Appended(Appended(Appended(n, b, [Label(l)], []), b, [BranchFalse(l + 1, cond)], []),
                        b, d.nodes, d.funcs), b, [Jump(l)], []), b, [Label(l + 1)], [])
            == Appended(n, b, c.nodes, c.funcs)
  {
    hide Appended;
    var d := F.Emit(body, Some(l), Some(l + 1), l + 2);
    TestFirstNodes(n, b, Label(l), BranchFalse(l + 1, cond), d.nodes, d.funcs, Jump(l), Label(l + 1));
    assert F.Emit(F.While(cond, body), start, end, l) == F.EmitLoop(F.While(cond, body), l);
  }

  lemma DoWhileCompiles(env: E.Env, s: Stmt, sc: nat, b: nat, start: Option<nat>, end: Option<nat>, m: Snap, m2: Snap)
    requires s.DoWhile? && Able(m, sc, b)
    ensures var m1 := Put(m, b, Label(m.next)).(next := m.next + 2);
            && Able(m1, sc, b)
            && (Rejects(env, s.body, sc, b, m1) ==> Rejects(env, s, sc, b, m))
            && (Compiles(env, s.body, sc, b, Some(m.next), Some(m.next + 1), m1, m2) ==>
                  && b < |m2.nodes| && Wf(m2.st.scopes) && sc < |m2.st.scopes|
                  && var x := Cond(s.cond, sc, m2, env);
                  if x.r.Ok? then
                    Compiles(env, s, sc, b, start, end, m,
                             Put(Put(Called(m2, x.calls), b, BranchTrue(m.next, x.r.value)), b, Label(m.next + 1)))
                  else Rejects(env, s, sc, b, m))
  {
    hide Appended, F.Emit, F.EmitLoop, E.ElabExpr, Wf;
    var l := m.next;
    var m1 := Put(m, b, Label(l)).(next := l + 2);
    var r := E.ElabStmt(s.body, sc, b, m1.st, env);
    if r.Elab? && Compiles(env, s.body, sc, b, Some(l), Some(l + 1), m1, m2) {
      var x := Cond(s.cond, sc, m2, env);
      if x.r.Ok? { DoWhileEmits(m.nodes, b, x.r.value, r.code, start, end, l); }
    }
  }

  /** The nodes of a do-while statement, appended one piece at a time. */
  lemma DoWhileEmits(n: seq<seq<Instr>>, b: nat, cond: Node, body: F.Stmt, start: Option<nat>, end: Option<nat>, l: nat)
    requires b < |n|
    ensures var d := F.Emit(body, Some(l), Some(l + 1), l + 2);
            var c := F.Emit(F.DoWhile(body, cond), start, end, l);
            && c.next == d.next
            && Appended(Appended(Appended(Appended(n, b, [Label(l)], []), b, d.nodes, d.funcs),
                                 b, [BranchTrue(l, cond)], []), b, [Label(l + 1)], [])
            == Appended(n, b, c.nodes, c.funcs)
  {
    hide Appended;
    var d := F.Emit(body, Some(l), Some(l + 1), l + 2);
    TestLastNodes(n, b, Label(l), d.nodes, d.funcs, BranchTrue(l, cond), Label(l + 1));
    assert F.Emit(F.DoWhile(body, cond), start, end, l) == F.EmitLoop(F.DoWhile(body, cond), l);
  }

  lemma IfCompiles(env: E.Env, s: Stmt, sc: nat, b: nat, start: Option<nat>, end: Option<nat>, m: Snap, m2: Snap,
                   m4: Snap)
    requires s.If? && Able(m, sc, b)
    ensures !Cond(s.cond, sc, m, env).r.Ok? || s.els.None? ==> Rejects(env, s, sc, b, m)
    ensures Cond(s.cond, sc, m, env).r.Ok? && s.els.Some? ==>
              var x := Cond(s.cond, sc, m, env);
              var m1 := Put(Called(m, x.calls), b, BranchFalse(m.next, x.r.value)).(next := m.next + 2);
              && Able(m1, sc, b)
              && (Rejects(env, s.thn, sc, b, m1) ==> Rejects(env, s, sc, b, m))
              && (Compiles(env, s.thn, sc, b, start, end, m1, m2) && |m2.nodes| == |m2.st.blocks| ==>
                    && b < |m2.nodes|
                    && var m3 := Put(Put(m2, b, Jump(m.next + 1)), b, Label(m.next));
                    && Able(m3, sc, b)
                    && (Rejects(env, s.els.value, sc, b, m3) ==> Rejects(env, s, sc, b, m))
                    && (Compiles(env, s.els.value, sc, b, start, end, m3, m4) ==>
                          b < |m4.nodes| && Compiles(env, s, sc, b, start, end, m, Put(m4, b, Label(m.next + 1)))))
  {
    hide Appended, F.Emit, E.ElabExpr, Wf;
    var x := Cond(s.cond, sc, m, env);
    if x.r.Ok? && s.els.Some? {
      var l := m.next;
      var m1 := Put(Called(m, x.calls), b, BranchFalse(l, x.r.value)).(next := l + 2);
      var t := E.ElabStmt(s.thn, sc, b, m1.st, env);
      if t.Elab? {
        var e := E.ElabStmt(s.els.value, sc, b, t.st, env);
        if e.Elab? {
          IfEmits(m.nodes, b, x.r.value, t.code, e.code, start, end, l);
        }
      }
    }
  }

  /** The nodes of an if statement, appended one piece at a time. */
  lemma IfEmits(n: seq<seq<Instr>>, b: nat, cond: Node, thn: F.Stmt, els: F.Stmt, start: Option<nat>, end: Option<nat>,
                l: nat)
    requires b < |n|
    ensures var t := F.Emit(thn, start, end, l + 2);
            var e := F.Emit(els, start, end, t.next);
            var c := F.Emit(F.If(cond, thn, els), start, end, l);
            && c.next == e.next
            && Appended(Appended(Appended(Appended(Appended(Appended(n, b, [BranchFalse(l, cond)], []),
                        b, t.nodes, t.funcs), b, [Jump(l + 1)], []), b, [Label(l)], []), b, e.nodes, e.funcs),
                        b, [Label(l + 1)], [])
            == Appended(n, b, c.nodes, c.funcs)
  {
    hide Appended;
    var t := F.Emit(thn, start, end, l + 2);
    var e := F.Emit(els, start, end, t.next);
    IfNodes(n, b, BranchFalse(l, cond), t.nodes, t.funcs, Jump(l + 1), Label(l), e.nodes, e.funcs, Label(l + 1));
  }

  /** The loop of a for statement, after its first part led from `m` to `m1`. */
  lemma ForCompiles(env: E.Env, s: Stmt, sc: nat, b: nat, start: Option<nat>, end: Option<nat>,
                    m: Snap, m1: Snap, m3: Snap, m4: Snap)
    requires s.For? && Able(m, sc, b)
    ensures var fs := |m.st.scopes|;
            var m0 := m.(st := E.Open(m.st, sc));
            && Able(m0, fs, b)
            && (Rejects(env, s.first, fs, b, m0) ==> Rejects(env, s, sc, b, m))
            && (Compiles(env, s.first, fs, b, None, None, m0, m1) && |m1.nodes| == |m1.st.blocks| ==>
                  && Able(m1, fs, b)
                  && var x := Cond(s.cond, fs, m1, env);
                  if !x.r.Ok? then Rejects(env, s, sc, b, m) else
                    var l := m1.next;
                    var m2 := Put(Put(Called(m1, x.calls), b, Label(l)), b,
                                  BranchFalse(l + 1, x.r.value)).(next := l + 2);
                    && Able(m2, fs, b)
                    && (Rejects(env, s.body, fs, b, m2) ==> Rejects(env, s, sc, b, m))
                    && (Compiles(env, s.body, fs, b, Some(l), Some(l + 1), m2, m3) && |m3.nodes| == |m3.st.blocks| ==>
                          && Able(m3, fs, b)
                          && (Rejects(env, s.step, fs, b, m3) ==> Rejects(env, s, sc, b, m))
                          && (Compiles(env, s.step, fs, b, Some(l), Some(l + 1), m3, m4) ==>
                                b < |m4.nodes| && Compiles(env, s, sc, b, start, end, m,
                                                           Put(Put(m4, b, Jump(l)), b, Label(l + 1))))))
  {
    hide Appended, F.Emit, F.EmitLoop, E.ElabExpr, E.Open, Wf;
    var fs := |m.st.scopes|;
    var i := E.ElabStmt(s.first, fs, b, E.Open(m.st, sc), env);
    if i.Elab? {
      var x := E.ElabExpr(s.cond, fs, i.st.scopes, i.st.calls, env.hash);
      if x.r.Ok? {
        var r := E.ElabStmt(s.body, fs, b, i.st.(calls := x.calls), env);
        if r.Elab? {
          var n := E.ElabStmt(s.step, fs, b, r.st, env);
          if n.Elab? {
            ForEmits(m.nodes, b, i.code, x.r.value, r.code, n.code, start, end, m.next);
          }
        }
      }
    }
  }

  lemma ForLayout(init: F.Stmt, cond: Node, body: F.Stmt, step: F.Stmt, start: Option<nat>, end: Option<nat>, next: nat)
    ensures var ci := F.Emit(init, None, None, next);
            var l := ci.next;
            var cr := F.Emit(body, Some(l), Some(l + 1), l + 2);
            var cn := F.Emit(step, Some(l), Some(l + 1), cr.next);
            F.Emit(F.For(init, cond, body, step), start, end, next) ==
              F.Code(ci.nodes +
                       ([Label(l), BranchFalse(l + 1, cond)] + (cr.nodes + cn.nodes) + [Jump(l), Label(l + 1)]),
                     ci.funcs + (cr.funcs + cn.funcs), cn.next)
  {
  }

  /** The nodes of a for statement, appended one piece at a time. */
  lemma ForEmits(n: seq<seq<Instr>>, b: nat, init: F.Stmt, cond: Node, body: F.Stmt, step: F.Stmt,
                 start: Option<nat>, end: Option<nat>, next: nat)
    requires b < |n|
    ensures var ci := F.Emit(init, None, None, next);
            var l := ci.next;
            var cr := F.Emit(body, Some(l), Some(l + 1), l + 2);
            var cn := F.Emit(step, Some(l), Some(l + 1), cr.next);
            var c := F.Emit(F.For(init, cond, body, step), start, end, next);
            && c.next == cn.next
            && Appended(Appended(Appended(Appended(Appended(Appended(Appended(n, b, ci.nodes, ci.funcs),
                        b, [Label(l)], []), b, [BranchFalse(l + 1, cond)], []), b, cr.nodes, cr.funcs),
                        b, cn.nodes, cn.funcs), b, [Jump(l)], []), b, [Label(l + 1)], [])
            == Appended(n, b, c.nodes, c.funcs)
  {
    hide Appended, F.Emit, F.EmitLoop;
    var ci := F.Emit(init, None, None, next);
    var l := ci.next;
    var cr := F.Emit(body, Some(l), Some(l + 1), l + 2);
    var cn := F.Emit(step, Some(l), Some(l + 1), cr.next);
    ForLayout(init, cond, body, step, start, end, next);
    ForNodes(n, b, ci.nodes, ci.funcs, Label(l), BranchFalse(l + 1, cond), cr.nodes, cr.funcs, cn.nodes,
             cn.funcs, Jump(l), Label(l + 1));
  }

  lemma FuncNodes(n: seq<seq<Instr>>, b: nat, body: seq<Instr>, f: seq<seq<Instr>>)
    requires b < |n|
    ensures Appended(n + [[]], |n|, body, f) == Appended(n, b, [], [body] + f)
  {
    assert [] + body == body && n[b] + [] == n[b];
    assert (n + [[]])[|n| := body] == n + [body];
    assert n[b := n[b]] == n;
    assert n + [body] + f == n + ([body] + f);
  }

  /** How a step of a function declaration ends. */
  datatype Verdict = Fine | Refused | Stopped

  ghost predicate TypesLeft(all: E.Out<seq<Ty>>, rest: E.Out<seq<Ty>>, tys: seq<Ty>) {
    all == match rest.r
           case Ok(r) => E.Out(Ok(tys + r), rest.calls)
           case Null => E.Out(Null, rest.calls)
           case Abort => E.Out(Abort, rest.calls)
  }

  ghost predicate ParamsLeft(all: E.ParamsOut, rest: E.ParamsOut, args: seq<Handle>, inits: seq<Option<Node>>) {
    all == match rest
           case ParamsOk(st, a, n) => E.ParamsOk(st, args + a, inits + n)
           case r => r
  }

  lemma ParamsStart(all: E.ParamsOut)
    ensures ParamsLeft(all, all, [], [])
  {
    if all.ParamsOk? {
      assert [] + all.args == all.args && [] + all.inits == all.inits;
    }
  }

  lemma ParamsEnd(all: E.ParamsOut, params: seq<Param>, tys: seq<Ty>, fs: nat, sc: nat, st: E.State, env: E.Env,
                  args: seq<Handle>, inits: seq<Option<Node>>)
    requires Wf(st.scopes) && sc < |st.scopes| && fs < |st.scopes| && |tys| == |params|
    requires ParamsLeft(all, E.DeclareParams(params, tys, |params|, fs, sc, st, env), args, inits)
    ensures all == E.ParamsOk(st, args, inits)
  {
    assert args + [] == args && inits + [] == inits;
  }

  /** One more parameter: what is left after it. */
  lemma ParamsNext(all: E.ParamsOut, params: seq<Param>, tys: seq<Ty>, i: nat, fs: nat, sc: nat, st: E.State,
                   env: E.Env, args: seq<Handle>, inits: seq<Option<Node>>)
    requires Wf(st.scopes) && sc < |st.scopes| && fs < |st.scopes| && |tys| == |params| && i < |params|
    requires ParamsLeft(all, E.DeclareParams(params, tys, i, fs, sc, st, env), args, inits)
    ensures var h := LocalVar(params[i].name, tys[i], 0, i);
      var st1 := E.Declare(st, fs, h, env);
      var x := if params[i].init.None? then E.Out(Null, st1.calls)
               else E.ElabExpr(params[i].init.value, sc, st1.scopes, st1.calls, env.hash);
      var st2 := st1.(calls := x.calls);
      && (x.r.Abort? ==> all.ParamsAbort?)
      && (params[i].init.Some? && x.r.Null? ==> all == E.ParamsRejected(st2))
      && (x.r.Ok? || (params[i].init.None? && x.r.Null?) ==>
            ParamsLeft(all, E.DeclareParams(params, tys, i + 1, fs, sc, st2, env), args + [h],
                       inits + [if x.r.Ok? then Some(x.r.value) else None]))
  {
    hide E.ElabExpr, E.Declare;
    var h := LocalVar(params[i].name, tys[i], 0, i);
    var st1 := E.Declare(st, fs, h, env);
    var x := if params[i].init.None? then E.Out(Null, st1.calls)
             else E.ElabExpr(params[i].init.value, sc, st1.scopes, st1.calls, env.hash);
    var rest := E.DeclareParams(params, tys, i + 1, fs, sc, st1.(calls := x.calls), env);
    if rest.ParamsOk? {
      var init: Option<Node> := if x.r.Ok? then Some(x.r.value) else None;
      assert args + ([h] + rest.args) == args + [h] + rest.args
        && inits + ([init] + rest.inits) == inits + [init] + rest.inits;
    }
  }

  class IrMgr {
    const env: E.Env
    var scopes: seq<ScopeRec>
    var blocks: seq<E.BlockRec>
    var nodes: seq<seq<Instr>>  // the node list of each block
    var globals: seq<Handle>
    var enums: nat
    var calls: seq<E.CallStub>
    var nextLabel: nat

    ghost function Now(): Snap
      reads this
    {
      Snap(State(), nodes, nextLabel)
    }

    /** Everything but the nodes and the labels. */
    function State(): E.State
      reads this
    {
      E.State(scopes, blocks, globals, enums, calls)
    }

    method NewLabel() returns (l: nat)
      modifies this`nextLabel
      ensures l == old(nextLabel) && nextLabel == l + 1
    {
      l := nextLabel;
      nextLabel := nextLabel + 1;
    }

    method AddNode(b: nat, node: Instr)
      requires b < |nodes|
      modifies this`nodes
      ensures nodes == Appended(old(nodes), b, [node], [])
    {
      nodes := nodes[b := nodes[b] + [node]];
    }

    // ----- statements -----

    /** One pass does what resolving the statement and then laying it out does: the declarations of
        `Elaborate.ElabStmt`, and the nodes and functions of `Emit`, appended to what was there. */
    method ElabStmt(s: Stmt, sc: nat, start: Option<nat>, end: Option<nat>, b: nat) returns (ok: bool)
      requires Able(Now(), sc, b)
      modifies this
      ensures ok ==> Compiles(env, s, sc, b, start, end, old(Now()), Now()) && |nodes| == |blocks|
      ensures !ok ==> Rejects(env, s, sc, b, old(Now()))
      decreases s, 3
    {
      hide Compiles, Rejects, E.ElabStmt, Appended, Wf;
      match s
      case Block(_) => ok := ElabBlock(s, sc, start, end, b);
      case FuncDecl(_, _, _, _) => ok := ElabFunc(s, sc, start, end, b);
      case If(_, _, _) => ok := ElabIf(s, sc, start, end, b);
      case While(_, _) => ok := ElabWhile(s, sc, start, end, b);
      case DoWhile(_, _) => ok := ElabDoWhile(s, sc, start, end, b);
      case For(_, _, _, _) => ok := ElabFor(s, sc, start, end, b);
      case _ => ok := ElabSimple(s, sc, start, end, b);
    }

    method ElabSimple(s: Stmt, sc: nat, start: Option<nat>, end: Option<nat>, b: nat) returns (ok: bool)
      requires !s.Block? && !s.FuncDecl? && !s.If? && !s.While? && !s.DoWhile? && !s.For? && Able(Now(), sc, b)
      modifies this
      ensures ok ==> Compiles(env, s, sc, b, start, end, old(Now()), Now()) && |nodes| == |blocks|
      ensures !ok ==> Rejects(env, s, sc, b, old(Now()))
      decreases s, 1
    {
      hide E.ElabExpr, E.RegConst, E.RegEnum, E.VarDeclaration, E.Assign, E.Step, Wf, Appended;
      AppendedNothing(nodes, b);
      match s
      case Break =>
        ok := true;
        if end.Some? {
          AddNode(b, Jump(end.value));
        }
      case Continue =>
        ok := true;
        if start.Some? {
          AddNode(b, Jump(start.value));
        }
      case ConstDecl(name, ty, e) => ok := RegConst(name, ty, e, sc);
      case EnumDecl(name, consts) => ok := RegEnum(name, consts, sc);
      case VarDecl(_, _, _) => ok := ElabVarDecl(s, sc, start, end, b);
      case Assignment(_, _) => ok := ElabAssign(s, sc, start, end, b);
      case InplaceOp(_, _, _) => ok := ElabAssign(s, sc, start, end, b);
      case Incr(_) => ok := ElabStep(s, sc, start, end, b);
      case Decr(_) => ok := ElabStep(s, sc, start, end, b);
      case ExprStmt(e) =>
        var x := E.ElabExpr(e, sc, scopes, calls, env.hash);
        calls := x.calls;
        ok := !x.r.Abort?;
        if ok {
          AddNode(b, Action(if x.r.Ok? then x.r.value else NullNode));
        }
      case Return(None) =>
        AddNode(b, Instr.Return(None));
        ok := true;
      case Return(Some(e)) =>
        var x := E.ElabExpr(e, sc, scopes, calls, env.hash);
        calls := x.calls;
        ok := !x.r.Abort?;
        if ok {
          AddNode(b, Instr.Return(if x.r.Ok? then Some(x.r.value) else None));
        }
      case NullStmt => ok := true;
    }

    method ElabStep(s: Stmt, sc: nat, start: Option<nat>, end: Option<nat>, b: nat) returns (ok: bool)
      requires (s.Incr? || s.Decr?) && Able(Now(), sc, b)
      modifies this
      ensures ok ==> Compiles(env, s, sc, b, start, end, old(Now()), Now()) && |nodes| == |blocks|
      ensures !ok ==> Rejects(env, s, sc, b, old(Now()))
      decreases s, 0
    {
      hide E.ElabPrimary, Wf, Appended;
      AppendedNothing(nodes, b);
      var p := E.ElabPrimary(s.lhs, sc, scopes, calls, env.hash);
      calls := p.calls;
      ok := !p.r.Abort?;
      if p.r.Ok? {
        AddNode(b, Action(InplaceUniOp(s.Incr?, p.r.value)));
      }
    }

    method ElabAssign(s: Stmt, sc: nat, start: Option<nat>, end: Option<nat>, b: nat) returns (ok: bool)
      requires (s.Assignment? || s.InplaceOp?) && Able(Now(), sc, b)
      modifies this
      ensures ok ==> Compiles(env, s, sc, b, start, end, old(Now()), Now()) && |nodes| == |blocks|
      ensures !ok ==> Rejects(env, s, sc, b, old(Now()))
      decreases s, 0
    {
      hide E.ElabExpr, E.ElabPrimary, Wf, Appended;
      AppendedNothing(nodes, b);
      var x := E.ElabExpr(s.rhs, sc, scopes, calls, env.hash);
      calls := x.calls;
      if !x.r.Ok? {
        return !x.r.Abort?;
      }
      var p := E.ElabPrimary(s.lhs, sc, scopes, calls, env.hash);
      calls := p.calls;
      ok := !p.r.Abort?;
      if p.r.Ok? {
        AddNode(b, Action(if s.Assignment? then Store(p.r.value, x.r.value)
          else InplaceBinOp(s.op, p.r.value, x.r.value)));
      }
    }

    method ElabVarDecl(s: Stmt, sc: nat, start: Option<nat>, end: Option<nat>, b: nat) returns (ok: bool)
      requires s.VarDecl? && Able(Now(), sc, b)
      modifies this
      ensures ok ==> Compiles(env, s, sc, b, start, end, old(Now()), Now()) && |nodes| == |blocks|
      ensures !ok ==> Rejects(env, s, sc, b, old(Now()))
      decreases s, 0
    {
      hide E.NameFree, E.ResolveType, E.ElabExpr, E.DeclareVar, Wf, Appended;
      AppendedNothing(nodes, b);
      if !E.NameFree(State(), sc, s.name, env) {
        return true;
      }
      var ty := E.ResolveType(s.ty, sc, scopes, calls, env.hash);
      calls := ty.calls;
      if !ty.r.Ok? {
        return !ty.r.Abort?;
      }
      var h := DeclareVar(s.name, ty.r.value, sc, b);
      ok := true;
      if s.init.Some? {
        var x := E.ElabExpr(s.init.value, sc, scopes, calls, env.hash);
        calls := x.calls;
        if x.r.Ok? {
          AddNode(b, Action(Store(h, x.r.value)));
        }
        ok := !x.r.Abort?;
      }
    }

    /** A global variable of the module, or the next local of the block. */
    method DeclareVar(name: string, ty: Ty, sc: nat, b: nat) returns (h: Handle)
      requires Able(Now(), sc, b)
      modifies this
      ensures (State(), h) == E.DeclareVar(name, ty, sc, b, old(State()), env)
      ensures nodes == old(nodes) && nextLabel == old(nextLabel) && |blocks| == old(|blocks|)
    {
      hide E.Declare, Wf;
      if scopes[sc].globalScope.None? {
        h := GlobalVar(name, ty, 0, |globals|);
        globals := globals + [h];
      } else {
        h := LocalVar(name, ty, 0, |blocks[b].vars|);
        blocks := blocks[b := blocks[b].(vars := blocks[b].vars + [h])];
      }
      scopes := E.Declare(State(), sc, h, env).scopes;
    }

    method RegConst(name: string, t: TypeExpr, e: Expr, sc: nat) returns (ok: bool)
      requires Wf(scopes) && sc < |scopes|
      modifies this
      ensures ok == E.RegConst(name, t, e, sc, old(State()), env).Ok?
      ensures ok ==> State() == E.RegConst(name, t, e, sc, old(State()), env).value
      ensures nodes == old(nodes) && nextLabel == old(nextLabel)
    {
      hide E.NameFree, E.ResolveType, E.ElabExpr, E.Declare, E.ConstHandle, Typing.IsStatic, Wf;
      if !E.NameFree(State(), sc, name, env) {
        return true;
      }
      var ty := E.ResolveType(t, sc, scopes, calls, env.hash);
      calls := ty.calls;
      if !ty.r.Ok? {
        return !ty.r.Abort?;
      }
      var x := E.ElabExpr(e, sc, scopes, calls, env.hash);
      calls := x.calls;
      if !x.r.Ok? {
        return !x.r.Abort?;
      }
      if !Typing.IsStatic(x.r.value) {
        return true;
      }
      var h := E.ConstHandle(name, x.r.value, env.fp);
      ok := h.Ok?;
      if ok {
        scopes := E.Declare(State(), sc, h.value, env).scopes;
      }
    }

    method RegEnum(name: string, consts: seq<EnumConst>, sc: nat) returns (ok: bool)
      requires Wf(scopes) && sc < |scopes|
      modifies this
      ensures ok == E.RegEnum(name, consts, sc, old(State()), env).Ok?
      ensures ok ==> State() == E.RegEnum(name, consts, sc, old(State()), env).value
      ensures nodes == old(nodes) && nextLabel == old(nextLabel)
    {
      hide E.ElabExpr, E.Declare, E.Open, E.FirstFree, E.NameFree, Typing.IsStatic, Typing.TypeOf, Interp.EvalInt;
      if !E.NameFree(State(), sc, name, env) {
        return true;
      }
      var es := |scopes|;
      ghost var all := E.EnumValues(consts, es, E.Open(State(), sc), [], 0, env);
      scopes := E.Open(State(), sc).scopes;
      var used: seq<int> := [];
      var nextVal := 0;
      for i := 0 to |consts|
        invariant Wf(scopes) && es < |scopes| == es + 1 && nextVal >= 0
        invariant all == E.EnumValues(consts[i..], es, State(), used, nextVal, env)
        invariant nodes == old(nodes) && nextLabel == old(nextLabel)
      {
        var v: int;
        if consts[i].val.Some? {
          var x := E.ElabExpr(consts[i].val.value, es, scopes, calls, env.hash);
          calls := x.calls;
          if !x.r.Ok? {
            return !x.r.Abort?;
          }
          if !Typing.IsStatic(x.r.value) || Typing.TypeOf(x.r.value) != Some(Int) {
            return true;
          }
          var ev := Interp.EvalInt(x.r.value, env.fp);
          if !ev.Val? {
            return false;
          }
          v := ev.v;
          var dup := Check(used, v);
          if dup {
            return true;
          }
          used := used + [v];
        } else {
          v, nextVal := NextFree(used, nextVal);
          used := used + [v];
        }
        scopes := E.Declare(State(), es, IntConst(consts[i].name, v), env).scopes;
        assert consts[i..][1..] == consts[i + 1..];
      }
      var id := enums;
      enums := enums + 1;
      scopes := E.Declare(State(), sc, Handle.NamedType(name, Enum(id), es), env).scopes;
      ok := true;
    }

    method ElabWhile(s: Stmt, sc: nat, start: Option<nat>, end: Option<nat>, b: nat) returns (ok: bool)
      requires s.While? && Able(Now(), sc, b)
      modifies this
      ensures ok ==> Compiles(env, s, sc, b, start, end, old(Now()), Now()) && |nodes| == |blocks|
      ensures !ok ==> Rejects(env, s, sc, b, old(Now()))
      decreases s, 0
    {
      hide E.ElabStmt, E.ElabExpr, F.Emit, Appended, Compiles, Rejects, Wf;
      var start1 := NewLabel();
      AddNode(b, Label(start1));
      var x := E.ElabExpr(s.cond, sc, scopes, calls, env.hash);
      calls := x.calls;
      if !x.r.Ok? {
        WhileCompiles(env, s, sc, b, start, end, old(Now()), Now());
        return false;
      }
      var end1 := NewLabel();
      AddNode(b, BranchFalse(end1, x.r.value));
      ok := ElabStmt(s.body, sc, Some(start1), Some(end1), b);
      WhileCompiles(env, s, sc, b, start, end, old(Now()), Now());
      if ok {
        AddNode(b, Jump(start1));
        AddNode(b, Label(end1));
      }
    }

    method ElabDoWhile(s: Stmt, sc: nat, start: Option<nat>, end: Option<nat>, b: nat) returns (ok: bool)
      requires s.DoWhile? && Able(Now(), sc, b)
      modifies this
      ensures ok ==> Compiles(env, s, sc, b, start, end, old(Now()), Now()) && |nodes| == |blocks|
      ensures !ok ==> Rejects(env, s, sc, b, old(Now()))
      decreases s, 0
    {
      hide E.ElabStmt, E.ElabExpr, F.Emit, Appended, Compiles, Rejects, Wf;
      var start1 := NewLabel();
      var end1 := NewLabel();
      AddNode(b, Label(start1));
      ok := ElabStmt(s.body, sc, Some(start1), Some(end1), b);
      DoWhileCompiles(env, s, sc, b, start, end, old(Now()), Now());
      if ok {
        var x := E.ElabExpr(s.cond, sc, scopes, calls, env.hash);
        calls := x.calls;
        if !x.r.Ok? {
          return false;
        }
        AddNode(b, BranchTrue(start1, x.r.value));
        AddNode(b, Label(end1));
      }
    }

    method ElabIf(s: Stmt, sc: nat, start: Option<nat>, end: Option<nat>, b: nat) returns (ok: bool)
      requires s.If? && Able(Now(), sc, b)
      modifies this
      ensures ok ==> Compiles(env, s, sc, b, start, end, old(Now()), Now()) && |nodes| == |blocks|
      ensures !ok ==> Rejects(env, s, sc, b, old(Now()))
      decreases s, 0
    {
      hide E.ElabStmt, E.ElabExpr, F.Emit, Appended, Compiles, Rejects, Wf;
      var x := E.ElabExpr(s.cond, sc, scopes, calls, env.hash);
      calls := x.calls;
      if !x.r.Ok? || s.els.None? {
        IfCompiles(env, s, sc, b, start, end, old(Now()), Now(), Now());
        return false;
      }
      var label1 := NewLabel();
      var label2 := NewLabel();
      AddNode(b, BranchFalse(label1, x.r.value));
      ok := ElabStmt(s.thn, sc, start, end, b);
      ghost var m2 := Now();
      IfCompiles(env, s, sc, b, start, end, old(Now()), m2, m2);
      if ok {
        AddNode(b, Jump(label2));
        AddNode(b, Label(label1));
        ok := ElabStmt(s.els.value, sc, start, end, b);
        IfCompiles(env, s, sc, b, start, end, old(Now()), m2, Now());
        if ok {
          AddNode(b, Label(label2));
        }
      }
    }

    method ElabFor(s: Stmt, sc: nat, start: Option<nat>, end: Option<nat>, b: nat) returns (ok: bool)
      requires s.For? && Able(Now(), sc, b)
      modifies this
      ensures ok ==> Compiles(env, s, sc, b, start, end, old(Now()), Now()) && |nodes| == |blocks|
      ensures !ok ==> Rejects(env, s, sc, b, old(Now()))
      decreases s, 0
    {
      hide E.ElabStmt, E.ElabExpr, F.Emit, Appended, Compiles, Rejects, Wf, E.Open;
      var fs := |scopes|;
      scopes := E.Open(State(), sc).scopes;
      ForCompiles(env, s, sc, b, start, end, old(Now()), Now(), Now(), Now());
      ok := ElabStmt(s.first, fs, None, None, b);
      ghost var m1 := Now();
      ForCompiles(env, s, sc, b, start, end, old(Now()), m1, m1, m1);
      if !ok {
        return;
      }
      var start1 := NewLabel();
      AddNode(b, Label(start1));
      var end1 := NewLabel();
      var x := E.ElabExpr(s.cond, fs, scopes, calls, env.hash);
      calls := x.calls;
      if !x.r.Ok? {
        return false;
      }
      AddNode(b, BranchFalse(end1, x.r.value));
      ok := ElabStmt(s.body, fs, Some(start1), Some(end1), b);
      ghost var m3 := Now();
      ForCompiles(env, s, sc, b, start, end, old(Now()), m1, m3, m3);
      if ok {
        ok := ElabStmt(s.step, fs, Some(start1), Some(end1), b);
        ForCompiles(env, s, sc, b, start, end, old(Now()), m1, m3, Now());
      }
      if ok {
        AddNode(b, Jump(start1));
        AddNode(b, Label(end1));
      }
    }

    method ElabBlock(s: Stmt, sc: nat, start: Option<nat>, end: Option<nat>, b: nat) returns (ok: bool)
      requires s.Block? && Able(Now(), sc, b)
      modifies this
      ensures ok ==> Compiles(env, s, sc, b, start, end, old(Now()), Now()) && |nodes| == |blocks|
      ensures !ok ==> Rejects(env, s, sc, b, old(Now()))
      decreases s, 0
    {
      var blockScope := |scopes|;
      scopes := E.Open(State(), sc).scopes;
      ok := ElabList(s.stmts, blockScope, start, end, b);
    }

    /** The statements of a list, one after the other in one scope. */
    method ElabList(stmts: seq<Stmt>, sc: nat, start: Option<nat>, end: Option<nat>, b: nat) returns (ok: bool)
      requires Able(Now(), sc, b)
      modifies this
      ensures ok == E.ElabAll(stmts, sc, b, old(State()), env).ElabSeq?
      ensures ok ==>
                var r := E.ElabAll(stmts, sc, b, old(State()), env);
                var c := F.EmitAll(r.codes, start, end, old(nextLabel));
                && Now() == Snap(r.st, Appended(old(nodes), b, c.nodes, c.funcs), c.next)
                && |nodes| == |blocks|
      decreases stmts, 4
    {
      hide Wf, Appended;
      ghost var codes: seq<F.Stmt> := [];
      AppendedNothing(nodes, b);
      for i := 0 to |stmts|
        invariant Able(Now(), sc, b)
        invariant Continues(stmts, i, sc, b, old(State()), State(), codes, env)
        invariant var c := F.EmitAll(codes, start, end, old(nextLabel));
                  nextLabel == c.next && nodes == Appended(old(nodes), b, c.nodes, c.funcs)
      {
        ghost var here := State();
        ghost var c := F.EmitAll(codes, start, end, old(nextLabel));
        ok := ElabStmt(stmts[i], sc, start, end, b);
        ContinuesNext(stmts, i, sc, b, old(State()), here, codes, env);
        if !ok {
          return;
        }
        ghost var code := E.ElabStmt(stmts[i], sc, b, here, env).code;
        EmitAllSnoc(codes, code, start, end, old(nextLabel));
        ghost var d := F.Emit(code, start, end, c.next);
        AppendedTwice(old(nodes), b, c.nodes, c.funcs, d.nodes, d.funcs);
        codes := codes + [code];
      }
      assert codes + [] == codes;
      ok := true;
    }

    /** Elaborate the body of a module whose names are looked up in `toplevel`: the top-level block and
        the function table hold what the resolved program compiles to. */
    method Elaborate(stmts: seq<Stmt>, toplevel: nat) returns (ok: bool)
      requires Wf(scopes) && toplevel < |scopes| && blocks == [E.TopBlock()] && nodes == [[]] && nextLabel == 0
      modifies this
      ensures ok == E.ElabAll(stmts, toplevel, 0, old(State()), env).ElabSeq?
      ensures ok ==>
                var r := E.ElabAll(stmts, toplevel, 0, old(State()), env);
                && State() == r.st && |nodes| == |blocks|
                && nodes == Labels.Blocks(F.Emit(F.Block(r.codes), None, None, 0))
    {
      ok := ElabList(stmts, toplevel, None, None, 0);
      if ok {
        ghost var c := F.EmitAll(E.ElabAll(stmts, toplevel, 0, old(State()), env).codes, None, None, 0);
        var n: seq<seq<Instr>> := [[]];
        assert n[0] + c.nodes == c.nodes && n[0 := c.nodes] == [c.nodes];
      }
    }

    /** A function declaration up to its body; `made` says whether there is a body to elaborate, in
        scope `fs` for block `fb`. */
    method RegFunc(name: string, t: TypeExpr, params: seq<Param>, sc: nat)
      returns (ok: bool, made: bool, fs: nat, fb: nat)
      requires Wf(scopes) && sc < |scopes| && blocks != []
      modifies this
      ensures match E.RegFunc(name, t, params, sc, old(State()), env)
              case HeaderAbort => !ok
              case NoFunction(st) => ok && !made && State() == st
              case Header(st, f, b) => ok && made && State() == st && fs == f && fb == b
      ensures nextLabel == old(nextLabel) && nodes == old(nodes) + if ok && made then [[]] else []
    {
      hide E.ParamTypes, E.DeclareParams, E.ResolveType, E.Declare, E.Open, E.GlobalOf, E.NameFree;
      made, fs, fb := false, |scopes|, 0;
      assert nodes + [] == nodes;
      if !E.NameFree(State(), sc, name, env) {
        return true, false, fs, fb;
      }
      scopes := E.Open(State(), E.GlobalOf(State(), sc)).scopes;
      var out := E.ResolveType(t, sc, scopes, calls, env.hash);
      calls := out.calls;
      if !out.r.Ok? {
        return !out.r.Abort?, false, fs, fb;
      }
      var good, tys := ResolveParams(params, fs, sc);
      if good != Fine {
        return good == Refused, false, fs, fb;
      }
      var args, inits;
      good, args, inits := DeclareParams(params, tys, fs, sc);
      if good != Fine {
        return good == Refused, false, fs, fb;
      }
      var h := Function(name, Func(out.r.value, tys), 0, |blocks| - 1);
      scopes := E.Declare(State(), sc, h, env).scopes;
      fb := |blocks|;
      blocks := blocks + [E.BlockRec([], Some(h), args, inits)];
      nodes := nodes + [[]];
      return true, true, fs, fb;
    }

    method ResolveParams(params: seq<Param>, fs: nat, sc: nat) returns (v: Verdict, tys: seq<Ty>)
      requires Wf(scopes) && sc < |scopes| && fs < |scopes|
      modifies this`calls
      ensures var all := E.ParamTypes(params, fs, sc, old(State()), env);
              match all.r
              case Ok(ts) => v == Fine && tys == ts && calls == all.calls
              case Null => v == Refused && calls == all.calls
              case Abort => v == Stopped
    {
      hide E.ResolveType, E.NameFree;
      ghost var all := E.ParamTypes(params, fs, sc, State(), env);
      tys := [];
      assert params[0..] == params;
      assert forall r: seq<Ty> :: [] + r == r;
      for i := 0 to |params|
        invariant TypesLeft(all, E.ParamTypes(params[i..], fs, sc, State(), env), tys)
      {
        assert params[i..][0] == params[i] && params[i..][1..] == params[i + 1..];
        if !E.NameFree(State(), fs, params[i].name, env) {
          return Refused, tys;
        }
        var t := E.ResolveType(params[i].ty, sc, scopes, calls, env.hash);
        calls := t.calls;
        if !t.r.Ok? {
          return if t.r.Abort? then Stopped else Refused, tys;
        }
        ghost var rest := E.ParamTypes(params[i + 1..], fs, sc, State(), env);
        assert rest.r.Ok? ==> tys + ([t.r.value] + rest.r.value) == tys + [t.r.value] + rest.r.value;
        tys := tys + [t.r.value];
      }
      return Fine, tys;
    }

    method DeclareParams(params: seq<Param>, tys: seq<Ty>, fs: nat, sc: nat)
      returns (v: Verdict, args: seq<Handle>, inits: seq<Option<Node>>)
      requires Wf(scopes) && sc < |scopes| && fs < |scopes| && |tys| == |params|
      modifies this`calls, this`scopes
      ensures match E.DeclareParams(params, tys, 0, fs, sc, old(State()), env)
              case ParamsOk(st, a, n) => v == Fine && State() == st && args == a && inits == n
              case ParamsRejected(st) => v == Refused && State() == st
              case ParamsAbort => v == Stopped
    {
      hide E.ElabExpr, E.Declare, E.DeclareParams, ParamsLeft;
      ghost var all := E.DeclareParams(params, tys, 0, fs, sc, State(), env);
      args, inits := [], [];
      ParamsStart(all);
      for i := 0 to |params|
        invariant Wf(scopes) && |scopes| == |old(scopes)|
        invariant ParamsLeft(all, E.DeclareParams(params, tys, i, fs, sc, State(), env), args, inits)
      {
        ParamsNext(all, params, tys, i, fs, sc, State(), env, args, inits);
        var h := LocalVar(params[i].name, tys[i], 0, i);
        scopes := E.Declare(State(), fs, h, env).scopes;
        var init: Option<Node> := None;
        if params[i].init.Some? {
          var x := E.ElabExpr(params[i].init.value, sc, scopes, calls, env.hash);
          calls := x.calls;
          if !x.r.Ok? {
            return if x.r.Abort? then Stopped else Refused, args, inits;
          }
          init := Some(x.r.value);
        }
        args, inits := args + [h], inits + [init];
      }
      ParamsEnd(all, params, tys, fs, sc, State(), env, args, inits);
      return Fine, args, inits;
    }

    method ElabFunc(s: Stmt, sc: nat, start: Option<nat>, end: Option<nat>, b: nat) returns (ok: bool)
      requires s.FuncDecl? && Able(Now(), sc, b)
      modifies this
      ensures ok ==> Compiles(env, s, sc, b, start, end, old(Now()), Now()) && |nodes| == |blocks|
      ensures !ok ==> Rejects(env, s, sc, b, old(Now()))
      decreases s, 0
    {
      hide E.RegFunc;
      AppendedNothing(nodes, b);
      var made, fs, fb;
      ok, made, fs, fb := RegFunc(s.name, s.ty, s.params, sc);
      if ok && made {
        ghost var st := State();
        ok := ElabStmt(s.body, fs, None, None, fb);
        if ok {
          ghost var body := F.Emit(E.ElabStmt(s.body, fs, fb, st, env).code, None, None, old(nextLabel));
          FuncNodes(old(nodes), b, body.nodes, body.funcs);
        }
      }
    }
  }
}
