/** Compiling structured control flow to a node list preserves meaning, in both directions and for
    every block of a program. */
module Preservation {
  import opened Common
  import opened Ir
  import opened Flatten
  import opened Semantics
  import Labels

  // ----- what a statement does, and what a block does -----

  /** Structured execution ends with `out` in store `st'`. */
  ghost predicate Finishes<S(!new), V(!new)>(sem: Sem<S, V>, s: Stmt, st: S, out: Outcome<V>, st': S) {
    exists fuel: nat :: Exec(sem, s, false, false, st, fuel) == Done(out, st')
  }

  /** Structured execution reaches a node that has no meaning in its store. */
  ghost predicate Fails<S(!new), V(!new)>(sem: Sem<S, V>, s: Stmt, st: S) {
    exists fuel: nat :: Exec(sem, s, false, false, st, fuel) == Stuck
  }

  ghost predicate Diverges<S(!new), V(!new)>(sem: Sem<S, V>, s: Stmt, st: S) {
    forall fuel: nat :: Exec(sem, s, false, false, st, fuel) == Timeout
  }

  ghost predicate Terminal<S, V>(code: seq<Instr>, c: Config<S, V>) {
    c.At? ==> c.pc >= |code|
  }

  /** Running the block from its first node ends in `c`. */
  ghost predicate RunsTo<S(!new), V(!new)>(sem: Sem<S, V>, code: seq<Instr>, st: S, c: Config<S, V>) {
    Terminal(code, c) && exists n: nat :: Run(sem, code, At(0, st), n) == c
  }

  ghost predicate RunsForever<S(!new), V(!new)>(sem: Sem<S, V>, code: seq<Instr>, st: S) {
    forall n: nat :: !Terminal(code, Run(sem, code, At(0, st), n))
  }

  // ----- the two agree -----

  lemma {:induction false} TerminalStays<S, V>(sem: Sem<S, V>, code: seq<Instr>, c: Config<S, V>, n: nat)
    requires Terminal(code, c)
    ensures Run(sem, code, c, n) == c
    decreases n
  {
    if n > 0 {
      TerminalStays(sem, code, c, n - 1);
    }
  }

  lemma TerminalIsUnique<S, V>(sem: Sem<S, V>, code: seq<Instr>, st: S, m: nat, n: nat)
    requires m <= n && Terminal(code, Run(sem, code, At(0, st), m))
    ensures Run(sem, code, At(0, st), n) == Run(sem, code, At(0, st), m)
  {
    RunAppend(sem, code, At(0, st), m, n - m);
    TerminalStays(sem, code, Run(sem, code, At(0, st), m), n - m);
  }

  /** Where a block stops, given the result of structured execution. */
  ghost function Final<S, V>(code: seq<Instr>, r: Result<S, V>): Config<S, V>
    requires !r.Timeout?
  {
    match r
    case Done(Returned(v), st) => Halted(v, st)
    case Done(_, st) => At(|code|, st)
    case Stuck => Fault
  }

  /** For a given fuel, the block ends as the statement does, or runs on for that many steps. */
  lemma BlockFollows<S(!new), V(!new)>(sem: Sem<S, V>, s: Stmt, next: nat, st: S, fuel: nat) returns (n: nat)
    ensures var code := Emit(s, None, None, next).nodes;
            var r := Exec(sem, s, false, false, st, fuel);
            if r.Timeout? then n >= fuel && !Terminal(code, Run(sem, code, At(0, st), n))
            else (r.Done? ==> r.out.Normal? || r.out.Returned?)
                 && Run(sem, code, At(0, st), n) == Final(code, r) && Terminal(code, Final(code, r))
  {
    var code := Emit(s, None, None, next).nodes;
    Labels.EmitTidy(s, None, None, next);
    assert UniqueLabels(code);
    assert Fits(code, 0, code);
    Simulate(sem, code, 0, s, None, None, next, st, fuel);
    var r := Exec(sem, s, false, false, st, fuel);
    var rg := Region(0, |code|, None, None);
    assert Leaves(sem, code, rg, 0, st, fuel, r);
    n :| Matches(code, rg, fuel, r, n, Run(sem, code, At(0, st), n));
  }

  /** A block ends exactly as the statement it was compiled from: with the same store and return
      value, or at a node without meaning, or never. */
  lemma CompilationPreservesMeaning<S(!new), V(!new)>(sem: Sem<S, V>, s: Stmt, next: nat, st: S)
    ensures var code := Emit(s, None, None, next).nodes;
            && (forall st' :: Finishes(sem, s, st, Normal, st') <==> RunsTo(sem, code, st, At(|code|, st')))
            && (forall v, st' :: Finishes(sem, s, st, Returned(v), st') <==> RunsTo(sem, code, st, Halted(v, st')))
            && (Fails(sem, s, st) <==> RunsTo(sem, code, st, Fault))
            && (Diverges(sem, s, st) <==> RunsForever(sem, code, st))
  {
    hide Exec, Run, Emit;
    var code := Emit(s, None, None, next).nodes;
    forall fuel: nat | !Exec(sem, s, false, false, st, fuel).Timeout?
      ensures RunsTo(sem, code, st, Final(code, Exec(sem, s, false, false, st, fuel)))
    {
      var n := BlockFollows(sem, s, next, st, fuel);
    }
    forall c | RunsTo(sem, code, st, c)
      ensures exists fuel: nat ::
        var r := Exec(sem, s, false, false, st, fuel);
        !r.Timeout? && (r.Done? ==> r.out.Normal? || r.out.Returned?) && Final(code, r) == c
    {
      var n: nat :| Run(sem, code, At(0, st), n) == c;
      var m := BlockFollows(sem, s, next, st, n + 1);
      TerminalIsUnique(sem, code, st, n, if m < n then n else m);
      if m < n { TerminalIsUnique(sem, code, st, m, n); }
    }
    if RunsForever(sem, code, st) {
      forall fuel: nat ensures Exec(sem, s, false, false, st, fuel) == Timeout {
        var n := BlockFollows(sem, s, next, st, fuel);
      }
    } else {
      var n: nat :| Terminal(code, Run(sem, code, At(0, st), n));
      assert RunsTo(sem, code, st, Run(sem, code, At(0, st), n));
    }
  }

  // ----- every block of a program -----

  /** The bodies of the functions declared in `s`, in the order of the function table. */
  function Bodies(s: Stmt): (bodies: seq<Stmt>)
    decreases s, 0
  {
    match s
    case Block(stmts) => AllBodies(stmts)
    case If(_, thn, els) => Bodies(thn) + Bodies(els)
    case While(_, body) => Bodies(body)
    case DoWhile(body, _) => Bodies(body)
    case For(init, _, body, step) => Bodies(init) + (Bodies(body) + Bodies(step))
    case FuncDecl(body) => [body] + Bodies(body)
    case _ => []
  }

  function AllBodies(stmts: seq<Stmt>): (bodies: seq<Stmt>)
    decreases stmts, 0
  {
    if stmts == [] then [] else Bodies(stmts[0]) + AllBodies(stmts[1..])
  }

  /** The block is what the body compiles to outside any loop. */
  ghost predicate IsBlockOf(code: seq<Instr>, body: Stmt) {
    exists next: nat :: code == Emit(body, None, None, next).nodes
  }

  ghost predicate Compiled(bodies: seq<Stmt>, funcs: seq<seq<Instr>>) {
    && |funcs| == |bodies|
    && forall i :: 0 <= i < |funcs| ==> IsBlockOf(funcs[i], bodies[i])
  }

  lemma {:induction false} FunctionsCompiled(s: Stmt, start: Option<nat>, end: Option<nat>, next: nat)
    ensures Compiled(Bodies(s), Emit(s, start, end, next).funcs)
    decreases s, 1
  {
    match s
    case Block(stmts) => AllCompiled(stmts, start, end, next);
    case If(_, thn, els) =>
      FunctionsCompiled(thn, start, end, next + 2);
      FunctionsCompiled(els, start, end, Emit(thn, start, end, next + 2).next);
    case While(_, _) => LoopCompiled(s, next);
    case DoWhile(_, _) => LoopCompiled(s, next);
    case For(init, _, _, _) =>
      FunctionsCompiled(init, None, None, next);
      LoopCompiled(s, Emit(init, None, None, next).next);
    case FuncDecl(body) =>
      FunctionsCompiled(body, None, None, next);
      assert IsBlockOf(Emit(body, None, None, next).nodes, body);
    case _ =>
  }

  lemma {:induction false} AllCompiled(stmts: seq<Stmt>, start: Option<nat>, end: Option<nat>, next: nat)
    ensures Compiled(AllBodies(stmts), EmitAll(stmts, start, end, next).funcs)
    decreases stmts, 0
  {
    if stmts != [] {
      FunctionsCompiled(stmts[0], start, end, next);
      AllCompiled(stmts[1..], start, end, Emit(stmts[0], start, end, next).next);
    }
  }

  lemma {:induction false} LoopCompiled(s: Stmt, next: nat)
    requires IsLoop(s)
    ensures Compiled(if s.For? then Bodies(s.body) + Bodies(s.next) else Bodies(s.body), EmitLoop(s, next).funcs)
    decreases s, 0
  {
    FunctionsCompiled(s.body, Some(next), Some(next + 1), next + 2);
    if s.For? {
      FunctionsCompiled(s.next, Some(next), Some(next + 1), Emit(s.body, Some(next), Some(next + 1), next + 2).next);
    }
  }

  /** The top level and every function, however deeply declared, keep their meaning. */
  lemma ProgramPreservesMeaning<S(!new), V(!new)>(sem: Sem<S, V>, s: Stmt, next: nat, b: nat, st: S)
    requires b < |Labels.Blocks(Emit(s, None, None, next))|
    ensures |Bodies(s)| + 1 == |Labels.Blocks(Emit(s, None, None, next))|
    ensures var code := Labels.Blocks(Emit(s, None, None, next))[b];
            var body := ([s] + Bodies(s))[b];
            && (forall st' :: Finishes(sem, body, st, Normal, st') <==> RunsTo(sem, code, st, At(|code|, st')))
            && (forall v, st' :: Finishes(sem, body, st, Returned(v), st') <==> RunsTo(sem, code, st, Halted(v, st')))
            && (Fails(sem, body, st) <==> RunsTo(sem, code, st, Fault))
            && (Diverges(sem, body, st) <==> RunsForever(sem, code, st))
  {
    hide Exec, Run, Emit, Finishes, Fails, Diverges, RunsTo, RunsForever, Bodies;
    FunctionsCompiled(s, None, None, next);
    if b == 0 {
      CompilationPreservesMeaning(sem, s, next, st);
    } else {
      var body := Bodies(s)[b - 1];
      assert IsBlockOf(Emit(s, None, None, next).funcs[b - 1], body);
      var n: nat :| Emit(s, None, None, next).funcs[b - 1] == Emit(body, None, None, n).nodes;
      CompilationPreservesMeaning(sem, body, n, st);
    }
  }
}
