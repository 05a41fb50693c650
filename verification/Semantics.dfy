/** Structured execution of a statement, execution of a node list by a program counter, and the
    proof that the node list the elaborator emits does exactly what the statement does. */
module Semantics {
  import opened Common
  import opened Ir
  import opened Flatten

  /** The meaning of nodes over an arbitrary store: partial, and free to change the store. */
  datatype Sem<!S, !V> = Sem(
    test: (Node, S) -> Option<(bool, S)>,
    value: (Node, S) -> Option<(V, S)>,
    act: (Node, S) -> Option<S>)

  datatype Outcome<+V> = Normal | Broke | Continued | Returned(val: Option<V>)

  datatype Result<+S, +V> = Done(out: Outcome<V>, st: S) | Timeout | Stuck

  // ----- structured execution -----

  /** Execute `s` with at most `fuel` entries into each loop. `br`/`co` say whether the statement
      is inside a loop; outside one, break and continue do nothing. `continue` re-enters the loop
      at its start: it skips the test of a do-while and the step of a for. */
  ghost function Exec<S, V>(sem: Sem<S, V>, s: Stmt, br: bool, co: bool, st: S, fuel: nat): Result<S, V>
    decreases fuel, s, 2
  {
    match s
    case Skip => Done(Normal, st)
    case Do(node) => (match sem.act(node, st) case None => Stuck case Some(st') => Done(Normal, st'))
    case Block(stmts) => ExecAll(sem, stmts, br, co, st, fuel)
    case Break => Done(if br then Broke else Normal, st)
    case Continue => Done(if co then Continued else Normal, st)
    case Ret(None) => Done(Returned(None), st)
    case Ret(Some(node)) =>
      (match sem.value(node, st) case None => Stuck case Some((v, st')) => Done(Returned(Some(v)), st'))
    case If(cond, thn, els) =>
      (match sem.test(cond, st)
       case None => Stuck
       case Some((b, st')) => Exec(sem, if b then thn else els, br, co, st', fuel))
    case While(_, _) => Loop(sem, s, st, fuel)
    case DoWhile(_, _) => Loop(sem, s, st, fuel)
    case For(init, _, _, _) =>
      (match Exec(sem, init, false, false, st, fuel)
       case Done(Normal, st') => Loop(sem, s, st', fuel)
       case r => r)
    case FuncDecl(_) => Done(Normal, st)
  }

  ghost function ExecAll<S, V>(sem: Sem<S, V>, stmts: seq<Stmt>, br: bool, co: bool, st: S, fuel: nat): Result<S, V>
    decreases fuel, stmts, 0
  {
    if stmts == [] then Done(Normal, st) else
      match Exec(sem, stmts[0], br, co, st, fuel)
      case Done(Normal, st') => ExecAll(sem, stmts[1..], br, co, st', fuel)
      case r => r
  }

  /** One pass of a loop from its start label, then the rest of the loop. */
  ghost function Loop<S, V>(sem: Sem<S, V>, s: Stmt, st: S, fuel: nat): Result<S, V>
    requires IsLoop(s)
    decreases fuel, s, 1
  {
    if fuel == 0 then Timeout else
      match s
      case DoWhile(body, cond) =>
        (match Exec(sem, body, true, true, st, fuel)
         case Done(Normal, st1) =>
           (match sem.test(cond, st1)
            case None => Stuck
            case Some((b, st2)) => if b then Loop(sem, s, st2, fuel - 1) else Done(Normal, st2))
         case Done(Broke, st1) => Done(Normal, st1)
         case Done(Continued, st1) => Loop(sem, s, st1, fuel - 1)
         case r => r)
      case While(cond, body) =>
        (match sem.test(cond, st)
         case None => Stuck
         case Some((b, st1)) =>
           if !b then Done(Normal, st1) else
             match Exec(sem, body, true, true, st1, fuel)
             case Done(Normal, st2) => Loop(sem, s, st2, fuel - 1)
             case Done(Broke, st2) => Done(Normal, st2)
             case Done(Continued, st2) => Loop(sem, s, st2, fuel - 1)
             case r => r)
      case For(_, cond, _, _) =>
        (match sem.test(cond, st)
         case None => Stuck
         case Some((b, st1)) =>
           if !b then Done(Normal, st1) else
             match BodyStep(sem, s, st1, fuel)
             case Done(Normal, st2) => Loop(sem, s, st2, fuel - 1)
             case Done(Broke, st2) => Done(Normal, st2)
             case Done(Continued, st2) => Loop(sem, s, st2, fuel - 1)
             case r => r)
  }

  /** The body of a for loop and, unless it jumped away, the step. */
  ghost function BodyStep<S, V>(sem: Sem<S, V>, s: Stmt, st: S, fuel: nat): Result<S, V>
    requires s.For?
    decreases fuel, s, 0
  {
    match Exec(sem, s.body, true, true, st, fuel)
    case Done(Normal, st') => Exec(sem, s.next, true, true, st', fuel)
    case r => r
  }

  // ----- execution by program counter -----

  datatype Config<+S, +V> = At(pc: nat, st: S) | Halted(val: Option<V>, st: S) | Fault

  ghost predicate LabelAt(code: seq<Instr>, l: nat, p: nat) {
    p < |code| && code[p] == Label(l)
  }

  /** Where a jump to `l` goes: the position of the label in the same node list. */
  ghost function Target<S, V>(code: seq<Instr>, l: nat, st: S): Config<S, V> {
    if exists p: nat :: LabelAt(code, l, p) then
      var p: nat :| LabelAt(code, l, p);
      At(p, st)
    else Fault
  }

  ghost function Step<S, V>(sem: Sem<S, V>, code: seq<Instr>, c: Config<S, V>): Config<S, V> {
    if !c.At? || c.pc >= |code| then c else
      match code[c.pc]
      case Label(_) => At(c.pc + 1, c.st)
      case Jump(l) => Target(code, l, c.st)
      case BranchTrue(l, cond) =>
        (match sem.test(cond, c.st)
         case None => Fault
         case Some((b, st')) => if b then Target(code, l, st') else At(c.pc + 1, st'))
      case BranchFalse(l, cond) =>
        (match sem.test(cond, c.st)
         case None => Fault
         case Some((b, st')) => if b then At(c.pc + 1, st') else Target(code, l, st'))
      case Return(None) => Halted(None, c.st)
      case Return(Some(node)) =>
        (match sem.value(node, c.st) case None => Fault case Some((v, st')) => Halted(Some(v), st'))
      case Action(node) =>
        (match sem.act(node, c.st) case None => Fault case Some(st') => At(c.pc + 1, st'))
  }

  ghost function Run<S, V>(sem: Sem<S, V>, code: seq<Instr>, c: Config<S, V>, n: nat): Config<S, V>
    decreases n
  {
    if n == 0 then c else Run(sem, code, Step(sem, code, c), n - 1)
  }

  lemma {:induction false} RunAppend<S, V>(sem: Sem<S, V>, code: seq<Instr>, c: Config<S, V>, m: nat, n: nat)
    ensures Run(sem, code, c, m + n) == Run(sem, code, Run(sem, code, c, m), n)
    decreases m
  {
    if m > 0 {
      RunAppend(sem, code, Step(sem, code, c), m - 1, n);
    }
  }

  // ----- simulation -----

  /** `nodes` is the stretch of `code` that begins at `lo`. */
  ghost predicate Fits(code: seq<Instr>, lo: nat, nodes: seq<Instr>) {
    lo + |nodes| <= |code| && code[lo..lo + |nodes|] == nodes
  }

  lemma FitsSplit(code: seq<Instr>, lo: nat, a: seq<Instr>, b: seq<Instr>)
    requires Fits(code, lo, a + b)
    ensures Fits(code, lo, a) && Fits(code, lo + |a|, b)
  {
    assert code[lo..lo + |a|] == code[lo..lo + |a + b|][..|a|] == a;
    assert code[lo + |a|..lo + |a| + |b|] == code[lo..lo + |a + b|][|a|..] == b;
  }

  ghost predicate UniqueLabels(code: seq<Instr>) {
    forall l: nat, p: nat, q: nat :: LabelAt(code, l, p) && LabelAt(code, l, q) ==> p == q
  }

  /** A loop label handed down by an enclosing loop is somewhere in the list. */
  ghost predicate Placed(code: seq<Instr>, l: Option<nat>) {
    l.Some? ==> exists p: nat :: LabelAt(code, l.value, p)
  }

  /** A stretch `lo..hi` of a node list and the labels break and continue go to inside it. */
  datatype Region = Region(lo: nat, hi: nat, start: Option<nat>, end: Option<nat>)

  /** Configuration `c`, reached in `n` steps, is where result `r` leaves the region. A statement
      that is still running after `fuel` loop entries has taken that many steps inside it. */
  ghost predicate Matches<S, V>(code: seq<Instr>, rg: Region, fuel: nat, r: Result<S, V>, n: nat, c: Config<S, V>) {
    match r
    case Done(Normal, st) => c == At(rg.hi, st)
    case Done(Broke, st) => rg.end.Some? && c.At? && c.st == st && LabelAt(code, rg.end.value, c.pc)
    case Done(Continued, st) => rg.start.Some? && c.At? && c.st == st && LabelAt(code, rg.start.value, c.pc)
    case Done(Returned(v), st) => c == Halted(v, st)
    case Stuck => c.Fault?
    case Timeout => n >= fuel && c.At? && rg.lo <= c.pc < rg.hi
  }

  /** Running from `pc` leaves the region as `r` says. */
  ghost predicate Leaves<S, V>(sem: Sem<S, V>, code: seq<Instr>, rg: Region, pc: nat, st: S, fuel: nat,
                               r: Result<S, V>) {
    exists n: nat :: Matches(code, rg, fuel, r, n, Run(sem, code, At(pc, st), n))
  }

  lemma LeavesNow<S, V>(sem: Sem<S, V>, code: seq<Instr>, rg: Region, pc: nat, st: S, fuel: nat, r: Result<S, V>)
    requires Matches(code, rg, fuel, r, 0, At(pc, st))
    ensures Leaves(sem, code, rg, pc, st, fuel, r)
  {
    assert Matches(code, rg, fuel, r, 0, Run(sem, code, At(pc, st), 0));
  }

  lemma LeavesNext<S, V>(sem: Sem<S, V>, code: seq<Instr>, rg: Region, pc: nat, st: S, fuel: nat, r: Result<S, V>)
    requires Matches(code, rg, fuel, r, 1, Step(sem, code, At(pc, st)))
    ensures Leaves(sem, code, rg, pc, st, fuel, r)
  {
    assert Run(sem, code, At(pc, st), 1) == Run(sem, code, Step(sem, code, At(pc, st)), 0);
    assert Matches(code, rg, fuel, r, 1, Run(sem, code, At(pc, st), 1));
  }

  lemma StepThen<S, V>(sem: Sem<S, V>, code: seq<Instr>, rg: Region, pc: nat, st: S, pc': nat, st': S,
                       fuel: nat, fuel': nat, r: Result<S, V>)
    requires Step(sem, code, At(pc, st)) == At(pc', st')
    requires Leaves(sem, code, rg, pc', st', fuel', r) && fuel <= fuel' + 1
    ensures Leaves(sem, code, rg, pc, st, fuel, r)
  {
    var n: nat :| Matches(code, rg, fuel', r, n, Run(sem, code, At(pc', st'), n));
    assert Run(sem, code, At(pc, st), n + 1) == Run(sem, code, At(pc', st'), n);
    assert Matches(code, rg, fuel, r, n + 1, Run(sem, code, At(pc, st), n + 1));
  }

  /** What happens in `outer` once `inner` is left with `r`. */
  ghost predicate Resumes<S, V>(sem: Sem<S, V>, code: seq<Instr>, inner: Region, outer: Region, fuel: nat,
                                r: Result<S, V>, r': Result<S, V>)
  {
    match r
    case Done(Normal, st) => Leaves(sem, code, outer, inner.hi, st, fuel, r')
    case Done(Broke, st) =>
      inner.end.Some? ==> forall p: nat :: LabelAt(code, inner.end.value, p) ==>
        Leaves(sem, code, outer, p, st, fuel, r')
    case Done(Continued, st) =>
      inner.start.Some? ==> forall p: nat :: LabelAt(code, inner.start.value, p) ==>
        Leaves(sem, code, outer, p, st, fuel, r')
    case _ => r' == r
  }

  lemma Then<S, V>(sem: Sem<S, V>, code: seq<Instr>, inner: Region, outer: Region, pc: nat, st: S,
                   fuel: nat, fuel': nat, r: Result<S, V>, r': Result<S, V>)
    requires outer.lo <= inner.lo && inner.hi <= outer.hi && fuel <= fuel'
    requires Leaves(sem, code, inner, pc, st, fuel', r)
    requires Resumes(sem, code, inner, outer, fuel, r, r')
    ensures Leaves(sem, code, outer, pc, st, fuel, r')
  {
    var m: nat :| Matches(code, inner, fuel', r, m, Run(sem, code, At(pc, st), m));
    var c := Run(sem, code, At(pc, st), m);
    if r.Done? && !r.out.Returned? {
      assert Leaves(sem, code, outer, c.pc, c.st, fuel, r');
      var n: nat :| Matches(code, outer, fuel, r', n, Run(sem, code, c, n));
      RunAppend(sem, code, At(pc, st), m, n);
      assert Matches(code, outer, fuel, r', m + n, Run(sem, code, At(pc, st), m + n));
    } else {
      assert Matches(code, outer, fuel, r', m, c);
    }
  }

  lemma TargetIs<S, V>(code: seq<Instr>, l: nat, p: nat, st: S)
    requires UniqueLabels(code) && LabelAt(code, l, p)
    ensures Target<S, V>(code, l, st) == At(p, st)
  {
  }

  /** What a part of a statement does in its own stretch it does in the whole one, when the rest
      of the statement takes over after normal completion. */
  lemma ThenRest<S, V>(sem: Sem<S, V>, code: seq<Instr>, inner: Region, outer: Region, pc: nat, st: S,
                       fuel: nat, r: Result<S, V>, r': Result<S, V>)
    requires UniqueLabels(code)
    requires outer.lo <= inner.lo && inner.hi <= outer.hi && inner.start == outer.start && inner.end == outer.end
    requires Leaves(sem, code, inner, pc, st, fuel, r)
    requires if r.Done? && r.out.Normal? then Leaves(sem, code, outer, inner.hi, r.st, fuel, r') else r' == r
    ensures Leaves(sem, code, outer, pc, st, fuel, r')
  {
    if r.Done? && r.out.Broke? {
      forall p: nat | inner.end.Some? && LabelAt(code, inner.end.value, p)
        ensures Leaves(sem, code, outer, p, r.st, fuel, r')
      {
        LeavesNow(sem, code, outer, p, r.st, fuel, r');
      }
    }
    if r.Done? && r.out.Continued? {
      forall p: nat | inner.start.Some? && LabelAt(code, inner.start.value, p)
        ensures Leaves(sem, code, outer, p, r.st, fuel, r')
      {
        LeavesNow(sem, code, outer, p, r.st, fuel, r');
      }
    }
    Then(sem, code, inner, outer, pc, st, fuel, fuel, r, r');
  }

  // ----- every statement -----

  lemma {:induction false} Simulate<S, V>(sem: Sem<S, V>, code: seq<Instr>, lo: nat, s: Stmt,
                                          start: Option<nat>, end: Option<nat>, next: nat, st: S, fuel: nat)
    requires UniqueLabels(code) && Placed(code, start) && Placed(code, end)
    requires Fits(code, lo, Emit(s, start, end, next).nodes)
    ensures Leaves(sem, code, Region(lo, lo + |Emit(s, start, end, next).nodes|, start, end), lo, st, fuel,
                   Exec(sem, s, end.Some?, start.Some?, st, fuel))
    decreases fuel, s, 1
  {
    match s
    case Block(stmts) => SimulateAll(sem, code, lo, stmts, start, end, next, st, fuel);
    case If(_, _, _) => SimulateIf(sem, code, lo, s, start, end, next, st, fuel);
    case While(_, _) => SimulateFrom(sem, code, lo, lo, s, start, end, next, st, fuel);
    case DoWhile(_, _) => SimulateFrom(sem, code, lo, lo, s, start, end, next, st, fuel);
    case For(init, _, _, _) => SimulateFor(sem, code, lo, s, start, end, next, st, fuel);
    case _ => SimulateSimple(sem, code, lo, s, start, end, next, st, fuel);
  }

  lemma SimulateSimple<S, V>(sem: Sem<S, V>, code: seq<Instr>, lo: nat, s: Stmt,
                             start: Option<nat>, end: Option<nat>, next: nat, st: S, fuel: nat)
    requires !s.Block? && !s.If? && !IsLoop(s)
    requires UniqueLabels(code) && Placed(code, start) && Placed(code, end)
    requires Fits(code, lo, Emit(s, start, end, next).nodes)
    ensures Leaves(sem, code, Region(lo, lo + |Emit(s, start, end, next).nodes|, start, end), lo, st, fuel,
                   Exec(sem, s, end.Some?, start.Some?, st, fuel))
  {
    var nodes := Emit(s, start, end, next).nodes;
    var rg := Region(lo, lo + |nodes|, start, end);
    var r := Exec(sem, s, end.Some?, start.Some?, st, fuel);
    if nodes == [] {
      LeavesNow(sem, code, rg, lo, st, fuel, r);
    } else {
      assert code[lo] == nodes[0];
      LeavesNext(sem, code, rg, lo, st, fuel, r);
    }
  }

  lemma {:induction false} SimulateAll<S, V>(sem: Sem<S, V>, code: seq<Instr>, lo: nat, stmts: seq<Stmt>,
                                             start: Option<nat>, end: Option<nat>, next: nat, st: S, fuel: nat)
    requires UniqueLabels(code) && Placed(code, start) && Placed(code, end)
    requires Fits(code, lo, EmitAll(stmts, start, end, next).nodes)
    ensures Leaves(sem, code, Region(lo, lo + |EmitAll(stmts, start, end, next).nodes|, start, end), lo, st, fuel,
                   ExecAll(sem, stmts, end.Some?, start.Some?, st, fuel))
    decreases fuel, stmts, 0
  {
    hide Fits, Leaves, UniqueLabels, Placed;
    var rg := Region(lo, lo + |EmitAll(stmts, start, end, next).nodes|, start, end);
    var r' := ExecAll(sem, stmts, end.Some?, start.Some?, st, fuel);
    if stmts == [] {
      LeavesNow(sem, code, rg, lo, st, fuel, r');
    } else {
      var first := Emit(stmts[0], start, end, next);
      var rest := EmitAll(stmts[1..], start, end, first.next);
      FitsSplit(code, lo, first.nodes, rest.nodes);
      var mid := lo + |first.nodes|;
      Simulate(sem, code, lo, stmts[0], start, end, next, st, fuel);
      var r := Exec(sem, stmts[0], end.Some?, start.Some?, st, fuel);
      if r.Done? && r.out.Normal? {
        SimulateAll(sem, code, mid, stmts[1..], start, end, first.next, r.st, fuel);
        LeavesWiden(sem, code, Region(mid, rg.hi, start, end), rg, mid, r.st, fuel, r');
      }
      ThenRest(sem, code, Region(lo, mid, start, end), rg, lo, st, fuel, r, r');
    }
  }

  lemma LeavesWiden<S, V>(sem: Sem<S, V>, code: seq<Instr>, inner: Region, outer: Region, pc: nat, st: S,
                          fuel: nat, r: Result<S, V>)
    requires outer.lo <= inner.lo && inner.hi == outer.hi && inner.start == outer.start && inner.end == outer.end
    requires Leaves(sem, code, inner, pc, st, fuel, r)
    ensures Leaves(sem, code, outer, pc, st, fuel, r)
  {
    var n: nat :| Matches(code, inner, fuel, r, n, Run(sem, code, At(pc, st), n));
    assert Matches(code, outer, fuel, r, n, Run(sem, code, At(pc, st), n));
  }

  lemma {:induction false} SimulateIf<S, V>(sem: Sem<S, V>, code: seq<Instr>, lo: nat, s: Stmt,
                                            start: Option<nat>, end: Option<nat>, next: nat, st: S, fuel: nat)
    requires s.If?
    requires UniqueLabels(code) && Placed(code, start) && Placed(code, end)
    requires Fits(code, lo, Emit(s, start, end, next).nodes)
    ensures Leaves(sem, code, Region(lo, lo + |Emit(s, start, end, next).nodes|, start, end), lo, st, fuel,
                   Exec(sem, s, end.Some?, start.Some?, st, fuel))
    decreases fuel, s, 0, 0
  {
    hide Fits, Leaves, UniqueLabels, Placed;
    var t := Emit(s.thn, start, end, next + 2);
    var e := Emit(s.els, start, end, t.next);
    IfLayout(code, lo, next, s.cond, t.nodes, e.nodes);
    match sem.test(s.cond, st) {
      case None =>
      case Some((true, st')) => Simulate(sem, code, lo + 1, s.thn, start, end, next + 2, st', fuel);
      case Some((false, st')) => Simulate(sem, code, lo + 3 + |t.nodes|, s.els, start, end, t.next, st', fuel);
    }
    IfEither(sem, code, lo, next, s.cond, |t.nodes|, |e.nodes|, start, end, st, fuel,
             Exec(sem, s, end.Some?, start.Some?, st, fuel));
  }

  /** Where the pieces of an if statement are. */
  ghost predicate IfPlaced(code: seq<Instr>, lo: nat, next: nat, nt: nat, ne: nat) {
    && lo + nt + ne + 4 <= |code|
    && code[lo + 1 + nt] == Jump(next + 1)
    && LabelAt(code, next, lo + 2 + nt)
    && LabelAt(code, next + 1, lo + 3 + nt + ne)
  }

  lemma IfLayout(code: seq<Instr>, lo: nat, next: nat, cond: Node, t: seq<Instr>, e: seq<Instr>)
    requires Fits(code, lo, [BranchFalse(next, cond)] + t + [Jump(next + 1), Label(next)] + e + [Label(next + 1)])
    ensures IfPlaced(code, lo, next, |t|, |e|) && code[lo] == BranchFalse(next, cond)
    ensures Fits(code, lo + 1, t) && Fits(code, lo + 3 + |t|, e)
  {
    var head, mid, tail := [BranchFalse(next, cond)], [Jump(next + 1), Label(next)], [Label(next + 1)];
    var all := head + t + mid + e + tail;
    assert code[lo..lo + |all|] == all;
    assert code[lo] == all[0];
    assert code[lo + 1 + |t|] == all[1 + |t|];
    assert code[lo + 2 + |t|] == all[2 + |t|];
    assert code[lo + 3 + |t| + |e|] == all[3 + |t| + |e|];
    FitsSplit(code, lo, head + t + mid + e, tail);
    FitsSplit(code, lo, head + t + mid, e);
    FitsSplit(code, lo, head + t, mid);
    FitsSplit(code, lo, head, t);
  }

  lemma IfThen<S, V>(sem: Sem<S, V>, code: seq<Instr>, lo: nat, next: nat, nt: nat, ne: nat,
                     start: Option<nat>, end: Option<nat>, st: S, fuel: nat, r: Result<S, V>)
    requires UniqueLabels(code) && IfPlaced(code, lo, next, nt, ne)
    requires Leaves(sem, code, Region(lo + 1, lo + 1 + nt, start, end), lo + 1, st, fuel, r)
    ensures Leaves(sem, code, Region(lo, lo + nt + ne + 4, start, end), lo + 1, st, fuel, r)
  {
    var rg := Region(lo, lo + nt + ne + 4, start, end);
    if r.Done? && r.out.Normal? {
      TargetIs<S, V>(code, next + 1, lo + 3 + nt + ne, r.st);
      LeavesNext(sem, code, rg, lo + 3 + nt + ne, r.st, fuel, r);
      StepThen(sem, code, rg, lo + 1 + nt, r.st, lo + 3 + nt + ne, r.st, fuel, fuel, r);
    }
    ThenRest(sem, code, Region(lo + 1, lo + 1 + nt, start, end), rg, lo + 1, st, fuel, r, r);
  }

  lemma IfElse<S, V>(sem: Sem<S, V>, code: seq<Instr>, lo: nat, next: nat, nt: nat, ne: nat,
                     start: Option<nat>, end: Option<nat>, st: S, fuel: nat, r: Result<S, V>)
    requires UniqueLabels(code) && IfPlaced(code, lo, next, nt, ne)
    requires Leaves(sem, code, Region(lo + 3 + nt, lo + 3 + nt + ne, start, end), lo + 3 + nt, st, fuel, r)
    ensures Leaves(sem, code, Region(lo, lo + nt + ne + 4, start, end), lo + 2 + nt, st, fuel, r)
  {
    var rg := Region(lo, lo + nt + ne + 4, start, end);
    if r.Done? && r.out.Normal? {
      LeavesNext(sem, code, rg, lo + 3 + nt + ne, r.st, fuel, r);
    }
    ThenRest(sem, code, Region(lo + 3 + nt, lo + 3 + nt + ne, start, end), rg, lo + 3 + nt, st, fuel, r, r);
    StepThen(sem, code, rg, lo + 2 + nt, st, lo + 3 + nt, st, fuel, fuel, r);
  }

  lemma IfEither<S, V>(sem: Sem<S, V>, code: seq<Instr>, lo: nat, next: nat, cond: Node, nt: nat, ne: nat,
                       start: Option<nat>, end: Option<nat>, st: S, fuel: nat, r: Result<S, V>)
    requires UniqueLabels(code) && IfPlaced(code, lo, next, nt, ne) && code[lo] == BranchFalse(next, cond)
    requires match sem.test(cond, st)
             case None => r == Stuck
             case Some((true, st')) =>
               Leaves(sem, code, Region(lo + 1, lo + 1 + nt, start, end), lo + 1, st', fuel, r)
             case Some((false, st')) =>
               Leaves(sem, code, Region(lo + 3 + nt, lo + 3 + nt + ne, start, end), lo + 3 + nt, st', fuel, r)
    ensures Leaves(sem, code, Region(lo, lo + nt + ne + 4, start, end), lo, st, fuel, r)
  {
    var rg := Region(lo, lo + nt + ne + 4, start, end);
    match sem.test(cond, st)
    case None =>
      LeavesNext(sem, code, rg, lo, st, fuel, r);
    case Some((true, st')) =>
      IfThen(sem, code, lo, next, nt, ne, start, end, st', fuel, r);
      StepThen(sem, code, rg, lo, st, lo + 1, st', fuel, fuel, r);
    case Some((false, st')) =>
      IfElse(sem, code, lo, next, nt, ne, start, end, st', fuel, r);
      TargetIs<S, V>(code, next, lo + 2 + nt, st');
      StepThen(sem, code, rg, lo, st, lo + 2 + nt, st', fuel, fuel, r);
  }

  lemma {:induction false} SimulateFor<S, V>(sem: Sem<S, V>, code: seq<Instr>, lo: nat, s: Stmt,
                                             start: Option<nat>, end: Option<nat>, next: nat, st: S, fuel: nat)
    requires s.For?
    requires UniqueLabels(code)
    requires Fits(code, lo, Emit(s, start, end, next).nodes)
    ensures Leaves(sem, code, Region(lo, lo + |Emit(s, start, end, next).nodes|, start, end), lo, st, fuel,
                   Exec(sem, s, end.Some?, start.Some?, st, fuel))
    decreases fuel, s, 0, 2
  {
    hide Fits, Leaves, UniqueLabels;
    var i := Emit(s.init, None, None, next);
    FitsSplit(code, lo, i.nodes, EmitLoop(s, i.next).nodes);
    var mid := lo + |i.nodes|;
    var rg := Region(lo, mid + |EmitLoop(s, i.next).nodes|, start, end);
    Simulate(sem, code, lo, s.init, None, None, next, st, fuel);
    var r := Exec(sem, s.init, false, false, st, fuel);
    var r' := Exec(sem, s, end.Some?, start.Some?, st, fuel);
    if r.Done? && r.out.Normal? {
      SimulateFrom(sem, code, lo, mid, s, start, end, i.next, r.st, fuel);
    }
    Then(sem, code, Region(lo, mid, None, None), rg, lo, st, fuel, fuel, r, r');
  }

  /** A loop from its start label, as a part of a stretch that begins at `lo`. */
  lemma {:induction false} SimulateFrom<S, V>(sem: Sem<S, V>, code: seq<Instr>, lo: nat, mid: nat, s: Stmt,
                                              start: Option<nat>, end: Option<nat>, next: nat, st: S, fuel: nat)
    requires IsLoop(s) && lo <= mid
    requires UniqueLabels(code)
    requires Fits(code, mid, EmitLoop(s, next).nodes)
    ensures Leaves(sem, code, Region(lo, mid + |EmitLoop(s, next).nodes|, start, end), mid, st, fuel,
                   Loop(sem, s, st, fuel))
    decreases fuel, s, 0, 1
  {
    var rg := Region(lo, mid + |EmitLoop(s, next).nodes|, start, end);
    if fuel == 0 {
      LeavesNow(sem, code, rg, mid, st, fuel, Timeout);
    } else {
      match s
      case While(_, _) => SimulateWhile(sem, code, lo, mid, s, start, end, next, st, fuel);
      case DoWhile(_, _) => SimulateDoWhile(sem, code, lo, mid, s, start, end, next, st, fuel);
      case For(_, _, _, _) => SimulateForLoop(sem, code, lo, mid, s, start, end, next, st, fuel);
    }
  }

  /** A loop that tests first: label, branch past the end, body of `nb` nodes, jump back, label. */
  ghost predicate TestFirstPlaced(code: seq<Instr>, mid: nat, next: nat, cond: Node, nb: nat) {
    && mid + nb + 4 <= |code|
    && LabelAt(code, next, mid)
    && code[mid + 1] == BranchFalse(next + 1, cond)
    && code[mid + 2 + nb] == Jump(next)
    && LabelAt(code, next + 1, mid + 3 + nb)
  }

  lemma TestFirstLayout(code: seq<Instr>, mid: nat, next: nat, cond: Node, b: seq<Instr>)
    requires Fits(code, mid, [Label(next), BranchFalse(next + 1, cond)] + b + [Jump(next), Label(next + 1)])
    ensures TestFirstPlaced(code, mid, next, cond, |b|) && Fits(code, mid + 2, b)
  {
    var head, tail := [Label(next), BranchFalse(next + 1, cond)], [Jump(next), Label(next + 1)];
    var all := head + b + tail;
    assert code[mid..mid + |all|] == all;
    assert code[mid] == all[0];
    assert code[mid + 1] == all[1];
    assert code[mid + 2 + |b|] == all[2 + |b|];
    assert code[mid + 3 + |b|] == all[3 + |b|];
    FitsSplit(code, mid, head + b, tail);
    FitsSplit(code, mid, head, b);
  }

  /** The body `inner` of a loop that tests first, once entered. */
  lemma TestFirstBody<S, V>(sem: Sem<S, V>, code: seq<Instr>, rg: Region, mid: nat, next: nat, cond: Node, nb: nat,
                            st: S, fuel: nat, r: Result<S, V>, r': Result<S, V>)
    requires UniqueLabels(code) && TestFirstPlaced(code, mid, next, cond, nb)
    requires rg.lo <= mid && rg.hi == mid + nb + 4
    requires Leaves(sem, code, Region(mid + 2, mid + 2 + nb, Some(next), Some(next + 1)), mid + 2, st, fuel + 1, r)
    requires r.Done? && (r.out.Normal? || r.out.Continued?) ==> Leaves(sem, code, rg, mid, r.st, fuel, r')
    requires r.Done? && r.out.Broke? ==> r' == Done(Normal, r.st)
    requires !r.Done? || r.out.Returned? ==> r' == r
    ensures Leaves(sem, code, rg, mid + 2, st, fuel, r')
  {
    var inner := Region(mid + 2, mid + 2 + nb, Some(next), Some(next + 1));
    if r.Done? && r.out.Normal? {
      TargetIs<S, V>(code, next, mid, r.st);
      StepThen(sem, code, rg, mid + 2 + nb, r.st, mid, r.st, fuel, fuel, r');
    } else if r.Done? && r.out.Broke? {
      LeavesNext(sem, code, rg, mid + 3 + nb, r.st, fuel, r');
    }
    Then(sem, code, inner, rg, mid + 2, st, fuel, fuel + 1, r, r');
  }

  /** One pass of a loop that tests first. */
  lemma TestFirst<S, V>(sem: Sem<S, V>, code: seq<Instr>, rg: Region, mid: nat, next: nat, cond: Node, nb: nat,
                        st: S, fuel: nat, r': Result<S, V>)
    requires UniqueLabels(code) && TestFirstPlaced(code, mid, next, cond, nb)
    requires rg.lo <= mid && rg.hi == mid + nb + 4
    requires match sem.test(cond, st)
             case None => r' == Stuck
             case Some((false, st')) => r' == Done(Normal, st')
             case Some((true, st')) => Leaves(sem, code, rg, mid + 2, st', fuel, r')
    ensures Leaves(sem, code, rg, mid, st, fuel + 1, r')
  {
    match sem.test(cond, st) {
      case None =>
        LeavesNext(sem, code, rg, mid + 1, st, fuel, r');
      case Some((false, st')) =>
        TargetIs<S, V>(code, next + 1, mid + 3 + nb, st');
        LeavesNext(sem, code, rg, mid + 3 + nb, st', fuel, r');
        StepThen(sem, code, rg, mid + 1, st, mid + 3 + nb, st', fuel, fuel, r');
      case Some((true, st')) =>
        StepThen(sem, code, rg, mid + 1, st, mid + 2, st', fuel, fuel, r');
    }
    StepThen(sem, code, rg, mid, st, mid + 1, st, fuel + 1, fuel, r');
  }

  lemma {:induction false} SimulateWhile<S, V>(sem: Sem<S, V>, code: seq<Instr>, lo: nat, mid: nat, s: Stmt,
                                               start: Option<nat>, end: Option<nat>, next: nat, st: S, fuel: nat)
    requires s.While? && lo <= mid && fuel > 0
    requires UniqueLabels(code)
    requires Fits(code, mid, EmitLoop(s, next).nodes)
    ensures Leaves(sem, code, Region(lo, mid + |EmitLoop(s, next).nodes|, start, end), mid, st, fuel,
                   Loop(sem, s, st, fuel))
    decreases fuel, s, 0, 0
  {
    hide Fits, Leaves, UniqueLabels;
    var b := Emit(s.body, Some(next), Some(next + 1), next + 2).nodes;
    TestFirstLayout(code, mid, next, s.cond, b);
    var rg := Region(lo, mid + |b| + 4, start, end);
    var r' := Loop(sem, s, st, fuel);
    if sem.test(s.cond, st).Some? && sem.test(s.cond, st).value.0 {
      var st1 := sem.test(s.cond, st).value.1;
      Simulate(sem, code, mid + 2, s.body, Some(next), Some(next + 1), next + 2, st1, fuel);
      var r := Exec(sem, s.body, true, true, st1, fuel);
      if r.Done? && (r.out.Normal? || r.out.Continued?) {
        SimulateFrom(sem, code, lo, mid, s, start, end, next, r.st, fuel - 1);
      }
      TestFirstBody(sem, code, rg, mid, next, s.cond, |b|, st1, fuel - 1, r, r');
    }
    TestFirst(sem, code, rg, mid, next, s.cond, |b|, st, fuel - 1, r');
  }

  /** The body and the step of a for loop, one after the other. */
  lemma {:induction false} SimulateBodyStep<S, V>(sem: Sem<S, V>, code: seq<Instr>, lo: nat, s: Stmt,
                                                  next: nat, st: S, fuel: nat)
    requires s.For?
    requires UniqueLabels(code) && Placed(code, Some(next)) && Placed(code, Some(next + 1))
    requires var b := Emit(s.body, Some(next), Some(next + 1), next + 2);
             Fits(code, lo, b.nodes)
               && Fits(code, lo + |b.nodes|, Emit(s.next, Some(next), Some(next + 1), b.next).nodes)
    ensures var b := Emit(s.body, Some(next), Some(next + 1), next + 2);
            var n := Emit(s.next, Some(next), Some(next + 1), b.next);
            Leaves(sem, code, Region(lo, lo + |b.nodes| + |n.nodes|, Some(next), Some(next + 1)), lo, st,
                   fuel, BodyStep(sem, s, st, fuel))
    decreases fuel, s, 0, 0, 0
  {
    hide Fits, Leaves, UniqueLabels;
    var b := Emit(s.body, Some(next), Some(next + 1), next + 2);
    var n := Emit(s.next, Some(next), Some(next + 1), b.next);
    var mid := lo + |b.nodes|;
    var rg := Region(lo, mid + |n.nodes|, Some(next), Some(next + 1));
    Simulate(sem, code, lo, s.body, Some(next), Some(next + 1), next + 2, st, fuel);
    var r1, r := Exec(sem, s.body, true, true, st, fuel), BodyStep(sem, s, st, fuel);
    if r1.Done? && r1.out.Normal? {
      Simulate(sem, code, mid, s.next, Some(next), Some(next + 1), b.next, r1.st, fuel);
      LeavesWiden(sem, code, Region(mid, mid + |n.nodes|, Some(next), Some(next + 1)), rg, mid, r1.st, fuel, r);
    }
    ThenRest(sem, code, Region(lo, mid, Some(next), Some(next + 1)), rg, lo, st, fuel, r1, r);
  }

  lemma {:induction false} SimulateForLoop<S, V>(sem: Sem<S, V>, code: seq<Instr>, lo: nat, mid: nat, s: Stmt,
                                                 start: Option<nat>, end: Option<nat>, next: nat, st: S, fuel: nat)
    requires s.For? && lo <= mid && fuel > 0
    requires UniqueLabels(code)
    requires Fits(code, mid, EmitLoop(s, next).nodes)
    ensures Leaves(sem, code, Region(lo, mid + |EmitLoop(s, next).nodes|, start, end), mid, st, fuel,
                   Loop(sem, s, st, fuel))
    decreases fuel, s, 0, 0
  {
    hide Fits, Leaves, UniqueLabels;
    var b := Emit(s.body, Some(next), Some(next + 1), next + 2);
    var n := Emit(s.next, Some(next), Some(next + 1), b.next);
    var nb := |b.nodes| + |n.nodes|;
    TestFirstLayout(code, mid, next, s.cond, b.nodes + n.nodes);
    FitsSplit(code, mid + 2, b.nodes, n.nodes);
    var rg := Region(lo, mid + nb + 4, start, end);
    var r' := Loop(sem, s, st, fuel);
    if sem.test(s.cond, st).Some? && sem.test(s.cond, st).value.0 {
      var st1 := sem.test(s.cond, st).value.1;
      var r := BodyStep(sem, s, st1, fuel);
      SimulateBodyStep(sem, code, mid + 2, s, next, st1, fuel);
      if r.Done? && (r.out.Normal? || r.out.Continued?) {
        SimulateFrom(sem, code, lo, mid, s, start, end, next, r.st, fuel - 1);
      }
      TestFirstBody(sem, code, rg, mid, next, s.cond, nb, st1, fuel - 1, r, r');
    }
    TestFirst(sem, code, rg, mid, next, s.cond, nb, st, fuel - 1, r');
  }

  /** A loop that tests last: label, body of `nb` nodes, branch back, label. */
  ghost predicate TestLastPlaced(code: seq<Instr>, mid: nat, next: nat, cond: Node, nb: nat) {
    && mid + nb + 3 <= |code|
    && LabelAt(code, next, mid)
    && code[mid + 1 + nb] == BranchTrue(next, cond)
    && LabelAt(code, next + 1, mid + 2 + nb)
  }

  lemma TestLastLayout(code: seq<Instr>, mid: nat, next: nat, cond: Node, b: seq<Instr>)
    requires Fits(code, mid, [Label(next)] + b + [BranchTrue(next, cond), Label(next + 1)])
    ensures TestLastPlaced(code, mid, next, cond, |b|) && Fits(code, mid + 1, b)
  {
    var head, tail := [Label(next)], [BranchTrue(next, cond), Label(next + 1)];
    var all := head + b + tail;
    assert code[mid..mid + |all|] == all;
    assert code[mid] == all[0];
    assert code[mid + 1 + |b|] == all[1 + |b|];
    assert code[mid + 2 + |b|] == all[2 + |b|];
    FitsSplit(code, mid, head + b, tail);
    FitsSplit(code, mid, head, b);
  }

  /** One pass of a loop that tests last. */
  lemma TestLast<S, V>(sem: Sem<S, V>, code: seq<Instr>, rg: Region, mid: nat, next: nat, cond: Node, nb: nat,
                       st: S, fuel: nat, r: Result<S, V>, r': Result<S, V>)
    requires UniqueLabels(code) && TestLastPlaced(code, mid, next, cond, nb)
    requires rg.lo <= mid && rg.hi == mid + nb + 3
    requires Leaves(sem, code, Region(mid + 1, mid + 1 + nb, Some(next), Some(next + 1)), mid + 1, st, fuel + 1, r)
    requires r.Done? && r.out.Normal? ==>
               match sem.test(cond, r.st)
               case None => r' == Stuck
               case Some((false, st')) => r' == Done(Normal, st')
               case Some((true, st')) => Leaves(sem, code, rg, mid, st', fuel, r')
    requires r.Done? && r.out.Continued? ==> Leaves(sem, code, rg, mid, r.st, fuel, r')
    requires r.Done? && r.out.Broke? ==> r' == Done(Normal, r.st)
    requires !r.Done? || r.out.Returned? ==> r' == r
    ensures Leaves(sem, code, rg, mid, st, fuel + 1, r')
  {
    if r.Done? && r.out.Normal? {
      TestLastBranch(sem, code, rg, mid, next, cond, nb, r.st, fuel, r');
    } else if r.Done? && r.out.Broke? {
      LeavesNext(sem, code, rg, mid + 2 + nb, r.st, fuel, r');
    }
    Then(sem, code, Region(mid + 1, mid + 1 + nb, Some(next), Some(next + 1)), rg, mid + 1, st, fuel, fuel + 1, r, r');
    StepThen(sem, code, rg, mid, st, mid + 1, st, fuel + 1, fuel, r');
  }

  lemma TestLastBranch<S, V>(sem: Sem<S, V>, code: seq<Instr>, rg: Region, mid: nat, next: nat, cond: Node, nb: nat,
                             st: S, fuel: nat, r': Result<S, V>)
    requires UniqueLabels(code) && TestLastPlaced(code, mid, next, cond, nb)
    requires rg.hi == mid + nb + 3
    requires match sem.test(cond, st)
             case None => r' == Stuck
             case Some((false, st')) => r' == Done(Normal, st')
             case Some((true, st')) => Leaves(sem, code, rg, mid, st', fuel, r')
    ensures Leaves(sem, code, rg, mid + 1 + nb, st, fuel, r')
  {
    match sem.test(cond, st)
    case None =>
      LeavesNext(sem, code, rg, mid + 1 + nb, st, fuel, r');
    case Some((false, st')) =>
      LeavesNext(sem, code, rg, mid + 2 + nb, st', fuel, r');
      StepThen(sem, code, rg, mid + 1 + nb, st, mid + 2 + nb, st', fuel, fuel, r');
    case Some((true, st')) =>
      TargetIs<S, V>(code, next, mid, st');
      StepThen(sem, code, rg, mid + 1 + nb, st, mid, st', fuel, fuel, r');
  }

  lemma {:induction false} SimulateDoWhile<S, V>(sem: Sem<S, V>, code: seq<Instr>, lo: nat, mid: nat, s: Stmt,
                                                 start: Option<nat>, end: Option<nat>, next: nat, st: S, fuel: nat)
    requires s.DoWhile? && lo <= mid && fuel > 0
    requires UniqueLabels(code)
    requires Fits(code, mid, EmitLoop(s, next).nodes)
    ensures Leaves(sem, code, Region(lo, mid + |EmitLoop(s, next).nodes|, start, end), mid, st, fuel,
                   Loop(sem, s, st, fuel))
    decreases fuel, s, 0, 0
  {
    hide Fits, Leaves, UniqueLabels;
    var b := Emit(s.body, Some(next), Some(next + 1), next + 2).nodes;
    TestLastLayout(code, mid, next, s.cond, b);
    var rg := Region(lo, mid + |b| + 3, start, end);
    Simulate(sem, code, mid + 1, s.body, Some(next), Some(next + 1), next + 2, st, fuel);
    var r := Exec(sem, s.body, true, true, st, fuel);
    if r.Done? && r.out.Normal? && sem.test(s.cond, r.st).Some? && sem.test(s.cond, r.st).value.0 {
      SimulateFrom(sem, code, lo, mid, s, start, end, next, sem.test(s.cond, r.st).value.1, fuel - 1);
    }
    if r.Done? && r.out.Continued? {
      SimulateFrom(sem, code, lo, mid, s, start, end, next, r.st, fuel - 1);
    }
    TestLast(sem, code, rg, mid, next, s.cond, |b|, st, fuel - 1, r, Loop(sem, s, st, fuel));
  }
}
