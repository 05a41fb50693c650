/** Label closure: wherever a jump is emitted, its label is emitted once, in the same block. */
module Labels {
  import opened Common
  import opened Ir
  import opened Flatten

  predicate IsJump(i: Instr) { i.Jump? || i.BranchTrue? || i.BranchFalse? }

  ghost function LabelsOf(nodes: seq<Instr>): set<nat> {
    set i | 0 <= i < |nodes| && nodes[i].Label? :: nodes[i].id
  }

  ghost function TargetsOf(nodes: seq<Instr>): set<nat> {
    set i | 0 <= i < |nodes| && IsJump(nodes[i]) :: nodes[i].target
  }

  ghost function FuncLabels(funcs: seq<seq<Instr>>): set<nat> {
    set i, l | 0 <= i < |funcs| && l in LabelsOf(funcs[i]) :: l
  }

  ghost predicate Unique(nodes: seq<Instr>) {
    forall i, j :: 0 <= i < j < |nodes| && nodes[i].Label? ==> nodes[i] != nodes[j]
  }

  /** Every label occurs once, in the block or in one of the functions opened in it, and every
      function is closed. */
  ghost predicate Tidy(nodes: seq<Instr>, funcs: seq<seq<Instr>>) {
    && Unique(nodes)
    && LabelsOf(nodes) !! FuncLabels(funcs)
    && (forall i :: 0 <= i < |funcs| ==> Unique(funcs[i]) && TargetsOf(funcs[i]) <= LabelsOf(funcs[i]))
    && (forall i, j :: 0 <= i < j < |funcs| ==> LabelsOf(funcs[i]) !! LabelsOf(funcs[j]))
  }

  ghost predicate Between(labels: set<nat>, lo: nat, hi: nat) {
    forall l :: l in labels ==> lo <= l < hi
  }

  lemma LabelsAppend(a: seq<Instr>, b: seq<Instr>)
    ensures LabelsOf(a + b) == LabelsOf(a) + LabelsOf(b)
    ensures TargetsOf(a + b) == TargetsOf(a) + TargetsOf(b)
  {
    forall i | 0 <= i < |a| ensures (a + b)[i] == a[i] {}
    forall i | 0 <= i < |b| ensures (a + b)[|a| + i] == b[i] {}
    assert LabelsOf(a) <= LabelsOf(a + b) && TargetsOf(a) <= TargetsOf(a + b) by {
      forall i | 0 <= i < |a| ensures (a + b)[i] == a[i] {}
    }
    assert LabelsOf(b) <= LabelsOf(a + b) && TargetsOf(b) <= TargetsOf(a + b) by {
      forall i | 0 <= i < |b| ensures (a + b)[|a| + i] == b[i] {}
    }
  }

  lemma FuncLabelsAppend(f: seq<seq<Instr>>, g: seq<seq<Instr>>)
    ensures FuncLabels(f + g) == FuncLabels(f) + FuncLabels(g)
  {
    assert FuncLabels(f) <= FuncLabels(f + g) by {
      forall i | 0 <= i < |f| ensures (f + g)[i] == f[i] {}
    }
    assert FuncLabels(g) <= FuncLabels(f + g) by {
      forall i | 0 <= i < |g| ensures (f + g)[|f| + i] == g[i] {}
    }
  }

  lemma UniqueAppend(a: seq<Instr>, b: seq<Instr>)
    requires Unique(a) && Unique(b) && LabelsOf(a) !! LabelsOf(b)
    ensures Unique(a + b)
  {
    forall i, j | 0 <= i < j < |a + b| && (a + b)[i].Label?
      ensures (a + b)[i] != (a + b)[j]
    {
      if i < |a| <= j {
        assert a[i].id in LabelsOf(a);
        if b[j - |a|].Label? { assert b[j - |a|].id in LabelsOf(b); }
      }
    }
  }

  /** Two pieces with different labels, side by side. */
  lemma TidyAppend(a: seq<Instr>, f: seq<seq<Instr>>, b: seq<Instr>, g: seq<seq<Instr>>)
    requires Tidy(a, f) && Tidy(b, g)
    requires (LabelsOf(a) + FuncLabels(f)) !! (LabelsOf(b) + FuncLabels(g))
    ensures Tidy(a + b, f + g)
    ensures LabelsOf(a + b) == LabelsOf(a) + LabelsOf(b)
    ensures TargetsOf(a + b) == TargetsOf(a) + TargetsOf(b)
    ensures FuncLabels(f + g) == FuncLabels(f) + FuncLabels(g)
  {
    LabelsAppend(a, b);
    FuncLabelsAppend(f, g);
    UniqueAppend(a, b);
    forall i, j | 0 <= i < j < |f + g| ensures LabelsOf((f + g)[i]) !! LabelsOf((f + g)[j]) {
      if i < |f| <= j {
        assert LabelsOf(f[i]) <= FuncLabels(f);
        assert LabelsOf(g[j - |f|]) <= FuncLabels(g);
      }
    }
  }

  function Known(l: Option<nat>): set<nat> {
    if l.Some? then {l.value} else {}
  }

  /** What holds of everything emitted for one statement. */
  ghost predicate Emitted(c: Code, start: Option<nat>, end: Option<nat>, next: nat) {
    && next <= c.next
    && Tidy(c.nodes, c.funcs)
    && Between(LabelsOf(c.nodes) + FuncLabels(c.funcs), next, c.next)
    && TargetsOf(c.nodes) <= LabelsOf(c.nodes) + Known(start) + Known(end)
  }

  lemma {:induction false} EmitTidy(s: Stmt, start: Option<nat>, end: Option<nat>, next: nat)
    ensures Emitted(Emit(s, start, end, next), start, end, next)
    decreases s, 1
  {
    hide Tidy, LabelsOf, TargetsOf, FuncLabels, Unique;
    match s
    case Block(stmts) => EmitAllTidy(stmts, start, end, next);
    case If(cond, thn, els) =>
      var t := Emit(thn, start, end, next + 2);
      var e := Emit(els, start, end, t.next);
      EmitTidy(thn, start, end, next + 2);
      EmitTidy(els, start, end, t.next);
      IfTidy(cond, t, e, start, end, next);
    case While(_, _) => EmitLoopTidy(s, next);
    case DoWhile(_, _) => EmitLoopTidy(s, next);
    case For(init, _, _, _) =>
      var i := Emit(init, None, None, next);
      var l := EmitLoop(s, i.next);
      EmitTidy(init, None, None, next);
      EmitLoopTidy(s, i.next);
      TidyAppend(i.nodes, i.funcs, l.nodes, l.funcs);
    case FuncDecl(body) =>
      var b := Emit(body, None, None, next);
      EmitTidy(body, None, None, next);
      FuncTidy(b);
    case _ => SimpleTidy(s, start, end, next);
  }

  lemma SimpleTidy(s: Stmt, start: Option<nat>, end: Option<nat>, next: nat)
    requires !s.Block? && !s.If? && !s.While? && !s.DoWhile? && !s.For? && !s.FuncDecl?
    ensures Emitted(Emit(s, start, end, next), start, end, next)
  {
  }

  lemma {:induction false} EmitAllTidy(stmts: seq<Stmt>, start: Option<nat>, end: Option<nat>, next: nat)
    ensures Emitted(EmitAll(stmts, start, end, next), start, end, next)
    decreases stmts, 0
  {
    hide Emit;
    if stmts != [] {
      var first := Emit(stmts[0], start, end, next);
      var rest := EmitAll(stmts[1..], start, end, first.next);
      EmitTidy(stmts[0], start, end, next);
      EmitAllTidy(stmts[1..], start, end, first.next);
      TidyAppend(first.nodes, first.funcs, rest.nodes, rest.funcs);
    }
  }

  lemma FuncTidy(b: Code)
    requires Tidy(b.nodes, b.funcs) && TargetsOf(b.nodes) <= LabelsOf(b.nodes)
    ensures Tidy([], [b.nodes] + b.funcs) && LabelsOf([]) == {} && TargetsOf([]) == {}
    ensures FuncLabels([b.nodes] + b.funcs) == LabelsOf(b.nodes) + FuncLabels(b.funcs)
  {
    FuncLabelsAppend([b.nodes], b.funcs);
    assert FuncLabels([b.nodes]) == LabelsOf(b.nodes) by {
      assert forall l :: l in LabelsOf(b.nodes) ==> l in LabelsOf([b.nodes][0]);
    }
    forall j | 0 <= j < |b.funcs| ensures LabelsOf(b.funcs[j]) <= FuncLabels(b.funcs) {}
  }

  lemma IfTidy(cond: Node, t: Code, e: Code, start: Option<nat>, end: Option<nat>, next: nat)
    requires Emitted(t, start, end, next + 2) && Emitted(e, start, end, t.next)
    ensures var head, mid, tail := [BranchFalse(next, cond)], [Jump(next + 1), Label(next)], [Label(next + 1)];
            Emitted(Code(head + t.nodes + mid + e.nodes + tail, t.funcs + e.funcs, e.next), start, end, next)
  {
    hide Tidy, LabelsOf, TargetsOf, FuncLabels, Unique;
    var head, mid, tail := [BranchFalse(next, cond)], [Jump(next + 1), Label(next)], [Label(next + 1)];
    PairTidy(Jump(next + 1), Label(next));
    OneTidy(head[0]);
    OneTidy(tail[0]);
    TidyAppend(head, [], t.nodes, t.funcs);
    assert [] + t.funcs == t.funcs;
    TidyAppend(head + t.nodes, t.funcs, mid, []);
    assert t.funcs + [] == t.funcs;
    TidyAppend(head + t.nodes + mid, t.funcs, e.nodes, e.funcs);
    TidyAppend(head + t.nodes + mid + e.nodes, t.funcs + e.funcs, tail, []);
    assert t.funcs + e.funcs + [] == t.funcs + e.funcs;
  }

  lemma OneTidy(i: Instr)
    ensures Tidy([i], []) && FuncLabels([]) == {}
    ensures LabelsOf([i]) == if i.Label? then {i.id} else {}
    ensures TargetsOf([i]) == if IsJump(i) then {i.target} else {}
  {
    assert [i][0] == i;
  }

  lemma PairTidy(i: Instr, j: Instr)
    requires !i.Label? || !j.Label?
    ensures Tidy([i, j], [])
    ensures LabelsOf([i, j]) == LabelsOf([i]) + LabelsOf([j])
    ensures TargetsOf([i, j]) == TargetsOf([i]) + TargetsOf([j])
    ensures LabelsOf([i]) == (if i.Label? then {i.id} else {}) && LabelsOf([j]) == (if j.Label? then {j.id} else {})
    ensures TargetsOf([i]) == (if IsJump(i) then {i.target} else {})
            && TargetsOf([j]) == (if IsJump(j) then {j.target} else {})
  {
    OneTidy(i);
    OneTidy(j);
    assert [i, j] == [i] + [j];
    LabelsAppend([i], [j]);
  }

  /** A loop: its start label in `head`, its end label in `tail`. */
  lemma LoopTidy(head: seq<Instr>, b: seq<Instr>, f: seq<seq<Instr>>, tail: seq<Instr>, next: nat, hi: nat)
    requires Tidy(head, []) && Tidy(tail, []) && Tidy(b, f) && next + 2 <= hi
    requires LabelsOf(head) == {next} && LabelsOf(tail) == {next + 1}
    requires Between(LabelsOf(b) + FuncLabels(f), next + 2, hi)
    requires TargetsOf(head) + TargetsOf(tail) <= {next, next + 1}
    requires TargetsOf(b) <= LabelsOf(b) + {next, next + 1}
    ensures Emitted(Code(head + b + tail, f, hi), None, None, next)
  {
    hide Tidy, LabelsOf, TargetsOf, FuncLabels, Unique;
    assert FuncLabels([]) == {} by { OneTidy(Jump(0)); }
    TidyAppend(head, [], b, f);
    assert [] + f == f;
    TidyAppend(head + b, f, tail, []);
    assert f + [] == f;
  }

  lemma {:induction false} EmitLoopTidy(s: Stmt, next: nat)
    requires IsLoop(s)
    ensures Emitted(EmitLoop(s, next), None, None, next)
    decreases s, 0
  {
    hide Tidy, LabelsOf, TargetsOf, FuncLabels, Unique;
    var b := Emit(s.body, Some(next), Some(next + 1), next + 2);
    EmitTidy(s.body, Some(next), Some(next + 1), next + 2);
    match s
    case While(cond, _) =>
      PairTidy(Label(next), BranchFalse(next + 1, cond));
      PairTidy(Jump(next), Label(next + 1));
      LoopTidy([Label(next), BranchFalse(next + 1, cond)], b.nodes, b.funcs,
               [Jump(next), Label(next + 1)], next, b.next);
    case DoWhile(_, cond) =>
      OneTidy(Label(next));
      PairTidy(BranchTrue(next, cond), Label(next + 1));
      LoopTidy([Label(next)], b.nodes, b.funcs, [BranchTrue(next, cond), Label(next + 1)], next, b.next);
    case For(_, cond, _, step) =>
      var n := Emit(step, Some(next), Some(next + 1), b.next);
      EmitTidy(step, Some(next), Some(next + 1), b.next);
      TidyAppend(b.nodes, b.funcs, n.nodes, n.funcs);
      PairTidy(Label(next), BranchFalse(next + 1, cond));
      PairTidy(Jump(next), Label(next + 1));
      LoopTidy([Label(next), BranchFalse(next + 1, cond)], b.nodes + n.nodes, b.funcs + n.funcs,
               [Jump(next), Label(next + 1)], next, n.next);
  }

  /** Every block of a program: the top level and all functions. */
  function Blocks(c: Code): seq<seq<Instr>> { [c.nodes] + c.funcs }

  /** `l` is at position `q` of the list and nowhere else in it. */
  ghost predicate OnlyAt(nodes: seq<Instr>, l: nat, q: nat) {
    q < |nodes| && nodes[q] == Label(l) && forall q' :: 0 <= q' < |nodes| && nodes[q'] == Label(l) ==> q' == q
  }

  /** Label `l` occurs once in block `b` and in no other block. */
  ghost predicate DefinedOnlyIn(blocks: seq<seq<Instr>>, b: nat, l: nat)
    requires b < |blocks|
  {
    && (exists q: nat :: OnlyAt(blocks[b], l, q))
    && forall b' :: 0 <= b' < |blocks| && b' != b ==> Label(l) !in blocks[b']
  }

  /** Label closure. In every block of an elaborated program each jump or branch goes to a label
      that occurs exactly once in that block and in no other one. */
  lemma JumpsStayInBlock(s: Stmt, next: nat, b: nat, p: nat)
    requires var blocks := Blocks(Emit(s, None, None, next));
             b < |blocks| && p < |blocks[b]| && IsJump(blocks[b][p])
    ensures var blocks := Blocks(Emit(s, None, None, next)); DefinedOnlyIn(blocks, b, blocks[b][p].target)
  {
    var c := Emit(s, None, None, next);
    EmitTidy(s, None, None, next);
    var blocks: seq<seq<Instr>> := Blocks(c);
    var l := blocks[b][p].target;
    assert TargetsOf(blocks[b]) <= LabelsOf(blocks[b]);
    assert l in TargetsOf(blocks[b]);
    var q: nat :| q < |blocks[b]| && blocks[b][q].Label? && blocks[b][q].id == l;
    assert Unique(blocks[b]);
    assert OnlyAt(blocks[b], l, q);
    forall b' | 0 <= b' < |blocks| && b' != b ensures Label(l) !in blocks[b'] {
      BlocksApart(c, b, b');
      assert l !in LabelsOf(blocks[b']);
    }
  }

  lemma BlocksApart(c: Code, i: nat, j: nat)
    requires Tidy(c.nodes, c.funcs) && i < |Blocks(c)| && j < |Blocks(c)| && i != j
    ensures LabelsOf(Blocks(c)[i]) !! LabelsOf(Blocks(c)[j])
  {
    if i == 0 {
      assert LabelsOf(c.funcs[j - 1]) <= FuncLabels(c.funcs);
    } else if j == 0 {
      assert LabelsOf(c.funcs[i - 1]) <= FuncLabels(c.funcs);
    }
  }
}
