/** Constant propagation: where a name stands for a definition, an expression means the same with the definition
    written out. */
module ConstProp {
  import opened Common
  import opened Ir
  import opened Ast
  import opened Typing
  import opened Interp
  import opened ScopeGraph
  import opened Elaborate
  import Soundness

  // ----- writing a definition out -----

  /** `e` with `d` for the constant `c` wherever `c` is used as a value. */
  function Inline(e: Expr, c: string, d: Expr): Expr
    decreases e, 1
  {
    match e
    case Symbol(n) => if n == c then d else e
    case ArrayRef(_, _) => InlinePrimary(e, c, d)
    case MemberRef(_, _) => InlinePrimary(e, c, d)
    case Unary(op, a) => Unary(op, Inline(a, c, d))
    case Binary(op, a, b) => Binary(op, Inline(a, c, d), Inline(b, c, d))
    case Ite(a, b, f) => Ite(Inline(a, c, d), Inline(b, c, d), Inline(f, c, d))
    case FuncCall(f, args) => Expr.FuncCall(f, InlineAll(args, c, d))
    case _ => e
  }

  /** In a path only the indices are values. */
  function InlinePrimary(e: Expr, c: string, d: Expr): Expr
    decreases e, 0
  {
    match e
    case ArrayRef(body, index) => Expr.ArrayRef(InlinePrimary(body, c, d), Inline(index, c, d))
    case MemberRef(body, m) => MemberRef(InlinePrimary(body, c, d), m)
    case _ => e
  }

  function InlineAll(es: seq<Expr>, c: string, d: Expr): seq<Expr>
    decreases es, 0
  {
    if es == [] then [] else [Inline(es[0], c, d)] + InlineAll(es[1..], c, d)
  }

  // ----- nodes that cannot be told apart -----

  /** Same type, same staticness, same result in every evaluator. */
  ghost predicate Agree(n: Node, m: Node, fp: FloatOps) {
    && TypeOf(n) == TypeOf(m)
    && IsStatic(n) == IsStatic(m)
    && EvalBoolean(n, fp) == EvalBoolean(m, fp)
    && EvalInt(n, fp) == EvalInt(m, fp)
    && EvalFloat(n, fp) == EvalFloat(m, fp)
  }

  ghost predicate AgreeHandle(h: Handle, g: Handle) {
    h == g || (h.ArrayRef? && g.ArrayRef? && TypeOf(h.base) == TypeOf(g.base))
  }

  /** Same outcome, and nodes that agree if there are any. */
  ghost predicate Same(x: Out<Node>, y: Out<Node>, fp: FloatOps) {
    && x.calls == y.calls
    && match (x.r, y.r)
       case (Ok(n), Ok(m)) => Agree(n, m, fp)
       case (Null, Null) => true
       case (Abort, Abort) => true
       case _ => false
  }

  ghost predicate SameHandle(x: Out<Handle>, y: Out<Handle>) {
    && x.calls == y.calls
    && match (x.r, y.r)
       case (Ok(h), Ok(g)) => AgreeHandle(h, g)
       case (Null, Null) => true
       case (Abort, Abort) => true
       case _ => false
  }

  ghost predicate SameArgs(x: Out<seq<Node>>, y: Out<seq<Node>>) {
    && x.calls == y.calls
    && (x.r.Ok? <==> y.r.Ok?) && (x.r.Null? <==> y.r.Null?)
  }

  lemma AgreeUnary(op: UniOp, ty: Ty, n: Node, m: Node, fp: FloatOps)
    requires Agree(n, m, fp)
    ensures Agree(UniOp(op, ty, n), UniOp(op, ty, m), fp)
  {
  }

  lemma AgreeBinary(op: BinOp, ty: Ty, n: Node, m: Node, n': Node, m': Node, fp: FloatOps)
    requires Agree(n, m, fp) && Agree(n', m', fp)
    ensures Agree(BinOp(op, ty, n, n'), BinOp(op, ty, m, m'), fp)
  {
    assert EvalEqual(BinOp(op, ty, n, n'), fp) == EvalEqual(BinOp(op, ty, m, m'), fp);
  }

  lemma AgreeTernary(ty: Ty, n: Node, m: Node, n': Node, m': Node, n'': Node, m'': Node, fp: FloatOps)
    requires Agree(n, m, fp) && Agree(n', m', fp) && Agree(n'', m'', fp)
    ensures Agree(TriOp(ty, n, n', n''), TriOp(ty, m, m', m''), fp)
  {
  }

  // ----- constant expressions are elaborated without side effects -----

  lemma {:induction false} StaticPrimary(e: Expr, sc: nat, scopes: seq<ScopeRec>, calls: seq<CallStub>,
                                         calls': seq<CallStub>, hash: string -> nat)
    requires Wf(scopes) && sc < |scopes|
    requires ElabPrimary(e, sc, scopes, calls, hash).r.Ok? && !ElabPrimary(e, sc, scopes, calls, hash).r.value.ArrayRef?
    ensures ElabPrimary(e, sc, scopes, calls, hash).calls == calls
    ensures ElabPrimary(e, sc, scopes, calls', hash) == Out(ElabPrimary(e, sc, scopes, calls, hash).r, calls')
  {
    if e.MemberRef? {
      StaticPrimary(e.body, sc, scopes, calls, calls', hash);
    }
  }

  lemma {:induction false} StaticElab(e: Expr, sc: nat, scopes: seq<ScopeRec>, calls: seq<CallStub>,
                                      calls': seq<CallStub>, hash: string -> nat)
    requires Wf(scopes) && sc < |scopes|
    requires ElabExpr(e, sc, scopes, calls, hash).r.Ok? && IsStatic(ElabExpr(e, sc, scopes, calls, hash).r.value)
    ensures ElabExpr(e, sc, scopes, calls, hash).calls == calls
    ensures ElabExpr(e, sc, scopes, calls', hash) == Out(ElabExpr(e, sc, scopes, calls, hash).r, calls')
  {
    match e
    case Symbol(_) => StaticPrimary(e, sc, scopes, calls, calls', hash);
    case ArrayRef(_, _) => StaticPrimary(e, sc, scopes, calls, calls', hash);
    case MemberRef(_, _) => StaticPrimary(e, sc, scopes, calls, calls', hash);
    case Unary(_, a) => StaticElab(a, sc, scopes, calls, calls', hash);
    case Binary(_, a, b) =>
      StaticElab(a, sc, scopes, calls, calls', hash);
      StaticElab(b, sc, scopes, calls, calls', hash);
    case Ite(a, b, c) =>
      StaticElab(a, sc, scopes, calls, calls', hash);
      StaticElab(b, sc, scopes, calls, calls', hash);
      StaticElab(c, sc, scopes, calls, calls', hash);
    case _ =>
  }

  /** Every constant expression the elaborator makes is one the typing rules accept. */
  lemma {:induction false} StaticAccepted(e: Expr, sc: nat, scopes: seq<ScopeRec>, calls: seq<CallStub>,
                                          hash: string -> nat)
    requires Wf(scopes) && sc < |scopes|
    requires ElabExpr(e, sc, scopes, calls, hash).r.Ok? && IsStatic(ElabExpr(e, sc, scopes, calls, hash).r.value)
    ensures Soundness.Accepted(ElabExpr(e, sc, scopes, calls, hash).r.value)
  {
    hide Wf, Find, CalcType1, CalcType2, CalcType3;
    match e
    case Unary(_, a) => StaticAccepted(a, sc, scopes, calls, hash);
    case Binary(_, a, b) =>
      StaticAccepted(a, sc, scopes, calls, hash);
      StaticAccepted(b, sc, scopes, ElabExpr(a, sc, scopes, calls, hash).calls, hash);
    case Ite(a, b, c) =>
      var x := ElabExpr(a, sc, scopes, calls, hash);
      StaticAccepted(a, sc, scopes, calls, hash);
      StaticAccepted(b, sc, scopes, x.calls, hash);
      StaticAccepted(c, sc, scopes, ElabExpr(b, sc, scopes, x.calls, hash).calls, hash);
    case _ =>
  }

  // ----- the constant and its definition -----

  /** In scope `sc` the name `c` stands for the value of the constant expression `d`. (Modules Constants and ConstRuns
      say when a declaration makes it so and how long it lasts.) */
  ghost predicate Defines(c: string, d: Expr, sc: nat, scopes: seq<ScopeRec>, env: Env)
    requires Wf(scopes) && sc < |scopes|
  {
    var x := ElabExpr(d, sc, scopes, [], env.hash);
    && x.r.Ok? && IsStatic(x.r.value)
    && ConstHandle(c, x.r.value, env.fp).Ok?
    && Find(scopes, sc, c, env.hash) == Some(ConstHandle(c, x.r.value, env.fp).value)
  }

  lemma ConstantAgrees(c: string, n: Node, fp: FloatOps)
    requires IsStatic(n) && ConstHandle(c, n, fp).Ok?
    ensures NewLoad(ConstHandle(c, n, fp).value).Ok? && Agree(n, NewLoad(ConstHandle(c, n, fp).value).value, fp)
  {
    Soundness.EvaluatorsExclude(n, fp);
  }

  /** Inlining a constant changes neither whether an expression elaborates nor its type, staticness or
      value. */
  lemma {:induction false} InlineAgrees(e: Expr, c: string, d: Expr, sc: nat, scopes: seq<ScopeRec>,
                                        calls: seq<CallStub>, env: Env)
    requires Wf(scopes) && sc < |scopes| && Defines(c, d, sc, scopes, env)
    ensures Same(ElabExpr(Inline(e, c, d), sc, scopes, calls, env.hash),
                 ElabExpr(e, sc, scopes, calls, env.hash), env.fp)
    decreases e, 1
  {
    hide Defines, Agree, Wf, Find;
    match e
    case Symbol(_) => SymbolAgrees(e, c, d, sc, scopes, calls, env);
    case ArrayRef(_, _) => PathAgrees(e, c, d, sc, scopes, calls, env);
    case MemberRef(_, _) => PathAgrees(e, c, d, sc, scopes, calls, env);
    case FuncCall(_, args) =>
      ArgsAgree(args, c, d, sc, scopes, calls, env);
      var x, y := ElabArgs(InlineAll(args, c, d), sc, scopes, calls, env.hash),
                  ElabArgs(args, sc, scopes, calls, env.hash);
      if x.r.Ok? { CallAgrees(x, y, env.fp); }
    case Unary(_, _) => UnaryAgrees(e, c, d, sc, scopes, calls, env);
    case Binary(_, _, _) => BinaryAgrees(e, c, d, sc, scopes, calls, env);
    case Ite(_, _, _) => IteAgrees(e, c, d, sc, scopes, calls, env);
    case _ => SameItself(ElabExpr(e, sc, scopes, calls, env.hash), env.fp);
  }

  lemma CallAgrees(x: Out<seq<Node>>, y: Out<seq<Node>>, fp: FloatOps)
    requires SameArgs(x, y) && x.r.Ok?
    ensures Agree(Node.FuncCall(x.r.value, |x.calls|), Node.FuncCall(y.r.value, |y.calls|), fp)
  {
  }

  lemma SameItself(x: Out<Node>, fp: FloatOps)
    ensures Same(x, x, fp)
  {
  }

  lemma SymbolAgrees(e: Expr, c: string, d: Expr, sc: nat, scopes: seq<ScopeRec>, calls: seq<CallStub>, env: Env)
    requires e.Symbol? && Wf(scopes) && sc < |scopes| && Defines(c, d, sc, scopes, env)
    ensures Same(ElabExpr(Inline(e, c, d), sc, scopes, calls, env.hash),
                 ElabExpr(e, sc, scopes, calls, env.hash), env.fp)
  {
    if e.name == c {
      StaticElab(d, sc, scopes, [], calls, env.hash);
      ConstantAgrees(c, ElabExpr(d, sc, scopes, [], env.hash).r.value, env.fp);
    }
  }

  lemma LoadsAgree(x: Out<Handle>, y: Out<Handle>, fp: FloatOps)
    requires SameHandle(x, y)
    ensures Same(LoadPrimary(x), LoadPrimary(y), fp)
  {
  }

  lemma {:induction false} PathAgrees(e: Expr, c: string, d: Expr, sc: nat, scopes: seq<ScopeRec>,
                                      calls: seq<CallStub>, env: Env)
    requires e.ArrayRef? || e.MemberRef?
    requires Wf(scopes) && sc < |scopes| && Defines(c, d, sc, scopes, env)
    ensures Same(ElabExpr(Inline(e, c, d), sc, scopes, calls, env.hash),
                 ElabExpr(e, sc, scopes, calls, env.hash), env.fp)
    decreases e, 0, 2
  {
    hide Same, SameHandle, Defines;
    PrimaryAgrees(e, c, d, sc, scopes, calls, env);
    LoadsAgree(ElabPrimary(InlinePrimary(e, c, d), sc, scopes, calls, env.hash),
               ElabPrimary(e, sc, scopes, calls, env.hash), env.fp);
  }

  lemma SameParts(x: Out<Node>, y: Out<Node>, fp: FloatOps)
    requires Same(x, y, fp)
    ensures x.calls == y.calls && (x.r.Ok? <==> y.r.Ok?)
    ensures !x.r.Ok? ==> x == y
    ensures x.r.Ok? ==> Agree(x.r.value, y.r.value, fp) && TypeOf(x.r.value) == TypeOf(y.r.value)
  {
  }

  lemma SameNodes(x: Out<Node>, y: Out<Node>, fp: FloatOps)
    requires x.calls == y.calls && x.r.Ok? && y.r.Ok? && Agree(x.r.value, y.r.value, fp)
    ensures Same(x, y, fp)
  {
  }

  lemma {:induction false} UnaryAgrees(e: Expr, c: string, d: Expr, sc: nat, scopes: seq<ScopeRec>,
                                       calls: seq<CallStub>, env: Env)
    requires e.Unary? && Wf(scopes) && sc < |scopes| && Defines(c, d, sc, scopes, env)
    ensures Same(ElabExpr(Inline(e, c, d), sc, scopes, calls, env.hash),
                 ElabExpr(e, sc, scopes, calls, env.hash), env.fp)
    decreases e, 0
  {
    hide Same, Agree, CalcType1, Defines, Wf;
    InlineAgrees(e.a, c, d, sc, scopes, calls, env);
    var x, y := ElabExpr(Inline(e.a, c, d), sc, scopes, calls, env.hash), ElabExpr(e.a, sc, scopes, calls, env.hash);
    var l, r := ElabExpr(Inline(e, c, d), sc, scopes, calls, env.hash), ElabExpr(e, sc, scopes, calls, env.hash);
    SameParts(x, y, env.fp);
    if x.r.Ok? && CalcType1(e.uop, TypeOf(y.r.value)).Ok? {
      AgreeUnary(e.uop, CalcType1(e.uop, TypeOf(y.r.value)).value.result, x.r.value, y.r.value, env.fp);
      SameNodes(l, r, env.fp);
    } else {
      assert l == r;
      SameItself(l, env.fp);
    }
  }

  lemma {:induction false} BinaryAgrees(e: Expr, c: string, d: Expr, sc: nat, scopes: seq<ScopeRec>,
                                        calls: seq<CallStub>, env: Env)
    requires e.Binary? && Wf(scopes) && sc < |scopes| && Defines(c, d, sc, scopes, env)
    ensures Same(ElabExpr(Inline(e, c, d), sc, scopes, calls, env.hash),
                 ElabExpr(e, sc, scopes, calls, env.hash), env.fp)
    decreases e, 0
  {
    hide Same, Agree, CalcType2, Defines, Wf;
    InlineAgrees(e.a, c, d, sc, scopes, calls, env);
    var x, y := ElabExpr(Inline(e.a, c, d), sc, scopes, calls, env.hash), ElabExpr(e.a, sc, scopes, calls, env.hash);
    InlineAgrees(e.b, c, d, sc, scopes, x.calls, env);
    var x', y' := ElabExpr(Inline(e.b, c, d), sc, scopes, x.calls, env.hash),
                  ElabExpr(e.b, sc, scopes, x.calls, env.hash);
    var l, r := ElabExpr(Inline(e, c, d), sc, scopes, calls, env.hash), ElabExpr(e, sc, scopes, calls, env.hash);
    SameParts(x, y, env.fp);
    SameParts(x', y', env.fp);
    if x.r.Ok? && x'.r.Ok? && CalcType2(e.bop, TypeOf(y.r.value), TypeOf(y'.r.value)).Ok? {
      var s := CalcType2(e.bop, TypeOf(y.r.value), TypeOf(y'.r.value)).value;
      AgreeBinary(e.bop, s.result, x.r.value, y.r.value, x'.r.value, y'.r.value, env.fp);
      SameNodes(l, r, env.fp);
    } else {
      assert l == r;
      SameItself(l, env.fp);
    }
  }

  lemma {:induction false} IteAgrees(e: Expr, c: string, d: Expr, sc: nat, scopes: seq<ScopeRec>, calls: seq<CallStub>,
                                       env: Env)
    requires e.Ite? && Wf(scopes) && sc < |scopes| && Defines(c, d, sc, scopes, env)
    ensures Same(ElabExpr(Inline(e, c, d), sc, scopes, calls, env.hash),
                 ElabExpr(e, sc, scopes, calls, env.hash), env.fp)
    decreases e, 0
  {
    hide Same, Agree, CalcType3, Defines, Wf;
    InlineAgrees(e.a, c, d, sc, scopes, calls, env);
    var x, y := ElabExpr(Inline(e.a, c, d), sc, scopes, calls, env.hash), ElabExpr(e.a, sc, scopes, calls, env.hash);
    InlineAgrees(e.b, c, d, sc, scopes, x.calls, env);
    var x', y' := ElabExpr(Inline(e.b, c, d), sc, scopes, x.calls, env.hash),
                  ElabExpr(e.b, sc, scopes, x.calls, env.hash);
    InlineAgrees(e.c, c, d, sc, scopes, x'.calls, env);
    var x'', y'' := ElabExpr(Inline(e.c, c, d), sc, scopes, x'.calls, env.hash),
                    ElabExpr(e.c, sc, scopes, x'.calls, env.hash);
    var l, r := ElabExpr(Inline(e, c, d), sc, scopes, calls, env.hash), ElabExpr(e, sc, scopes, calls, env.hash);
    SameParts(x, y, env.fp);
    SameParts(x', y', env.fp);
    SameParts(x'', y'', env.fp);
    if x.r.Ok? && x'.r.Ok? && x''.r.Ok? && CalcType3(TypeOf(y.r.value), TypeOf(y'.r.value), TypeOf(y''.r.value)).Ok? {
      var s := CalcType3(TypeOf(y.r.value), TypeOf(y'.r.value), TypeOf(y''.r.value)).value;
      AgreeTernary(s.result, x.r.value, y.r.value, x'.r.value, y'.r.value, x''.r.value, y''.r.value, env.fp);
      SameNodes(l, r, env.fp);
    } else {
      assert l == r;
      SameItself(l, env.fp);
    }
  }

  lemma {:induction false} ArgsAgree(es: seq<Expr>, c: string, d: Expr, sc: nat, scopes: seq<ScopeRec>,
                                     calls: seq<CallStub>, env: Env)
    requires Wf(scopes) && sc < |scopes| && Defines(c, d, sc, scopes, env)
    ensures SameArgs(ElabArgs(InlineAll(es, c, d), sc, scopes, calls, env.hash),
                     ElabArgs(es, sc, scopes, calls, env.hash))
    decreases es, 0
  {
    hide Agree, Defines, Wf, Find, ElabExpr, Inline;
    if es != [] {
      InlineAgrees(es[0], c, d, sc, scopes, calls, env);
      var all := InlineAll(es, c, d);
      assert all[0] == Inline(es[0], c, d) && all[1..] == InlineAll(es[1..], c, d);
      ArgsAgree(es[1..], c, d, sc, scopes, ElabExpr(es[0], sc, scopes, calls, env.hash).calls, env);
    }
  }

  lemma {:induction false} PrimaryAgrees(e: Expr, c: string, d: Expr, sc: nat, scopes: seq<ScopeRec>,
                                         calls: seq<CallStub>, env: Env)
    requires Wf(scopes) && sc < |scopes| && Defines(c, d, sc, scopes, env)
    ensures SameHandle(ElabPrimary(InlinePrimary(e, c, d), sc, scopes, calls, env.hash),
                       ElabPrimary(e, sc, scopes, calls, env.hash))
    decreases e, 0, 1
  {
    hide Defines;
    match e
    case ArrayRef(_, _) => ElementAgrees(e, c, d, sc, scopes, calls, env);
    case MemberRef(body, _) => PrimaryAgrees(body, c, d, sc, scopes, calls, env);
    case _ =>
  }

  lemma {:induction false} ElementAgrees(e: Expr, c: string, d: Expr, sc: nat, scopes: seq<ScopeRec>,
                                         calls: seq<CallStub>, env: Env)
    requires e.ArrayRef? && Wf(scopes) && sc < |scopes| && Defines(c, d, sc, scopes, env)
    ensures SameHandle(ElabPrimary(InlinePrimary(e, c, d), sc, scopes, calls, env.hash),
                       ElabPrimary(e, sc, scopes, calls, env.hash))
    decreases e, 0, 0
  {
    hide Defines, Agree, Element, SameHandle, Same;
    PrimaryAgrees(e.body, c, d, sc, scopes, calls, env);
    var p, q := ElabPrimary(InlinePrimary(e.body, c, d), sc, scopes, calls, env.hash),
                ElabPrimary(e.body, sc, scopes, calls, env.hash);
    BasesAgree(p, q);
    if p.r.Ok? && NewLoad(p.r.value).Ok? {
      InlineAgrees(e.index, c, d, sc, scopes, p.calls, env);
      ElementsAgree(NewLoad(p.r.value).value, NewLoad(q.r.value).value,
                    ElabExpr(Inline(e.index, c, d), sc, scopes, p.calls, env.hash),
                      ElabExpr(e.index, sc, scopes, p.calls, env.hash), env.fp);
    }
  }

  lemma BasesAgree(p: Out<Handle>, q: Out<Handle>)
    requires SameHandle(p, q)
    ensures p.calls == q.calls && (p.r.Ok? <==> q.r.Ok?)
    ensures !p.r.Ok? ==> p == q
    ensures p.r.Ok? ==>
              match (NewLoad(p.r.value), NewLoad(q.r.value))
              case (Ok(b), Ok(c)) => TypeOf(b) == TypeOf(c) && TypeOf(b).Some?
              case (x, y) => !x.Ok? && !y.Ok?
    ensures forall calls :: SameHandle(Out(Null, calls), Out(Null, calls))
    ensures forall calls :: SameHandle(Out(Abort, calls), Out(Abort, calls))
  {
  }

  lemma ElementsAgree(b: Node, b': Node, x: Out<Node>, y: Out<Node>, fp: FloatOps)
    requires TypeOf(b) == TypeOf(b') && Same(x, y, fp)
    ensures SameHandle(Element(b, x), Element(b', y))
  {
  }

  // ----- any nesting of constants -----

  datatype Const = Const(name: string, def: Expr)

  function InlineEach(e: Expr, cs: seq<Const>): Expr
    decreases cs
  {
    if cs == [] then e else InlineEach(Inline(e, cs[0].name, cs[0].def), cs[1..])
  }

  lemma SameTrans(x: Out<Node>, y: Out<Node>, z: Out<Node>, fp: FloatOps)
    requires Same(x, y, fp) && Same(y, z, fp)
    ensures Same(x, z, fp)
  {
  }

  /** Definitions that mention other constants may be written out in turn, in any order and as often as
      there are constants left. */
  lemma {:induction false} InlineEachAgrees(e: Expr, cs: seq<Const>, sc: nat, scopes: seq<ScopeRec>,
                                            calls: seq<CallStub>, env: Env)
    requires Wf(scopes) && sc < |scopes|
    requires forall i :: 0 <= i < |cs| ==> Defines(cs[i].name, cs[i].def, sc, scopes, env)
    ensures Same(ElabExpr(InlineEach(e, cs), sc, scopes, calls, env.hash),
                 ElabExpr(e, sc, scopes, calls, env.hash), env.fp)
    decreases cs
  {
    if cs != [] {
      var e' := Inline(e, cs[0].name, cs[0].def);
      InlineAgrees(e, cs[0].name, cs[0].def, sc, scopes, calls, env);
      InlineEachAgrees(e', cs[1..], sc, scopes, calls, env);
      SameTrans(ElabExpr(InlineEach(e', cs[1..]), sc, scopes, calls, env.hash),
                ElabExpr(e', sc, scopes, calls, env.hash),
                ElabExpr(e, sc, scopes, calls, env.hash), env.fp);
    }
  }
}
