/** Evaluating a constant expression while compiling gives the value the expression has when it is executed. */
module Folding {
  import opened Common
  import opened Ir
  import opened Ast
  import opened Typing
  import opened Interp
  import opened Soundness
  import opened ScopeGraph
  import opened Elaborate
  import opened Source
  import Constants
  import ConstProp
  import Meaning

  datatype Const = B(b: bool) | I(i: int) | F(f: Double) | T(s: string)

  function Defined<A>(e: Ev<A>, mk: A -> Const): Option<Const> {
    match e case Val(v) => Some(mk(v)) case _ => None
  }

  function UnaryConst(op: UniOp, x: Const, fp: FloatOps): Option<Const> {
    match (op, x)
    case (LogNot, B(b)) => Some(B(!b))
    case (BitNeg, I(i)) => Some(I(-i - 1))
    case (UniMinus, I(i)) => Defined(Checked(-i), v => I(v))
    case (UniMinus, F(f)) => Some(F(fp.neg(f)))
    case _ => None
  }

  /** Integers with integers and floats with floats. */
  function BinaryConst(op: BinOp, x: Const, y: Const, fp: FloatOps): Option<Const> {
    match (x, y)
    case (I(i), I(j)) =>
      (match op
       case Equal => Some(B(i == j))
       case NotEq => Some(B(i != j))
       case Lt => Some(B(i < j))
       case Le => Some(B(i <= j))
       case _ => Defined(IntOp(op, i, j), v => I(v)))
    case (F(f), F(g)) =>
      (match op
       case Equal => Some(B(fp.eq(f, g)))
       case NotEq => Some(B(!fp.eq(f, g)))
       case Lt => Some(B(fp.lt(f, g)))
       case Le => Some(B(fp.le(f, g)))
       case _ => Defined(FloatOp(op, f, g, fp), v => F(v)))
    case _ => None
  }

  /** The source language over constants: nothing can be read, stored or called. */
  function Constantly<S>(fp: FloatOps): Lang<S, Const> {
    Lang(b => B(b), i => I(i), f => F(f), s => T(s),
         (v: Const) => if v.B? then Some(v.b) else None,
         v => None, v => None,
         (op, x) => UnaryConst(op, x, fp), (op, x, y) => BinaryConst(op, x, y, fp),
         (h, m) => None, (h, v, m) => None, (a, i, m) => None, (a, i, v, m) => None, (c, vs, m) => None)
  }

  /** What the evaluator for the type of the node makes of it. */
  function Folded(n: Node, fp: FloatOps): Option<Const> {
    match TypeOf(n)
    case Some(Boolean) => Defined(EvalBoolean(n, fp), v => B(v))
    case Some(Int) => Defined(EvalInt(n, fp), v => I(v))
    case Some(Float) => Defined(EvalFloat(n, fp), v => F(v))
    case _ => None
  }

  ghost predicate Agrees<S>(n: Node, calls: seq<CallStub>, s: S, fp: FloatOps) {
    var r := NodeValue(Constantly(fp), calls, n, s);
    if TypeOf(n) == Some(String) then r.Some? ==> r.value.0.T? && r.value.1 == s
    else r == match Folded(n, fp) case Some(v) => Some((v, s)) case None => None
  }

  /** The two agree on every constant expression the typing rules accept: if one has a value so has the other, and it
      is the same. */
  lemma {:induction false} NodeFolds<S>(n: Node, calls: seq<CallStub>, s: S, fp: FloatOps)
    requires Accepted(n)
    ensures Agrees(n, calls, s, fp)
  {
    match n
    case Load(_, _) => LoadFolds(n, calls, s, fp);
    case UniOp(_, _, a) =>
      NodeFolds(a, calls, s, fp);
      ValueHasType(a, fp);
      UniOpFolds(n, calls, s, fp);
    case BinOp(op, _, a, b) =>
      NodeFolds(a, calls, s, fp);
      NodeFolds(b, calls, s, fp);
      ValueHasType(a, fp);
      ValueHasType(b, fp);
      if Connective(op) { LogicFolds(n, calls, s, fp); } else { BinOpFolds(n, calls, s, fp); }
    case TriOp(_, a, b, c) =>
      NodeFolds(a, calls, s, fp);
      NodeFolds(b, calls, s, fp);
      NodeFolds(c, calls, s, fp);
      ValueHasType(a, fp);
      TriOpFolds(n, calls, s, fp);
  }

  lemma LoadFolds<S>(n: Node, calls: seq<CallStub>, s: S, fp: FloatOps)
    requires n.Load? && Accepted(n)
    ensures Agrees(n, calls, s, fp)
  {
  }

  lemma UniOpFolds<S>(n: Node, calls: seq<CallStub>, s: S, fp: FloatOps)
    requires n.UniOp? && Accepted(n) && Agrees(n.a, calls, s, fp) && OwnValue(n.a, fp)
    ensures Agrees(n, calls, s, fp)
  {
    UnaryFolded(n, fp);
    hide Accepted, Folded, OwnValue;
  }

  /** The evaluators apply an operator to the value of its operand. */
  lemma UnaryFolded(n: Node, fp: FloatOps)
    requires n.UniOp? && Accepted(n) && OwnValue(n.a, fp)
    ensures TypeOf(n) != Some(String) && TypeOf(n.a) != Some(String)
    ensures Folded(n, fp) == match Folded(n.a, fp) case Some(x) => UnaryConst(n.uop, x, fp) case None => None
  {
    UnaryTypes(n);
    hide Accepted;
    match n.uop
    case LogNot => NotFolded(n, fp);
    case BitNeg => ComplementFolded(n, fp);
    case _ => MinusFolded(n, fp);
  }

  lemma NotFolded(n: Node, fp: FloatOps)
    requires n.UniOp? && n.uop.LogNot? && n.ty == Boolean && OwnValue(n.a, fp)
    ensures Folded(n, fp) == match Folded(n.a, fp) case Some(x) => UnaryConst(n.uop, x, fp) case None => None
  {
    hide EvalInt, EvalFloat;
  }

  lemma ComplementFolded(n: Node, fp: FloatOps)
    requires n.UniOp? && n.uop.BitNeg? && n.ty == Int && TypeOf(n.a) == Some(Int)
    ensures Folded(n, fp) == match Folded(n.a, fp) case Some(x) => UnaryConst(n.uop, x, fp) case None => None
  {
    hide EvalBoolean, EvalFloat;
  }

  lemma MinusFolded(n: Node, fp: FloatOps)
    requires n.UniOp? && n.uop.UniMinus? && TypeOf(n.a) == Some(n.ty) && (n.ty == Int || n.ty == Float)
    ensures Folded(n, fp) == match Folded(n.a, fp) case Some(x) => UnaryConst(n.uop, x, fp) case None => None
  {
    hide EvalBoolean;
    if n.ty == Int { hide EvalFloat; } else { hide EvalInt; }
  }

  lemma UnaryTypes(n: Node)
    requires n.UniOp? && Accepted(n)
    ensures match n.uop
            case LogNot => n.ty == Boolean && TypeOf(n.a) != Some(String)
            case BitNeg => n.ty == Int && TypeOf(n.a) == Some(Int)
            case UniMinus => (n.ty == Int || n.ty == Float) && TypeOf(n.a) == Some(n.ty)
            case _ => false
  {
  }

  lemma LogicFolds<S>(n: Node, calls: seq<CallStub>, s: S, fp: FloatOps)
    requires n.BinOp? && Connective(n.bop) && Accepted(n)
    requires Agrees(n.a, calls, s, fp) && Agrees(n.b, calls, s, fp) && OwnValue(n.a, fp) && OwnValue(n.b, fp)
    ensures Agrees(n, calls, s, fp)
  {
    hide Accepted;
    AcceptedParts(n);
    BinaryTypes(n.bop, TypeOf(n.a), TypeOf(n.b));
    hide CalcType2, EvalInt, EvalFloat;
    if EvalBoolean(n.a, fp).Val? { assert Folded(n.a, fp) == Some(B(EvalBoolean(n.a, fp).v)); }
    if EvalBoolean(n.b, fp).Val? { assert Folded(n.b, fp) == Some(B(EvalBoolean(n.b, fp).v)); }
  }

  lemma BinOpFolds<S>(n: Node, calls: seq<CallStub>, s: S, fp: FloatOps)
    requires n.BinOp? && !Connective(n.bop) && Accepted(n)
    requires Agrees(n.a, calls, s, fp) && Agrees(n.b, calls, s, fp) && OwnValue(n.a, fp) && OwnValue(n.b, fp)
    ensures Agrees(n, calls, s, fp)
  {
    BinaryFolded(n, fp);
    NoText(n.a, fp);
    NoText(n.b, fp);
    BinaryValue(Constantly(fp), calls, n, s);
    hide Accepted, Folded, OwnValue, NodeValue, BinaryConst, Constantly;
    var x, y := NodeValue(Constantly(fp), calls, n.a, s), NodeValue(Constantly(fp), calls, n.b, s);
    if x.Some? && y.Some? { ConstantlyBinary<S>(n.bop, x.value.0, y.value.0, fp); }
  }

  lemma ConstantlyBinary<S>(op: BinOp, x: Const, y: Const, fp: FloatOps)
    ensures Constantly<S>(fp).binary(op, x, y) == BinaryConst(op, x, y, fp)
    ensures x.T? || y.T? ==> BinaryConst(op, x, y, fp) == None
  {
  }

  lemma BinaryValue<S, V>(l: Lang<S, V>, calls: seq<CallStub>, n: Node, s: S)
    requires n.BinOp? && !Connective(n.bop)
    ensures var x := NodeValue(l, calls, n.a, s);
            NodeValue(l, calls, n, s) ==
              if x.None? then None else
                var y := NodeValue(l, calls, n.b, x.value.1);
                if y.None? then None else
                  var v := l.binary(n.bop, x.value.0, y.value.0);
                  if v.None? then None else Some((v.value, y.value.1))
  {
  }

  lemma NoText(n: Node, fp: FloatOps)
    ensures Folded(n, fp).Some? ==> !Folded(n, fp).value.T? && TypeOf(n) != Some(String)
  {
    hide EvalBoolean, EvalInt, EvalFloat;
  }

  /** The evaluators apply an operator to the values of both operands, the left one first. */
  lemma BinaryFolded(n: Node, fp: FloatOps)
    requires n.BinOp? && !Connective(n.bop) && Accepted(n) && OwnValue(n.a, fp) && OwnValue(n.b, fp)
    ensures TypeOf(n) != Some(String)
    ensures var x, y := Folded(n.a, fp), Folded(n.b, fp);
            Folded(n, fp) == if x.Some? && y.Some? then BinaryConst(n.bop, x.value, y.value, fp) else None
  {
    AcceptedParts(n);
    hide Accepted;
    BinaryTypes(n.bop, TypeOf(n.a), TypeOf(n.b));
    if Relational(n.bop) {
      RelatedTypes(n.bop, TypeOf(n.a), TypeOf(n.b));
      RelationFolded(n, fp);
    } else {
      ArithmeticTypes(n.bop, TypeOf(n.a), TypeOf(n.b));
      if n.ty == Int { IntFolded(n, fp); } else { FloatFolded(n, fp); }
    }
  }

  lemma RelationFolded(n: Node, fp: FloatOps)
    requires n.BinOp? && Relational(n.bop) && n.ty == Boolean && OwnValue(n.a, fp) && OwnValue(n.b, fp)
    requires TypeOf(n.a) != Some(Boolean) && TypeOf(n.b) != Some(Boolean)
    ensures var x, y := Folded(n.a, fp), Folded(n.b, fp);
            Folded(n, fp) == if x.Some? && y.Some? then BinaryConst(n.bop, x.value, y.value, fp) else None
  {
    hide EvalInt, EvalFloat;
    if n.bop.Equal? || n.bop.NotEq? {
      var e := EvalEqual(n, fp);
      assert EvalBoolean(n, fp) == if n.bop.Equal? then e else Then(e, x => Val(!x));
    }
  }

  lemma ArithmeticTypes(op: BinOp, t1: Option<Ty>, t2: Option<Ty>)
    requires !Relational(op) && !Connective(op) && CalcType2(op, t1, t2).Ok?
    ensures CalcType2(op, t1, t2).value.result == Int <==> t1 == t2 == Some(Int)
  {
  }

  lemma IntFolded(n: Node, fp: FloatOps)
    requires n.BinOp? && !Relational(n.bop) && !Connective(n.bop) && n.ty == Int
    requires TypeOf(n.a) == TypeOf(n.b) == Some(Int)
    ensures var x, y := Folded(n.a, fp), Folded(n.b, fp);
            Folded(n, fp) == if x.Some? && y.Some? then BinaryConst(n.bop, x.value, y.value, fp) else None
  {
    hide EvalBoolean, EvalFloat, IntOp;
  }

  lemma FloatFolded(n: Node, fp: FloatOps)
    requires n.BinOp? && FloatArithmetic(n.bop) && n.ty == Float && OwnValue(n.a, fp) && OwnValue(n.b, fp)
    requires !(TypeOf(n.a) == TypeOf(n.b) == Some(Int))
    ensures var x, y := Folded(n.a, fp), Folded(n.b, fp);
            Folded(n, fp) == if x.Some? && y.Some? then BinaryConst(n.bop, x.value, y.value, fp) else None
  {
    hide EvalBoolean, EvalInt;
  }

  lemma TriOpFolds<S>(n: Node, calls: seq<CallStub>, s: S, fp: FloatOps)
    requires n.TriOp? && Accepted(n) && Agrees(n.a, calls, s, fp) && OwnValue(n.a, fp)
    requires Agrees(n.b, calls, s, fp) && Agrees(n.c, calls, s, fp)
    ensures Agrees(n, calls, s, fp)
  {
    ChoiceTypes(n);
    ChoiceFolded(n, fp);
    NoText(n.a, fp);
    ChoiceValue(Constantly(fp), calls, n, s);
    ConstantlyTruth<S>(fp);
    hide Accepted, Folded, OwnValue, NodeValue, Constantly;
  }

  lemma ConstantlyTruth<S>(fp: FloatOps)
    ensures forall x :: Constantly<S>(fp).truth(x) == if x.B? then Some(x.b) else None
  {
  }

  lemma ChoiceValue<S, V>(l: Lang<S, V>, calls: seq<CallStub>, n: Node, s: S)
    requires n.TriOp?
    ensures var x := NodeValue(l, calls, n.a, s);
            NodeValue(l, calls, n, s) ==
              if x.None? then None else
                var t := l.truth(x.value.0);
                if t.None? then None else NodeValue(l, calls, if t.value then n.b else n.c, x.value.1)
  {
  }

  /** The evaluators choose the branch that the value of the condition selects. */
  lemma ChoiceFolded(n: Node, fp: FloatOps)
    requires n.TriOp? && Accepted(n) && OwnValue(n.a, fp)
    ensures var x := Folded(n.a, fp);
            Folded(n, fp) == if x.Some? && x.value.B? then Folded(if x.value.b then n.b else n.c, fp) else None
  {
    ChoiceTypes(n);
    hide Accepted;
    if TypeOf(n) == Some(Boolean) { hide EvalInt, EvalFloat; }
    else if TypeOf(n) == Some(Int) { hide EvalFloat; }
    else { hide EvalInt; }
  }

  lemma ChoiceTypes(n: Node)
    requires n.TriOp? && Accepted(n)
    ensures TypeOf(n.b) == TypeOf(n.c) == Some(n.ty) && TypeOf(n.a) != Some(String)
    ensures n.ty == Boolean || n.ty == Int || n.ty == Float || n.ty == String
  {
    AcceptedType(n);
  }

  // ----- named constants -----

  /** A constant expression has the value it is evaluated to when it is compiled; if that is impossible it has none. */
  lemma ConstantMeans<S>(e: Expr, c: Context, cs: seq<CallStub>, s: S, fp: FloatOps)
    requires c.Valid() && Meaning.Elaborated(e, c, cs)
    requires IsStatic(Meaning.NodeOf(e, c, cs)) && TypeOf(Meaning.NodeOf(e, c, cs)) != Some(String)
    ensures Source.Value(Constantly(fp), e, c, s)
         == match Folded(Meaning.NodeOf(e, c, cs), fp) case Some(v) => Some((v, s)) case None => None
  {
    ConstProp.StaticAccepted(e, c.sc, c.scopes, cs, c.hash);
    hide Wf, ElabExpr, NodeValue, Source.Value, Folded, Accepted, IsStatic;
    Meaning.ExprMeans(Constantly(fp), e, c, cs, s);
    NodeFolds(Meaning.NodeOf(e, c, cs), c.calls, s, fp);
  }

  lemma HandleMeans<S>(name: string, d: Expr, sc: nat, st: State, env: Env, s: S, h: Handle, c: Context)
    requires Wf(st.scopes) && sc < |st.scopes| && Constants.Constant(d, sc, st.scopes, env)
    requires h == Constants.HandleOf(name, d, sc, st.scopes, env)
    requires c.Valid() && Find(c.scopes, c.sc, name, c.hash) == Some(h)
    ensures var l := Constantly<S>(env.fp);
            var v := Source.Value(l, d, Here(sc, st, env, []), s);
            v.Some? && Source.Value(l, Symbol(name), c, s) == v
  {
    ConstProp.StaticElab(d, sc, st.scopes, [], [], env.hash);
    var n := ElabExpr(d, sc, st.scopes, [], env.hash).r.value;
    HandleHolds(name, n, env.fp);
    hide Wf, Find, ElabExpr, IsStatic, Folded, ConstHandle, Source.Value;
    ConstantMeans(d, Here(sc, st, env, []), [], s, env.fp);
    NameReads(Constantly<S>(env.fp), name, h, c, s);
  }

  /** Behind the declaration of a constant its name has the value its definition had in front of it, and it has one. */
  lemma NameHasValue<S>(name: string, t: TypeExpr, d: Expr, sc: nat, st: State, env: Env, s: S)
    requires Wf(st.scopes) && sc < |st.scopes| && Constants.Declares(name, t, d, sc, st, env)
    ensures var r, l := RegConst(name, t, d, sc, st, env), Constantly<S>(env.fp);
            var v := Source.Value(l, d, Here(sc, st, env, []), s);
            r.Ok? && v.Some? && Source.Value(l, Symbol(name), Here(sc, r.value, env, []), s) == v
  {
    hide Wf, RegConst, Find, Constants.After, Constants.HandleOf, Constants.Constant, Source.Value, ResolveType;
    Constants.RegConstAdds(name, t, d, sc, st, env);
    Constants.ConstantFound(name, d, sc, st.scopes, env);
    HandleMeans(name, d, sc, st, env, s, Constants.HandleOf(name, d, sc, st.scopes, env),
                Here(sc, RegConst(name, t, d, sc, st, env).value, env, []));
  }

  lemma HandleHolds(name: string, n: Node, fp: FloatOps)
    requires ConstHandle(name, n, fp).Ok?
    ensures Folded(n, fp).Some? && TypeOf(n) != Some(String)
    ensures match ConstHandle(name, n, fp).value
            case BooleanConst(_, v) => Folded(n, fp) == Some(B(v))
            case IntConst(_, v) => Folded(n, fp) == Some(I(v))
            case FloatConst(_, v) => Folded(n, fp) == Some(F(v))
            case _ => false
  {
    hide EvalBoolean, EvalInt, EvalFloat;
  }

  lemma NameReads<S, V>(l: Lang<S, V>, name: string, h: Handle, c: Context, s: S)
    requires c.Valid() && Find(c.scopes, c.sc, name, c.hash) == Some(h)
    ensures h.BooleanConst? ==> Source.Value(l, Symbol(name), c, s) == Some((l.ofBool(h.bval), s))
    ensures h.IntConst? ==> Source.Value(l, Symbol(name), c, s) == Some((l.ofInt(h.ival), s))
    ensures h.FloatConst? ==> Source.Value(l, Symbol(name), c, s) == Some((l.ofFloat(h.fval), s))
  {
    hide Wf, Find;
    if h.BooleanConst? || h.IntConst? || h.FloatConst? {
      assert PlaceOf(l, Symbol(name), c, s) == Some((Var(h), s));
      assert Source.Value(l, Symbol(name), c, s) == Contents(l, Symbol(name), c, s);
    }
  }
}
