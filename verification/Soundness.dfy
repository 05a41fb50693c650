/** What the evaluator does on typed constant expressions. */
module Soundness {
  import opened Common
  import opened Ir
  import opened Typing
  import opened Interp

  // ----- nodes the typing rules accept -----

  /** The typing rule applied at the root of an operator node. */
  function RootSig(n: Node): Res<Sig>
    requires n.UniOp? || n.BinOp? || n.TriOp?
  {
    match n
    case UniOp(op, _, a) => CalcType1(op, TypeOf(a))
    case BinOp(op, _, a, b) => CalcType2(op, TypeOf(a), TypeOf(b))
    case TriOp(_, a, b, c) => CalcType3(TypeOf(a), TypeOf(b), TypeOf(c))
  }

  function Operands(n: Node): seq<Node> {
    match n
    case UniOp(_, _, a) => [a]
    case BinOp(_, _, a, b) => [a, b]
    case TriOp(_, a, b, c) => [a, b, c]
    case _ => []
  }

  /** Every operand already has the type the rule requires, so no cast is missing. */
  ghost predicate NoCastMissing(n: Node)
    requires (n.UniOp? || n.BinOp? || n.TriOp?) && RootSig(n).Ok?
  {
    var req := RootSig(n).value.req;
    |req| == |Operands(n)| && forall i :: 0 <= i < |req| ==> TypeOf(Operands(n)[i]) == Some(req[i])
  }

  /** A constant expression whose operators are all accepted with operands of the required types. */
  ghost predicate WellTyped(n: Node) {
    match n
    case Load(ty, h) => StaticHandle(h) && LoadType(h) == Ok(ty)
    case UniOp(_, ty, a) => WellTyped(a) && RootSig(n).Ok? && RootSig(n).value.result == ty && NoCastMissing(n)
    case BinOp(_, ty, a, b) =>
      WellTyped(a) && WellTyped(b) && RootSig(n).Ok? && RootSig(n).value.result == ty && NoCastMissing(n)
    case TriOp(ty, a, b, c) =>
      WellTyped(a) && WellTyped(b) && WellTyped(c) && RootSig(n).Ok? && RootSig(n).value.result == ty
        && NoCastMissing(n)
    case _ => false
  }

  predicate NoStrings(n: Node) {
    && TypeOf(n) != Some(String)
    && match n
       case UniOp(_, _, a) => NoStrings(a)
       case BinOp(_, _, a, b) => NoStrings(a) && NoStrings(b)
       case TriOp(_, a, b, c) => NoStrings(a) && NoStrings(b) && NoStrings(c)
       case _ => true
  }

  /** The evaluator chosen by the type of the node, reduced to how it ends. */
  datatype End = Value | NoValue | Assertion

  function EndOf<T>(e: Ev<T>): End {
    match e case Val(_) => Value case Undef => NoValue case Unreachable => Assertion
  }

  function Evaluate(n: Node, fp: FloatOps): End {
    match TypeOf(n)
    case Some(Boolean) => EndOf(EvalBoolean(n, fp))
    case Some(Int) => EndOf(EvalInt(n, fp))
    case Some(Float) => EndOf(EvalFloat(n, fp))
    case _ => Assertion
  }

  predicate Relational(op: BinOp) { op.Equal? || op.NotEq? || op.Lt? || op.Le? }

  predicate Connective(op: BinOp) { op.LogAnd? || op.LogOr? }

  predicate FloatArithmetic(op: BinOp) { op.Add? || op.Sub? || op.Mul? || op.Div? }

  /** What the typing rules of the three families of binary operators have in common. */
  lemma BinaryTypes(op: BinOp, t1: Option<Ty>, t2: Option<Ty>)
    requires CalcType2(op, t1, t2).Ok?
    ensures var s := CalcType2(op, t1, t2).value;
            if Connective(op) then s == Sig(Boolean, [Boolean, Boolean])
            else if Relational(op) then
              s.result == Boolean && |s.req| == 2 && s.req[0] == s.req[1] && (t1 == t2 ==> Some(s.req[0]) == t1)
            else s.req == [s.result, s.result] && (s.result == Int || (s.result == Float && FloatArithmetic(op)))
    ensures !Connective(op) && !Relational(op) && t1 == t2 ==> Some(CalcType2(op, t1, t2).value.result) == t1
  {
  }

  /** Booleans are not compared. */
  lemma RelatedTypes(op: BinOp, t1: Option<Ty>, t2: Option<Ty>)
    requires Relational(op) && CalcType2(op, t1, t2).Ok?
    ensures t1 != Some(Boolean) && t2 != Some(Boolean)
  {
  }

  lemma BinOpEvaluates(n: Node, fp: FloatOps)
    requires n.BinOp? && RootSig(n).Ok? && RootSig(n).value.result == n.ty && NoCastMissing(n)
    requires TypeOf(n.a) == Some(Boolean) || TypeOf(n.a) == Some(Int) || TypeOf(n.a) == Some(Float)
    requires Evaluate(n.a, fp) != Assertion && Evaluate(n.b, fp) != Assertion
    ensures n.ty == Boolean || n.ty == Int || n.ty == Float
    ensures Evaluate(n, fp) != Assertion
  {
    hide CalcType2;
    BinaryTypes(n.bop, TypeOf(n.a), TypeOf(n.b));
    if Relational(n.bop) { RelatedTypes(n.bop, TypeOf(n.a), TypeOf(n.b)); }
    assert TypeOf(Operands(n)[0]) == Some(RootSig(n).value.req[0]);
    assert TypeOf(Operands(n)[1]) == Some(RootSig(n).value.req[1]);
    assert n.bop.Equal? || n.bop.NotEq? ==> !EvalEqual(n, fp).Unreachable?;
  }

  /** Type soundness: a well-typed constant expression without strings is evaluated without reaching
      an assertion, whatever the arithmetic of floats. */
  lemma {:induction false} WellTypedEvaluates(n: Node, fp: FloatOps)
    requires WellTyped(n) && NoStrings(n)
    ensures IsStatic(n)
    ensures TypeOf(n) == Some(Boolean) || TypeOf(n) == Some(Int) || TypeOf(n) == Some(Float)
    ensures Evaluate(n, fp) != Assertion
  {
    match n
    case UniOp(_, _, a) =>
      WellTypedEvaluates(a, fp);
      assert TypeOf(Operands(n)[0]) == Some(RootSig(n).value.req[0]);
    case BinOp(_, _, a, b) =>
      WellTypedEvaluates(a, fp);
      WellTypedEvaluates(b, fp);
      BinOpEvaluates(n, fp);
    case TriOp(_, a, b, c) =>
      WellTypedEvaluates(a, fp);
      WellTypedEvaluates(b, fp);
      WellTypedEvaluates(c, fp);
      assert TypeOf(Operands(n)[0]) == Some(RootSig(n).value.req[0]);
      assert TypeOf(Operands(n)[1]) == Some(RootSig(n).value.req[1]);
    case _ =>
  }

  /** At most one of the three evaluators has a value for a node; the others reach an assertion. */
  lemma {:induction false} EvaluatorsExclude(n: Node, fp: FloatOps)
    ensures EvalBoolean(n, fp).Val? ==> EvalInt(n, fp).Unreachable? && EvalFloat(n, fp).Unreachable?
    ensures EvalInt(n, fp).Val? ==> EvalBoolean(n, fp).Unreachable? && EvalFloat(n, fp).Unreachable?
    ensures EvalFloat(n, fp).Val? ==> EvalBoolean(n, fp).Unreachable? && EvalInt(n, fp).Unreachable?
  {
    match n
    case UniOp(_, _, a) => EvaluatorsExclude(a, fp);
    case BinOp(_, _, a, b) =>
      EvaluatorsExclude(a, fp);
      EvaluatorsExclude(b, fp);
    case TriOp(_, a, b, c) =>
      EvaluatorsExclude(b, fp);
      EvaluatorsExclude(c, fp);
    case _ =>
  }

  // ----- where casts are missing -----

  /** Whether the evaluator stops before it looks at the second operand. */
  predicate ShortCircuits(n: Node, fp: FloatOps) {
    && n.BinOp?
    && TypeOf(n.a) == Some(Boolean)
    && ((n.bop.LogAnd? && EvalBoolean(n.a, fp) == Val(false)) || (n.bop.LogOr? && EvalBoolean(n.a, fp) == Val(true)))
  }

  /** A well-typed operand with a value has it in the evaluator of its own type only. */
  lemma OperandEnds(a: Node, fp: FloatOps)
    requires WellTyped(a) && NoStrings(a) && Evaluate(a, fp) == Value
    ensures HasValue(a, fp)
  {
    WellTypedEvaluates(a, fp);
    EvaluatorsExclude(a, fp);
  }

  /** The elaborator works out the casts an operator needs but does not insert them. For an operator
      node it accepts, over operands with values, the evaluator reaches an assertion exactly when a
      cast is missing and it gets as far as the operand that needs it. */
  lemma MissingCastReachesAssertion(n: Node, fp: FloatOps)
    requires n.UniOp? || n.BinOp? || n.TriOp?
    requires RootSig(n).Ok? && TypeOf(n) == Some(RootSig(n).value.result) && NoStrings(n)
    requires forall i :: 0 <= i < |Operands(n)| ==> WellTyped(Operands(n)[i]) && Evaluate(Operands(n)[i], fp) == Value
    ensures Evaluate(n, fp) == Assertion <==> !NoCastMissing(n) && !ShortCircuits(n, fp)
  {
    hide RootSig, NoCastMissing, WellTyped, NoStrings, Evaluate, HasValue, ShortCircuits;
    ghost var ops := Operands(n);
    NoStringOperands(n);
    forall i | 0 <= i < |ops| ensures HasValue(ops[i], fp) { OperandEnds(ops[i], fp); }
    match n
    case UniOp(_, _, a) =>
      assert a == ops[0];
      MissingCastUniOp(n, fp);
    case BinOp(_, _, a, b) =>
      assert a == ops[0] && b == ops[1];
      MissingCastBinOp(n, fp);
    case TriOp(_, a, b, c) =>
      assert a == ops[0] && b == ops[1] && c == ops[2];
      MissingCastTriOp(n, fp);
  }

  lemma NoStringOperands(n: Node)
    requires NoStrings(n)
    ensures forall i :: 0 <= i < |Operands(n)| ==> NoStrings(Operands(n)[i])
  {
  }

  /** The operand has a value, in the evaluator of its own type only. */
  predicate HasValue(a: Node, fp: FloatOps) {
    match TypeOf(a)
    case Some(Boolean) => EvalBoolean(a, fp).Val? && EvalInt(a, fp).Unreachable? && EvalFloat(a, fp).Unreachable?
    case Some(Int) => EvalBoolean(a, fp).Unreachable? && EvalInt(a, fp).Val? && EvalFloat(a, fp).Unreachable?
    case Some(Float) => EvalBoolean(a, fp).Unreachable? && EvalInt(a, fp).Unreachable? && EvalFloat(a, fp).Val?
    case _ => false
  }

  lemma MissingCastUniOp(n: Node, fp: FloatOps)
    requires n.UniOp? && RootSig(n).Ok? && n.ty == RootSig(n).value.result && HasValue(n.a, fp)
    ensures Evaluate(n, fp) == Assertion <==> !NoCastMissing(n) && !ShortCircuits(n, fp)
  {
    assert Operands(n)[0] == n.a;
  }

  lemma MissingCastTriOp(n: Node, fp: FloatOps)
    requires n.TriOp? && RootSig(n).Ok? && n.ty == RootSig(n).value.result
    requires HasValue(n.a, fp) && HasValue(n.b, fp) && HasValue(n.c, fp)
    ensures Evaluate(n, fp) == Assertion <==> !NoCastMissing(n) && !ShortCircuits(n, fp)
  {
    assert RootSig(n).value.req == [Boolean, TypeOf(n.b).value, TypeOf(n.c).value];
    assert Operands(n)[0] == n.a && Operands(n)[1] == n.b && Operands(n)[2] == n.c;
  }

  lemma MissingCastBinOp(n: Node, fp: FloatOps)
    requires n.BinOp? && RootSig(n).Ok? && n.ty == RootSig(n).value.result
    requires HasValue(n.a, fp) && HasValue(n.b, fp)
    ensures Evaluate(n, fp) == Assertion <==> !NoCastMissing(n) && !ShortCircuits(n, fp)
  {
    hide CalcType2, HasValue, Evaluate, TypeOf;
    BinaryTypes(n.bop, TypeOf(n.a), TypeOf(n.b));
    assert Operands(n) == [n.a, n.b];
    assert NoCastMissing(n)
      <==> TypeOf(n.a) == Some(RootSig(n).value.req[0]) && TypeOf(n.b) == Some(RootSig(n).value.req[1]);
    if Connective(n.bop) { MissingCastLogical(n, fp); }
    else if Relational(n.bop) { MissingCastRelation(n, fp); }
    else if n.ty == Int { MissingCastInt(n, fp); }
    else { MissingCastFloat(n, fp); }
  }

  lemma MissingCastInt(n: Node, fp: FloatOps)
    requires n.BinOp? && n.ty == Int && HasValue(n.a, fp) && HasValue(n.b, fp)
    requires !Connective(n.bop) && !Relational(n.bop)
    ensures Evaluate(n, fp) == Assertion <==> !(TypeOf(n.a) == TypeOf(n.b) == Some(Int))
  {
  }

  lemma MissingCastFloat(n: Node, fp: FloatOps)
    requires n.BinOp? && n.ty == Float && HasValue(n.a, fp) && HasValue(n.b, fp)
    requires FloatArithmetic(n.bop)
    ensures Evaluate(n, fp) == Assertion <==> !(TypeOf(n.a) == TypeOf(n.b) == Some(Float))
  {
  }

  lemma MissingCastLogical(n: Node, fp: FloatOps)
    requires n.BinOp? && Connective(n.bop) && n.ty == Boolean && HasValue(n.a, fp) && HasValue(n.b, fp)
    ensures Evaluate(n, fp) == Assertion <==>
            !(TypeOf(n.a) == TypeOf(n.b) == Some(Boolean)) && !ShortCircuits(n, fp)
  {
  }

  lemma MissingCastRelation(n: Node, fp: FloatOps)
    requires n.BinOp? && Relational(n.bop) && n.ty == Boolean && HasValue(n.a, fp) && HasValue(n.b, fp)
    requires CalcType2(n.bop, TypeOf(n.a), TypeOf(n.b)).Ok?
    ensures Evaluate(n, fp) == Assertion <==> TypeOf(n.a) != TypeOf(n.b)
  {
    RelatedTypes(n.bop, TypeOf(n.a), TypeOf(n.b));
    hide CalcType2;
    if n.bop.Equal? || n.bop.NotEq? {
      assert EvalEqual(n, fp).Unreachable? <==> TypeOf(n.a) != TypeOf(n.b);
    }
  }

  // ----- casts missing anywhere -----

  /** A constant expression the typing rules accept at every operator. Casts may be missing. */
  ghost predicate Accepted(n: Node) {
    match n
    case Load(ty, h) => StaticHandle(h) && LoadType(h) == Ok(ty)
    case UniOp(_, ty, a) => Accepted(a) && RootSig(n).Ok? && RootSig(n).value.result == ty
    case BinOp(_, ty, a, b) => Accepted(a) && Accepted(b) && RootSig(n).Ok? && RootSig(n).value.result == ty
    case TriOp(ty, a, b, c) =>
      Accepted(a) && Accepted(b) && Accepted(c) && RootSig(n).Ok? && RootSig(n).value.result == ty
    case _ => false
  }

  /** Nothing that evaluation gets to is a string or lacks a cast: the second operand of a logical operator
      counts only if the first does not decide, and of if-then-else the branch that is taken. */
  ghost predicate Clean(n: Node, fp: FloatOps) {
    && TypeOf(n) != Some(String)
    && match n
       case UniOp(_, _, a) => RootSig(n).Ok? && NoCastMissing(n) && Clean(a, fp)
       case BinOp(_, _, a, b) =>
         if n.bop.LogAnd? || n.bop.LogOr? then
           && TypeOf(a) == Some(Boolean) && Clean(a, fp)
           && (ShortCircuits(n, fp) || (TypeOf(b) == Some(Boolean) && Clean(b, fp)))
         else RootSig(n).Ok? && NoCastMissing(n) && Clean(a, fp) && Clean(b, fp)
       case TriOp(_, a, b, c) =>
         && TypeOf(a) == Some(Boolean) && Clean(a, fp)
         && (EvalBoolean(a, fp) == Val(true) ==> Clean(b, fp))
         && (EvalBoolean(a, fp) == Val(false) ==> Clean(c, fp))
       case _ => true
  }

  lemma AcceptedType(n: Node)
    requires Accepted(n)
    ensures TypeOf(n) == Some(Boolean) || TypeOf(n) == Some(Int) || TypeOf(n) == Some(Float)
            || TypeOf(n) == Some(String)
  {
    if n.TriOp? { AcceptedType(n.b); }
  }

  lemma CleanBinOp(n: Node, fp: FloatOps)
    requires n.BinOp? && Accepted(n) && Clean(n, fp)
    requires Evaluate(n.a, fp) != Assertion && (!ShortCircuits(n, fp) ==> Evaluate(n.b, fp) != Assertion)
    ensures Evaluate(n, fp) != Assertion
  {
    hide Accepted;
    AcceptedParts(n);
    if !n.bop.LogAnd? && !n.bop.LogOr? {
      AcceptedType(n.a);
      BinOpEvaluates(n, fp);
    }
  }

  lemma AcceptedParts(n: Node)
    requires Accepted(n) && (n.UniOp? || n.BinOp? || n.TriOp?)
    ensures RootSig(n).Ok? && TypeOf(n) == Some(RootSig(n).value.result)
    ensures forall i :: 0 <= i < |Operands(n)| ==> Accepted(Operands(n)[i])
    ensures n.UniOp? || n.BinOp? || n.TriOp? ==> Accepted(n.a)
    ensures n.BinOp? || n.TriOp? ==> Accepted(n.b)
  {
  }

  /** If evaluation comes by no string and no missing cast, it reaches no assertion. */
  lemma {:induction false} CleanEvaluates(n: Node, fp: FloatOps)
    requires Accepted(n) && Clean(n, fp)
    ensures Evaluate(n, fp) != Assertion
  {
    match n
    case UniOp(_, _, a) =>
      CleanEvaluates(a, fp);
      assert TypeOf(Operands(n)[0]) == Some(RootSig(n).value.req[0]);
    case BinOp(_, _, a, b) =>
      CleanEvaluates(a, fp);
      if Clean(b, fp) { CleanEvaluates(b, fp); }
      CleanBinOp(n, fp);
    case TriOp(_, a, b, c) =>
      CleanEvaluates(a, fp);
      if EvalBoolean(a, fp) == Val(true) { CleanEvaluates(b, fp); }
      if EvalBoolean(a, fp) == Val(false) { CleanEvaluates(c, fp); }
      AcceptedType(n);
    case _ =>
  }

  /** An evaluator has a value only for expressions of its own type. */
  ghost predicate OwnValue(n: Node, fp: FloatOps) {
    && (EvalBoolean(n, fp).Val? ==> TypeOf(n) == Some(Boolean))
    && (EvalInt(n, fp).Val? ==> TypeOf(n) == Some(Int))
    && (EvalFloat(n, fp).Val? ==> TypeOf(n) == Some(Float))
  }

  lemma BinOpOwnValue(n: Node, fp: FloatOps)
    requires n.BinOp? && RootSig(n).Ok? && RootSig(n).value.result == n.ty && OwnValue(n.a, fp) && OwnValue(n.b, fp)
    ensures OwnValue(n, fp)
  {
    hide CalcType2, EvalEqual;
    BinaryTypes(n.bop, TypeOf(n.a), TypeOf(n.b));
  }

  lemma {:induction false} ValueHasType(n: Node, fp: FloatOps)
    requires Accepted(n)
    ensures OwnValue(n, fp)
  {
    match n
    case UniOp(_, _, a) => ValueHasType(a, fp);
    case BinOp(_, _, a, b) =>
      ValueHasType(a, fp);
      ValueHasType(b, fp);
      BinOpOwnValue(n, fp);
    case TriOp(_, a, b, c) =>
      ValueHasType(b, fp);
      ValueHasType(c, fp);
    case _ =>
  }

  /** The operands of a binary operator with a value, as far as it looks at them. */
  lemma BinOpValue(n: Node, fp: FloatOps)
    requires n.BinOp? && RootSig(n).Ok? && RootSig(n).value.result == n.ty && OwnValue(n.a, fp) && OwnValue(n.b, fp)
    requires Evaluate(n, fp) == Value
    ensures Evaluate(n.a, fp) == Value
    ensures Connective(n.bop) ==>
              && TypeOf(n.a) == Some(Boolean)
              && (ShortCircuits(n, fp) || (TypeOf(n.b) == Some(Boolean) && Evaluate(n.b, fp) == Value))
    ensures !Connective(n.bop) ==> NoCastMissing(n) && Evaluate(n.b, fp) == Value
  {
    hide CalcType2;
    BinaryTypes(n.bop, TypeOf(n.a), TypeOf(n.b));
    assert Operands(n) == [n.a, n.b];
    assert n.bop.Equal? || n.bop.NotEq? ==> EvalEqual(n, fp).Val?;
  }

  lemma UniOpValue(n: Node, fp: FloatOps)
    requires n.UniOp? && RootSig(n).Ok? && RootSig(n).value.result == n.ty && OwnValue(n.a, fp)
    requires Evaluate(n, fp) == Value
    ensures NoCastMissing(n) && Evaluate(n.a, fp) == Value
  {
  }

  lemma TriOpValue(n: Node, fp: FloatOps)
    requires n.TriOp? && OwnValue(n.a, fp) && OwnValue(n.b, fp) && OwnValue(n.c, fp) && Evaluate(n, fp) == Value
    ensures TypeOf(n.a) == Some(Boolean) && Evaluate(n.a, fp) == Value
    ensures EvalBoolean(n.a, fp) == Val(true) ==> Evaluate(n.b, fp) == Value
    ensures EvalBoolean(n.a, fp) == Val(false) ==> Evaluate(n.c, fp) == Value
  {
  }

  /** If evaluation yields a value, it came by no string and no missing cast. */
  lemma {:induction false} ValueIsClean(n: Node, fp: FloatOps)
    requires Accepted(n) && Evaluate(n, fp) == Value
    ensures Clean(n, fp)
  {
    hide OwnValue, RootSig, NoCastMissing, EvalBoolean, EvalInt, EvalFloat;
    match n
    case UniOp(_, _, a) =>
      ValueHasType(a, fp);
      UniOpValue(n, fp);
      ValueIsClean(a, fp);
    case BinOp(_, _, a, b) =>
      ValueHasType(a, fp);
      ValueHasType(b, fp);
      BinOpValue(n, fp);
      ValueIsClean(a, fp);
      if Evaluate(b, fp) == Value { ValueIsClean(b, fp); }
    case TriOp(_, a, b, c) =>
      ValueHasType(a, fp);
      ValueHasType(b, fp);
      ValueHasType(c, fp);
      TriOpValue(n, fp);
      ValueIsClean(a, fp);
      if EvalBoolean(a, fp) == Val(true) { ValueIsClean(b, fp); }
      if EvalBoolean(a, fp) == Val(false) { ValueIsClean(c, fp); }
    case _ =>
  }

  /** For every constant expression the typing rules accept, with casts missing at any depth and strings
      anywhere: unless an operation has no defined result, evaluation reaches an assertion exactly when it
      comes by a string or a missing cast. */
  lemma AssertionExactly(n: Node, fp: FloatOps)
    requires Accepted(n) && Evaluate(n, fp) != NoValue
    ensures Evaluate(n, fp) == Assertion <==> !Clean(n, fp)
  {
    if Clean(n, fp) { CleanEvaluates(n, fp); }
    if Evaluate(n, fp) == Value { ValueIsClean(n, fp); }
  }

  /** Every accepted operator with a string operand ends in an assertion, whether or not the operands have
      values. The one exception is arithmetic with a string on the left whose condition is undefined. */
  lemma StringOperandStops(n: Node, i: nat, fp: FloatOps)
    requires Accepted(n) && i < |Operands(n)| && TypeOf(Operands(n)[i]) == Some(String)
    ensures Evaluate(n, fp) == Assertion <==> !(n.BinOp? && n.ty == Float && EvalFloat(n.a, fp).Undef?)
  {
    if n.BinOp? {
      hide CalcType2, Accepted, Evaluate;
      AcceptedParts(n);
      ValueHasType(n.a, fp);
      StringBinOpStops(n, fp);
    }
  }

  lemma StringBinOpStops(n: Node, fp: FloatOps)
    requires n.BinOp? && RootSig(n).Ok? && RootSig(n).value.result == n.ty && OwnValue(n.a, fp)
    requires TypeOf(n.a) == Some(String) || TypeOf(n.b) == Some(String)
    ensures Evaluate(n, fp) == Assertion <==> !(n.ty == Float && EvalFloat(n.a, fp).Undef?)
  {
    StringTypes(n.bop, TypeOf(n.a), TypeOf(n.b));
    hide CalcType2;
    assert n.bop.Equal? || n.bop.NotEq? ==> EvalEqual(n, fp).Unreachable?;
  }

  lemma ChosenString(cond: Node, a: Node, b: Node, fp: FloatOps)
    requires Accepted(cond) && TypeOf(cond) == Some(Boolean) && EvalBoolean(cond, fp) == Undef
    requires Accepted(a) && Accepted(b) && TypeOf(a) == TypeOf(b) == Some(String)
    ensures var text := TriOp(String, cond, a, b);
            Accepted(text) && TypeOf(text) == Some(String) && EvalFloat(text, fp) == Undef
  {
    hide EvalBoolean, EvalInt;
  }

  /** The exception: a float added to a string that an undefined condition would choose. */
  lemma UndefinedComesFirst(cond: Node, a: Node, b: Node, x: Node, fp: FloatOps)
    requires Accepted(cond) && TypeOf(cond) == Some(Boolean) && EvalBoolean(cond, fp) == Undef
    requires Accepted(a) && Accepted(b) && TypeOf(a) == TypeOf(b) == Some(String)
    requires Accepted(x) && TypeOf(x) == Some(Float)
    ensures var n := BinOp(Add, Float, TriOp(String, cond, a, b), x);
            Accepted(n) && Evaluate(n, fp) == NoValue
  {
    ChosenString(cond, a, b, fp);
    FloatAdded(TriOp(String, cond, a, b), x, fp);
  }

  lemma FloatAdded(a: Node, x: Node, fp: FloatOps)
    requires Accepted(a) && TypeOf(a) == Some(String) && EvalFloat(a, fp) == Undef
    requires Accepted(x) && TypeOf(x) == Some(Float)
    ensures var n := BinOp(Add, Float, a, x); Accepted(n) && Evaluate(n, fp) == NoValue
  {
    AdditionAccepted(a, x);
    hide EvalBoolean, EvalInt, Accepted;
    assert EvalFloat(BinOp(Add, Float, a, x), fp) == Undef;
  }

  lemma AdditionAccepted(a: Node, x: Node)
    requires Accepted(a) && Accepted(x) && TypeOf(x) == Some(Float)
    ensures Accepted(BinOp(Add, Float, a, x)) || TypeOf(a) == Some(Int)
  {
  }

  lemma QuotientUndefined(a: Node, zero: Node, fp: FloatOps)
    requires Accepted(a) && Accepted(zero) && TypeOf(a) == TypeOf(zero) == Some(Int)
    requires EvalInt(a, fp).Val? && EvalInt(zero, fp) == Val(0)
    ensures var n := BinOp(Div, Int, a, zero); Accepted(n) && TypeOf(n) == Some(Int) && EvalInt(n, fp) == Undef
  {
    hide EvalBoolean, EvalFloat;
  }

  lemma EqualityUndefined(a: Node, b: Node, fp: FloatOps)
    requires Accepted(a) && Accepted(b) && TypeOf(a) == TypeOf(b) == Some(Int) && EvalInt(a, fp) == Undef
    ensures var n := BinOp(Equal, Boolean, a, b);
            Accepted(n) && TypeOf(n) == Some(Boolean) && EvalBoolean(n, fp) == Undef
  {
    hide EvalInt, EvalFloat;
    assert EvalEqual(BinOp(Equal, Boolean, a, b), fp) == Undef;
  }

  /** A quotient by zero compared with an integer is such a condition. */
  lemma UndefinedCondition(a: Node, zero: Node, b: Node, fp: FloatOps)
    requires Accepted(a) && Accepted(zero) && Accepted(b) && TypeOf(a) == TypeOf(zero) == TypeOf(b) == Some(Int)
    requires EvalInt(a, fp).Val? && EvalInt(zero, fp) == Val(0)
    ensures var cond := BinOp(Equal, Boolean, BinOp(Div, Int, a, zero), b);
            Accepted(cond) && TypeOf(cond) == Some(Boolean) && EvalBoolean(cond, fp) == Undef
  {
    QuotientUndefined(a, zero, fp);
    EqualityUndefined(BinOp(Div, Int, a, zero), b, fp);
  }

  /** Strings are compared with strings, or stand on the left of a float in arithmetic. */
  lemma StringTypes(op: BinOp, t1: Option<Ty>, t2: Option<Ty>)
    requires CalcType2(op, t1, t2).Ok? && (t1 == Some(String) || t2 == Some(String))
    ensures t1 == Some(String)
    ensures if t2 == Some(String) then Relational(op) && CalcType2(op, t1, t2).value.result == Boolean
            else FloatArithmetic(op) && CalcType2(op, t1, t2).value.result == Float
  {
  }

  /** Soundness needs both conditions: an integer plus a float, and two strings compared, are accepted
      constant expressions on which the evaluator reaches an assertion. */
  lemma AcceptedYetNotEvaluable(i: int, x: Double, s: string, t: string, fp: FloatOps)
    ensures var n := BinOp(Add, Float, Load(Int, IntConst("", i)), Load(Float, FloatConst("", x)));
            IsStatic(n) && RootSig(n).Ok? && RootSig(n).value.result == Float && Evaluate(n, fp) == Assertion
    ensures var n := BinOp(Equal, Boolean, Load(String, StringConst("", s)), Load(String, StringConst("", t)));
            IsStatic(n) && RootSig(n).Ok? && NoCastMissing(n) && Evaluate(n, fp) == Assertion
  {
    var m := BinOp(Add, Float, Load(Int, IntConst("", i)), Load(Float, FloatConst("", x)));
    assert EvalFloat(m.a, fp) == Unreachable;
    assert EvalFloat(m, fp) == Unreachable;
    var n := BinOp(Equal, Boolean, Load(String, StringConst("", s)), Load(String, StringConst("", t)));
    assert EvalEqual(n, fp) == Unreachable;
  }
}
