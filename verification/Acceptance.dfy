/** The typing rules reject nothing they need not: what can be evaluated, or could be after casts, is accepted, and the
    exceptions are named. */
module Acceptance {
  import opened Common
  import opened Ir
  import opened Typing
  import opened Interp
  import opened Soundness

  predicate Cast(op: UniOp) { op.CastBoolean? || op.CastInt? || op.CastFloat? }

  predicate Operator(n: Node) { (n.UniOp? && !Cast(n.uop)) || n.BinOp? || n.TriOp? }

  /** What evaluates although no rule accepts it: booleans compared for equality, and if-then-else with branches of
      different types. */
  predicate OutsideRules(n: Node) {
    || (n.BinOp? && (n.bop.Equal? || n.bop.NotEq?) && TypeOf(n.a) == TypeOf(n.b) == Some(Boolean))
    || (n.TriOp? && TypeOf(n.b) != TypeOf(n.c))
  }

  /** The rule for the operator gives the node its type. */
  predicate Typed(n: Node)
    requires n.UniOp? || n.BinOp? || n.TriOp?
  {
    RootSig(n).Ok? && Some(RootSig(n).value.result) == TypeOf(n)
  }

  ghost predicate OperandsHaveValues(n: Node, fp: FloatOps) {
    forall i :: 0 <= i < |Operands(n)| ==> HasValue(Operands(n)[i], fp)
  }

  /** Over operands with values the rules and the evaluators agree: an operator is accepted with that type, with no
      cast missing where evaluation gets to, exactly when the evaluator for the type reaches no assertion. */
  lemma AcceptsWhatEvaluates(n: Node, fp: FloatOps)
    requires Operator(n) && OperandsHaveValues(n, fp)
    ensures Typed(n) && (NoCastMissing(n) || ShortCircuits(n, fp)) <==> Evaluate(n, fp) != Assertion && !OutsideRules(n)
  {
    hide HasValue, Evaluate, Typed, NoCastMissing, ShortCircuits;
    match n
    case UniOp(_, _, a) =>
      assert a == Operands(n)[0];
      UniOpAgrees(n, fp);
    case BinOp(_, _, a, b) =>
      assert a == Operands(n)[0] && b == Operands(n)[1];
      BinOpAgrees(n, fp);
    case TriOp(_, a, b, c) =>
      assert a == Operands(n)[0] && b == Operands(n)[1] && c == Operands(n)[2];
      TriOpAgrees(n, fp);
  }

  lemma UniOpAgrees(n: Node, fp: FloatOps)
    requires n.UniOp? && !Cast(n.uop) && HasValue(n.a, fp)
    ensures Typed(n) && (NoCastMissing(n) || ShortCircuits(n, fp)) <==> Evaluate(n, fp) != Assertion
  {
    assert Operands(n) == [n.a];
    assert RootSig(n).Ok? ==> (NoCastMissing(n) <==> TypeOf(n.a) == Some(RootSig(n).value.req[0]));
  }

  lemma TriOpAgrees(n: Node, fp: FloatOps)
    requires n.TriOp? && HasValue(n.a, fp) && HasValue(n.b, fp) && HasValue(n.c, fp)
    ensures Typed(n) && (NoCastMissing(n) || ShortCircuits(n, fp)) <==> Evaluate(n, fp) != Assertion && !OutsideRules(n)
  {
    assert Operands(n)[0] == n.a && Operands(n)[1] == n.b && Operands(n)[2] == n.c;
    if RootSig(n).Ok? {
      assert RootSig(n).value.req == [Boolean, TypeOf(n.b).value, TypeOf(n.c).value];
      assert NoCastMissing(n) <==> TypeOf(n.a) == Some(Boolean);
    }
  }

  lemma BinOpAgrees(n: Node, fp: FloatOps)
    requires n.BinOp? && HasValue(n.a, fp) && HasValue(n.b, fp)
    ensures Typed(n) && (NoCastMissing(n) || ShortCircuits(n, fp)) <==> Evaluate(n, fp) != Assertion && !OutsideRules(n)
  {
    hide CalcType2;
    if Typed(n) {
      MissingCastBinOp(n, fp);
      if Relational(n.bop) { RelatedTypes(n.bop, TypeOf(n.a), TypeOf(n.b)); }
    } else if Evaluate(n, fp) != Assertion && !OutsideRules(n) {
      hide HasValue;
      if Connective(n.bop) { LogicalAccepted(n, fp); }
      else if Relational(n.bop) { RelationAccepted(n, fp); }
      else { ArithmeticAccepted(n, fp); }
    }
  }

  lemma LogicalAccepted(n: Node, fp: FloatOps)
    requires n.BinOp? && Connective(n.bop) && HasValue(n.a, fp) && HasValue(n.b, fp) && Evaluate(n, fp) != Assertion
    ensures Typed(n)
  {
  }

  lemma RelationAccepted(n: Node, fp: FloatOps)
    requires n.BinOp? && Relational(n.bop) && HasValue(n.a, fp) && HasValue(n.b, fp) && Evaluate(n, fp) != Assertion
    requires !OutsideRules(n)
    ensures Typed(n)
  {
    if n.bop.Equal? || n.bop.NotEq? { assert !EvalEqual(n, fp).Unreachable?; }
  }

  lemma ArithmeticAccepted(n: Node, fp: FloatOps)
    requires n.BinOp? && !Connective(n.bop) && !Relational(n.bop) && HasValue(n.a, fp) && HasValue(n.b, fp)
    requires Evaluate(n, fp) != Assertion
    ensures Typed(n)
  {
  }

  /** The exceptions are rejected; equality of booleans has a value all the same. */
  lemma RejectedOutsideRules(n: Node, fp: FloatOps)
    requires Operator(n) && OperandsHaveValues(n, fp) && OutsideRules(n)
    ensures !RootSig(n).Ok?
    ensures n.BinOp? && n.ty == Boolean ==> Evaluate(n, fp) == Value
    ensures n.TriOp? && EvalBoolean(n.a, fp) == Val(true) && TypeOf(n.b) == Some(n.ty) ==> Evaluate(n, fp) == Value
  {
    assert n.BinOp? ==> n.a == Operands(n)[0] && n.b == Operands(n)[1];
    assert n.TriOp? ==> n.a == Operands(n)[0] && n.b == Operands(n)[1];
    assert n.BinOp? ==> EvalEqual(n, fp).Val?;
  }

  // ----- operands to be cast -----

  /** The required types are what the operator needs: over them it is accepted as it stands, with the same result. */
  lemma RequiredTypesSuffice(op: BinOp, t1: Option<Ty>, t2: Option<Ty>)
    requires CalcType2(op, t1, t2).Ok?
    ensures var s := CalcType2(op, t1, t2).value;
            |s.req| == 2 && CalcType2(op, Some(s.req[0]), Some(s.req[1])) == Ok(s)
  {
  }

  lemma RequiredTypesSuffice1(op: UniOp, t: Option<Ty>)
    requires CalcType1(op, t).Ok?
    ensures var s := CalcType1(op, t).value; |s.req| == 1 && CalcType1(op, Some(s.req[0])) == Ok(s)
  {
  }

  lemma RequiredTypesSuffice3(t1: Option<Ty>, t2: Option<Ty>, t3: Option<Ty>)
    requires CalcType3(t1, t2, t3).Ok?
    ensures var s := CalcType3(t1, t2, t3).value;
            && |s.req| == 3
            && CalcType3(Some(s.req[0]), Some(s.req[1]), Some(s.req[2])) == Ok(s)
  {
  }

  /** An integer can stand for a float. */
  predicate Widens(t: Ty, u: Ty) { t == u || (t == Int && u == Float) }

  /** The exception: a float on the left of an integer in arithmetic. */
  predicate FloatThenInt(op: BinOp, t1: Ty, t2: Ty) { FloatArithmetic(op) && t1 == Float && t2 == Int }

  /** A relation or an arithmetic operator is accepted, with those required types, exactly when it is accepted over
      types to which its operands widen; the one exception is a float on the left of an integer in arithmetic. */
  lemma WidenedAccepted(op: BinOp, t1: Ty, t2: Ty, u1: Ty, u2: Ty, r: Ty)
    requires Relational(op) || FloatArithmetic(op)
    requires Widens(t1, u1) && Widens(t2, u2) && CalcType2(op, Some(u1), Some(u2)) == Ok(Sig(r, [u1, u2]))
    ensures CalcType2(op, Some(t1), Some(t2)).Ok? <==> !FloatThenInt(op, t1, t2)
    ensures CalcType2(op, Some(t1), Some(t2)).Ok? && t1 != t2 ==>
              CalcType2(op, Some(t1), Some(t2)) == CalcType2(op, Some(u1), Some(u2))
  {
  }

  /** A logical operator, `not` and the condition of if-then-else take whatever can be cast to a boolean, and nothing
      else; they require booleans. */
  lemma CastableAccepted(t1: Ty, t2: Ty, t3: Ty)
    ensures forall op :: Connective(op) ==>
              CalcType2(op, Some(t1), Some(t2))
              == (if CastableToBoolean(t1) && CastableToBoolean(t2) then Ok(Sig(Boolean, [Boolean, Boolean])) else Null)
    ensures CalcType1(LogNot, Some(t1)) == if CastableToBoolean(t1) then Ok(Sig(Boolean, [Boolean])) else Null
    ensures CalcType3(Some(t1), Some(t2), Some(t3))
         == if CastableToBoolean(t1) && t2 == t3 then Ok(Sig(t2, [Boolean, t2, t3])) else Null
  {
  }

  /** Strings are compared with strings by every relation; values of an enum only for equality, and only with values of
      the same enum. */
  lemma StringsAndEnumsCompared(op: BinOp, i: nat, j: nat)
    requires Relational(op)
    ensures CalcType2(op, Some(String), Some(String)) == Ok(Sig(Boolean, [String, String]))
    ensures CalcType2(op, Some(Enum(i)), Some(Enum(j)))
         == if i == j && (op.Equal? || op.NotEq?) then Ok(Sig(Boolean, [Enum(i), Enum(j)])) else Null
  {
  }

  /** Whatever stands on the left of a float in arithmetic is accepted and required to be a float. */
  lemma LeftOfFloatAccepted(op: BinOp, t: Option<Ty>)
    requires FloatArithmetic(op)
    ensures CalcType2(op, t, Some(Float)) == Ok(Sig(Float, [Float, Float]))
  {
  }
}
