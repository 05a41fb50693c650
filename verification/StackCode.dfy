/** Constant expressions as stack code: the machine computes what the evaluator does. */
module StackCode {
  import opened Common
  import opened Ir
  import opened Typing
  import opened Arithmetic
  import opened Interp
  import opened Soundness
  import V = Vsm
  import C = CodeList

  /** Code for an expression. Operands are pushed last to first, so that the left one is popped first;
      booleans are 1 and 0. */
  function Code(n: Node): seq<V.Instr> {
    match n
    case Load(_, BooleanConst(_, v)) => [V.PushInt(V.FromBool(v))]
    case Load(_, IntConst(_, v)) => [V.PushInt(v)]
    case Load(_, FloatConst(_, f)) => [V.PushFloat(f)]
    case UniOp(op, ty, a) =>
      (if op.LogNot? then [V.PushInt(0)] else []) + Code(a) + [UnaryOperator(op, ty)]
    case BinOp(op, _, a, b) => Code(b) + Code(a) + [Operator(op, TypeOf(a))]
    case TriOp(ty, a, b, c) => Code(c) + Code(b) + Code(a) + [if ty == Float then V.FloatIte else V.IntIte]
    case _ => []
  }

  function UnaryOperator(op: UniOp, ty: Ty): V.Instr {
    if op.LogNot? then V.IntBin(Equal)
    else if ty == Float then V.FloatMinus
    else V.IntUni(if op.BitNeg? then V.Not else V.Minus)
  }

  function Operator(op: BinOp, left: Option<Ty>): V.Instr {
    if op.LogAnd? then V.IntBin(BitAnd)
    else if op.LogOr? then V.IntBin(BitOr)
    else if left == Some(Float) && V.FloatBinary(op) then V.FloatBin(op)
    else V.IntBin(op)
  }

  function Max(a: nat, b: nat): nat { if a < b then b else a }

  /** The number of cells the code needs above the stack pointer. */
  function Need(n: Node): nat {
    match n
    case UniOp(op, _, a) => if op.LogNot? then Need(a) + 1 else Need(a)
    case BinOp(_, _, a, b) => Max(Need(b), Need(a) + 1)
    case TriOp(_, a, b, c) => Max(Need(c), Max(Need(b) + 1, Need(a) + 2))
    case _ => 1
  }

  /** Every integer constant is a 32-bit one. */
  predicate ConstantsFit(n: Node) {
    match n
    case Load(_, IntConst(_, v)) => Int32(v)
    case UniOp(_, _, a) => ConstantsFit(a)
    case BinOp(_, _, a, b) => ConstantsFit(a) && ConstantsFit(b)
    case TriOp(_, a, b, c) => ConstantsFit(a) && ConstantsFit(b) && ConstantsFit(c)
    case _ => true
  }

  /** Every subexpression has a value: the machine evaluates all of them. */
  predicate AllDefined(n: Node, fp: FloatOps) {
    && Evaluate(n, fp) == Value
    && match n
       case UniOp(_, _, a) => AllDefined(a, fp)
       case BinOp(_, _, a, b) => AllDefined(a, fp) && AllDefined(b, fp)
       case TriOp(_, a, b, c) => AllDefined(a, fp) && AllDefined(b, fp) && AllDefined(c, fp)
       case _ => true
  }

  ghost predicate Good(n: Node, fp: FloatOps) {
    WellTyped(n) && NoStrings(n) && ConstantsFit(n) && AllDefined(n, fp)
  }

  /** The cell holds the value the evaluator gives the expression. */
  ghost predicate Holds(n: Node, c: V.Cell, fp: FloatOps) {
    match TypeOf(n)
    case Some(Boolean) => EvalBoolean(n, fp).Val? && V.GetInt(c) == V.FromBool(EvalBoolean(n, fp).v)
    case Some(Int) => EvalInt(n, fp) == Val(V.GetInt(c))
    case Some(Float) => EvalFloat(n, fp) == Val(Double(c))
    case _ => false
  }

  /** One cell more, holding the value; everything below unchanged. */
  ghost predicate Pushed(m: V.State, r: V.State, n: Node, fp: FloatOps) {
    && r.sp == m.sp + 1 <= |r.stack| == |m.stack|
    && r.globals == m.globals
    && r.stack[..m.sp] == m.stack[..m.sp]
    && Holds(n, r.stack[m.sp], fp)
  }

  lemma IntOpFits(op: BinOp, a: int, b: int)
    requires IntOp(op, a, b).Val?
    ensures Int32(IntOp(op, a, b).v)
  {
    hide TruncDiv, Bitwise, Pow2;
    match op
    case BitAnd => WordFits(op, a, b);
    case BitOr => WordFits(op, a, b);
    case BitXor => WordFits(op, a, b);
    case Lshift => Wrapped(a * Pow2(b));
    case _ =>
  }

  lemma {:induction false} IntsFit(n: Node, fp: FloatOps)
    requires ConstantsFit(n) && EvalInt(n, fp).Val?
    ensures Int32(EvalInt(n, fp).v)
  {
    hide IntOp;
    match n
    case UniOp(op, _, a) => if EvalInt(a, fp).Val? { IntsFit(a, fp); }
    case BinOp(op, _, a, b) => IntOpFits(op, EvalInt(a, fp).v, EvalInt(b, fp).v);
    case TriOp(_, a, b, c) => if EvalBoolean(a, fp).v { IntsFit(b, fp); } else { IntsFit(c, fp); }
    case _ =>
  }

  /** Push an integer result. */
  lemma PushedInt(m: V.State, m1: V.State, v: int, n: Node, fp: FloatOps)
    requires m1.sp == m.sp < |m1.stack| == |m.stack| && m1.globals == m.globals && m1.stack[..m.sp] == m.stack[..m.sp]
    requires Int32(v)
    requires (TypeOf(n) == Some(Int) && EvalInt(n, fp) == Val(v))
             || (TypeOf(n) == Some(Boolean) && EvalBoolean(n, fp).Val? && v == V.FromBool(EvalBoolean(n, fp).v))
    ensures V.PushInt'(m1, v).Some? && Pushed(m, V.PushInt'(m1, v).value, n, fp)
  {
    V.GetSetInt(m1.stack[m.sp], v);
    var r := V.PushInt'(m1, v).value;
    assert r.stack[..m.sp] == m1.stack[..m.sp];
  }

  lemma PushedFloat(m: V.State, m1: V.State, f: Double, n: Node, fp: FloatOps)
    requires m1.sp == m.sp < |m1.stack| == |m.stack| && m1.globals == m.globals && m1.stack[..m.sp] == m.stack[..m.sp]
    requires TypeOf(n) == Some(Float) && EvalFloat(n, fp) == Val(f)
    ensures V.Push(m1, V.SetFloat(f)).Some? && Pushed(m, V.Push(m1, V.SetFloat(f)).value, n, fp)
  {
    var r := V.Push(m1, V.SetFloat(f)).value;
    assert r.stack[..m.sp] == m1.stack[..m.sp];
  }

  /** The last instruction of a sequence. */
  lemma PerformLast(code: seq<V.Instr>, i: V.Instr, m: V.State, m1: V.State, base: int, fp: FloatOps)
    requires V.PerformAll(code, m, base, fp) == Some(m1)
    ensures V.PerformAll(code + [i], m, base, fp) == V.Perform(i, m1, base, fp)
  {
    assert (code + [i])[..|code|] == code;
  }

  lemma PerformThen(a: seq<V.Instr>, b: seq<V.Instr>, m: V.State, m1: V.State, m2: V.State, base: int, fp: FloatOps)
    requires V.PerformAll(a, m, base, fp) == Some(m1) && V.PerformAll(b, m1, base, fp) == Some(m2)
    ensures V.PerformAll(a + b, m, base, fp) == Some(m2)
  {
    V.PerformAppend(a, b, m, base, fp);
  }

  // ----- the machine agrees with the evaluator -----

  /** Executing the code of an expression pushes the value the evaluator gives it and leaves the stack
      below and the globals alone. */
  lemma {:induction false} CodeComputes(n: Node, m: V.State, base: int, fp: FloatOps) returns (r: V.State)
    requires Good(n, fp) && m.sp + Need(n) <= |m.stack|
    ensures V.PerformAll(Code(n), m, base, fp) == Some(r) && Pushed(m, r, n, fp)
    decreases n
  {
    WellTypedEvaluates(n, fp);
    match n
    case Load(_, h) => r := LoadComputes(n, m, base, fp);
    case UniOp(_, _, _) => r := UnaryComputes(n, m, base, fp);
    case BinOp(_, _, _, _) => r := BinaryComputes(n, m, base, fp);
    case TriOp(_, _, _, _) => r := IteComputes(n, m, base, fp);
  }

  lemma LoadComputes(n: Node, m: V.State, base: int, fp: FloatOps) returns (r: V.State)
    requires n.Load? && LoadType(n.addr) == Ok(n.ty) && (n.addr.BooleanConst? || n.addr.IntConst? || n.addr.FloatConst?)
    requires ConstantsFit(n) && m.sp < |m.stack|
    ensures V.PerformAll(Code(n), m, base, fp) == Some(r) && Pushed(m, r, n, fp)
  {
    hide Pushed, Holds;
    if n.addr.FloatConst? {
      PushedFloat(m, m, n.addr.fval, n, fp);
      r := V.Push(m, V.SetFloat(n.addr.fval)).value;
      PerformOne(V.PushFloat(n.addr.fval), m, base, fp);
    } else {
      var v := if n.addr.IntConst? then n.addr.ival else V.FromBool(n.addr.bval);
      PushedInt(m, m, v, n, fp);
      r := V.PushInt'(m, v).value;
      PerformOne(V.PushInt(v), m, base, fp);
    }
  }

  lemma PerformOne(i: V.Instr, m: V.State, base: int, fp: FloatOps)
    ensures V.PerformAll([i], m, base, fp) == V.Perform(i, m, base, fp)
  {
    assert [i] == [] + [i];
    PerformLast([], i, m, m, base, fp);
  }

  /** The same machine below `m.sp`, with `k` cells more. */
  ghost predicate Above(m: V.State, r: V.State, k: nat) {
    && r.sp == m.sp + k <= |r.stack| == |m.stack|
    && r.globals == m.globals
    && r.stack[..m.sp] == m.stack[..m.sp]
  }

  /** One more operand on top of `k` cells. */
  lemma OneMore(m: V.State, m1: V.State, r: V.State, k: nat, a: Node, fp: FloatOps)
    requires Above(m, m1, k) && Pushed(m1, r, a, fp)
    ensures Above(m, r, k + 1) && Holds(a, r.stack[m.sp + k], fp)
    ensures forall p :: 0 <= p < m.sp + k ==> r.stack[p] == m1.stack[p]
  {
    assert r.stack[..m.sp] == r.stack[..m1.sp][..m.sp];
    forall p | 0 <= p < m1.sp ensures r.stack[p] == m1.stack[p] {
      assert r.stack[..m1.sp][p] == m1.stack[..m1.sp][p];
    }
  }

  lemma UnaryTypes(n: Node, fp: FloatOps)
    requires n.UniOp? && Good(n, fp)
    ensures ConstantsFit(n) && Evaluate(n, fp) == Evaluate(n.a, fp) == Value
    ensures if n.uop.LogNot? then n.ty == Boolean && TypeOf(n.a) == Some(Boolean)
            else TypeOf(n.a) == Some(n.ty) && (n.ty == Int || (n.ty == Float && n.uop.UniMinus?))
    ensures n.uop.LogNot? || n.uop.BitNeg? || n.uop.UniMinus?
  {
    assert TypeOf(Operands(n)[0]) == Some(RootSig(n).value.req[0]);
  }

  lemma LogNotStep(n: Node, m: V.State, r: V.State, base: int, fp: FloatOps)
    requires n.UniOp? && n.uop.LogNot? && TypeOf(n) == TypeOf(n.a) == Some(Boolean) && Evaluate(n, fp) == Value
    requires Above(m, r, 2) && V.GetInt(r.stack[m.sp]) == 0 && Holds(n.a, r.stack[m.sp + 1], fp)
    ensures V.Perform(V.IntBin(Equal), r, base, fp).Some?
         && Pushed(m, V.Perform(V.IntBin(Equal), r, base, fp).value, n, fp)
  {
    hide Pushed, V.GetInt, V.Push, V.PushInt', IntOp;
    PushedInt(m, r.(sp := m.sp), V.FromBool(EvalBoolean(n, fp).v), n, fp);
  }

  lemma IntUnaryStep(n: Node, m: V.State, r: V.State, base: int, fp: FloatOps)
    requires n.UniOp? && (n.uop.BitNeg? || n.uop.UniMinus?) && TypeOf(n) == TypeOf(n.a) == Some(Int)
    requires ConstantsFit(n) && Evaluate(n, fp) == Value && Above(m, r, 1) && Holds(n.a, r.stack[m.sp], fp)
    ensures var i := UnaryOperator(n.uop, n.ty);
            V.Perform(i, r, base, fp).Some? && Pushed(m, V.Perform(i, r, base, fp).value, n, fp)
  {
    IntsFit(n, fp);
    hide Pushed, V.GetInt, V.Push, V.PushInt', IntOp, ConstantsFit;
    PushedInt(m, r.(sp := m.sp), EvalInt(n, fp).v, n, fp);
  }

  lemma FloatMinusStep(n: Node, m: V.State, r: V.State, base: int, fp: FloatOps)
    requires n.UniOp? && n.uop.UniMinus? && TypeOf(n) == TypeOf(n.a) == Some(Float) && Evaluate(n, fp) == Value
    requires Above(m, r, 1) && Holds(n.a, r.stack[m.sp], fp)
    ensures V.Perform(V.FloatMinus, r, base, fp).Some? && Pushed(m, V.Perform(V.FloatMinus, r, base, fp).value, n, fp)
  {
    hide Pushed, V.GetInt, V.Push, V.PushInt', IntOp;
    PushedFloat(m, r.(sp := m.sp), EvalFloat(n, fp).v, n, fp);
  }

  lemma UnaryStep(n: Node, m: V.State, r: V.State, base: int, fp: FloatOps)
    requires n.UniOp? && Good(n, fp)
    requires if n.uop.LogNot? then Above(m, r, 2) && V.GetInt(r.stack[m.sp]) == 0 && Holds(n.a, r.stack[m.sp + 1], fp)
             else Above(m, r, 1) && Holds(n.a, r.stack[m.sp], fp)
    ensures var i := UnaryOperator(n.uop, n.ty);
            V.Perform(i, r, base, fp).Some? && Pushed(m, V.Perform(i, r, base, fp).value, n, fp)
  {
    hide Good, Pushed, Holds, V.Perform, V.GetInt, Evaluate, Above;
    UnaryTypes(n, fp);
    if n.uop.LogNot? { LogNotStep(n, m, r, base, fp); }
    else if n.ty == Float { FloatMinusStep(n, m, r, base, fp); }
    else { IntUnaryStep(n, m, r, base, fp); }
  }

  lemma {:induction false} UnaryComputes(n: Node, m: V.State, base: int, fp: FloatOps) returns (r: V.State)
    requires n.UniOp? && Good(n, fp) && m.sp + Need(n) <= |m.stack|
    ensures V.PerformAll(Code(n), m, base, fp) == Some(r) && Pushed(m, r, n, fp)
    decreases n, 0
  {
    hide V.Perform, Pushed, Holds, UnaryOperator;
    var last := UnaryOperator(n.uop, n.ty);
    var code, m1;
    if n.uop.LogNot? {
      var zero := [V.PushInt(0)];
      var m0 := PushZero(m, base, fp);
      m1 := CodeComputes(n.a, m0, base, fp);
      PerformThen(zero, Code(n.a), m, m0, m1, base, fp);
      OneMore(m, m0, m1, 1, n.a, fp);
      code := zero + Code(n.a);
    } else {
      m1 := CodeComputes(n.a, m, base, fp);
      OneMore(m, m, m1, 0, n.a, fp);
      code := Code(n.a);
      assert [] + code == code;
    }
    PerformLast(code, last, m, m1, base, fp);
    assert Code(n) == code + [last];
    UnaryStep(n, m, m1, base, fp);
    r := V.Perform(last, m1, base, fp).value;
  }

  lemma PushZero(m: V.State, base: int, fp: FloatOps) returns (r: V.State)
    requires m.sp < |m.stack|
    ensures V.PerformAll([V.PushInt(0)], m, base, fp) == Some(r)
    ensures Above(m, r, 1) && V.GetInt(r.stack[m.sp]) == 0
  {
    PerformOne(V.PushInt(0), m, base, fp);
    V.GetSetInt(m.stack[m.sp], 0);
    r := V.PushInt'(m, 0).value;
  }

  // ----- binary operators -----

  lemma BoolBits(op: BinOp, a: bool, b: bool, n: nat)
    requires n > 0
    ensures Bitwise(op, V.FromBool(a), V.FromBool(b), n) == V.FromBool(OnBits(op, a, b))
  {
    NoBits(op, n - 1);
  }

  /** On 1 and 0 the bitwise operations are the logical ones. */
  lemma BoolOps(a: bool, b: bool)
    ensures IntOp(BitAnd, V.FromBool(a), V.FromBool(b)) == Val(V.FromBool(a && b))
    ensures IntOp(BitOr, V.FromBool(a), V.FromBool(b)) == Val(V.FromBool(a || b))
  {
    hide Bitwise, TruncDiv, Pow2;
    BoolBits(BitAnd, a, b, 31);
    BoolBits(BitOr, a, b, 31);
  }

  lemma PerformIntBin(op: BinOp, r: V.State, base: int, fp: FloatOps)
    requires 2 <= r.sp <= |r.stack|
    requires V.IntResult(op, V.GetInt(r.stack[r.sp - 1]), V.GetInt(r.stack[r.sp - 2])).Val?
    ensures V.Perform(V.IntBin(op), r, base, fp) ==
            V.PushInt'(r.(sp := r.sp - 2), V.IntResult(op, V.GetInt(r.stack[r.sp - 1]), V.GetInt(r.stack[r.sp - 2])).v)
  {
    hide IntOp;
  }

  /** Both operands on the stack, the left one on top. */
  ghost predicate TwoOperands(n: Node, m: V.State, r: V.State, fp: FloatOps)
    requires n.BinOp?
  {
    Above(m, r, 2) && Holds(n.b, r.stack[m.sp], fp) && Holds(n.a, r.stack[m.sp + 1], fp)
  }

  lemma BinaryStep(n: Node, m: V.State, r: V.State, base: int, fp: FloatOps)
    requires n.BinOp? && Good(n, fp) && TwoOperands(n, m, r, fp)
    ensures var i := Operator(n.bop, TypeOf(n.a));
            V.Perform(i, r, base, fp).Some? && Pushed(m, V.Perform(i, r, base, fp).value, n, fp)
  {
    WellTypedEvaluates(n.a, fp);
    WellTypedEvaluates(n.b, fp);
    assert TypeOf(Operands(n)[0]) == Some(RootSig(n).value.req[0]);
    assert TypeOf(Operands(n)[1]) == Some(RootSig(n).value.req[1]);
    if n.bop.LogAnd? || n.bop.LogOr? {
      LogicalStep(n, m, r, base, fp);
    } else if TypeOf(n.a) == Some(Int) {
      IntStep(n, m, r, base, fp);
    } else {
      FloatStep(n, m, r, base, fp);
    }
  }

  lemma LogicalStep(n: Node, m: V.State, r: V.State, base: int, fp: FloatOps)
    requires n.BinOp? && (n.bop.LogAnd? || n.bop.LogOr?) && TwoOperands(n, m, r, fp)
    requires TypeOf(n) == TypeOf(n.a) == TypeOf(n.b) == Some(Boolean)
    ensures var i := Operator(n.bop, TypeOf(n.a));
            V.Perform(i, r, base, fp).Some? && Pushed(m, V.Perform(i, r, base, fp).value, n, fp)
  {
    hide IntOp, V.Perform;
    assert IntOp(BitAnd, V.GetInt(r.stack[m.sp + 1]), V.GetInt(r.stack[m.sp]))
      == Val(V.FromBool(EvalBoolean(n.a, fp).v && EvalBoolean(n.b, fp).v)) by {
      BoolOps(EvalBoolean(n.a, fp).v, EvalBoolean(n.b, fp).v);
    }
    assert IntOp(BitOr, V.GetInt(r.stack[m.sp + 1]), V.GetInt(r.stack[m.sp]))
      == Val(V.FromBool(EvalBoolean(n.a, fp).v || EvalBoolean(n.b, fp).v)) by {
      BoolOps(EvalBoolean(n.a, fp).v, EvalBoolean(n.b, fp).v);
    }
    PerformIntBin(if n.bop.LogAnd? then BitAnd else BitOr, r, base, fp);
    PushedInt(m, r.(sp := m.sp), V.FromBool(EvalBoolean(n, fp).v), n, fp);
  }

  lemma IntStep(n: Node, m: V.State, r: V.State, base: int, fp: FloatOps)
    requires n.BinOp? && V.IntBinary(n.bop) && TwoOperands(n, m, r, fp)
    requires TypeOf(n.a) == TypeOf(n.b) == Some(Int) && RootSig(n).Ok? && n.ty == RootSig(n).value.result
    requires ConstantsFit(n) && Evaluate(n, fp) == Value
    ensures var i := Operator(n.bop, TypeOf(n.a));
            V.Perform(i, r, base, fp).Some? && Pushed(m, V.Perform(i, r, base, fp).value, n, fp)
  {
    hide IntOp;
    if n.ty == Int {
      IntsFit(n, fp);
      PushedInt(m, r.(sp := m.sp), EvalInt(n, fp).v, n, fp);
    } else {
      assert n.bop.Equal? || n.bop.NotEq? ==> EvalEqual(n, fp) == Val(EvalInt(n.a, fp).v == EvalInt(n.b, fp).v);
      PushedInt(m, r.(sp := m.sp), V.FromBool(EvalBoolean(n, fp).v), n, fp);
    }
  }

  lemma FloatStep(n: Node, m: V.State, r: V.State, base: int, fp: FloatOps)
    requires n.BinOp? && V.IntBinary(n.bop) && TwoOperands(n, m, r, fp)
    requires TypeOf(n.a) == TypeOf(n.b) == Some(Float) && RootSig(n).Ok? && n.ty == RootSig(n).value.result
    requires Evaluate(n, fp) == Value
    ensures var i := Operator(n.bop, TypeOf(n.a));
            V.Perform(i, r, base, fp).Some? && Pushed(m, V.Perform(i, r, base, fp).value, n, fp)
  {
    if n.ty == Float {
      PushedFloat(m, r.(sp := m.sp), EvalFloat(n, fp).v, n, fp);
    } else {
      assert n.bop.Equal? || n.bop.NotEq? ==>
        EvalEqual(n, fp) == Val(fp.eq(EvalFloat(n.a, fp).v, EvalFloat(n.b, fp).v));
      PushedInt(m, r.(sp := m.sp), V.FromBool(EvalBoolean(n, fp).v), n, fp);
    }
  }

  lemma {:induction false} BinaryComputes(n: Node, m: V.State, base: int, fp: FloatOps) returns (r: V.State)
    requires n.BinOp? && Good(n, fp) && m.sp + Need(n) <= |m.stack|
    ensures V.PerformAll(Code(n), m, base, fp) == Some(r) && Pushed(m, r, n, fp)
    decreases n, 0
  {
    hide V.Perform, Pushed, Holds, Operator;
    var last := Operator(n.bop, TypeOf(n.a));
    var m1 := CodeComputes(n.b, m, base, fp);
    OneMore(m, m, m1, 0, n.b, fp);
    var m2 := CodeComputes(n.a, m1, base, fp);
    OneMore(m, m1, m2, 1, n.a, fp);
    PerformThen(Code(n.b), Code(n.a), m, m1, m2, base, fp);
    assert m2.stack[m.sp] == m1.stack[m.sp];
    BinaryStep(n, m, m2, base, fp);
    PerformLast(Code(n.b) + Code(n.a), last, m, m2, base, fp);
    r := V.Perform(last, m2, base, fp).value;
  }

  // ----- if-then-else -----

  lemma IteStep(n: Node, m: V.State, r: V.State, base: int, fp: FloatOps)
    requires n.TriOp? && Good(n, fp)
    requires Above(m, r, 3) && Holds(n.c, r.stack[m.sp], fp) && Holds(n.b, r.stack[m.sp + 1], fp)
            && Holds(n.a, r.stack[m.sp + 2], fp)
    ensures var i := if n.ty == Float then V.FloatIte else V.IntIte;
            V.Perform(i, r, base, fp).Some? && Pushed(m, V.Perform(i, r, base, fp).value, n, fp)
  {
    IteTypes(n, fp);
    hide Good, Pushed, V.GetInt, V.Push, V.PushInt', IntOp, ConstantsFit;
    var m1 := r.(sp := m.sp);
    if n.ty == Float {
      PushedFloat(m, m1, EvalFloat(n, fp).v, n, fp);
    } else if n.ty == Int {
      IntsFit(n, fp);
      PushedInt(m, m1, EvalInt(n, fp).v, n, fp);
    } else {
      PushedInt(m, m1, V.FromBool(EvalBoolean(n, fp).v), n, fp);
    }
  }

  lemma IteTypes(n: Node, fp: FloatOps)
    requires n.TriOp? && Good(n, fp)
    ensures ConstantsFit(n) && Evaluate(n, fp) == Value && TypeOf(n.a) == Some(Boolean)
    ensures TypeOf(n.b) == TypeOf(n.c) == Some(n.ty) && (n.ty == Boolean || n.ty == Int || n.ty == Float)
  {
    WellTypedEvaluates(n, fp);
    assert TypeOf(Operands(n)[0]) == Some(RootSig(n).value.req[0]);
  }

  lemma ItePieces(n: Node, fp: FloatOps)
    requires n.TriOp? && Good(n, fp)
    ensures Good(n.a, fp) && Good(n.b, fp) && Good(n.c, fp)
  {
  }

  lemma {:induction false} IteComputes(n: Node, m: V.State, base: int, fp: FloatOps) returns (r: V.State)
    requires n.TriOp? && Good(n, fp) && m.sp + Need(n) <= |m.stack|
    ensures V.PerformAll(Code(n), m, base, fp) == Some(r) && Pushed(m, r, n, fp)
    decreases n, 0
  {
    hide V.Perform, Pushed, Holds, Good;
    ItePieces(n, fp);
    var last := if n.ty == Float then V.FloatIte else V.IntIte;
    var m1 := CodeComputes(n.c, m, base, fp);
    OneMore(m, m, m1, 0, n.c, fp);
    var m2 := CodeComputes(n.b, m1, base, fp);
    OneMore(m, m1, m2, 1, n.b, fp);
    PerformThen(Code(n.c), Code(n.b), m, m1, m2, base, fp);
    var m3 := CodeComputes(n.a, m2, base, fp);
    OneMore(m, m2, m3, 2, n.a, fp);
    PerformThen(Code(n.c) + Code(n.b), Code(n.a), m, m2, m3, base, fp);
    assert m3.stack[m.sp] == m2.stack[m.sp] == m1.stack[m.sp];
    assert m3.stack[m.sp + 1] == m2.stack[m.sp + 1];
    IteStep(n, m, m3, base, fp);
    PerformLast(Code(n.c) + Code(n.b) + Code(n.a), last, m, m3, base, fp);
    r := V.Perform(last, m3, base, fp).value;
  }
}
