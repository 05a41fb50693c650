/** The evaluator of constant expressions. */
module Interp {
  import opened Common
  import opened Ir
  import opened Typing

  /** An evaluation yields a value, has no defined value (overflow, division by zero, a shift
      count out of range), or reaches an assertion that says it cannot be reached. */
  datatype Ev<+T> = Val(v: T) | Undef | Unreachable

  /** The arithmetic of floats, which is left open. */
  datatype FloatOps = FloatOps(
    neg: Double -> Double,
    add: (Double, Double) -> Double, sub: (Double, Double) -> Double,
    mul: (Double, Double) -> Double, div: (Double, Double) -> Double,
    eq: (Double, Double) -> bool, lt: (Double, Double) -> bool, le: (Double, Double) -> bool,
    ofInt: int -> Double, zero: Double, one: Double)

  // ----- 32-bit integers -----

  predicate Int32(v: int) { -0x8000_0000 <= v < 0x8000_0000 }

  function Checked(v: int): Ev<int> { if Int32(v) then Val(v) else Undef }

  /** The low 32 bits, read in two's complement. */
  function Wrap(v: int): int { (v + 0x8000_0000) % 0x1_0000_0000 - 0x8000_0000 }

  function OnBits(op: BinOp, p: bool, q: bool): bool {
    match op
    case BitAnd => p && q
    case BitOr => p || q
    case _ => p != q
  }

  /** Two numbers in two's complement combined bit by bit, from bit 0 to the sign in bit `n`. */
  function Bitwise(op: BinOp, a: int, b: int, n: nat): int
    decreases n
  {
    var bit := OnBits(op, a % 2 == 1, b % 2 == 1);
    if n == 0 then (if bit then -1 else 0) else (if bit then 1 else 0) + 2 * Bitwise(op, a / 2, b / 2, n - 1)
  }

  function Pow2(n: nat): (p: nat)
    ensures p > 0
    decreases n
  {
    if n == 0 then 1 else 2 * Pow2(n - 1)
  }

  /** Division truncates toward zero and the remainder takes the sign of the dividend. */
  function TruncDiv(a: int, b: int): int
    requires b != 0
  {
    var q := (if a < 0 then -a else a) / (if b < 0 then -b else b);
    if (a < 0) == (b < 0) then q else -q
  }

  function IntOp(op: BinOp, a: int, b: int): Ev<int> {
    match op
    case BitAnd => Val(Bitwise(op, a, b, 31))
    case BitOr => Val(Bitwise(op, a, b, 31))
    case BitXor => Val(Bitwise(op, a, b, 31))
    case Add => Checked(a + b)
    case Sub => Checked(a - b)
    case Mul => Checked(a * b)
    case Div => if b == 0 then Undef else Checked(TruncDiv(a, b))
    case Mod => if b == 0 || !Int32(TruncDiv(a, b)) then Undef else Checked(a - TruncDiv(a, b) * b)
    case Lshift => if 0 <= b < 32 then Val(Wrap(a * Pow2(b))) else Undef
    case Rshift => if 0 <= b < 32 then Checked(a / Pow2(b)) else Undef
    case _ => Unreachable
  }

  function Both<A, B, C>(a: Ev<A>, b: Ev<B>, f: (A, B) -> Ev<C>): Ev<C> {
    match a
    case Undef => Undef
    case Unreachable => Unreachable
    case Val(x) =>
      match b
      case Undef => Undef
      case Unreachable => Unreachable
      case Val(y) => f(x, y)
  }

  function Then<A, B>(a: Ev<A>, f: A -> Ev<B>): Ev<B> {
    match a
    case Undef => Undef
    case Unreachable => Unreachable
    case Val(x) => f(x)
  }

  // ----- the three evaluators -----

  function EvalBoolean(n: Node, fp: FloatOps): Ev<bool>
    decreases n, 1
  {
    match n
    case UniOp(CastBoolean, _, a) =>
      (match TypeOf(a)
       case Some(Boolean) => EvalBoolean(a, fp)
       case Some(Int) => Then(EvalInt(a, fp), x => Val(x != 0))
       case Some(Float) => Then(EvalFloat(a, fp), x => Val(!fp.eq(x, fp.zero)))
       case _ => Unreachable)
    case UniOp(LogNot, _, a) => Then(EvalBoolean(a, fp), x => Val(!x))
    case BinOp(LogAnd, _, a, b) => Then(EvalBoolean(a, fp), x => if x then EvalBoolean(b, fp) else Val(false))
    case BinOp(LogOr, _, a, b) => Then(EvalBoolean(a, fp), x => if x then Val(true) else EvalBoolean(b, fp))
    case BinOp(Equal, _, _, _) => EvalEqual(n, fp)
    case BinOp(NotEq, _, _, _) => Then(EvalEqual(n, fp), x => Val(!x))
    case BinOp(Lt, _, a, b) =>
      (match TypeOf(a)
       case Some(Int) => Both(EvalInt(a, fp), EvalInt(b, fp), (x, y) => Val(x < y))
       case Some(Float) => Both(EvalFloat(a, fp), EvalFloat(b, fp), (x, y) => Val(fp.lt(x, y)))
       case _ => Unreachable)
    case BinOp(Le, _, a, b) =>
      (match TypeOf(a)
       case Some(Int) => Both(EvalInt(a, fp), EvalInt(b, fp), (x, y) => Val(x <= y))
       case Some(Float) => Both(EvalFloat(a, fp), EvalFloat(b, fp), (x, y) => Val(fp.le(x, y)))
       case _ => Unreachable)
    case TriOp(_, a, b, c) => Then(EvalBoolean(a, fp), x => if x then EvalBoolean(b, fp) else EvalBoolean(c, fp))
    case Load(_, BooleanConst(_, v)) => Val(v)
    case _ => Unreachable
  }

  /** The operands of == or !=, compared by the evaluator for the type of the left one. */
  function EvalEqual(n: Node, fp: FloatOps): Ev<bool>
    requires n.BinOp?
    decreases n, 0
  {
    var a, b := n.a, n.b;
    match TypeOf(a)
    case Some(Boolean) => Both(EvalBoolean(a, fp), EvalBoolean(b, fp), (x, y) => Val(x == y))
    case Some(Int) => Both(EvalInt(a, fp), EvalInt(b, fp), (x, y) => Val(x == y))
    case Some(Float) => Both(EvalFloat(a, fp), EvalFloat(b, fp), (x, y) => Val(fp.eq(x, y)))
    case _ => Unreachable
  }

  function EvalInt(n: Node, fp: FloatOps): Ev<int>
    decreases n, 1
  {
    match n
    case UniOp(CastInt, _, a) =>
      (match TypeOf(a)
       case Some(Boolean) => Then(EvalBoolean(a, fp), x => Val(if x then 1 else 0))
       case Some(Int) => EvalInt(a, fp)
       case _ => Unreachable)
    case UniOp(BitNeg, _, a) => Then(EvalInt(a, fp), x => Val(-x - 1))
    case UniOp(UniMinus, _, a) => Then(EvalInt(a, fp), x => Checked(-x))
    case BinOp(op, _, a, b) =>
      if op.LogAnd? || op.LogOr? || op.Equal? || op.NotEq? || op.Lt? || op.Le? then Unreachable
      else Both(EvalInt(a, fp), EvalInt(b, fp), (x, y) => IntOp(op, x, y))
    case TriOp(_, a, b, c) => Then(EvalBoolean(a, fp), x => if x then EvalInt(b, fp) else EvalInt(c, fp))
    case Load(_, IntConst(_, v)) => Val(v)
    case _ => Unreachable
  }

  function FloatOp(op: BinOp, x: Double, y: Double, fp: FloatOps): Ev<Double> {
    match op
    case Add => Val(fp.add(x, y))
    case Sub => Val(fp.sub(x, y))
    case Mul => Val(fp.mul(x, y))
    case Div => Val(fp.div(x, y))
    case _ => Unreachable
  }

  function EvalFloat(n: Node, fp: FloatOps): Ev<Double>
    decreases n, 1
  {
    match n
    case UniOp(CastFloat, _, a) =>
      (match TypeOf(a)
       case Some(Boolean) => Then(EvalBoolean(a, fp), x => Val(if x then fp.one else fp.zero))
       case Some(Int) => Then(EvalInt(a, fp), x => Val(fp.ofInt(x)))
       case Some(Float) => EvalFloat(a, fp)
       case _ => Unreachable)
    case UniOp(UniMinus, _, a) => Then(EvalFloat(a, fp), x => Val(fp.neg(x)))
    case BinOp(op, _, a, b) =>
      if op.Add? || op.Sub? || op.Mul? || op.Div? then
        Both(EvalFloat(a, fp), EvalFloat(b, fp), (x, y) => FloatOp(op, x, y, fp))
      else Unreachable
    case TriOp(_, a, b, c) => Then(EvalBoolean(a, fp), x => if x then EvalFloat(b, fp) else EvalFloat(c, fp))
    case Load(_, FloatConst(_, v)) => Val(v)
    case _ => Unreachable
  }
}
