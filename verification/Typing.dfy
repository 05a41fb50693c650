/** The typing rules of operators and the type of a node. */
module Typing {
  import opened Common
  import opened Ir

  /** The type of a node; a call has none until it is resolved. */
  function TypeOf(n: Node): Option<Ty> {
    match n
    case UniOp(_, ty, _) => Some(ty)
    case BinOp(_, ty, _, _) => Some(ty)
    case TriOp(ty, _, _, _) => Some(ty)
    case Load(ty, _) => Some(ty)
    case _ => None
  }

  /** A typed operator: its result and the types it requires of its operands. */
  datatype Sig = Sig(result: Ty, req: seq<Ty>)

  predicate CastableToBoolean(t: Ty) { t.Boolean? || t.Int? || t.Float? }

  /** Unary rules. Asking a missing type whether it can be cast is a NULL dereference. */
  function CalcType1(op: UniOp, t1: Option<Ty>): Res<Sig> {
    match op
    case BitNeg => if t1 == Some(Int) then Ok(Sig(Int, [Int])) else Null
    case LogNot =>
      if t1.None? then Abort
      else if CastableToBoolean(t1.value) then Ok(Sig(Boolean, [Boolean])) else Null
    case UniMinus =>
      if t1 == Some(Int) || t1 == Some(Float) then Ok(Sig(t1.value, [t1.value])) else Null
    case _ => Null
  }

  /** Binary rules. Mixed arithmetic is accepted for an integer on the left and a float on the
      right, and for anything on the left of a float as long as the right one is a float. */
  function CalcType2(op: BinOp, t1: Option<Ty>, t2: Option<Ty>): Res<Sig> {
    match op
    case BitAnd => IntOnly(t1, t2)
    case BitOr => IntOnly(t1, t2)
    case BitXor => IntOnly(t1, t2)
    case Mod => IntOnly(t1, t2)
    case Lshift => IntOnly(t1, t2)
    case Rshift => IntOnly(t1, t2)
    case LogAnd => Logical(t1, t2)
    case LogOr => Logical(t1, t2)
    case Add => Arithmetic(t1, t2)
    case Sub => Arithmetic(t1, t2)
    case Mul => Arithmetic(t1, t2)
    case Div => Arithmetic(t1, t2)
    case Equal => Equality(t1, t2)
    case NotEq => Equality(t1, t2)
    case Lt => Comparison(t1, t2)
    case Le => Comparison(t1, t2)
  }

  function IntOnly(t1: Option<Ty>, t2: Option<Ty>): Res<Sig> {
    if t1 == Some(Int) && t2 == Some(Int) then Ok(Sig(Int, [Int, Int])) else Null
  }

  function Logical(t1: Option<Ty>, t2: Option<Ty>): Res<Sig> {
    if t1.None? then Abort
    else if !CastableToBoolean(t1.value) then Null
    else if t2.None? then Abort
    else if !CastableToBoolean(t2.value) then Null
    else Ok(Sig(Boolean, [Boolean, Boolean]))
  }

  function Arithmetic(t1: Option<Ty>, t2: Option<Ty>): Res<Sig> {
    if t1 == Some(Int) && t2 == Some(Int) then Ok(Sig(Int, [Int, Int]))
    else if (t1 == Some(Int) || t2 == Some(Float)) && (t2 == Some(Int) || t2 == Some(Float)) then
      Ok(Sig(Float, [Float, Float]))
    else Null
  }

  function Comparison(t1: Option<Ty>, t2: Option<Ty>): Res<Sig> {
    if t1 == Some(Int) && t2 == Some(Float) then Ok(Sig(Boolean, [Float, Float]))
    else if t2 == Some(Int) && t1 == Some(Float) then Ok(Sig(Boolean, [Float, Float]))
    else if t1 == t2 && (t1 == Some(Int) || t1 == Some(Float) || t1 == Some(String)) then
      Ok(Sig(Boolean, [t1.value, t1.value]))
    else Null
  }

  /** As comparison, and also for two values of one enum type. */
  function Equality(t1: Option<Ty>, t2: Option<Ty>): Res<Sig> {
    if Comparison(t1, t2).Ok? then Comparison(t1, t2)
    else if t1 == t2 then
      if t1.None? then Abort
      else if t1.value.Enum? then Ok(Sig(Boolean, [t1.value, t1.value])) else Null
    else Null
  }

  /** if-then-else: the branches must have the same type. */
  function CalcType3(t1: Option<Ty>, t2: Option<Ty>, t3: Option<Ty>): Res<Sig> {
    if t1.None? then Abort
    else if CastableToBoolean(t1.value) && t2 == t3 && t2.Some? then Ok(Sig(t2.value, [Boolean, t2.value, t2.value]))
    else Null
  }

  /** The type of a load; other handles cannot be loaded. */
  function LoadType(h: Handle): Res<Ty> {
    match h
    case LocalVar(_, ty, _, _) => Ok(ty)
    case GlobalVar(_, ty, _, _) => Ok(ty)
    case Function(_, ty, _, _) => Ok(ty)
    case BooleanConst(_, _) => Ok(Boolean)
    case IntConst(_, _) => Ok(Int)
    case FloatConst(_, _) => Ok(Float)
    case StringConst(_, _) => Ok(String)
    case ArrayRef(base, _) =>
      (match TypeOf(base) case Some(Array(elem)) => Ok(elem) case _ => Abort)
    case _ => Abort
  }

  /** A handle whose load is a constant expression. */
  predicate StaticHandle(h: Handle) {
    h.BooleanConst? || h.IntConst? || h.FloatConst? || h.StringConst?
  }

  /** A constant expression. */
  predicate IsStatic(n: Node) {
    match n
    case UniOp(_, _, a) => IsStatic(a)
    case BinOp(_, _, a, b) => IsStatic(a) && IsStatic(b)
    case TriOp(_, a, b, c) => IsStatic(a) && IsStatic(b) && IsStatic(c)
    case Load(_, h) => StaticHandle(h)
    case _ => false
  }
}
