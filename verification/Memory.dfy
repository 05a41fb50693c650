/** What the stack machine's variables and single instructions do, from one instruction to the next. */
module Memory {
  import opened Common
  import opened Ir
  import opened Interp
  import opened Arithmetic
  import opened Vsm
  import V = Vsm

  ghost function Top(m: State): Cell
    requires 0 < m.sp <= |m.stack|
  {
    m.stack[m.sp - 1]
  }

  /** Two cells hold the same value: the same double, or the same integer in their low words. */
  ghost predicate SameValue(float: bool, a: Cell, b: Cell) {
    if float then a == b else GetInt(a) == GetInt(b)
  }

  ghost predicate SameTop(float: bool, m: State, r: State) {
    && 0 < m.sp <= |m.stack| && 0 < r.sp <= |r.stack| && m.sp == r.sp
    && SameValue(float, Top(m), Top(r))
  }

  lemma IntFits(c: Cell)
    ensures Int32(GetInt(c))
  {
  }

  // ----- variables -----

  /** What was stored is what the next load of the same variable pushes. */
  lemma StoreThenLoad(g: bool, f: bool, index: int, m: State, base: int, fp: FloatOps)
    requires Perform(V.Store(g, f, index), m, base, fp).Some?
    ensures var s := Perform(V.Store(g, f, index), m, base, fp).value;
            && Perform(V.Load(g, f, index), s, base, fp).Some?
            && SameTop(f, m, Perform(V.Load(g, f, index), s, base, fp).value)
  {
    var c := m.stack[m.sp - 1];
    IntFits(c);
    var s := Perform(V.Store(g, f, index), m, base, fp).value;
    var at := if g then index else base + index;
    var cells := if g then m.globals else m.stack;
    if !f {
      GetSetInt(cells[at], GetInt(c));
      GetSetInt(s.stack[s.sp], GetInt(c));
    }
  }

  /** A store leaves what loads of every other variable push. */
  lemma StoreLeavesOthers(g: bool, f: bool, i: int, g': bool, f': bool, j: int, m: State, base: int, fp: FloatOps)
    requires Perform(V.Store(g, f, i), m, base, fp).Some? && (g != g' || i != j)
    requires Perform(V.Load(g', f', j), m.(sp := m.sp - 1), base, fp).Some?
    ensures var s := Perform(V.Store(g, f, i), m, base, fp).value;
            && Perform(V.Load(g', f', j), s, base, fp).Some?
            && SameTop(f', Perform(V.Load(g', f', j), m.(sp := m.sp - 1), base, fp).value,
                       Perform(V.Load(g', f', j), s, base, fp).value)
  {
    var s := Perform(V.Store(g, f, i), m, base, fp).value;
    var from := if g' then m.globals else m.stack;
    var at := if g' then j else base + j;
    assert (if g' then s.globals else s.stack)[at] == from[at];
    if !f' {
      IntFits(from[at]);
      GetSetInt(s.stack[s.sp], GetInt(from[at]));
      GetSetInt(m.stack[m.sp - 1], GetInt(from[at]));
    }
  }

  /** A store pops its value and changes at most one cell of the stack or of the heap, besides. */
  lemma StoreTouchesOne(g: bool, f: bool, index: int, m: State, base: int, fp: FloatOps, k: nat)
    requires Perform(V.Store(g, f, index), m, base, fp).Some?
    ensures var s := Perform(V.Store(g, f, index), m, base, fp).value;
            && s.sp == m.sp - 1 && |s.stack| == |m.stack| && |s.globals| == |m.globals|
            && (k < |s.stack| && (g || k != base + index) ==> s.stack[k] == m.stack[k])
            && (k < |s.globals| && (!g || k != index) ==> s.globals[k] == m.globals[k])
  {
  }

  /** Locals are counted from the base of the frame, and local 0 is the cell at the base; globals do not depend on
      the frame. */
  lemma LocalsFromBase(f: bool, index: int, m: State, base: int, base': int, fp: FloatOps)
    ensures Perform(V.Load(false, f, index), m, base, fp) == Perform(V.Load(false, f, 0), m, base + index, fp)
    ensures Perform(V.Store(false, f, index), m, base, fp) == Perform(V.Store(false, f, 0), m, base + index, fp)
    ensures Perform(V.Load(true, f, index), m, base, fp) == Perform(V.Load(true, f, index), m, base', fp)
    ensures Perform(V.Store(true, f, index), m, base, fp) == Perform(V.Store(true, f, index), m, base', fp)
  {
    hide GetInt, SetInt;
  }

  lemma CellLoaded(g: bool, f: bool, at: int, m: State, fp: FloatOps)
    ensures var i := if g then V.Load(true, f, at) else V.Load(false, f, 0);
            var cells := if g then m.globals else m.stack;
            var r := Perform(i, m, at, fp);
            && (r.Some? <==> 0 <= at < |cells| && m.sp < |m.stack|)
            && (r.Some? ==> r.value.sp == m.sp + 1 && SameValue(f, Top(r.value), cells[at]))
  {
    var cells := if g then m.globals else m.stack;
    if 0 <= at < |cells| && m.sp < |m.stack| && !f {
      IntFits(cells[at]);
      GetSetInt(m.stack[m.sp], GetInt(cells[at]));
    }
  }

  // ----- instructions with one operand -----

  /** The same integer on top of the same stack, or no defined effect on either side. */
  ghost predicate SameInt(a: Option<State>, b: Option<State>) {
    a.Some? == b.Some? && (a.Some? ==> SameTop(false, a.value, b.value))
  }

  /** Code that pushes one integer and works on it. */
  ghost function OnInt(x: int, i: V.Instr, m: State, base: int, fp: FloatOps): Option<State> {
    match PushInt'(m, x) case None => None case Some(m1) => Perform(i, m1, base, fp)
  }

  /** Code that pushes `y`, then `x`, and combines them. */
  ghost function OnInts(x: int, y: int, op: BinOp, m: State, base: int, fp: FloatOps): Option<State> {
    match PushInt'(m, y)
    case None => None
    case Some(m1) => (match PushInt'(m1, x) case None => None case Some(m2) => Perform(IntBin(op), m2, base, fp))
  }

  lemma OnIntIs(x: int, u: IntUniOp, m: State, base: int, fp: FloatOps)
    requires Int32(x) && m.sp < |m.stack|
    ensures var r, v := OnInt(x, IntUni(u), m, base, fp), IntUnary(u, x);
            && (r.Some? <==> v.Val?)
            && (r.Some? && Int32(v.v) ==>
                  r.value.sp == m.sp + 1 && |r.value.stack| == |m.stack| && GetInt(Top(r.value)) == v.v)
  {
    GetSetInt(m.stack[m.sp], x);
    var v := IntUnary(u, x);
    if v.Val? && Int32(v.v) { GetSetInt(SetInt(m.stack[m.sp], x), v.v); }
    hide GetInt, SetInt, IntUnary;
  }

  lemma OnIntsIs(x: int, y: int, op: BinOp, m: State, base: int, fp: FloatOps)
    requires Int32(x) && Int32(y) && m.sp + 1 < |m.stack|
    ensures var r, v := OnInts(x, y, op, m, base, fp), IntResult(op, x, y);
            && (r.Some? <==> v.Val?)
            && (r.Some? && Int32(v.v) ==>
                  r.value.sp == m.sp + 1 && |r.value.stack| == |m.stack| && GetInt(Top(r.value)) == v.v)
  {
    hide GetInt, SetInt, IntResult;
    GetSetInt(m.stack[m.sp], y);
    GetSetInt(m.stack[m.sp + 1], x);
    var v := IntResult(op, x, y);
    if v.Val? && Int32(v.v) { GetSetInt(SetInt(m.stack[m.sp], y), v.v); }
  }

  /** Counting up and down is adding and subtracting one, and the negative is subtracted from zero; all are undefined
      together. */
  lemma CountingIsAdding(x: int, m: State, base: int, fp: FloatOps)
    requires Int32(x) && m.sp + 1 < |m.stack|
    ensures SameInt(OnInt(x, IntUni(Inc), m, base, fp), OnInts(x, 1, Add, m, base, fp))
    ensures SameInt(OnInt(x, IntUni(Dec), m, base, fp), OnInts(x, 1, Sub, m, base, fp))
    ensures SameInt(OnInt(x, IntUni(Minus), m, base, fp), OnInts(0, x, Sub, m, base, fp))
  {
    hide OnInt, OnInts, GetInt;
    OnIntIs(x, Inc, m, base, fp);
    OnIntsIs(x, 1, Add, m, base, fp);
    OnIntIs(x, Dec, m, base, fp);
    OnIntsIs(x, 1, Sub, m, base, fp);
    OnIntIs(x, Minus, m, base, fp);
    OnIntsIs(0, x, Sub, m, base, fp);
  }

  /** Not complements every bit. */
  lemma NotComplements(x: int, m: State, base: int, fp: FloatOps, i: nat)
    requires Int32(x) && m.sp < |m.stack|
    ensures OnInt(x, IntUni(Not), m, base, fp).Some?
    ensures var r := OnInt(x, IntUni(Not), m, base, fp).value;
            r.sp == m.sp + 1 && r.sp <= |r.stack| && Bit(GetInt(Top(r)), i) == !Bit(x, i)
  {
    OnIntIs(x, Not, m, base, fp);
    ComplementBits(x, i);
  }

  /** An integer becomes the float that stands for it; the negative of a float cancels it; zero and one push what the
      floats zero and one are, and if-then-else keeps what its condition selects. */
  lemma FloatInstructions(x: int, f: Double, m: State, base: int, fp: FloatOps, r: Double -> real)
    requires Int32(x) && m.sp < |m.stack|
    requires r(fp.ofInt(x)) == x as real && r(fp.neg(f)) == -r(f) && r(fp.zero) == 0.0 && r(fp.one) == 1.0
    ensures var s := OnInt(x, IntToFloat, m, base, fp);
            s.Some? && s.value.sp == m.sp + 1 <= |s.value.stack| && r(Double(Top(s.value))) == x as real
    ensures var s := Perform(PushFloatZero, m, base, fp);
            s.Some? && s.value.sp == m.sp + 1 <= |s.value.stack| && r(Double(Top(s.value))) == 0.0
    ensures var s := Perform(PushFloatOne, m, base, fp);
            s.Some? && s.value.sp == m.sp + 1 <= |s.value.stack| && r(Double(Top(s.value))) == 1.0
    ensures var s := Perform(FloatMinus, Push(m, SetFloat(f)).value, base, fp);
            s.Some? && s.value.sp == m.sp + 1 <= |s.value.stack| && r(Double(Top(s.value))) + r(f) == 0.0
  {
    GetSetInt(m.stack[m.sp], x);
    hide GetInt, SetInt;
  }

  // ----- instruction codes -----

  /** The instructions in the order of their codes, without operands; those with objects, and casts to and from
      booleans, are not modelled. */
  function Numbered(): seq<Option<V.Instr>> {
    [Some(Nop), Some(PushInt(0)), Some(PushFloat(Double(0))), Some(PushFloatZero), Some(PushFloatOne), None,
     Some(V.Load(true, false, 0)), Some(V.Load(true, true, 0)), None,
     Some(V.Load(false, false, 0)), Some(V.Load(false, true, 0)), None,
     Some(V.Store(true, false, 0)), Some(V.Store(true, true, 0)), None,
     Some(V.Store(false, false, 0)), Some(V.Store(false, true, 0)), None,
     Some(IntUni(Minus)), Some(IntUni(Inc)), Some(IntUni(Dec)), Some(IntUni(Not)), None, Some(IntToFloat)]
    +
    [Some(IntBin(Add)), Some(IntBin(Sub)), Some(IntBin(Mul)), Some(IntBin(Div)), Some(IntBin(Mod)),
     Some(IntBin(Lshift)), Some(IntBin(Rshift)),
     Some(IntBin(Equal)), Some(IntBin(NotEq)), Some(IntBin(Lt)), Some(IntBin(Le)),
     Some(IntBin(BitAnd)), Some(IntBin(BitOr)), Some(IntBin(BitXor)), Some(IntIte),
     Some(FloatMinus), None, None,
     Some(FloatBin(Add)), Some(FloatBin(Sub)), Some(FloatBin(Mul)), Some(FloatBin(Div)),
     Some(FloatBin(Equal)), Some(FloatBin(NotEq)), Some(FloatBin(Lt)), Some(FloatBin(Le)), Some(FloatIte)]
  }

  function WithoutOperand(i: V.Instr): V.Instr {
    match i
    case PushInt(_) => PushInt(0)
    case PushFloat(_) => PushFloat(Double(0))
    case Load(g, f, _) => V.Load(g, f, 0)
    case Store(g, f, _) => V.Store(g, f, 0)
    case _ => i
  }

  /** Codes count the instructions in that order. */
  lemma CodesCount(i: V.Instr)
    requires Encodable(i)
    ensures Opcode(i) < |Numbered()| && Numbered()[Opcode(i)] == Some(WithoutOperand(i))
  {
  }
}
