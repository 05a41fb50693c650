/** The stack machine on straight-line code: what each instruction does to the stack and the globals,
    and the loop that fetches and executes words. */
module Vsm {
  import opened Common
  import opened Ir
  import opened Interp
  import C = CodeList

  /** The instructions without jumps, calls and objects. Relations on integers and floats leave an
      integer, 1 or 0. */
  datatype Instr =
    | Nop
    | PushInt(v: int)
    | PushFloat(f: Double)
    | PushFloatZero
    | PushFloatOne
    | Load(global: bool, float: bool, index: int)
    | Store(global: bool, float: bool, index: int)
    | IntUni(u: IntUniOp)
    | IntToFloat
    | IntBin(op: BinOp)
    | IntIte
    | FloatMinus
    | FloatBin(op: BinOp)
    | FloatIte

  datatype IntUniOp = Minus | Inc | Dec | Not

  predicate IntBinary(op: BinOp) { !op.LogAnd? && !op.LogOr? }

  predicate FloatBinary(op: BinOp) {
    op.Add? || op.Sub? || op.Mul? || op.Div? || op.Equal? || op.NotEq? || op.Lt? || op.Le?
  }

  /** Operands fit their words. */
  predicate Encodable(i: Instr) {
    match i
    case PushInt(v) => Int32(v)
    case Load(_, _, index) => Int32(index)
    case Store(_, _, index) => Int32(index)
    case IntBin(op) => IntBinary(op)
    case FloatBin(op) => FloatBinary(op)
    case _ => true
  }

  // ----- instruction codes -----

  function IntCode(op: BinOp): C.Word {
    match op
    case Add => 24 case Sub => 25 case Mul => 26 case Div => 27 case Mod => 28 case Lshift => 29 case Rshift => 30
    case Equal => 31 case NotEq => 32 case Lt => 33 case Le => 34 case BitAnd => 35 case BitOr => 36 case BitXor => 37
    case _ => 0
  }

  function FloatCode(op: BinOp): C.Word {
    match op
    case Add => 42 case Sub => 43 case Mul => 44 case Div => 45 case Equal => 46 case NotEq => 47 case Lt => 48
    case Le => 49
    case _ => 0
  }

  function Opcode(i: Instr): C.Word {
    match i
    case Nop => 0
    case PushInt(_) => 1
    case PushFloat(_) => 2
    case PushFloatZero => 3
    case PushFloatOne => 4
    case Load(g, f, _) => if g then (if f then 7 else 6) else if f then 10 else 9
    case Store(g, f, _) => if g then (if f then 13 else 12) else if f then 16 else 15
    case IntUni(u) => (match u case Minus => 18 case Inc => 19 case Dec => 20 case Not => 21)
    case IntToFloat => 23
    case IntBin(op) => IntCode(op)
    case IntIte => 38
    case FloatMinus => 39
    case FloatBin(op) => FloatCode(op)
    case FloatIte => 50
  }

  /** An instruction as it is written: its code, then its operand. */
  function Words(i: Instr): (w: seq<C.Word>)
    requires Encodable(i)
    ensures w != []
  {
    match i
    case PushInt(v) => [Opcode(i)] + C.Encode(C.IntItem(v))
    case PushFloat(f) => [Opcode(i)] + C.Encode(C.FloatItem(f))
    case Load(_, _, index) => [Opcode(i)] + C.Encode(C.IntItem(index))
    case Store(_, _, index) => [Opcode(i)] + C.Encode(C.IntItem(index))
    case _ => [Opcode(i)]
  }

  predicate AllEncodable(code: seq<Instr>) {
    forall k :: 0 <= k < |code| ==> Encodable(code[k])
  }

  function AllWords(code: seq<Instr>): seq<C.Word>
    requires AllEncodable(code)
  {
    if code == [] then [] else AllWords(code[..|code| - 1]) + Words(code[|code| - 1])
  }

  // ----- cells -----

  /** A cell is a union: an integer takes the low word, a double the whole. */
  type Cell = Bits64

  function GetInt(c: Cell): int { C.WordInt(c % C.WORD) }

  function SetInt(c: Cell, v: int): Cell { c / C.WORD * C.WORD + C.IntWord(v) }

  lemma GetSetInt(c: Cell, v: int)
    requires Int32(v)
    ensures GetInt(SetInt(c, v)) == v
  {
  }

  function SetFloat(f: Double): Cell { f.bits }

  // ----- the machine -----

  /** The local stack, the global heap and the stack pointer. */
  datatype State = State(stack: seq<Cell>, globals: seq<Cell>, sp: nat)

  function Push(m: State, c: Cell): Option<State> {
    if m.sp < |m.stack| then Some(m.(stack := m.stack[m.sp := c], sp := m.sp + 1)) else None
  }

  function PushInt'(m: State, v: int): Option<State> {
    if m.sp < |m.stack| then Push(m, SetInt(m.stack[m.sp], v)) else None
  }

  function Pop(m: State): Option<(Cell, State)> {
    if 0 < m.sp <= |m.stack| then Some((m.stack[m.sp - 1], m.(sp := m.sp - 1))) else None
  }

  function FromBool(b: bool): int { if b then 1 else 0 }

  function IntUnary(u: IntUniOp, v: int): Ev<int> {
    match u
    case Minus => Checked(-v)
    case Inc => Checked(v + 1)
    case Dec => Checked(v - 1)
    case Not => Val(-v - 1)
  }

  function IntResult(op: BinOp, a: int, b: int): Ev<int> {
    match op
    case Equal => Val(FromBool(a == b))
    case NotEq => Val(FromBool(a != b))
    case Lt => Val(FromBool(a < b))
    case Le => Val(FromBool(a <= b))
    case _ => IntOp(op, a, b)
  }

  function FloatPush(m: State, op: BinOp, a: Double, b: Double, fp: FloatOps): Option<State> {
    match op
    case Equal => PushInt'(m, FromBool(fp.eq(a, b)))
    case NotEq => PushInt'(m, FromBool(!fp.eq(a, b)))
    case Lt => PushInt'(m, FromBool(fp.lt(a, b)))
    case Le => PushInt'(m, FromBool(fp.le(a, b)))
    case _ => (match FloatOp(op, a, b, fp) case Val(f) => Push(m, SetFloat(f)) case _ => None)
  }

  /** One instruction; nothing follows when it has no defined effect. The first value popped is the
      left operand. */
  function Perform(i: Instr, m: State, base: int, fp: FloatOps): Option<State> {
    match i
    case Nop => Some(m)
    case PushInt(v) => PushInt'(m, v)
    case PushFloat(f) => Push(m, SetFloat(f))
    case PushFloatZero => Push(m, SetFloat(fp.zero))
    case PushFloatOne => Push(m, SetFloat(fp.one))
    case Load(g, f, index) =>
      var from := if g then m.globals else m.stack;
      var at := if g then index else base + index;
      if 0 <= at < |from| then (if f then Push(m, from[at]) else PushInt'(m, GetInt(from[at]))) else None
    case Store(g, f, index) =>
      (match Pop(m)
       case None => None
       case Some((c, m1)) =>
         var to := if g then m1.globals else m1.stack;
         var at := if g then index else base + index;
         if !(0 <= at < |to|) then None else
           var upd := to[at := if f then c else SetInt(to[at], GetInt(c))];
           Some(if g then m1.(globals := upd) else m1.(stack := upd)))
    case IntUni(u) =>
      (match Pop(m)
       case None => None
       case Some((c, m1)) => (match IntUnary(u, GetInt(c)) case Val(v) => PushInt'(m1, v) case _ => None))
    case IntToFloat =>
      (match Pop(m)
       case None => None
       case Some((c, m1)) => Push(m1, SetFloat(fp.ofInt(GetInt(c)))))
    case FloatMinus =>
      (match Pop(m)
       case None => None
       case Some((c, m1)) => Push(m1, SetFloat(fp.neg(Double(c)))))
    case IntBin(op) =>
      (match Pop2(m)
       case None => None
       case Some((a, b, m1)) =>
         (match IntResult(op, GetInt(a), GetInt(b)) case Val(v) => PushInt'(m1, v) case _ => None))
    case FloatBin(op) =>
      (match Pop2(m)
       case None => None
       case Some((a, b, m1)) => FloatPush(m1, op, Double(a), Double(b), fp))
    case IntIte =>
      (match Pop3(m)
       case None => None
       case Some((a, b, c, m1)) => PushInt'(m1, if GetInt(a) != 0 then GetInt(b) else GetInt(c)))
    case FloatIte =>
      (match Pop3(m)
       case None => None
       case Some((a, b, c, m1)) => Push(m1, if GetInt(a) != 0 then b else c))
  }

  function Pop2(m: State): Option<(Cell, Cell, State)> {
    match Pop(m)
    case None => None
    case Some((a, m1)) => (match Pop(m1) case None => None case Some((b, m2)) => Some((a, b, m2)))
  }

  function Pop3(m: State): Option<(Cell, Cell, Cell, State)> {
    match Pop2(m)
    case None => None
    case Some((a, b, m1)) => (match Pop(m1) case None => None case Some((c, m2)) => Some((a, b, c, m2)))
  }

  function PerformAll(code: seq<Instr>, m: State, base: int, fp: FloatOps): Option<State> {
    if code == [] then Some(m) else
      match PerformAll(code[..|code| - 1], m, base, fp)
      case None => None
      case Some(m1) => Perform(code[|code| - 1], m1, base, fp)
  }

  // ----- stack effects -----

  function Effect(i: Instr): int {
    match i
    case Nop => 0
    case PushInt(_) => 1
    case PushFloat(_) => 1
    case PushFloatZero => 1
    case PushFloatOne => 1
    case Load(_, _, _) => 1
    case Store(_, _, _) => -1
    case IntUni(_) => 0
    case IntToFloat => 0
    case FloatMinus => 0
    case IntBin(_) => -1
    case FloatBin(_) => -1
    case IntIte => -2
    case FloatIte => -2
  }

  function TotalEffect(code: seq<Instr>): int {
    if code == [] then 0 else TotalEffect(code[..|code| - 1]) + Effect(code[|code| - 1])
  }

  lemma PointerMoves(i: Instr, m: State, base: int, fp: FloatOps)
    requires Perform(i, m, base, fp).Some?
    ensures var r := Perform(i, m, base, fp).value;
            r.sp == m.sp + Effect(i) && |r.stack| == |m.stack| && |r.globals| == |m.globals|
  {
    hide IntResult, IntUnary, GetInt, SetInt, FloatOp;
  }

  /** The stack pointer moves by the sum of the effects, and the stack and heap keep their sizes. */
  lemma {:induction false} PointerMovesByEffects(code: seq<Instr>, m: State, base: int, fp: FloatOps)
    requires PerformAll(code, m, base, fp).Some?
    ensures var r := PerformAll(code, m, base, fp).value;
            r.sp == m.sp + TotalEffect(code) && |r.stack| == |m.stack| && |r.globals| == |m.globals|
    decreases code
  {
    hide Perform, Effect;
    if code != [] {
      PointerMovesByEffects(code[..|code| - 1], m, base, fp);
      PointerMoves(code[|code| - 1], PerformAll(code[..|code| - 1], m, base, fp).value, base, fp);
    }
  }

  lemma {:induction false} PerformAppend(a: seq<Instr>, b: seq<Instr>, m: State, base: int, fp: FloatOps)
    ensures PerformAll(a + b, m, base, fp) ==
            match PerformAll(a, m, base, fp) case None => None case Some(m1) => PerformAll(b, m1, base, fp)
    decreases b
  {
    if b == [] {
      assert a + b == a;
    } else {
      PerformAppend(a, b[..|b| - 1], m, base, fp);
      assert (a + b)[..|a + b| - 1] == a + b[..|b| - 1];
    }
  }

  // ----- fetching -----

  function IntOf(code: C.Word): Option<BinOp> {
    match code
    case 24 => Some(Add) case 25 => Some(Sub) case 26 => Some(Mul) case 27 => Some(Div) case 28 => Some(Mod)
    case 29 => Some(Lshift) case 30 => Some(Rshift) case 31 => Some(Equal) case 32 => Some(NotEq) case 33 => Some(Lt)
    case 34 => Some(Le) case 35 => Some(BitAnd) case 36 => Some(BitOr) case 37 => Some(BitXor)
    case _ => None
  }

  function FloatOf(code: C.Word): Option<BinOp> {
    match code
    case 42 => Some(Add) case 43 => Some(Sub) case 44 => Some(Mul) case 45 => Some(Div)
    case 46 => Some(Equal) case 47 => Some(NotEq) case 48 => Some(Lt) case 49 => Some(Le)
    case _ => None
  }

  /** An instruction without operand. */
  function Plain(code: C.Word): Instr {
    match code
    case 3 => PushFloatZero
    case 4 => PushFloatOne
    case 18 => IntUni(Minus) case 19 => IntUni(Inc) case 20 => IntUni(Dec) case 21 => IntUni(Not)
    case 23 => IntToFloat
    case 38 => IntIte
    case 39 => FloatMinus
    case 50 => FloatIte
    case _ => if IntOf(code).Some? then IntBin(IntOf(code).value)
              else if FloatOf(code).Some? then FloatBin(FloatOf(code).value)
              else Nop
  }

  /** An instruction with an integer operand. */
  function WithInt(code: C.Word, v: int): Option<Instr> {
    match code
    case 1 => Some(PushInt(v))
    case 6 => Some(Instr.Load(true, false, v)) case 7 => Some(Instr.Load(true, true, v))
    case 9 => Some(Instr.Load(false, false, v)) case 10 => Some(Instr.Load(false, true, v))
    case 12 => Some(Instr.Store(true, false, v)) case 13 => Some(Instr.Store(true, true, v))
    case 15 => Some(Instr.Store(false, false, v)) case 16 => Some(Instr.Store(false, true, v))
    case _ => None
  }

  predicate HasIndex(i: Instr) { i.PushInt? || i.Load? || i.Store? }

  /** What the code of an instruction says about it. */
  lemma OpcodeTells(i: Instr)
    requires Encodable(i)
    ensures Opcode(i) == 2 <==> i.PushFloat?
    ensures WithInt(Opcode(i), 0).Some? <==> HasIndex(i)
    ensures !i.PushFloat? && !HasIndex(i) ==> Plain(Opcode(i)) == i
  {
  }

  lemma OperandTells(i: Instr)
    requires Encodable(i) && HasIndex(i)
    ensures |Words(i)| == 2 && WithInt(Opcode(i), C.WordInt(Words(i)[1])) == Some(i)
  {
  }

  lemma WordsShape(i: Instr)
    requires Encodable(i)
    ensures Words(i)[0] == Opcode(i)
    ensures i.PushFloat? ==> Words(i) == [Opcode(i)] + C.Encode(C.FloatItem(i.f)) && |Words(i)| == 3
    ensures !i.PushFloat? && !HasIndex(i) ==> |Words(i)| == 1
  {
  }

  lemma FetchWords(i: Instr, before: seq<C.Word>, after: seq<C.Word>)
    requires Encodable(i)
    ensures var words := before + Words(i) + after;
            var op := words[|before|];
            if op == 2 then
              && |before| + 3 <= |words| && i.PushFloat? && |Words(i)| == 3
              && C.Decode(C.FloatKind, words, |before| + 1) == C.FloatItem(i.f)
            else if WithInt(op, 0).Some? then
              |before| + 2 <= |words| && |Words(i)| == 2
              && WithInt(op, C.WordInt(words[|before| + 1])) == Some(i)
            else Plain(op) == i && |Words(i)| == 1
  {
    hide Words, Opcode, WithInt, Plain, C.Encode, C.Decode, C.WordInt, Encodable;
    var words := before + Words(i) + after;
    assert words[|before|] == Words(i)[0];
    OpcodeTells(i);
    WordsShape(i);
    if i.PushFloat? {
      C.DecodeEncoded(C.FloatItem(i.f), before + [Opcode(i)], after);
      assert before + [Opcode(i)] + C.Encode(C.FloatItem(i.f)) + after == words;
    } else if HasIndex(i) {
      OperandTells(i);
      assert words[|before| + 1] == Words(i)[1];
    }
  }

  lemma {:induction false} WordsPrefix(code: seq<Instr>, k: nat)
    requires AllEncodable(code) && k <= |code|
    ensures AllWords(code[..k]) <= AllWords(code)
    decreases |code| - k
  {
    if k < |code| {
      assert code[..k + 1][..k] == code[..k];
      WordsPrefix(code, k + 1);
    } else {
      assert code[..k] == code;
    }
  }

  /** The words of instruction `k` follow those of the instructions before it. */
  lemma WordsAt(code: seq<Instr>, k: nat)
    requires AllEncodable(code) && k < |code|
    ensures AllWords(code[..k + 1]) == AllWords(code[..k]) + Words(code[k])
    ensures |AllWords(code[..k + 1])| <= |AllWords(code)|
    ensures AllWords(code) == AllWords(code[..k]) + Words(code[k]) + AllWords(code)[|AllWords(code[..k + 1])|..]
  {
    assert code[..k + 1][..k] == code[..k];
    WordsPrefix(code, k + 1);
  }

  lemma {:induction false} StopsHere(code: seq<Instr>, k: nat, m: State, base: int, fp: FloatOps)
    requires k <= |code| && PerformAll(code[..k], m, base, fp).None?
    ensures PerformAll(code, m, base, fp).None?
    decreases |code| - k
  {
    if k < |code| {
      assert code[..k + 1][..k] == code[..k];
      StopsHere(code, k + 1, m, base, fp);
    } else {
      assert code[..k] == code;
    }
  }

  // ----- the machine on the heap -----

  class Vsm {
    const fp: FloatOps
    const stack: array<Cell>
    const globals: array<Cell>
    var sp: nat

    constructor (fp: FloatOps, stackSize: nat, heapSize: nat)
      ensures Apart() && Now() == State(seq(stackSize, _ => 0), seq(heapSize, _ => 0), 0) && this.fp == fp
      ensures fresh(stack) && fresh(globals)
    {
      this.fp, sp := fp, 0;
      stack := new Cell[stackSize](_ => 0);
      globals := new Cell[heapSize](_ => 0);
    }

    predicate Apart() { stack != globals }

    ghost function Now(): State
      reads this, stack, globals
    {
      State(stack[..], globals[..], sp)
    }

    method PushCell(c: Cell) returns (ok: bool)
      requires Apart()
      modifies this, stack
      ensures Follows(Push(old(Now()), c), ok, Now())
    {
      ok := sp < stack.Length;
      if ok {
        stack[sp] := c;
        sp := sp + 1;
      }
    }

    method PushINT(v: int) returns (ok: bool)
      requires Apart()
      modifies this, stack
      ensures Follows(PushInt'(old(Now()), v), ok, Now())
    {
      ok := sp < stack.Length;
      if ok {
        ok := PushCell(SetInt(stack[sp], v));
      }
    }

    method PopCell() returns (ok: bool, c: Cell)
      modifies this
      ensures ok == Pop(old(Now())).Some?
      ensures ok ==> Pop(old(Now())).value == (c, Now())
    {
      ok, c := 0 < sp <= stack.Length, 0;
      if ok {
        sp := sp - 1;
        c := stack[sp];
      }
    }

    method DoLoad(i: Instr, base: int) returns (ok: bool)
      requires Apart() && i.Load?
      modifies this, stack
      ensures Follows(Perform(i, old(Now()), base, fp), ok, Now())
    {
      var c: Cell;
      if i.global {
        ok := 0 <= i.index < globals.Length;
        c := if ok then globals[i.index] else 0;
      } else {
        ok := 0 <= base + i.index < stack.Length;
        c := if ok then stack[base + i.index] else 0;
      }
      if ok {
        if i.float { ok := PushCell(c); } else { ok := PushINT(GetInt(c)); }
      }
    }

    method DoStore(i: Instr, base: int) returns (ok: bool)
      requires Apart() && i.Store?
      modifies this, stack, globals
      ensures Follows(Perform(i, old(Now()), base, fp), ok, Now())
    {
      var c;
      ok, c := PopCell();
      if ok {
        if i.global {
          ok := 0 <= i.index < globals.Length;
          if ok {
            globals[i.index] := if i.float then c else SetInt(globals[i.index], GetInt(c));
          }
        } else {
          ok := 0 <= base + i.index < stack.Length;
          if ok {
            stack[base + i.index] := if i.float then c else SetInt(stack[base + i.index], GetInt(c));
          }
        }
      }
    }

    method DoUnary(i: Instr, base: int) returns (ok: bool)
      requires Apart() && (i.IntUni? || i.IntToFloat? || i.FloatMinus?)
      modifies this, stack
      ensures Follows(Perform(i, old(Now()), base, fp), ok, Now())
    {
      var c;
      ok, c := PopCell();
      if ok {
        match i
        case IntUni(u) =>
          var v := IntUnary(u, GetInt(c));
          ok := v.Val?;
          if ok { ok := PushINT(v.v); }
        case IntToFloat => ok := PushCell(SetFloat(fp.ofInt(GetInt(c))));
        case FloatMinus => ok := PushCell(SetFloat(fp.neg(Double(c))));
      }
    }

    method DoBinary(i: Instr, base: int) returns (ok: bool)
      requires Apart() && (i.IntBin? || i.FloatBin?)
      modifies this, stack
      ensures Follows(Perform(i, old(Now()), base, fp), ok, Now())
    {
      var val1, val2;
      ok, val1 := PopCell();
      if ok { ok, val2 := PopCell(); }
      if ok {
        if i.IntBin? {
          var v := IntResult(i.op, GetInt(val1), GetInt(val2));
          ok := v.Val?;
          if ok { ok := PushINT(v.v); }
        } else {
          ok := PushFloatResult(i.op, Double(val1), Double(val2));
        }
      }
    }

    method PushFloatResult(op: BinOp, a: Double, b: Double) returns (ok: bool)
      requires Apart()
      modifies this, stack
      ensures Follows(FloatPush(old(Now()), op, a, b, fp), ok, Now())
    {
      if op.Equal? {
        ok := PushINT(FromBool(fp.eq(a, b)));
      } else if op.NotEq? {
        ok := PushINT(FromBool(!fp.eq(a, b)));
      } else if op.Lt? {
        ok := PushINT(FromBool(fp.lt(a, b)));
      } else if op.Le? {
        ok := PushINT(FromBool(fp.le(a, b)));
      } else {
        var f := FloatOp(op, a, b, fp);
        ok := f.Val?;
        if ok { ok := PushCell(SetFloat(f.v)); }
      }
    }

    method DoIte(i: Instr, base: int) returns (ok: bool)
      requires Apart() && (i.IntIte? || i.FloatIte?)
      modifies this, stack
      ensures Follows(Perform(i, old(Now()), base, fp), ok, Now())
    {
      var val1, val2, val3;
      ok, val1 := PopCell();
      if ok { ok, val2 := PopCell(); }
      if ok { ok, val3 := PopCell(); }
      if ok {
        var c := if GetInt(val1) != 0 then val2 else val3;
        if i.IntIte? { ok := PushINT(GetInt(c)); } else { ok := PushCell(c); }
      }
    }

    /** One pass through the switch. */
    method DoInstr(i: Instr, base: int) returns (ok: bool)
      requires Apart()
      modifies this, stack, globals
      ensures Follows(Perform(i, old(Now()), base, fp), ok, Now())
    {
      match i
      case Nop => ok := true;
      case PushInt(v) => ok := PushINT(v);
      case PushFloat(f) => ok := PushCell(SetFloat(f));
      case PushFloatZero => ok := PushCell(SetFloat(fp.zero));
      case PushFloatOne => ok := PushCell(SetFloat(fp.one));
      case Load(_, _, _) => ok := DoLoad(i, base);
      case Store(_, _, _) => ok := DoStore(i, base);
      case IntUni(_) => ok := DoUnary(i, base);
      case IntToFloat => ok := DoUnary(i, base);
      case FloatMinus => ok := DoUnary(i, base);
      case IntBin(_) => ok := DoBinary(i, base);
      case FloatBin(_) => ok := DoBinary(i, base);
      case IntIte => ok := DoIte(i, base);
      case FloatIte => ok := DoIte(i, base);
    }

    /** Read the instruction at `pc` and its operand. */
    method Fetch(code: C.VsmCodeList, pc: nat, ghost prog: seq<Instr>, ghost k: nat) returns (i: Instr, next: nat)
      requires AllEncodable(prog) && k < |prog| && code.body[..] == AllWords(prog) && pc == |AllWords(prog[..k])|
      ensures i == prog[k] && next == |AllWords(prog[..k + 1])| <= code.body.Length
    {
      hide Words, Opcode, Plain, WithInt, Encodable, C.Encode;
      WordsAt(prog, k);
      FetchWords(prog[k], AllWords(prog[..k]), AllWords(prog)[|AllWords(prog[..k + 1])|..]);
      var op;
      op, next := code.ReadOpcode(pc);
      if op == 2 {
        var f;
        f, next := code.ReadFloat(next);
        i := PushFloat(f);
      } else if WithInt(op, 0).Some? {
        var v;
        v, next := code.ReadInt(next);
        i := WithInt(op, v).value;
      } else {
        i := Plain(op);
      }
    }

    /** Execute straight-line code. Every instruction is fetched once, in order; the machine ends in the
        state the instructions lead to, or stops at the first one without a defined effect. */
    method Execute(code: C.VsmCodeList, base: int, ghost prog: seq<Instr>) returns (ok: bool, visited: nat)
      requires Apart() && AllEncodable(prog) && code.body[..] == AllWords(prog)
      requires code.body as object != stack && code.body as object != globals
      modifies this, stack, globals
      ensures Follows(PerformAll(prog, old(Now()), base, fp), ok, Now())
      ensures ok ==> visited == |prog|
    {
      hide Perform, Words, Encodable;
      var pc := 0;
      visited := 0;
      ok := true;
      assert prog[..0] == [];
      while pc < code.body.Length
        invariant visited <= |prog| && pc == |AllWords(prog[..visited])| <= code.body.Length
        invariant PerformAll(prog[..visited], old(Now()), base, fp) == Some(Now())
        invariant code.body[..] == AllWords(prog)
        decreases |prog| - visited
      {
        assert visited < |prog| by { assert prog[..|prog|] == prog; }
        var i;
        i, pc := Fetch(code, pc, prog, visited);
        ok := DoInstr(i, base);
        assert prog[..visited + 1][..visited] == prog[..visited];
        if !ok {
          StopsHere(prog, visited + 1, old(Now()), base, fp);
          return;
        }
        visited := visited + 1;
      }
      assert visited == |prog| by {
        if visited < |prog| { WordsAt(prog, visited); }
      }
      assert prog[..visited] == prog;
    }
  }

  /** A method that succeeded exactly when there is a next state has reached it. */
  ghost predicate Follows(r: Option<State>, ok: bool, now: State) {
    ok == r.Some? && (ok ==> now == r.value)
  }
}
