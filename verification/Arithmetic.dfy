/** What the operators of constant expressions and of the stack machine compute, from counting up and down, doubling
    and single bits. */
module Arithmetic {
  import opened Common
  import opened Ir
  import opened Typing
  import opened Interp

  // ----- sums and products -----

  /** Counting `b` steps from `a`, up or down. */
  ghost function Sum(a: int, b: int): int
    decreases if b < 0 then -b else b
  {
    if b == 0 then a else if b > 0 then Sum(a, b - 1) + 1 else Sum(a, b + 1) - 1
  }

  /** Counting `a` off `b` times. */
  ghost function Product(a: int, b: int): int
    decreases if b < 0 then -b else b
  {
    if b == 0 then 0 else if b > 0 then Sum(Product(a, b - 1), a) else Sum(Product(a, b + 1), -a)
  }

  lemma {:induction false} SumIs(a: int, b: int)
    ensures Sum(a, b) == a + b
    decreases if b < 0 then -b else b
  {
    if b > 0 { SumIs(a, b - 1); }
    if b < 0 { SumIs(a, b + 1); }
  }

  lemma Distributes(a: int, b: int, c: int)
    ensures a * (b + c) == a * b + a * c
  {
  }

  lemma {:induction false} ProductIs(a: int, b: int)
    ensures Product(a, b) == a * b
    decreases if b < 0 then -b else b
  {
    hide Sum;
    if b > 0 {
      ProductIs(a, b - 1);
      SumIs(Product(a, b - 1), a);
      Distributes(a, b - 1, 1);
    }
    if b < 0 {
      ProductIs(a, b + 1);
      SumIs(Product(a, b + 1), -a);
      Distributes(a, b + 1, -1);
    }
  }

  /** The result is the exact one, or there is none because 32 bits do not hold it. */
  ghost predicate Exactly(r: Ev<int>, v: int) { if Int32(v) then r == Val(v) else r == Undef }

  /** Addition counts on from the left operand; a difference is what has to be added to the right operand to get
      the left one; multiplication is repeated addition; the negative of a number cancels it. */
  lemma SumsAndProducts(a: int, b: int)
    ensures Exactly(IntOp(Add, a, b), Sum(a, b))
    ensures forall c :: Sum(b, c) == a ==> Exactly(IntOp(Sub, a, b), c)
    ensures exists c :: Sum(b, c) == a
    ensures Exactly(IntOp(Mul, a, b), Product(a, b))
  {
    hide Sum, Product;
    SumIs(a, b);
    ProductIs(a, b);
    forall c ensures Sum(b, c) == b + c { SumIs(b, c); }
    assert Sum(b, a - b) == a;
  }

  // ----- division -----

  /** `q` and `r` divide `a` by `b` toward zero: the remainder is smaller than the divisor and has the sign of the
      dividend. */
  ghost predicate Divides(a: int, b: int, q: int, r: int) {
    && a == Sum(Product(q, b), r)
    && (if r < 0 then -r else r) < (if b < 0 then -b else b)
    && (r == 0 || (r < 0) == (a < 0))
  }

  /** The quotient the evaluator computes, with its remainder. */
  lemma TruncDivides(a: int, b: int)
    requires b != 0
    ensures Divides(a, b, TruncDiv(a, b), a - TruncDiv(a, b) * b)
  {
    RemainderSmall(a, b);
    hide TruncDiv, Sum, Product;
    var q := TruncDiv(a, b);
    ProductIs(q, b);
    SumIs(Product(q, b), a - q * b);
  }

  lemma RemainderSmall(a: int, b: int)
    requires b != 0
    ensures var r := a - TruncDiv(a, b) * b;
            (if r < 0 then -r else r) < (if b < 0 then -b else b) && (r == 0 || (r < 0) == (a < 0))
  {
    var m, n := if a < 0 then -a else a, if b < 0 then -b else b;
    var p := m / n;
    Remainder(m, n);
    Signs(p, n);
    if (a < 0) == (b < 0) {
      assert TruncDiv(a, b) == p;
    } else {
      assert TruncDiv(a, b) == -p;
    }
  }

  lemma Remainder(m: nat, n: nat)
    requires n > 0
    ensures 0 <= m - m / n * n < n
  {
    assert m == m / n * n + m % n;
  }

  lemma Signs(p: int, n: int)
    ensures -p * n == -(p * n) && p * -n == -(p * n) && -p * -n == p * n
  {
  }

  lemma OneQuotient(a: int, b: int, q: int, r: int, q': int, r': int)
    requires b != 0 && Divides(a, b, q, r) && Divides(a, b, q', r')
    ensures q == q' && r == r'
  {
    ProductIs(q, b);
    ProductIs(q', b);
    SumIs(Product(q, b), r);
    SumIs(Product(q', b), r');
    var n := if b < 0 then -b else b;
    assert (q - q') * b == r' - r;
    SmallMultiple(q - q', b, r' - r);
  }

  lemma SmallMultiple(k: int, b: int, d: int)
    requires k * b == d && b != 0 && (if d < 0 then -d else d) < (if b < 0 then -b else b)
    ensures k == 0
  {
    if k > 0 { assert k * b == b + (k - 1) * b; Monotone(k - 1, b); }
    if k < 0 { assert k * b == -b + (k + 1) * b; Monotone(-k - 1, b); Signs(-k - 1, b); }
  }

  lemma Monotone(k: nat, b: int)
    ensures if b >= 0 then k * b >= 0 else k * b <= 0
  {
  }

  lemma QuotientIs(a: int, b: int, q: int, r: int)
    requires Int32(b) && b != 0 && Divides(a, b, q, r)
    ensures Exactly(IntOp(Div, a, b), q) && IntOp(Mod, a, b) == if Int32(q) then Val(r) else Undef
  {
    assert Int32(r);
    hide Divides, TruncDiv;
    TruncDivides(a, b);
    OneQuotient(a, b, q, r, TruncDiv(a, b), a - TruncDiv(a, b) * b);
  }

  /** Quotient and remainder are the two numbers with that property. Neither is defined for a divisor of zero, or
      if 32 bits do not hold the quotient. */
  lemma QuotientAndRemainder(a: int, b: int)
    requires Int32(b)
    ensures b == 0 ==> IntOp(Div, a, b) == IntOp(Mod, a, b) == Undef
    ensures b != 0 ==> exists q, r :: Divides(a, b, q, r)
    ensures forall q, r :: b != 0 && Divides(a, b, q, r) ==>
              && Exactly(IntOp(Div, a, b), q)
              && IntOp(Mod, a, b) == (if Int32(q) then Val(r) else Undef)
  {
    hide Divides, TruncDiv, Exactly;
    if b != 0 {
      TruncDivides(a, b);
      forall q, r | Divides(a, b, q, r)
        ensures Exactly(IntOp(Div, a, b), q) && IntOp(Mod, a, b) == if Int32(q) then Val(r) else Undef
      {
        QuotientIs(a, b, q, r);
      }
    }
  }

  // ----- shifts -----

  /** `a` doubled `n` times. */
  ghost function Doubled(a: int, n: nat): int {
    if n == 0 then a else Doubled(a, n - 1) + Doubled(a, n - 1)
  }

  lemma {:induction false} DoubledIs(a: int, n: nat)
    ensures Doubled(a, n) == a * Pow2(n)
  {
    if n > 0 {
      DoubledIs(a, n - 1);
      assert a * Pow2(n) == a * Pow2(n - 1) + a * Pow2(n - 1);
    }
  }

  lemma Wrapped(v: int)
    ensures Int32(Wrap(v)) && exists k :: v == Wrap(v) + k * 0x1_0000_0000
  {
    assert v == Wrap(v) + (v + 0x8000_0000) / 0x1_0000_0000 * 0x1_0000_0000;
  }

  /** A shift to the left doubles, and keeps the low 32 bits; a shift to the right halves and rounds down. Counts from
      0 to 31 are defined. */
  lemma Shifts(a: int, b: int)
    ensures !(0 <= b < 32) ==> IntOp(Lshift, a, b) == IntOp(Rshift, a, b) == Undef
    ensures 0 <= b < 32 ==>
              && IntOp(Lshift, a, b).Val? && Int32(IntOp(Lshift, a, b).v)
              && exists k :: Doubled(a, b) == IntOp(Lshift, a, b).v + k * 0x1_0000_0000
    ensures 0 <= b < 32 && Int32(a) ==>
              && IntOp(Rshift, a, b).Val?
              && Doubled(IntOp(Rshift, a, b).v, b) <= a < Doubled(IntOp(Rshift, a, b).v + 1, b)
  {
    if 0 <= b < 32 {
      DoubledIs(a, b);
      Wrapped(a * Pow2(b));
      var q := a / Pow2(b);
      DoubledIs(q, b);
      DoubledIs(q + 1, b);
      assert a == q * Pow2(b) + a % Pow2(b);
      assert (q + 1) * Pow2(b) == q * Pow2(b) + Pow2(b);
      if Int32(a) { QuotientFits(a, Pow2(b)); }
    }
  }

  lemma Grows(k: int, p: nat)
    requires p > 0
    ensures k >= 0 ==> k * p >= k
    ensures k <= 0 ==> k * p <= k
  {
    assert k * p == k + k * (p - 1);
  }

  lemma QuotientFits(a: int, p: nat)
    requires Int32(a) && p > 0
    ensures Int32(a / p)
  {
    var q := a / p;
    assert a == q * p + a % p && (q + 1) * p == q * p + p;
    Grows(q, p);
    Grows(q + 1, p);
  }

  // ----- bits -----

  /** Bit `i` of a number in two's complement. */
  predicate Bit(v: int, i: nat)
    decreases i
  {
    if i == 0 then v % 2 == 1 else Bit(v / 2, i - 1)
  }

  lemma {:induction false} BitwiseBits(op: BinOp, a: int, b: int, n: nat, i: nat)
    requires i <= n
    ensures Bit(Bitwise(op, a, b, n), i) == OnBits(op, Bit(a, i), Bit(b, i))
    decreases n
  {
    if i > 0 { BitwiseBits(op, a / 2, b / 2, n - 1, i - 1); }
  }

  /** A number of `n + 1` bits, the highest of them its sign. */
  predicate HasBits(v: int, n: nat) { -(Pow2(n) as int) <= v < Pow2(n) }

  lemma {:induction false} BitwiseFits(op: BinOp, a: int, b: int, n: nat)
    ensures HasBits(Bitwise(op, a, b, n), n)
    decreases n
  {
    if n > 0 { BitwiseFits(op, a / 2, b / 2, n - 1); }
  }

  lemma {:induction false} NoBits(op: BinOp, n: nat)
    ensures Bitwise(op, 0, 0, n) == 0
    decreases n
  {
    if n > 0 { NoBits(op, n - 1); }
  }

  lemma {:induction false} PowSum(m: nat, n: nat)
    ensures Pow2(m + n) == Pow2(m) * Pow2(n)
    decreases m
  {
    if m > 0 { PowSum(m - 1, n); }
  }

  lemma Pow31()
    ensures Pow2(31) == 0x8000_0000
  {
    assert Pow2(2) == 4 && Pow2(4) == 16;
    PowSum(4, 4);
    PowSum(8, 8);
    PowSum(16, 16);
    assert Pow2(31 + 1) == 2 * Pow2(31);
  }

  lemma WordFits(op: BinOp, a: int, b: int)
    ensures Int32(Bitwise(op, a, b, 31))
  {
    BitwiseFits(op, a, b, 31);
    Pow31();
  }

  /** Numbers of `n + 1` bits with the same bits are the same. */
  lemma {:induction false} BitsDetermine(v: int, w: int, n: nat)
    requires HasBits(v, n) && HasBits(w, n)
    requires forall i: nat :: i <= n ==> Bit(v, i) == Bit(w, i)
    ensures v == w
    decreases n
  {
    assert Bit(v, 0) == Bit(w, 0);
    if n > 0 {
      forall i: nat | i <= n - 1 ensures Bit(v / 2, i) == Bit(w / 2, i) {
        assert Bit(v, i + 1) == Bit(w, i + 1);
      }
      BitsDetermine(v / 2, w / 2, n - 1);
    }
  }

  /** And, or, exclusive or and complement work on each of the 32 bits by itself; two results with the same bits are
      the same. */
  lemma BitsByPosition(a: int, b: int, i: nat)
    requires Int32(a) && Int32(b) && i < 32
    ensures forall op :: op == BitAnd || op == BitOr || op == BitXor ==>
              IntOp(op, a, b).Val? && Int32(IntOp(op, a, b).v)
    ensures Bit(IntOp(BitAnd, a, b).v, i) <==> Bit(a, i) && Bit(b, i)
    ensures Bit(IntOp(BitOr, a, b).v, i) <==> Bit(a, i) || Bit(b, i)
    ensures Bit(IntOp(BitXor, a, b).v, i) <==> Bit(a, i) != Bit(b, i)
    ensures (forall k: nat :: k <= 31 ==> Bit(a, k) == Bit(b, k)) ==> a == b
  {
    forall op | op == BitAnd || op == BitOr || op == BitXor
      ensures IntOp(op, a, b) == Val(Bitwise(op, a, b, 31)) && Int32(Bitwise(op, a, b, 31))
    {
      WordFits(op, a, b);
    }
    BitwiseBits(BitAnd, a, b, 31, i);
    BitwiseBits(BitOr, a, b, 31, i);
    BitwiseBits(BitXor, a, b, 31, i);
    if forall k: nat :: k <= 31 ==> Bit(a, k) == Bit(b, k) {
      Pow31();
      BitsDetermine(a, b, 31);
    }
  }

  lemma {:induction false} ComplementBits(v: int, i: nat)
    ensures Bit(-v - 1, i) == !Bit(v, i)
    decreases i
  {
    if i > 0 {
      assert (-v - 1) / 2 == -(v / 2) - 1;
      ComplementBits(v / 2, i - 1);
    }
  }

  // ----- the evaluators -----

  /** Counting up from `x` reaches `y`. */
  ghost predicate UpTo(x: int, y: int) { exists k: nat :: Sum(x, k) == y }

  lemma UpToIs(x: int, y: int)
    ensures UpTo(x, y) <==> x <= y
  {
    forall k: nat ensures Sum(x, k) == x + k { SumIs(x, k); }
    if x <= y { assert Sum(x, y - x) == y; }
  }

  /** Integers are ordered as counting orders them: `<=` if counting up reaches the other, `==` if both do, `<` and
      `!=` accordingly. */
  lemma IntsCompared(a: Node, b: Node, ty: Ty, x: int, y: int, fp: FloatOps)
    requires TypeOf(a) == Some(Int) && EvalInt(a, fp) == Val(x) && EvalInt(b, fp) == Val(y)
    ensures EvalBoolean(BinOp(Le, ty, a, b), fp) == Val(UpTo(x, y))
    ensures EvalBoolean(BinOp(Lt, ty, a, b), fp) == Val(!UpTo(y, x))
    ensures EvalBoolean(BinOp(Equal, ty, a, b), fp) == Val(UpTo(x, y) && UpTo(y, x))
    ensures EvalBoolean(BinOp(NotEq, ty, a, b), fp) == Val(!(UpTo(x, y) && UpTo(y, x)))
  {
    UpToIs(x, y);
    UpToIs(y, x);
    hide UpTo, EvalInt;
    assert EvalEqual(BinOp(Equal, ty, a, b), fp) == EvalEqual(BinOp(NotEq, ty, a, b), fp) == Val(x == y);
  }

  /** Booleans are equal if each implies the other. */
  lemma BooleansCompared(a: Node, b: Node, ty: Ty, x: bool, y: bool, fp: FloatOps)
    requires TypeOf(a) == Some(Boolean) && EvalBoolean(a, fp) == Val(x) && EvalBoolean(b, fp) == Val(y)
    ensures EvalBoolean(BinOp(Equal, ty, a, b), fp) == Val((x ==> y) && (y ==> x))
    ensures EvalBoolean(BinOp(NotEq, ty, a, b), fp) == Val((x || y) && !(x && y))
  {
    assert EvalEqual(BinOp(Equal, ty, a, b), fp) == EvalEqual(BinOp(NotEq, ty, a, b), fp) == Val(x == y);
  }

  function TrueNode(): Node { Load(Boolean, BooleanConst("", true)) }
  function FalseNode(): Node { Load(Boolean, BooleanConst("", false)) }
  function IntNode(v: int): Node { Load(Int, IntConst("", v)) }
  function FloatNode(f: Double): Node { Load(Float, FloatConst("", f)) }

  /** The same outcome in each of the three evaluators. */
  ghost predicate Same(m: Node, n: Node, fp: FloatOps) {
    && EvalBoolean(m, fp) == EvalBoolean(n, fp)
    && EvalInt(m, fp) == EvalInt(n, fp)
    && EvalFloat(m, fp) == EvalFloat(n, fp)
  }

  /** If-then-else is the branch its condition selects; without a condition there is no value. */
  lemma Selects(cond: Node, ty: Ty, a: Node, b: Node, fp: FloatOps)
    ensures EvalBoolean(cond, fp) == Val(true) ==> Same(TriOp(ty, cond, a, b), a, fp)
    ensures EvalBoolean(cond, fp) == Val(false) ==> Same(TriOp(ty, cond, a, b), b, fp)
    ensures !EvalBoolean(cond, fp).Val? ==> !EvalBoolean(TriOp(ty, cond, a, b), fp).Val?
  {
  }

  /** `and`, `or` and `not` are if-then-else on true and false: they do not look at what does not matter. */
  lemma LogicSelects(a: Node, b: Node, ty: Ty, fp: FloatOps)
    ensures EvalBoolean(BinOp(LogAnd, ty, a, b), fp) == EvalBoolean(TriOp(ty, a, b, FalseNode()), fp)
    ensures EvalBoolean(BinOp(LogOr, ty, a, b), fp) == EvalBoolean(TriOp(ty, a, TrueNode(), b), fp)
    ensures EvalBoolean(UniOp(LogNot, ty, a), fp) == EvalBoolean(TriOp(ty, a, FalseNode(), TrueNode()), fp)
  {
    assert EvalBoolean(TrueNode(), fp) == Val(true) && EvalBoolean(FalseNode(), fp) == Val(false);
  }

  /** Casts of a boolean choose one or zero. */
  lemma BooleansCast(a: Node, ty: Ty, fp: FloatOps)
    requires TypeOf(a) == Some(Boolean)
    ensures EvalBoolean(UniOp(CastBoolean, ty, a), fp) == EvalBoolean(a, fp)
    ensures EvalInt(UniOp(CastInt, ty, a), fp) == EvalInt(TriOp(ty, a, IntNode(1), IntNode(0)), fp)
    ensures EvalFloat(UniOp(CastFloat, ty, a), fp)
         == EvalFloat(TriOp(ty, a, FloatNode(fp.one), FloatNode(fp.zero)), fp)
  {
    assert EvalInt(IntNode(0), fp) == Val(0) && EvalInt(IntNode(1), fp) == Val(1);
    assert EvalFloat(FloatNode(fp.zero), fp) == Val(fp.zero) && EvalFloat(FloatNode(fp.one), fp) == Val(fp.one);
  }

  /** A number is cast to whether it differs from zero; the negative of an integer is what is missing to zero. */
  lemma IntsCast(a: Node, ty: Ty, fp: FloatOps)
    requires TypeOf(a) == Some(Int)
    ensures EvalBoolean(UniOp(CastBoolean, ty, a), fp) == EvalBoolean(BinOp(NotEq, ty, a, IntNode(0)), fp)
    ensures EvalInt(UniOp(CastInt, ty, a), fp) == EvalInt(a, fp)
    ensures EvalInt(UniOp(UniMinus, ty, a), fp) == EvalInt(BinOp(Sub, ty, IntNode(0), a), fp)
  {
    assert EvalInt(IntNode(0), fp) == Val(0);
    EqualityOf(a, IntNode(0), ty, fp);
  }

  lemma FloatsCast(a: Node, ty: Ty, fp: FloatOps)
    requires TypeOf(a) == Some(Float)
    ensures EvalBoolean(UniOp(CastBoolean, ty, a), fp) == EvalBoolean(BinOp(NotEq, ty, a, FloatNode(fp.zero)), fp)
    ensures EvalFloat(UniOp(CastFloat, ty, a), fp) == EvalFloat(a, fp)
  {
    assert EvalFloat(FloatNode(fp.zero), fp) == Val(fp.zero);
    EqualityOf(a, FloatNode(fp.zero), ty, fp);
  }

  /** An integer is cast to the float that stands for it. */
  lemma IntsCastToFloats(a: Node, ty: Ty, x: int, fp: FloatOps, r: Double -> real)
    requires TypeOf(a) == Some(Int) && EvalInt(a, fp) == Val(x) && r(fp.ofInt(x)) == x as real
    ensures EvalFloat(UniOp(CastFloat, ty, a), fp).Val?
    ensures r(EvalFloat(UniOp(CastFloat, ty, a), fp).v) == x as real
  {
  }

  lemma EqualityOf(a: Node, b: Node, ty: Ty, fp: FloatOps)
    ensures EvalBoolean(BinOp(NotEq, ty, a, b), fp) == Then(EvalEqual(BinOp(NotEq, ty, a, b), fp), x => Val(!x))
  {
  }

  lemma ComplementOf(a: Node, ty: Ty, i: nat, fp: FloatOps)
    requires EvalInt(a, fp).Val?
    ensures EvalInt(UniOp(BitNeg, ty, a), fp).Val?
    ensures Bit(EvalInt(UniOp(BitNeg, ty, a), fp).v, i) == !Bit(EvalInt(a, fp).v, i)
  {
    ComplementBits(EvalInt(a, fp).v, i);
  }

  // ----- floats -----

  /** On `x` and `y`, which stand for `r(x)` and `r(y)`, nothing is rounded. */
  ghost predicate ExactOn(fp: FloatOps, r: Double -> real, x: Double, y: Double) {
    && r(fp.add(x, y)) == r(x) + r(y)
    && r(fp.sub(x, y)) == r(x) - r(y)
    && r(fp.mul(x, y)) == r(x) * r(y)
    && (r(y) != 0.0 ==> r(fp.div(x, y)) == r(x) / r(y))
    && r(fp.neg(x)) == -r(x)
    && (fp.eq(x, y) <==> r(x) == r(y))
    && (fp.lt(x, y) <==> r(x) < r(y))
    && (fp.le(x, y) <==> r(x) <= r(y))
  }

  /** Where nothing is rounded, floats are calculated with as reals: a difference is what has to be added, a quotient
      what has to be multiplied. */
  lemma FloatsCalculated(a: Node, b: Node, ty: Ty, x: Double, y: Double, fp: FloatOps, r: Double -> real)
    requires ExactOn(fp, r, x, y) && EvalFloat(a, fp) == Val(x) && EvalFloat(b, fp) == Val(y)
    ensures forall op :: op == Add || op == Sub || op == Mul || op == Div ==> EvalFloat(BinOp(op, ty, a, b), fp).Val?
    ensures r(EvalFloat(BinOp(Add, ty, a, b), fp).v) == r(x) + r(y)
    ensures r(EvalFloat(BinOp(Sub, ty, a, b), fp).v) + r(y) == r(x)
    ensures r(EvalFloat(BinOp(Mul, ty, a, b), fp).v) == r(x) * r(y)
    ensures r(y) != 0.0 ==> r(EvalFloat(BinOp(Div, ty, a, b), fp).v) * r(y) == r(x)
    ensures EvalFloat(UniOp(UniMinus, ty, a), fp).Val? && r(EvalFloat(UniOp(UniMinus, ty, a), fp).v) + r(x) == 0.0
  {
  }

  /** Floats are ordered as the reals they stand for. */
  lemma FloatsCompared(a: Node, b: Node, ty: Ty, x: Double, y: Double, fp: FloatOps, r: Double -> real)
    requires TypeOf(a) == Some(Float) && EvalFloat(a, fp) == Val(x) && EvalFloat(b, fp) == Val(y)
    requires ExactOn(fp, r, x, y)
    ensures EvalBoolean(BinOp(Lt, ty, a, b), fp) == Val(r(x) < r(y))
    ensures EvalBoolean(BinOp(Le, ty, a, b), fp) == Val(r(x) <= r(y))
    ensures EvalBoolean(BinOp(Equal, ty, a, b), fp) == Val(r(x) == r(y))
    ensures EvalBoolean(BinOp(NotEq, ty, a, b), fp) == Val(r(x) != r(y))
  {
    assert EvalEqual(BinOp(Equal, ty, a, b), fp) == EvalEqual(BinOp(NotEq, ty, a, b), fp) == Val(fp.eq(x, y));
  }
}
