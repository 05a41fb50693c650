/** The expression grammar: derivation trees, the sentences they derive and the syntax trees they build. */
module Grammar {
  import opened RsrvWordDic
  import opened Ir

  /** A terminal symbol; only SYMBOL, INT_VAL, FLOAT_VAL and STRING_VAL carry a text. */
  datatype Term = Term(tok: Tok, text: string)

  datatype PrefixOp = MinusOp | NegOp | NotOp

  datatype CastOp = IntCast | BooleanCast | FloatCast

  datatype InfixOp = Plain(op: BinOp) | Greater | GreaterEq

  /** One constructor for each production of `expr`, `primary` and `expr_list`. */
  datatype Tree =
    | TrueT | FalseT | IntT(text: string) | FloatT(text: string) | StringT(text: string)
    | PrimT(prim: Prim)
    | PrefixT(prefix: PrefixOp, t: Tree)
    | CastT(cast: CastOp, t: Tree)
    | InfixT(l: Tree, infix: InfixOp, r: Tree)
    | IteT(a: Tree, b: Tree, c: Tree)
    | ParenT(t: Tree)
    | CallT(prim: Prim, args: Args)

  datatype Prim = SymbolP(name: string) | MemberP(p: Prim, member: string) | IndexP(p: Prim, index: Tree)

  datatype Args = NoArgs | OneArg(t: Tree) | MoreArgs(args: Args, t: Tree)

  // ----- sentences -----

  function PrefixTok(op: PrefixOp): Tok {
    match op case MinusOp => MINUS case NegOp => BITNEG case NotOp => LOGNOT
  }

  function CastTok(op: CastOp): Tok {
    match op case IntCast => INT case BooleanCast => BOOLEAN case FloatCast => FLOAT
  }

  function InfixTok(op: InfixOp): Tok {
    match op
    case Greater => GT
    case GreaterEq => GE
    case Plain(b) => BinTok(b)
  }

  function BinTok(b: BinOp): Tok {
    match b
    case BitAnd => BITAND case BitOr => BITOR case BitXor => BITXOR case LogAnd => LOGAND case LogOr => LOGOR
    case Add => PLUS case Sub => MINUS case Mul => MULT case Div => DIV case Mod => MOD
    case Lshift => LSHIFT case Rshift => RSHIFT
    case Equal => EQEQ case NotEq => NOTEQ case Lt => LT case Le => LE
  }

  function Sym(t: Tok): Term { Term(t, "") }

  function Yield(t: Tree): seq<Term> {
    match t
    case TrueT => [Sym(TRUE)]
    case FalseT => [Sym(FALSE)]
    case IntT(w) => [Term(INT_VAL, w)]
    case FloatT(w) => [Term(FLOAT_VAL, w)]
    case StringT(w) => [Term(STRING_VAL, w)]
    case PrimT(p) => PrimYield(p)
    case PrefixT(op, x) => [Sym(PrefixTok(op))] + Yield(x)
    case CastT(op, x) => [Sym(CastTok(op))] + Wrap(LP, Yield(x), RP)
    case InfixT(l, op, r) => Join(Yield(l), InfixTok(op), Yield(r))
    case IteT(a, b, c) => Join(Yield(a), QST, Join(Yield(b), COLON, Yield(c)))
    case ParenT(x) => Wrap(LP, Yield(x), RP)
    case CallT(p, args) => PrimYield(p) + Wrap(LP, ArgsYield(args), RP)
  }

  function PrimYield(p: Prim): seq<Term> {
    match p
    case SymbolP(w) => [Term(SYMBOL, w)]
    case MemberP(q, w) => PrimYield(q) + [Sym(DOT), Term(SYMBOL, w)]
    case IndexP(q, x) => PrimYield(q) + Wrap(LBK, Yield(x), RBK)
  }

  function ArgsYield(a: Args): seq<Term> {
    match a
    case NoArgs => []
    case OneArg(t) => Yield(t)
    case MoreArgs(b, t) => Join(ArgsYield(b), COMMA, Yield(t))
  }

  function Join(a: seq<Term>, op: Tok, b: seq<Term>): (s: seq<Term>)
    ensures |s| == |a| + 1 + |b| && s[|a|] == Sym(op)
  {
    a + ([Sym(op)] + b)
  }

  function Wrap(open: Tok, s: seq<Term>, close: Tok): seq<Term> { [Sym(open)] + s + [Sym(close)] }

  // ----- bracket levels and top-level operators -----

  function Weight(t: Tok): int { if t == LP || t == LBK then 1 else if t == RP || t == RBK then -1 else 0 }

  /** The number of brackets open in front of position `k`. */
  function Level(s: seq<Term>, k: nat): int
    requires k <= |s|
  {
    if k == 0 then 0 else Level(s, k - 1) + Weight(s[k - 1].tok)
  }

  predicate Closed(s: seq<Term>) { Level(s, |s|) == 0 && forall k :: 0 <= k <= |s| ==> Level(s, k) >= 0 }

  /** Operators, and the commas and colons that separate operands. */
  predicate Separates(t: Tok) {
    || t.COMMA? || t.QST? || t.COLON? || t.LOGNOT? || t.BITNEG?
    || t.PLUS? || t.MINUS? || t.MULT? || t.DIV? || t.MOD? || t.LSHIFT? || t.RSHIFT?
    || t.BITAND? || t.BITOR? || t.BITXOR? || t.LOGAND? || t.LOGOR?
    || t.EQEQ? || t.NOTEQ? || t.LT? || t.GT? || t.LE? || t.GE?
  }

  /** Position `k` holds a separator outside all brackets. */
  predicate TopOp(s: seq<Term>, k: nat) { k < |s| && Separates(s[k].tok) && Level(s, k) == 0 }

  ghost predicate Atomic(s: seq<Term>) { forall k: nat :: !TopOp(s, k) }

  predicate NoTopComma(s: seq<Term>) { forall k :: 0 <= k < |s| && TopOp(s, k) ==> s[k].tok != COMMA }

  lemma {:induction false} LevelJoin(a: seq<Term>, b: seq<Term>, k: nat)
    requires k <= |a| + |b|
    ensures Level(a + b, k) == if k <= |a| then Level(a, k) else Level(a, |a|) + Level(b, k - |a|)
  {
    hide Weight;
    if k == 0 {
    } else if k <= |a| {
      LevelJoin(a, b, k - 1);
      assert (a + b)[k - 1] == a[k - 1];
    } else {
      LevelJoin(a, b, k - 1);
      assert (a + b)[k - 1] == b[k - |a| - 1];
    }
  }

  /** Two closed strings side by side keep their own top-level separators. */
  lemma TopJoin(a: seq<Term>, b: seq<Term>, k: nat)
    requires Closed(a)
    ensures TopOp(a + b, k) <==> if k < |a| then TopOp(a, k) else TopOp(b, k - |a|)
  {
    if k < |a| + |b| { LevelJoin(a, b, k); }
  }

  lemma ClosedJoin(a: seq<Term>, b: seq<Term>)
    requires Closed(a) && Closed(b)
    ensures Closed(a + b)
  {
    forall k | 0 <= k <= |a + b| ensures Level(a + b, k) >= 0 { LevelJoin(a, b, k); }
    LevelJoin(a, b, |a + b|);
  }

  lemma AtomicJoin(a: seq<Term>, b: seq<Term>)
    requires Closed(a) && Closed(b) && Atomic(a) && Atomic(b)
    ensures Closed(a + b) && Atomic(a + b)
  {
    hide Closed, TopOp;
    ClosedJoin(a, b);
    forall k: nat ensures !TopOp(a + b, k) { TopJoin(a, b, k); }
  }

  lemma ClosedOne(t: Term)
    requires Weight(t.tok) == 0
    ensures Closed([t]) && (TopOp([t], 0) <==> Separates(t.tok))
  {
    assert Level([t], 1) == Level([t], 0) + Weight(t.tok);
  }

  /** The top-level separators of two operands and a separator between them. */
  lemma JoinTops(a: seq<Term>, op: Tok, b: seq<Term>, k: nat)
    requires Closed(a) && Weight(op) == 0
    ensures TopOp(Join(a, op, b), k)
       <==> if k < |a| then TopOp(a, k) else if k == |a| then Separates(op) else TopOp(b, k - |a| - 1)
    ensures |a| < k <= |a| + |b| ==> Join(a, op, b)[k] == b[k - |a| - 1]
    ensures k < |a| ==> Join(a, op, b)[k] == a[k]
  {
    hide Closed, Separates, TopOp;
    ClosedOne(Sym(op));
    TopJoin(a, [Sym(op)] + b, k);
    if k >= |a| { TopJoin([Sym(op)], b, k - |a|); }
  }

  lemma JoinClosed(a: seq<Term>, op: Tok, b: seq<Term>)
    requires Closed(a) && Closed(b) && Weight(op) == 0
    ensures Closed(Join(a, op, b))
  {
    hide Closed;
    ClosedOne(Sym(op));
    ClosedJoin([Sym(op)], b);
    ClosedJoin(a, [Sym(op)] + b);
  }

  lemma WrapLevel(open: Tok, s: seq<Term>, close: Tok, k: nat)
    requires k <= |s| + 2 && Weight(open) == 1 && Weight(close) == -1
    ensures Level(Wrap(open, s, close), k) ==
      if k == 0 then 0 else if k <= |s| + 1 then 1 + Level(s, k - 1) else Level(s, |s|)
  {
    var w := Wrap(open, s, close);
    var o := [Sym(open)];
    assert w == o + (s + [Sym(close)]);
    LevelJoin(o, s + [Sym(close)], k);
    assert Level(o, 1) == Level(o, 0) + Weight(open);
    if k > 0 {
      LevelJoin(s, [Sym(close)], k - 1);
      assert Level([Sym(close)], 1) == Level([Sym(close)], 0) + Weight(close);
    }
  }

  /** Brackets hide every separator. */
  lemma WrapAtomic(open: Tok, s: seq<Term>, close: Tok)
    requires Closed(s) && Weight(open) == 1 && Weight(close) == -1
    ensures Closed(Wrap(open, s, close)) && Atomic(Wrap(open, s, close))
  {
    var w := Wrap(open, s, close);
    forall k | 0 <= k <= |w| ensures Level(w, k) >= 0 && (0 < k < |w| ==> Level(w, k) > 0) {
      WrapLevel(open, s, close, k);
    }
    WrapLevel(open, s, close, |w|);
  }

  // ----- what every derivation yields -----

  predicate Inner(t: Tree) { t.PrefixT? || t.InfixT? || t.IteT? }

  /** A sentence is closed, is not empty, has no comma outside brackets, and unless it is an operator
      application it has no separator outside brackets at all. */
  ghost predicate Sentence(s: seq<Term>) { Closed(s) && s != [] && NoTopComma(s) }

  lemma {:induction false} YieldSentence(t: Tree)
    ensures Sentence(Yield(t)) && (!Inner(t) ==> Atomic(Yield(t)))
  {
    hide Sentence, Closed, Atomic, NoTopComma, TopOp, Wrap;
    match t
    case TrueT => LiteralSentence(t);
    case FalseT => LiteralSentence(t);
    case IntT(w) => LiteralSentence(t);
    case FloatT(w) => LiteralSentence(t);
    case StringT(w) => LiteralSentence(t);
    case PrimT(p) => PrimSentence(p); PrimitiveSentence(PrimYield(p));
    case PrefixT(op, x) => YieldSentence(x); PrefixSentence(op, Yield(x));
    case CastT(op, x) => YieldSentence(x); CastSentence(op, Yield(x));
    case InfixT(l, op, r) =>
      YieldSentence(l);
      YieldSentence(r);
      InfixSentence(Yield(l), InfixTok(op), Yield(r));
      InfixNoComma(op);
    case IteT(a, b, c) =>
      YieldSentence(a); YieldSentence(b); YieldSentence(c);
      IteSentence(Yield(a), Yield(b), Yield(c));
    case ParenT(x) =>
      YieldSentence(x);
      BracketSentence(Yield(x));
    case CallT(p, args) => PrimSentence(p); ArgsClosed(args); ParenSentence(PrimYield(p), ArgsYield(args));
  }

  lemma IteSentence(a: seq<Term>, b: seq<Term>, c: seq<Term>)
    requires Sentence(a) && Sentence(b) && Sentence(c)
    ensures Sentence(Join(a, QST, Join(b, COLON, c)))
  {
    hide Sentence;
    InfixSentence(b, COLON, c);
    InfixSentence(a, QST, Join(b, COLON, c));
  }

  lemma ParenSentence(p: seq<Term>, s: seq<Term>)
    requires Closed(p) && Atomic(p) && Closed(s)
    ensures Sentence(p + Wrap(LP, s, RP)) && Atomic(p + Wrap(LP, s, RP))
  {
    hide Closed, Atomic, NoTopComma;
    WrapAtomic(LP, s, RP);
    AtomicJoin(p, Wrap(LP, s, RP));
    AtomicSentence(p + Wrap(LP, s, RP));
  }

  lemma BracketSentence(s: seq<Term>)
    requires Sentence(s)
    ensures Sentence(Wrap(LP, s, RP)) && Atomic(Wrap(LP, s, RP))
  {
    hide Closed, Atomic, NoTopComma;
    WrapAtomic(LP, s, RP);
    AtomicSentence(Wrap(LP, s, RP));
  }

  lemma PrimitiveSentence(s: seq<Term>)
    requires Closed(s) && s != [] && Atomic(s)
    ensures Sentence(s)
  {
    hide Closed, Atomic, NoTopComma;
    AtomicSentence(s);
  }

  lemma AtomicSentence(s: seq<Term>)
    requires Atomic(s)
    ensures NoTopComma(s)
  {
    hide TopOp;
  }

  lemma AtomSentence(t: Term)
    requires Weight(t.tok) == 0 && !Separates(t.tok)
    ensures Sentence([t]) && Atomic([t])
  {
    hide Closed, Separates;
    ClosedOne(t);
  }

  lemma LiteralSentence(t: Tree)
    requires t.TrueT? || t.FalseT? || t.IntT? || t.FloatT? || t.StringT?
    ensures Sentence(Yield(t)) && Atomic(Yield(t))
  {
    hide Closed, Atomic, NoTopComma, Sentence;
    AtomSentence(Yield(t)[0]);
    assert Yield(t) == [Yield(t)[0]];
  }

  lemma InfixNoComma(op: InfixOp)
    ensures Separates(InfixTok(op)) && InfixTok(op) != COMMA && InfixTok(op) != QST && InfixTok(op) != COLON
            && Weight(InfixTok(op)) == 0
  {
  }

  lemma PrefixSentence(op: PrefixOp, s: seq<Term>)
    requires Sentence(s)
    ensures Sentence([Sym(PrefixTok(op))] + s)
  {
    hide Closed, TopOp;
    var o := [Sym(PrefixTok(op))];
    ClosedOne(o[0]);
    ClosedJoin(o, s);
    forall k | 0 <= k < |o + s| && TopOp(o + s, k) ensures (o + s)[k].tok != COMMA { TopJoin(o, s, k); }
  }

  lemma InfixSentence(a: seq<Term>, op: Tok, b: seq<Term>)
    requires Sentence(a) && Sentence(b) && Weight(op) == 0 && op != COMMA
    ensures Sentence(Join(a, op, b))
  {
    hide Closed, TopOp, Join;
    JoinClosed(a, op, b);
    var s := Join(a, op, b);
    forall k | 0 <= k < |s| && TopOp(s, k) ensures s[k].tok != COMMA { JoinTops(a, op, b, k); }
  }

  lemma CastSentence(op: CastOp, s: seq<Term>)
    requires Sentence(s)
    ensures Sentence([Sym(CastTok(op))] + Wrap(LP, s, RP)) && Atomic([Sym(CastTok(op))] + Wrap(LP, s, RP))
  {
    hide Closed, Atomic, NoTopComma, Wrap;
    AtomSentence(Sym(CastTok(op)));
    WrapAtomic(LP, s, RP);
    AtomicJoin([Sym(CastTok(op))], Wrap(LP, s, RP));
    AtomicSentence([Sym(CastTok(op))] + Wrap(LP, s, RP));
  }

  lemma {:induction false} PrimSentence(p: Prim)
    ensures Closed(PrimYield(p)) && PrimYield(p) != [] && Atomic(PrimYield(p)) && PrimYield(p)[0].tok == SYMBOL
  {
    hide Closed, Atomic, Wrap;
    match p
    case SymbolP(w) => AtomSentence(Term(SYMBOL, w));
    case MemberP(q, w) =>
      PrimSentence(q);
      MemberAtomic(w);
      AtomicJoin(PrimYield(q), [Sym(DOT), Term(SYMBOL, w)]);
    case IndexP(q, x) =>
      PrimSentence(q);
      YieldSentence(x);
      WrapAtomic(LBK, Yield(x), RBK);
      AtomicJoin(PrimYield(q), Wrap(LBK, Yield(x), RBK));
  }

  lemma MemberAtomic(w: string)
    ensures Closed([Sym(DOT), Term(SYMBOL, w)]) && Atomic([Sym(DOT), Term(SYMBOL, w)])
  {
    hide Closed, Atomic;
    AtomSentence(Sym(DOT));
    AtomSentence(Term(SYMBOL, w));
    AtomicJoin([Sym(DOT)], [Term(SYMBOL, w)]);
    assert [Sym(DOT)] + [Term(SYMBOL, w)] == [Sym(DOT), Term(SYMBOL, w)];
  }

  lemma NothingClosed()
    ensures Closed([])
  {
  }

  lemma {:induction false} ArgsClosed(a: Args)
    ensures Closed(ArgsYield(a))
  {
    hide Closed, Atomic, NoTopComma;
    match a
    case NoArgs => NothingClosed();
    case OneArg(t) => YieldSentence(t);
    case MoreArgs(b, t) =>
      ArgsClosed(b);
      YieldSentence(t);
      JoinClosed(ArgsYield(b), COMMA, Yield(t));
  }

  // ----- fully parenthesised derivations -----

  /** Every operator application stands in parentheses of its own, and no argument list starts with a comma. */
  predicate Full(t: Tree) {
    match t
    case PrimT(p) => FullPrim(p)
    case CastT(_, x) => Full(x)
    case ParenT(x) =>
      (match x
       case PrefixT(_, y) => Full(y)
       case InfixT(l, _, r) => Full(l) && Full(r)
       case IteT(a, b, c) => Full(a) && Full(b) && Full(c)
       case _ => false)
    case CallT(p, args) => FullPrim(p) && FullArgs(args)
    case _ => !Inner(t)
  }

  predicate FullPrim(p: Prim) {
    match p
    case SymbolP(_) => true
    case MemberP(q, _) => FullPrim(q)
    case IndexP(q, x) => FullPrim(q) && Full(x)
  }

  predicate FullArgs(a: Args) {
    match a
    case NoArgs => true
    case OneArg(t) => Full(t)
    case MoreArgs(b, t) => !b.NoArgs? && FullArgs(b) && Full(t)
  }

  /** An operator application shows its operator outside brackets. */
  lemma InnerTops(t: Tree)
    requires Inner(t)
    ensures t.PrefixT? ==> TopOp(Yield(t), 0)
    ensures t.InfixT? ==> TopOp(Yield(t), |Yield(t.l)|) && Yield(t)[|Yield(t.l)|] == Sym(InfixTok(t.infix))
    ensures t.IteT? ==>
      var m := |Yield(t.a)|;
      var n := m + 1 + |Yield(t.b)|;
      TopOp(Yield(t), m) && Yield(t)[m] == Sym(QST) && TopOp(Yield(t), n) && Yield(t)[n] == Sym(COLON)
  {
    hide Closed, TopOp;
    match t
    case PrefixT(op, x) => PrefixTop(op, Yield(x));
    case InfixT(l, op, r) =>
      InfixNoComma(op);
      InfixTop(l, InfixTok(op), Yield(r));
    case IteT(a, b, c) =>
      YieldSentence(a);
      YieldSentence(b);
      IteTops(Yield(a), Yield(b), Yield(c));
  }

  lemma IteTops(a: seq<Term>, b: seq<Term>, c: seq<Term>)
    requires Closed(a) && Closed(b)
    ensures
      var s := Join(a, QST, Join(b, COLON, c));
      var n := |a| + 1 + |b|;
      TopOp(s, |a|) && s[|a|] == Sym(QST) && TopOp(s, n) && s[n] == Sym(COLON)
  {
    hide Closed, TopOp, Join;
    JoinTops(a, QST, Join(b, COLON, c), |a|);
    JoinTops(b, COLON, c, |b|);
    TopBehind(a, QST, Join(b, COLON, c), |b|);
  }

  lemma TopBehind(a: seq<Term>, op: Tok, b: seq<Term>, k: nat)
    requires Closed(a) && Weight(op) == 0 && k < |b| && TopOp(b, k)
    ensures |a| + 1 + k < |Join(a, op, b)| && TopOp(Join(a, op, b), |a| + 1 + k) && Join(a, op, b)[|a| + 1 + k] == b[k]
  {
    hide Closed, Separates, TopOp, Join;
    JoinTops(a, op, b, |a| + 1 + k);
  }

  lemma PrefixTop(op: PrefixOp, s: seq<Term>)
    ensures TopOp([Sym(PrefixTok(op))] + s, 0)
  {
  }

  lemma InfixTop(l: Tree, op: Tok, rest: seq<Term>)
    requires Separates(op) && Weight(op) == 0
    ensures TopOp(Join(Yield(l), op, rest), |Yield(l)|)
  {
    hide Closed, TopOp, Separates, Yield, Join;
    YieldSentence(l);
    JoinTops(Yield(l), op, rest, |Yield(l)|);
  }

  predicate FullInner(t: Tree) { Inner(t) && Full(ParenT(t)) }

  /** ... and if its operands are fully parenthesised, no other separator. */
  lemma OnlyTops(t: Tree, k: nat)
    requires FullInner(t) && TopOp(Yield(t), k)
    ensures t.PrefixT? ==> k == 0
    ensures t.InfixT? ==> k == |Yield(t.l)|
    ensures t.IteT? ==> k == |Yield(t.a)| || k == |Yield(t.a)| + 1 + |Yield(t.b)|
  {
    hide Closed, TopOp;
    match t
    case PrefixT(op, x) => PrefixOnly(op, x, k);
    case InfixT(l, op, r) => InfixNoComma(op); LastBehind(l, InfixTok(op), r, k);
    case IteT(a, b, c) => IteOnly(a, b, c, k);
  }

  lemma PrefixOnly(op: PrefixOp, x: Tree, k: nat)
    requires Full(x) && TopOp([Sym(PrefixTok(op))] + Yield(x), k)
    ensures k == 0
  {
    hide Closed, TopOp, Yield, Join;
    ClosedOne(Sym(PrefixTok(op)));
    TopJoin([Sym(PrefixTok(op))], Yield(x), k);
    YieldSentence(x);
  }

  lemma IteOnly(a: Tree, b: Tree, c: Tree, k: nat)
    requires Full(a) && Full(b) && Full(c) && TopOp(Join(Yield(a), QST, Join(Yield(b), COLON, Yield(c))), k)
    ensures k == |Yield(a)| || k == |Yield(a)| + 1 + |Yield(b)|
  {
    hide Closed, TopOp, Yield, Full;
    FirstOrBehind(a, QST, Join(Yield(b), COLON, Yield(c)), k);
    if k > |Yield(a)| { LastBehind(b, COLON, c, k - |Yield(a)| - 1); }
  }

  lemma LastBehind(l: Tree, op: Tok, r: Tree, k: nat)
    requires Full(l) && Full(r) && Weight(op) == 0 && TopOp(Join(Yield(l), op, Yield(r)), k)
    ensures k == |Yield(l)|
  {
    hide Closed, TopOp, Yield, Join;
    FirstOrBehind(l, op, Yield(r), k);
    YieldSentence(r);
  }

  lemma FirstOrBehind(l: Tree, op: Tok, rest: seq<Term>, k: nat)
    requires Full(l) && Weight(op) == 0 && TopOp(Join(Yield(l), op, rest), k)
    ensures k == |Yield(l)| || (k > |Yield(l)| && TopOp(rest, k - |Yield(l)| - 1))
  {
    hide Closed, TopOp, Yield, Join;
    YieldSentence(l);
    JoinTops(Yield(l), op, rest, k);
  }

  // ----- unwrapping -----

  lemma SplitSame(a: seq<Term>, op: Tok, b: seq<Term>, a': seq<Term>, op': Tok, b': seq<Term>)
    requires Join(a, op, b) == Join(a', op', b') && |a| == |a'|
    ensures a == a' && op == op' && b == b'
  {
    var s := Join(a, op, b);
    assert a == s[..|a|] == a';
    assert b == s[|a| + 1..] == b';
  }

  lemma Unwrap(open: Tok, a: seq<Term>, b: seq<Term>, close: Tok)
    requires Wrap(open, a, close) == Wrap(open, b, close)
    ensures a == b
  {
    var w := Wrap(open, a, close);
    assert a == w[1..|w| - 1] == b;
  }

  lemma JoinLevel(z: seq<Term>, t: Tok, a: seq<Term>)
    ensures var s := Join(z, t, a);
      Level(s, |z|) == Level(z, |z|) && Level(s, |s|) == Level(z, |z|) + Weight(t) + Level(a, |a|)
  {
    hide Weight;
    var s, o := Join(z, t, a), [Sym(t)];
    LevelJoin(z, o + a, |s|);
    LevelJoin(z, o + a, |z|);
    LevelJoin(o, a, 1 + |a|);
    assert Level(o, 1) == Level(o, 0) + Weight(t);
  }

  /** A closed string is not a proper suffix of another behind an opening bracket. */
  lemma NotBehindBracket(z: seq<Term>, open: Tok, a: seq<Term>)
    requires Closed(a) && Weight(open) == 1
    ensures !Closed(Join(z, open, a))
  {
    hide Join, Weight, Level;
    JoinLevel(z, open, a);
    assert |z| <= |Join(z, open, a)|;
  }

  /** The closing bracket at the end determines the opening one. */
  lemma MatchBracket(p: seq<Term>, a: seq<Term>, q: seq<Term>, b: seq<Term>, open: Tok, close: Tok)
    requires p + Wrap(open, a, close) == q + Wrap(open, b, close)
    requires Closed(a) && Closed(b) && Weight(open) == 1
    ensures p == q && a == b
  {
    hide Closed;
    if |a| < |b| { ShorterBracket(p, a, q, b, open, close); assert false; }
    if |b| < |a| { ShorterBracket(q, b, p, a, open, close); assert false; }
    var s := p + Wrap(open, a, close);
    assert p == s[..|p|] == q;
    assert a == s[|p| + 1..|s| - 1] == b;
  }

  lemma ShorterBracket(p: seq<Term>, a: seq<Term>, q: seq<Term>, b: seq<Term>, open: Tok, close: Tok)
    requires p + Wrap(open, a, close) == q + Wrap(open, b, close)
    requires |a| < |b| && Closed(a) && Weight(open) == 1
    ensures !Closed(b)
  {
    hide Closed;
    var s := p + Wrap(open, a, close);
    var z := b[..|b| - |a| - 1];
    assert b == s[|q| + 1..|s| - 1];
    assert a == s[|p| + 1..|s| - 1];
    assert b == Join(z, open, a);
    NotBehindBracket(z, open, a);
  }

  // ----- the first and the last token -----

  function HeadTok(t: Tree): Tok
    requires !Inner(t)
  {
    match t
    case TrueT => TRUE
    case FalseT => FALSE
    case IntT(_) => INT_VAL
    case FloatT(_) => FLOAT_VAL
    case StringT(_) => STRING_VAL
    case PrimT(_) => SYMBOL
    case CastT(op, _) => CastTok(op)
    case ParenT(_) => LP
    case CallT(_, _) => SYMBOL
  }

  lemma Head(t: Tree)
    requires !Inner(t)
    ensures Yield(t) != [] && Yield(t)[0].tok == HeadTok(t)
    ensures t.CallT? ==> Yield(t)[|Yield(t)| - 1].tok == RP
    ensures t.PrimT? ==> Yield(t)[|Yield(t)| - 1].tok != RP
  {
    hide Closed, Atomic;
    if t.PrimT? || t.CallT? { PrimSentence(t.prim); }
    if t.PrimT? { PrimLast(t.prim); }
  }

  lemma PrimLast(p: Prim)
    ensures PrimYield(p) != [] && PrimYield(p)[|PrimYield(p)| - 1].tok == if p.IndexP? then RBK else SYMBOL
    ensures |PrimYield(p)| == 1 <==> p.SymbolP?
  {
    hide Closed, Atomic;
    if !p.SymbolP? { PrimSentence(p.p); }
  }

  // ----- fully parenthesised sentences have one derivation -----

  /** A sentence with a fully parenthesised derivation has no other. */
  lemma {:induction false} Unambiguous(t: Tree, u: Tree)
    requires Full(t) && Yield(t) == Yield(u)
    ensures t == u
    decreases t
  {
    hide Atomic, TopOp, Yield;
    YieldSentence(t);
    NotInner(t, u);
    SameHead(t, u);
    match t
    case PrimT(p) => PrimInside(t, u); UnambiguousPrim(p, u.prim);
    case CastT(op, x) => CastInside(t, u); Unambiguous(x, u.t);
    case ParenT(x) => ParenInside(t, u); UnambiguousInner(x, u.t);
    case CallT(p, args) => CallInside(t, u); UnambiguousPrim(p, u.prim); UnambiguousArgs(args, u.args);
    case _ => LiteralInside(t, u);
  }

  lemma InnerNotAtomic(t: Tree)
    requires Inner(t)
    ensures !Atomic(Yield(t))
  {
    hide TopOp, Yield, Join;
    InnerTops(t);
  }

  lemma NotInner(t: Tree, u: Tree)
    requires Atomic(Yield(t)) && Yield(t) == Yield(u)
    ensures !Inner(u)
  {
    if Inner(u) { InnerNotAtomic(u); }
  }

  /** The first and the last token tell the constructor. */
  lemma SameHead(t: Tree, u: Tree)
    requires !Inner(t) && !Inner(u) && Yield(t) == Yield(u)
    ensures t.TrueT? <==> u.TrueT?
    ensures t.FalseT? <==> u.FalseT?
    ensures t.IntT? <==> u.IntT?
    ensures t.FloatT? <==> u.FloatT?
    ensures t.StringT? <==> u.StringT?
    ensures t.PrimT? <==> u.PrimT?
    ensures t.CastT? <==> u.CastT?
    ensures t.ParenT? <==> u.ParenT?
    ensures t.CallT? <==> u.CallT?
    ensures t.CastT? ==> t.cast == u.cast
  {
    hide Yield;
    Head(t);
    Head(u);
  }

  lemma PrimInside(t: Tree, u: Tree)
    requires t.PrimT? && u.PrimT? && Yield(t) == Yield(u)
    ensures PrimYield(t.prim) == PrimYield(u.prim)
  {
  }

  lemma LiteralInside(t: Tree, u: Tree)
    requires t.TrueT? || t.FalseT? || t.IntT? || t.FloatT? || t.StringT?
    requires !Inner(u) && Yield(t) == Yield(u)
    ensures t == u
  {
    SameHead(t, u);
    assert Yield(t)[0] == Yield(u)[0];
  }

  lemma CastInside(t: Tree, u: Tree)
    requires t.CastT? && u.CastT? && Yield(t) == Yield(u)
    ensures Yield(t.t) == Yield(u.t)
  {
    hide Wrap;
    assert Wrap(LP, Yield(t.t), RP) == Yield(t)[1..] == Yield(u)[1..] == Wrap(LP, Yield(u.t), RP);
    Unwrap(LP, Yield(t.t), Yield(u.t), RP);
  }

  lemma ParenInside(t: Tree, u: Tree)
    requires t.ParenT? && u.ParenT? && Yield(t) == Yield(u)
    ensures Yield(t.t) == Yield(u.t)
  {
    hide Wrap;
    Unwrap(LP, Yield(t.t), Yield(u.t), RP);
  }

  lemma CallInside(t: Tree, u: Tree)
    requires t.CallT? && u.CallT? && Yield(t) == Yield(u)
    ensures PrimYield(t.prim) == PrimYield(u.prim) && ArgsYield(t.args) == ArgsYield(u.args)
  {
    hide Closed;
    ArgsClosed(t.args);
    ArgsClosed(u.args);
    MatchBracket(PrimYield(t.prim), ArgsYield(t.args), PrimYield(u.prim), ArgsYield(u.args), LP, RP);
  }

  lemma {:induction false} UnambiguousPrim(p: Prim, q: Prim)
    requires FullPrim(p) && PrimYield(p) == PrimYield(q)
    ensures p == q
    decreases p
  {
    hide Closed, Wrap;
    PrimLast(p);
    PrimLast(q);
    match p
    case SymbolP(w) => assert PrimYield(p)[0] == PrimYield(q)[0];
    case MemberP(p', w) =>
      MemberInside(p', w, q.p, q.member);
      UnambiguousPrim(p', q.p);
    case IndexP(p', x) =>
      YieldSentence(x);
      YieldSentence(q.index);
      MatchBracket(PrimYield(p'), Yield(x), PrimYield(q.p), Yield(q.index), LBK, RBK);
      UnambiguousPrim(p', q.p);
      Unambiguous(x, q.index);
  }

  lemma MemberInside(p: Prim, v: string, q: Prim, w: string)
    requires PrimYield(p) + [Sym(DOT), Term(SYMBOL, v)] == PrimYield(q) + [Sym(DOT), Term(SYMBOL, w)]
    ensures PrimYield(p) == PrimYield(q) && v == w
  {
    hide PrimYield;
    var s := PrimYield(p) + [Sym(DOT), Term(SYMBOL, v)];
    assert PrimYield(p) == s[..|s| - 2] == PrimYield(q);
    assert Term(SYMBOL, v) == s[|s| - 1] == Term(SYMBOL, w);
  }

  /** Between the parentheses of an operator application. */
  lemma {:induction false} UnambiguousInner(t: Tree, u: Tree)
    requires FullInner(t) && Yield(t) == Yield(u)
    ensures t == u
    decreases t, 0
  {
    hide Atomic, TopOp, Yield;
    InnerTops(t);
    YieldSentence(u);
    InnerNotAtomic(t);
    InnerTops(u);
    SameOperator(t, u);
    match t
    case PrefixT(op, x) => PrefixInside(t, u); Unambiguous(x, u.t);
    case InfixT(l, op, r) => InfixInside(t, u); Unambiguous(l, u.l); Unambiguous(r, u.r);
    case IteT(a, b, c) => IteInside(t, u); Unambiguous(a, u.a); Unambiguous(b, u.b); Unambiguous(c, u.c);
  }

  /** The separators outside brackets tell the operator and where it stands. */
  lemma SameOperator(t: Tree, u: Tree)
    requires FullInner(t) && Inner(u) && Yield(t) == Yield(u)
    ensures t.PrefixT? <==> u.PrefixT?
    ensures t.InfixT? <==> u.InfixT?
    ensures t.IteT? <==> u.IteT?
    ensures t.InfixT? ==> |Yield(t.l)| == |Yield(u.l)|
    ensures t.IteT? ==> |Yield(t.a)| == |Yield(u.a)| && |Yield(t.b)| == |Yield(u.b)|
  {
    hide TopOp, Yield, Join;
    InnerTops(t);
    InnerTops(u);
    NonEmptyOperands(t);
    NonEmptyOperands(u);
    match u
    case PrefixT(_, _) => OnlyTops(t, 0);
    case InfixT(l, op, r) => InfixNoComma(op); OnlyTops(t, |Yield(l)|);
    case IteT(a, b, c) => IteOperator(t, u);
  }

  lemma IteOperator(t: Tree, u: Tree)
    requires FullInner(t) && u.IteT? && Yield(t) == Yield(u)
    ensures t.IteT? && |Yield(t.a)| == |Yield(u.a)| && |Yield(t.b)| == |Yield(u.b)|
  {
    hide TopOp, Yield, Join;
    InnerTops(t);
    InnerTops(u);
    NonEmptyOperands(u);
    if t.InfixT? { InfixNoComma(t.infix); }
    OnlyTops(t, |Yield(u.a)|);
    OnlyTops(t, |Yield(u.a)| + 1 + |Yield(u.b)|);
  }

  lemma NonEmptyOperands(t: Tree)
    ensures t.InfixT? ==> |Yield(t.l)| > 0
    ensures t.IteT? ==> |Yield(t.a)| > 0
  {
    hide Closed;
    if t.InfixT? { YieldSentence(t.l); }
    if t.IteT? { YieldSentence(t.a); }
  }

  lemma PrefixInside(t: Tree, u: Tree)
    requires t.PrefixT? && u.PrefixT? && Yield(t) == Yield(u)
    ensures t.prefix == u.prefix && Yield(t.t) == Yield(u.t)
  {
    assert Sym(PrefixTok(t.prefix)) == Yield(t)[0] == Sym(PrefixTok(u.prefix));
    assert Yield(t.t) == Yield(t)[1..] == Yield(u.t);
  }

  lemma InfixInside(t: Tree, u: Tree)
    requires t.InfixT? && u.InfixT? && Yield(t) == Yield(u) && |Yield(t.l)| == |Yield(u.l)|
    ensures t.infix == u.infix && Yield(t.l) == Yield(u.l) && Yield(t.r) == Yield(u.r)
  {
    SplitSame(Yield(t.l), InfixTok(t.infix), Yield(t.r), Yield(u.l), InfixTok(u.infix), Yield(u.r));
    InfixTokInjective(t.infix, u.infix);
  }

  lemma InfixTokInjective(a: InfixOp, b: InfixOp)
    requires InfixTok(a) == InfixTok(b)
    ensures a == b
  {
  }

  lemma IteInside(t: Tree, u: Tree)
    requires t.IteT? && u.IteT? && Yield(t) == Yield(u) && |Yield(t.a)| == |Yield(u.a)| && |Yield(t.b)| == |Yield(u.b)|
    ensures Yield(t.a) == Yield(u.a) && Yield(t.b) == Yield(u.b) && Yield(t.c) == Yield(u.c)
  {
    var rest, rest' := Join(Yield(t.b), COLON, Yield(t.c)), Join(Yield(u.b), COLON, Yield(u.c));
    SplitSame(Yield(t.a), QST, rest, Yield(u.a), QST, rest');
    SplitSame(Yield(t.b), COLON, Yield(t.c), Yield(u.b), COLON, Yield(u.c));
  }

  // ----- argument lists -----

  lemma MoreComma(a: Args, t: Tree)
    ensures var s := ArgsYield(MoreArgs(a, t));
      |ArgsYield(a)| < |s| && TopOp(s, |ArgsYield(a)|) && s[|ArgsYield(a)|] == Sym(COMMA)
  {
    hide Closed, TopOp, Join;
    ArgsClosed(a);
    JoinTops(ArgsYield(a), COMMA, Yield(t), |ArgsYield(a)|);
  }

  /** The last comma outside brackets is the one in front of the last argument. */
  lemma NoLaterComma(a: Args, t: Tree, k: nat)
    requires |ArgsYield(a)| < k < |ArgsYield(MoreArgs(a, t))| && TopOp(ArgsYield(MoreArgs(a, t)), k)
    ensures ArgsYield(MoreArgs(a, t))[k].tok != COMMA
  {
    hide Closed, TopOp, Join;
    ArgsClosed(a);
    YieldSentence(t);
    JoinTops(ArgsYield(a), COMMA, Yield(t), k);
  }

  lemma SameLastComma(a: Args, t: Tree, b: Args, u: Tree)
    requires ArgsYield(MoreArgs(a, t)) == ArgsYield(MoreArgs(b, u))
    ensures ArgsYield(a) == ArgsYield(b) && Yield(t) == Yield(u)
  {
    hide TopOp, Join;
    MoreComma(a, t);
    MoreComma(b, u);
    if |ArgsYield(a)| < |ArgsYield(b)| { NoLaterComma(a, t, |ArgsYield(b)|); }
    if |ArgsYield(b)| < |ArgsYield(a)| { NoLaterComma(b, u, |ArgsYield(a)|); }
    SplitSame(ArgsYield(a), COMMA, Yield(t), ArgsYield(b), COMMA, Yield(u));
  }

  lemma {:induction false} UnambiguousArgs(a: Args, b: Args)
    requires FullArgs(a) && ArgsYield(a) == ArgsYield(b)
    ensures a == b
    decreases a
  {
    hide TopOp, Closed;
    if b.OneArg? { YieldSentence(b.t); }
    if b.MoreArgs? { MoreComma(b.args, b.t); }
    match a
    case NoArgs =>
    case OneArg(t) => YieldSentence(t); Unambiguous(t, b.t);
    case MoreArgs(a', t) =>
      MoreComma(a', t);
      SameLastComma(a', t, b.args, b.t);
      UnambiguousArgs(a', b.args);
      Unambiguous(t, b.t);
  }
}
