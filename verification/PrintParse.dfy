/** Printing an expression and reading it back: the printed text scans to a sentence that has one
    derivation, and the derivation builds the expression. */
module PrintParse {
  import opened RsrvWordDic
  import opened Ir
  import opened Ast
  import Interp
  import opened Tokens
  import opened Decimal
  import opened Printer
  import G = Grammar

  // ----- the syntax tree a derivation builds -----

  function PrefixUni(op: G.PrefixOp): UniOp {
    match op case MinusOp => UniMinus case NegOp => UniOp.BitNeg case NotOp => LogNot
  }

  function CastUni(op: G.CastOp): UniOp {
    match op case IntCast => CastInt case BooleanCast => CastBoolean case FloatCast => CastFloat
  }

  /** The semantic actions: `>` and `>=` swap their operands; `atof` converts a floating-point literal. */
  function Value(t: G.Tree, atof: string -> Double): Expr {
    match t
    case TrueT => True
    case FalseT => False
    case IntT(w) => IntLit(if IsInt(w) then CurInt(w) else 0)
    case FloatT(w) => FloatLit(atof(w))
    case StringT(w) => StringLit(w)
    case PrimT(p) => PrimValue(p, atof)
    case PrefixT(op, x) => Unary(PrefixUni(op), Value(x, atof))
    case CastT(op, x) => Unary(CastUni(op), Value(x, atof))
    case InfixT(l, op, r) =>
      (match op
       case Plain(b) => Binary(b, Value(l, atof), Value(r, atof))
       case Greater => Binary(Lt, Value(r, atof), Value(l, atof))
       case GreaterEq => Binary(Le, Value(r, atof), Value(l, atof)))
    case IteT(a, b, c) => Ite(Value(a, atof), Value(b, atof), Value(c, atof))
    case ParenT(x) => Value(x, atof)
    case CallT(p, args) => Expr.FuncCall(PrimValue(p, atof), ArgsValue(args, atof))
  }

  function PrimValue(p: G.Prim, atof: string -> Double): Expr {
    match p
    case SymbolP(w) => Symbol(w)
    case MemberP(q, w) => MemberRef(PrimValue(q, atof), w)
    case IndexP(q, x) => Expr.ArrayRef(PrimValue(q, atof), Value(x, atof))
  }

  function ArgsValue(a: G.Args, atof: string -> Double): seq<Expr> {
    match a
    case NoArgs => []
    case OneArg(t) => [Value(t, atof)]
    case MoreArgs(b, t) => ArgsValue(b, atof) + [Value(t, atof)]
  }

  // ----- which expressions are printed faithfully -----

  predicate IsName(w: string) { IsWord(w) && WordToken(w) == SYMBOL }

  predicate IsPrimary(e: Expr) { e.Symbol? || e.MemberRef? || e.ArrayRef? }

  /** The shape the grammar can build: members, elements and calls are taken of primaries. */
  predicate Shaped(e: Expr) {
    match e
    case MemberRef(b, _) => IsPrimary(b) && Shaped(b)
    case ArrayRef(b, i) => IsPrimary(b) && Shaped(b) && Shaped(i)
    case Unary(_, a) => Shaped(a)
    case Binary(_, a, b) => Shaped(a) && Shaped(b)
    case Ite(a, b, c) => Shaped(a) && Shaped(b) && Shaped(c)
    case FuncCall(f, args) => IsPrimary(f) && Shaped(f) && forall k :: 0 <= k < |args| ==> Shaped(args[k])
    case _ => true
  }

  /** What a token can carry: names that are not reserved, 32-bit numbers, plain strings; no floats. */
  predicate Printable(e: Expr) {
    match e
    case True => true
    case False => true
    case IntLit(v) => Interp.Int32(v)
    case FloatLit(_) => false
    case StringLit(w) => Tokens.Plain(w)
    case Symbol(w) => IsName(w)
    case MemberRef(b, m) => Printable(b) && IsName(m)
    case ArrayRef(b, i) => Printable(b) && Printable(i)
    case Unary(_, a) => Printable(a)
    case Binary(_, a, b) => Printable(a) && Printable(b)
    case Ite(a, b, c) => Printable(a) && Printable(b) && Printable(c)
    case FuncCall(f, args) => Printable(f) && forall k :: 0 <= k < |args| ==> Printable(args[k])
  }

  /** The grammar builds shaped expressions only. */
  lemma {:induction false} ValueShaped(t: G.Tree, atof: string -> Double)
    ensures Shaped(Value(t, atof))
  {
    match t
    case PrimT(p) => PrimShaped(p, atof);
    case PrefixT(_, x) => ValueShaped(x, atof);
    case CastT(_, x) => ValueShaped(x, atof);
    case InfixT(l, _, r) => ValueShaped(l, atof); ValueShaped(r, atof);
    case IteT(a, b, c) => ValueShaped(a, atof); ValueShaped(b, atof); ValueShaped(c, atof);
    case ParenT(x) => ValueShaped(x, atof);
    case CallT(p, args) => PrimShaped(p, atof); ArgsShaped(args, atof);
    case _ =>
  }

  lemma {:induction false} PrimShaped(p: G.Prim, atof: string -> Double)
    ensures IsPrimary(PrimValue(p, atof)) && Shaped(PrimValue(p, atof))
  {
    match p
    case SymbolP(_) =>
    case MemberP(q, _) => PrimShaped(q, atof);
    case IndexP(q, x) => PrimShaped(q, atof); ValueShaped(x, atof);
  }

  lemma {:induction false} ArgsShaped(a: G.Args, atof: string -> Double)
    ensures forall k :: 0 <= k < |ArgsValue(a, atof)| ==> Shaped(ArgsValue(a, atof)[k])
  {
    match a
    case NoArgs =>
    case OneArg(t) => ValueShaped(t, atof);
    case MoreArgs(b, t) => ArgsShaped(b, atof); ValueShaped(t, atof);
  }

  // ----- the derivation of the printed form -----

  function CanonUnary(op: UniOp, t: G.Tree): G.Tree {
    match op
    case UniMinus => G.ParenT(G.PrefixT(G.MinusOp, t))
    case BitNeg => G.ParenT(G.PrefixT(G.NegOp, t))
    case LogNot => G.ParenT(G.PrefixT(G.NotOp, t))
    case CastInt => G.CastT(G.IntCast, t)
    case CastBoolean => G.CastT(G.BooleanCast, t)
    case CastFloat => G.CastT(G.FloatCast, t)
  }

  function Canon(e: Expr): G.Tree
    requires Shaped(e)
    decreases e, 1
  {
    match e
    case True => G.TrueT
    case False => G.FalseT
    case IntLit(v) => G.IntT(IntText(v))
    case FloatLit(_) => G.FloatT("")
    case StringLit(w) => G.StringT(w)
    case Symbol(_) => G.PrimT(CanonPrim(e))
    case MemberRef(_, _) => G.PrimT(CanonPrim(e))
    case ArrayRef(_, _) => G.PrimT(CanonPrim(e))
    case Unary(op, a) => CanonUnary(op, Canon(a))
    case Binary(op, a, b) => G.ParenT(G.InfixT(Canon(a), G.Plain(op), Canon(b)))
    case Ite(a, b, c) => G.ParenT(G.IteT(Canon(a), Canon(b), Canon(c)))
    case FuncCall(f, args) => G.CallT(CanonPrim(f), CanonArgs(args))
  }

  function CanonPrim(e: Expr): G.Prim
    requires Shaped(e) && IsPrimary(e)
    decreases e, 0
  {
    match e
    case Symbol(w) => G.SymbolP(w)
    case MemberRef(b, m) => G.MemberP(CanonPrim(b), m)
    case ArrayRef(b, i) => G.IndexP(CanonPrim(b), Canon(i))
  }

  function CanonArgs(args: seq<Expr>): G.Args
    requires forall k :: 0 <= k < |args| ==> Shaped(args[k])
    decreases args, 0
  {
    if args == [] then G.NoArgs
    else if |args| == 1 then G.OneArg(Canon(args[0]))
    else G.MoreArgs(CanonArgs(args[..|args| - 1]), Canon(args[|args| - 1]))
  }

  /** It is fully parenthesised and builds the expression. */
  lemma {:induction false} CanonBuilds(e: Expr, atof: string -> Double)
    requires Shaped(e) && Printable(e)
    ensures G.Full(Canon(e)) && Value(Canon(e), atof) == e
    decreases e, 1
  {
    hide IsInt, IsName, CurInt, Interp.Int32, Tokens.Plain, IntText, G.FullPrim, CanonPrim,
      CanonArgs, G.FullArgs, CanonUnary;
    match e
    case IntLit(v) => IntTextReadsBack(v);
    case Symbol(_) => CanonPrimBuilds(e, atof);
    case MemberRef(_, _) => CanonPrimBuilds(e, atof);
    case ArrayRef(_, _) => CanonPrimBuilds(e, atof);
    case Unary(op, a) => CanonBuilds(a, atof); UnaryBuilds(op, Canon(a), atof);
    case Binary(op, a, b) => CanonBuilds(a, atof); CanonBuilds(b, atof); BinaryBuilds(op, Canon(a), Canon(b), atof);
    case Ite(a, b, c) =>
      CanonBuilds(a, atof);
      CanonBuilds(b, atof);
      CanonBuilds(c, atof);
      IteBuilds(Canon(a), Canon(b), Canon(c), atof);
    case FuncCall(f, args) => CanonPrimBuilds(f, atof); CanonArgsBuild(args, atof);
    case _ =>
  }

  lemma UnaryBuilds(op: UniOp, t: G.Tree, atof: string -> Double)
    requires G.Full(t)
    ensures G.Full(CanonUnary(op, t)) && Value(CanonUnary(op, t), atof) == Unary(op, Value(t, atof))
  {
  }

  lemma BinaryBuilds(op: BinOp, a: G.Tree, b: G.Tree, atof: string -> Double)
    requires G.Full(a) && G.Full(b)
    ensures var t := G.ParenT(G.InfixT(a, G.Plain(op), b));
            G.Full(t) && Value(t, atof) == Binary(op, Value(a, atof), Value(b, atof))
  {
  }

  lemma IteBuilds(a: G.Tree, b: G.Tree, c: G.Tree, atof: string -> Double)
    requires G.Full(a) && G.Full(b) && G.Full(c)
    ensures var t := G.ParenT(G.IteT(a, b, c));
            G.Full(t) && Value(t, atof) == Ite(Value(a, atof), Value(b, atof), Value(c, atof))
  {
  }

  lemma {:induction false} CanonPrimBuilds(e: Expr, atof: string -> Double)
    requires Shaped(e) && Printable(e) && IsPrimary(e)
    ensures G.FullPrim(CanonPrim(e)) && PrimValue(CanonPrim(e), atof) == e
    decreases e, 0
  {
    hide IsName;
    match e
    case Symbol(_) =>
    case MemberRef(b, _) => CanonPrimBuilds(b, atof);
    case ArrayRef(b, i) => CanonPrimBuilds(b, atof); CanonBuilds(i, atof);
  }

  lemma {:induction false} CanonArgsBuild(args: seq<Expr>, atof: string -> Double)
    requires forall k :: 0 <= k < |args| ==> Shaped(args[k]) && Printable(args[k])
    ensures G.FullArgs(CanonArgs(args)) && ArgsValue(CanonArgs(args), atof) == args
    decreases args, 0
  {
    hide Shaped, Printable, Canon, Value, G.Full;
    if args == [] {
    } else if |args| == 1 {
      CanonBuilds(args[0], atof);
    } else {
      CanonArgsBuild(args[..|args| - 1], atof);
      CanonBuilds(args[|args| - 1], atof);
    }
  }
}
