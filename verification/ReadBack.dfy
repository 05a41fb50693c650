/** The round trip of the text layer: print, scan, derive. */
module ReadBack {
  import opened RsrvWordDic
  import opened Ir
  import opened Ast
  import opened Scanner
  import opened Tokens
  import opened Printer
  import opened PrintParse
  import opened PrintScan
  import G = Grammar

  /** Scanning the text gives the sentence of the derivation and then the end of the input. */
  ghost predicate Parses(s: string, t: G.Tree) {
    TermsOf(Scans(s, 0, |G.Yield(t)| + 1)) == G.Yield(t) + [G.Sym(EOF)]
  }

  predicate NoEof(ts: seq<G.Term>) { forall k :: 0 <= k < |ts| ==> !ts[k].tok.EOF? }

  lemma JoinNoEof(a: seq<G.Term>, t: Tok, b: seq<G.Term>)
    requires NoEof(a) && NoEof(b) && !t.EOF?
    ensures NoEof(G.Join(a, t, b)) && NoEof([G.Sym(t)] + b) && NoEof(a + b)
  {
  }

  lemma WrapNoEof(o: Tok, s: seq<G.Term>, c: Tok)
    requires NoEof(s) && !o.EOF? && !c.EOF?
    ensures NoEof(G.Wrap(o, s, c))
  {
  }

  lemma LiteralNoEof(t: G.Tree)
    requires t.TrueT? || t.FalseT? || t.IntT? || t.FloatT? || t.StringT?
    ensures NoEof(G.Yield(t))
  {
  }

  lemma {:induction false} YieldNoEof(t: G.Tree)
    ensures NoEof(G.Yield(t))
  {
    hide NoEof, G.Join, G.Wrap;
    match t
    case PrimT(p) => PrimNoEof(p);
    case PrefixT(op, x) => YieldNoEof(x); JoinNoEof(G.Yield(x), G.PrefixTok(op), G.Yield(x));
    case CastT(op, x) =>
      YieldNoEof(x);
      WrapNoEof(LP, G.Yield(x), RP);
      JoinNoEof(G.Wrap(LP, G.Yield(x), RP), G.CastTok(op), G.Wrap(LP, G.Yield(x), RP));
    case InfixT(l, op, r) =>
      YieldNoEof(l);
      YieldNoEof(r);
      InfixNotEof(op);
      JoinNoEof(G.Yield(l), G.InfixTok(op), G.Yield(r));
    case IteT(a, b, c) =>
      YieldNoEof(a);
      YieldNoEof(b);
      YieldNoEof(c);
      JoinNoEof(G.Yield(b), COLON, G.Yield(c));
      JoinNoEof(G.Yield(a), QST, G.Join(G.Yield(b), COLON, G.Yield(c)));
    case ParenT(x) => YieldNoEof(x); WrapNoEof(LP, G.Yield(x), RP);
    case CallT(p, args) =>
      PrimNoEof(p);
      ArgsNoEof(args);
      WrapNoEof(LP, G.ArgsYield(args), RP);
      JoinNoEof(G.PrimYield(p), LP, G.Wrap(LP, G.ArgsYield(args), RP));
    case _ => LiteralNoEof(t);
  }

  lemma InfixNotEof(op: G.InfixOp)
    ensures !G.InfixTok(op).EOF?
  {
  }

  lemma {:induction false} PrimNoEof(p: G.Prim)
    ensures NoEof(G.PrimYield(p))
  {
    hide G.Wrap;
    match p
    case SymbolP(_) =>
    case MemberP(q, _) => PrimNoEof(q);
    case IndexP(q, x) => PrimNoEof(q); YieldNoEof(x); WrapNoEof(LBK, G.Yield(x), RBK);
  }

  lemma {:induction false} ArgsNoEof(a: G.Args)
    ensures NoEof(G.ArgsYield(a))
  {
    match a
    case NoArgs =>
    case OneArg(t) => YieldNoEof(t);
    case MoreArgs(b, t) => ArgsNoEof(b); YieldNoEof(t); JoinNoEof(G.ArgsYield(b), COMMA, G.Yield(t));
  }

  /** Fewer calls return the first of more calls. */
  lemma {:induction false} ScansPrefix(s: string, p: nat, m: nat, n: nat)
    requires m <= n
    ensures TermsOf(Scans(s, p, m)) <= TermsOf(Scans(s, p, n))
    decreases m
  {
    hide Token, TermOf;
    if m > 0 {
      var t := Token(s, p);
      ScansPrefix(s, t.next, m - 1, n - 1);
      assert Scans(s, p, m)[1..] == Scans(s, t.next, m - 1);
      assert Scans(s, p, n)[1..] == Scans(s, t.next, n - 1);
    }
  }

  /** The end of the input tells where a sentence ends. */
  lemma SameSentence(a: seq<G.Term>, b: seq<G.Term>)
    requires NoEof(a) && NoEof(b) && a + [G.Sym(EOF)] <= b + [G.Sym(EOF)]
    ensures a == b
  {
    var x, y := a + [G.Sym(EOF)], b + [G.Sym(EOF)];
    assert x[|a|] == y[|a|];
    assert forall k :: 0 <= k < |b| ==> y[k] == b[k];
    assert |a| >= |b|;
    assert a == x[..|a|] == y[..|a|] == b;
  }

  lemma ParsesSame(s: string, t: G.Tree, u: G.Tree)
    requires Parses(s, t) && Parses(s, u) && |G.Yield(t)| <= |G.Yield(u)|
    ensures G.Yield(t) == G.Yield(u)
  {
    hide Scans, TermsOf, G.Yield;
    YieldNoEof(t);
    YieldNoEof(u);
    ScansPrefix(s, 0, |G.Yield(t)| + 1, |G.Yield(u)| + 1);
    SameSentence(G.Yield(t), G.Yield(u));
  }

  lemma PrintedParses(e: Expr, ftoa: Double -> string)
    requires Shaped(e) && Printable(e)
    ensures Parses(Print(e, ftoa), Canon(e))
  {
    hide G.Yield, Canon, Print, Pieces, Shaped, Printable, Scans, Expected, Separated, Terms, TermOf;
    var s, ps := Print(e, ftoa), Pieces(e);
    Prints(e, ftoa);
    assert At(s, 0, s) && Ends(s, 0 + |s|, Tight);
    assert Separated(s, 0, ps);
    TokensReadBack(ps);
    CountTerms(ps);
    ExpectedTerms(0, ps);
    TermsOfJoin(Expected(0, ps), [Scan(EOF, "", |s|)]);
    OneTerm(Scan(EOF, "", |s|));
  }

  lemma OneTerm(t: Scan)
    ensures TermsOf([t]) == [TermOf(t)] && (t.tok.EOF? ==> TermOf(t) == G.Sym(EOF))
  {
    assert [t][1..] == [];
  }

  /** For every expression the grammar can build out of unreserved names, 32-bit integers and plain
      strings: the printed text has exactly one derivation, and it builds that expression. */
  lemma PrintedReadsBack(e: Expr, t: G.Tree, ftoa: Double -> string, atof: string -> Double)
    requires Shaped(e) && Printable(e)
    ensures Parses(Print(e, ftoa), t) <==> t == Canon(e)
    ensures Value(Canon(e), atof) == e
  {
    hide Parses, Canon, Print, Value, G.Yield, G.Full;
    PrintedParses(e, ftoa);
    CanonBuilds(e, atof);
    if Parses(Print(e, ftoa), t) {
      if |G.Yield(t)| <= |G.Yield(Canon(e))| { ParsesSame(Print(e, ftoa), t, Canon(e)); }
      else { ParsesSame(Print(e, ftoa), Canon(e), t); }
      G.Unambiguous(Canon(e), t);
    }
  }

  /** Two expressions with the same printed form are the same. */
  lemma PrintInjective(d: Expr, e: Expr, ftoa: Double -> string, atof: string -> Double)
    requires Shaped(d) && Printable(d) && Shaped(e) && Printable(e)
    requires Print(d, ftoa) == Print(e, ftoa)
    ensures d == e
  {
    hide Parses, Canon, Print, Value, Shaped, Printable;
    PrintedReadsBack(d, Canon(d), ftoa, atof);
    PrintedReadsBack(e, Canon(d), ftoa, atof);
  }
}
