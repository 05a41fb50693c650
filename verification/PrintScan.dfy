/** The printed text as a sequence of tokens. */
module PrintScan {
  import opened RsrvWordDic
  import opened Ir
  import opened Ast
  import opened Scanner
  import opened Tokens
  import Interp
  import opened Decimal
  import opened Printer
  import opened PrintParse
  import G = Grammar

  // ----- terminals -----

  /** The terminal the parser sees for a token; names, numbers and strings carry their text. */
  function TermOf(scan: Scan): G.Term {
    var valued := scan.tok.SYMBOL? || scan.tok.INT_VAL? || scan.tok.FLOAT_VAL? || scan.tok.STRING_VAL?;
    G.Term(scan.tok, if valued then scan.text else "")
  }

  function TermsOf(scans: seq<Scan>): seq<G.Term> {
    if scans == [] then [] else [TermOf(scans[0])] + TermsOf(scans[1..])
  }

  function LexTerm(l: Lexeme): G.Term { TermOf(Read(l, 0)) }

  function Terms(ps: seq<Piece>): seq<G.Term> {
    if ps == [] then [] else (if ps[0].Tok? then [LexTerm(ps[0].lex)] else []) + Terms(ps[1..])
  }

  lemma SameTerm(l: Lexeme, j: nat)
    ensures TermOf(Read(l, j)) == LexTerm(l)
  {
  }

  lemma {:induction false} ExpectedTerms(i: nat, ps: seq<Piece>)
    ensures TermsOf(Expected(i, ps)) == Terms(ps)
    decreases |ps|
  {
    hide TermOf, Read, PieceText;
    if ps != [] {
      var j := i + |PieceText(ps[0])|;
      ExpectedTerms(j, ps[1..]);
      ExpectedFirst(i, ps);
      if ps[0].Tok? {
        assert Expected(i, ps)[1..] == Expected(j, ps[1..]);
        SameTerm(ps[0].lex, j);
      }
    }
  }

  lemma {:induction false} CountTerms(ps: seq<Piece>)
    ensures |Terms(ps)| == Count(ps)
  {
    if ps != [] { CountTerms(ps[1..]); }
  }

  lemma {:induction false} TermsOfJoin(a: seq<Scan>, b: seq<Scan>)
    ensures TermsOf(a + b) == TermsOf(a) + TermsOf(b)
  {
    hide TermOf;
    if a == [] {
      assert a + b == b;
    } else {
      assert (a + b)[1..] == a[1..] + b;
      TermsOfJoin(a[1..], b);
    }
  }

  // ----- pieces side by side -----

  lemma Regroup<T>(a: seq<T>, b: seq<T>, c: seq<T>)
    ensures a + (b + c) == (a + b) + c
  {
  }

  lemma {:induction false} TextJoin(a: seq<Piece>, b: seq<Piece>)
    ensures Text(a + b) == Text(a) + Text(b)
  {
    hide PieceText;
    if a == [] {
      assert a + b == b;
    } else {
      assert (a + b)[1..] == a[1..] + b;
      TextJoin(a[1..], b);
      Regroup(PieceText(a[0]), Text(a[1..]), Text(b));
    }
  }

  lemma {:induction false} TermsJoin(a: seq<Piece>, b: seq<Piece>)
    ensures Terms(a + b) == Terms(a) + Terms(b)
  {
    hide LexTerm;
    if a == [] {
      assert a + b == b;
    } else {
      assert (a + b)[1..] == a[1..] + b;
      TermsJoin(a[1..], b);
      Regroup(if a[0].Tok? then [LexTerm(a[0].lex)] else [], Terms(a[1..]), Terms(b));
    }
  }

  lemma {:induction false} PiecesOkJoin(a: seq<Piece>, b: seq<Piece>)
    ensures PiecesOk(a + b) <==> PiecesOk(a) && PiecesOk(b)
  {
    hide PieceOk;
    if a == [] {
      assert a + b == b;
    } else {
      assert (a + b)[1..] == a[1..] + b;
      PiecesOkJoin(a[1..], b);
    }
  }

  lemma PiecesJoin(a: seq<Piece>, b: seq<Piece>)
    ensures Text(a + b) == Text(a) + Text(b) && Terms(a + b) == Terms(a) + Terms(b)
    ensures PiecesOk(a + b) <==> PiecesOk(a) && PiecesOk(b)
  {
    hide Text, Terms, PiecesOk;
    TextJoin(a, b);
    TermsJoin(a, b);
    PiecesOkJoin(a, b);
  }

  lemma {:induction false} SeparatedJoin(s: string, i: nat, a: seq<Piece>, b: seq<Piece>)
    ensures Separated(s, i, a + b) <==> Separated(s, i, a) && Separated(s, i + |Text(a)|, b)
    decreases |a|
  {
    hide Stops, PieceText;
    if a == [] {
      assert a + b == b;
    } else {
      assert (a + b)[1..] == a[1..] + b;
      SeparatedJoin(s, i + |PieceText(a[0])|, a[1..], b);
    }
  }

  /** What may follow a piece of text: anything; anything that does not continue a word; that, but no point. */
  datatype Follow = Free | Loose | Tight

  predicate Ends(s: string, j: nat, f: Follow) {
    f.Free? || (!NextWord(s, j) && (f.Loose? || !Next(s, j, '.')))
  }

  /** The pieces make up the text and the sentence, and they are separated wherever the text stands. */
  ghost predicate Fits(ps: seq<Piece>, sentence: seq<G.Term>, text: string, f: Follow) {
    && PiecesOk(ps)
    && Terms(ps) == sentence
    && Text(ps) == text
    && forall s: string, i: nat :: At(s, i, text) && Ends(s, i + |text|, f) ==> Separated(s, i, ps)
  }

  /** A text that can follow. */
  predicate Starts(text: string, f: Follow) {
    f.Free? || (text != "" && !IsSymbol(text[0]) && !IsDigit(text[0]) && (f.Loose? || text[0] != '.'))
  }

  lemma StartsEnds(s: string, j: nat, text: string, f: Follow)
    requires At(s, j, text) && Starts(text, f)
    ensures Ends(s, j, f)
  {
    if !f.Free? { assert s[j] == s[j..j + |text|][0] == text[0]; }
  }

  lemma FitsTwo(a: seq<Piece>, ta: seq<G.Term>, xa: string, fa: Follow, b: seq<Piece>, tb: seq<G.Term>, xb: string,
                fb: Follow)
    requires Fits(a, ta, xa, fa) && Fits(b, tb, xb, fb) && Starts(xb, fa)
    ensures Fits(a + b, ta + tb, xa + xb, fb)
  {
    hide Separated, PiecesOk, Terms, Text, Ends, Starts, At;
    PiecesJoin(a, b);
    forall s: string, i: nat | At(s, i, xa + xb) && Ends(s, i + |xa + xb|, fb) ensures Separated(s, i, a + b) {
      AtSplit(s, i, xa, xb);
      StartsEnds(s, i + |xa|, xb, fa);
      SeparatedJoin(s, i, a, b);
    }
  }

  lemma OnePiece(p: Piece)
    ensures Text([p]) == PieceText(p) && PiecesOk([p]) == PieceOk(p)
    ensures Terms([p]) == if p.Tok? then [LexTerm(p.lex)] else []
  {
    hide LexTerm, PieceText, PieceOk;
    assert [p][1..] == [];
  }

  lemma LexemeOk(l: Lexeme)
    requires Spelled(l)
    ensures PieceOk(Tok(l))
  {
  }

  lemma OneSeparated(s: string, i: nat, l: Lexeme)
    ensures Separated(s, i, [Tok(l)]) <==> Stops(l, s, i + |Spell(l)|)
  {
    hide Stops, Spell;
    assert [Tok(l)][1..] == [];
  }

  /** A single lexeme. */
  lemma FitsLexeme(l: Lexeme, f: Follow)
    requires Spelled(l)
    requires forall s: string, i: nat :: Ends(s, i, f) ==> Stops(l, s, i)
    ensures Fits([Tok(l)], [LexTerm(l)], Spell(l), f)
  {
    hide Stops, Spell, Spelled, Ends, LexTerm, At, Separated, PiecesOk, Terms, Text;
    OnePiece(Tok(l));
    PieceTexts(Tok(l));
    LexemeOk(l);
    forall s: string, i: nat | At(s, i, Spell(l)) && Ends(s, i + |Spell(l)|, f) ensures Separated(s, i, [Tok(l)]) {
      OneSeparated(s, i, l);
    }
  }

  lemma FitsMark(t: Tok)
    requires t.LP? || t.RP? || t.LBK? || t.RBK? || t.COMMA?
    ensures Fits([Tok(Sign(t))], [G.Sym(t)], SignText(t), Free)
  {
    hide Fits;
    assert LexTerm(Sign(t)) == G.Sym(t);
    FitsLexeme(Sign(t), Free);
  }

  lemma FitsWord(w: string)
    requires IsWord(w)
    ensures Fits([Tok(Word(w))], [LexTerm(Word(w))], w, Loose)
  {
    hide Fits, IsWord, LexTerm;
    FitsLexeme(Word(w), Loose);
  }

  lemma FitsString(w: string)
    requires Tokens.Plain(w)
    ensures Fits([Tok(Str(w))], [G.Term(STRING_VAL, w)], "\"" + w + "\"", Loose)
  {
    hide Fits, Tokens.Plain;
    FitsLexeme(Str(w), Loose);
  }

  lemma FitsInt(w: string)
    requires IsInt(w)
    ensures Fits([Tok(Lexeme.Int(w))], [G.Term(INT_VAL, w)], w, Tight)
  {
    hide Fits, IsInt;
    FitsLexeme(Lexeme.Int(w), Tight);
  }

  // ----- blanks -----

  const BLANK: Piece := Skip(Blank(' '))

  lemma FitsBlank()
    ensures Fits([BLANK], [], " ", Free)
  {
    OnePiece(BLANK);
    forall s: string, i: nat ensures Separated(s, i, [BLANK]) {
      assert [BLANK][1..] == [];
    }
  }

  lemma BlankStops(s: string, j: nat, l: Lexeme)
    requires At(s, j, " ")
    ensures Stops(l, s, j)
  {
    GapStops(s, j, Blank(' '), l);
  }

  /** An operator with a blank on either side. */
  lemma FitsSpaced(l: Lexeme)
    requires Spelled(l)
    ensures Fits([BLANK] + ([Tok(l)] + [BLANK]), [LexTerm(l)], " " + (Spell(l) + " "), Free)
  {
    hide Fits, Spelled, Spell, LexTerm;
    FitsBlank();
    FitsBeforeBlank(l);
    FitsTwo([BLANK], [], " ", Free, [Tok(l)] + [BLANK], [LexTerm(l)], Spell(l) + " ", Free);
    assert [] + [LexTerm(l)] == [LexTerm(l)];
  }

  lemma FitsBeforeBlank(l: Lexeme)
    requires Spelled(l)
    ensures Fits([Tok(l)] + [BLANK], [LexTerm(l)], Spell(l) + " ", Free)
  {
    hide Spelled, Spell, LexTerm, Stops, Separated, PiecesOk, Terms, Text, At;
    var ps := [Tok(l)] + [BLANK];
    OnePiece(Tok(l));
    PieceTexts(Tok(l));
    LexemeOk(l);
    FitsBlank();
    PiecesJoin([Tok(l)], [BLANK]);
    assert [LexTerm(l)] + [] == [LexTerm(l)];
    forall s: string, i: nat | At(s, i, Spell(l) + " ") ensures Separated(s, i, ps) {
      AtSplit(s, i, Spell(l), " ");
      BlankStops(s, i + |Spell(l)|, l);
      OneSeparated(s, i, l);
      SeparatedJoin(s, i, [Tok(l)], [BLANK]);
    }
  }

  // ----- the pieces of a printed expression -----

  function Spaced3(l: Lexeme): seq<Piece> { [BLANK] + ([Tok(l)] + [BLANK]) }

  function Bracket(o: Tok, ps: seq<Piece>, c: Tok): seq<Piece> { [Tok(Sign(o))] + (ps + [Tok(Sign(c))]) }

  function Infix(a: seq<Piece>, l: Lexeme, b: seq<Piece>): seq<Piece> { a + (Spaced3(l) + b) }

  function InfixLex(op: BinOp): Lexeme {
    match op
    case LogAnd => Word("and")
    case LogOr => Word("or")
    case _ => Sign(G.BinTok(op))
  }

  function UnaryPieces(op: UniOp, ps: seq<Piece>): seq<Piece> {
    match op
    case UniMinus => Bracket(LP, Spaced3(Sign(MINUS)) + ps, RP)
    case BitNeg => Bracket(LP, Spaced3(Sign(BITNEG)) + ps, RP)
    case LogNot => Bracket(LP, Spaced3(Word("not")) + ps, RP)
    case CastInt => [Tok(Word("int"))] + Bracket(LP, ps, RP)
    case CastBoolean => [Tok(Word("boolean"))] + Bracket(LP, ps, RP)
    case CastFloat => [Tok(Word("float"))] + Bracket(LP, ps, RP)
  }

  function Pieces(e: Expr): seq<Piece>
    decreases e
  {
    match e
    case True => [Tok(Word("true"))]
    case False => [Tok(Word("false"))]
    case IntLit(v) => [Tok(Lexeme.Int(IntText(v)))]
    case FloatLit(_) => []
    case StringLit(w) => [Tok(Str(w))]
    case Symbol(w) => [Tok(Word(w))]
    case MemberRef(b, m) => Pieces(b) + [Tok(Sign(DOT)), Tok(Word(m))]
    case ArrayRef(b, i) => Pieces(b) + Bracket(LBK, Pieces(i), RBK)
    case Unary(op, a) => UnaryPieces(op, Pieces(a))
    case Binary(op, a, b) => Bracket(LP, Infix(Pieces(a), InfixLex(op), Pieces(b)), RP)
    case Ite(a, b, c) => Bracket(LP, Infix(Pieces(a), Sign(QST), Infix(Pieces(b), Sign(COLON), Pieces(c))), RP)
    case FuncCall(f, args) => Pieces(f) + Bracket(LP, ArgPieces(args), RP)
  }

  function ArgPieces(args: seq<Expr>): seq<Piece>
    decreases args
  {
    if args == [] then []
    else if |args| == 1 then Pieces(args[0])
    else ArgPieces(args[..|args| - 1]) + ([Tok(Sign(COMMA)), BLANK] + Pieces(args[|args| - 1]))
  }

  // ----- the combinations fit -----

  lemma FitsNothing()
    ensures Fits([], [], "", Free)
  {
  }

  lemma FitsBracket(o: Tok, ps: seq<Piece>, ts: seq<G.Term>, x: string, f: Follow, c: Tok)
    requires (o.LP? && c.RP?) || (o.LBK? && c.RBK?)
    requires Fits(ps, ts, x, f)
    ensures Fits(Bracket(o, ps, c), G.Wrap(o, ts, c), SignText(o) + (x + SignText(c)), Free)
  {
    hide Fits;
    FitsMark(o);
    FitsMark(c);
    FitsTwo(ps, ts, x, f, [Tok(Sign(c))], [G.Sym(c)], SignText(c), Free);
    FitsTwo([Tok(Sign(o))], [G.Sym(o)], SignText(o), Free, ps + [Tok(Sign(c))], ts + [G.Sym(c)], x + SignText(c), Free);
    assert [G.Sym(o)] + (ts + [G.Sym(c)]) == G.Wrap(o, ts, c);
  }

  lemma FitsInfix(a: seq<Piece>, ta: seq<G.Term>, xa: string, l: Lexeme, t: Tok, b: seq<Piece>, tb: seq<G.Term>,
                  xb: string)
    requires Fits(a, ta, xa, Tight) && Fits(b, tb, xb, Tight) && Spelled(l) && LexTerm(l) == G.Sym(t)
    ensures Fits(Infix(a, l, b), G.Join(ta, t, tb), xa + ((" " + (Spell(l) + " ")) + xb), Tight)
  {
    hide Fits, Spelled, LexTerm, Spell;
    var op := " " + (Spell(l) + " ");
    FitsSpaced(l);
    FitsTwo(Spaced3(l), [LexTerm(l)], op, Free, b, tb, xb, Tight);
    assert (op + xb)[0] == ' ';
    FitsTwo(a, ta, xa, Tight, Spaced3(l) + b, [LexTerm(l)] + tb, op + xb, Tight);
  }

  lemma FitsMember(b: seq<Piece>, tb: seq<G.Term>, xb: string, m: string)
    requires Fits(b, tb, xb, Loose) && IsName(m)
    ensures Fits(b + [Tok(Sign(DOT)), Tok(Word(m))], tb + [G.Sym(DOT), G.Term(SYMBOL, m)], xb + ("." + m), Loose)
  {
    hide Fits, WordToken, IsWord;
    FitsWord(m);
    FitsPoint(m);
    var dm := [Tok(Sign(DOT))] + [Tok(Word(m))];
    assert dm == [Tok(Sign(DOT)), Tok(Word(m))];
    assert [G.Sym(DOT)] + [LexTerm(Word(m))] == [G.Sym(DOT), G.Term(SYMBOL, m)];
    FitsTwo(b, tb, xb, Loose, dm, [G.Sym(DOT), G.Term(SYMBOL, m)], "." + m, Loose);
  }

  /** A point with a name behind it. */
  lemma FitsPoint(m: string)
    requires IsWord(m)
    ensures Fits([Tok(Sign(DOT))] + [Tok(Word(m))], [G.Sym(DOT)] + [LexTerm(Word(m))], "." + m, Loose)
  {
    hide Separated, PiecesOk, Terms, Text, At, Ends, LexTerm, Stops, IsWord;
    PointTerm();
    OnePiece(Tok(Sign(DOT)));
    FitsWord(m);
    PiecesJoin([Tok(Sign(DOT))], [Tok(Word(m))]);
    forall s: string, i: nat | At(s, i, "." + m) && Ends(s, i + |"." + m|, Loose)
      ensures Separated(s, i, [Tok(Sign(DOT))] + [Tok(Word(m))])
    {
      AtSplit(s, i, ".", m);
      PointSeparated(s, i, m);
    }
  }

  lemma PointTerm()
    ensures LexTerm(Sign(DOT)) == G.Sym(DOT)
  {
  }

  lemma PointSeparated(s: string, i: nat, m: string)
    requires At(s, i + 1, m) && IsWord(m) && Separated(s, i + 1, [Tok(Word(m))])
    ensures Separated(s, i, [Tok(Sign(DOT))] + [Tok(Word(m))])
  {
    hide Separated, At, IsWord, Stops, Text;
    PointStops(s, i + 1, m);
    OneSeparated(s, i, Sign(DOT));
    OnePiece(Tok(Sign(DOT)));
    SeparatedJoin(s, i, [Tok(Sign(DOT))], [Tok(Word(m))]);
  }

  lemma PointStops(s: string, j: nat, m: string)
    requires At(s, j, m) && IsWord(m)
    ensures Stops(Sign(DOT), s, j)
  {
    assert s[j] == s[j..j + |m|][0] == m[0];
  }

  lemma FitsMoreArgs(a: seq<Piece>, ta: seq<G.Term>, xa: string, b: seq<Piece>, tb: seq<G.Term>, xb: string)
    requires Fits(a, ta, xa, Tight) && Fits(b, tb, xb, Tight)
    ensures Fits(a + ([Tok(Sign(COMMA)), BLANK] + b), G.Join(ta, COMMA, tb), xa + ((SignText(COMMA) + " ") + xb), Tight)
  {
    hide Fits;
    FitsMark(COMMA);
    FitsBlank();
    var comma := [Tok(Sign(COMMA))] + [BLANK];
    assert comma == [Tok(Sign(COMMA)), BLANK];
    FitsTwo([Tok(Sign(COMMA))], [G.Sym(COMMA)], SignText(COMMA), Free, [BLANK], [], " ", Free);
    assert [G.Sym(COMMA)] + [] == [G.Sym(COMMA)];
    FitsTwo(comma, [G.Sym(COMMA)], SignText(COMMA) + " ", Free, b, tb, xb, Tight);
    assert (SignText(COMMA) + " " + xb)[0] == ',';
    FitsTwo(a, ta, xa, Tight, comma + b, [G.Sym(COMMA)] + tb, SignText(COMMA) + " " + xb, Tight);
  }

  lemma InfixLexFits(op: BinOp)
    ensures Spelled(InfixLex(op)) && LexTerm(InfixLex(op)) == G.Sym(G.BinTok(op))
    ensures " " + (Spell(InfixLex(op)) + " ") == InfixText(op)
  {
    hide WordToken;
    if op.LogAnd? { AndWord(); }
    else if op.LogOr? { OrWord(); }
    else { SignLexFits(op); }
  }

  lemma SignLexFits(op: BinOp)
    requires !op.LogAnd? && !op.LogOr?
    ensures SignText(G.BinTok(op)) != "" && " " + (SignText(G.BinTok(op)) + " ") == InfixText(op)
    ensures LexTerm(Sign(G.BinTok(op))) == G.Sym(G.BinTok(op))
  {
  }

  /** A unary minus, bit or logical negation. */
  lemma FitsPrefix(l: Lexeme, op: G.PrefixOp, ps: seq<Piece>, t: G.Tree, x: string)
    requires Fits(ps, G.Yield(t), x, Tight) && Spelled(l) && LexTerm(l) == G.Sym(G.PrefixTok(op))
    ensures Fits(Bracket(LP, Spaced3(l) + ps, RP), G.Yield(G.ParenT(G.PrefixT(op, t))),
                 "(" + (((" " + (Spell(l) + " ")) + x) + ")"), Free)
  {
    hide Fits, Spelled, LexTerm, Spell, Bracket;
    var op' := " " + (Spell(l) + " ");
    FitsSpaced(l);
    FitsTwo(Spaced3(l), [LexTerm(l)], op', Free, ps, G.Yield(t), x, Tight);
    FitsBracket(LP, Spaced3(l) + ps, [LexTerm(l)] + G.Yield(t), op' + x, Tight, RP);
  }

  lemma FitsCast(w: string, op: G.CastOp, ps: seq<Piece>, t: G.Tree, x: string)
    requires Fits(ps, G.Yield(t), x, Tight) && IsWord(w) && WordToken(w) == G.CastTok(op)
    ensures Fits([Tok(Word(w))] + Bracket(LP, ps, RP), G.Yield(G.CastT(op, t)), w + ("(" + (x + ")")), Free)
  {
    hide Fits, IsWord, WordToken, Bracket;
    FitsWord(w);
    assert LexTerm(Word(w)) == G.Sym(G.CastTok(op));
    FitsBracket(LP, ps, G.Yield(t), x, Tight, RP);
    var b := "(" + (x + ")");
    assert b[0] == '(';
    FitsTwo([Tok(Word(w))], [LexTerm(Word(w))], w, Loose, Bracket(LP, ps, RP), G.Wrap(LP, G.Yield(t), RP), b, Free);
  }

  lemma FitsUnary(op: UniOp, ps: seq<Piece>, t: G.Tree, x: string)
    requires Fits(ps, G.Yield(t), x, Tight)
    ensures Fits(UnaryPieces(op, ps), G.Yield(CanonUnary(op, t)), PrefixText(op) + x + ")", Free)
  {
    hide Fits, WordToken, Bracket, Spaced3, G.Yield;
    NotWord(); IntWord(); BooleanWord(); FloatWord();
    PrefixTexts(x);
    match op
    case UniMinus => FitsPrefix(Sign(MINUS), G.MinusOp, ps, t, x);
    case BitNeg => FitsPrefix(Sign(BITNEG), G.NegOp, ps, t, x);
    case LogNot => FitsPrefix(Word("not"), G.NotOp, ps, t, x);
    case CastInt => FitsCast("int", G.IntCast, ps, t, x);
    case CastBoolean => FitsCast("boolean", G.BooleanCast, ps, t, x);
    case CastFloat => FitsCast("float", G.FloatCast, ps, t, x);
  }

  lemma PrefixTexts(x: string)
    ensures "(" + (((" " + ("-" + " ")) + x) + ")") == "( - " + x + ")"
    ensures "(" + (((" " + ("~" + " ")) + x) + ")") == "( ~ " + x + ")"
    ensures "(" + (((" " + ("not" + " ")) + x) + ")") == "( not " + x + ")"
    ensures "int" + ("(" + (x + ")")) == "int(" + x + ")"
    ensures "boolean" + ("(" + (x + ")")) == "boolean(" + x + ")"
    ensures "float" + ("(" + (x + ")")) == "float(" + x + ")"
  {
  }

  lemma FitsOperation(op: BinOp, a: seq<Piece>, ta: seq<G.Term>, xa: string, b: seq<Piece>, tb: seq<G.Term>, xb: string)
    requires Fits(a, ta, xa, Tight) && Fits(b, tb, xb, Tight)
    ensures Fits(Bracket(LP, Infix(a, InfixLex(op), b), RP), G.Wrap(LP, G.Join(ta, G.BinTok(op), tb), RP),
                 "(" + xa + InfixText(op) + xb + ")", Free)
  {
    hide Fits, InfixLex, InfixText, G.BinTok, Infix, Bracket, Spelled, LexTerm, Spell;
    InfixLexFits(op);
    FitsInfix(a, ta, xa, InfixLex(op), G.BinTok(op), b, tb, xb);
    var x := xa + (InfixText(op) + xb);
    FitsBracket(LP, Infix(a, InfixLex(op), b), G.Join(ta, G.BinTok(op), tb), x, Tight, RP);
    assert "(" + (x + ")") == "(" + xa + InfixText(op) + xb + ")";
  }

  lemma FitsIte(a: seq<Piece>, ta: seq<G.Term>, xa: string, b: seq<Piece>, tb: seq<G.Term>, xb: string,
                c: seq<Piece>, tc: seq<G.Term>, xc: string)
    requires Fits(a, ta, xa, Tight) && Fits(b, tb, xb, Tight) && Fits(c, tc, xc, Tight)
    ensures Fits(Bracket(LP, Infix(a, Sign(QST), Infix(b, Sign(COLON), c)), RP),
                 G.Wrap(LP, G.Join(ta, QST, G.Join(tb, COLON, tc)), RP),
                 "(" + xa + " ? " + xb + " : " + xc + ")", Free)
  {
    hide Fits, Infix, Bracket;
    var q, o := " " + ("?" + " "), " " + (":" + " ");
    var y := xb + (o + xc);
    FitsInfix(b, tb, xb, Sign(COLON), COLON, c, tc, xc);
    FitsInfix(a, ta, xa, Sign(QST), QST, Infix(b, Sign(COLON), c), G.Join(tb, COLON, tc), y);
    FitsBracket(LP, Infix(a, Sign(QST), Infix(b, Sign(COLON), c)),
                G.Join(ta, QST, G.Join(tb, COLON, tc)), xa + (q + y), Tight, RP);
    assert q == " ? " && o == " : ";
    IteText(xa, xb, xc);
  }

  lemma IteText(a: string, b: string, c: string)
    ensures "(" + ((a + (" ? " + (b + (" : " + c)))) + ")") == "(" + a + " ? " + b + " : " + c + ")"
  {
  }

  lemma FitsElement(b: seq<Piece>, tb: seq<G.Term>, xb: string, ps: seq<Piece>, ts: seq<G.Term>, x: string)
    requires Fits(b, tb, xb, Loose) && Fits(ps, ts, x, Tight)
    ensures Fits(b + Bracket(LBK, ps, RBK), tb + G.Wrap(LBK, ts, RBK), xb + "[" + x + "]", Free)
  {
    hide Fits, Bracket, G.Wrap;
    FitsBracket(LBK, ps, ts, x, Tight, RBK);
    var y := "[" + (x + "]");
    assert y[0] == '[';
    FitsTwo(b, tb, xb, Loose, Bracket(LBK, ps, RBK), G.Wrap(LBK, ts, RBK), y, Free);
    assert xb + y == xb + "[" + x + "]";
  }

  lemma FitsCall(b: seq<Piece>, tb: seq<G.Term>, xb: string, ps: seq<Piece>, ts: seq<G.Term>, x: string, f: Follow)
    requires Fits(b, tb, xb, Loose) && Fits(ps, ts, x, f)
    ensures Fits(b + Bracket(LP, ps, RP), tb + G.Wrap(LP, ts, RP), xb + "(" + x + ")", Free)
  {
    hide Fits, Bracket, G.Wrap;
    FitsBracket(LP, ps, ts, x, f, RP);
    var y := "(" + (x + ")");
    assert y[0] == '(';
    FitsTwo(b, tb, xb, Loose, Bracket(LP, ps, RP), G.Wrap(LP, ts, RP), y, Free);
    assert xb + y == xb + "(" + x + ")";
  }

  lemma FitsTighter(ps: seq<Piece>, sentence: seq<G.Term>, text: string, f: Follow, g: Follow)
    requires Fits(ps, sentence, text, f) && (f.Free? || (f.Loose? && !g.Free?))
    ensures Fits(ps, sentence, text, g)
  {
    hide Separated, PiecesOk, Terms, Text, At;
  }

  // ----- every printed expression -----

  /** The pieces of an expression make up its printed text and the sentence of its derivation. */
  ghost predicate Faithful(e: Expr, ftoa: Double -> string)
    requires Shaped(e)
  {
    Fits(Pieces(e), G.Yield(Canon(e)), Print(e, ftoa), Tight)
  }

  lemma AtomFaithful(e: Expr, ftoa: Double -> string)
    requires Printable(e) && (e.True? || e.False? || e.IntLit? || e.StringLit?)
    ensures Faithful(e, ftoa)
  {
    hide Fits, WordToken, IsInt, Tokens.Plain, Interp.Int32, IntText;
    TrueWord();
    FalseWord();
    match e
    case True => FitsWord("true"); FitsTighter(Pieces(e), [LexTerm(Word("true"))], "true", Loose, Tight);
    case False => FitsWord("false"); FitsTighter(Pieces(e), [LexTerm(Word("false"))], "false", Loose, Tight);
    case IntLit(v) => IntTextReadsBack(v); FitsInt(IntText(v));
    case StringLit(w) => FitsString(w); FitsTighter(Pieces(e), [G.Term(STRING_VAL, w)], Print(e, ftoa), Loose, Tight);
  }

  lemma UnaryFaithful(op: UniOp, a: Expr, ftoa: Double -> string)
    requires Shaped(a) && Faithful(a, ftoa)
    ensures Faithful(Unary(op, a), ftoa)
  {
    hide Fits, UnaryPieces, PrefixText, CanonUnary, G.Yield;
    FitsUnary(op, Pieces(a), Canon(a), Print(a, ftoa));
    var x := PrefixText(op) + Print(a, ftoa) + ")";
    FitsTighter(UnaryPieces(op, Pieces(a)), G.Yield(CanonUnary(op, Canon(a))), x, Free, Tight);
  }

  lemma BinaryFaithful(op: BinOp, a: Expr, b: Expr, ftoa: Double -> string)
    requires Shaped(a) && Shaped(b) && Faithful(a, ftoa) && Faithful(b, ftoa)
    ensures Faithful(Binary(op, a, b), ftoa)
  {
    hide Fits, InfixText, InfixLex, Infix, Bracket, G.Join, G.Wrap, G.BinTok;
    var ta, tb := G.Yield(Canon(a)), G.Yield(Canon(b));
    FitsOperation(op, Pieces(a), ta, Print(a, ftoa), Pieces(b), tb, Print(b, ftoa));
    var ps := Bracket(LP, Infix(Pieces(a), InfixLex(op), Pieces(b)), RP);
    var ts := G.Wrap(LP, G.Join(ta, G.BinTok(op), tb), RP);
    FitsTighter(ps, ts, "(" + Print(a, ftoa) + InfixText(op) + Print(b, ftoa) + ")", Free, Tight);
    BinaryYield(op, Canon(a), Canon(b));
  }

  lemma BinaryYield(op: BinOp, a: G.Tree, b: G.Tree)
    ensures G.Yield(G.ParenT(G.InfixT(a, G.Plain(op), b)))
            == G.Wrap(LP, G.Join(G.Yield(a), G.BinTok(op), G.Yield(b)), RP)
  {
    hide G.Join, G.Wrap, G.BinTok;
  }

  lemma IteFaithful(a: Expr, b: Expr, c: Expr, ftoa: Double -> string)
    requires Shaped(a) && Shaped(b) && Shaped(c) && Faithful(a, ftoa) && Faithful(b, ftoa) && Faithful(c, ftoa)
    ensures Faithful(Ite(a, b, c), ftoa)
  {
    hide Fits, Infix, Bracket, G.Join, G.Wrap;
    var ta, tb, tc := G.Yield(Canon(a)), G.Yield(Canon(b)), G.Yield(Canon(c));
    FitsIte(Pieces(a), ta, Print(a, ftoa), Pieces(b), tb, Print(b, ftoa), Pieces(c), tc, Print(c, ftoa));
    var ps := Bracket(LP, Infix(Pieces(a), Sign(QST), Infix(Pieces(b), Sign(COLON), Pieces(c))), RP);
    var ts := G.Wrap(LP, G.Join(ta, QST, G.Join(tb, COLON, tc)), RP);
    FitsTighter(ps, ts, "(" + Print(a, ftoa) + " ? " + Print(b, ftoa) + " : " + Print(c, ftoa) + ")", Free, Tight);
    IteYield(Canon(a), Canon(b), Canon(c));
  }

  lemma IteYield(a: G.Tree, b: G.Tree, c: G.Tree)
    ensures G.Yield(G.ParenT(G.IteT(a, b, c)))
            == G.Wrap(LP, G.Join(G.Yield(a), QST, G.Join(G.Yield(b), COLON, G.Yield(c))), RP)
  {
    hide G.Join, G.Wrap;
  }

  lemma {:induction false} Prints(e: Expr, ftoa: Double -> string)
    requires Shaped(e) && Printable(e)
    ensures Faithful(e, ftoa)
    decreases e, 1
  {
    hide Faithful, IsName, Interp.Int32, Tokens.Plain;
    match e
    case Symbol(_) => PrimaryTight(e, ftoa);
    case MemberRef(_, _) => PrimaryTight(e, ftoa);
    case ArrayRef(_, _) => PrimaryTight(e, ftoa);
    case Unary(op, a) => Prints(a, ftoa); UnaryFaithful(op, a, ftoa);
    case Binary(op, a, b) => Prints(a, ftoa); Prints(b, ftoa); BinaryFaithful(op, a, b, ftoa);
    case Ite(a, b, c) => Prints(a, ftoa); Prints(b, ftoa); Prints(c, ftoa); IteFaithful(a, b, c, ftoa);
    case FuncCall(f, args) => PrintsPrimary(f, ftoa); var g := PrintsArgs(args, ftoa); CallFaithful(f, args, ftoa, g);
    case _ => AtomFaithful(e, ftoa);
  }

  lemma CallFaithful(f: Expr, args: seq<Expr>, ftoa: Double -> string, g: Follow)
    requires Shaped(f) && IsPrimary(f) && forall k :: 0 <= k < |args| ==> Shaped(args[k])
    requires Fits(Pieces(f), G.PrimYield(CanonPrim(f)), Print(f, ftoa), Loose)
    requires Fits(ArgPieces(args), G.ArgsYield(CanonArgs(args)), PrintArgs(args, ftoa), g)
    ensures Faithful(Expr.FuncCall(f, args), ftoa)
  {
    hide Fits, Bracket, G.Wrap, ArgPieces, CanonArgs, PrintArgs, CanonPrim, G.ArgsYield, G.PrimYield;
    var tp, ta := G.PrimYield(CanonPrim(f)), G.ArgsYield(CanonArgs(args));
    FitsCall(Pieces(f), tp, Print(f, ftoa), ArgPieces(args), ta, PrintArgs(args, ftoa), g);
    var e := Expr.FuncCall(f, args);
    assert G.Yield(Canon(e)) == tp + G.Wrap(LP, ta, RP);
    FitsTighter(Pieces(e), tp + G.Wrap(LP, ta, RP), Print(e, ftoa), Free, Tight);
  }

  lemma PrimaryTight(e: Expr, ftoa: Double -> string)
    requires Shaped(e) && Printable(e) && IsPrimary(e)
    ensures Faithful(e, ftoa)
    decreases e, 0, 1
  {
    hide Fits, CanonPrim, G.PrimYield;
    PrintsPrimary(e, ftoa);
    FitsTighter(Pieces(e), G.PrimYield(CanonPrim(e)), Print(e, ftoa), Loose, Tight);
  }

  lemma {:induction false} PrintsPrimary(e: Expr, ftoa: Double -> string)
    requires Shaped(e) && Printable(e) && IsPrimary(e)
    ensures Fits(Pieces(e), G.PrimYield(CanonPrim(e)), Print(e, ftoa), Loose)
    decreases e, 0, 0
  {
    hide Fits, WordToken, IsWord, Canon, G.Yield;
    match e
    case Symbol(w) => SymbolPrints(w, ftoa);
    case MemberRef(b, m) =>
      PrintsPrimary(b, ftoa);
      MemberPrints(b, m, ftoa);
    case ArrayRef(b, i) =>
      PrintsPrimary(b, ftoa);
      Prints(i, ftoa);
      ElementPrints(b, i, ftoa);
  }

  lemma SymbolPrints(w: string, ftoa: Double -> string)
    requires IsName(w)
    ensures Fits(Pieces(Symbol(w)), G.PrimYield(CanonPrim(Symbol(w))), Print(Symbol(w), ftoa), Loose)
  {
    hide Fits, WordToken, IsWord;
    FitsWord(w);
  }

  lemma MemberPrints(b: Expr, m: string, ftoa: Double -> string)
    requires Shaped(b) && IsPrimary(b) && IsName(m)
    requires Fits(Pieces(b), G.PrimYield(CanonPrim(b)), Print(b, ftoa), Loose)
    ensures var e := MemberRef(b, m); Fits(Pieces(e), G.PrimYield(CanonPrim(e)), Print(e, ftoa), Loose)
  {
    hide Fits, IsName;
    FitsMember(Pieces(b), G.PrimYield(CanonPrim(b)), Print(b, ftoa), m);
    assert Print(b, ftoa) + ("." + m) == Print(MemberRef(b, m), ftoa);
  }

  lemma ElementPrints(b: Expr, i: Expr, ftoa: Double -> string)
    requires Shaped(b) && IsPrimary(b) && Shaped(i) && Faithful(i, ftoa)
    requires Fits(Pieces(b), G.PrimYield(CanonPrim(b)), Print(b, ftoa), Loose)
    ensures var e := Expr.ArrayRef(b, i); Fits(Pieces(e), G.PrimYield(CanonPrim(e)), Print(e, ftoa), Loose)
  {
    hide Fits, Bracket, G.Wrap, Canon, G.Yield;
    var tb, ti := G.PrimYield(CanonPrim(b)), G.Yield(Canon(i));
    FitsElement(Pieces(b), tb, Print(b, ftoa), Pieces(i), ti, Print(i, ftoa));
    FitsTighter(Pieces(b) + Bracket(LBK, Pieces(i), RBK), tb + G.Wrap(LBK, ti, RBK),
                Print(b, ftoa) + "[" + Print(i, ftoa) + "]", Free, Loose);
  }

  lemma {:induction false} PrintsArgs(args: seq<Expr>, ftoa: Double -> string) returns (f: Follow)
    requires forall k :: 0 <= k < |args| ==> Shaped(args[k]) && Printable(args[k])
    ensures Fits(ArgPieces(args), G.ArgsYield(CanonArgs(args)), PrintArgs(args, ftoa), f)
    ensures args != [] ==> f == Tight
    decreases args, 0
  {
    hide Fits, Shaped, Printable, Pieces, Canon, Print;
    if args == [] {
      FitsNothing();
      f := Free;
    } else if |args| == 1 {
      Prints(args[0], ftoa);
      f := Tight;
    } else {
      var front, last := args[..|args| - 1], args[|args| - 1];
      f := PrintsArgs(front, ftoa);
      Prints(last, ftoa);
      FitsMoreArgs(ArgPieces(front), G.ArgsYield(CanonArgs(front)), PrintArgs(front, ftoa), Pieces(last),
                   G.Yield(Canon(last)), Print(last, ftoa));
      assert PrintArgs(front, ftoa) + ((SignText(COMMA) + " ") + Print(last, ftoa)) == PrintArgs(args, ftoa);
    }
  }
}
