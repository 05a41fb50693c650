/** Spelling tokens and reading them back. */
module Tokens {
  import opened RsrvWordDic
  import opened Scanner

  /** `w` stands at position `i`. */
  predicate At(s: string, i: nat, w: string) { i + |w| <= |s| && s[i..i + |w|] == w }

  lemma AtSplit(s: string, i: nat, v: string, w: string)
    requires At(s, i, v + w)
    ensures At(s, i, v) && At(s, i + |v|, w)
  {
    assert v == (v + w)[..|v|] && w == (v + w)[|v|..];
  }

  // ----- lexemes -----

  datatype Lexeme =
    | Sign(sign: Tok)
    | Word(word: string)
    | Int(digits: string)
    | Real(whole: string, fraction: string, exponent: string)
    | Str(body: string)

  /** The spelling of an operator or punctuation mark; empty for every other token. */
  function SignText(t: Tok): string {
    match t
    case COLON => ":" case SEMI => ";" case COMMA => "," case DOT => "." case QST => "?"
    case PLUSPLUS => "++" case MINUSMINUS => "--" case EQ => "="
    case EQPLUS => "+=" case EQMINUS => "-=" case EQMULT => "*=" case EQDIV => "/=" case EQMOD => "%="
    case EQLSHIFT => "<<=" case EQRSHIFT => ">>=" case EQBITAND => "&=" case EQBITOR => "|=" case EQBITXOR => "^="
    case LP => "(" case RP => ")" case LCB => "{" case RCB => "}" case LBK => "[" case RBK => "]"
    case PLUS => "+" case MINUS => "-" case MULT => "*" case DIV => "/" case MOD => "%"
    case BITNEG => "~" case BITAND => "&" case BITOR => "|" case BITXOR => "^" case LSHIFT => "<<" case RSHIFT => ">>"
    case EQEQ => "==" case NOTEQ => "!=" case LT => "<" case GT => ">" case LE => "<=" case GE => ">="
    case _ => ""
  }

  predicate AllDigits(w: string) { forall k :: 0 <= k < |w| ==> IsDigit(w[k]) }

  predicate IsWord(w: string) {
    w != "" && IsSymbol(w[0]) && forall k :: 0 <= k < |w| ==> IsSymbol(w[k]) || IsDigit(w[k])
  }

  predicate IsInt(w: string) {
    var d := if w != "" && w[0] == '-' then w[1..] else w;
    d != "" && AllDigits(d)
  }

  predicate IsExponent(w: string) {
    w == "" || (|w| >= 2 && (w[0] == 'e' || w[0] == 'E') && (IsDigit(w[1]) || w[1] == '+' || w[1] == '-')
      && AllDigits(w[2..]))
  }

  /** A string body the scanner gives back unchanged: no bare quote or newline, and every backslash is
      followed by a character other than a newline. */
  predicate Plain(w: string) {
    if w == "" then true
    else if w[0] == '\\' then |w| >= 2 && w[1] != '\n' && Plain(w[2..])
    else w[0] != '\"' && w[0] != '\n' && Plain(w[1..])
  }

  predicate Spelled(l: Lexeme) {
    match l
    case Sign(t) => SignText(t) != ""
    case Word(w) => IsWord(w)
    case Int(w) => IsInt(w)
    case Real(w, f, e) => IsInt(w) && f != "" && AllDigits(f) && IsExponent(e)
    case Str(w) => Plain(w)
  }

  function Spell(l: Lexeme): string {
    match l
    case Sign(t) => SignText(t)
    case Word(w) => w
    case Int(w) => w
    case Real(w, f, e) => w + "." + f + e
    case Str(w) => "\"" + w + "\""
  }

  /** What the scanner is to return for a lexeme that ends at `j`. */
  function Read(l: Lexeme, j: nat): Scan {
    match l
    case Sign(t) => Scan(t, if t == DOT then "." else "", j)
    case Word(w) => Scan(WordToken(w), w, j)
    case Int(w) => Scan(INT_VAL, w, j)
    case Real(_, _, _) => Scan(FLOAT_VAL, Spell(l), j)
    case Str(w) => Scan(STRING_VAL, w, j)
  }

  /** The text at `j` does not continue the lexeme in front of it. */
  predicate Stops(l: Lexeme, s: string, j: nat) {
    match l
    case Sign(t) => SignStops(t, s, j)
    case Word(_) => !NextWord(s, j)
    case Int(_) => !NextDigit(s, j) && !Next(s, j, '.')
    case Real(_, _, e) => !NextDigit(s, j) && (e == "" ==> !Next(s, j, 'e') && !Next(s, j, 'E'))
    case Str(_) => true
  }

  predicate SignStops(t: Tok, s: string, j: nat) {
    if t == DOT then !NextDigit(s, j)
    else if t == PLUS then !Next(s, j, '=') && !Next(s, j, '+')
    else if t == MINUS then !Next(s, j, '=') && !Next(s, j, '-') && !NextDigit(s, j)
    else if t == DIV then !Next(s, j, '=') && !Next(s, j, '/') && !Next(s, j, '*')
    else if t == LT then !Next(s, j, '=') && !Next(s, j, '<')
    else if t == GT then !Next(s, j, '=') && !Next(s, j, '>')
    else Assignable(t) || t.LSHIFT? || t.RSHIFT? ==> !Next(s, j, '=')
  }

  // ----- runs of the machine -----

  /** The machine only moves forward. */
  lemma {:induction false} RunAdvances(st: St, s: string, i: nat, cur: string)
    ensures Run(st, s, i, cur).next >= i
    decreases |s| - i
  {
    hide Operator, WordToken;
    var m := Step(st, s, i, cur);
    if m.Goto? { RunAdvances(m.st, s, m.i, m.cur); }
    else { ReturnAdvances(st, s, i, cur); }
  }

  lemma ReturnAdvances(st: St, s: string, i: nat, cur: string)
    requires Step(st, s, i, cur).Return?
    ensures Step(st, s, i, cur).scan.next >= i
  {
    hide WordToken;
  }

  /** The states that collect characters, and what they collect. */
  predicate Collects(st: St, c: char) {
    match st
    case Num1 => IsDigit(c)
    case Num2 => IsDigit(c)
    case Num4 => IsDigit(c)
    case Id => IsSymbol(c) || IsDigit(c)
    case _ => false
  }

  lemma RunCollectsOne(st: St, s: string, i: nat, cur: string)
    requires i < |s| && Collects(st, s[i])
    ensures Run(st, s, i, cur) == Run(st, s, i + 1, cur + [s[i]])
  {
    hide FromInit, WordToken;
  }

  lemma {:induction false} RunCollects(st: St, s: string, i: nat, w: string, cur: string)
    requires At(s, i, w) && forall k :: 0 <= k < |w| ==> Collects(st, w[k])
    ensures Run(st, s, i, cur) == Run(st, s, i + |w|, cur + w)
    decreases |w|
  {
    hide Run, Collects;
    if w == "" {
      assert cur + w == cur;
    } else {
      assert s[i] == s[i..i + |w|][0] == w[0];
      RunCollectsOne(st, s, i, cur);
      assert s[i + 1..i + 1 + |w[1..]|] == w[1..];
      RunCollects(st, s, i + 1, w[1..], cur + [w[0]]);
      assert cur + [w[0]] + w[1..] == cur + w;
    }
  }

  // ----- reading one lexeme: it comes back exactly when what follows does not continue it -----

  lemma WordStart(s: string, i: nat, c: char)
    requires At(s, i, [c]) && IsSymbol(c)
    ensures Token(s, i) == Run(Id, s, i + 1, [c])
  {
    hide Operator, WordToken;
    assert s[i] == s[i..i + 1][0];
    assert "" + [c] == [c];
  }

  lemma WordEnd(s: string, j: nat, w: string)
    ensures Run(Id, s, j, w) == Scan(WordToken(w), w, j) <==> !NextWord(s, j)
  {
    hide FromInit, WordToken;
    if NextWord(s, j) { RunAdvances(Id, s, j + 1, w + [s[j]]); }
  }

  lemma WordReads(s: string, i: nat, w: string)
    requires At(s, i, w) && IsWord(w)
    ensures Token(s, i) == Read(Word(w), i + |w|) <==> Stops(Word(w), s, i + |w|)
  {
    hide WordToken, Run, Token;
    assert [w[0]] + w[1..] == w;
    AtSplit(s, i, [w[0]], w[1..]);
    WordStart(s, i, w[0]);
    RunCollects(Id, s, i + 1, w[1..], [w[0]]);
    WordEnd(s, i + |w|, w);
  }

  /** The characters of an integer that come with the first transition. */
  function HeadLength(w: string): nat { if w != "" && w[0] == '-' then 2 else 1 }

  lemma IntStart(s: string, i: nat, w: string)
    requires At(s, i, w) && IsInt(w)
    ensures HeadLength(w) <= |w| && Token(s, i) == Run(Num1, s, i + HeadLength(w), w[..HeadLength(w)])
  {
    hide Operator, WordToken;
    assert s[i] == s[i..i + |w|][0] == w[0];
    if w[0] == '-' {
      assert s[i + 1] == s[i..i + |w|][1] == w[1] == w[1..][0];
      assert "" + "-" + [w[1]] == w[..2];
    } else {
      assert "" + [w[0]] == w[..1];
    }
  }

  lemma IntTail(w: string)
    requires IsInt(w)
    ensures HeadLength(w) <= |w| && w == w[..HeadLength(w)] + w[HeadLength(w)..]
    ensures forall k :: 0 <= k < |w[HeadLength(w)..]| ==> Collects(Num1, w[HeadLength(w)..][k])
  {
    var n := HeadLength(w);
    var d := if w[0] == '-' then w[1..] else w;
    forall k | 0 <= k < |w[n..]| ensures Collects(Num1, w[n..][k]) {
      assert w[n..][k] == d[k + 1];
    }
  }

  lemma IntPrefix(s: string, i: nat, w: string)
    requires At(s, i, w) && IsInt(w)
    ensures Token(s, i) == Run(Num1, s, i + |w|, w)
  {
    hide Run, Token, Collects, IsInt, HeadLength;
    var n := HeadLength(w);
    IntStart(s, i, w);
    IntTail(w);
    AtSplit(s, i, w[..n], w[n..]);
    hide At;
    RunCollects(Num1, s, i + n, w[n..], w[..n]);
  }

  lemma IntReads(s: string, i: nat, w: string)
    requires At(s, i, w) && IsInt(w)
    ensures Token(s, i) == Read(Int(w), i + |w|) <==> Stops(Int(w), s, i + |w|)
  {
    IntPrefix(s, i, w);
    var j := i + |w|;
    if NextDigit(s, j) { RunAdvances(Num1, s, j + 1, w + [s[j]]); }
    else if Next(s, j, '.') { RunAdvances(NumDot, s, j + 1, w + "."); }
  }

  lemma PointAndDigit(s: string, j: nat, w: string, d: char)
    requires At(s, j, ".") && At(s, j + 1, [d]) && IsDigit(d)
    ensures Run(Num1, s, j, w) == Run(Num2, s, j + 2, w + "." + [d])
  {
    hide FromInit, WordToken;
    assert s[j] == s[j..j + 1][0] && s[j + 1] == s[j + 1..j + 2][0];
  }

  lemma TakeFirst(w: string, f: string)
    requires f != ""
    ensures f == [f[0]] + f[1..] && w + [f[0]] + f[1..] == w + f
  {
  }

  /** The digits behind the point. */
  lemma FractionRuns(s: string, j: nat, w: string, f: string)
    requires At(s, j, ".") && At(s, j + 1, f) && f != "" && AllDigits(f)
    ensures Run(Num1, s, j, w) == Run(Num2, s, j + 1 + |f|, w + "." + f)
  {
    hide Run;
    TakeFirst(w + ".", f);
    AtSplit(s, j + 1, [f[0]], f[1..]);
    PointAndDigit(s, j, w, f[0]);
    RunCollects(Num2, s, j + 2, f[1..], w + "." + [f[0]]);
  }

  lemma RealSplit(s: string, i: nat, w: string, f: string, e: string)
    requires At(s, i, w + "." + f + e)
    ensures At(s, i, w) && At(s, i + |w|, ".") && At(s, i + |w| + 1, f) && At(s, i + |w| + 1 + |f|, e)
  {
    AtSplit(s, i, w + "." + f, e);
    AtSplit(s, i, w + ".", f);
    AtSplit(s, i, w, ".");
  }

  lemma RealReads(s: string, i: nat, w: string, f: string, e: string)
    requires At(s, i, w + "." + f + e) && Spelled(Real(w, f, e))
    ensures var j := i + |w + "." + f + e|; Token(s, i) == Read(Real(w, f, e), j) <==> Stops(Real(w, f, e), s, j)
  {
    hide Run, Token, AllDigits, IsInt, IsExponent;
    RealSplit(s, i, w, f, e);
    IntPrefix(s, i, w);
    FractionRuns(s, i + |w|, w, f);
    ExponentReads(s, i + |w| + 1 + |f|, w + "." + f, e);
  }

  lemma ExponentReads(s: string, j: nat, m: string, e: string)
    requires At(s, j, e) && IsExponent(e)
    ensures Run(Num2, s, j, m) == Scan(FLOAT_VAL, m + e, j + |e|)
       <==> (!NextDigit(s, j + |e|) && (e == "" ==> !Next(s, j, 'e') && !Next(s, j, 'E')))
  {
    hide FromInit, WordToken;
    var k := j + |e|;
    if e == "" {
      assert m + e == m;
      if NextDigit(s, j) { RunAdvances(Num2, s, j + 1, m + [s[j]]); }
      else if Next(s, j, 'e') || Next(s, j, 'E') { RunAdvances(Num3, s, j + 1, m + [s[j]]); }
    } else {
      ExponentRuns(s, j, m, e);
      if NextDigit(s, k) { RunAdvances(Num4, s, k + 1, m + e + [s[k]]); }
    }
  }

  lemma TakeTwo(m: string, e: string)
    requires |e| >= 2
    ensures e == [e[0]] + ([e[1]] + e[2..]) && m + [e[0]] + [e[1]] + e[2..] == m + e
  {
  }

  lemma ExponentStarts(s: string, j: nat, m: string, a: char, b: char)
    requires At(s, j, [a]) && At(s, j + 1, [b])
    requires (a == 'e' || a == 'E') && (IsDigit(b) || b == '+' || b == '-')
    ensures Run(Num2, s, j, m) == Run(Num4, s, j + 2, m + [a] + [b])
  {
    hide FromInit, WordToken;
    assert s[j] == s[j..j + 1][0] && s[j + 1] == s[j + 1..j + 2][0];
  }

  lemma ExponentRuns(s: string, j: nat, m: string, e: string)
    requires At(s, j, e) && e != "" && IsExponent(e)
    ensures Run(Num2, s, j, m) == Run(Num4, s, j + |e|, m + e)
  {
    hide Run;
    TakeTwo(m, e);
    AtSplit(s, j, [e[0]], [e[1]] + e[2..]);
    AtSplit(s, j + 1, [e[1]], e[2..]);
    ExponentStarts(s, j, m, e[0], e[1]);
    RunCollects(Num4, s, j + 2, e[2..], m + [e[0]] + [e[1]]);
  }

  // ----- string literals -----

  /** The text of a string token only grows, and at least one more character is consumed. */
  lemma {:induction false} StringGrows(s: string, i: nat, cur: string)
    ensures cur <= Run(Dq, s, i, cur).text
    ensures Run(Dq, s, i, cur).tok == STRING_VAL ==> Run(Dq, s, i, cur).next > i
    decreases |s| - i
  {
    var m := Step(Dq, s, i, cur);
    if m.Goto? { StringGrows(s, m.i, m.cur); }
  }

  /** Scanning a quoted body gives the body back exactly when it is plain. */
  lemma {:induction false} StringReads(s: string, i: nat, w: string, cur: string)
    requires At(s, i, w + "\"")
    ensures Run(Dq, s, i, cur) == Scan(STRING_VAL, cur + w, i + |w| + 1) <==> Plain(w)
    decreases |w|
  {
    assert s[i] == s[i..i + |w| + 1][0] == (w + "\"")[0];
    if w == "" {
      assert cur + w == cur;
    } else if w[0] == '\\' {
      assert s[i + 1] == s[i..i + |w| + 1][1] == (w + "\"")[1];
      StringEscape(s, i, w, cur);
    } else if w[0] != '\"' && w[0] != '\n' {
      assert (w + "\"")[1..] == w[1..] + "\"";
      assert s[i + 1..i + |w| + 1] == s[i..i + |w| + 1][1..];
      StringReads(s, i + 1, w[1..], cur + [w[0]]);
      assert cur + [w[0]] + w[1..] == cur + w;
    }
  }

  lemma {:induction false} StringEscape(s: string, i: nat, w: string, cur: string)
    requires At(s, i, w + "\"") && w != "" && w[0] == s[i] == '\\' && s[i + 1] == (w + "\"")[1]
    ensures Run(Dq, s, i, cur) == Scan(STRING_VAL, cur + w, i + |w| + 1) <==> Plain(w)
    decreases |w|, 0
  {
    var c := s[i + 1];
    if c == '\n' {
      StringGrows(s, i + 2, cur + "\n");
      assert (cur + w)[|cur|] == '\\' && (cur + "\n")[|cur|] == '\n';
    } else if |w| == 1 {
      StringGrows(s, i + 2, cur + ['\\', c]);
    } else {
      assert (w + "\"")[2..] == w[2..] + "\"";
      assert s[i + 2..i + |w| + 1] == s[i..i + |w| + 1][2..];
      StringReads(s, i + 2, w[2..], cur + ['\\', c]);
      assert cur + ['\\', c] + w[2..] == cur + w;
    }
  }

  // ----- operators and punctuation -----

  lemma SignStarts(s: string, i: nat, t: Tok)
    requires At(s, i, SignText(t)) && SignText(t) != ""
    ensures s[i] == SignText(t)[0]
    ensures |SignText(t)| >= 2 ==> s[i + 1] == SignText(t)[1]
    ensures |SignText(t)| >= 3 ==> s[i + 2] == SignText(t)[2]
  {
    hide SignText;
    var w := SignText(t);
    assert s[i] == s[i..i + |w|][0];
    if |w| >= 2 { assert s[i + 1] == s[i..i + |w|][1]; }
    if |w| >= 3 { assert s[i + 2] == s[i..i + |w|][2]; }
  }

  /** Comments and negative numbers are tried before operators. */
  predicate StartsOther(s: string, i: nat) {
    || (Next(s, i, '/') && (Next(s, i + 1, '/') || Next(s, i + 1, '*')))
    || (Next(s, i, '-') && NextDigit(s, i + 1))
    || (Next(s, i, '.') && NextDigit(s, i + 1))
  }

  predicate IsMark(c: char) {
    !IsSymbol(c) && !IsDigit(c) && c != '.' && !IsSpace(c) && c != '\"' && c != '\\'
  }

  predicate Punctuation(t: Tok) {
    || t.COLON? || t.SEMI? || t.COMMA? || t.QST? || t.BITNEG?
    || t.LP? || t.RP? || t.LCB? || t.RCB? || t.LBK? || t.RBK?
  }

  predicate Assignable(t: Tok) { t.MULT? || t.MOD? || t.BITAND? || t.BITOR? || t.BITXOR? || t.EQ? }

  predicate Repeatable(t: Tok) { t.PLUS? || t.MINUS? || t.DIV? || t.LT? || t.GT? }

  predicate Assigning(t: Tok) {
    || t.EQPLUS? || t.EQMINUS? || t.EQMULT? || t.EQDIV?
    || t.EQMOD? || t.EQBITAND? || t.EQBITOR? || t.EQBITXOR?
  }

  predicate Doubled(t: Tok) {
    || t.PLUSPLUS? || t.MINUSMINUS? || t.LSHIFT? || t.RSHIFT?
    || t.EQEQ? || t.NOTEQ? || t.LE? || t.GE?
  }

  lemma SignKinds(t: Tok)
    requires SignText(t) != "" && t != DOT
    ensures Punctuation(t) || Assignable(t) || Repeatable(t) || Assigning(t) || Doubled(t) || t == EQLSHIFT
            || t == EQRSHIFT
  {
  }

  lemma FromMark(s: string, i: nat)
    requires i < |s| && IsMark(s[i]) && !StartsOther(s, i)
    ensures Token(s, i) == var o := Operator(s[i], s, i + 1); Scan(o.tok, "", o.next)
  {
    hide Operator;
  }

  lemma OtherAdvances(s: string, i: nat)
    requires StartsOther(s, i)
    ensures Token(s, i).next >= i + 2
  {
    hide Operator, WordToken;
    var m := Step(Init, s, i, "");
    assert m.Goto? && m.i == i + 2;
    RunAdvances(m.st, s, m.i, m.cur);
  }

  // The operators by kind.

  lemma PunctuationStarts(s: string, i: nat, t: Tok)
    requires Punctuation(t) && i < |s| && s[i] == SignText(t)[0]
    ensures IsMark(s[i]) && !StartsOther(s, i) && |SignText(t)| == 1
  {
  }

  lemma PunctuationFound(s: string, i: nat, t: Tok)
    requires Punctuation(t) && |SignText(t)| == 1
    ensures Operator(SignText(t)[0], s, i) == OpOut(t, i)
  {
  }

  lemma PunctuationStops(s: string, i: nat, t: Tok)
    requires Punctuation(t)
    ensures SignStops(t, s, i)
  {
  }

  lemma PunctuationReads(s: string, i: nat, t: Tok)
    requires Punctuation(t) && SignText(t) != "" && i < |s| && s[i] == SignText(t)[0]
    ensures IsMark(s[i]) && !StartsOther(s, i)
    ensures |SignText(t)| == 1 && Operator(s[i], s, i + 1) == OpOut(t, i + 1) && SignStops(t, s, i + 1)
  {
    hide SignText, Operator, SignStops, StartsOther, IsMark, Punctuation;
    PunctuationStarts(s, i, t);
    PunctuationFound(s, i + 1, t);
    PunctuationStops(s, i + 1, t);
  }

  lemma AssignableReads(s: string, i: nat, t: Tok)
    requires Assignable(t) && i < |s| && s[i] == SignText(t)[0]
    ensures IsMark(s[i]) && !StartsOther(s, i)
    ensures |SignText(t)| == 1 && (Operator(s[i], s, i + 1) == OpOut(t, i + 1) <==> SignStops(t, s, i + 1))
  {
  }

  lemma RepeatableReads(s: string, i: nat, t: Tok)
    requires Repeatable(t) && i < |s| && s[i] == SignText(t)[0]
    ensures IsMark(s[i]) && (StartsOther(s, i) ==> !SignStops(t, s, i + 1))
    ensures |SignText(t)| == 1
    ensures !StartsOther(s, i) ==> (Operator(s[i], s, i + 1) == OpOut(t, i + 1) <==> SignStops(t, s, i + 1))
  {
  }

  lemma AssigningStarts(s: string, i: nat, t: Tok)
    requires Assigning(t) && i + 1 < |s| && s[i] == SignText(t)[0]
    ensures |SignText(t)| == 2 && IsMark(s[i]) && (s[i + 1] == SignText(t)[1] ==> !StartsOther(s, i))
  {
  }

  lemma AssigningFound(s: string, i: nat, t: Tok)
    requires Assigning(t) && i + 1 < |s| && |SignText(t)| == 2 && s[i] == SignText(t)[0] && s[i + 1] == SignText(t)[1]
    ensures Operator(s[i], s, i + 1) == OpOut(t, i + 2)
  {
  }

  lemma AssigningStops(s: string, i: nat, t: Tok)
    requires Assigning(t)
    ensures SignStops(t, s, i)
  {
  }

  lemma AssigningReads(s: string, i: nat, t: Tok)
    requires Assigning(t) && |SignText(t)| == 2 && i + 1 < |s| && s[i] == SignText(t)[0] && s[i + 1] == SignText(t)[1]
    ensures IsMark(s[i]) && !StartsOther(s, i)
    ensures |SignText(t)| == 2 && Operator(s[i], s, i + 1) == OpOut(t, i + 2) && SignStops(t, s, i + 2)
  {
    hide SignText, Operator, SignStops, StartsOther, IsMark, Assigning;
    AssigningStarts(s, i, t);
    AssigningFound(s, i, t);
    AssigningStops(s, i + 2, t);
  }

  lemma DoubledStarts(s: string, i: nat, t: Tok)
    requires Doubled(t) && i + 1 < |s| && s[i] == SignText(t)[0]
    ensures |SignText(t)| == 2 && IsMark(s[i]) && (s[i + 1] == SignText(t)[1] ==> !StartsOther(s, i))
  {
  }

  lemma DoubledFound(s: string, i: nat, t: Tok)
    requires Doubled(t) && i + 1 < |s| && |SignText(t)| == 2 && s[i] == SignText(t)[0] && s[i + 1] == SignText(t)[1]
    ensures Operator(s[i], s, i + 1) == OpOut(t, i + 2) <==> SignStops(t, s, i + 2)
  {
  }

  lemma DoubledReads(s: string, i: nat, t: Tok)
    requires Doubled(t) && |SignText(t)| == 2 && i + 1 < |s| && s[i] == SignText(t)[0] && s[i + 1] == SignText(t)[1]
    ensures IsMark(s[i]) && !StartsOther(s, i)
    ensures |SignText(t)| == 2 && (Operator(s[i], s, i + 1) == OpOut(t, i + 2) <==> SignStops(t, s, i + 2))
  {
    hide SignText, Operator, SignStops, StartsOther, IsMark, Doubled;
    DoubledStarts(s, i, t);
    DoubledFound(s, i, t);
  }

  lemma ShiftsRead(s: string, i: nat, t: Tok)
    requires (t == EQLSHIFT || t == EQRSHIFT) && i + 2 < |s|
    requires s[i] == SignText(t)[0] && s[i + 1] == SignText(t)[1] && s[i + 2] == SignText(t)[2]
    ensures IsMark(s[i]) && !StartsOther(s, i)
    ensures |SignText(t)| == 3 && Operator(s[i], s, i + 1) == OpOut(t, i + 3) && SignStops(t, s, i + 3)
  {
  }

  lemma AssigningLength(t: Tok)
    requires Assigning(t)
    ensures |SignText(t)| == 2
  {
  }

  lemma DoubledLength(t: Tok)
    requires Doubled(t)
    ensures |SignText(t)| == 2
  {
  }

  lemma ShiftLength(t: Tok)
    requires t == EQLSHIFT || t == EQRSHIFT
    ensures |SignText(t)| == 3
  {
  }

  lemma OperatorReads(s: string, i: nat, t: Tok)
    requires At(s, i, SignText(t)) && SignText(t) != "" && t != DOT
    ensures IsMark(s[i])
    ensures StartsOther(s, i) ==> |SignText(t)| == 1 && !SignStops(t, s, i + 1)
    ensures var j := i + |SignText(t)|;
      !StartsOther(s, i) ==> (Operator(s[i], s, i + 1) == OpOut(t, j) <==> SignStops(t, s, j))
  {
    hide Operator, SignStops, SignText, StartsOther, IsMark;
    SignStarts(s, i, t);
    SignKinds(t);
    if Punctuation(t) { PunctuationReads(s, i, t); }
    else if Assignable(t) { AssignableReads(s, i, t); }
    else if Repeatable(t) { RepeatableReads(s, i, t); }
    else if Assigning(t) { AssigningLength(t); AssigningReads(s, i, t); }
    else if Doubled(t) { DoubledLength(t); DoubledReads(s, i, t); }
    else { ShiftLength(t); ShiftsRead(s, i, t); }
  }

  lemma DotReads(s: string, i: nat)
    requires i < |s| && s[i] == '.'
    ensures Token(s, i) == Scan(DOT, ".", i + 1) <==> !NextDigit(s, i + 1)
  {
    hide Operator, WordToken;
    if NextDigit(s, i + 1) { OtherAdvances(s, i); }
  }

  lemma DotSign(s: string, j: nat)
    ensures SignText(DOT) == "." && (SignStops(DOT, s, j) <==> !NextDigit(s, j))
  {
  }

  lemma SignReads(s: string, i: nat, t: Tok)
    requires At(s, i, SignText(t)) && SignText(t) != ""
    ensures var j := i + |SignText(t)|; Token(s, i) == Read(Sign(t), j) <==> SignStops(t, s, j)
  {
    hide Token, Operator, SignText, StartsOther, SignStops, IsMark;
    SignStarts(s, i, t);
    if t == DOT {
      DotSign(s, i + 1);
      DotReads(s, i);
    } else {
      OperatorReads(s, i, t);
      if StartsOther(s, i) { OtherAdvances(s, i); } else { FromMark(s, i); }
    }
  }

  lemma SignLexeme(s: string, i: nat, l: Lexeme)
    requires l.Sign? && At(s, i, Spell(l)) && Spelled(l)
    ensures Token(s, i) == Read(l, i + |Spell(l)|) <==> Stops(l, s, i + |Spell(l)|)
  {
    hide Token, At, SignText, SignStops, WordToken, IsWord, IsInt, IsExponent, AllDigits;
    SignReads(s, i, l.sign);
  }

  lemma WordLexeme(s: string, i: nat, l: Lexeme)
    requires l.Word? && At(s, i, Spell(l)) && Spelled(l)
    ensures Token(s, i) == Read(l, i + |Spell(l)|) <==> Stops(l, s, i + |Spell(l)|)
  {
    hide Token, At, SignText, SignStops, WordToken, IsWord, IsInt, IsExponent, AllDigits;
    WordReads(s, i, l.word);
  }

  lemma IntLexeme(s: string, i: nat, l: Lexeme)
    requires l.Int? && At(s, i, Spell(l)) && Spelled(l)
    ensures Token(s, i) == Read(l, i + |Spell(l)|) <==> Stops(l, s, i + |Spell(l)|)
  {
    hide Token, At, SignText, SignStops, WordToken, IsWord, IsInt, IsExponent, AllDigits;
    IntReads(s, i, l.digits);
  }

  lemma RealLexeme(s: string, i: nat, l: Lexeme)
    requires l.Real? && At(s, i, Spell(l)) && Spelled(l)
    ensures Token(s, i) == Read(l, i + |Spell(l)|) <==> Stops(l, s, i + |Spell(l)|)
  {
    hide Token, At, SignText, SignStops, WordToken, IsWord, IsInt, IsExponent, AllDigits;
    RealReads(s, i, l.whole, l.fraction, l.exponent);
  }

  lemma StrLexeme(s: string, i: nat, l: Lexeme)
    requires l.Str? && At(s, i, Spell(l)) && Spelled(l)
    ensures Token(s, i) == Read(l, i + |Spell(l)|) <==> Stops(l, s, i + |Spell(l)|)
  {
    hide Token, At, SignText, SignStops, WordToken, IsWord, IsInt, IsExponent, AllDigits;
    LiteralReads(s, i, l.body);
  }

  /** A lexeme is read back, at its own place, exactly when what follows does not continue it. */
  lemma LexemeReads(s: string, i: nat, l: Lexeme)
    requires At(s, i, Spell(l)) && Spelled(l)
    ensures Token(s, i) == Read(l, i + |Spell(l)|) <==> Stops(l, s, i + |Spell(l)|)
  {
    hide Token, At, Spell, Spelled, Read, Stops;
    match l
    case Sign(_) => SignLexeme(s, i, l);
    case Word(_) => WordLexeme(s, i, l);
    case Int(_) => IntLexeme(s, i, l);
    case Real(_, _, _) => RealLexeme(s, i, l);
    case Str(_) => StrLexeme(s, i, l);
  }

  /** A quoted body is read back exactly when it is plain. */
  lemma LiteralReads(s: string, i: nat, w: string)
    requires At(s, i, "\"" + w + "\"")
    ensures Token(s, i) == Scan(STRING_VAL, w, i + |w| + 2) <==> Plain(w)
  {
    hide Token, Run;
    assert "\"" + w + "\"" == "\"" + (w + "\"");
    AtSplit(s, i, "\"", w + "\"");
    QuoteStarts(s, i);
    StringReads(s, i + 1, w, "");
    assert "" + w == w;
  }

  lemma QuoteStarts(s: string, i: nat)
    requires At(s, i, "\"")
    ensures Token(s, i) == Run(Dq, s, i + 1, "")
  {
    hide Operator, WordToken;
    assert s[i] == s[i..i + 1][0];
  }

  // ----- gaps -----

  /** What may stand between tokens: a blank, a line comment with its newline, a closed block comment. */
  datatype Gap = Blank(c: char) | Line(text: string) | Block(text: string)

  predicate GapOk(g: Gap) {
    match g
    case Blank(c) => IsSpace(c)
    case Line(w) => '\n' !in w
    case Block(w) => forall k :: 0 <= k < |w| - 1 ==> !(w[k] == '*' && w[k + 1] == '/')
  }

  function GapText(g: Gap): string {
    match g
    case Blank(c) => [c]
    case Line(w) => "//" + (w + "\n")
    case Block(w) => "/*" + (w + "*/")
  }

  lemma {:induction false} LineSkips(s: string, i: nat, w: string)
    requires At(s, i, w + "\n") && '\n' !in w
    ensures Run(Comment2, s, i, "") == Token(s, i + |w| + 1)
    decreases |w|
  {
    hide FromInit, WordToken;
    assert s[i] == s[i..i + |w| + 1][0];
    if w != "" {
      assert (w + "\n")[1..] == w[1..] + "\n";
      assert s[i + 1..i + |w| + 1] == s[i..i + |w| + 1][1..];
      LineSkips(s, i + 1, w[1..]);
    }
  }

  /** The two states of a block comment; `star` is the state behind an asterisk. */
  lemma {:induction false} BlockSkips(s: string, i: nat, w: string, star: bool)
    requires At(s, i, w + "*/") && GapOk(Block(w)) && (star && w != "" ==> w[0] != '/')
    ensures Run(if star then Comment4 else Comment3, s, i, "") == Token(s, i + |w| + 2)
    decreases |w|
  {
    hide FromInit, WordToken;
    assert s[i] == s[i..i + |w| + 2][0];
    if w == "" {
      assert s[i + 1] == s[i..i + |w| + 2][1];
    } else {
      assert (w + "*/")[1..] == w[1..] + "*/";
      assert s[i + 1..i + |w| + 2] == s[i..i + |w| + 2][1..];
      BlockSkips(s, i + 1, w[1..], w[0] == '*');
    }
  }

  lemma CommentStarts(s: string, i: nat, c: char)
    requires At(s, i, ['/', c]) && c in {'/', '*'}
    ensures Token(s, i) == Run(if c == '/' then Comment2 else Comment3, s, i + 2, "")
  {
    hide Operator, WordToken;
    assert s[i] == s[i..i + 2][0] && s[i + 1] == s[i..i + 2][1];
  }

  lemma BlankSkips(s: string, i: nat, c: char)
    requires At(s, i, [c]) && IsSpace(c)
    ensures Token(s, i) == Token(s, i + 1)
  {
    hide Operator, WordToken;
    assert s[i] == s[i..i + 1][0];
  }

  /** The scanner looks through a gap. */
  lemma GapSkips(s: string, i: nat, g: Gap)
    requires At(s, i, GapText(g)) && GapOk(g)
    ensures Token(s, i) == Token(s, i + |GapText(g)|)
  {
    hide Token, Run;
    match g
    case Blank(c) => BlankSkips(s, i, c);
    case Line(w) =>
      AtSplit(s, i, "//", w + "\n");
      CommentStarts(s, i, '/');
      LineSkips(s, i + 2, w);
    case Block(w) =>
      AtSplit(s, i, "/*", w + "*/");
      CommentStarts(s, i, '*');
      BlockSkips(s, i + 2, w, false);
  }

  /** A gap ends every lexeme, except that a comment does not end a division sign. */
  lemma GapStops(s: string, j: nat, g: Gap, l: Lexeme)
    requires At(s, j, GapText(g)) && GapOk(g)
    ensures Stops(l, s, j) <==> !(l == Sign(DIV) && !g.Blank?)
  {
    assert s[j] == s[j..j + |GapText(g)|][0] == GapText(g)[0];
    if !g.Blank? { assert s[j + 1] == s[j..j + |GapText(g)|][1] == GapText(g)[1]; }
  }

  // ----- whole texts -----

  datatype Piece = Tok(lex: Lexeme) | Skip(gap: Gap)

  predicate PieceOk(p: Piece) {
    match p
    case Tok(l) => Spelled(l)
    case Skip(g) => GapOk(g)
  }

  predicate PiecesOk(ps: seq<Piece>) { ps == [] || (PieceOk(ps[0]) && PiecesOk(ps[1..])) }

  function PieceText(p: Piece): string {
    match p
    case Tok(l) => Spell(l)
    case Skip(g) => GapText(g)
  }

  function Text(ps: seq<Piece>): string {
    if ps == [] then "" else PieceText(ps[0]) + Text(ps[1..])
  }

  function Count(ps: seq<Piece>): nat {
    if ps == [] then 0 else (if ps[0].Tok? then 1 else 0) + Count(ps[1..])
  }

  /** The tokens of a text that stands at `i`, each with its text and the position behind it. */
  function Expected(i: nat, ps: seq<Piece>): seq<Scan>
    decreases |ps|
  {
    if ps == [] then []
    else
      var j := i + |PieceText(ps[0])|;
      (if ps[0].Tok? then [Read(ps[0].lex, j)] else []) + Expected(j, ps[1..])
  }

  /** Nothing that follows a lexeme continues it. */
  predicate Separated(s: string, i: nat, ps: seq<Piece>)
    decreases |ps|
  {
    ps == [] ||
    var j := i + |PieceText(ps[0])|;
    (ps[0].Tok? ==> Stops(ps[0].lex, s, j)) && Separated(s, j, ps[1..])
  }

  /** `n` calls of the scanner. */
  function Scans(s: string, i: nat, n: nat): seq<Scan>
    decreases n
  {
    if n == 0 then [] else var t := Token(s, i); [t] + Scans(s, t.next, n - 1)
  }

  /** Scanning on from `p`, which sees the same token as `i`, gives the tokens of the rest of the text and
      then the end of the input, exactly when they are separated. */
  lemma {:induction false} RestReadsBack(s: string, p: nat, i: nat, ps: seq<Piece>)
    requires PiecesOk(ps)
    requires At(s, i, Text(ps)) && i + |Text(ps)| == |s| && Token(s, p) == Token(s, i)
    ensures Scans(s, p, Count(ps) + 1) == Expected(i, ps) + [Scan(EOF, "", |s|)] <==> Separated(s, i, ps)
    decreases |ps|
  {
    hide Token, Stops, Spelled, GapOk, GapText, Spell, Read, Scans, Expected, At, PieceText;
    ExpectedFirst(i, ps);
    if ps == [] {
      AtEnd(s);
      assert i == |s|;
      OneMore(s, p, 0, Scan(EOF, "", |s|), [], []);
      NoMore(s);
    } else {
      var j := i + |PieceText(ps[0])|;
      AtSplit(s, i, PieceText(ps[0]), Text(ps[1..]));
      PieceTexts(ps[0]);
      if ps[0].Skip? {
        GapSkips(s, i, ps[0].gap);
        RestReadsBack(s, p, j, ps[1..]);
      } else {
        LexemeReads(s, i, ps[0].lex);
        RestReadsBack(s, j, j, ps[1..]);
        ReadEnds(ps[0].lex, j);
        OneMore(s, p, Count(ps[1..]) + 1, Read(ps[0].lex, j), Expected(j, ps[1..]), [Scan(EOF, "", |s|)]);
      }
    }
  }

  lemma PieceTexts(p: Piece)
    ensures p.Tok? ==> PieceText(p) == Spell(p.lex)
    ensures p.Skip? ==> PieceText(p) == GapText(p.gap)
  {
  }

  lemma ExpectedFirst(i: nat, ps: seq<Piece>)
    ensures ps == [] ==> Expected(i, ps) == []
    ensures ps != [] && ps[0].Skip? ==> Expected(i, ps) == Expected(i + |PieceText(ps[0])|, ps[1..])
    ensures ps != [] && ps[0].Tok? ==>
      (var j := i + |PieceText(ps[0])|; Expected(i, ps) == [Read(ps[0].lex, j)] + Expected(j, ps[1..]))
  {
    hide Read, PieceText;
  }

  lemma ReadEnds(l: Lexeme, j: nat)
    ensures Read(l, j).next == j
  {
  }

  lemma NoMore(s: string)
    ensures Scans(s, |s|, 0) == []
    ensures [Scan(EOF, "", |s|)] + [] + [] == [] + [Scan(EOF, "", |s|)]
  {
  }

  /** One call returns `t` and the rest `ts` exactly when all of them return `t` and `ts`. */
  lemma OneMore(s: string, p: nat, n: nat, t: Scan, ts: seq<Scan>, end: seq<Scan>)
    ensures Scans(s, p, n + 1) == [t] + ts + end <==> Token(s, p) == t && Scans(s, t.next, n) == ts + end
  {
    hide Token;
    var all := Scans(s, p, n + 1);
    assert all[0] == Token(s, p) && all[1..] == Scans(s, Token(s, p).next, n);
    assert [t] + ts + end == [t] + (ts + end);
    assert ([t] + (ts + end))[1..] == ts + end;
  }

  lemma AtEnd(s: string)
    ensures Token(s, |s|) == Scan(EOF, "", |s|)
  {
  }

  /** Scanning a text made of well-formed lexemes and gaps gives back those lexemes, with their texts and
      at their places, and then the end of the input, exactly when nothing continues a lexeme. */
  lemma TokensReadBack(ps: seq<Piece>)
    requires PiecesOk(ps)
    ensures Scans(Text(ps), 0, Count(ps) + 1) == Expected(0, ps) + [Scan(EOF, "", |Text(ps)|)]
       <==> Separated(Text(ps), 0, ps)
  {
    RestReadsBack(Text(ps), 0, 0, ps);
  }

  /** Every lexeme has a gap behind it. */
  predicate Spaced(ps: seq<Piece>) {
    ps == [] || ((ps[0].Tok? ==> |ps| > 1 && ps[1].Skip?) && Spaced(ps[1..]))
  }

  /** No comment stands directly behind a division sign. */
  predicate NoDivComment(ps: seq<Piece>) {
    ps == [] || (!(ps[0] == Tok(Sign(DIV)) && |ps| > 1 && ps[1].Skip? && !ps[1].gap.Blank?) && NoDivComment(ps[1..]))
  }

  lemma {:induction false} SpacedSeparated(s: string, i: nat, ps: seq<Piece>)
    requires PiecesOk(ps)
    requires At(s, i, Text(ps)) && Spaced(ps)
    ensures Separated(s, i, ps) <==> NoDivComment(ps)
    decreases |ps|
  {
    hide Stops, Spelled, GapOk, GapText, Spell;
    if ps != [] {
      var j := i + |PieceText(ps[0])|;
      AtSplit(s, i, PieceText(ps[0]), Text(ps[1..]));
      SpacedSeparated(s, j, ps[1..]);
      if ps[0].Tok? {
        assert ps[1..][0] == ps[1];
        AtSplit(s, j, PieceText(ps[1]), Text(ps[1..][1..]));
        GapStops(s, j, ps[1].gap, ps[0].lex);
      }
    }
  }

  /** With a gap behind every lexeme, the tokens are read back exactly when no comment directly follows a
      division sign: `a //*b*/c` is not a quotient. */
  lemma SpacedTokensReadBack(ps: seq<Piece>)
    requires PiecesOk(ps)
    requires Spaced(ps)
    ensures Scans(Text(ps), 0, Count(ps) + 1) == Expected(0, ps) + [Scan(EOF, "", |Text(ps)|)]
       <==> NoDivComment(ps)
  {
    TokensReadBack(ps);
    SpacedSeparated(Text(ps), 0, ps);
  }
}
