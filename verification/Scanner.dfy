/** The scanner: its state machine as a function of the input, and as the loop it is. */
module Scanner {
  import opened RsrvWordDic

  predicate IsDigit(c: char) { '0' <= c <= '9' }

  predicate IsSymbol(c: char) { 'a' <= c <= 'z' || 'A' <= c <= 'Z' || c == '_' }

  predicate IsSpace(c: char) { c == ' ' || c == '\t' || c == '\n' }

  /** The next character is `c`. */
  predicate Next(s: string, i: nat, c: char) { i < |s| && s[i] == c }

  predicate NextDigit(s: string, i: nat) { i < |s| && IsDigit(s[i]) }

  predicate NextWord(s: string, i: nat) { i < |s| && (IsSymbol(s[i]) || IsDigit(s[i])) }

  // ----- operators -----

  datatype OpOut = OpOut(tok: Tok, next: nat)

  /** Operators and punctuation, with as many characters as belong to them; `i` is behind the first. */
  function Operator(c: char, s: string, i: nat): OpOut {
    if c == ':' then OpOut(COLON, i)
    else if c == ';' then OpOut(SEMI, i)
    else if c == ',' then OpOut(COMMA, i)
    else if c == '?' then OpOut(QST, i)
    else if c == '~' then OpOut(BITNEG, i)
    else if c == '(' then OpOut(LP, i)
    else if c == ')' then OpOut(RP, i)
    else if c == '{' then OpOut(LCB, i)
    else if c == '}' then OpOut(RCB, i)
    else if c == '[' then OpOut(LBK, i)
    else if c == ']' then OpOut(RBK, i)
    else if c == '+' then
      if Next(s, i, '=') then OpOut(EQPLUS, i + 1)
      else if Next(s, i, '+') then OpOut(PLUSPLUS, i + 1) else OpOut(PLUS, i)
    else if c == '-' then
      if Next(s, i, '=') then OpOut(EQMINUS, i + 1)
      else if Next(s, i, '-') then OpOut(MINUSMINUS, i + 1) else OpOut(MINUS, i)
    else if c == '*' then OrAssign(s, i, MULT, EQMULT)
    else if c == '%' then OrAssign(s, i, MOD, EQMOD)
    else if c == '!' then OrAssign(s, i, ERROR, NOTEQ)
    else if c == '&' then OrAssign(s, i, BITAND, EQBITAND)
    else if c == '|' then OrAssign(s, i, BITOR, EQBITOR)
    else if c == '^' then OrAssign(s, i, BITXOR, EQBITXOR)
    else if c == '=' then OrAssign(s, i, EQ, EQEQ)
    else if c == '/' then OrAssign(s, i, DIV, EQDIV)
    else if c == '<' then
      if Next(s, i, '=') then OpOut(LE, i + 1)
      else if Next(s, i, '<') then OrAssign(s, i + 1, LSHIFT, EQLSHIFT) else OpOut(LT, i)
    else if c == '>' then
      if Next(s, i, '=') then OpOut(GE, i + 1)
      else if Next(s, i, '>') then OrAssign(s, i + 1, RSHIFT, EQRSHIFT) else OpOut(GT, i)
    else OpOut(ERROR, i)
  }

  function OrAssign(s: string, i: nat, plain: Tok, assign: Tok): OpOut {
    if Next(s, i, '=') then OpOut(assign, i + 1) else OpOut(plain, i)
  }

  // ----- the state machine -----

  datatype St = Init | Num1 | NumDot | Num2 | Num3 | Num4 | Id | Dq | Comment2 | Comment3 | Comment4

  /** A token, its text, and the position behind it. */
  datatype Scan = Scan(tok: Tok, text: string, next: nat)

  /** What the machine does next: move on, or return a token. */
  datatype Move = Goto(st: St, i: nat, cur: string) | Return(scan: Scan)

  /** One transition. `cur` is the text collected so far. */
  function Step(st: St, s: string, i: nat, cur: string): (m: Move)
    ensures m.Goto? ==> i < m.i <= |s|
  {
    match st
    case Init => if i >= |s| then Return(Scan(EOF, cur, i)) else FromInit(s, i, cur)
    case Num1 =>
      if NextDigit(s, i) then Goto(Num1, i + 1, cur + [s[i]])
      else if Next(s, i, '.') then Goto(NumDot, i + 1, cur + ".")
      else Return(Scan(INT_VAL, cur, i))
    case NumDot => if NextDigit(s, i) then Goto(Num2, i + 1, cur + [s[i]]) else Return(Scan(ERROR, cur, i))
    case Num2 =>
      if NextDigit(s, i) then Goto(Num2, i + 1, cur + [s[i]])
      else if Next(s, i, 'e') || Next(s, i, 'E') then Goto(Num3, i + 1, cur + [s[i]])
      else Return(Scan(FLOAT_VAL, cur, i))
    case Num3 =>
      if NextDigit(s, i) || Next(s, i, '+') || Next(s, i, '-') then Goto(Num4, i + 1, cur + [s[i]])
      else Return(Scan(ERROR, cur, i))
    case Num4 => if NextDigit(s, i) then Goto(Num4, i + 1, cur + [s[i]]) else Return(Scan(FLOAT_VAL, cur, i))
    case Id => if NextWord(s, i) then Goto(Id, i + 1, cur + [s[i]]) else Return(Scan(WordToken(cur), cur, i))
    case Dq =>
      if i >= |s| then Return(Scan(ERROR, cur, i)) else InString(s, i, cur)
    case Comment2 =>
      if i >= |s| then Return(Scan(EOF, cur, i))
      else Goto(if s[i] == '\n' then Init else Comment2, i + 1, cur)
    case Comment3 =>
      if i >= |s| then Return(Scan(ERROR, cur, i))
      else Goto(if s[i] == '*' then Comment4 else Comment3, i + 1, cur)
    case Comment4 =>
      if i >= |s| then Return(Scan(ERROR, cur, i))
      else Goto(if s[i] == '/' then Init else if s[i] == '*' then Comment4 else Comment3, i + 1, cur)
  }

  /** A character of a string literal. A backslash keeps itself and the next character, except that a
      backslash before a newline is dropped. */
  function InString(s: string, i: nat, cur: string): (m: Move)
    requires i < |s|
    ensures m.Goto? ==> i < m.i <= |s|
  {
    var c := s[i];
    if c == '\"' then Return(Scan(STRING_VAL, cur, i + 1))
    else if c == '\n' then Return(Scan(ERROR, cur, i + 1))
    else if c != '\\' then Goto(Dq, i + 1, cur + [c])
    else if i + 1 >= |s| then Return(Scan(ERROR, cur + "\\", i + 1))
    else if s[i + 1] == '\n' then Goto(Dq, i + 2, cur + "\n")
    else Goto(Dq, i + 2, cur + ['\\', s[i + 1]])
  }

  /** The first character of a token, or something to skip. A backslash outside a string is ignored,
      with a newline behind it. */
  function FromInit(s: string, i: nat, cur: string): (m: Move)
    requires i < |s|
    ensures m.Goto? ==> i < m.i <= |s|
  {
    var c := s[i];
    if IsSymbol(c) then Goto(Id, i + 1, cur + [c])
    else if IsDigit(c) then Goto(Num1, i + 1, cur + [c])
    else if c == '.' then
      if NextDigit(s, i + 1) then Goto(Num2, i + 2, cur + "." + "." + [s[i + 1]])
      else Return(Scan(DOT, cur + ".", i + 1))
    else if IsSpace(c) then Goto(Init, i + 1, cur)
    else if c == '\"' then Goto(Dq, i + 1, cur)
    else if c == '\\' then Goto(Init, if Next(s, i + 1, '\n') then i + 2 else i + 1, cur)
    else if c == '/' && Next(s, i + 1, '/') then Goto(Comment2, i + 2, cur)
    else if c == '/' && Next(s, i + 1, '*') then Goto(Comment3, i + 2, cur)
    else if c == '-' && NextDigit(s, i + 1) then Goto(Num1, i + 2, cur + "-" + [s[i + 1]])
    else var o := Operator(c, s, i + 1); Return(Scan(o.tok, cur, o.next))
  }

  /** Run the machine to the end of the token. */
  function Run(st: St, s: string, i: nat, cur: string): Scan
    decreases |s| - i
  {
    match Step(st, s, i, cur)
    case Return(scan) => scan
    case Goto(st', i', cur') => Run(st', s, i', cur')
  }

  /** The next token from position `i`. */
  function Token(s: string, i: nat): Scan { Run(Init, s, i, "") }

  // ----- the scanner object -----

  class YmslScanner {
    const input: string
    var pos: nat
    var curString: string
    var ungetToken: Tok

    constructor (input: string)
      ensures this.input == input && pos == 0 && curString == "" && ungetToken == DUMMY
    {
      this.input, pos, curString, ungetToken := input, 0, "", DUMMY;
    }

    /** Scan one token. */
    method ScanToken() returns (tok: Tok)
      modifies this`pos, this`curString
      ensures Scan(tok, curString, pos) == Token(input, old(pos))
    {
      curString := "";
      var st := Init;
      while true
        invariant Run(st, input, pos, curString) == Token(input, old(pos))
        decreases |input| - pos
      {
        match Step(st, input, pos, curString)
        case Return(scan) =>
          pos, curString := scan.next, scan.text;
          return scan.tok;
        case Goto(st', i', cur') =>
          st, pos, curString := st', i', cur';
      }
    }

    /** A token that was put back comes first. */
    method ReadToken() returns (tok: Tok)
      modifies this
      ensures if old(ungetToken) != DUMMY then tok == old(ungetToken) && pos == old(pos) && curString == old(curString)
              else Scan(tok, curString, pos) == Token(input, old(pos))
      ensures ungetToken == DUMMY
    {
      if ungetToken != DUMMY {
        tok := ungetToken;
        ungetToken := DUMMY;
        return;
      }
      tok := ScanToken();
    }

    method UngetToken(tok: Tok)
      requires ungetToken == DUMMY
      modifies this`ungetToken
      ensures ungetToken == tok
    {
      ungetToken := tok;
    }
  }
}
