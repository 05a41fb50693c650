/** Token types and the reserved-word dictionary: one array of cells threaded by two chained tables. */
module RsrvWordDic {
  import opened Common

  datatype Tok =
    | COLON | SEMI | COMMA | DOT | QST | PLUSPLUS | MINUSMINUS
    | EQ | EQPLUS | EQMINUS | EQMULT | EQDIV | EQMOD | EQLSHIFT | EQRSHIFT | EQBITAND | EQBITOR | EQBITXOR
    | LP | RP | LCB | RCB | LBK | RBK
    | PLUS | MINUS | MULT | DIV | MOD | LOGNOT | LOGAND | LOGOR
    | BITNEG | BITAND | BITOR | BITXOR | LSHIFT | RSHIFT | EQEQ | NOTEQ | LT | GT | LE | GE
    | ARRAY | AS | BOOLEAN | BREAK | CASE | CONST | CONTINUE | DEFAULT | DO | ELIF | ELSE | ENUM | FALSE | FLOAT
    | FOR | FUNCTION | GOTO | IF | IMPORT | INT | MAP | RETURN | SET | STRING | SWITCH | TRUE | VAR | VOID | WHILE
    | INT_VAL | FLOAT_VAL | STRING_VAL | SYMBOL | DUMMY | ERROR | EOF

  // The spellings, in the order of the table.

  function Marks(): seq<(string, Tok)> {
    [(":", COLON), (";", SEMI), (",", COMMA), (".", DOT), ("?", QST), ("++", PLUSPLUS), ("--", MINUSMINUS),
     ("=", EQ), ("+=", EQPLUS), ("-=", EQMINUS), ("*=", EQMULT), ("/=", EQDIV), ("%=", EQMOD), ("<<=", EQLSHIFT),
     (">>=", EQRSHIFT), ("&=", EQBITAND), ("|=", EQBITOR), ("^=", EQBITXOR), ("(", LP), (")", RP), ("{", LCB),
     ("}", RCB), ("[", LBK), ("]", RBK)]
  }

  function Operators(): seq<(string, Tok)> {
    [("+", PLUS), ("-", MINUS), ("*", MULT), ("/", DIV), ("%", MOD), ("not", LOGNOT), ("and", LOGAND),
     ("or", LOGOR), ("~", BITNEG), ("&", BITAND), ("|", BITOR), ("^", BITXOR), ("<<", LSHIFT), (">>", RSHIFT),
     ("==", EQEQ), ("!=", NOTEQ), ("<", LT), (">", GT), ("<=", LE), (">=", GE)]
  }

  function Keywords1(): seq<(string, Tok)> {
    [("array", ARRAY), ("as", AS), ("boolean", BOOLEAN), ("break", BREAK), ("case", CASE), ("const", CONST),
     ("continue", CONTINUE), ("default", DEFAULT), ("do", DO), ("elif", ELIF), ("else", ELSE), ("enum", ENUM),
     ("false", FALSE), ("float", FLOAT)]
  }

  function Keywords2(): seq<(string, Tok)> {
    [("for", FOR), ("function", FUNCTION), ("goto", GOTO), ("if", IF), ("import", IMPORT), ("int", INT),
     ("map", MAP), ("return", RETURN), ("set", SET), ("string", STRING), ("switch", SWITCH), ("true", TRUE),
     ("var", VAR), ("void", VOID), ("while", WHILE)]
  }

  function Internals(): seq<(string, Tok)> {
    [("_int_", INT_VAL), ("_dummy_", DUMMY), ("_error_", ERROR), ("_float_", FLOAT_VAL), ("_string_", STRING_VAL),
     ("_symbol_", SYMBOL)]
  }

  function InitData(): seq<(string, Tok)> { Marks() + Operators() + Keywords1() + Keywords2() + Internals() }

  /** The token of a spelling, searching the table from its end; SYMBOL if there is none. */
  function LookUp(w: string, data: seq<(string, Tok)>): Tok {
    if data == [] then SYMBOL
    else var last := data[|data| - 1]; if last.0 == w then last.1 else LookUp(w, data[..|data| - 1])
  }

  /** The spelling of a token, searching the table from its end. */
  function Spelling(t: Tok, data: seq<(string, Tok)>): Option<string> {
    if data == [] then None
    else var last := data[|data| - 1]; if last.1 == t then Some(last.0) else Spelling(t, data[..|data| - 1])
  }

  /** The token of a word: a reserved word's own, or SYMBOL. */
  function WordToken(w: string): Tok { LookUp(w, InitData()) }

  // ----- the words that occur in expressions -----

  ghost predicate Absent(w: string, data: seq<(string, Tok)>, m: nat)
    requires m <= |data|
  {
    forall j :: m <= j < |data| ==> data[j].0 != w
  }

  /** A word that is entry `k` of a section of the table and of no later entry has that entry's token. */
  lemma FoundIn(w: string, front: seq<(string, Tok)>, section: seq<(string, Tok)>, back: seq<(string, Tok)>, k: nat)
    requires k < |section| && section[k].0 == w
    requires Absent(w, section, k + 1) && Absent(w, back, 0)
    ensures LookUp(w, front + section + back) == section[k].1
  {
    var data := front + section + back;
    assert data[|front| + k] == section[k];
    LookUpSkips(w, data, |front| + k + 1, |data|);
    LookUpLast(w, data, |front| + k);
    assert data[..|data|] == data;
  }

  lemma OperatorWord(w: string, k: nat)
    requires k < |Operators()| && Operators()[k].0 == w && Absent(w, Operators(), k + 1)
    requires Absent(w, Keywords1(), 0) && Absent(w, Keywords2(), 0) && Absent(w, Internals(), 0)
    ensures WordToken(w) == Operators()[k].1
  {
    hide Marks, Operators, Keywords1, Keywords2, Internals, LookUp;
    FoundIn(w, Marks(), Operators(), Keywords1() + Keywords2() + Internals(), k);
    assert Marks() + Operators() + (Keywords1() + Keywords2() + Internals()) == InitData();
  }

  lemma Keyword1(w: string, k: nat)
    requires k < |Keywords1()| && Keywords1()[k].0 == w && Absent(w, Keywords1(), k + 1)
    requires Absent(w, Keywords2(), 0) && Absent(w, Internals(), 0)
    ensures WordToken(w) == Keywords1()[k].1
  {
    hide Marks, Operators, Keywords1, Keywords2, Internals, LookUp;
    FoundIn(w, Marks() + Operators(), Keywords1(), Keywords2() + Internals(), k);
    assert Marks() + Operators() + Keywords1() + (Keywords2() + Internals()) == InitData();
  }

  lemma Keyword2(w: string, k: nat)
    requires k < |Keywords2()| && Keywords2()[k].0 == w && Absent(w, Keywords2(), k + 1)
    requires Absent(w, Internals(), 0)
    ensures WordToken(w) == Keywords2()[k].1
  {
    hide Marks, Operators, Keywords1, Keywords2, Internals, LookUp;
    FoundIn(w, Marks() + Operators() + Keywords1(), Keywords2(), Internals(), k);
  }

  lemma NotWord()
    ensures WordToken("not") == LOGNOT
  {
    hide LookUp;
    OperatorWord("not", 5);
  }

  lemma AndWord()
    ensures WordToken("and") == LOGAND
  {
    hide LookUp;
    OperatorWord("and", 6);
  }

  lemma OrWord()
    ensures WordToken("or") == LOGOR
  {
    hide LookUp;
    OperatorWord("or", 7);
  }

  lemma BooleanWord()
    ensures WordToken("boolean") == BOOLEAN
  {
    hide LookUp;
    Keyword1("boolean", 2);
  }

  lemma FalseWord()
    ensures WordToken("false") == FALSE
  {
    hide LookUp;
    Keyword1("false", 12);
  }

  lemma FloatWord()
    ensures WordToken("float") == FLOAT
  {
    hide LookUp;
    Keyword1("float", 13);
  }

  lemma IntWord()
    ensures WordToken("int") == INT
  {
    hide LookUp;
    Keyword2("int", 5);
  }

  lemma TrueWord()
    ensures WordToken("true") == TRUE
  {
    hide LookUp;
    Keyword2("true", 11);
  }

  /** The string hash, in 32-bit unsigned arithmetic. */
  function HashFunc1(w: string): (h: nat)
    ensures h < 0x1_0000_0000
  {
    if w == "" then 0 else (HashFunc1(w[..|w| - 1]) * 37 + w[|w| - 1] as int) % 0x1_0000_0000
  }

  function Bucket(h: nat, size: nat): (b: nat)
    requires size > 0
    ensures b < size
  {
    h % size
  }

  /** The last of the first `n` cells that falls into bucket `b`, or -1. */
  function Last(keys: seq<int>, n: nat, b: nat): (k: int)
    requires n <= |keys|
    ensures -1 <= k < n
    ensures k >= 0 ==> keys[k] == b
    ensures forall j :: k < j < n ==> keys[j] != b
  {
    if n == 0 then -1 else if keys[n - 1] == b then n - 1 else Last(keys, n - 1, b)
  }

  lemma LookUpLast(w: string, data: seq<(string, Tok)>, k: nat)
    requires k < |data|
    ensures LookUp(w, data[..k + 1]) == if data[k].0 == w then data[k].1 else LookUp(w, data[..k])
  {
    assert data[..k + 1][..k] == data[..k];
  }

  lemma SpellingLast(t: Tok, data: seq<(string, Tok)>, k: nat)
    requires k < |data|
    ensures Spelling(t, data[..k + 1]) == if data[k].1 == t then Some(data[k].0) else Spelling(t, data[..k])
  {
    assert data[..k + 1][..k] == data[..k];
  }

  lemma LookUpNone(w: string, data: seq<(string, Tok)>)
    ensures LookUp(w, data[..0]) == SYMBOL
  {
  }

  lemma SpellingNone(t: Tok, data: seq<(string, Tok)>)
    ensures Spelling(t, data[..0]) == None
  {
  }

  lemma TableNotEmpty()
    ensures |InitData()| > 0
  {
  }

  /** Entries that spell something else can be skipped. */
  lemma {:induction false} LookUpSkips(w: string, data: seq<(string, Tok)>, m: nat, n: nat)
    requires m <= n <= |data|
    requires forall j :: m <= j < n ==> data[j].0 != w
    ensures LookUp(w, data[..n]) == LookUp(w, data[..m])
  {
    if m < n {
      LookUpLast(w, data, n - 1);
      LookUpSkips(w, data, m, n - 1);
    }
  }

  lemma {:induction false} SpellingSkips(t: Tok, data: seq<(string, Tok)>, m: nat, n: nat)
    requires m <= n <= |data|
    requires forall j :: m <= j < n ==> data[j].1 != t
    ensures Spelling(t, data[..n]) == Spelling(t, data[..m])
  {
    if m < n {
      SpellingLast(t, data, n - 1);
      SpellingSkips(t, data, m, n - 1);
    }
  }

  /** The cell before cell `i` in its bucket. */
  function Prev(keys: seq<int>, i: nat): (k: int)
    requires i < |keys|
    ensures -1 <= k < i
  {
    Last(keys, i, Max0(keys[i]))
  }

  function Max0(b: int): nat { if b < 0 then 0 else b }

  /** The bucket numbers of the cells in the two tables, for a given numbering of the tokens. */
  function Keys1(data: seq<(string, Tok)>, size: nat): (keys: seq<int>)
    requires size > 0
    ensures |keys| == |data| && forall i :: 0 <= i < |data| ==> keys[i] == Bucket(HashFunc1(data[i].0), size)
  {
    seq(|data|, i requires 0 <= i < |data| => Bucket(HashFunc1(data[i].0), size))
  }

  function Keys2(data: seq<(string, Tok)>, number: Tok -> nat, size: nat): (keys: seq<int>)
    requires size > 0
    ensures |keys| == |data| && forall i :: 0 <= i < |data| ==> keys[i] == Bucket(number(data[i].1), size)
  {
    seq(|data|, i requires 0 <= i < |data| => Bucket(number(data[i].1), size))
  }

  lemma OutsideBucket1(w: string, data: seq<(string, Tok)>, size: nat, m: nat, n: nat)
    requires size > 0 && m <= n <= |data|
    requires forall j :: m <= j < n ==> Keys1(data, size)[j] != Bucket(HashFunc1(w), size)
    ensures forall j :: m <= j < n ==> data[j].0 != w
  {
    hide HashFunc1, Bucket, Keys1;
    forall j | m <= j < n ensures data[j].0 != w {
      assert Keys1(data, size)[j] != Bucket(HashFunc1(w), size);
    }
  }

  lemma OutsideBucket2(t: Tok, data: seq<(string, Tok)>, number: Tok -> nat, size: nat, m: nat, n: nat)
    requires size > 0 && m <= n <= |data|
    requires forall j :: m <= j < n ==> Keys2(data, number, size)[j] != Bucket(number(t), size)
    ensures forall j :: m <= j < n ==> data[j].1 != t
  {
    hide Bucket, Keys2;
    forall j | m <= j < n ensures data[j].1 != t {
      assert Keys2(data, number, size)[j] != Bucket(number(t), size);
    }
  }

  /** A search of the first `n` entries can start at the last one in the word's own bucket. */
  function HeadOr(w: string, data: seq<(string, Tok)>, k: int): Tok
    requires -1 <= k < |data|
  {
    if k < 0 then SYMBOL else if data[k].0 == w then data[k].1 else LookUp(w, data[..k])
  }

  lemma LookUpFrom(w: string, data: seq<(string, Tok)>, k: int, n: nat)
    requires -1 <= k < n <= |data| || (k == -1 && n == 0)
    requires forall j :: k < j < n ==> data[j].0 != w
    ensures LookUp(w, data[..n]) == HeadOr(w, data, k)
  {
    hide LookUp;
    LookUpSkips(w, data, k + 1, n);
    if k >= 0 { LookUpLast(w, data, k); } else { LookUpNone(w, data); }
  }

  lemma LookUpHead(w: string, data: seq<(string, Tok)>, size: nat, n: nat)
    requires size > 0 && n <= |data|
    ensures LookUp(w, data[..n]) == HeadOr(w, data, Last(Keys1(data, size), n, Bucket(HashFunc1(w), size)))
  {
    hide HashFunc1, Bucket, Keys1, Last, LookUp, HeadOr;
    var k := Last(Keys1(data, size), n, Bucket(HashFunc1(w), size));
    OutsideBucket1(w, data, size, k + 1, n);
    LookUpFrom(w, data, k, n);
  }

  function SpelledOr(t: Tok, data: seq<(string, Tok)>, k: int): Option<string>
    requires -1 <= k < |data|
  {
    if k < 0 then None else if data[k].1 == t then Some(data[k].0) else Spelling(t, data[..k])
  }

  lemma SpellingFrom(t: Tok, data: seq<(string, Tok)>, k: int, n: nat)
    requires -1 <= k < n <= |data| || (k == -1 && n == 0)
    requires forall j :: k < j < n ==> data[j].1 != t
    ensures Spelling(t, data[..n]) == SpelledOr(t, data, k)
  {
    hide Spelling;
    SpellingSkips(t, data, k + 1, n);
    if k >= 0 { SpellingLast(t, data, k); } else { SpellingNone(t, data); }
  }

  lemma SpellingHead(t: Tok, data: seq<(string, Tok)>, number: Tok -> nat, size: nat, n: nat)
    requires size > 0 && n <= |data|
    ensures Spelling(t, data[..n]) == SpelledOr(t, data, Last(Keys2(data, number, size), n, Bucket(number(t), size)))
  {
    hide Bucket, Keys2, Last, Spelling, SpelledOr;
    var k := Last(Keys2(data, number, size), n, Bucket(number(t), size));
    OutsideBucket2(t, data, number, size, k + 1, n);
    SpellingFrom(t, data, k, n);
  }

  /** Chains through one cell array: a pointer to a cell is its index, NULL is -1. A bucket holds its
      last cell and a cell links to the one before it. */
  ghost predicate Chained(keys: seq<int>, table: seq<int>, link: seq<int>, n: nat) {
    && |keys| == |table| == |link|
    && n <= |keys|
    && (forall b :: 0 <= b < |table| ==> table[b] == Last(keys, n, b))
    && (forall i :: 0 <= i < n ==> link[i] == Prev(keys, i))
  }

  /** Pushing cell `n` at the head of its bucket. */
  lemma Pushed(keys: seq<int>, table: seq<int>, link: seq<int>, n: nat)
    requires Chained(keys, table, link, n) && n < |keys| && 0 <= keys[n] < |table|
    ensures Chained(keys, table[keys[n] := n], link[n := table[keys[n]]], n + 1)
  {
  }

  class RsrvWordDic {
    const data: seq<(string, Tok)>
    const number: Tok -> nat
    const size: nat
    const table1: array<int>
    const table2: array<int>
    const link1: array<int>
    const link2: array<int>

    ghost predicate Shape() {
      && size == |data| == table1.Length == table2.Length == link1.Length == link2.Length
      && size > 0
      && table1 != table2 && table1 != link1 && table1 != link2 && table2 != link1 && table2 != link2 && link1 != link2
    }

    /** The first `n` cells are in both tables. */
    ghost predicate Linked(n: nat)
      reads table1, table2, link1, link2
    {
      && Shape()
      && Chained(Keys1(data, size), table1[..], link1[..], n)
      && Chained(Keys2(data, number, size), table2[..], link2[..], n)
    }

    ghost predicate Valid()
      reads table1, table2, link1, link2
    {
      Linked(size)
    }

    /** Push every cell at the head of its two chains. Every spelling is ASCII. */
    constructor (number: Tok -> nat)
      ensures Valid() && this.number == number && data == InitData()
      ensures fresh(table1) && fresh(table2) && fresh(link1) && fresh(link2)
    {
      hide InitData, HashFunc1, Bucket, LookUp, Spelling, Keys1, Keys2;
      this.number := number;
      var data := InitData();
      var n := |data|;
      TableNotEmpty();
      this.data, this.size := data, n;
      table1 := new int[n](_ => -1);
      table2 := new int[n](_ => -1);
      link1 := new int[n](_ => -1);
      link2 := new int[n](_ => -1);
      new;
      for i := 0 to n
        invariant Linked(i)
      {
        Push(i);
      }
    }

    method Push(i: nat)
      requires Linked(i) && i < size
      modifies table1, table2, link1, link2
      ensures Linked(i + 1)
    {
      hide InitData, HashFunc1, Bucket, LookUp, Spelling, Chained;
      Pushed(Keys1(data, size), table1[..], link1[..], i);
      Pushed(Keys2(data, number, size), table2[..], link2[..], i);
      ghost var old1, old2, oldLink1, oldLink2 := table1[..], table2[..], link1[..], link2[..];
      var pos1 := Bucket(HashFunc1(data[i].0), size);
      link1[i] := table1[pos1];
      table1[pos1] := i;
      var pos2 := Bucket(number(data[i].1), size);
      link2[i] := table2[pos2];
      table2[pos2] := i;
      assert table1[..] == old1[pos1 := i] && link1[..] == oldLink1[i := old1[pos1]];
      assert table2[..] == old2[pos2 := i] && link2[..] == oldLink2[i := old2[pos2]];
    }

    /** Walk the string's chain. */
    method Token(w: string) returns (t: Tok)
      requires Valid()
      ensures t == LookUp(w, data)
    {
      hide InitData, HashFunc1, Bucket, Keys1, Keys2, Last, LookUp, Spelling;
      var pos := Bucket(HashFunc1(w), size);
      var cell := table1[pos];
      ghost var n := size;
      assert data[..n] == data;
      LookUpHead(w, data, size, n);
      while cell >= 0
        invariant n <= size && cell == Last(Keys1(data, size), n, pos)
        invariant LookUp(w, data) == LookUp(w, data[..n])
        invariant LookUp(w, data[..n]) == HeadOr(w, data, cell)
        decreases n
      {
        if data[cell].0 == w { return data[cell].1; }
        n := cell;
        LookUpHead(w, data, size, n);
        cell := link1[cell];
      }
      return SYMBOL;
    }

    /** Walk the token's chain. */
    method Str(t: Tok) returns (w: Option<string>)
      requires Valid()
      ensures w == Spelling(t, data)
    {
      hide InitData, HashFunc1, Bucket, Keys1, Keys2, Last, LookUp, Spelling;
      var pos := Bucket(number(t), size);
      var cell := table2[pos];
      ghost var n := size;
      assert data[..n] == data;
      SpellingHead(t, data, number, size, n);
      while cell >= 0
        invariant n <= size && cell == Last(Keys2(data, number, size), n, pos)
        invariant Spelling(t, data) == Spelling(t, data[..n])
        invariant Spelling(t, data[..n]) == SpelledOr(t, data, cell)
        decreases n
      {
        if data[cell].1 == t { return Some(data[cell].0); }
        n := cell;
        SpellingHead(t, data, number, size, n);
        cell := link2[cell];
      }
      return None;
    }
  }
}
