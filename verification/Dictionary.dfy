/** The reserved-word dictionary as a two-way table: every entry is found by its spelling and by its token. */
module Dictionary {
  import opened Common
  import opened RsrvWordDic
  import opened Tokens

  type Table = seq<(string, Tok)>

  // ----- no two entries share a spelling or a token -----

  /** No two entries share a spelling or a token. */
  ghost predicate Apart(a: Table) {
    forall i, j :: 0 <= i < j < |a| ==> a[i].0 != a[j].0 && a[i].1 != a[j].1
  }

  /** Nor does an entry of one section with one of the other. */
  ghost predicate Away(a: Table, b: Table) {
    forall i, j :: 0 <= i < |a| && 0 <= j < |b| ==> a[i].0 != b[j].0 && a[i].1 != b[j].1
  }

  lemma ApartBy(a: Table)
    requires forall i, j :: 0 <= i < j < |a| ==> a[i].0 != a[j].0
    requires forall i, j :: 0 <= i < j < |a| ==> a[i].1 != a[j].1
    ensures Apart(a)
  {
  }

  lemma AwayBy(a: Table, b: Table)
    requires forall i, j :: 0 <= i < |a| && 0 <= j < |b| ==> a[i].0 != b[j].0
    requires forall i, j :: 0 <= i < |a| && 0 <= j < |b| ==> a[i].1 != b[j].1
    ensures Away(a, b)
  {
  }

  lemma ApartJoin(a: Table, b: Table)
    requires Apart(a) && Apart(b) && Away(a, b)
    ensures Apart(a + b)
  {
  }

  lemma AwayJoin(a: Table, b: Table, c: Table)
    requires Away(a, c) && Away(b, c)
    ensures Away(a + b, c)
  {
  }

  lemma MarksWords()
    ensures forall i, j :: 0 <= i < j < |Marks()| ==> Marks()[i].0 != Marks()[j].0
  {
  }

  lemma MarksSpelled()
    ensures forall k :: 0 <= k < |Marks()| ==> SignText(Marks()[k].1) == Marks()[k].0 != ""
  {
  }

  lemma MarksToks()
    ensures forall i, j :: 0 <= i < j < |Marks()| ==> Marks()[i].1 != Marks()[j].1
  {
    hide Marks, SignText;
    MarksSpelled();
    MarksWords();
  }

  lemma MarksOperatorsWords()
    ensures forall i, j :: 0 <= i < |Marks()| && 0 <= j < |Operators()| ==> Marks()[i].0 != Operators()[j].0
  {
  }

  lemma MarksOperatorsToks()
    ensures forall i, j :: 0 <= i < |Marks()| && 0 <= j < |Operators()| ==> Marks()[i].1 != Operators()[j].1
  {
    hide Marks, Operators, SignText;
    MarksSpelled();
    OperatorsSpelled();
    MarksOperatorsWords();
  }

  lemma MarksKeywords1Words()
    ensures forall i, j :: 0 <= i < |Marks()| && 0 <= j < |Keywords1()| ==> Marks()[i].0 != Keywords1()[j].0
  {
  }

  lemma MarksKeywords1Toks()
    ensures forall i, j :: 0 <= i < |Marks()| && 0 <= j < |Keywords1()| ==> Marks()[i].1 != Keywords1()[j].1
  {
  }

  lemma MarksKeywords2Words()
    ensures forall i, j :: 0 <= i < |Marks()| && 0 <= j < |Keywords2()| ==> Marks()[i].0 != Keywords2()[j].0
  {
  }

  lemma MarksKeywords2Toks()
    ensures forall i, j :: 0 <= i < |Marks()| && 0 <= j < |Keywords2()| ==> Marks()[i].1 != Keywords2()[j].1
  {
  }

  lemma MarksInternalsWords()
    ensures forall i, j :: 0 <= i < |Marks()| && 0 <= j < |Internals()| ==> Marks()[i].0 != Internals()[j].0
  {
  }

  lemma MarksInternalsToks()
    ensures forall i, j :: 0 <= i < |Marks()| && 0 <= j < |Internals()| ==> Marks()[i].1 != Internals()[j].1
  {
  }

  lemma OperatorsWords()
    ensures forall i, j :: 0 <= i < j < |Operators()| ==> Operators()[i].0 != Operators()[j].0
  {
  }

  lemma WordsUnsigned()
    ensures SignText(LOGNOT) == SignText(LOGAND) == SignText(LOGOR) == ""
  {
  }

  lemma ArithmeticSpelled()
    ensures |Operators()| == 20
    ensures forall k :: 0 <= k < 5 ==> SignText(Operators()[k].1) == Operators()[k].0 != ""
  {
  }

  lemma BitOperatorsSpelled()
    ensures |Operators()| == 20
    ensures forall k :: 8 <= k < 14 ==> SignText(Operators()[k].1) == Operators()[k].0 != ""
  {
  }

  lemma ComparisonsSpelled()
    ensures |Operators()| == 20
    ensures forall k :: 14 <= k < 20 ==> SignText(Operators()[k].1) == Operators()[k].0 != ""
  {
  }

  lemma OperatorsSpelled()
    ensures forall k :: 0 <= k < |Operators()| ==>
              && SignText(Operators()[k].1) == (if 5 <= k <= 7 then "" else Operators()[k].0)
              && (k < 5 || 7 < k ==> Operators()[k].0 != "")
  {
    hide Operators, SignText;
    WordsUnsigned();
    WrittenOperators();
    ArithmeticSpelled();
    BitOperatorsSpelled();
    ComparisonsSpelled();
  }

  lemma WrittenOperators()
    ensures |Operators()| == 20 && Operators()[5].1 == LOGNOT && Operators()[6].1 == LOGAND && Operators()[7].1 == LOGOR
  {
  }

  lemma OperatorsToks()
    ensures forall i, j :: 0 <= i < j < |Operators()| ==> Operators()[i].1 != Operators()[j].1
  {
    hide Operators, SignText;
    OperatorsSpelled();
    WrittenOperators();
    OperatorsWords();
  }

  lemma OperatorsKeywords1Words()
    ensures forall i, j :: 0 <= i < |Operators()| && 0 <= j < |Keywords1()| ==> Operators()[i].0 != Keywords1()[j].0
  {
  }

  lemma OperatorsKeywords1Toks()
    ensures forall i, j :: 0 <= i < |Operators()| && 0 <= j < |Keywords1()| ==> Operators()[i].1 != Keywords1()[j].1
  {
  }

  lemma OperatorsKeywords2Words()
    ensures forall i, j :: 0 <= i < |Operators()| && 0 <= j < |Keywords2()| ==> Operators()[i].0 != Keywords2()[j].0
  {
  }

  lemma OperatorsKeywords2Toks()
    ensures forall i, j :: 0 <= i < |Operators()| && 0 <= j < |Keywords2()| ==> Operators()[i].1 != Keywords2()[j].1
  {
  }

  lemma OperatorsInternalsWords()
    ensures forall i, j :: 0 <= i < |Operators()| && 0 <= j < |Internals()| ==> Operators()[i].0 != Internals()[j].0
  {
  }

  lemma OperatorsInternalsToks()
    ensures forall i, j :: 0 <= i < |Operators()| && 0 <= j < |Internals()| ==> Operators()[i].1 != Internals()[j].1
  {
  }

  lemma Keywords1Words()
    ensures forall i, j :: 0 <= i < j < |Keywords1()| ==> Keywords1()[i].0 != Keywords1()[j].0
  {
  }

  lemma Keywords1Toks()
    ensures forall i, j :: 0 <= i < j < |Keywords1()| ==> Keywords1()[i].1 != Keywords1()[j].1
  {
  }

  lemma Keywords1Keywords2Words()
    ensures forall i, j :: 0 <= i < |Keywords1()| && 0 <= j < |Keywords2()| ==> Keywords1()[i].0 != Keywords2()[j].0
  {
  }

  lemma Keywords1Keywords2Toks()
    ensures forall i, j :: 0 <= i < |Keywords1()| && 0 <= j < |Keywords2()| ==> Keywords1()[i].1 != Keywords2()[j].1
  {
  }

  lemma Keywords1InternalsWords()
    ensures forall i, j :: 0 <= i < |Keywords1()| && 0 <= j < |Internals()| ==> Keywords1()[i].0 != Internals()[j].0
  {
  }

  lemma Keywords1InternalsToks()
    ensures forall i, j :: 0 <= i < |Keywords1()| && 0 <= j < |Internals()| ==> Keywords1()[i].1 != Internals()[j].1
  {
  }

  lemma Keywords2Words()
    ensures forall i, j :: 0 <= i < j < |Keywords2()| ==> Keywords2()[i].0 != Keywords2()[j].0
  {
  }

  lemma Keywords2Toks()
    ensures forall i, j :: 0 <= i < j < |Keywords2()| ==> Keywords2()[i].1 != Keywords2()[j].1
  {
  }

  lemma Keywords2InternalsWords()
    ensures forall i, j :: 0 <= i < |Keywords2()| && 0 <= j < |Internals()| ==> Keywords2()[i].0 != Internals()[j].0
  {
  }

  lemma Keywords2InternalsToks()
    ensures forall i, j :: 0 <= i < |Keywords2()| && 0 <= j < |Internals()| ==> Keywords2()[i].1 != Internals()[j].1
  {
  }

  lemma InternalsWords()
    ensures forall i, j :: 0 <= i < j < |Internals()| ==> Internals()[i].0 != Internals()[j].0
  {
  }

  lemma InternalsToks()
    ensures forall i, j :: 0 <= i < j < |Internals()| ==> Internals()[i].1 != Internals()[j].1
  {
  }

  lemma TableApart()
    ensures Apart(InitData())
  {
    hide Marks, Operators, Keywords1, Keywords2, Internals, Apart, Away;
    var m, o, k1, k2, n := Marks(), Operators(), Keywords1(), Keywords2(), Internals();
    assert Apart(m) by {
      MarksWords();
      MarksToks();
      ApartBy(m);
    }
    assert Apart(o) by {
      OperatorsWords();
      OperatorsToks();
      ApartBy(o);
    }
    assert Apart(k1) by {
      Keywords1Words();
      Keywords1Toks();
      ApartBy(k1);
    }
    assert Apart(k2) by {
      Keywords2Words();
      Keywords2Toks();
      ApartBy(k2);
    }
    assert Apart(n) by {
      InternalsWords();
      InternalsToks();
      ApartBy(n);
    }
    assert Away(m, o) by {
      MarksOperatorsWords();
      MarksOperatorsToks();
      AwayBy(m, o);
    }
    assert Away(m, k1) by {
      MarksKeywords1Words();
      MarksKeywords1Toks();
      AwayBy(m, k1);
    }
    assert Away(m, k2) by {
      MarksKeywords2Words();
      MarksKeywords2Toks();
      AwayBy(m, k2);
    }
    assert Away(m, n) by {
      MarksInternalsWords();
      MarksInternalsToks();
      AwayBy(m, n);
    }
    assert Away(o, k1) by {
      OperatorsKeywords1Words();
      OperatorsKeywords1Toks();
      AwayBy(o, k1);
    }
    assert Away(o, k2) by {
      OperatorsKeywords2Words();
      OperatorsKeywords2Toks();
      AwayBy(o, k2);
    }
    assert Away(o, n) by {
      OperatorsInternalsWords();
      OperatorsInternalsToks();
      AwayBy(o, n);
    }
    assert Away(k1, k2) by {
      Keywords1Keywords2Words();
      Keywords1Keywords2Toks();
      AwayBy(k1, k2);
    }
    assert Away(k1, n) by {
      Keywords1InternalsWords();
      Keywords1InternalsToks();
      AwayBy(k1, n);
    }
    assert Away(k2, n) by {
      Keywords2InternalsWords();
      Keywords2InternalsToks();
      AwayBy(k2, n);
    }
    ApartJoin(m, o);
    AwayJoin(m, o, k1);
    ApartJoin(m + o, k1);
    AwayJoin(m, o, k2);
    AwayJoin(m + o, k1, k2);
    ApartJoin(m + o + k1, k2);
    AwayJoin(m, o, n);
    AwayJoin(m + o, k1, n);
    AwayJoin(m + o + k1, k2, n);
    ApartJoin(m + o + k1 + k2, n);
  }

  // ----- both ways through the table -----

  /** Every entry is found by its spelling and by its token: what `Token` and `Str` return are inverse to each
      other on the table. */
  lemma EntryFoundBothWays(k: nat)
    requires k < |InitData()|
    ensures var (w, t) := InitData()[k]; WordToken(w) == t && Spelling(t, InitData()) == Some(w)
  {
    hide InitData, LookUp, Spelling;
    TableApart();
    var data := InitData();
    var (w, t) := data[k];
    assert data[..|data|] == data;
    LookUpSkips(w, data, k + 1, |data|);
    LookUpLast(w, data, k);
    SpellingSkips(t, data, k + 1, |data|);
    SpellingLast(t, data, k);
  }

  lemma {:induction false} LookUpFinds(w: string, data: Table)
    ensures LookUp(w, data) == SYMBOL || (w, LookUp(w, data)) in data
  {
    if data != [] {
      var init, last := data[..|data| - 1], data[|data| - 1];
      if last.0 == w { assert last == (w, last.1); } else { LookUpFinds(w, init); }
    }
  }

  /** Any word is a symbol or the one spelling of its token. */
  lemma WordsSpelled(w: string)
    ensures WordToken(w) == SYMBOL || Spelling(WordToken(w), InitData()) == Some(w)
  {
    hide InitData, LookUp, Spelling;
    LookUpFinds(w, InitData());
    if WordToken(w) != SYMBOL {
      var k :| 0 <= k < |InitData()| && InitData()[k] == (w, WordToken(w));
      EntryFoundBothWays(k);
    }
  }
}
