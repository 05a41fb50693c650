/** Byte code as a list of 32-bit words: writing typed values, copying, and reading them back. */
module CodeList {
  import opened Ir
  import opened Interp

  const WORD: nat := 0x1_0000_0000

  type Word = w: nat | w < 0x1_0000_0000

  /** What is written: an instruction code, an integer, a double or a pointer (64-bit patterns). */
  datatype Item = OpItem(op: Word) | IntItem(v: int) | FloatItem(f: Double) | PtrItem(bits: Bits64)

  datatype Kind = OpKind | IntKind | FloatKind | PtrKind

  predicate Fits(i: Item) {
    match i
    case IntItem(v) => Int32(v)
    case _ => true
  }

  function KindOf(i: Item): Kind {
    match i
    case OpItem(_) => OpKind
    case IntItem(_) => IntKind
    case FloatItem(_) => FloatKind
    case PtrItem(_) => PtrKind
  }

  /** An integer as a word: reduction modulo the word size. */
  function IntWord(v: int): Word { v % WORD }

  function WordInt(w: Word): int { if w >= 0x8000_0000 then w - WORD else w }

  /** A 64-bit pattern as two words, the low one first. */
  function Halves(bits: Bits64): seq<Word> {
    [bits % WORD, bits / WORD]
  }

  function Encode(i: Item): seq<Word>
    requires Fits(i)
  {
    match i
    case OpItem(op) => [op]
    case IntItem(v) => [IntWord(v)]
    case FloatItem(f) => Halves(f.bits)
    case PtrItem(bits) => Halves(bits)
  }

  predicate AllFit(items: seq<Item>) {
    forall i :: 0 <= i < |items| ==> Fits(items[i])
  }

  function EncodeAll(items: seq<Item>): seq<Word>
    requires AllFit(items)
  {
    if items == [] then [] else EncodeAll(items[..|items| - 1]) + Encode(items[|items| - 1])
  }

  function Size(k: Kind): nat { if k == FloatKind || k == PtrKind then 2 else 1 }

  /** Read one value at `addr`. */
  function Decode(k: Kind, words: seq<Word>, addr: nat): Item
    requires addr + Size(k) <= |words|
  {
    match k
    case OpKind => OpItem(words[addr])
    case IntKind => IntItem(WordInt(words[addr]))
    case FloatKind => FloatItem(Double(words[addr] + WORD * words[addr + 1]))
    case PtrKind => PtrItem(words[addr] + WORD * words[addr + 1])
  }

  // ----- the builder and the list -----

  class Builder {
    var body: seq<Word>

    constructor ()
      ensures body == []
    {
      body := [];
    }

    method WriteOpcode(op: Word)
      modifies this
      ensures body == old(body) + Encode(OpItem(op))
    {
      body := body + [op];
    }

    method WriteInt(v: int)
      requires Int32(v)
      modifies this
      ensures body == old(body) + Encode(IntItem(v))
    {
      body := body + [v % WORD];
    }

    /** The two words of a 64-bit pattern, in the order they lie in memory. */
    method WriteHalves(bits: Bits64)
      modifies this
      ensures body == old(body) + Halves(bits)
    {
      ghost var start := body;
      var rest: nat := bits;
      for i := 0 to 2
        invariant i == 0 ==> body == start && rest == bits
        invariant i == 1 ==> body == start + [bits % WORD] && rest == bits / WORD
        invariant i == 2 ==> body == start + Halves(bits)
      {
        body := body + [rest % WORD];
        rest := rest / WORD;
      }
    }

    method WriteFloat(f: Double)
      modifies this
      ensures body == old(body) + Encode(FloatItem(f))
    {
      WriteHalves(f.bits);
    }

    method WriteObjptr(bits: Bits64)
      modifies this
      ensures body == old(body) + Encode(PtrItem(bits))
    {
      WriteHalves(bits);
    }
  }

  class VsmCodeList {
    const body: array<Word>

    constructor (builder: Builder)
      ensures fresh(body) && body[..] == builder.body
    {
      var words := builder.body;
      var a := new Word[|words|](_ => 0);
      body := a;
      new;
      for i := 0 to |words|
        invariant body[..i] == words[..i] && builder.body == words
      {
        body[i] := words[i];
      }
    }

    method ReadOpcode(addr: nat) returns (op: Word, next: nat)
      requires addr < body.Length
      ensures OpItem(op) == Decode(OpKind, body[..], addr) && next == addr + 1
    {
      op, next := body[addr], addr + 1;
    }

    method ReadInt(addr: nat) returns (v: int, next: nat)
      requires addr < body.Length
      ensures IntItem(v) == Decode(IntKind, body[..], addr) && next == addr + 1
    {
      v, next := WordInt(body[addr]), addr + 1;
    }

    method ReadFloat(addr: nat) returns (f: Double, next: nat)
      requires addr + 2 <= body.Length
      ensures FloatItem(f) == Decode(FloatKind, body[..], addr) && next == addr + 2
    {
      f, next := Double(body[addr] + WORD * body[addr + 1]), addr + 2;
    }

    method ReadObjptr(addr: nat) returns (bits: Bits64, next: nat)
      requires addr + 2 <= body.Length
      ensures PtrItem(bits) == Decode(PtrKind, body[..], addr) && next == addr + 2
    {
      bits, next := body[addr] + WORD * body[addr + 1], addr + 2;
    }
  }

  // ----- round trip -----

  lemma HalvesBack(bits: Bits64)
    ensures bits % WORD + WORD * (bits / WORD) == bits
  {
  }

  lemma DecodeEncoded(i: Item, before: seq<Word>, after: seq<Word>)
    requires Fits(i)
    ensures Size(KindOf(i)) == |Encode(i)|
    ensures Decode(KindOf(i), before + Encode(i) + after, |before|) == i
  {
    var words := before + Encode(i) + after;
    assert words[|before|] == Encode(i)[0];
    if |Encode(i)| == 2 {
      assert words[|before| + 1] == Encode(i)[1];
    }
    match i
    case FloatItem(f) => HalvesBack(f.bits);
    case PtrItem(bits) => HalvesBack(bits);
    case _ =>
  }

  function TotalSize(kinds: seq<Kind>): nat {
    if kinds == [] then 0 else TotalSize(kinds[..|kinds| - 1]) + Size(kinds[|kinds| - 1])
  }

  /** Read values of the given kinds one after the other from address 0. */
  function ReadAll(kinds: seq<Kind>, words: seq<Word>): (r: (seq<Item>, nat))
    requires TotalSize(kinds) <= |words|
    ensures r.1 == TotalSize(kinds)
  {
    if kinds == [] then ([], 0) else
      var (items, addr) := ReadAll(kinds[..|kinds| - 1], words);
      (items + [Decode(kinds[|kinds| - 1], words, addr)], addr + Size(kinds[|kinds| - 1]))
  }

  function Kinds(items: seq<Item>): seq<Kind> {
    seq(|items|, i requires 0 <= i < |items| => KindOf(items[i]))
  }

  lemma KindsLast(items: seq<Item>)
    requires items != []
    ensures |Kinds(items)| == |items| && Kinds(items)[..|items| - 1] == Kinds(items[..|items| - 1])
    ensures Kinds(items)[|items| - 1] == KindOf(items[|items| - 1])
  {
  }

  lemma NothingRead(after: seq<Word>)
    ensures TotalSize(Kinds([])) == |EncodeAll([])|
            && ReadAll(Kinds([]), EncodeAll([]) + after) == ([], |EncodeAll([])|)
  {
  }

  lemma Regroup(a: seq<Word>, b: seq<Word>, c: seq<Word>)
    ensures (a + b) + c == a + (b + c)
  {
  }

  lemma EncodeLast(items: seq<Item>)
    requires items != [] && AllFit(items)
    ensures EncodeAll(items) == EncodeAll(items[..|items| - 1]) + Encode(items[|items| - 1])
  {
  }

  /** Reading all kinds is reading all but the last and then the last. */
  lemma ReadLast(kinds: seq<Kind>, words: seq<Word>, items: seq<Item>, item: Item)
    requires kinds != [] && TotalSize(kinds) <= |words|
    requires var init := kinds[..|kinds| - 1];
             && TotalSize(kinds) == TotalSize(init) + Size(kinds[|kinds| - 1])
             && ReadAll(init, words) == (items, TotalSize(init))
             && Decode(kinds[|kinds| - 1], words, TotalSize(init)) == item
    ensures ReadAll(kinds, words) == (items + [item], TotalSize(kinds))
  {
    hide Decode;
  }

  lemma SizeLast(kinds: seq<Kind>)
    requires kinds != []
    ensures TotalSize(kinds) == TotalSize(kinds[..|kinds| - 1]) + Size(kinds[|kinds| - 1])
  {
  }

  /** Any sequence of typed values, written and then read in the same order of types, comes back
      unchanged, and the address ends where the writing did. */
  lemma {:induction false} ReadBack(items: seq<Item>, after: seq<Word>)
    requires AllFit(items)
    ensures TotalSize(Kinds(items)) == |EncodeAll(items)|
    ensures ReadAll(Kinds(items), EncodeAll(items) + after) == (items, |EncodeAll(items)|)
    decreases items
  {
    hide Encode, Decode, Fits, Kinds, EncodeAll, ReadAll, TotalSize;
    if items == [] {
      NothingRead(after);
    } else {
      var init, last := items[..|items| - 1], items[|items| - 1];
      ReadBack(init, Encode(last) + after);
      KindsLast(items);
      EncodeLast(items);
      SizeLast(Kinds(items));
      Regroup(EncodeAll(init), Encode(last), after);
      DecodeEncoded(last, EncodeAll(init), after);
      ReadLast(Kinds(items), EncodeAll(items) + after, init, last);
      assert items == init + [last];
    }
  }
}
