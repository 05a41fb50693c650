/** The type manager: a hash-consing table. Asking twice for the same type gives the same object, so
    types are compared by identity. */
module TypeTable {
  import opened Chains
  import opened Buckets
  import opened Common
  import Ir
  import Ast

  type Type = Cell<TypeRec>

  datatype PrimKind = Void | Boolean | Int | Float | String

  /** A type object: its number, and what it was built from. */
  datatype TypeRec = TypeRec(id: nat, desc: Desc)

  datatype Desc =
    | Prim(kind: PrimKind)
    | ArrayOf(elem: Cell<TypeRec>)
    | SetOf(elem: Cell<TypeRec>)
    | MapOf(key: Cell<TypeRec>, elem: Cell<TypeRec>)
    | FuncOf(output: Cell<TypeRec>, inputs: seq<Cell<TypeRec>>)
    | EnumOf(name: string, elems: seq<(string, int)>)

  function Parts(d: Desc): seq<Type> {
    match d
    case ArrayOf(e) => [e]
    case SetOf(e) => [e]
    case MapOf(k, e) => [k, e]
    case FuncOf(o, ins) => [o] + ins
    case _ => []
  }

  /** Types built from other types are found through the table. */
  predicate Hashed(d: Desc) { !d.Prim? && !d.EnumOf? }

  // ----- hash values, as 32-bit words -----

  const WORD: nat := 0x1_0000_0000

  function InputHash(inputs: seq<Type>): nat {
    if inputs == [] then 0
    else InputHash(inputs[..|inputs| - 1]) + inputs[|inputs| - 1].item.id * (|inputs| - 1)
  }

  function RawHash(d: Desc): nat {
    match d
    case ArrayOf(e) => e.item.id % WORD
    case SetOf(e) => (e.item.id + 511) % WORD
    case MapOf(k, e) => (k.item.id * 2047 + e.item.id + 511) % WORD
    case FuncOf(o, ins) => (o.item.id + 253 + InputHash(ins)) % WORD
    case _ => 0
  }

  lemma WordAdd(a: nat, b: nat)
    ensures ((a % WORD) + b) % WORD == (a + b) % WORD
  {
    assert a == WORD * (a / WORD) + a % WORD;
    assert (a + b) - ((a % WORD) + b) == WORD * (a / WORD);
    ModShift((a % WORD) + b, a / WORD);
  }

  lemma ModShift(x: nat, k: nat)
    ensures (x + WORD * k) % WORD == x % WORD
  {
  }

  /** The hash of a function type that is being looked for. */
  method HashFunc(output: Type, inputs: seq<Type>) returns (h: nat)
    ensures h == RawHash(FuncOf(output, inputs))
  {
    h := (output.item.id + 253) % WORD;
    for i := 0 to |inputs|
      invariant h == (output.item.id + 253 + InputHash(inputs[..i])) % WORD
    {
      WordAdd(output.item.id + 253 + InputHash(inputs[..i]), inputs[i].item.id * i);
      assert inputs[..i + 1][..i] == inputs[..i];
      h := (h + inputs[i].item.id * i) % WORD;
    }
    assert inputs[..|inputs|] == inputs;
  }

  /** The hash of a type that is being put into the table. */
  method HashFunc2(t: Type) returns (h: nat)
    requires t.item.desc.FuncOf?
    ensures h == RawHash(t.item.desc)
  {
    var inputs := t.item.desc.inputs;
    h := (t.item.desc.output.item.id + 253) % WORD;
    for i := 0 to |inputs|
      invariant h == (t.item.desc.output.item.id + 253 + InputHash(inputs[..i])) % WORD
    {
      WordAdd(t.item.desc.output.item.id + 253 + InputHash(inputs[..i]), inputs[i].item.id * i);
      assert inputs[..i + 1][..i] == inputs[..i];
      h := (h + inputs[i].item.id * i) % WORD;
    }
    assert inputs[..|inputs|] == inputs;
  }

  // ----- what an object stands for -----

  /** Types are numbered in the order of the list and built from earlier ones. */
  ghost predicate Closed(types: seq<Type>) {
    forall i :: 0 <= i < |types| ==>
      && types[i].item.id == i
      && forall p :: p in Parts(types[i].item.desc) ==> p.item.id < i && types[p.item.id] == p
  }

  ghost predicate Has(types: seq<Type>, t: Type) {
    t.item.id < |types| && types[t.item.id] == t
  }

  /** The type an object stands for, enum types by identity. */
  ghost function Shape(types: seq<Type>, t: Type): Ir.Ty
    requires Closed(types) && Has(types, t)
    decreases t.item.id, 1
  {
    match t.item.desc
    case Prim(Void) => Ir.Void
    case Prim(Boolean) => Ir.Boolean
    case Prim(Int) => Ir.Int
    case Prim(Float) => Ir.Float
    case Prim(String) => Ir.String
    case ArrayOf(e) => assert e in Parts(t.item.desc); Ir.Array(Shape(types, e))
    case SetOf(e) => assert e in Parts(t.item.desc); Ir.Set(Shape(types, e))
    case MapOf(k, e) =>
      assert k in Parts(t.item.desc) && e in Parts(t.item.desc);
      Ir.Map(Shape(types, k), Shape(types, e))
    case FuncOf(o, ins) =>
      assert o in Parts(t.item.desc);
      assert forall i :: 0 <= i < |ins| ==> ins[i] in Parts(t.item.desc);
      Ir.Func(Shape(types, o), Shapes(types, ins, t.item.id))
    case EnumOf(_, _) => Ir.Enum(t.item.id)
  }

  lemma MapShape(types: seq<Type>, t: Type, key: Type, elem: Type)
    requires Closed(types) && Has(types, t) && Has(types, key) && Has(types, elem) && t.item.desc == MapOf(key, elem)
    ensures Shape(types, t) == Ir.Map(Shape(types, key), Shape(types, elem))
  {
  }

  ghost function Shapes(types: seq<Type>, ts: seq<Type>, bound: nat): (r: seq<Ir.Ty>)
    requires Closed(types) && forall i :: 0 <= i < |ts| ==> Has(types, ts[i]) && ts[i].item.id < bound
    ensures |r| == |ts|
    ensures forall i :: 0 <= i < |ts| ==> r[i] == Shape(types, ts[i])
    decreases bound, 0, |ts|
  {
    if ts == [] then [] else [Shape(types, ts[0])] + Shapes(types, ts[1..], bound)
  }

  /** No two objects are built alike, enum types aside. */
  ghost predicate Canonical(types: seq<Type>) {
    forall i, j :: 0 <= i < j < |types| && !types[i].item.desc.EnumOf? ==> types[i].item.desc != types[j].item.desc
  }

  lemma PartKnown(types: seq<Type>, t: Type, p: Type)
    requires Closed(types) && Has(types, t) && p in Parts(t.item.desc)
    ensures Has(types, p) && p.item.id < t.item.id
  {
  }

  lemma BuiltAlike(types: seq<Type>, s: Type, t: Type)
    requires Closed(types) && Canonical(types) && Has(types, s) && Has(types, t)
    requires s.item.desc == t.item.desc && !s.item.desc.EnumOf?
    ensures s == t
  {
  }

  /** Only objects built by the same constructor can stand for the same type. */
  lemma SameConstructor(types: seq<Type>, s: Type, t: Type)
    requires Closed(types) && Has(types, s) && Has(types, t) && Shape(types, s) == Shape(types, t)
    ensures match s.item.desc
            case Prim(k) => t.item.desc == Prim(k)
            case ArrayOf(_) => t.item.desc.ArrayOf?
            case SetOf(_) => t.item.desc.SetOf?
            case MapOf(_, _) => t.item.desc.MapOf?
            case FuncOf(_, _) => t.item.desc.FuncOf?
            case EnumOf(_, _) => s == t
  {
    hide Closed, Parts;
  }

  lemma ElemShape(types: seq<Type>, t: Type)
    requires Closed(types) && Has(types, t) && (t.item.desc.ArrayOf? || t.item.desc.SetOf?)
    ensures var e := t.item.desc.elem;
            && Has(types, e) && e.item.id < t.item.id
            && Shape(types, t) == if t.item.desc.ArrayOf? then Ir.Array(Shape(types, e)) else Ir.Set(Shape(types, e))
  {
    PartKnown(types, t, t.item.desc.elem);
    hide Closed;
  }

  lemma KeyAndElem(types: seq<Type>, t: Type)
    requires Closed(types) && Has(types, t) && t.item.desc.MapOf?
    ensures var k, e := t.item.desc.key, t.item.desc.elem;
            && Has(types, k) && k.item.id < t.item.id && Has(types, e) && e.item.id < t.item.id
            && Shape(types, t) == Ir.Map(Shape(types, k), Shape(types, e))
  {
    PartKnown(types, t, t.item.desc.key);
    PartKnown(types, t, t.item.desc.elem);
    MapShape(types, t, t.item.desc.key, t.item.desc.elem);
    hide Closed, Shape;
  }

  /** Identity of objects is equality of types. */
  lemma {:induction false} SameShapeSameObject(types: seq<Type>, s: Type, t: Type)
    requires Closed(types) && Canonical(types) && Has(types, s) && Has(types, t)
    ensures Shape(types, s) == Shape(types, t) <==> s == t
    decreases s.item.id
  {
    hide Closed, Canonical, Shape, Parts, Has;
    if Shape(types, s) == Shape(types, t) {
      SameConstructor(types, s, t);
      match s.item.desc
      case ArrayOf(e) => SameElem(types, s, t);
      case SetOf(e) => SameElem(types, s, t);
      case MapOf(k, e) =>
        KeyAndElem(types, s);
        KeyAndElem(types, t);
        SameShapeSameObject(types, k, t.item.desc.key);
        SameShapeSameObject(types, e, t.item.desc.elem);
        BuiltAlike(types, s, t);
      case FuncOf(_, _) =>
        SameInputs(types, s, t);
        BuiltAlike(types, s, t);
      case Prim(_) => BuiltAlike(types, s, t);
      case EnumOf(_, _) =>
    }
  }

  lemma {:induction false} SameElem(types: seq<Type>, s: Type, t: Type)
    requires Closed(types) && Canonical(types) && Has(types, s) && Has(types, t) && Shape(types, s) == Shape(types, t)
    requires (s.item.desc.ArrayOf? && t.item.desc.ArrayOf?) || (s.item.desc.SetOf? && t.item.desc.SetOf?)
    ensures s == t
    decreases s.item.id, 0
  {
    hide Closed, Canonical, Shape, Parts, Has;
    ElemShape(types, s);
    ElemShape(types, t);
    SameShapeSameObject(types, s.item.desc.elem, t.item.desc.elem);
    BuiltAlike(types, s, t);
  }

  lemma FuncShape(types: seq<Type>, t: Type)
    requires Closed(types) && Has(types, t) && t.item.desc.FuncOf?
    ensures Has(types, t.item.desc.output) && t.item.desc.output.item.id < t.item.id
    ensures forall i :: 0 <= i < |t.item.desc.inputs| ==>
              Has(types, t.item.desc.inputs[i]) && t.item.desc.inputs[i].item.id < t.item.id
    ensures Shape(types, t) == Ir.Func(Shape(types, t.item.desc.output), Shapes(types, t.item.desc.inputs, t.item.id))
  {
    forall i | 0 <= i < |t.item.desc.inputs| ensures t.item.desc.inputs[i] in Parts(t.item.desc) {}
    assert t.item.desc.output in Parts(t.item.desc);
  }

  /** Functions of the same type have the same output object and the same input objects. */
  lemma {:induction false} SameInputs(types: seq<Type>, s: Type, t: Type)
    requires Closed(types) && Canonical(types) && Has(types, s) && Has(types, t)
    requires s.item.desc.FuncOf? && t.item.desc.FuncOf? && Shape(types, s) == Shape(types, t)
    ensures s.item.desc == t.item.desc
    decreases s.item.id, 0
  {
    hide Closed, Canonical, Shape, Parts;
    FuncShape(types, s);
    FuncShape(types, t);
    var a, b := s.item.desc.inputs, t.item.desc.inputs;
    var x, y := Shapes(types, a, s.item.id), Shapes(types, b, t.item.id);
    SameShapeSameObject(types, s.item.desc.output, t.item.desc.output);
    forall i | 0 <= i < |a| ensures a[i] == b[i] {
      assert x[i] == y[i];
      SameShapeSameObject(types, a[i], b[i]);
    }
    assert a == b;
  }

  /** What an object stands for does not change as types are added. */
  lemma {:induction false} ShapeStable(types: seq<Type>, more: seq<Type>, t: Type)
    requires Closed(types) && Closed(more) && types <= more && Has(types, t)
    ensures Has(more, t) && Shape(more, t) == Shape(types, t)
    decreases t.item.id
  {
    match t.item.desc
    case ArrayOf(e) => assert e in Parts(t.item.desc); ShapeStable(types, more, e);
    case SetOf(e) => assert e in Parts(t.item.desc); ShapeStable(types, more, e);
    case MapOf(k, e) =>
      assert k in Parts(t.item.desc) && e in Parts(t.item.desc);
      ShapeStable(types, more, k);
      ShapeStable(types, more, e);
    case FuncOf(o, ins) =>
      assert o in Parts(t.item.desc);
      ShapeStable(types, more, o);
      forall i | 0 <= i < |ins| ensures ins[i] in Parts(t.item.desc) && Shape(more, ins[i]) == Shape(types, ins[i]) {
        assert ins[i] in Parts(t.item.desc);
        ShapeStable(types, more, ins[i]);
      }
      assert Shapes(more, ins, t.item.id) == Shapes(types, ins, t.item.id);
    case _ =>
  }

  /** The type a type expression denotes, where `named` says what its names stand for. */
  ghost function Denotes(a: Ast.TypeExpr, named: Ast.Expr -> Option<Ir.Ty>): Option<Ir.Ty> {
    match a
    case VoidType => Some(Ir.Void)
    case BooleanType => Some(Ir.Boolean)
    case IntType => Some(Ir.Int)
    case FloatType => Some(Ir.Float)
    case StringType => Some(Ir.String)
    case ArrayType(e) => (match Denotes(e, named) case Some(x) => Some(Ir.Array(x)) case None => None)
    case SetType(e) => (match Denotes(e, named) case Some(x) => Some(Ir.Set(x)) case None => None)
    case MapType(k, e) =>
      (match (Denotes(k, named), Denotes(e, named))
       case (Some(x), Some(y)) => Some(Ir.Map(x, y))
       case _ => None)
    case NamedType(path) => named(path)
  }

  lemma DenotesMap(a: Ast.TypeExpr, named: Ast.Expr -> Option<Ir.Ty>)
    requires a.MapType?
    ensures var x, y := Denotes(a.key, named), Denotes(a.elem, named);
            Denotes(a, named) == if x.Some? && y.Some? then Some(Ir.Map(x.value, y.value)) else None
  {
  }

  // ----- the table -----

  /** `flat` lists every derived type once and nothing else. */
  ghost predicate Lists(flat: seq<Type>, types: seq<Type>) {
    && (forall t :: t in flat ==> Has(types, t) && Hashed(t.item.desc) && multiset(flat)[t] == 1)
    && (forall i :: 0 <= i < |types| && Hashed(types[i].item.desc) ==> types[i] in flat)
  }

  /** Every derived type is in the table once, in the bucket its lookup probes, and nothing else is. */
  ghost predicate Stored(chains: seq<seq<Type>>, types: seq<Type>, key: Type -> nat) {
    Placed(chains, key) && Lists(Flat(chains), types)
  }

  lemma ListsPermuted(a: seq<Type>, b: seq<Type>, types: seq<Type>)
    requires Lists(a, types) && multiset(a) == multiset(b)
    ensures Lists(b, types) && |a| == |b|
  {
    assert |multiset(a)| == |a| && |multiset(b)| == |b|;
    forall t | t in b ensures t in a { assert t in multiset(b); }
    forall i | 0 <= i < |types| && Hashed(types[i].item.desc) ensures types[i] in b { assert types[i] in multiset(a); }
  }

  lemma ListsMore(a: seq<Type>, b: seq<Type>, types: seq<Type>, t: Type)
    requires Lists(a, types) && t !in types && t.item.id == |types| && Hashed(t.item.desc)
    requires multiset(b) == multiset(a + [t])
    ensures Lists(b, types + [t]) && |b| == |a| + 1
  {
    var c: seq<Type> := a + [t];
    assert t !in a;
    forall u: Type | u in c ensures Has(types + [t], u) && Hashed(u.item.desc) && multiset(c)[u] == 1 {}
    forall i | 0 <= i < |types + [t]| && Hashed((types + [t])[i].item.desc) ensures (types + [t])[i] in c {}
    ListsPermuted(c, b, types + [t]);
  }

  lemma ListsOther(a: seq<Type>, types: seq<Type>, t: Type)
    requires Lists(a, types) && !Hashed(t.item.desc)
    ensures Lists(a, types + [t])
  {
    forall u: Type | u in a ensures Has(types + [t], u) {}
  }

  function HashOf(r: TypeRec): nat { RawHash(r.desc) }

  /** The list and the table of a type manager. */
  ghost predicate Tidy(chains: seq<seq<Type>>, types: seq<Type>, key: Type -> nat) {
    Closed(types) && Canonical(types) && Stored(chains, types, key)
  }

  lemma RehashTidy(chains: seq<seq<Type>>, size: nat, types: seq<Type>, key: Type -> nat)
    requires size > 0 && Tidy(chains, types, key)
    ensures Tidy(Rehash(chains, size, key), types, key)
    ensures |Flat(Rehash(chains, size, key))| == |Flat(chains)|
  {
    hide Closed, Canonical, Stored, Rehash, Flat;
    RehashStored(chains, size, types, key);
  }

  lemma RehashStored(chains: seq<seq<Type>>, size: nat, types: seq<Type>, key: Type -> nat)
    requires size > 0 && Stored(chains, types, key)
    ensures Stored(Rehash(chains, size, key), types, key)
    ensures |Flat(Rehash(chains, size, key))| == |Flat(chains)|
  {
    hide Rehash, Lists;
    RehashConserves(chains, size, key);
    ListsPermuted(Flat(chains), Flat(Rehash(chains, size, key)), types);
  }

  /** A type object enters the list, and the table if it is a derived type. */
  lemma StoredMore(chains: seq<seq<Type>>, types: seq<Type>, t: Type, key: Type -> nat)
    requires |chains| > 0 && Stored(chains, types, key) && t.item.id == |types| && t !in types
    ensures Hashed(t.item.desc) ==>
            Stored(Put(chains, t, key), types + [t], key) && |Flat(Put(chains, t, key))| == |Flat(chains)| + 1
    ensures !Hashed(t.item.desc) ==> Stored(chains, types + [t], key)
  {
    hide Lists;
    if Hashed(t.item.desc) {
      FlatUpdate(chains, key(t) % |chains|, t);
      ListsMore(Flat(chains), Flat(Put(chains, t, key)), types, t);
    } else {
      ListsOther(Flat(chains), types, t);
    }
  }

  lemma ClosedMore(types: seq<Type>, t: Type)
    requires Closed(types) && t.item.id == |types| && forall p :: p in Parts(t.item.desc) ==> Has(types, p)
    requires Canonical(types)
            && (t.item.desc.EnumOf? || forall i :: 0 <= i < |types| ==> types[i].item.desc != t.item.desc)
    ensures Closed(types + [t]) && Canonical(types + [t])
  {
    var more := types + [t];
    forall i | 0 <= i < |more|
      ensures more[i].item.id == i && forall p :: p in Parts(more[i].item.desc) ==>
              p.item.id < i && more[p.item.id] == p
    {
      if i < |types| { assert types[i] == more[i]; }
    }
  }

  /** A new type object, numbered next and built from known ones unlike any other. */
  lemma TidyMore(chains: seq<seq<Type>>, types: seq<Type>, t: Type, key: Type -> nat)
    requires |chains| > 0 && Tidy(chains, types, key) && t.item.id == |types| && t !in types
    requires forall p :: p in Parts(t.item.desc) ==> Has(types, p)
    requires t.item.desc.EnumOf? || forall i :: 0 <= i < |types| ==> types[i].item.desc != t.item.desc
    ensures Hashed(t.item.desc) ==>
              Tidy(Put(chains, t, key), types + [t], key) && |Flat(Put(chains, t, key))| == |Flat(chains)| + 1
    ensures !Hashed(t.item.desc) ==> Tidy(chains, types + [t], key)
  {
    hide Closed, Canonical, Stored, Put, Flat, Parts, Has;
    ClosedMore(types, t);
    StoredMore(chains, types, t, key);
  }

  /** Every cell of the table is a type of the list. */
  ghost predicate Known(cells: set<Type>, types: seq<Type>) {
    forall c :: c in cells ==> Has(types, c)
  }

  lemma KnownMore(cells: set<Type>, types: seq<Type>, t: Type)
    requires Known(cells, types) && t.item.id == |types|
    ensures Known(cells, types + [t]) && Known(cells + {t}, types + [t])
    ensures t !in types ==> t !in cells
  {
  }

  ghost predicate HasPrims(types: seq<Type>) {
    && |types| >= 5
    && types[0].item.desc == Prim(Void) && types[1].item.desc == Prim(Boolean) && types[2].item.desc == Prim(Int)
    && types[3].item.desc == Prim(Float) && types[4].item.desc == Prim(String)
  }

  ghost function Meaning(types: seq<Type>, named: map<Ast.Expr, Type>): Ast.Expr -> Option<Ir.Ty>
    requires Closed(types) && forall e :: e in named ==> Has(types, named[e])
  {
    (e: Ast.Expr) => if e in named then Some(Shape(types, named[e])) else None
  }

  lemma {:induction false} DenotesStable(a: Ast.TypeExpr, types: seq<Type>, more: seq<Type>, named: map<Ast.Expr, Type>)
    requires Closed(types) && Closed(more) && types <= more && forall e :: e in named ==> Has(types, named[e])
    ensures forall e :: e in named ==> Has(more, named[e])
    ensures Denotes(a, Meaning(types, named)) == Denotes(a, Meaning(more, named))
  {
    match a
    case ArrayType(e) => DenotesStable(e, types, more, named);
    case SetType(e) => DenotesStable(e, types, more, named);
    case MapType(k, e) =>
      DenotesStable(k, types, more, named);
      DenotesStable(e, types, more, named);
    case NamedType(path) => if path in named { ShapeStable(types, more, named[path]); }
    case _ =>
  }

  /** The table is enlarged when it holds 1.8 times as many types as buckets. */
  function Limit(size: nat): nat { size * 9 / 5 }

  class TypeMgr {
    var types: seq<Type>
    const table: ChainTable<TypeRec>
    var hashNum: nat
    var limit: nat

    ghost predicate Valid()
      reads this, table, table.table, table.cells
      ensures Valid() ==> Closed(types) && Canonical(types)
    {
      && table.Valid() && table.hash == HashOf
      && Tidy(table.chains, types, table.Key())
      && hashNum == |Flat(table.chains)| <= limit == Limit(|table.chains|)
      && Known(table.cells, types)
    }

    constructor Empty()
      ensures Valid() && fresh(table) && fresh(table.table) && table.cells == {}
      ensures types == []
    {
      types, hashNum, limit := [], 0, Limit(1024);
      table := new ChainTable(1024, HashOf);
      new;
      FlatEmpty(table.chains);
    }

    /** Register the primitive types, which are numbered from zero. */
    method Init()
      requires Valid() && types == [] && table.cells == {}
      modifies this, table, table.table
      ensures Valid() && |types| == 5
      ensures types[0].item.desc == Prim(Void) && types[1].item.desc == Prim(Boolean) && types[2].item.desc == Prim(Int)
      ensures types[3].item.desc == Prim(Float) && types[4].item.desc == Prim(String)
    {
      hide TypeMgr.Valid;
      RegPrimitive(Void, []);
      RegPrimitive(Boolean, [Void]);
      RegPrimitive(Int, [Void, Boolean]);
      RegPrimitive(Float, [Void, Boolean, Int]);
      RegPrimitive(String, [Void, Boolean, Int, Float]);
    }

    method RegPrimitive(kind: PrimKind, ghost kinds: seq<PrimKind>)
      requires Valid() && table.cells == {} && kind !in kinds
      requires |types| == |kinds| && forall i :: 0 <= i < |kinds| ==> types[i].item.desc == Prim(kinds[i])
      modifies this, table, table.table
      ensures Valid() && |types| == |kinds| + 1 && types[|kinds|].item.desc == Prim(kind)
      ensures forall i :: 0 <= i < |kinds| ==> types[i].item.desc == Prim(kinds[i])
      ensures table.cells == {} && (fresh(table.table) || table.table == old(table.table))
    {
      hide TypeMgr.Valid;
      var t := RegType(Prim(kind));
    }

    /** The object built like `d`, if there is one in the bucket of its hash. */
    method Lookup(d: Desc, hash: nat) returns (t: Cell?<TypeRec>)
      requires Valid() && Hashed(d) && hash == RawHash(d)
      ensures Valid()
      ensures t != null ==> Has(types, t) && t.item.desc == d
      ensures t == null ==> forall i :: 0 <= i < |types| ==> types[i].item.desc != d
    {
      var pos := hash % table.table.Length;
      t := table.table[pos];
      ghost var k := 0;
      ghost var c := table.chains[pos];
      while t != null
        invariant k <= |c| && t == After(c, k - 1)
        invariant forall j :: 0 <= j < k ==> c[j].item.desc != d
        decreases |c| - k
      {
        assert Index(table.chains, pos, k);
        if t.item.desc == d {
          return;
        }
        t := t.link;
        k := k + 1;
      }
      forall i | 0 <= i < |types| ensures types[i].item.desc != d {
        if types[i].item.desc == d {
          ProbedChain(table.chains, types[i], table.Key());
        }
      }
    }

    /** The one object built like `d`, made when it is asked for first. */
    method Get(d: Desc, hash: nat) returns (t: Type)
      requires Valid() && Hashed(d) && hash == RawHash(d)
      requires forall p :: p in Parts(d) ==> Has(types, p)
      modifies this, table, table.table, table.cells`link
      ensures Valid() && Has(types, t) && t.item.desc == d
      ensures types == old(types) || (types == old(types) + [t] && fresh(t))
      ensures forall c :: c in table.cells ==> c in old(table.cells) || fresh(c)
      ensures fresh(table.table) || table.table == old(table.table)
    {
      hide TypeMgr.Valid, RawHash, Parts;
      var found := Lookup(d, hash);
      if found != null {
        t := found;
      } else {
        t := RegType(d);
      }
    }

    method ArrayType(elem: Type) returns (t: Type)
      requires Valid() && Has(types, elem)
      modifies this, table, table.table, table.cells`link
      ensures Valid() && Has(types, t) && t.item.desc == ArrayOf(elem)
      ensures types == old(types) || (types == old(types) + [t] && fresh(t))
      ensures forall c :: c in table.cells ==> c in old(table.cells) || fresh(c)
      ensures fresh(table.table) || table.table == old(table.table)
    {
      hide TypeMgr.Valid;
      t := Get(ArrayOf(elem), elem.item.id % WORD);
    }

    method SetType(elem: Type) returns (t: Type)
      requires Valid() && Has(types, elem)
      modifies this, table, table.table, table.cells`link
      ensures Valid() && Has(types, t) && t.item.desc == SetOf(elem)
      ensures types == old(types) || (types == old(types) + [t] && fresh(t))
      ensures forall c :: c in table.cells ==> c in old(table.cells) || fresh(c)
      ensures fresh(table.table) || table.table == old(table.table)
    {
      hide TypeMgr.Valid;
      t := Get(SetOf(elem), (elem.item.id + 511) % WORD);
    }

    method MapType(key: Type, elem: Type) returns (t: Type)
      requires Valid() && Has(types, key) && Has(types, elem)
      modifies this, table, table.table, table.cells`link
      ensures Valid() && Has(types, t) && t.item.desc == MapOf(key, elem)
      ensures types == old(types) || (types == old(types) + [t] && fresh(t))
      ensures forall c :: c in table.cells ==> c in old(table.cells) || fresh(c)
      ensures fresh(table.table) || table.table == old(table.table)
      ensures Shape(types, t) == Ir.Map(Shape(old(types), key), Shape(old(types), elem))
    {
      hide TypeMgr.Valid, Shape;
      t := Get(MapOf(key, elem), (key.item.id * 2047 + elem.item.id + 511) % WORD);
      ShapeStable(old(types), types, key);
      ShapeStable(old(types), types, elem);
      MapShape(types, t, key, elem);
    }

    method FunctionType(output: Type, inputs: seq<Type>) returns (t: Type)
      requires Valid() && Has(types, output) && forall i :: 0 <= i < |inputs| ==> Has(types, inputs[i])
      modifies this, table, table.table, table.cells`link
      ensures Valid() && Has(types, t) && t.item.desc == FuncOf(output, inputs)
      ensures types == old(types) || (types == old(types) + [t] && fresh(t))
      ensures forall c :: c in table.cells ==> c in old(table.cells) || fresh(c)
      ensures fresh(table.table) || table.table == old(table.table)
    {
      hide TypeMgr.Valid;
      var h := HashFunc(output, inputs);
      t := Get(FuncOf(output, inputs), h);
    }

    /** An enum type is a new object every time. */
    method EnumType(name: string, elems: seq<(string, int)>) returns (t: Type)
      requires Valid()
      modifies this, table, table.table, table.cells`link
      ensures Valid() && types == old(types) + [t] && fresh(t) && t.item.desc == EnumOf(name, elems)
      ensures forall c :: c in table.cells ==> c in old(table.cells) || fresh(c)
      ensures fresh(table.table) || table.table == old(table.table)
    {
      hide TypeMgr.Valid;
      t := RegType(EnumOf(name, elems));
    }

    /** The object for a type expression, where `named` holds the objects of the named types: it stands for
        what the expression denotes. */
    method ResolveType(a: Ast.TypeExpr, named: map<Ast.Expr, Type>) returns (t: Cell?<TypeRec>)
      requires Valid() && HasPrims(types) && forall e :: e in named ==> Has(types, named[e])
      modifies this, table, table.table, table.cells`link
      ensures Valid() && HasPrims(types) && old(types) <= types
      ensures forall c :: c in table.cells ==> c in old(table.cells) || fresh(c)
      ensures fresh(table.table) || table.table == old(table.table)
      ensures match Denotes(a, Meaning(old(types), named))
              case None => t == null
              case Some(ty) => t != null && Has(types, t) && Shape(types, t) == ty
      decreases a, 1
    {
      hide TypeMgr.Valid;
      match a
      case VoidType => t := types[0];
      case BooleanType => t := types[1];
      case IntType => t := types[2];
      case FloatType => t := types[3];
      case StringType => t := types[4];
      case NamedType(path) => t := if path in named then named[path] else null;
      case ArrayType(_) => t := ResolveArray(a, named);
      case SetType(_) => t := ResolveSet(a, named);
      case MapType(_, _) => t := ResolveMap(a, named);
    }

    method ResolveArray(a: Ast.TypeExpr, named: map<Ast.Expr, Type>) returns (t: Cell?<TypeRec>)
      requires a.ArrayType? && Valid() && HasPrims(types) && forall e :: e in named ==> Has(types, named[e])
      modifies this, table, table.table, table.cells`link
      ensures Valid() && HasPrims(types) && old(types) <= types
      ensures forall c :: c in table.cells ==> c in old(table.cells) || fresh(c)
      ensures fresh(table.table) || table.table == old(table.table)
      ensures match Denotes(a, Meaning(old(types), named))
              case None => t == null
              case Some(ty) => t != null && Has(types, t) && Shape(types, t) == ty
      decreases a, 0
    {
      hide TypeMgr.Valid;
      t := ResolveType(a.elem, named);
      if t != null {
        ghost var before := types;
        ghost var elem: Type := t;
        t := ArrayType(t);
        ShapeStable(before, types, elem);
      }
    }

    method ResolveSet(a: Ast.TypeExpr, named: map<Ast.Expr, Type>) returns (t: Cell?<TypeRec>)
      requires a.SetType? && Valid() && HasPrims(types) && forall e :: e in named ==> Has(types, named[e])
      modifies this, table, table.table, table.cells`link
      ensures Valid() && HasPrims(types) && old(types) <= types
      ensures forall c :: c in table.cells ==> c in old(table.cells) || fresh(c)
      ensures fresh(table.table) || table.table == old(table.table)
      ensures match Denotes(a, Meaning(old(types), named))
              case None => t == null
              case Some(ty) => t != null && Has(types, t) && Shape(types, t) == ty
      decreases a, 0
    {
      hide TypeMgr.Valid;
      t := ResolveType(a.elem, named);
      if t != null {
        ghost var before := types;
        ghost var elem: Type := t;
        t := SetType(t);
        ShapeStable(before, types, elem);
      }
    }

    method ResolveMap(a: Ast.TypeExpr, named: map<Ast.Expr, Type>) returns (t: Cell?<TypeRec>)
      requires a.MapType? && Valid() && HasPrims(types) && forall e :: e in named ==> Has(types, named[e])
      modifies this, table, table.table, table.cells`link
      ensures Valid() && HasPrims(types) && old(types) <= types
      ensures forall c :: c in table.cells ==> c in old(table.cells) || fresh(c)
      ensures fresh(table.table) || table.table == old(table.table)
      ensures match Denotes(a, Meaning(old(types), named))
              case None => t == null
              case Some(ty) => t != null && Has(types, t) && Shape(types, t) == ty
      decreases a, 0
    {
      DenotesMap(a, Meaning(types, named));
      hide TypeMgr.Valid, Shape, Meaning, Denotes, Closed, Canonical;
      t := ResolveType(a.key, named);
      if t != null {
        var key: Type := t;
        DenotesStable(a.elem, old(types), types, named);
        t := ResolveElem(a.elem, key, named);
      }
    }

    /** The rest of a map type, its key resolved. */
    method ResolveElem(a: Ast.TypeExpr, key: Type, named: map<Ast.Expr, Type>) returns (t: Cell?<TypeRec>)
      requires Valid() && HasPrims(types) && Has(types, key) && forall e :: e in named ==> Has(types, named[e])
      modifies this, table, table.table, table.cells`link
      ensures Valid() && HasPrims(types) && old(types) <= types
      ensures forall c :: c in table.cells ==> c in old(table.cells) || fresh(c)
      ensures fresh(table.table) || table.table == old(table.table)
      ensures var elem := Denotes(a, Meaning(old(types), named));
              if elem.None? then t == null
              else t != null && Has(types, t) && Shape(types, t) == Ir.Map(Shape(old(types), key), elem.value)
      decreases a, 2
    {
      hide TypeMgr.Valid, Shape, Meaning, Denotes, Closed, Canonical;
      t := ResolveType(a, named);
      if t != null {
        ShapeStable(old(types), types, key);
        t := MapType(key, t);
      }
    }

    /** Two type expressions resolved one after the other, whatever is registered on the way: the objects are
        the same exactly when the expressions denote the same type. */
    method ResolveTwo(a: Ast.TypeExpr, b: Ast.TypeExpr, named: map<Ast.Expr, Type>)
      returns (s: Cell?<TypeRec>, t: Cell?<TypeRec>)
      requires Valid() && HasPrims(types) && forall e :: e in named ==> Has(types, named[e])
      modifies this, table, table.table, table.cells`link
      ensures Valid() && HasPrims(types) && old(types) <= types
      ensures var m := Meaning(old(types), named);
              && (s == null <==> Denotes(a, m).None?)
              && (t == null <==> Denotes(b, m).None?)
              && (s != null && t != null ==> (s == t <==> Denotes(a, m) == Denotes(b, m)))
    {
      hide TypeMgr.Valid, Shape, Meaning, Denotes, Closed, Canonical, HasPrims;
      s := ResolveType(a, named);
      ghost var before := types;
      DenotesStable(b, old(types), before, named);
      t := ResolveType(b, named);
      if s != null && t != null {
        ShapeStable(before, types, s);
        SameShapeSameObject(types, s, t);
      }
    }

    /** Double the table when it is full. */
    method MakeRoom()
      requires Valid()
      modifies this`limit, table, table.cells`link
      ensures Valid() && hashNum < limit
      ensures table.cells == old(table.cells) && (fresh(table.table) || table.table == old(table.table))
    {
      hide Tidy;
      if hashNum >= limit {
        limit := Limit(2 * table.table.Length);
        RehashTidy(table.chains, 2 * table.table.Length, types, table.Key());
        var _ := table.AllocTable(2 * table.table.Length);
      }
    }

    /** Register a type under the next number; a derived type is linked into the table. */
    method RegType(d: Desc) returns (t: Type)
      requires Valid()
      requires forall p :: p in Parts(d) ==> Has(types, p)
      requires d.EnumOf? || forall i :: 0 <= i < |types| ==> types[i].item.desc != d
      modifies this, table, table.table, table.cells`link
      ensures Valid() && fresh(t) && t.item == TypeRec(|old(types)|, d) && types == old(types) + [t]
      ensures table.cells <= old(table.cells) + {t} && (fresh(table.table) || table.table == old(table.table))
      ensures !Hashed(d) ==> table.cells == old(table.cells)
    {
      hide Tidy, Known, Has, Limit, Flat, Put, HashOf, Parts, RawHash;
      MakeRoom();
      t := new Cell(TypeRec(|types|, d));
      KnownMore(table.cells, types, t);
      TidyMore(table.chains, types, t, table.Key());
      types := types + [t];
      if Hashed(d) {
        table.Put(t);
        hashNum := hashNum + 1;
      }
    }
  }
}
