/** Declaring constants: what a constant declaration makes of a name, and when its definition can be written
    out where the name is used. */
module Constants {
  import opened Common
  import opened Ir
  import opened Ast
  import opened Typing
  import opened Interp
  import opened ScopeGraph
  import opened Elaborate
  import opened ConstProp
  import Buckets
  import ScopeTable
  import Soundness

  // ----- the names an expression looks up -----

  /** Looked up in the scope of the expression itself. */
  function Heads(e: Expr): set<string> {
    match e
    case Symbol(n) => {n}
    case MemberRef(b, _) => Heads(b)
    case ArrayRef(b, i) => Heads(b) + Heads(i)
    case Unary(_, a) => Heads(a)
    case Binary(_, a, b) => Heads(a) + Heads(b)
    case Ite(a, b, c) => Heads(a) + Heads(b) + Heads(c)
    case FuncCall(_, args) => HeadsAll(args)
    case _ => {}
  }

  function HeadsAll(es: seq<Expr>): set<string> {
    if es == [] then {} else Heads(es[0]) + HeadsAll(es[1..])
  }

  /** Looked up in the scope of an enum or a module. */
  function Members(e: Expr): set<string> {
    match e
    case MemberRef(b, m) => Members(b) + {m}
    case ArrayRef(b, i) => Members(b) + Members(i)
    case Unary(_, a) => Members(a)
    case Binary(_, a, b) => Members(a) + Members(b)
    case Ite(a, b, c) => Members(a) + Members(b) + Members(c)
    case FuncCall(_, args) => MembersAll(args)
    case _ => {}
  }

  function MembersAll(es: seq<Expr>): set<string> {
    if es == [] then {} else Members(es[0]) + MembersAll(es[1..])
  }

  function Names(e: Expr): set<string> { Heads(e) + Members(e) }

  function NamesAll(es: seq<Expr>): set<string> { HeadsAll(es) + MembersAll(es) }

  /** Both scope graphs give every one of the names the same meaning in every scope. */
  ghost predicate SameFinds(names: set<string>, s1: seq<ScopeRec>, s2: seq<ScopeRec>, hash: string -> nat) {
    && Wf(s1) && Wf(s2) && |s1| <= |s2|
    && forall n, k :: n in names && 0 <= k < |s1| ==> Find(s1, k, n, hash) == Find(s2, k, n, hash)
  }

  /** Elaboration depends on the scopes through these names only. */
  lemma {:induction false} ElabSame(e: Expr, sc: nat, s1: seq<ScopeRec>, s2: seq<ScopeRec>, calls: seq<CallStub>,
                                    hash: string -> nat)
    requires |s1| == |s2| && sc < |s1| && SameFinds(Names(e), s1, s2, hash)
    ensures ElabExpr(e, sc, s1, calls, hash) == ElabExpr(e, sc, s2, calls, hash)
    decreases e, 1
  {
    hide Find, Wf;
    match e
    case Symbol(_) => PrimarySame(e, sc, s1, s2, calls, hash);
    case ArrayRef(_, _) => PrimarySame(e, sc, s1, s2, calls, hash);
    case MemberRef(_, _) => PrimarySame(e, sc, s1, s2, calls, hash);
    case FuncCall(_, args) => ArgsSame(args, sc, s1, s2, calls, hash);
    case Unary(_, a) => ElabSame(a, sc, s1, s2, calls, hash);
    case Binary(_, a, b) =>
      ElabSame(a, sc, s1, s2, calls, hash);
      ElabSame(b, sc, s1, s2, ElabExpr(a, sc, s1, calls, hash).calls, hash);
    case Ite(a, b, c) =>
      ElabSame(a, sc, s1, s2, calls, hash);
      var x := ElabExpr(a, sc, s1, calls, hash);
      ElabSame(b, sc, s1, s2, x.calls, hash);
      ElabSame(c, sc, s1, s2, ElabExpr(b, sc, s1, x.calls, hash).calls, hash);
    case _ =>
  }

  lemma {:induction false} ArgsSame(es: seq<Expr>, sc: nat, s1: seq<ScopeRec>, s2: seq<ScopeRec>, calls: seq<CallStub>,
                                    hash: string -> nat)
    requires |s1| == |s2| && sc < |s1| && SameFinds(NamesAll(es), s1, s2, hash)
    ensures ElabArgs(es, sc, s1, calls, hash) == ElabArgs(es, sc, s2, calls, hash)
    decreases es, 0
  {
    hide Find, Wf, ElabExpr;
    if es != [] {
      ElabSame(es[0], sc, s1, s2, calls, hash);
      ArgsSame(es[1..], sc, s1, s2, ElabExpr(es[0], sc, s1, calls, hash).calls, hash);
    }
  }

  lemma {:induction false} PrimarySame(e: Expr, sc: nat, s1: seq<ScopeRec>, s2: seq<ScopeRec>, calls: seq<CallStub>,
                                       hash: string -> nat)
    requires |s1| == |s2| && sc < |s1| && SameFinds(Names(e), s1, s2, hash)
    ensures ElabPrimary(e, sc, s1, calls, hash) == ElabPrimary(e, sc, s2, calls, hash)
    decreases e, 0
  {
    hide Find, Wf, ElabExpr;
    match e
    case Symbol(n) => assert n in Names(e);
    case ArrayRef(b, i) =>
      PrimarySame(b, sc, s1, s2, calls, hash);
      ElabSame(i, sc, s1, s2, ElabPrimary(b, sc, s1, calls, hash).calls, hash);
    case MemberRef(b, m) =>
      PrimarySame(b, sc, s1, s2, calls, hash);
      assert m in Names(e);
    case _ =>
  }

  // ----- constant expressions in two scopes -----

  /** As above, between two scopes, the second graph possibly having more: what is a constant expression in the
      one is the same in the other. */
  lemma {:induction false} StaticSame(e: Expr, sc1: nat, s1: seq<ScopeRec>, sc2: nat, s2: seq<ScopeRec>,
                                      hash: string -> nat)
    requires SameFinds(Members(e), s1, s2, hash) && sc1 < |s1| && sc2 < |s2|
    requires forall n :: n in Heads(e) ==> Find(s1, sc1, n, hash) == Find(s2, sc2, n, hash)
    requires ElabExpr(e, sc1, s1, [], hash).r.Ok? && IsStatic(ElabExpr(e, sc1, s1, [], hash).r.value)
    ensures ElabExpr(e, sc1, s1, [], hash) == ElabExpr(e, sc2, s2, [], hash)
  {
    hide Find, Wf;
    match e
    case Symbol(_) => PathSame(e, sc1, s1, sc2, s2, hash);
    case ArrayRef(_, _) => PathSame(e, sc1, s1, sc2, s2, hash);
    case MemberRef(_, _) => PathSame(e, sc1, s1, sc2, s2, hash);
    case Unary(_, a) => StaticSame(a, sc1, s1, sc2, s2, hash);
    case Binary(_, a, b) =>
      StaticElab(a, sc1, s1, [], [], hash);
      StaticSame(a, sc1, s1, sc2, s2, hash);
      StaticSame(b, sc1, s1, sc2, s2, hash);
    case Ite(a, b, c) =>
      StaticElab(a, sc1, s1, [], [], hash);
      StaticElab(b, sc1, s1, [], [], hash);
      StaticSame(a, sc1, s1, sc2, s2, hash);
      StaticSame(b, sc1, s1, sc2, s2, hash);
      StaticSame(c, sc1, s1, sc2, s2, hash);
    case _ =>
  }

  lemma {:induction false} PathSame(e: Expr, sc1: nat, s1: seq<ScopeRec>, sc2: nat, s2: seq<ScopeRec>,
                                    hash: string -> nat)
    requires SameFinds(Members(e), s1, s2, hash) && sc1 < |s1| && sc2 < |s2|
    requires forall n :: n in Heads(e) ==> Find(s1, sc1, n, hash) == Find(s2, sc2, n, hash)
    requires ElabPrimary(e, sc1, s1, [], hash).r.Ok? && !ElabPrimary(e, sc1, s1, [], hash).r.value.ArrayRef?
    ensures ElabPrimary(e, sc1, s1, [], hash) == ElabPrimary(e, sc2, s2, [], hash)
  {
    hide Find, Wf, ElabExpr;
    match e
    case Symbol(n) => assert n in Heads(e);
    case MemberRef(b, m) =>
      PathSame(b, sc1, s1, sc2, s2, hash);
      assert m in Members(e);
    case _ =>
  }

  // ----- lookups after a declaration -----

  /** Every entry is in its bucket, and no two entries share one of the names. */
  ghost predicate Settled(t: ScopeTable.Table<Handle>, names: set<string>, hash: string -> nat) {
    && |t.chains| > 0
    && Buckets.Placed(t.chains, Key(hash))
    && forall x, y :: x in Buckets.Flat(t.chains) && y in Buckets.Flat(t.chains) ==>
         NameOf(x) == NameOf(y) && NameOf(x) in names ==> x == y
  }

  lemma FewerSettled(t: ScopeTable.Table<Handle>, few: set<string>, names: set<string>, hash: string -> nat)
    requires Settled(t, names, hash) && few <= names
    ensures Settled(t, few, hash)
  {
  }

  /** A lookup finds an entry of that name, if there is one. */
  lemma EntryFound(t: ScopeTable.Table<Handle>, n: string, hash: string -> nat)
    requires |t.chains| > 0 && Buckets.Placed(t.chains, Key(hash))
    ensures ScopeTable.FindLocal(t, n, NameOf, hash).None? <==>
            forall x :: x in Buckets.Flat(t.chains) ==> NameOf(x) != n
    ensures var r := ScopeTable.FindLocal(t, n, NameOf, hash);
            r.Some? ==> r.value in Buckets.Flat(t.chains) && NameOf(r.value) == n
  {
    hide Buckets.Flat, ScopeTable.FindLocal;
    ScopeTable.PlacedFinds(t, n, NameOf, hash);
  }

  lemma AddMembers(t: ScopeTable.Table<Handle>, h: Handle, key: Handle -> nat, x: Handle)
    requires |t.chains| > 0
    ensures x in Buckets.Flat(ScopeTable.Add(t, h, key).chains) <==> x == h || x in Buckets.Flat(t.chains)
  {
    hide ScopeTable.Add, Buckets.Flat;
    ScopeTable.AddConserves(t, h, key);
    var a, b := Buckets.Flat(ScopeTable.Add(t, h, key).chains), Buckets.Flat(t.chains);
    assert x in a <==> x in multiset(a);
    assert x in b <==> x in multiset(b);
  }

  lemma SettledAdd(t: ScopeTable.Table<Handle>, h: Handle, names: set<string>, hash: string -> nat)
    requires Settled(t, names, hash)
    requires NameOf(h) !in names || ScopeTable.FindLocal(t, NameOf(h), NameOf, hash).None?
    ensures Settled(ScopeTable.Add(t, h, Key(hash)), names, hash)
  {
    hide ScopeTable.Add, Buckets.Flat, Buckets.Placed, ScopeTable.FindLocal;
    var u := ScopeTable.Add(t, h, Key(hash));
    ScopeTable.AddConserves(t, h, Key(hash));
    EntryFound(t, NameOf(h), hash);
    forall x ensures x in Buckets.Flat(u.chains) <==> x == h || x in Buckets.Flat(t.chains) {
      AddMembers(t, h, Key(hash), x);
    }
  }

  /** Other names find what they found before an addition. */
  lemma OthersFound(t: ScopeTable.Table<Handle>, h: Handle, n: string, names: set<string>, hash: string -> nat)
    requires Settled(t, names, hash) && n in names && n != NameOf(h)
    ensures ScopeTable.FindLocal(ScopeTable.Add(t, h, Key(hash)), n, NameOf, hash)
         == ScopeTable.FindLocal(t, n, NameOf, hash)
  {
    var u := ScopeTable.Add(t, h, Key(hash));
    hide ScopeTable.Add, Buckets.Flat, Buckets.Placed, ScopeTable.FindLocal;
    ScopeTable.AddConserves(t, h, Key(hash));
    EntryFound(t, n, hash);
    EntryFound(u, n, hash);
    forall x ensures x in Buckets.Flat(u.chains) <==> x == h || x in Buckets.Flat(t.chains) {
      AddMembers(t, h, Key(hash), x);
    }
  }

  /** A declaration changes what its own name means and nothing else. */
  lemma {:induction false} FindUnchanged(scopes: seq<ScopeRec>, sc: nat, h: Handle, n: string, names: set<string>,
                                         k: nat, hash: string -> nat)
    requires Wf(scopes) && sc < |scopes| && k < |scopes|
    requires Settled(scopes[sc].table, names, hash) && n in names && n != NameOf(h)
    ensures |scopes[sc].table.chains| > 0 && Wf(AddHandle(scopes, sc, h, hash))
    ensures Find(AddHandle(scopes, sc, h, hash), k, n, hash) == Find(scopes, k, n, hash)
    decreases k
  {
    hide Settled, ScopeTable.Add, ScopeTable.FindLocal;
    assert |scopes[sc].table.chains| > 0 by { assert ScopeWf(scopes, sc); }
    AddWf(scopes, sc, h, hash);
    var r := AddHandle(scopes, sc, h, hash);
    assert ScopeWf(scopes, k) && ScopeWf(r, k);
    OthersFound(scopes[sc].table, h, n, names, hash);
    if scopes[k].parent.Some? { FindUnchanged(scopes, sc, h, n, names, scopes[k].parent.value, hash); }
    if scopes[k].globalScope.Some? { FindUnchanged(scopes, sc, h, n, names, scopes[k].globalScope.value, hash); }
  }

  lemma DeclareSameFinds(names: set<string>, scopes: seq<ScopeRec>, sc: nat, h: Handle, hash: string -> nat)
    requires Wf(scopes) && sc < |scopes| && Settled(scopes[sc].table, names, hash) && NameOf(h) !in names
    ensures SameFinds(names, scopes, AddHandle(scopes, sc, h, hash), hash)
  {
    hide Settled, Find, AddHandle;
    assert |scopes[sc].table.chains| > 0 by { assert ScopeWf(scopes, sc); }
    AddWf(scopes, sc, h, hash);
    forall n, k | n in names && 0 <= k < |scopes|
      ensures Find(scopes, k, n, hash) == Find(AddHandle(scopes, sc, h, hash), k, n, hash)
    {
      FindUnchanged(scopes, sc, h, n, names, k, hash);
    }
  }

  /** A new scope changes no lookup from the others, and finds itself what its parent finds. */
  lemma {:induction false} OpenFinds(scopes: seq<ScopeRec>, parent: nat, n: string, k: nat, hash: string -> nat)
    requires Wf(scopes) && parent < |scopes| && k <= |scopes|
    ensures Wf(NewScope(scopes, Some(parent)))
    ensures Find(NewScope(scopes, Some(parent)), k, n, hash)
            == Find(scopes, if k == |scopes| then parent else k, n, hash)
    decreases k
  {
    NewScopeWf(scopes, Some(parent));
    var r := NewScope(scopes, Some(parent));
    assert ScopeWf(r, k) && ScopeWf(scopes, parent);
    if k == |scopes| {
      assert ScopeTable.FindLocal(ScopeTable.NewTable<Handle>(), n, NameOf, hash).None?;
      OpenFinds(scopes, parent, n, parent, hash);
      var g := scopes[parent].globalScope;
      if g.Some? { OpenFinds(scopes, parent, n, g.value, hash); }
    } else {
      assert ScopeWf(scopes, k);
      if scopes[k].parent.Some? { OpenFinds(scopes, parent, n, scopes[k].parent.value, hash); }
      if scopes[k].globalScope.Some? { OpenFinds(scopes, parent, n, scopes[k].globalScope.value, hash); }
    }
  }

  lemma OpenSameFinds(names: set<string>, scopes: seq<ScopeRec>, parent: nat, hash: string -> nat)
    requires Wf(scopes) && parent < |scopes|
    ensures SameFinds(names, scopes, NewScope(scopes, Some(parent)), hash)
  {
    hide Find;
    NewScopeWf(scopes, Some(parent));
    forall n, k | n in names && 0 <= k < |scopes|
      ensures Find(scopes, k, n, hash) == Find(NewScope(scopes, Some(parent)), k, n, hash)
    {
      OpenFinds(scopes, parent, n, k, hash);
    }
  }

  /** A declaration in a scope the lookup does not come by changes nothing, whatever its name. */
  lemma {:induction false} FindOffPath(scopes: seq<ScopeRec>, sc: nat, h: Handle, n: string, k: nat,
                                       hash: string -> nat)
    requires Wf(scopes) && sc < |scopes| && k < |scopes| && sc !in Path(scopes, k)
    ensures |scopes[sc].table.chains| > 0 && Wf(AddHandle(scopes, sc, h, hash))
    ensures Find(AddHandle(scopes, sc, h, hash), k, n, hash) == Find(scopes, k, n, hash)
    decreases k
  {
    hide ScopeTable.Add, ScopeTable.FindLocal;
    assert |scopes[sc].table.chains| > 0 by { assert ScopeWf(scopes, sc); }
    AddWf(scopes, sc, h, hash);
    var r := AddHandle(scopes, sc, h, hash);
    assert ScopeWf(scopes, k) && ScopeWf(r, k);
    PathWf(scopes, k);
    if scopes[k].parent.Some? {
      var p := scopes[k].parent.value;
      FindOffPath(scopes, sc, h, n, p, hash);
      PathWf(scopes, p);
    }
    if scopes[k].globalScope.Some? {
      var g := scopes[k].globalScope.value;
      assert ScopeWf(scopes, g) && Path(scopes, g) == [g];
      FindOffPath(scopes, sc, h, n, g, hash);
    }
  }

  // ----- the declaration of a constant -----

  /** When the declaration of a constant is accepted: the name is free, the type resolves, and the
      definition is a constant expression with a value that is not a string. */
  ghost predicate Declares(c: string, t: TypeExpr, d: Expr, sc: nat, st: State, env: Env)
    requires Wf(st.scopes) && sc < |st.scopes|
  {
    && NameFree(st, sc, c, env)
    && ResolveType(t, sc, st.scopes, st.calls, env.hash).r.Ok?
    && Constant(d, sc, st.scopes, env)
  }

  ghost predicate Constant(d: Expr, sc: nat, scopes: seq<ScopeRec>, env: Env)
    requires Wf(scopes) && sc < |scopes|
  {
    var x := ElabExpr(d, sc, scopes, [], env.hash).r;
    x.Ok? && IsStatic(x.value) && ConstHandle("", x.value, env.fp).Ok?
  }

  /** The handle of the constant: the value of its definition under its name. */
  ghost function HandleOf(c: string, d: Expr, sc: nat, scopes: seq<ScopeRec>, env: Env): (h: Handle)
    requires Wf(scopes) && sc < |scopes| && Constant(d, sc, scopes, env)
    ensures NameOf(h) == c && ConstHandle(c, ElabExpr(d, sc, scopes, [], env.hash).r.value, env.fp) == Ok(h)
  {
    ConstHandle(c, ElabExpr(d, sc, scopes, [], env.hash).r.value, env.fp).value
  }

  /** A static definition is accepted exactly if its evaluation yields a value; evaluation then comes by no
      string and no missing cast, at any depth. */
  lemma ConstantsAreClean(d: Expr, sc: nat, scopes: seq<ScopeRec>, env: Env)
    requires Wf(scopes) && sc < |scopes|
    requires ElabExpr(d, sc, scopes, [], env.hash).r.Ok? && IsStatic(ElabExpr(d, sc, scopes, [], env.hash).r.value)
    ensures var n := ElabExpr(d, sc, scopes, [], env.hash).r.value;
            && (Constant(d, sc, scopes, env) <==> Soundness.Evaluate(n, env.fp) == Soundness.Value)
            && (Constant(d, sc, scopes, env) ==> Soundness.Clean(n, env.fp))
  {
    StaticAccepted(d, sc, scopes, [], env.hash);
    hide ElabExpr, EvalBoolean, EvalInt, EvalFloat, Soundness.Accepted, Soundness.Clean, IsStatic;
    var n := ElabExpr(d, sc, scopes, [], env.hash).r.value;
    if Constant(d, sc, scopes, env) { Soundness.ValueIsClean(n, env.fp); }
  }

  /** The scopes after the declaration. */
  ghost function After(c: string, d: Expr, sc: nat, scopes: seq<ScopeRec>, env: Env): (r: seq<ScopeRec>)
    requires Wf(scopes) && sc < |scopes| && Constant(d, sc, scopes, env)
    ensures Wf(r) && |r| == |scopes|
  {
    assert ScopeWf(scopes, sc);
    AddWf(scopes, sc, HandleOf(c, d, sc, scopes, env), env.hash);
    AddHandle(scopes, sc, HandleOf(c, d, sc, scopes, env), env.hash)
  }

  lemma StaticAnyCalls(d: Expr, sc: nat, scopes: seq<ScopeRec>, calls: seq<CallStub>, hash: string -> nat)
    requires Wf(scopes) && sc < |scopes|
    ensures var x, y := ElabExpr(d, sc, scopes, calls, hash).r, ElabExpr(d, sc, scopes, [], hash).r;
            && (x.Ok? && IsStatic(x.value) <==> y.Ok? && IsStatic(y.value))
            && (x.Ok? && IsStatic(x.value) ==> x == y)
  {
    var x, y := ElabExpr(d, sc, scopes, calls, hash), ElabExpr(d, sc, scopes, [], hash);
    if x.r.Ok? && IsStatic(x.r.value) { StaticElab(d, sc, scopes, calls, [], hash); }
    if y.r.Ok? && IsStatic(y.r.value) { StaticElab(d, sc, scopes, [], calls, hash); }
    hide ElabExpr, Wf, IsStatic;
  }

  lemma AnyName(c: string, n: Node, fp: FloatOps)
    ensures ConstHandle(c, n, fp).Ok? <==> ConstHandle("", n, fp).Ok?
    ensures !ConstHandle(c, n, fp).Null?
  {
    hide EvalBoolean, EvalInt, EvalFloat, TypeOf;
  }

  lemma ConstantAnyCalls(c: string, d: Expr, sc: nat, scopes: seq<ScopeRec>, calls: seq<CallStub>, env: Env)
    requires Wf(scopes) && sc < |scopes|
    ensures var x := ElabExpr(d, sc, scopes, calls, env.hash).r;
            && (Constant(d, sc, scopes, env) <==> x.Ok? && IsStatic(x.value) && ConstHandle(c, x.value, env.fp).Ok?)
            && (Constant(d, sc, scopes, env) ==>
              ConstHandle(c, x.value, env.fp).value == HandleOf(c, d, sc, scopes, env))
            && (x.Ok? && IsStatic(x.value) ==> !ConstHandle(c, x.value, env.fp).Null?)
  {
    hide ElabExpr, ConstHandle, IsStatic, Wf;
    StaticAnyCalls(d, sc, scopes, calls, env.hash);
    var x := ElabExpr(d, sc, scopes, calls, env.hash).r;
    if x.Ok? { AnyName(c, x.value, env.fp); }
  }

  /** An accepted declaration adds that one handle; a rejected one leaves the scopes alone. */
  lemma RegConstAdds(c: string, t: TypeExpr, d: Expr, sc: nat, st: State, env: Env)
    requires Wf(st.scopes) && sc < |st.scopes|
    ensures var r := RegConst(c, t, d, sc, st, env);
            if Declares(c, t, d, sc, st, env) then r.Ok? && r.value.scopes == After(c, d, sc, st.scopes, env)
            else r.Ok? ==> r.value.scopes == st.scopes
  {
    hide AddHandle, NameFree, ElabExpr, ConstHandle, Constant, HandleOf, ResolveType, Wf;
    var calls := ResolveType(t, sc, st.scopes, st.calls, env.hash).calls;
    ConstantAnyCalls(c, d, sc, st.scopes, calls, env);
  }

  lemma ConstantFound(c: string, d: Expr, sc: nat, scopes: seq<ScopeRec>, env: Env)
    requires Wf(scopes) && sc < |scopes| && Constant(d, sc, scopes, env)
    ensures Find(After(c, d, sc, scopes, env), sc, c, env.hash) == Some(HandleOf(c, d, sc, scopes, env))
  {
    hide ScopeTable.Add, ScopeTable.FindLocal, Constant, HandleOf;
    assert ScopeWf(scopes, sc);
    OwnFound(scopes[sc].table, HandleOf(c, d, sc, scopes, env), env.hash);
  }

  /** After the declaration the name means what its definition meant before: same type, same
      staticness, same value. */
  lemma NameMeansDefinition(c: string, t: TypeExpr, d: Expr, sc: nat, st: State, calls: seq<CallStub>, env: Env)
    requires Wf(st.scopes) && sc < |st.scopes| && Declares(c, t, d, sc, st, env)
    ensures var r := RegConst(c, t, d, sc, st, env);
            && r.Ok?
            && Same(ElabExpr(Symbol(c), sc, r.value.scopes, calls, env.hash),
                    ElabExpr(d, sc, st.scopes, calls, env.hash), env.fp)
  {
    hide RegConst, After, HandleOf, Find;
    RegConstAdds(c, t, d, sc, st, env);
    SymbolMeans(c, d, sc, st.scopes, calls, env);
  }

  lemma SymbolElab(c: string, h: Handle, sc: nat, scopes: seq<ScopeRec>, calls: seq<CallStub>, hash: string -> nat)
    requires Wf(scopes) && sc < |scopes| && Find(scopes, sc, c, hash) == Some(h)
    ensures ElabExpr(Symbol(c), sc, scopes, calls, hash) == Out(NewLoad(h), calls)
  {
    hide Find;
  }

  lemma AgreeTurned(n: Node, m: Node, fp: FloatOps)
    requires Agree(n, m, fp)
    ensures Agree(m, n, fp)
  {
  }

  lemma SymbolMeans(c: string, d: Expr, sc: nat, scopes: seq<ScopeRec>, calls: seq<CallStub>, env: Env)
    requires Wf(scopes) && sc < |scopes| && Constant(d, sc, scopes, env)
    ensures Same(ElabExpr(Symbol(c), sc, After(c, d, sc, scopes, env), calls, env.hash),
                 ElabExpr(d, sc, scopes, calls, env.hash), env.fp)
  {
    ConstantStatic(d, sc, scopes, env);
    hide After, HandleOf, Find, Same, Agree, ElabExpr, ConstHandle, NewLoad, Constant, IsStatic, Wf;
    var h, after := HandleOf(c, d, sc, scopes, env), After(c, d, sc, scopes, env);
    var x := ElabExpr(d, sc, scopes, [], env.hash);
    ConstantFound(c, d, sc, scopes, env);
    SymbolElab(c, h, sc, after, calls, env.hash);
    StaticElab(d, sc, scopes, [], calls, env.hash);
    ConstantAgrees(c, x.r.value, env.fp);
    AgreeTurned(x.r.value, NewLoad(h).value, env.fp);
    SameNodes(Out(NewLoad(h), calls), ElabExpr(d, sc, scopes, calls, env.hash), env.fp);
  }

  // ----- when a definition can be written out -----

  /** Whatever the expression, writing the definition out for the name makes no difference. */
  ghost predicate Inlinable(c: string, d: Expr, sc: nat, scopes: seq<ScopeRec>, env: Env)
    requires Wf(scopes) && sc < |scopes|
  {
    forall e, calls ::
      Same(ElabExpr(Inline(e, c, d), sc, scopes, calls, env.hash), ElabExpr(e, sc, scopes, calls, env.hash), env.fp)
  }

  lemma ConstHandleAgrees(c: string, n: Node, m: Node, fp: FloatOps)
    requires Agree(n, m, fp)
    ensures ConstHandle(c, n, fp) == ConstHandle(c, m, fp) && IsStatic(n) == IsStatic(m)
  {
  }

  lemma SameTurned(x: Out<Node>, y: Out<Node>, fp: FloatOps)
    requires Same(x, y, fp)
    ensures Same(y, x, fp)
  {
  }

  /** The definition can be written out exactly if it still means what it meant before the name was
      declared. */
  lemma InlinableExactly(c: string, d: Expr, sc: nat, scopes: seq<ScopeRec>, env: Env)
    requires Wf(scopes) && sc < |scopes| && Constant(d, sc, scopes, env)
    ensures var after := After(c, d, sc, scopes, env);
            && (Inlinable(c, d, sc, after, env) <==>
                Same(ElabExpr(d, sc, after, [], env.hash), ElabExpr(d, sc, scopes, [], env.hash), env.fp))
            && (Inlinable(c, d, sc, after, env) <==> Defines(c, d, sc, after, env))
  {
    hide After, HandleOf, Agree, Constant, Find, ElabExpr, Inline;
    var after := After(c, d, sc, scopes, env);
    var x, y, z := ElabExpr(d, sc, after, [], env.hash), ElabExpr(d, sc, scopes, [], env.hash),
                   ElabExpr(Symbol(c), sc, after, [], env.hash);
    SymbolMeans(c, d, sc, scopes, [], env);
    if Inlinable(c, d, sc, after, env) {
      InlineName(c, d);
      assert Same(ElabExpr(Inline(Symbol(c), c, d), sc, after, [], env.hash), z, env.fp);
      SameTrans(x, z, y, env.fp);
    }
    if Same(x, y, env.fp) { StillDefines(c, d, sc, scopes, env); }
    if Defines(c, d, sc, after, env) {
      forall e, calls
        ensures Same(ElabExpr(Inline(e, c, d), sc, after, calls, env.hash),
                     ElabExpr(e, sc, after, calls, env.hash), env.fp)
      {
        InlineAgrees(e, c, d, sc, after, calls, env);
      }
    }
  }

  lemma InlineName(c: string, d: Expr)
    ensures Inline(Symbol(c), c, d) == d
  {
  }

  lemma StillDefines(c: string, d: Expr, sc: nat, scopes: seq<ScopeRec>, env: Env)
    requires Wf(scopes) && sc < |scopes| && Constant(d, sc, scopes, env)
    requires var after := After(c, d, sc, scopes, env);
             Same(ElabExpr(d, sc, after, [], env.hash), ElabExpr(d, sc, scopes, [], env.hash), env.fp)
    ensures Defines(c, d, sc, After(c, d, sc, scopes, env), env)
  {
    hide After, HandleOf, Agree, Find, ElabExpr, ConstHandle;
    var after := After(c, d, sc, scopes, env);
    ConstantFound(c, d, sc, scopes, env);
    ConstHandleAgrees(c, ElabExpr(d, sc, after, [], env.hash).r.value,
                      ElabExpr(d, sc, scopes, [], env.hash).r.value, env.fp);
  }

  /** A definition that does not look the name up keeps its meaning: the name stands for it. */
  lemma FreshNameDefines(c: string, d: Expr, sc: nat, scopes: seq<ScopeRec>, env: Env)
    requires Wf(scopes) && sc < |scopes| && Constant(d, sc, scopes, env)
    requires c !in Names(d) && Settled(scopes[sc].table, Names(d), env.hash)
    ensures Defines(c, d, sc, After(c, d, sc, scopes, env), env)
  {
    hide Agree, Find, ElabExpr, AddHandle, HandleOf, Settled, Same, Constant;
    var after := After(c, d, sc, scopes, env);
    DeclareSameFinds(Names(d), scopes, sc, HandleOf(c, d, sc, scopes, env), env.hash);
    ConstantStatic(d, sc, scopes, env);
    StaticSame(d, sc, scopes, sc, after, env.hash);
    SameItself(ElabExpr(d, sc, scopes, [], env.hash), env.fp);
    StillDefines(c, d, sc, scopes, env);
  }

  lemma ConstantStatic(d: Expr, sc: nat, scopes: seq<ScopeRec>, env: Env)
    requires Wf(scopes) && sc < |scopes| && Constant(d, sc, scopes, env)
    ensures ElabExpr(d, sc, scopes, [], env.hash).r.Ok? && IsStatic(ElabExpr(d, sc, scopes, [], env.hash).r.value)
  {
  }


  // ----- deciding it before the declaration -----

  /** The names that a path starts with. */
  function PathHeads(e: Expr): set<string>
    decreases e, 1
  {
    match e
    case MemberRef(b, _) => Bases(b)
    case ArrayRef(b, i) => Bases(b) + PathHeads(i)
    case Unary(_, a) => PathHeads(a)
    case Binary(_, a, b) => PathHeads(a) + PathHeads(b)
    case Ite(a, b, c) => PathHeads(a) + PathHeads(b) + PathHeads(c)
    case FuncCall(_, args) => HeadsOfPaths(args)
    case _ => {}
  }

  function Bases(e: Expr): set<string>
    decreases e, 0
  {
    match e
    case MemberRef(b, _) => Bases(b)
    case ArrayRef(b, i) => Bases(b) + PathHeads(i)
    case _ => Heads(e)
  }

  function HeadsOfPaths(es: seq<Expr>): set<string>
    decreases es, 0
  {
    if es == [] then {} else PathHeads(es[0]) + HeadsOfPaths(es[1..])
  }

  /** The value of a constant, written as a literal. */
  function Literal(h: Handle): Expr
    requires StaticHandle(h)
  {
    match h
    case BooleanConst(_, b) => if b then True else False
    case IntConst(_, v) => IntLit(v)
    case FloatConst(_, f) => FloatLit(f)
    case StringConst(_, s) => StringLit(s)
  }

  lemma {:induction false} LiteralHides(e: Expr, c: string, l: Expr)
    requires c !in Members(e) && c !in PathHeads(e) && Names(l) == {}
    ensures Names(Inline(e, c, l)) <= Names(e) - {c}
    decreases e, 1
  {
    match e
    case ArrayRef(_, _) => LiteralHidesPath(e, c, l);
    case MemberRef(_, _) => LiteralHidesPath(e, c, l);
    case Unary(_, a) => LiteralHides(a, c, l);
    case Binary(_, a, b) =>
      LiteralHides(a, c, l);
      LiteralHides(b, c, l);
    case Ite(a, b, f) =>
      LiteralHides(a, c, l);
      LiteralHides(b, c, l);
      LiteralHides(f, c, l);
    case FuncCall(_, args) => LiteralHidesAll(args, c, l);
    case _ =>
  }

  lemma {:induction false} LiteralHidesPath(e: Expr, c: string, l: Expr)
    requires c !in Members(e) && c !in Bases(e) && Names(l) == {}
    ensures Names(InlinePrimary(e, c, l)) <= Names(e) - {c}
    decreases e, 0
  {
    match e
    case ArrayRef(b, i) =>
      LiteralHidesPath(b, c, l);
      LiteralHides(i, c, l);
    case MemberRef(b, _) => LiteralHidesPath(b, c, l);
    case _ =>
  }

  lemma {:induction false} LiteralHidesAll(es: seq<Expr>, c: string, l: Expr)
    requires c !in MembersAll(es) && c !in HeadsOfPaths(es) && Names(l) == {}
    ensures NamesAll(InlineAll(es, c, l)) <= NamesAll(es) - {c}
    decreases es, 0
  {
    if es != [] {
      LiteralHides(es[0], c, l);
      LiteralHidesAll(es[1..], c, l);
      var all := InlineAll(es, c, l);
      assert all[0] == Inline(es[0], c, l) && all[1..] == InlineAll(es[1..], c, l);
    }
  }

  /** A constant is neither an array nor a scope, so no path starts with it. */
  lemma {:induction false} PathBreaks(e: Expr, c: string, sc: nat, scopes: seq<ScopeRec>, calls: seq<CallStub>,
                                      hash: string -> nat)
    requires Wf(scopes) && sc < |scopes| && c in PathHeads(e)
    requires Find(scopes, sc, c, hash).Some? && StaticHandle(Find(scopes, sc, c, hash).value)
    ensures !ElabExpr(e, sc, scopes, calls, hash).r.Ok?
    decreases e, 1
  {
    hide Find, Wf;
    match e
    case ArrayRef(_, _) => BaseBreaks(e, c, sc, scopes, calls, hash);
    case MemberRef(_, _) => BaseBreaks(e, c, sc, scopes, calls, hash);
    case Unary(_, a) => PathBreaks(a, c, sc, scopes, calls, hash);
    case Binary(_, a, b) =>
      if c in PathHeads(a) { PathBreaks(a, c, sc, scopes, calls, hash); }
      else { PathBreaks(b, c, sc, scopes, ElabExpr(a, sc, scopes, calls, hash).calls, hash); }
    case Ite(a, b, f) =>
      var x := ElabExpr(a, sc, scopes, calls, hash);
      var y := ElabExpr(b, sc, scopes, x.calls, hash);
      if c in PathHeads(a) { PathBreaks(a, c, sc, scopes, calls, hash); }
      else if c in PathHeads(b) { PathBreaks(b, c, sc, scopes, x.calls, hash); }
      else { PathBreaks(f, c, sc, scopes, y.calls, hash); }
    case FuncCall(_, args) => ArgsBreak(args, c, sc, scopes, calls, hash);
    case _ =>
  }

  lemma {:induction false} BaseBreaks(e: Expr, c: string, sc: nat, scopes: seq<ScopeRec>, calls: seq<CallStub>,
                                      hash: string -> nat)
    requires Wf(scopes) && sc < |scopes| && c in Bases(e)
    requires Find(scopes, sc, c, hash).Some? && StaticHandle(Find(scopes, sc, c, hash).value)
    ensures e == Symbol(c) || !ElabPrimary(e, sc, scopes, calls, hash).r.Ok?
    decreases e, 0
  {
    hide Find, Wf;
    match e
    case ArrayRef(b, i) =>
      if c in Bases(b) { BaseBreaks(b, c, sc, scopes, calls, hash); }
      else { PathBreaks(i, c, sc, scopes, ElabPrimary(b, sc, scopes, calls, hash).calls, hash); }
    case MemberRef(b, _) => BaseBreaks(b, c, sc, scopes, calls, hash);
    case _ =>
  }

  lemma {:induction false} ArgsBreak(es: seq<Expr>, c: string, sc: nat, scopes: seq<ScopeRec>, calls: seq<CallStub>,
                                     hash: string -> nat)
    requires Wf(scopes) && sc < |scopes| && c in HeadsOfPaths(es)
    requires Find(scopes, sc, c, hash).Some? && StaticHandle(Find(scopes, sc, c, hash).value)
    ensures !ElabArgs(es, sc, scopes, calls, hash).r.Ok?
    decreases es, 0
  {
    hide Find, Wf;
    if c in PathHeads(es[0]) { PathBreaks(es[0], c, sc, scopes, calls, hash); }
    else { ArgsBreak(es[1..], c, sc, scopes, ElabExpr(es[0], sc, scopes, calls, hash).calls, hash); }
  }

  lemma LiteralMeans(h: Handle, sc: nat, scopes: seq<ScopeRec>, env: Env)
    requires Wf(scopes) && sc < |scopes| && (h.BooleanConst? || h.IntConst? || h.FloatConst?)
    ensures Names(Literal(h)) == {}
    ensures var x := ElabExpr(Literal(h), sc, scopes, [], env.hash);
            x.r.Ok? && IsStatic(x.r.value) && ConstHandle(h.name, x.r.value, env.fp) == Ok(h)
  {
    hide Wf, Find;
  }

  lemma ConstantKind(c: string, d: Expr, sc: nat, scopes: seq<ScopeRec>, env: Env)
    requires Wf(scopes) && sc < |scopes| && Constant(d, sc, scopes, env)
    ensures var h := HandleOf(c, d, sc, scopes, env); h.BooleanConst? || h.IntConst? || h.FloatConst?
  {
    hide ElabExpr, EvalBoolean, EvalInt, EvalFloat;
  }

  lemma LiteralDefines(c: string, d: Expr, sc: nat, scopes: seq<ScopeRec>, env: Env)
    requires Wf(scopes) && sc < |scopes| && Constant(d, sc, scopes, env)
    ensures var h := HandleOf(c, d, sc, scopes, env);
            StaticHandle(h) && Names(Literal(h)) == {} && Defines(c, Literal(h), sc, After(c, d, sc, scopes, env), env)
  {
    hide Find, After, ElabExpr, ConstHandle, HandleOf, Constant, Literal, Heads, Members;
    ConstantFound(c, d, sc, scopes, env);
    ConstantKind(c, d, sc, scopes, env);
    LiteralMeans(HandleOf(c, d, sc, scopes, env), sc, After(c, d, sc, scopes, env), env);
  }

  /** Decided before the declaration, for a definition that does not use the name as a member: its value can
      be written for the name in the definition without a change, and no path starts with the name. */
  lemma InlinableBeforehand(c: string, d: Expr, sc: nat, scopes: seq<ScopeRec>, env: Env)
    requires Wf(scopes) && sc < |scopes| && Constant(d, sc, scopes, env)
    requires c !in Members(d) && Settled(scopes[sc].table, Names(d), env.hash)
    ensures var h := HandleOf(c, d, sc, scopes, env);
            && StaticHandle(h)
            && (Inlinable(c, d, sc, After(c, d, sc, scopes, env), env) <==>
                && c !in PathHeads(d)
                && Same(ElabExpr(Inline(d, c, Literal(h)), sc, scopes, [], env.hash),
                        ElabExpr(d, sc, scopes, [], env.hash), env.fp))
  {
    hide Find, HandleOf, Agree, Constant, ElabExpr, Inline, Inlinable, Defines, Literal, Settled, AddHandle;
    var h, after := HandleOf(c, d, sc, scopes, env), After(c, d, sc, scopes, env);
    LiteralDefines(c, d, sc, scopes, env);
    InlinableExactly(c, d, sc, scopes, env);
    ConstantStatic(d, sc, scopes, env);
    var before, now := ElabExpr(d, sc, scopes, [], env.hash), ElabExpr(d, sc, after, [], env.hash);
    if c in PathHeads(d) {
      ConstantFound(c, d, sc, scopes, env);
      PathBreaks(d, c, sc, after, [], env.hash);
    } else {
      var e := Inline(d, c, Literal(h));
      LiteralHides(d, c, Literal(h));
      FewerSettled(scopes[sc].table, Names(e), Names(d), env.hash);
      DeclareSameFinds(Names(e), scopes, sc, h, env.hash);
      ElabSame(e, sc, scopes, after, [], env.hash);
      InlineAgrees(d, c, Literal(h), sc, after, [], env);
      var x := ElabExpr(e, sc, after, [], env.hash);
      if Same(x, before, env.fp) {
        SameTurned(x, now, env.fp);
        SameTrans(now, x, before, env.fp);
      }
      if Same(now, before, env.fp) { SameTrans(x, now, before, env.fp); }
    }
  }

  /** A global scope with the constant `c` of value 1 and an empty scope below it. */
  ghost function Outer(c: string, hash: string -> nat): (r: seq<ScopeRec>)
    ensures Wf(r) && |r| == 2
  {
    var g := NewScope([], None);
    NewScopeWf([], None);
    assert ScopeWf(g, 0);
    AddWf(g, 0, IntConst(c, 1), hash);
    NewScopeWf(AddHandle(g, 0, IntConst(c, 1), hash), Some(0));
    NewScope(AddHandle(g, 0, IntConst(c, 1), hash), Some(0))
  }

  lemma OuterFound(c: string, hash: string -> nat)
    ensures Find(Outer(c, hash), 1, c, hash) == Some(IntConst(c, 1))
    ensures ScopeWf(Outer(c, hash), 1) && FindLocal(Outer(c, hash), 1, c, hash).None?
  {
    hide ScopeTable.Add;
    var g, s := NewScope([], None), Outer(c, hash);
    OwnFound(g[0].table, IntConst(c, 1), hash);
    assert ScopeWf(s, 0) && ScopeWf(s, 1);
    assert FindLocal(s, 0, c, hash) == Some(IntConst(c, 1)) == Find(s, 0, c, hash);
  }

  /** `c + 1` where `c` is a constant. */
  function Successor(c: string): Expr { Binary(Add, Symbol(c), IntLit(1)) }

  function SuccessorNode(c: string, v: int): Node {
    BinOp(Add, Int, Load(Int, IntConst(c, v)), Load(Int, IntConst("", 1)))
  }

  lemma SuccessorIs(c: string, v: int, sc: nat, scopes: seq<ScopeRec>, env: Env)
    requires Wf(scopes) && sc < |scopes| && Find(scopes, sc, c, env.hash) == Some(IntConst(c, v))
    ensures var n := SuccessorNode(c, v);
            && ElabExpr(Symbol(c), sc, scopes, [], env.hash) == Out(Ok(n.a), [])
            && ElabExpr(Successor(c), sc, scopes, [], env.hash) == Out(Ok(n), [])
  {
    hide Find;
    assert ElabPrimary(Symbol(c), sc, scopes, [], env.hash) == Out(Ok(IntConst(c, v)), []);
  }

  lemma SuccessorValue(c: string, v: int, fp: FloatOps)
    requires 0 <= v < 10
    ensures var n := SuccessorNode(c, v);
            && EvalInt(n.a, fp) == Val(v) && EvalInt(n, fp) == Val(v + 1)
            && IsStatic(n) && forall name :: ConstHandle(name, n, fp) == Ok(IntConst(name, v + 1))
  {
    var n := SuccessorNode(c, v);
    assert TypeOf(n) == Some(Int) && IsStatic(n.a) && IsStatic(n.b) && EvalInt(n.b, fp) == Val(1);
  }

  /** An outer constant of the same name: with `c` the constant 1 outside, declaring `c` as `c + 1` in a
      scope of its own is accepted and gives 2, but its definition written out then gives 3. */
  lemma ShadowedConstant(c: string, env: Env)
    ensures var st := State(Outer(c, env.hash), [TopBlock()], [], 0, []);
            && Declares(c, IntType, Successor(c), 1, st, env)
            && var r := RegConst(c, IntType, Successor(c), 1, st, env);
            && r.Ok? && |r.value.scopes| == 2
            && var x, y := ElabExpr(Symbol(c), 1, r.value.scopes, [], env.hash),
                           ElabExpr(Inline(Symbol(c), c, Successor(c)), 1, r.value.scopes, [], env.hash);
            && x.r.Ok? && EvalInt(x.r.value, env.fp) == Val(2)
            && y.r.Ok? && EvalInt(y.r.value, env.fp) == Val(3)
            && !Inlinable(c, Successor(c), 1, r.value.scopes, env)
  {
    hide Outer, RegConst, After, ElabExpr, Find, EvalInt, ResolveType, Agree, ConstHandle, IsStatic, SuccessorNode;
    var s, d := Outer(c, env.hash), Successor(c);
    var st := State(s, [TopBlock()], [], 0, []);
    OuterFound(c, env.hash);
    SuccessorIs(c, 1, 1, s, env);
    SuccessorValue(c, 1, env.fp);
    SuccessorValue(c, 2, env.fp);
    assert Constant(d, 1, s, env) && HandleOf(c, d, 1, s, env) == IntConst(c, 2);
    IntTypeResolves(1, s, env.hash);
    RegConstAdds(c, IntType, d, 1, st, env);
    ConstantFound(c, d, 1, s, env);
    var after := After(c, d, 1, s, env);
    SuccessorIs(c, 2, 1, after, env);
    InlineName(c, d);
    NotInlinable(c, d, after, env);
  }

  lemma IntTypeResolves(sc: nat, scopes: seq<ScopeRec>, hash: string -> nat)
    requires Wf(scopes) && sc < |scopes|
    ensures ResolveType(IntType, sc, scopes, [], hash) == Out(Ok(Int), [])
  {
  }

  lemma NotInlinable(c: string, d: Expr, scopes: seq<ScopeRec>, env: Env)
    requires Wf(scopes) && 1 < |scopes|
    requires var x, y := ElabExpr(Symbol(c), 1, scopes, [], env.hash), ElabExpr(d, 1, scopes, [], env.hash);
             x.r.Ok? && y.r.Ok? && EvalInt(x.r.value, env.fp) != EvalInt(y.r.value, env.fp)
    ensures !Inlinable(c, d, 1, scopes, env)
  {
    hide ElabExpr;
    InlineName(c, d);
    assert !Same(ElabExpr(Inline(Symbol(c), c, d), 1, scopes, [], env.hash),
                 ElabExpr(Symbol(c), 1, scopes, [], env.hash), env.fp);
  }

  // ----- later declarations -----

  /** The constant carries over to a scope in which its name and the names of its definition mean the same. */
  lemma DefinesCarries(c: string, d: Expr, sc1: nat, s1: seq<ScopeRec>, sc2: nat, s2: seq<ScopeRec>, env: Env)
    requires SameFinds(Members(d), s1, s2, env.hash) && sc1 < |s1| && sc2 < |s2| && Defines(c, d, sc1, s1, env)
    requires forall n :: n in {c} + Heads(d) ==> Find(s1, sc1, n, env.hash) == Find(s2, sc2, n, env.hash)
    ensures Defines(c, d, sc2, s2, env)
  {
    hide Find, SameFinds, ElabExpr;
    assert c in {c} + Heads(d);
    StaticSame(d, sc1, s1, sc2, s2, env.hash);
  }

  /** A declaration in another scope of the lookup path may use any name but the constant's and those of its
      definition; off that path any name but the members used. */
  lemma DefinesAfterDeclare(c: string, d: Expr, sc: nat, scopes: seq<ScopeRec>, k: nat, h: Handle, env: Env)
    requires Wf(scopes) && sc < |scopes| && k < |scopes| && Defines(c, d, sc, scopes, env)
    requires Settled(scopes[k].table, {c} + Names(d), env.hash)
    requires NameOf(h) !in Members(d) && (k in Path(scopes, sc) ==> NameOf(h) !in {c} + Heads(d))
    ensures |scopes[k].table.chains| > 0 && Wf(AddHandle(scopes, k, h, env.hash))
    ensures Defines(c, d, sc, AddHandle(scopes, k, h, env.hash), env)
  {
    hide Find, Settled, Defines, Path, AddHandle;
    assert |scopes[k].table.chains| > 0 by { assert ScopeWf(scopes, k); }
    AddWf(scopes, k, h, env.hash);
    var names := {c} + Names(d);
    FewerSettled(scopes[k].table, Members(d), names, env.hash);
    DeclareSameFinds(Members(d), scopes, k, h, env.hash);
    forall n | n in {c} + Heads(d)
      ensures Find(scopes, sc, n, env.hash) == Find(AddHandle(scopes, k, h, env.hash), sc, n, env.hash)
    {
      if k in Path(scopes, sc) { FindUnchanged(scopes, k, h, n, names, sc, env.hash); }
      else { FindOffPath(scopes, k, h, n, sc, env.hash); }
    }
    DefinesCarries(c, d, sc, scopes, sc, AddHandle(scopes, k, h, env.hash), env);
  }

  /** Opening a scope keeps the constant, and the scopes directly below see it too. */
  lemma DefinesAfterOpen(c: string, d: Expr, sc: nat, scopes: seq<ScopeRec>, parent: nat, env: Env)
    requires Wf(scopes) && sc < |scopes| && parent < |scopes| && Defines(c, d, sc, scopes, env)
    ensures Wf(NewScope(scopes, Some(parent))) && Defines(c, d, sc, NewScope(scopes, Some(parent)), env)
    ensures parent == sc ==> Defines(c, d, |scopes|, NewScope(scopes, Some(parent)), env)
  {
    hide Find, Defines;
    NewScopeWf(scopes, Some(parent));
    var r := NewScope(scopes, Some(parent));
    OpenSameFinds(Members(d), scopes, parent, env.hash);
    forall n, k | n in {c} + Heads(d) && 0 <= k <= |scopes|
      ensures Find(r, k, n, env.hash) == Find(scopes, if k == |scopes| then parent else k, n, env.hash)
    {
      OpenFinds(scopes, parent, n, k, env.hash);
    }
    DefinesCarries(c, d, sc, scopes, sc, r, env);
    if parent == sc { DefinesCarries(c, d, sc, scopes, |scopes|, r, env); }
  }
}
