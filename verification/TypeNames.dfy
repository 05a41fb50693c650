/** Type expressions of declarations: what they resolve to, and back. */
module TypeNames {
  import opened Common
  import opened Ir
  import opened Ast
  import opened ScopeGraph
  import opened Elaborate
  import opened Source
  import Kinds
  import TypeTable

  /** The types that names stand for in a context. */
  ghost function TypeOfName(c: Context): Expr -> Option<Ty> {
    (e: Expr) =>
      if !c.Valid() then None else
        match Named(e, c) case Some(NamedType(_, ty, _)) => Some(ty) case _ => None
  }

  lemma {:induction false} NamedFound(e: Expr, c: Context, cs: seq<CallStub>)
    requires c.Valid() && Named(e, c).Some?
    ensures ElabPrimary(e, c.sc, c.scopes, cs, c.hash).r == Ok(Named(e, c).value)
  {
    hide Wf, Find;
    if e.MemberRef? { NamedFound(e.body, c, cs); }
  }

  /** A type expression resolves exactly to the type it denotes, and to none if it denotes none; the pending calls play
      no part. */
  lemma {:induction false} ResolvesWhatItDenotes(t: TypeExpr, c: Context, cs: seq<CallStub>)
    requires c.Valid()
    ensures var r := ResolveType(t, c.sc, c.scopes, cs, c.hash).r;
            TypeTable.Denotes(t, TypeOfName(c)) == if r.Ok? then Some(r.value) else None
  {
    hide Wf, ElabPrimary, Named;
    match t
    case ArrayType(e) => ResolvesWhatItDenotes(e, c, cs);
    case SetType(e) => ResolvesWhatItDenotes(e, c, cs);
    case MapType(k, e) =>
      TypeTable.DenotesMap(t, TypeOfName(c));
      ResolvesWhatItDenotes(k, c, cs);
      ResolvesWhatItDenotes(e, c, ResolveType(k, c.sc, c.scopes, cs, c.hash).calls);
    case NamedType(path) =>
      Kinds.PrimaryKind(path, c, cs);
      if Named(path, c).Some? { NamedFound(path, c, cs); }
    case _ =>
  }

  /** Types that can be written without a name: no functions and no enums in them. */
  predicate Writable(ty: Ty) {
    match ty
    case Array(e) => Writable(e)
    case Set(e) => Writable(e)
    case Map(k, e) => Writable(k) && Writable(e)
    case Func(_, _) => false
    case Enum(_) => false
    case _ => true
  }

  function Written(ty: Ty): TypeExpr
    requires Writable(ty)
  {
    match ty
    case Void => VoidType
    case Boolean => BooleanType
    case Int => IntType
    case Float => FloatType
    case String => StringType
    case Array(e) => ArrayType(Written(e))
    case Set(e) => SetType(Written(e))
    case Map(k, e) => MapType(Written(k), Written(e))
  }

  predicate WithoutNames(t: TypeExpr) {
    match t
    case ArrayType(e) => WithoutNames(e)
    case SetType(e) => WithoutNames(e)
    case MapType(k, e) => WithoutNames(k) && WithoutNames(e)
    case NamedType(_) => false
    case _ => true
  }

  /** A type that was written down is read back, in any scope. */
  lemma {:induction false} WrittenResolves(ty: Ty, sc: nat, scopes: seq<ScopeRec>, cs: seq<CallStub>,
                                           hash: string -> nat)
    requires Writable(ty) && Wf(scopes) && sc < |scopes|
    ensures WithoutNames(Written(ty)) && ResolveType(Written(ty), sc, scopes, cs, hash) == Out(Ok(ty), cs)
  {
    hide Wf;
    match ty
    case Array(e) => WrittenResolves(e, sc, scopes, cs, hash);
    case Set(e) => WrittenResolves(e, sc, scopes, cs, hash);
    case Map(k, e) =>
      WrittenResolves(k, sc, scopes, cs, hash);
      WrittenResolves(e, sc, scopes, cs, hash);
    case _ =>
  }

  /** An expression without names is accepted, and is what one would write for the type it resolves to. */
  lemma {:induction false} ResolvesWritten(t: TypeExpr, sc: nat, scopes: seq<ScopeRec>, cs: seq<CallStub>,
                                           hash: string -> nat)
    requires WithoutNames(t) && Wf(scopes) && sc < |scopes|
    ensures var r := ResolveType(t, sc, scopes, cs, hash);
            r.r.Ok? && r.calls == cs && Writable(r.r.value) && Written(r.r.value) == t
  {
    hide Wf;
    match t
    case ArrayType(e) => ResolvesWritten(e, sc, scopes, cs, hash);
    case SetType(e) => ResolvesWritten(e, sc, scopes, cs, hash);
    case MapType(k, e) =>
      ResolvesWritten(k, sc, scopes, cs, hash);
      ResolvesWritten(e, sc, scopes, cs, hash);
    case _ =>
  }

  /** So expressions without names resolve to the same type, wherever they stand, only if they are the same. */
  lemma SameTypeSameExpression(t: TypeExpr, u: TypeExpr, sc: nat, sc': nat, scopes: seq<ScopeRec>,
                               scopes': seq<ScopeRec>, cs: seq<CallStub>, cs': seq<CallStub>, hash: string -> nat)
    requires WithoutNames(t) && WithoutNames(u)
    requires Wf(scopes) && sc < |scopes| && Wf(scopes') && sc' < |scopes'|
    ensures ResolveType(t, sc, scopes, cs, hash).r == ResolveType(u, sc', scopes', cs', hash).r <==> t == u
  {
    hide Wf, ResolveType;
    ResolvesWritten(t, sc, scopes, cs, hash);
    ResolvesWritten(u, sc', scopes', cs', hash);
    WrittenResolves(ResolveType(t, sc, scopes, cs, hash).r.value, sc', scopes', cs', hash);
  }
}
