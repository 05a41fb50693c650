/** What a declaration makes of its names: variables, enums with their constants, functions with their parameters. */
module Declared {
  import opened Common
  import opened Ir
  import opened Ast
  import opened ScopeGraph
  import opened Elaborate
  import opened Source
  import opened TypeNames
  import Constants
  import ConstProp
  import EnumProps
  import Interp
  import Kinds
  import ScopeTable
  import Soundness
  import TypeTable
  import Typing

  // ----- a scope filled from empty -----

  /** The scope holds exactly these handles. */
  ghost predicate Filled(scopes: seq<ScopeRec>, k: nat, hs: seq<Handle>, hash: string -> nat) {
    k < |scopes| && ScopeTable.Holds(scopes[k].table, hs, Key(hash))
  }

  lemma NewScopeFilled(st: State, parent: nat, env: Env)
    requires Wf(st.scopes) && parent < |st.scopes|
    ensures Filled(Open(st, parent).scopes, |st.scopes|, [], env.hash)
  {
    ScopeTable.NewHolds(Key(env.hash));
  }

  lemma FilledMore(st: State, k: nat, h: Handle, hs: seq<Handle>, env: Env)
    requires Wf(st.scopes) && Filled(st.scopes, k, hs, env.hash)
    ensures Filled(Declare(st, k, h, env).scopes, k, hs + [h], env.hash)
  {
    hide ScopeTable.Holds, ScopeTable.Add;
    assert ScopeWf(st.scopes, k);
    ScopeTable.AddHolds(st.scopes[k].table, hs, h, Key(env.hash));
  }

  lemma FilledStays(st: State, sc: nat, k: nat, h: Handle, hs: seq<Handle>, env: Env)
    requires Wf(st.scopes) && sc < |st.scopes| && sc != k && Filled(st.scopes, k, hs, env.hash)
    ensures Filled(Declare(st, sc, h, env).scopes, k, hs, env.hash)
  {
    hide ScopeTable.Holds, ScopeTable.Add;
    assert ScopeWf(st.scopes, sc);
  }

  lemma FilledSame(st: State, st': State, k: nat, hs: seq<Handle>, env: Env)
    requires Filled(st.scopes, k, hs, env.hash) && st'.scopes == st.scopes
    ensures Filled(st'.scopes, k, hs, env.hash)
  {
  }

  ghost predicate DistinctNames(hs: seq<Handle>) {
    forall i, j :: 0 <= i < j < |hs| ==> NameOf(hs[i]) != NameOf(hs[j])
  }

  /** In a scope filled with distinct names each is found. */
  lemma FilledFinds(scopes: seq<ScopeRec>, k: nat, hs: seq<Handle>, i: nat, hash: string -> nat)
    requires Wf(scopes) && Filled(scopes, k, hs, hash) && DistinctNames(hs) && i < |hs|
    ensures Find(scopes, k, NameOf(hs[i]), hash) == Some(hs[i])
  {
    assert ScopeWf(scopes, k);
    assert ScopeTable.Holds(scopes[k].table, hs, x => hash(NameOf(x)));
    hide ScopeTable.Holds, ScopeTable.FindLocal;
    ScopeTable.FindLocalIs(scopes[k].table, hs, NameOf(hs[i]), NameOf, hash);
  }

  /** What was declared last in a scope is found there. */
  lemma DeclaredIsFound(st: State, sc: nat, h: Handle, env: Env)
    requires Wf(st.scopes) && sc < |st.scopes|
    ensures Find(Declare(st, sc, h, env).scopes, sc, NameOf(h), env.hash) == Some(h)
  {
    hide ScopeTable.Add, ScopeTable.FindLocal;
    assert ScopeWf(st.scopes, sc) && ScopeWf(Declare(st, sc, h, env).scopes, sc);
    OwnFound(st.scopes[sc].table, h, env.hash);
  }

  // ----- variables -----

  /** Behind the declaration of a variable its name stands for a variable of the type its type expression denotes: the
      next global at the top level of the module, otherwise the next local of the block. */
  lemma VariableDeclared(s: Stmt, sc: nat, b: nat, st: State, env: Env)
    requires s.VarDecl? && Ready(st, sc, b) && NameFree(st, sc, s.name, env) && ElabStmt(s, sc, b, st, env).Elab?
    ensures var ty := TypeTable.Denotes(s.ty, TypeOfName(Here(sc, st, env, [])));
            var r := ElabStmt(s, sc, b, st, env).st;
            ty.Some? ==>
              Find(r.scopes, sc, s.name, env.hash)
              == Some(if st.scopes[sc].globalScope.None? then GlobalVar(s.name, ty.value, 0, |st.globals|)
                      else LocalVar(s.name, ty.value, 0, |st.blocks[b].vars|))
  {
    ResolvesWhatItDenotes(s.ty, Here(sc, st, env, []), st.calls);
    hide Wf, ElabExpr, ResolveType, Find, Declare, TypeTable.Denotes;
    var ty := ResolveType(s.ty, sc, st.scopes, st.calls, env.hash);
    if ty.r.Ok? {
      var st0, h := st.(calls := ty.calls), DeclareVar(s.name, ty.r.value, sc, b, st.(calls := ty.calls), env).1;
      var st1 := if h.GlobalVar? then st0.(globals := st.globals + [h])
                 else st0.(blocks := st.blocks[b := st.blocks[b].(vars := st.blocks[b].vars + [h])]);
      DeclaredIsFound(st1, sc, h, env);
    }
  }

  // ----- enums -----

  ghost function Listed(consts: seq<EnumConst>, vals: seq<int>): (hs: seq<Handle>)
    requires |vals| == |consts|
    ensures |hs| == |consts|
    ensures forall i :: 0 <= i < |consts| ==> hs[i] == IntConst(consts[i].name, vals[i])
  {
    seq(|consts|, i requires 0 <= i < |consts| => IntConst(consts[i].name, vals[i]))
  }

  /** The expression given for a constant has that value where it stands: behind the constants before it. */
  ghost predicate Given(e: Expr, es: nat, scopes: seq<ScopeRec>, v: int, env: Env)
    requires Wf(scopes) && es < |scopes|
  {
    var x := ElabExpr(e, es, scopes, [], env.hash).r;
    x.Ok? && Typing.IsStatic(x.value) && Interp.EvalInt(x.value, env.fp) == Interp.Val(v)
  }

  lemma ExplicitValue(e: Expr, es: nat, st: State, v: int, env: Env)
    requires Wf(st.scopes) && es < |st.scopes|
    requires var x := ElabExpr(e, es, st.scopes, st.calls, env.hash).r;
             x.Ok? && Typing.IsStatic(x.value) && Interp.EvalInt(x.value, env.fp) == Interp.Val(v)
    ensures Given(e, es, st.scopes, v, env)
  {
    hide Wf, ElabExpr, Typing.IsStatic, Interp.EvalInt;
    Constants.StaticAnyCalls(e, es, st.scopes, st.calls, env.hash);
  }

  /** The first constant, its value, and the constants behind it. */
  lemma EnumStep(consts: seq<EnumConst>, es: nat, st: State, used: seq<int>, next: nat, env: Env)
    returns (v: int, next': nat, st': State)
    requires Wf(st.scopes) && es < |st.scopes| && consts != [] && EnumValues(consts, es, st, used, next, env).EnumOk?
    ensures st'.scopes == st.scopes && st'.enums == st.enums
    ensures consts[0].val.Some? ==> Given(consts[0].val.value, es, st.scopes, v, env)
    ensures EnumValues(consts, es, st, used, next, env)
         == EnumValues(consts[1..], es, Declare(st', es, IntConst(consts[0].name, v), env), used + [v], next', env)
  {
    hide Wf, ElabExpr, Declare, Given;
    match consts[0].val
    case None =>
      v, st' := FirstFree(used, next), st;
      next' := v + 1;
    case Some(e) =>
      var x := ElabExpr(e, es, st.scopes, st.calls, env.hash);
      v, next', st' := Interp.EvalInt(x.r.value, env.fp).v, next, st.(calls := x.calls);
      ExplicitValue(e, es, st, v, env);
  }

  /** The scope of an enum holds its constants with their values. */
  lemma {:induction false} EnumFilled(consts: seq<EnumConst>, es: nat, st: State, used: seq<int>, next: nat,
                                      hs: seq<Handle>, env: Env)
    requires Wf(st.scopes) && es < |st.scopes| && Filled(st.scopes, es, hs, env.hash)
    requires EnumValues(consts, es, st, used, next, env).EnumOk?
    ensures var r := EnumValues(consts, es, st, used, next, env);
            && |r.vals| == |used| + |consts| && used <= r.vals && r.st.enums == st.enums
            && Filled(r.st.scopes, es, hs + Listed(consts, r.vals[|used|..]), env.hash)
    decreases consts
  {
    hide Wf, ElabExpr, Declare, Filled, Given;
    if consts == [] {
      assert hs + Listed(consts, []) == hs;
      assert used[|used|..] == [];
    } else {
      var r := EnumValues(consts, es, st, used, next, env);
      var v, next', st' := EnumStep(consts, es, st, used, next, env);
      hide EnumValues;
      var h := IntConst(consts[0].name, v);
      FilledSame(st, st', es, hs, env);
      FilledMore(st', es, h, hs, env);
      EnumFilled(consts[1..], es, Declare(st', es, h, env), used + [v], next', hs + [h], env);
      assert r.vals[|used|] == (used + [v])[|used|];
      assert r.vals[..|used|] == (used + [v])[..|used|] == used;
      ListedFirst(consts, r.vals[|used|..]);
      assert r.vals[|used|..][1..] == r.vals[|used + [v]|..];
      assert hs + [h] + Listed(consts[1..], r.vals[|used + [v]|..]) == hs + Listed(consts, r.vals[|used|..]);
    }
  }

  lemma ListedFirst(consts: seq<EnumConst>, vals: seq<int>)
    requires |vals| == |consts| > 0
    ensures Listed(consts, vals) == [IntConst(consts[0].name, vals[0])] + Listed(consts[1..], vals[1..])
  {
  }

  ghost predicate DistinctConsts(consts: seq<EnumConst>) {
    forall j, k :: 0 <= j < k < |consts| ==> consts[j].name != consts[k].name
  }

  /** The values of an enum declared in scope `sc`. */
  ghost function ValuesOf(consts: seq<EnumConst>, sc: nat, st: State, env: Env): EnumOut
    requires Wf(st.scopes) && sc < |st.scopes|
  {
    EnumValues(consts, |st.scopes|, Open(st, sc), [], 0, env)
  }

  /** An accepted enum declares its name last, and its scope holds its constants. */
  lemma EnumRegistered(name: string, consts: seq<EnumConst>, sc: nat, st: State, env: Env)
    requires Wf(st.scopes) && sc < |st.scopes| && NameFree(st, sc, name, env) && ValuesOf(consts, sc, st, env).EnumOk?
    ensures var v, r := ValuesOf(consts, sc, st, env), RegEnum(name, consts, sc, st, env);
            var h := Handle.NamedType(name, Enum(st.enums), |st.scopes|);
            && |v.vals| == |consts| && v.st.enums == st.enums && |v.st.scopes| == |st.scopes| + 1
            && r == Ok(Declare(v.st.(enums := st.enums + 1), sc, h, env))
            && Filled(r.value.scopes, |st.scopes|, Listed(consts, v.vals), env.hash)
  {
    hide Filled, Declare, EnumValues, NameFree, Wf, ScopeTable.NewTable;
    var es, none: seq<int>, nobody: seq<Handle> := |st.scopes|, [], [];
    NewScopeFilled(st, sc, env);
    EnumFilled(consts, es, Open(st, sc), none, 0, nobody, env);
    var r := ValuesOf(consts, sc, st, env);
    assert r.vals[|none|..] == r.vals;
    assert nobody + Listed(consts, r.vals) == Listed(consts, r.vals);
    var h := Handle.NamedType(name, Enum(st.enums), es);
    hide Open;
    FilledStays(r.st.(enums := st.enums + 1), sc, es, h, Listed(consts, r.vals), env);
  }

  lemma MemberNamed(n: string, m: string, h: Handle, c: Context)
    requires c.Valid() && Find(c.scopes, c.sc, n, c.hash) == Some(h) && h.NamedType? && h.scope < |c.scopes|
    ensures Named(Symbol(n), c) == Some(h)
    ensures Named(MemberRef(Symbol(n), m), c) == Find(c.scopes, h.scope, m, c.hash)
  {
    hide Find, Wf;
  }

  /** Behind an accepted enum its name stands for a new type, and each of its constants, named through it, is the
      value the declaration gives it. */
  lemma EnumDeclared(name: string, consts: seq<EnumConst>, sc: nat, st: State, env: Env, i: nat)
    requires Wf(st.scopes) && sc < |st.scopes| && NameFree(st, sc, name, env) && ValuesOf(consts, sc, st, env).EnumOk?
    requires i < |consts| && DistinctConsts(consts)
    ensures var v, r := ValuesOf(consts, sc, st, env), RegEnum(name, consts, sc, st, env);
            && r.Ok? && r.value.enums == st.enums + 1 && |v.vals| == |consts|
            && var c := Here(sc, r.value, env, []);
            && Named(Symbol(name), c) == Some(Handle.NamedType(name, Enum(st.enums), |st.scopes|))
            && Named(MemberRef(Symbol(name), consts[i].name), c) == Some(IntConst(consts[i].name, v.vals[i]))
  {
    EnumRegistered(name, consts, sc, st, env);
    hide Filled, Find, Declare, RegEnum, ValuesOf, NameFree, Wf, Named;
    var v, r := ValuesOf(consts, sc, st, env), RegEnum(name, consts, sc, st, env).value;
    var h := Handle.NamedType(name, Enum(st.enums), |st.scopes|);
    DeclaredIsFound(v.st.(enums := st.enums + 1), sc, h, env);
    FilledFinds(r.scopes, |st.scopes|, Listed(consts, v.vals), i, env.hash);
    MemberNamed(name, consts[i].name, h, Here(sc, r, env, []));
  }

  /** So the constant, written with the name of the enum, means that integer. */
  lemma EnumConstantMeans<S, V>(l: Lang<S, V>, name: string, consts: seq<EnumConst>, sc: nat, st: State, env: Env,
                                i: nat, s: S)
    requires Wf(st.scopes) && sc < |st.scopes| && NameFree(st, sc, name, env) && ValuesOf(consts, sc, st, env).EnumOk?
    requires i < |consts| && DistinctConsts(consts)
    ensures var v, r := ValuesOf(consts, sc, st, env), RegEnum(name, consts, sc, st, env);
            && r.Ok? && |v.vals| == |consts|
            && Value(l, MemberRef(Symbol(name), consts[i].name), Here(sc, r.value, env, []), s)
               == Some((l.ofInt(v.vals[i]), s))
  {
    EnumDeclared(name, consts, sc, st, env, i);
    hide Wf, RegEnum, ValuesOf, NameFree, Named;
    var c := Here(sc, RegEnum(name, consts, sc, st, env).value, env, []);
    var e := MemberRef(Symbol(name), consts[i].name);
    assert Contents(l, e, c, s) == Some((l.ofInt(ValuesOf(consts, sc, st, env).vals[i]), s));
  }

  ghost predicate AllGiven(consts: seq<EnumConst>, vals: seq<int>, es: nat, st: State, env: Env)
    requires Wf(st.scopes) && es < |st.scopes| && |vals| == |consts|
  {
    consts != [] ==>
      && (consts[0].val.Some? ==> Given(consts[0].val.value, es, st.scopes, vals[0], env))
      && AllGiven(consts[1..], vals[1..], es, Declare(st, es, IntConst(consts[0].name, vals[0]), env), env)
  }

  lemma GivenSame(consts: seq<EnumConst>, vals: seq<int>, es: nat, st: State, st': State, env: Env)
    requires Wf(st.scopes) && es < |st.scopes| && |vals| == |consts| && st'.scopes == st.scopes
    ensures AllGiven(consts, vals, es, st, env) == AllGiven(consts, vals, es, st', env)
    decreases consts
  {
    hide Wf, Given;
    if consts != [] {
      var h := IntConst(consts[0].name, vals[0]);
      GivenSame(consts[1..], vals[1..], es, Declare(st, es, h, env), Declare(st', es, h, env), env);
    }
  }

  /** Constants with an expression have its value. */
  lemma {:induction false} ExplicitValues(consts: seq<EnumConst>, es: nat, st: State, used: seq<int>, next: nat,
                                          hs: seq<Handle>, env: Env)
    requires Wf(st.scopes) && es < |st.scopes| && Filled(st.scopes, es, hs, env.hash)
    requires EnumValues(consts, es, st, used, next, env).EnumOk?
    ensures var r := EnumValues(consts, es, st, used, next, env);
            |r.vals| == |used| + |consts| && AllGiven(consts, r.vals[|used|..], es, st, env)
    decreases consts
  {
    hide Wf, Declare, Filled, Given, AllGiven, Listed;
    EnumFilled(consts, es, st, used, next, hs, env);
    if consts != [] {
      var r := EnumValues(consts, es, st, used, next, env);
      var v, next', st' := EnumStep(consts, es, st, used, next, env);
      hide EnumValues;
      var h := IntConst(consts[0].name, v);
      FilledSame(st, st', es, hs, env);
      FilledMore(st', es, h, hs, env);
      EnumFilled(consts[1..], es, Declare(st', es, h, env), used + [v], next', hs + [h], env);
      ExplicitValues(consts[1..], es, Declare(st', es, h, env), used + [v], next', hs + [h], env);
      RestOf(r.vals, used, v);
      GivenFirst(consts, r.vals[|used|..], es, st, st', env);
    } else {
      NoneGiven(consts, es, st, env);
    }
  }

  lemma RestOf(vals: seq<int>, used: seq<int>, v: int)
    requires used + [v] <= vals
    ensures vals[|used|] == vals[|used|..][0] == v && vals[|used|..][1..] == vals[|used + [v]|..]
  {
    assert vals[|used|] == (used + [v])[|used|];
  }

  lemma NoneGiven(consts: seq<EnumConst>, es: nat, st: State, env: Env)
    requires Wf(st.scopes) && es < |st.scopes| && consts == []
    ensures AllGiven(consts, [], es, st, env)
  {
  }

  lemma GivenFirst(consts: seq<EnumConst>, vals: seq<int>, es: nat, st: State, st': State, env: Env)
    requires Wf(st.scopes) && es < |st.scopes| && st'.scopes == st.scopes && |vals| == |consts| > 0
    requires consts[0].val.Some? ==> Given(consts[0].val.value, es, st.scopes, vals[0], env)
    requires AllGiven(consts[1..], vals[1..], es, Declare(st', es, IntConst(consts[0].name, vals[0]), env), env)
    ensures AllGiven(consts, vals, es, st, env)
  {
    hide Wf, Declare, Given;
    var h := IntConst(consts[0].name, vals[0]);
    DeclareScopes(st, st', es, h, env);
    GivenSame(consts[1..], vals[1..], es, Declare(st', es, h, env), Declare(st, es, h, env), env);
  }

  lemma DeclareScopes(st: State, st': State, k: nat, h: Handle, env: Env)
    requires Wf(st.scopes) && k < |st.scopes| && st'.scopes == st.scopes
    ensures Declare(st, k, h, env).scopes == Declare(st', k, h, env).scopes
  {
    hide ScopeTable.Add;
  }

  /** The values of an accepted enum: those given, in the order of the declaration. */
  lemma EnumValuesGiven(consts: seq<EnumConst>, sc: nat, st: State, env: Env)
    requires Wf(st.scopes) && sc < |st.scopes| && ValuesOf(consts, sc, st, env).EnumOk?
    ensures |ValuesOf(consts, sc, st, env).vals| == |consts|
    ensures AllGiven(consts, ValuesOf(consts, sc, st, env).vals, |st.scopes|, Open(st, sc), env)
  {
    hide Wf, Filled, EnumValues, AllGiven;
    var none: seq<int> := [];
    NewScopeFilled(st, sc, env);
    ExplicitValues(consts, |st.scopes|, Open(st, sc), none, 0, [], env);
    var vals := ValuesOf(consts, sc, st, env).vals;
    assert vals[|none|..] == vals;
  }

  lemma GivenEvaluates(e: Expr, es: nat, st: State, v: int, env: Env)
    requires Wf(st.scopes) && es < |st.scopes| && Given(e, es, st.scopes, v, env)
    ensures var x := ElabExpr(e, es, st.scopes, st.calls, env.hash).r;
            && x.Ok? && Typing.IsStatic(x.value) && Typing.TypeOf(x.value) == Some(Int)
            && Interp.EvalInt(x.value, env.fp) == Interp.Val(v)
  {
    Constants.StaticAnyCalls(e, es, st.scopes, st.calls, env.hash);
    ConstProp.StaticAccepted(e, es, st.scopes, [], env.hash);
    hide Wf, ElabExpr, Typing.IsStatic, Interp.EvalInt, Soundness.Accepted;
    Soundness.ValueHasType(ElabExpr(e, es, st.scopes, [], env.hash).r.value, env.fp);
  }

  lemma FirstAssigned(consts: seq<EnumConst>, used: seq<int>, next: nat, vals: seq<int>)
    requires consts != [] && EnumProps.Assigned(consts, used, vals)
    requires forall w :: 0 <= w < next ==> w in used
    ensures vals[|used|] !in used && EnumProps.Assigned(consts[1..], used + [vals[|used|]], vals)
    ensures consts[0].val.None? ==>
              vals[|used|] == FirstFree(used, next) && forall w :: 0 <= w <= vals[|used|] ==> w in used + [vals[|used|]]
  {
    var v := vals[|used|];
    assert vals[..|used|] == used && vals[..|used| + 1] == used + [v];
    forall k | 0 <= k < |used| ensures used[k] != v { assert vals[k] == used[k]; }
    if consts[0].val.None? {
      assert |used| + 0 == |used|;
      assert EnumProps.LeastUnused(vals[|used| + 0], vals[..|used| + 0]);
    }
    forall i | 0 <= i < |consts[1..]| && consts[1..][i].val.None?
      ensures EnumProps.LeastUnused(vals[|used + [v]| + i], vals[..|used + [v]| + i])
    {
      assert consts[i + 1].val.None? && |used + [v]| + i == |used| + (i + 1);
    }
  }

  /** An enum is accepted with those values exactly if they are the given ones, pairwise distinct, and the least unused
      ones where none are given. */
  lemma {:induction false} EnumAccepted(consts: seq<EnumConst>, es: nat, st: State, used: seq<int>, next: nat,
                                        vals: seq<int>, env: Env)
    requires Wf(st.scopes) && es < |st.scopes| && EnumProps.Assigned(consts, used, vals)
    requires forall w :: 0 <= w < next ==> w in used
    requires AllGiven(consts, vals[|used|..], es, st, env)
    ensures EnumValues(consts, es, st, used, next, env).EnumOk?
    ensures EnumValues(consts, es, st, used, next, env).vals == vals
    decreases consts
  {
    hide Wf, ElabExpr, Declare, Given, EnumProps.Assigned, EnumProps.LeastUnused;
    AssignedLength(consts, used, vals);
    if consts != [] {
      var v, h := vals[|used|], IntConst(consts[0].name, vals[|used|]);
      FirstAssigned(consts, used, next, vals);
      assert vals[|used|..][1..] == vals[|used + [v]|..];
      var st', next' := st, next;
      match consts[0].val {
        case None => next' := v + 1;
        case Some(e) =>
          GivenEvaluates(e, es, st, v, env);
          st' := st.(calls := ElabExpr(e, es, st.scopes, st.calls, env.hash).calls);
      }
      DeclareScopes(st, st', es, h, env);
      GivenSame(consts[1..], vals[|used + [v]|..], es, Declare(st, es, h, env), Declare(st', es, h, env), env);
      EnumAccepted(consts[1..], es, Declare(st', es, h, env), used + [v], next', vals, env);
    }
  }

  lemma AssignedLength(consts: seq<EnumConst>, used: seq<int>, vals: seq<int>)
    requires EnumProps.Assigned(consts, used, vals)
    ensures |vals| == |used| + |consts| && used <= vals && (consts == [] ==> vals == used)
  {
  }

  /** So there is at most one way to accept an enum, and it is taken whenever there is one. */
  lemma EnumAcceptedExactly(consts: seq<EnumConst>, sc: nat, st: State, env: Env, vals: seq<int>)
    requires Wf(st.scopes) && sc < |st.scopes|
    ensures var r := ValuesOf(consts, sc, st, env);
            r.EnumOk? && r.vals == vals
            <==> EnumProps.Assigned(consts, [], vals) && |vals| == |consts|
                 && AllGiven(consts, vals, |st.scopes|, Open(st, sc), env)
  {
    hide Wf, EnumValues, AllGiven, EnumProps.Assigned;
    var none: seq<int> := [];
    var r := ValuesOf(consts, sc, st, env);
    if r.EnumOk? && r.vals == vals {
      EnumValuesGiven(consts, sc, st, env);
      EnumProps.ValuesAssigned(consts, |st.scopes|, Open(st, sc), none, 0, env);
    }
    if EnumProps.Assigned(consts, none, vals) {
      AssignedLength(consts, none, vals);
      assert vals[|none|..] == vals;
      if AllGiven(consts, vals, |st.scopes|, Open(st, sc), env) {
        EnumAccepted(consts, |st.scopes|, Open(st, sc), none, 0, vals, env);
      }
    }
  }

  // ----- functions -----

  /** The types the parameters of a function denote, all of them where the function is declared. */
  ghost predicate Denoted(params: seq<Param>, tys: seq<Ty>, c: Context) {
    && |tys| == |params|
    && forall i :: 0 <= i < |params| ==> TypeTable.Denotes(params[i].ty, TypeOfName(c)) == Some(tys[i])
  }

  lemma {:induction false} ParamTypesDenoted(params: seq<Param>, fs: nat, sc: nat, st: State, env: Env)
    requires Wf(st.scopes) && sc < |st.scopes| && fs < |st.scopes| && ParamTypes(params, fs, sc, st, env).r.Ok?
    ensures Denoted(params, ParamTypes(params, fs, sc, st, env).r.value, Here(sc, st, env, []))
    decreases params
  {
    if params != [] {
      ResolvesWhatItDenotes(params[0].ty, Here(sc, st, env, []), st.calls);
      hide Wf, ResolveType, TypeTable.Denotes, NameFree;
      var t := ResolveType(params[0].ty, sc, st.scopes, st.calls, env.hash);
      var st' := st.(calls := t.calls);
      ParamTypesDenoted(params[1..], fs, sc, st', env);
      var tys, rest := ParamTypes(params, fs, sc, st, env).r.value, ParamTypes(params[1..], fs, sc, st', env).r.value;
      assert tys == [t.r.value] + rest;
      forall i | 0 <= i < |params|
        ensures TypeTable.Denotes(params[i].ty, TypeOfName(Here(sc, st, env, []))) == Some(tys[i])
      {
        if i > 0 { assert params[1..][i - 1] == params[i] && rest[i - 1] == tys[i]; }
      }
    }
  }

  /** The parameters from `i` on are the next locals of the function. */
  ghost function Locals(params: seq<Param>, tys: seq<Ty>, i: nat): (hs: seq<Handle>)
    requires |tys| == |params| && i <= |params|
    ensures |hs| == |params| - i
    ensures forall k :: i <= k < |params| ==> hs[k - i] == LocalVar(params[k].name, tys[k], 0, k)
    decreases |params| - i
  {
    if i == |params| then [] else [LocalVar(params[i].name, tys[i], 0, i)] + Locals(params, tys, i + 1)
  }

  lemma {:induction false} ParamsFilled(params: seq<Param>, tys: seq<Ty>, i: nat, fs: nat, sc: nat, st: State,
                                        hs: seq<Handle>, env: Env)
    requires Wf(st.scopes) && sc < |st.scopes| && fs < |st.scopes| && |tys| == |params| && i <= |params|
    requires Filled(st.scopes, fs, hs, env.hash) && DeclareParams(params, tys, i, fs, sc, st, env).ParamsOk?
    ensures var r := DeclareParams(params, tys, i, fs, sc, st, env);
            r.args == Locals(params, tys, i) && Filled(r.st.scopes, fs, hs + Locals(params, tys, i), env.hash)
    decreases |params| - i
  {
    hide Wf, ElabExpr, Declare, Filled;
    if i == |params| {
      assert hs + [] == hs;
    } else {
      var h := LocalVar(params[i].name, tys[i], 0, i);
      var st1 := Declare(st, fs, h, env);
      FilledMore(st, fs, h, hs, env);
      var x := if params[i].init.None? then Out(Null, st1.calls)
               else ElabExpr(params[i].init.value, sc, st1.scopes, st1.calls, env.hash);
      FilledSame(st1, st1.(calls := x.calls), fs, hs + [h], env);
      ParamsFilled(params, tys, i + 1, fs, sc, st1.(calls := x.calls), hs + [h], env);
      assert hs + [h] + Locals(params, tys, i + 1) == hs + Locals(params, tys, i);
    }
  }

  ghost predicate SameBut(a: seq<ScopeRec>, b: seq<ScopeRec>, k: nat) {
    |a| == |b| && forall j :: 0 <= j < |a| && j != k ==> a[j] == b[j]
  }

  /** `d` is the default value `init`, elaborated in scope `sc`, where only the function's own scope `fs` may have
      changed. */
  ghost predicate DefaultOf(init: Option<Expr>, d: Option<Node>, sc: nat, fs: nat, scopes: seq<ScopeRec>, env: Env) {
    match init
    case None => d == None
    case Some(e) =>
      d.Some? && sc < |scopes| && exists s, cs ::
        Wf(s) && SameBut(s, scopes, fs) && ElabExpr(e, sc, s, cs, env.hash).r == Ok(d.value)
  }

  lemma DefaultStays(init: Option<Expr>, d: Option<Node>, sc: nat, fs: nat, st: State, h: Handle, env: Env)
    requires Wf(st.scopes) && fs < |st.scopes|
    requires DefaultOf(init, d, sc, fs, Declare(st, fs, h, env).scopes, env)
    ensures DefaultOf(init, d, sc, fs, st.scopes, env)
  {
    hide ScopeTable.Add, Wf, ElabExpr;
    if init.Some? {
      var s, cs :| Wf(s) && SameBut(s, Declare(st, fs, h, env).scopes, fs)
                   && ElabExpr(init.value, sc, s, cs, env.hash).r == Ok(d.value);
      assert SameBut(s, st.scopes, fs);
    }
  }

  /** Default values are elaborated outside the function and kept in the order of the parameters. */
  lemma {:induction false} DefaultsKept(params: seq<Param>, tys: seq<Ty>, i: nat, fs: nat, sc: nat, st: State,
                                        env: Env)
    requires Wf(st.scopes) && sc < |st.scopes| && fs < |st.scopes| && |tys| == |params| && i <= |params|
    requires DeclareParams(params, tys, i, fs, sc, st, env).ParamsOk?
    ensures var inits := DeclareParams(params, tys, i, fs, sc, st, env).inits;
            && |inits| == |params| - i
            && forall k :: i <= k < |params| ==> DefaultOf(params[k].init, inits[k - i], sc, fs, st.scopes, env)
    decreases |params| - i
  {
    hide Wf, ElabExpr, Declare, DefaultOf;
    if i < |params| {
      var h := LocalVar(params[i].name, tys[i], 0, i);
      var st1 := Declare(st, fs, h, env);
      var x := if params[i].init.None? then Out(Null, st1.calls)
               else ElabExpr(params[i].init.value, sc, st1.scopes, st1.calls, env.hash);
      var st2 := st1.(calls := x.calls);
      DefaultsKept(params, tys, i + 1, fs, sc, st2, env);
      var inits, rest := DeclareParams(params, tys, i, fs, sc, st, env).inits,
                         DeclareParams(params, tys, i + 1, fs, sc, st2, env).inits;
      FirstDefault(params[i].init, inits[0], sc, fs, st1, env);
      DefaultStays(params[i].init, inits[0], sc, fs, st, h, env);
      forall k | i < k < |params| ensures DefaultOf(params[k].init, inits[k - i], sc, fs, st.scopes, env) {
        assert inits[k - i] == rest[k - (i + 1)];
        DefaultStays(params[k].init, rest[k - (i + 1)], sc, fs, st, h, env);
      }
    }
  }

  lemma FirstDefault(init: Option<Expr>, d: Option<Node>, sc: nat, fs: nat, st: State, env: Env)
    requires Wf(st.scopes) && sc < |st.scopes|
    requires match init
             case None => d == None
             case Some(e) => d.Some? && ElabExpr(e, sc, st.scopes, st.calls, env.hash).r == Ok(d.value)
    ensures DefaultOf(init, d, sc, fs, st.scopes, env)
  {
    hide Wf, ElabExpr;
    assert SameBut(st.scopes, st.scopes, fs);
  }

  ghost predicate DefaultsStand(params: seq<Param>, inits: seq<Option<Node>>, sc: nat, fs: nat, scopes: seq<ScopeRec>,
                                env: Env) {
    |inits| == |params| && forall k :: 0 <= k < |params| ==> DefaultOf(params[k].init, inits[k], sc, fs, scopes, env)
  }

  /** How an accepted function header came about. */
  lemma HeaderParts(name: string, t: TypeExpr, params: seq<Param>, sc: nat, st: State, env: Env)
    returns (out: Ty, tys: seq<Ty>, c1: seq<CallStub>, c2: seq<CallStub>, p: ParamsOut)
    requires Wf(st.scopes) && sc < |st.scopes| && st.blocks != [] && RegFunc(name, t, params, sc, st, env).Header?
    ensures var r, fs, st1 := RegFunc(name, t, params, sc, st, env), |st.scopes|, Open(st, GlobalOf(st, sc));
            && ResolveType(t, sc, st1.scopes, st1.calls, env.hash) == Out(Ok(out), c1)
            && ParamTypes(params, fs, sc, st1.(calls := c1), env) == Out(Ok(tys), c2) && |tys| == |params|
            && DeclareParams(params, tys, 0, fs, sc, st1.(calls := c2), env) == p && p.ParamsOk?
            && var h := Function(name, Func(out, tys), 0, |p.st.blocks| - 1);
            && var st3 := Declare(p.st, sc, h, env);
            && p.st.blocks == st.blocks
            && r == Header(st3.(blocks := st3.blocks + [BlockRec([], Some(h), p.args, p.inits)]), fs, |st3.blocks|)
  {
    hide Declare, ResolveType, ParamTypes, DeclareParams, Wf, NameFree, GlobalOf;
    var st1 := Open(st, GlobalOf(st, sc));
    hide Open;
    out := ResolveType(t, sc, st1.scopes, st1.calls, env.hash).r.value;
    c1 := ResolveType(t, sc, st1.scopes, st1.calls, env.hash).calls;
    tys := ParamTypes(params, |st.scopes|, sc, st1.(calls := c1), env).r.value;
    c2 := ParamTypes(params, |st.scopes|, sc, st1.(calls := c1), env).calls;
    p := DeclareParams(params, tys, 0, |st.scopes|, sc, st1.(calls := c2), env);
  }

  /** What the declaration of a function in scope `sc` leaves: its handle, its block record and its scope. */
  ghost predicate FunctionStands(h: Handle, params: seq<Param>, tys: seq<Ty>, sc: nat, r: Header, env: Env) {
    && r.Header? && Wf(r.st.scopes) && sc < |r.st.scopes| && r.block < |r.st.blocks| && |tys| == |params|
    && Find(r.st.scopes, sc, NameOf(h), env.hash) == Some(h)
    && r.st.blocks[r.block].handle == Some(h) && r.st.blocks[r.block].vars == []
    && r.st.blocks[r.block].args == Locals(params, tys, 0)
    && Filled(r.st.scopes, r.scope, Locals(params, tys, 0), env.hash)
  }

  /** The parameters declared in the scope of the function, then the function itself in the scope `sc` outside. */
  lemma HeaderStands(h: Handle, params: seq<Param>, tys: seq<Ty>, fs: nat, sc: nat, st: State, p: ParamsOut, env: Env)
    requires Wf(st.scopes) && sc < |st.scopes| && fs < |st.scopes| && sc != fs && |tys| == |params|
    requires Filled(st.scopes, fs, [], env.hash)
    requires DeclareParams(params, tys, 0, fs, sc, st, env) == p && p.ParamsOk?
    ensures var st3 := Declare(p.st, sc, h, env);
            var rec := BlockRec([], Some(h), p.args, p.inits);
            && FunctionStands(h, params, tys, sc, Header(st3.(blocks := st3.blocks + [rec]), fs, |st3.blocks|), env)
            && DefaultsStand(params, p.inits, sc, fs, st.scopes, env)
  {
    hide DeclareParams, DefaultOf, Filled, Find, Wf, Locals;
    var none: seq<Handle> := [];
    ParamsFilled(params, tys, 0, fs, sc, st, none, env);
    DefaultsKept(params, tys, 0, fs, sc, st, env);
    assert none + Locals(params, tys, 0) == Locals(params, tys, 0);
    DeclaredIsFound(p.st, sc, h, env);
    FilledStays(p.st, sc, fs, h, Locals(params, tys, 0), env);
    hide Declare;
  }

  /** An accepted function header: the name stands for a function of the denoted type with the next index, its
      arguments are the first locals of its block, its scope holds them and nothing else, and its default values are
      those of the declaration. */
  lemma FunctionDeclared(name: string, t: TypeExpr, params: seq<Param>, sc: nat, st: State, env: Env)
    requires Wf(st.scopes) && sc < |st.scopes| && st.blocks != [] && RegFunc(name, t, params, sc, st, env).Header?
    ensures var r, c := RegFunc(name, t, params, sc, st, env), Here(sc, Open(st, GlobalOf(st, sc)), env, []);
            && r.scope == |st.scopes| && r.block == |st.blocks|
            && DefaultsStand(params, r.st.blocks[r.block].inits, sc, r.scope, c.scopes, env)
            && exists out, tys ::
                 && TypeTable.Denotes(t, TypeOfName(c)) == Some(out) && Denoted(params, tys, c)
                 && FunctionStands(Function(name, Func(out, tys), 0, |st.blocks| - 1), params, tys, sc, r, env)
  {
    var out, tys, c1, c2, p := HeaderParts(name, t, params, sc, st, env);
    var fs, st1 := |st.scopes|, Open(st, GlobalOf(st, sc));
    NewScopeFilled(st, GlobalOf(st, sc), env);
    hide RegFunc, ParamTypes, DeclareParams, Filled, Declare, Wf, NameFree, TypeTable.Denotes, Denoted, Open, GlobalOf;
    hide ResolveType, FunctionStands, DefaultsStand;
    ResolvesWhatItDenotes(t, Here(sc, st1, env, []), st1.calls);
    ParamTypesDenoted(params, fs, sc, st1.(calls := c1), env);
    var h := Function(name, Func(out, tys), 0, |st.blocks| - 1);
    FilledSame(st1, st1.(calls := c2), fs, [], env);
    HeaderStands(h, params, tys, fs, sc, st1.(calls := c2), p, env);
    assert FunctionStands(h, params, tys, sc, RegFunc(name, t, params, sc, st, env), env);
  }

  lemma EmptyFree(st: State, k: nat, n: string, env: Env)
    requires Wf(st.scopes) && Filled(st.scopes, k, [], env.hash)
    ensures NameFree(st, k, n, env)
  {
    assert ScopeWf(st.scopes, k);
    assert ScopeTable.Holds(st.scopes[k].table, [], x => env.hash(NameOf(x)));
    hide ScopeTable.Holds, ScopeTable.FindLocal;
    ScopeTable.FindLocalIs(st.scopes[k].table, [], n, NameOf, env.hash);
  }

  /** The types of the parameters resolve if all of them denote types. */
  lemma {:induction false} ParamTypesResolve(params: seq<Param>, tys: seq<Ty>, fs: nat, sc: nat, st: State, env: Env)
    requires Wf(st.scopes) && sc < |st.scopes| && fs < |st.scopes| && Filled(st.scopes, fs, [], env.hash)
    requires Denoted(params, tys, Here(sc, st, env, []))
    ensures ParamTypes(params, fs, sc, st, env).r == Ok(tys)
    decreases params
  {
    if params == [] {
      assert tys == [];
    } else {
      ResolvesWhatItDenotes(params[0].ty, Here(sc, st, env, []), st.calls);
      EmptyFree(st, fs, params[0].name, env);
      hide Wf, ResolveType, TypeTable.Denotes, NameFree, Filled;
      var t := ResolveType(params[0].ty, sc, st.scopes, st.calls, env.hash);
      var st' := st.(calls := t.calls);
      FilledSame(st, st', fs, [], env);
      forall i | 0 <= i < |params[1..]|
        ensures TypeTable.Denotes(params[1..][i].ty, TypeOfName(Here(sc, st, env, []))) == Some(tys[1..][i])
      {
        assert params[1..][i] == params[i + 1] && tys[1..][i] == tys[i + 1];
      }
      ParamTypesResolve(params[1..], tys[1..], fs, sc, st', env);
      assert tys == [tys[0]] + tys[1..];
    }
  }

  /** The default values are accepted where they stand: behind the parameters before them. */
  ghost predicate DefaultsGo(params: seq<Param>, tys: seq<Ty>, i: nat, fs: nat, sc: nat, st: State, env: Env)
    requires Wf(st.scopes) && sc < |st.scopes| && fs < |st.scopes| && |tys| == |params| && i <= |params|
    decreases |params| - i
  {
    i < |params| ==>
      var st1 := Declare(st, fs, LocalVar(params[i].name, tys[i], 0, i), env);
      && (params[i].init.Some? ==> Kinds.KindAt(params[i].init.value, sc, st1, env).Ok?)
      && DefaultsGo(params, tys, i + 1, fs, sc, st1, env)
  }

  lemma {:induction false} DefaultsGoSame(params: seq<Param>, tys: seq<Ty>, i: nat, fs: nat, sc: nat, st: State,
                                          st': State, env: Env)
    requires Wf(st.scopes) && sc < |st.scopes| && fs < |st.scopes| && |tys| == |params| && i <= |params|
    requires st'.scopes == st.scopes
    ensures DefaultsGo(params, tys, i, fs, sc, st, env) == DefaultsGo(params, tys, i, fs, sc, st', env)
    decreases |params| - i
  {
    hide Wf, Kind;
    if i < |params| {
      var h := LocalVar(params[i].name, tys[i], 0, i);
      DeclareScopes(st, st', fs, h, env);
      DefaultsGoSame(params, tys, i + 1, fs, sc, Declare(st, fs, h, env), Declare(st', fs, h, env), env);
    }
  }

  lemma {:induction false} ParamsDeclared(params: seq<Param>, tys: seq<Ty>, i: nat, fs: nat, sc: nat, st: State,
                                          env: Env)
    requires Wf(st.scopes) && sc < |st.scopes| && fs < |st.scopes| && |tys| == |params| && i <= |params|
    ensures DeclareParams(params, tys, i, fs, sc, st, env).ParamsOk? <==> DefaultsGo(params, tys, i, fs, sc, st, env)
    decreases |params| - i
  {
    hide Wf, ElabExpr, Declare, Kinds.KindAt;
    if i < |params| {
      var st1 := Declare(st, fs, LocalVar(params[i].name, tys[i], 0, i), env);
      if params[i].init.Some? { Kinds.KindHere(params[i].init.value, sc, st1, st1.calls, env); }
      var x := if params[i].init.None? then Out(Null, st1.calls)
               else ElabExpr(params[i].init.value, sc, st1.scopes, st1.calls, env.hash);
      ParamsDeclared(params, tys, i + 1, fs, sc, st1.(calls := x.calls), env);
      DefaultsGoSame(params, tys, i + 1, fs, sc, st1, st1.(calls := x.calls), env);
    }
  }

  lemma HeaderExactly(name: string, t: TypeExpr, params: seq<Param>, sc: nat, st: State, env: Env)
    requires Wf(st.scopes) && sc < |st.scopes| && st.blocks != []
    ensures var fs, st1 := |st.scopes|, Open(st, GlobalOf(st, sc));
            var out := ResolveType(t, sc, st1.scopes, st1.calls, env.hash);
            var tys := ParamTypes(params, fs, sc, st1.(calls := out.calls), env);
            RegFunc(name, t, params, sc, st, env).Header? <==>
              && NameFree(st, sc, name, env) && out.r.Ok? && tys.r.Ok?
              && DeclareParams(params, tys.r.value, 0, fs, sc, st1.(calls := tys.calls), env).ParamsOk?
  {
    hide Open, GlobalOf, ResolveType, ParamTypes, DeclareParams, NameFree, Declare, Wf;
  }

  /** A function is declared exactly if its name is free, its type and those of its parameters denote types, and its
      default values are accepted. */
  lemma FunctionAccepted(name: string, t: TypeExpr, params: seq<Param>, tys: seq<Ty>, sc: nat, st: State, env: Env)
    requires Wf(st.scopes) && sc < |st.scopes| && st.blocks != []
    requires Denoted(params, tys, Here(sc, Open(st, GlobalOf(st, sc)), env, []))
    ensures var st1 := Open(st, GlobalOf(st, sc));
            RegFunc(name, t, params, sc, st, env).Header? <==>
              && NameFree(st, sc, name, env)
              && TypeTable.Denotes(t, TypeOfName(Here(sc, st1, env, []))).Some?
              && DefaultsGo(params, tys, 0, |st.scopes|, sc, st1, env)
  {
    HeaderExactly(name, t, params, sc, st, env);
    var fs, st1 := |st.scopes|, Open(st, GlobalOf(st, sc));
    NewScopeFilled(st, GlobalOf(st, sc), env);
    hide RegFunc, Filled, Open, GlobalOf, TypeTable.Denotes, ResolveType, NameFree, Declare, Wf, ParamTypes;
    hide DefaultsGo, DeclareParams;
    ResolvesWhatItDenotes(t, Here(sc, st1, env, []), st1.calls);
    var st2 := st1.(calls := ResolveType(t, sc, st1.scopes, st1.calls, env.hash).calls);
    FilledSame(st1, st2, fs, [], env);
    assert |tys| == |params|;
    hide Denoted;
    ParamTypesResolve(params, tys, fs, sc, st2, env);
    var st3 := st2.(calls := ParamTypes(params, fs, sc, st2, env).calls);
    ParamsDeclared(params, tys, 0, fs, sc, st3, env);
    DefaultsGoSame(params, tys, 0, fs, sc, st1, st3, env);
  }
}
