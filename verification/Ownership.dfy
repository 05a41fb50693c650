/** Whose locals a block can name: every local variable in the nodes of a code block is a variable or an
    argument of that same block, however functions and scopes nest. */
module Ownership {
  import opened Common
  import opened Ir
  import opened Ast
  import opened Typing
  import opened Interp
  import opened ScopeGraph
  import opened Elaborate
  import Buckets
  import ScopeTable
  import F = Flatten
  import Labels
  import Slots

  /** A scope is a global scope (of this module or an imported one); or it belongs to one code block; or it
      holds no locals (an enum declared in a global scope); or it was dropped with a rejected function and
      nothing leads to it. */
  datatype Owner = Global | Of(block: nat) | Free | Lost

  /** The local variables of a block. */
  function Locals(blocks: seq<BlockRec>, b: nat): seq<Handle> {
    if b < |blocks| then blocks[b].vars + blocks[b].args else []
  }

  function Seen(blocks: seq<BlockRec>, w: Owner): seq<Handle> {
    if w.Of? then Locals(blocks, w.block) else []
  }

  /** A handle that a scope of owner `w` may hold. */
  ghost predicate EntryOk(blocks: seq<BlockRec>, o: seq<Owner>, w: Owner, h: Handle) {
    !h.ArrayRef? && (h.LocalVar? ==> h in Seen(blocks, w)) && LeadsOk(o, w, h)
  }

  /** A scope it leads to belongs to the same owner or holds no locals. */
  ghost predicate LeadsOk(o: seq<Owner>, w: Owner, h: Handle) {
    h.ScopeHandle? || h.NamedType? ==> h.scope < |o| && (o[h.scope] == w || o[h.scope].Free? || o[h.scope].Global?)
  }

  ghost predicate TableOk(blocks: seq<BlockRec>, o: seq<Owner>, w: Owner, t: ScopeTable.Table<Handle>) {
    forall h :: h in Buckets.Flat(t.chains) ==> EntryOk(blocks, o, w, h)
  }

  ghost predicate ScopeOk(blocks: seq<BlockRec>, scopes: seq<ScopeRec>, o: seq<Owner>, k: nat)
    requires k < |scopes| == |o|
  {
    var s := scopes[k];
    && (s.globalScope.None? <==> o[k].Global?)
    && (s.parent.Some? ==> s.parent.value < |o| && o[s.parent.value] == o[k])
    && (!o[k].Lost? ==> TableOk(blocks, o, o[k], s.table))
  }

  ghost predicate Tidy(blocks: seq<BlockRec>, scopes: seq<ScopeRec>, o: seq<Owner>) {
    |scopes| == |o| && forall k :: 0 <= k < |o| ==> ScopeOk(blocks, scopes, o, k)
  }

  // ----- lookup -----

  lemma FirstInFlat(t: ScopeTable.Table<Handle>, n: string, hash: string -> nat)
    requires |t.chains| > 0 && ScopeTable.FindLocal(t, n, NameOf, hash).Some?
    ensures ScopeTable.FindLocal(t, n, NameOf, hash).value in Buckets.Flat(t.chains)
  {
    var chain := t.chains[hash(n) % |t.chains|];
    ScopeTable.FirstIs(chain, n, NameOf);
    Buckets.InFlat(t.chains, ScopeTable.First(chain, n, NameOf).value);
  }

  /** A lookup finds what the owner of the scope may see. */
  lemma {:induction false} FindOwned(blocks: seq<BlockRec>, scopes: seq<ScopeRec>, o: seq<Owner>, sc: nat, n: string,
                                     hash: string -> nat)
    requires Wf(scopes) && Tidy(blocks, scopes, o) && sc < |scopes| && !o[sc].Lost?
    requires Find(scopes, sc, n, hash).Some?
    ensures EntryOk(blocks, o, o[sc], Find(scopes, sc, n, hash).value)
    decreases sc
  {
    hide EntryOk, ScopeTable.FindLocal;
    assert ScopeWf(scopes, sc) && ScopeOk(blocks, scopes, o, sc);
    var s := scopes[sc];
    if FindLocal(scopes, sc, n, hash).Some? {
      FirstInFlat(s.table, n, hash);
    } else if s.parent.Some? && Find(scopes, s.parent.value, n, hash).Some? {
      FindOwned(blocks, scopes, o, s.parent.value, n, hash);
    } else {
      var g := s.globalScope.value;
      assert ScopeWf(scopes, g) && ScopeOk(blocks, scopes, o, g);
      FindOwned(blocks, scopes, o, g, n, hash);
      GlobalIsOk(blocks, o, o[sc], Find(scopes, g, n, hash).value);
    }
  }

  lemma GlobalIsOk(blocks: seq<BlockRec>, o: seq<Owner>, w: Owner, h: Handle)
    requires EntryOk(blocks, o, Global, h)
    ensures EntryOk(blocks, o, w, h)
  {
  }

  // ----- expressions -----

  /** Every local variable in the handle or node is one of `vs`. */
  predicate HandleOwned(h: Handle, vs: seq<Handle>) {
    match h
    case LocalVar(_, _, _, _) => h in vs
    case ArrayRef(base, offset) => NodeOwned(base, vs) && NodeOwned(offset, vs)
    case _ => true
  }

  predicate NodeOwned(n: Node, vs: seq<Handle>) {
    match n
    case UniOp(_, _, a) => NodeOwned(a, vs)
    case BinOp(_, _, a, b) => NodeOwned(a, vs) && NodeOwned(b, vs)
    case TriOp(_, a, b, c) => NodeOwned(a, vs) && NodeOwned(b, vs) && NodeOwned(c, vs)
    case Load(_, h) => HandleOwned(h, vs)
    case FuncCall(args, _) => NodesOwned(args, vs)
    case Store(h, v) => HandleOwned(h, vs) && NodeOwned(v, vs)
    case InplaceUniOp(_, h) => HandleOwned(h, vs)
    case InplaceBinOp(_, h, v) => HandleOwned(h, vs) && NodeOwned(v, vs)
    case NullNode => true
  }

  predicate NodesOwned(ns: seq<Node>, vs: seq<Handle>) {
    ns == [] || (NodeOwned(ns[0], vs) && NodesOwned(ns[1..], vs))
  }

  lemma {:induction false} ExprOwned(e: Expr, sc: nat, blocks: seq<BlockRec>, scopes: seq<ScopeRec>, o: seq<Owner>,
                                     calls: seq<CallStub>, hash: string -> nat)
    requires Wf(scopes) && Tidy(blocks, scopes, o) && sc < |scopes| && !o[sc].Lost?
    ensures var x := ElabExpr(e, sc, scopes, calls, hash); x.r.Ok? ==> NodeOwned(x.r.value, Seen(blocks, o[sc]))
    decreases e, 1
  {
    hide Wf, Tidy, Seen, Find, CalcType1, CalcType2, CalcType3;
    match e
    case Symbol(_) => PrimaryOwned(e, sc, blocks, scopes, o, calls, hash);
    case ArrayRef(_, _) => PrimaryOwned(e, sc, blocks, scopes, o, calls, hash);
    case MemberRef(_, _) => PrimaryOwned(e, sc, blocks, scopes, o, calls, hash);
    case FuncCall(func, args) => ArgsOwned(args, sc, blocks, scopes, o, calls, hash);
    case Unary(op, a) => ExprOwned(a, sc, blocks, scopes, o, calls, hash);
    case Binary(op, a, b) =>
      ExprOwned(a, sc, blocks, scopes, o, calls, hash);
      ExprOwned(b, sc, blocks, scopes, o, ElabExpr(a, sc, scopes, calls, hash).calls, hash);
    case Ite(a, b, c) =>
      ExprOwned(a, sc, blocks, scopes, o, calls, hash);
      var x := ElabExpr(a, sc, scopes, calls, hash);
      ExprOwned(b, sc, blocks, scopes, o, x.calls, hash);
      ExprOwned(c, sc, blocks, scopes, o, ElabExpr(b, sc, scopes, x.calls, hash).calls, hash);
    case _ =>
  }

  lemma {:induction false} ArgsOwned(args: seq<Expr>, sc: nat, blocks: seq<BlockRec>, scopes: seq<ScopeRec>,
                                     o: seq<Owner>, calls: seq<CallStub>, hash: string -> nat)
    requires Wf(scopes) && Tidy(blocks, scopes, o) && sc < |scopes| && !o[sc].Lost?
    ensures var x := ElabArgs(args, sc, scopes, calls, hash); x.r.Ok? ==> NodesOwned(x.r.value, Seen(blocks, o[sc]))
    decreases args, 0
  {
    hide Wf, Tidy, Seen, ElabExpr, NodeOwned;
    if args != [] {
      ExprOwned(args[0], sc, blocks, scopes, o, calls, hash);
      ArgsOwned(args[1..], sc, blocks, scopes, o, ElabExpr(args[0], sc, scopes, calls, hash).calls, hash);
    }
  }

  lemma {:induction false} PrimaryOwned(e: Expr, sc: nat, blocks: seq<BlockRec>, scopes: seq<ScopeRec>, o: seq<Owner>,
                                        calls: seq<CallStub>, hash: string -> nat)
    requires Wf(scopes) && Tidy(blocks, scopes, o) && sc < |scopes| && !o[sc].Lost?
    ensures var p := ElabPrimary(e, sc, scopes, calls, hash);
      p.r.Ok? ==> HandleOwned(p.r.value, Seen(blocks, o[sc])) && LeadsOk(o, o[sc], p.r.value)
    decreases e, 0
  {
    hide Wf, Tidy, Find, ElabExpr;
    match e
    case Symbol(name) => if Find(scopes, sc, name, hash).Some? { FindOwned(blocks, scopes, o, sc, name, hash); }
    case ArrayRef(body, index) =>
      PrimaryOwned(body, sc, blocks, scopes, o, calls, hash);
      ExprOwned(index, sc, blocks, scopes, o, ElabPrimary(body, sc, scopes, calls, hash).calls, hash);
    case MemberRef(body, member) =>
      PrimaryOwned(body, sc, blocks, scopes, o, calls, hash);
      var p := ElabPrimary(body, sc, scopes, calls, hash);
      if p.r.Ok? && (p.r.value.ScopeHandle? || p.r.value.NamedType?) && p.r.value.scope < |scopes| {
        var k := p.r.value.scope;
        if Find(scopes, k, member, hash).Some? { FindOwned(blocks, scopes, o, k, member, hash); }
      }
    case _ =>
  }

  // ----- scopes and declarations -----

  ghost predicate LocalsGrow(a: seq<BlockRec>, b: seq<BlockRec>) {
    |a| <= |b| && forall k, h :: 0 <= k < |a| && h in Locals(a, k) ==> h in Locals(b, k)
  }

  lemma AddEntries(t: ScopeTable.Table<Handle>, h: Handle, key: Handle -> nat, x: Handle)
    requires |t.chains| > 0 && x in Buckets.Flat(ScopeTable.Add(t, h, key).chains)
    ensures x == h || x in Buckets.Flat(t.chains)
  {
    hide ScopeTable.Add, Buckets.Flat;
    ScopeTable.AddConserves(t, h, key);
    assert x in multiset(Buckets.Flat(ScopeTable.Add(t, h, key).chains));
  }

  lemma DeclareTidy(blocks: seq<BlockRec>, scopes: seq<ScopeRec>, o: seq<Owner>, sc: nat, h: Handle,
                    hash: string -> nat)
    requires Wf(scopes) && Tidy(blocks, scopes, o) && sc < |scopes| && |scopes[sc].table.chains| > 0
    requires o[sc].Lost? || EntryOk(blocks, o, o[sc], h)
    ensures Tidy(blocks, AddHandle(scopes, sc, h, hash), o)
  {
    hide EntryOk, ScopeTable.Add;
    var r := AddHandle(scopes, sc, h, hash);
    forall k | 0 <= k < |o| ensures ScopeOk(blocks, r, o, k) {
      assert ScopeOk(blocks, scopes, o, k);
      if k == sc && !o[k].Lost? {
        forall x | x in Buckets.Flat(r[k].table.chains) ensures EntryOk(blocks, o, o[k], x) {
          AddEntries(scopes[sc].table, h, Key(hash), x);
        }
      }
    }
  }

  lemma EntryStays(blocks: seq<BlockRec>, o: seq<Owner>, p: seq<Owner>, w: Owner, t: ScopeTable.Table<Handle>)
    requires TableOk(blocks, o, w, t) && o <= p
    ensures TableOk(blocks, p, w, t)
  {
    forall h | h in Buckets.Flat(t.chains) ensures EntryOk(blocks, p, w, h) {
      assert EntryOk(blocks, o, w, h);
    }
  }

  lemma NewTableOk(blocks: seq<BlockRec>, o: seq<Owner>, w: Owner)
    ensures TableOk(blocks, o, w, ScopeTable.NewTable())
  {
    Buckets.FlatEmpty(Buckets.Empty<Handle>(16));
  }

  /** A new scope has the owner of its parent; next to the global scope it may have any. */
  lemma OpenTidy(blocks: seq<BlockRec>, scopes: seq<ScopeRec>, o: seq<Owner>, parent: nat, w: Owner)
    requires Wf(scopes) && Tidy(blocks, scopes, o) && parent < |scopes|
    requires !w.Global? && (!o[parent].Global? ==> w == o[parent])
    ensures Tidy(blocks, NewScope(scopes, Some(parent)), o + [w])
  {
    hide TableOk;
    assert ScopeOk(blocks, scopes, o, parent);
    var r, p := NewScope(scopes, Some(parent)), o + [w];
    forall k | 0 <= k < |p| ensures ScopeOk(blocks, r, p, k) {
      if k < |o| {
        assert ScopeOk(blocks, scopes, o, k);
        if !o[k].Lost? { EntryStays(blocks, o, p, o[k], scopes[k].table); }
      } else {
        NewTableOk(blocks, p, w);
      }
    }
  }

  lemma GrowTidy(a: seq<BlockRec>, b: seq<BlockRec>, scopes: seq<ScopeRec>, o: seq<Owner>)
    requires Tidy(a, scopes, o) && LocalsGrow(a, b)
    ensures Tidy(b, scopes, o)
  {
    forall k | 0 <= k < |o| ensures ScopeOk(b, scopes, o, k) {
      assert ScopeOk(a, scopes, o, k);
      if !o[k].Lost? {
        forall h | h in Buckets.Flat(scopes[k].table.chains) ensures EntryOk(b, o, o[k], h) {
          assert EntryOk(a, o, o[k], h);
          assert h in Seen(a, o[k]) ==> h in Seen(b, o[k]);
        }
      }
    }
  }

  ghost predicate Clean(st: State, o: seq<Owner>) {
    |o| == |st.scopes| && Wf(st.scopes) && Tidy(st.blocks, st.scopes, o)
  }

  lemma DeclareClean(st: State, o: seq<Owner>, sc: nat, h: Handle, env: Env)
    requires Clean(st, o) && sc < |st.scopes| && (o[sc].Lost? || EntryOk(st.blocks, o, o[sc], h))
    ensures Clean(Declare(st, sc, h, env), o)
  {
    hide Tidy, EntryOk;
    assert ScopeWf(st.scopes, sc);
    DeclareTidy(st.blocks, st.scopes, o, sc, h, env.hash);
  }

  lemma OpenClean(st: State, o: seq<Owner>, parent: nat, w: Owner)
    requires Clean(st, o) && parent < |st.scopes| && !w.Global? && (!o[parent].Global? ==> w == o[parent])
    ensures Clean(Open(st, parent), o + [w])
  {
    hide Tidy;
    OpenTidy(st.blocks, st.scopes, o, parent, w);
  }

  lemma ScopeIs(st: State, o: seq<Owner>, k: nat)
    requires Clean(st, o) && k < |st.scopes|
    ensures |o| == |st.scopes| && ScopeOk(st.blocks, st.scopes, o, k)
  {
  }

  lemma CleanParts(st: State, o: seq<Owner>)
    requires Clean(st, o)
    ensures |o| == |st.scopes| && Wf(st.scopes)
  {
  }

  lemma ConstHandleOk(name: string, n: Node, fp: FloatOps, blocks: seq<BlockRec>, o: seq<Owner>, w: Owner)
    requires ConstHandle(name, n, fp).Ok?
    ensures EntryOk(blocks, o, w, ConstHandle(name, n, fp).value)
  {
  }

  lemma ConstClean(name: string, t: TypeExpr, e: Expr, sc: nat, st: State, env: Env, o: seq<Owner>)
    requires Clean(st, o) && sc < |st.scopes| && RegConst(name, t, e, sc, st, env).Ok?
    ensures var r := RegConst(name, t, e, sc, st, env).value; Clean(r, o) && r.blocks == st.blocks
  {
    hide Tidy, ResolveType, ElabExpr, Declare, IsStatic, ConstHandle, EntryOk;
    if NameFree(st, sc, name, env) {
      var ty := ResolveType(t, sc, st.scopes, st.calls, env.hash);
      if ty.r.Ok? {
        var x := ElabExpr(e, sc, st.scopes, ty.calls, env.hash);
        var st1 := st.(calls := x.calls);
        if x.r.Ok? && IsStatic(x.r.value) {
          var h := ConstHandle(name, x.r.value, env.fp);
          ConstHandleOk(name, x.r.value, env.fp, st.blocks, o, o[sc]);
          DeclareClean(st1, o, sc, h.value, env);
        }
      }
    }
  }

  lemma {:induction false} EnumeratorsClean(consts: seq<EnumConst>, es: nat, st: State, used: seq<int>, next: nat,
                                            env: Env, o: seq<Owner>)
    requires Clean(st, o) && es < |st.scopes|
    ensures var r := EnumValues(consts, es, st, used, next, env); !r.EnumAbort? ==> Clean(r.st, o)
  {
    hide Tidy, ElabExpr, Declare, IsStatic, TypeOf;
    if consts != [] {
      var c := consts[0];
      if c.val.None? {
        var v := FirstFree(used, next);
        var h := IntConst(c.name, v);
        DeclareClean(st, o, es, h, env);
        EnumeratorsClean(consts[1..], es, Declare(st, es, h, env), used + [v], v + 1, env, o);
      } else {
        var x := ElabExpr(c.val.value, es, st.scopes, st.calls, env.hash);
        if x.r.Ok? && EvalInt(x.r.value, env.fp).Val? {
          var h := IntConst(c.name, EvalInt(x.r.value, env.fp).v);
          DeclareClean(st.(calls := x.calls), o, es, h, env);
          EnumeratorsClean(consts[1..], es, Declare(st.(calls := x.calls), es, h, env), used + [h.ival], next, env, o);
        }
      }
    }
  }

  lemma EnumClean(name: string, consts: seq<EnumConst>, sc: nat, st: State, env: Env, o: seq<Owner>)
    returns (p: seq<Owner>)
    requires Clean(st, o) && sc < |st.scopes| && RegEnum(name, consts, sc, st, env).Ok?
    ensures var r := RegEnum(name, consts, sc, st, env).value; Clean(r, p) && o <= p && r.blocks == st.blocks
  {
    hide Tidy, Declare, Open, EnumValues;
    p := o;
    if NameFree(st, sc, name, env) {
      var w := if o[sc].Global? then Free else o[sc];
      p := o + [w];
      OpenClean(st, o, sc, w);
      var es, st1 := |st.scopes|, Open(st, sc);
      EnumeratorsClean(consts, es, st1, [], 0, env, p);
      var r := EnumValues(consts, es, st1, [], 0, env);
      if r.EnumOk? {
        var st2 := r.st.(enums := r.st.enums + 1);
        DeclareClean(st2, p, sc, Handle.NamedType(name, Enum(r.st.enums), es), env);
      }
    }
  }

  // ----- functions -----

  ghost predicate OnlyArgs(st: State, fs: nat, args: seq<Handle>)
    requires fs < |st.scopes|
  {
    forall h :: h in Buckets.Flat(st.scopes[fs].table.chains) ==> h in args
  }

  lemma SameOnlyArgs(st: State, r: State, fs: nat, args: seq<Handle>)
    requires fs < |st.scopes| == |r.scopes| && OnlyArgs(st, fs, args) && r.scopes[fs] == st.scopes[fs]
    ensures OnlyArgs(r, fs, args)
  {
  }

  predicate SamePlace(st: State, r: State, k: nat) {
    && k < |st.scopes| == |r.scopes|
    && r.scopes[k].parent == st.scopes[k].parent
    && r.scopes[k].globalScope == st.scopes[k].globalScope
  }

  lemma OnlyArgsMore(st: State, fs: nat, args: seq<Handle>, h: Handle, env: Env)
    requires Wf(st.scopes) && fs < |st.scopes| && OnlyArgs(st, fs, args)
    ensures OnlyArgs(Declare(st, fs, h, env), fs, args + [h]) && SamePlace(st, Declare(st, fs, h, env), fs)
  {
    hide ScopeTable.Add;
    assert ScopeWf(st.scopes, fs);
    forall x | x in Buckets.Flat(Declare(st, fs, h, env).scopes[fs].table.chains) ensures x in args + [h] {
      AddEntries(st.scopes[fs].table, h, Key(env.hash), x);
    }
  }

  /** The scope of a function that is being declared holds the arguments so far. */
  lemma {:induction false} ParamsClean(params: seq<Param>, tys: seq<Ty>, i: nat, fs: nat, sc: nat, st: State, env: Env,
                                       o: seq<Owner>, args: seq<Handle>)
    requires Clean(st, o) && sc < |st.scopes| && fs < |st.scopes| && |tys| == |params| && i <= |params| && o[fs].Lost?
    requires OnlyArgs(st, fs, args) && forall h :: h in args ==> h.LocalVar?
    ensures var r := DeclareParams(params, tys, i, fs, sc, st, env);
      && (!r.ParamsAbort? ==> Clean(r.st, o) && SamePlace(st, r.st, fs))
      && (r.ParamsOk? ==> OnlyArgs(r.st, fs, args + r.args) && forall h :: h in r.args ==> h.LocalVar?)
    decreases |params| - i
  {
    hide Tidy, Declare, ElabExpr, OnlyArgs;
    if i < |params| {
      var h := LocalVar(params[i].name, tys[i], 0, i);
      var st1 := Declare(st, fs, h, env);
      DeclareClean(st, o, fs, h, env);
      OnlyArgsMore(st, fs, args, h, env);
      var x := if params[i].init.None? then Out(Null, st1.calls)
               else ElabExpr(params[i].init.value, sc, st1.scopes, st1.calls, env.hash);
      var st2 := st1.(calls := x.calls);
      SameOnlyArgs(st1, st2, fs, args + [h]);
      ParamsClean(params, tys, i + 1, fs, sc, st2, env, o, args + [h]);
      var r := DeclareParams(params, tys, i + 1, fs, sc, st2, env);
      if r.ParamsOk? { assert args + [h] + r.args == args + ([h] + r.args); }
    } else {
      assert args + [] == args;
    }
  }

  /** When the function gets its block, its scope gets an owner. */
  lemma BlockOpened(st: State, o: seq<Owner>, fs: nat, rec: BlockRec)
    requires Clean(st, o) && |o| == fs + 1 && o[fs].Lost? && st.scopes[fs].parent.None?
            && st.scopes[fs].globalScope.Some?
    requires OnlyArgs(st, fs, rec.args) && forall h :: h in rec.args ==> h.LocalVar?
    ensures Clean(st.(blocks := st.blocks + [rec]), o[fs := Of(|st.blocks|)])
  {
    var blocks, p := st.blocks + [rec], o[fs := Of(|st.blocks|)];
    forall k | 0 <= k < |p| ensures ScopeOk(blocks, st.scopes, p, k) {
      assert ScopeOk(st.blocks, st.scopes, o, k) && ScopeWf(st.scopes, k);
      if k == fs {
        forall h | h in Buckets.Flat(st.scopes[k].table.chains) ensures EntryOk(blocks, p, p[k], h) {}
      } else if !o[k].Lost? {
        forall h | h in Buckets.Flat(st.scopes[k].table.chains) ensures EntryOk(blocks, p, p[k], h) {
          assert EntryOk(st.blocks, o, o[k], h);
        }
      }
    }
  }

  lemma AppendedGrows(a: seq<BlockRec>, rec: BlockRec)
    ensures LocalsGrow(a, a + [rec])
  {
  }

  lemma FuncClean(name: string, t: TypeExpr, params: seq<Param>, sc: nat, st: State, env: Env, o: seq<Owner>)
    returns (p: seq<Owner>)
    requires Clean(st, o) && sc < |st.scopes| && st.blocks != [] && !RegFunc(name, t, params, sc, st, env).HeaderAbort?
    ensures var r := RegFunc(name, t, params, sc, st, env);
      && o <= p && Clean(r.st, p) && LocalsGrow(st.blocks, r.st.blocks)
      && (r.NoFunction? ==> r.st.blocks == st.blocks)
      && (r.Header? ==> p[r.scope] == Of(r.block))
  {
    hide Tidy, Declare, ResolveType, ParamTypes, DeclareParams, LocalsGrow;
    GrowRefl(st.blocks);
    p := o;
    if NameFree(st, sc, name, env) {
      var fs, g := |st.scopes|, GlobalOf(st, sc);
      assert ScopeWf(st.scopes, sc);
      ScopeIs(st, o, g);
      p := o + [Lost];
      OpenClean(st, o, g, Lost);
      var st1 := Open(st, g);
      var out := ResolveType(t, sc, st1.scopes, st1.calls, env.hash);
      if out.r.Ok? {
        var tys := ParamTypes(params, fs, sc, st1.(calls := out.calls), env);
        if tys.r.Ok? {
          var st2 := st1.(calls := tys.calls);
          assert OnlyArgs(st2, fs, []) by { Buckets.FlatEmpty(Buckets.Empty<Handle>(16)); }
          ParamsClean(params, tys.r.value, 0, fs, sc, st2, env, p, []);
          var r := DeclareParams(params, tys.r.value, 0, fs, sc, st2, env);
          if r.ParamsOk? {
            p := HeaderClean(r.st, p, fs, sc,
                             Function(name, Func(out.r.value, tys.r.value), 0, |r.st.blocks| - 1), r.args, r.inits,
                             env);
          }
        }
      }
    }
  }

  lemma HeaderClean(st: State, o: seq<Owner>, fs: nat, sc: nat, h: Handle, args: seq<Handle>, inits: seq<Option<Node>>,
                    env: Env)
    returns (p: seq<Owner>)
    requires Clean(st, o) && |o| == fs + 1 && sc < fs && o[fs].Lost? && h.Function?
    requires st.scopes[fs].parent.None? && st.scopes[fs].globalScope.Some?
    requires OnlyArgs(st, fs, [] + args) && forall h :: h in args ==> h.LocalVar?
    ensures var r := Declare(st, sc, h, env);
      && Clean(r.(blocks := r.blocks + [BlockRec([], Some(h), args, inits)]), p)
      && p == o[fs := Of(|st.blocks|)] && LocalsGrow(st.blocks, r.blocks + [BlockRec([], Some(h), args, inits)])
  {
    hide Tidy, OnlyArgs, LocalsGrow;
    DeclareClean(st, o, sc, h, env);
    var r, rec := Declare(st, sc, h, env), BlockRec([], Some(h), args, inits);
    assert [] + args == args;
    SameOnlyArgs(st, r, fs, args);
    BlockOpened(r, o, fs, rec);
    AppendedGrows(r.blocks, rec);
    p := o[fs := Of(|st.blocks|)];
  }

  // ----- the code of a block and of the functions declared in it -----

  /** The number of functions declared in a statement. */
  function Funs(s: F.Stmt): nat {
    match s
    case Block(ss) => FunsAll(ss)
    case If(_, t, e) => Funs(t) + Funs(e)
    case While(_, body) => Funs(body)
    case DoWhile(body, _) => Funs(body)
    case For(i, _, body, n) => Funs(i) + Funs(body) + Funs(n)
    case FuncDecl(body) => 1 + Funs(body)
    case _ => 0
  }

  function FunsAll(ss: seq<F.Stmt>): nat {
    if ss == [] then 0 else Funs(ss[0]) + FunsAll(ss[1..])
  }

  /** The nodes of a statement in block `b` name locals of `b`; its functions are blocks `k`, `k + 1`, ... and
      their nodes name their own. */
  predicate CodeOwned(s: F.Stmt, b: nat, k: nat, blocks: seq<BlockRec>) {
    match s
    case Do(n) => NodeOwned(n, Locals(blocks, b))
    case Block(ss) => AllOwned(ss, b, k, blocks)
    case Ret(v) => v.Some? ==> NodeOwned(v.value, Locals(blocks, b))
    case If(c, t, e) =>
      NodeOwned(c, Locals(blocks, b)) && CodeOwned(t, b, k, blocks) && CodeOwned(e, b, k + Funs(t), blocks)
    case While(c, body) => NodeOwned(c, Locals(blocks, b)) && CodeOwned(body, b, k, blocks)
    case DoWhile(body, c) => NodeOwned(c, Locals(blocks, b)) && CodeOwned(body, b, k, blocks)
    case For(i, c, body, n) =>
      && NodeOwned(c, Locals(blocks, b)) && CodeOwned(i, b, k, blocks) && CodeOwned(body, b, k + Funs(i), blocks)
      && CodeOwned(n, b, k + Funs(i) + Funs(body), blocks)
    case FuncDecl(body) => CodeOwned(body, k, k + 1, blocks)
    case _ => true
  }

  predicate AllOwned(ss: seq<F.Stmt>, b: nat, k: nat, blocks: seq<BlockRec>) {
    ss == [] || (CodeOwned(ss[0], b, k, blocks) && AllOwned(ss[1..], b, k + Funs(ss[0]), blocks))
  }

  ghost predicate Includes(vs: seq<Handle>, ws: seq<Handle>) { forall h :: h in vs ==> h in ws }

  lemma {:induction false} NodeMore(n: Node, vs: seq<Handle>, ws: seq<Handle>)
    requires NodeOwned(n, vs) && Includes(vs, ws)
    ensures NodeOwned(n, ws)
  {
    hide Includes;
    match n
    case UniOp(_, _, a) => NodeMore(a, vs, ws);
    case BinOp(_, _, a, b) => NodeMore(a, vs, ws); NodeMore(b, vs, ws);
    case TriOp(_, a, b, c) => NodeMore(a, vs, ws); NodeMore(b, vs, ws); NodeMore(c, vs, ws);
    case Load(_, h) => HandleMore(h, vs, ws);
    case FuncCall(args, _) => NodesMore(args, vs, ws);
    case Store(h, v) => HandleMore(h, vs, ws); NodeMore(v, vs, ws);
    case InplaceUniOp(_, h) => HandleMore(h, vs, ws);
    case InplaceBinOp(_, h, v) => HandleMore(h, vs, ws); NodeMore(v, vs, ws);
    case NullNode =>
  }

  lemma {:induction false} NodesMore(ns: seq<Node>, vs: seq<Handle>, ws: seq<Handle>)
    requires NodesOwned(ns, vs) && Includes(vs, ws)
    ensures NodesOwned(ns, ws)
  {
    if ns != [] { NodeMore(ns[0], vs, ws); NodesMore(ns[1..], vs, ws); }
  }

  lemma {:induction false} HandleMore(h: Handle, vs: seq<Handle>, ws: seq<Handle>)
    requires HandleOwned(h, vs) && Includes(vs, ws)
    ensures HandleOwned(h, ws)
  {
    if h.ArrayRef? { NodeMore(h.base, vs, ws); NodeMore(h.offset, vs, ws); }
  }

  /** Code stays owned when blocks get more variables. */
  lemma {:induction false} CodeMore(s: F.Stmt, b: nat, k: nat, a: seq<BlockRec>, c: seq<BlockRec>)
    requires CodeOwned(s, b, k, a) && LocalsGrow(a, c) && b < |a| && k + Funs(s) <= |a|
    ensures CodeOwned(s, b, k, c)
    decreases s
  {
    hide NodeOwned, Locals;
    assert Includes(Locals(a, b), Locals(c, b));
    hide LocalsGrow;
    match s
    case Do(n) => NodeMore(n, Locals(a, b), Locals(c, b));
    case Block(ss) => AllMore(ss, b, k, a, c);
    case Ret(v) => if v.Some? { NodeMore(v.value, Locals(a, b), Locals(c, b)); }
    case If(n, t, e) =>
      NodeMore(n, Locals(a, b), Locals(c, b));
      CodeMore(t, b, k, a, c);
      CodeMore(e, b, k + Funs(t), a, c);
    case While(n, body) => NodeMore(n, Locals(a, b), Locals(c, b)); CodeMore(body, b, k, a, c);
    case DoWhile(body, n) => NodeMore(n, Locals(a, b), Locals(c, b)); CodeMore(body, b, k, a, c);
    case For(i, n, body, m) =>
      NodeMore(n, Locals(a, b), Locals(c, b));
      CodeMore(i, b, k, a, c);
      CodeMore(body, b, k + Funs(i), a, c);
      CodeMore(m, b, k + Funs(i) + Funs(body), a, c);
    case FuncDecl(body) => CodeMore(body, k, k + 1, a, c);
    case _ =>
  }

  lemma {:induction false} AllMore(ss: seq<F.Stmt>, b: nat, k: nat, a: seq<BlockRec>, c: seq<BlockRec>)
    requires AllOwned(ss, b, k, a) && LocalsGrow(a, c) && b < |a| && k + FunsAll(ss) <= |a|
    ensures AllOwned(ss, b, k, c)
    decreases ss
  {
    hide LocalsGrow, CodeOwned;
    if ss != [] { CodeMore(ss[0], b, k, a, c); AllMore(ss[1..], b, k + Funs(ss[0]), a, c); }
  }

  // ----- statements -----

  /** Statements of block `b` are elaborated in a scope of that block or in a global scope. */
  predicate Home(o: seq<Owner>, sc: nat, b: nat) { sc < |o| && (o[sc] == Of(b) || o[sc].Global?) }

  /** What elaborating a statement for block `b` leaves behind. */
  ghost predicate Kept(code: F.Stmt, st: State, r: State, b: nat, o: seq<Owner>, p: seq<Owner>) {
    && o <= p && Clean(r, p) && LocalsGrow(st.blocks, r.blocks)
    && |r.blocks| == |st.blocks| + Funs(code)
    && CodeOwned(code, b, |st.blocks|, r.blocks)
  }

  lemma ExprHome(e: Expr, sc: nat, b: nat, st: State, o: seq<Owner>, calls: seq<CallStub>, hash: string -> nat)
    requires Clean(st, o) && sc < |st.scopes| && Home(o, sc, b)
    ensures var x := ElabExpr(e, sc, st.scopes, calls, hash); x.r.Ok? ==> NodeOwned(x.r.value, Locals(st.blocks, b))
  {
    hide Wf, Tidy, ElabExpr, NodeOwned;
    ExprOwned(e, sc, st.blocks, st.scopes, o, calls, hash);
    var x := ElabExpr(e, sc, st.scopes, calls, hash);
    if x.r.Ok? { NodeMore(x.r.value, Seen(st.blocks, o[sc]), Locals(st.blocks, b)); }
  }

  lemma PrimaryHome(e: Expr, sc: nat, b: nat, st: State, o: seq<Owner>, calls: seq<CallStub>, hash: string -> nat)
    requires Clean(st, o) && sc < |st.scopes| && Home(o, sc, b)
    ensures var x := ElabPrimary(e, sc, st.scopes, calls, hash);
            x.r.Ok? ==> HandleOwned(x.r.value, Locals(st.blocks, b))
  {
    hide Wf, Tidy, ElabPrimary, HandleOwned;
    PrimaryOwned(e, sc, st.blocks, st.scopes, o, calls, hash);
    var x := ElabPrimary(e, sc, st.scopes, calls, hash);
    if x.r.Ok? { HandleMore(x.r.value, Seen(st.blocks, o[sc]), Locals(st.blocks, b)); }
  }

  lemma GrowRefl(a: seq<BlockRec>)
    ensures LocalsGrow(a, a)
  {
  }

  lemma GrowTrans(a: seq<BlockRec>, b: seq<BlockRec>, c: seq<BlockRec>)
    requires LocalsGrow(a, b) && LocalsGrow(b, c)
    ensures LocalsGrow(a, c)
  {
  }

  /** A variable goes to the block's list and to the scope. */
  lemma VarClean(name: string, ty: Ty, sc: nat, b: nat, st: State, env: Env, o: seq<Owner>)
    requires Ready(st, sc, b) && Clean(st, o) && Home(o, sc, b)
    ensures var r := DeclareVar(name, ty, sc, b, st, env);
      && Clean(r.0, o) && LocalsGrow(st.blocks, r.0.blocks) && |r.0.blocks| == |st.blocks|
      && HandleOwned(r.1, Locals(r.0.blocks, b))
  {
    hide Declare;
    assert ScopeOk(st.blocks, st.scopes, o, sc) && ScopeWf(st.scopes, sc);
    if st.scopes[sc].globalScope.None? {
      var h := GlobalVar(name, ty, 0, |st.globals|);
      DeclareClean(st.(globals := st.globals + [h]), o, sc, h, env);
    } else {
      var rec := st.blocks[b];
      var h := LocalVar(name, ty, 0, |rec.vars|);
      var blocks := st.blocks[b := rec.(vars := rec.vars + [h])];
      assert h in Locals(blocks, b);
      forall k, x | 0 <= k < |st.blocks| && x in Locals(st.blocks, k) ensures x in Locals(blocks, k) {}
      GrowTidy(st.blocks, blocks, st.scopes, o);
      DeclareClean(st.(blocks := blocks), o, sc, h, env);
    }
  }

  lemma EffectsOwned(h: Handle, vs: seq<Handle>)
    requires HandleOwned(h, vs)
    ensures forall n :: NodeOwned(n, vs) ==> NodeOwned(Store(h, n), vs)
    ensures forall n, op :: NodeOwned(n, vs) ==> NodeOwned(InplaceBinOp(op, h, n), vs)
    ensures forall inc :: NodeOwned(InplaceUniOp(inc, h), vs)
  {
    hide HandleOwned;
  }

  lemma NullOwned(vs: seq<Handle>)
    ensures NodeOwned(NullNode, vs)
  {
  }

  lemma TargetOwned(lhs: Expr, sc: nat, b: nat, st: State, env: Env, calls: seq<CallStub>)
    requires Wf(st.scopes) && sc < |st.scopes|
    ensures var p := ElabPrimary(lhs, sc, st.scopes, calls, env.hash).r;
      var vs := Locals(st.blocks, b);
      p.Ok? && HandleOwned(p.value, vs) ==>
        && (forall n :: NodeOwned(n, vs) ==> NodeOwned(Store(p.value, n), vs))
        && (forall n, op :: NodeOwned(n, vs) ==> NodeOwned(InplaceBinOp(op, p.value, n), vs))
        && (forall inc :: NodeOwned(InplaceUniOp(inc, p.value), vs))
  {
    hide ElabPrimary, NodeOwned, HandleOwned;
    var p := ElabPrimary(lhs, sc, st.scopes, calls, env.hash).r;
    if p.Ok? && HandleOwned(p.value, Locals(st.blocks, b)) { EffectsOwned(p.value, Locals(st.blocks, b)); }
  }

  lemma VarKept(s: Stmt, sc: nat, b: nat, st: State, env: Env, o: seq<Owner>)
    requires s.VarDecl? && Ready(st, sc, b) && Clean(st, o) && Home(o, sc, b) && ElabStmt(s, sc, b, st, env).Elab?
    ensures var r := ElabStmt(s, sc, b, st, env); Kept(r.code, st, r.st, b, o, o)
  {
    hide Tidy, ResolveType, ElabExpr, DeclareVar, HandleOwned, NodeOwned, Locals, LocalsGrow;
    GrowRefl(st.blocks);
    if NameFree(st, sc, s.name, env) {
      var ty := ResolveType(s.ty, sc, st.scopes, st.calls, env.hash);
      if ty.r.Ok? {
        var st1 := st.(calls := ty.calls);
        VarClean(s.name, ty.r.value, sc, b, st1, env, o);
        var d := DeclareVar(s.name, ty.r.value, sc, b, st1, env);
        if s.init.Some? {
          ExprHome(s.init.value, sc, b, d.0, o, d.0.calls, env.hash);
          EffectsOwned(d.1, Locals(d.0.blocks, b));
        }
      }
    }
  }

  /** Statements without statements inside. */
  lemma SimpleKept(s: Stmt, sc: nat, b: nat, st: State, env: Env, o: seq<Owner>) returns (p: seq<Owner>)
    requires !s.Block? && !s.FuncDecl? && !s.If? && !s.While? && !s.DoWhile? && !s.For?
    requires Ready(st, sc, b) && Clean(st, o) && Home(o, sc, b) && ElabStmt(s, sc, b, st, env).Elab?
    ensures var r := ElabStmt(s, sc, b, st, env); Kept(r.code, st, r.st, b, o, p)
  {
    hide Tidy, ElabExpr, ElabPrimary, HandleOwned, NodeOwned, Locals, LocalsGrow, RegConst, RegEnum;
    GrowRefl(st.blocks);
    p := o;
    match s
    case VarDecl(_, _, _) => VarKept(s, sc, b, st, env, o);
    case ConstDecl(name, ty, e) => ConstClean(name, ty, e, sc, st, env, o);
    case EnumDecl(name, consts) => p := EnumClean(name, consts, sc, st, env, o);
    case Incr(lhs) => PrimaryHome(lhs, sc, b, st, o, st.calls, env.hash); TargetOwned(lhs, sc, b, st, env, st.calls);
    case Decr(lhs) => PrimaryHome(lhs, sc, b, st, o, st.calls, env.hash); TargetOwned(lhs, sc, b, st, env, st.calls);
    case Assignment(lhs, rhs) =>
      AssignHome(lhs, rhs, sc, b, st, env, o);
      TargetOwned(lhs, sc, b, st, env, ElabExpr(rhs, sc, st.scopes, st.calls, env.hash).calls);
    case InplaceOp(_, lhs, rhs) =>
      AssignHome(lhs, rhs, sc, b, st, env, o);
      TargetOwned(lhs, sc, b, st, env, ElabExpr(rhs, sc, st.scopes, st.calls, env.hash).calls);
    case ExprStmt(e) => ExprHome(e, sc, b, st, o, st.calls, env.hash); NullOwned(Locals(st.blocks, b));
    case Return(v) => if v.Some? { ExprHome(v.value, sc, b, st, o, st.calls, env.hash); }
    case _ =>
  }

  lemma AssignHome(lhs: Expr, rhs: Expr, sc: nat, b: nat, st: State, env: Env, o: seq<Owner>)
    requires Clean(st, o) && sc < |st.scopes| && Home(o, sc, b)
    ensures var x := ElabExpr(rhs, sc, st.scopes, st.calls, env.hash);
      var p := ElabPrimary(lhs, sc, st.scopes, x.calls, env.hash);
      (x.r.Ok? ==> NodeOwned(x.r.value, Locals(st.blocks, b)))
        && (p.r.Ok? ==> HandleOwned(p.r.value, Locals(st.blocks, b)))
  {
    hide Clean, ElabExpr, ElabPrimary, HandleOwned, NodeOwned;
    CleanParts(st, o);
    ExprHome(rhs, sc, b, st, o, st.calls, env.hash);
    PrimaryHome(lhs, sc, b, st, o, ElabExpr(rhs, sc, st.scopes, st.calls, env.hash).calls, env.hash);
  }

  lemma KeptTwice(c: F.Stmt, d: F.Stmt, st: State, mid: State, r: State, b: nat, o: seq<Owner>, p: seq<Owner>,
                  q: seq<Owner>)
    requires b < |st.blocks| && Kept(c, st, mid, b, o, p) && Kept(d, mid, r, b, p, q)
    ensures o <= q && Clean(r, q) && LocalsGrow(st.blocks, r.blocks) && |r.blocks| == |st.blocks| + Funs(c) + Funs(d)
    ensures CodeOwned(c, b, |st.blocks|, r.blocks) && CodeOwned(d, b, |st.blocks| + Funs(c), r.blocks)
  {
    hide Clean, CodeOwned, LocalsGrow;
    GrowTrans(st.blocks, mid.blocks, r.blocks);
    CodeMore(c, b, |st.blocks|, mid.blocks, r.blocks);
  }

  lemma NodeLater(n: Node, b: nat, a: seq<BlockRec>, c: seq<BlockRec>)
    requires NodeOwned(n, Locals(a, b)) && LocalsGrow(a, c) && b < |a|
    ensures NodeOwned(n, Locals(c, b))
  {
    hide NodeOwned;
    NodeMore(n, Locals(a, b), Locals(c, b));
  }

  lemma {:induction false} StmtOwned(s: Stmt, sc: nat, b: nat, st: State, env: Env, o: seq<Owner>)
    returns (p: seq<Owner>)
    requires Ready(st, sc, b) && Clean(st, o) && Home(o, sc, b) && ElabStmt(s, sc, b, st, env).Elab?
    ensures var r := ElabStmt(s, sc, b, st, env); Kept(r.code, st, r.st, b, o, p)
    decreases s, 1
  {
    hide Clean, Kept;
    match s
    case Block(stmts) => p := BlockOwned(s, sc, b, st, env, o);
    case FuncDecl(_, _, _, _) => p := FuncOwned(s, sc, b, st, env, o);
    case If(_, _, _) => p := IfOwned(s, sc, b, st, env, o);
    case While(_, _) => p := WhileOwned(s, sc, b, st, env, o);
    case DoWhile(_, _) => p := DoOwned(s, sc, b, st, env, o);
    case For(_, _, _, _) => p := ForOwned(s, sc, b, st, env, o);
    case _ => p := SimpleKept(s, sc, b, st, env, o);
  }

  lemma {:induction false} BlockOwned(s: Stmt, sc: nat, b: nat, st: State, env: Env, o: seq<Owner>)
    returns (p: seq<Owner>)
    requires s.Block? && Ready(st, sc, b) && Clean(st, o) && Home(o, sc, b) && ElabStmt(s, sc, b, st, env).Elab?
    ensures var r := ElabStmt(s, sc, b, st, env); Kept(r.code, st, r.st, b, o, p)
    decreases s, 0
  {
    hide Tidy, Wf, LocalsGrow, AllOwned;
    var o1, st1 := o + [Of(b)], Open(st, sc);
    OpenClean(st, o, sc, Of(b));
    p := AllStmtsOwned(s.stmts, |st.scopes|, b, st1, env, o1);
  }

  lemma {:induction false} AllStmtsOwned(stmts: seq<Stmt>, sc: nat, b: nat, st: State, env: Env, o: seq<Owner>)
    returns (p: seq<Owner>)
    requires Ready(st, sc, b) && Clean(st, o) && Home(o, sc, b) && ElabAll(stmts, sc, b, st, env).ElabSeq?
    ensures var r := ElabAll(stmts, sc, b, st, env);
      && o <= p && Clean(r.st, p) && LocalsGrow(st.blocks, r.st.blocks)
      && |r.st.blocks| == |st.blocks| + FunsAll(r.codes) && AllOwned(r.codes, b, |st.blocks|, r.st.blocks)
    decreases stmts, 0
  {
    hide Clean, LocalsGrow, CodeOwned, ElabStmt, Wf;
    if stmts == [] {
      GrowRefl(st.blocks);
      p := o;
    } else {
      var x := ElabStmt(stmts[0], sc, b, st, env);
      var o1 := StmtOwned(stmts[0], sc, b, st, env, o);
      p := AllStmtsOwned(stmts[1..], sc, b, x.st, env, o1);
      var rest := ElabAll(stmts[1..], sc, b, x.st, env);
      GrowTrans(st.blocks, x.st.blocks, rest.st.blocks);
      CodeMore(x.code, b, |st.blocks|, x.st.blocks, rest.st.blocks);
      assert ([x.code] + rest.codes)[1..] == rest.codes;
    }
  }

  lemma {:induction false} FuncOwned(s: Stmt, sc: nat, b: nat, st: State, env: Env, o: seq<Owner>)
    returns (p: seq<Owner>)
    requires s.FuncDecl? && Ready(st, sc, b) && Clean(st, o) && Home(o, sc, b) && ElabStmt(s, sc, b, st, env).Elab?
    ensures var r := ElabStmt(s, sc, b, st, env); Kept(r.code, st, r.st, b, o, p)
    decreases s, 0
  {
    hide Clean, LocalsGrow, RegFunc;
    p := FuncClean(s.name, s.ty, s.params, sc, st, env, o);
    var h := RegFunc(s.name, s.ty, s.params, sc, st, env);
    if h.Header? {
      CleanParts(h.st, p);
      var r := ElabStmt(s.body, h.scope, h.block, h.st, env);
      p := StmtOwned(s.body, h.scope, h.block, h.st, env, p);
      GrowTrans(st.blocks, h.st.blocks, r.st.blocks);
    }
  }

  lemma {:induction false} IfOwned(s: Stmt, sc: nat, b: nat, st: State, env: Env, o: seq<Owner>) returns (p: seq<Owner>)
    requires s.If? && Ready(st, sc, b) && Clean(st, o) && Home(o, sc, b) && ElabStmt(s, sc, b, st, env).Elab?
    ensures var r := ElabStmt(s, sc, b, st, env); Kept(r.code, st, r.st, b, o, p)
    decreases s, 0
  {
    hide Tidy, Wf, LocalsGrow, NodeOwned, ElabExpr, Locals, CodeOwned;
    ExprHome(s.cond, sc, b, st, o, st.calls, env.hash);
    var x := ElabExpr(s.cond, sc, st.scopes, st.calls, env.hash);
    var st1 := st.(calls := x.calls);
    var t := ElabStmt(s.thn, sc, b, st1, env);
    var o1 := StmtOwned(s.thn, sc, b, st1, env, o);
    var e := ElabStmt(s.els.value, sc, b, t.st, env);
    p := StmtOwned(s.els.value, sc, b, t.st, env, o1);
    KeptIf(x.r.value, t.code, e.code, st1, t.st, e.st, b, o, o1, p);
  }

  lemma KeptIf(cond: Node, c: F.Stmt, d: F.Stmt, st: State, mid: State, r: State, b: nat, o: seq<Owner>, p: seq<Owner>,
               q: seq<Owner>)
    requires b < |st.blocks| && Kept(c, st, mid, b, o, p) && Kept(d, mid, r, b, p, q)
    requires NodeOwned(cond, Locals(st.blocks, b))
    ensures Kept(F.If(cond, c, d), st, r, b, o, q)
  {
    KeptTwice(c, d, st, mid, r, b, o, p, q);
    hide Clean, LocalsGrow, NodeOwned, Locals;
    NodeLater(cond, b, st.blocks, r.blocks);
  }

  lemma {:induction false} WhileOwned(s: Stmt, sc: nat, b: nat, st: State, env: Env, o: seq<Owner>)
    returns (p: seq<Owner>)
    requires s.While? && Ready(st, sc, b) && Clean(st, o) && Home(o, sc, b) && ElabStmt(s, sc, b, st, env).Elab?
    ensures var r := ElabStmt(s, sc, b, st, env); Kept(r.code, st, r.st, b, o, p)
    decreases s, 0
  {
    hide Tidy, Wf, LocalsGrow, NodeOwned, ElabExpr;
    ExprHome(s.cond, sc, b, st, o, st.calls, env.hash);
    var x := ElabExpr(s.cond, sc, st.scopes, st.calls, env.hash);
    var st1 := st.(calls := x.calls);
    p := StmtOwned(s.body, sc, b, st1, env, o);
    NodeLater(x.r.value, b, st.blocks, ElabStmt(s.body, sc, b, st1, env).st.blocks);
  }

  lemma {:induction false} DoOwned(s: Stmt, sc: nat, b: nat, st: State, env: Env, o: seq<Owner>) returns (p: seq<Owner>)
    requires s.DoWhile? && Ready(st, sc, b) && Clean(st, o) && Home(o, sc, b) && ElabStmt(s, sc, b, st, env).Elab?
    ensures var r := ElabStmt(s, sc, b, st, env); Kept(r.code, st, r.st, b, o, p)
    decreases s, 0
  {
    hide Tidy, Wf, LocalsGrow, NodeOwned, ElabExpr;
    var r := ElabStmt(s.body, sc, b, st, env);
    p := StmtOwned(s.body, sc, b, st, env, o);
    ExprHome(s.cond, sc, b, r.st, p, r.st.calls, env.hash);
  }

  lemma {:induction false} ForOwned(s: Stmt, sc: nat, b: nat, st: State, env: Env, o: seq<Owner>)
    returns (p: seq<Owner>)
    requires s.For? && Ready(st, sc, b) && Clean(st, o) && Home(o, sc, b) && ElabStmt(s, sc, b, st, env).Elab?
    ensures var r := ElabStmt(s, sc, b, st, env); Kept(r.code, st, r.st, b, o, p)
    decreases s, 0
  {
    hide Tidy, Wf, LocalsGrow, NodeOwned, CodeOwned, ElabExpr, Open, Funs, Locals;
    var fs, st0, o0 := |st.scopes|, Open(st, sc), o + [Of(b)];
    OpenClean(st, o, sc, Of(b));
    var i := ElabStmt(s.first, fs, b, st0, env);
    var o1 := StmtOwned(s.first, fs, b, st0, env, o0);
    var x := ElabExpr(s.cond, fs, i.st.scopes, i.st.calls, env.hash);
    var r := ElabStmt(s.body, fs, b, i.st.(calls := x.calls), env);
    var n := ElabStmt(s.step, fs, b, r.st, env);
    p := RoundOwned(s, fs, b, i.st, env, o1, x.r.value, r.code, r.st, n.code, n.st);
    ForKept(i.code, x.r.value, r.code, n.code, st0, i.st, n.st, b, o0, o1, p);
    assert Kept(F.For(i.code, x.r.value, r.code, n.code), st, n.st, b, o, p);
  }

  lemma ForKept(first: F.Stmt, cond: Node, body: F.Stmt, step: F.Stmt, st: State, mid: State, end: State, b: nat,
                o: seq<Owner>, p: seq<Owner>, q: seq<Owner>)
    requires b < |st.blocks| && Kept(first, st, mid, b, o, p) && p <= q && Clean(end, q)
            && LocalsGrow(mid.blocks, end.blocks)
    requires |end.blocks| == |mid.blocks| + Funs(body) + Funs(step)
    requires NodeOwned(cond, Locals(end.blocks, b)) && CodeOwned(body, b, |mid.blocks|, end.blocks)
    requires CodeOwned(step, b, |mid.blocks| + Funs(body), end.blocks)
    ensures Kept(F.For(first, cond, body, step), st, end, b, o, q)
  {
    hide Clean, LocalsGrow, NodeOwned, Locals, CodeOwned, Funs;
    GrowTrans(st.blocks, mid.blocks, end.blocks);
    CodeMore(first, b, |st.blocks|, mid.blocks, end.blocks);
    ForCode(first, cond, body, step, b, |st.blocks|, end.blocks);
  }

  lemma ForCode(first: F.Stmt, cond: Node, body: F.Stmt, step: F.Stmt, b: nat, k: nat, blocks: seq<BlockRec>)
    requires NodeOwned(cond, Locals(blocks, b)) && CodeOwned(first, b, k, blocks)
    requires CodeOwned(body, b, k + Funs(first), blocks) && CodeOwned(step, b, k + Funs(first) + Funs(body), blocks)
    ensures CodeOwned(F.For(first, cond, body, step), b, k, blocks)
    ensures Funs(F.For(first, cond, body, step)) == Funs(first) + Funs(body) + Funs(step)
  {
    hide NodeOwned, Locals;
  }

  /** The condition, the body and the step of a for statement. */
  lemma {:induction false} RoundOwned(s: Stmt, fs: nat, b: nat, st: State, env: Env, o: seq<Owner>, cond: Node,
                                      body: F.Stmt, mid: State, step: F.Stmt, end: State)
    returns (p: seq<Owner>)
    requires s.For? && Ready(st, fs, b) && Clean(st, o) && Home(o, fs, b)
    requires ElabExpr(s.cond, fs, st.scopes, st.calls, env.hash).r == Ok(cond)
    requires ElabStmt(s.body, fs, b, st.(calls := ElabExpr(s.cond, fs, st.scopes, st.calls, env.hash).calls), env)
          == Elab.Elab(body, mid)
    requires Ready(mid, fs, b) && ElabStmt(s.step, fs, b, mid, env) == Elab.Elab(step, end)
    ensures o <= p && Clean(end, p) && LocalsGrow(st.blocks, end.blocks)
    ensures |end.blocks| == |st.blocks| + Funs(body) + Funs(step)
    ensures NodeOwned(cond, Locals(end.blocks, b)) && CodeOwned(body, b, |st.blocks|, end.blocks)
    ensures CodeOwned(step, b, |st.blocks| + Funs(body), end.blocks)
    decreases s, 0, 0
  {
    hide Tidy, Wf, LocalsGrow, NodeOwned, ElabExpr, ElabStmt, Locals;
    ExprHome(s.cond, fs, b, st, o, st.calls, env.hash);
    var st1 := st.(calls := ElabExpr(s.cond, fs, st.scopes, st.calls, env.hash).calls);
    var o1 := StmtOwned(s.body, fs, b, st1, env, o);
    p := StmtOwned(s.step, fs, b, mid, env, o1);
    KeptTwice(body, step, st1, mid, end, b, o, o1, p);
    NodeLater(cond, b, st.blocks, end.blocks);
  }

  // ----- the emitted nodes -----

  predicate InstrOwned(i: Instr, vs: seq<Handle>) {
    match i
    case BranchTrue(_, c) => NodeOwned(c, vs)
    case BranchFalse(_, c) => NodeOwned(c, vs)
    case Return(v) => v.Some? ==> NodeOwned(v.value, vs)
    case Action(n) => NodeOwned(n, vs)
    case _ => true
  }

  predicate ListOwned(list: seq<Instr>, vs: seq<Handle>) { forall k :: 0 <= k < |list| ==> InstrOwned(list[k], vs) }

  /** Node lists of consecutive blocks. */
  predicate ListsOwned(lists: seq<seq<Instr>>, k: nat, blocks: seq<BlockRec>) {
    forall j :: 0 <= j < |lists| ==> ListOwned(lists[j], Locals(blocks, k + j))
  }

  lemma ListJoin(a: seq<Instr>, b: seq<Instr>, vs: seq<Handle>)
    requires ListOwned(a, vs) && ListOwned(b, vs)
    ensures ListOwned(a + b, vs)
  {
    hide InstrOwned;
  }

  lemma ListsJoin(a: seq<seq<Instr>>, b: seq<seq<Instr>>, k: nat, blocks: seq<BlockRec>)
    requires ListsOwned(a, k, blocks) && ListsOwned(b, k + |a|, blocks)
    ensures ListsOwned(a + b, k, blocks)
  {
    hide ListOwned;
    forall j | 0 <= j < |a + b| ensures ListOwned((a + b)[j], Locals(blocks, k + j)) {
      if j >= |a| { assert (a + b)[j] == b[j - |a|] && k + |a| + (j - |a|) == k + j; }
    }
  }

  ghost predicate EmitOk(c: F.Code, s: F.Stmt, b: nat, k: nat, blocks: seq<BlockRec>) {
    ListOwned(c.nodes, Locals(blocks, b)) && |c.funcs| == Funs(s) && ListsOwned(c.funcs, k, blocks)
  }

  /** What a statement is laid out as names the same locals. */
  lemma {:induction false} EmitOwned(s: F.Stmt, start: Option<nat>, end: Option<nat>, next: nat, b: nat, k: nat,
                                     blocks: seq<BlockRec>)
    requires CodeOwned(s, b, k, blocks)
    ensures EmitOk(F.Emit(s, start, end, next), s, b, k, blocks)
    decreases s, 1
  {
    hide ListOwned, ListsOwned, NodeOwned, Locals;
    SmallLists(k, blocks);
    match s
    case Do(n) => OneInstr(Action(n), Locals(blocks, b));
    case Block(ss) => EmitAllOwned(ss, start, end, next, b, k, blocks);
    case Ret(v) => OneInstr(Instr.Return(v), Locals(blocks, b));
    case If(_, _, _) => EmitIfOwned(s, start, end, next, b, k, blocks);
    case FuncDecl(body) =>
      EmitOwned(body, None, None, next, k, k + 1, blocks);
      var c := F.Emit(body, None, None, next);
      OneList(c.nodes, k, blocks);
      ListsJoin([c.nodes], c.funcs, k, blocks);
      NoInstr(Locals(blocks, b));
    case While(_, _) => EmitLoopOwned(s, next, b, k, blocks);
    case DoWhile(_, _) => EmitLoopOwned(s, next, b, k, blocks);
    case For(i, _, _, _) => EmitForOwned(s, start, end, next, b, k, blocks);
    case _ =>
      NoInstr(Locals(blocks, b));
      if start.Some? { OneInstr(Jump(start.value), Locals(blocks, b)); }
      if end.Some? { OneInstr(Jump(end.value), Locals(blocks, b)); }
  }

  lemma OneInstr(i: Instr, vs: seq<Handle>)
    requires InstrOwned(i, vs)
    ensures ListOwned([i], vs)
  {
  }

  lemma NoInstr(vs: seq<Handle>)
    ensures ListOwned([], vs)
  {
  }

  lemma OneList(list: seq<Instr>, k: nat, blocks: seq<BlockRec>)
    requires ListOwned(list, Locals(blocks, k))
    ensures ListsOwned([list], k, blocks)
  {
    hide ListOwned;
  }

  lemma SmallLists(k: nat, blocks: seq<BlockRec>)
    ensures ListsOwned([], k, blocks)
  {
  }

  lemma {:induction false} EmitIfOwned(s: F.Stmt, start: Option<nat>, end: Option<nat>, next: nat, b: nat, k: nat,
                                       blocks: seq<BlockRec>)
    requires s.If? && CodeOwned(s, b, k, blocks)
    ensures EmitOk(F.Emit(s, start, end, next), s, b, k, blocks)
    decreases s, 0
  {
    hide ListOwned, ListsOwned, NodeOwned, Locals;
    var vs := Locals(blocks, b);
    EmitOwned(s.thn, start, end, next + 2, b, k, blocks);
    var t := F.Emit(s.thn, start, end, next + 2);
    EmitOwned(s.els, start, end, t.next, b, k + Funs(s.thn), blocks);
    var e := F.Emit(s.els, start, end, t.next);
    IfInstrs(s.cond, next, vs);
    ListJoin([BranchFalse(next, s.cond)], t.nodes, vs);
    ListJoin([BranchFalse(next, s.cond)] + t.nodes, [Jump(next + 1), Label(next)], vs);
    ListJoin([BranchFalse(next, s.cond)] + t.nodes + [Jump(next + 1), Label(next)], e.nodes, vs);
    ListJoin([BranchFalse(next, s.cond)] + t.nodes + [Jump(next + 1), Label(next)] + e.nodes, [Label(next + 1)], vs);
    ListsJoin(t.funcs, e.funcs, k, blocks);
  }

  lemma {:induction false} EmitForOwned(s: F.Stmt, start: Option<nat>, end: Option<nat>, next: nat, b: nat, k: nat,
                                        blocks: seq<BlockRec>)
    requires s.For? && CodeOwned(s, b, k, blocks)
    ensures EmitOk(F.Emit(s, start, end, next), s, b, k, blocks)
    decreases s, 1, 0
  {
    hide ListOwned, ListsOwned, NodeOwned, Locals;
    EmitOwned(s.init, None, None, next, b, k, blocks);
    var i := F.Emit(s.init, None, None, next);
    EmitLoopOwned(s, i.next, b, k, blocks);
    var l := F.EmitLoop(s, i.next);
    ListJoin(i.nodes, l.nodes, Locals(blocks, b));
    ListsJoin(i.funcs, l.funcs, k, blocks);
  }

  /** The functions of the round of a loop; those of a for statement's first part come before. */
  function RoundFuns(s: F.Stmt): nat { if s.For? then Funs(s.body) + Funs(s.next) else Funs(s) }

  lemma {:induction false} EmitLoopOwned(s: F.Stmt, next: nat, b: nat, k: nat, blocks: seq<BlockRec>)
    requires F.IsLoop(s) && CodeOwned(s, b, k, blocks)
    ensures var c := F.EmitLoop(s, next);
      && ListOwned(c.nodes, Locals(blocks, b)) && |c.funcs| == RoundFuns(s)
      && ListsOwned(c.funcs, if s.For? then k + Funs(s.init) else k, blocks)
    decreases s, 0
  {
    hide ListOwned, ListsOwned, NodeOwned, Locals;
    var vs := Locals(blocks, b);
    var k1 := if s.For? then k + Funs(s.init) else k;
    EmitOwned(s.body, Some(next), Some(next + 1), next + 2, b, k1, blocks);
    var c := F.Emit(s.body, Some(next), Some(next + 1), next + 2);
    LoopInstrs(s.cond, next, vs);
    if s.While? {
      ListJoin([Label(next), BranchFalse(next + 1, s.cond)], c.nodes, vs);
      ListJoin([Label(next), BranchFalse(next + 1, s.cond)] + c.nodes, [Jump(next), Label(next + 1)], vs);
    } else if s.DoWhile? {
      ListJoin([Label(next)], c.nodes, vs);
      ListJoin([Label(next)] + c.nodes, [BranchTrue(next, s.cond), Label(next + 1)], vs);
    } else {
      EmitOwned(s.next, Some(next), Some(next + 1), c.next, b, k1 + Funs(s.body), blocks);
      var n := F.Emit(s.next, Some(next), Some(next + 1), c.next);
      ListJoin(c.nodes, n.nodes, vs);
      ListJoin([Label(next), BranchFalse(next + 1, s.cond)], c.nodes + n.nodes, vs);
      ListJoin([Label(next), BranchFalse(next + 1, s.cond)] + (c.nodes + n.nodes), [Jump(next), Label(next + 1)], vs);
      ListsJoin(c.funcs, n.funcs, k1, blocks);
    }
  }

  lemma IfInstrs(cond: Node, next: nat, vs: seq<Handle>)
    requires NodeOwned(cond, vs)
    ensures ListOwned([BranchFalse(next, cond)], vs)
    ensures ListOwned([Jump(next + 1), Label(next)], vs) && ListOwned([Label(next + 1)], vs)
  {
    hide NodeOwned;
  }

  lemma LoopInstrs(cond: Node, next: nat, vs: seq<Handle>)
    requires NodeOwned(cond, vs)
    ensures ListOwned([Label(next), BranchFalse(next + 1, cond)], vs) && ListOwned([Label(next)], vs)
    ensures ListOwned([BranchTrue(next, cond), Label(next + 1)], vs) && ListOwned([Jump(next), Label(next + 1)], vs)
  {
    hide NodeOwned;
  }

  lemma {:induction false} EmitAllOwned(ss: seq<F.Stmt>, start: Option<nat>, end: Option<nat>, next: nat, b: nat,
                                        k: nat, blocks: seq<BlockRec>)
    requires AllOwned(ss, b, k, blocks)
    ensures var c := F.EmitAll(ss, start, end, next);
      ListOwned(c.nodes, Locals(blocks, b)) && |c.funcs| == FunsAll(ss) && ListsOwned(c.funcs, k, blocks)
    decreases ss, 0
  {
    hide ListOwned, ListsOwned, CodeOwned, Locals;
    if ss == [] {
      SmallLists(k, blocks);
      NoInstr(Locals(blocks, b));
    } else {
      EmitOwned(ss[0], start, end, next, b, k, blocks);
      var f := F.Emit(ss[0], start, end, next);
      EmitAllOwned(ss[1..], start, end, f.next, b, k + Funs(ss[0]), blocks);
      var r := F.EmitAll(ss[1..], start, end, f.next);
      ListJoin(f.nodes, r.nodes, Locals(blocks, b));
      ListsJoin(f.funcs, r.funcs, k, blocks);
    }
  }

  // ----- a whole module -----

  /** The scopes in front of a module's own elaboration: global ones, without locals, that lead to each other only. */
  ghost predicate Imported(scopes: seq<ScopeRec>) {
    forall k :: 0 <= k < |scopes| ==>
      && scopes[k].parent.None? && scopes[k].globalScope.None? && |scopes[k].table.chains| > 0
      && forall h :: h in Buckets.Flat(scopes[k].table.chains) ==>
           !h.LocalVar? && !h.ArrayRef? && (h.ScopeHandle? || h.NamedType? ==> h.scope < |scopes|)
  }

  lemma ImportedClean(st: State) returns (o: seq<Owner>)
    requires Imported(st.scopes)
    ensures Clean(st, o) && forall k :: 0 <= k < |o| ==> o[k].Global?
  {
    o := seq(|st.scopes|, i => Global);
    forall k | 0 <= k < |o| ensures ScopeWf(st.scopes, k) && ScopeOk(st.blocks, st.scopes, o, k) {
      forall h | h in Buckets.Flat(st.scopes[k].table.chains) ensures EntryOk(st.blocks, o, o[k], h) {}
    }
  }

  /** Whatever a module declares, and however its functions and scopes nest: the table of node lists has one
      list for every block, a list names no locals but its own block's, and each of those is the variable or the
      argument that its index says. A function body never names a local of a block around it. */
  lemma LocalsStayInBlock(stmts: seq<Stmt>, toplevel: nat, st: State, env: Env)
    requires Imported(st.scopes) && Wf(st.scopes) && toplevel < |st.scopes|
    requires st.blocks == [TopBlock()] && st.globals == []
    requires ElabAll(stmts, toplevel, 0, st, env).ElabSeq?
    ensures var r := ElabAll(stmts, toplevel, 0, st, env);
      var lists := Labels.Blocks(F.Emit(F.Block(r.codes), None, None, 0));
      && |lists| == |r.st.blocks|
      && (forall b :: 0 <= b < |lists| ==> ListOwned(lists[b], Locals(r.st.blocks, b)))
      && (forall b, h :: 0 <= b < |lists| && h in Locals(r.st.blocks, b) ==> IsSlot(r.st.blocks[b], h))
  {
    hide Clean, AllOwned, ListOwned, ElabAll, Imported, Wf, LocalsGrow;
    var o := ImportedClean(st);
    CleanParts(st, o);
    var p := AllStmtsOwned(stmts, toplevel, 0, st, env, o);
    var r := ElabAll(stmts, toplevel, 0, st, env);
    EmitAllOwned(r.codes, None, None, 0, 0, 1, r.st.blocks);
    var c := F.EmitAll(r.codes, None, None, 0);
    assert ListsOwned([c.nodes], 0, r.st.blocks);
    ListsJoin([c.nodes], c.funcs, 0, r.st.blocks);
    Slots.ElabAllKeepsSlots(stmts, toplevel, 0, st, env);
    forall b, h | 0 <= b < |r.st.blocks| && h in Locals(r.st.blocks, b) ensures IsSlot(r.st.blocks[b], h) {
      LocalIsSlot(r.st, b, h);
    }
  }

  /** The local's index is its place among the variables or among the arguments. */
  predicate IsSlot(rec: BlockRec, h: Handle) {
    h.LocalVar? && ((h.index < |rec.vars| && rec.vars[h.index] == h)
      || (h.index < |rec.args| && rec.args[h.index] == h))
  }

  lemma LocalIsSlot(st: State, b: nat, h: Handle)
    requires Slots.SlotsOk(st) && b < |st.blocks| && h in Locals(st.blocks, b)
    ensures IsSlot(st.blocks[b], h)
  {
    var rec := st.blocks[b];
    assert Slots.Numbered(rec.vars) && Slots.Numbered(rec.args);
    var i :| 0 <= i < |rec.vars + rec.args| && (rec.vars + rec.args)[i] == h;
    if i >= |rec.vars| { assert rec.args[i - |rec.vars|] == h; }
  }
}
