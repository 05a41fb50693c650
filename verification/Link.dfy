/** From an elaborated module to the scope an importer sees. */
module Link {
  import opened Common
  import opened Ir
  import opened ScopeGraph
  import opened Elaborate
  import opened Slots
  import ScopeTable

  /** An exported function or variable. */
  datatype Export = Export(name: string, ty: Ty)

  class ModuleBuilder {
    const name: string
    var modules: seq<VsmModule>
    var funcs: seq<Export>
    var vars: seq<Export>

    constructor (name: string)
      ensures this.name == name && modules == [] && funcs == [] && vars == []
    {
      this.name, modules, funcs, vars := name, [], [], [];
    }

    method AddModule(m: VsmModule) returns (id: nat)
      modifies this`modules
      ensures id == |old(modules)| && modules == old(modules) + [m]
    {
      id := |modules|;
      modules := modules + [m];
    }

    method AddFunction(f: Export) returns (id: nat)
      modifies this`funcs
      ensures id == |old(funcs)| && funcs == old(funcs) + [f]
    {
      id := |funcs|;
      funcs := funcs + [f];
    }

    method AddExportedVar(v: Export) returns (id: nat)
      modifies this`vars
      ensures id == |old(vars)| && vars == old(vars) + [v]
    {
      id := |vars|;
      vars := vars + [v];
    }
  }

  class VsmModule {
    const name: string
    const modules: array<VsmModule>
    const funcs: array<Export>
    const vars: array<Export>

    /** Copy the builder's lists into arrays of their sizes. */
    constructor (b: ModuleBuilder)
      ensures name == b.name && modules[..] == b.modules && funcs[..] == b.funcs && vars[..] == b.vars
      ensures fresh(modules) && fresh(funcs) && fresh(vars)
    {
      name := b.name;
      var ms := new VsmModule[|b.modules|](i requires 0 <= i < |b.modules| reads b => b.modules[i]);
      var fs := new Export[|b.funcs|](i requires 0 <= i < |b.funcs| reads b => b.funcs[i]);
      var vs := new Export[|b.vars|](i requires 0 <= i < |b.vars| reads b => b.vars[i]);
      modules, funcs, vars := ms, fs, vs;
    }
  }

  function ExportOf(h: Handle): Export
    requires h.GlobalVar? || h.Function?
  {
    Export(h.name, h.ty)
  }

  /** The functions and global variables a module exports: function `i` is block `i + 1`. */
  ghost function Functions(st: State): (fs: seq<Export>)
    requires SlotsOk(st) && st.blocks != []
    ensures |fs| == |st.blocks| - 1
    ensures forall i :: 0 <= i < |fs| ==>
              IsFunction(st.blocks[i + 1].handle, i) && fs[i] == ExportOf(st.blocks[i + 1].handle.value)
  {
    seq(|st.blocks| - 1, i requires 0 <= i < |st.blocks| - 1 => ExportOf(st.blocks[i + 1].handle.value))
  }

  ghost function Variables(st: State): (vs: seq<Export>)
    requires SlotsOk(st)
    ensures |vs| == |st.globals| && forall i :: 0 <= i < |vs| ==> vs[i] == ExportOf(st.globals[i])
  {
    seq(|st.globals|, i requires 0 <= i < |st.globals| => ExportOf(st.globals[i]))
  }

  /** Export the imported modules, the global variables and the functions in the order of their lists. */
  method CodeGen(st: State, name: string, imported: seq<VsmModule>) returns (m: VsmModule)
    requires SlotsOk(st) && st.blocks != []
    ensures fresh(m) && m.name == name && m.modules[..] == imported
    ensures m.funcs[..] == Functions(st) && m.vars[..] == Variables(st)
  {
    var b := new ModuleBuilder(name);
    for i := 0 to |imported|
      invariant b.name == name && b.modules == imported[..i] && b.funcs == [] && b.vars == []
    {
      var _ := b.AddModule(imported[i]);
    }
    for i := 0 to |st.globals|
      invariant b.name == name && b.modules == imported[..|imported|] && b.funcs == []
      invariant b.vars == Variables(st)[..i]
    {
      var _ := b.AddExportedVar(Export(st.globals[i].name, st.globals[i].ty));
    }
    for i := 0 to |st.blocks| - 1
      invariant b.name == name && b.modules == imported[..|imported|] && b.vars == Variables(st)[..|st.globals|]
      invariant b.funcs == Functions(st)[..i]
    {
      assert IsFunction(st.blocks[i + 1].handle, i);
      var h := st.blocks[i + 1].handle.value;
      var _ := b.AddFunction(Export(h.name, h.ty));
    }
    m := new VsmModule(b);
  }

  // ----- the importer's side -----

  function SubScopes(ms: seq<VsmModule>, scopeDict: map<VsmModule, nat>): seq<nat>
    requires forall i :: 0 <= i < |ms| ==> ms[i] in scopeDict
  {
    if ms == [] then [] else [scopeDict[ms[0]]] + SubScopes(ms[1..], scopeDict)
  }

  function ScopeHandles(name: string, subs: seq<nat>): (hs: seq<Handle>)
    ensures |hs| == |subs| && forall i :: 0 <= i < |hs| ==> hs[i] == ScopeHandle(name, subs[i])
  {
    seq(|subs|, i requires 0 <= i < |subs| => ScopeHandle(name, subs[i]))
  }

  function FuncHandles(fs: seq<Export>, modIndex: nat): (hs: seq<Handle>)
    ensures |hs| == |fs| && forall i :: 0 <= i < |hs| ==> hs[i] == Function(fs[i].name, fs[i].ty, modIndex, i)
  {
    seq(|fs|, i requires 0 <= i < |fs| => Function(fs[i].name, fs[i].ty, modIndex, i))
  }

  function VarHandles(vs: seq<Export>, modIndex: nat): (hs: seq<Handle>)
    ensures |hs| == |vs| && forall i :: 0 <= i < |hs| ==> hs[i] == GlobalVar(vs[i].name, vs[i].ty, modIndex, i)
  {
    seq(|vs|, i requires 0 <= i < |vs| => GlobalVar(vs[i].name, vs[i].ty, modIndex, i))
  }

  /** The handles of an imported module. The scopes of the modules it imports itself are all added
      under the name given for the module. */
  function Handles(name: string, subs: seq<nat>, fs: seq<Export>, vs: seq<Export>, modIndex: nat): seq<Handle> {
    ScopeHandles(name, subs) + FuncHandles(fs, modIndex) + VarHandles(vs, modIndex)
  }

  /** The scopes when the first `i` handles are in the new one. */
  function Filled(scopes: seq<ScopeRec>, hs: seq<Handle>, i: nat, hash: string -> nat): seq<ScopeRec>
    requires i <= |hs|
  {
    scopes + [ScopeRec(None, None, ScopeTable.AddAll(hs[..i], Key(hash)))]
  }

  lemma FillOneMore(scopes: seq<ScopeRec>, hs: seq<Handle>, i: nat, hash: string -> nat)
    requires i < |hs|
    ensures |scopes| < |Filled(scopes, hs, i, hash)| && |Filled(scopes, hs, i, hash)[|scopes|].table.chains| > 0
    ensures Filled(scopes, hs, i + 1, hash) == AddHandle(Filled(scopes, hs, i, hash), |scopes|, hs[i], hash)
  {
    hide ScopeTable.Add, Key;
    assert hs[..i + 1][..i] == hs[..i];
  }

  lemma FilledWf(scopes: seq<ScopeRec>, hs: seq<Handle>, i: nat, hash: string -> nat)
    requires Wf(scopes) && i <= |hs|
    ensures Wf(Filled(scopes, hs, i, hash))
  {
    hide ScopeTable.AddAll;
    var r := Filled(scopes, hs, i, hash);
    forall k | 0 <= k < |r| ensures ScopeWf(r, k) {
      if k < |scopes| { assert ScopeWf(scopes, k); }
    }
  }

  /** Add the handles of one loop to the new scope. */
  method AddEach(part: seq<Handle>, ghost hs: seq<Handle>, ghost from: nat, ghost scopes: seq<ScopeRec>,
                 start: seq<ScopeRec>, scope: nat, hash: string -> nat)
    returns (r: seq<ScopeRec>)
    requires from + |part| <= |hs| && hs[from..from + |part|] == part
    requires scope == |scopes| && start == Filled(scopes, hs, from, hash)
    ensures r == Filled(scopes, hs, from + |part|, hash)
  {
    hide AddHandle, Filled;
    r := start;
    for i := 0 to |part|
      invariant r == Filled(scopes, hs, from + i, hash)
    {
      FillOneMore(scopes, hs, from + i, hash);
      assert hs[from + i] == part[i];
      r := AddHandle(r, scope, part[i], hash);
    }
  }

  /** Make the scope of an imported module: its imports, its functions, its variables. `scopeDict` has the
      scope of every module elaborated before. */
  method Module2Scope(m: VsmModule, scopes: seq<ScopeRec>, scopeDict: map<VsmModule, nat>, name: string, modIndex: nat,
                      hash: string -> nat)
    returns (r: seq<ScopeRec>, scope: nat)
    requires Wf(scopes)
    requires forall i :: 0 <= i < m.modules.Length ==> m.modules[i] in scopeDict
    ensures scope == |scopes| && Wf(r)
    ensures r == scopes + [ModuleScope(name, SubScopes(m.modules[..], scopeDict), m.funcs[..],
                                       m.vars[..], modIndex, hash)]
  {
    hide Filled, Wf, ScopeHandles, FuncHandles, VarHandles, SubScopes;
    var subs := SubScopes(m.modules[..], scopeDict);
    var a, b, c := ScopeHandles(name, subs), FuncHandles(m.funcs[..], modIndex), VarHandles(m.vars[..], modIndex);
    ghost var hs := a + b + c;
    scope := |scopes|;
    r := NewScope(scopes, None);
    FilledNone(scopes, hs, hash);
    r := AddEach(a, hs, 0, scopes, r, scope, hash);
    r := AddEach(b, hs, |a|, scopes, r, scope, hash);
    r := AddEach(c, hs, |a| + |b|, scopes, r, scope, hash);
    FilledWf(scopes, hs, |hs|, hash);
    FilledAll(scopes, hs, hash);
  }

  lemma FilledAll(scopes: seq<ScopeRec>, hs: seq<Handle>, hash: string -> nat)
    ensures Filled(scopes, hs, |hs|, hash) == scopes + [ScopeRec(None, None, ScopeTable.AddAll(hs, Key(hash)))]
  {
    assert hs[..|hs|] == hs;
  }

  lemma FilledNone(scopes: seq<ScopeRec>, hs: seq<Handle>, hash: string -> nat)
    ensures NewScope(scopes, None) == Filled(scopes, hs, 0, hash)
  {
    assert hs[..0] == [];
  }

  // ----- what an importer finds -----

  /** What elaboration recorded about function `i` of a module, as an importer is to see it. */
  ghost function Seen(h: Handle, modIndex: nat): Handle
    requires h.GlobalVar? || h.Function?
  {
    if h.Function? then Function(h.name, h.ty, modIndex, h.index) else GlobalVar(h.name, h.ty, modIndex, h.index)
  }

  /** The handles made for an importer have the names, types and indices of the defining module's own. */
  lemma HandlesAreSeen(st: State, name: string, subs: seq<nat>, modIndex: nat)
    requires SlotsOk(st) && st.blocks != []
    ensures var hs := Handles(name, subs, Functions(st), Variables(st), modIndex);
      && |hs| == |subs| + (|st.blocks| - 1) + |st.globals|
      && (forall i :: 0 <= i < |subs| ==> hs[i] == ScopeHandle(name, subs[i]))
      && (forall i :: 0 < i < |st.blocks| ==>
            IsFunction(st.blocks[i].handle, i - 1) && hs[|subs| + i - 1] == Seen(st.blocks[i].handle.value, modIndex))
      && (forall i :: 0 <= i < |st.globals| ==>
            st.globals[i].GlobalVar? && hs[|subs| + |st.blocks| - 1 + i] == Seen(st.globals[i], modIndex))
  {
    hide ScopeHandles, FuncHandles, VarHandles, Functions, Variables;
    var fs, vs := Functions(st), Variables(st);
    var hs := Handles(name, subs, fs, vs, modIndex);
    forall i | 0 < i < |st.blocks|
      ensures IsFunction(st.blocks[i].handle, i - 1) && hs[|subs| + i - 1] == Seen(st.blocks[i].handle.value, modIndex)
    {
      assert fs[i - 1] == ExportOf(st.blocks[i].handle.value);
      assert hs[|subs| + i - 1] == FuncHandles(fs, modIndex)[i - 1];
    }
    forall i | 0 <= i < |st.globals|
      ensures st.globals[i].GlobalVar? && hs[|subs| + |st.blocks| - 1 + i] == Seen(st.globals[i], modIndex)
    {
      assert hs[|subs| + |st.blocks| - 1 + i] == VarHandles(vs, modIndex)[i];
    }
  }

  /** The scope of an imported module. */
  function ModuleScope(name: string, subs: seq<nat>, fs: seq<Export>, vs: seq<Export>, modIndex: nat,
                       hash: string -> nat): ScopeRec {
    ScopeRec(None, None, ScopeTable.AddAll(Handles(name, subs, fs, vs, modIndex), Key(hash)))
  }

  /** No other export has the name of handle `k`, and it is not the name under which imports are added. */
  ghost predicate OwnName(hs: seq<Handle>, k: nat)
    requires k < |hs|
  {
    forall j :: 0 <= j < |hs| && NameOf(hs[j]) == NameOf(hs[k]) ==> j == k
  }

  /** Looking an export up by a name nothing else has finds the handle made for it ... */
  lemma FindsOwn(hs: seq<Handle>, k: nat, scopes: seq<ScopeRec>, s: nat, hash: string -> nat)
    requires k < |hs| && OwnName(hs, k) && Wf(scopes) && s < |scopes|
    requires scopes[s] == ScopeRec(None, None, ScopeTable.AddAll(hs, Key(hash)))
    ensures Find(scopes, s, NameOf(hs[k]), hash) == Some(hs[k])
  {
    var key := (x: Handle) => hash(NameOf(x));
    assert key == Key(hash);
    ScopeTable.AddAllHolds(hs, Key(hash));
    assert ScopeWf(scopes, s);
    ScopeTable.FindLocalIs(scopes[s].table, hs, NameOf(hs[k]), NameOf, hash);
  }

  /** ... and so names the function, by name, type and index, that the defining module has there. */
  lemma ImportedFunction(st: State, i: nat, name: string, subs: seq<nat>, modIndex: nat, scopes: seq<ScopeRec>, s: nat,
                         hash: string -> nat)
    requires SlotsOk(st) && 0 < i < |st.blocks| && Wf(scopes) && s < |scopes|
    requires scopes[s] == ModuleScope(name, subs, Functions(st), Variables(st), modIndex, hash)
    requires OwnName(Handles(name, subs, Functions(st), Variables(st), modIndex), |subs| + i - 1)
    ensures IsFunction(st.blocks[i].handle, i - 1)
    ensures var h := st.blocks[i].handle.value;
      Find(scopes, s, h.name, hash) == Some(Function(h.name, h.ty, modIndex, h.index))
  {
    hide Wf, SlotsOk, Handles, OwnName, Find;
    HandlesAreSeen(st, name, subs, modIndex);
    var hs, k := Handles(name, subs, Functions(st), Variables(st), modIndex), |subs| + i - 1;
    assert hs[k] == Seen(st.blocks[i].handle.value, modIndex);
    FindsOwn(hs, k, scopes, s, hash);
  }

  lemma ImportedVariable(st: State, i: nat, name: string, subs: seq<nat>, modIndex: nat, scopes: seq<ScopeRec>, s: nat,
                         hash: string -> nat)
    requires SlotsOk(st) && st.blocks != [] && i < |st.globals| && Wf(scopes) && s < |scopes|
    requires scopes[s] == ModuleScope(name, subs, Functions(st), Variables(st), modIndex, hash)
    requires OwnName(Handles(name, subs, Functions(st), Variables(st), modIndex), |subs| + |st.blocks| - 1 + i)
    ensures var h := st.globals[i];
      h.GlobalVar? && Find(scopes, s, h.name, hash) == Some(GlobalVar(h.name, h.ty, modIndex, h.index))
  {
    hide Wf, SlotsOk, Handles, OwnName, Find;
    HandlesAreSeen(st, name, subs, modIndex);
    var hs, k := Handles(name, subs, Functions(st), Variables(st), modIndex), |subs| + |st.blocks| - 1 + i;
    assert hs[k] == Seen(st.globals[i], modIndex);
    FindsOwn(hs, k, scopes, s, hash);
  }
}
