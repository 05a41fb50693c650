/** The scopes of one elaboration and lexical lookup through them. A scope is its position in the
    order of creation. */
module ScopeGraph {
  import opened Common
  import opened Ir
  import ScopeTable

  datatype ScopeRec = ScopeRec(parent: Option<nat>, globalScope: Option<nat>, table: ScopeTable.Table<Handle>)

  function NameOf(h: Handle): string {
    if h.ArrayRef? then "" else h.name
  }

  function Key(hash: string -> nat): Handle -> nat {
    (h: Handle) => hash(NameOf(h))
  }

  /** Parents and global scopes are older; only a global scope has no global scope; the scopes of a
      chain share theirs. */
  ghost predicate Wf(scopes: seq<ScopeRec>) {
    forall i :: 0 <= i < |scopes| ==> ScopeWf(scopes, i)
  }

  ghost predicate ScopeWf(scopes: seq<ScopeRec>, i: nat)
    requires i < |scopes|
  {
    var s := scopes[i];
    && |s.table.chains| > 0
    && (s.globalScope.None? ==> s.parent.None?)
    && (s.globalScope.Some? ==> s.globalScope.value < i && scopes[s.globalScope.value].globalScope.None?)
    && (s.parent.Some? ==> s.parent.value < i && scopes[s.parent.value].globalScope == s.globalScope)
  }

  /** A new scope inherits the global scope of its parent; directly below the global scope it has no
      parent of its own. */
  function NewScope(scopes: seq<ScopeRec>, parent: Option<nat>): (r: seq<ScopeRec>)
    requires parent.Some? ==> parent.value < |scopes|
  {
    var g := if parent.None? then None else scopes[parent.value].globalScope;
    scopes + [if parent.Some? && g.None? then ScopeRec(None, parent, ScopeTable.NewTable())
              else ScopeRec(parent, g, ScopeTable.NewTable())]
  }

  function FindLocal(scopes: seq<ScopeRec>, s: nat, n: string, hash: string -> nat): Option<Handle>
    requires s < |scopes| && |scopes[s].table.chains| > 0
  {
    ScopeTable.FindLocal(scopes[s].table, n, NameOf, hash)
  }

  /** The scope itself, then its parent (which ends at the parent's global scope), then its own
      global scope. */
  function Find(scopes: seq<ScopeRec>, s: nat, n: string, hash: string -> nat): Option<Handle>
    requires Wf(scopes) && s < |scopes|
    decreases s
  {
    assert ScopeWf(scopes, s);
    var own := FindLocal(scopes, s, n, hash);
    if own.Some? then own else
      var up := if scopes[s].parent.Some? then Find(scopes, scopes[s].parent.value, n, hash) else None;
      if up.Some? then up
      else if scopes[s].globalScope.Some? then Find(scopes, scopes[s].globalScope.value, n, hash)
      else None
  }

  function AddHandle(scopes: seq<ScopeRec>, s: nat, h: Handle, hash: string -> nat): (r: seq<ScopeRec>)
    requires s < |scopes| && |scopes[s].table.chains| > 0
    ensures |r| == |scopes|
  {
    scopes[s := scopes[s].(table := ScopeTable.Add(scopes[s].table, h, Key(hash)))]
  }

  // ----- the scope graph -----

  lemma NewScopeWf(scopes: seq<ScopeRec>, parent: Option<nat>)
    requires Wf(scopes) && (parent.Some? ==> parent.value < |scopes|)
    ensures Wf(NewScope(scopes, parent))
  {
    var r := NewScope(scopes, parent);
    forall i | 0 <= i < |r| ensures ScopeWf(r, i) {
      if i < |scopes| { assert ScopeWf(scopes, i); }
      if parent.Some? { assert ScopeWf(scopes, parent.value); }
    }
  }

  lemma AddWf(scopes: seq<ScopeRec>, s: nat, h: Handle, hash: string -> nat)
    requires Wf(scopes) && s < |scopes| && |scopes[s].table.chains| > 0
    ensures Wf(AddHandle(scopes, s, h, hash))
  {
    forall i | 0 <= i < |scopes| ensures ScopeWf(AddHandle(scopes, s, h, hash), i) {
      assert ScopeWf(scopes, i);
    }
  }

  /** A new handle is found by its name. */
  lemma OwnFound(t: ScopeTable.Table<Handle>, h: Handle, hash: string -> nat)
    requires |t.chains| > 0
    ensures ScopeTable.FindLocal(ScopeTable.Add(t, h, Key(hash)), NameOf(h), NameOf, hash) == Some(h)
  {
    var u := ScopeTable.Add(t, h, Key(hash));
    var b := hash(NameOf(h)) % |u.chains|;
    assert Key(hash)(h) == hash(NameOf(h));
    assert u.chains[b] != [] && u.chains[b][0] == h;
  }

  // ----- lexical lookup -----

  /** Self, parents, global scope: the order in which scopes are searched. */
  ghost function Path(scopes: seq<ScopeRec>, s: nat): seq<nat>
    requires Wf(scopes) && s < |scopes|
    decreases s
  {
    assert ScopeWf(scopes, s);
    if scopes[s].parent.Some? then [s] + Path(scopes, scopes[s].parent.value)
    else if scopes[s].globalScope.Some? then [s, scopes[s].globalScope.value]
    else [s]
  }

  /** The first scope of the path that defines the name decides. */
  ghost function FirstOn(scopes: seq<ScopeRec>, path: seq<nat>, n: string, hash: string -> nat): Option<Handle>
    requires Wf(scopes) && forall i :: 0 <= i < |path| ==> path[i] < |scopes|
  {
    if path == [] then None else
      assert ScopeWf(scopes, path[0]);
      var own := FindLocal(scopes, path[0], n, hash);
      if own.Some? then own else FirstOn(scopes, path[1..], n, hash)
  }

  lemma {:induction false} PathWf(scopes: seq<ScopeRec>, s: nat)
    requires Wf(scopes) && s < |scopes|
    ensures forall i :: 0 <= i < |Path(scopes, s)| ==> Path(scopes, s)[i] < |scopes|
    ensures scopes[s].globalScope.Some? ==>
              |Path(scopes, s)| > 1 && Path(scopes, s)[|Path(scopes, s)| - 1] == scopes[s].globalScope.value
    decreases s
  {
    assert ScopeWf(scopes, s);
    if scopes[s].parent.Some? {
      PathWf(scopes, scopes[s].parent.value);
    }
  }

  lemma {:induction false} LastOnPath(scopes: seq<ScopeRec>, path: seq<nat>, n: string, hash: string -> nat)
    requires Wf(scopes) && path != [] && forall i :: 0 <= i < |path| ==> path[i] < |scopes|
    requires FirstOn(scopes, path, n, hash).None?
    ensures |scopes[path[|path| - 1]].table.chains| > 0 && FindLocal(scopes, path[|path| - 1], n, hash).None?
  {
    assert ScopeWf(scopes, path[0]);
    if |path| > 1 {
      LastOnPath(scopes, path[1..], n, hash);
    }
  }

  /** Lookup finds the first match along self, parents, global scope. */
  lemma {:induction false} FindIsLexical(scopes: seq<ScopeRec>, s: nat, n: string, hash: string -> nat)
    requires Wf(scopes) && s < |scopes|
    ensures forall i :: 0 <= i < |Path(scopes, s)| ==> Path(scopes, s)[i] < |scopes|
    ensures Find(scopes, s, n, hash) == FirstOn(scopes, Path(scopes, s), n, hash)
    decreases s
  {
    assert ScopeWf(scopes, s);
    PathWf(scopes, s);
    var rec := scopes[s];
    if rec.parent.Some? {
      var p := rec.parent.value;
      FindIsLexical(scopes, p, n, hash);
      PathWf(scopes, p);
      assert ScopeWf(scopes, p);
      assert Path(scopes, s)[1..] == Path(scopes, p);
      if FindLocal(scopes, s, n, hash).None? && Find(scopes, p, n, hash).None? && rec.globalScope.Some? {
        var g := rec.globalScope.value;
        LastOnPath(scopes, Path(scopes, p), n, hash);
        assert ScopeWf(scopes, g);
        assert FindLocal(scopes, g, n, hash).None?;
      }
    } else if rec.globalScope.Some? {
      var g := rec.globalScope.value;
      assert ScopeWf(scopes, g);
      assert Path(scopes, s)[1..] == [g];
      assert FirstOn(scopes, [g], n, hash) == Find(scopes, g, n, hash);
    }
  }
}
