/** The table of one scope as a value, and what any history of additions makes of it. */
module ScopeTable {
  import opened Common
  import opened Buckets

  /** `num` is the counter that decides when to grow. */
  datatype Table<+T> = Table(num: nat, chains: seq<seq<T>>)

  /** The table is enlarged when the counter reaches 1.8 times the number of buckets. */
  function Limit(size: nat): nat { size * 9 / 5 }

  function NewTable<T>(): Table<T> { Table(0, Empty(16)) }

  /** Doubling links every entry again and counts it again. */
  function Grow<T>(t: Table<T>, size: nat, key: T -> nat): Table<T>
    requires size > 0
  {
    Table(t.num + |Flat(t.chains)|, Rehash(t.chains, size, key))
  }

  function Add<T>(t: Table<T>, x: T, key: T -> nat): (r: Table<T>)
    requires |t.chains| > 0
    ensures |r.chains| > 0
  {
    var u := if t.num >= Limit(|t.chains|) then Grow(t, 2 * |t.chains|, key) else t;
    Table(u.num + 1, Put(u.chains, x, key))
  }

  /** The first entry named `n`. */
  function First<T>(chain: seq<T>, n: string, name: T -> string): Option<T> {
    if chain == [] then None
    else if name(chain[0]) == n then Some(chain[0])
    else First(chain[1..], n, name)
  }

  function FindLocal<T>(t: Table<T>, n: string, name: T -> string, hash: string -> nat): Option<T>
    requires |t.chains| > 0
  {
    First(t.chains[hash(n) % |t.chains|], n, name)
  }

  function AddAll<T>(xs: seq<T>, key: T -> nat): (t: Table<T>)
    ensures |t.chains| > 0
  {
    if xs == [] then NewTable() else Add(AddAll(xs[..|xs| - 1], key), xs[|xs| - 1], key)
  }

  // ----- every history -----

  /** The table holds exactly `xs`, each entry once and in its own bucket; there are never more
      entries than the limit, and the counter never falls behind. */
  ghost predicate Holds<T>(t: Table<T>, xs: seq<T>, key: T -> nat) {
    && |t.chains| > 0
    && Placed(t.chains, key)
    && multiset(Flat(t.chains)) == multiset(xs)
    && |xs| <= t.num
    && |xs| <= Limit(|t.chains|)
  }

  lemma SameSize<T>(a: seq<T>, b: seq<T>)
    requires multiset(a) == multiset(b)
    ensures |a| == |b|
  {
    assert |multiset(a)| == |a| && |multiset(b)| == |b|;
  }

  lemma {:induction false} NewHolds<T>(key: T -> nat)
    ensures Holds(NewTable(), [], key)
  {
    FlatEmpty(Empty<T>(16));
  }

  lemma GrowHolds<T>(t: Table<T>, xs: seq<T>, key: T -> nat)
    requires Holds(t, xs, key)
    ensures Holds(Grow(t, 2 * |t.chains|, key), xs, key)
    ensures |xs| < Limit(2 * |t.chains|)
  {
    RehashConserves(t.chains, 2 * |t.chains|, key);
  }

  lemma PutHolds<T>(t: Table<T>, xs: seq<T>, x: T, key: T -> nat)
    requires Holds(t, xs, key) && |xs| < Limit(|t.chains|)
    ensures Holds(Table(t.num + 1, Put(t.chains, x, key)), xs + [x], key)
  {
    FlatUpdate(t.chains, key(x) % |t.chains|, x);
  }

  lemma AddHolds<T>(t: Table<T>, xs: seq<T>, x: T, key: T -> nat)
    requires Holds(t, xs, key)
    ensures Holds(Add(t, x, key), xs + [x], key)
  {
    hide Holds;
    if t.num >= Limit(|t.chains|) {
      GrowHolds(t, xs, key);
      PutHolds(Grow(t, 2 * |t.chains|, key), xs, x, key);
    } else {
      assert |xs| <= t.num by { HoldsCounts(t, xs, key); }
      PutHolds(t, xs, x, key);
    }
  }

  lemma HoldsCounts<T>(t: Table<T>, xs: seq<T>, key: T -> nat)
    requires Holds(t, xs, key)
    ensures |xs| <= t.num && |t.chains| > 0
  {
  }

  lemma {:induction false} AddAllHolds<T>(xs: seq<T>, key: T -> nat)
    ensures Holds(AddAll(xs, key), xs, key)
  {
    if xs == [] {
      NewHolds(key);
    } else {
      AddAllHolds(xs[..|xs| - 1], key);
      AddHolds(AddAll(xs[..|xs| - 1], key), xs[..|xs| - 1], xs[|xs| - 1], key);
      assert xs == xs[..|xs| - 1] + [xs[|xs| - 1]];
    }
  }

  lemma {:induction false} FirstIs<T>(chain: seq<T>, n: string, name: T -> string)
    ensures First(chain, n, name).None? <==> forall x :: x in chain ==> name(x) != n
    ensures First(chain, n, name).Some? ==>
              First(chain, n, name).value in chain && name(First(chain, n, name).value) == n
  {
    if chain != [] && name(chain[0]) != n {
      FirstIs(chain[1..], n, name);
    }
  }

  /** In a table whose entries are in their buckets a lookup finds an entry of that name exactly when there is one. */
  lemma PlacedFinds<T>(t: Table<T>, n: string, name: T -> string, hash: string -> nat)
    requires |t.chains| > 0 && Placed(t.chains, x => hash(name(x)))
    ensures FindLocal(t, n, name, hash).None? <==> forall x :: x in Flat(t.chains) ==> name(x) != n
    ensures FindLocal(t, n, name, hash).Some? ==>
              FindLocal(t, n, name, hash).value in Flat(t.chains) && name(FindLocal(t, n, name, hash).value) == n
  {
    var key := (x: T) => hash(name(x));
    var chain := t.chains[hash(n) % |t.chains|];
    FirstIs(chain, n, name);
    hide First, Flat, Placed;
    forall x: T | x in Flat(t.chains) && name(x) == n ensures x in chain { ProbedChain(t.chains, x, key); }
    forall x: T | x in chain && name(x) == n ensures x in Flat(t.chains) { ProbedChain(t.chains, x, key); }
  }

  /** Whatever was added and however often the table was doubled, a lookup finds a handle of that
      name if one was added, and nothing otherwise. */
  lemma FindLocalIs<T>(t: Table<T>, xs: seq<T>, n: string, name: T -> string, hash: string -> nat)
    requires Holds(t, xs, x => hash(name(x)))
    ensures FindLocal(t, n, name, hash).None? <==> forall x :: x in xs ==> name(x) != n
    ensures FindLocal(t, n, name, hash).Some? ==>
              FindLocal(t, n, name, hash).value in xs && name(FindLocal(t, n, name, hash).value) == n
  {
    PlacedFinds(t, n, name, hash);
    forall x: T ensures x in Flat(t.chains) <==> x in xs {
      assert x in Flat(t.chains) <==> x in multiset(Flat(t.chains));
      assert x in xs <==> x in multiset(xs);
    }
  }

  /** An addition keeps every entry once and in its bucket. */
  lemma AddConserves<T>(t: Table<T>, x: T, key: T -> nat)
    requires |t.chains| > 0
    ensures multiset(Flat(Add(t, x, key).chains)) == multiset(Flat(t.chains)) + multiset{x}
    ensures Placed(t.chains, key) ==> Placed(Add(t, x, key).chains, key)
  {
    hide Flat, Placed, Put, Rehash;
    var u := if t.num >= Limit(|t.chains|) then Grow(t, 2 * |t.chains|, key) else t;
    RehashConserves(t.chains, 2 * |t.chains|, key);
    PutConserves(u.chains, x, key);
    if Placed(u.chains, key) { PutPlaced(u.chains, x, key); }
  }

  ghost predicate DistinctNames<T>(xs: seq<T>, name: T -> string) {
    forall i, j :: 0 <= i < j < |xs| ==> name(xs[i]) != name(xs[j])
  }

  /** A scope filled with distinct names is a map from names to handles. */
  lemma ScopeRefinesMap<T>(xs: seq<T>, n: string, name: T -> string, hash: string -> nat)
    requires DistinctNames(xs, name)
    ensures var t := AddAll(xs, x => hash(name(x)));
            && (forall i :: 0 <= i < |xs| && name(xs[i]) == n ==> FindLocal(t, n, name, hash) == Some(xs[i]))
            && ((forall i :: 0 <= i < |xs| ==> name(xs[i]) != n) ==> FindLocal(t, n, name, hash) == None)
            && |Flat(t.chains)| == |xs| <= Limit(|t.chains|)
            && |xs| <= t.num
  {
    var key := (x: T) => hash(name(x));
    var t := AddAll(xs, key);
    AddAllHolds(xs, key);
    FindLocalIs(t, xs, n, name, hash);
    SameSize(Flat(t.chains), xs);
  }

  // ----- several entries of one name -----

  /** The entries of one name, in order. */
  function Named<T>(xs: seq<T>, n: string, name: T -> string): seq<T> {
    if xs == [] then []
    else Named(xs[..|xs| - 1], n, name) + if name(xs[|xs| - 1]) == n then [xs[|xs| - 1]] else []
  }

  /** All entries of one name, in the order in which a lookup meets them. */
  function Queue<T>(t: Table<T>, n: string, name: T -> string): seq<T> { Named(Flat(t.chains), n, name) }

  function Reverse<T>(xs: seq<T>): seq<T> {
    if xs == [] then [] else [xs[|xs| - 1]] + Reverse(xs[..|xs| - 1])
  }

  lemma {:induction false} NamedJoin<T>(a: seq<T>, b: seq<T>, n: string, name: T -> string)
    ensures Named(a + b, n, name) == Named(a, n, name) + Named(b, n, name)
  {
    if b == [] {
      assert a + b == a;
    } else {
      assert (a + b)[..|a + b| - 1] == a + b[..|b| - 1];
      NamedJoin(a, b[..|b| - 1], n, name);
    }
  }

  lemma {:induction false} NamedNone<T>(xs: seq<T>, n: string, name: T -> string)
    requires forall i :: 0 <= i < |xs| ==> name(xs[i]) != n
    ensures Named(xs, n, name) == []
  {
    if xs != [] { NamedNone(xs[..|xs| - 1], n, name); }
  }

  lemma {:induction false} FirstNamed<T>(xs: seq<T>, n: string, name: T -> string)
    ensures First(xs, n, name) == if Named(xs, n, name) == [] then None else Some(Named(xs, n, name)[0])
  {
    if xs != [] {
      assert xs == [xs[0]] + xs[1..];
      OneNamed(xs[0], n, name);
      NamedJoin([xs[0]], xs[1..], n, name);
      FirstNamed(xs[1..], n, name);
    }
  }

  /** The first `k` chains hold entries of the name only if the probed chain is among them. */
  lemma {:induction false} NamedFlat<T>(chains: seq<seq<T>>, k: nat, n: string, name: T -> string, hash: string -> nat)
    requires 0 < |chains| && k <= |chains| && Placed(chains, x => hash(name(x)))
    ensures var p := hash(n) % |chains|;
            Named(Flat(chains[..k]), n, name) == if p < k then Named(chains[p], n, name) else []
  {
    if k > 0 {
      FlatStep(chains, k - 1);
      NamedFlat(chains, k - 1, n, name, hash);
      NamedJoin(Flat(chains[..k - 1]), chains[k - 1], n, name);
      if k - 1 != hash(n) % |chains| {
        NamedNone(chains[k - 1], n, name);
      }
    }
  }

  /** A lookup finds the first of the queue. */
  lemma FindsFirstOfQueue<T>(t: Table<T>, n: string, name: T -> string, hash: string -> nat)
    requires |t.chains| > 0 && Placed(t.chains, x => hash(name(x)))
    ensures FindLocal(t, n, name, hash) == if Queue(t, n, name) == [] then None else Some(Queue(t, n, name)[0])
  {
    assert t.chains[..|t.chains|] == t.chains;
    NamedFlat(t.chains, |t.chains|, n, name, hash);
    FirstNamed(t.chains[hash(n) % |t.chains|], n, name);
  }

  lemma PutQueue<T>(chains: seq<seq<T>>, x: T, n: string, name: T -> string, hash: string -> nat)
    requires |chains| > 0 && Placed(chains, y => hash(name(y)))
    ensures Named(Flat(Put(chains, x, y => hash(name(y)))), n, name)
         == (if name(x) == n then [x] else []) + Named(Flat(chains), n, name)
  {
    var key := (y: T) => hash(name(y));
    hide Named, Flat;
    var put := Put(chains, x, key);
    var p := hash(n) % |chains|;
    PutPlaced(chains, x, key);
    hide Placed;
    OneNamed(x, n, name);
    assert chains[..|chains|] == chains && put[..|put|] == put;
    NamedFlat(chains, |chains|, n, name, hash);
    NamedFlat(put, |put|, n, name, hash);
    NamedJoin([x], chains[p], n, name);
  }

  lemma OneNamed<T>(x: T, n: string, name: T -> string)
    ensures Named([x], n, name) == if name(x) == n then [x] else []
  {
    assert [x][..0] == [];
  }

  lemma NamedLast<T>(xs: seq<T>, n: string, name: T -> string)
    requires xs != []
    ensures var init, x := xs[..|xs| - 1], xs[|xs| - 1];
            Reverse(Named(xs, n, name)) == (if name(x) == n then [x] else []) + Reverse(Named(init, n, name))
  {
    var init, x := xs[..|xs| - 1], xs[|xs| - 1];
    var named := Named(init, n, name);
    if name(x) == n {
      assert (named + [x])[..|named|] == named;
    } else {
      assert named + [] == named && [] + Reverse(named) == Reverse(named);
    }
  }

  lemma PutAllLast<T>(chains: seq<seq<T>>, xs: seq<T>, key: T -> nat)
    requires |chains| > 0 && xs != []
    ensures PutAll(chains, xs, key) == Put(PutAll(chains, xs[..|xs| - 1], key), xs[|xs| - 1], key)
  {
  }

  lemma {:induction false} PutAllQueue<T>(size: nat, xs: seq<T>, n: string, name: T -> string, hash: string -> nat)
    requires size > 0
    ensures Named(Flat(PutAll(Empty(size), xs, y => hash(name(y)))), n, name) == Reverse(Named(xs, n, name))
    decreases |xs|
  {
    hide Named, Flat, Put, Reverse;
    if xs == [] {
      FlatEmpty(Empty<T>(size));
      NothingNamed(n, name);
    } else {
      var key := (y: T) => hash(name(y));
      var init, x := xs[..|xs| - 1], xs[|xs| - 1];
      hide PutAll, Placed;
      EmptyPlaced<T>(size, key);
      PutAllConserves(Empty(size), init, key);
      PutAllQueue(size, init, n, name, hash);
      PutQueue(PutAll(Empty(size), init, key), x, n, name, hash);
      NamedLast(xs, n, name);
      PutAllLast(Empty(size), xs, key);
    }
  }

  lemma NothingNamed<T>(n: string, name: T -> string)
    ensures Named([], n, name) == [] && Reverse<T>([]) == []
  {
  }

  lemma EmptyPlaced<T>(size: nat, key: T -> nat)
    ensures Placed(Empty(size), key)
  {
  }

  /** A new entry goes in front of those of its name; a doubling turns their order around first. So of
      several handles of one name the newest is found, but after a doubling the oldest. */
  lemma AddQueue<T>(t: Table<T>, x: T, n: string, name: T -> string, hash: string -> nat)
    requires |t.chains| > 0 && Placed(t.chains, y => hash(name(y)))
    ensures var before := if t.num >= Limit(|t.chains|) then Reverse(Queue(t, n, name)) else Queue(t, n, name);
            Queue(Add(t, x, y => hash(name(y))), n, name) == (if name(x) == n then [x] else []) + before
  {
    var key := (y: T) => hash(name(y));
    var u := if t.num >= Limit(|t.chains|) then Grow(t, 2 * |t.chains|, key) else t;
    RehashConserves(t.chains, 2 * |t.chains|, key);
    PutAllQueue(2 * |t.chains|, Flat(t.chains), n, name, hash);
    PutQueue(u.chains, x, n, name, hash);
  }
}
