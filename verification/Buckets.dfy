/** Chained hash tables as values: one chain per bucket, a new entry in front; moving to another table turns the
    chains around. Both intrusive tables of the compiler (scopes and types) are proved against these functions. */
module Buckets {

  function Empty<T>(size: nat): seq<seq<T>> {
    seq(size, i => [])
  }

  /** Link `x` in front of its chain. */
  function Put<T>(chains: seq<seq<T>>, x: T, key: T -> nat): (r: seq<seq<T>>)
    requires |chains| > 0
  {
    var b := key(x) % |chains|;
    chains[b := [x] + chains[b]]
  }

  function PutAll<T>(chains: seq<seq<T>>, xs: seq<T>, key: T -> nat): (r: seq<seq<T>>)
    requires |chains| > 0
    ensures |r| == |chains|
  {
    if xs == [] then chains
    else Put(PutAll(chains, xs[..|xs| - 1], key), xs[|xs| - 1], key)
  }

  lemma PutAllStep<T>(chains: seq<seq<T>>, xs: seq<T>, x: T, key: T -> nat)
    requires |chains| > 0
    ensures PutAll(chains, xs + [x], key) == Put(PutAll(chains, xs, key), x, key)
  {
    hide Put;
    assert (xs + [x])[..|xs|] == xs;
  }

  /** All entries, bucket by bucket, each chain from its head. */
  function Flat<T>(chains: seq<seq<T>>): seq<T> {
    if chains == [] then [] else Flat(chains[..|chains| - 1]) + chains[|chains| - 1]
  }

  lemma FlatStep<T>(chains: seq<seq<T>>, i: nat)
    requires i < |chains|
    ensures Flat(chains[..i + 1]) == Flat(chains[..i]) + chains[i]
  {
    assert chains[..i + 1][..i] == chains[..i];
  }

  /** Move every entry to a new table, in the order of the old one: each chain comes out reversed. */
  function Rehash<T>(chains: seq<seq<T>>, size: nat, key: T -> nat): (r: seq<seq<T>>)
    requires size > 0
    ensures |r| == size
  {
    PutAll(Empty(size), Flat(chains), key)
  }

  lemma {:induction false} PutAllAppend<T>(chains: seq<seq<T>>, xs: seq<T>, ys: seq<T>, key: T -> nat)
    requires |chains| > 0
    ensures PutAll(chains, xs + ys, key) == PutAll(PutAll(chains, xs, key), ys, key)
  {
    if ys == [] {
      assert xs + ys == xs;
    } else {
      PutAllAppend(chains, xs, ys[..|ys| - 1], key);
      assert (xs + ys)[..|xs + ys| - 1] == xs + ys[..|ys| - 1];
    }
  }

  // ----- entries are conserved and sit where a lookup probes -----

  ghost predicate Placed<T>(chains: seq<seq<T>>, key: T -> nat) {
    forall b, j :: 0 <= b < |chains| && 0 <= j < |chains[b]| ==> key(chains[b][j]) % |chains| == b
  }

  lemma FlatLast<T>(chains: seq<seq<T>>)
    requires chains != []
    ensures multiset(Flat(chains)) == multiset(Flat(chains[..|chains| - 1])) + multiset(chains[|chains| - 1])
  {
  }

  lemma FrontAdded<T>(x: T, chain: seq<T>)
    ensures multiset([x] + chain) == multiset(chain) + multiset{x}
  {
  }

  lemma UpdateSplit<T>(chains: seq<seq<T>>, b: nat, c: seq<T>)
    requires b < |chains|
    ensures var n, upd := |chains| - 1, chains[b := c];
            && (b < n ==> upd[..n] == chains[..n][b := c] && upd[n] == chains[n])
            && (b == n ==> upd[..n] == chains[..n] && upd[n] == c)
  {
  }

  lemma {:induction false} FlatUpdate<T>(chains: seq<seq<T>>, b: nat, x: T)
    requires b < |chains|
    ensures multiset(Flat(chains[b := [x] + chains[b]])) == multiset(Flat(chains)) + multiset{x}
  {
    hide Flat;
    var n, upd := |chains| - 1, chains[b := [x] + chains[b]];
    UpdateSplit(chains, b, [x] + chains[b]);
    FlatLast(chains);
    FlatLast(upd);
    if b < n {
      FlatUpdate(chains[..n], b, x);
    } else {
      FrontAdded(x, chains[n]);
    }
  }

  lemma {:induction false} FlatEmpty<T>(chains: seq<seq<T>>)
    requires forall b :: 0 <= b < |chains| ==> chains[b] == []
    ensures Flat(chains) == []
  {
    if chains != [] {
      FlatEmpty(chains[..|chains| - 1]);
    }
  }

  lemma PutPlaced<T>(chains: seq<seq<T>>, x: T, key: T -> nat)
    requires |chains| > 0 && Placed(chains, key)
    ensures Placed(Put(chains, x, key), key)
  {
  }

  lemma PutConserves<T>(chains: seq<seq<T>>, x: T, key: T -> nat)
    requires |chains| > 0
    ensures multiset(Flat(Put(chains, x, key))) == multiset(Flat(chains)) + multiset{x}
  {
    hide Flat;
    FlatUpdate(chains, key(x) % |chains|, x);
  }

  lemma {:induction false} PutAllConserves<T>(chains: seq<seq<T>>, xs: seq<T>, key: T -> nat)
    requires |chains| > 0 && Placed(chains, key)
    ensures Placed(PutAll(chains, xs, key), key)
    ensures multiset(Flat(PutAll(chains, xs, key))) == multiset(Flat(chains)) + multiset(xs)
  {
    hide Flat, Put, Placed;
    if xs != [] {
      var init, x := xs[..|xs| - 1], xs[|xs| - 1];
      PutAllConserves(chains, init, key);
      PutPlaced(PutAll(chains, init, key), x, key);
      PutConserves(PutAll(chains, init, key), x, key);
      assert xs == init + [x];
    }
  }

  /** Growing keeps every entry exactly once and puts it where its key says. */
  lemma RehashConserves<T>(chains: seq<seq<T>>, size: nat, key: T -> nat)
    requires size > 0
    ensures Placed(Rehash(chains, size, key), key)
    ensures multiset(Flat(Rehash(chains, size, key))) == multiset(Flat(chains))
  {
    FlatEmpty(Empty<T>(size));
    hide Flat, PutAll;
    PutAllConserves(Empty(size), Flat(chains), key);
  }

  lemma {:induction false} InFlat<T>(chains: seq<seq<T>>, x: T)
    ensures x in Flat(chains) <==> exists b :: 0 <= b < |chains| && x in chains[b]
  {
    if chains != [] {
      var n := |chains| - 1;
      InFlat(chains[..n], x);
      if x in Flat(chains[..n]) {
        var b :| 0 <= b < n && x in chains[..n][b];
        assert x in chains[b];
      }
      if b :| 0 <= b < |chains| && x in chains[b] {
        if b < n { assert x in chains[..n][b]; }
      }
    }
  }

  /** In a table whose entries are where their keys say, one chain holds all entries of a key. */
  lemma ProbedChain<T>(chains: seq<seq<T>>, x: T, key: T -> nat)
    requires |chains| > 0 && Placed(chains, key)
    ensures x in chains[key(x) % |chains|] <==> x in Flat(chains)
  {
    InFlat(chains, x);
    if b :| 0 <= b < |chains| && x in chains[b] {
      var j :| 0 <= j < |chains[b]| && chains[b][j] == x;
      assert b == key(x) % |chains|;
    }
  }
}
