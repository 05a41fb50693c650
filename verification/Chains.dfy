/** An intrusive chained hash table on the heap. Every entry is a cell with its own link; a table can
    be enlarged, which links every cell anew. Proved against the value-level functions of Buckets. */
module Chains {
  import opened Buckets

  class Cell<T> {
    const item: T
    var link: Cell?<T>

    constructor (item: T)
      ensures this.item == item
    {
      this.item, link := item, null;
    }
  }

  /** The cell after position `j` of a chain; position -1 is the bucket itself. */
  ghost function After<T>(c: seq<Cell<T>>, j: int): Cell?<T>
    requires -1 <= j < |c|
  {
    if j + 1 < |c| then c[j + 1] else null
  }

  ghost predicate Index<T>(chains: seq<seq<T>>, b: int, j: int) {
    0 <= b < |chains| && 0 <= j < |chains[b]|
  }

  /** No cell is in two places. */
  ghost predicate Distinct<T>(chains: seq<seq<T>>) {
    forall b, i, c, j :: Index(chains, b, i) && Index(chains, c, j) && chains[b][i] == chains[c][j] ==> b == c && i == j
  }

  ghost predicate Within<T>(chains: seq<seq<T>>, cells: set<T>) {
    forall b, j :: Index(chains, b, j) ==> chains[b][j] in cells
  }

  ghost predicate Linked<T>(chains: seq<seq<Cell<T>>>, cells: set<Cell<T>>)
    requires Within(chains, cells)
    reads cells
  {
    forall b, j :: Index(chains, b, j) ==> chains[b][j].link == After(chains[b], j)
  }

  ghost predicate Heads<T>(heads: seq<Cell?<T>>, chains: seq<seq<Cell<T>>>) {
    |heads| == |chains| && forall b :: 0 <= b < |chains| ==> heads[b] == After(chains[b], -1)
  }

  lemma PutDistinct<T>(chains: seq<seq<T>>, x: T, key: T -> nat, cells: set<T>)
    requires |chains| > 0 && Distinct(chains) && Within(chains, cells) && x !in cells
    ensures Distinct(Put(chains, x, key)) && Within(Put(chains, x, key), cells + {x})
  {
    var p := key(x) % |chains|;
    var r := Put(chains, x, key);
    forall b, j | Index(r, b, j) && !(b == p && j == 0)
      ensures Index(chains, b, if b == p then j - 1 else j)
      ensures r[b][j] == chains[b][if b == p then j - 1 else j] && r[b][j] in cells
    {
    }
  }

  /** The cells in the buckets from `i` on. */
  ghost function Rest<T>(chains: seq<seq<T>>, i: nat): set<T> {
    set b, j | i <= b < |chains| && 0 <= j < |chains[b]| :: chains[b][j]
  }

  /** The chains from bucket `i` on are linked as before and not in `done`. */
  ghost predicate Pending<T>(chains: seq<seq<Cell<T>>>, i: nat, done: set<Cell<T>>)
    reads Rest(chains, i)
  {
    && Rest(chains, i) !! done
    && forall b, j :: Index(chains, b, j) && i <= b ==>
         chains[b][j] in Rest(chains, i) && chains[b][j].link == After(chains[b], j)
  }

  lemma PendingAll<T>(chains: seq<seq<Cell<T>>>, cells: set<Cell<T>>)
    requires Within(chains, cells) && Linked(chains, cells)
    ensures Pending(chains, 0, {}) && Rest(chains, 0) <= cells
  {
  }

  /** The next chain, and what stays pending once it is moved. */
  lemma PendingNext<T>(chains: seq<seq<Cell<T>>>, i: nat, done: set<Cell<T>>)
    requires Distinct(chains) && Pending(chains, i, done) && i < |chains|
    ensures forall j :: 0 <= j < |chains[i]| ==>
              && chains[i][j] in Rest(chains, i) && chains[i][j] !in done && chains[i][j].link == After(chains[i], j)
    ensures forall j, k :: 0 <= j < k < |chains[i]| ==> chains[i][j] != chains[i][k]
    ensures Pending(chains, i + 1, done + Elems(chains[i]))
    ensures Rest(chains, i + 1) !! Elems(chains[i])
    ensures Rest(chains, i + 1) <= Rest(chains, i)
  {
    forall j | 0 <= j < |chains[i]| ensures Index(chains, i, j) {}
  }

  lemma EmptyLinked<T>(size: nat)
    ensures Distinct(Empty<Cell<T>>(size)) && Within(Empty<Cell<T>>(size), {}) && Linked(Empty<Cell<T>>(size), {})
  {
  }

  ghost function Elems<T>(c: seq<Cell<T>>): set<Cell<T>> { set x | x in c }

  lemma NothingMoved<T>(chains: seq<seq<Cell<T>>>, key: Cell<T> -> nat)
    requires |chains| > 0
    ensures PutAll(chains, [], key) == chains && Flat<Cell<T>>([]) == []
  {
  }

  lemma Widen<T>(chains: seq<seq<Cell<T>>>, cells: set<Cell<T>>, all: set<Cell<T>>)
    requires Within(chains, cells) && Linked(chains, cells) && cells <= all
    ensures Within(chains, all) && Linked(chains, all)
  {
  }

  lemma OnePut<T>(chains: seq<seq<Cell<T>>>, c: seq<Cell<T>>, n: nat, key: Cell<T> -> nat)
    requires |chains| > 0 && n < |c|
    ensures PutAll(chains, c[..n + 1], key) == Put(PutAll(chains, c[..n], key), c[n], key)
    ensures Elems(c[..n + 1]) == Elems(c[..n]) + {c[n]}
  {
    hide PutAll, Buckets.Put, Elems;
    assert c[..n + 1] == c[..n] + [c[n]];
    PutAllStep(chains, c[..n], c[n], key);
    OneMember(c[..n], c[n]);
  }

  lemma OneMember<T>(c: seq<Cell<T>>, x: Cell<T>)
    ensures Elems(c + [x]) == Elems(c) + {x}
  {
  }

  lemma NothingPut<T>(chains: seq<seq<Cell<T>>>, c: seq<Cell<T>>, key: Cell<T> -> nat)
    requires |chains| > 0
    ensures PutAll(chains, c[..0], key) == chains && Elems(c[..0]) == {}
  {
  }

  class ChainTable<T> {
    const hash: T -> nat
    var table: array<Cell?<T>>
    ghost var chains: seq<seq<Cell<T>>>
    ghost var cells: set<Cell<T>>

    ghost function Key(): Cell<T> -> nat {
      (c: Cell<T>) => hash(c.item)
    }

    ghost predicate Valid()
      reads this, table, cells
    {
      && |chains| > 0
      && Distinct(chains)
      && Within(chains, cells)
      && Heads(table[..], chains)
      && Linked(chains, cells)
    }

    constructor (size: nat, hash: T -> nat)
      requires size > 0
      ensures Valid() && fresh(table) && cells == {} && chains == Empty(size) && this.hash == hash
    {
      this.hash := hash;
      table := new Cell?<T>[size](_ => null);
      chains, cells := Empty(size), {};
    }

    /** Link a cell in front of its bucket, without a size check. */
    method Put(c: Cell<T>)
      requires Valid() && c !in cells
      modifies this`chains, this`cells, table, c`link
      ensures Valid() && table == old(table)
      ensures chains == Buckets.Put(old(chains), c, Key())
      ensures cells == old(cells) + {c}
    {
      var pos := hash(c.item) % table.Length;
      PutDistinct(chains, c, Key(), cells);
      c.link := table[pos];
      table[pos] := c;
      chains := Buckets.Put(chains, c, Key());
      cells := cells + {c};
      forall b, j | Index(chains, b, j)
        ensures chains[b][j].link == After(chains[b], j)
      {
        if b == pos && j > 0 {
          assert Index(old(chains), b, j - 1);
        } else if b != pos {
          assert Index(old(chains), b, j);
        }
      }
    }

    /** Move the chain that starts at `head` into the table. */
    method MoveChain(head: Cell?<T>, ghost c: seq<Cell<T>>) returns (n: nat)
      requires Valid()
      requires head == After(c, -1) && forall j :: 0 <= j < |c| ==> c[j].link == After(c, j)
      requires forall j, k :: 0 <= j < k < |c| ==> c[j] != c[k]
      requires forall j :: 0 <= j < |c| ==> c[j] !in cells
      modifies this`chains, this`cells, table, c`link
      ensures Valid() && table == old(table)
      ensures chains == PutAll(old(chains), c, Key()) && n == |c|
      ensures cells == old(cells) + Elems(c)
    {
      hide Distinct, Within, Heads, PutAll, Buckets.Put;
      var cell := head;
      NothingPut(chains, c, Key());
      n := 0;
      while cell != null
        invariant n <= |c| && Valid() && table == old(table)
        invariant cell == After(c, n - 1)
        invariant chains == PutAll(old(chains), c[..n], Key())
        invariant cells == old(cells) + Elems(c[..n])
        invariant forall j :: n <= j < |c| ==> c[j] !in cells && c[j].link == After(c, j)
        decreases |c| - n
      {
        var next := cell.link;
        OnePut(old(chains), c, n, Key());
        Put(cell);
        cell := next;
        n := n + 1;
      }
      assert c[..n] == c;
    }

    /** Move every chain of an old table, which is not `table`, to the table. */
    method MoveAll(oldTable: array<Cell?<T>>, ghost oc: seq<seq<Cell<T>>>) returns (n: nat)
      requires Valid() && oldTable != table && Heads(oldTable[..], oc) && Distinct(oc) && Pending(oc, 0, cells)
      modifies this`chains, this`cells, table, Rest(oc, 0)`link
      ensures Valid() && table == old(table)
      ensures chains == PutAll(old(chains), Flat(oc), Key()) && n == |Flat(oc)|
      ensures cells <= old(cells) + Rest(oc, 0)
    {
      hide Distinct, Within, Linked, PutAll, Flat, Rest;
      ghost var moved: seq<Cell<T>> := [];
      n := 0;
      assert oc[..0] == [];
      NothingMoved(chains, Key());
      for i := 0 to oldTable.Length
        invariant Valid() && table == old(table)
        invariant moved == Flat(oc[..i]) && n == |moved|
        invariant chains == PutAll(old(chains), moved, Key())
        invariant cells <= old(cells) + Rest(oc, 0)
        invariant Pending(oc, i, cells) && Rest(oc, i) <= Rest(oc, 0)
      {
        ghost var done := cells + Elems(oc[i]);
        PendingNext(oc, i, cells);
        var m := MoveChain(oldTable[i], oc[i]);
        n := n + m;
        assert cells == done;
        assert Pending(oc, i + 1, done);
        PutAllAppend(old(chains), moved, oc[i], Key());
        FlatStep(oc, i);
        moved := moved + oc[i];
      }
      assert oc[..|oc|] == oc;
    }

    /** Replace the table by one with `size` buckets and move every cell over; `moved` counts them. */
    method AllocTable(size: nat) returns (moved: nat)
      requires Valid() && size > 0
      modifies this`table, this`chains, this`cells, cells`link
      ensures Valid() && fresh(table) && cells == old(cells)
      ensures chains == Rehash(old(chains), size, Key()) && moved == |Flat(old(chains))|
    {
      var oldTable := table;
      ghost var oc, all := chains, cells;
      PendingAll(oc, all);
      EmptyLinked<T>(size);
      table := new Cell?<T>[size](_ => null);
      chains, cells := Empty(size), {};
      moved := MoveAll(oldTable, oc);
      Widen(chains, cells, all);
      cells := all;
    }
  }
}
