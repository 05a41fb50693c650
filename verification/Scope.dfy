/** The scope class: a chained hash table of handles that doubles when its counter says so. */
module ScopeClass {
  import opened Common
  import opened Ir
  import opened Chains
  import ScopeGraph
  import ScopeTable

  type IrHandle = Cell<Handle>

  function Name(h: IrHandle): string { ScopeGraph.NameOf(h.item) }

  class Scope {
    const parentScope: Scope?
    const globalScope: Scope?
    const hash: string -> nat
    const table: ChainTable<Handle>
    var limit: nat
    var num: nat

    ghost predicate Valid()
      reads this, table, table.table, table.cells
    {
      table.hash == ScopeGraph.Key(hash) && table.Valid() && limit == ScopeTable.Limit(|table.chains|)
    }

    /** The abstract table. */
    ghost function Table(): ScopeTable.Table<IrHandle>
      reads this, table
    {
      ScopeTable.Table(num, table.chains)
    }

    /** A new scope has sixteen empty buckets. */
    constructor (parentScope: Scope?, globalScope: Scope?, hash: string -> nat)
      ensures Valid() && fresh(table) && fresh(table.table) && table.cells == {}
      ensures this.parentScope == parentScope && this.globalScope == globalScope && this.hash == hash
      ensures Table() == ScopeTable.NewTable()
    {
      this.parentScope, this.globalScope, this.hash := parentScope, globalScope, hash;
      num, limit := 0, 16 * 9 / 5;
      table := new ChainTable(16, ScopeGraph.Key(hash));
    }

    /** Enlarge the table. Every handle is put anew, and so is counted again. */
    method AllocTable(size: nat)
      requires Valid() && size > 0
      modifies this, table, table.cells`link
      ensures Valid() && fresh(table.table) && table.cells == old(table.cells)
      ensures Table() == ScopeTable.Grow(old(Table()), size, table.Key())
    {
      limit := size * 9 / 5;
      var moved := table.AllocTable(size);
      num := num + moved;
    }

    /** Add a handle, doubling the table first when the counter has reached the limit. */
    method Add(item: IrHandle)
      requires Valid() && item !in table.cells
      modifies this, table, table.table, table.cells`link, item`link
      ensures Valid() && table.cells == old(table.cells) + {item}
      ensures Table() == ScopeTable.Add(old(Table()), item, table.Key())
    {
      if num >= limit {
        AllocTable(2 * table.table.Length);
      }
      table.Put(item);
      num := num + 1;
    }

    /** The first handle of that name in the bucket of the name. */
    method FindLocal(n: string) returns (h: Cell?<Handle>)
      requires Valid()
      ensures match ScopeTable.FindLocal(Table(), n, Name, hash)
              case None => h == null
              case Some(x) => h == x
    {
      var pos := hash(n) % table.table.Length;
      h := table.table[pos];
      ghost var k := 0;
      ghost var c := table.chains[pos];
      while h != null
        invariant k <= |c| && h == After(c, k - 1)
        invariant ScopeTable.First(c, n, Name) == ScopeTable.First(c[k..], n, Name)
        decreases |c| - k
      {
        if Name(h) == n {
          return;
        }
        assert Index(table.chains, pos, k);
        h := h.link;
        k := k + 1;
      }
    }
  }
}
