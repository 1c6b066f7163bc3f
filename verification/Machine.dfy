/** The machine's physical memory together with its page allocator. */
module Machine {
  import opened Words
  import opened Physical
  import opened PhysicalAllocator
  import opened PageTables

  class Memory {
    const modules: seq<PmmModule>
    var tables: map<nat, Table>
    var bytes: map<nat, PageBytes>
    ghost var live: set<Block>

    ghost function Bitmaps(): (bs: set<array<bool>>)
      ensures forall k :: 0 <= k < |modules| ==> modules[k].bitmap in bs
    {
      set m | m in modules :: m.bitmap
    }

    /** No two modules of the chain share state. */
    ghost predicate Distinct() {
      forall j, k :: 0 <= j < k < |modules| ==> modules[j] != modules[k] && modules[j].bitmap != modules[k].bitmap
    }

    ghost function Chain(): (c: seq<Module>)
      reads modules, Bitmaps()
      ensures |c| == |modules|
      ensures forall k :: 0 <= k < |modules| ==> c[k] == modules[k].State()
    {
      seq(|modules|, k requires 0 <= k < |modules| reads modules, Bitmaps() => modules[k].State())
    }

    /** One module serves the request; the others are not touched. */
    method AllocAt(k: nat, cnt: nat, align: nat) returns (r: Option<nat>)
      requires Distinct() && k < |modules| && ModuleOk(Chain()[k]) && cnt > 0 && align > 0
      modifies modules, Bitmaps()
      ensures var (p, m) := ModuleAlloc(old(Chain())[k], cnt, align);
        Chain() == old(Chain())[k := m] && r == if p.Some? then Some(p.value * PAGE_SIZE) else None
    {
      r := modules[k].Alloc(cnt, align);
    }

    method AllocFromChain(cnt: nat, align: nat) returns (r: Option<nat>)
      requires Distinct() && ChainOk(Chain()) && cnt > 0 && align > 0
      modifies modules, Bitmaps()
      ensures var (p, c) := ChainAlloc(old(Chain()), cnt, align);
        Chain() == c && r == if p.Some? then Some(p.value * PAGE_SIZE) else None
    {
      ghost var c := Chain();
      var k := 0;
      while k < |modules|
        invariant k <= |modules|
        invariant Chain() == c && FirstFit(c, cnt, align, 0) == FirstFit(c, cnt, align, k)
      {
        r := AllocAt(k, cnt, align);
        if r.Some? {
          return;
        }
        k := k + 1;
      }
      r := None;
    }

    /** Serves a request from the first module that can and zeroes what it hands out; `None` is
        the address -1. */
    method Alloc(cnt: nat, align: nat) returns (r: Option<nat>)
      requires Distinct() && ChainOk(Chain()) && cnt > 0 && align > 0
      modifies this, modules, Bitmaps()
      ensures var (p, s) := PmmAlloc(Pmm(old(Chain()), old(live)), cnt, align);
        && Pmm(Chain(), live) == s
        && r == (if p.Some? then Some(p.value * PAGE_SIZE) else None)
        && tables == (if p.Some? then Filled(old(tables), p.value, cnt, EmptyTable()) else old(tables))
        && bytes == (if p.Some? then Filled(old(bytes), p.value, cnt, ZeroPage()) else old(bytes))
    {
      hide ModuleAlloc, FirstFit, ChainOk;
      ghost var c := Chain();
      r := AllocFromChain(cnt, align);
      ghost var c' := Chain();
      if r.Some? {
        var p := r.value / PAGE_SIZE;
        assert ChainAlloc(c, cnt, align).0 == Some(p);
        live := live + {Block(p, cnt)};
        Zero(p, cnt);
        assert Chain() == c';
      }
    }

    method Zero(p: nat, cnt: nat)
      modifies `tables, `bytes
      ensures tables == Filled(old(tables), p, cnt, EmptyTable())
      ensures bytes == Filled(old(bytes), p, cnt, ZeroPage())
    {
      for i := 0 to cnt
        invariant tables == Filled(old(tables), p, i, EmptyTable())
        invariant bytes == Filled(old(bytes), p, i, ZeroPage())
      {
        tables := tables[p + i := EmptyTable()];
        bytes := bytes[p + i := ZeroPage()];
      }
    }

    /** Hands a block back to the first module whose guard accepts it. */
    method Free(base: nat, cnt: nat)
      requires Distinct()
      modifies modules, Bitmaps()
      ensures Chain() == ChainFree(old(Chain()), base, cnt)
    {
      ghost var c := Chain();
      var k := 0;
      while k < |modules|
        invariant k <= |modules|
        invariant Chain() == c && Route(c, base, cnt, 0) == Route(c, base, cnt, k)
      {
        var m := modules[k];
        if base >= m.base && m.base + cnt * PAGE_SIZE <= m.base + m.bitmap.Length * PAGE_SIZE {
          m.Free(base - m.base, cnt);
          assert Chain() == c[k := ModuleFree(c[k], base - m.base, cnt)];
          return;
        }
        k := k + 1;
      }
    }
  }
}
