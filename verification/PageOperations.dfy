/** Mapping, unmapping and looking up one page, for tables of any depth, with what each does to
    the translation of every page. */
module PageOperations {
  import opened Words
  import opened Physical
  import opened PageTables

  // ---------------------------------------------------------------- map

  /** Flags fit for a mapping: P is set, and nothing lies in the address bits. */
  ghost predicate FlagsOk(flags: Word) {
    flags.page == 0 && Present(flags)
  }

  /** What a new non-leaf entry carries besides its frame: four-level tables add RW. */
  function DirectoryOf(depth: nat, flags: Word): Word
    requires flags.page == 0
  {
    if depth == 4 then Or(DirectoryFlags(flags), Flags(false, RW)) else DirectoryFlags(flags)
  }

  function Leaf(paddr: Word, flags: Word): Word
    requires flags.page == 0
  {
    Or(paddr, flags)
  }

  ghost function MapPage(s: Space, pn: nat, paddr: Word, flags: Word): Option<Space>
    requires flags.page == 0 && s.depth > 0
  {
    MapFrom(s, s.root, s.depth, pn, Leaf(paddr, flags), DirectoryOf(s.depth, flags), Large(flags))
  }

  /** On 64-bit words a leaf is the `or` of the address and the flags. */
  lemma LeafIsOr(paddr: bv64, flags: bv64)
    requires NoPage(flags)
    ensures Of(flags).page == 0 && Leaf(Of(paddr), Of(flags)) == Of(paddr | flags)
  {
    hide Of, NoPage;
    OfOr(paddr, flags);
  }

  lemma MaskedNoPage(flags: bv64)
    ensures NoPage(flags) ==> NoPage(flags & 0x7fff_ffff_ffff_fe7f)
    ensures NoPage(2) && LowField(2) == RW
  {
  }

  /** On 64-bit words a new non-leaf entry gets the flags without PS, G and NX, and RW added with four
      levels. */
  lemma DirectoryIsMasked(flags: bv64, depth: nat)
    requires NoPage(flags)
    ensures var d := flags & 0x7fff_ffff_ffff_fe7f;
      Of(flags).page == 0 && DirectoryOf(depth, Of(flags)) == if depth == 4 then Of(d | 2) else Of(d)
  {
    hide Of, NoPage, LowField, Flags, DirectoryFlags;
    OfDirectoryMask(flags);
    MaskedNoPage(flags);
    OfOr(flags, flags);
    OfFlags(false, 2);
    OfOr(flags & 0x7fff_ffff_ffff_fe7f, 2);
  }

  lemma LeafBits(a: bv12, b: bv12)
    requires b & P != 0
    ensures (a | b) & P != 0
    ensures b & PS != 0 ==> (a | b) & PS != 0
  {
  }

  lemma DirectoryShape(flags: Word, depth: nat)
    requires flags.page == 0
    ensures DirectoryFlags(flags).page == 0
    ensures depth == 4 ==> DirectoryOf(depth, flags) == Or(DirectoryFlags(flags), Flags(false, RW))
    ensures depth != 4 ==> DirectoryOf(depth, flags) == DirectoryFlags(flags)
  {
  }

  lemma MaskedIsDirectory(flags: Word)
    requires FlagsOk(flags)
    ensures DirectoryOk(DirectoryFlags(flags))
  {
  }

  lemma WritableIsDirectory(e: Word)
    requires DirectoryOk(e)
    ensures DirectoryOk(Or(e, Flags(false, RW)))
  {
  }

  lemma DirectoryBits(flags: Word, depth: nat)
    requires FlagsOk(flags)
    ensures DirectoryOk(DirectoryOf(depth, flags))
  {
    hide DirectoryFlags, DirectoryOk, Or, Flags;
    MaskedIsDirectory(flags);
    if depth == 4 {
      DirectoryShape(flags, depth);
      WritableIsDirectory(DirectoryFlags(flags));
    }
  }

  lemma FlagBits(paddr: Word, flags: Word, depth: nat)
    requires FlagsOk(flags)
    ensures Present(Leaf(paddr, flags)) && (Large(flags) ==> Large(Leaf(paddr, flags)))
    ensures DirectoryOk(DirectoryOf(depth, flags))
  {
    hide DirectoryOf, DirectoryOk, DirectoryFlags;
    DirectoryBits(flags, depth);
    LeafBits(paddr.low, flags.low);
  }

  lemma MapPageFromRoot(s: Space, pn: nat, paddr: Word, flags: Word)
    requires flags.page == 0 && s.depth > 0
    ensures MapPage(s, pn, paddr, flags) ==
      MapFrom(s, s.root, s.depth, pn, Leaf(paddr, flags), DirectoryOf(s.depth, flags), Large(flags))
  {
  }

  /** Mapping a page gives the old translations updated at exactly that page, or at exactly that
      2 MiB slot, whichever of the tables on the way had to be created. */
  lemma MapPageEffect(s: Space, pn: nat, paddr: Word, flags: Word)
    requires SpaceOk(s) && InSpace(s, pn) && FlagsOk(flags)
    requires Large(flags) || !Walk(s, pn).Big?
    ensures match MapPage(s, pn, paddr, flags)
      case None => true
      case Some(s') =>
        SpaceOk(s') && Extends(s, s') && Remapped(s, s', pn, Leaf(paddr, flags), Large(flags))
  {
    FlagBits(paddr, flags, s.depth);
    MapFromEffect(s, s.root, s.depth, pn, Leaf(paddr, flags), DirectoryOf(s.depth, flags), Large(flags));
  }

  // ---------------------------------------------------------------- when a map succeeds

  /** How many tables are missing on the way to a page. */
  function Missing(t: map<nat, Table>, f: nat, level: nat, pn: nat, big: bool): nat
    decreases level
  {
    if level <= 1 || (level == 2 && big) then 0
    else
      var e := Get(t, f, Index(level, pn));
      if !Present(e) then level - (if big then 2 else 1)
      else Missing(t, NextTable(e), level - 1, pn, big)
  }

  /** `n` requests for one page would all succeed. */
  ghost predicate Supplies(p: Pmm, n: nat)
    decreases n
  {
    n == 0 || (PmmAlloc(p, 1, 1).0.Some? && Supplies(PmmAlloc(p, 1, 1).1, n - 1))
  }

  /** A table created on the way is empty, so one table fewer is missing below it. */
  lemma NewTableCounts(s: Space, f: nat, level: nat, pn: nat, dir: Word, big: bool)
    requires SpaceOk(s) && f in s.place && s.place[f].level == level > 1 && s.place[f].key == Key(level, pn)
    requires !Present(Entry(s, f, level, pn)) && DirectoryOk(dir) && !(level == 2 && big)
    ensures EnsureTable(s, f, level, pn, dir).Some? <==> PmmAlloc(s.pmm, 1, 1).0.Some?
    ensures EnsureTable(s, f, level, pn, dir).Some? ==>
      var s1 := EnsureTable(s, f, level, pn, dir).value;
      && s1.pmm == PmmAlloc(s.pmm, 1, 1).1
      && Missing(s1.tables, NextTable(Entry(s1, f, level, pn)), level - 1, pn, big) + 1
         == Missing(s.tables, f, level, pn, big)
  {
    if AllocBlock(s, 1, 1).Some? {
      FreshLinkable(s, f, level, pn, dir);
      var (c, s1) := AllocBlock(s, 1, 1).value;
      assert TableAt(LinkTable(s1, f, level, pn, c, dir).tables, c) == EmptyTable();
    }
  }

  /** A map runs out of frames exactly when the allocator cannot supply the missing tables. */
  lemma {:induction false} MapFromSucceeds(s: Space, f: nat, level: nat, pn: nat, leaf: Word, dir: Word, big: bool)
    requires SpaceOk(s) && f in s.place && s.place[f].level == level > 0 && s.place[f].key == Key(level, pn)
    requires InSpace(s, pn) && DirectoryOk(dir) && (big ==> level > 1) && (big || !Walk(s, pn).Big?)
    ensures MapFrom(s, f, level, pn, leaf, dir, big).Some? <==> Supplies(s.pmm, Missing(s.tables, f, level, pn, big))
    decreases level
  {
    hide PmmAlloc, PmmOk, IsTree, TablesLive, AllocBlock, LinkTable;
    if level > 1 && !(level == 2 && big) {
      WalkReaches(s, f, pn);
      EnsureTableEffect(s, f, level, pn, dir);
      var r := EnsureTable(s, f, level, pn, dir);
      if !Present(Entry(s, f, level, pn)) {
        NewTableCounts(s, f, level, pn, dir, big);
      } else {
        assert r == Some(s);
      }
      hide EnsureTable;
      if r.Some? {
        MapFromSucceeds(r.value, NextTable(Entry(r.value, f, level, pn)), level - 1, pn, leaf, dir, big);
      }
    }
  }

  /** Trial allocations succeed exactly as long as there are clear bits in the chain. */
  lemma {:induction false} SuppliesIsFreePages(p: Pmm, n: nat)
    requires PmmOk(p)
    ensures Supplies(p, n) <==> FreePages(p.chain) >= n
    decreases n
  {
    hide PmmOk, PmmAlloc;
    if n > 0 {
      OnePageCounts(p);
      AllocKeepsOk(p, 1, 1);
      SuppliesIsFreePages(PmmAlloc(p, 1, 1).1, n - 1);
    }
  }

  /** The allocations of a map succeed exactly if there are as many free pages as tables missing on
      the way to the page. */
  lemma MapPageSucceeds(s: Space, pn: nat, paddr: Word, flags: Word)
    requires SpaceOk(s) && InSpace(s, pn) && FlagsOk(flags)
    requires Large(flags) || !Walk(s, pn).Big?
    ensures MapPage(s, pn, paddr, flags).Some? <==>
      FreePages(s.pmm.chain) >= Missing(s.tables, s.root, s.depth, pn, Large(flags))
  {
    FlagBits(paddr, flags, s.depth);
    MapFromSucceeds(s, s.root, s.depth, pn, Leaf(paddr, flags), DirectoryOf(s.depth, flags), Large(flags));
    SuppliesIsFreePages(s.pmm, Missing(s.tables, s.root, s.depth, pn, Large(flags)));
  }

  /** A map takes exactly one free page for each table that is missing on the way. */
  lemma {:induction false} MapFromTakes(s: Space, f: nat, level: nat, pn: nat, leaf: Word, dir: Word, big: bool)
    requires SpaceOk(s) && f in s.place && s.place[f].level == level > 0 && s.place[f].key == Key(level, pn)
    requires InSpace(s, pn) && DirectoryOk(dir) && (big ==> level > 1) && (big || !Walk(s, pn).Big?)
    ensures match MapFrom(s, f, level, pn, leaf, dir, big)
      case None => true
      case Some(s') => FreePages(s'.pmm.chain) + Missing(s.tables, f, level, pn, big) == FreePages(s.pmm.chain)
    decreases level
  {
    hide PmmAlloc, PmmOk, FreePages, IsTree, AllocBlock, TablesLive;
    if level > 1 && !(level == 2 && big) {
      WalkReaches(s, f, pn);
      EnsureTableEffect(s, f, level, pn, dir);
      if !Present(Entry(s, f, level, pn)) {
        NewTableCounts(s, f, level, pn, dir, big);
        OnePageCounts(s.pmm);
      }
      var r := EnsureTable(s, f, level, pn, dir);
      if r.Some? {
        MapFromTakes(r.value, NextTable(Entry(r.value, f, level, pn)), level - 1, pn, leaf, dir, big);
      }
    }
  }

  lemma MapPageTakes(s: Space, pn: nat, paddr: Word, flags: Word)
    requires SpaceOk(s) && InSpace(s, pn) && FlagsOk(flags)
    requires Large(flags) || !Walk(s, pn).Big?
    ensures match MapPage(s, pn, paddr, flags)
      case None => true
      case Some(s') =>
        FreePages(s'.pmm.chain) + Missing(s.tables, s.root, s.depth, pn, Large(flags)) == FreePages(s.pmm.chain)
  {
    FlagBits(paddr, flags, s.depth);
    MapFromTakes(s, s.root, s.depth, pn, Leaf(paddr, flags), DirectoryOf(s.depth, flags), Large(flags));
  }

  lemma {:induction false} MissingBound(t: map<nat, Table>, f: nat, level: nat, pn: nat, big: bool)
    ensures level > 0 ==> Missing(t, f, level, pn, big) < level
    decreases level
  {
    if level > 1 && !(level == 2 && big) {
      MissingBound(t, NextTable(Get(t, f, Index(level, pn))), level - 1, pn, big);
    }
  }

  /** A map takes fewer free pages than the tables have levels. */
  lemma MapPageBound(s: Space, pn: nat, paddr: Word, flags: Word)
    requires SpaceOk(s) && InSpace(s, pn) && FlagsOk(flags)
    requires (Large(flags) || !Walk(s, pn).Big?) && FreePages(s.pmm.chain) >= s.depth - 1
    ensures s.depth > 0 && MapPage(s, pn, paddr, flags).Some?
    ensures FreePages(MapPage(s, pn, paddr, flags).value.pmm.chain) + s.depth - 1 >= FreePages(s.pmm.chain)
  {
    hide MapPage, FreePages, Missing, Walk, PmmOk;
    DepthOfSpace(s);
    MissingBound(s.tables, s.root, s.depth, pn, Large(flags));
    MapPageSucceeds(s, pn, paddr, flags);
    MapPageTakes(s, pn, paddr, flags);
  }

  // ---------------------------------------------------------------- look up

  /** The entry that decides a page: the table it lies in, and its index there. */
  function EntryFrom(t: map<nat, Table>, f: nat, level: nat, pn: nat): Option<(nat, nat)>
    decreases level
  {
    if level == 0 then None
    else
      var e := Get(t, f, Index(level, pn));
      if level == 1 || (level == 2 && Large(e)) then Some((f, Index(level, pn)))
      else if !Present(e) then None
      else EntryFrom(t, NextTable(e), level - 1, pn)
  }

  function PageEntry(s: Space, pn: nat): Option<(nat, nat)> {
    EntryFrom(s.tables, s.root, s.depth, pn)
  }

  /** The looked-up entry is the one the walk ends at; if there is none, the page is unmapped. */
  lemma {:induction false} EntryDecides(t: map<nat, Table>, f: nat, level: nat, pn: nat)
    ensures match EntryFrom(t, f, level, pn)
      case None => WalkFrom(t, f, level, pn) == Unmapped
      case Some((g, i)) =>
        && i < 512
        && var e := Get(t, g, i);
        WalkFrom(t, f, level, pn) in {Unmapped, Small(e), Big(e)}
        && (Present(e) <==> WalkFrom(t, f, level, pn) != Unmapped)
    decreases level
  {
    if level > 1 {
      EntryDecides(t, NextTable(Get(t, f, Index(level, pn))), level - 1, pn);
    }
  }

  // ---------------------------------------------------------------- unmap

  /** Clears P of the entry that decides a page; answers how many bytes that entry stands for. */
  function UnmapFrom(s: Space, f: nat, level: nat, pn: nat): (nat, Space)
    decreases level
  {
    if level == 0 then (0, s)
    else
      var e := Entry(s, f, level, pn);
      if level == 1 then (0x1000, StoreLeaf(s, f, 1, pn, ClearPresent(e)))
      else if level == 2 && Large(e) then (0x200000, StoreLeaf(s, f, 2, pn, ClearPresent(e)))
      else if !Present(e) then (0, s)
      else UnmapFrom(s, NextTable(e), level - 1, pn)
  }

  function UnmapPage(s: Space, pn: nat): (nat, Space) {
    UnmapFrom(s, s.root, s.depth, pn)
  }

  /** The old translations without one page, or without the 2 MiB slot it lay in. */
  ghost predicate Dropped(s: Space, s': Space, pn: nat) {
    forall q: nat :: InSpace(s, q) ==>
      Walk(s', q) == if (if Walk(s, pn).Big? then q / 512 == pn / 512 else q == pn) then Unmapped else Walk(s, q)
  }

  lemma UnmapAtLeaf(s: Space, f: nat, pn: nat)
    requires SpaceOk(s) && f in s.place && s.place[f].key == Key(s.place[f].level, pn) && InSpace(s, pn)
    requires s.place[f].level == 1 || (s.place[f].level == 2 && Large(Entry(s, f, 2, pn)))
    ensures var level := s.place[f].level;
      var s' := StoreLeaf(s, f, level, pn, ClearPresent(Entry(s, f, level, pn)));
      && SpaceOk(s') && Extends(s, s') && Dropped(s, s', pn)
  {
    var level := s.place[f].level;
    var e := Entry(s, f, level, pn);
    assert (e.low & !P) & P == 0;
    StoreLeafKeepsTree(s, f, pn, ClearPresent(e));
    StoreLeafEffect(s, f, pn, ClearPresent(e));
    WalkReaches(s, f, pn);
    KeyValues(pn);
    forall q: nat | InSpace(s, q)
      ensures Key(level - 1, q) == if level == 1 then q else q / 512
      ensures level == 2 && q / 512 == pn / 512 && !Present(e) ==> Walk(s, q) == Unmapped
    {
      KeyValues(q);
      if level == 2 && q / 512 == pn / 512 {
        WalkReaches(s, f, q);
      }
    }
  }

  /** How many bytes the entry that decides a page stands for; 0 if the way to it is cut off. */
  ghost function EntrySize(s: Space, entry: Option<(nat, nat)>): nat {
    match entry
    case None => 0
    case Some((f, _)) => if f in s.place && s.place[f].level == 2 then 0x200000 else 0x1000
  }

  lemma {:induction false} UnmapFromEffect(s: Space, f: nat, level: nat, pn: nat)
    requires SpaceOk(s) && InSpace(s, pn)
    requires f in s.place && s.place[f].level == level && s.place[f].key == Key(level, pn)
    ensures var (size, s') := UnmapFrom(s, f, level, pn);
      && SpaceOk(s') && Extends(s, s') && s'.pmm == s.pmm && s'.bytes == s.bytes
      && Dropped(s, s', pn)
      && (size == 0 ==> s' == s && Walk(s, pn) == Unmapped)
      && (Walk(s, pn).Small? ==> size == 0x1000) && (Walk(s, pn).Big? ==> size == 0x200000)
      && size == EntrySize(s, EntryFrom(s.tables, f, level, pn))
    decreases level
  {
    assert Hangs(s, f);
    WalkReaches(s, f, pn);
    var e := Entry(s, f, level, pn);
    if level == 1 || (level == 2 && Large(e)) {
      UnmapAtLeaf(s, f, pn);
    } else if Present(e) {
      assert Leads(s, f, Index(level, pn));
      UnmapFromEffect(s, NextTable(e), level - 1, pn);
    }
  }

  /** Unmapping drops the page, or the whole 2 MiB slot if the page lies in one, and nothing
      else. The answer is the size of the entry that decides the page, whether or not that entry was
      present; it is 0 exactly if there is no such entry. */
  lemma UnmapPageEffect(s: Space, pn: nat)
    requires SpaceOk(s) && InSpace(s, pn)
    ensures var (size, s') := UnmapPage(s, pn);
      && SpaceOk(s') && Extends(s, s') && s'.pmm == s.pmm && s'.bytes == s.bytes
      && Dropped(s, s', pn)
      && (size == 0 ==> s' == s && Walk(s, pn) == Unmapped)
      && (Walk(s, pn).Small? ==> size == 0x1000) && (Walk(s, pn).Big? ==> size == 0x200000)
      && size == EntrySize(s, PageEntry(s, pn))
  {
    UnmapFromEffect(s, s.root, s.depth, pn);
  }

  lemma {:induction false} UnmapFromClears(s: Space, f: nat, level: nat, pn: nat, g: nat, j: nat)
    requires j < 512
    ensures Get(UnmapFrom(s, f, level, pn).1.tables, g, j) ==
      if EntryFrom(s.tables, f, level, pn) == Some((g, j)) then ClearPresent(Get(s.tables, g, j))
      else Get(s.tables, g, j)
    decreases level
  {
    hide ClearPresent, NextTable, Present, Large;
    if level > 0 {
      UnmapFromClears(s, NextTable(Entry(s, f, level, pn)), level - 1, pn, g, j);
    }
  }

  /** An unmap clears P in the one entry that decides the page and changes no other bit of any table. */
  lemma UnmapClearsOneBit(s: Space, pn: nat, g: nat, j: nat)
    requires j < 512
    ensures Get(UnmapPage(s, pn).1.tables, g, j) ==
      if PageEntry(s, pn) == Some((g, j)) then ClearPresent(Get(s.tables, g, j)) else Get(s.tables, g, j)
  {
    UnmapFromClears(s, s.root, s.depth, pn, g, j);
  }

  // ---------------------------------------------------------------- the shape of the tree

  /** No two tables hang in the same place. */
  lemma {:induction false} SamePlaceSameTable(s: Space, f: nat, g: nat)
    requires IsTree(s) && f in s.place && g in s.place
    requires s.place[f].level == s.place[g].level && s.place[f].key == s.place[g].key
    ensures f == g
    decreases s.depth - s.place[f].level
  {
    assert Hangs(s, f) && Hangs(s, g);
    if s.place[f].level < s.depth {
      SamePlaceSameTable(s, s.place[f].parent, s.place[g].parent);
    }
  }

  /** Entry `i` of table `g` leads to table `f`. */
  ghost predicate Refers(s: Space, g: nat, i: nat, f: nat) {
    && g in s.place && i < 512
    && IsLink(s.place[g].level, Get(s.tables, g, i)) && NextTable(Get(s.tables, g, i)) == f
  }

  /** Every table other than the root is referred to by exactly one entry of one table, the root
      by none, and an entry refers to tables only. */
  lemma ReferredOnce(s: Space, f: nat)
    requires IsTree(s)
    ensures f in s.place && f != s.root ==> Refers(s, s.place[f].parent, s.place[f].key % 512, f)
    ensures forall g: nat, i: nat :: Refers(s, g, i, f) ==>
      f in s.place && f != s.root && g == s.place[f].parent && i == s.place[f].key % 512
  {
    if f in s.place {
      assert Hangs(s, f);
    }
    forall g: nat, i: nat | Refers(s, g, i, f)
      ensures f in s.place && f != s.root && g == s.place[f].parent && i == s.place[f].key % 512
    {
      assert Leads(s, g, i) && Hangs(s, g);
    }
  }
}
