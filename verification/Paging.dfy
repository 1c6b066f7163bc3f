/** The hand-unrolled four- and five-level paging routines, working in place on the tables in
    memory. Each is shown to do what the generic operation of its depth does. */
module Paging {
  import opened Words
  import opened Physical
  import opened PageTables
  import opened PageOperations
  import opened TableIndices
  import opened Machine

  /** A table on the way to a page can be read, and the table its entry leads to is on the way. */
  lemma PathReadable(s: Space, f: nat, level: nat, pn: nat)
    requires IsTree(s) && f in s.place && s.place[f].level == level > 0 && s.place[f].key == Key(level, pn)
    ensures f in s.tables
    ensures var e := Entry(s, f, level, pn);
      IsLink(level, e) ==>
        && NextTable(e) in s.place && s.place[NextTable(e)].level == level - 1
        && s.place[NextTable(e)].key == Key(level - 1, pn)
  {
    if IsLink(level, Entry(s, f, level, pn)) {
      assert Leads(s, f, Index(level, pn));
    }
  }

  /** The page that the five-level unmap works on: the fourth-level index stands in for the
      fifth-level one. */
  function MisreadPage(vaddr: nat): nat {
    var ix := ComputeTableIndices(vaddr);
    FromDigits(ix.pml4, ix.pml4, ix.pml3, ix.pml2, ix.pml1)
  }

  /** The page that the unmap routine for a depth works on. */
  function UnmapTarget(depth: nat, vaddr: nat): nat {
    if depth == 4 then PageNumber(4, vaddr) else MisreadPage(vaddr)
  }

  lemma {:induction false} EntryReaches(s: Space, f: nat, pn: nat)
    requires IsTree(s) && f in s.place && s.place[f].key == Key(s.place[f].level, pn) && InSpace(s, pn)
    ensures PageEntry(s, pn) == EntryFrom(s.tables, f, s.place[f].level, pn)
    decreases s.depth - s.place[f].level
  {
    assert Hangs(s, f);
    if s.place[f].level < s.depth {
      EntryReaches(s, s.place[f].parent, pn);
    }
  }

  /** A last-level table on the way to a page holds its entry. */
  lemma EntryOnPath(s: Space, f: nat, pn: nat)
    requires IsTree(s) && f in s.place && s.place[f].level == 1 && s.place[f].key == Key(1, pn) && InSpace(s, pn)
    ensures PageEntry(s, pn) == Some((f, Index(1, pn)))
  {
    EntryReaches(s, f, pn);
  }

  lemma RootOnPath(s: Space, pn: nat)
    requires SpaceOk(s) && InSpace(s, pn)
    ensures s.root in s.place && s.place[s.root].level == s.depth && s.place[s.root].key == Key(s.depth, pn)
  {
  }

  class PageTable {
    const memory: Memory
    const depth: nat
    var pmlt: nat
    ghost var place: map<nat, Place>

    constructor (memory: Memory, depth: nat, pmlt: nat, ghost place: map<nat, Place>)
      ensures this.memory == memory && this.depth == depth && this.pmlt == pmlt && this.place == place
    {
      this.memory, this.depth, this.pmlt, this.place := memory, depth, pmlt, place;
    }

    ghost function State(): Space
      reads this, memory, memory.modules, memory.Bitmaps()
    {
      Space(Pmm(memory.Chain(), memory.live), memory.tables, memory.bytes, depth, pmlt, place)
    }

    ghost predicate Valid()
      reads this, memory, memory.modules, memory.Bitmaps()
    {
      memory.Distinct() && SpaceOk(State())
    }

    /** Table `f` lies on the way to a page. */
    ghost predicate OnPath(f: nat, level: nat, pn: nat)
      reads this
    {
      f in place && place[f].level == level && place[f].key == Key(level, pn) && Key(depth, pn) == 0
    }

    /** One zeroed frame from the allocator. */
    method AllocFrame() returns (c: nat)
      requires memory.Distinct() && ChainOk(memory.Chain()) && AllocBlock(State(), 1, 1).Some?
      modifies memory, memory.modules, memory.Bitmaps()
      ensures AllocBlock(old(State()), 1, 1) == Some((c, State()))
      ensures memory.tables == old(memory.tables)[c := EmptyTable()]
    {
      var a := memory.Alloc(1, 1);
      c := a.value / PAGE_SIZE;
    }

    /** Hangs a new table into an entry that is not present. */
    method NewTable(f: nat, level: nat, index: nat, dir: Word, ghost pn: nat)
      requires memory.Distinct() && ChainOk(memory.Chain()) && f in memory.tables && level > 1 && dir.page == 0
      requires index == Index(level, pn) && !Present(memory.tables[f][index])
      requires EnsureTable(State(), f, level, pn, dir).Some?
      modifies `place, memory, memory.modules, memory.Bitmaps()
      ensures EnsureTable(old(State()), f, level, pn, dir) == Some(State())
    {
      hide AllocBlock, ChainOk;
      var c := AllocFrame();
      memory.tables := memory.tables[f := memory.tables[f][index := Or(Addr(c), dir)]];
      memory.bytes := memory.bytes - {c};
      place := place[c := Place(level - 1, Key(level - 1, pn), f)];
    }

    /** Follows the entry for a page to the next table, allocating that table if the entry is not
        present. */
    method Descend(f: nat, level: nat, index: nat, dir: Word, ghost pn: nat) returns (next: nat)
      requires Valid() && OnPath(f, level, pn) && level > 1 && index == Index(level, pn) && DirectoryOk(dir)
      requires level == 2 ==> !Walk(State(), pn).Big?
      requires EnsureTable(State(), f, level, pn, dir).Some?
      modifies `place, memory, memory.modules, memory.Bitmaps()
      ensures EnsureTable(old(State()), f, level, pn, dir) == Some(State())
      ensures Valid() && next == NextTable(Entry(State(), f, level, pn)) && OnPath(next, level - 1, pn)
      ensures Walk(State(), pn) == old(Walk(State(), pn))
    {
      ghost var s := State();
      WalkReaches(s, f, pn);
      EnsureTableEffect(s, f, level, pn, dir);
      if !Present(memory.tables[f][index]) {
        NewTable(f, level, index, dir, pn);
      }
      next := NextTable(memory.tables[f][index]);
    }
  
    /** Stores an entry that leads nowhere. */
    method StoreEntry(f: nat, level: nat, index: nat, e: Word, ghost pn: nat)
      requires f in memory.tables && level > 0 && index == Index(level, pn)
      modifies `place, memory`tables
      ensures State() == StoreLeaf(old(State()), f, level, pn, e)
    {
      ghost var x := memory.tables[f][index];
      memory.tables := memory.tables[f := memory.tables[f][index := e]];
      place := if IsLink(level, x) then place - {NextTable(x)} else place;
    }

    /** What a caller of the map routines must know: the flags are fit for a mapping, a 4 KiB map
        does not land in a present 2 MiB slot, and no allocation on the way fails. */
    ghost predicate Mappable(vaddr: nat, paddr: Word, flags: Word)
      reads this, memory, memory.modules, memory.Bitmaps()
    {
      && Valid() && FlagsOk(flags)
      && (Large(flags) || !Walk(State(), PageNumber(depth, vaddr)).Big?)
      && depth > 0 && MapPage(State(), PageNumber(depth, vaddr), paddr, flags).Some?
    }

    /** The map routines from the second level down: a 2 MiB leaf is stored here, a 4 KiB leaf one
        level further. */
    method MapSecondLevel(pml2: nat, ix: Indices, paddr: Word, flags: Word, dir: Word, ghost pn: nat)
      returns (r: Option<(nat, nat)>)
      requires Valid() && OnPath(pml2, 2, pn) && DirectoryOk(dir) && FlagsOk(flags)
      requires ix.pml2 == Index(2, pn) && ix.pml1 == Index(1, pn)
      requires Large(flags) || !Walk(State(), pn).Big?
      requires MapFrom(State(), pml2, 2, pn, Leaf(paddr, flags), dir, Large(flags)).Some?
      modifies `place, memory, memory.modules, memory.Bitmaps()
      ensures MapFrom(old(State()), pml2, 2, pn, Leaf(paddr, flags), dir, Large(flags)) == Some(State())
      ensures Valid() && r == if Large(flags) then None else PageEntry(State(), pn)
    {
      FlagBits(paddr, flags, depth);
      MapFromEffect(State(), pml2, 2, pn, Leaf(paddr, flags), dir, Large(flags));
      if Large(flags) {
        StoreEntry(pml2, 2, ix.pml2, Or(paddr, flags), pn);
        return None;
      }
      var pml1 := Descend(pml2, 2, ix.pml2, dir, pn);
      StoreEntry(pml1, 1, ix.pml1, Or(paddr, flags), pn);
      EntryOnPath(State(), pml1, pn);
      return Some((pml1, ix.pml1));
    }

    method MapThirdLevel(pml3: nat, ix: Indices, paddr: Word, flags: Word, dir: Word, ghost pn: nat)
      returns (r: Option<(nat, nat)>)
      requires Valid() && OnPath(pml3, 3, pn) && DirectoryOk(dir) && FlagsOk(flags)
      requires ix.pml3 == Index(3, pn) && ix.pml2 == Index(2, pn) && ix.pml1 == Index(1, pn)
      requires Large(flags) || !Walk(State(), pn).Big?
      requires MapFrom(State(), pml3, 3, pn, Leaf(paddr, flags), dir, Large(flags)).Some?
      modifies `place, memory, memory.modules, memory.Bitmaps()
      ensures MapFrom(old(State()), pml3, 3, pn, Leaf(paddr, flags), dir, Large(flags)) == Some(State())
      ensures Valid() && r == if Large(flags) then None else PageEntry(State(), pn)
    {
      hide MapFrom, EnsureTable, SpaceOk, Walk;
      MapDescends(State(), pml3, 3, pn, Leaf(paddr, flags), dir, Large(flags));
      var pml2 := Descend(pml3, 3, ix.pml3, dir, pn);
      r := MapSecondLevel(pml2, ix, paddr, flags, dir, pn);
    }

    method MapFourthLevel(pml4: nat, ix: Indices, paddr: Word, flags: Word, dir: Word, ghost pn: nat)
      returns (r: Option<(nat, nat)>)
      requires Valid() && OnPath(pml4, 4, pn) && DirectoryOk(dir) && FlagsOk(flags)
      requires ix.pml4 == Index(4, pn) && ix.pml3 == Index(3, pn) && ix.pml2 == Index(2, pn) && ix.pml1 == Index(1, pn)
      requires Large(flags) || !Walk(State(), pn).Big?
      requires MapFrom(State(), pml4, 4, pn, Leaf(paddr, flags), dir, Large(flags)).Some?
      modifies `place, memory, memory.modules, memory.Bitmaps()
      ensures MapFrom(old(State()), pml4, 4, pn, Leaf(paddr, flags), dir, Large(flags)) == Some(State())
      ensures Valid() && r == if Large(flags) then None else PageEntry(State(), pn)
    {
      hide MapFrom, EnsureTable, SpaceOk, Walk;
      MapDescends(State(), pml4, 4, pn, Leaf(paddr, flags), dir, Large(flags));
      var pml3 := Descend(pml4, 4, ix.pml4, dir, pn);
      r := MapThirdLevel(pml3, ix, paddr, flags, dir, pn);
    }

    /** Answers where the last-level entry lies; nothing (the null pointer) for a 2 MiB mapping. */
    method Pml4MapPage(vaddr: nat, paddr: Word, flags: Word) returns (r: Option<(nat, nat)>)
      requires depth == 4 && Mappable(vaddr, paddr, flags)
      modifies `place, memory, memory.modules, memory.Bitmaps()
      ensures Valid() && MapPage(old(State()), PageNumber(4, vaddr), paddr, flags) == Some(State())
      ensures r == if Large(flags) then None else PageEntry(State(), PageNumber(4, vaddr))
    {
      hide MapFrom, EnsureTable, SpaceOk, Walk, PageNumber, ComputeTableIndices, Index, Key, PageEntry;
      hide MapPage, DirectoryOf, DirectoryOk, DirectoryFlags, Or, Flags, Large, Leaf;
      var ix := ComputeTableIndices(vaddr);
      ghost var pn := PageNumber(4, vaddr);
      IndicesAreDigits(vaddr, 4);
      DirectoryShape(flags, 4);
      DirectoryBits(flags, 4);
      MapPageFromRoot(State(), pn, paddr, flags);
      var dir := Or(DirectoryFlags(flags), Flags(false, RW));
      RootOnPath(State(), pn);
      r := MapFourthLevel(pmlt, ix, paddr, flags, dir, pn);
    }

    /** The same with one level more, and without adding RW to the new non-leaf entries. */
    method Pml5MapPage(vaddr: nat, paddr: Word, flags: Word) returns (r: Option<(nat, nat)>)
      requires depth == 5 && Mappable(vaddr, paddr, flags)
      modifies `place, memory, memory.modules, memory.Bitmaps()
      ensures Valid() && MapPage(old(State()), PageNumber(5, vaddr), paddr, flags) == Some(State())
      ensures r == if Large(flags) then None else PageEntry(State(), PageNumber(5, vaddr))
    {
      hide MapFrom, EnsureTable, SpaceOk, Walk, PageNumber, ComputeTableIndices, Index, Key, PageEntry;
      hide MapPage, DirectoryOf, DirectoryOk, DirectoryFlags, Or, Flags, Large, Leaf;
      var ix := ComputeTableIndices(vaddr);
      ghost var pn := PageNumber(5, vaddr);
      IndicesAreDigits(vaddr, 5);
      DirectoryShape(flags, 5);
      DirectoryBits(flags, 5);
      MapPageFromRoot(State(), pn, paddr, flags);
      var dir := DirectoryFlags(flags);
      RootOnPath(State(), pn);
      MapDescends(State(), pmlt, 5, pn, Leaf(paddr, flags), dir, Large(flags));
      var pml4 := Descend(pmlt, 5, ix.pml5, dir, pn);
      r := MapFourthLevel(pml4, ix, paddr, flags, dir, pn);
    }

    /** The map routine for the depth in use. */
    method Map(vaddr: nat, paddr: Word, flags: Word) returns (r: Option<(nat, nat)>)
      requires (depth == 4 || depth == 5) && Mappable(vaddr, paddr, flags)
      modifies `place, memory, memory.modules, memory.Bitmaps()
      ensures Valid() && MapPage(old(State()), PageNumber(depth, vaddr), paddr, flags) == Some(State())
      ensures r == if Large(flags) then None else PageEntry(State(), PageNumber(depth, vaddr))
    {
      hide SpaceOk, MapPage;
      if depth == 4 {
        r := Pml4MapPage(vaddr, paddr, flags);
      } else {
        r := Pml5MapPage(vaddr, paddr, flags);
      }
    }

    // ---------------------------------------------------------------- look up

    /** Answers where the entry that decides a page lies, if there is one. */
    method Pml4PageEntry(vaddr: nat) returns (r: Option<(nat, nat)>)
      requires depth == 4 && Valid()
      ensures r == PageEntry(State(), PageNumber(4, vaddr))
    {
      var ix := ComputeTableIndices(vaddr);
      ghost var pn := PageNumber(4, vaddr);
      IndicesAreDigits(vaddr, 4);
      PathReadable(State(), pmlt, 4, pn);
      if !Present(memory.tables[pmlt][ix.pml4]) {
        return None;
      }
      var pml3 := NextTable(memory.tables[pmlt][ix.pml4]);
      r := EntryFromThird(pml3, ix, pn);
    }

    method EntryFromThird(pml3: nat, ix: Indices, ghost pn: nat) returns (r: Option<(nat, nat)>)
      requires Valid() && OnPath(pml3, 3, pn)
      requires ix.pml3 == Index(3, pn) && ix.pml2 == Index(2, pn) && ix.pml1 == Index(1, pn)
      ensures r == EntryFrom(memory.tables, pml3, 3, pn)
    {
      PathReadable(State(), pml3, 3, pn);
      if !Present(memory.tables[pml3][ix.pml3]) {
        return None;
      }
      var pml2 := NextTable(memory.tables[pml3][ix.pml3]);
      PathReadable(State(), pml2, 2, pn);
      if Large(memory.tables[pml2][ix.pml2]) {
        return Some((pml2, ix.pml2));
      }
      if !Present(memory.tables[pml2][ix.pml2]) {
        return None;
      }
      var pml1 := NextTable(memory.tables[pml2][ix.pml2]);
      return Some((pml1, ix.pml1));
    }

    method Pml5PageEntry(vaddr: nat) returns (r: Option<(nat, nat)>)
      requires depth == 5 && Valid()
      ensures r == PageEntry(State(), PageNumber(5, vaddr))
    {
      var ix := ComputeTableIndices(vaddr);
      ghost var pn := PageNumber(5, vaddr);
      IndicesAreDigits(vaddr, 5);
      PathReadable(State(), pmlt, 5, pn);
      if !Present(memory.tables[pmlt][ix.pml5]) {
        return None;
      }
      var pml4 := NextTable(memory.tables[pmlt][ix.pml5]);
      PathReadable(State(), pml4, 4, pn);
      if !Present(memory.tables[pml4][ix.pml4]) {
        return None;
      }
      var pml3 := NextTable(memory.tables[pml4][ix.pml4]);
      r := EntryFromThird(pml3, ix, pn);
    }

    // ---------------------------------------------------------------- unmap

    method UnmapFromThird(pml3: nat, ix: Indices, ghost pn: nat) returns (size: nat)
      requires Valid() && OnPath(pml3, 3, pn)
      requires ix.pml3 == Index(3, pn) && ix.pml2 == Index(2, pn) && ix.pml1 == Index(1, pn)
      modifies `place, memory`tables
      ensures (size, State()) == UnmapFrom(old(State()), pml3, 3, pn)
    {
      PathReadable(State(), pml3, 3, pn);
      if !Present(memory.tables[pml3][ix.pml3]) {
        return 0;
      }
      var pml2 := NextTable(memory.tables[pml3][ix.pml3]);
      PathReadable(State(), pml2, 2, pn);
      if Large(memory.tables[pml2][ix.pml2]) {
        StoreEntry(pml2, 2, ix.pml2, ClearPresent(memory.tables[pml2][ix.pml2]), pn);
        return 0x200000;
      }
      if !Present(memory.tables[pml2][ix.pml2]) {
        return 0;
      }
      var pml1 := NextTable(memory.tables[pml2][ix.pml2]);
      PathReadable(State(), pml1, 1, pn);
      StoreEntry(pml1, 1, ix.pml1, ClearPresent(memory.tables[pml1][ix.pml1]), pn);
      return 0x1000;
    }

    method Pml4UnmapPage(vaddr: nat) returns (size: nat)
      requires depth == 4 && Valid()
      modifies `place, memory`tables
      ensures Valid() && (size, State()) == UnmapPage(old(State()), PageNumber(4, vaddr))
    {
      var ix := ComputeTableIndices(vaddr);
      ghost var pn := PageNumber(4, vaddr);
      IndicesAreDigits(vaddr, 4);
      UnmapPageEffect(State(), pn);
      PathReadable(State(), pmlt, 4, pn);
      if !Present(memory.tables[pmlt][ix.pml4]) {
        return 0;
      }
      var pml3 := NextTable(memory.tables[pmlt][ix.pml4]);
      size := UnmapFromThird(pml3, ix, pn);
    }

    /** Looks into the root with the fourth-level index, so it unmaps another page unless the two
        top indices agree. */
    method Pml5UnmapPage(vaddr: nat) returns (size: nat)
      requires depth == 5 && Valid()
      modifies `place, memory`tables
      ensures Valid() && (size, State()) == UnmapPage(old(State()), MisreadPage(vaddr))
    {
      var ix := ComputeTableIndices(vaddr);
      ghost var pn := MisreadPage(vaddr);
      DigitsOf(ix.pml4, ix.pml4, ix.pml3, ix.pml2, ix.pml1);
      UnmapPageEffect(State(), pn);
      PathReadable(State(), pmlt, 5, pn);
      if !Present(memory.tables[pmlt][ix.pml4]) {
        return 0;
      }
      var pml4 := NextTable(memory.tables[pmlt][ix.pml4]);
      PathReadable(State(), pml4, 4, pn);
      if !Present(memory.tables[pml4][ix.pml4]) {
        return 0;
      }
      var pml3 := NextTable(memory.tables[pml4][ix.pml4]);
      size := UnmapFromThird(pml3, ix, pn);
    }

    /** The unmap routine for the depth in use. */
    method Unmap(vaddr: nat) returns (size: nat)
      requires (depth == 4 || depth == 5) && Valid()
      modifies `place, memory`tables
      ensures Valid() && (size, State()) == UnmapPage(old(State()), UnmapTarget(depth, vaddr))
    {
      hide SpaceOk, UnmapPage;
      if depth == 4 {
        size := Pml4UnmapPage(vaddr);
      } else {
        size := Pml5UnmapPage(vaddr);
      }
    }
  }

  // ---------------------------------------------------------------- the five-level unmap

  /** A five-level unmap of a mapped page unmaps it if and only if the two top indices agree;
      otherwise that page keeps its translation. */
  lemma FiveLevelUnmapHits(s: Space, vaddr: nat)
    requires SpaceOk(s) && s.depth == 5 && Walk(s, PageNumber(5, vaddr)) != Unmapped
    ensures var ix, s' := ComputeTableIndices(vaddr), UnmapPage(s, MisreadPage(vaddr)).1;
      && (ix.pml5 == ix.pml4 ==> Walk(s', PageNumber(5, vaddr)) == Unmapped)
      && (ix.pml5 != ix.pml4 ==> Walk(s', PageNumber(5, vaddr)) == Walk(s, PageNumber(5, vaddr)))
  {
    var ix := ComputeTableIndices(vaddr);
    var pn, bad := PageNumber(5, vaddr), MisreadPage(vaddr);
    PageNumberDigits(vaddr);
    DigitsOf(ix.pml5, ix.pml4, ix.pml3, ix.pml2, ix.pml1);
    DigitsOf(ix.pml4, ix.pml4, ix.pml3, ix.pml2, ix.pml1);
    KeyValues(pn);
    KeyValues(bad);
    UnmapPageEffect(s, bad);
  }

  // ---------------------------------------------------------------- five levels over four

  /** A walk of four levels looks at the low 36 bits of the page number only. */
  lemma {:induction false} WalkLooksAtDigits(t: map<nat, Table>, f: nat, level: nat, p: nat, q: nat)
    requires forall l: nat :: 0 < l <= level ==> Index(l, p) == Index(l, q)
    ensures WalkFrom(t, f, level, p) == WalkFrom(t, f, level, q)
    decreases level
  {
    if level > 0 {
      WalkLooksAtDigits(t, NextTable(Get(t, f, Index(level, p))), level - 1, p, q);
    }
  }

  /** The five-level walk of an address is the four-level walk of the same address in the subtree
      that the fifth-level index selects. */
  lemma FiveLevelsAreFourBelow(t: map<nat, Table>, root: nat, vaddr: nat)
    ensures var e := Get(t, root, ComputeTableIndices(vaddr).pml5);
      WalkFrom(t, root, 5, PageNumber(5, vaddr)) ==
        if Present(e) then WalkFrom(t, NextTable(e), 4, PageNumber(4, vaddr)) else Unmapped
  {
    var p, q := PageNumber(5, vaddr), PageNumber(4, vaddr);
    IndicesAreDigits(vaddr, 5);
    IndicesAreDigits(vaddr, 4);
    forall l: nat | 0 < l <= 4 ensures Index(l, p) == Index(l, q) {
      assert l == 1 || l == 2 || l == 3 || l == 4;
    }
    WalkLooksAtDigits(t, NextTable(Get(t, root, Index(5, p))), 4, p, q);
  }
}
