/** Concrete runs on a small memory that show where the paging routines do not do what one would
    expect. */
module PagingWitnesses {
  import opened Words
  import opened Physical
  import opened PageTables
  import opened PageOperations
  import opened TableIndices
  import opened Paging
  import opened Rights
  import opened Virtual
  import opened DirectMap
  import opened MemoryRuns
  import opened RightsHistory

  /** Sixteen free pages from 1 MiB on. */
  function SmallMemory(depth: nat): Space {
    Bare(Pmm([Module(0x10_0000, seq(16, _ => false), 0)], {}), map[], map[], depth)
  }

  lemma SmallMemoryOk(depth: nat)
    ensures PmmOk(SmallMemory(depth).pmm) && FreePages(SmallMemory(depth).pmm.chain) == 16
  {
    var m := Module(0x10_0000, seq(16, _ => false), 0);
    AllClear(m.bits);
    FreshPmmOk([m]);
    assert [m][1..] == [];
  }

  /** A new space has its root and fifteen free pages left. */
  lemma NewSmallSpace(depth: nat)
    requires depth > 2
    ensures NewSpace(SmallMemory(depth)).Some?
    ensures var r := NewSystem(SmallMemory(depth));
      && SystemOk(r) && r.space.depth == depth && FreePages(r.space.pmm.chain) == 15
      && forall q: nat :: Walk(r.space, q) == Unmapped
  {
    hide PmmOk, FreePages, SpaceOk;
    SmallMemoryOk(depth);
    NewSpaceBound(SmallMemory(depth));
    NewSpaceEffect(SmallMemory(depth));
    NewSystemOk(SmallMemory(depth), P);
  }

  /** With fewer free pages than levels any page can be mapped. */
  lemma CanMap(r: System, pn: nat, frame: nat, flags: Word)
    requires SystemOk(r) && r.space.depth > 2 && Key(r.space.depth, pn) == 0 && !Walk(r.space, pn).Big?
    requires FlagsOk(flags) && !Large(flags) && FreePages(r.space.pmm.chain) >= r.space.depth - 1
    ensures Enabled(r, Map(pn, Addr(frame), flags))
    ensures var r' := Apply(r, Map(pn, Addr(frame), flags));
      && SystemOk(r') && r'.space.depth == r.space.depth
      && FreePages(r'.space.pmm.chain) + r.space.depth - 1 >= FreePages(r.space.pmm.chain)
  {
    hide MapPage, FreePages, Walk;
    MapPageBound(r.space, pn, Addr(frame), flags);
    MapPageEffect(r.space, pn, Addr(frame), flags);
    ApplyKeepsOk(r, Map(pn, Addr(frame), flags));
  }

  function ReadOnly(): Word {
    Flags(false, P | US)
  }

  function ReadWrite(): Word {
    Flags(false, P | RW | US)
  }

  lemma FlagFacts()
    ensures FlagsOk(ReadOnly()) && !Large(ReadOnly()) && !Writable(ReadOnly())
    ensures FlagsOk(ReadWrite()) && !Large(ReadWrite()) && Writable(ReadWrite())
    ensures Writable(Leaf(Addr(0x301), ReadWrite()))
  {
    assert P | US == 0x005 && P | RW | US == 0x007;
    assert 0 | (0x007 as bv12) == 0x007;
  }

  lemma OneOp(r: System, op: Op)
    requires Enabled(r, op)
    ensures AllEnabled(r, [op]) && Execute(r, [op]) == Apply(r, op)
  {
    hide Enabled, Apply;
    assert Front([op]) == [] && Last([op]) == op;
  }

  lemma TwoOps(r: System, a: Op, b: Op)
    requires Enabled(r, a) && Enabled(Apply(r, a), b)
    ensures AllEnabled(r, [a, b]) && Execute(r, [a, b]) == Apply(Apply(r, a), b)
  {
    hide Enabled, Apply;
    OneOp(r, a);
    assert Front([a, b]) == [a] && Last([a, b]) == b;
  }

  // ---------------------------------------------------------------- unmap

  lemma SpaceOfSystem(r: System)
    requires SystemOk(r)
    ensures SpaceOk(r.space)
  {
  }

  lemma TopIndicesDiffer()
    ensures var v := 0x1_0000_0000_0000;
      ComputeTableIndices(v).pml5 != ComputeTableIndices(v).pml4 && Key(5, PageNumber(5, v)) == 0
  {
    IndicesAreDigits(0x1_0000_0000_0000, 5);
  }

  /** The address 2^48: its fifth-level index is 1, its fourth-level index 0. A page is mapped there,
      and unmapping the address leaves it mapped. */
  lemma UnmapMissesItsPage()
    ensures var v, m := 0x1_0000_0000_0000, SmallMemory(5);
      var op := Map(PageNumber(5, v), Addr(0x300), ReadWrite());
      && NewSpace(m).Some? && AllEnabled(NewSystem(m), [op])
      && var s := Execute(NewSystem(m), [op]).space;
      && Walk(s, PageNumber(5, v)) == Small(Leaf(Addr(0x300), ReadWrite()))
      && Walk(UnmapPage(s, MisreadPage(v)).1, PageNumber(5, v)) == Walk(s, PageNumber(5, v))
  {
    hide SystemOk, MapPage, Walk, UnmapPage, FreePages, Execute, AllEnabled, PageNumber, MisreadPage, Apply, Key;
    var v := 0x1_0000_0000_0000;
    var pn := PageNumber(5, v);
    NewSmallSpace(5);
    FlagFacts();
    var r := NewSystem(SmallMemory(5));
    var op := Map(pn, Addr(0x300), ReadWrite());
    TopIndicesDiffer();
    CanMap(r, pn, 0x300, ReadWrite());
    OneOp(r, op);
    assert Front([op]) == [] && Last([op]) == op;
    RunIsTranslationMap(r, [op], pn);
    SpaceOfSystem(Apply(r, op));
    FiveLevelUnmapHits(Apply(r, op).space, v);
  }

  // ---------------------------------------------------------------- the right to write

  /** A read-only mapping of page 0 and then a writable one of page 1: page 1 cannot be written. */
  lemma SecondPageNotWritable()
    ensures var m := SmallMemory(5);
      var ops := [Map(0, Addr(0x300), ReadOnly()), Map(1, Addr(0x301), ReadWrite())];
      && NewSpace(m).Some? && AllEnabled(NewSystem(m), ops)
      && Lookup(NewSystem(m).space, ops, 1) == Small(Leaf(Addr(0x301), ReadWrite()))
      && Writable(Leaf(Addr(0x301), ReadWrite()))
      && var g := EffectiveGrant(Execute(NewSystem(m), ops).space, 1);
      g.Granted? && !g.write
  {
    hide SystemOk, MapPage, Walk, FreePages, Execute, AllEnabled, Apply, PmmOk, EffectiveGrant;
    var a, b := Map(0, Addr(0x300), ReadOnly()), Map(1, Addr(0x301), ReadWrite());
    var r, ops := NewSystem(SmallMemory(5)), [a, b];
    SmallMemoryOk(5);
    NewSmallSpace(5);
    FlagFacts();
    KeyValues(0);
    KeyValues(1);
    CanMap(r, 0, 0x300, ReadOnly());
    OneOp(r, a);
    RunIsTranslationMap(r, [a], 1);
    assert Front([a]) == [] && Last([a]) == a;
    CanMap(Apply(r, a), 1, 0x301, ReadWrite());
    TwoOps(r, a, b);
    assert Front(ops) == [a] && Last(ops) == b;
    assert FirstMap([a], 2, 0) == Some(ReadOnly());
    assert !FirstWritable(ops, 2, 1);
    FiveLevelWriteRight(SmallMemory(5), ops, 1);
  }

  // ---------------------------------------------------------------- unmapping a range

  /** A page without a link from the root has no entry. */
  lemma NoRootLink(s: Space, q: nat)
    requires s.depth > 2 && Link(s, s.depth, q) == None
    ensures PageEntry(s, q) == None && UnmapPage(s, q) == (0, s)
  {
  }

  /** Page 2^27 is mapped in a new four-level space. Unmapping the range from page 0 up to it stops at
      page 0, which has no entry, and leaves it mapped. */
  lemma UnmapStopsEarly()
    ensures var m, pn := SmallMemory(4), 0x800_0000;
      var op := Map(pn, Addr(0x300), ReadWrite());
      && NewSpace(m).Some? && AllEnabled(NewSystem(m), [op])
      && var s := Execute(NewSystem(m), [op]).space;
      && Walk(s, pn) == Small(Leaf(Addr(0x300), ReadWrite()))
      && UnmapRange(s, 0, pn + 1) == s
  {
    hide SystemOk, MapPage, Walk, UnmapPage, FreePages, Execute, AllEnabled, Link, PmmOk, Apply;
    var pn := 0x800_0000;
    var r, op := NewSystem(SmallMemory(4)), Map(0x800_0000, Addr(0x300), ReadWrite());
    SmallMemoryOk(4);
    NewSmallSpace(4);
    FlagFacts();
    KeyValues(0);
    KeyValues(pn);
    CanMap(r, pn, 0x300, ReadWrite());
    OneOp(r, op);
    assert Front([op]) == [] && Last([op]) == op;
    RunIsTranslationMap(r, [op], pn);
    LinksAreHistory(SmallMemory(4), [op], 4, 0);
    assert Key(3, pn) == 1 && FirstMap([op], 4, 0) == None;
    NoRootLink(Execute(r, [op]).space, 0);
  }
}
