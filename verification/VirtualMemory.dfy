/** The range routines and the default address space in their imperative form. */
module VirtualMemory {
  import opened Words
  import opened Physical
  import opened PageTables
  import opened PageOperations
  import opened TableIndices
  import opened Machine
  import opened Paging
  import opened Virtual
  import opened DirectMap

  /** A new frame, and one page mapped onto it. */
  method MapFreshPage(table: PageTable, v: nat, flags: Word) returns (f: nat)
    requires (table.depth == 4 || table.depth == 5) && table.Valid() && FlagsOk(flags) && !Large(flags)
    requires !Walk(table.State(), PageNumber(table.depth, v)).Big?
    requires MapFresh(table.State(), PageNumber(table.depth, v), flags).Some?
    modifies table`place, table.memory, table.memory.modules, table.memory.Bitmaps()
    ensures table.Valid()
    ensures MapFresh(old(table.State()), PageNumber(table.depth, v), flags) == Some((f, table.State()))
  {
    hide AllocBlock, MapPage, Walk, IsTree;
    AllocBlockEffect(table.State(), 1, 1);
    f := table.AllocFrame();
    var _ := table.Map(v, Addr(f), flags);
  }

  /** One round of the loop. */
  method MapOneFresh(table: PageTable, v: nat, flags: Word, ghost cnt: nat) returns (f: nat)
    requires (table.depth == 4 || table.depth == 5) && table.Valid() && FlagsOk(flags) && !Large(flags) && cnt > 0
    requires RangeMappable(table.State(), PageNumber(table.depth, v), cnt)
    requires MapRange(table.State(), PageNumber(table.depth, v), cnt, flags).Some?
    modifies table`place, table.memory, table.memory.modules, table.memory.Bitmaps()
    ensures table.Valid() && RangeMappable(table.State(), PageNumber(table.depth, v) + 1, cnt - 1)
    ensures MapRange(old(table.State()), PageNumber(table.depth, v), cnt, flags)
         == MapRange(table.State(), PageNumber(table.depth, v) + 1, cnt - 1, flags)
    ensures RangeFrames(old(table.State()), PageNumber(table.depth, v), cnt, flags)
         == [f] + RangeFrames(table.State(), PageNumber(table.depth, v) + 1, cnt - 1, flags)
  {
    hide MapRange, MapFresh, SpaceOk, RangeFrames;
    ghost var f', s' := FirstOfRange(table.State(), PageNumber(table.depth, v), cnt, flags);
    f := MapFreshPage(table, v, flags);
    assert table.State() == s';
  }

  /** Maps `cnt` 4 KiB pages from `vaddr` on, each onto a new frame. */
  method VmmMapRange(table: PageTable, vaddr: nat, cnt: nat, flags: Word)
    requires (table.depth == 4 || table.depth == 5) && table.Valid() && FlagsOk(flags) && !Large(flags)
    requires PageNumber(table.depth, vaddr) + cnt <= Limit(table.depth)
    requires RangeMappable(table.State(), PageNumber(table.depth, vaddr), cnt)
    requires MapRange(table.State(), PageNumber(table.depth, vaddr), cnt, flags).Some?
    modifies table`place, table.memory, table.memory.modules, table.memory.Bitmaps()
    ensures table.Valid()
    ensures MapRange(old(table.State()), PageNumber(table.depth, vaddr), cnt, flags) == Some(table.State())
  {
    hide MapFresh, SpaceOk, Walk;
    ghost var pn := PageNumber(table.depth, vaddr);
    ghost var goal := MapRange(table.State(), pn, cnt, flags);
    var v := vaddr;
    for i := 0 to cnt
      invariant table.Valid() && v == vaddr + i * 0x1000
      invariant RangeMappable(table.State(), pn + i, cnt - i)
      invariant MapRange(table.State(), pn + i, cnt - i, flags) == goal
    {
      PageNumberAdd(table.depth, vaddr, i);
      var _ := MapOneFresh(table, v, flags, cnt - i);
      v := v + 0x1000;
    }
  }

  // ---------------------------------------------------------------- unmapping

  /** The unmap loop on addresses: it steps by what each call answers and stops at the first 0. */
  function UnmapFromAddress(s: Space, vaddr: nat, cnt: nat): Space
    decreases cnt
  {
    if cnt == 0 then s
    else
      var (size, s') := UnmapPage(s, UnmapTarget(s.depth, vaddr));
      if size == 0 then s' else UnmapFromAddress(s', vaddr + size, cnt - 1)
  }

  method VmmUnmapRange(table: PageTable, vaddr: nat, cnt: nat)
    requires (table.depth == 4 || table.depth == 5) && table.Valid()
    modifies table`place, table.memory`tables
    ensures table.Valid() && table.State() == UnmapFromAddress(old(table.State()), vaddr, cnt)
  {
    hide SpaceOk, UnmapPage, UnmapTarget;
    ghost var goal := UnmapFromAddress(table.State(), vaddr, cnt);
    var v := vaddr;
    for i := 0 to cnt
      invariant table.Valid() && UnmapFromAddress(table.State(), v, cnt - i) == goal
    {
      var size := table.Unmap(v);
      if size == 0 {
        return;
      }
      v := v + size;
    }
  }

  /** Unmapping works on the page it is asked for. */
  predicate Hits(depth: nat, vaddr: nat) {
    UnmapTarget(depth, vaddr) == PageNumber(depth, vaddr)
  }

  predicate HitsAt(depth: nat, vaddr: nat, i: nat) {
    Hits(depth, vaddr + i * 0x1000)
  }

  /** It does so for all pages of a range. */
  ghost predicate AllHit(depth: nat, vaddr: nat, cnt: nat) {
    forall i: nat :: i < cnt ==> HitsAt(depth, vaddr, i)
  }

  /** With four levels it always does; with five levels exactly if the two top indices agree. */
  lemma HitsIff(depth: nat, vaddr: nat)
    requires depth == 4 || depth == 5
    ensures Hits(depth, vaddr) <==>
      depth == 4 || ComputeTableIndices(vaddr).pml5 == ComputeTableIndices(vaddr).pml4
  {
    var ix := ComputeTableIndices(vaddr);
    PageNumberDigits(vaddr);
    DigitsOf(ix.pml5, ix.pml4, ix.pml3, ix.pml2, ix.pml1);
    DigitsOf(ix.pml4, ix.pml4, ix.pml3, ix.pml2, ix.pml1);
  }

  /** Without 2 MiB entries, and if it hits its pages, the loop by addresses is the loop by pages. */
  lemma {:induction false} UnmapVisitsRange(s: Space, vaddr: nat, cnt: nat)
    requires SpaceOk(s) && (s.depth == 4 || s.depth == 5) && PageNumber(s.depth, vaddr) + cnt <= Limit(s.depth)
    requires AllHit(s.depth, vaddr, cnt) && NoLarge(s, PageNumber(s.depth, vaddr), cnt)
    ensures UnmapFromAddress(s, vaddr, cnt) == UnmapRange(s, PageNumber(s.depth, vaddr), cnt)
    decreases cnt
  {
    hide UnmapPage, SpaceOk, UnmapTarget, PageNumber, PageEntry, EntrySize, Walk;
    if cnt > 0 {
      var pn := PageNumber(s.depth, vaddr);
      assert HitsAt(s.depth, vaddr, 0);
      UnmapPageEffect(s, pn);
      SizeZero(s, PageEntry(s, pn));
      var s1 := UnmapPage(s, pn).1;
      if cnt > 1 && PageEntry(s, pn).Some? {
        PageNumberAdd(s.depth, vaddr, 1);
        forall q: nat | pn + 1 <= q < pn + cnt ensures InSpace(s1, q) && EntrySize(s1, PageEntry(s1, q)) != 0x200000 {
          assert InSpace(s, q);
          UnmapKeepsEntries(s, pn, q);
        }
        var next := vaddr + 0x1000;
        forall i: nat | i < cnt - 1 ensures HitsAt(s.depth, next, i) {
          assert HitsAt(s.depth, vaddr, i + 1);
        }
        UnmapVisitsRange(s1, next, cnt - 1);
      }
    }
  }

  lemma MisreadElsewhere(vaddr: nat, p: nat)
    requires Index(5, p) != Index(4, p)
    ensures Key(5, MisreadPage(vaddr)) == 0 && p != MisreadPage(vaddr) && p / 512 != MisreadPage(vaddr) / 512
  {
    var ix, bad := ComputeTableIndices(vaddr), MisreadPage(vaddr);
    DigitsOf(ix.pml4, ix.pml4, ix.pml3, ix.pml2, ix.pml1);
    KeyValues(p);
    KeyValues(bad);
  }

  /** The loop never unmaps a page whose two top indices differ. */
  lemma {:induction false} LoopLeavesMissed(s: Space, vaddr: nat, cnt: nat, p: nat)
    requires SpaceOk(s) && s.depth == 5 && InSpace(s, p) && Index(5, p) != Index(4, p)
    ensures Walk(UnmapFromAddress(s, vaddr, cnt), p) == Walk(s, p)
    decreases cnt
  {
    hide UnmapPage, SpaceOk, Walk, MisreadPage, Index, Key;
    if cnt > 0 {
      var bad := MisreadPage(vaddr);
      MisreadElsewhere(vaddr, p);
      UnmapPageEffect(s, bad);
      var (size, s1) := UnmapPage(s, bad);
      LoopLeavesMissed(s1, vaddr + size, cnt - 1, p);
    }
  }

  lemma MissedPage(depth: nat, vaddr: nat, i: nat)
    requires (depth == 4 || depth == 5) && !HitsAt(depth, vaddr, i) && PageNumber(depth, vaddr) + i < Limit(depth)
    ensures depth == 5 && Index(5, PageNumber(5, vaddr) + i) != Index(4, PageNumber(5, vaddr) + i)
  {
    hide PageNumber, ComputeTableIndices, Index, Limit, Hits, Key;
    var v := vaddr + i * 0x1000;
    HitsIff(depth, v);
    PageNumberAdd(depth, vaddr, i);
    IndicesAreDigits(v, depth);
  }

  /** A range of pages that the space can translate, none of them mapped. */
  ghost predicate RangeUnmapped(s: Space, pn: nat, cnt: nat) {
    forall q: nat :: pn <= q < pn + cnt ==> InSpace(s, q) && Walk(s, q) == Unmapped
  }

  lemma RoundTripIfHit(s: Space, vaddr: nat, cnt: nat, flags: Word)
    requires SpaceOk(s) && (s.depth == 4 || s.depth == 5) && FlagsOk(flags) && !Large(flags)
    requires PageNumber(s.depth, vaddr) + cnt <= Limit(s.depth) && RangeUnmapped(s, PageNumber(s.depth, vaddr), cnt)
    requires MapRange(s, PageNumber(s.depth, vaddr), cnt, flags).Some? && AllHit(s.depth, vaddr, cnt)
    ensures var s' := MapRange(s, PageNumber(s.depth, vaddr), cnt, flags).value;
      forall q: nat :: InSpace(s, q) ==> Walk(UnmapFromAddress(s', vaddr, cnt), q) == Walk(s, q)
  {
    hide MapRange, SpaceOk, UnmapFromAddress, Walk, Limit, PageNumber, AllHit;
    var pn := PageNumber(s.depth, vaddr);
    UnmapRangeUndoesMapRange(s, pn, cnt, flags);
    MapRangeEffect(s, pn, cnt, flags);
    var s' := MapRange(s, pn, cnt, flags).value;
    forall q: nat | pn <= q < pn + cnt ensures InSpace(s', q) && Walk(s', q).Small? {
      assert InSpace(s, q);
    }
    SmallRange(s', pn, cnt);
    UnmapVisitsRange(s', vaddr, cnt);
  }

  lemma MappedPageIsSmall(s: Space, pn: nat, cnt: nat, flags: Word, i: nat)
    requires SpaceOk(s) && FlagsOk(flags) && !Large(flags) && RangeUnmapped(s, pn, cnt)
    requires MapRange(s, pn, cnt, flags).Some? && i < cnt
    ensures var s' := MapRange(s, pn, cnt, flags).value;
      SpaceOk(s') && s'.depth == s.depth && InSpace(s', pn + i) && Walk(s', pn + i).Small?
  {
    hide MapRange, SpaceOk, Walk, Key;
    MapRangeEffect(s, pn, cnt, flags);
    assert InSpace(s, pn + i);
  }

  lemma MissedPageStays(s: Space, vaddr: nat, cnt: nat, flags: Word, i: nat)
    requires SpaceOk(s) && (s.depth == 4 || s.depth == 5) && FlagsOk(flags) && !Large(flags)
    requires PageNumber(s.depth, vaddr) + cnt <= Limit(s.depth) && RangeUnmapped(s, PageNumber(s.depth, vaddr), cnt)
    requires MapRange(s, PageNumber(s.depth, vaddr), cnt, flags).Some? && i < cnt && !HitsAt(s.depth, vaddr, i)
    ensures var s' := MapRange(s, PageNumber(s.depth, vaddr), cnt, flags).value;
      Walk(UnmapFromAddress(s', vaddr, cnt), PageNumber(s.depth, vaddr) + i).Small?
  {
    hide MapRange, SpaceOk, UnmapFromAddress, Walk, Limit, PageNumber, Key, Index, HitsAt, RangeUnmapped;
    var pn := PageNumber(s.depth, vaddr);
    MappedPageIsSmall(s, pn, cnt, flags, i);
    MissedPage(s.depth, vaddr, i);
    LoopLeavesMissed(MapRange(s, pn, cnt, flags).value, vaddr, cnt, pn + i);
  }

  /** Mapping a range that was unmapped and then unmapping it again, by address, restores every
      translation if and only if the unmap hits every page of the range. */
  lemma MapThenUnmapRange(s: Space, vaddr: nat, cnt: nat, flags: Word)
    requires SpaceOk(s) && (s.depth == 4 || s.depth == 5) && FlagsOk(flags) && !Large(flags)
    requires PageNumber(s.depth, vaddr) + cnt <= Limit(s.depth) && RangeUnmapped(s, PageNumber(s.depth, vaddr), cnt)
    ensures match MapRange(s, PageNumber(s.depth, vaddr), cnt, flags)
      case None => true
      case Some(s') =>
        (forall q: nat :: InSpace(s, q) ==> Walk(UnmapFromAddress(s', vaddr, cnt), q) == Walk(s, q)) <==>
        AllHit(s.depth, vaddr, cnt)
  {
    hide MapRange, SpaceOk, UnmapFromAddress, Walk, Limit, PageNumber, HitsAt, InSpace;
    var pn := PageNumber(s.depth, vaddr);
    if MapRange(s, pn, cnt, flags).Some? {
      if AllHit(s.depth, vaddr, cnt) {
        RoundTripIfHit(s, vaddr, cnt, flags);
      } else {
        var i: nat :| i < cnt && !HitsAt(s.depth, vaddr, i);
        MissedPageStays(s, vaddr, cnt, flags, i);
        assert InSpace(s, pn + i) && Walk(s, pn + i) == Unmapped;
      }
    }
  }

  // ---------------------------------------------------------------- the default address space

  lemma NoFramesLeft(s: Space, pn: nat, flags: Word)
    requires FlagsOk(flags)
    ensures flags.page == 0 && MapList(s, pn, [], flags) == Some(s)
  {
  }

  /** One round: the first of the frames still to be mapped. */
  method MapNextFrame(table: PageTable, v: nat, frame: nat, flags: Word, ghost frames: seq<nat>)
    requires (table.depth == 4 || table.depth == 5) && table.Valid() && FlagsOk(flags) && !Large(flags)
    requires frames != [] && frame == frames[0]
    requires RangeMappable(table.State(), PageNumber(table.depth, v), |frames|)
    requires MapList(table.State(), PageNumber(table.depth, v), frames, flags).Some?
    modifies table`place, table.memory, table.memory.modules, table.memory.Bitmaps()
    ensures table.Valid() && RangeMappable(table.State(), PageNumber(table.depth, v) + 1, |frames| - 1)
    ensures MapList(old(table.State()), PageNumber(table.depth, v), frames, flags)
         == MapList(table.State(), PageNumber(table.depth, v) + 1, frames[1..], flags)
  {
    hide SpaceOk, MapPage, Walk, PageNumber;
    ghost var s, pn := table.State(), PageNumber(table.depth, v);
    MapPageEffect(s, pn, Addr(frame), flags);
    var _ := table.Map(v, Addr(frame), flags);
    forall q: nat | pn + 1 <= q < pn + |frames| ensures InSpace(table.State(), q) && !Walk(table.State(), q).Big? {
      assert InSpace(s, q);
    }
  }

  /** Maps pages from `vaddr` on to the given frames. */
  method MapFrames(table: PageTable, vaddr: nat, frames: seq<nat>, flags: Word)
    requires (table.depth == 4 || table.depth == 5) && table.Valid() && FlagsOk(flags) && !Large(flags)
    requires PageNumber(table.depth, vaddr) + |frames| <= Limit(table.depth)
    requires RangeMappable(table.State(), PageNumber(table.depth, vaddr), |frames|)
    requires MapList(table.State(), PageNumber(table.depth, vaddr), frames, flags).Some?
    modifies table`place, table.memory, table.memory.modules, table.memory.Bitmaps()
    ensures table.Valid()
    ensures MapList(old(table.State()), PageNumber(table.depth, vaddr), frames, flags) == Some(table.State())
  {
    hide SpaceOk, MapList, RangeMappable, PageNumber;
    ghost var pn := PageNumber(table.depth, vaddr);
    ghost var goal := MapList(table.State(), pn, frames, flags);
    assert frames[0..] == frames;
    for i := 0 to |frames|
      invariant table.Valid() && RangeMappable(table.State(), pn + i, |frames| - i)
      invariant MapList(table.State(), pn + i, frames[i..], flags) == goal
    {
      assert frames[i..][0] == frames[i] && frames[i..][1..] == frames[i + 1..];
      PageNumberAdd(table.depth, vaddr, i);
      MapNextFrame(table, vaddr + i * 0x1000, frames[i], flags, frames[i..]);
    }
    NoFramesLeft(table.State(), pn + |frames|, flags);
  }

  /** Every chunk of the direct map lies below the top of the space. */
  ghost predicate ChunksFit(depth: nat, high: nat, chunks: seq<nat>) {
    forall c :: c in chunks ==> high + c * 512 < Limit(depth)
  }

  lemma NextChunk(s: Space, high: nat, from: nat, cnt: nat, rest: seq<nat>)
    requires cnt > 0 && MapChunks(s, high, Count(from, cnt) + rest).Some?
    ensures s.depth > 0 && MapPage(s, high + from * 512, Addr(from * 512), SlotFlags()).Some?
    ensures MapChunks(s, high, Count(from, cnt) + rest)
         == MapChunks(MapPage(s, high + from * 512, Addr(from * 512), SlotFlags()).value,
                      high, Count(from + 1, cnt - 1) + rest)
  {
    hide MapPage;
    var chunks := Count(from, cnt) + rest;
    assert chunks[0] == from && chunks[1..] == Count(from + 1, cnt - 1) + rest;
  }

  /** One 2 MiB chunk of physical memory. */
  method MapChunk(table: PageTable, highVma: nat, phys: nat, ghost c: nat)
    requires (table.depth == 4 || table.depth == 5) && table.Valid() && phys == c * SLOT
    requires PageNumber(table.depth, highVma) + c * 512 < Limit(table.depth) && SlotFlags().page == 0
    requires MapPage(table.State(), PageNumber(table.depth, highVma) + c * 512, Addr(c * 512), SlotFlags()).Some?
    modifies table`place, table.memory, table.memory.modules, table.memory.Bitmaps()
    ensures table.Valid()
    ensures MapPage(old(table.State()), PageNumber(table.depth, highVma) + c * 512, Addr(c * 512), SlotFlags())
         == Some(table.State())
  {
    hide SpaceOk, MapPage, PageNumber;
    PageNumberAdd(table.depth, highVma, c * 512);
    SlotFlagsOk();
    var _ := table.Map(highVma + phys, Addr(phys / PAGE_SIZE), Flags(false, P | RW | PS | G | US));
  }

  /** Maps `cnt` neighbouring 2 MiB chunks of physical memory into the direct map. */
  method MapChunkRun(table: PageTable, highVma: nat, from: nat, cnt: nat, ghost rest: seq<nat>)
    requires (table.depth == 4 || table.depth == 5) && table.Valid() && PageNumber(table.depth, highVma) % 512 == 0
    requires ChunksFit(table.depth, PageNumber(table.depth, highVma), Count(from, cnt) + rest)
    requires MapChunks(table.State(), PageNumber(table.depth, highVma), Count(from, cnt) + rest).Some?
    modifies table`place, table.memory, table.memory.modules, table.memory.Bitmaps()
    ensures table.Valid() && ChunksFit(table.depth, PageNumber(table.depth, highVma), rest)
    ensures MapChunks(old(table.State()), PageNumber(table.depth, highVma), Count(from, cnt) + rest)
         == MapChunks(table.State(), PageNumber(table.depth, highVma), rest)
  {
    hide SpaceOk, MapPage, MapChunks, PageNumber;
    ghost var high := PageNumber(table.depth, highVma);
    ghost var goal := MapChunks(table.State(), high, Count(from, cnt) + rest);
    assert forall c :: c in rest ==> c in Count(from, cnt) + rest;
    var phys := from * SLOT;
    for j := 0 to cnt
      invariant table.Valid() && phys == (from + j) * SLOT
      invariant MapChunks(table.State(), high, Count(from + j, cnt - j) + rest) == goal
    {
      NextChunk(table.State(), high, from + j, cnt - j, rest);
      assert from + j in Count(from, cnt) + rest;
      SlotFlagsOk();
      MapChunk(table, highVma, phys, from + j);
      phys := phys + SLOT;
    }
    assert Count(from + cnt, 0) + rest == rest;
  }

  lemma NoChunks(s: Space, high: nat)
    ensures MapChunks(s, high, []) == Some(s)
  {
  }

  method MapRegions(table: PageTable, highVma: nat, mmap: seq<Region>)
    requires (table.depth == 4 || table.depth == 5) && table.Valid() && PageNumber(table.depth, highVma) % 512 == 0
    requires ChunksFit(table.depth, PageNumber(table.depth, highVma), AllRegionChunks(mmap))
    requires MapChunks(table.State(), PageNumber(table.depth, highVma), AllRegionChunks(mmap)).Some?
    modifies table`place, table.memory, table.memory.modules, table.memory.Bitmaps()
    ensures table.Valid()
    ensures MapChunks(old(table.State()), PageNumber(table.depth, highVma), AllRegionChunks(mmap))
         == Some(table.State())
  {
    hide SpaceOk, MapPage, MapChunks, ChunksFit, PageNumber;
    ghost var high := PageNumber(table.depth, highVma);
    ghost var goal := MapChunks(table.State(), high, AllRegionChunks(mmap));
    assert mmap[0..] == mmap;
    for i := 0 to |mmap|
      invariant table.Valid() && ChunksFit(table.depth, high, AllRegionChunks(mmap[i..]))
      invariant MapChunks(table.State(), high, AllRegionChunks(mmap[i..])) == goal
    {
      ghost var rest := AllRegionChunks(mmap[i + 1..]);
      assert mmap[i..][0] == mmap[i] && mmap[i..][1..] == mmap[i + 1..];
      assert AllRegionChunks(mmap[i..]) == RegionChunks(mmap[i]) + rest;
      MapChunkRun(table, highVma, mmap[i].base / SLOT, DivRoundUp(mmap[i].length, SLOT), rest);
    }
    NoChunks(table.State(), high);
  }

  lemma ChainOfPmm(p: Pmm)
    requires PmmOk(p)
    ensures ChainOk(p.chain)
  {
  }

  method NewTableRoot(memory: Memory, depth: nat) returns (table: PageTable)
    requires memory.Distinct() && ChainOk(memory.Chain())
    requires NewSpace(Bare(Pmm(memory.Chain(), memory.live), memory.tables, memory.bytes, depth)).Some?
    modifies memory, memory.modules, memory.Bitmaps()
    ensures fresh(table) && table.memory == memory && table.depth == depth
    ensures NewSpace(old(Bare(Pmm(memory.Chain(), memory.live), memory.tables, memory.bytes, depth)))
         == Some(table.State())
  {
    hide ChainAlloc, ChainOk;
    var a := memory.Alloc(1, 1);
    var root := a.value / PAGE_SIZE;
    memory.bytes := memory.bytes - {root};
    table := new PageTable(memory, depth, root, map[root := Place(depth, 0, root)]);
  }

  method VmmDefaultTable(
      memory: Memory, depth: nat, kernelVaddr: nat, kernelFrame: nat, highVma: nat, mmap: seq<Region>)
    returns (table: PageTable)
    requires (depth == 4 || depth == 5) && memory.Distinct() && PmmOk(Pmm(memory.Chain(), memory.live))
    requires PageNumber(depth, highVma) % 512 == 0 && PageNumber(depth, kernelVaddr) + KERNEL_PAGES <= Limit(depth)
    requires ChunksFit(depth, PageNumber(depth, highVma), DefaultChunks(mmap))
    requires DefaultSpace(Bare(Pmm(memory.Chain(), memory.live), memory.tables, memory.bytes, depth),
                          PageNumber(depth, kernelVaddr), kernelFrame, PageNumber(depth, highVma), mmap).Some?
    modifies memory, memory.modules, memory.Bitmaps()
    ensures fresh(table) && table.memory == memory && table.depth == depth && table.Valid()
    ensures DefaultSpace(old(Bare(Pmm(memory.Chain(), memory.live), memory.tables, memory.bytes, depth)),
                         PageNumber(depth, kernelVaddr), kernelFrame, PageNumber(depth, highVma), mmap)
         == Some(table.State())
  {
    hide PmmOk, MapList, MapChunks, SpaceOk, Walk, NewSpace, AllRegionChunks, PageNumber, ChunksFit;
    ghost var m := Bare(Pmm(memory.Chain(), memory.live), memory.tables, memory.bytes, depth);
    NewSpaceEffect(m);
    ChainOfPmm(m.pmm);
    table := NewTableRoot(memory, depth);
    assert NewSpace(m) == Some(table.State());
    assert FlagsOk(KernelFlags()) && !Large(KernelFlags());
    forall q: nat | PageNumber(depth, kernelVaddr) <= q < PageNumber(depth, kernelVaddr) + KERNEL_PAGES
      ensures InSpace(table.State(), q)
    {
      BelowLimit(depth, q);
    }
    MapFrames(table, kernelVaddr, Count(kernelFrame, 0x6400), Flags(false, P | RW | G | US));
    ghost var s1, high, rest := table.State(), PageNumber(depth, highVma), AllRegionChunks(mmap);
    MapChunkRun(table, highVma, 0, 0x800, rest);
    MapRegions(table, highVma, mmap);
  }
}
