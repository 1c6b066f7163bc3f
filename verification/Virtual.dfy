/** Ranges of pages and lists of frames to be mapped, as values. */
module Virtual {
  import opened Words
  import opened Physical
  import opened PageTables
  import opened PageOperations

  // ---------------------------------------------------------------- mapping a range

  /** Takes a frame and maps one page onto it. */
  ghost function MapFresh(s: Space, pn: nat, flags: Word): Option<(nat, Space)>
    requires flags.page == 0
  {
    match AllocBlock(s, 1, 1)
    case None => None
    case Some((f, s1)) =>
      if s1.depth == 0 then None
      else match MapPage(s1, pn, Addr(f), flags)
        case None => None
        case Some(s2) => Some((f, s2))
  }

  /** Maps `cnt` pages from `pn` on, each onto a new frame. */
  ghost function MapRange(s: Space, pn: nat, cnt: nat, flags: Word): Option<Space>
    requires flags.page == 0
    decreases cnt
  {
    if cnt == 0 then Some(s)
    else match MapFresh(s, pn, flags)
      case None => None
      case Some((_, s')) => MapRange(s', pn + 1, cnt - 1, flags)
  }

  /** The frames that back the pages of a range, in order. */
  ghost function RangeFrames(s: Space, pn: nat, cnt: nat, flags: Word): seq<nat>
    requires flags.page == 0
    decreases cnt
  {
    if cnt == 0 then []
    else match MapFresh(s, pn, flags)
      case None => []
      case Some((f, s')) => [f] + RangeFrames(s', pn + 1, cnt - 1, flags)
  }

  /** A frame that was free before, is in use now, is not a table and holds zeroes. */
  ghost predicate FreshData(s: Space, s': Space, f: nat) {
    && !Owned(s.pmm.live, f) && Block(f, 1) in s'.pmm.live && f !in s'.place
    && f in s'.bytes && s'.bytes[f] == ZeroPage()
  }

  /** Translations outside the range are as before. */
  ghost predicate OnlyAt(s: Space, s': Space, lo: nat, hi: nat) {
    forall q: nat :: InSpace(s, q) && !(lo <= q < hi) ==> Walk(s', q) == Walk(s, q)
  }

  lemma MapFreshEffect(s: Space, pn: nat, flags: Word)
    requires SpaceOk(s) && InSpace(s, pn) && FlagsOk(flags) && !Large(flags) && !Walk(s, pn).Big?
    ensures match MapFresh(s, pn, flags)
      case None => true
      case Some((f, s')) =>
        && SpaceOk(s') && Extends(s, s') && FreshData(s, s', f)
        && Walk(s', pn) == Small(Leaf(Addr(f), flags)) && OnlyAt(s, s', pn, pn + 1)
  {
    hide Walk, MapPage, AllocBlock, PmmOk, IsTree;
    AllocBlockEffect(s, 1, 1);
    if MapFresh(s, pn, flags).Some? {
      var (f, s1) := AllocBlock(s, 1, 1).value;
      MapPageEffect(s1, pn, Addr(f), flags);
      var s2 := MapPage(s1, pn, Addr(f), flags).value;
      ExtendsTransitive(s, s1, s2);
      assert Covers(Block(f, 1), f);
      assert Owned(s1.pmm.live, f);
    }
  }

  /** Every page of the range is mapped onto its own new frame. */
  ghost predicate Backed(s: Space, s': Space, pn: nat, flags: Word, fs: seq<nat>)
    requires flags.page == 0
  {
    && (forall q: nat :: pn <= q < pn + |fs| ==> Walk(s', q) == Small(Leaf(Addr(fs[q - pn]), flags)))
    && (forall k :: 0 <= k < |fs| ==> FreshData(s, s', fs[k]))
    && (forall j, k :: 0 <= j < k < |fs| ==> fs[j] != fs[k])
  }

  ghost predicate RangeMappable(s: Space, pn: nat, cnt: nat) {
    forall q: nat :: pn <= q < pn + cnt ==> InSpace(s, q) && !Walk(s, q).Big?
  }

  lemma FreshDataLater(s: Space, s1: Space, s2: Space, f: nat)
    requires FreshData(s, s1, f) && Extends(s1, s2)
    ensures FreshData(s, s2, f)
  {
    assert Covers(Block(f, 1), f);
    assert Owned(s1.pmm.live, f);
  }

  lemma FreshDataEarlier(s: Space, s1: Space, s2: Space, f: nat)
    requires Extends(s, s1) && FreshData(s1, s2, f)
    ensures FreshData(s, s2, f)
  {
    assert forall b :: b in s.pmm.live ==> b in s1.pmm.live;
  }

  lemma FirstOfRange(s: Space, pn: nat, cnt: nat, flags: Word) returns (f: nat, s1: Space)
    requires SpaceOk(s) && FlagsOk(flags) && !Large(flags) && RangeMappable(s, pn, cnt)
    requires cnt > 0 && MapRange(s, pn, cnt, flags).Some?
    ensures MapFresh(s, pn, flags) == Some((f, s1))
    ensures MapRange(s, pn, cnt, flags) == MapRange(s1, pn + 1, cnt - 1, flags)
    ensures RangeFrames(s, pn, cnt, flags) == [f] + RangeFrames(s1, pn + 1, cnt - 1, flags)
    ensures SpaceOk(s1) && Extends(s, s1) && FreshData(s, s1, f) && RangeMappable(s1, pn + 1, cnt - 1)
    ensures Walk(s1, pn) == Small(Leaf(Addr(f), flags)) && OnlyAt(s, s1, pn, pn + 1)
  {
    MapFreshEffect(s, pn, flags);
    hide MapFresh;
    f, s1 := MapFresh(s, pn, flags).value.0, MapFresh(s, pn, flags).value.1;
    forall q: nat | pn + 1 <= q < pn + cnt ensures InSpace(s1, q) && !Walk(s1, q).Big? {
      assert InSpace(s, q);
    }
  }

  lemma FreshDiffer(s: Space, s1: Space, s2: Space, f: nat, g: nat)
    requires FreshData(s, s1, f) && FreshData(s1, s2, g)
    ensures f != g
  {
    assert Covers(Block(f, 1), f);
    assert Owned(s1.pmm.live, f);
  }

  lemma RangeStep(s: Space, s1: Space, s': Space, pn: nat, f: nat, flags: Word, rest: seq<nat>)
    requires flags.page == 0 && InSpace(s, pn)
    requires Extends(s, s1) && FreshData(s, s1, f)
    requires Walk(s1, pn) == Small(Leaf(Addr(f), flags)) && OnlyAt(s, s1, pn, pn + 1)
    requires Extends(s1, s') && OnlyAt(s1, s', pn + 1, pn + 1 + |rest|) && Backed(s1, s', pn + 1, flags, rest)
    ensures Extends(s, s') && OnlyAt(s, s', pn, pn + 1 + |rest|) && Backed(s, s', pn, flags, [f] + rest)
  {
    hide Walk, FreshData;
    var fs := [f] + rest;
    ExtendsTransitive(s, s1, s');
    FreshDataLater(s, s1, s', f);
    forall k | 0 <= k < |fs| ensures FreshData(s, s', fs[k]) {
      if k > 0 {
        FreshDataEarlier(s, s1, s', rest[k - 1]);
      }
    }
    forall k | 0 <= k < |rest| ensures rest[k] != f {
      FreshDiffer(s, s1, s', f, rest[k]);
    }
    forall q: nat | InSpace(s, q) && !(pn <= q < pn + |fs|) ensures Walk(s', q) == Walk(s, q) {
      assert InSpace(s1, q);
    }
    forall q: nat | pn <= q < pn + |fs| ensures Walk(s', q) == Small(Leaf(Addr(fs[q - pn]), flags)) {
      if q == pn {
        assert InSpace(s1, q);
      }
    }
  }

  /** The range is translated injectively onto frames that were free, are in use afterwards and
      are not tables; every page outside keeps its translation. */
  lemma {:induction false} MapRangeEffect(s: Space, pn: nat, cnt: nat, flags: Word)
    requires SpaceOk(s) && FlagsOk(flags) && !Large(flags) && RangeMappable(s, pn, cnt)
    requires MapRange(s, pn, cnt, flags).Some?
    ensures var s', fs := MapRange(s, pn, cnt, flags).value, RangeFrames(s, pn, cnt, flags);
      && |fs| == cnt
      && SpaceOk(s') && Extends(s, s') && OnlyAt(s, s', pn, pn + cnt) && Backed(s, s', pn, flags, fs)
    decreases cnt
  {
    hide MapFresh;
    if cnt > 0 {
      var f, s1 := FirstOfRange(s, pn, cnt, flags);
      MapRangeEffect(s1, pn + 1, cnt - 1, flags);
      var rest := RangeFrames(s1, pn + 1, cnt - 1, flags);
      RangeStep(s, s1, MapRange(s1, pn + 1, cnt - 1, flags).value, pn, f, flags, rest);
    }
  }

  // ---------------------------------------------------------------- enough free pages for a range

  lemma AllocBound(s: Space)
    requires SpaceOk(s) && FreePages(s.pmm.chain) >= 1
    ensures AllocBlock(s, 1, 1).Some?
    ensures FreePages(AllocBlock(s, 1, 1).value.1.pmm.chain) + 1 == FreePages(s.pmm.chain)
  {
    hide FreePages, PmmOk, PmmAlloc, IsTree;
    OnePageCounts(s.pmm);
  }

  lemma AllocTakes(s: Space)
    requires SpaceOk(s) && AllocBlock(s, 1, 1).Some?
    ensures FreePages(AllocBlock(s, 1, 1).value.1.pmm.chain) + 1 == FreePages(s.pmm.chain)
  {
    hide FreePages, PmmOk, PmmAlloc, IsTree;
    OnePageCounts(s.pmm);
    assert PmmAlloc(s.pmm, 1, 1).0.Some?;
    AllocBound(s);
  }

  lemma MapFreshBound(s: Space, pn: nat, flags: Word)
    requires SpaceOk(s) && InSpace(s, pn) && FlagsOk(flags) && !Large(flags) && !Walk(s, pn).Big?
    requires FreePages(s.pmm.chain) >= s.depth
    ensures MapFresh(s, pn, flags).Some?
    ensures FreePages(MapFresh(s, pn, flags).value.1.pmm.chain) + s.depth >= FreePages(s.pmm.chain)
  {
    hide FreePages, PmmOk, AllocBlock, MapPage, Walk, IsTree;
    DepthOfSpace(s);
    AllocBound(s);
    AllocBlockEffect(s, 1, 1);
    var (f, s1) := AllocBlock(s, 1, 1).value;
    MapPageBound(s1, pn, Addr(f), flags);
  }

  /** A range can be mapped if the chain has as many clear bits as the range has pages, times the
      number of levels. */
  lemma {:induction false} MapRangeBound(s: Space, pn: nat, cnt: nat, flags: Word)
    requires SpaceOk(s) && FlagsOk(flags) && !Large(flags) && RangeMappable(s, pn, cnt)
    requires FreePages(s.pmm.chain) >= Times(cnt, s.depth)
    ensures MapRange(s, pn, cnt, flags).Some?
    ensures FreePages(MapRange(s, pn, cnt, flags).value.pmm.chain) + Times(cnt, s.depth) >= FreePages(s.pmm.chain)
    decreases cnt
  {
    hide FreePages, SpaceOk, MapFresh, Walk, Times;
    if cnt == 0 {
      TimesStep(0, s.depth);
    } else {
      TimesStep(cnt - 1, s.depth);
      MapFreshBound(s, pn, flags);
      MapFreshEffect(s, pn, flags);
      var s1 := MapFresh(s, pn, flags).value.1;
      forall q: nat | pn + 1 <= q < pn + cnt ensures InSpace(s1, q) && !Walk(s1, q).Big? {
        assert InSpace(s, q);
      }
      MapRangeBound(s1, pn + 1, cnt - 1, flags);
    }
  }

  // ---------------------------------------------------------------- unmapping a range

  /** Unmaps page after page, stepping by what each call answers, and stops at the first 0. */
  function UnmapRange(s: Space, pn: nat, cnt: nat): Space
    decreases cnt
  {
    if cnt == 0 then s
    else
      var (size, s') := UnmapPage(s, pn);
      if size == 0 then s' else UnmapRange(s', pn + size / PAGE_SIZE, cnt - 1)
  }

  /** A store into a last-level table changes no lookup. */
  lemma {:induction false} EntryKept(s: Space, f: nat, i: nat, e: Word, g: nat, q: nat)
    requires IsTree(s) && f in s.place && s.place[f].level == 1 && i < 512 && g in s.place
    ensures EntryFrom(Put(s.tables, f, i, e), g, s.place[g].level, q) == EntryFrom(s.tables, g, s.place[g].level, q)
    decreases s.place[g].level
  {
    var level := s.place[g].level;
    assert Hangs(s, g);
    if level > 1 && IsLink(level, Get(s.tables, g, Index(level, q))) {
      assert Leads(s, g, Index(level, q));
      EntryKept(s, f, i, e, NextTable(Get(s.tables, g, Index(level, q))), q);
    }
  }

  lemma {:induction false} UnmapFromKeepsEntries(s: Space, f: nat, level: nat, pn: nat, q: nat)
    requires IsTree(s) && f in s.place && s.place[f].level == level && s.place[f].key == Key(level, pn)
    requires UnmapFrom(s, f, level, pn).0 != 0x200000
    ensures var s' := UnmapFrom(s, f, level, pn).1;
      s'.place == s.place && PageEntry(s', q) == PageEntry(s, q)
    decreases level
  {
    assert Hangs(s, f);
    var e := Entry(s, f, level, pn);
    if level == 1 {
      EntryKept(s, f, Index(1, pn), ClearPresent(e), s.root, q);
    } else if Present(e) && !(level == 2 && Large(e)) {
      assert Leads(s, f, Index(level, pn));
      UnmapFromKeepsEntries(s, NextTable(e), level - 1, pn, q);
    }
  }

  /** Unmapping a 4 KiB entry leaves all lookups as they are. */
  lemma UnmapKeepsEntries(s: Space, pn: nat, q: nat)
    requires SpaceOk(s) && InSpace(s, pn) && EntrySize(s, PageEntry(s, pn)) != 0x200000
    ensures var s' := UnmapPage(s, pn).1;
      PageEntry(s', q) == PageEntry(s, q) && EntrySize(s', PageEntry(s', q)) == EntrySize(s, PageEntry(s, q))
  {
    hide PmmOk;
    UnmapPageEffect(s, pn);
    UnmapFromKeepsEntries(s, s.root, s.depth, pn, q);
  }

  /** No page of the range is decided by a 2 MiB entry. */
  ghost predicate NoLarge(s: Space, pn: nat, cnt: nat) {
    forall q: nat :: pn <= q < pn + cnt ==> InSpace(s, q) && EntrySize(s, PageEntry(s, q)) != 0x200000
  }

  /** Every page of the range before `q` has an entry, so the loop gets to `q`. */
  ghost predicate Reached(s: Space, pn: nat, q: nat) {
    forall p: nat :: pn <= p < q ==> PageEntry(s, p).Some?
  }

  lemma ReachedStep(s: Space, s1: Space, pn: nat, q: nat)
    requires pn < q && PageEntry(s, pn).Some? && forall p: nat :: PageEntry(s1, p) == PageEntry(s, p)
    ensures Reached(s, pn, q) <==> Reached(s1, pn + 1, q)
  {
    hide PageEntry;
  }

  lemma SizeZero(s: Space, entry: Option<(nat, nat)>)
    ensures EntrySize(s, entry) in {0, 0x1000, 0x200000} && (EntrySize(s, entry) == 0 <==> entry.None?)
  {
  }

  lemma ReachesFirst(s: Space, pn: nat)
    ensures Reached(s, pn, pn)
  {
  }

  lemma NotReached(s: Space, pn: nat, q: nat, p: nat)
    requires pn <= p < q && PageEntry(s, p).None?
    ensures !Reached(s, pn, q)
  {
  }

  /** Without 2 MiB entries the loop drops the pages of the range up to the first one that has no
      entry, and stops there. */
  lemma {:induction false} UnmapRangeEffect(s: Space, pn: nat, cnt: nat)
    requires SpaceOk(s) && NoLarge(s, pn, cnt)
    ensures var s' := UnmapRange(s, pn, cnt);
      && SpaceOk(s') && s'.depth == s.depth && s'.pmm == s.pmm && s'.bytes == s.bytes
      && forall q: nat :: InSpace(s, q) ==>
           Walk(s', q) == if pn <= q < pn + cnt && Reached(s, pn, q) then Unmapped else Walk(s, q)
    decreases cnt
  {
    hide SpaceOk, UnmapPage, PageEntry, Walk, EntrySize, Reached;
    if cnt > 0 {
      UnmapPageEffect(s, pn);
      var (size, s1) := UnmapPage(s, pn);
      SizeZero(s, PageEntry(s, pn));
      ReachesFirst(s, pn);
      if size == 0 {
        forall q: nat | pn < q ensures !Reached(s, pn, q) {
          NotReached(s, pn, q, pn);
        }
      } else {
        forall q: nat ensures PageEntry(s1, q) == PageEntry(s, q)
          && EntrySize(s1, PageEntry(s1, q)) == EntrySize(s, PageEntry(s, q))
        {
          UnmapKeepsEntries(s, pn, q);
        }
        forall q: nat | pn + 1 <= q < pn + cnt ensures InSpace(s1, q) && EntrySize(s1, PageEntry(s1, q)) != 0x200000 {
          assert InSpace(s, q);
        }
        UnmapRangeEffect(s1, pn + 1, cnt - 1);
        forall q: nat | pn < q ensures Reached(s, pn, q) <==> Reached(s1, pn + 1, q) {
          ReachedStep(s, s1, pn, q);
        }
        forall q: nat | InSpace(s, q) ensures InSpace(s1, q) {
        }
      }
    }
  }

  /** Of a range without 2 MiB entries no page stays mapped if and only if no mapped page follows, in
      the range, a page that has no entry. */
  lemma UnmapRangeClears(s: Space, pn: nat, cnt: nat)
    requires SpaceOk(s) && NoLarge(s, pn, cnt)
    ensures (forall q: nat :: pn <= q < pn + cnt ==> Walk(UnmapRange(s, pn, cnt), q) == Unmapped) <==>
      (forall p: nat, q: nat :: pn <= p < q < pn + cnt && PageEntry(s, p).None? ==> Walk(s, q) == Unmapped)
  {
    hide SpaceOk, UnmapRange, PageEntry, Walk, EntrySize;
    UnmapRangeEffect(s, pn, cnt);
    forall q: nat | pn <= q < pn + cnt ensures InSpace(s, q) {
    }
  }

  /** A mapped 4 KiB page has a 4 KiB entry. */
  lemma SmallEntry(s: Space, q: nat)
    requires SpaceOk(s) && InSpace(s, q) && Walk(s, q).Small?
    ensures PageEntry(s, q).Some? && EntrySize(s, PageEntry(s, q)) == 0x1000
  {
    hide SpaceOk, Walk, UnmapPage, PageEntry, EntrySize;
    UnmapPageEffect(s, q);
    SizeZero(s, PageEntry(s, q));
  }

  lemma SmallRange(s: Space, pn: nat, cnt: nat)
    requires SpaceOk(s) && forall q: nat :: pn <= q < pn + cnt ==> InSpace(s, q) && Walk(s, q).Small?
    ensures NoLarge(s, pn, cnt) && forall q: nat :: pn <= q < pn + cnt ==> Reached(s, pn, q)
  {
    hide SpaceOk, Walk, PageEntry, EntrySize;
    forall q: nat | pn <= q < pn + cnt
      ensures PageEntry(s, q).Some? && InSpace(s, q) && EntrySize(s, PageEntry(s, q)) != 0x200000
    {
      SmallEntry(s, q);
    }
  }

  lemma RestoredOutside(s: Space, s1: Space, s2: Space, pn: nat, cnt: nat)
    requires s1.depth == s.depth && OnlyAt(s, s1, pn, pn + cnt) && OnlyAt(s1, s2, pn, pn + cnt)
    requires forall q: nat :: pn <= q < pn + cnt ==> Walk(s2, q) == Walk(s, q)
    ensures forall q: nat :: InSpace(s, q) ==> Walk(s2, q) == Walk(s, q)
  {
    forall q: nat | InSpace(s, q) ensures Walk(s2, q) == Walk(s, q) {
      assert InSpace(s1, q);
    }
  }

  /** Unmapping a range that was unmapped before it was mapped restores every translation. */
  lemma UnmapRangeUndoesMapRange(s: Space, pn: nat, cnt: nat, flags: Word)
    requires SpaceOk(s) && FlagsOk(flags) && !Large(flags)
    requires forall q: nat :: pn <= q < pn + cnt ==> InSpace(s, q) && Walk(s, q) == Unmapped
    ensures match MapRange(s, pn, cnt, flags)
      case None => true
      case Some(s') => forall q: nat :: InSpace(s, q) ==> Walk(UnmapRange(s', pn, cnt), q) == Walk(s, q)
  {
    if MapRange(s, pn, cnt, flags).Some? {
      MapRangeEffect(s, pn, cnt, flags);
      var s' := MapRange(s, pn, cnt, flags).value;
      forall q: nat | pn <= q < pn + cnt ensures InSpace(s', q) && Walk(s', q).Small? {
        assert InSpace(s, q);
      }
      SmallRange(s', pn, cnt);
      UnmapRangeEffect(s', pn, cnt);
      RestoredOutside(s, s', UnmapRange(s', pn, cnt), pn, cnt);
    }
  }

  // ---------------------------------------------------------------- mapping given frames

  /** The numbers from `from` on, `cnt` of them. */
  function Count(from: nat, cnt: nat): (r: seq<nat>)
    ensures |r| == cnt && forall k :: 0 <= k < cnt ==> r[k] == from + k
    ensures forall c :: c in r <==> from <= c < from + cnt
    decreases cnt
  {
    if cnt == 0 then [] else [from] + Count(from + 1, cnt - 1)
  }

  /** Maps pages from `pn` on to the given frames. */
  ghost function MapList(s: Space, pn: nat, frames: seq<nat>, flags: Word): Option<Space>
    requires flags.page == 0
    decreases |frames|
  {
    if frames == [] then Some(s)
    else if s.depth == 0 then None
    else match MapPage(s, pn, Addr(frames[0]), flags)
      case None => None
      case Some(s') => MapList(s', pn + 1, frames[1..], flags)
  }

  ghost predicate ListMapped(s: Space, s': Space, pn: nat, frames: seq<nat>, flags: Word)
    requires flags.page == 0
  {
    forall q: nat :: InSpace(s, q) ==>
      Walk(s', q) == if pn <= q < pn + |frames| then Small(Leaf(Addr(frames[q - pn]), flags)) else Walk(s, q)
  }

  lemma {:induction false} MapListEffect(s: Space, pn: nat, frames: seq<nat>, flags: Word)
    requires SpaceOk(s) && FlagsOk(flags) && !Large(flags) && RangeMappable(s, pn, |frames|)
    ensures match MapList(s, pn, frames, flags)
      case None => true
      case Some(s') => SpaceOk(s') && Extends(s, s') && ListMapped(s, s', pn, frames, flags)
    decreases |frames|
  {
    hide MapPage, PmmOk, TablesLive;
    if frames != [] {
      MapPageEffect(s, pn, Addr(frames[0]), flags);
      if MapPage(s, pn, Addr(frames[0]), flags).Some? {
        var s1 := MapPage(s, pn, Addr(frames[0]), flags).value;
        forall q: nat | pn + 1 <= q < pn + |frames| ensures InSpace(s1, q) && !Walk(s1, q).Big? {
          assert InSpace(s, q);
        }
        MapListEffect(s1, pn + 1, frames[1..], flags);
        if MapList(s, pn, frames, flags).Some? {
          ExtendsTransitive(s, s1, MapList(s, pn, frames, flags).value);
        }
      }
    }
  }

  /** Given frames can be mapped if there are as many clear bits as frames, times one less than the
      number of levels. */
  lemma {:induction false} MapListBound(s: Space, pn: nat, frames: seq<nat>, flags: Word)
    requires SpaceOk(s) && FlagsOk(flags) && !Large(flags) && RangeMappable(s, pn, |frames|)
    requires FreePages(s.pmm.chain) >= Times(|frames|, s.depth - 1)
    ensures MapList(s, pn, frames, flags).Some?
    ensures FreePages(MapList(s, pn, frames, flags).value.pmm.chain) + Times(|frames|, s.depth - 1)
         >= FreePages(s.pmm.chain)
    decreases |frames|
  {
    hide FreePages, SpaceOk, MapPage, Walk, Times;
    DepthOfSpace(s);
    if frames == [] {
      TimesStep(0, s.depth - 1);
    } else {
      var n := |frames|;
      TimesStep(n - 1, s.depth - 1);
      MapPageBound(s, pn, Addr(frames[0]), flags);
      MapPageEffect(s, pn, Addr(frames[0]), flags);
      var s1 := MapPage(s, pn, Addr(frames[0]), flags).value;
      forall q: nat | pn + 1 <= q < pn + n ensures InSpace(s1, q) && !Walk(s1, q).Big? {
        assert InSpace(s, q);
      }
      MapListBound(s1, pn + 1, frames[1..], flags);
    }
  }
}
