/** What mapping whole ranges does to the flags of the non-leaf entries, and what the hardware then
    grants in the default address space and on the pages of a loaded file. */
module RangeRights {
  import opened Words
  import opened Physical
  import opened PageTables
  import opened PageOperations
  import opened Rights
  import opened RightsHistory
  import opened TableIndices
  import opened Virtual
  import opened DirectMap
  import opened Elf
  import MemoryRuns

  // ---------------------------------------------------------------- flags that all links carry

  /** Mappings with these flags pass the flag `m` on to new non-leaf entries. */
  ghost predicate PassesOn(depth: nat, flags: Word, m: bv12) {
    FlagsOk(flags) && DirectoryOf(depth, flags).low & m != 0
  }

  lemma {:induction false} MapListCarries(s: Space, pn: nat, frames: seq<nat>, flags: Word, m: bv12)
    requires SpaceOk(s) && PassesOn(s.depth, flags, m) && !Large(flags) && LinksCarry(s, m)
    requires RangeMappable(s, pn, |frames|)
    ensures match MapList(s, pn, frames, flags)
      case None => true
      case Some(s') => LinksCarry(s', m) && s'.depth == s.depth
    decreases |frames|
  {
    hide MapPage, SpaceOk, Walk, LinksCarry;
    if frames != [] {
      DepthOfSpace(s);
      MapPageEffect(s, pn, Addr(frames[0]), flags);
      MapPageCarries(s, pn, Addr(frames[0]), flags, m);
      var r := MapPage(s, pn, Addr(frames[0]), flags);
      if r.Some? {
        forall q: nat | pn + 1 <= q < pn + |frames| ensures InSpace(r.value, q) && !Walk(r.value, q).Big? {
          assert InSpace(s, q);
        }
        MapListCarries(r.value, pn + 1, frames[1..], flags, m);
      }
    }
  }

  lemma MapFreshCarries(s: Space, pn: nat, flags: Word, m: bv12)
    requires SpaceOk(s) && PassesOn(s.depth, flags, m) && !Large(flags) && LinksCarry(s, m)
    requires InSpace(s, pn) && !Walk(s, pn).Big?
    ensures MapFresh(s, pn, flags).Some? ==>
      LinksCarry(MapFresh(s, pn, flags).value.1, m) && MapFresh(s, pn, flags).value.1.depth == s.depth
  {
    hide AllocBlock, MapPage, SpaceOk, Walk, LinksCarry;
    AllocBlockEffect(s, 1, 1);
    AllocBlockCarries(s, 1, 1, m);
    if AllocBlock(s, 1, 1).Some? {
      var (f, s1) := AllocBlock(s, 1, 1).value;
      MapPageEffect(s1, pn, Addr(f), flags);
      MapPageCarries(s1, pn, Addr(f), flags, m);
    }
  }

  lemma {:induction false} MapRangeCarries(s: Space, pn: nat, cnt: nat, flags: Word, m: bv12)
    requires SpaceOk(s) && PassesOn(s.depth, flags, m) && !Large(flags) && LinksCarry(s, m)
    requires RangeMappable(s, pn, cnt)
    ensures match MapRange(s, pn, cnt, flags)
      case None => true
      case Some(s') => LinksCarry(s', m)
    decreases cnt
  {
    hide MapFresh, SpaceOk, Walk, LinksCarry;
    if cnt > 0 {
      MapFreshEffect(s, pn, flags);
      MapFreshCarries(s, pn, flags, m);
      var r := MapFresh(s, pn, flags);
      if r.Some? {
        var (_, s1) := r.value;
        forall q: nat | pn + 1 <= q < pn + cnt ensures InSpace(s1, q) && !Walk(s1, q).Big? {
          assert InSpace(s, q);
        }
        MapRangeCarries(s1, pn + 1, cnt - 1, flags, m);
      }
    }
  }

  lemma LeafOfFrame(f: nat, flags: Word)
    requires flags.page == 0
    ensures Leaf(Addr(f), flags) == Word(flags.nx, f, flags.low)
  {
    assert 0 | flags.low == flags.low;
  }

  lemma WalkAtRoot(s: Space, q: nat)
    ensures Walk(s, q) == WalkFrom(s.tables, s.root, s.depth, q)
  {
  }

  /** What the hardware grants on a mapped page: what its flags say, writing only as far as all non-leaf
      entries above the page allow it. */
  lemma PageGrants(s: Space, q: nat, f: nat, flags: Word)
    requires SpaceOk(s) && LinksCarry(s, US) && flags.page == 0 && User(flags)
    requires Walk(s, q) == Small(Leaf(Addr(f), flags))
    ensures EffectiveGrant(s, q) ==
      Granted(Writable(flags) && AllCarry(s.tables, s.root, 2, s.depth, q, RW), true, !flags.nx)
    ensures LinksCarry(s, RW) ==> EffectiveGrant(s, q) == Granted(Writable(flags), true, !flags.nx)
  {
    hide Walk, WalkFrom, LinksCarry, GrantFrom, AllCarry;
    LeafOfFrame(f, flags);
    WalkAtRoot(s, q);
    GrantIsLeaf(s, s.root, q);
    GrantIsLeafAndLinks(s, s.root, q);
  }

  // ---------------------------------------------------------------- the default address space

  lemma {:induction false} MapChunksCarries(s: Space, high: nat, chunks: seq<nat>, m: bv12)
    requires SpaceOk(s) && PassesOn(s.depth, SlotFlags(), m) && LinksCarry(s, m)
    requires forall c :: c in chunks ==> InSpace(s, high + c * 512)
    ensures match MapChunks(s, high, chunks)
      case None => true
      case Some(s') => LinksCarry(s', m)
    decreases |chunks|
  {
    hide MapPage, SpaceOk, Walk, LinksCarry, SlotFlags, Leaf, Addr, FlagsOk, DirectoryOf, Large, Key;
    if chunks != [] {
      var c := chunks[0];
      assert c in chunks && forall x :: x in chunks[1..] ==> x in chunks;
      SlotFlagsOk();
      DepthOfSpace(s);
      MapPageEffect(s, high + c * 512, Addr(c * 512), SlotFlags());
      MapPageCarries(s, high + c * 512, Addr(c * 512), SlotFlags(), m);
      var r := MapPage(s, high + c * 512, Addr(c * 512), SlotFlags());
      if r.Some? {
        MapChunksCarries(r.value, high, chunks[1..], m);
      }
    }
  }

  lemma DefaultFlagsPassOn(depth: nat, m: bv12)
    requires m == RW || m == US
    ensures PassesOn(depth, KernelFlags(), m) && PassesOn(depth, SlotFlags(), m) && !Large(KernelFlags())
  {
  }

  lemma NewSpaceCarries(m: Space, flag: bv12)
    requires PmmOk(m.pmm) && m.depth > 2 && NewSpace(m).Some?
    ensures LinksCarry(NewSpace(m).value, flag)
  {
    hide PmmOk, NewSpace, LinksCarry, MemoryRuns.SystemOk;
    MemoryRuns.NewSystemOk(m, flag);
  }

  lemma DefaultSpaceCarries(m: Space, kernel: nat, frame: nat, high: nat, mmap: seq<Region>, flag: bv12)
    requires PmmOk(m.pmm) && Fits(m.depth, kernel, high, mmap) && (flag == RW || flag == US)
    ensures match DefaultSpace(m, kernel, frame, high, mmap)
      case None => true
      case Some(s) => LinksCarry(s, flag)
  {
    hide PmmOk, SpaceOk, NewSpace, MapList, MapChunks, DefaultChunks, Walk, Key, LinksCarry, PassesOn;
    hide KernelFlags, SlotFlags, Count, MemoryRuns.NewSystem, MemoryRuns.SystemOk;
    NewSpaceEffect(m);
    if NewSpace(m).Some? {
      var s0, frames := NewSpace(m).value, Count(frame, KERNEL_PAGES);
      NewSpaceCarries(m, flag);
      DefaultFlagsPassOn(m.depth, flag);
      KernelFlagsOk();
      assert forall q: nat :: kernel <= q < kernel + KERNEL_PAGES ==> InSpace(s0, q);
      MapListEffect(s0, kernel, frames, KernelFlags());
      MapListCarries(s0, kernel, frames, KernelFlags(), flag);
      var r := MapList(s0, kernel, frames, KernelFlags());
      if r.Some? {
        assert forall c :: c in DefaultChunks(mmap) ==> InSpace(r.value, high + c * 512);
        MapChunksCarries(r.value, high, DefaultChunks(mmap), flag);
      }
    }
  }

  /** The entry that a translation ends at is global. */
  ghost predicate Global(w: Mapping) {
    match w
    case Unmapped => false
    case Small(e) => e.low & G != 0
    case Big(e) => e.low & G != 0
  }

  lemma DefaultLeaves(f: nat)
    ensures var e, k := Leaf(Addr(f), SlotFlags()), Leaf(Addr(f), KernelFlags());
      && Writable(e) && User(e) && !e.nx && Global(Big(e))
      && Writable(k) && User(k) && !k.nx && Global(Small(k))
  {
    LeafOfFrame(f, SlotFlags());
    LeafOfFrame(f, KernelFlags());
  }

  lemma InDirectIsAbove(high: nat, mmap: seq<Region>, q: nat)
    requires InDirectMap(high, mmap, q)
    ensures high <= q
  {
    hide DefaultChunks;
  }

  /** In the default space, whatever its depth, the hardware grants everything on each page of the
      direct map and on each of the 0x6400 pages of the kernel, all of them are global, and on no other
      page anything. */
  lemma DefaultSpaceGrants(m: Space, kernel: nat, frame: nat, high: nat, mmap: seq<Region>, q: nat)
    requires PmmOk(m.pmm) && Fits(m.depth, kernel, high, mmap) && DefaultSpace(m, kernel, frame, high, mmap).Some?
    requires Key(m.depth, q) == 0
    ensures var s := DefaultSpace(m, kernel, frame, high, mmap).value;
      if InDirectMap(high, mmap, q) || kernel <= q < kernel + 0x6400 then
        EffectiveGrant(s, q) == Granted(true, true, true) && Global(Walk(s, q))
      else EffectiveGrant(s, q) == Denied
  {
    hide PmmOk, Fits, DefaultSpace, Key, Walk, WalkFrom, GrantFrom, LinksCarry, InDirectMap, SlotFlags, KernelFlags;
    hide Leaf, Addr, Writable, User, Global;
    var s := DefaultSpace(m, kernel, frame, high, mmap).value;
    DefaultSpaceEffect(m, kernel, frame, high, mmap);
    DefaultSpaceCarries(m, kernel, frame, high, mmap, RW);
    DefaultSpaceCarries(m, kernel, frame, high, mmap, US);
    WalkAtRoot(s, q);
    GrantIsLeaf(s, s.root, q);
    if InDirectMap(high, mmap, q) {
      InDirectIsAbove(high, mmap, q);
      DefaultLeaves((q - high) / 512 * 512);
    } else if kernel <= q < kernel + KERNEL_PAGES {
      DefaultLeaves(frame + (q - kernel));
    }
  }

  // ---------------------------------------------------------------- loaded segments

  lemma PageCopiedCarries(s: Space, f: nat, g: Segment, file: seq<bv8>, j: nat, m: bv12)
    requires LinksCarry(s, m) && f !in s.place && SegmentOk(g, file) && j < PageCount(g)
    ensures LinksCarry(PageCopied(s, f, g, file, j), m)
  {
    hide Overwrite, PageData, PageCount, SegmentOk;
    KeepsCarrying(s, PageCopied(s, f, g, file, j), m);
  }

  lemma {:induction false} CopyPagesCarries(s: Space, fs: seq<nat>, g: Segment, file: seq<bv8>, j: nat, m: bv12)
    requires SegmentOk(g, file) && |fs| == PageCount(g) && j <= |fs|
    requires SpaceOk(s) && Blank(s, fs, j) && LinksCarry(s, m)
    ensures LinksCarry(CopyPages(s, fs, g, file, j), m)
    decreases |fs| - j
  {
    hide SpaceOk, Walk, FilledPage, PageCopied, PageCount, SegmentOk, LinksCarry;
    if j < |fs| {
      PageCopiedKeeps(s, fs[j], g, file, j);
      PageCopiedCarries(s, fs[j], g, file, j, m);
      CopyPagesCarries(PageCopied(s, fs[j], g, file, j), fs, g, file, j + 1, m);
    }
  }

  /** A flag that the mappings of segments pass on. */
  ghost predicate SegmentsPassOn(depth: nat, m: bv12) {
    m == US || (m == RW && depth == 4)
  }

  lemma SegmentFlagsPassOn(g: Segment, depth: nat, m: bv12)
    requires SegmentsPassOn(depth, m)
    ensures PassesOn(depth, SegmentFlags(g), m) && !Large(SegmentFlags(g))
  {
    assert P | US | RW == 0x007 && P | US == 0x005;
  }

  lemma LoadSegmentCarries(s: Space, g: Segment, pn: nat, file: seq<bv8>, m: bv12)
    requires SpaceOk(s) && (g.load ==> SegmentOk(g, file) && RangeMappable(s, pn, PageCount(g)))
    requires SegmentsPassOn(s.depth, m) && LinksCarry(s, m)
    ensures match LoadSegment(s, g, pn, file)
      case None => true
      case Some(s') => LinksCarry(s', m)
  {
    hide SpaceOk, MapRange, RangeFrames, CopyPages, PageCount, SegmentFlags, SegmentOk, Walk, LinksCarry, PassesOn;
    hide SegmentsPassOn;
    if g.load && PageCount(g) > 0 && LoadSegment(s, g, pn, file).Some? {
      SegmentFlagsOk(g);
      SegmentFlagsPassOn(g, s.depth, m);
      var cnt, flags := PageCount(g), SegmentFlags(g);
      MapRangeEffect(s, pn, cnt, flags);
      MapRangeCarries(s, pn, cnt, flags, m);
      var s1, fs := MapRange(s, pn, cnt, flags).value, RangeFrames(s, pn, cnt, flags);
      BackedIsBlank(s, s1, pn, flags, fs);
      CopyPagesCarries(s1, fs, g, file, 0, m);
    }
  }

  lemma {:induction false} LoadAllCarries(s: Space, segs: seq<Segment>, loadOffset: nat, file: seq<bv8>, m: bv12)
    requires SpaceOk(s) && AllOk(segs, file) && Disjoint(s.depth, segs, loadOffset) && AllMappable(s, segs, loadOffset)
    requires SegmentsPassOn(s.depth, m) && LinksCarry(s, m)
    ensures match LoadAll(s, segs, loadOffset, file)
      case None => true
      case Some(s') => LinksCarry(s', m)
    decreases |segs|
  {
    hide SpaceOk, Walk, PageCount, SegmentOk, StartPage, LoadSegment, LinksCarry;
    if segs != [] && LoadAll(s, segs, loadOffset, file).Some? {
      var g, pn := segs[0], StartPage(s.depth, segs[0], loadOffset);
      assert g.load ==> forall q: nat :: pn <= q < pn + PageCount(g) ==> Spans(s.depth, segs[0], loadOffset, q);
      LoadSegmentCarries(s, g, pn, file, m);
      var s1 := FirstSegment(s, segs, loadOffset, file);
      LoadAllCarries(s1, segs[1..], loadOffset, file, m);
    }
  }

  lemma SegmentBits(g: Segment)
    ensures var flags := SegmentFlags(g);
      flags.page == 0 && Writable(flags) == g.write && User(flags) && flags.nx == !g.exec
  {
    assert P | US | RW == 0x007 && P | US == 0x005;
  }

  /** The rights of a loaded segment: on every page that its bytes lie in the hardware grants user mode,
      execution exactly if the header has X, and writing exactly if it has W and, with five levels, the
      non-leaf entries above the page allow it. */
  lemma SegmentRights(s: Space, segs: seq<Segment>, loadOffset: nat, file: seq<bv8>, i: nat, q: nat)
    requires SpaceOk(s) && LinksCarry(s, US)
    requires AllOk(segs, file) && Disjoint(s.depth, segs, loadOffset) && AllMappable(s, segs, loadOffset)
    requires i < |segs| && segs[i].load && !Outside(s.depth, segs[i], loadOffset, q)
    ensures match LoadAll(s, segs, loadOffset, file)
      case None => true
      case Some(s') =>
        && EffectiveGrant(s', q) ==
             Granted(segs[i].write && AllCarry(s'.tables, s'.root, 2, s'.depth, q, RW), true, segs[i].exec)
        && (s.depth == 4 && LinksCarry(s, RW) ==>
              EffectiveGrant(s', q) == Granted(segs[i].write, true, segs[i].exec))
  {
    hide SpaceOk, Walk, LoadAll, Outside, AllOk, Disjoint, AllMappable, LinksCarry, AllCarry, EffectiveGrant;
    hide SegmentFlags, PageCount, Elf.Held, StartPage, Writable, User, Leaf, Addr;
    var g := segs[i];
    LoadAllEffect(s, segs, loadOffset, file);
    LoadAllCarries(s, segs, loadOffset, file, US);
    if s.depth == 4 && LinksCarry(s, RW) {
      LoadAllCarries(s, segs, loadOffset, file, RW);
    }
    if LoadAll(s, segs, loadOffset, file).Some? {
      var s' := LoadAll(s, segs, loadOffset, file).value;
      OutsideNotSpanned(s.depth, g, loadOffset, q);
      assert PageLoaded(s', g, StartPage(s.depth, g, loadOffset), file, q);
      SegmentBits(g);
      PageGrants(s', q, Walk(s', q).e.page, SegmentFlags(g));
    }
  }
}
