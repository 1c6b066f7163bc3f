/** The default address space: the kernel image in 4 KiB pages and all of physical memory in
    2 MiB slots at a fixed offset. */
module DirectMap {
  import opened Words
  import opened Physical
  import opened PageTables
  import opened PageOperations
  import opened Virtual

  const SLOT := 0x20_0000

  // ---------------------------------------------------------------- a new space

  /** Memory without an address space yet. */
  function Bare(pmm: Pmm, tables: map<nat, Table>, bytes: map<nat, PageBytes>, depth: nat): Space {
    Space(pmm, tables, bytes, depth, 0, map[])
  }

  /** A root table in a new frame. */
  ghost function NewSpace(m: Space): Option<Space> {
    match AllocBlock(m, 1, 1)
    case None => None
    case Some((root, s)) =>
      Some(s.(root := root, bytes := s.bytes - {root}, place := map[root := Place(s.depth, 0, root)]))
  }

  /** A new space translates nothing. */
  lemma NewSpaceEffect(m: Space)
    requires PmmOk(m.pmm) && m.depth > 2
    ensures match NewSpace(m)
      case None => true
      case Some(s) =>
        && SpaceOk(s) && s.depth == m.depth && m.pmm.live <= s.pmm.live && !Owned(m.pmm.live, s.root)
        && forall q: nat :: Walk(s, q) == Unmapped
  {
    AllocKeepsOk(m.pmm, 1, 1);
    if AllocBlock(m, 1, 1).Some? {
      var (root, s1) := AllocBlock(m, 1, 1).value;
      FilledAt(m.tables, root, 1, EmptyTable());
      var s := NewSpace(m).value;
      assert TableAt(s.tables, root) == EmptyTable();
      assert forall i: nat :: i < 512 ==> !Present(Get(s.tables, root, i)) by {
        assert !Present(ZERO);
      }
      NewPagesUnowned(m.pmm.live, Block(root, 1), root);
    }
  }

  // ---------------------------------------------------------------- the direct map

  /** The flags of a direct-map slot: P, RW, PS, G and US. */
  function SlotFlags(): Word {
    Flags(false, P | RW | PS | G | US)
  }

  lemma SlotFlagsOk()
    ensures FlagsOk(SlotFlags()) && Large(SlotFlags())
  {
  }

  /** Maps the listed 2 MiB chunks of physical memory, one after the other, each at its fixed
      place above page `high`. */
  ghost function MapChunks(s: Space, high: nat, chunks: seq<nat>): Option<Space>
    decreases |chunks|
  {
    if chunks == [] then Some(s)
    else if s.depth == 0 then None
    else match MapPage(s, high + chunks[0] * 512, Addr(chunks[0] * 512), SlotFlags())
      case None => None
      case Some(s') => MapChunks(s', high, chunks[1..])
  }

  /** Every mapped chunk lies at its place, whichever of the overlapping requests came last, and
      everything else is as before. */
  ghost predicate DirectMapped(s: Space, s': Space, high: nat, chunks: seq<nat>) {
    forall q: nat :: InSpace(s, q) ==>
      Walk(s', q) ==
        if high <= q && (q - high) / 512 in chunks
        then Big(Leaf(Addr((q - high) / 512 * 512), SlotFlags()))
        else Walk(s, q)
  }

  lemma SameSlot(high: nat, c: nat, q: nat)
    requires high % 512 == 0
    ensures q / 512 == (high + c * 512) / 512 <==> high <= q && (q - high) / 512 == c
  {
  }

  lemma ChunkStep(s: Space, s1: Space, s': Space, high: nat, chunks: seq<nat>)
    requires chunks != [] && high % 512 == 0 && s1.depth == s.depth
    requires Remapped(s, s1, high + chunks[0] * 512, Leaf(Addr(chunks[0] * 512), SlotFlags()), true)
    requires DirectMapped(s1, s', high, chunks[1..])
    ensures DirectMapped(s, s', high, chunks)
  {
    var c := chunks[0];
    forall q: nat | InSpace(s, q)
      ensures Walk(s', q) ==
        if high <= q && (q - high) / 512 in chunks
        then Big(Leaf(Addr((q - high) / 512 * 512), SlotFlags()))
        else Walk(s, q)
    {
      SameSlot(high, c, q);
      assert InSpace(s1, q);
      assert high <= q ==> ((q - high) / 512 in chunks <==> (q - high) / 512 == c || (q - high) / 512 in chunks[1..]);
    }
  }

  lemma {:induction false} MapChunksEffect(s: Space, high: nat, chunks: seq<nat>)
    requires SpaceOk(s) && high % 512 == 0
    requires forall c :: c in chunks ==> InSpace(s, high + c * 512)
    ensures match MapChunks(s, high, chunks)
      case None => true
      case Some(s') => SpaceOk(s') && Extends(s, s') && DirectMapped(s, s', high, chunks)
    decreases |chunks|
  {
    hide MapPage, PmmOk, TablesLive;
    if chunks != [] {
      var c := chunks[0];
      assert c in chunks && forall x :: x in chunks[1..] ==> x in chunks;
      SlotFlagsOk();
      MapPageEffect(s, high + c * 512, Addr(c * 512), SlotFlags());
      if MapPage(s, high + c * 512, Addr(c * 512), SlotFlags()).Some? {
        var s1 := MapPage(s, high + c * 512, Addr(c * 512), SlotFlags()).value;
        MapChunksEffect(s1, high, chunks[1..]);
        if MapChunks(s, high, chunks).Some? {
          var s' := MapChunks(s, high, chunks).value;
          ExtendsTransitive(s, s1, s');
          ChunkStep(s, s1, s', high, chunks);
        }
      }
    }
  }

  // ---------------------------------------------------------------- which chunks

  /** A region of the firmware's memory map, in bytes. */
  datatype Region = Region(base: nat, length: nat)

  function RegionChunks(g: Region): seq<nat> {
    Count(g.base / SLOT, DivRoundUp(g.length, SLOT))
  }

  function AllRegionChunks(mmap: seq<Region>): seq<nat>
    decreases |mmap|
  {
    if mmap == [] then [] else RegionChunks(mmap[0]) + AllRegionChunks(mmap[1..])
  }

  /** The first 4 GiB and then every region of the memory map. */
  function DefaultChunks(mmap: seq<Region>): seq<nat> {
    Count(0, 0x800) + AllRegionChunks(mmap)
  }

  lemma {:induction false} AllRegionChunksAre(mmap: seq<Region>, c: nat)
    ensures c in AllRegionChunks(mmap) <==> exists k :: 0 <= k < |mmap| && c in RegionChunks(mmap[k])
    decreases |mmap|
  {
    if mmap != [] {
      AllRegionChunksAre(mmap[1..], c);
      if k :| 0 <= k < |mmap| && c in RegionChunks(mmap[k]) {
        assert k > 0 ==> mmap[k] == mmap[1..][k - 1];
      }
      if k :| 0 <= k < |mmap[1..]| && c in RegionChunks(mmap[1..][k]) {
        assert mmap[1..][k] == mmap[k + 1];
      }
    }
  }

  /** The loop for a region covers all of it if and only if its offset in the first chunk plus its
      length fits in the number of chunks that its length alone rounds up to. */
  lemma RegionCovered(g: Region)
    requires g.length > 0
    ensures (forall p :: g.base <= p < g.base + g.length ==> p / SLOT in RegionChunks(g)) <==>
      g.base % SLOT + g.length <= DivRoundUp(g.length, SLOT) * SLOT
  {
    var n := DivRoundUp(g.length, SLOT);
    var last := g.base + g.length - 1;
    assert last / SLOT in RegionChunks(g) <==> last / SLOT < g.base / SLOT + n;
    forall p | g.base <= p < g.base + g.length ensures g.base / SLOT <= p / SLOT <= last / SLOT {
    }
  }

  // ---------------------------------------------------------------- the default space

  function KernelFlags(): Word {
    Flags(false, P | RW | G | US)
  }

  const KERNEL_PAGES := 0x6400

  /** Both kinds of pages are present, writable, global and of user mode, and can be executed. */
  lemma DefaultFlagsAre()
    ensures KernelFlags() == Of(1 | 2 | 0x100 | 4) && SlotFlags() == Of(1 | 2 | 0x80 | 0x100 | 4)
  {
    OfFlags(false, 0x107);
    OfFlags(false, 0x187);
  }

  /** A new space with the kernel image at page `kernel` and the direct map from page `high` on. */
  ghost function DefaultSpace(m: Space, kernel: nat, frame: nat, high: nat, mmap: seq<Region>): Option<Space> {
    match NewSpace(m)
    case None => None
    case Some(s0) =>
      match MapList(s0, kernel, Count(frame, KERNEL_PAGES), KernelFlags())
      case None => None
      case Some(s1) => MapChunks(s1, high, DefaultChunks(mmap))
  }

  /** The physical address that a virtual one (its low 48 or 57 bits) is translated to. */
  function Translate(s: Space, v: nat): Option<nat> {
    match Walk(s, v / PAGE_SIZE)
    case Unmapped => None
    case Small(e) => Some(e.page * PAGE_SIZE + v % PAGE_SIZE)
    case Big(e) => Some(e.page * PAGE_SIZE + v % SLOT)
  }

  /** Page `q` belongs to a mapped chunk of the direct map. */
  ghost predicate InDirectMap(high: nat, mmap: seq<Region>, q: nat) {
    high <= q && (q - high) / 512 in DefaultChunks(mmap)
  }

  /** The kernel's pages and the direct map both fit into the space. */
  ghost predicate Fits(depth: nat, kernel: nat, high: nat, mmap: seq<Region>) {
    && depth > 2 && high % 512 == 0
    && (forall q: nat :: kernel <= q < kernel + KERNEL_PAGES ==> Key(depth, q) == 0)
    && (forall c :: c in DefaultChunks(mmap) ==> Key(depth, high + c * 512) == 0)
  }

  /** The default space maps the chunks of the direct map and, where those do not cover them, the
      kernel's pages; nothing else. */
  lemma DefaultSpaceEffect(m: Space, kernel: nat, frame: nat, high: nat, mmap: seq<Region>)
    requires PmmOk(m.pmm) && Fits(m.depth, kernel, high, mmap)
    ensures match DefaultSpace(m, kernel, frame, high, mmap)
      case None => true
      case Some(s) =>
        && SpaceOk(s) && s.depth == m.depth
        && forall q: nat :: Key(m.depth, q) == 0 ==>
             Walk(s, q) ==
               if InDirectMap(high, mmap, q) then Big(Leaf(Addr((q - high) / 512 * 512), SlotFlags()))
               else if kernel <= q < kernel + KERNEL_PAGES then Small(Leaf(Addr(frame + (q - kernel)), KernelFlags()))
               else Unmapped
  {
    hide MapList, MapChunks, DefaultChunks, NewSpace;
    NewSpaceEffect(m);
    if NewSpace(m).Some? {
      var s0 := NewSpace(m).value;
      assert FlagsOk(KernelFlags()) && !Large(KernelFlags());
      MapListEffect(s0, kernel, Count(frame, KERNEL_PAGES), KernelFlags());
      var r1 := MapList(s0, kernel, Count(frame, KERNEL_PAGES), KernelFlags());
      if r1.Some? {
        MapChunksEffect(r1.value, high, DefaultChunks(mmap));
        if DefaultSpace(m, kernel, frame, high, mmap).Some? {
          var s := DefaultSpace(m, kernel, frame, high, mmap).value;
          forall q: nat | Key(m.depth, q) == 0 ensures InSpace(s0, q) && InSpace(r1.value, q) {
          }
        }
      }
    }
  }

  /** The address lies in a region whose loop covers all of it. */
  predicate InCoveredRegion(g: Region, p: nat) {
    && g.base <= p < g.base + g.length
    && g.base % SLOT + g.length <= DivRoundUp(g.length, SLOT) * SLOT
  }

  /** The mapped chunks are those of the first 4 GiB and of the loops for the regions; among them is
      each region for which the chunk count suffices. */
  lemma ChunksCover(mmap: seq<Region>, p: nat)
    ensures p / SLOT in DefaultChunks(mmap) <==>
      p < 0x1_0000_0000 || exists k :: 0 <= k < |mmap| && p / SLOT in RegionChunks(mmap[k])
    ensures forall k :: 0 <= k < |mmap| && InCoveredRegion(mmap[k], p) ==> p / SLOT in DefaultChunks(mmap)
  {
    AllRegionChunksAre(mmap, p / SLOT);
    forall k | 0 <= k < |mmap| && InCoveredRegion(mmap[k], p) ensures p / SLOT in DefaultChunks(mmap) {
      RegionCovered(mmap[k]);
      assert p / SLOT in RegionChunks(mmap[k]);
    }
  }

  lemma LoopCoversRest(g: Region, p: nat)
    requires g.base <= p < g.base + g.length && p / SLOT != (g.base + g.length - 1) / SLOT
    ensures g.base / SLOT <= p / SLOT < g.base / SLOT + DivRoundUp(g.length, SLOT)
  {
    var b, e := g.base / SLOT, (g.base + g.length - 1) / SLOT;
    assert p / SLOT <= e;
    assert (e - b) * SLOT < g.length + SLOT;
    assert g.length <= DivRoundUp(g.length, SLOT) * SLOT;
  }

  lemma OtherChunksMapped(mmap: seq<Region>, k: nat, p: nat)
    requires k < |mmap| && mmap[k].base <= p < mmap[k].base + mmap[k].length
    requires p / SLOT != (mmap[k].base + mmap[k].length - 1) / SLOT
    ensures p / SLOT in DefaultChunks(mmap)
  {
    LoopCoversRest(mmap[k], p);
    assert p / SLOT in RegionChunks(mmap[k]);
    AllRegionChunksAre(mmap, p / SLOT);
  }

  /** The 2 MiB chunk of a physical address is mapped by one of the loops. */
  ghost predicate ChunkMapped(mmap: seq<Region>, p: nat) {
    p / SLOT in DefaultChunks(mmap)
  }

  /** The loop for a region misses at most its last chunk, so the region is mapped as a whole if and
      only if that chunk is mapped by any of the loops. */
  lemma RegionNeedsLastChunk(mmap: seq<Region>, k: nat)
    requires k < |mmap| && mmap[k].length > 0
    ensures (forall p: nat :: mmap[k].base <= p < mmap[k].base + mmap[k].length ==> ChunkMapped(mmap, p)) <==>
      ChunkMapped(mmap, mmap[k].base + mmap[k].length - 1)
  {
    hide DefaultChunks;
    forall p: nat | mmap[k].base <= p < mmap[k].base + mmap[k].length
      ensures ChunkMapped(mmap, p) || p / SLOT == (mmap[k].base + mmap[k].length - 1) / SLOT
    {
      if p / SLOT != (mmap[k].base + mmap[k].length - 1) / SLOT {
        OtherChunksMapped(mmap, k, p);
      }
    }
  }

  lemma DirectPage(high: nat, p: nat)
    ensures (high * PAGE_SIZE + p) / PAGE_SIZE == high + p / PAGE_SIZE
    ensures p / PAGE_SIZE / 512 == p / SLOT
  {
  }

  lemma DirectOffset(high: nat, p: nat)
    requires high % 512 == 0
    ensures p / SLOT * 512 * PAGE_SIZE + (high * PAGE_SIZE + p) % SLOT == p
  {
    assert high * PAGE_SIZE == high / 512 * SLOT;
  }

  lemma InDirectChunk(high: nat, mmap: seq<Region>, p: nat)
    ensures InDirectMap(high, mmap, high + p / PAGE_SIZE) <==> p / SLOT in DefaultChunks(mmap)
  {
    hide DefaultChunks;
    DirectPage(high, p);
  }

  lemma DirectWalk(m: Space, kernel: nat, frame: nat, high: nat, mmap: seq<Region>, p: nat)
    requires PmmOk(m.pmm) && Fits(m.depth, kernel, high, mmap) && DefaultSpace(m, kernel, frame, high, mmap).Some?
    requires Key(m.depth, high + p / PAGE_SIZE) == 0
    ensures var s, q := DefaultSpace(m, kernel, frame, high, mmap).value, high + p / PAGE_SIZE;
      if p / SLOT in DefaultChunks(mmap) then Walk(s, q) == Big(Leaf(Addr(p / SLOT * 512), SlotFlags()))
      else kernel <= q < kernel + KERNEL_PAGES || Walk(s, q) == Unmapped
  {
    hide DefaultSpace, DefaultChunks, PmmOk, SpaceOk, Walk, Key, SlotFlags, KernelFlags, InDirectMap, Leaf, Addr;
    DefaultSpaceEffect(m, kernel, frame, high, mmap);
    var q := p / PAGE_SIZE;
    assert q / 512 == p / SLOT by {
      DirectPage(high, p);
    }
    InDirectChunk(high, mmap, p);
  }

  lemma TranslateDirect(s: Space, high: nat, p: nat)
    requires high % 512 == 0
    ensures Walk(s, high + p / PAGE_SIZE) == Big(Leaf(Addr(p / SLOT * 512), SlotFlags())) ==>
      Translate(s, high * PAGE_SIZE + p) == Some(p)
    ensures Walk(s, high + p / PAGE_SIZE) == Unmapped ==> Translate(s, high * PAGE_SIZE + p) == None
  {
    hide Walk, DivRoundUp;
    DirectPage(high, p);
    DirectOffset(high, p);
  }

  /** Every direct-map address that is mapped as such translates to its offset in the direct map,
      and no other address of the direct map outside the kernel's pages is mapped. */
  lemma DirectAddresses(m: Space, kernel: nat, frame: nat, high: nat, mmap: seq<Region>, p: nat)
    requires PmmOk(m.pmm) && Fits(m.depth, kernel, high, mmap) && DefaultSpace(m, kernel, frame, high, mmap).Some?
    requires Key(m.depth, high + p / PAGE_SIZE) == 0
    ensures var s, v := DefaultSpace(m, kernel, frame, high, mmap).value, high * PAGE_SIZE + p;
      if p / SLOT in DefaultChunks(mmap) then Translate(s, v) == Some(p)
      else kernel <= v / PAGE_SIZE < kernel + KERNEL_PAGES || Translate(s, v) == None
  {
    hide DefaultSpace, DefaultChunks, PmmOk, Walk, Key, SlotFlags, Leaf, Addr, Translate;
    DirectPage(high, p);
    DirectWalk(m, kernel, frame, high, mmap, p);
    TranslateDirect(DefaultSpace(m, kernel, frame, high, mmap).value, high, p);
  }

  /** The direct-map pages of a region lie in the space and not under the kernel image. */
  ghost predicate RegionFits(depth: nat, kernel: nat, high: nat, g: Region) {
    g.length > 0 && forall q: nat ::
      high + g.base / PAGE_SIZE <= q <= high + (g.base + g.length - 1) / PAGE_SIZE ==>
        Key(depth, q) == 0 && !(kernel <= q < kernel + KERNEL_PAGES)
  }

  /** In the default space a region of the memory map can be reached at every one of its direct-map
      addresses if and only if its last 2 MiB chunk is mapped by one of the loops. */
  lemma RegionMapped(m: Space, kernel: nat, frame: nat, high: nat, mmap: seq<Region>, k: nat)
    requires PmmOk(m.pmm) && Fits(m.depth, kernel, high, mmap) && DefaultSpace(m, kernel, frame, high, mmap).Some?
    requires k < |mmap| && RegionFits(m.depth, kernel, high, mmap[k])
    ensures var s := DefaultSpace(m, kernel, frame, high, mmap).value;
      (forall p: nat :: mmap[k].base <= p < mmap[k].base + mmap[k].length ==>
         Translate(s, high * PAGE_SIZE + p) == Some(p)) <==>
      ChunkMapped(mmap, mmap[k].base + mmap[k].length - 1)
  {
    hide DefaultSpace, DefaultChunks, PmmOk, Fits, Translate, Key;
    RegionNeedsLastChunk(mmap, k);
    var s, g := DefaultSpace(m, kernel, frame, high, mmap).value, mmap[k];
    forall p: nat | g.base <= p < g.base + g.length
      ensures Translate(s, high * PAGE_SIZE + p) == Some(p) <==> ChunkMapped(mmap, p)
    {
      DirectPage(high, p);
      assert Key(m.depth, high + p / PAGE_SIZE) == 0;
      DirectAddresses(m, kernel, frame, high, mmap, p);
    }
  }

  /** A region that its own loop does not cover, covered by the loop for the first 4 GiB, and one
      above that is not covered at all. */
  lemma RegionsBelowAreCovered()
    ensures var low, high := Region(0x10_0000, 0x20_0000), Region(0x1_0010_0000, 0x20_0000);
      && !(low.base % SLOT + low.length <= DivRoundUp(low.length, SLOT) * SLOT)
      && ChunkMapped([low, high], low.base + low.length - 1)
      && !ChunkMapped([low, high], high.base + high.length - 1)
  {
    hide DefaultChunks;
    var low, high := Region(0x10_0000, 0x20_0000), Region(0x1_0010_0000, 0x20_0000);
    ChunksCover([low, high], low.base + low.length - 1);
    ChunksCover([low, high], high.base + high.length - 1);
    assert [low, high][0] == low && [low, high][1] == high;
  }

  // ---------------------------------------------------------------- enough free pages

  lemma {:induction false} MapChunksBound(s: Space, high: nat, chunks: seq<nat>)
    requires SpaceOk(s) && high % 512 == 0 && forall c :: c in chunks ==> InSpace(s, high + c * 512)
    requires FreePages(s.pmm.chain) >= Times(|chunks|, s.depth - 1)
    ensures MapChunks(s, high, chunks).Some?
    decreases |chunks|
  {
    hide FreePages, SpaceOk, MapPage, Walk, SlotFlags, Times;
    DepthOfSpace(s);
    if chunks != [] {
      var c := chunks[0];
      TimesStep(|chunks| - 1, s.depth - 1);
      assert c in chunks && forall x :: x in chunks[1..] ==> x in chunks;
      SlotFlagsOk();
      MapPageBound(s, high + c * 512, Addr(c * 512), SlotFlags());
      MapPageEffect(s, high + c * 512, Addr(c * 512), SlotFlags());
      MapChunksBound(MapPage(s, high + c * 512, Addr(c * 512), SlotFlags()).value, high, chunks[1..]);
    }
  }

  lemma NewSpaceBound(m: Space)
    requires PmmOk(m.pmm) && FreePages(m.pmm.chain) >= 1
    ensures NewSpace(m).Some? && FreePages(NewSpace(m).value.pmm.chain) + 1 == FreePages(m.pmm.chain)
  {
    hide FreePages, PmmOk, PmmAlloc;
    OnePageCounts(m.pmm);
  }

  lemma KernelFlagsOk()
    ensures FlagsOk(KernelFlags()) && !Large(KernelFlags())
  {
  }

  lemma KernelListBound(s: Space, kernel: nat, frame: nat)
    requires SpaceOk(s) && forall q: nat :: Walk(s, q) == Unmapped
    requires forall q: nat :: kernel <= q < kernel + KERNEL_PAGES ==> Key(s.depth, q) == 0
    requires FreePages(s.pmm.chain) >= Times(KERNEL_PAGES, s.depth - 1)
    ensures MapList(s, kernel, Count(frame, KERNEL_PAGES), KernelFlags()).Some?
    ensures var s' := MapList(s, kernel, Count(frame, KERNEL_PAGES), KernelFlags()).value;
      && SpaceOk(s') && s'.depth == s.depth
      && FreePages(s'.pmm.chain) + Times(KERNEL_PAGES, s.depth - 1) >= FreePages(s.pmm.chain)
  {
    hide FreePages, SpaceOk, MapList, Walk, Key, KernelFlags, Times, ListMapped, Count;
    KernelFlagsOk();
    MapListBound(s, kernel, Count(frame, KERNEL_PAGES), KernelFlags());
    MapListEffect(s, kernel, Count(frame, KERNEL_PAGES), KernelFlags());
  }

  /** The default space can be built if there is a free page for the root and, for each page of the
      kernel and each chunk of the direct map, one for each level below it. */
  lemma DefaultSpaceBound(m: Space, kernel: nat, frame: nat, high: nat, mmap: seq<Region>)
    requires PmmOk(m.pmm) && Fits(m.depth, kernel, high, mmap)
    requires FreePages(m.pmm.chain) >= 1 + Times(KERNEL_PAGES + |DefaultChunks(mmap)|, m.depth - 1)
    ensures DefaultSpace(m, kernel, frame, high, mmap).Some?
  {
    hide FreePages, PmmOk, SpaceOk, NewSpace, MapList, MapChunks, DefaultChunks, Walk, KernelFlags, Times, Key, Count;
    TimesAdd(KERNEL_PAGES, |DefaultChunks(mmap)|, m.depth - 1);
    NewSpaceBound(m);
    NewSpaceEffect(m);
    var s0 := NewSpace(m).value;
    KernelFlagsOk();
    KernelListBound(s0, kernel, frame);
    var s1 := MapList(s0, kernel, Count(frame, KERNEL_PAGES), KernelFlags()).value;
    MapChunksBound(s1, high, DefaultChunks(mmap));
  }
}
