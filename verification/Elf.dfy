/** Loading the segments of an ELF file: every byte of a segment ends up where its virtual address
    says; chapter 5 of the System V gABI. */
module Elf {
  import opened Words
  import opened Physical
  import opened PageTables
  import opened PageOperations
  import opened TableIndices
  import opened Virtual

  /** A program header, with its type and flag bits already told apart. */
  datatype Segment = Segment(load: bool, vaddr: nat, offset: nat, filesz: nat, write: bool, exec: bool)

  function SegmentFlags(g: Segment): Word {
    Flags(!g.exec, if g.write then P | US | RW else P | US)
  }

  /** The flags as the loader puts them together: P, US and NX, then RW for W, then NX off for X. */
  lemma SegmentFlagsAre(g: Segment)
    ensures var base: bv64 := 1 | 4 | NX;
      var written := if g.write then base | 2 else base;
      SegmentFlags(g) == Of(if g.exec then written & !NX else written)
  {
    OfFlags(!g.exec, if g.write then 7 else 5);
  }

  function Misalignment(g: Segment): nat {
    g.vaddr % PAGE_SIZE
  }

  /** The branch that adds a page: the misalignment pushes the segment over its own page count. */
  predicate ExtraPage(g: Segment) {
    Misalignment(g) + g.filesz > DivRoundUp(g.filesz, PAGE_SIZE) * PAGE_SIZE
  }

  function PageCount(g: Segment): nat {
    var n := DivRoundUp(Misalignment(g) + g.filesz, PAGE_SIZE);
    if ExtraPage(g) then n + 1 else n
  }

  /** The misalignment pushes the last part of the segment over the end of a page. */
  predicate Overhangs(g: Segment) {
    var tail := g.filesz % PAGE_SIZE;
    if tail == 0 then g.vaddr % PAGE_SIZE > 0 else g.vaddr % PAGE_SIZE + tail > PAGE_SIZE
  }

  lemma ExtraIffOverhangs(g: Segment)
    ensures ExtraPage(g) <==> Overhangs(g)
  {
    var n, tail := g.filesz / PAGE_SIZE, g.filesz % PAGE_SIZE;
    assert g.filesz == n * PAGE_SIZE + tail;
    assert DivRoundUp(g.filesz, PAGE_SIZE) == if tail == 0 then n else n + 1;
  }

  /** A segment gets the pages that its bytes lie in, and one more exactly if it overhangs. */
  lemma PageCountIs(g: Segment)
    ensures var first, end := g.vaddr / PAGE_SIZE, g.vaddr + g.filesz;
      PageCount(g) == (end + PAGE_SIZE - 1) / PAGE_SIZE - first + (if Overhangs(g) then 1 else 0)
    ensures Misalignment(g) + g.filesz <= PageCount(g) * PAGE_SIZE
    ensures PageCount(g) * PAGE_SIZE < Misalignment(g) + g.filesz + (if Overhangs(g) then 2 * PAGE_SIZE else PAGE_SIZE)
  {
    ExtraIffOverhangs(g);
    hide Overhangs, ExtraPage;
    var first := g.vaddr / PAGE_SIZE;
    assert g.vaddr == first * PAGE_SIZE + Misalignment(g);
  }

  // ---------------------------------------------------------------- dividing by zero

  /** The divisor of the remainder that gives the size of the last page's part is not zero. */
  predicate Divides(g: Segment, j: nat) {
    PAGE_SIZE + j * PAGE_SIZE > g.filesz ==> j * PAGE_SIZE != 0
  }

  predicate LongEnough(g: Segment) {
    g.filesz >= PAGE_SIZE || (g.filesz == 0 && g.vaddr % PAGE_SIZE == 0)
  }

  /** Loading divides by zero unless the segment is a page long, or empty and page-aligned. */
  lemma DividesIffLongEnough(g: Segment)
    ensures (forall j: nat :: j < PageCount(g) ==> Divides(g, j)) <==> LongEnough(g)
  {
    if !LongEnough(g) {
      assert PageCount(g) > 0 && !Divides(g, 0);
    }
  }

  // ---------------------------------------------------------------- how much is copied

  /** How many bytes are to be copied for page `j`, from its start on. */
  function CopyCount(g: Segment, j: nat): nat
    requires Divides(g, j)
  {
    if PAGE_SIZE + j * PAGE_SIZE > g.filesz then g.filesz % (j * PAGE_SIZE) else PAGE_SIZE
  }

  /** Where in page `j` the copy starts. */
  function CopyStart(g: Segment, j: nat): nat {
    if j == 0 then Misalignment(g) else 0
  }

  lemma Remainder(x: nat, d: nat)
    requires 0 < d && x < 2 * d
    ensures x % d == if x < d then x else x - d
  {
    var q := x / d;
    assert q >= 2 ==> q * d >= 2 * d;
    assert x < d ==> q < 1 || q * d >= d;
  }

  /** The remainder is what is left for the last page, but the whole size for a page past the end. */
  lemma CopyCountIs(g: Segment, j: nat)
    requires g.filesz >= PAGE_SIZE
    ensures Divides(g, j)
    ensures CopyCount(g, j) ==
      if (j + 1) * PAGE_SIZE <= g.filesz then PAGE_SIZE
      else if j * PAGE_SIZE <= g.filesz then g.filesz - j * PAGE_SIZE
      else g.filesz
  {
    if (j + 1) * PAGE_SIZE > g.filesz {
      Remainder(g.filesz, j * PAGE_SIZE);
    }
  }

  /** There are pages past the end exactly if the branch adds a page. */
  lemma PagesPastEnd(g: Segment, j: nat)
    requires g.filesz >= PAGE_SIZE
    ensures j < PageCount(g) && j * PAGE_SIZE > g.filesz ==> ExtraPage(g) && j >= g.filesz / PAGE_SIZE + 1
    ensures ExtraPage(g) ==> g.filesz / PAGE_SIZE + 1 < PageCount(g)
  {
  }

  /** What a read of `cnt` bytes at `offset` yields. */
  function Read(file: seq<bv8>, offset: nat, cnt: nat): (r: seq<bv8>)
    ensures |r| == if |file| <= offset then 0 else if |file| < offset + cnt then |file| - offset else cnt
    ensures forall k :: 0 <= k < |r| ==> r[k] == file[offset + k]
  {
    if |file| < offset then []
    else if |file| < offset + cnt then file[offset..]
    else file[offset..offset + cnt]
  }

  /** What is copied into page `j`. */
  function PageData(g: Segment, file: seq<bv8>, j: nat): seq<bv8>
    requires g.filesz >= PAGE_SIZE
  {
    CopyCountIs(g, j);
    Read(file, g.offset + j * PAGE_SIZE, CopyCount(g, j) - CopyStart(g, j))
  }

  /** The file ends before a copy for a page past the end can leave its frame. */
  predicate StaysInside(g: Segment, file: seq<bv8>) {
    !ExtraPage(g) || g.filesz == PAGE_SIZE || |file| <= g.offset + (g.filesz / PAGE_SIZE + 2) * PAGE_SIZE
  }

  lemma CopyInside(g: Segment, file: seq<bv8>, j: nat)
    requires g.filesz >= PAGE_SIZE && j < PageCount(g) && StaysInside(g, file)
    ensures CopyStart(g, j) + |PageData(g, file, j)| <= PAGE_SIZE
  {
    CopyCountIs(g, j);
    PagesPastEnd(g, j);
    if j * PAGE_SIZE > g.filesz {
      assert j * PAGE_SIZE >= (g.filesz / PAGE_SIZE + 1) * PAGE_SIZE;
    }
  }

  /** Every copy stays inside its frame if and only if the misalignment adds no page, or the segment
      is exactly one page long, or the file ends soon enough. */
  lemma CopiesStayInside(g: Segment, file: seq<bv8>)
    requires g.filesz >= PAGE_SIZE
    ensures (forall j: nat :: j < PageCount(g) ==> CopyStart(g, j) + |PageData(g, file, j)| <= PAGE_SIZE) <==>
      StaysInside(g, file)
  {
    var a := g.filesz / PAGE_SIZE;
    if StaysInside(g, file) {
      forall j: nat | j < PageCount(g) ensures CopyStart(g, j) + |PageData(g, file, j)| <= PAGE_SIZE {
        CopyInside(g, file, j);
      }
    } else {
      PagesPastEnd(g, a + 1);
      CopyCountIs(g, a + 1);
      assert CopyStart(g, a + 1) + |PageData(g, file, a + 1)| > PAGE_SIZE;
    }
  }

  /** A misaligned segment of one and a half pages in a longer file: the copy for its third page is
      longer than a page. */
  lemma CopyCanLeaveFrame(file: seq<bv8>)
    requires |file| == 0x4800
    ensures var g := Segment(true, 0x900, 0, 0x1800, false, false);
      g.offset + g.filesz <= |file| && PageCount(g) == 4 && |PageData(g, file, 2)| == 0x1800
  {
    CopyCountIs(Segment(true, 0x900, 0, 0x1800, false, false), 2);
  }

  // ---------------------------------------------------------------- copying

  /** The segments that the loader gets through: no division by zero, no copy outside a frame. */
  ghost predicate SegmentOk(g: Segment, file: seq<bv8>) {
    LongEnough(g) && StaysInside(g, file)
  }

  function Overwrite(page: PageBytes, at: nat, data: seq<bv8>): PageBytes
    requires at + |data| <= 0x1000
  {
    page[..at] + data + page[at + |data|..]
  }

  /** Copies data into a frame; from then on the frame is seen as bytes only. */
  function CopyTo(s: Space, f: nat, at: nat, data: seq<bv8>): Space
    requires at + |data| <= 0x1000
  {
    s.(bytes := s.bytes[f := Overwrite(if f in s.bytes then s.bytes[f] else ZeroPage(), at, data)],
       tables := s.tables - {f})
  }

  lemma NonEmptyPages(g: Segment, file: seq<bv8>)
    requires SegmentOk(g, file) && PageCount(g) > 0
    ensures g.filesz >= PAGE_SIZE
  {
  }

  /** Page `j` of a segment once it is filled. */
  function FilledPage(g: Segment, file: seq<bv8>, j: nat): PageBytes
    requires SegmentOk(g, file) && j < PageCount(g)
  {
    NonEmptyPages(g, file);
    CopyInside(g, file, j);
    Overwrite(ZeroPage(), CopyStart(g, j), PageData(g, file, j))
  }

  function PageCopied(s: Space, f: nat, g: Segment, file: seq<bv8>, j: nat): Space
    requires SegmentOk(g, file) && j < PageCount(g)
  {
    NonEmptyPages(g, file);
    CopyInside(g, file, j);
    CopyTo(s, f, CopyStart(g, j), PageData(g, file, j))
  }

  /** Fills the frames of a segment's pages, from page `j` on. */
  function CopyPages(s: Space, fs: seq<nat>, g: Segment, file: seq<bv8>, j: nat): Space
    requires SegmentOk(g, file) && |fs| == PageCount(g) && j <= |fs|
    decreases |fs| - j
  {
    if j == |fs| then s else CopyPages(PageCopied(s, fs[j], g, file, j), fs, g, file, j + 1)
  }

  function At(file: seq<bv8>, x: nat): bv8 {
    if x < |file| then file[x] else 0
  }

  /** Byte `k` of the segment's pages after loading. The first page holds the start of the segment at
      its misalignment; from the second page on the misalignment is forgotten. */
  function Held(g: Segment, file: seq<bv8>, k: nat): bv8 {
    if k < Misalignment(g) then 0
    else if k < PAGE_SIZE then At(file, g.offset + k - Misalignment(g))
    else if k < g.filesz || k / PAGE_SIZE * PAGE_SIZE > g.filesz then At(file, g.offset + k)
    else 0
  }

  lemma FilledPageHolds(g: Segment, file: seq<bv8>, j: nat, i: nat)
    requires SegmentOk(g, file) && j < PageCount(g) && i < 0x1000
    ensures FilledPage(g, file, j)[i] == Held(g, file, j * PAGE_SIZE + i)
  {
    NonEmptyPages(g, file);
    CopyInside(g, file, j);
    CopyCountIs(g, j);
    assert (j * PAGE_SIZE + i) / PAGE_SIZE == j;
  }

  // ---------------------------------------------------------------- which segments are loaded right

  ghost predicate ByteRight(g: Segment, file: seq<bv8>, t: nat) {
    Held(g, file, Misalignment(g) + t) == At(file, g.offset + t)
  }

  /** Every byte of the segment's part of the file is held where its virtual address says. */
  ghost predicate LoadedRight(g: Segment, file: seq<bv8>) {
    forall t: nat :: t < g.filesz ==> ByteRight(g, file, t)
  }

  lemma AlignedIsRight(g: Segment, file: seq<bv8>)
    requires g.vaddr % PAGE_SIZE == 0
    ensures LoadedRight(g, file)
  {
  }

  /** A file that ends with the segment and is zero except where the second page of the segment is
      to be read from. */
  function Telltale(g: Segment): seq<bv8> {
    seq(g.offset + g.filesz, x => if x == g.offset + PAGE_SIZE - Misalignment(g) then 1 else 0)
  }

  lemma TelltaleIsWrong(g: Segment)
    requires g.filesz >= PAGE_SIZE && g.vaddr % PAGE_SIZE != 0
    ensures |Telltale(g)| == g.offset + g.filesz && StaysInside(g, Telltale(g)) && !LoadedRight(g, Telltale(g))
  {
    var t: nat := PAGE_SIZE - Misalignment(g);
    assert At(Telltale(g), g.offset + t) == 1;
    assert At(Telltale(g), g.offset + PAGE_SIZE) == 0;
    assert !ByteRight(g, Telltale(g), t);
  }

  /** A segment is loaded right whatever the file holds if and only if it is page-aligned. */
  lemma LoadedRightIffAligned(g: Segment)
    requires LongEnough(g)
    ensures (forall file: seq<bv8> :: g.offset + g.filesz <= |file| && StaysInside(g, file) ==> LoadedRight(g, file))
      <==> g.vaddr % PAGE_SIZE == 0
  {
    if g.vaddr % PAGE_SIZE == 0 {
      forall file: seq<bv8> ensures LoadedRight(g, file) {
        AlignedIsRight(g, file);
      }
    } else {
      TelltaleIsWrong(g);
    }
  }

  // ---------------------------------------------------------------- what copying leaves alone

  lemma PageCopiedKeeps(s: Space, f: nat, g: Segment, file: seq<bv8>, j: nat)
    requires SpaceOk(s) && f !in s.place && SegmentOk(g, file) && j < PageCount(g)
    ensures var s' := PageCopied(s, f, g, file, j);
      && SpaceOk(s') && s'.pmm == s.pmm && s'.place == s.place && s'.depth == s.depth && s'.root == s.root
      && (forall q: nat :: Walk(s', q) == Walk(s, q))
      && s'.bytes.Keys == s.bytes.Keys + {f}
      && (forall x :: x in s.bytes && x != f ==> s'.bytes[x] == s.bytes[x])
      && (f in s.bytes && s.bytes[f] == ZeroPage() ==> s'.bytes[f] == FilledPage(g, file, j))
  {
    hide Overwrite, PageData, PageCount, SegmentOk, PmmOk;
    TreeKept(s, PageCopied(s, f, g, file, j));
  }

  /** The frames from `j` on are distinct, hold zeroes and are not tables. */
  ghost predicate Blank(s: Space, fs: seq<nat>, j: nat) {
    && (forall k :: j <= k < |fs| ==> fs[k] !in s.place && fs[k] in s.bytes && s.bytes[fs[k]] == ZeroPage())
    && (forall i, k :: j <= i < k < |fs| ==> fs[i] != fs[k])
  }

  /** Same tables, same translations, same bytes outside the given frames. */
  ghost predicate OnlyBytesOf(s: Space, s': Space, fs: seq<nat>) {
    && s'.pmm == s.pmm && s'.place == s.place && s'.depth == s.depth && s'.root == s.root
    && (forall q: nat :: Walk(s', q) == Walk(s, q))
    && (forall f :: f in s.bytes && f !in fs ==> f in s'.bytes && s'.bytes[f] == s.bytes[f])
  }

  lemma {:induction false} CopyPagesEffect(s: Space, fs: seq<nat>, g: Segment, file: seq<bv8>, j: nat)
    requires SegmentOk(g, file) && |fs| == PageCount(g) && j <= |fs|
    requires SpaceOk(s) && Blank(s, fs, j)
    ensures var s' := CopyPages(s, fs, g, file, j);
      && SpaceOk(s') && OnlyBytesOf(s, s', fs[j..])
      && forall k :: j <= k < |fs| ==> fs[k] in s'.bytes && s'.bytes[fs[k]] == FilledPage(g, file, k)
    decreases |fs| - j
  {
    hide SpaceOk, Walk, FilledPage, PageCopied, PageCount, SegmentOk;
    if j < |fs| {
      var s1 := PageCopied(s, fs[j], g, file, j);
      PageCopiedKeeps(s, fs[j], g, file, j);
      CopyPagesEffect(s1, fs, g, file, j + 1);
      assert fs[j..] == [fs[j]] + fs[j + 1..];
    }
  }

  // ---------------------------------------------------------------- one segment

  /** Maps the pages of a segment from page `pn` on and fills them. */
  ghost function LoadSegment(s: Space, g: Segment, pn: nat, file: seq<bv8>): Option<Space>
    requires g.load ==> SegmentOk(g, file)
  {
    if !g.load || PageCount(g) == 0 then Some(s)
    else match MapRange(s, pn, PageCount(g), SegmentFlags(g))
      case None => None
      case Some(s1) =>
        var fs := RangeFrames(s, pn, PageCount(g), SegmentFlags(g));
        if |fs| == PageCount(g) then Some(CopyPages(s1, fs, g, file, 0)) else None
  }

  /** Page `q` of the segment is backed by a frame of its own that holds the segment's bytes. */
  ghost predicate PageLoaded(s: Space, g: Segment, pn: nat, file: seq<bv8>, q: nat)
    requires pn <= q
  {
    && Walk(s, q).Small?
    && var e := Walk(s, q).e;
    && e == Leaf(Addr(e.page), SegmentFlags(g))
    && Owned(s.pmm.live, e.page) && e.page !in s.place && e.page in s.bytes
    && forall i: nat :: i < 0x1000 ==> s.bytes[e.page][i] == Held(g, file, (q - pn) * PAGE_SIZE + i)
  }

  ghost predicate Loaded(s: Space, g: Segment, pn: nat, file: seq<bv8>) {
    forall q: nat :: pn <= q < pn + PageCount(g) ==> PageLoaded(s, g, pn, file, q)
  }

  lemma SegmentFlagsOk(g: Segment)
    ensures FlagsOk(SegmentFlags(g)) && !Large(SegmentFlags(g))
  {
    assert P | US | RW == 0x007 && P | US == 0x005;
  }

  lemma BackedIsBlank(s: Space, s1: Space, pn: nat, flags: Word, fs: seq<nat>)
    requires flags.page == 0 && Backed(s, s1, pn, flags, fs)
    ensures Blank(s1, fs, 0)
  {
    hide Walk;
    forall k | 0 <= k < |fs| ensures fs[k] !in s1.place && fs[k] in s1.bytes && s1.bytes[fs[k]] == ZeroPage() {
      assert FreshData(s, s1, fs[k]);
    }
  }

  /** Filling new frames leaves the frames that were in use alone. */
  lemma CopyExtends(s: Space, s1: Space, s': Space, fs: seq<nat>)
    requires Extends(s, s1) && OnlyBytesOf(s1, s', fs) && forall k :: 0 <= k < |fs| ==> FreshData(s, s1, fs[k])
    ensures Extends(s, s')
  {
    hide Walk;
    forall f | f in s.bytes && Owned(s.pmm.live, f) && f !in s.place
      ensures f in s'.bytes && s'.bytes[f] == s.bytes[f]
    {
      assert f !in fs;
    }
  }

  lemma FilledIsLoaded(s: Space, s1: Space, s': Space, fs: seq<nat>, g: Segment, pn: nat, file: seq<bv8>)
    requires SegmentOk(g, file) && |fs| == PageCount(g) && SegmentFlags(g).page == 0
    requires Backed(s, s1, pn, SegmentFlags(g), fs) && OnlyBytesOf(s1, s', fs)
    requires forall k :: 0 <= k < |fs| ==> fs[k] in s'.bytes && s'.bytes[fs[k]] == FilledPage(g, file, k)
    ensures Loaded(s', g, pn, file)
  {
    hide Walk, PageCount, SegmentFlags, SegmentOk, FilledPage, Held;
    forall q: nat | pn <= q < pn + |fs| ensures PageLoaded(s', g, pn, file, q) {
      var f := fs[q - pn];
      assert FreshData(s, s1, f) && Covers(Block(f, 1), f);
      assert Walk(s', q) == Walk(s1, q) == Small(Leaf(Addr(f), SegmentFlags(g)));
      forall i: nat | i < 0x1000 ensures s'.bytes[f][i] == Held(g, file, (q - pn) * PAGE_SIZE + i) {
        FilledPageHolds(g, file, q - pn, i);
      }
    }
  }

  /** A segment is loaded; pages outside it keep their translation, and frames in use keep their
      contents. */
  lemma LoadSegmentEffect(s: Space, g: Segment, pn: nat, file: seq<bv8>)
    requires SpaceOk(s) && (g.load ==> SegmentOk(g, file)) && RangeMappable(s, pn, PageCount(g))
    ensures match LoadSegment(s, g, pn, file)
      case None => true
      case Some(s') =>
        && SpaceOk(s') && Extends(s, s')
        && (if g.load then OnlyAt(s, s', pn, pn + PageCount(g)) && Loaded(s', g, pn, file) else s' == s)
  {
    hide SpaceOk, MapRange, RangeFrames, CopyPages, PageCount, SegmentFlags, SegmentOk, Walk;
    if g.load && PageCount(g) > 0 && LoadSegment(s, g, pn, file).Some? {
      SegmentFlagsOk(g);
      var cnt, flags := PageCount(g), SegmentFlags(g);
      MapRangeEffect(s, pn, cnt, flags);
      var s1, fs := MapRange(s, pn, cnt, flags).value, RangeFrames(s, pn, cnt, flags);
      BackedIsBlank(s, s1, pn, flags, fs);
      CopyPagesEffect(s1, fs, g, file, 0);
      var s' := CopyPages(s1, fs, g, file, 0);
      assert fs[0..] == fs;
      CopyExtends(s, s1, s', fs);
      FilledIsLoaded(s, s1, s', fs, g, pn, file);
    }
  }

  // ---------------------------------------------------------------- the whole file

  /** The page that a segment starts at. */
  function StartPage(depth: nat, g: Segment, loadOffset: nat): nat {
    PageNumber(depth, g.vaddr - Misalignment(g) + loadOffset)
  }

  /** Page `q` belongs to the loadable segment. */
  ghost predicate Spans(depth: nat, g: Segment, loadOffset: nat, q: nat) {
    g.load && StartPage(depth, g, loadOffset) <= q < StartPage(depth, g, loadOffset) + PageCount(g)
  }

  ghost predicate AllOk(segs: seq<Segment>, file: seq<bv8>) {
    forall k :: 0 <= k < |segs| && segs[k].load ==> SegmentOk(segs[k], file)
  }

  /** No page belongs to two segments. */
  ghost predicate Disjoint(depth: nat, segs: seq<Segment>, loadOffset: nat) {
    forall j, k, q: nat :: 0 <= j < k < |segs| && Spans(depth, segs[j], loadOffset, q) ==>
      !Spans(depth, segs[k], loadOffset, q)
  }

  ghost predicate AllMappable(s: Space, segs: seq<Segment>, loadOffset: nat) {
    forall k, q: nat :: 0 <= k < |segs| && Spans(s.depth, segs[k], loadOffset, q) ==> InSpace(s, q) && !Walk(s, q).Big?
  }

  ghost function LoadAll(s: Space, segs: seq<Segment>, loadOffset: nat, file: seq<bv8>): Option<Space>
    requires AllOk(segs, file)
    decreases |segs|
  {
    if segs == [] then Some(s)
    else match LoadSegment(s, segs[0], StartPage(s.depth, segs[0], loadOffset), file)
      case None => None
      case Some(s1) => LoadAll(s1, segs[1..], loadOffset, file)
  }

  /** What happens to other pages does not disturb a loaded segment. */
  lemma LoadedKept(s: Space, s': Space, g: Segment, pn: nat, file: seq<bv8>)
    requires Loaded(s, g, pn, file) && Extends(s, s')
    requires forall q: nat :: pn <= q < pn + PageCount(g) ==> Walk(s', q) == Walk(s, q)
    ensures Loaded(s', g, pn, file)
  {
    hide Walk, PageCount, SegmentFlags, Held;
    forall q: nat | pn <= q < pn + PageCount(g) ensures PageLoaded(s', g, pn, file, q) {
      assert PageLoaded(s, g, pn, file, q);
      var f := Walk(s, q).e.page;
      var b :| b in s.pmm.live && Covers(b, f);
      assert b in s'.pmm.live;
    }
  }

  ghost predicate OnlyInSegments(s: Space, s': Space, segs: seq<Segment>, loadOffset: nat) {
    forall q: nat :: InSpace(s, q) && (forall k :: 0 <= k < |segs| ==> !Spans(s.depth, segs[k], loadOffset, q)) ==>
      Walk(s', q) == Walk(s, q)
  }

  ghost predicate AllLoaded(s: Space, segs: seq<Segment>, loadOffset: nat, file: seq<bv8>) {
    forall k :: 0 <= k < |segs| && segs[k].load ==> Loaded(s, segs[k], StartPage(s.depth, segs[k], loadOffset), file)
  }

  lemma LoadSegmentSkips(s: Space, g: Segment, pn: nat, file: seq<bv8>)
    requires !g.load
    ensures LoadSegment(s, g, pn, file) == Some(s)
  {
  }

  lemma FirstSegment(s: Space, segs: seq<Segment>, loadOffset: nat, file: seq<bv8>) returns (s1: Space)
    requires SpaceOk(s) && AllOk(segs, file) && Disjoint(s.depth, segs, loadOffset) && AllMappable(s, segs, loadOffset)
    requires segs != [] && LoadSegment(s, segs[0], StartPage(s.depth, segs[0], loadOffset), file).Some?
    ensures SpaceOk(s1) && Extends(s, s1)
    ensures AllOk(segs[1..], file) && Disjoint(s1.depth, segs[1..], loadOffset)
    ensures AllMappable(s1, segs[1..], loadOffset)
    ensures LoadSegment(s, segs[0], StartPage(s.depth, segs[0], loadOffset), file) == Some(s1)
    ensures LoadAll(s, segs, loadOffset, file) == LoadAll(s1, segs[1..], loadOffset, file)
    ensures forall q: nat :: InSpace(s, q) && !Spans(s.depth, segs[0], loadOffset, q) ==> Walk(s1, q) == Walk(s, q)
    ensures segs[0].load ==> Loaded(s1, segs[0], StartPage(s.depth, segs[0], loadOffset), file)
  {
    hide SpaceOk, Walk, PageCount, SegmentOk, StartPage, LoadSegment;
    var g := segs[0];
    var pn := StartPage(s.depth, g, loadOffset);
    s1 := LoadSegment(s, g, pn, file).value;
    if g.load {
      assert forall q: nat :: pn <= q < pn + PageCount(g) ==> Spans(s.depth, g, loadOffset, q);
      LoadSegmentEffect(s, g, pn, file);
    } else {
      assert s1 == s by {
        LoadSegmentSkips(s, g, pn, file);
      }
    }
    forall k, q: nat | 0 <= k < |segs| - 1 && Spans(s.depth, segs[1..][k], loadOffset, q)
      ensures InSpace(s1, q) && !Walk(s1, q).Big?
    {
      assert segs[1..][k] == segs[k + 1];
      assert Spans(s.depth, segs[k + 1], loadOffset, q);
      assert InSpace(s, q) && !Walk(s, q).Big? && !Spans(s.depth, segs[0], loadOffset, q);
    }
    forall j, k, q: nat | 0 <= j < k < |segs| - 1 && Spans(s.depth, segs[1..][j], loadOffset, q)
      ensures !Spans(s.depth, segs[1..][k], loadOffset, q)
    {
      assert segs[1..][j] == segs[j + 1] && segs[1..][k] == segs[k + 1];
    }
  }

  lemma RestOfSegments(s: Space, s1: Space, s': Space, segs: seq<Segment>, loadOffset: nat, file: seq<bv8>)
    requires segs != [] && AllOk(segs, file) && Disjoint(s.depth, segs, loadOffset) && AllMappable(s, segs, loadOffset)
    requires Extends(s, s1) && Extends(s1, s')
    requires AllOk(segs[1..], file) && AllLoaded(s', segs[1..], loadOffset, file)
    requires OnlyInSegments(s1, s', segs[1..], loadOffset)
    requires forall q: nat :: InSpace(s, q) && !Spans(s.depth, segs[0], loadOffset, q) ==> Walk(s1, q) == Walk(s, q)
    requires segs[0].load ==> Loaded(s1, segs[0], StartPage(s.depth, segs[0], loadOffset), file)
    ensures AllLoaded(s', segs, loadOffset, file) && OnlyInSegments(s, s', segs, loadOffset)
  {
    hide Walk, PageCount, SegmentOk, StartPage, Loaded;
    var g := segs[0];
    var pn := StartPage(s.depth, g, loadOffset);
    if g.load {
      forall q: nat | pn <= q < pn + PageCount(g) ensures Walk(s', q) == Walk(s1, q) {
        assert Spans(s.depth, segs[0], loadOffset, q) && InSpace(s, q) && InSpace(s1, q);
        forall k | 0 <= k < |segs| - 1 ensures !Spans(s1.depth, segs[1..][k], loadOffset, q) {
          assert segs[1..][k] == segs[k + 1];
        }
      }
      LoadedKept(s1, s', g, pn, file);
    }
    forall k | 0 < k < |segs| && segs[k].load
      ensures Loaded(s', segs[k], StartPage(s'.depth, segs[k], loadOffset), file)
    {
      assert segs[k] == segs[1..][k - 1];
    }
    forall q: nat | InSpace(s, q) && (forall k :: 0 <= k < |segs| ==> !Spans(s.depth, segs[k], loadOffset, q))
      ensures Walk(s', q) == Walk(s, q)
    {
      assert !Spans(s.depth, segs[0], loadOffset, q) && InSpace(s1, q);
      forall k | 0 <= k < |segs| - 1 ensures !Spans(s1.depth, segs[1..][k], loadOffset, q) {
        assert segs[1..][k] == segs[k + 1];
      }
    }
  }

  /** After loading, the pages of every segment hold its bytes, and all other pages keep their
      translation. */
  lemma {:induction false} LoadAllEffect(s: Space, segs: seq<Segment>, loadOffset: nat, file: seq<bv8>)
    requires SpaceOk(s) && AllOk(segs, file) && Disjoint(s.depth, segs, loadOffset) && AllMappable(s, segs, loadOffset)
    ensures match LoadAll(s, segs, loadOffset, file)
      case None => true
      case Some(s') =>
        && SpaceOk(s') && Extends(s, s')
        && AllLoaded(s', segs, loadOffset, file) && OnlyInSegments(s, s', segs, loadOffset)
    decreases |segs|
  {
    hide SpaceOk, Walk, PageCount, SegmentOk, StartPage, LoadSegment;
    if segs != [] && LoadAll(s, segs, loadOffset, file).Some? {
      var s1 := FirstSegment(s, segs, loadOffset, file);
      LoadAllEffect(s1, segs[1..], loadOffset, file);
      var s' := LoadAll(s1, segs[1..], loadOffset, file).value;
      ExtendsTransitive(s, s1, s');
      RestOfSegments(s, s1, s', segs, loadOffset, file);
    }
  }

  // ---------------------------------------------------------------- virtual bytes

  /** The byte a virtual address reads, if its page is mapped to a frame seen as bytes. */
  function VirtualByte(s: Space, v: nat): Option<bv8> {
    match Walk(s, PageNumber(s.depth, v))
    case Small(e) => if e.page in s.bytes then Some(s.bytes[e.page][v % PAGE_SIZE]) else None
    case _ => None
  }

  lemma PageOfByte(depth: nat, v: nat, k: nat)
    requires v % PAGE_SIZE == 0 && PageNumber(depth, v) + k / PAGE_SIZE < Limit(depth)
    ensures PageNumber(depth, v + k) == PageNumber(depth, v) + k / PAGE_SIZE && (v + k) % PAGE_SIZE == k % PAGE_SIZE
  {
    PageNumberAdd(depth, v, k / PAGE_SIZE);
    assert (v + k) / 0x1000 == (v + k / PAGE_SIZE * 0x1000) / 0x1000;
  }

  lemma ReachedPage(g: Segment, k: nat)
    requires k / PAGE_SIZE * PAGE_SIZE < Misalignment(g) + g.filesz
    ensures k < PageCount(g) * PAGE_SIZE
  {
    PageCountIs(g);
  }

  /** Byte by byte, from the start of the page that the segment starts in, for all pages that the
      segment reaches into and a further one if there is one. */
  lemma SegmentHolds(s: Space, segs: seq<Segment>, loadOffset: nat, file: seq<bv8>, i: nat, k: nat)
    requires SpaceOk(s) && (s.depth == 4 || s.depth == 5) && loadOffset % PAGE_SIZE == 0
    requires AllOk(segs, file) && Disjoint(s.depth, segs, loadOffset) && AllMappable(s, segs, loadOffset)
    requires i < |segs| && segs[i].load
    requires k / PAGE_SIZE * PAGE_SIZE < Misalignment(segs[i]) + segs[i].filesz || k < PageCount(segs[i]) * PAGE_SIZE
    requires StartPage(s.depth, segs[i], loadOffset) + PageCount(segs[i]) <= Limit(s.depth)
    ensures match LoadAll(s, segs, loadOffset, file)
      case None => true
      case Some(s') =>
        VirtualByte(s', segs[i].vaddr - Misalignment(segs[i]) + loadOffset + k) == Some(Held(segs[i], file, k))
  {
    hide SpaceOk, Walk, PageCount, LoadAll, Held, PageNumber, Limit, SegmentFlags, Disjoint, AllMappable, AllOk;
    var g := segs[i];
    if k / PAGE_SIZE * PAGE_SIZE < Misalignment(g) + g.filesz {
      ReachedPage(g, k);
    }
    LoadAllEffect(s, segs, loadOffset, file);
    if LoadAll(s, segs, loadOffset, file).Some? {
      var s' := LoadAll(s, segs, loadOffset, file).value;
      var pn, j := StartPage(s.depth, g, loadOffset), k / PAGE_SIZE;
      assert j < PageCount(g);
      assert PageLoaded(s', g, pn, file, pn + j);
      PageOfByte(s.depth, g.vaddr - Misalignment(g) + loadOffset, k);
      assert j * PAGE_SIZE + k % PAGE_SIZE == k;
    }
  }

  lemma AlignedHolds(g: Segment, file: seq<bv8>, k: nat)
    requires LongEnough(g) && g.vaddr % PAGE_SIZE == 0 && g.offset + g.filesz <= |file| && k < PageCount(g) * PAGE_SIZE
    ensures Held(g, file, k) == if k < g.filesz then file[g.offset + k] else 0
  {
    assert k / PAGE_SIZE < PageCount(g);
    if g.filesz >= PAGE_SIZE {
      PagesPastEnd(g, k / PAGE_SIZE);
    }
  }

  /** For a page-aligned segment inside the file: its part of the file lies at its virtual address, and
      the rest of its last page is zero. */
  lemma SegmentBytes(s: Space, segs: seq<Segment>, loadOffset: nat, file: seq<bv8>, i: nat, k: nat)
    requires SpaceOk(s) && (s.depth == 4 || s.depth == 5) && loadOffset % PAGE_SIZE == 0
    requires AllOk(segs, file) && Disjoint(s.depth, segs, loadOffset) && AllMappable(s, segs, loadOffset)
    requires i < |segs| && segs[i].load && k / PAGE_SIZE * PAGE_SIZE < segs[i].filesz
    requires StartPage(s.depth, segs[i], loadOffset) + PageCount(segs[i]) <= Limit(s.depth)
    requires segs[i].vaddr % PAGE_SIZE == 0 && segs[i].offset + segs[i].filesz <= |file|
    ensures match LoadAll(s, segs, loadOffset, file)
      case None => true
      case Some(s') =>
        VirtualByte(s', segs[i].vaddr + loadOffset + k) ==
          Some(if k < segs[i].filesz then file[segs[i].offset + k] else 0)
  {
    hide SpaceOk, Walk, LoadAll, VirtualByte;
    ReachedPage(segs[i], k);
    SegmentHolds(s, segs, loadOffset, file, i, k);
    AlignedHolds(segs[i], file, k);
  }

  /** Page `q` lies before the segment, or behind its end (a page further, if it overhangs). */
  ghost predicate Outside(depth: nat, g: Segment, loadOffset: nat, q: nat) {
    var first := PageNumber(depth, g.vaddr - g.vaddr % PAGE_SIZE + loadOffset);
    || q < first
    || (q - first) * PAGE_SIZE >= g.vaddr % PAGE_SIZE + g.filesz + (if Overhangs(g) then PAGE_SIZE else 0)
  }

  lemma OutsideNotSpanned(depth: nat, g: Segment, loadOffset: nat, q: nat)
    ensures g.load ==> (Outside(depth, g, loadOffset, q) <==> !Spans(depth, g, loadOffset, q))
  {
    hide PageNumber, Overhangs, PageCount;
    PageCountIs(g);
    var first := StartPage(depth, g, loadOffset);
    if first <= q {
      assert q - first < PageCount(g) ==> (q - first + 1) * PAGE_SIZE <= PageCount(g) * PAGE_SIZE;
      assert q - first >= PageCount(g) ==> (q - first) * PAGE_SIZE >= PageCount(g) * PAGE_SIZE;
    }
  }

  /** Where a file ends: the pages outside all its segments translate as before. */
  lemma NothingBehindSegments(s: Space, segs: seq<Segment>, loadOffset: nat, file: seq<bv8>, q: nat)
    requires SpaceOk(s) && InSpace(s, q)
    requires AllOk(segs, file) && Disjoint(s.depth, segs, loadOffset) && AllMappable(s, segs, loadOffset)
    requires forall k :: 0 <= k < |segs| && segs[k].load ==> Outside(s.depth, segs[k], loadOffset, q)
    ensures match LoadAll(s, segs, loadOffset, file)
      case None => true
      case Some(s') => Walk(s', q) == Walk(s, q)
  {
    hide SpaceOk, Walk, LoadAll, Outside, AllOk, Disjoint, AllMappable;
    LoadAllEffect(s, segs, loadOffset, file);
    forall k | 0 <= k < |segs| ensures !Spans(s.depth, segs[k], loadOffset, q) {
      OutsideNotSpanned(s.depth, segs[k], loadOffset, q);
    }
  }

  // ---------------------------------------------------------------- enough free pages

  /** How many pages the loadable segments take. */
  function LoadedPages(segs: seq<Segment>): nat
    decreases |segs|
  {
    if segs == [] then 0 else (if segs[0].load then PageCount(segs[0]) else 0) + LoadedPages(segs[1..])
  }

  lemma {:induction false} CopyPagesSamePmm(s: Space, fs: seq<nat>, g: Segment, file: seq<bv8>, j: nat)
    requires SegmentOk(g, file) && |fs| == PageCount(g) && j <= |fs|
    ensures CopyPages(s, fs, g, file, j).pmm == s.pmm
    decreases |fs| - j
  {
    hide SegmentOk, PageCount;
    if j < |fs| {
      CopyPagesSamePmm(PageCopied(s, fs[j], g, file, j), fs, g, file, j + 1);
    }
  }

  lemma LoadSegmentBound(s: Space, g: Segment, pn: nat, file: seq<bv8>)
    requires SpaceOk(s) && (g.load ==> SegmentOk(g, file) && RangeMappable(s, pn, PageCount(g)))
    requires g.load ==> FreePages(s.pmm.chain) >= Times(PageCount(g), s.depth)
    ensures LoadSegment(s, g, pn, file).Some?
    ensures var needed := if g.load then Times(PageCount(g), s.depth) else 0;
      FreePages(LoadSegment(s, g, pn, file).value.pmm.chain) + needed >= FreePages(s.pmm.chain)
  {
    hide FreePages, SpaceOk, MapRange, RangeFrames, CopyPages, PageCount, SegmentFlags, SegmentOk, Walk, Times;
    TimesStep(0, s.depth);
    if g.load && PageCount(g) > 0 {
      SegmentFlagsOk(g);
      MapRangeBound(s, pn, PageCount(g), SegmentFlags(g));
      MapRangeEffect(s, pn, PageCount(g), SegmentFlags(g));
      var s1 := MapRange(s, pn, PageCount(g), SegmentFlags(g)).value;
      var fs := RangeFrames(s, pn, PageCount(g), SegmentFlags(g));
      CopyPagesSamePmm(s1, fs, g, file, 0);
    }
  }

  /** A file can be loaded if there are as many free pages as its segments take, times the number of
      levels. */
  lemma {:induction false} LoadAllBound(s: Space, segs: seq<Segment>, loadOffset: nat, file: seq<bv8>)
    requires SpaceOk(s) && AllOk(segs, file) && Disjoint(s.depth, segs, loadOffset) && AllMappable(s, segs, loadOffset)
    requires FreePages(s.pmm.chain) >= Times(LoadedPages(segs), s.depth)
    ensures LoadAll(s, segs, loadOffset, file).Some?
    decreases |segs|
  {
    hide FreePages, SpaceOk, Walk, PageCount, SegmentOk, StartPage, LoadSegment, Times;
    if segs != [] {
      var g, pn := segs[0], StartPage(s.depth, segs[0], loadOffset);
      var here, rest := if g.load then PageCount(g) else 0, LoadedPages(segs[1..]);
      TimesAdd(here, rest, s.depth);
      TimesStep(0, s.depth);
      assert g.load ==> forall q: nat :: pn <= q < pn + PageCount(g) ==> Spans(s.depth, segs[0], loadOffset, q);
      LoadSegmentBound(s, g, pn, file);
      var s1 := FirstSegment(s, segs, loadOffset, file);
      LoadAllBound(s1, segs[1..], loadOffset, file);
    }
  }
}
