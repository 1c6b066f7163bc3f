/** The ELF loader in its imperative form. */
module ElfLoader {
  import opened Words
  import opened Physical
  import opened PageTables
  import opened PageOperations
  import opened TableIndices
  import opened Paging
  import opened Virtual
  import opened VirtualMemory
  import opened Elf

  lemma EmptyRange(s: Space, pn: nat, flags: Word)
    requires flags.page == 0
    ensures MapRange(s, pn, 0, flags) == Some(s) && RangeFrames(s, pn, 0, flags) == []
  {
  }

  /** The flags of a segment's pages, from the header's flag bits. */
  method ComputeFlags(g: Segment) returns (flags: Word)
    ensures flags == SegmentFlags(g)
  {
    flags := Flags(true, P | US);
    if g.write {
      flags := flags.(low := flags.low | RW);
    }
    if g.exec {
      flags := flags.(nx := false);
    }
  }

  /** How many pages a segment gets. */
  method CountPages(g: Segment) returns (pageCnt: nat)
    ensures pageCnt == PageCount(g)
  {
    var misalignment := g.vaddr % PAGE_SIZE;
    pageCnt := (misalignment + g.filesz + PAGE_SIZE - 1) / PAGE_SIZE;
    if misalignment + g.filesz > (g.filesz + PAGE_SIZE - 1) / PAGE_SIZE * PAGE_SIZE {
      pageCnt := pageCnt + 1;
    }
  }

  /** Allocates and maps the pages of a segment; answers the frames. */
  method MapSegment(table: PageTable, g: Segment, loadOffset: nat, pageCnt: nat) returns (physical: seq<nat>)
    requires (table.depth == 4 || table.depth == 5) && table.Valid()
    requires StartPage(table.depth, g, loadOffset) + pageCnt <= Limit(table.depth)
    requires RangeMappable(table.State(), StartPage(table.depth, g, loadOffset), pageCnt)
    requires MapRange(table.State(), StartPage(table.depth, g, loadOffset), pageCnt, SegmentFlags(g)).Some?
    modifies table`place, table.memory, table.memory.modules, table.memory.Bitmaps()
    ensures table.Valid()
    ensures MapRange(old(table.State()), StartPage(table.depth, g, loadOffset), pageCnt, SegmentFlags(g))
         == Some(table.State())
    ensures RangeFrames(old(table.State()), StartPage(table.depth, g, loadOffset), pageCnt, SegmentFlags(g)) == physical
  {
    hide SpaceOk, MapRange, RangeFrames, SegmentFlags, PageNumber, RangeMappable;
    physical := [];
    SegmentFlagsOk(g);
    ghost var pn, flags := StartPage(table.depth, g, loadOffset), SegmentFlags(g);
    ghost var goal := MapRange(table.State(), pn, pageCnt, flags);
    ghost var frames := RangeFrames(table.State(), pn, pageCnt, flags);
    for j := 0 to pageCnt
      invariant table.Valid() && RangeMappable(table.State(), pn + j, pageCnt - j)
      invariant MapRange(table.State(), pn + j, pageCnt - j, flags) == goal
      invariant frames == physical + RangeFrames(table.State(), pn + j, pageCnt - j, flags)
    {
      PageNumberAdd(table.depth, g.vaddr - Misalignment(g) + loadOffset, j);
      var virtual := g.vaddr + loadOffset - Misalignment(g) + j * PAGE_SIZE;
      var segmentFlags := ComputeFlags(g);
      var f := MapOneFresh(table, virtual, segmentFlags, pageCnt - j);
      physical := physical + [f];
    }
    EmptyRange(table.State(), pn + pageCnt, flags);
  }

  /** Delivers the bytes of the file from the offset on, as many as asked for or as many as there
      are. */
  method Elf64Read(file: seq<bv8>, offset: nat, cnt: nat) returns (data: seq<bv8>)
    ensures |file| <= offset ==> data == []
    ensures |file| > offset ==> |data| == if |file| - offset < cnt then |file| - offset else cnt
    ensures forall k :: 0 <= k < |data| ==> offset + k < |file| && data[k] == file[offset + k]
  {
    if |file| < offset {
      return [];
    }
    var dataToRead := if |file| < offset + cnt then |file| - offset else cnt;
    data := file[offset..offset + dataToRead];
  }

  /** Copies data into a frame. */
  method CopyInto(table: PageTable, f: nat, at: nat, data: seq<bv8>)
    requires at + |data| <= 0x1000 && f in table.memory.bytes
    modifies table.memory`bytes, table.memory`tables
    ensures table.State() == CopyTo(old(table.State()), f, at, data)
  {
    table.memory.bytes := table.memory.bytes[f := Overwrite(table.memory.bytes[f], at, data)];
    table.memory.tables := table.memory.tables - {f};
  }

  /** One round of the copy loop. */
  method CopyPage(table: PageTable, g: Segment, file: seq<bv8>, j: nat, f: nat)
    requires SegmentOk(g, file) && j < PageCount(g) && f in table.memory.bytes
    modifies table.memory`bytes, table.memory`tables
    ensures table.State() == PageCopied(old(table.State()), f, g, file, j)
  {
    hide StaysInside, PageCount;
    NonEmptyPages(g, file);
    CopyCountIs(g, j);
    CopyInside(g, file, j);
    var misalignment := if j == 0 then g.vaddr % PAGE_SIZE else 0;
    var cnt := if PAGE_SIZE + j * PAGE_SIZE > g.filesz then g.filesz % (j * PAGE_SIZE) else PAGE_SIZE;
    var data := Elf64Read(file, g.offset + j * PAGE_SIZE, cnt - misalignment);
    assert data == PageData(g, file, j);
    CopyInto(table, f, misalignment, data);
  }

  /** Copies the segment's part of the file into its frames, page by page. */
  method FillSegment(table: PageTable, g: Segment, file: seq<bv8>, physical: seq<nat>)
    requires SegmentOk(g, file) && |physical| == PageCount(g)
    requires table.Valid() && Blank(table.State(), physical, 0)
    modifies table.memory`bytes, table.memory`tables
    ensures table.Valid() && table.State() == CopyPages(old(table.State()), physical, g, file, 0)
  {
    hide SpaceOk, Walk, SegmentOk, PageCount, PageCopied, FilledPage;
    ghost var goal := CopyPages(table.State(), physical, g, file, 0);
    for j := 0 to |physical|
      invariant table.Valid() && Blank(table.State(), physical, j)
      invariant CopyPages(table.State(), physical, g, file, j) == goal
    {
      PageCopiedKeeps(table.State(), physical[j], g, file, j);
      CopyPage(table, g, file, j, physical[j]);
    }
  }

  /** One program header. */
  method LoadHeader(table: PageTable, g: Segment, loadOffset: nat, file: seq<bv8>)
    requires (table.depth == 4 || table.depth == 5) && table.Valid() && (g.load ==> SegmentOk(g, file))
    requires g.load ==> StartPage(table.depth, g, loadOffset) + PageCount(g) <= Limit(table.depth)
    requires g.load ==> RangeMappable(table.State(), StartPage(table.depth, g, loadOffset), PageCount(g))
    requires LoadSegment(table.State(), g, StartPage(table.depth, g, loadOffset), file).Some?
    modifies table`place, table.memory, table.memory.modules, table.memory.Bitmaps()
    ensures table.Valid()
    ensures LoadSegment(old(table.State()), g, StartPage(table.depth, g, loadOffset), file) == Some(table.State())
  {
    hide SpaceOk, Walk, MapRange, RangeFrames, CopyPages, SegmentFlags, StartPage, RangeMappable;
    if !g.load {
      return;
    }
    var pageCnt := CountPages(g);
    if pageCnt == 0 {
      return;
    }
    ghost var s, pn := table.State(), StartPage(table.depth, g, loadOffset);
    SegmentFlagsOk(g);
    MapRangeEffect(s, pn, pageCnt, SegmentFlags(g));
    var physical := MapSegment(table, g, loadOffset, pageCnt);
    BackedIsBlank(s, table.State(), pn, SegmentFlags(g), physical);
    FillSegment(table, g, file, physical);
  }

  /** The segment loop of the loader. */
  method Elf64FileLoad(table: PageTable, segs: seq<Segment>, loadOffset: nat, file: seq<bv8>)
    requires (table.depth == 4 || table.depth == 5) && table.Valid() && AllOk(segs, file)
    requires Disjoint(table.depth, segs, loadOffset) && AllMappable(table.State(), segs, loadOffset)
    requires forall k :: 0 <= k < |segs| && segs[k].load ==>
      StartPage(table.depth, segs[k], loadOffset) + PageCount(segs[k]) <= Limit(table.depth)
    requires LoadAll(table.State(), segs, loadOffset, file).Some?
    modifies table`place, table.memory, table.memory.modules, table.memory.Bitmaps()
    ensures table.Valid() && LoadAll(old(table.State()), segs, loadOffset, file) == Some(table.State())
  {
    hide SpaceOk, Walk, LoadSegment, StartPage, PageCount, SegmentOk;
    ghost var goal := LoadAll(table.State(), segs, loadOffset, file);
    assert segs[0..] == segs;
    for i := 0 to |segs|
      invariant table.Valid() && AllOk(segs[i..], file) && Disjoint(table.depth, segs[i..], loadOffset)
      invariant AllMappable(table.State(), segs[i..], loadOffset)
      invariant LoadAll(table.State(), segs[i..], loadOffset, file) == goal
    {
      ghost var s, rest := table.State(), segs[i..];
      assert rest[0] == segs[i] && rest[1..] == segs[i + 1..];
      ghost var s1 := FirstSegment(s, rest, loadOffset, file);
      assert segs[i].load ==> RangeMappable(s, StartPage(s.depth, segs[i], loadOffset), PageCount(segs[i])) by {
        if segs[i].load {
          var pn := StartPage(s.depth, segs[i], loadOffset);
          forall q: nat | pn <= q < pn + PageCount(segs[i])
            ensures InSpace(s, q) && !Walk(s, q).Big?
          {
            assert Spans(s.depth, rest[0], loadOffset, q);
          }
        }
      }
      LoadHeader(table, segs[i], loadOffset, file);
      assert table.State() == s1;
    }
  }
}
