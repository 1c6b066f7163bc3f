/** Page tables of any depth as values: one generic walk, one generic map, one generic unmap,
    and the tree invariant under which a store changes exactly one translation. */
module PageTables {
  import opened Words
  import opened Physical

  // ---------------------------------------------------------------- page numbers

  /** What is left of a page number above `level` nine-bit digits; a table of that level serves
      all page numbers with the same key. */
  function Key(level: nat, pn: nat): nat {
    if level == 0 then pn else Key(level - 1, pn) / 512
  }

  /** The entry that a table of this level uses for a page. */
  function Index(level: nat, pn: nat): (i: nat)
    requires level > 0
    ensures i < 512
  {
    Key(level - 1, pn) % 512
  }

  lemma KeyValues(pn: nat)
    ensures Key(0, pn) == pn && Key(1, pn) == pn / 512 && Key(2, pn) == pn / 512 / 512
    ensures Key(3, pn) == pn / 512 / 512 / 512
    ensures Key(4, pn) == pn / 512 / 512 / 512 / 512
    ensures Key(5, pn) == pn / 512 / 512 / 512 / 512 / 512
  {
    assert Key(1, pn) == Key(0, pn) / 512;
    assert Key(2, pn) == Key(1, pn) / 512;
    assert Key(3, pn) == Key(2, pn) / 512;
    assert Key(4, pn) == Key(3, pn) / 512;
    assert Key(5, pn) == Key(4, pn) / 512;
  }

  // ---------------------------------------------------------------- state

  type PageBytes = s: seq<bv8> | |s| == 0x1000 witness seq(0x1000, _ => 0)

  function ZeroPage(): (s: PageBytes)
    ensures forall i :: 0 <= i < 0x1000 ==> s[i] == 0
  {
    seq(0x1000, _ => 0)
  }

  /** Where a table frame hangs: its level (1 is the last), the key it serves, its parent. */
  datatype Place = Place(level: nat, key: nat, parent: nat)

  /** An address space over the shared physical memory. Frames in use as tables are seen through
      `tables`, frames in use as data through `bytes`; `place` records which frames are tables. */
  datatype Space = Space(
    pmm: Pmm,
    tables: map<nat, Table>,
    bytes: map<nat, PageBytes>,
    depth: nat,
    root: nat,
    place: map<nat, Place>)

  function TableAt(t: map<nat, Table>, f: nat): Table {
    if f in t then t[f] else EmptyTable()
  }

  function Get(t: map<nat, Table>, f: nat, i: nat): Word
    requires i < 512
  {
    TableAt(t, f)[i]
  }

  function Put(t: map<nat, Table>, f: nat, i: nat, e: Word): map<nat, Table>
    requires i < 512
  {
    t[f := TableAt(t, f)[i := e]]
  }

  function Entry(s: Space, f: nat, level: nat, pn: nat): Word
    requires level > 0
  {
    Get(s.tables, f, Index(level, pn))
  }

  // ---------------------------------------------------------------- the generic walk

  datatype Mapping = Unmapped | Small(e: Word) | Big(e: Word)

  /** An entry of a table of this level that leads to a further table. */
  predicate IsLink(level: nat, e: Word) {
    level > 1 && Present(e) && !(level == 2 && Large(e))
  }

  /** What the hardware finds for a page, starting at table `f` of the given level. */
  function WalkFrom(t: map<nat, Table>, f: nat, level: nat, pn: nat): Mapping
    decreases level
  {
    if level == 0 then Unmapped else
      var e := Get(t, f, Index(level, pn));
      if !Present(e) then Unmapped
      else if level == 1 then Small(e)
      else if level == 2 && Large(e) then Big(e)
      else WalkFrom(t, NextTable(e), level - 1, pn)
  }

  function Walk(s: Space, pn: nat): Mapping {
    WalkFrom(s.tables, s.root, s.depth, pn)
  }

  /** A page number that the space can translate: no digits above its depth. */
  predicate InSpace(s: Space, pn: nat) {
    Key(s.depth, pn) == 0
  }

  // ---------------------------------------------------------------- the tree invariant

  ghost predicate Hangs(s: Space, f: nat)
    requires f in s.place
  {
    var Place(level, key, parent) := s.place[f];
    && 1 <= level <= s.depth
    && (level == s.depth ==> f == s.root)
    && (level < s.depth ==>
          && parent in s.place
          && s.place[parent].level == level + 1
          && s.place[parent].key == key / 512
          && var e := Get(s.tables, parent, key % 512);
          IsLink(level + 1, e) && NextTable(e) == f)
  }

  ghost predicate Leads(s: Space, f: nat, i: nat)
    requires f in s.place && i < 512
  {
    var Place(level, key, _) := s.place[f];
    var e := Get(s.tables, f, i);
    && NextTable(e) in s.place
    && level > 0
    && s.place[NextTable(e)] == Place(level - 1, key * 512 + i, f)
    && !e.nx && e.low & (PS | G) == 0
  }

  /** The tables form a tree: every table other than the root hangs from the entry its place
      names, and every entry that leads to a table leads to one placed there. */
  ghost predicate IsTree(s: Space) {
    && 2 < s.depth
    && s.root in s.place && s.place[s.root].level == s.depth && s.place[s.root].key == 0
    && s.place.Keys <= s.tables.Keys
    && s.place.Keys !! s.bytes.Keys
    && (forall f {:trigger Hangs(s, f)} :: f in s.place ==> Hangs(s, f))
    && (forall f, i {:trigger Leads(s, f, i)} ::
          f in s.place && 0 <= i < 512 && IsLink(s.place[f].level, Get(s.tables, f, i)) ==> Leads(s, f, i))
  }

  ghost predicate TablesLive(s: Space) {
    forall f :: f in s.place ==> Block(f, 1) in s.pmm.live
  }

  ghost predicate SpaceOk(s: Space) {
    PmmOk(s.pmm) && IsTree(s) && TablesLive(s)
  }

  lemma DepthOfSpace(s: Space)
    requires SpaceOk(s)
    ensures s.depth > 2
  {
  }

  // ---------------------------------------------------------------- reaching tables

  /** The walk of a page passes through every table placed on its path. */
  lemma {:induction false} WalkReaches(s: Space, f: nat, pn: nat)
    requires IsTree(s) && f in s.place && s.place[f].key == Key(s.place[f].level, pn) && InSpace(s, pn)
    ensures Walk(s, pn) == WalkFrom(s.tables, f, s.place[f].level, pn)
    decreases s.depth - s.place[f].level
  {
    assert Hangs(s, f);
    if s.place[f].level < s.depth {
      WalkReaches(s, s.place[f].parent, pn);
    }
  }

  /** A store into an entry that is not on a page's path does not change its walk. */
  lemma {:induction false} StoreElsewhere(s: Space, f: nat, i: nat, e: Word, g: nat, pn: nat)
    requires IsTree(s) && f in s.place && s.place[f].level > 0 && i < 512 && g in s.place
    requires s.place[g].key == Key(s.place[g].level, pn)
    requires Key(s.place[f].level - 1, pn) != s.place[f].key * 512 + i
    ensures WalkFrom(Put(s.tables, f, i, e), g, s.place[g].level, pn)
         == WalkFrom(s.tables, g, s.place[g].level, pn)
    decreases s.place[g].level
  {
    var level := s.place[g].level;
    assert Hangs(s, g) && Hangs(s, f);
    var x := Get(s.tables, g, Index(level, pn));
    assert Get(Put(s.tables, f, i, e), g, Index(level, pn)) == x;
    if IsLink(level, x) {
      assert Leads(s, g, Index(level, pn));
      StoreElsewhere(s, f, i, e, NextTable(x), pn);
    }
  }

  /** A walk depends on the placed tables only. */
  lemma {:induction false} WalkSame(s: Space, t: map<nat, Table>, g: nat, pn: nat)
    requires IsTree(s) && g in s.place
    requires forall f :: f in s.place ==> TableAt(t, f) == TableAt(s.tables, f)
    ensures WalkFrom(t, g, s.place[g].level, pn) == WalkFrom(s.tables, g, s.place[g].level, pn)
    decreases s.place[g].level
  {
    var level := s.place[g].level;
    assert Hangs(s, g);
    var x := Get(s.tables, g, Index(level, pn));
    if IsLink(level, x) {
      assert Leads(s, g, Index(level, pn));
      WalkSame(s, t, NextTable(x), pn);
    }
  }

  // ---------------------------------------------------------------- allocation

  /** The map with `v` at the `cnt` keys from `p` on. */
  function Filled<T>(m: map<nat, T>, p: nat, cnt: nat, v: T): map<nat, T> {
    if cnt == 0 then m else Filled(m, p, cnt - 1, v)[p + cnt - 1 := v]
  }

  lemma {:induction false} FilledAt<T>(m: map<nat, T>, p: nat, cnt: nat, v: T)
    ensures var r := Filled(m, p, cnt, v);
      && (forall f :: f in r <==> f in m || p <= f < p + cnt)
      && (forall f :: f in r ==> r[f] == if p <= f < p + cnt then v else m[f])
  {
    if cnt > 0 {
      FilledAt(m, p, cnt - 1, v);
    }
  }

  /** Takes `cnt` zeroed frames from the allocator. */
  ghost function AllocBlock(s: Space, cnt: nat, align: nat): Option<(nat, Space)>
    requires cnt > 0 && align > 0
  {
    var (r, p) := PmmAlloc(s.pmm, cnt, align);
    if r.None? then None else
      Some((r.value, s.(
        pmm := p,
        tables := Filled(s.tables, r.value, cnt, EmptyTable()),
        bytes := Filled(s.bytes, r.value, cnt, ZeroPage()))))
  }

  /** What every operation on the memory grants the frames that were in use before it. */
  ghost predicate Extends(s: Space, s': Space) {
    && s'.depth == s.depth && s'.root == s.root
    && s.pmm.live <= s'.pmm.live
    && (forall f :: f in s.bytes && Owned(s.pmm.live, f) && f !in s.place ==>
          f in s'.bytes && s'.bytes[f] == s.bytes[f])
    && (forall f :: f in s'.place && f !in s.place ==> !Owned(s.pmm.live, f))
  }

  lemma NewPagesUnowned(live: set<Block>, n: Block, f: nat)
    requires (forall b :: b in live ==> Separate(b, n)) && Covers(n, f)
    ensures !Owned(live, f)
  {
  }

  /** Changing frames that are not tables keeps the tree and every translation. */
  lemma TreeKept(s: Space, s': Space)
    requires IsTree(s)
    requires s'.depth == s.depth && s'.root == s.root && s'.place == s.place
    requires s.place.Keys <= s'.tables.Keys && s.place.Keys !! s'.bytes.Keys
    requires forall f :: f in s.place ==> TableAt(s'.tables, f) == TableAt(s.tables, f)
    ensures IsTree(s')
    ensures forall q: nat :: Walk(s', q) == Walk(s, q)
  {
    forall f | f in s.place ensures Hangs(s', f) {
      assert Hangs(s, f);
    }
    forall f, i | f in s.place && 0 <= i < 512 && IsLink(s.place[f].level, Get(s'.tables, f, i))
      ensures Leads(s', f, i)
    {
      assert Leads(s, f, i);
    }
    forall q: nat ensures Walk(s', q) == Walk(s, q) {
      WalkSame(s, s'.tables, s.root, q);
    }
  }

  lemma AllocBlockEffect(s: Space, cnt: nat, align: nat)
    requires SpaceOk(s) && cnt > 0 && align > 0
    ensures match AllocBlock(s, cnt, align)
      case None => true
      case Some((p, s')) =>
        && SpaceOk(s') && Extends(s, s') && s'.place == s.place
        && s'.pmm.live == s.pmm.live + {Block(p, cnt)}
        && (forall f: nat :: p <= f < p + cnt ==> !Owned(s.pmm.live, f) && f !in s.place)
        && (forall f: nat :: p <= f < p + cnt ==> f in s'.tables && s'.tables[f] == EmptyTable())
        && (forall f: nat :: p <= f < p + cnt ==> f in s'.bytes && s'.bytes[f] == ZeroPage())
        && (forall f :: f in s.place ==> TableAt(s'.tables, f) == TableAt(s.tables, f))
        && (forall q: nat :: Walk(s', q) == Walk(s, q))
  {
    AllocKeepsOk(s.pmm, cnt, align);
    if AllocBlock(s, cnt, align).Some? {
      var (p, s') := AllocBlock(s, cnt, align).value;
      FilledAt(s.tables, p, cnt, EmptyTable());
      FilledAt(s.bytes, p, cnt, ZeroPage());
      forall f: nat | p <= f < p + cnt ensures !Owned(s.pmm.live, f) && f !in s.place {
        NewPagesUnowned(s.pmm.live, Block(p, cnt), f);
        assert Covers(Block(f, 1), f);
      }
      TreeKept(s, s');
    }
  }

  // ---------------------------------------------------------------- stores

  /** What an entry of a last-level or second-level table that leads nowhere means. */
  function Meaning(level: nat, e: Word): Mapping {
    if !Present(e) then Unmapped else if level == 1 then Small(e) else Big(e)
  }

  /** Stores a leaf; a table that hung there is no longer part of the tree. */
  function StoreLeaf(s: Space, f: nat, level: nat, pn: nat, e: Word): Space
    requires level > 0
  {
    var x := Entry(s, f, level, pn);
    s.(tables := Put(s.tables, f, Index(level, pn), e),
       place := if IsLink(level, x) then s.place - {NextTable(x)} else s.place)
  }

  lemma StoreHangs(s: Space, f: nat, pn: nat, e: Word, g: nat)
    requires IsTree(s) && f in s.place && 1 <= s.place[f].level <= 2 && !IsLink(s.place[f].level, e)
    requires g in StoreLeaf(s, f, s.place[f].level, pn, e).place
    ensures Hangs(StoreLeaf(s, f, s.place[f].level, pn, e), g)
  {
    hide Index;
    var level, i := s.place[f].level, Index(s.place[f].level, pn);
    assert Hangs(s, g);
    if IsLink(level, Get(s.tables, f, i)) {
      assert Leads(s, f, i);
    }
  }

  lemma StoreLeads(s: Space, f: nat, pn: nat, e: Word, g: nat, j: nat)
    requires IsTree(s) && f in s.place && 1 <= s.place[f].level <= 2 && !IsLink(s.place[f].level, e) && j < 512
    requires var s' := StoreLeaf(s, f, s.place[f].level, pn, e);
      g in s'.place && IsLink(s'.place[g].level, Get(s'.tables, g, j))
    ensures Leads(StoreLeaf(s, f, s.place[f].level, pn, e), g, j)
  {
    hide Index;
    var level, i := s.place[f].level, Index(s.place[f].level, pn);
    assert Leads(s, g, j);
    if IsLink(level, Get(s.tables, f, i)) {
      assert Leads(s, f, i);
    }
  }

  lemma StoreLeafKeepsTree(s: Space, f: nat, pn: nat, e: Word)
    requires IsTree(s) && f in s.place && 1 <= s.place[f].level <= 2 && !IsLink(s.place[f].level, e)
    ensures IsTree(StoreLeaf(s, f, s.place[f].level, pn, e))
  {
    var level, i := s.place[f].level, Index(s.place[f].level, pn);
    var s' := StoreLeaf(s, f, level, pn, e);
    if IsLink(level, Get(s.tables, f, i)) {
      assert Leads(s, f, i);
    }
    forall g | g in s'.place ensures Hangs(s', g) {
      StoreHangs(s, f, pn, e, g);
    }
    forall g, j | g in s'.place && 0 <= j < 512 && IsLink(s'.place[g].level, Get(s'.tables, g, j))
      ensures Leads(s', g, j)
    {
      StoreLeads(s, f, pn, e, g, j);
    }
  }

  /** A leaf store changes the translation of the pages under that entry and of no other page. */
  lemma StoreLeafEffect(s: Space, f: nat, pn: nat, e: Word)
    requires IsTree(s) && f in s.place && 1 <= s.place[f].level <= 2 && !IsLink(s.place[f].level, e)
    requires s.place[f].key == Key(s.place[f].level, pn)
    ensures var level := s.place[f].level;
      var s' := StoreLeaf(s, f, level, pn, e);
      forall q: nat :: InSpace(s, q) ==>
        Walk(s', q) == if Key(level - 1, q) == Key(level - 1, pn) then Meaning(level, e) else Walk(s, q)
  {
    StoreLeafKeepsTree(s, f, pn, e);
    var level := s.place[f].level;
    var s' := StoreLeaf(s, f, level, pn, e);
    forall q: nat | InSpace(s, q)
      ensures Walk(s', q) == if Key(level - 1, q) == Key(level - 1, pn) then Meaning(level, e) else Walk(s, q)
    {
      if Key(level - 1, q) == Key(level - 1, pn) {
        assert f in s'.place by {
          if IsLink(level, Get(s.tables, f, Index(level, pn))) {
            assert Leads(s, f, Index(level, pn));
          }
        }
        WalkReaches(s', f, q);
      } else {
        StoreElsewhere(s, f, Index(level, pn), e, s.root, q);
      }
    }
  }

  // ---------------------------------------------------------------- the generic map

  /** The flag part of a new non-leaf entry. */
  ghost predicate DirectoryOk(dir: Word) {
    dir.page == 0 && !dir.nx && Present(dir) && dir.low & (PS | G) == 0
  }

  /** Hangs the empty table `c` into the entry for a page. */
  function LinkTable(s: Space, f: nat, level: nat, pn: nat, c: nat, dir: Word): Space
    requires level > 1 && dir.page == 0
  {
    s.(tables := Put(s.tables, f, Index(level, pn), Or(Addr(c), dir)),
       bytes := s.bytes - {c},
       place := s.place[c := Place(level - 1, Key(level - 1, pn), f)])
  }

  /** Makes sure that the entry for a page leads to a table, allocating one if it is absent. */
  ghost function EnsureTable(s: Space, f: nat, level: nat, pn: nat, dir: Word): Option<Space>
    requires level > 1 && dir.page == 0
  {
    if Present(Entry(s, f, level, pn)) then Some(s)
    else match AllocBlock(s, 1, 1)
      case None => None
      case Some((c, s1)) => Some(LinkTable(s1, f, level, pn, c, dir))
  }

  ghost predicate Linkable(s: Space, f: nat, level: nat, pn: nat, c: nat, dir: Word) {
    && IsTree(s) && f in s.place && s.place[f].level == level > 1 && s.place[f].key == Key(level, pn)
    && !Present(Entry(s, f, level, pn))
    && c !in s.place && c in s.tables && s.tables[c] == EmptyTable() && DirectoryOk(dir)
  }

  lemma LinkHangs(s: Space, f: nat, level: nat, pn: nat, c: nat, dir: Word, g: nat)
    requires Linkable(s, f, level, pn, c, dir)
    requires g in s.place || g == c
    ensures Hangs(LinkTable(s, f, level, pn, c, dir), g)
  {
    assert Hangs(s, f);
    if g != c {
      assert Hangs(s, g);
    }
  }

  lemma LinkLeads(s: Space, f: nat, level: nat, pn: nat, c: nat, dir: Word, g: nat, j: nat)
    requires Linkable(s, f, level, pn, c, dir)
    requires (g in s.place || g == c) && j < 512
    requires var s' := LinkTable(s, f, level, pn, c, dir);
      IsLink(s'.place[g].level, Get(s'.tables, g, j))
    ensures Leads(LinkTable(s, f, level, pn, c, dir), g, j)
  {
    if g != c && (g != f || j != Index(level, pn)) {
      assert Leads(s, g, j);
    }
  }

  lemma LinkKeepsTree(s: Space, f: nat, level: nat, pn: nat, c: nat, dir: Word)
    requires Linkable(s, f, level, pn, c, dir)
    ensures IsTree(LinkTable(s, f, level, pn, c, dir))
  {
    var s' := LinkTable(s, f, level, pn, c, dir);
    forall g | g in s'.place ensures Hangs(s', g) {
      LinkHangs(s, f, level, pn, c, dir, g);
    }
    forall g, j | g in s'.place && 0 <= j < 512 && IsLink(s'.place[g].level, Get(s'.tables, g, j))
      ensures Leads(s', g, j)
    {
      LinkLeads(s, f, level, pn, c, dir, g, j);
    }
  }

  /** The new table is empty, so no translation changes. */
  lemma LinkKeepsWalks(s: Space, f: nat, level: nat, pn: nat, c: nat, dir: Word)
    requires Linkable(s, f, level, pn, c, dir)
    ensures forall q: nat :: InSpace(s, q) ==> Walk(LinkTable(s, f, level, pn, c, dir), q) == Walk(s, q)
  {
    LinkKeepsTree(s, f, level, pn, c, dir);
    var s' := LinkTable(s, f, level, pn, c, dir);
    forall q: nat | InSpace(s, q) ensures Walk(s', q) == Walk(s, q) {
      if Key(level - 1, q) == Key(level - 1, pn) {
        WalkReaches(s, f, q);
        WalkReaches(s', c, q);
      } else {
        StoreElsewhere(s, f, Index(level, pn), Or(Addr(c), dir), s.root, q);
      }
    }
  }

  lemma FreshLinkable(s: Space, f: nat, level: nat, pn: nat, dir: Word)
    requires SpaceOk(s) && f in s.place && s.place[f].level == level > 1 && s.place[f].key == Key(level, pn)
    requires !Present(Entry(s, f, level, pn)) && DirectoryOk(dir) && AllocBlock(s, 1, 1).Some?
    ensures var (c, s1) := AllocBlock(s, 1, 1).value;
      && Linkable(s1, f, level, pn, c, dir) && SpaceOk(s1) && Extends(s, s1)
      && Block(c, 1) in s1.pmm.live && !Owned(s.pmm.live, c) && s1.place == s.place
      && (forall g :: g in s.place ==> TableAt(s1.tables, g) == TableAt(s.tables, g))
      && forall q: nat :: Walk(s1, q) == Walk(s, q)
  {
    AllocBlockEffect(s, 1, 1);
    var (c, s1) := AllocBlock(s, 1, 1).value;
    assert !Owned(s.pmm.live, c) && c !in s.place;
  }

  /** Creating a missing table changes no translation, and afterwards the table is there. */
  lemma EnsureTableEffect(s: Space, f: nat, level: nat, pn: nat, dir: Word)
    requires SpaceOk(s) && f in s.place && s.place[f].level == level > 1 && s.place[f].key == Key(level, pn)
    requires DirectoryOk(dir) && !(level == 2 && Present(Entry(s, f, level, pn)) && Large(Entry(s, f, level, pn)))
    ensures match EnsureTable(s, f, level, pn, dir)
      case None => true
      case Some(s') =>
        var c := NextTable(Entry(s', f, level, pn));
        && SpaceOk(s') && Extends(s, s')
        && c in s'.place && s'.place[c] == Place(level - 1, Key(level - 1, pn), f)
        && (forall g :: g in s.place ==> g in s'.place && s'.place[g] == s.place[g])
        && (forall g :: g in s.place && g != f ==> TableAt(s'.tables, g) == TableAt(s.tables, g))
        && forall q: nat :: InSpace(s, q) ==> Walk(s', q) == Walk(s, q)
  {
    hide Walk, AllocBlock, PmmOk;
    if Present(Entry(s, f, level, pn)) {
      assert Leads(s, f, Index(level, pn));
    } else if AllocBlock(s, 1, 1).Some? {
      FreshLinkable(s, f, level, pn, dir);
      var (c, s1) := AllocBlock(s, 1, 1).value;
      LinkKeepsTree(s1, f, level, pn, c, dir);
      LinkKeepsWalks(s1, f, level, pn, c, dir);
    }
  }

  /** The generic map: descend from table `f`, creating the tables that are missing, and store
      the leaf at the last level, or at the second if it is a 2 MiB one. */
  ghost function MapFrom(s: Space, f: nat, level: nat, pn: nat, leaf: Word, dir: Word, big: bool): Option<Space>
    requires level > 0 && dir.page == 0
    decreases level
  {
    if level == 1 || (level == 2 && big) then Some(StoreLeaf(s, f, level, pn, leaf))
    else match EnsureTable(s, f, level, pn, dir)
      case None => None
      case Some(s') => MapFrom(s', NextTable(Entry(s', f, level, pn)), level - 1, pn, leaf, dir, big)
  }

  /** Above the second level the map only descends. */
  lemma MapDescends(s: Space, f: nat, level: nat, pn: nat, leaf: Word, dir: Word, big: bool)
    requires level > 2 && dir.page == 0
    ensures MapFrom(s, f, level, pn, leaf, dir, big) ==
      match EnsureTable(s, f, level, pn, dir)
      case None => None
      case Some(s') => MapFrom(s', NextTable(Entry(s', f, level, pn)), level - 1, pn, leaf, dir, big)
  {
  }

  /** The old translations with the leaf in the place of one page, or of one 2 MiB slot. */
  ghost predicate Remapped(s: Space, s': Space, pn: nat, leaf: Word, big: bool) {
    forall q: nat :: InSpace(s, q) ==>
      Walk(s', q) ==
        if big then if q / 512 == pn / 512 then Big(leaf) else Walk(s, q)
        else if q == pn then Small(leaf) else Walk(s, q)
  }

  lemma ExtendsTransitive(s: Space, s1: Space, s2: Space)
    requires Extends(s, s1) && Extends(s1, s2)
    ensures Extends(s, s2)
  {
    forall f | Owned(s.pmm.live, f) ensures Owned(s1.pmm.live, f) {
      var b :| b in s.pmm.live && Covers(b, f);
      assert b in s1.pmm.live;
    }
  }

  lemma StoreLeafMaps(s: Space, f: nat, pn: nat, leaf: Word, big: bool)
    requires SpaceOk(s) && f in s.place && s.place[f].level == (if big then 2 else 1)
    requires s.place[f].key == Key(s.place[f].level, pn) && InSpace(s, pn)
    requires Present(leaf) && (big ==> Large(leaf))
    ensures var s' := StoreLeaf(s, f, s.place[f].level, pn, leaf);
      SpaceOk(s') && Extends(s, s') && Remapped(s, s', pn, leaf, big)
  {
    StoreLeafKeepsTree(s, f, pn, leaf);
    StoreLeafEffect(s, f, pn, leaf);
    var level := s.place[f].level;
    forall q: nat ensures Key(level - 1, q) == if big then q / 512 else q {
      assert Key(1, q) == Key(0, q) / 512;
    }
  }

  lemma {:induction false} MapFromEffect(s: Space, f: nat, level: nat, pn: nat, leaf: Word, dir: Word, big: bool)
    requires SpaceOk(s) && f in s.place && s.place[f].level == level > 0 && s.place[f].key == Key(level, pn)
    requires InSpace(s, pn)
    requires DirectoryOk(dir) && Present(leaf) && (big ==> Large(leaf) && level > 1)
    requires big || !Walk(s, pn).Big?
    ensures match MapFrom(s, f, level, pn, leaf, dir, big)
      case None => true
      case Some(s') => SpaceOk(s') && Extends(s, s') && Remapped(s, s', pn, leaf, big)
    decreases level
  {
    if level == 1 || (level == 2 && big) {
      StoreLeafMaps(s, f, pn, leaf, big);
    } else {
      WalkReaches(s, f, pn);
      EnsureTableEffect(s, f, level, pn, dir);
      var r := EnsureTable(s, f, level, pn, dir);
      if r.Some? {
        var s1 := r.value;
        MapFromEffect(s1, NextTable(Entry(s1, f, level, pn)), level - 1, pn, leaf, dir, big);
        var r' := MapFrom(s, f, level, pn, leaf, dir, big);
        if r'.Some? {
          ExtendsTransitive(s, s1, r'.value);
          forall q: nat | InSpace(s, q) ensures Walk(s1, q) == Walk(s, q) && InSpace(s1, q) {
          }
        }
      }
    }
  }
}
