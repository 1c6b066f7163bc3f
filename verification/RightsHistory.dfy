/** Effective rights over whole runs: which rights a page has follows from its own mapping and from
    the first mapping made under each of the tables above it. */
module RightsHistory {
  import opened Words
  import opened Physical
  import opened PageTables
  import opened PageOperations
  import opened Rights
  import opened DirectMap
  import opened MemoryRuns

  // ---------------------------------------------------------------- the links on the way to a page

  /** The flags of the entry of a level (2 or more) that leads towards a page, if it leads to a
      table. */
  function LinkFrom(t: map<nat, Table>, f: nat, top: nat, level: nat, pn: nat): Option<bv12>
    decreases top
  {
    if top < level || top == 0 then None
    else
      var e := Get(t, f, Index(top, pn));
      if !IsLink(top, e) then None
      else if top == level then Some(e.low)
      else LinkFrom(t, NextTable(e), top - 1, level, pn)
  }

  function Link(s: Space, level: nat, pn: nat): Option<bv12> {
    LinkFrom(s.tables, s.root, s.depth, level, pn)
  }

  lemma {:induction false} LinkReaches(s: Space, f: nat, level: nat, pn: nat)
    requires IsTree(s) && f in s.place && s.place[f].key == Key(s.place[f].level, pn) && InSpace(s, pn)
    requires level <= s.place[f].level
    ensures Link(s, level, pn) == LinkFrom(s.tables, f, s.place[f].level, level, pn)
    decreases s.depth - s.place[f].level
  {
    assert Hangs(s, f);
    if s.place[f].level < s.depth {
      LinkReaches(s, s.place[f].parent, level, pn);
    }
  }

  /** A store changes no link above its table, and none on the way to other pages. */
  lemma {:induction false} StoreOffPath(s: Space, f: nat, i: nat, e: Word, g: nat, level: nat, pn: nat)
    requires IsTree(s) && f in s.place && s.place[f].level > 0 && i < 512 && g in s.place
    requires s.place[g].key == Key(s.place[g].level, pn)
    requires level > s.place[f].level || Key(s.place[f].level - 1, pn) != s.place[f].key * 512 + i
    ensures LinkFrom(Put(s.tables, f, i, e), g, s.place[g].level, level, pn)
         == LinkFrom(s.tables, g, s.place[g].level, level, pn)
    decreases s.place[g].level
  {
    var top := s.place[g].level;
    assert Hangs(s, g) && Hangs(s, f);
    var x := Get(s.tables, g, Index(top, pn));
    if top >= level {
      assert Get(Put(s.tables, f, i, e), g, Index(top, pn)) == x;
      if IsLink(top, x) {
        assert Leads(s, g, Index(top, pn));
        StoreOffPath(s, f, i, e, NextTable(x), level, pn);
      }
    }
  }

  lemma {:induction false} LinksSame(s: Space, t: map<nat, Table>, g: nat, level: nat, pn: nat)
    requires IsTree(s) && g in s.place
    requires forall f :: f in s.place ==> TableAt(t, f) == TableAt(s.tables, f)
    ensures LinkFrom(t, g, s.place[g].level, level, pn) == LinkFrom(s.tables, g, s.place[g].level, level, pn)
    decreases s.place[g].level
  {
    var top := s.place[g].level;
    assert Hangs(s, g);
    var x := Get(s.tables, g, Index(top, pn));
    if IsLink(top, x) {
      assert Leads(s, g, Index(top, pn));
      LinksSame(s, t, NextTable(x), level, pn);
    }
  }

  // ---------------------------------------------------------------- what the operations do to links

  /** A stored leaf takes the place of a link only at the second level. */
  lemma StoreLeafLinks(s: Space, f: nat, pn: nat, e: Word, level: nat, q: nat)
    requires IsTree(s) && f in s.place && 1 <= s.place[f].level <= 2 && !IsLink(s.place[f].level, e)
    requires s.place[f].key == Key(s.place[f].level, pn) && level > 1 && InSpace(s, q)
    ensures Link(StoreLeaf(s, f, s.place[f].level, pn, e), level, q) ==
      if s.place[f].level == level && Key(1, q) == Key(1, pn) then None else Link(s, level, q)
  {
    var top := s.place[f].level;
    var s' := StoreLeaf(s, f, top, pn, e);
    StoreLeafKeepsTree(s, f, pn, e);
    if top == level && Key(1, q) == Key(1, pn) {
      assert f in s'.place by {
        if IsLink(top, Get(s.tables, f, Index(top, pn))) {
          assert Leads(s, f, Index(top, pn));
        }
      }
      LinkReaches(s', f, level, q);
    } else {
      StoreOffPath(s, f, Index(top, pn), e, s.root, level, q);
    }
  }

  lemma LinkTableLinks(s: Space, f: nat, top: nat, pn: nat, c: nat, dir: Word, level: nat, q: nat)
    requires Linkable(s, f, top, pn, c, dir) && level > 1 && InSpace(s, q)
    ensures Link(LinkTable(s, f, top, pn, c, dir), level, q) ==
      if level == top && Key(top - 1, q) == Key(top - 1, pn) then Some(dir.low) else Link(s, level, q)
    ensures level == top && Key(top - 1, q) == Key(top - 1, pn) ==> Link(s, level, q) == None
  {
    var s' := LinkTable(s, f, top, pn, c, dir);
    LinkKeepsTree(s, f, top, pn, c, dir);
    assert 0 | dir.low == dir.low;
    if level > top || Key(top - 1, q) != Key(top - 1, pn) {
      StoreOffPath(s, f, Index(top, pn), Or(Addr(c), dir), s.root, level, q);
    } else {
      LinkReaches(s, f, level, q);
      LinkReaches(s', f, level, q);
      assert TableAt(s'.tables, c) == EmptyTable();
    }
  }

  /** The link of a level after a map: kept if there was one, else made from the call's flags. */
  ghost function Linked(link: Option<bv12>, dir: Word): Option<bv12> {
    if link.Some? then link else Some(dir.low)
  }

  lemma EnsureTableLinks(s: Space, f: nat, top: nat, pn: nat, dir: Word, level: nat, q: nat)
    requires SpaceOk(s) && f in s.place && s.place[f].level == top > 1 && s.place[f].key == Key(top, pn)
    requires DirectoryOk(dir) && !(top == 2 && Present(Entry(s, f, top, pn)) && Large(Entry(s, f, top, pn)))
    requires level > 1 && InSpace(s, q)
    ensures match EnsureTable(s, f, top, pn, dir)
      case None => true
      case Some(s') =>
        Link(s', level, q) ==
          if level == top && Key(top - 1, q) == Key(top - 1, pn) then Linked(Link(s, level, q), dir)
          else Link(s, level, q)
  {
    hide AllocBlock, PmmOk;
    if Present(Entry(s, f, top, pn)) {
      if level == top && Key(top - 1, q) == Key(top - 1, pn) {
        LinkReaches(s, f, level, q);
      }
    } else if AllocBlock(s, 1, 1).Some? {
      FreshLinkable(s, f, top, pn, dir);
      var (c, s1) := AllocBlock(s, 1, 1).value;
      LinksSame(s, s1.tables, s.root, level, q);
      LinkTableLinks(s1, f, top, pn, c, dir, level, q);
    }
  }

  /** Every link towards the mapped page is there afterwards, old links as they were; only a
      2 MiB leaf ends a link. */
  ghost predicate LinksAfterMap(s: Space, s': Space, top: nat, pn: nat, dir: Word, big: bool, level: nat, q: nat)
    requires level > 0
  {
    Link(s', level, q) ==
      if level > top || Key(level - 1, q) != Key(level - 1, pn) then Link(s, level, q)
      else if big && level == 2 then None
      else Linked(Link(s, level, q), dir)
  }

  lemma {:induction false} MapFromLinks(
      s: Space, f: nat, top: nat, pn: nat, leaf: Word, dir: Word, big: bool, level: nat, q: nat)
    requires SpaceOk(s) && f in s.place && s.place[f].level == top > 0 && s.place[f].key == Key(top, pn)
    requires InSpace(s, pn) && DirectoryOk(dir) && Present(leaf)
    requires (big ==> Large(leaf) && top > 1) && (big || !Walk(s, pn).Big?)
    requires level > 1 && InSpace(s, q)
    ensures match MapFrom(s, f, top, pn, leaf, dir, big)
      case None => true
      case Some(s') => LinksAfterMap(s, s', top, pn, dir, big, level, q)
    decreases top
  {
    hide AllocBlock, PmmOk, EnsureTable, Link, Linked, IsTree, TablesLive;
    if top == 1 || (top == 2 && big) {
      StoreLeafLinks(s, f, pn, leaf, level, q);
    } else {
      WalkReaches(s, f, pn);
      EnsureTableEffect(s, f, top, pn, dir);
      EnsureTableLinks(s, f, top, pn, dir, level, q);
      var r := EnsureTable(s, f, top, pn, dir);
      if r.Some? {
        assert InSpace(r.value, q);
        MapFromLinks(r.value, NextTable(Entry(r.value, f, top, pn)), top - 1, pn, leaf, dir, big, level, q);
      }
    }
  }

  /** Unmapping changes no link. */
  lemma {:induction false} UnmapFromLinks(s: Space, f: nat, top: nat, pn: nat, level: nat, q: nat)
    requires IsTree(s) && f in s.place && s.place[f].level == top && s.place[f].key == Key(top, pn) && InSpace(s, pn)
    requires level > 1 && InSpace(s, q)
    ensures Link(UnmapFrom(s, f, top, pn).1, level, q) == Link(s, level, q)
    decreases top
  {
    hide PmmOk;
    assert Hangs(s, f);
    var e := Entry(s, f, top, pn);
    if top == 1 || (top == 2 && Large(e)) {
      assert (e.low & !P) & P == 0;
      StoreLeafLinks(s, f, pn, ClearPresent(e), level, q);
      if top == level && Key(1, q) == Key(1, pn) {
        LinkReaches(s, f, level, q);
      }
    } else if Present(e) {
      assert Leads(s, f, Index(top, pn));
      UnmapFromLinks(s, NextTable(e), top - 1, pn, level, q);
    }
  }

  // ---------------------------------------------------------------- the history of a link

  /** The flags that a mapping gives to a new link: four levels add RW. */
  function Stamped(depth: nat, flags: Word): bv12 {
    if depth == 4 then DirectoryFlags(flags).low | RW else DirectoryFlags(flags).low
  }

  /** The flags of the first mapping made under a key of a level, from the calls alone; a 2 MiB
      mapping of that slot starts over. */
  ghost function FirstMap(ops: seq<Op>, level: nat, key: nat): Option<Word>
    requires level > 0
    decreases |ops|
  {
    if ops == [] then None
    else
      var before := FirstMap(Front(ops), level, key);
      match Last(ops)
      case Map(pn, _, flags) =>
        if Key(level - 1, pn) != key then before
        else if Large(flags) && level == 2 then None
        else if before.Some? then before
        else Some(flags)
      case _ => before
  }

  /** The link of a level towards the pages of a key: what the first mapping under the key made it. */
  ghost function History(depth: nat, ops: seq<Op>, level: nat, key: nat): Option<bv12>
    requires level > 0
  {
    match FirstMap(ops, level, key)
    case None => None
    case Some(flags) => Some(Stamped(depth, flags))
  }

  lemma StampedIsDirectory(depth: nat, flags: Word)
    requires FlagsOk(flags)
    ensures DirectoryOf(depth, flags).low == Stamped(depth, flags)
  {
  }

  lemma MapPageLinks(s: Space, pn: nat, paddr: Word, flags: Word, level: nat, q: nat)
    requires SpaceOk(s) && InSpace(s, pn) && FlagsOk(flags) && (Large(flags) || !Walk(s, pn).Big?)
    requires 1 < level <= s.depth && InSpace(s, q)
    ensures match MapPage(s, pn, paddr, flags)
      case None => true
      case Some(s') =>
        Link(s', level, q) ==
          if Key(level - 1, q) != Key(level - 1, pn) then Link(s, level, q)
          else if Large(flags) && level == 2 then None
          else if Link(s, level, q).Some? then Link(s, level, q)
          else Some(Stamped(s.depth, flags))
  {
    hide MapFrom, PmmOk, DirectoryOf, LinkFrom, WalkFrom;
    FlagBits(paddr, flags, s.depth);
    StampedIsDirectory(s.depth, flags);
    MapFromLinks(s, s.root, s.depth, pn, Leaf(paddr, flags), DirectoryOf(s.depth, flags), Large(flags), level, q);
  }

  lemma OtherLinks(r: System, op: Op, level: nat, q: nat)
    requires SystemOk(r) && Enabled(r, op) && !op.Map? && level > 1 && InSpace(r.space, q)
    ensures Link(Apply(r, op).space, level, q) == Link(r.space, level, q)
  {
    hide LinkFrom, AllocBlock, PmmOk;
    var s := r.space;
    match op
    case Unmap(pn) => UnmapFromLinks(s, s.root, s.depth, pn, level, q);
    case Take(cnt, align) =>
      AllocBlockEffect(s, cnt, align);
      LinksSame(s, Apply(r, op).space.tables, s.root, level, q);
    case Return(b) =>
  }

  lemma ApplyLinks(r: System, op: Op, level: nat, q: nat)
    requires SystemOk(r) && Enabled(r, op) && 1 < level <= r.space.depth && InSpace(r.space, q)
    ensures Link(Apply(r, op).space, level, q) ==
      match op
      case Map(pn, _, flags) =>
        if Key(level - 1, q) != Key(level - 1, pn) then Link(r.space, level, q)
        else if Large(flags) && level == 2 then None
        else if Link(r.space, level, q).Some? then Link(r.space, level, q)
        else Some(Stamped(r.space.depth, flags))
      case _ => Link(r.space, level, q)
  {
    hide MapPage, PmmOk, Link, WalkFrom;
    if op.Map? {
      MapPageLinks(r.space, op.pn, op.paddr, op.flags, level, q);
    } else {
      OtherLinks(r, op, level, q);
    }
  }

  lemma NewSystemLinks(m: Space, level: nat, q: nat)
    requires NewSpace(m).Some?
    ensures Link(NewSystem(m).space, level, q) == None
  {
    if m.depth > 0 {
      NewRootIsEmpty(m, Index(m.depth, q));
    }
  }

  /** In every run of a new space the links on the way to a page are what the calls made them. */
  lemma {:induction false} LinksAreHistory(m: Space, ops: seq<Op>, level: nat, q: nat)
    requires PmmOk(m.pmm) && m.depth > 2 && NewSpace(m).Some? && AllEnabled(NewSystem(m), ops)
    requires 1 < level <= m.depth && Key(m.depth, q) == 0
    ensures var s := Execute(NewSystem(m), ops).space;
      s.depth == m.depth && Link(s, level, q) == History(m.depth, ops, level, Key(level - 1, q))
    decreases |ops|
  {
    hide PmmOk, SystemOk, Enabled, Apply, Link;
    if ops == [] {
      NewSystemLinks(m, level, q);
    } else {
      LinksAreHistory(m, Front(ops), level, q);
      NewSystemOk(m, P);
      MemoryRuns.RunKeepsOk(NewSystem(m), Front(ops));
      ApplyLinks(Execute(NewSystem(m), Front(ops)), Last(ops), level, q);
      RunIsTranslationMap(NewSystem(m), ops, q);
    }
  }

  // ---------------------------------------------------------------- rights

  predicate Bears(low: bv12, flag: bv12) {
    low & flag != 0
  }

  /** All links from level `low` up to `top` on the way to a page are there and carry the flag. */
  predicate AllCarry(t: map<nat, Table>, f: nat, low: nat, top: nat, pn: nat, flag: bv12)
    decreases top
  {
    top < low || top == 0 ||
    (var e := Get(t, f, Index(top, pn));
     IsLink(top, e) && Bears(e.low, flag) && AllCarry(t, NextTable(e), low, top - 1, pn, flag))
  }

  predicate Carried(link: Option<bv12>, flag: bv12) {
    link.Some? && Bears(link.value, flag)
  }

  predicate CarriedAt(t: map<nat, Table>, f: nat, top: nat, level: nat, pn: nat, flag: bv12) {
    Carried(LinkFrom(t, f, top, level, pn), flag)
  }

  /** The rights of a leaf, as far as the links above it let writing and user mode through. */
  function Capped(e: Word, write: bool, user: bool): Grant {
    Granted(Writable(e) && write, User(e) && user, !e.nx)
  }

  /** The hardware grants what the leaf and all links above it grant. */
  predicate GrantsAll(g: Grant, w: Mapping, t: map<nat, Table>, f: nat, top: nat, pn: nat) {
    match w
    case Unmapped => g == Denied
    case Small(e) => g == Capped(e, AllCarry(t, f, 2, top, pn, RW), AllCarry(t, f, 2, top, pn, US))
    case Big(e) => g == Capped(e, AllCarry(t, f, 3, top, pn, RW), AllCarry(t, f, 3, top, pn, US))
  }

  lemma {:induction false} AllCarryByLevel(t: map<nat, Table>, f: nat, low: nat, top: nat, pn: nat, flag: bv12)
    requires low > 1
    ensures AllCarry(t, f, low, top, pn, flag) <==>
      forall level :: low <= level <= top ==> CarriedAt(t, f, top, level, pn, flag)
    decreases top
  {
    hide Bears, IsLink, NextTable;
    if top >= low {
      var e, below := Get(t, f, Index(top, pn)), top - 1;
      AllCarryByLevel(t, NextTable(e), low, below, pn, flag);
      assert CarriedAt(t, f, top, top, pn, flag) <==> IsLink(top, e) && Bears(e.low, flag);
      if IsLink(top, e) {
        forall level | low <= level <= below
          ensures CarriedAt(t, f, top, level, pn, flag) <==> CarriedAt(t, NextTable(e), below, level, pn, flag)
        {
        }
      }
    }
  }

  lemma {:induction false} GrantIsLeafAndLinks(s: Space, f: nat, pn: nat)
    requires IsTree(s) && f in s.place
    ensures var top := s.place[f].level;
      GrantsAll(GrantFrom(s.tables, f, top, pn), WalkFrom(s.tables, f, top, pn), s.tables, f, top, pn)
    decreases s.place[f].level
  {
    var top := s.place[f].level;
    assert Hangs(s, f);
    var e := Get(s.tables, f, Index(top, pn));
    if IsLink(top, e) {
      assert Leads(s, f, Index(top, pn));
      GrantIsLeafAndLinks(s, NextTable(e), pn);
    }
  }

  ghost predicate AllowedAt(depth: nat, ops: seq<Op>, level: nat, q: nat, flag: bv12)
    requires level > 0
  {
    Carried(History(depth, ops, level, Key(level - 1, q)), flag)
  }

  /** The first mapping under each table above a page, from level `low` up, had the flag. */
  ghost predicate Allowed(depth: nat, ops: seq<Op>, low: nat, q: nat, flag: bv12)
    requires low > 0
  {
    forall level :: low <= level <= depth ==> AllowedAt(depth, ops, level, q, flag)
  }

  lemma CarryIsAllowed(m: Space, ops: seq<Op>, low: nat, q: nat, flag: bv12)
    requires PmmOk(m.pmm) && m.depth > 2 && NewSpace(m).Some? && AllEnabled(NewSystem(m), ops)
    requires low > 1 && Key(m.depth, q) == 0
    ensures var s := Execute(NewSystem(m), ops).space;
      AllCarry(s.tables, s.root, low, m.depth, q, flag) <==> Allowed(m.depth, ops, low, q, flag)
  {
    hide History, LinkFrom, Execute, AllEnabled, AllCarry, Carried, PmmOk;
    var s := Execute(NewSystem(m), ops).space;
    AllCarryByLevel(s.tables, s.root, low, m.depth, q, flag);
    forall level | low <= level <= m.depth
      ensures CarriedAt(s.tables, s.root, m.depth, level, q, flag) <==> AllowedAt(m.depth, ops, level, q, flag)
    {
      LinksAreHistory(m, ops, level, q);
    }
  }

  /** What the hardware grants on a page after any run of a new space, from the calls alone. */
  ghost function GrantedBy(depth: nat, w: Mapping, ops: seq<Op>, q: nat): Grant {
    match w
    case Unmapped => Denied
    case Small(e) => Capped(e, Allowed(depth, ops, 2, q, RW), Allowed(depth, ops, 2, q, US))
    case Big(e) => Capped(e, Allowed(depth, ops, 3, q, RW), Allowed(depth, ops, 3, q, US))
  }

  /** A page may be written exactly if its own mapping allows it and so did the first mapping under
      each table above it; likewise for user mode. The right to execute is the mapping's alone. */
  lemma RightsAreHistory(m: Space, ops: seq<Op>, q: nat)
    requires PmmOk(m.pmm) && m.depth > 2 && NewSpace(m).Some? && AllEnabled(NewSystem(m), ops) && Key(m.depth, q) == 0
    ensures EffectiveGrant(Execute(NewSystem(m), ops).space, q) ==
      GrantedBy(m.depth, Lookup(NewSystem(m).space, ops, q), ops, q)
  {
    hide Execute, AllEnabled, AllCarry, Allowed, Lookup, WalkFrom;
    NewSystemOk(m, P);
    MemoryRuns.RunKeepsOk(NewSystem(m), ops);
    var s := Execute(NewSystem(m), ops).space;
    RunIsTranslationMap(NewSystem(m), ops, q);
    GrantIsLeafAndLinks(s, s.root, q);
    CarryIsAllowed(m, ops, 2, q, RW);
    CarryIsAllowed(m, ops, 2, q, US);
    CarryIsAllowed(m, ops, 3, q, RW);
    CarryIsAllowed(m, ops, 3, q, US);
  }

  lemma StampKeepsWrite(flags: Word)
    ensures Bears(Stamped(5, flags), RW) <==> Writable(flags)
  {
    var b := flags.low;
    assert (b & !(PS | G)) & RW == b & RW;
  }

  /** The first mapping under the table that a page has at a level was a writable one. */
  ghost predicate FirstWritable(ops: seq<Op>, level: nat, q: nat)
    requires level > 0
  {
    var first := FirstMap(ops, level, Key(level - 1, q));
    first.Some? && Writable(first.value)
  }

  ghost predicate AllFirstWritable(ops: seq<Op>, low: nat, q: nat)
    requires low > 0
  {
    forall level :: low <= level <= 5 ==> FirstWritable(ops, level, q)
  }

  lemma AllowedIsFirstWritable(ops: seq<Op>, low: nat, q: nat)
    requires low > 0
    ensures Allowed(5, ops, low, q, RW) <==> AllFirstWritable(ops, low, q)
  {
    hide Bears, Writable, FirstMap, Stamped;
    forall level | low <= level <= 5 ensures AllowedAt(5, ops, level, q, RW) <==> FirstWritable(ops, level, q) {
      var first := FirstMap(ops, level, Key(level - 1, q));
      if first.Some? {
        StampKeepsWrite(first.value);
      }
    }
  }

  /** With five levels the right to write a mapped page is its own mapping's if and only if that
      mapping is read-only or the first mapping under every table above the page was writable. */
  lemma FiveLevelWriteRight(m: Space, ops: seq<Op>, q: nat)
    requires PmmOk(m.pmm) && m.depth == 5 && NewSpace(m).Some? && AllEnabled(NewSystem(m), ops) && Key(5, q) == 0
    requires Lookup(NewSystem(m).space, ops, q) != Unmapped
    ensures var w, g := Lookup(NewSystem(m).space, ops, q), EffectiveGrant(Execute(NewSystem(m), ops).space, q);
      && g.Granted?
      && (g.write == Writable(w.e) <==> !Writable(w.e) || AllFirstWritable(ops, if w.Small? then 2 else 3, q))
  {
    hide Execute, AllEnabled, Allowed, AllFirstWritable, Lookup, PmmOk, Writable;
    RightsAreHistory(m, ops, q);
    AllowedIsFirstWritable(ops, 2, q);
    AllowedIsFirstWritable(ops, 3, q);
  }
}
