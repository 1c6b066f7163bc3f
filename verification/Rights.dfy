/** Access rights along a walk. The hardware grants a right only if every entry on the way
    grants it; section 4.6 of volume 3A of the Intel SDM. */
module Rights {
  import opened Words
  import opened Physical
  import opened PageTables
  import opened PageOperations

  predicate Writable(e: Word) {
    e.low & RW != 0
  }

  predicate User(e: Word) {
    e.low & US != 0
  }

  /** What the entries on the way grant together. */
  datatype Grant = Denied | Granted(write: bool, user: bool, execute: bool)

  function GrantFrom(t: map<nat, Table>, f: nat, level: nat, pn: nat): Grant
    decreases level
  {
    if level == 0 then Denied
    else
      var e := Get(t, f, Index(level, pn));
      if !Present(e) then Denied
      else if !IsLink(level, e) then Granted(Writable(e), User(e), !e.nx)
      else match GrantFrom(t, NextTable(e), level - 1, pn)
        case Denied => Denied
        case Granted(w, u, x) => Granted(Writable(e) && w, User(e) && u, !e.nx && x)
  }

  function EffectiveGrant(s: Space, pn: nat): Grant {
    GrantFrom(s.tables, s.root, s.depth, pn)
  }

  ghost predicate Carries(s: Space, f: nat, i: nat, m: bv12)
    requires i < 512
  {
    Refers(s, f, i, NextTable(Get(s.tables, f, i))) ==> Get(s.tables, f, i).low & m != 0
  }

  /** Every entry that leads to a table carries the flag `m`. */
  ghost predicate LinksCarry(s: Space, m: bv12) {
    forall f: nat, i: nat {:trigger Carries(s, f, i, m)} :: i < 512 ==> Carries(s, f, i, m)
  }

  ghost predicate AsEntry(g: Grant, e: Word, write: bool, user: bool) {
    && g.Granted? && g.execute == !e.nx
    && (write ==> g.write == Writable(e)) && (user ==> g.user == User(e))
  }

  ghost predicate AsLeaf(g: Grant, w: Mapping, write: bool, user: bool) {
    match w
    case Unmapped => g == Denied
    case Small(e) => AsEntry(g, e, write, user)
    case Big(e) => AsEntry(g, e, write, user)
  }

  /** The right to execute is that of the leaf, and so is the right to write (or to be used from
      user mode) if every entry that leads to a table carries RW (or US). */
  lemma {:induction false} GrantIsLeaf(s: Space, f: nat, pn: nat)
    requires IsTree(s) && f in s.place
    ensures var level := s.place[f].level;
      AsLeaf(GrantFrom(s.tables, f, level, pn), WalkFrom(s.tables, f, level, pn), LinksCarry(s, RW), LinksCarry(s, US))
    decreases s.place[f].level
  {
    var level := s.place[f].level;
    assert Hangs(s, f);
    var i := Index(level, pn);
    var e := Get(s.tables, f, i);
    if IsLink(level, e) {
      assert Leads(s, f, i);
      assert LinksCarry(s, RW) ==> Carries(s, f, i, RW);
      assert LinksCarry(s, US) ==> Carries(s, f, i, US);
      GrantIsLeaf(s, NextTable(e), pn);
    }
  }

  // ---------------------------------------------------------------- what the operations keep

  /** An operation that keeps the old links and adds only links that carry `m`. */
  ghost predicate AddsCarrying(s: Space, s': Space, m: bv12) {
    forall f: nat, i: nat {:trigger Carries(s', f, i, m)} :: i < 512 ==>
      Carries(s', f, i, m) || (Get(s'.tables, f, i) == Get(s.tables, f, i) && f in s'.place && f in s.place
        && s.place[f].level == s'.place[f].level)
  }

  lemma KeepsCarrying(s: Space, s': Space, m: bv12)
    requires LinksCarry(s, m) && AddsCarrying(s, s', m)
    ensures LinksCarry(s', m)
  {
    forall f: nat, i: nat | i < 512 ensures Carries(s', f, i, m) {
      assert Carries(s, f, i, m);
    }
  }

  lemma StoreLeafCarries(s: Space, f: nat, level: nat, pn: nat, e: Word, m: bv12)
    requires LinksCarry(s, m) && f in s.place && s.place[f].level == level > 0 && !IsLink(level, e)
    ensures LinksCarry(StoreLeaf(s, f, level, pn, e), m)
  {
    KeepsCarrying(s, StoreLeaf(s, f, level, pn, e), m);
  }

  lemma LinkTableCarries(s: Space, f: nat, level: nat, pn: nat, c: nat, dir: Word, m: bv12)
    requires Linkable(s, f, level, pn, c, dir) && LinksCarry(s, m) && dir.low & m != 0
    ensures LinksCarry(LinkTable(s, f, level, pn, c, dir), m)
  {
    var s' := LinkTable(s, f, level, pn, c, dir);
    assert TableAt(s'.tables, c) == EmptyTable();
    assert 0 | dir.low == dir.low;
    KeepsCarrying(s, s', m);
  }

  lemma AllocBlockCarries(s: Space, cnt: nat, align: nat, m: bv12)
    requires SpaceOk(s) && LinksCarry(s, m) && cnt > 0 && align > 0
    ensures match AllocBlock(s, cnt, align) case None => true case Some((_, s')) => LinksCarry(s', m)
  {
    AllocBlockEffect(s, cnt, align);
    if AllocBlock(s, cnt, align).Some? {
      KeepsCarrying(s, AllocBlock(s, cnt, align).value.1, m);
    }
  }

  lemma EnsureTableCarries(s: Space, f: nat, level: nat, pn: nat, dir: Word, m: bv12)
    requires SpaceOk(s) && f in s.place && s.place[f].level == level > 1 && s.place[f].key == Key(level, pn)
    requires LinksCarry(s, m) && DirectoryOk(dir) && dir.low & m != 0
    ensures match EnsureTable(s, f, level, pn, dir) case None => true case Some(s') => LinksCarry(s', m)
  {
    if !Present(Entry(s, f, level, pn)) && AllocBlock(s, 1, 1).Some? {
      AllocBlockCarries(s, 1, 1, m);
      FreshLinkable(s, f, level, pn, dir);
      var (c, s1) := AllocBlock(s, 1, 1).value;
      LinkTableCarries(s1, f, level, pn, c, dir, m);
    }
  }

  lemma {:induction false} MapFromCarries(
      s: Space, f: nat, level: nat, pn: nat, leaf: Word, dir: Word, big: bool, m: bv12)
    requires SpaceOk(s) && f in s.place && s.place[f].level == level > 0 && s.place[f].key == Key(level, pn)
    requires InSpace(s, pn) && DirectoryOk(dir) && (big ==> Large(leaf) && level > 1) && (big || !Walk(s, pn).Big?)
    requires LinksCarry(s, m) && dir.low & m != 0
    ensures match MapFrom(s, f, level, pn, leaf, dir, big) case None => true case Some(s') => LinksCarry(s', m)
    decreases level
  {
    if level == 1 || (level == 2 && big) {
      StoreLeafCarries(s, f, level, pn, leaf, m);
    } else {
      WalkReaches(s, f, pn);
      EnsureTableEffect(s, f, level, pn, dir);
      EnsureTableCarries(s, f, level, pn, dir, m);
      var r := EnsureTable(s, f, level, pn, dir);
      if r.Some? {
        MapFromCarries(r.value, NextTable(Entry(r.value, f, level, pn)), level - 1, pn, leaf, dir, big, m);
      }
    }
  }

  lemma MapPageCarries(s: Space, pn: nat, paddr: Word, flags: Word, m: bv12)
    requires SpaceOk(s) && InSpace(s, pn) && FlagsOk(flags) && (Large(flags) || !Walk(s, pn).Big?)
    requires LinksCarry(s, m) && DirectoryOf(s.depth, flags).low & m != 0
    ensures match MapPage(s, pn, paddr, flags) case None => true case Some(s') => LinksCarry(s', m)
  {
    FlagBits(paddr, flags, s.depth);
    MapFromCarries(s, s.root, s.depth, pn, Leaf(paddr, flags), DirectoryOf(s.depth, flags), Large(flags), m);
  }

  lemma {:induction false} UnmapFromCarries(s: Space, f: nat, level: nat, pn: nat, m: bv12)
    requires IsTree(s) && f in s.place && s.place[f].level == level && s.place[f].key == Key(level, pn)
    requires LinksCarry(s, m)
    ensures LinksCarry(UnmapFrom(s, f, level, pn).1, m)
    decreases level
  {
    assert Hangs(s, f);
    var e := Entry(s, f, level, pn);
    if level == 1 || (level == 2 && Large(e)) {
      assert (e.low & !P) & P == 0;
      StoreLeafCarries(s, f, level, pn, ClearPresent(e), m);
    } else if Present(e) {
      assert Leads(s, f, Index(level, pn));
      UnmapFromCarries(s, NextTable(e), level - 1, pn, m);
    }
  }

  // ---------------------------------------------------------------- five levels

  /** A map leaves the tables above the one it starts from alone. */
  lemma {:induction false} MapFromLeavesAbove(
      s: Space, f: nat, level: nat, pn: nat, leaf: Word, dir: Word, big: bool, g: nat)
    requires SpaceOk(s) && f in s.place && s.place[f].level == level > 0 && s.place[f].key == Key(level, pn)
    requires InSpace(s, pn) && DirectoryOk(dir) && (big ==> level > 1) && (big || !Walk(s, pn).Big?)
    requires g in s.place && s.place[g].level > level
    ensures match MapFrom(s, f, level, pn, leaf, dir, big)
      case None => true
      case Some(s') => s'.root == s.root && s'.depth == s.depth && TableAt(s'.tables, g) == TableAt(s.tables, g)
    decreases level
  {
    if level > 1 && !(level == 2 && big) {
      WalkReaches(s, f, pn);
      EnsureTableEffect(s, f, level, pn, dir);
      var r := EnsureTable(s, f, level, pn, dir);
      if r.Some? {
        MapFromLeavesAbove(r.value, NextTable(Entry(r.value, f, level, pn)), level - 1, pn, leaf, dir, big, g);
      }
    }
  }

  /** With five levels the right to write is not the leaf's: if the first mapping under a root
      entry is read-only, no page under that entry is writable, whatever its leaf says. */
  lemma FirstMappingLimitsWrite(s: Space, pn: nat, paddr: Word, flags: Word, q: nat)
    requires SpaceOk(s) && s.depth == 5 && InSpace(s, pn) && FlagsOk(flags) && !Writable(flags)
    requires !Present(Entry(s, s.root, 5, pn)) && Index(5, q) == Index(5, pn)
    ensures match MapPage(s, pn, paddr, flags)
      case None => true
      case Some(s') => EffectiveGrant(s', q) == Denied || !EffectiveGrant(s', q).write
  {
    hide AllocBlock, PmmOk;
    FlagBits(paddr, flags, 5);
    var dir := DirectoryOf(5, flags);
    assert (flags.low & !(PS | G)) & RW == 0 by {
      assert flags.low & RW == 0;
    }
    EnsureTableEffect(s, s.root, 5, pn, dir);
    var r := EnsureTable(s, s.root, 5, pn, dir);
    if r.Some? {
      FreshLinkable(s, s.root, 5, pn, dir);
      var s1 := r.value;
      var e := Entry(s1, s.root, 5, pn);
      assert e.low == dir.low by {
        assert 0 | dir.low == dir.low;
      }
      MapFromLeavesAbove(s1, NextTable(e), 4, pn, Leaf(paddr, flags), dir, Large(flags), s.root);
    }
  }
}
