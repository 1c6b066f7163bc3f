/** Several address spaces over one memory and one page allocator: what is done to one of them leaves
    the translations of the others alone. */
module AddressSpaces {
  import opened Words
  import opened Physical
  import opened PageTables
  import opened PageOperations
  import opened DirectMap
  import opened MemoryRuns

  // ---------------------------------------------------------------- frames of others

  /** A frame that is in use as a table, but not of this space. */
  ghost predicate Foreign(s: Space, f: nat) {
    Block(f, 1) in s.pmm.live && f !in s.place && f in s.tables && f !in s.bytes
  }

  /** It still is, and holds what it held. */
  ghost predicate Kept(s: Space, s': Space, f: nat) {
    Foreign(s', f) && f in s.tables && s'.tables[f] == s.tables[f]
  }

  lemma AllocLeaves(s: Space, cnt: nat, align: nat, f: nat)
    requires PmmOk(s.pmm) && cnt > 0 && align > 0 && Foreign(s, f)
    ensures match AllocBlock(s, cnt, align)
      case None => true
      case Some((p, s')) => Kept(s, s', f) && !(p <= f < p + cnt)
  {
    hide PmmOk;
    AllocKeepsOk(s.pmm, cnt, align);
    if AllocBlock(s, cnt, align).Some? {
      var (p, s') := AllocBlock(s, cnt, align).value;
      FilledAt(s.tables, p, cnt, EmptyTable());
      FilledAt(s.bytes, p, cnt, ZeroPage());
      assert Separate(Block(f, 1), Block(p, cnt));
    }
  }

  lemma StoreLeaves(s: Space, g: nat, level: nat, pn: nat, e: Word, f: nat)
    requires g in s.place && level > 0 && Foreign(s, f)
    ensures Kept(s, StoreLeaf(s, g, level, pn, e), f)
  {
  }

  lemma AllocSamePlace(s: Space)
    ensures match AllocBlock(s, 1, 1) case None => true case Some((_, s')) => s'.place == s.place
  {
  }

  lemma EnsureTableLeaves(s: Space, g: nat, level: nat, pn: nat, dir: Word, f: nat)
    requires PmmOk(s.pmm) && g in s.place && level > 1 && dir.page == 0 && Foreign(s, f)
    ensures match EnsureTable(s, g, level, pn, dir) case None => true case Some(s') => Kept(s, s', f)
  {
    hide PmmOk, AllocBlock;
    if !Present(Entry(s, g, level, pn)) {
      AllocLeaves(s, 1, 1, f);
      AllocSamePlace(s);
    }
  }

  lemma {:induction false} MapFromLeaves(
      s: Space, g: nat, level: nat, pn: nat, leaf: Word, dir: Word, big: bool, f: nat)
    requires SpaceOk(s) && g in s.place && s.place[g].level == level > 0 && s.place[g].key == Key(level, pn)
    requires InSpace(s, pn) && DirectoryOk(dir) && (big ==> level > 1) && (big || !Walk(s, pn).Big?)
    requires Foreign(s, f)
    ensures match MapFrom(s, g, level, pn, leaf, dir, big) case None => true case Some(s') => Kept(s, s', f)
    decreases level
  {
    hide PmmOk, AllocBlock, IsTree, TablesLive, Foreign;
    if level == 1 || (level == 2 && big) {
      StoreLeaves(s, g, level, pn, leaf, f);
    } else {
      WalkReaches(s, g, pn);
      EnsureTableEffect(s, g, level, pn, dir);
      EnsureTableLeaves(s, g, level, pn, dir, f);
      var r := EnsureTable(s, g, level, pn, dir);
      if r.Some? {
        MapFromLeaves(r.value, NextTable(Entry(r.value, g, level, pn)), level - 1, pn, leaf, dir, big, f);
      }
    }
  }

  lemma {:induction false} UnmapFromLeaves(s: Space, g: nat, level: nat, pn: nat, f: nat)
    requires IsTree(s) && g in s.place && s.place[g].level == level && s.place[g].key == Key(level, pn) && Foreign(s, f)
    ensures Kept(s, UnmapFrom(s, g, level, pn).1, f)
    decreases level
  {
    assert Hangs(s, g);
    var e := Entry(s, g, level, pn);
    if level == 1 || (level == 2 && Large(e)) {
      StoreLeaves(s, g, level, pn, ClearPresent(e), f);
    } else if Present(e) {
      assert Leads(s, g, Index(level, pn));
      UnmapFromLeaves(s, NextTable(e), level - 1, pn, f);
    }
  }

  lemma ApplyLeaves(r: System, op: Op, f: nat)
    requires SystemOk(r) && Enabled(r, op) && Foreign(r.space, f) && op != Return(Block(f, 1))
    ensures Kept(r.space, Apply(r, op).space, f)
  {
    hide PmmOk, Walk;
    var s := r.space;
    match op
    case Map(pn, paddr, flags) =>
      FlagBits(paddr, flags, s.depth);
      MapFromLeaves(s, s.root, s.depth, pn, Leaf(paddr, flags), DirectoryOf(s.depth, flags), Large(flags), f);
    case Unmap(pn) => UnmapFromLeaves(s, s.root, s.depth, pn, f);
    case Take(cnt, align) => AllocLeaves(s, cnt, align, f);
    case Return(b) =>
  }

  /** The frame is not returned to the allocator during the run. */
  ghost predicate NeverReturned(ops: seq<Op>, f: nat) {
    Return(Block(f, 1)) !in ops
  }

  lemma {:induction false} RunLeaves(r: System, ops: seq<Op>, f: nat)
    requires SystemOk(r) && AllEnabled(r, ops) && Foreign(r.space, f) && NeverReturned(ops, f)
    ensures Kept(r.space, Execute(r, ops).space, f)
    decreases |ops|
  {
    hide SystemOk, Enabled, Apply;
    if ops != [] {
      assert forall op :: op in Front(ops) ==> op in ops;
      RunLeaves(r, Front(ops), f);
      MemoryRuns.RunKeepsOk(r, Front(ops));
      ApplyLeaves(Execute(r, Front(ops)), Last(ops), f);
    }
  }

  // ---------------------------------------------------------------- another space

  /** Space `t` over the memory as it is in `s`. */
  ghost function Over(t: Space, s: Space): Space {
    t.(pmm := s.pmm, tables := s.tables, bytes := s.bytes)
  }

  /** Two spaces over one memory, with tables of their own. */
  ghost predicate Beside(s: Space, t: Space) {
    SpaceOk(t) && t == Over(t, s) && s.place.Keys !! t.place.Keys
  }

  lemma BesideIsForeign(s: Space, t: Space, f: nat)
    requires Beside(s, t) && f in t.place
    ensures Foreign(s, f)
  {
  }

  /** Keeping the tables of a space keeps the space and its translations. */
  lemma KeptSpace(s: Space, s': Space, t: Space)
    requires Beside(s, t) && PmmOk(s'.pmm) && forall f :: f in t.place ==> Kept(s, s', f)
    ensures Beside(s', Over(t, s'))
    ensures forall q: nat :: Walk(Over(t, s'), q) == Walk(t, q)
  {
    hide PmmOk;
    forall f | f in t.place
      ensures f in s'.tables && f !in s'.bytes && f !in s'.place && TableAt(s'.tables, f) == TableAt(t.tables, f)
    {
      assert Kept(s, s', f);
    }
    TreeKept(t, Over(t, s'));
  }

  /** Whatever is mapped, unmapped or allocated for one space, in every run, changes no translation of
      another, as long as nobody returns the other's tables to the allocator. */
  lemma OtherSpaceKept(r: System, ops: seq<Op>, t: Space)
    requires SystemOk(r) && AllEnabled(r, ops) && Beside(r.space, t)
    requires forall f :: f in t.place ==> NeverReturned(ops, f)
    ensures var s' := Execute(r, ops).space;
      Beside(s', Over(t, s')) && forall q: nat :: Walk(Over(t, s'), q) == Walk(t, q)
  {
    hide Execute, AllEnabled, Walk, NeverReturned, Beside, Kept, Foreign;
    forall f | f in t.place ensures Kept(r.space, Execute(r, ops).space, f) {
      BesideIsForeign(r.space, t, f);
      RunLeaves(r, ops, f);
    }
    MemoryRuns.RunKeepsOk(r, ops);
    KeptSpace(r.space, Execute(r, ops).space, t);
  }

  /** A new space starts beside every other one. */
  lemma NewSpaceIsBeside(m: Space, t: Space)
    requires SpaceOk(t) && t == Over(t, m) && m.place == map[] && m.depth > 2 && NewSpace(m).Some?
    ensures var s := NewSpace(m).value;
      Beside(s, Over(t, s)) && forall q: nat :: Walk(Over(t, s), q) == Walk(t, q)
  {
    hide PmmOk, Walk;
    NewSpaceEffect(m);
    var s := NewSpace(m).value;
    forall f | f in t.place ensures Kept(m, s, f) {
      AllocLeaves(m, 1, 1, f);
    }
    KeptSpace(m, s, t);
  }
}
