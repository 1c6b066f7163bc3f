/** Whole runs of the memory system: maps and unmaps of an address space, interleaved with other
    users of the page allocator. */
module MemoryRuns {
  import opened Words
  import opened Physical
  import opened PageTables
  import opened PageOperations
  import opened Rights
  import opened DirectMap

  datatype Op =
    | Map(pn: nat, paddr: Word, flags: Word)
    | Unmap(pn: nat)
    | Take(cnt: nat, align: nat)
    | Return(b: Block)

  /** An address space, the blocks that other users hold, and the frames that ever were tables. */
  datatype System = System(space: Space, client: set<Block>, ever: set<nat>)

  /** The live blocks are exactly the clients' blocks and the frames that ever were tables. */
  ghost predicate SystemOk(r: System) {
    && SpaceOk(r.space)
    && r.space.place.Keys <= r.ever
    && r.client <= r.space.pmm.live
    && (forall f {:trigger Block(f, 1)} :: f in r.ever ==> Block(f, 1) in r.space.pmm.live && Block(f, 1) !in r.client)
    && (forall b :: b in r.space.pmm.live ==> b in r.client || (b.cnt == 1 && b.page in r.ever))
  }

  /** The pages of the blocks that became live between two states. */
  ghost function NewPages(s: Space, s': Space): set<nat> {
    set b | b in s'.pmm.live - s.pmm.live :: b.page
  }

  /** What the source demands of its callers: flags fit for a mapping, no 4 KiB map into a present
      2 MiB slot, no failed allocation, only own blocks returned, and those routed right. */
  ghost predicate Enabled(r: System, op: Op) {
    match op
    case Map(pn, paddr, flags) =>
      && InSpace(r.space, pn) && FlagsOk(flags) && (Large(flags) || !Walk(r.space, pn).Big?)
      && r.space.depth > 0 && MapPage(r.space, pn, paddr, flags).Some?
    case Unmap(pn) => InSpace(r.space, pn)
    case Take(cnt, align) => cnt > 0 && align > 0
    case Return(b) => b in r.client && RoutedRight(r.space.pmm.chain, b)
  }

  ghost function Apply(r: System, op: Op): System
    requires Enabled(r, op)
  {
    match op
    case Map(pn, paddr, flags) =>
      var s' := MapPage(r.space, pn, paddr, flags).value;
      System(s', r.client, r.ever + NewPages(r.space, s'))
    case Unmap(pn) => r.(space := UnmapPage(r.space, pn).1)
    case Take(cnt, align) =>
      (match AllocBlock(r.space, cnt, align)
       case None => r
       case Some((p, s')) => System(s', r.client + {Block(p, cnt)}, r.ever))
    case Return(b) =>
      System(r.space.(pmm := PmmFree(r.space.pmm, b)), r.client - {b}, r.ever)
  }

  // ---------------------------------------------------------------- one step

  ghost predicate Singles(s: Space, s': Space) {
    s.pmm.live <= s'.pmm.live && forall b :: b in s'.pmm.live && b !in s.pmm.live ==> b.cnt == 1
  }

  lemma EnsureTableSingles(s: Space, f: nat, level: nat, pn: nat, dir: Word)
    requires level > 1 && dir.page == 0
    ensures match EnsureTable(s, f, level, pn, dir) case None => true case Some(s') => Singles(s, s')
  {
    hide ChainAlloc;
  }

  /** A map takes single pages only. */
  lemma {:induction false} MapFromSingles(s: Space, f: nat, level: nat, pn: nat, leaf: Word, dir: Word, big: bool)
    requires level > 0 && dir.page == 0
    ensures match MapFrom(s, f, level, pn, leaf, dir, big) case None => true case Some(s') => Singles(s, s')
    decreases level
  {
    hide EnsureTable;
    if level > 1 && !(level == 2 && big) {
      EnsureTableSingles(s, f, level, pn, dir);
      var r := EnsureTable(s, f, level, pn, dir);
      if r.Some? {
        MapFromSingles(r.value, NextTable(Entry(r.value, f, level, pn)), level - 1, pn, leaf, dir, big);
      }
    }
  }

  lemma MapKeepsOk(r: System, pn: nat, paddr: Word, flags: Word)
    requires SystemOk(r) && Enabled(r, Map(pn, paddr, flags))
    ensures SystemOk(Apply(r, Map(pn, paddr, flags)))
  {
    var s := r.space;
    var s' := MapPage(s, pn, paddr, flags).value;
    MapPageEffect(s, pn, paddr, flags);
    MapFromSingles(s, s.root, s.depth, pn, Leaf(paddr, flags), DirectoryOf(s.depth, flags), Large(flags));
    var r' := Apply(r, Map(pn, paddr, flags));
    forall f | f in s'.place ensures f in r'.ever {
      if f !in s.place {
        assert !Owned(s.pmm.live, f) && Covers(Block(f, 1), f);
        assert Block(f, 1) in s'.pmm.live - s.pmm.live;
      }
    }
    forall f | f in r'.ever ensures Block(f, 1) in s'.pmm.live && Block(f, 1) !in r'.client {
      if f !in r.ever {
        var b :| b in s'.pmm.live - s.pmm.live && b.page == f;
        assert b == Block(f, 1);
      }
    }
  }

  lemma TakeKeepsOk(r: System, cnt: nat, align: nat)
    requires SystemOk(r) && Enabled(r, Take(cnt, align))
    ensures SystemOk(Apply(r, Take(cnt, align)))
  {
    AllocBlockEffect(r.space, cnt, align);
    if AllocBlock(r.space, cnt, align).Some? {
      var (p, s') := AllocBlock(r.space, cnt, align).value;
      forall f | f in r.ever ensures Block(f, 1) != Block(p, cnt) {
        assert Block(f, 1) in r.space.pmm.live && Covers(Block(f, 1), f);
        assert Owned(r.space.pmm.live, f);
      }
    }
  }

  lemma ReturnKeepsOk(r: System, b: Block)
    requires SystemOk(r) && Enabled(r, Return(b))
    ensures SystemOk(Apply(r, Return(b)))
    ensures forall q: nat :: Walk(Apply(r, Return(b)).space, q) == Walk(r.space, q)
  {
    FreeKeepsOk(r.space.pmm, b);
    TreeKept(r.space, Apply(r, Return(b)).space);
  }

  lemma ApplyKeepsOk(r: System, op: Op)
    requires SystemOk(r) && Enabled(r, op)
    ensures SystemOk(Apply(r, op))
  {
    match op
    case Map(pn, paddr, flags) => MapKeepsOk(r, pn, paddr, flags);
    case Unmap(pn) => UnmapPageEffect(r.space, pn);
    case Take(cnt, align) => TakeKeepsOk(r, cnt, align);
    case Return(b) => ReturnKeepsOk(r, b);
  }

  // ---------------------------------------------------------------- whole runs

  function Front(ops: seq<Op>): seq<Op>
    requires ops != []
  {
    ops[..|ops| - 1]
  }

  function Last(ops: seq<Op>): Op
    requires ops != []
  {
    ops[|ops| - 1]
  }

  ghost predicate AllEnabled(r: System, ops: seq<Op>)
    decreases |ops|, 0
  {
    ops == [] || (AllEnabled(r, Front(ops)) && Enabled(Execute(r, Front(ops)), Last(ops)))
  }

  ghost function Execute(r: System, ops: seq<Op>): System
    requires AllEnabled(r, ops)
    decreases |ops|, 1
  {
    if ops == [] then r else Apply(Execute(r, Front(ops)), Last(ops))
  }

  /** In every run the tables stay a tree, every frame that ever was a table stays marked used,
      and the live blocks are the clients' and the tables'. */
  lemma {:induction false} RunKeepsOk(r: System, ops: seq<Op>)
    requires SystemOk(r) && AllEnabled(r, ops)
    ensures SystemOk(Execute(r, ops))
    decreases |ops|
  {
    if ops != [] {
      RunKeepsOk(r, Front(ops));
      ApplyKeepsOk(Execute(r, Front(ops)), Last(ops));
    }
  }

  /** A run starts at a new space, everything else that is live belonging to others. */
  ghost function NewSystem(m: Space): (r: System)
    requires NewSpace(m).Some?
  {
    var s := NewSpace(m).value;
    System(s, m.pmm.live, {s.root})
  }

  lemma NewRootIsEmpty(m: Space, i: nat)
    requires NewSpace(m).Some? && i < 512
    ensures !Present(Get(NewSpace(m).value.tables, NewSpace(m).value.root, i))
  {
    var s := NewSpace(m).value;
    FilledAt(m.tables, s.root, 1, EmptyTable());
    assert !Present(ZERO);
  }

  lemma NewSystemOk(m: Space, flag: bv12)
    requires PmmOk(m.pmm) && m.depth > 2 && NewSpace(m).Some?
    ensures SystemOk(NewSystem(m)) && LinksCarry(NewSystem(m).space, flag)
    ensures forall q: nat :: Walk(NewSystem(m).space, q) == Unmapped
  {
    NewSpaceEffect(m);
    var s := NewSpace(m).value;
    assert Covers(Block(s.root, 1), s.root);
    forall i: nat | i < 512 ensures !Present(Get(s.tables, s.root, i)) {
      NewRootIsEmpty(m, i);
    }
  }

  /** In every run each table other than the root is referred to by exactly one entry of one
      table, the root by none, no two tables serve the same pages at the same level, and each table
      is a page in use that no other user holds. */
  lemma RunKeepsTree(r: System, ops: seq<Op>, f: nat)
    requires SystemOk(r) && AllEnabled(r, ops) && f in Execute(r, ops).space.place
    ensures var s := Execute(r, ops).space;
      && (f == s.root || exists g, i :: Refers(s, g, i, f))
      && (forall g, i :: Refers(s, g, i, f) ==> f != s.root)
      && (forall g, i, g', i' :: Refers(s, g, i, f) && Refers(s, g', i', f) ==> g == g' && i == i')
      && (forall g :: g in s.place && s.place[g].level == s.place[f].level && s.place[g].key == s.place[f].key ==>
            g == f)
      && InUse(s.pmm.chain, f)
      && forall b :: b in Execute(r, ops).client ==> !Covers(b, f)
  {
    RunKeepsOk(r, ops);
    var s := Execute(r, ops).space;
    ReferredOnce(s, f);
    forall g | g in s.place && s.place[g].level == s.place[f].level && s.place[g].key == s.place[f].key
      ensures g == f
    {
      SamePlaceSameTable(s, g, f);
    }
    assert Covers(Block(f, 1), f);
    assert Owned(s.pmm.live, f);
    assert InUse(s.pmm.chain, f) <==> Owned(s.pmm.live, f);
    forall b | b in Execute(r, ops).client ensures !Covers(b, f) {
      assert Separate(Block(f, 1), b);
    }
  }

  /** A frame that ever was a table is marked used and is not part of any new allocation. */
  lemma TablesNeverHandedOut(r: System, ops: seq<Op>, f: nat, cnt: nat, align: nat)
    requires SystemOk(r) && AllEnabled(r, ops) && cnt > 0 && align > 0
    requires f in Execute(r, ops).ever
    ensures var s := Execute(r, ops).space;
      && InUse(s.pmm.chain, f)
      && match AllocBlock(s, cnt, align) case None => true case Some((p, _)) => !(p <= f < p + cnt)
  {
    RunKeepsOk(r, ops);
    var s := Execute(r, ops).space;
    assert Block(f, 1) in s.pmm.live && Covers(Block(f, 1), f);
    assert Owned(s.pmm.live, f);
    assert InUse(s.pmm.chain, f) <==> Owned(s.pmm.live, f);
    AllocBlockEffect(s, cnt, align);
  }

  /** What became a table stays in the record for the rest of the run. */
  lemma {:induction false} EverGrows(r: System, ops: seq<Op>)
    requires AllEnabled(r, ops)
    ensures r.ever <= Execute(r, ops).ever
    decreases |ops|
  {
    if ops != [] {
      EverGrows(r, Front(ops));
    }
  }

  // ---------------------------------------------------------------- runs as translation maps

  /** What a page translates to after a run, from the initial translations and the calls alone;
      no tables are involved. Flags with address bits do not occur in a run. */
  ghost function Lookup(s: Space, ops: seq<Op>, q: nat): Mapping
    decreases |ops|
  {
    if ops == [] then Walk(s, q)
    else match Last(ops)
      case Map(pn, paddr, flags) =>
        if flags.page != 0 then Unmapped
        else if Large(flags) && q / 512 == pn / 512 then Big(Leaf(paddr, flags))
        else if !Large(flags) && q == pn then Small(Leaf(paddr, flags))
        else Lookup(s, Front(ops), q)
      case Unmap(pn) =>
        if Lookup(s, Front(ops), pn).Big? then
          if q / 512 == pn / 512 then Unmapped else Lookup(s, Front(ops), q)
        else if q == pn then Unmapped else Lookup(s, Front(ops), q)
      case Take(_, _) => Lookup(s, Front(ops), q)
      case Return(_) => Lookup(s, Front(ops), q)
  }

  /** What one call does to the translation of every page. */
  lemma ApplyTranslates(r: System, op: Op, q: nat)
    requires SystemOk(r) && Enabled(r, op) && InSpace(r.space, q)
    ensures var r' := Apply(r, op);
      && r'.space.depth == r.space.depth
      && Walk(r'.space, q) == match op
         case Map(pn, paddr, flags) =>
           if flags.page != 0 then Unmapped
           else if Large(flags) && q / 512 == pn / 512 then Big(Leaf(paddr, flags))
           else if !Large(flags) && q == pn then Small(Leaf(paddr, flags))
           else Walk(r.space, q)
         case Unmap(pn) =>
           if (if Walk(r.space, pn).Big? then q / 512 == pn / 512 else q == pn) then Unmapped else Walk(r.space, q)
         case _ => Walk(r.space, q)
  {
    hide Walk, MapPage, UnmapPage, AllocBlock, PmmOk, IsTree, TablesLive;
    var s := r.space;
    match op
    case Map(pn, paddr, flags) => MapPageEffect(s, pn, paddr, flags);
    case Unmap(pn) => UnmapPageEffect(s, pn);
    case Take(cnt, align) => AllocBlockEffect(s, cnt, align);
    case Return(b) => ReturnKeepsOk(r, b);
  }

  lemma EnabledFlags(r: System, op: Op)
    requires Enabled(r, op)
    ensures op.Map? ==> FlagsOk(op.flags)
  {
  }

  lemma EnabledUnmap(r: System, pn: nat)
    requires Enabled(r, Unmap(pn))
    ensures InSpace(r.space, pn)
  {
  }

  /** Every run of calls on the tables behaves as the same run on a plain translation map. */
  lemma {:induction false} RunIsTranslationMap(r: System, ops: seq<Op>, q: nat)
    requires SystemOk(r) && AllEnabled(r, ops) && InSpace(r.space, q)
    ensures Execute(r, ops).space.depth == r.space.depth
    ensures Walk(Execute(r, ops).space, q) == Lookup(r.space, ops, q)
    decreases |ops|
  {
    hide SystemOk, Enabled, Apply, Walk, Large;
    if ops != [] {
      RunKeepsOk(r, Front(ops));
      RunIsTranslationMap(r, Front(ops), q);
      var m := Execute(r, Front(ops));
      ApplyTranslates(m, Last(ops), q);
      EnabledFlags(m, Last(ops));
      if Last(ops).Unmap? {
        EnabledUnmap(m, Last(ops).pn);
        RunIsTranslationMap(r, Front(ops), Last(ops).pn);
      }
    }
  }

  // ---------------------------------------------------------------- rights over runs

  ghost predicate Stamp(depth: nat, op: Op, m: bv12) {
    op.Map? ==> op.flags.page == 0 && DirectoryOf(depth, op.flags).low & m != 0
  }

  /** Every mapping of the run gives new non-leaf entries the flag `m`. */
  ghost predicate Stamps(depth: nat, ops: seq<Op>, m: bv12)
    decreases |ops|
  {
    ops == [] || (Stamps(depth, Front(ops), m) && Stamp(depth, Last(ops), m))
  }

  ghost predicate AllUser(ops: seq<Op>)
    decreases |ops|
  {
    ops == [] || (AllUser(Front(ops)) && (Last(ops).Map? ==> User(Last(ops).flags)))
  }

  lemma ApplyCarries(r: System, op: Op, m: bv12)
    requires SystemOk(r) && Enabled(r, op) && LinksCarry(r.space, m)
    requires Stamp(r.space.depth, op, m)
    ensures LinksCarry(Apply(r, op).space, m) && Apply(r, op).space.depth == r.space.depth
  {
    var s := r.space;
    match op
    case Map(pn, paddr, flags) =>
      MapPageEffect(s, pn, paddr, flags);
      MapPageCarries(s, pn, paddr, flags, m);
    case Unmap(pn) =>
      UnmapPageEffect(s, pn);
      UnmapFromCarries(s, s.root, s.depth, pn, m);
    case Take(cnt, align) =>
      AllocBlockEffect(s, cnt, align);
      AllocBlockCarries(s, cnt, align, m);
    case Return(b) =>
      KeepsCarrying(s, Apply(r, op).space, m);
  }

  lemma {:induction false} RunCarries(r: System, ops: seq<Op>, m: bv12)
    requires SystemOk(r) && AllEnabled(r, ops) && LinksCarry(r.space, m) && Stamps(r.space.depth, ops, m)
    ensures Execute(r, ops).space.depth == r.space.depth
    ensures LinksCarry(Execute(r, ops).space, m)
    decreases |ops|
  {
    if ops != [] {
      RunKeepsOk(r, Front(ops));
      RunCarries(r, Front(ops), m);
      ApplyCarries(Execute(r, Front(ops)), Last(ops), m);
    }
  }

  /** A four-level map always adds RW, and passes US on. */
  lemma FourLevelStamps(op: Op)
    requires op.Map? ==> FlagsOk(op.flags)
    ensures Stamp(4, op, RW) && (op.Map? && User(op.flags) ==> Stamp(4, op, US))
  {
    if op.Map? {
      var b := op.flags.low;
      assert ((b & !(PS | G)) | RW) & RW != 0;
      assert b & US != 0 ==> ((b & !(PS | G)) | RW) & US != 0;
    }
  }

  lemma {:induction false} RunStamps(r: System, ops: seq<Op>)
    requires AllEnabled(r, ops)
    ensures Stamps(4, ops, RW) && (AllUser(ops) ==> Stamps(4, ops, US))
    decreases |ops|
  {
    if ops != [] {
      RunStamps(r, Front(ops));
      var op := Last(ops);
      EnabledFlags(Execute(r, Front(ops)), op);
      FourLevelStamps(op);
      assert !op.Map? ==> Stamp(4, op, US);
    }
  }

  /** In every four-level space reachable from a new one, an entry that leads to a table carries
      P and RW, and none of NX, PS and G, so masking off its low twelve bits gives the table. */
  lemma FourLevelLinks(m: Space, ops: seq<Op>, g: nat, i: nat)
    requires PmmOk(m.pmm) && m.depth == 4 && NewSpace(m).Some? && AllEnabled(NewSystem(m), ops)
    requires var s := Execute(NewSystem(m), ops).space;
      g in s.place && i < 512 && IsLink(s.place[g].level, Get(s.tables, g, i))
    ensures var s := Execute(NewSystem(m), ops).space;
      var e := Get(s.tables, g, i);
      Present(e) && Writable(e) && !e.nx && e.low & (PS | G) == 0 && NextTable(e) == e.page && e.page in s.place
  {
    NewSystemOk(m, RW);
    RunStamps(NewSystem(m), ops);
    RunCarries(NewSystem(m), ops, RW);
    RunKeepsOk(NewSystem(m), ops);
    var s := Execute(NewSystem(m), ops).space;
    assert Leads(s, g, i) && Carries(s, g, i, RW);
  }

  /** In every reachable four-level space the effective rights to write and to execute are the
      leaf's own bits; with US on every mapping, so is the right of user mode. */
  lemma FourLevelRights(r: System, ops: seq<Op>, pn: nat)
    requires SystemOk(r) && r.space.depth == 4 && AllEnabled(r, ops) && LinksCarry(r.space, RW)
    ensures var s := Execute(r, ops).space;
      AsLeaf(EffectiveGrant(s, pn), Walk(s, pn), true, LinksCarry(r.space, US) && AllUser(ops))
  {
    RunStamps(r, ops);
    RunCarries(r, ops, RW);
    if LinksCarry(r.space, US) && AllUser(ops) {
      RunCarries(r, ops, US);
    }
    RunKeepsOk(r, ops);
    GrantIsLeaf(Execute(r, ops).space, Execute(r, ops).space.root, pn);
  }
}
