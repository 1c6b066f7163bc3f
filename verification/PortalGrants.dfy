/** What the hardware grants on the pages of portals, over whole runs. */
module PortalGrants {
  import opened Words
  import opened Physical
  import opened PageTables
  import opened PageOperations
  import opened Rights
  import opened Virtual
  import opened PortalRuns
  import opened RightsHistory
  import opened RangeRights
  import Q = Portals

  // ---------------------------------------------------------------- flags that all links carry

  /** A flag that the mappings of portals pass on to new non-leaf entries. */
  ghost predicate PassedOn(depth: nat, flag: bv12) {
    flag == US || (flag == RW && depth == 4)
  }

  lemma ProtectionBits(p: Q.Portal, f: nat)
    ensures var flags := Protections(p);
      flags.page == 0 && Writable(flags) == p.write && User(flags) && flags.nx == !p.exec
    ensures var e := Leaf(Addr(f), Protections(p));
      Writable(e) == p.write && User(e) && e.nx == !p.exec
  {
    assert P | US | RW == 0x007 && P | US == 0x005;
    LeafOfFrame(f, Protections(p));
  }

  lemma ProtectionsPassOn(p: Q.Portal, depth: nat, flag: bv12)
    requires PassedOn(depth, flag)
    ensures Protections(p).page == 0 && DirectoryOf(depth, Protections(p)).low & flag != 0
  {
    assert P | US | RW == 0x007 && P | US == 0x005;
  }

  lemma MapPagePasses(s: Space, q: nat, paddr: Word, p: Q.Portal, flag: bv12)
    requires SpaceOk(s) && PassedOn(s.depth, flag) && LinksCarry(s, flag) && InSpace(s, q) && !Walk(s, q).Big?
    ensures match MapPage(s, q, paddr, Protections(p))
      case None => true
      case Some(s') => LinksCarry(s', flag) && s'.depth == s.depth
  {
    hide MapPage, SpaceOk, Walk, LinksCarry, Protections;
    ProtectionsOk(p);
    ProtectionsPassOn(p, s.depth, flag);
    MapPageEffect(s, q, paddr, Protections(p));
    MapPageCarries(s, q, paddr, Protections(p), flag);
  }

  lemma MapListPasses(s: Space, pn: nat, frames: seq<nat>, p: Q.Portal, flag: bv12)
    requires SpaceOk(s) && PassedOn(s.depth, flag) && LinksCarry(s, flag) && RangeMappable(s, pn, |frames|)
    ensures match MapList(s, pn, frames, Protections(p))
      case None => true
      case Some(s') => LinksCarry(s', flag) && s'.depth == s.depth
  {
    hide SpaceOk, Walk, Protections, LinksCarry, MapList;
    ProtectionsOk(p);
    ProtectionsPassOn(p, s.depth, flag);
    MapListCarries(s, pn, frames, Protections(p), flag);
  }

  lemma ResolveAnonPasses(s: Space, q: nat, p: Q.Portal, flag: bv12)
    requires SpaceOk(s) && PassedOn(s.depth, flag) && LinksCarry(s, flag) && InSpace(s, q) && Walk(s, q) == Unmapped
    ensures match ResolveAnon(s, q, p)
      case None => true
      case Some((_, s')) => LinksCarry(s', flag) && s'.depth == s.depth
  {
    hide AllocBlock, MapPage, SpaceOk, Walk, LinksCarry, Protections, PassedOn;
    if AllocBlock(s, 1, 1).Some? {
      var (f0, s1) := AllocBlock(s, 1, 1).value;
      AllocBlockEffect(s, 1, 1);
      AllocBlockCarries(s, 1, 1, flag);
      if AllocBlock(s1, 1, 1).Some? {
        var (f, s2) := AllocBlock(s1, 1, 1).value;
        AllocBlockEffect(s1, 1, 1);
        AllocBlockCarries(s1, 1, 1, flag);
        MapPagePasses(s2, q, Addr(f), p, flag);
      }
    }
  }

  lemma StepPasses(st: State, e: Event, flag: bv12)
    requires StateOk(st) && Enabled(st, e) && PassedOn(st.space.depth, flag) && LinksCarry(st.space, flag)
    ensures LinksCarry(Step(st, e).space, flag) && Step(st, e).space.depth == st.space.depth
  {
    hide SpaceOk, Walk, MapList, ResolveAnon, LinksCarry, PassedOn;
    match e
    case Open(p, frames) => MapListPasses(st.space, p.base / PAGE_SIZE, frames, p, flag);
    case Fault(addr) =>
      if Q.FindAnon(st.root, addr).Some? {
        ResolveAnonPasses(st.space, addr / PAGE_SIZE, Q.FindAnon(st.root, addr).value, flag);
      }
  }

  lemma {:induction false} RunPasses(st: State, es: seq<Event>, flag: bv12)
    requires StateOk(st) && AllEnabled(st, es) && PassedOn(st.space.depth, flag) && LinksCarry(st.space, flag)
    ensures LinksCarry(Execute(st, es).space, flag) && Execute(st, es).space.depth == st.space.depth
    decreases |es|
  {
    hide StateOk, Enabled, Step, LinksCarry, PassedOn;
    if es != [] {
      var front := es[..|es| - 1];
      PortalRuns.RunKeepsOk(st, front);
      RunPasses(st, front, flag);
      StepPasses(Execute(st, front), es[|es| - 1], flag);
    }
  }

  /** What the hardware grants on page `q` if a portal backs it: the portal's rights, except that all
      non-leaf entries above the page must allow writing too. */
  ghost predicate GrantsPortal(s: Space, p: Q.Portal, q: nat) {
    EffectiveGrant(s, q) ==
      Granted(p.write && AllCarry(s.tables, s.root, 2, s.depth, q, RW), true, p.exec)
  }

  lemma BackedGrants(st: State, p: Q.Portal, q: nat, f: nat)
    requires StateOk(st) && Backs(st, p, q, f) && LinksCarry(st.space, US)
    ensures GrantsPortal(st.space, p, q)
    ensures LinksCarry(st.space, RW) ==> EffectiveGrant(st.space, q) == Granted(p.write, true, p.exec)
  {
    hide Walk, Protections, LinksCarry, EffectiveGrant;
    ProtectionBits(p, f);
    PageGrants(st.space, q, f, Protections(p));
  }

  /** After every run, for any depth, the hardware grants on each page that a fault brought in the
      rights of the portal whose fault that was, writing only as far as the non-leaf entries above the
      page allow it. With four levels they always do. */
  lemma PortalRights(st: State, es: seq<Event>, q: nat)
    requires StateOk(st) && AllEnabled(st, es) && LinksCarry(st.space, US) && q in Execute(st, es).pages
    ensures var st' := Execute(st, es);
      && PageBacked(st', q) && GrantsPortal(st'.space, st'.owner[q], q)
      && (st.space.depth == 4 && LinksCarry(st.space, RW) ==>
            EffectiveGrant(st'.space, q) == Granted(st'.owner[q].write, true, st'.owner[q].exec))
  {
    hide Walk, Protections, LinksCarry, GrantsPortal, Execute, AllEnabled, StateOk;
    PortalRuns.RunKeepsOk(st, es);
    RunPasses(st, es, US);
    if st.space.depth == 4 && LinksCarry(st.space, RW) {
      RunPasses(st, es, RW);
    }
    var st' := Execute(st, es);
    PagesOwned(st', q);
    BackedGrants(st', st'.owner[q], q, st'.pages[q]);
  }

  /** With four levels an anonymous portal that touches such a page is granted its own rights there if
      and only if it has those of the portal whose fault brought the page in. */
  lemma SharedPageGrants(st: State, es: seq<Event>, q: nat, b: Q.Portal)
    requires StateOk(st) && AllEnabled(st, es) && q in Execute(st, es).pages
    requires st.space.depth == 4 && LinksCarry(st.space, US) && LinksCarry(st.space, RW)
    ensures var st' := Execute(st, es);
      && q in st'.owner
      && (EffectiveGrant(st'.space, q) == Granted(b.write, true, b.exec) <==>
          Protections(b) == Protections(st'.owner[q]))
  {
    hide LinksCarry, Execute, AllEnabled, StateOk, EffectiveGrant, Protections;
    PortalRights(st, es, q);
    ProtectionsTell(b, Execute(st, es).owner[q]);
  }

  // ---------------------------------------------------------------- the links, from the events

  /** Some page of the range lies under the key. */
  predicate UnderRange(level: nat, key: nat, pn: nat, cnt: nat)
    requires level > 0
    decreases cnt
  {
    cnt > 0 && (Key(level - 1, pn) == key || UnderRange(level, key, pn + 1, cnt - 1))
  }

  /** A link after mappings with the rights of a portal: as it was if it was there, made by them if
      they map a page under it. */
  ghost function LinkAfter(before: Option<bv12>, mapped: bool, depth: nat, p: Q.Portal): Option<bv12> {
    if before.Some? || !mapped then before else Some(Stamped(depth, Protections(p)))
  }

  lemma MapPageLinkAfter(s: Space, pn: nat, paddr: Word, p: Q.Portal, level: nat, q: nat)
    requires SpaceOk(s) && InSpace(s, pn) && !Walk(s, pn).Big? && 1 < level <= s.depth && InSpace(s, q)
    ensures s.depth > 0 && Protections(p).page == 0
    ensures match MapPage(s, pn, paddr, Protections(p))
      case None => true
      case Some(s') =>
        Link(s', level, q) == LinkAfter(Link(s, level, q), Key(level - 1, pn) == Key(level - 1, q), s.depth, p)
  {
    hide MapPage, SpaceOk, Walk, Link, Protections, Stamped;
    ProtectionsOk(p);
    DepthOfSpace(s);
    MapPageLinks(s, pn, paddr, Protections(p), level, q);
  }

  lemma {:induction false} MapListLinks(s: Space, pn: nat, frames: seq<nat>, p: Q.Portal, level: nat, q: nat)
    requires SpaceOk(s) && RangeMappable(s, pn, |frames|) && 1 < level <= s.depth && InSpace(s, q)
    ensures Protections(p).page == 0
    ensures match MapList(s, pn, frames, Protections(p))
      case None => true
      case Some(s') =>
        Link(s', level, q) ==
          LinkAfter(Link(s, level, q), UnderRange(level, Key(level - 1, q), pn, |frames|), s.depth, p)
    decreases |frames|
  {
    hide MapPage, SpaceOk, Walk, Link, Protections, Key;
    ProtectionsOk(p);
    if frames != [] {
      DepthOfSpace(s);
      MapPageEffect(s, pn, Addr(frames[0]), Protections(p));
      MapPageLinkAfter(s, pn, Addr(frames[0]), p, level, q);
      var r := MapPage(s, pn, Addr(frames[0]), Protections(p));
      if r.Some? {
        forall x: nat | pn + 1 <= x < pn + |frames| ensures InSpace(r.value, x) && !Walk(r.value, x).Big? {
          assert InSpace(s, x);
        }
        assert InSpace(r.value, q);
        MapListLinks(r.value, pn + 1, frames[1..], p, level, q);
      }
    }
  }

  lemma AllocLink(s: Space, level: nat, q: nat)
    requires SpaceOk(s)
    ensures AllocBlock(s, 1, 1).Some? ==> Link(AllocBlock(s, 1, 1).value.1, level, q) == Link(s, level, q)
  {
    hide AllocBlock, PmmOk;
    AllocBlockEffect(s, 1, 1);
    if AllocBlock(s, 1, 1).Some? {
      LinksSame(s, AllocBlock(s, 1, 1).value.1.tables, s.root, level, q);
    }
  }

  lemma ResolveAnonLink(s: Space, pn: nat, p: Q.Portal, level: nat, q: nat)
    requires SpaceOk(s) && InSpace(s, pn) && Walk(s, pn) == Unmapped && 1 < level <= s.depth && InSpace(s, q)
    ensures ResolveAnon(s, pn, p).Some? ==>
      Link(ResolveAnon(s, pn, p).value.1, level, q)
        == LinkAfter(Link(s, level, q), Key(level - 1, pn) == Key(level - 1, q), s.depth, p)
  {
    hide AllocBlock, MapPage, SpaceOk, Walk, Link, Protections, Key;
    AllocLink(s, level, q);
    AllocBlockEffect(s, 1, 1);
    if AllocBlock(s, 1, 1).Some? {
      var (f0, s1) := AllocBlock(s, 1, 1).value;
      AllocLink(s1, level, q);
      AllocBlockEffect(s1, 1, 1);
      if AllocBlock(s1, 1, 1).Some? {
        var (f, s2) := AllocBlock(s1, 1, 1).value;
        assert InSpace(s2, pn) && InSpace(s2, q);
        MapPageLinkAfter(s2, pn, Addr(f), p, level, q);
      }
    }
  }

  /** The portal whose pages the last event of a run maps under a key, if there is one. */
  ghost function Maps(root: Q.Tree, e: Event, level: nat, key: nat): Option<Q.Portal>
    requires level > 0
  {
    match e
    case Open(p, frames) => if UnderRange(level, key, p.base / PAGE_SIZE, |frames|) then Some(p) else None
    case Fault(addr) => if Key(level - 1, addr / PAGE_SIZE) == key then Q.FindAnon(root, addr) else None
  }

  /** The portal of the first mapping under a key, from the events. */
  ghost function FirstPortal(st: State, es: seq<Event>, level: nat, key: nat): Option<Q.Portal>
    requires level > 0 && AllEnabled(st, es)
    decreases |es|
  {
    if es == [] then None
    else
      var front := es[..|es| - 1];
      var before := FirstPortal(st, front, level, key);
      if before.Some? then before else Maps(Execute(st, front).root, es[|es| - 1], level, key)
  }

  lemma StepLink(st: State, e: Event, level: nat, q: nat)
    requires StateOk(st) && Enabled(st, e) && 1 < level <= st.space.depth && InSpace(st.space, q)
    ensures Link(Step(st, e).space, level, q) ==
      match Maps(st.root, e, level, Key(level - 1, q))
      case None => Link(st.space, level, q)
      case Some(p) => LinkAfter(Link(st.space, level, q), true, st.space.depth, p)
  {
    hide SpaceOk, Walk, MapList, ResolveAnon, Link, Key, Q.FindAnon;
    match e
    case Open(p, frames) => MapListLinks(st.space, p.base / PAGE_SIZE, frames, p, level, q);
    case Fault(addr) =>
      if Q.FindAnon(st.root, addr).Some? {
        ResolveAnonLink(st.space, addr / PAGE_SIZE, Q.FindAnon(st.root, addr).value, level, q);
      }
  }

  /** In every run the links on the way to a page are those of the start, and the others what the first
      portal that mapped a page under them made them. */
  lemma {:induction false} RunLink(st: State, es: seq<Event>, level: nat, q: nat)
    requires StateOk(st) && AllEnabled(st, es) && 1 < level <= st.space.depth && InSpace(st.space, q)
    ensures Link(Execute(st, es).space, level, q) ==
      match FirstPortal(st, es, level, Key(level - 1, q))
      case None => Link(st.space, level, q)
      case Some(p) => LinkAfter(Link(st.space, level, q), true, st.space.depth, p)
    decreases |es|
  {
    hide StateOk, Enabled, Step, Link, Maps, Key;
    if es != [] {
      var front := es[..|es| - 1];
      PortalRuns.RunKeepsOk(st, front);
      RunLink(st, front, level, q);
      assert InSpace(Execute(st, front).space, q);
      StepLink(Execute(st, front), es[|es| - 1], level, q);
    }
  }

  // ---------------------------------------------------------------- writing with five levels

  /** The first portal that mapped a page under the table that `q` has at the level is writable. */
  ghost predicate FirstPortalWrites(st: State, es: seq<Event>, level: nat, q: nat)
    requires level > 0 && AllEnabled(st, es)
  {
    var p := FirstPortal(st, es, level, Key(level - 1, q));
    p.Some? && p.value.write
  }

  ghost predicate AllFirstPortalsWrite(st: State, es: seq<Event>, q: nat)
    requires AllEnabled(st, es)
  {
    forall level :: 2 <= level <= 5 ==> FirstPortalWrites(st, es, level, q)
  }

  /** A space in which no page has been mapped yet has no links. */
  ghost predicate NoLinks(s: Space) {
    forall level: nat, q: nat :: level > 1 ==> Link(s, level, q) == None
  }

  lemma ProtectionsWritable(p: Q.Portal)
    ensures Bears(Stamped(5, Protections(p)), RW) <==> p.write
  {
    StampKeepsWrite(Protections(p));
    assert P | US | RW == 0x007 && P | US == 0x005;
  }

  lemma CarriedIsFirstPortal(st: State, es: seq<Event>, level: nat, q: nat)
    requires StateOk(st) && AllEnabled(st, es) && st.space.depth == 5 && NoLinks(st.space) && InSpace(st.space, q)
    requires 2 <= level <= 5
    ensures Carried(Link(Execute(st, es).space, level, q), RW) <==> FirstPortalWrites(st, es, level, q)
  {
    hide StateOk, AllEnabled, Execute, Link, FirstPortal, Bears, Stamped, Protections, Key;
    RunLink(st, es, level, q);
    var p := FirstPortal(st, es, level, Key(level - 1, q));
    if p.Some? {
      ProtectionsWritable(p.value);
    }
  }

  /** From a space without mappings, with five levels: a page that a fault brought in can be written
      if and only if the portal whose fault that was is writable, and so is, for each table above the
      page, the first portal that mapped a page under it. */
  lemma FiveLevelPortalWrite(st: State, es: seq<Event>, q: nat)
    requires StateOk(st) && AllEnabled(st, es) && st.space.depth == 5 && NoLinks(st.space) && LinksCarry(st.space, US)
    requires q in Execute(st, es).pages
    ensures var st' := Execute(st, es);
      && q in st'.owner
      && EffectiveGrant(st'.space, q) ==
           Granted(st'.owner[q].write && AllFirstPortalsWrite(st, es, q), true, st'.owner[q].exec)
  {
    hide StateOk, AllEnabled, Execute, LinkFrom, FirstPortalWrites, LinksCarry, AllCarry, Carried, NoLinks, Key;
    PortalRights(st, es, q);
    PortalRuns.RunKeepsOk(st, es);
    var st' := Execute(st, es);
    var s := st'.space;
    assert InSpace(st.space, q);
    AllCarryByLevel(s.tables, s.root, 2, 5, q, RW);
    forall level | 2 <= level <= 5
      ensures CarriedAt(s.tables, s.root, 5, level, q, RW) <==> FirstPortalWrites(st, es, level, q)
    {
      CarriedIsFirstPortal(st, es, level, q);
    }
  }
}
