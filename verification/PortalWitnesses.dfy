/** Concrete runs of requests and faults on a small memory in which portals share a page. */
module PortalWitnesses {
  import opened Words
  import opened Physical
  import opened PageTables
  import opened PageOperations
  import opened TableIndices
  import opened Rights
  import opened Virtual
  import opened DirectMap
  import opened PortalRuns
  import opened PortalGrants
  import opened DirectPortals
  import MemoryRuns
  import PagingWitnesses
  import Q = Portals

  /** A new four-level address space without portals. */
  ghost function Start(): (st: State) {
    var m := PagingWitnesses.SmallMemory(4);
    if NewSpace(m).Some? then State(NewSpace(m).value, Q.Leaf, map[], map[], map[])
    else State(m, Q.Leaf, map[], map[], map[])
  }

  lemma StartOk(flag: bv12)
    ensures StateOk(Start()) && Start().space.depth == 4 && FreePages(Start().space.pmm.chain) == 15
    ensures LinksCarry(Start().space, flag) && forall q: nat :: Walk(Start().space, q) == Unmapped
    ensures Start().root == Q.Leaf
  {
    hide FreePages, PmmOk, LinksCarry, Walk, NewSpace;
    PagingWitnesses.SmallMemoryOk(4);
    PagingWitnesses.NewSmallSpace(4);
    MemoryRuns.NewSystemOk(PagingWitnesses.SmallMemory(4), flag);
  }

  /** A portal that is not direct is only entered into the tree. */
  lemma OpenAnonymous(st: State, p: Q.Portal)
    requires StateOk(st) && !p.direct && forall x {:trigger Has(st.root, x)} :: Has(st.root, x) ==> Q.Clear(p, x)
    ensures Enabled(st, Open(p, [])) && Step(st, Open(p, [])) == st.(root := Q.Insert(st.root, p))
    ensures StateOk(Step(st, Open(p, [])))
  {
    hide SpaceOk, Walk, StateOk, Q.Insert;
    ProtectionsOk(p);
    OpenKeepsOk(st, p, []);
  }

  lemma TwoEvents(st: State, a: Event, b: Event)
    requires Enabled(st, a) && Enabled(Step(st, a), b)
    ensures AllEnabled(st, [a, b]) && Execute(st, [a, b]) == Step(Step(st, a), b)
  {
    hide Enabled, Step;
    assert [a, b][..1] == [a] && [a][..0] == [];
    assert AllEnabled(st, [a]) && Execute(st, [a]) == Step(st, a);
  }

  lemma ThreeEvents(st: State, a: Event, b: Event, c: Event)
    requires Enabled(st, a) && Enabled(Step(st, a), b) && Enabled(Step(Step(st, a), b), c)
    ensures AllEnabled(st, [a, b, c]) && Execute(st, [a, b, c]) == Step(Step(Step(st, a), b), c)
  {
    hide Enabled, Step;
    TwoEvents(st, a, b);
    assert [a, b, c][..2] == [a, b];
  }

  lemma CanFault(st: State, addr: nat)
    requires StateOk(st) && st.space.depth == 4 && addr / PAGE_SIZE < 512
    requires Walk(st.space, addr / PAGE_SIZE) == Unmapped && FreePages(st.space.pmm.chain) >= 5
    ensures Enabled(st, Fault(addr))
    ensures FreePages(Step(st, Fault(addr)).space.pmm.chain) + 5 >= FreePages(st.space.pmm.chain)
  {
    hide FreePages, Walk, ResolveAnon, Q.FindAnon;
    KeyValues(addr / PAGE_SIZE);
    if Q.FindAnon(st.root, addr).Some? {
      ResolveAnonBound(st.space, addr / PAGE_SIZE, Q.FindAnon(st.root, addr).value);
    }
  }

  // ---------------------------------------------------------------- two anonymous portals

  function Reader(): Q.Portal {
    Q.Portal(0x1000, 0x7ff, false, true, false, false)
  }

  function Writer(): Q.Portal {
    Q.Portal(0x1900, 0x100, false, true, true, false)
  }

  /** The tree after both have been opened. */
  function Both(): Q.Tree {
    Q.Node(Q.Leaf, Reader(), Q.Node(Q.Leaf, Writer(), Q.Leaf))
  }

  lemma TreeFacts()
    ensures Q.Insert(Q.Leaf, Reader()) == Q.Node(Q.Leaf, Reader(), Q.Leaf)
    ensures Q.Insert(Q.Insert(Q.Leaf, Reader()), Writer()) == Both()
    ensures Q.InOrder(Q.Insert(Q.Leaf, Reader())) == [Reader()]
    ensures Q.FindAnon(Both(), 0x1000) == Some(Reader()) && Q.FindAnon(Both(), 0x1900) == Some(Writer())
    ensures Q.Clear(Writer(), Reader()) && Touches(Reader(), 1) && Touches(Writer(), 1)
  {
    assert Q.FindAnon(Q.Node(Q.Leaf, Writer(), Q.Leaf), 0x1900) == Some(Writer());
  }

  lemma FaultKeepsRoot(st: State, addr: nat)
    requires Enabled(st, Fault(addr))
    ensures Step(st, Fault(addr)).root == st.root
  {
  }

  lemma OpenBoth(st: State)
    requires StateOk(st) && st.root == Q.Leaf
    ensures Enabled(st, Open(Reader(), [])) && Enabled(Step(st, Open(Reader(), [])), Open(Writer(), []))
    ensures var st' := Step(Step(st, Open(Reader(), [])), Open(Writer(), []));
      st' == st.(root := Both()) && StateOk(st')
  {
    hide StateOk, Enabled, Step, Q.Insert;
    TreeFacts();
    OpenAnonymous(st, Reader());
    OpenAnonymous(Step(st, Open(Reader(), [])), Writer());
  }

  /** The fault that brings the page in for the first of the two. */
  lemma FaultOfReader(st: State)
    requires StateOk(st) && st.root == Both() && st.space.depth == 4
    requires Walk(st.space, 1) == Unmapped && FreePages(st.space.pmm.chain) >= 5
    ensures Enabled(st, Fault(0x1000))
    ensures var st' := Step(st, Fault(0x1000));
      StateOk(st') && st'.root == Both() && PageBacked(st', 1) && st'.owner[1] == Reader()
  {
    hide StateOk, FreePages, Walk, Step, Q.FindAnon, KeepsRecord, PageBacked;
    TreeFacts();
    CanFault(st, 0x1000);
    FaultKeepsOk(st, 0x1000);
    FaultKeepsRoot(st, 0x1000);
  }

  lemma BackedPageCannotFault(st: State, addr: nat)
    requires PageBacked(st, addr / PAGE_SIZE)
    ensures !Enabled(st, Fault(addr))
  {
    hide Walk;
  }

  /** A read-only and a writable anonymous portal, apart from each other, share page 1. A fault of the
      first brings the page in read-only. The second covers the address 0x1900 of that page and can
      neither write there nor fault the page in again. */
  lemma WriterIsLockedOut()
    ensures var es := [Open(Reader(), []), Open(Writer(), []), Fault(0x1000)];
      && StateOk(Start()) && AllEnabled(Start(), es)
      && var st := Execute(Start(), es);
      && StateOk(st) && 1 in st.owner && st.owner[1] == Reader()
      && Q.FindAnon(st.root, 0x1900) == Some(Writer()) && Touches(Writer(), 1) && Writer().write
      && EffectiveGrant(st.space, 1) == Granted(false, true, false)
      && !Enabled(st, Fault(0x1900))
  {
    hide StateOk, FreePages, Walk, LinksCarry, Execute, AllEnabled, Step, Enabled, Q.FindAnon, EffectiveGrant, Start;
    hide Backs, Touches, GrantsPortal;
    var st0, es := Start(), [Open(Reader(), []), Open(Writer(), []), Fault(0x1000)];
    StartOk(US);
    StartOk(RW);
    TreeFacts();
    OpenBoth(st0);
    FaultOfReader(st0.(root := Both()));
    ThreeEvents(st0, Open(Reader(), []), Open(Writer(), []), Fault(0x1000));
    PortalRights(st0, es, 1);
    BackedPageCannotFault(Execute(st0, es), 0x1900);
  }

  // ---------------------------------------------------------------- an anonymous and a direct portal

  function Owner(): Q.Portal {
    Q.Portal(0x1000, 0x7ff, false, true, true, false)
  }

  function Direct(): Q.Portal {
    Q.Portal(0x1900, 0x100, true, false, false, false)
  }

  lemma DirectFacts()
    ensures Q.InOrder(Q.Insert(Q.Leaf, Owner())) == [Owner()]
    ensures Q.FindAnon(Q.Insert(Q.Leaf, Owner()), 0x1000) == Some(Owner())
    ensures Q.Clear(Direct(), Owner()) && Touches(Owner(), 1) && Touches(Direct(), 1) && DirectPages(Direct()) == 1
  {
  }

  lemma ThreePages()
    ensures Times(1, 3) == 3
  {
  }

  lemma TakesOver(st: State, g: nat)
    requires StateOk(st) && st.space.depth == 4 && FreePages(st.space.pmm.chain) >= 3
    requires st.root == Q.Insert(Q.Leaf, Owner()) && PageBacked(st, 1)
    ensures CanOpen(st, Direct(), [g])
    ensures Walk(Opened(st, Direct(), [g]).space, 1) == Small(Leaf(Addr(g), Protections(Direct())))
    ensures g != st.pages[1] ==> Walk(Opened(st, Direct(), [g]).space, 1) != Walk(st.space, 1)
  {
    hide FreePages, Walk, Q.Insert, MapList, Protections, Q.FindAnon, Touches, SpaceOk, Q.Spread, Wire, Filled;
    DirectFacts();
    ProtectionsOk(Direct());
    ProtectionsOk(st.owner[1]);
    KeyValues(1);
    ThreePages();
    MapListBound(st.space, 1, [g], Protections(Direct()));
    MapListEffect(st.space, 1, [g], Protections(Direct()));
  }

  lemma FaultOfOwner(st: State)
    requires StateOk(st) && st.root == Q.Leaf && st.space.depth == 4
    requires Walk(st.space, 1) == Unmapped && FreePages(st.space.pmm.chain) >= 8
    ensures Enabled(st, Open(Owner(), [])) && Enabled(Step(st, Open(Owner(), [])), Fault(0x1000))
    ensures var st' := Step(Step(st, Open(Owner(), [])), Fault(0x1000));
      && StateOk(st') && st'.root == Q.Insert(Q.Leaf, Owner()) && st'.space.depth == 4
      && PageBacked(st', 1) && st'.owner[1] == Owner() && FreePages(st'.space.pmm.chain) >= 3
  {
    hide StateOk, FreePages, Walk, Step, Q.FindAnon, KeepsRecord, PageBacked, Q.Insert, Enabled;
    DirectFacts();
    OpenAnonymous(st, Owner());
    var st1 := Step(st, Open(Owner(), []));
    CanFault(st1, 0x1000);
    FaultKeepsOk(st1, 0x1000);
    FaultKeepsRoot(st1, 0x1000);
  }

  /** After a fault of an anonymous portal has brought page 1 in, a direct portal that is apart from it
      but shares the page can be opened with any frame, and takes the page over. */
  lemma SharedPageIsLost(g: nat)
    ensures var es := [Open(Owner(), []), Fault(0x1000)];
      && StateOk(Start()) && AllEnabled(Start(), es)
      && var st := Execute(Start(), es);
      && StateOk(st) && PageBacked(st, 1) && st.owner[1] == Owner() && CanOpen(st, Direct(), [g])
      && Walk(Opened(st, Direct(), [g]).space, 1) == Small(Leaf(Addr(g), Protections(Direct())))
      && (g != st.pages[1] ==> Walk(Opened(st, Direct(), [g]).space, 1) != Walk(st.space, 1))
  {
    hide StateOk, FreePages, Walk, LinksCarry, Execute, AllEnabled, Step, Enabled, Start, Backs;
    hide CanOpen, Opened, Q.Insert;
    StartOk(US);
    FaultOfOwner(Start());
    TwoEvents(Start(), Open(Owner(), []), Fault(0x1000));
    TakesOver(Execute(Start(), [Open(Owner(), []), Fault(0x1000)]), g);
  }

  // ---------------------------------------------------------------- a misaligned direct portal

  function Misaligned(): Q.Portal {
    Q.Portal(0x1800, 0x1000, true, false, false, false)
  }

  lemma MisalignedFacts()
    ensures var p := Misaligned();
      && DirectPages(p) == 1 && p.base / PAGE_SIZE == 1 && Q.Owns(p, 0x1800) && Q.Owns(p, 0x2000)
      && Reaches(p, 0x1800) && !Reaches(p, 0x2000) && FrameIndex(p, 0x1800) == 0
  {
  }

  lemma CanOpenOne(st: State, p: Q.Portal, g: nat)
    requires StateOk(st) && st.root == Q.Leaf && st.space.depth == 4 && FreePages(st.space.pmm.chain) >= 3
    requires p.direct && DirectPages(p) == 1 && p.base / PAGE_SIZE == 1 && Walk(st.space, 1) == Unmapped
    ensures CanOpen(st, p, [g])
  {
    hide FreePages, Walk, MapList, Protections, SpaceOk, Q.Spread;
    ProtectionsOk(p);
    KeyValues(1);
    ThreePages();
    MapListBound(st.space, 1, [g], Protections(p));
  }

  /** A direct portal of one page's length that starts in the middle of a page gets that page only: its
      second half is left unmapped. */
  lemma SecondHalfLeftOut(g: nat)
    ensures var p := Misaligned();
      && StateOk(Start()) && CanOpen(Start(), p, [g])
      && var st := Opened(Start(), p, [g]);
      && Walk(st.space, 1) == Small(Leaf(Addr(g), Protections(p)))
      && Q.Owns(p, 0x2000) && Walk(st.space, 2) == Unmapped
  {
    hide StateOk, FreePages, Walk, LinksCarry, Start, CanOpen, Opened, Protections, Leaf, Reaches, FrameIndex;
    var p := Misaligned();
    StartOk(US);
    MisalignedFacts();
    CanOpenOne(Start(), p, g);
    KeyValues(2);
    OpenServes(Start(), p, [g], 0x1800);
    OpenServes(Start(), p, [g], 0x2000);
  }
}
