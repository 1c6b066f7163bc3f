/** Runs of portal requests and page faults on one address space. */
module PortalRuns {
  import opened Words
  import opened Physical
  import opened PageTables
  import opened PageOperations
  import opened Virtual
  import Q = Portals

  /** The flags of a mapping with the rights of a portal: P, US, RW if writable, NX unless
      executable. */
  function Protections(p: Q.Portal): Word {
    Flags(!p.exec, if p.write then P | US | RW else P | US)
  }

  /** The flags as the fault handler puts them together: P, US and NX, then RW if the portal can be
      written, then NX off if it can be executed. */
  lemma ProtectionsAre(p: Q.Portal)
    ensures var base: bv64 := 1 | 4 | NX;
      var written := if p.write then base | 2 else base;
      Protections(p) == Of(if p.exec then written & !NX else written)
  {
    OfFlags(!p.exec, if p.write then 7 else 5);
  }

  lemma ProtectionsOk(p: Q.Portal)
    ensures FlagsOk(Protections(p)) && !Large(Protections(p))
  {
    assert P | US | RW == 0x007 && P | US == 0x005;
  }

  /** The pages that the closed interval of a portal touches. */
  ghost predicate Touches(p: Q.Portal, q: nat) {
    p.base / PAGE_SIZE <= q <= (p.base + p.limit) / PAGE_SIZE
  }

  /** An address space with its portals: `pages` records the frame behind each page that a fault
      brought in, `wired` the frame behind each page of a direct portal, and `owner` the portal whose
      fault or request that was. */
  datatype State = State(
    space: Space,
    root: Q.Tree,
    pages: map<nat, nat>,
    wired: map<nat, nat>,
    owner: map<nat, Q.Portal>)

  ghost predicate Has(t: Q.Tree, p: Q.Portal) {
    p in Q.InOrder(t)
  }

  /** Page `q` is mapped to frame `f` with the rights of portal `p`, which touches it. */
  ghost predicate Backs(st: State, p: Q.Portal, q: nat, f: nat) {
    && Has(st.root, p) && Touches(p, q) && InSpace(st.space, q)
    && Walk(st.space, q) == Small(Leaf(Addr(f), Protections(p)))
  }

  ghost predicate PageBacked(st: State, q: nat) {
    q in st.pages && q in st.owner && st.owner[q].anon && Backs(st, st.owner[q], q, st.pages[q])
  }

  ghost predicate PageWired(st: State, q: nat) {
    q in st.wired && q in st.owner && st.owner[q].direct && Backs(st, st.owner[q], q, st.wired[q])
  }

  ghost predicate StateOk(st: State) {
    && SpaceOk(st.space)
    && Q.Spread(Q.InOrder(st.root))
    && (forall q {:trigger PageBacked(st, q)} :: q in st.pages ==> PageBacked(st, q))
    && (forall q {:trigger PageWired(st, q)} :: q in st.wired ==> PageWired(st, q))
  }

  // ---------------------------------------------------------------- steps

  /** A request opens a portal, and a direct one is mapped at once; a fault on an absent page is
      resolved through the anonymous portal that covers the address, if there is one. */
  datatype Event = Open(p: Q.Portal, frames: seq<nat>) | Fault(addr: nat)

  function DirectPages(p: Q.Portal): nat {
    DivRoundUp(p.limit, PAGE_SIZE)
  }

  /** The frames that a request maps: of a direct one as many of its list as it has pages. */
  function Listed(p: Q.Portal, paddr: seq<nat>): seq<nat>
    requires p.direct ==> DirectPages(p) <= |paddr|
  {
    if p.direct then paddr[..DirectPages(p)] else []
  }

  ghost predicate Recorded(st: State, q: nat) {
    q in st.pages || q in st.wired
  }

  /** A portal whose interval is apart from all others, with the frames of its pages if it is
      direct; the allocations on the way succeed. */
  ghost predicate CanOpen(st: State, p: Q.Portal, frames: seq<nat>) {
    && (forall x {:trigger Has(st.root, x)} :: Has(st.root, x) ==> Q.Clear(p, x))
    && |frames| == (if p.direct then DirectPages(p) else 0)
    && RangeMappable(st.space, p.base / PAGE_SIZE, |frames|)
    && MapList(st.space, p.base / PAGE_SIZE, frames, Protections(p)).Some?
  }

  /** None of the pages that a direct portal maps is in use by another portal. */
  ghost predicate NoneRecorded(st: State, pn: nat, cnt: nat) {
    forall q: nat :: pn <= q < pn + cnt ==> !Recorded(st, q)
  }

  /** The anonymous fault takes two frames and maps the page onto the second. */
  ghost function ResolveAnon(s: Space, q: nat, p: Q.Portal): Option<(nat, Space)> {
    match AllocBlock(s, 1, 1)
    case None => None
    case Some((_, s1)) => MapFresh(s1, q, Protections(p))
  }

  ghost predicate Enabled(st: State, e: Event) {
    match e
    case Open(p, frames) => CanOpen(st, p, frames) && NoneRecorded(st, p.base / PAGE_SIZE, |frames|)
    case Fault(addr) =>
      && InSpace(st.space, addr / PAGE_SIZE) && Walk(st.space, addr / PAGE_SIZE) == Unmapped
      && match Q.FindAnon(st.root, addr)
         case None => true
         case Some(p) => ResolveAnon(st.space, addr / PAGE_SIZE, p).Some?
  }

  function Wire(m: map<nat, nat>, pn: nat, frames: seq<nat>): map<nat, nat>
    decreases |frames|
  {
    if frames == [] then m else Wire(m[pn := frames[0]], pn + 1, frames[1..])
  }

  ghost function Opened(st: State, p: Q.Portal, frames: seq<nat>): State
    requires CanOpen(st, p, frames)
  {
    State(MapList(st.space, p.base / PAGE_SIZE, frames, Protections(p)).value,
          Q.Insert(st.root, p), st.pages, Wire(st.wired, p.base / PAGE_SIZE, frames),
          Filled(st.owner, p.base / PAGE_SIZE, |frames|, p))
  }

  ghost function Step(st: State, e: Event): State
    requires Enabled(st, e)
  {
    match e
    case Open(p, frames) => Opened(st, p, frames)
    case Fault(addr) =>
      (match Q.FindAnon(st.root, addr)
       case None => st
       case Some(p) =>
         var (f, s') := ResolveAnon(st.space, addr / PAGE_SIZE, p).value;
         st.(space := s', pages := st.pages[addr / PAGE_SIZE := f], owner := st.owner[addr / PAGE_SIZE := p]))
  }

  // ---------------------------------------------------------------- one step

  lemma {:induction false} WireAt(m: map<nat, nat>, pn: nat, frames: seq<nat>)
    ensures forall q :: q in Wire(m, pn, frames) <==> q in m || pn <= q < pn + |frames|
    ensures forall q :: q in Wire(m, pn, frames) ==>
      Wire(m, pn, frames)[q] == if pn <= q < pn + |frames| then frames[q - pn] else m[q]
    decreases |frames|
  {
    if frames != [] {
      WireAt(m[pn := frames[0]], pn + 1, frames[1..]);
    }
  }

  lemma DirectPagesTouch(p: Q.Portal, q: nat)
    requires p.base / PAGE_SIZE <= q < p.base / PAGE_SIZE + DirectPages(p)
    ensures Touches(p, q)
  {
  }

  /** Pages backed through old portals stay backed if their translation does not change. */
  lemma BacksKept(st: State, st': State, p: Q.Portal, q: nat, f: nat)
    requires Backs(st, p, q, f) && st'.space.depth == st.space.depth && Walk(st'.space, q) == Walk(st.space, q)
    requires Has(st.root, p) ==> Has(st'.root, p)
    ensures Backs(st', p, q, f)
  {
  }

  /** What is recorded of a page, and its translation, are the same in both states. */
  ghost predicate KeepsRecord(st: State, st': State, q: nat) {
    && (q in st.pages ==> q in st'.pages && st'.pages[q] == st.pages[q])
    && (q in st.wired ==> q in st'.wired && st'.wired[q] == st.wired[q])
    && (q in st.owner ==> q in st'.owner && st'.owner[q] == st.owner[q])
    && Walk(st'.space, q) == Walk(st.space, q)
  }

  lemma RecordKept(st: State, st': State, q: nat)
    requires KeepsRecord(st, st', q) && st'.space.depth == st.space.depth
    requires forall x {:trigger Has(st.root, x)} :: Has(st.root, x) ==> Has(st'.root, x)
    ensures PageBacked(st, q) ==> PageBacked(st', q)
    ensures PageWired(st, q) ==> PageWired(st', q)
  {
    hide Walk, Has, Protections, Touches;
    if PageBacked(st, q) {
      BacksKept(st, st', st.owner[q], q, st.pages[q]);
    }
    if PageWired(st, q) {
      BacksKept(st, st', st.owner[q], q, st.wired[q]);
    }
  }

  lemma WiredAt(m: map<nat, nat>, owner: map<nat, Q.Portal>, pn: nat, frames: seq<nat>, p: Q.Portal, q: nat)
    requires pn <= q < pn + |frames|
    ensures q in Wire(m, pn, frames) && Wire(m, pn, frames)[q] == frames[q - pn]
    ensures q in Filled(owner, pn, |frames|, p) && Filled(owner, pn, |frames|, p)[q] == p
  {
    hide Wire, Filled;
    WireAt(m, pn, frames);
    FilledAt(owner, pn, |frames|, p);
  }

  lemma NewPageWired(st: State, p: Q.Portal, frames: seq<nat>, q: nat)
    requires CanOpen(st, p, frames) && p.base / PAGE_SIZE <= q < p.base / PAGE_SIZE + |frames|
    requires var st' := Opened(st, p, frames);
      && Has(st'.root, p) && st'.space.depth == st.space.depth && Protections(p).page == 0
      && ListMapped(st.space, st'.space, p.base / PAGE_SIZE, frames, Protections(p))
    ensures PageWired(Opened(st, p, frames), q)
  {
    hide Walk, MapList, Protections, Touches, Has, Wire, Filled, Leaf;
    var st', pn := Opened(st, p, frames), p.base / PAGE_SIZE;
    DirectPagesTouch(p, q);
    WiredAt(st.wired, st.owner, pn, frames, p, q);
    assert InSpace(st.space, q) && InSpace(st'.space, q);
    assert Backs(st', p, q, frames[q - pn]);
  }

  /** Outside the pages of a direct portal nothing changes. */
  lemma OpenKeepsRecord(st: State, p: Q.Portal, frames: seq<nat>, q: nat)
    requires CanOpen(st, p, frames) && !(p.base / PAGE_SIZE <= q < p.base / PAGE_SIZE + |frames|)
    requires InSpace(st.space, q) && Protections(p).page == 0
    requires ListMapped(st.space, Opened(st, p, frames).space, p.base / PAGE_SIZE, frames, Protections(p))
    ensures KeepsRecord(st, Opened(st, p, frames), q)
    ensures q in Opened(st, p, frames).wired ==> q in st.wired
  {
    hide Walk, MapList, Protections;
    WireAt(st.wired, p.base / PAGE_SIZE, frames);
    FilledAt(st.owner, p.base / PAGE_SIZE, |frames|, p);
  }

  lemma RecordedInSpace(st: State, q: nat)
    requires StateOk(st) && Recorded(st, q)
    ensures InSpace(st.space, q) && q in st.owner && Has(st.root, st.owner[q]) && Touches(st.owner[q], q)
  {
    hide SpaceOk, Walk, Protections, Touches, Q.Spread;
    assert q in st.pages ==> PageBacked(st, q);
    assert q in st.wired ==> PageWired(st, q);
  }

  lemma InsertHas(t: Q.Tree, p: Q.Portal)
    requires Q.Spread(Q.InOrder(t)) && forall x {:trigger Has(t, x)} :: Has(t, x) ==> Q.Clear(p, x)
    ensures Q.Spread(Q.InOrder(Q.Insert(t, p))) && Has(Q.Insert(t, p), p)
    ensures forall x {:trigger Has(t, x)} :: Has(t, x) ==> Has(Q.Insert(t, p), x)
  {
    forall x | x in Q.InOrder(t) ensures Q.Clear(p, x) {
      assert Has(t, x);
    }
    Q.InsertKeepsSpread(t, p);
  }

  lemma WireKeys(m: map<nat, nat>, pn: nat, frames: seq<nat>, q: nat)
    ensures q in Wire(m, pn, frames) && !(pn <= q < pn + |frames|) ==> q in m
  {
    WireAt(m, pn, frames);
  }

  lemma OpenKeepsOk(st: State, p: Q.Portal, frames: seq<nat>)
    requires StateOk(st) && Enabled(st, Open(p, frames))
    ensures StateOk(Step(st, Open(p, frames)))
    ensures var st' := Step(st, Open(p, frames));
      && Extends(st.space, st'.space) && ListMapped(st.space, st'.space, p.base / PAGE_SIZE, frames, Protections(p))
      && forall q {:trigger Recorded(st, q)} :: Recorded(st, q) ==> KeepsRecord(st, st', q)
  {
    hide SpaceOk, Walk, MapList, Protections, Touches, Has, Q.Spread, Q.Insert;
    hide KeepsRecord, PageBacked, PageWired, Filled, Wire;
    var st' := Step(st, Open(p, frames));
    var pn := p.base / PAGE_SIZE;
    ProtectionsOk(p);
    MapListEffect(st.space, pn, frames, Protections(p));
    InsertHas(st.root, p);
    forall q | Recorded(st, q) ensures KeepsRecord(st, st', q) {
      RecordedInSpace(st, q);
      OpenKeepsRecord(st, p, frames, q);
    }
    forall q | q in st.pages ensures PageBacked(st', q) {
      assert Recorded(st, q) && PageBacked(st, q);
      RecordKept(st, st', q);
    }
    forall q | q in st'.wired ensures PageWired(st', q) {
      WireKeys(st.wired, pn, frames, q);
      if pn <= q < pn + |frames| {
        NewPageWired(st, p, frames, q);
      } else {
        assert Recorded(st, q) && PageWired(st, q);
        RecordKept(st, st', q);
      }
    }
  }

  lemma ResolveAnonEffect(s: Space, q: nat, p: Q.Portal)
    requires SpaceOk(s) && InSpace(s, q) && Walk(s, q) == Unmapped
    ensures match ResolveAnon(s, q, p)
      case None => true
      case Some((f, s')) =>
        && SpaceOk(s') && Extends(s, s') && FreshData(s, s', f)
        && Walk(s', q) == Small(Leaf(Addr(f), Protections(p))) && OnlyAt(s, s', q, q + 1)
  {
    hide AllocBlock, MapFresh, SpaceOk, Walk;
    AllocBlockEffect(s, 1, 1);
    ProtectionsOk(p);
    if AllocBlock(s, 1, 1).Some? {
      var (_, s1) := AllocBlock(s, 1, 1).value;
      MapFreshEffect(s1, q, Protections(p));
      if MapFresh(s1, q, Protections(p)).Some? {
        var (f, s') := MapFresh(s1, q, Protections(p)).value;
        ExtendsTransitive(s, s1, s');
        FreshDataEarlier(s, s1, s', f);
        forall x: nat | InSpace(s, x) ensures InSpace(s1, x) {
        }
      }
    }
  }

  lemma RecordedIsMapped(st: State, q: nat)
    requires StateOk(st) && Recorded(st, q)
    ensures Walk(st.space, q).Small?
  {
    hide SpaceOk, Walk, Protections, Touches, Q.Spread;
    assert q in st.pages ==> PageBacked(st, q);
    assert q in st.wired ==> PageWired(st, q);
  }

  lemma FaultBacks(st: State, addr: nat, p: Q.Portal)
    requires StateOk(st) && Enabled(st, Fault(addr)) && Q.FindAnon(st.root, addr) == Some(p)
    ensures PageBacked(Step(st, Fault(addr)), addr / PAGE_SIZE)
  {
    hide SpaceOk, Walk, ResolveAnon, Protections, Q.Spread;
    Q.DescentIsExact(st.root, addr);
    ResolveAnonEffect(st.space, addr / PAGE_SIZE, p);
  }

  /** A resolved fault records the page with the portal that covers the faulting address, and from
      then on the page is mapped with that portal's rights. */
  lemma FaultKeepsOk(st: State, addr: nat)
    requires StateOk(st) && Enabled(st, Fault(addr))
    ensures StateOk(Step(st, Fault(addr)))
    ensures var st', q := Step(st, Fault(addr)), addr / PAGE_SIZE;
      && Extends(st.space, st'.space) && OnlyAt(st.space, st'.space, q, q + 1)
      && (forall x {:trigger Recorded(st, x)} :: Recorded(st, x) ==> KeepsRecord(st, st', x))
      && match Q.FindAnon(st.root, addr)
         case None => st' == st
         case Some(p) => PageBacked(st', q) && st'.owner[q] == p && Q.Contains(p, addr)
  {
    hide SpaceOk, Walk, ResolveAnon, Protections, Q.Spread;
    Q.DescentIsExact(st.root, addr);
    match Q.FindAnon(st.root, addr)
    case None =>
    case Some(p) =>
      var q := addr / PAGE_SIZE;
      ResolveAnonEffect(st.space, q, p);
      var st' := Step(st, Fault(addr));
      forall x | Recorded(st, x) ensures KeepsRecord(st, st', x) {
        RecordedInSpace(st, x);
        RecordedIsMapped(st, x);
      }
      hide KeepsRecord, PageBacked, PageWired;
      forall x | x in st'.pages ensures PageBacked(st', x) {
        FaultBacks(st, addr, p);
        if x != q {
          assert Recorded(st, x) && PageBacked(st, x);
          RecordKept(st, st', x);
        }
      }
      forall x | x in st'.wired ensures PageWired(st', x) {
        assert Recorded(st, x) && PageWired(st, x);
        RecordKept(st, st', x);
      }
  }

  // ---------------------------------------------------------------- whole runs

  ghost predicate AllEnabled(st: State, es: seq<Event>)
    decreases |es|, 0
  {
    es == [] || (AllEnabled(st, es[..|es| - 1]) && Enabled(Execute(st, es[..|es| - 1]), es[|es| - 1]))
  }

  ghost function Execute(st: State, es: seq<Event>): State
    requires AllEnabled(st, es)
    decreases |es|, 1
  {
    if es == [] then st else Step(Execute(st, es[..|es| - 1]), es[|es| - 1])
  }

  lemma StepKeepsOk(st: State, e: Event)
    requires StateOk(st) && Enabled(st, e)
    ensures StateOk(Step(st, e)) && Extends(st.space, Step(st, e).space)
    ensures forall q {:trigger Recorded(st, q)} :: Recorded(st, q) ==> KeepsRecord(st, Step(st, e), q)
    ensures forall q: nat :: InSpace(st.space, q) && !Recorded(Step(st, e), q) ==>
      Walk(Step(st, e).space, q) == Walk(st.space, q)
  {
    hide SpaceOk, Walk, MapList, ResolveAnon, Protections, KeepsRecord;
    match e
    case Open(p, frames) =>
      OpenKeepsOk(st, p, frames);
      WireAt(st.wired, p.base / PAGE_SIZE, frames);
    case Fault(addr) =>
      FaultKeepsOk(st, addr);
  }

  lemma RecordsChain(st: State, m: State, st': State, q: nat)
    requires Recorded(st, q) && KeepsRecord(st, m, q) && (Recorded(m, q) ==> KeepsRecord(m, st', q))
    ensures KeepsRecord(st, st', q)
  {
    hide Walk;
  }

  /** Over every run of requests and faults, each page a fault brought in translates to its
      recorded frame with the rights of the portal whose fault that was, each page of a direct portal
      to the frame it was given, and all other pages translate as at the start. What is once recorded
      of a page, its portal included, stays. */
  lemma {:induction false} RunKeepsOk(st: State, es: seq<Event>)
    requires StateOk(st) && AllEnabled(st, es)
    ensures var st' := Execute(st, es);
      && StateOk(st') && st'.space.depth == st.space.depth
      && (forall q {:trigger Recorded(st, q)} :: Recorded(st, q) ==> KeepsRecord(st, st', q))
      && forall q: nat :: InSpace(st.space, q) && !Recorded(st', q) ==> Walk(st'.space, q) == Walk(st.space, q)
    decreases |es|
  {
    hide StateOk, Walk, Enabled, Step;
    if es != [] {
      var front := es[..|es| - 1];
      RunKeepsOk(st, front);
      var m := Execute(st, front);
      var st' := Execute(st, es);
      StepKeepsOk(m, es[|es| - 1]);
      forall q | Recorded(st, q) ensures KeepsRecord(st, st', q) {
        RecordsChain(st, m, st', q);
      }
      forall q: nat | InSpace(st.space, q) && !Recorded(st', q) ensures Walk(st'.space, q) == Walk(st.space, q) {
        assert InSpace(m.space, q) && !Recorded(m, q);
      }
    }
  }

  // ---------------------------------------------------------------- portals that share a page

  /** No page is touched by both portals. */
  ghost predicate PageApart(p: Q.Portal, x: Q.Portal) {
    forall q: nat :: !(Touches(p, q) && Touches(x, q))
  }

  lemma PageApartIsClear(p: Q.Portal, x: Q.Portal)
    requires PageApart(p, x)
    ensures Q.Clear(p, x)
  {
    var q := if p.base >= x.base then p.base / PAGE_SIZE else x.base / PAGE_SIZE;
    assert !(Touches(p, q) && Touches(x, q));
  }

  lemma NotBoth(p: Q.Portal, x: Q.Portal, q: nat)
    requires PageApart(p, x) && Touches(p, q)
    ensures !Touches(x, q)
  {
  }

  /** A portal that shares no page with another can always be opened. */
  lemma PageApartSuffices(st: State, p: Q.Portal, frames: seq<nat>)
    requires StateOk(st) && forall x {:trigger Has(st.root, x)} :: Has(st.root, x) ==> PageApart(p, x)
    requires |frames| == if p.direct then DirectPages(p) else 0
    ensures forall x {:trigger Has(st.root, x)} :: Has(st.root, x) ==> Q.Clear(p, x)
    ensures NoneRecorded(st, p.base / PAGE_SIZE, |frames|)
  {
    hide SpaceOk, Walk, Protections, Touches, PageApart, Q.Spread;
    forall x | Has(st.root, x) ensures Q.Clear(p, x) {
      PageApartIsClear(p, x);
    }
    forall q: nat | p.base / PAGE_SIZE <= q < p.base / PAGE_SIZE + |frames| ensures !Recorded(st, q) {
      DirectPagesTouch(p, q);
      if Recorded(st, q) {
        RecordedInSpace(st, q);
        NotBoth(p, st.owner[q], q);
      }
    }
  }

  /** Opening a direct portal keeps the translation of every recorded page if and only if each
      recorded page in its range is given the very frame and rights it has already. */
  lemma OpenKeepsRecords(st: State, p: Q.Portal, frames: seq<nat>)
    requires StateOk(st) && CanOpen(st, p, frames)
    ensures (forall q: nat :: Recorded(st, q) ==> Walk(Opened(st, p, frames).space, q) == Walk(st.space, q)) <==>
      (forall q: nat :: Recorded(st, q) && p.base / PAGE_SIZE <= q < p.base / PAGE_SIZE + |frames| ==>
         Walk(st.space, q) == Small(Leaf(Addr(frames[q - p.base / PAGE_SIZE]), Protections(p))))
  {
    hide SpaceOk, Walk, MapList, Protections, Touches, Q.Spread;
    ProtectionsOk(p);
    MapListEffect(st.space, p.base / PAGE_SIZE, frames, Protections(p));
    forall q: nat | Recorded(st, q) ensures InSpace(st.space, q) {
      RecordedInSpace(st, q);
    }
  }

  // ---------------------------------------------------------------- whose rights a page has

  lemma LeafTells(f: nat, u: Word, v: Word)
    requires u.page == 0 && v.page == 0
    ensures Leaf(Addr(f), u) == Leaf(Addr(f), v) <==> u == v
  {
    assert 0 | u.low == u.low && 0 | v.low == v.low;
  }

  /** Equal protections are equal rights. */
  lemma ProtectionsTell(p: Q.Portal, x: Q.Portal)
    ensures Protections(p) == Protections(x) <==> p.write == x.write && p.exec == x.exec
  {
    assert P | US | RW == 0x007 && P | US == 0x005;
  }

  /** A portal that touches a page which a fault of another one brought in has its own rights there
      if and only if the two portals have the same protections. */
  lemma SharedPageRights(st: State, q: nat, b: Q.Portal)
    requires StateOk(st) && q in st.pages && Has(st.root, b) && Touches(b, q)
    ensures q in st.owner && (Backs(st, b, q, st.pages[q]) <==> Protections(b) == Protections(st.owner[q]))
  {
    hide SpaceOk, Walk, Protections, Q.Spread;
    assert PageBacked(st, q);
    ProtectionsOk(b);
    ProtectionsOk(st.owner[q]);
    LeafTells(st.pages[q], Protections(b), Protections(st.owner[q]));
  }

  lemma PagesOwned(st: State, q: nat)
    requires StateOk(st) && q in st.pages
    ensures PageBacked(st, q)
  {
  }

  /** After every run, all anonymous portals that touch a recorded page have their own rights there if
      and only if they have the protections of the portal whose fault brought the page in. */
  lemma EveryPortalHasItsRights(st: State, es: seq<Event>, q: nat)
    requires StateOk(st) && AllEnabled(st, es) && q in Execute(st, es).pages
    ensures var st' := Execute(st, es);
      && q in st'.owner
      && ((forall b: Q.Portal {:trigger Has(st'.root, b)} ::
             b.anon && Has(st'.root, b) && Touches(b, q) ==> Backs(st', b, q, st'.pages[q])) <==>
          (forall b: Q.Portal {:trigger Has(st'.root, b)} ::
             b.anon && Has(st'.root, b) && Touches(b, q) ==> Protections(b) == Protections(st'.owner[q])))
  {
    hide Execute, AllEnabled, StateOk, Backs, Touches, Has, Protections;
    RunKeepsOk(st, es);
    var st' := Execute(st, es);
    PagesOwned(st', q);
    forall b | Has(st'.root, b) && Touches(b, q)
      ensures Backs(st', b, q, st'.pages[q]) <==> Protections(b) == Protections(st'.owner[q])
    {
      SharedPageRights(st', q, b);
    }
  }

  // ---------------------------------------------------------------- enough free pages

  /** A fault can be resolved with one free page more than there are levels. */
  lemma ResolveAnonBound(s: Space, q: nat, p: Q.Portal)
    requires SpaceOk(s) && InSpace(s, q) && Walk(s, q) == Unmapped && FreePages(s.pmm.chain) >= s.depth + 1
    ensures ResolveAnon(s, q, p).Some?
    ensures FreePages(ResolveAnon(s, q, p).value.1.pmm.chain) + s.depth + 1 >= FreePages(s.pmm.chain)
  {
    hide FreePages, AllocBlock, MapFresh, SpaceOk, Walk;
    ProtectionsOk(p);
    AllocBound(s);
    AllocBlockEffect(s, 1, 1);
    MapFreshBound(AllocBlock(s, 1, 1).value.1, q, Protections(p));
  }

  lemma MapFreshTakes(s: Space, q: nat, flags: Word)
    requires SpaceOk(s) && InSpace(s, q) && FlagsOk(flags) && !Large(flags) && !Walk(s, q).Big?
    ensures MapFresh(s, q, flags).Some? ==>
      FreePages(MapFresh(s, q, flags).value.1.pmm.chain) + 1 <= FreePages(s.pmm.chain)
  {
    hide FreePages, PmmOk, AllocBlock, MapPage, Walk, IsTree, Missing;
    AllocBlockEffect(s, 1, 1);
    if AllocBlock(s, 1, 1).Some? {
      AllocTakes(s);
      var (f, s1) := AllocBlock(s, 1, 1).value;
      MapPageTakes(s1, q, Addr(f), flags);
    }
  }

  /** A fault takes two frames besides the tables; the first of them is never used. */
  lemma ResolveAnonTakes(s: Space, q: nat, p: Q.Portal)
    requires SpaceOk(s) && InSpace(s, q) && Walk(s, q) == Unmapped
    ensures ResolveAnon(s, q, p).Some? ==>
      FreePages(ResolveAnon(s, q, p).value.1.pmm.chain) + 2 <= FreePages(s.pmm.chain)
  {
    hide FreePages, PmmOk, AllocBlock, MapFresh, Walk, IsTree;
    ProtectionsOk(p);
    AllocBlockEffect(s, 1, 1);
    if AllocBlock(s, 1, 1).Some? {
      AllocTakes(s);
      MapFreshTakes(AllocBlock(s, 1, 1).value.1, q, Protections(p));
    }
  }
}
