/** Direct portals address by address: which of its addresses a portal serves, with which frames and
    rights, for one request and over whole runs. */
module DirectPortals {
  import opened Words
  import opened Physical
  import opened PageTables
  import opened PageOperations
  import opened Rights
  import opened RightsHistory
  import opened Virtual
  import opened PortalRuns
  import opened PortalGrants
  import Q = Portals

  /** The page of the address starts inside the portal's length, counted from the start of the page
      that the portal starts in. */
  predicate Reaches(p: Q.Portal, addr: nat) {
    addr / PAGE_SIZE * PAGE_SIZE < p.base / PAGE_SIZE * PAGE_SIZE + p.limit
  }

  /** Which of the listed frames is meant for the page of the address. */
  function FrameIndex(p: Q.Portal, addr: nat): nat
    requires p.base <= addr
  {
    addr / PAGE_SIZE - p.base / PAGE_SIZE
  }

  lemma ReachedIsMapped(p: Q.Portal, addr: nat)
    requires p.base <= addr
    ensures Reaches(p, addr) <==> FrameIndex(p, addr) < DirectPages(p)
  {
    var j := FrameIndex(p, addr);
    DivRoundUpIsLeast(p.limit, PAGE_SIZE);
    assert j < DirectPages(p) ==> j * PAGE_SIZE <= (DirectPages(p) - 1) * PAGE_SIZE;
    assert j >= DirectPages(p) ==> j * PAGE_SIZE >= DirectPages(p) * PAGE_SIZE;
  }

  lemma LastReachedIff(p: Q.Portal)
    requires p.limit > 0
    ensures Reaches(p, p.base + p.limit - 1) <==> p.base % PAGE_SIZE + (p.limit - 1) % PAGE_SIZE < PAGE_SIZE
  {
    var b, o, n, t := p.base / PAGE_SIZE, p.base % PAGE_SIZE, (p.limit - 1) / PAGE_SIZE, (p.limit - 1) % PAGE_SIZE;
    assert p.base + p.limit - 1 == (b + n) * PAGE_SIZE + (o + t);
    assert (p.base + p.limit - 1) / PAGE_SIZE == if o + t < PAGE_SIZE then b + n else b + n + 1;
  }

  /** Every address that belongs to a portal is reached if and only if the portal's offset in its first
      page does not push it over the pages that its length alone rounds up to. */
  lemma AllReachedIff(p: Q.Portal)
    requires p.limit > 0
    ensures (forall addr: nat :: Q.Owns(p, addr) ==> Reaches(p, addr)) <==>
      p.base % PAGE_SIZE + (p.limit - 1) % PAGE_SIZE < PAGE_SIZE
  {
    var b, last := p.base / PAGE_SIZE, p.base + p.limit - 1;
    assert p.base == b * PAGE_SIZE + p.base % PAGE_SIZE;
    assert Q.Owns(p, last);
    forall addr: nat | Q.Owns(p, addr) ensures Reaches(p, last) ==> Reaches(p, addr) {
      assert addr / PAGE_SIZE <= last / PAGE_SIZE;
    }
    LastReachedIff(p);
  }

  lemma AlignedReaches(p: Q.Portal, addr: nat)
    requires p.base % PAGE_SIZE == 0 && Q.Owns(p, addr)
    ensures Reaches(p, addr) && FrameIndex(p, addr) == (addr - p.base) / PAGE_SIZE
  {
    var b := p.base / PAGE_SIZE;
    assert addr == b * PAGE_SIZE + (addr - p.base);
  }

  /** Page `q` is mapped to frame `f` with the rights of the direct portal `p`, and recorded so. */
  ghost predicate Wired(st: State, p: Q.Portal, q: nat, f: nat) {
    && q in st.wired && st.wired[q] == f && q in st.owner && st.owner[q] == p
    && Walk(st.space, q) == Small(Leaf(Addr(f), Protections(p)))
  }

  /** Opening a direct portal maps every address that it reaches to the frame given for its page, with the
      portal's rights, and leaves the others of its addresses as they were. With a page-aligned base it
      reaches them all. */
  lemma OpenServes(st: State, p: Q.Portal, frames: seq<nat>, addr: nat)
    requires StateOk(st) && CanOpen(st, p, frames) && p.direct && Q.Owns(p, addr)
    ensures var st', j := Opened(st, p, frames), FrameIndex(p, addr);
      && (p.base % PAGE_SIZE == 0 ==> Reaches(p, addr) && j == (addr - p.base) / PAGE_SIZE)
      && (Reaches(p, addr) ==> j < |frames| && Wired(st', p, addr / PAGE_SIZE, frames[j]))
      && (!Reaches(p, addr) && InSpace(st.space, addr / PAGE_SIZE) ==>
            Walk(st'.space, addr / PAGE_SIZE) == Walk(st.space, addr / PAGE_SIZE))
  {
    hide SpaceOk, Walk, MapList, Protections, Touches, Has, Q.Insert, Wire, Filled, Leaf, Reaches, DirectPages;
    var pn, q := p.base / PAGE_SIZE, addr / PAGE_SIZE;
    ProtectionsOk(p);
    MapListEffect(st.space, pn, frames, Protections(p));
    ReachedIsMapped(p, addr);
    if p.base % PAGE_SIZE == 0 {
      AlignedReaches(p, addr);
    }
    if Reaches(p, addr) {
      assert InSpace(st.space, q);
      WiredAt(st.wired, st.owner, pn, frames, p, q);
    }
  }

  lemma WiredKept(st: State, e: Event, p: Q.Portal, q: nat, f: nat)
    requires StateOk(st) && Enabled(st, e) && Wired(st, p, q, f)
    ensures Wired(Step(st, e), p, q, f)
  {
    hide StateOk, Enabled, Step, Walk, Protections, Leaf;
    StepKeepsOk(st, e);
    assert Recorded(st, q);
  }

  lemma OpenIsOpened(st: State, p: Q.Portal, frames: seq<nat>)
    requires Enabled(st, Open(p, frames))
    ensures CanOpen(st, p, frames) && Step(st, Open(p, frames)) == Opened(st, p, frames)
  {
    hide CanOpen, Opened;
  }

  /** And so it stays: after every run that contains the request, every address that the portal reaches
      translates to the frame given for its page, with the portal's rights. */
  lemma {:induction false} RunServes(st: State, es: seq<Event>, i: nat, addr: nat)
    requires StateOk(st) && AllEnabled(st, es) && i < |es| && es[i].Open?
    requires es[i].p.direct && Q.Owns(es[i].p, addr)
    ensures var p, j := es[i].p, FrameIndex(es[i].p, addr);
      && (p.base % PAGE_SIZE == 0 ==> Reaches(p, addr) && j == (addr - p.base) / PAGE_SIZE)
      && (Reaches(p, addr) ==> j < |es[i].frames| && Wired(Execute(st, es), p, addr / PAGE_SIZE, es[i].frames[j]))
    decreases |es|
  {
    hide StateOk, Step, Wired, Reaches, CanOpen, Opened;
    var front, p, frames := es[..|es| - 1], es[i].p, es[i].frames;
    PortalRuns.RunKeepsOk(st, front);
    var m := Execute(st, front);
    if i == |es| - 1 {
      OpenIsOpened(m, p, frames);
      OpenServes(m, p, frames, addr);
    } else {
      assert front[i] == es[i];
      RunServes(st, front, i, addr);
      if Reaches(p, addr) {
        WiredKept(m, es[|es| - 1], p, addr / PAGE_SIZE, frames[FrameIndex(p, addr)]);
      }
    }
  }

  lemma WiresOwned(st: State, q: nat)
    requires StateOk(st) && q in st.wired
    ensures PageWired(st, q)
  {
  }

  /** What the hardware grants there: the portal's rights, writing only as far as the non-leaf entries
      above the page allow it, which with four levels they always do. */
  lemma DirectRights(st: State, es: seq<Event>, i: nat, addr: nat)
    requires StateOk(st) && AllEnabled(st, es) && LinksCarry(st.space, US) && i < |es| && es[i].Open?
    requires es[i].p.direct && Q.Owns(es[i].p, addr) && Reaches(es[i].p, addr)
    ensures var s, p, q := Execute(st, es).space, es[i].p, addr / PAGE_SIZE;
      && GrantsPortal(s, p, q)
      && (st.space.depth == 4 && LinksCarry(st.space, RW) ==> EffectiveGrant(s, q) == Granted(p.write, true, p.exec))
  {
    hide Walk, Protections, LinksCarry, GrantsPortal, Execute, AllEnabled, StateOk, Reaches;
    PortalRuns.RunKeepsOk(st, es);
    RunServes(st, es, i, addr);
    RunPasses(st, es, US);
    if st.space.depth == 4 && LinksCarry(st.space, RW) {
      RunPasses(st, es, RW);
    }
    var st', q := Execute(st, es), addr / PAGE_SIZE;
    WiresOwned(st', q);
    BackedGrants(st', es[i].p, q, st'.wired[q]);
  }
}
