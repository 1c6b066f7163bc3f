/** Portal requests and the anonymous page fault in their imperative form. */
module PortalSpace {
  import opened Words
  import opened Physical
  import opened PageTables
  import opened PageOperations
  import opened TableIndices
  import opened Paging
  import opened Virtual
  import opened VirtualMemory
  import Q = Portals
  import R = PortalRuns

  lemma UserPage(depth: nat, addr: nat)
    requires (depth == 4 || depth == 5) && addr / PAGE_SIZE < Limit(depth)
    ensures PageNumber(depth, addr) == addr / PAGE_SIZE && Key(depth, addr / PAGE_SIZE) == 0
  {
    BelowLimit(depth, addr / PAGE_SIZE);
  }

  lemma SpaceOfState(st: R.State)
    requires R.StateOk(st)
    ensures SpaceOk(st.space)
  {
  }

  lemma NoFrames(s: Space, pn: nat, flags: Word)
    requires flags.page == 0
    ensures MapList(s, pn, [], flags) == Some(s)
  {
  }

  lemma StaysOk(st: R.State, p: Q.Portal, frames: seq<nat>)
    requires R.StateOk(st) && R.CanOpen(st, p, frames)
    ensures R.NoneRecorded(st, p.base / PAGE_SIZE, |frames|) ==> R.StateOk(R.Opened(st, p, frames))
  {
    hide R.StateOk, R.CanOpen, R.NoneRecorded, R.Opened;
    if R.NoneRecorded(st, p.base / PAGE_SIZE, |frames|) {
      R.OpenKeepsOk(st, p, frames);
    }
  }

  /** What a fault needs and what it leaves behind. */
  lemma FaultFacts(st: R.State, addr: nat)
    requires R.StateOk(st) && R.Enabled(st, R.Fault(addr))
    ensures SpaceOk(st.space) && Walk(st.space, addr / PAGE_SIZE) == Unmapped
    ensures R.StateOk(R.Step(st, R.Fault(addr)))
    ensures match Q.FindAnon(st.root, addr)
      case None => R.Step(st, R.Fault(addr)) == st
      case Some(p) =>
        && R.ResolveAnon(st.space, addr / PAGE_SIZE, p).Some?
        && R.Step(st, R.Fault(addr)) ==
             st.(space := R.ResolveAnon(st.space, addr / PAGE_SIZE, p).value.1,
                 pages := st.pages[addr / PAGE_SIZE := R.ResolveAnon(st.space, addr / PAGE_SIZE, p).value.0],
                 owner := st.owner[addr / PAGE_SIZE := p])
  {
    hide Walk, SpaceOk, R.ResolveAnon, R.Protections, Q.FindAnon;
    R.FaultKeepsOk(st, addr);
  }

  /** The flags of a mapping with the rights of a portal. */
  method TranslateProtections(p: Q.Portal) returns (flags: Word)
    ensures flags == R.Protections(p)
  {
    flags := Flags(true, P | US);
    if p.write {
      flags := flags.(low := flags.low | RW);
    }
    if p.exec {
      flags := flags.(nx := false);
    }
  }

  class AddressSpace {
    const table: PageTable
    var root: Q.Tree
    var pages: map<nat, nat>
    ghost var wired: map<nat, nat>
    ghost var owner: map<nat, Q.Portal>

    constructor (table: PageTable)
      ensures this.table == table && root == Q.Leaf && pages == map[] && wired == map[] && owner == map[]
    {
      this.table, this.root, this.pages, this.wired, this.owner := table, Q.Leaf, map[], map[], map[];
    }

    ghost function State(): R.State
      reads this, table, table.memory, table.memory.modules, table.memory.Bitmaps()
    {
      R.State(table.State(), root, pages, wired, owner)
    }

    ghost predicate Valid()
      reads this, table, table.memory, table.memory.modules, table.memory.Bitmaps()
    {
      && (table.depth == 4 || table.depth == 5) && table.memory.Distinct()
      && R.StateOk(State())
    }

    /** The cursor walks down the tree; only anonymous nodes can match, but all of them direct it. */
    method FindPortal(addr: nat) returns (r: Option<Q.Portal>)
      ensures r == Q.FindAnon(root, addr)
    {
      var cursor := root;
      while cursor.Node?
        invariant Q.FindAnon(root, addr) == Q.FindAnon(cursor, addr)
        decreases cursor
      {
        var p := cursor.portal;
        if p.anon && p.base <= addr && p.base + p.limit >= addr {
          return Some(p);
        }
        cursor := if p.base > addr then cursor.left else cursor.right;
      }
      return None;
    }

    /** Takes the two frames and maps the page onto the second. */
    method ResolvePage(addr: nat, flags: Word, ghost p: Q.Portal) returns (frame: nat)
      requires (table.depth == 4 || table.depth == 5) && table.Valid() && flags == R.Protections(p)
      requires addr / PAGE_SIZE < Limit(table.depth) && Walk(table.State(), addr / PAGE_SIZE) == Unmapped
      requires R.ResolveAnon(table.State(), addr / PAGE_SIZE, p).Some?
      modifies table`place, table.memory, table.memory.modules, table.memory.Bitmaps()
      ensures R.ResolveAnon(old(table.State()), addr / PAGE_SIZE, p) == Some((frame, table.State()))
    {
      hide Walk, MapFresh, AllocBlock, IsTree, PageNumber;
      UserPage(table.depth, addr);
      R.ProtectionsOk(p);
      AllocBlockEffect(table.State(), 1, 1);
      var _ := table.AllocFrame();
      var vaddr := addr - addr % PAGE_SIZE;
      UserPage(table.depth, vaddr);
      frame := MapFreshPage(table, vaddr, flags);
    }

    /** Records the frame behind a page and the portal that it belongs to. */
    method RecordPage(q: nat, frame: nat, ghost p: Q.Portal)
      modifies `pages, `owner
      ensures pages == old(pages)[q := frame] && owner == old(owner)[q := p]
    {
      pages := pages[q := frame];
      owner := owner[q := p];
    }

    /** Resolves a fault on an absent page; -1 if no anonymous portal covers the address. */
    method PortalFaultAnon(addr: nat) returns (ret: int)
      requires Valid() && addr / PAGE_SIZE < Limit(table.depth) && R.Enabled(State(), R.Fault(addr))
      modifies `pages, `owner, table`place, table.memory, table.memory.modules, table.memory.Bitmaps()
      ensures Valid() && State() == R.Step(old(State()), R.Fault(addr))
      ensures ret == if Q.FindAnon(root, addr).Some? then 0 else -1
    {
      hide Walk, SpaceOk, R.StateOk, R.Protections, R.ResolveAnon, R.Enabled, R.Step, Q.FindAnon, Limit;
      ghost var st := State();
      FaultFacts(st, addr);
      var found := FindPortal(addr);
      if found.None? {
        return -1;
      }
      var flags := TranslateProtections(found.value);
      var frame := ResolvePage(addr, flags, found.value);
      ghost var s := table.State();
      RecordPage(addr / PAGE_SIZE, frame, found.value);
      assert table.State() == s;
      return 0;
    }

    /** The request can be carried out with the frames that it lists. */
    ghost predicate CanServe(p: Q.Portal, paddr: seq<nat>)
      reads this, table, table.memory, table.memory.modules, table.memory.Bitmaps()
    {
      && Valid() && (p.direct ==> R.DirectPages(p) <= |paddr|) && p.base / PAGE_SIZE < Limit(table.depth)
      && p.base / PAGE_SIZE + |R.Listed(p, paddr)| <= Limit(table.depth)
      && R.CanOpen(State(), p, R.Listed(p, paddr))
    }

    /** Maps as many pages as the length rounds up to, each to its frame of the list. */
    method HandleDirect(p: Q.Portal, paddr: seq<nat>)
      requires CanServe(p, paddr) && p.direct
      modifies table`place, table.memory, table.memory.modules, table.memory.Bitmaps()
      ensures table.Valid()
      ensures MapList(old(table.State()), p.base / PAGE_SIZE, R.Listed(p, paddr), R.Protections(p))
           == Some(table.State())
    {
      hide Walk, MapList, SpaceOk, PageNumber;
      var pageCnt := (p.limit + PAGE_SIZE - 1) / PAGE_SIZE;
      UserPage(table.depth, p.base);
      R.ProtectionsOk(p);
      var permissions := TranslateProtections(p);
      MapFrames(table, p.base, paddr[..pageCnt], permissions);
    }

    /** Maps the pages of a portal that is direct. */
    method MapIfDirect(p: Q.Portal, paddr: seq<nat>)
      requires CanServe(p, paddr)
      modifies table`place, table.memory, table.memory.modules, table.memory.Bitmaps()
      ensures table.Valid()
      ensures MapList(old(table.State()), p.base / PAGE_SIZE, R.Listed(p, paddr), R.Protections(p))
           == Some(table.State())
    {
      hide Walk, MapList, SpaceOk, PageNumber, RangeMappable, Limit, R.Has, R.Protections;
      R.ProtectionsOk(p);
      SpaceOfState(State());
      if p.direct {
        HandleDirect(p, paddr);
      } else {
        NoFrames(table.State(), p.base / PAGE_SIZE, R.Protections(p));
      }
    }

    /** Enters a portal into the tree. */
    method Enter(p: Q.Portal, ghost frames: seq<nat>)
      modifies `root, `wired, `owner
      ensures root == Q.Insert(old(root), p)
      ensures wired == R.Wire(old(wired), p.base / PAGE_SIZE, frames)
      ensures owner == Filled(old(owner), p.base / PAGE_SIZE, |frames|, p)
    {
      root := Q.Insert(root, p);
      wired := R.Wire(wired, p.base / PAGE_SIZE, frames);
      owner := Filled(owner, p.base / PAGE_SIZE, |frames|, p);
    }

    /** Opens a portal: a direct one is mapped to the given frames at once. What is recorded of other
        portals stays right if none of the mapped pages is theirs. */
    method Portal(p: Q.Portal, paddr: seq<nat>)
      requires CanServe(p, paddr)
      modifies this, table`place, table.memory, table.memory.modules, table.memory.Bitmaps()
      ensures table.Valid() && State() == R.Opened(old(State()), p, R.Listed(p, paddr))
      ensures old(R.NoneRecorded(State(), p.base / PAGE_SIZE, |R.Listed(p, paddr)|)) ==> Valid()
    {
      hide Walk, MapList, SpaceOk, R.StateOk, R.Protections, R.NoneRecorded, R.CanOpen, Filled, R.Wire, Q.Insert;
      ghost var st, frames := State(), R.Listed(p, paddr);
      StaysOk(st, p, frames);
      MapIfDirect(p, paddr);
      ghost var s := table.State();
      Enter(p, frames);
      assert table.State() == s;
    }
  }
}
