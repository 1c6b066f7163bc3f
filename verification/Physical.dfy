/** The physical page allocator as values: bitmap modules, the chain they form, and the
    blocks handed out. Pages are page numbers; an address is a page number times 4 KiB. */
module Physical {
  import opened Words

  const PAGE_SIZE := 0x1000

  // ---------------------------------------------------------------- one module

  /** A bitmap module: `base` is a byte address, a true bit is a page in use. */
  datatype Module = Module(base: nat, bits: seq<bool>, lastFree: nat)

  ghost predicate ModuleOk(m: Module) {
    && m.base % PAGE_SIZE == 0
    && (m.lastFree == 0 || (m.lastFree < |m.bits| && !m.bits[m.lastFree]))
  }

  function First(m: Module): nat {
    m.base / PAGE_SIZE
  }

  /** The least multiple of `a` that is at least `x`. */
  function AlignUp(x: nat, a: nat): (r: nat)
    requires a > 0
  {
    (x + a - 1) / a * a
  }

  /** `cnt` clear bits from `i` on, inside the bitmap. */
  ghost predicate ClearRun(bits: seq<bool>, i: nat, cnt: nat) {
    i + cnt <= |bits| && forall j :: i <= j < i + cnt ==> !bits[j]
  }

  /** An aligned run of clear bits at or above the hint. */
  ghost predicate Candidate(m: Module, cnt: nat, align: nat, i: nat)
    requires align > 0
  {
    m.lastFree <= i && (First(m) + i) % align == 0 && ClearRun(m.bits, i, cnt)
  }

  ghost predicate Lowest(m: Module, cnt: nat, align: nat, i: nat)
    requires align > 0
  {
    Candidate(m, cnt, align, i) && forall j: nat :: j < i ==> !Candidate(m, cnt, align, j)
  }

  function WithRun(bits: seq<bool>, i: int, cnt: nat, value: bool): (r: seq<bool>)
    ensures |r| == |bits|
  {
    seq(|bits|, k requires 0 <= k < |bits| => if i <= k < i + cnt then value else bits[k])
  }

  /** The lowest clear bit from `z` on, or 0. */
  function NextClear(bits: seq<bool>, z: nat): (r: nat)
    ensures r == 0 || (z <= r < |bits| && !bits[r])
    ensures forall k :: z <= k < (if r == 0 && z != 0 then |bits| else r) ==> bits[k]
    decreases |bits| - z
  {
    if z >= |bits| then 0 else if !bits[z] then z else NextClear(bits, z + 1)
  }

  /** The first candidate from bit `i` on, trying every bit. */
  ghost function FirstCandidate(m: Module, cnt: nat, align: nat, i: nat): Option<nat>
    requires cnt > 0 && align > 0
    decreases |m.bits| - i
  {
    if i >= |m.bits| then None
    else if Candidate(m, cnt, align, i) then Some(i)
    else FirstCandidate(m, cnt, align, i + 1)
  }

  /** The specification of one module: hand out the first candidate, or fail unchanged. */
  ghost function ModuleAlloc(m: Module, cnt: nat, align: nat): (Option<nat>, Module)
    requires cnt > 0 && align > 0
  {
    match FirstCandidate(m, cnt, align, 0)
    case None => (None, m)
    case Some(i) =>
      var bits := WithRun(m.bits, i, cnt, true);
      (Some(First(m) + i), Module(m.base, bits, NextClear(bits, i + cnt - 1)))
  }

  /** The search finds the lowest candidate, and fails exactly when there is none at all. */
  lemma {:induction false} FirstCandidateIsLowest(m: Module, cnt: nat, align: nat, i: nat)
    requires cnt > 0 && align > 0
    requires forall j: nat :: j < i ==> !Candidate(m, cnt, align, j)
    ensures match FirstCandidate(m, cnt, align, i)
      case None => forall j: nat :: !Candidate(m, cnt, align, j)
      case Some(k) => Lowest(m, cnt, align, k)
    decreases |m.bits| - i
  {
    if i < |m.bits| && !Candidate(m, cnt, align, i) {
      FirstCandidateIsLowest(m, cnt, align, i + 1);
    }
  }

  /** There is at most one lowest candidate. */
  lemma LowestIsFirst(m: Module, cnt: nat, align: nat, i: nat)
    requires cnt > 0 && align > 0 && Lowest(m, cnt, align, i)
    ensures FirstCandidate(m, cnt, align, 0) == Some(i)
  {
    FirstCandidateIsLowest(m, cnt, align, 0);
  }

  // ---------------------------------------------------------------- the chain

  ghost predicate Contains(m: Module, p: nat) {
    First(m) <= p < First(m) + |m.bits|
  }

  ghost predicate Apart(m: Module, n: Module) {
    First(m) + |m.bits| <= First(n) || First(n) + |n.bits| <= First(m)
  }

  ghost predicate ChainOk(c: seq<Module>) {
    && (forall k :: 0 <= k < |c| ==> ModuleOk(c[k]))
    && (forall j, k :: 0 <= j < k < |c| ==> Apart(c[j], c[k]))
  }

  ghost predicate Used(m: Module, p: nat) {
    Contains(m, p) && m.bits[p - First(m)]
  }

  ghost predicate InUse(c: seq<Module>, p: nat) {
    exists k :: 0 <= k < |c| && Used(c[k], p)
  }

  ghost predicate IsFree(c: seq<Module>, p: nat) {
    exists k :: 0 <= k < |c| && Contains(c[k], p) && !Used(c[k], p)
  }

  /** The first module from `k` on that can serve the request. */
  ghost function FirstFit(c: seq<Module>, cnt: nat, align: nat, k: nat): (r: nat)
    requires cnt > 0 && align > 0 && k <= |c|
    ensures k <= r <= |c|
    ensures r < |c| ==> ModuleAlloc(c[r], cnt, align).0.Some?
    ensures forall j :: k <= j < r ==> ModuleAlloc(c[j], cnt, align).0.None?
    decreases |c| - k
  {
    if k == |c| || ModuleAlloc(c[k], cnt, align).0.Some? then k else FirstFit(c, cnt, align, k + 1)
  }

  ghost function ChainAlloc(c: seq<Module>, cnt: nat, align: nat): (Option<nat>, seq<Module>)
    requires cnt > 0 && align > 0
  {
    var k := FirstFit(c, cnt, align, 0);
    if k < |c| then
      var (r, m) := ModuleAlloc(c[k], cnt, align);
      (r, c[k := m])
    else (None, c)
  }

  function DivRoundUp(x: nat, a: nat): nat
    requires a > 0
  {
    (x + a - 1) / a
  }

  /** The least number of blocks of size `a` that hold `x`. */
  lemma DivRoundUpIsLeast(x: nat, a: nat)
    requires a > 0
    ensures x <= DivRoundUp(x, a) * a < x + a
  {
  }

  /** The guard of the free routine: it compares the module's own base, not the freed one. */
  predicate Accepts(m: Module, base: nat, cnt: nat) {
    base >= m.base && m.base + cnt * PAGE_SIZE <= m.base + |m.bits| * PAGE_SIZE
  }

  function Route(c: seq<Module>, base: nat, cnt: nat, k: nat): (r: nat)
    requires k <= |c|
    ensures k <= r <= |c|
    ensures r < |c| ==> Accepts(c[r], base, cnt)
    ensures forall j :: k <= j < r ==> !Accepts(c[j], base, cnt)
    decreases |c| - k
  {
    if k == |c| || Accepts(c[k], base, cnt) then k else Route(c, base, cnt, k + 1)
  }

  /** Clearing bits; what lies past the end of the bitmap is not part of any module. */
  function ModuleFree(m: Module, offset: nat, cnt: nat): Module {
    m.(bits := WithRun(m.bits, DivRoundUp(offset, PAGE_SIZE), cnt, false))
  }

  function ChainFree(c: seq<Module>, base: nat, cnt: nat): seq<Module> {
    var k := Route(c, base, cnt, 0);
    if k < |c| then c[k := ModuleFree(c[k], base - c[k].base, cnt)] else c
  }

  // ---------------------------------------------------------------- live blocks

  /** `cnt` pages from `page` on. */
  datatype Block = Block(page: nat, cnt: nat)

  ghost predicate Covers(b: Block, p: nat) {
    b.page <= p < b.page + b.cnt
  }

  ghost predicate Separate(a: Block, b: Block) {
    a.page + a.cnt <= b.page || b.page + b.cnt <= a.page
  }

  ghost predicate Inside(b: Block, m: Module) {
    First(m) <= b.page && b.page + b.cnt <= First(m) + |m.bits|
  }

  ghost predicate Owned(live: set<Block>, p: nat) {
    exists b :: b in live && Covers(b, p)
  }

  ghost predicate Held(c: seq<Module>, b: Block) {
    exists k :: 0 <= k < |c| && Inside(b, c[k])
  }

  /** The allocator together with the blocks that are handed out and not yet returned. */
  datatype Pmm = Pmm(chain: seq<Module>, live: set<Block>)

  /** A bit is set exactly when its page belongs to a live block, and live blocks do not
      overlap, so it belongs to exactly one. */
  ghost predicate PmmOk(s: Pmm) {
    && ChainOk(s.chain)
    && (forall b {:trigger Held(s.chain, b)} :: b in s.live ==> b.cnt > 0 && Held(s.chain, b))
    && (forall a, b {:trigger Separate(a, b)} :: a in s.live && b in s.live && a != b ==> Separate(a, b))
    && (forall p: nat {:trigger InUse(s.chain, p)} :: InUse(s.chain, p) <==> Owned(s.live, p))
  }

  ghost function PmmAlloc(s: Pmm, cnt: nat, align: nat): (Option<nat>, Pmm)
    requires cnt > 0 && align > 0
  {
    var (r, c) := ChainAlloc(s.chain, cnt, align);
    if r.Some? then (r, Pmm(c, s.live + {Block(r.value, cnt)})) else (r, s)
  }

  ghost function PmmFree(s: Pmm, b: Block): Pmm {
    Pmm(ChainFree(s.chain, b.page * PAGE_SIZE, b.cnt), s.live - {b})
  }

  /** Module `k` holds the block, and no earlier module has a base at or below the block and at
      least as many pages as the block. */
  ghost predicate HeldFirst(c: seq<Module>, b: Block, k: nat) {
    && k < |c| && Inside(b, c[k])
    && forall j :: 0 <= j < k ==> !(First(c[j]) <= b.page && b.cnt <= |c[j].bits|)
  }

  /** The free routine picks the module that holds the block. */
  ghost predicate RoutedRight(c: seq<Module>, b: Block) {
    exists k: nat :: HeldFirst(c, b, k)
  }

  // ---------------------------------------------------------------- what the steps do

  /** Block `b` of module `m` turns from free to used; nothing else changes. */
  ghost predicate Takes(m: Module, m': Module, b: Block) {
    && ModuleOk(m') && m'.base == m.base && |m'.bits| == |m.bits|
    && Inside(b, m)
    && (forall p: nat :: Used(m', p) <==> Used(m, p) || Covers(b, p))
    && (forall p: nat :: Covers(b, p) ==> !Used(m, p))
  }

  lemma NewHintOk(bits: seq<bool>, z: nat)
    ensures NextClear(bits, z) == 0 || (NextClear(bits, z) < |bits| && !bits[NextClear(bits, z)])
  {
  }

  lemma MarkTakes(m: Module, cnt: nat, align: nat, i: nat)
    requires ModuleOk(m) && cnt > 0 && align > 0 && Candidate(m, cnt, align, i)
    ensures var bits := WithRun(m.bits, i, cnt, true);
      Takes(m, Module(m.base, bits, NextClear(bits, i + cnt - 1)), Block(First(m) + i, cnt))
  {
    hide NextClear;
    var bits := WithRun(m.bits, i, cnt, true);
    NewHintOk(bits, i + cnt - 1);
    var m' := Module(m.base, bits, NextClear(bits, i + cnt - 1));
    forall p: nat ensures Used(m', p) <==> Used(m, p) || Covers(Block(First(m) + i, cnt), p) {
    }
  }

  /** The hint is the first free page at or above `end`, or 0 if all of them are in use. */
  ghost predicate HintsAt(m: Module, end: nat) {
    if m.lastFree == 0 then forall k :: end <= k < |m.bits| ==> m.bits[k]
    else end <= m.lastFree < |m.bits| && !m.bits[m.lastFree] && forall k :: end <= k < m.lastFree ==> m.bits[k]
  }

  lemma NewHintAt(m: Module, cnt: nat, i: nat)
    requires cnt > 0 && i + cnt <= |m.bits|
    ensures var bits := WithRun(m.bits, i, cnt, true);
      HintsAt(Module(m.base, bits, NextClear(bits, i + cnt - 1)), i + cnt)
  {
    var bits, last := WithRun(m.bits, i, cnt, true), i + cnt - 1;
    assert bits[last];
    assert NextClear(bits, last) == NextClear(bits, last + 1);
  }

  /** One module: the block is aligned and was free, and the hint then is the first free page behind
      it; failure means there was no candidate. */
  lemma ModuleAllocEffect(m: Module, cnt: nat, align: nat)
    requires ModuleOk(m) && cnt > 0 && align > 0
    ensures var (r, m') := ModuleAlloc(m, cnt, align);
      && (r.None? ==> m' == m && forall i: nat :: !Candidate(m, cnt, align, i))
      && (r.Some? ==> r.value % align == 0 && Takes(m, m', Block(r.value, cnt))
                      && First(m) <= r.value && HintsAt(m', r.value - First(m) + cnt))
  {
    hide Takes, NextClear, WithRun, HintsAt;
    FirstCandidateIsLowest(m, cnt, align, 0);
    if FirstCandidate(m, cnt, align, 0).Some? {
      MarkTakes(m, cnt, align, FirstCandidate(m, cnt, align, 0).value);
      NewHintAt(m, cnt, FirstCandidate(m, cnt, align, 0).value);
    }
  }

  lemma ChainTakes(c: seq<Module>, k: nat, m': Module, b: Block)
    requires ChainOk(c) && k < |c| && Takes(c[k], m', b)
    ensures ChainOk(c[k := m'])
    ensures forall p: nat :: InUse(c[k := m'], p) <==> InUse(c, p) || Covers(b, p)
    ensures forall p: nat :: Covers(b, p) ==> !InUse(c, p)
  {
    var c' := c[k := m'];
    forall p: nat ensures InUse(c', p) <==> InUse(c, p) || Covers(b, p) {
      if j :| 0 <= j < |c| && Used(c[j], p) {
        assert Used(c'[j], p);
      }
      if Covers(b, p) {
        assert Used(c'[k], p);
      }
    }
  }

  lemma OwnedPlus(live: set<Block>, n: Block, p: nat)
    ensures Owned(live + {n}, p) <==> Owned(live, p) || Covers(n, p)
  {
    if b :| b in live && Covers(b, p) {
      assert b in live + {n};
    }
    assert n in live + {n};
  }

  lemma HeldSame(c: seq<Module>, k: nat, m': Module, b: Block)
    requires k < |c| && m'.base == c[k].base && |m'.bits| == |c[k].bits|
    ensures Held(c[k := m'], b) <==> Held(c, b)
  {
    var c' := c[k := m'];
    if j :| 0 <= j < |c| && Inside(b, c[j]) {
      assert Inside(b, c'[j]);
    }
    if j :| 0 <= j < |c'| && Inside(b, c'[j]) {
      assert Inside(b, c[j]);
    }
  }

  lemma TakeKeepsOk(s: Pmm, k0: nat, m': Module, n: Block)
    requires PmmOk(s) && k0 < |s.chain| && Takes(s.chain[k0], m', n) && n.cnt > 0
    ensures PmmOk(Pmm(s.chain[k0 := m'], s.live + {n}))
    ensures n !in s.live && forall b :: b in s.live ==> Separate(b, n)
  {
    ChainTakes(s.chain, k0, m', n);
    var s' := Pmm(s.chain[k0 := m'], s.live + {n});
    forall b | b in s.live ensures Separate(b, n) {
      assert Held(s.chain, b);
      var p := if b.page >= n.page then b.page else n.page;
      assert Covers(b, p) ==> Owned(s.live, p);
      assert InUse(s.chain, p) <==> Owned(s.live, p);
    }
    forall p: nat ensures InUse(s'.chain, p) <==> Owned(s'.live, p) {
      OwnedPlus(s.live, n, p);
      assert InUse(s.chain, p) <==> Owned(s.live, p);
    }
    forall b | b in s'.live ensures b.cnt > 0 && Held(s'.chain, b) {
      HeldSame(s.chain, k0, m', b);
    }
  }

  lemma AllocKeepsOk(s: Pmm, cnt: nat, align: nat)
    requires PmmOk(s) && cnt > 0 && align > 0
    ensures var (r, s') := PmmAlloc(s, cnt, align);
      && PmmOk(s')
      && (r.Some? ==>
            && r.value % align == 0
            && Block(r.value, cnt) !in s.live
            && forall b :: b in s.live ==> Separate(b, Block(r.value, cnt)))
  {
    var k0 := FirstFit(s.chain, cnt, align, 0);
    if k0 < |s.chain| {
      var (r, m') := ModuleAlloc(s.chain[k0], cnt, align);
      ModuleAllocEffect(s.chain[k0], cnt, align);
      var n := Block(r.value, cnt);
      ChainTakes(s.chain, k0, m', n);
      TakeKeepsOk(s, k0, m', n);
    }
  }

  /** Block `b` of module `m` turns free; nothing else changes. */
  ghost predicate Gives(m: Module, m': Module, b: Block) {
    && ModuleOk(m') && m'.base == m.base && |m'.bits| == |m.bits|
    && Inside(b, m)
    && (forall p: nat :: Used(m', p) <==> Used(m, p) && !Covers(b, p))
  }

  lemma ModuleFreeEffect(m: Module, b: Block)
    requires ModuleOk(m) && Inside(b, m)
    ensures Gives(m, ModuleFree(m, b.page * PAGE_SIZE - m.base, b.cnt), b)
  {
    assert DivRoundUp(b.page * PAGE_SIZE - m.base, PAGE_SIZE) == b.page - First(m);
  }

  /** On page-aligned modules the guard compares page counts and first pages. */
  lemma AcceptsPages(m: Module, b: Block)
    requires ModuleOk(m)
    ensures Accepts(m, b.page * PAGE_SIZE, b.cnt) <==> First(m) <= b.page && b.cnt <= |m.bits|
  {
  }

  lemma RouteFinds(c: seq<Module>, b: Block, k: nat)
    requires ChainOk(c) && k < |c| && Inside(b, c[k])
    ensures Route(c, b.page * PAGE_SIZE, b.cnt, 0) == k <==> HeldFirst(c, b, k)
    ensures Route(c, b.page * PAGE_SIZE, b.cnt, 0) < |c|
  {
    forall j | 0 <= j <= k
      ensures Accepts(c[j], b.page * PAGE_SIZE, b.cnt) <==> First(c[j]) <= b.page && b.cnt <= |c[j].bits|
    {
      AcceptsPages(c[j], b);
    }
  }

  lemma ChainFreeEffect(c: seq<Module>, b: Block) returns (k: nat, m': Module)
    requires ChainOk(c) && RoutedRight(c, b)
    ensures HeldFirst(c, b, k) && Gives(c[k], m', b)
    ensures ChainFree(c, b.page * PAGE_SIZE, b.cnt) == c[k := m']
  {
    k :| HeldFirst(c, b, k);
    RouteFinds(c, b, k);
    ModuleFreeEffect(c[k], b);
    m' := ModuleFree(c[k], b.page * PAGE_SIZE - c[k].base, b.cnt);
  }

  lemma ChainGives(c: seq<Module>, k: nat, m': Module, b: Block)
    requires ChainOk(c) && k < |c| && Gives(c[k], m', b)
    ensures ChainOk(c[k := m'])
    ensures forall p: nat :: InUse(c[k := m'], p) <==> InUse(c, p) && !Covers(b, p)
  {
    var c' := c[k := m'];
    forall p: nat ensures InUse(c', p) <==> InUse(c, p) && !Covers(b, p) {
      if j :| 0 <= j < |c| && Used(c[j], p) && !Covers(b, p) {
        assert Used(c'[j], p);
      }
      if j :| 0 <= j < |c| && Used(c'[j], p) {
        assert Used(c[j], p);
      }
    }
  }

  lemma OwnedMinus(live: set<Block>, n: Block, p: nat)
    requires n in live && forall b :: b in live && b != n ==> Separate(b, n)
    ensures Owned(live - {n}, p) <==> Owned(live, p) && !Covers(n, p)
  {
    if b :| b in live && Covers(b, p) && b != n {
      assert b in live - {n};
    }
  }

  lemma GiveKeepsOk(s: Pmm, k: nat, m': Module, n: Block)
    requires PmmOk(s) && k < |s.chain| && Gives(s.chain[k], m', n) && n in s.live
    ensures PmmOk(Pmm(s.chain[k := m'], s.live - {n}))
  {
    ChainGives(s.chain, k, m', n);
    forall p: nat ensures InUse(s.chain[k := m'], p) <==> Owned(s.live - {n}, p) {
      assert forall b :: b in s.live && b != n ==> Separate(b, n);
      OwnedMinus(s.live, n, p);
      assert InUse(s.chain, p) <==> Owned(s.live, p);
    }
    forall b | b in s.live - {n} ensures b.cnt > 0 && Held(s.chain[k := m'], b) {
      HeldSame(s.chain, k, m', b);
    }
  }

  /** A correctly routed free of a live block keeps the bookkeeping exact. */
  lemma FreeKeepsOk(s: Pmm, b: Block)
    requires PmmOk(s) && b in s.live && RoutedRight(s.chain, b)
    ensures PmmOk(PmmFree(s, b))
  {
    var k, m' := ChainFreeEffect(s.chain, b);
    GiveKeepsOk(s, k, m', b);
    assert PmmFree(s, b) == Pmm(s.chain[k := m'], s.live - {b});
  }

  // ---------------------------------------------------------------- whole runs

  datatype Request = Allocate(cnt: nat, align: nat) | Release(b: Block)

  ghost predicate Allowed(s: Pmm, r: Request) {
    match r
    case Allocate(cnt, align) => cnt > 0 && align > 0
    case Release(b) => b in s.live && RoutedRight(s.chain, b)
  }

  ghost function Perform(s: Pmm, r: Request): Pmm
    requires Allowed(s, r)
  {
    match r
    case Allocate(cnt, align) => PmmAlloc(s, cnt, align).1
    case Release(b) => PmmFree(s, b)
  }

  ghost predicate AllAllowed(s: Pmm, rs: seq<Request>)
    decreases |rs|
  {
    rs == [] || (Allowed(s, rs[0]) && AllAllowed(Perform(s, rs[0]), rs[1..]))
  }

  ghost function PerformAll(s: Pmm, rs: seq<Request>): Pmm
    requires AllAllowed(s, rs)
    decreases |rs|
  {
    if rs == [] then s else PerformAll(Perform(s, rs[0]), rs[1..])
  }

  /** Disjoint page-aligned modules with clear bitmaps and no hint are a good start. */
  lemma FreshPmmOk(c: seq<Module>)
    requires forall k :: 0 <= k < |c| ==> c[k].base % PAGE_SIZE == 0 && c[k].lastFree == 0 && true !in c[k].bits
    requires forall j, k :: 0 <= j < k < |c| ==> Apart(c[j], c[k])
    ensures PmmOk(Pmm(c, {}))
  {
    forall p: nat ensures !InUse(c, p) {
    }
  }

  /** Every run of allocations and correctly routed frees keeps the bookkeeping exact. */
  lemma {:induction false} RunKeepsOk(s: Pmm, rs: seq<Request>)
    requires PmmOk(s) && AllAllowed(s, rs)
    ensures PmmOk(PerformAll(s, rs))
    decreases |rs|
  {
    if rs != [] {
      match rs[0] {
        case Allocate(cnt, align) => AllocKeepsOk(s, cnt, align);
        case Release(b) => FreeKeepsOk(s, b);
      }
      RunKeepsOk(Perform(s, rs[0]), rs[1..]);
    }
  }

  // ---------------------------------------------------------------- alloc then free

  ghost predicate SameBitmaps(c: seq<Module>, c': seq<Module>) {
    |c'| == |c| && forall k :: 0 <= k < |c| ==> c'[k].bits == c[k].bits
  }

  lemma TakeThenGive(m: Module, m': Module, m'': Module, b: Block)
    requires Takes(m, m', b) && Gives(m', m'', b)
    ensures m''.bits == m.bits
  {
    forall i | 0 <= i < |m.bits| ensures m''.bits[i] == m.bits[i] {
      assert Used(m'', First(m) + i) == Used(m, First(m) + i);
    }
  }

  lemma FreeUndoesTake(c: seq<Module>, k: nat, m': Module, b: Block)
    requires ChainOk(c) && k < |c| && Takes(c[k], m', b) && b.cnt > 0
    ensures SameBitmaps(c, ChainFree(c[k := m'], b.page * PAGE_SIZE, b.cnt)) <==>
      forall j :: 0 <= j < k ==> !(First(c[j]) <= b.page && b.cnt <= |c[j].bits|)
  {
    var c' := c[k := m'];
    ChainTakes(c, k, m', b);
    RouteFinds(c', b, k);
    var c'' := ChainFree(c', b.page * PAGE_SIZE, b.cnt);
    if HeldFirst(c', b, k) {
      var k', m'' := ChainFreeEffect(c', b);
      assert k' == k;
      TakeThenGive(c[k], m', m'', b);
    } else {
      assert c''[k] == m';
      assert Covers(b, b.page) && Used(m', b.page) && !Used(c[k], b.page);
    }
  }

  /** Freeing what was just allocated restores every bitmap if and only if no module before the
      one that served the request has a base at or below the block and at least `cnt` pages. */
  lemma FreeUndoesAlloc(c: seq<Module>, cnt: nat, align: nat)
    requires ChainOk(c) && cnt > 0 && align > 0 && ChainAlloc(c, cnt, align).0.Some?
    ensures var (r, c') := ChainAlloc(c, cnt, align);
      SameBitmaps(c, ChainFree(c', r.value * PAGE_SIZE, cnt)) <==>
      forall j :: 0 <= j < FirstFit(c, cnt, align, 0) ==>
        !(First(c[j]) <= r.value && cnt <= |c[j].bits|)
  {
    var k := FirstFit(c, cnt, align, 0);
    ModuleAllocEffect(c[k], cnt, align);
    var (r, m') := ModuleAlloc(c[k], cnt, align);
    FreeUndoesTake(c, k, m', Block(r.value, cnt));
  }

  /** With one module the round trip always holds. */
  lemma FreeUndoesAllocInOneModule(m: Module, cnt: nat, align: nat)
    requires ModuleOk(m) && cnt > 0 && align > 0 && ChainAlloc([m], cnt, align).0.Some?
    ensures var (r, c') := ChainAlloc([m], cnt, align);
      SameBitmaps([m], ChainFree(c', r.value * PAGE_SIZE, cnt))
  {
    FreeUndoesAlloc([m], cnt, align);
  }

  /** With two modules it can fail: the lower one takes the free of the upper one's page. */
  lemma FreeCanMissItsModule()
    ensures var low, high := Module(0x10_0000, [true], 0), Module(0x10_1000, [false], 0);
      var c := [low, high];
      && ChainOk(c) && ChainAlloc(c, 1, 1).0 == Some(0x101)
      && !SameBitmaps(c, ChainFree(ChainAlloc(c, 1, 1).1, 0x10_1000, 1))
  {
    var low, high := Module(0x10_0000, [true], 0), Module(0x10_1000, [false], 0);
    var c := [low, high];
    assert First(low) == 0x100 && First(high) == 0x101;
    assert Candidate(high, 1, 1, 0) && low.bits[0];
    assert FirstFit(c, 1, 1, 0) == 1;
    FreeUndoesAlloc(c, 1, 1);
    assert First(c[0]) <= 0x101 && 1 <= |c[0].bits|;
  }

  // ---------------------------------------------------------------- single pages

  /** A request for one page succeeds exactly when some page is free: the hint never hides one. */
  lemma OnePageSucceeds(s: Pmm)
    requires PmmOk(s)
    ensures PmmAlloc(s, 1, 1).0.Some? <==> exists p: nat :: IsFree(s.chain, p)
  {
    var c := s.chain;
    var k := FirstFit(c, 1, 1, 0);
    if k < |c| {
      ModuleAllocEffect(c[k], 1, 1);
      var p := ModuleAlloc(c[k], 1, 1).0.value;
      assert Covers(Block(p, 1), p);
      assert IsFree(c, p);
    } else if p: nat :| IsFree(c, p) {
      var j :| 0 <= j < |c| && Contains(c[j], p) && !Used(c[j], p);
      var i := if c[j].lastFree == 0 then p - First(c[j]) else c[j].lastFree;
      ModuleAllocEffect(c[j], 1, 1);
      assert Candidate(c[j], 1, 1, i);
    }
  }

  // ---------------------------------------------------------------- counting free pages

  function ClearBits(bits: seq<bool>): nat {
    if bits == [] then 0 else (if bits[0] then 0 else 1) + ClearBits(bits[1..])
  }

  /** The number of clear bits in the whole chain. */
  function FreePages(c: seq<Module>): nat {
    if c == [] then 0 else ClearBits(c[0].bits) + FreePages(c[1..])
  }

  lemma {:induction false} ClearBitsSet(bits: seq<bool>, i: nat)
    requires i < |bits| && !bits[i]
    ensures ClearBits(bits[i := true]) + 1 == ClearBits(bits)
  {
    if i == 0 {
      assert bits[0 := true][1..] == bits[1..];
    } else {
      assert bits[i := true][1..] == bits[1..][i - 1 := true];
      ClearBitsSet(bits[1..], i - 1);
    }
  }

  lemma {:induction false} FreePagesUpdate(c: seq<Module>, k: nat, m: Module)
    requires k < |c|
    ensures FreePages(c[k := m]) + ClearBits(c[k].bits) == FreePages(c) + ClearBits(m.bits)
  {
    if k == 0 {
      assert c[0 := m][1..] == c[1..];
    } else {
      assert c[k := m][1..] == c[1..][k - 1 := m];
      FreePagesUpdate(c[1..], k - 1, m);
    }
  }

  lemma {:induction false} SomeClearBit(bits: seq<bool>)
    ensures ClearBits(bits) > 0 <==> exists i :: 0 <= i < |bits| && !bits[i]
  {
    if bits != [] {
      SomeClearBit(bits[1..]);
      if i :| 0 <= i < |bits| && !bits[i] {
        assert i > 0 ==> !bits[1..][i - 1];
      }
      if i :| 0 <= i < |bits[1..]| && !bits[1..][i] {
        assert !bits[i + 1];
      }
    }
  }

  lemma {:induction false} SomeFreeModule(c: seq<Module>)
    ensures FreePages(c) > 0 <==> exists k :: 0 <= k < |c| && ClearBits(c[k].bits) > 0
  {
    if c != [] {
      SomeFreeModule(c[1..]);
      if k :| 0 <= k < |c| && ClearBits(c[k].bits) > 0 {
        assert k > 0 ==> c[1..][k - 1] == c[k];
      }
      if k :| 0 <= k < |c[1..]| && ClearBits(c[1..][k].bits) > 0 {
        assert c[k + 1] == c[1..][k];
      }
    }
  }

  lemma SomePageFree(c: seq<Module>)
    ensures FreePages(c) > 0 <==> exists p: nat :: IsFree(c, p)
  {
    SomeFreeModule(c);
    if p: nat :| IsFree(c, p) {
      var k :| 0 <= k < |c| && Contains(c[k], p) && !Used(c[k], p);
      assert !c[k].bits[p - First(c[k])];
      SomeClearBit(c[k].bits);
    }
    if k :| 0 <= k < |c| && ClearBits(c[k].bits) > 0 {
      SomeClearBit(c[k].bits);
      var i :| 0 <= i < |c[k].bits| && !c[k].bits[i];
      assert Contains(c[k], First(c[k]) + i) && !Used(c[k], First(c[k]) + i);
      assert IsFree(c, First(c[k]) + i);
    }
  }

  lemma OneBitTaken(m: Module)
    requires ModuleAlloc(m, 1, 1).0.Some?
    ensures ClearBits(ModuleAlloc(m, 1, 1).1.bits) + 1 == ClearBits(m.bits)
  {
    FirstCandidateIsLowest(m, 1, 1, 0);
    var i := FirstCandidate(m, 1, 1, 0).value;
    assert WithRun(m.bits, i, 1, true) == m.bits[i := true];
    ClearBitsSet(m.bits, i);
  }

  /** `n` requests, each for at most `d` pages. */
  function Times(n: nat, d: nat): nat {
    n * d
  }

  lemma TimesStep(n: nat, d: nat)
    ensures Times(n + 1, d) == Times(n, d) + d && Times(0, d) == 0
  {
  }

  lemma TimesAdd(m: nat, n: nat, d: nat)
    ensures Times(m + n, d) == Times(m, d) + Times(n, d)
  {
  }

  /** A request for one page succeeds exactly while free pages are left, and takes one of them. */
  lemma OnePageCounts(s: Pmm)
    requires PmmOk(s)
    ensures var (r, s') := PmmAlloc(s, 1, 1);
      && (r.Some? <==> FreePages(s.chain) > 0)
      && (r.Some? ==> FreePages(s'.chain) + 1 == FreePages(s.chain))
  {
    OnePageSucceeds(s);
    SomePageFree(s.chain);
    var k := FirstFit(s.chain, 1, 1, 0);
    if k < |s.chain| {
      OneBitTaken(s.chain[k]);
      FreePagesUpdate(s.chain, k, ModuleAlloc(s.chain[k], 1, 1).1);
    }
  }

  lemma {:induction false} AllClear(bits: seq<bool>)
    requires true !in bits
    ensures ClearBits(bits) == |bits|
  {
    if bits != [] {
      AllClear(bits[1..]);
    }
  }
}
