/** The processor boot chain as a machine of interleaved steps: each processor starts the next one
    of the list, handing it a parameter block and a lock that the started processor releases. */
module SmpBoot {

  /** What a started processor needs. */
  datatype Item = Stack | Tables | EntryPoint | Local | Interrupts | Mode

  /** A word of the parameter block: who wrote it, for which processor, and what it is. */
  datatype Tag = Tag(starter: int, target: int, item: Item)

  /** Who started whom. */
  datatype Start = Start(starter: int, target: int)

  const WORDS := 6

  /** What the starter writes, word by word. */
  const LAYOUT := [Stack, Tables, EntryPoint, Local, Interrupts, Mode]

  /** The order in which the trampoline reads the words, and what it takes each of them for: first the
      page tables for the control register, then the paging mode, the interrupt table, the stack, the
      address to jump to and the processor data. */
  const ORDER := [1, 5, 4, 0, 2, 3]
  const USES := [Tables, Mode, Interrupts, Stack, EntryPoint, Local]

  /** Where a processor is. `Counting` has read the counter and not yet written it back; `Locating`
      has read it once for the list entry and not yet for the processor data. */
  datatype Phase =
    | Off
    | Reading(k: nat)
    | Entered
    | Released
    | Counting(v: nat)
    | Checking
    | Picking
    | Locating(m: nat)
    | Locking(m: nat, l: nat)
    | Writing(m: nat, l: nat, k: nat)
    | Waking(m: nat)
    | Waiting
    | Unlocking
    | Unmapping
    | Done

  /** The shared state: `cnt` is the number of running processors, `lock` the boot lock, `mapped`
      the low page; `log` records who started whom, `got` what each trampoline has read. */
  datatype Boot = Boot(
    apic: seq<nat>,
    pc: seq<Phase>,
    cnt: nat,
    lock: bool,
    params: seq<Tag>,
    mapped: bool,
    log: seq<Start>,
    got: seq<seq<Tag>>)

  ghost predicate Distinct(apic: seq<nat>) {
    forall i, j :: 0 <= i < j < |apic| ==> apic[i] != apic[j]
  }

  /** The boot processor is the first of the list and enters the chain; the others are off. */
  ghost predicate Init(s: Boot) {
    && |s.apic| >= 1 && Distinct(s.apic)
    && |s.pc| == |s.apic| && s.pc[0] == Checking && (forall i :: 0 < i < |s.pc| ==> s.pc[i] == Off)
    && s.cnt == 0 && !s.lock && |s.params| == WORDS && s.mapped && s.log == []
    && |s.got| == |s.apic| && forall i :: 0 <= i < |s.got| ==> s.got[i] == []
  }

  ghost predicate Shaped(s: Boot) {
    |s.pc| == |s.apic| == |s.got| && |s.params| == WORDS
  }

  // ---------------------------------------------------------------- steps

  ghost predicate Enabled(s: Boot, c: nat) {
    && Shaped(s) && c < |s.apic|
    && match s.pc[c]
       case Off => false
       case Done => false
       case Locking(_, _) => !s.lock
       case Waiting => !s.lock
       case Reading(k) => k <= WORDS
       case Writing(_, _, k) => k <= WORDS
       case Locating(m) => m < |s.apic|
       case Waking(m) => m < |s.apic|
       case _ => true
  }

  /** The start-up message reaches the processor with the given id. */
  ghost function Wake(pc: seq<Phase>, apic: seq<nat>, id: nat): (r: seq<Phase>)
    requires |pc| == |apic|
    ensures |r| == |pc| && forall i :: 0 <= i < |r| ==> r[i] == if apic[i] == id then Reading(0) else pc[i]
  {
    seq(|pc|, i requires 0 <= i < |pc| => if apic[i] == id then Reading(0) else pc[i])
  }

  ghost function Next(s: Boot, c: nat): Boot
    requires Enabled(s, c)
  {
    match s.pc[c]
    case Reading(k) =>
      if k < WORDS then s.(pc := s.pc[c := Reading(k + 1)], got := s.got[c := s.got[c] + [s.params[ORDER[k]]]])
      else s.(pc := s.pc[c := Entered])
    case Entered => s.(pc := s.pc[c := Released], lock := false)
    case Released => s.(pc := s.pc[c := Counting(s.cnt)])
    case Counting(v) => s.(pc := s.pc[c := Checking], cnt := v + 1)
    case Checking => s.(pc := s.pc[c := if s.cnt >= |s.apic| then Unmapping else Picking])
    case Picking => s.(pc := s.pc[c := Locating(s.cnt)])
    case Locating(m) => s.(pc := s.pc[c := if s.apic[m] == s.apic[c] then Released else Locking(m, s.cnt)])
    case Locking(m, l) => s.(pc := s.pc[c := Writing(m, l, 0)], lock := true)
    case Writing(m, l, k) =>
      if k < WORDS then s.(pc := s.pc[c := Writing(m, l, k + 1)], params := s.params[k := Tag(c, l, LAYOUT[k])])
      else s.(pc := s.pc[c := Waking(m)])
    case Waking(m) =>
      s.(pc := Wake(s.pc, s.apic, s.apic[m])[c := Waiting], log := s.log + [Start(c, m)])
    case Waiting => s.(pc := s.pc[c := Unlocking], lock := true)
    case Unlocking => s.(pc := s.pc[c := Done], lock := false)
    case Unmapping => s.(pc := s.pc[c := Done], mapped := false)
    case Off => s
    case Done => s
  }

  // ---------------------------------------------------------------- the invariant

  /** Phases of the one processor that carries the chain on. */
  predicate Active(p: Phase) {
    !(p.Off? || p.Waiting? || p.Unlocking? || p.Done?)
  }

  /** Phases between taking the lock for a start and the started processor's release. */
  predicate HandOff(p: Phase) {
    p.Writing? || p.Waking? || p.Reading? || p.Entered?
  }

  /** The processor started last: it carries the chain on, until it has unmapped the low page. */
  function Front(s: Boot): nat {
    |s.log|
  }

  /** The counter and the choices made from it, for the processor that carries the chain on. */
  ghost predicate Counted(s: Boot) {
    var a := Front(s);
    a < |s.pc| &&
    match s.pc[a]
    case Reading(k) => a > 0 && k <= WORDS && s.cnt == a
    case Entered => a > 0 && s.cnt == a
    case Released => s.cnt == a
    case Counting(v) => v == s.cnt == a
    case Checking => s.cnt == a + 1 || a == s.cnt == 0
    case Picking => (s.cnt == a + 1 || a == s.cnt == 0) && s.cnt < |s.apic|
    case Locating(m) => m == s.cnt < |s.apic| && (s.cnt == a + 1 || a == s.cnt == 0)
    case Locking(m, l) => m == l == s.cnt == a + 1 < |s.apic|
    case Writing(m, l, k) => m == l == s.cnt == a + 1 < |s.apic| && k <= WORDS
    case Waking(m) => m == s.cnt == a + 1 < |s.apic|
    case Unmapping => s.cnt == a + 1 == |s.apic|
    case Done => s.cnt == a + 1 == |s.apic|
    case _ => false
  }

  /** The parameter block holds what the current starter wrote for the current target. */
  ghost predicate Block(s: Boot) {
    var a := Front(s);
    a < |s.pc| && |s.params| == WORDS &&
    match s.pc[a]
    case Writing(m, l, k) => forall j :: 0 <= j < k && j < WORDS ==> s.params[j] == Tag(a, a + 1, LAYOUT[j])
    case Waking(_) => forall j :: 0 <= j < WORDS ==> s.params[j] == Tag(a, a + 1, LAYOUT[j])
    case Reading(k) => forall j :: 0 <= j < WORDS ==> s.params[j] == Tag(a - 1, a, LAYOUT[j])
    case _ => true
  }

  /** What processor `i` has read came from the processor before it, for it, and is what it is taken
      for. */
  ghost predicate GotOwn(s: Boot, i: nat)
    requires i < |s.got|
  {
    forall j :: 0 <= j < |s.got[i]| && j < WORDS ==> s.got[i][j] == Tag(i - 1, i, USES[j])
  }

  /** Everyone before the front has handed on, everyone after it is off, and each was started by
      the one before it. */
  ghost predicate Chained(s: Boot) {
    var a := Front(s);
    && a < |s.pc|
    && (forall i :: 0 <= i < a ==> s.pc[i].Waiting? || s.pc[i].Unlocking? || s.pc[i].Done?)
    && (forall i :: a < i < |s.pc| ==> s.pc[i] == Off)
    && (forall i :: 0 <= i < |s.log| ==> s.log[i] == Start(i, i + 1))
    && (s.mapped <==> !s.pc[a].Done?)
    && (s.pc[a].Reading? || s.pc[a].Entered? ==> a > 0 && s.pc[a - 1].Waiting?)
  }

  ghost predicate SomeUnlocking(s: Boot) {
    exists i :: 0 <= i < |s.pc| && s.pc[i].Unlocking?
  }

  /** The lock is held for exactly one reason: a hand-off, or one starter on its way out. */
  ghost predicate Locked(s: Boot) {
    var a := Front(s);
    && a < |s.pc|
    && (forall i, j :: 0 <= i < |s.pc| && 0 <= j < |s.pc| && s.pc[i].Unlocking? && s.pc[j].Unlocking? ==> i == j)
    && (SomeUnlocking(s) ==> !HandOff(s.pc[a]))
    && (s.lock <==> HandOff(s.pc[a]) || SomeUnlocking(s))
  }

  ghost predicate Got(s: Boot, i: nat)
    requires i < |s.got| == |s.pc| && Front(s) < |s.pc|
  {
    var a := Front(s);
    GotOwn(s, i) && |s.got[i]| == if i == 0 || i > a then 0 else if i == a && s.pc[a].Reading? then s.pc[a].k else WORDS
  }

  ghost predicate AllGot(s: Boot) {
    |s.got| == |s.pc| && Front(s) < |s.pc| && forall i: nat :: i < |s.got| ==> Got(s, i)
  }

  ghost predicate Inv(s: Boot) {
    Shaped(s) && Distinct(s.apic) && Counted(s) && Block(s) && Chained(s) && Locked(s) && AllGot(s)
  }

  lemma InitInv(s: Boot)
    requires Init(s)
    ensures Inv(s)
  {
    forall i: nat | i < |s.got| ensures Got(s, i) {
    }
  }

  /** Only the front and the starters before it can move. */
  lemma Movers(s: Boot, c: nat)
    requires Inv(s) && Enabled(s, c)
    ensures if c == Front(s) then Active(s.pc[c]) else c < Front(s) && (s.pc[c].Waiting? || s.pc[c].Unlocking?)
  {
  }

  lemma FrontCounted(s: Boot)
    requires Inv(s) && Enabled(s, Front(s))
    ensures Shaped(Next(s, Front(s))) && Counted(Next(s, Front(s)))
  {
    hide AllGot, Locked, Block;
    Movers(s, Front(s));
  }

  lemma FrontBlock(s: Boot)
    requires Inv(s) && Enabled(s, Front(s))
    ensures Block(Next(s, Front(s)))
  {
    hide AllGot, Locked;
    Movers(s, Front(s));
  }

  lemma StarterCounted(s: Boot, c: nat)
    requires Inv(s) && Enabled(s, c) && c != Front(s)
    ensures Shaped(Next(s, c)) && Counted(Next(s, c)) && Block(Next(s, c))
  {
    hide AllGot, Locked, Distinct;
    Movers(s, c);
  }

  lemma NextCounted(s: Boot, c: nat)
    requires Inv(s) && Enabled(s, c)
    ensures Shaped(Next(s, c)) && Counted(Next(s, c)) && Block(Next(s, c))
  {
    hide Inv, Next, Counted, Block, Shaped;
    if c == Front(s) {
      FrontCounted(s);
      FrontBlock(s);
    } else {
      StarterCounted(s, c);
    }
  }

  lemma WakerChained(s: Boot)
    requires Inv(s) && Enabled(s, Front(s)) && s.pc[Front(s)].Waking?
    ensures Chained(Next(s, Front(s)))
  {
    hide AllGot, Block, Locked;
  }

  lemma NextChained(s: Boot, c: nat)
    requires Inv(s) && Enabled(s, c)
    ensures Chained(Next(s, c))
  {
    hide AllGot, Block;
    Movers(s, c);
    if s.pc[c].Waking? {
      WakerChained(s);
    }
  }

  /** A step of the front leaves the starters that are on their way out alone. */
  lemma FrontKeepsUnlocking(s: Boot)
    requires Inv(s) && Enabled(s, Front(s))
    ensures var s' := Next(s, Front(s));
      && |s'.pc| == |s.pc| && (forall i :: 0 <= i < |s.pc| ==> (s'.pc[i].Unlocking? <==> s.pc[i].Unlocking?))
      && (SomeUnlocking(s') <==> SomeUnlocking(s))
  {
    hide AllGot, Block, Locked;
    var s' := Next(s, Front(s));
    Movers(s, Front(s));
    assert forall i :: 0 <= i < |s.pc| ==> (s'.pc[i].Unlocking? <==> s.pc[i].Unlocking?);
    if i :| 0 <= i < |s.pc| && s.pc[i].Unlocking? {
      assert s'.pc[i].Unlocking?;
    }
  }

  /** The front moves on only when it wakes the next processor, and that is the next one. */
  lemma FrontStays(s: Boot, c: nat)
    requires Inv(s) && Enabled(s, c)
    ensures Front(Next(s, c)) == if s.pc[c].Waking? then Front(s) + 1 else Front(s)
    ensures Front(Next(s, c)) < |Next(s, c).pc| == |Next(s, c).got| == |s.got|
    ensures s.pc[c].Waking? ==> Next(s, c).pc[Front(s) + 1] == Reading(0) && Next(s, c).pc[Front(s)] == Waiting
  {
    hide Locked, AllGot, Block;
    Movers(s, c);
  }

  lemma FrontLocked(s: Boot)
    requires Inv(s) && Enabled(s, Front(s))
    ensures Locked(Next(s, Front(s)))
  {
    hide AllGot, Block;
    Movers(s, Front(s));
    FrontKeepsUnlocking(s);
    FrontStays(s, Front(s));
    hide SomeUnlocking, Counted, Distinct;
  }

  lemma StarterLocked(s: Boot, c: nat)
    requires Inv(s) && Enabled(s, c) && c < Front(s)
    ensures Locked(Next(s, c))
  {
    hide AllGot, Block, Counted;
    Movers(s, c);
    var s' := Next(s, c);
    assert s.pc[c].Waiting? ==> s'.pc[c].Unlocking?;
    assert SomeUnlocking(s') <==> s.pc[c].Waiting?;
  }

  lemma NextLocked(s: Boot, c: nat)
    requires Inv(s) && Enabled(s, c)
    ensures Locked(Next(s, c))
  {
    hide Inv, Next, Locked;
    Movers(s, c);
    if c == Front(s) {
      FrontLocked(s);
    } else {
      StarterLocked(s, c);
    }
  }

  lemma NextGotAt(s: Boot, c: nat, i: nat)
    requires Inv(s) && Enabled(s, c) && i < |s.got|
    ensures Front(Next(s, c)) < |Next(s, c).pc| == |Next(s, c).got| && i < |Next(s, c).got| && Got(Next(s, c), i)
  {
    hide Locked, Distinct, Counted;
    Movers(s, c);
    FrontStays(s, c);
    assert Got(s, i);
  }

  lemma NextGot(s: Boot, c: nat)
    requires Inv(s) && Enabled(s, c)
    ensures AllGot(Next(s, c))
  {
    hide Inv, Next, Got;
    FrontStays(s, c);
    forall i: nat | i < |Next(s, c).got| ensures Got(Next(s, c), i) {
      NextGotAt(s, c, i);
    }
  }

  lemma NextInv(s: Boot, c: nat)
    requires Inv(s) && Enabled(s, c)
    ensures Inv(Next(s, c))
  {
    NextCounted(s, c);
    NextChained(s, c);
    NextLocked(s, c);
    NextGot(s, c);
  }

  // ---------------------------------------------------------------- whole runs

  ghost predicate AllEnabled(s: Boot, cs: seq<nat>)
    decreases |cs|, 0
  {
    cs == [] || (AllEnabled(s, cs[..|cs| - 1]) && Enabled(Execute(s, cs[..|cs| - 1]), cs[|cs| - 1]))
  }

  /** The state after the processors have moved in the given order. */
  ghost function Execute(s: Boot, cs: seq<nat>): Boot
    requires AllEnabled(s, cs)
    decreases |cs|, 1
  {
    if cs == [] then s else Next(Execute(s, cs[..|cs| - 1]), cs[|cs| - 1])
  }

  lemma NextSame(s: Boot, c: nat)
    requires Enabled(s, c)
    ensures Next(s, c).apic == s.apic && |Next(s, c).pc| == |s.pc|
  {
  }

  lemma {:induction false} RunInv(s: Boot, cs: seq<nat>)
    requires Init(s) && AllEnabled(s, cs)
    ensures Inv(Execute(s, cs)) && |Execute(s, cs).apic| == |s.apic|
    decreases |cs|
  {
    hide Inv, Enabled, Init;
    if cs == [] {
      InitInv(s);
    } else {
      RunInv(s, cs[..|cs| - 1]);
      NextInv(Execute(s, cs[..|cs| - 1]), cs[|cs| - 1]);
      NextSame(Execute(s, cs[..|cs| - 1]), cs[|cs| - 1]);
    }
  }

  /** Phases whose next step reads or writes the processor counter. */
  predicate TouchesCounter(p: Phase) {
    p.Released? || p.Counting? || p.Checking? || p.Picking? || p.Locating?
  }

  /** The processors are started once each and in order, every one by its predecessor. */
  ghost predicate StartedInOrder(t: Boot) {
    && |t.log| < |t.apic| == |t.pc|
    && (forall i :: 0 <= i < |t.log| ==> t.log[i] == Start(i, i + 1))
    && (forall i :: 0 <= i < |t.pc| ==> (t.pc[i] != Off <==> i <= |t.log|))
  }

  /** The item is among the words in place `j` and in no other. */
  ghost predicate OnlyIn(words: seq<Tag>, x: Item, j: nat) {
    j < |words| && words[j].item == x && forall k: nat :: k < |words| && k != j ==> words[k].item != x
  }

  ghost predicate IsReadOnce(words: seq<Tag>, x: Item) {
    exists j: nat :: OnlyIn(words, x, j)
  }

  ghost predicate EachOnce(words: seq<Tag>) {
    forall x: Item :: IsReadOnce(words, x)
  }

  /** A trampoline reads what its own starter wrote for it, takes it for what it is, and reads each
      item once, while that starter, whose stack holds the interrupt table descriptor, is still
      waiting. */
  ghost predicate OwnBlock(t: Boot, i: nat) {
    && i < |t.got| && i < |t.pc| && |t.got[i]| <= WORDS
    && (forall j :: 0 <= j < |t.got[i]| ==> t.got[i][j] == Tag(i - 1, i, USES[j]))
    && (i > 0 && t.pc[i] != Off && !t.pc[i].Reading? ==> |t.got[i]| == WORDS && EachOnce(t.got[i]))
    && (t.pc[i].Reading? ==> i > 0 && t.pc[i - 1].Waiting?)
  }

  ghost predicate OwnBlocks(t: Boot) {
    forall i: nat :: i < |t.pc| ==> OwnBlock(t, i)
  }

  /** No two processors are about to access the counter, and what is read from it is in range. */
  ghost predicate CounterUnraced(t: Boot) {
    && (forall i, j :: 0 <= i < j < |t.pc| ==> !(TouchesCounter(t.pc[i]) && TouchesCounter(t.pc[j])))
    && (forall i :: 0 <= i < |t.pc| && t.pc[i].Locking? ==> t.pc[i].m == t.pc[i].l < |t.apic|)
  }

  /** The low page is unmapped only after all have been counted and have left the trampoline. */
  ghost predicate PageOutlivesTrampolines(t: Boot) {
    !t.mapped ==>
      t.cnt == |t.apic| && forall i :: 0 <= i < |t.pc| ==> t.pc[i].Waiting? || t.pc[i].Unlocking? || t.pc[i].Done?
  }

  lemma InvStarted(t: Boot)
    requires Inv(t)
    ensures StartedInOrder(t)
  {
    hide AllGot, Locked, Block;
  }

  lemma UsedSomewhere(x: Item)
    ensures exists j: nat :: j < WORDS && USES[j] == x
  {
    assert USES[0] == Tables && USES[1] == Mode && USES[2] == Interrupts;
    assert USES[3] == Stack && USES[4] == EntryPoint && USES[5] == Local;
  }

  lemma UsedInOnePlace()
    ensures forall j, k :: 0 <= j < WORDS && 0 <= k < WORDS && USES[j] == USES[k] ==> j == k
  {
  }

  lemma UsesEachOnce(words: seq<Tag>)
    requires |words| == WORDS && forall j :: 0 <= j < WORDS ==> words[j].item == USES[j]
    ensures EachOnce(words)
  {
    forall x: Item ensures IsReadOnce(words, x) {
      var j: nat :| j < WORDS && USES[j] == x by {
        UsedSomewhere(x);
      }
      assert OnlyIn(words, x, j) by {
        UsedInOnePlace();
      }
    }
  }

  lemma InvOwnBlock(t: Boot, i: nat)
    requires Inv(t) && i < |t.pc|
    ensures OwnBlock(t, i)
  {
    hide Locked, Block, EachOnce;
    assert Got(t, i);
    if |t.got[i]| == WORDS {
      UsesEachOnce(t.got[i]);
    }
  }

  lemma InvOwnBlocks(t: Boot)
    requires Inv(t)
    ensures OwnBlocks(t)
  {
    hide Inv, OwnBlock;
    forall i: nat | i < |t.pc| ensures OwnBlock(t, i) {
      InvOwnBlock(t, i);
    }
  }

  lemma InvUnraced(t: Boot)
    requires Inv(t)
    ensures CounterUnraced(t) && PageOutlivesTrampolines(t)
  {
    hide AllGot, Locked, Block;
  }

  /** All of this holds in every state of every interleaving. */
  lemma BootChainIsSafe(s: Boot, cs: seq<nat>)
    requires Init(s) && AllEnabled(s, cs)
    ensures var t := Execute(s, cs);
      StartedInOrder(t) && OwnBlocks(t) && CounterUnraced(t) && PageOutlivesTrampolines(t)
  {
    hide Inv, StartedInOrder, OwnBlocks, CounterUnraced, PageOutlivesTrampolines;
    RunInv(s, cs);
    InvStarted(Execute(s, cs));
    InvOwnBlocks(Execute(s, cs));
    InvUnraced(Execute(s, cs));
  }

  lemma InvNotStuck(t: Boot)
    requires Inv(t)
    ensures (forall i :: 0 <= i < |t.pc| ==> t.pc[i] == Done) || exists c: nat :: Enabled(t, c)
  {
    hide AllGot, Block, Distinct;
    if i: nat :| i < |t.pc| && t.pc[i].Unlocking? {
      assert Enabled(t, i);
    } else if t.pc[Front(t)].Done? {
      if i: nat :| i < |t.pc| && t.pc[i] != Done {
        assert Enabled(t, i);
      }
    } else {
      assert Enabled(t, Front(t));
    }
  }

  /** Some processor can always move until all of them are up. */
  lemma NeverStuck(s: Boot, cs: seq<nat>)
    requires Init(s) && AllEnabled(s, cs)
    ensures (forall i :: 0 <= i < |Execute(s, cs).pc| ==> Execute(s, cs).pc[i] == Done)
         || exists c: nat :: Enabled(Execute(s, cs), c)
  {
    hide Inv, Enabled;
    RunInv(s, cs);
    InvNotStuck(Execute(s, cs));
  }

  // ---------------------------------------------------------------- every run ends

  /** An upper bound on the steps a processor has still to make. The first round of the boot
      processor, which only counts itself, comes on top. */
  function Rank(p: Phase, cnt: nat): nat {
    match p
    case Off => 40
    case Reading(k) => if k <= WORDS then 39 - k else 0
    case Entered => 32
    case Released => 31
    case Counting(_) => 30
    case Checking => if cnt == 0 then 49 else 29
    case Picking => if cnt == 0 then 48 else 28
    case Locating(_) => if cnt == 0 then 47 else 27
    case Locking(_, _) => 26
    case Writing(_, _, k) => if k <= WORDS then 25 - k else 0
    case Waking(_) => 18
    case Waiting => 17
    case Unlocking => 16
    case Unmapping => 16
    case Done => 0
  }

  function Total(pc: seq<Phase>, cnt: nat): nat {
    if pc == [] then 0 else Rank(pc[0], cnt) + Total(pc[1..], cnt)
  }

  /** Ranks that are no larger anywhere, and smaller at one place, have a smaller total. */
  lemma {:induction false} TotalFalls(pc: seq<Phase>, cnt: nat, pc': seq<Phase>, cnt': nat, c: nat)
    requires |pc'| == |pc|
    requires forall i :: 0 <= i < |pc| ==> Rank(pc'[i], cnt') <= Rank(pc[i], cnt)
    ensures Total(pc', cnt') <= Total(pc, cnt)
    ensures c < |pc| && Rank(pc'[c], cnt') < Rank(pc[c], cnt) ==> Total(pc', cnt') < Total(pc, cnt)
  {
    hide Rank;
    if pc != [] {
      TotalFalls(pc[1..], cnt, pc'[1..], cnt', if c > 0 then c - 1 else |pc|);
    }
  }

  lemma OthersNoHigher(s: Boot, c: nat, i: nat)
    requires Inv(s) && Enabled(s, c) && i < |s.pc| && i != c
    ensures Rank(Next(s, c).pc[i], Next(s, c).cnt) <= Rank(s.pc[i], s.cnt)
  {
    hide AllGot, Block, Locked;
    Movers(s, c);
    if c == Front(s) {
      assert s.pc[i].Off? || s.pc[i].Waiting? || s.pc[i].Unlocking? || s.pc[i].Done?;
    }
  }

  lemma MoverLower(s: Boot, c: nat)
    requires Inv(s) && Enabled(s, c)
    ensures Rank(Next(s, c).pc[c], Next(s, c).cnt) < Rank(s.pc[c], s.cnt)
  {
    hide AllGot, Block, Locked;
    Movers(s, c);
  }

  lemma NextFalls(s: Boot, c: nat)
    requires Inv(s) && Enabled(s, c)
    ensures Total(Next(s, c).pc, Next(s, c).cnt) < Total(s.pc, s.cnt)
  {
    hide Inv, Total, Rank, Next;
    NextSame(s, c);
    var s' := Next(s, c);
    MoverLower(s, c);
    forall i: nat | i < |s.pc| ensures Rank(s'.pc[i], s'.cnt) <= Rank(s.pc[i], s.cnt) {
      if i != c {
        OthersNoHigher(s, c, i);
      }
    }
    TotalFalls(s.pc, s.cnt, s'.pc, s'.cnt, c);
  }

  lemma {:induction false} TotalBound(pc: seq<Phase>, cnt: nat)
    ensures Total(pc, cnt) <= 49 * |pc|
  {
    if pc != [] {
      TotalBound(pc[1..], cnt);
    }
  }

  /** Every interleaving ends after a bounded number of steps; by `NeverStuck` it ends with all
      processors up. */
  lemma {:induction false} RunsEnd(s: Boot, cs: seq<nat>)
    requires Init(s) && AllEnabled(s, cs)
    ensures |cs| + Total(Execute(s, cs).pc, Execute(s, cs).cnt) <= 49 * |s.apic|
    decreases |cs|
  {
    hide Inv, Enabled;
    if cs == [] {
      TotalBound(s.pc, s.cnt);
    } else {
      RunsEnd(s, cs[..|cs| - 1]);
      RunInv(s, cs[..|cs| - 1]);
      NextFalls(Execute(s, cs[..|cs| - 1]), cs[|cs| - 1]);
    }
  }
}
