/** Whole runs of one processor seen from what waits for it: who runs next, that nobody is lost, how a
    handler is entered, and that muting a queue keeps the processor from hanging on it. */
module ScheduleRuns {
  import opened Words
  import opened ContextSwitch
  import opened DispatchRuns

  // ---------------------------------------------------------------- one reschedule

  /** Context `c` runs next, unless the processor hangs because its queue is there, not muted and
      locked. */
  ghost predicate RunsNext(s: Core, s': Core, c: nat) {
    && c < |s.contexts|
    && var q := s.contexts[c].queue;
    if q.Some? && q.value.active && q.value.locked
    then s'.hung && s'.current == s.current && s'.cpu == s.cpu && s'.contexts == s.contexts
    else !s'.hung && s'.current == Some(c)
  }

  /** Of what waits, the last delivery is served first, then the last queued thread; only if nothing
      waits the server is. Just the served one is taken off. */
  ghost predicate Serves(s: Core, s': Core) {
    var d, q := |s.delivery|, |s.queue|;
    if d > 0 then
      s'.delivery == s.delivery[..d - 1] && s'.queue == s.queue && RunsNext(s, s', s.delivery[d - 1])
    else if q > 0 then
      s'.delivery == [] && s'.queue == s.queue[..q - 1] && RunsNext(s, s', s.queue[q - 1])
    else
      s'.delivery == [] && s'.queue == [] && if s.server.Some? then RunsNext(s, s', s.server.value) else s' == s
  }

  lemma SwitchFields(s: Core, next: nat, o: Outcome)
    requires next < |s.contexts|
    ensures var s' := Switch(s, next, o);
      && s'.current == Some(next) && s'.hung == s.hung && s'.delivery == s.delivery && s'.queue == s.queue
      && s'.server == s.server
  {
  }

  lemma RescheduleServes(s: Core, o: Outcome)
    requires CoreOk(s) && !s.hung
    ensures Serves(s, Step(s, Reschedule(o))) && Step(s, Reschedule(o)).server == s.server
  {
    hide Switch, HandlerLive;
    ChosenExists(s);
    if Choose(s).Some? {
      SwitchFields(Popped(s), Choose(s).value, o);
    }
  }

  lemma {:induction false} ExecuteFrom(s: Core, es: seq<Event>, i: nat)
    requires CoreOk(s) && AllPossible(s, es) && i < |es|
    ensures CoreOk(Execute(s, es[..i])) && Possible(Execute(s, es[..i]), es[i])
    ensures Execute(s, es[..i + 1]) == Step(Execute(s, es[..i]), es[i])
    decreases |es|
  {
    hide CoreOk, Possible, Step;
    if i == 0 {
      assert es[..1] == [es[0]] && es[..0] == [];
      assert Execute(Step(s, es[0]), []) == Step(s, es[0]);
    } else {
      StepOk(s, es[0]);
      ExecuteFrom(Step(s, es[0]), es[1..], i - 1);
      assert es[..i][1..] == es[1..][..i - 1] && es[..i + 1][1..] == es[1..][..i];
    }
  }

  /** So does every reschedule of every run. */
  lemma EveryReschedule(s: Core, es: seq<Event>, i: nat)
    requires CoreOk(s) && AllPossible(s, es) && i < |es| && es[i].Reschedule?
    ensures Serves(Execute(s, es[..i]), Execute(s, es[..i + 1]))
  {
    hide CoreOk, AllPossible, Execute, Step, Serves;
    ExecuteFrom(s, es, i);
    RescheduleServes(Execute(s, es[..i]), es[i].o);
  }

  // ---------------------------------------------------------------- nobody is lost

  /** Everybody who waits, whether delivered to or queued. */
  ghost function Waiting(s: Core): multiset<nat> {
    multiset(s.delivery) + multiset(s.queue)
  }

  /** Everybody who is delivered to or queued during a run. */
  ghost function Arrivals(es: seq<Event>): multiset<nat>
    decreases |es|
  {
    if es == [] then multiset{}
    else match es[0]
      case Deliver(c) => multiset{c} + Arrivals(es[1..])
      case Enqueue(c) => multiset{c} + Arrivals(es[1..])
      case _ => Arrivals(es[1..])
  }

  /** Everybody who becomes current by a reschedule that finds somebody waiting. */
  ghost function Served(s: Core, es: seq<Event>): multiset<nat>
    decreases |es|
  {
    if es == [] then multiset{}
    else
      var s' := Step(s, es[0]);
      var rest := Served(s', es[1..]);
      if es[0].Reschedule? && Waiting(s) != multiset{} && !s'.hung && s'.current.Some?
      then multiset{s'.current.value} + rest else rest
  }

  lemma LastTaken(w: seq<nat>)
    requires w != []
    ensures multiset(w) == multiset(w[..|w| - 1]) + multiset{w[|w| - 1]}
  {
    assert w == w[..|w| - 1] + [w[|w| - 1]];
  }

  lemma TakenFirst(w: seq<nat>, others: multiset<nat>)
    requires w != []
    ensures multiset(w) + others != multiset{}
    ensures multiset(w) + others == (multiset(w[..|w| - 1]) + others) + multiset{w[|w| - 1]}
  {
    LastTaken(w);
    assert w[|w| - 1] in multiset(w) + others;
  }

  /** Context `c` is the one who is taken off, and it becomes current or the processor hangs on it. */
  ghost predicate TakesOff(s: Core, s': Core, c: nat) {
    && Waiting(s) != multiset{} && Waiting(s) == Waiting(s') + multiset{c}
    && if s'.hung then c < |s'.contexts| && Blocked(s'.contexts[c]) else s'.current == Some(c)
  }

  lemma ServesDelivery(s: Core, s': Core)
    requires Serves(s, s') && s.delivery != []
    ensures TakesOff(s, s', s.delivery[|s.delivery| - 1])
  {
    TakenFirst(s.delivery, multiset(s.queue));
  }

  lemma ServesQueued(s: Core, s': Core)
    requires Serves(s, s') && s.delivery == [] && s.queue != []
    ensures TakesOff(s, s', s.queue[|s.queue| - 1])
  {
    TakenFirst(s.queue, multiset(s.delivery));
    assert Waiting(s) == multiset(s.queue) + multiset(s.delivery);
    assert Waiting(s') == multiset(s'.queue) + multiset(s.delivery);
  }

  /** The one who is taken off becomes current, or the processor hangs on it. */
  lemma ServesOne(s: Core, s': Core)
    requires Serves(s, s')
    ensures Waiting(s) == Waiting(s') == multiset{} || exists c: nat :: TakesOff(s, s', c)
  {
    if s.delivery != [] {
      ServesDelivery(s, s');
    } else if s.queue != [] {
      ServesQueued(s, s');
    }
    hide Blocked;
  }

  /** Other events take nobody off, and do not hang. */
  lemma OthersArrive(s: Core, e: Event)
    requires Possible(s, e) && !e.Reschedule?
    ensures var s' := Step(s, e);
      !s'.hung && Waiting(s') == Waiting(s) + Arrivals([e])
  {
    assert [e][1..] == [] && Arrivals([]) == multiset{};
  }

  /** What has been taken off and did not become current is a context that the processor hangs on. */
  ghost predicate Accounted(before: multiset<nat>, after: multiset<nat>, t: Core) {
    || before == after
    || (t.hung && exists c: nat :: c < |t.contexts| && Blocked(t.contexts[c]) && before == after + multiset{c})
  }

  lemma HungIsEnd(s: Core, es: seq<Event>)
    requires AllPossible(s, es) && s.hung
    ensures es == []
  {
  }

  lemma ArrivalsFirst(es: seq<Event>)
    requires es != []
    ensures Arrivals(es) == Arrivals([es[0]]) + Arrivals(es[1..])
  {
    assert [es[0]][1..] == [] && Arrivals([]) == multiset{};
  }

  lemma StepAccounted(s: Core, e: Event)
    requires CoreOk(s) && Possible(s, e)
    ensures var s' := Step(s, e);
      Accounted(Waiting(s) + Arrivals([e]), Waiting(s') + Served(s, [e]), s')
  {
    hide CoreOk, Step, Waiting, Serves;
    assert [e][1..] == [] && Arrivals([]) == multiset{};
    assert Served(Step(s, e), []) == multiset{};
    if e.Reschedule? {
      var s' := Step(s, e);
      RescheduleServes(s, e.o);
      ServesOne(s, s');
      if Waiting(s) != multiset{} {
        var c: nat :| TakesOff(s, s', c);
      }
    } else {
      OthersArrive(s, e);
    }
  }

  lemma AccountedTwice(
      w: multiset<nat>, a: multiset<nat>, w1: multiset<nat>, v: multiset<nat>,
      a1: multiset<nat>, w2: multiset<nat>, v1: multiset<nat>, t: Core)
    requires w + a == w1 + v && Accounted(w1 + a1, w2 + v1, t)
    ensures Accounted(w + (a + a1), w2 + (v + v1), t)
  {
    hide Blocked;
    assert w + (a + a1) == (w + a) + a1 == (w1 + a1) + v;
    assert w2 + (v + v1) == (w2 + v1) + v;
    if w1 + a1 != w2 + v1 {
      var c: nat :| c < |t.contexts| && Blocked(t.contexts[c]) && w1 + a1 == w2 + v1 + multiset{c};
      assert (w2 + v1 + multiset{c}) + v == ((w2 + v1) + v) + multiset{c};
    }
  }

  lemma ServedFirst(s: Core, es: seq<Event>)
    requires es != []
    ensures Served(s, es) == Served(s, [es[0]]) + Served(Step(s, es[0]), es[1..])
  {
    hide Step, Waiting;
    assert [es[0]][1..] == [] && Served(Step(s, es[0]), []) == multiset{};
  }

  lemma NothingHappens(s: Core)
    ensures Accounted(Waiting(s) + Arrivals([]), Waiting(s) + Served(s, []), s)
  {
  }

  lemma NotHungIsEqual(before: multiset<nat>, after: multiset<nat>, t: Core)
    requires Accounted(before, after, t) && !t.hung
    ensures before == after
  {
  }

  /** In every run, whoever waited at the start or arrived is still waiting or was made current by a
      reschedule, once for each time, except for one context at the end if the processor hangs on it. */
  lemma {:induction false} NobodyIsLost(s: Core, es: seq<Event>)
    requires CoreOk(s) && AllPossible(s, es)
    ensures var t := Execute(s, es);
      Accounted(Waiting(s) + Arrivals(es), Waiting(t) + Served(s, es), t)
    decreases |es|
  {
    hide CoreOk, Possible, Step, Waiting, Accounted, Arrivals, Served;
    if es == [] {
      NothingHappens(s);
    } else {
      var s', rest := Step(s, es[0]), es[1..];
      StepOk(s, es[0]);
      StepAccounted(s, es[0]);
      if s'.hung {
        HungIsEnd(s', rest);
        assert es == [es[0]];
      } else {
        NobodyIsLost(s', rest);
        ArrivalsFirst(es);
        ServedFirst(s, es);
        NotHungIsEqual(Waiting(s) + Arrivals([es[0]]), Waiting(s') + Served(s, [es[0]]), s');
        AccountedTwice(Waiting(s), Arrivals([es[0]]), Waiting(s'), Served(s, [es[0]]),
                       Arrivals(rest), Waiting(Execute(s, es)), Served(s', rest), Execute(s, es));
      }
    }
  }

  // ---------------------------------------------------------------- the order

  ghost predicate NoArrivals(es: seq<Event>) {
    forall i :: 0 <= i < |es| ==> !es[i].Deliver? && !es[i].Enqueue?
  }

  /** Who is current after each reschedule of a run; the one the processor hangs on is not. */
  ghost function Turns(s: Core, es: seq<Event>): seq<Option<nat>>
    decreases |es|
  {
    if es == [] then []
    else
      var s' := Step(s, es[0]);
      (if es[0].Reschedule? then [if s'.hung then None else s'.current] else []) + Turns(s', es[1..])
  }

  /** The queued threads below the deliveries, as one stack. */
  ghost function Stack(s: Core): seq<nat> {
    s.queue + s.delivery
  }

  /** The turns go down the stack from its top, and then to the server, unless the processor hangs. */
  ghost predicate DownTheStack(w: seq<nat>, server: Option<nat>, turns: seq<Option<nat>>) {
    forall i :: 0 <= i < |turns| && turns[i].Some? ==>
      if i < |w| then turns[i] == Some(w[|w| - 1 - i]) else server.Some? ==> turns[i] == server
  }

  lemma ServesTop(s: Core, s': Core)
    requires Serves(s, s')
    ensures var w := Stack(s);
      if w != [] then Stack(s') == w[..|w| - 1] && (!s'.hung ==> s'.current == Some(w[|w| - 1]))
      else Stack(s') == [] && (!s'.hung && s.server.Some? ==> s'.current == s.server)
  {
  }

  lemma OthersKeepStack(s: Core, e: Event)
    requires !e.Reschedule? && !e.Deliver? && !e.Enqueue?
    ensures Stack(Step(s, e)) == Stack(s) && Step(s, e).server == s.server
  {
  }

  lemma FirstTurn(w: seq<nat>, server: Option<nat>, turn: Option<nat>, rest: seq<Option<nat>>)
    requires DownTheStack(if w == [] then [] else w[..|w| - 1], server, rest)
    requires turn.Some? ==> if w != [] then turn == Some(w[|w| - 1]) else server.Some? ==> turn == server
    ensures DownTheStack(w, server, [turn] + rest)
  {
  }

  lemma NotHung(s: Core, e: Event)
    requires Possible(s, e)
    ensures !s.hung
  {
  }

  lemma NoTurns(s: Core)
    ensures Turns(s, []) == [] && Execute(s, []) == s
  {
  }

  lemma NoTurnsDown(w: seq<nat>, server: Option<nat>)
    ensures DownTheStack(w, server, []) && w[..|w|] == w
  {
  }

  /** In every run without arrivals the reschedules serve the deliveries, the last one first, then the
      queued threads, the last one first, and then only the server. */
  lemma {:induction false} ServedInOrder(s: Core, es: seq<Event>)
    requires CoreOk(s) && AllPossible(s, es) && NoArrivals(es)
    ensures var turns, w := Turns(s, es), Stack(s);
      && DownTheStack(w, s.server, turns)
      && Stack(Execute(s, es)) == if |turns| <= |w| then w[..|w| - |turns|] else []
    decreases |es|
  {
    hide CoreOk, Possible, Step, Stack, Serves, DownTheStack;
    if es == [] {
      NoTurns(s);
      NoTurnsDown(Stack(s), s.server);
    } else {
      var e, rest := es[0], es[1..];
      var s' := Step(s, e);
      StepOk(s, e);
      NotHung(s, e);
      ServedInOrder(s', rest);
      if e.Reschedule? {
        RescheduleServes(s, e.o);
        ServesTop(s, s');
        FirstTurn(Stack(s), s.server, if s'.hung then None else s'.current, Turns(s', rest));
      } else {
        OthersKeepStack(s, e);
        assert [] + Turns(s', rest) == Turns(s', rest);
      }
    }
  }

  lemma DeliveredIsNext(s: Core, c: nat, t: Core)
    requires Serves(s.(delivery := s.delivery + [c]), t)
    ensures t.delivery == s.delivery && t.queue == s.queue && RunsNext(s.(delivery := s.delivery + [c]), t, c)
  {
    hide RunsNext;
  }

  lemma QueuedIsNext(s: Core, c: nat, t: Core)
    requires Serves(s.(queue := s.queue + [c]), t) && s.delivery == []
    ensures t.delivery == [] && t.queue == s.queue && RunsNext(s.(queue := s.queue + [c]), t, c)
  {
    hide RunsNext;
  }

  lemma Arrive(s: Core, c: nat)
    requires CoreOk(s) && !s.hung && c < |s.contexts|
    ensures Step(s, Deliver(c)) == s.(delivery := s.delivery + [c]) && CoreOk(Step(s, Deliver(c)))
    ensures Step(s, Enqueue(c)) == s.(queue := s.queue + [c]) && CoreOk(Step(s, Enqueue(c)))
  {
    hide HandlerLive;
  }

  /** Who arrives last is served first: a delivered context by the next reschedule in any case, a queued
      thread by the next one that finds no delivery waiting. */
  lemma LastInFirstOut(s: Core, c: nat, o: Outcome)
    requires CoreOk(s) && !s.hung && c < |s.contexts|
    ensures var s' := Step(s, Deliver(c));
      var t := Step(s', Reschedule(o));
      t.delivery == s.delivery && t.queue == s.queue && RunsNext(s', t, c)
    ensures var s' := Step(s, Enqueue(c));
      var t := Step(s', Reschedule(o));
      s.delivery == [] ==> t.delivery == [] && t.queue == s.queue && RunsNext(s', t, c)
  {
    hide Step, CoreOk, RunsNext, Serves;
    Arrive(s, c);
    RescheduleServes(Step(s, Deliver(c)), o);
    RescheduleServes(Step(s, Enqueue(c)), o);
    DeliveredIsNext(s, c, Step(Step(s, Deliver(c)), Reschedule(o)));
    if s.delivery == [] {
      QueuedIsNext(s, c, Step(Step(s, Enqueue(c)), Reschedule(o)));
    }
  }

  // ---------------------------------------------------------------- entering a handler

  /** What the processor holds at the start of a handler: the registers of user mode, the handler, its
      stack and its three arguments. */
  ghost predicate HandlerStarts(cpu: Regs, n: Notice) {
    && cpu.rip == n.handler && cpu.rsp == n.sp
    && cpu.rdi == n.info && cpu.rsi == n.data && cpu.rdx == n.number + 1
    && cpu.cs == 0x43 && cpu.ss == 0x3b && cpu.rflags == 0x202
  }

  lemma InstallOn(x: Context, n: Notice)
    requires x.queue == Some(Queue(true, false)) && x.frames == []
    ensures var x' := Dispatch(x, Install(n));
      && x'.regs == x.regs && x'.queue == Some(Queue(true, true)) && x'.handler == Some(0)
      && |x'.frames| == 1 && x'.frames[0].active
      && HandlerStarts(x'.frames[0].regs, n) && x'.frames[0].regs.rest == BLANK.rest
  {
    assert FreeFrame([], 0) == 0;
  }

  lemma SwitchLoads(s: Core, next: nat, o: Outcome)
    requires next < |s.contexts| && s.current != Some(next) && Dispatch(s.contexts[next], o).handler == Some(0)
    requires |Dispatch(s.contexts[next], o).frames| == 1
    ensures var s' := Switch(s, next, o);
      && s'.contexts[next] == Dispatch(s.contexts[next], o)
      && s'.cpu == Dispatch(s.contexts[next], o).frames[0].regs
  {
    hide Dispatch;
  }

  lemma FreshWhenUnlocked(s: Core, es: seq<Event>, c: nat)
    requires Init(s) && AllPossible(s, es)
    requires c < |Execute(s, es).contexts| && Execute(s, es).contexts[c].queue == Some(Queue(true, false))
    ensures Execute(s, es).contexts[c].frames == []
  {
    hide Execute, AllPossible, PassCount, CoreOk;
    RunOk(s, es);
    AtMostOneDispatch(s, es, c);
    HandlersNeverNest(s, es, c, Nothing);
  }

  /** In every run: a notice for a context that does not run, that is unmuted and whose queue lock is free
      is entered by the very reschedule that chooses the context, with the notice's arguments in the
      processor, in the context's first frame, with the rest of the frame blank, and with the thread's
      own registers kept for its return. */
  lemma HandlerEntered(s: Core, es: seq<Event>, c: nat, n: Notice)
    requires Init(s) && AllPossible(s, es) && !Execute(s, es).hung
    requires var t := Execute(s, es);
      && Choose(t) == Some(c) && t.current != Some(c)
      && c < |t.contexts| && t.contexts[c].queue == Some(Queue(true, false))
    ensures var t := Execute(s, es);
      var t' := Step(t, Reschedule(Install(n)));
      && !t'.hung && t'.current == Some(c) && HandlerStarts(t'.cpu, n) && t'.cpu.rest == BLANK.rest
      && t'.contexts[c] == Context(t.contexts[c].regs, [Frame(t'.cpu, true)], Some(0), Some(Queue(true, true)))
  {
    hide Execute, AllPossible, Switch, Init, Dispatch, HandlerStarts, Choose;
    var t := Execute(s, es);
    var x := t.contexts[c];
    FreshWhenUnlocked(s, es, c);
    InstallOn(x, n);
    SwitchFields(Popped(t), c, Install(n));
    SwitchLoads(Popped(t), c, Install(n));
    var x' := Dispatch(x, Install(n));
    assert x'.frames == [Frame(x'.frames[0].regs, true)];
  }

  // ---------------------------------------------------------------- muting

  /** Muting and unmuting set the flag of the running context's queue and nothing else. */
  lemma MuteSets(s: Core, c: nat, muted: bool)
    requires s.current == Some(c) && c < |s.contexts| && s.contexts[c].queue.Some?
    ensures var s', q := Step(s, Mute(muted)), s.contexts[c].queue.value;
      s' == s.(contexts := s.contexts[c := s.contexts[c].(queue := Some(Queue(!muted, q.locked)))])
  {
  }

  /** Context `c` does not unmute itself. */
  ghost predicate StaysMuted(s: Core, es: seq<Event>, c: nat)
    decreases |es|
  {
    es == [] || (!(es[0] == Mute(false) && s.current == Some(c)) && StaysMuted(Step(s, es[0]), es[1..], c))
  }

  /** A muted context is not dispatched to: only its registers change. */
  ghost predicate SameButRegisters(x: Context, x': Context) {
    && x'.queue == x.queue && |x'.frames| == |x.frames|
    && forall k :: 0 <= k < |x.frames| && x'.frames[k].active ==> x.frames[k].active
  }

  lemma MutedSwitch(s: Core, next: nat, o: Outcome, c: nat)
    requires next < |s.contexts| && c < |s.contexts| && IsMuted(s.contexts[c])
    ensures var s' := Switch(s, next, o);
      && c < |s'.contexts| && SameButRegisters(s.contexts[c], s'.contexts[c])
  {
    hide FreeFrame, WithFrame, Entry;
    assert c == next ==> Dispatch(s.contexts[c], o) == s.contexts[c];
  }

  lemma MutedStep(s: Core, e: Event, c: nat)
    requires CoreOk(s) && Possible(s, e) && c < |s.contexts| && IsMuted(s.contexts[c])
    requires !(e == Mute(false) && s.current == Some(c))
    ensures var s' := Step(s, e);
      c < |s'.contexts| && IsMuted(s'.contexts[c]) && SameButRegisters(s.contexts[c], s'.contexts[c])
  {
    hide Switch, HandlerLive;
    if e.Reschedule? {
      ChosenExists(s);
      if Switches(s) {
        MutedSwitch(Popped(s), Choose(s).value, e.o, c);
      }
    }
  }

  lemma MutedReturns(s: Core, c: nat, o: Outcome)
    requires CoreOk(s) && c < |s.contexts| && IsMuted(s.contexts[c]) && !s.hung && Choose(s) == Some(c)
    ensures !Step(s, Reschedule(o)).hung && Step(s, Reschedule(o)).current == Some(c)
  {
    hide Switch;
    SwitchFields(Popped(s), c, o);
  }

  lemma SameIsSame(x: Context)
    ensures SameButRegisters(x, x)
  {
  }

  lemma SameTwice(x: Context, y: Context, z: Context)
    requires SameButRegisters(x, y) && SameButRegisters(y, z)
    ensures SameButRegisters(x, z)
  {
  }

  /** Once a context has muted itself, whatever was dispatched to it before, and until it unmutes itself:
      nothing is dispatched to it, and no reschedule that chooses it hangs. */
  lemma {:induction false} MutedNeverHangs(s: Core, es: seq<Event>, c: nat, o: Outcome)
    requires CoreOk(s) && c < |s.contexts| && IsMuted(s.contexts[c]) && AllPossible(s, es) && StaysMuted(s, es, c)
    ensures var t := Execute(s, es);
      && CoreOk(t) && c < |t.contexts| && IsMuted(t.contexts[c]) && SameButRegisters(s.contexts[c], t.contexts[c])
      && (!t.hung && Choose(t) == Some(c) ==>
            !Step(t, Reschedule(o)).hung && Step(t, Reschedule(o)).current == Some(c))
    decreases |es|
  {
    hide CoreOk, Possible, Step, IsMuted, SameButRegisters, Choose;
    if es == [] {
      if !s.hung && Choose(s) == Some(c) {
        MutedReturns(s, c, o);
      }
      SameIsSame(s.contexts[c]);
    } else {
      MutedStep(s, es[0], c);
      StepOk(s, es[0]);
      var s' := Step(s, es[0]);
      MutedNeverHangs(s', es[1..], c, o);
      SameTwice(s.contexts[c], s'.contexts[c], Execute(s, es).contexts[c]);
    }
  }

  /** Muting itself is enough for that. */
  lemma MutingKeepsAlive(s: Core, es: seq<Event>, c: nat, o: Outcome)
    requires CoreOk(s) && s.current == Some(c) && c < |s.contexts| && s.contexts[c].queue.Some?
    requires AllPossible(Step(s, Mute(true)), es) && StaysMuted(Step(s, Mute(true)), es, c)
    ensures var t := Execute(Step(s, Mute(true)), es);
      && c < |t.contexts| && t.contexts[c].queue == Some(Queue(false, s.contexts[c].queue.value.locked))
      && (!t.hung && Choose(t) == Some(c) ==>
            !Step(t, Reschedule(o)).hung && Step(t, Reschedule(o)).current == Some(c))
  {
    hide Execute, AllPossible, StaysMuted, Choose;
    MuteSets(s, c, true);
    MutedNeverHangs(Step(s, Mute(true)), es, c, o);
  }
}
