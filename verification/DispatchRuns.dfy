/** Whole runs of one processor seen from the notification queues: how often a context is dispatched
    to, when rescheduling returns at all, and in which order deliveries are taken. */
module DispatchRuns {
  import opened Words
  import opened ContextSwitch

  ghost predicate AllPossible(s: Core, es: seq<Event>)
    decreases |es|
  {
    es == [] || (Possible(s, es[0]) && AllPossible(Step(s, es[0]), es[1..]))
  }

  /** The event dispatches to context `c` and goes on past the look at its queue, with the queue
      lock held. */
  ghost predicate PassesAt(s: Core, e: Event, c: nat) {
    e.Reschedule? && Choose(s) == Some(c) && c < |s.contexts| && Passes(s.contexts[c], e.o)
  }

  /** How many events of the run do so. */
  ghost function PassCount(s: Core, es: seq<Event>, c: nat): nat
    decreases |es|
  {
    if es == [] then 0
    else (if PassesAt(s, es[0], c) then 1 else 0) + PassCount(Step(s, es[0]), es[1..], c)
  }

  // ---------------------------------------------------------------- one context

  /** The queue lock is held exactly if `n`, the number of such dispatches, is 1; there is one
      frame for each of them, and a live frame is that of the handler the context is in. */
  ghost predicate Once(x: Context, n: nat) {
    && n == (if x.queue.Some? && x.queue.value.locked then 1 else 0)
    && |x.frames| == n
    && (forall k :: 0 <= k < |x.frames| && x.frames[k].active ==> x.handler == Some(k))
    && (x.handler.Some? ==> x.handler.value < |x.frames|)
  }

  lemma DispatchOnce(x: Context, o: Outcome, n: nat)
    requires Once(x, n) && !Blocked(x)
    ensures Once(Dispatch(x, o), n + if Passes(x, o) then 1 else 0)
  {
    hide Entry;
    assert Passes(x, o) ==> x.frames == [] && FreeFrame([], 0) == 0;
  }

  lemma SaveOnce(x: Context, r: Regs, n: nat)
    requires Once(x, n)
    ensures Once(Save(x, r), n)
  {
  }

  lemma EndedOnce(x: Context, n: nat)
    requires Once(x, n)
    ensures Once(Ended(x), n)
  {
  }

  lemma SwitchOnce(s: Core, o: Outcome, c: nat, n: nat)
    requires c < |s.contexts| && Once(s.contexts[c], n) && Switches(s)
    ensures var s' := Step(s, Reschedule(o));
      c < |s'.contexts| && Once(s'.contexts[c], n + if PassesAt(s, Reschedule(o), c) then 1 else 0)
  {
    hide Dispatch, Save, Saved, Once, Passes;
    var next := Choose(s).value;
    if c == next {
      DispatchOnce(s.contexts[c], o, n);
      SaveOnce(Dispatch(s.contexts[c], o), s.cpu, n + if Passes(s.contexts[c], o) then 1 else 0);
    } else {
      SaveOnce(s.contexts[c], s.cpu, n);
    }
  }

  lemma StepOnce(s: Core, e: Event, c: nat, n: nat)
    requires c < |s.contexts| && Once(s.contexts[c], n)
    ensures var s' := Step(s, e);
      c < |s'.contexts| && Once(s'.contexts[c], n + if PassesAt(s, e, c) then 1 else 0)
  {
    hide Switch, Ended;
    if e.Reschedule? && Switches(s) {
      SwitchOnce(s, e.o, c, n);
    } else if e.HandlerReturn? {
      EndedOnce(s.contexts[c], n);
    }
  }

  lemma {:induction false} RunOnce(s: Core, es: seq<Event>, c: nat, n: nat)
    requires c < |s.contexts| && Once(s.contexts[c], n)
    ensures var t := Execute(s, es);
      c < |t.contexts| && Once(t.contexts[c], n + PassCount(s, es, c))
    decreases |es|
  {
    hide Step, Once, PassesAt;
    if es != [] {
      StepOnce(s, es[0], c, n);
      RunOnce(Step(s, es[0]), es[1..], c, n + if PassesAt(s, es[0], c) then 1 else 0);
    }
  }

  /** In every run at most one dispatch to a context goes past the look at its queue, and from then
      on the queue lock is held for good: no way out of that dispatch releases it. */
  lemma AtMostOneDispatch(s: Core, es: seq<Event>, c: nat)
    requires Init(s) && c < |s.contexts|
    ensures var t := Execute(s, es);
      && PassCount(s, es, c) <= 1 && c < |t.contexts|
      && (t.contexts[c].queue.Some? ==> (t.contexts[c].queue.value.locked <==> PassCount(s, es, c) == 1))
  {
    hide Execute, PassCount;
    assert Untouched(s.contexts[c]);
    RunOnce(s, es, c, 0);
  }

  /** So handlers do not nest. In every run a context has a frame exactly if it has been dispatched to,
      and then one, a live frame is that of the handler the context is in, and a handler is installed
      only on a context that never had one. */
  lemma HandlersNeverNest(s: Core, es: seq<Event>, c: nat, o: Outcome)
    requires Init(s) && c < |s.contexts|
    ensures var t := Execute(s, es);
      && c < |t.contexts| && |t.contexts[c].frames| == PassCount(s, es, c) <= 1
      && (forall k :: 0 <= k < |t.contexts[c].frames| && t.contexts[c].frames[k].active ==>
            t.contexts[c].handler == Some(k))
      && (Installs(t.contexts[c], o) ==> t.contexts[c].frames == [] && t.contexts[c].handler == None)
  {
    hide Execute, PassCount;
    assert Untouched(s.contexts[c]);
    RunOnce(s, es, c, 0);
  }

  // ---------------------------------------------------------------- when rescheduling returns

  lemma ChosenExists(s: Core)
    requires CoreOk(s)
    ensures Choose(s).Some? ==> Choose(s).value < |s.contexts|
  {
  }

  lemma SwitchOk(s: Core, next: nat, o: Outcome)
    requires CoreOk(s) && next < |s.contexts|
    ensures CoreOk(Switch(s, next, o)) && |Switch(s, next, o).contexts| == |s.contexts|
  {
    hide Dispatch, Save, Saved, HandlerLive;
    DispatchLive(s.contexts[next], o);
    if s.current.Some? {
      SaveParts(s.contexts[s.current.value], s.cpu);
      SaveParts(Dispatch(s.contexts[next], o), s.cpu);
    }
  }

  lemma StepOk(s: Core, e: Event)
    requires CoreOk(s) && Possible(s, e)
    ensures CoreOk(Step(s, e)) && |Step(s, e).contexts| == |s.contexts|
  {
    hide Switch;
    if e.Reschedule? {
      ChosenExists(s);
      if Switches(s) {
        SwitchOk(Popped(s), Choose(s).value, e.o);
      }
    }
  }

  lemma {:induction false} RunOk(s: Core, es: seq<Event>)
    requires CoreOk(s) && AllPossible(s, es)
    ensures CoreOk(Execute(s, es)) && |Execute(s, es).contexts| == |s.contexts|
    decreases |es|
  {
    hide CoreOk, Possible, Step;
    if es != [] {
      StepOk(s, es[0]);
      RunOk(Step(s, es[0]), es[1..]);
    }
  }

  predicate IsMuted(x: Context) {
    x.queue.None? || !x.queue.value.active
  }

  lemma SwitchReturns(s: Core, next: nat, o: Outcome)
    requires next < |s.contexts|
    ensures Switch(s, next, o).hung == s.hung
  {
  }

  /** In every run, rescheduling returns if and only if there is nothing to run, or the chosen context
      has no queue or a muted one, or no earlier dispatch to it went past the look at its queue. */
  lemma RescheduleReturns(s: Core, es: seq<Event>, o: Outcome)
    requires Init(s) && AllPossible(s, es) && !Execute(s, es).hung
    ensures var t := Execute(s, es);
      !Step(t, Reschedule(o)).hung <==>
        match Choose(t)
        case None => true
        case Some(c) => c < |t.contexts| && (IsMuted(t.contexts[c]) || PassCount(s, es, c) == 0)
  {
    hide Execute, PassCount, AllPossible, Switch;
    RunOk(s, es);
    var t := Execute(s, es);
    ChosenExists(t);
    if Choose(t).Some? {
      AtMostOneDispatch(s, es, Choose(t).value);
      SwitchReturns(Popped(t), Choose(t).value, o);
    }
  }

  /** A machine with one thread that takes notifications. */
  function OneThread(regs: Regs): Core {
    Core([Context(regs, [], None, Some(Queue(true, false)))], [], [], None, None, BLANK, false)
  }

  lemma FourSteps(s: Core, a: Event, b: Event, c: Event, d: Event)
    ensures var s1 := Step(s, a);
      var s2 := Step(s1, b);
      var s3 := Step(s2, c);
      && Execute(s, [a, b, c, d]) == Step(s3, d)
      && (AllPossible(s, [a, b, c, d]) <==> Possible(s, a) && Possible(s1, b) && Possible(s2, c) && Possible(s3, d))
  {
    hide Step, Possible;
    var s1 := Step(s, a);
    var s2 := Step(s1, b);
    var s3 := Step(s2, c);
    assert [a, b, c, d][1..] == [b, c, d] && [b, c, d][1..] == [c, d] && [c, d][1..] == [d] && [d][1..] == [];
    assert Execute(s3, [d]) == Step(s3, d) && (AllPossible(s3, [d]) <==> Possible(s3, d));
    assert Execute(s2, [c, d]) == Step(s3, d) && (AllPossible(s2, [c, d]) <==> Possible(s2, c) && Possible(s3, d));
    assert Execute(s1, [b, c, d]) == Step(s3, d);
  }

  /** The thread in its first handler, and back from it. */
  function InHandler(regs: Regs, n: Notice): Core {
    Core([Context(regs, [Frame(Entry(BLANK, n), true)], Some(0), Some(Queue(true, true)))],
         [], [], None, Some(0), Entry(BLANK, n), false)
  }

  function BackFromHandler(regs: Regs, n: Notice): Core {
    Core([Context(regs, [Frame(Entry(BLANK, n), false)], None, Some(Queue(true, true)))],
         [], [], None, Some(0), regs, false)
  }

  lemma FirstInstall(regs: Regs, n: Notice)
    ensures Dispatch(OneThread(regs).contexts[0], Install(n)) == InHandler(regs, n).contexts[0]
  {
    hide Entry;
    var frames := [Frame(BLANK, false)];
    assert FreeFrame([], 0) == 0 && WithFrame([]) == frames;
    assert frames[0 := Frame(Entry(BLANK, n), true)] == [Frame(Entry(BLANK, n), true)];
  }

  lemma FirstDelivery(regs: Regs, n: Notice)
    ensures Step(Step(OneThread(regs), Deliver(0)), Reschedule(Install(n))) == InHandler(regs, n)
  {
    hide Entry, Dispatch;
    var x := OneThread(regs).contexts[0];
    FirstInstall(regs, n);
    assert [x][0 := Dispatch(x, Install(n))] == InHandler(regs, n).contexts;
  }

  /** The second delivery to the same context is the end: the first handler has been entered and has
      returned, and the next reschedule waits for the queue lock, whatever is pending. */
  lemma SecondDeliveryHangs(regs: Regs, n: Notice, o: Outcome)
    ensures var s := OneThread(regs);
      var es := [Deliver(0), Reschedule(Install(n)), HandlerReturn, Deliver(0)];
      && Init(s) && AllPossible(s, es)
      && Execute(s, es) == BackFromHandler(regs, n).(delivery := [0])
      && Step(Execute(s, es), Reschedule(o)).hung
  {
    hide Entry, Dispatch;
    FourSteps(OneThread(regs), Deliver(0), Reschedule(Install(n)), HandlerReturn, Deliver(0));
    FirstDelivery(regs, n);
    assert Step(InHandler(regs, n), HandlerReturn) == BackFromHandler(regs, n) by {
      assert Ended(InHandler(regs, n).contexts[0]) == BackFromHandler(regs, n).contexts[0];
    }
  }

  /** The thread running with registers `now` when a delivery to it arrives. */
  function Interrupted(regs: Regs, now: Regs): Core {
    Core([Context(regs, [], None, Some(Queue(true, false)))], [0], [], None, Some(0), now, false)
  }

  lemma FirstSwitch(regs: Regs)
    ensures Step(Step(OneThread(regs), Enqueue(0)), Reschedule(Nothing)) == Interrupted(regs, regs).(delivery := [])
  {
    var x := OneThread(regs).contexts[0];
    assert Dispatch(x, Nothing) == x && [x][0 := x] == [x];
  }

  /** The state after that delivery has been dispatched. */
  function Overwritten(regs: Regs, now: Regs): Core {
    Core([Context(regs, [Frame(now, true)], Some(0), Some(Queue(true, true)))], [], [], None, Some(0), now, false)
  }

  lemma DeliveryWhileRunning(regs: Regs, now: Regs, n: Notice)
    ensures Step(Interrupted(regs, now), Reschedule(Install(n))) == Overwritten(regs, now)
  {
    hide Entry, Dispatch;
    FirstInstall(regs, n);
    var x, y := Interrupted(regs, now).contexts[0], InHandler(regs, n).contexts[0];
    var z := Overwritten(regs, now).contexts[0];
    assert Save(y, now) == z by {
      assert [Frame(Entry(BLANK, n), true)][0 := Frame(now, true)] == [Frame(now, true)];
    }
    assert [x][0 := y] == [y] && [y][0 := z] == [z];
  }

  /** A thread that is delivered to while it runs: the handler is installed, and the processor goes on
      with the interrupted registers in the handler's frame, the thread's own copy being stale. */
  lemma RunningThreadLosesHandler(regs: Regs, now: Regs, n: Notice)
    requires now.rip != n.handler
    ensures var s := OneThread(regs);
      var es := [Enqueue(0), Reschedule(Nothing), Run(now), Deliver(0)];
      && Init(s) && AllPossible(s, es)
      && var t := Execute(s, es);
      && t == Interrupted(regs, now) && Choose(t) == t.current == Some(0)
      && Step(t, Reschedule(Install(n))) == Overwritten(regs, now) && now != Entry(BLANK, n)
  {
    hide Dispatch;
    FourSteps(OneThread(regs), Enqueue(0), Reschedule(Nothing), Run(now), Deliver(0));
    FirstSwitch(regs);
    DeliveryWhileRunning(regs, now, n);
  }

  // ---------------------------------------------------------------- the order of deliveries

  /** What the reschedules of a run choose, in order. */
  ghost function Choices(s: Core, es: seq<Event>): seq<Option<nat>>
    decreases |es|
  {
    if es == [] then []
    else (if es[0].Reschedule? then [Choose(s)] else []) + Choices(Step(s, es[0]), es[1..])
  }

  ghost predicate NoDeliveries(es: seq<Event>) {
    forall i :: 0 <= i < |es| ==> !es[i].Deliver?
  }

  lemma StepTakes(s: Core, e: Event)
    requires CoreOk(s) && Possible(s, e) && !e.Deliver?
    ensures var s' := Step(s, e);
      if e.Reschedule? && s.delivery != [] then
        && Choose(s) == Some(s.delivery[|s.delivery| - 1])
        && s'.delivery == s.delivery[..|s.delivery| - 1] && s'.queue == s.queue
      else if e.Reschedule? then s'.delivery == []
      else s'.delivery == s.delivery && s.queue <= s'.queue
  {
    hide Dispatch, Save, Saved;
    ChosenExists(s);
  }

  /** The choices `cs` take from the end of the deliveries of `s`, leaving those of `s'`, and no
      queued thread as long as there are deliveries for all of them. */
  ghost predicate TakesLast(s: Core, cs: seq<Option<nat>>, s': Core) {
    var d := |s.delivery|;
    && (forall i :: 0 <= i < |cs| && i < d ==> cs[i] == Some(s.delivery[d - 1 - i]))
    && (|cs| <= d ==> s'.delivery == s.delivery[..d - |cs|] && s.queue <= s'.queue)
  }

  lemma TakesOneMore(s: Core, s1: Core, cs: seq<Option<nat>>, s': Core)
    requires TakesLast(s1, cs, s')
    requires s.delivery != [] ==> s1.delivery == s.delivery[..|s.delivery| - 1] && s1.queue == s.queue
    ensures var d := |s.delivery|;
      d > 0 ==> TakesLast(s, [Some(s.delivery[d - 1])] + cs, s')
    ensures forall c :: s.delivery == [] ==> TakesLast(s, [c] + cs, s')
  {
    if s.delivery != [] && 1 + |cs| <= |s.delivery| {
      assert s.delivery[..|s.delivery| - 1][..|s.delivery| - 1 - |cs|] == s.delivery[..|s.delivery| - 1 - |cs|];
    }
  }

  /** In every run the deliveries that are waiting are taken first, the last one first, one by each
      reschedule; until they are all taken no queued thread is taken and the server does not run. */
  lemma {:induction false} DeliveriesFirst(s: Core, es: seq<Event>)
    requires CoreOk(s) && AllPossible(s, es) && NoDeliveries(es)
    ensures TakesLast(s, Choices(s, es), Execute(s, es))
    decreases |es|
  {
    hide CoreOk, Possible, Step, Choose;
    if es == [] {
      assert s.delivery[..|s.delivery|] == s.delivery;
    } else {
      var s1 := Step(s, es[0]);
      StepOk(s, es[0]);
      StepTakes(s, es[0]);
      DeliveriesFirst(s1, es[1..]);
      if es[0].Reschedule? {
        hide TakesLast;
        TakesOneMore(s, s1, Choices(s1, es[1..]), Execute(s, es));
      } else {
        assert [] + Choices(s1, es[1..]) == Choices(s1, es[1..]);
      }
    }
  }
}
