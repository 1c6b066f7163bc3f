/** The kernel's context switch and the notification frames in their imperative form. */
module Scheduler {
  import opened Words
  import opened ContextSwitch

  class CpuLocal {
    var contexts: seq<Context>
    var delivery: seq<nat>
    var queue: seq<nat>
    var server: Option<nat>
    var current: Option<nat>
    var hung: bool

    constructor (contexts: seq<Context>, server: Option<nat>)
      ensures State(BLANK) == Core(contexts, [], [], server, None, BLANK, false)
    {
      this.contexts, this.server, this.current := contexts, server, None;
      this.delivery, this.queue, this.hung := [], [], false;
    }

    /** The machine with the given registers in the processor. */
    ghost function State(cpu: Regs): Core
      reads this
    {
      Core(contexts, delivery, queue, server, current, cpu, hung)
    }

    /** The index of a frame that is not live, adding one if all are. */
    method GetUcontext(c: nat) returns (idx: nat)
      requires c < |contexts|
      modifies `contexts
      ensures idx == FreeFrame(old(contexts[c]).frames, 0)
      ensures contexts == old(contexts)[c := old(contexts[c]).(frames := WithFrame(old(contexts[c]).frames))]
    {
      var frames := contexts[c].frames;
      var i := 0;
      while i < |frames|
        invariant i <= |frames| && FreeFrame(frames, 0) == FreeFrame(frames, i)
      {
        if !frames[i].active {
          assert contexts == contexts[c := contexts[c].(frames := frames)];
          return i;
        }
        i := i + 1;
      }
      contexts := contexts[c := contexts[c].(frames := frames + [Frame(BLANK, false)])];
      return |frames|;
    }

    /** Takes the queue lock; answers whether it is ever obtained. */
    method LockQueue(c: nat) returns (obtained: bool)
      requires c < |contexts| && contexts[c].queue.Some?
      modifies `contexts
      ensures obtained <==> !old(contexts[c]).queue.value.locked
      ensures contexts ==
        var x := old(contexts[c]);
        if obtained then old(contexts)[c := x.(queue := Some(x.queue.value.(locked := true)))] else old(contexts)
    {
      var q := contexts[c].queue.value;
      if q.locked {
        return false;
      }
      contexts := contexts[c := contexts[c].(queue := Some(q.(locked := true)))];
      return true;
    }

    /** Dispatches to a context; answers whether the routine ever returns. It gives the queue lock
        back only if nothing is pending. */
    method NotificationDispatch(c: nat, o: Outcome) returns (returned: bool)
      requires c < |contexts|
      modifies `contexts
      ensures returned <==> !Blocked(old(contexts[c]))
      ensures returned ==> contexts == old(contexts)[c := Dispatch(old(contexts[c]), o)]
      ensures !returned ==> contexts == old(contexts)
    {
      ghost var before := contexts;
      if contexts[c].queue.None? || !contexts[c].queue.value.active {
        assert contexts == before[c := before[c]];
        return true;
      }
      var obtained := LockQueue(c);
      if !obtained {
        return false;
      }
      if o.Nothing? {
        contexts := contexts[c := contexts[c].(queue := Some(contexts[c].queue.value.(locked := false)))];
        assert contexts == before[c := before[c]];
        return true;
      }
      var k := GetUcontext(c);
      if o.Install? {
        var x := contexts[c];
        var n := o.notice;
        var regs := x.frames[k].regs.(ss := 0x3b, rsp := n.sp, rflags := 0x202, cs := 0x43, rip := n.handler);
        regs := regs.(rdi := n.info, rsi := n.data, rdx := n.number + 1);
        var frame := Frame(regs, true);
        contexts := contexts[c := x.(frames := x.frames[k := frame], handler := Some(k))];
      }
      return true;
    }

    /** Pops the next context to run. */
    method Next() returns (next: Option<nat>)
      modifies `delivery, `queue
      ensures next == Choose(old(State(BLANK))) && State(BLANK) == Popped(old(State(BLANK)))
    {
      if |delivery| > 0 {
        next := Some(delivery[|delivery| - 1]);
        delivery := delivery[..|delivery| - 1];
      } else if |queue| > 0 {
        next := Some(queue[|queue| - 1]);
        queue := queue[..|queue| - 1];
      } else {
        next := server;
      }
    }

    /** Saves the registers into the frame of the handler that the context is in, or into its thread. */
    method SaveRegisters(c: nat, regs: Regs)
      requires c < |contexts|
      modifies `contexts
      ensures contexts == old(contexts)[c := Save(old(contexts)[c], regs)]
    {
      var x := contexts[c];
      if x.handler.None? {
        x := x.(regs := regs);
      } else if x.handler.value < |x.frames| {
        var k := x.handler.value;
        x := x.(frames := x.frames[k := x.frames[k].(regs := regs)]);
      }
      contexts := contexts[c := x];
    }

    method LoadRegisters(c: nat) returns (regs: Regs)
      requires c < |contexts| && HandlerLive(contexts[c])
      ensures regs == Saved(contexts[c])
    {
      var x := contexts[c];
      if x.handler.None? {
        return x.regs;
      }
      return x.frames[x.handler.value].regs;
    }

    /** Dispatches to the next context, saves the current one and loads the next; answers whether
        dispatching returns. */
    method SwitchTo(next: nat, regs: Regs, o: Outcome) returns (returned: bool, loaded: Regs)
      requires CoreOk(State(regs)) && next < |contexts|
      modifies `contexts, `current
      ensures returned <==> !Blocked(old(contexts)[next])
      ensures State(loaded) == if returned then Switch(old(State(regs)), next, o) else old(State(regs))
    {
      hide Dispatch, Save, Saved, Blocked;
      DispatchLive(contexts[next], o);
      returned := NotificationDispatch(next, o);
      if !returned {
        return false, regs;
      }
      if current.Some? {
        SaveParts(contexts[current.value], regs);
        SaveRegisters(current.value, regs);
      }
      current := Some(next);
      loaded := LoadRegisters(next);
    }

    /** Switches contexts; answers the registers that the processor goes on with. If dispatching does
        not return, the processor hangs. */
    method Reschedule(regs: Regs, o: Outcome) returns (loaded: Regs)
      requires CoreOk(State(regs)) && !hung
      modifies this
      ensures State(loaded) == Step(old(State(regs)), ContextSwitch.Reschedule(o))
    {
      hide Switch, Blocked, HandlerLive;
      var next := Next();
      if next.None? {
        return regs;
      }
      var returned;
      returned, loaded := SwitchTo(next.value, regs, o);
      if !returned {
        hung := true;
      }
    }

    /** Ends the handler of the current context; answers the thread's own registers. */
    method NotificationReturn(regs: Regs) returns (loaded: Regs)
      requires CoreOk(State(regs))
      modifies `contexts
      ensures State(loaded) == Step(old(State(regs)), HandlerReturn)
    {
      if current.None? || contexts[current.value].queue.None? {
        return regs;
      }
      var x := contexts[current.value];
      if x.handler.Some? {
        var k := x.handler.value;
        assert HandlerLive(x);
        x := x.(frames := x.frames[k := x.frames[k].(active := false)], handler := None);
      }
      contexts := contexts[current.value := x];
      loaded := x.regs;
    }

    /** Mutes or unmutes the queue of the current context. */
    method NotificationMute(muted: bool, ghost regs: Regs)
      requires CoreOk(State(regs))
      modifies `contexts
      ensures State(regs) == Step(old(State(regs)), Mute(muted))
    {
      if current.None? || contexts[current.value].queue.None? {
        return;
      }
      var x := contexts[current.value];
      contexts := contexts[current.value := x.(queue := Some(x.queue.value.(active := !muted)))];
    }
  }
}
