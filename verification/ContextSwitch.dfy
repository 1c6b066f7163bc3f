/** Context switching with notification handlers on one processor: which context runs next, where
    registers are saved and from where they are restored. */
module ContextSwitch {
  import opened Words

  /** A saved register file; `rest` stands for the registers that no handler entry sets. */
  datatype Regs = Regs(rip: nat, cs: nat, rflags: nat, rsp: nat, ss: nat, rdi: nat, rsi: nat, rdx: nat, rest: seq<nat>)

  const BLANK := Regs(0, 0, 0, 0, 0, 0, 0, 0, [])

  /** A handler frame; it is live while `active`. */
  datatype Frame = Frame(regs: Regs, active: bool)

  /** A notification queue as dispatching sees it: `active` unless muted, and its lock. */
  datatype Queue = Queue(active: bool, locked: bool)

  /** A context: the thread's own registers, its handler frames, the handler it is in and its
      notification queue, if it has one. */
  datatype Context = Context(regs: Regs, frames: seq<Frame>, handler: Option<nat>, queue: Option<Queue>)

  /** What a notification delivers: handler, stack, its two arguments and its number. */
  datatype Notice = Notice(handler: nat, sp: nat, info: nat, data: nat, number: nat)

  /** What dispatching finds under the queue lock: nothing pending, something pending that cannot be
      delivered, or a notice for a handler. */
  datatype Outcome = Nothing | Reserve | Install(notice: Notice)

  /** One processor. It is `hung` once it waits for a lock that nobody will release. */
  datatype Core = Core(
    contexts: seq<Context>,
    delivery: seq<nat>,
    queue: seq<nat>,
    server: Option<nat>,
    current: Option<nat>,
    cpu: Regs,
    hung: bool)

  // ---------------------------------------------------------------- handler frames

  /** The first frame that is not live, or the place of a new one. */
  function FreeFrame(frames: seq<Frame>, i: nat): (r: nat)
    requires i <= |frames|
    ensures i <= r <= |frames| && (r < |frames| ==> !frames[r].active)
    ensures forall k :: i <= k < r ==> frames[k].active
    decreases |frames| - i
  {
    if i == |frames| || !frames[i].active then i else FreeFrame(frames, i + 1)
  }

  function WithFrame(frames: seq<Frame>): (r: seq<Frame>)
    ensures FreeFrame(frames, 0) < |r| && frames <= r
  {
    if FreeFrame(frames, 0) == |frames| then frames + [Frame(BLANK, false)] else frames
  }

  /** The registers that a handler is entered with. */
  function Entry(left: Regs, n: Notice): Regs {
    left.(ss := 0x3b, rsp := n.sp, rflags := 0x202, cs := 0x43, rip := n.handler,
         rdi := n.info, rsi := n.data, rdx := n.number + 1)
  }

  /** Dispatching to the context waits for its queue lock. */
  predicate Blocked(c: Context) {
    c.queue.Some? && c.queue.value.active && c.queue.value.locked
  }

  /** Dispatching takes the queue lock and goes on with it: the queue is there, it is not muted, and
      something is pending. The lock is not released on any of the ways out. */
  predicate Passes(c: Context, o: Outcome) {
    c.queue.Some? && c.queue.value.active && !c.queue.value.locked && !o.Nothing?
  }

  predicate Installs(c: Context, o: Outcome) {
    Passes(c, o) && o.Install?
  }

  /** What dispatching leaves behind if it returns. */
  function Dispatch(c: Context, o: Outcome): Context {
    if !Passes(c, o) then c
    else
      var k := FreeFrame(c.frames, 0);
      var frames := WithFrame(c.frames);
      var locked := c.(frames := frames, queue := Some(c.queue.value.(locked := true)));
      match o
      case Install(n) => locked.(frames := frames[k := Frame(Entry(frames[k].regs, n), true)], handler := Some(k))
      case _ => locked
  }

  // ---------------------------------------------------------------- switching

  /** Where the registers of the flow that a context is in are saved. */
  function Saved(c: Context): Regs {
    match c.handler
    case Some(k) => if k < |c.frames| then c.frames[k].regs else BLANK
    case None => c.regs
  }

  function Save(c: Context, r: Regs): Context {
    match c.handler
    case Some(k) => if k < |c.frames| then c.(frames := c.frames[k := c.frames[k].(regs := r)]) else c
    case None => c.(regs := r)
  }

  /** Delivery contexts come first, then queued threads, then the scheduling server. */
  function Choose(s: Core): Option<nat> {
    if s.delivery != [] then Some(s.delivery[|s.delivery| - 1])
    else if s.queue != [] then Some(s.queue[|s.queue| - 1])
    else s.server
  }

  function Popped(s: Core): Core {
    if s.delivery != [] then s.(delivery := s.delivery[..|s.delivery| - 1])
    else if s.queue != [] then s.(queue := s.queue[..|s.queue| - 1])
    else s
  }

  /** Dispatch to the next context, then save the current one, then load the next one. */
  function Switch(s: Core, next: nat, o: Outcome): Core
    requires next < |s.contexts|
  {
    var cs := s.contexts[next := Dispatch(s.contexts[next], o)];
    var cs' := if s.current.Some? && s.current.value < |cs|
               then cs[s.current.value := Save(cs[s.current.value], s.cpu)] else cs;
    s.(contexts := cs', current := Some(next), cpu := Saved(cs'[next]))
  }

  /** The handler that a context is in has a live frame. */
  ghost predicate HandlerLive(x: Context) {
    x.handler.Some? ==> x.handler.value < |x.frames| && x.frames[x.handler.value].active
  }

  ghost predicate CoreOk(s: Core) {
    && (s.current.Some? ==> s.current.value < |s.contexts|)
    && (forall i :: 0 <= i < |s.delivery| ==> s.delivery[i] < |s.contexts|)
    && (forall i :: 0 <= i < |s.queue| ==> s.queue[i] < |s.contexts|)
    && (s.server.Some? ==> s.server.value < |s.contexts|)
    && (forall c :: 0 <= c < |s.contexts| ==> HandlerLive(s.contexts[c]))
  }

  datatype Event =
    | Reschedule(o: Outcome)
    | HandlerReturn
    | Mute(muted: bool)
    | Run(regs: Regs)
    | Deliver(c: nat)
    | Enqueue(c: nat)

  /** A processor that hangs does nothing more; what is delivered or queued is a context. */
  ghost predicate Possible(s: Core, e: Event) {
    !s.hung && match e
      case Deliver(c) => c < |s.contexts|
      case Enqueue(c) => c < |s.contexts|
      case _ => true
  }

  /** Rescheduling installs a handler on the context it chooses. */
  predicate InstallsNext(s: Core, o: Outcome) {
    Choose(s).Some? && Choose(s).value < |s.contexts| && Installs(s.contexts[Choose(s).value], o)
  }

  /** No handler is installed on the running context: dispatching comes before saving. */
  ghost predicate Orderly(s: Core, e: Event) {
    e.Reschedule? && InstallsNext(s, e.o) ==> Choose(s) != s.current
  }

  ghost predicate Enabled(s: Core, e: Event) {
    Possible(s, e) && Orderly(s, e)
  }

  function AfterReschedule(s: Core, o: Outcome): Core {
    match Choose(s)
    case None => s
    case Some(next) =>
      if next >= |s.contexts| then s
      else if Blocked(s.contexts[next]) then Popped(s).(hung := true)
      else Switch(Popped(s), next, o)
  }

  /** A context that has left its handler. */
  function Ended(c: Context): Context {
    match c.handler
    case Some(k) =>
      if k < |c.frames| then c.(frames := c.frames[k := c.frames[k].(active := false)], handler := None)
      else c.(handler := None)
    case None => c
  }

  /** Back from a handler: its frame is free again and the thread's own registers are loaded. A
      context without a queue is refused. */
  function AfterReturn(s: Core): Core {
    if s.current.None? || s.current.value >= |s.contexts| || s.contexts[s.current.value].queue.None? then s
    else
      var c := Ended(s.contexts[s.current.value]);
      s.(contexts := s.contexts[s.current.value := c], cpu := c.regs)
  }

  /** The running context mutes or unmutes its own queue. */
  function AfterMute(s: Core, muted: bool): Core {
    if s.current.None? || s.current.value >= |s.contexts| || s.contexts[s.current.value].queue.None? then s
    else
      var c := s.contexts[s.current.value];
      s.(contexts := s.contexts[s.current.value := c.(queue := Some(c.queue.value.(active := !muted)))])
  }

  ghost function Step(s: Core, e: Event): Core {
    match e
    case Reschedule(o) => AfterReschedule(s, o)
    case HandlerReturn => AfterReturn(s)
    case Mute(muted) => AfterMute(s, muted)
    case Run(r) => s.(cpu := r)
    case Deliver(c) => s.(delivery := s.delivery + [c])
    case Enqueue(c) => s.(queue := s.queue + [c])
  }

  // ---------------------------------------------------------------- flows

  /** A flow of control: a context's own thread, or the handler in one of its live frames. */
  datatype Flow = Main(c: nat) | Handler(c: nat, k: nat)

  /** The flow that a context is in. */
  function FlowOf(s: Core, c: nat): Flow
    requires c < |s.contexts|
  {
    match s.contexts[c].handler
    case Some(k) => Handler(c, k)
    case None => Main(c)
  }

  /** A flow that exists: a thread, or a live handler. */
  ghost predicate Exists(s: Core, f: Flow) {
    && f.c < |s.contexts|
    && (f.Handler? ==> f.k < |s.contexts[f.c].frames| && s.contexts[f.c].frames[f.k].active)
  }

  /** The registers in which a flow was left. */
  function Slot(s: Core, f: Flow): Regs {
    if f.c >= |s.contexts| then BLANK
    else match f
      case Main(c) => s.contexts[c].regs
      case Handler(c, k) => if k < |s.contexts[c].frames| then s.contexts[c].frames[k].regs else BLANK
  }

  /** The record with the new handler, if one is installed on context `c`. */
  function Entering(x: Context, c: nat, left: map<Flow, Regs>, o: Outcome): map<Flow, Regs> {
    if !Installs(x, o) then left
    else
      var k := FreeFrame(x.frames, 0);
      left[Handler(c, k) := Entry(WithFrame(x.frames)[k].regs, o.notice)]
  }

  /** The record with the flow that leaves the processor. */
  function Leaving(s: Core, left: map<Flow, Regs>): map<Flow, Regs> {
    if s.current.Some? && s.current.value < |s.contexts| then left[FlowOf(s, s.current.value) := s.cpu] else left
  }

  /** What each flow was switched out with, kept beside the machine: leaving the processor records
      the registers at that moment, entering a handler records its entry registers, and returning
      from it ends the flow. */
  ghost function Record(s: Core, left: map<Flow, Regs>, e: Event): map<Flow, Regs> {
    match e
    case Reschedule(o) =>
      if Choose(s).None? || Choose(s).value >= |s.contexts| || Blocked(s.contexts[Choose(s).value]) then left
      else
        var next := Choose(s).value;
        Entering(s.contexts[next], next, Leaving(s, left), o)
    case HandlerReturn =>
      if s.current.Some? && s.current.value < |s.contexts| && s.contexts[s.current.value].handler.Some?
         && s.contexts[s.current.value].queue.Some?
      then left - {FlowOf(s, s.current.value)} else left
    case _ => left
  }

  /** The record has exactly the flows that exist, and the saved registers are the recorded ones. */
  ghost predicate Faithful(s: Core, left: map<Flow, Regs>) {
    forall f: Flow {:trigger Exists(s, f)} {:trigger f in left} ::
      (f in left <==> Exists(s, f)) && (f in left ==> left[f] == Slot(s, f))
  }

  lemma DispatchSlot(s: Core, next: nat, o: Outcome, f: Flow)
    requires next < |s.contexts|
    ensures var s' := s.(contexts := s.contexts[next := Dispatch(s.contexts[next], o)]);
      var x, k := s.contexts[next], FreeFrame(s.contexts[next].frames, 0);
      && !Exists(s, Handler(next, k))
      && (Exists(s', f) <==> Exists(s, f) || (Installs(x, o) && f == Handler(next, k)))
      && (Exists(s, f) ==> Slot(s', f) == Slot(s, f))
      && (Installs(x, o) && f == Handler(next, k) ==> Slot(s', f) == Entry(WithFrame(x.frames)[k].regs, o.notice))
  {
    hide Entry;
  }

  lemma DispatchLive(x: Context, o: Outcome)
    requires HandlerLive(x)
    ensures HandlerLive(Dispatch(x, o))
    ensures Dispatch(x, o).handler == if Installs(x, o) then Some(FreeFrame(x.frames, 0)) else x.handler
  {
    hide Entry;
  }

  lemma DispatchKeeps(s: Core, left: map<Flow, Regs>, next: nat, o: Outcome)
    requires CoreOk(s) && Faithful(s, left) && next < |s.contexts|
    ensures var s' := s.(contexts := s.contexts[next := Dispatch(s.contexts[next], o)]);
      var k := FreeFrame(s.contexts[next].frames, 0);
      && CoreOk(s')
      && (Installs(s.contexts[next], o) ==> Handler(next, k) !in left && FlowOf(s', next) == Handler(next, k))
      && Faithful(s', Entering(s.contexts[next], next, left, o))
  {
    hide Dispatch, Entry, Installs;
    var s' := s.(contexts := s.contexts[next := Dispatch(s.contexts[next], o)]);
    var left' := Entering(s.contexts[next], next, left, o);
    DispatchLive(s.contexts[next], o);
    DispatchSlot(s, next, o, Handler(next, FreeFrame(s.contexts[next].frames, 0)));
    forall f: Flow ensures (f in left' <==> Exists(s', f)) && (f in left' ==> left'[f] == Slot(s', f)) {
      DispatchSlot(s, next, o, f);
      assert f in left <==> Exists(s, f);
    }
  }

  lemma SaveParts(x: Context, r: Regs)
    requires HandlerLive(x)
    ensures HandlerLive(Save(x, r)) && Save(x, r).handler == x.handler
  {
  }

  lemma SaveSlot(s: Core, c: nat, r: Regs, f: Flow)
    requires c < |s.contexts| && HandlerLive(s.contexts[c])
    ensures var s' := s.(contexts := s.contexts[c := Save(s.contexts[c], r)]);
      && Exists(s, FlowOf(s, c)) && (Exists(s', f) <==> Exists(s, f))
      && Slot(s', f) == if f == FlowOf(s, c) then r else Slot(s, f)
  {
  }

  lemma SaveKeeps(s: Core, left: map<Flow, Regs>, c: nat, r: Regs)
    requires CoreOk(s) && Faithful(s, left) && c < |s.contexts|
    ensures var s' := s.(contexts := s.contexts[c := Save(s.contexts[c], r)]);
      && CoreOk(s') && FlowOf(s', c) == FlowOf(s, c)
      && (forall d: nat :: d < |s.contexts| ==> s'.contexts[d].handler == s.contexts[d].handler)
      && Faithful(s', left[FlowOf(s, c) := r])
  {
    hide Save;
    var s', left' := s.(contexts := s.contexts[c := Save(s.contexts[c], r)]), left[FlowOf(s, c) := r];
    SaveParts(s.contexts[c], r);
    assert HandlerLive(s.contexts[c]);
    forall f: Flow ensures (f in left' <==> Exists(s', f)) && (f in left' ==> left'[f] == Slot(s', f)) {
      SaveSlot(s, c, r, f);
      assert f in left <==> Exists(s, f);
    }
  }

  /** A reschedule finds a context to run and returns from dispatching to it. */
  ghost predicate Switches(s: Core) {
    Choose(s).Some? && Choose(s).value < |s.contexts| && !Blocked(s.contexts[Choose(s).value])
  }

  lemma RecordsCommute(s: Core, left: map<Flow, Regs>, next: nat, o: Outcome, f: Flow, r: Regs)
    requires next < |s.contexts| && (Installs(s.contexts[next], o) ==> f.c != next)
    ensures Entering(s.contexts[next], next, left, o)[f := r] == Entering(s.contexts[next], next, left[f := r], o)
  {
  }

  lemma PopKeeps(s: Core, left: map<Flow, Regs>)
    requires CoreOk(s) && Faithful(s, left)
    ensures CoreOk(Popped(s)) && Faithful(Popped(s), left)
    ensures CoreOk(Popped(s).(hung := true)) && Faithful(Popped(s).(hung := true), left)
    ensures Choose(s).Some? ==> Choose(s).value < |s.contexts|
    ensures s.current.Some? ==> s.current.value < |s.contexts|
  {
    assert forall f: Flow :: Exists(Popped(s), f) == Exists(s, f);
    assert forall f: Flow :: Exists(Popped(s).(hung := true), f) == Exists(s, f);
  }

  lemma NoInstallOnCurrent(s: Core, o: Outcome, next: nat)
    requires next < |s.contexts| && s.current.Some? && s.current.value < |s.contexts|
    requires Installs(s.contexts[next], o) ==> s.current != Some(next)
    ensures FlowOf(s.(contexts := s.contexts[next := Dispatch(s.contexts[next], o)]), s.current.value)
         == FlowOf(s, s.current.value)
  {
  }

  /** Which context is current, and what the processor holds, does not matter for the record. */
  lemma CurrentChanged(s: Core, s': Core, left: map<Flow, Regs>)
    requires CoreOk(s) && Faithful(s, left) && s'.contexts == s.contexts && s'.delivery == s.delivery
    requires s'.queue == s.queue && s'.server == s.server && (s'.current.Some? ==> s'.current.value < |s.contexts|)
    ensures CoreOk(s') && Faithful(s', left)
  {
    assert forall f: Flow :: Exists(s', f) == Exists(s, f) && Slot(s', f) == Slot(s, f);
  }

  lemma Resumes(s: Core, left: map<Flow, Regs>, c: nat)
    requires CoreOk(s) && Faithful(s, left) && c < |s.contexts|
    ensures FlowOf(s, c) in left && Saved(s.contexts[c]) == left[FlowOf(s, c)]
  {
    assert Exists(s, FlowOf(s, c));
  }

  lemma SwitchedKeeps(p: Core, left: map<Flow, Regs>, next: nat, o: Outcome)
    requires CoreOk(p) && Faithful(p, left) && next < |p.contexts|
    requires p.current.Some? ==> p.current.value < |p.contexts|
    requires Installs(p.contexts[next], o) ==> p.current != Some(next)
    ensures var s', left' := Switch(p, next, o), Entering(p.contexts[next], next, Leaving(p, left), o);
      && CoreOk(s') && Faithful(s', left') && s'.current == Some(next) && next < |s'.contexts|
      && s'.cpu == Saved(s'.contexts[next])
  {
    hide Dispatch, Save, Saved, Entering, Faithful, CoreOk, Installs;
    DispatchKeeps(p, left, next, o);
    var d := p.(contexts := p.contexts[next := Dispatch(p.contexts[next], o)]);
    var left' := Entering(p.contexts[next], next, Leaving(p, left), o);
    if p.current.Some? {
      var c := p.current.value;
      NoInstallOnCurrent(p, o, next);
      RecordsCommute(p, left, next, o, FlowOf(p, c), p.cpu);
      SaveKeeps(d, Entering(p.contexts[next], next, left, o), c, p.cpu);
      CurrentChanged(d.(contexts := d.contexts[c := Save(d.contexts[c], p.cpu)]), Switch(p, next, o), left');
    } else {
      CurrentChanged(d, Switch(p, next, o), left');
    }
  }

  /** A switch keeps the record faithful, and the flow it resumes gets back exactly what the record
      says it was switched out with, or its entry registers if it is a new handler. */
  lemma SwitchKeeps(s: Core, left: map<Flow, Regs>, o: Outcome)
    requires CoreOk(s) && Faithful(s, left) && Enabled(s, Reschedule(o))
    ensures var s', left' := Step(s, Reschedule(o)), Record(s, left, Reschedule(o));
      && CoreOk(s') && Faithful(s', left')
      && (Switches(s) ==> s'.current == Choose(s) && s'.cpu == left'[FlowOf(s', s'.current.value)])
  {
    hide Switch, Entering, Faithful, CoreOk, Installs, Saved;
    PopKeeps(s, left);
    if Switches(s) {
      var next := Choose(s).value;
      SwitchedKeeps(Popped(s), left, next, o);
      Resumes(Switch(Popped(s), next, o), Record(s, left, Reschedule(o)), next);
    }
  }

  lemma EndKeeps(s: Core, left: map<Flow, Regs>, c: nat)
    requires CoreOk(s) && Faithful(s, left) && c < |s.contexts|
    ensures var s' := s.(contexts := s.contexts[c := Ended(s.contexts[c])]);
      && CoreOk(s') && Faithful(s', if s.contexts[c].handler.Some? then left - {FlowOf(s, c)} else left)
  {
    assert Exists(s, FlowOf(s, c));
  }

  /** Returning ends the handler and goes on with the thread exactly as it was left; a context
      without a queue is refused. */
  lemma ReturnKeeps(s: Core, left: map<Flow, Regs>)
    requires CoreOk(s) && Faithful(s, left)
    ensures var s', left' := Step(s, HandlerReturn), Record(s, left, HandlerReturn);
      && CoreOk(s') && Faithful(s', left') && s'.current == s.current
      && if s.current.Some? && s.contexts[s.current.value].queue.Some? then
           && FlowOf(s', s.current.value) == Main(s.current.value)
           && Main(s.current.value) in left && s'.cpu == left[Main(s.current.value)]
         else s' == s
  {
    if s.current.Some? && s.contexts[s.current.value].queue.Some? {
      var c := s.current.value;
      assert Exists(s, Main(c)) && Slot(s, Main(c)) == s.contexts[c].regs;
      EndKeeps(s, left, c);
      hide Faithful, CoreOk;
      CurrentChanged(s.(contexts := s.contexts[c := Ended(s.contexts[c])]), Step(s, HandlerReturn),
                     Record(s, left, HandlerReturn));
    }
  }

  lemma MuteKeeps(s: Core, left: map<Flow, Regs>, muted: bool)
    requires CoreOk(s) && Faithful(s, left)
    ensures CoreOk(Step(s, Mute(muted))) && Faithful(Step(s, Mute(muted)), left)
  {
    assert forall f: Flow :: Exists(Step(s, Mute(muted)), f) == Exists(s, f);
    assert forall f: Flow :: Slot(Step(s, Mute(muted)), f) == Slot(s, f);
  }

  // ---------------------------------------------------------------- whole runs

  ghost predicate Untouched(x: Context) {
    x.frames == [] && x.handler == None && (x.queue.Some? ==> !x.queue.value.locked)
  }

  /** At the start no context has handler frames, every queue is unlocked, and every thread is as its
      saved registers say. */
  ghost predicate Init(s: Core) {
    CoreOk(s) && !s.hung && forall c :: 0 <= c < |s.contexts| ==> Untouched(s.contexts[c])
  }

  ghost function InitialRecord(s: Core): map<Flow, Regs> {
    map c: nat | c < |s.contexts| :: Main(c) := s.contexts[c].regs
  }

  ghost predicate AllEnabled(s: Core, es: seq<Event>)
    decreases |es|
  {
    es == [] || (Enabled(s, es[0]) && AllEnabled(Step(s, es[0]), es[1..]))
  }

  ghost function Execute(s: Core, es: seq<Event>): Core
    decreases |es|
  {
    if es == [] then s else Execute(Step(s, es[0]), es[1..])
  }

  ghost function History(s: Core, left: map<Flow, Regs>, es: seq<Event>): map<Flow, Regs>
    decreases |es|
  {
    if es == [] then left else History(Step(s, es[0]), Record(s, left, es[0]), es[1..])
  }

  lemma PushKeeps(s: Core, s': Core, left: map<Flow, Regs>)
    requires Faithful(s, left) && s'.contexts == s.contexts
    ensures Faithful(s', left)
  {
    assert forall f: Flow :: Exists(s', f) == Exists(s, f) && Slot(s', f) == Slot(s, f);
  }

  lemma StepKeeps(s: Core, left: map<Flow, Regs>, e: Event)
    requires CoreOk(s) && Faithful(s, left) && Enabled(s, e)
    ensures CoreOk(Step(s, e)) && Faithful(Step(s, e), Record(s, left, e))
  {
    match e
    case Reschedule(o) => SwitchKeeps(s, left, o);
    case HandlerReturn => ReturnKeeps(s, left);
    case Mute(muted) => MuteKeeps(s, left, muted);
    case Run(r) => CurrentChanged(s, Step(s, e), left);
    case Deliver(c) => PushKeeps(s, Step(s, e), left);
    case Enqueue(c) => PushKeeps(s, Step(s, e), left);
  }

  lemma {:induction false} RunKeeps(s: Core, left: map<Flow, Regs>, es: seq<Event>)
    requires CoreOk(s) && Faithful(s, left) && AllEnabled(s, es)
    ensures CoreOk(Execute(s, es)) && Faithful(Execute(s, es), History(s, left, es))
    decreases |es|
  {
    hide Faithful, CoreOk, Enabled, Step, Record;
    if es != [] {
      StepKeeps(s, left, es[0]);
      RunKeeps(Step(s, es[0]), Record(s, left, es[0]), es[1..]);
    }
  }

  lemma InitFaithful(s: Core)
    requires Init(s)
    ensures Faithful(s, InitialRecord(s))
  {
    forall f: Flow
      ensures (f in InitialRecord(s) <==> Exists(s, f)) && (f in InitialRecord(s) ==> InitialRecord(s)[f] == Slot(s, f))
    {
      if f.Handler? && f.c < |s.contexts| {
        assert Untouched(s.contexts[f.c]);
      }
    }
  }

  /** In every run, a switch gives the flow it resumes exactly the registers that flow was last
      switched out with (or entered with), and so does a return to the thread. */
  lemma ResumesExactly(s: Core, es: seq<Event>, o: Outcome)
    requires Init(s) && AllEnabled(s, es)
    ensures var t, left := Execute(s, es), History(s, InitialRecord(s), es);
      && (Enabled(t, Reschedule(o)) && Switches(t) ==>
            var t', left' := Step(t, Reschedule(o)), Record(t, left, Reschedule(o));
            t'.current == Choose(t) && t'.current.value < |t'.contexts|
            && FlowOf(t', t'.current.value) in left' && t'.cpu == left'[FlowOf(t', t'.current.value)])
      && (t.current.Some? && t.current.value < |t.contexts| && t.contexts[t.current.value].queue.Some? ==>
            Main(t.current.value) in left && Step(t, HandlerReturn).cpu == left[Main(t.current.value)])
  {
    hide Faithful, AllEnabled, Step, Record, Enabled, Choose;
    InitFaithful(s);
    RunKeeps(s, InitialRecord(s), es);
    var t, left := Execute(s, es), History(s, InitialRecord(s), es);
    if Enabled(t, Reschedule(o)) && Switches(t) {
      SwitchKeeps(t, left, o);
      Resumes(Step(t, Reschedule(o)), Record(t, left, Reschedule(o)), Choose(t).value);
    }
    ReturnKeeps(t, left);
  }

  /** The flow that the processor is executing. */
  ghost predicate Running(s: Core, f: Flow) {
    s.current.Some? && s.current.value < |s.contexts| && FlowOf(s, s.current.value) == f
  }

  ghost predicate NeverRuns(s: Core, es: seq<Event>, f: Flow)
    decreases |es|
  {
    es == [] || (!Running(s, f) && NeverRuns(Step(s, es[0]), es[1..], f))
  }

  lemma DispatchLeaves(s: Core, next: nat, o: Outcome, f: Flow)
    requires next < |s.contexts| && Exists(s, f)
    ensures var s' := s.(contexts := s.contexts[next := Dispatch(s.contexts[next], o)]);
      Exists(s', f) && Slot(s', f) == Slot(s, f)
      && (forall c: nat :: c < |s.contexts| && FlowOf(s, c) != f ==> FlowOf(s', c) != f)
  {
  }

  lemma SaveLeaves(s: Core, c: nat, r: Regs, f: Flow)
    requires c < |s.contexts| && Exists(s, f) && FlowOf(s, c) != f
    ensures var s' := s.(contexts := s.contexts[c := Save(s.contexts[c], r)]);
      Exists(s', f) && Slot(s', f) == Slot(s, f)
  {
  }

  lemma EndedLeaves(s: Core, c: nat, f: Flow)
    requires c < |s.contexts| && Exists(s, f) && FlowOf(s, c) != f
    ensures var s' := s.(contexts := s.contexts[c := Ended(s.contexts[c])]);
      Exists(s', f) && Slot(s', f) == Slot(s, f)
  {
  }

  lemma SameContexts(s: Core, s': Core, f: Flow)
    requires s'.contexts == s.contexts
    ensures (Exists(s', f) <==> Exists(s, f)) && Slot(s', f) == Slot(s, f)
  {
  }

  lemma SwitchLeaves(p: Core, next: nat, o: Outcome, f: Flow)
    requires Exists(p, f) && !Running(p, f) && next < |p.contexts|
    ensures Exists(Switch(p, next, o), f) && Slot(Switch(p, next, o), f) == Slot(p, f)
  {
    hide Dispatch, Save, Saved, Exists, Slot;
    DispatchLeaves(p, next, o, f);
    var d := p.(contexts := p.contexts[next := Dispatch(p.contexts[next], o)]);
    if p.current.Some? && p.current.value < |p.contexts| {
      var c := p.current.value;
      SaveLeaves(d, c, p.cpu, f);
      SameContexts(d.(contexts := d.contexts[c := Save(d.contexts[c], p.cpu)]), Switch(p, next, o), f);
    } else {
      SameContexts(d, Switch(p, next, o), f);
    }
  }

  lemma RescheduleLeaves(s: Core, o: Outcome, f: Flow)
    requires Exists(s, f) && !Running(s, f)
    ensures Exists(AfterReschedule(s, o), f) && Slot(AfterReschedule(s, o), f) == Slot(s, f)
  {
    hide Switch, Exists, Slot;
    SameContexts(s, Popped(s), f);
    SameContexts(s, Popped(s).(hung := true), f);
    if Switches(s) {
      SwitchLeaves(Popped(s), Choose(s).value, o, f);
    }
  }

  lemma StepLeaves(s: Core, e: Event, f: Flow)
    requires Exists(s, f) && !Running(s, f)
    ensures Exists(Step(s, e), f) && Slot(Step(s, e), f) == Slot(s, f)
  {
    hide AfterReschedule, Ended;
    if e.Reschedule? {
      RescheduleLeaves(s, e.o, f);
    } else if e.HandlerReturn? && s.current.Some? && s.current.value < |s.contexts| {
      EndedLeaves(s, s.current.value, f);
    }
  }

  /** In every run, a thread or a live handler that does not run keeps its registers, and its frame
      is not given to anyone else, whatever is delivered, switched or returned meanwhile. */
  lemma {:induction false} LiveFramesKept(s: Core, es: seq<Event>, f: Flow)
    requires Exists(s, f) && NeverRuns(s, es, f)
    ensures Exists(Execute(s, es), f) && Slot(Execute(s, es), f) == Slot(s, f)
    decreases |es|
  {
    hide Step, Exists, Slot;
    if es != [] {
      StepLeaves(s, es[0], f);
      LiveFramesKept(Step(s, es[0]), es[1..], f);
    }
  }

  // ---------------------------------------------------------------- where it fails

  /** A handler starts with its entry registers if and only if it is not installed on the running
      context: there the save that follows overwrites the frame with the interrupted registers,
      while the thread's own copy stays out of date. */
  lemma InstallOnRunningContext(s: Core, n: Notice)
    requires CoreOk(s) && Switches(s) && s.current.Some? && InstallsNext(s, Install(n))
    ensures var next, s' := Choose(s).value, Step(s, Reschedule(Install(n)));
      var entry := Entry(WithFrame(s.contexts[next].frames)[FreeFrame(s.contexts[next].frames, 0)].regs, n);
      && (s'.cpu == entry <==> Choose(s) != s.current || s.cpu == entry)
      && (Choose(s) == s.current ==> s'.contexts[next].regs == s.contexts[next].regs && s'.cpu == s.cpu)
  {
    hide Entry, FreeFrame;
  }
}
