/** The spool, its dispatcher, the teardown and the application's channel as one
    state machine. An emission holds the admission lock over two steps, because the
    dispatcher and the teardown touch the spool without that lock. */
module EventDispatch {
  import opened Wrappers
  import opened EventSpool

  datatype Config = Config(capacity: nat, publicCapacity: nat)

  const INCOMING_CHANNEL_CAPACITY: nat := 1000

  datatype Emission = Emission(item: Item, room: bool)

  /** The item at the dispatcher and how many of its events were forwarded. */
  datatype Current = Current(item: Item, done: nat)

  datatype Teardown =
    | Running
    | Dropping(batches: seq<seq<nat>>, offered: bool, started: bool)
    | Closing(reason: Option<nat>)
    | Closed

  /** The responses to DELIVERs, each with the ticket of its event: `held` by the
      reader, in the control `queue`, in the writer's `batch`, or written completely
      but not yet published (`done`). `wire` is every response ever written
      completely; once the writer is `gone`, nothing is written any more. */
  datatype Responses = Responses(
    held: set<nat>,
    queue: seq<nat>,
    batch: seq<nat>,
    sending: bool,
    done: seq<nat>,
    gone: bool,
    wire: seq<nat>)

  /** `entered` is everything that ever entered the spool and `taken` how much of it
      the dispatcher has received; `out` is everything put into the application's
      channel and `consumed` how much of it was read. `cut` is the item at which
      the dispatcher began to discard. */
  datatype State = State(
    core: Core,
    emission: Option<Emission>,
    entered: seq<Item>,
    taken: nat,
    current: Option<Current>,
    teardown: Teardown,
    out: seq<Event>,
    consumed: nat,
    receiverOpen: bool,
    discard: bool,
    cut: nat,
    exited: bool,
    responses: Responses)

  /** The events an item stands for. */
  function EventsOf(i: Item, tickets: map<nat, Ticket>): seq<Event> {
    match i
    case Direct(id) => [Ordinary(id)]
    case Batch(ids) => seq(|ids|, k requires 0 <= k < |ids| => Ordinary(ids[k]))
    case Deferred(t) => if t in tickets && tickets[t].Published? then [Ordinary(tickets[t].id)] else []
    case Final(_) => []
  }

  /** The item can be forwarded: a deferred event only once it is published or
      given up. */
  predicate Ready(i: Item, tickets: map<nat, Ticket>) {
    i.Deferred? ==> i.ticket in tickets && !tickets[i.ticket].Reserved?
  }

  function Flatten(items: seq<Item>, tickets: map<nat, Ticket>): seq<Event> {
    if items == [] then [] else
      Flatten(items[..|items| - 1], tickets) + EventsOf(items[|items| - 1], tickets)
  }

  datatype Step =
    | BeginEmit(item: Item, id: nat)
    | FinishEmit
    | BeginDrain
    | SealIfIdle
    | Seal
    | QueueResponse(ticket: nat)
    | DropHeld(ticket: nat)
    | PickResponse
    | StartWrite
    | WriteDone
    | PublishNext
    | WriterGone
    | DropResponse
    | StartTeardown(batches: seq<seq<nat>>)
    | OfferBatch
    | SendBatch
    | AbandonBatch
    | CloseSpool(reason: Option<nat>)
    | SendTerminal
    | Receive
    | Deliver
    | GiveUp(backpressure: bool)
    | FinishItem
    | Exit
    | Consume
    | DropReceiver

  ghost predicate Init(c: Config, s: State) {
    s == State(Core(Open, [], 0, map[]), None, [], 0, None, Running, [], 0, true, false, 0, false,
               Responses({}, [], [], false, [], false, []))
  }

  ghost predicate EmitStep(c: Config, s: State, step: Step, s': State) {
    match step
    case BeginEmit(item, id) =>
      && s.emission.None? && Admits(s.core.admission)
      && (item.Direct? || (item.Deferred? && item.ticket !in s.core.tickets))
      && s' == s.(emission := Some(Emission(item, s.core.depth < c.capacity)),
                  core := if item.Direct? then s.core
                          else s.core.(tickets := s.core.tickets[item.ticket := Reserved(id)]))
    case FinishEmit =>
      && s.emission.Some?
      && var e := s.emission.value;
         var (core, sent) := Offer(s.core, e.item, e.room, c.capacity);
         s' == s.(emission := None,
                  entered := if sent then s.entered + [e.item] else s.entered,
                  responses := if sent && e.item.Deferred?
                               then s.responses.(held := s.responses.held + {e.item.ticket}) else s.responses,
                  core := if sent || !e.item.Deferred? then core
                          else core.(tickets := core.tickets[e.item.ticket := Abandoned]))
    case BeginDrain =>
      s.emission.None? && s' == if s.core.admission.Open? then s.(core := s.core.(admission := Draining)) else s
    case SealIfIdle =>
      && s.emission.None?
      && s' == if s.core.admission.Sealed? || s.core.admission.Terminal? || !Idle(s.core) then s
               else s.(core := s.core.(admission := Sealed))
    case Seal =>
      s.emission.None? && s' == if s.core.admission.Terminal? then s else s.(core := s.core.(admission := Sealed))
    case _ => false
  }

  /** A ticket's holder publishes its event or drops it. */
  function Settled(s: State, ticket: nat, published: bool): State {
    s.(core := s.core.(tickets := s.core.tickets[ticket :=
         if published && ticket in s.core.tickets && s.core.tickets[ticket].Reserved?
         then Published(s.core.tickets[ticket].id) else Abandoned]))
  }

  /** The reader queues the response with the ticket, the writer batches it, and only
      a complete write publishes the event. A lost response drops its ticket. */
  ghost predicate ResponseStep(s: State, step: Step, s': State) {
    var g := s.responses;
    match step
    case QueueResponse(t) =>
      && t in g.held && !g.gone
      && s' == s.(responses := g.(held := g.held - {t}, queue := g.queue + [t]))
    case DropHeld(t) =>
      && t in g.held
      && s' == Settled(s, t, false).(responses := g.(held := g.held - {t}))
    case PickResponse =>
      && !g.gone && !g.sending && g.done == [] && g.queue != []
      && s' == s.(responses := g.(queue := g.queue[1..], batch := g.batch + [g.queue[0]]))
    case StartWrite =>
      && !g.gone && !g.sending && g.done == []
      && s' == s.(responses := g.(sending := true))
    case WriteDone =>
      && g.sending
      && s' == s.(responses := g.(sending := false, done := g.batch, batch := [], wire := g.wire + g.batch))
    case PublishNext =>
      && g.done != []
      && s' == Settled(s, g.done[0], true).(responses := g.(done := g.done[1..]))
    case WriterGone =>
      && g.done == []
      && s' == s.(responses := g.(sending := false, gone := true))
    case DropResponse =>
      && g.gone && g.batch + g.queue != []
      && s' == Settled(s, (g.batch + g.queue)[0], false).(responses :=
                 if g.batch != [] then g.(batch := g.batch[1..]) else g.(queue := g.queue[1..]))
    case _ => false
  }

  /** Teardown bypasses the admission state; only the terminal item takes the lock. */
  ghost predicate TeardownStep(c: Config, s: State, step: Step, s': State) {
    match step
    case StartTeardown(batches) =>
      && s.teardown.Running? && (forall b | b in batches :: b != [])
      && s' == s.(teardown := Dropping(batches, false, false))
    case OfferBatch =>
      && s.teardown.Dropping? && s.teardown.batches != [] && !s.teardown.offered
      && s' == s.(teardown := Dropping(s.teardown.batches, true, true),
                  core := s.core.(depth := s.core.depth + |s.teardown.batches[0]|))
    case SendBatch =>
      && s.teardown.Dropping? && s.teardown.batches != [] && s.teardown.offered && HasSlot(s.core, c.capacity)
      && var item := Batch(s.teardown.batches[0]);
         s' == s.(teardown := Dropping(s.teardown.batches[1..], false, true),
                  core := s.core.(spool := s.core.spool + [item]), entered := s.entered + [item])
    case AbandonBatch =>
      && s.teardown.Dropping? && s.teardown.batches != [] && s.teardown.offered
      && s.core.depth >= |s.teardown.batches[0]|
      && s' == s.(teardown := Dropping(s.teardown.batches[1..], false, true),
                  core := s.core.(depth := s.core.depth - |s.teardown.batches[0]|))
    case CloseSpool(reason) =>
      && s.teardown.Dropping? && s.teardown.batches == [] && s.emission.None?
      && s' == s.(teardown := Closing(reason),
                  core := s.core.(admission := Terminal, depth := s.core.depth + 1))
    case SendTerminal =>
      && s.teardown.Closing? && HasSlot(s.core, c.capacity)
      && var item := Final(s.teardown.reason);
         s' == s.(teardown := Closed, core := s.core.(spool := s.core.spool + [item]), entered := s.entered + [item])
    case _ => false
  }

  /** Free places in the application's channel. */
  function Free(c: Config, s: State): int {
    c.publicCapacity - (|s.out| - s.consumed)
  }

  predicate Forwarding(s: State) {
    && s.current.Some? && !s.discard && Ready(s.current.value.item, s.core.tickets)
    && s.current.value.done < |EventsOf(s.current.value.item, s.core.tickets)|
  }

  ghost predicate DispatchStep(c: Config, s: State, step: Step, s': State) {
    match step
    case Receive =>
      && s.current.None? && !s.exited && s.core.spool != []
      && s' == s.(current := Some(Current(s.core.spool[0], 0)), taken := s.taken + 1,
                  core := s.core.(spool := s.core.spool[1..]))
    case Deliver =>
      && Forwarding(s) && s.receiverOpen && Free(c, s) >= 2
      && var u := s.current.value;
         s' == s.(out := s.out + [EventsOf(u.item, s.core.tickets)[u.done]], current := Some(u.(done := u.done + 1)))
    case GiveUp(backpressure) =>
      && Forwarding(s) && s.taken > 0
      && (if backpressure then s.receiverOpen && Free(c, s) < 2 && s.emission.None? else !s.receiverOpen)
      && s' == s.(discard := true, cut := s.taken - 1,
                  core := s.core.(admission := if backpressure && Admits(s.core.admission) then Overflowed
                                               else s.core.admission))
    case FinishItem =>
      && s.current.Some? && !s.current.value.item.Final? && s.core.depth >= Weight(s.current.value.item)
      && (s.discard || (Ready(s.current.value.item, s.core.tickets)
                        && s.current.value.done == |EventsOf(s.current.value.item, s.core.tickets)|))
      && s' == s.(current := None, core := s.core.(depth := s.core.depth - Weight(s.current.value.item)))
    case Exit =>
      && s.current.Some? && s.current.value.item.Final? && s.core.depth >= 1
      && var reason := s.current.value.item.reason;
         s' == s.(current := None, exited := true, core := s.core.(depth := s.core.depth - 1),
                  out := if reason.Some? && s.receiverOpen && Free(c, s) >= 1
                         then s.out + [Disconnected(reason.value)] else s.out)
    case _ => false
  }

  ghost predicate ConsumerStep(s: State, step: Step, s': State) {
    match step
    case Consume => s.receiverOpen && s.consumed < |s.out| && s' == s.(consumed := s.consumed + 1)
    case DropReceiver => s' == s.(receiverOpen := false)
    case _ => false
  }

  ghost predicate Next(c: Config, s: State, step: Step, s': State) {
    || EmitStep(c, s, step, s')
    || ResponseStep(s, step, s')
    || TeardownStep(c, s, step, s')
    || DispatchStep(c, s, step, s')
    || ConsumerStep(s, step, s')
  }

  // ------------------------------------------------------------ flow of items

  /** The spool is what has entered and was not taken yet, in order. */
  ghost predicate Fifo(s: State) {
    && s.taken <= |s.entered| && s.core.spool == s.entered[s.taken..]
    && (s.current.Some? ==> s.taken > 0 && s.current.value.item == s.entered[s.taken - 1])
  }

  /** One terminal item, and it is the last; the admission state says when it exists. */
  ghost predicate TerminalLast(s: State) {
    && (forall k | 0 <= k < |s.entered| :: s.entered[k].Final? ==> k == |s.entered| - 1 && s.teardown.Closed?)
    && (s.teardown.Closed? ==> s.entered != [] && s.entered[|s.entered| - 1].Final?)
    && (s.core.admission.Terminal? <==> s.teardown.Closing? || s.teardown.Closed?)
    && (s.emission.Some? ==> Admits(s.core.admission))
    && (s.emission.Some? ==> !s.emission.value.item.Final? && !s.emission.value.item.Batch?)
    && (s.exited ==> s.teardown.Closed? && s.taken == |s.entered| && s.current.None?)
    && (s.taken == |s.entered| && s.current.None? && s.teardown.Closed? ==> s.exited)
  }

  ghost predicate Flow(s: State) {
    Fifo(s) && TerminalLast(s)
  }

  /** An item appended to the spool keeps the spool's place in the history. */
  lemma EnterFifo(s: State, item: Item, s': State)
    requires Fifo(s) && s'.entered == s.entered + [item] && s'.core.spool == s.core.spool + [item]
    requires s'.taken == s.taken && s'.current == s.current
    ensures Fifo(s')
  {
    assert (s.entered + [item])[s.taken..] == s.entered[s.taken..] + [item];
  }

  lemma EmitFifo(c: Config, s: State, step: Step, s': State)
    requires Fifo(s) && EmitStep(c, s, step, s')
    ensures Fifo(s')
  {
    hide Idle, HasSlot, Admits, Weight, Fifo;
    if s'.entered != s.entered {
      EnterFifo(s, s.emission.value.item, s');
    } else {
      SameFifo(s, s');
    }
  }

  lemma SameFifo(s: State, s': State)
    requires Fifo(s) && s'.entered == s.entered && s'.core.spool == s.core.spool
    requires s'.taken == s.taken && s'.current == s.current
    ensures Fifo(s')
  {
  }

  lemma EmitTerminal(c: Config, s: State, step: Step, s': State)
    requires TerminalLast(s) && EmitStep(c, s, step, s') && s.taken <= |s.entered|
    ensures TerminalLast(s')
  {
    hide Idle, HasSlot, Weight;
  }

  lemma TeardownFifo(c: Config, s: State, step: Step, s': State)
    requires Fifo(s) && TeardownStep(c, s, step, s')
    ensures Fifo(s')
  {
    hide HasSlot, Fifo;
    match step {
      case SendBatch => EnterFifo(s, Batch(s.teardown.batches[0]), s');
      case SendTerminal => EnterFifo(s, Final(s.teardown.reason), s');
      case _ => SameFifo(s, s');
    }
  }

  lemma TeardownTerminal(c: Config, s: State, step: Step, s': State)
    requires TerminalLast(s) && TeardownStep(c, s, step, s') && s.taken <= |s.entered|
    ensures TerminalLast(s')
  {
    hide HasSlot;
  }

  lemma DispatchFifo(c: Config, s: State, step: Step, s': State)
    requires Fifo(s) && DispatchStep(c, s, step, s')
    ensures Fifo(s')
  {
    hide Ready, EventsOf, Free, Weight;
    if step.Receive? {
      assert s.entered[s.taken..][0] == s.entered[s.taken] && s.entered[s.taken..][1..] == s.entered[s.taken + 1..];
    }
  }

  lemma DispatchTerminal(c: Config, s: State, step: Step, s': State)
    requires Fifo(s) && TerminalLast(s) && DispatchStep(c, s, step, s')
    ensures TerminalLast(s')
  {
    hide Ready, EventsOf, Free, Weight;
    if step.FinishItem? || step.Exit? {
      assert s.current.value.item == s.entered[s.taken - 1];
    }
  }

  lemma QuietFlow(s: State, step: Step, s': State)
    requires Flow(s) && (ResponseStep(s, step, s') || ConsumerStep(s, step, s'))
    ensures Flow(s')
  {
    QuietSame(s, step, s');
    hide ResponseStep, ConsumerStep;
    SameFifo(s, s');
  }

  /** The gate and the application leave the spool and the admission state alone. */
  lemma QuietSame(s: State, step: Step, s': State)
    requires ResponseStep(s, step, s') || ConsumerStep(s, step, s')
    ensures s'.core == s.core.(tickets := s'.core.tickets) && s'.emission == s.emission && s'.entered == s.entered
    ensures s'.taken == s.taken && s'.current == s.current && s'.teardown == s.teardown && s'.exited == s.exited
    ensures s'.discard == s.discard && s'.cut == s.cut && s'.out == s.out
  {
  }

  lemma FlowNext(c: Config, s: State, step: Step, s': State)
    requires Flow(s) && Next(c, s, step, s')
    ensures Flow(s')
  {
    hide EmitStep, ResponseStep, TeardownStep, DispatchStep, ConsumerStep, Fifo, TerminalLast;
    FifoTaken(s);
    if EmitStep(c, s, step, s') {
      EmitFifo(c, s, step, s');
      EmitTerminal(c, s, step, s');
    } else if TeardownStep(c, s, step, s') {
      TeardownFifo(c, s, step, s');
      TeardownTerminal(c, s, step, s');
    } else if DispatchStep(c, s, step, s') {
      DispatchFifo(c, s, step, s');
      DispatchTerminal(c, s, step, s');
    } else {
      QuietFlow(s, step, s');
    }
  }

  lemma FifoTaken(s: State)
    requires Fifo(s)
    ensures s.taken <= |s.entered|
  {
  }
}
