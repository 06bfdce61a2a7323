/** The event path of a connection as its sections update it in place: the admission
    lock's sections, the teardown's batches, the tickets of DELIVERs, and the
    dispatcher's handling of one item. Each method is a step, or a run of steps, of
    the machine. */
module EventPath {
  import opened Wrappers
  import opened EventSpool
  import opened EventDispatch
  import opened EventDepth
  import opened EventGate
  import opened EventOrder
  import opened EventPromises

  datatype ReservationError = SpoolOverflowed | SpoolClosed

  // --------------------------------------------------- sections of two steps

  /** The state inside the admission lock, after the capacity was looked at. */
  function Emitting(c: Config, s: State, item: Item, id: nat): State {
    s.(emission := Some(Emission(item, s.core.depth < c.capacity)),
       core := if item.Deferred? then s.core.(tickets := s.core.tickets[item.ticket := Reserved(id)]) else s.core)
  }

  /** An emission under the admission lock, from its check to its attempt to send. */
  ghost predicate Emits(c: Config, s: State, item: Item, id: nat, s': State) {
    && EmitStep(c, s, BeginEmit(item, id), Emitting(c, s, item, id))
    && EmitStep(c, Emitting(c, s, item, id), FinishEmit, s')
  }

  /** What an emission leaves behind, item by item. */
  lemma EmitsIs(c: Config, s: State, item: Item, id: nat, s': State)
    requires s.emission.None? && Admits(s.core.admission)
    requires item.Direct? || (item.Deferred? && item.ticket !in s.core.tickets)
    requires var sent := HasSlot(s.core, c.capacity);
             && s'.core.admission == (if s.core.depth < c.capacity && sent then s.core.admission else Overflowed)
             && s'.core.spool == (if sent then s.core.spool + [item] else s.core.spool)
             && s'.core.depth == s.core.depth + (if sent then Weight(item) else 0)
             && s'.core.tickets == (if item.Direct? then s.core.tickets
                                    else if sent then s.core.tickets[item.ticket := Reserved(id)]
                                    else s.core.tickets[item.ticket := Abandoned])
             && s'.entered == (if sent then s.entered + [item] else s.entered)
             && s'.responses == (if sent && item.Deferred?
                                 then s.responses.(held := s.responses.held + {item.ticket}) else s.responses)
    requires SameElsewhere(s, s')
    ensures Emits(c, s, item, id, s')
  {
    hide Weight;
  }

  /** What an emission does not touch. */
  ghost predicate SameElsewhere(s: State, s': State) {
    && s'.emission == s.emission && s'.taken == s.taken && s'.current == s.current && s'.teardown == s.teardown
    && s'.out == s.out && s'.consumed == s.consumed && s'.receiverOpen == s.receiverOpen
    && s'.discard == s.discard && s'.cut == s.cut && s'.exited == s.exited
  }

  lemma EmitsKeep(c: Config, s: State, item: Item, id: nat, s': State)
    requires Inv(c, s) && Emits(c, s, item, id, s')
    ensures Inv(c, s')
  {
    hide Inv, EmitStep, Emitting;
    var mid := Emitting(c, s, item, id);
    EmitIsNext(c, s, BeginEmit(item, id), mid);
    EmitIsNext(c, mid, FinishEmit, s');
    InvNext(c, s, BeginEmit(item, id), mid);
    InvNext(c, mid, FinishEmit, s');
  }

  lemma EmitIsNext(c: Config, s: State, step: Step, s': State)
    requires EmitStep(c, s, step, s')
    ensures Next(c, s, step, s')
  {
    hide EmitStep;
  }

  lemma TeardownIsNext(c: Config, s: State, step: Step, s': State)
    requires TeardownStep(c, s, step, s')
    ensures Next(c, s, step, s')
  {
    hide TeardownStep;
  }

  lemma ResponseIsNext(c: Config, s: State, step: Step, s': State)
    requires ResponseStep(s, step, s')
    ensures Next(c, s, step, s')
  {
    hide ResponseStep;
  }

  lemma DispatchIsNext(c: Config, s: State, step: Step, s': State)
    requires DispatchStep(c, s, step, s')
    ensures Next(c, s, step, s')
  {
    hide DispatchStep;
  }

  // ------------------------------------------------------ publishing a batch

  /** The state after the first `n` tickets of a written batch were published. */
  function AfterPublish(s: State, n: nat): State
    requires n <= |s.responses.done|
  {
    if n == 0 then s
    else
      var t := AfterPublish(s, n - 1);
      Settled(t, s.responses.done[n - 1], true).(responses := t.responses.(done := s.responses.done[n..]))
  }

  lemma {:induction false} AfterPublishLeft(s: State, n: nat)
    requires n <= |s.responses.done|
    ensures AfterPublish(s, n).responses == s.responses.(done := s.responses.done[n..])
  {
    if n > 0 {
      AfterPublishLeft(s, n - 1);
    } else {
      assert s.responses.done[0..] == s.responses.done;
    }
  }

  /** Publishing a written batch is a run of single publications. */
  lemma PublishIsRun(s: State, n: nat)
    requires n < |s.responses.done|
    ensures ResponseStep(AfterPublish(s, n), PublishNext, AfterPublish(s, n + 1))
  {
    AfterPublishLeft(s, n);
    assert s.responses.done[n..][1..] == s.responses.done[n + 1..];
    hide AfterPublish;
    AfterPublishNext(s, n);
    hide Settled;
  }

  lemma AfterPublishNext(s: State, n: nat)
    requires n < |s.responses.done|
    ensures AfterPublish(s, n + 1) ==
            Settled(AfterPublish(s, n), s.responses.done[n], true).(
              responses := AfterPublish(s, n).responses.(done := s.responses.done[n + 1..]))
  {
  }

  // ------------------------------------------------- one item at the dispatcher

  /** The dispatcher's own steps, while the application may read. */
  predicate DispatcherOrReader(step: Step) {
    step.Receive? || step.Deliver? || step.GiveUp? || step.FinishItem? || step.Exit? || step.Consume?
  }

  ghost predicate PathRun(c: Config, states: seq<State>, steps: seq<Step>) {
    && |states| == |steps| + 1
    && forall i | 0 <= i < |steps| :: Next(c, states[i], steps[i], states[i + 1]) && DispatcherOrReader(steps[i])
  }

  lemma RunSnoc(c: Config, states: seq<State>, steps: seq<Step>, step: Step, s': State)
    requires PathRun(c, states, steps) && DispatcherOrReader(step) && Next(c, states[|steps|], step, s')
    ensures PathRun(c, states + [s'], steps + [step])
  {
    hide Next, DispatcherOrReader;
  }

  /** The application has read `k` more events. */
  function AfterReads(s: State, k: nat): State {
    s.(consumed := s.consumed + k)
  }

  lemma {:induction false} ReadsAreRun(c: Config, states: seq<State>, steps: seq<Step>, k: nat)
    returns (states': seq<State>, steps': seq<Step>)
    requires PathRun(c, states, steps) && Inv(c, states[|steps|])
    requires states[|steps|].receiverOpen && states[|steps|].consumed + k <= |states[|steps|].out|
    ensures PathRun(c, states', steps') && states <= states' && steps <= steps'
    ensures states'[|steps'|] == AfterReads(states[|steps|], k) && Inv(c, states'[|steps'|])
  {
    hide Inv, PathRun;
    PathRunSize(c, states, steps);
    if k == 0 {
      states', steps' := states, steps;
    } else {
      states', steps' := ReadsAreRun(c, states, steps, k - 1);
      PathRunSize(c, states', steps');
      var s, t := states'[|steps'|], AfterReads(states[|steps|], k);
      ConsumeIsNext(c, s, t);
      InvNext(c, s, Consume, t);
      hide Next;
      RunSnoc(c, states', steps', Consume, t);
      states', steps' := states' + [t], steps' + [Consume];
    }
  }

  lemma PathRunSize(c: Config, states: seq<State>, steps: seq<Step>)
    requires PathRun(c, states, steps)
    ensures |states| == |steps| + 1
  {
  }

  lemma ConsumeIsNext(c: Config, s: State, t: State)
    requires s.receiverOpen && s.consumed < |s.out| && t == s.(consumed := s.consumed + 1)
    ensures Next(c, s, Consume, t)
  {
    hide EmitStep, ResponseStep, TeardownStep, DispatchStep;
  }

  // ---------------------------------------------------------------- the object

  class EventPath {
    const config: Config
    var admission: Admission
    var spool: seq<Item>
    var depth: nat
    var tickets: map<nat, Ticket>
    var nextTicket: nat
    var pendingTickets: nat
    var responses: Responses
    var teardown: Teardown
    var current: Option<Current>
    var out: seq<Event>
    var consumed: nat
    var receiverOpen: bool
    var discard: bool
    var exited: bool
    var dropped: nat
    var overload: bool
    ghost var entered: seq<Item>
    ghost var taken: nat
    ghost var cut: nat

    /** The machine state between two sections. */
    ghost function View(): State
      reads this
    {
      State(Core(admission, spool, depth, tickets), None, entered, taken, current, teardown, out, consumed,
            receiverOpen, discard, cut, exited, responses)
    }

    ghost predicate Valid()
      reads this
    {
      Inv(config, View()) && TicketCount(tickets, nextTicket, pendingTickets)
    }

    constructor (configured: nat, windowSize: nat)
      ensures Valid() && Init(config, View())
      ensures config == Config(SpoolCapacity(configured, windowSize), INCOMING_CHANNEL_CAPACITY)
    {
      hide Inv, SpoolCapacity, TicketCount;
      config := Config(SpoolCapacity(configured, windowSize), INCOMING_CHANNEL_CAPACITY);
      admission, spool, depth, tickets, nextTicket, pendingTickets := Open, [], 0, map[], 0, 0;
      responses := Responses({}, [], [], false, [], false, []);
      teardown, current, out, consumed := Running, None, [], 0;
      receiverOpen, discard, exited, dropped, overload := true, false, false, 0, false;
      entered, taken, cut := [], 0, 0;
      new;
      InvInit(config, View());
      NoTickets();
    }

    // ----------------------------------------------------------- emissions

    /** A bounded channel: the item enters at the back, or comes back. Its permit
        counts from before the attempt until it is dropped. */
    method TrySend(item: Item) returns (sent: bool)
      modifies `spool, `depth, `entered
      ensures sent == (|old(spool)| < config.capacity + EVENT_SPOOL_EMERGENCY_CAPACITY)
      ensures spool == if sent then old(spool) + [item] else old(spool)
      ensures depth == old(depth) + if sent then Weight(item) else 0
      ensures entered == if sent then old(entered) + [item] else old(entered)
    {
      depth := depth + Weight(item);
      sent := |spool| < config.capacity + EVENT_SPOOL_EMERGENCY_CAPACITY;
      if sent {
        spool := spool + [item];
        entered := entered + [item];
      } else {
        depth := depth - Weight(item);
      }
    }

    /** An event that needs no gate. `overload` asks for the bounded close. */
    method EmitEvent(id: nat) returns (sent: bool, overload: bool)
      requires Valid()
      modifies `admission, `spool, `depth, `entered, `dropped
      ensures Valid()
      ensures !Admits(old(admission)) ==> !sent && View() == old(View())
      ensures Admits(old(admission)) ==> Emits(config, old(View()), Direct(id), id, View())
      ensures old(admission).Open? || old(admission).Draining? ==>
                && sent == (|old(spool)| < config.capacity + 2)
                && admission == if sent && old(depth) < config.capacity then old(admission) else Overflowed
      ensures entered == if sent then old(entered) + [Direct(id)] else old(entered)
      ensures overload <==> admission.Overflowed? && !old(admission).Overflowed?
      ensures dropped == old(dropped) + if sent then 0 else 1
    {
      hide Inv, Emits, TicketCount;
      ghost var before := View();
      sent, overload := false, false;
      match admission {
        case Terminal =>
        case Sealed =>
        case Overflowed =>
        case _ =>
          var hasCapacity := depth < config.capacity;
          sent := TrySend(Direct(id));
          if !hasCapacity || !sent {
            admission := Overflowed;
            overload := true;
          }
          EmitsIs(config, before, Direct(id), id, View());
          EmitsKeep(config, before, Direct(id), id, View());
      }
      if !sent { dropped := dropped + 1; }
    }

    /** A place in the spool and a new ticket for it, counted while it is pending. */
    method MakeEventTicket(id: nat) returns (ticket: Option<nat>)
      requires TicketCount(tickets, nextTicket, pendingTickets)
      modifies `spool, `depth, `entered, `tickets, `nextTicket, `pendingTickets, `responses
      ensures TicketCount(tickets, nextTicket, pendingTickets) && old(nextTicket) !in old(tickets)
      ensures ticket == if |old(spool)| < config.capacity + EVENT_SPOOL_EMERGENCY_CAPACITY then Some(old(nextTicket))
                        else None
      ensures spool == if ticket.Some? then old(spool) + [Deferred(old(nextTicket))] else old(spool)
      ensures entered == if ticket.Some? then old(entered) + [Deferred(old(nextTicket))] else old(entered)
      ensures depth == old(depth) + if ticket.Some? then 1 else 0
      ensures tickets == old(tickets)[old(nextTicket) := if ticket.Some? then Reserved(id) else Abandoned]
      ensures responses == if ticket.Some? then old(responses).(held := old(responses).held + {old(nextTicket)})
                           else old(responses)
    {
      hide TicketCount;
      var t := nextTicket;
      nextTicket := nextTicket + 1;
      var sent := TrySend(Deferred(t));
      TicketAdded(tickets, t, pendingTickets, if sent then Reserved(id) else Abandoned);
      if !sent {
        tickets := tickets[t := Abandoned];
        return None;
      }
      tickets := tickets[t := Reserved(id)];
      pendingTickets := pendingTickets + 1;
      responses := responses.(held := responses.held + {t});
      return Some(t);
    }

    /** The place of a DELIVER, reserved before its response is written. */
    method ReserveDeferredEvent(id: nat) returns (r: Result<nat, ReservationError>, overload: bool)
      requires Valid()
      modifies `admission, `spool, `depth, `entered, `tickets, `nextTicket, `pendingTickets, `responses
      ensures Valid()
      ensures !Admits(old(admission)) ==>
                View() == old(View()) && r == Err(if old(admission).Overflowed? then SpoolOverflowed else SpoolClosed)
      ensures Admits(old(admission)) ==>
                && Emits(config, old(View()), Deferred(old(nextTicket)), id, View())
                && r == if entered == old(entered) then Err(SpoolOverflowed) else Ok(old(nextTicket))
      ensures old(admission).Open? || old(admission).Draining? ==>
                && r.Ok? == (|old(spool)| < config.capacity + 2)
                && admission == if r.Ok? && old(depth) < config.capacity then old(admission) else Overflowed
      ensures overload <==> admission.Overflowed? && !old(admission).Overflowed?
    {
      hide Inv, Emits, TicketCount;
      ghost var before := View();
      overload := false;
      match admission {
        case Terminal => r := Err(SpoolClosed);
        case Sealed => r := Err(SpoolClosed);
        case Overflowed => r := Err(SpoolOverflowed);
        case _ =>
          var room := depth < config.capacity;
          var ticket := MakeEventTicket(id);
          if !room || ticket.None? {
            admission := Overflowed;
            overload := true;
          }
          r := if ticket.Some? then Ok(ticket.value) else Err(SpoolOverflowed);
          EmitsIs(config, before, Deferred(old(nextTicket)), id, View());
          EmitsKeep(config, before, Deferred(old(nextTicket)), id, View());
      }
    }

    // ----------------------------------------------------- draining and sealing

    method BeginEventDrain()
      requires Valid()
      modifies `admission
      ensures Valid() && EmitStep(config, old(View()), BeginDrain, View())
      ensures admission == if old(admission).Open? then Draining else old(admission)
    {
      hide Inv;
      ghost var before := View();
      if admission == Open { admission := Draining; }
      InvKept(config, before, BeginDrain, View());
    }

    /** Seals only when no reserved ticket is left. */
    method SealEventAdmissionIfIdle() returns (isSealed: bool)
      requires Valid()
      modifies `admission
      ensures Valid() && EmitStep(config, old(View()), SealIfIdle, View())
      ensures isSealed <==> admission.Sealed? || admission.Terminal?
      ensures admission == if old(admission).Terminal? || old(pendingTickets) != 0 then old(admission) else Sealed
    {
      hide Inv;
      ghost var before := View();
      IdleIsUngated(before.core);
      CountIsIdle(tickets, nextTicket, pendingTickets);
      hide Idle;
      if admission == Sealed || admission == Terminal {
        isSealed := true;
      } else if pendingTickets != 0 {
        isSealed := false;
      } else {
        admission := Sealed;
        isSealed := true;
      }
      InvKept(config, before, SealIfIdle, View());
    }

    method SealEventAdmission()
      requires Valid()
      modifies `admission
      ensures Valid() && EmitStep(config, old(View()), Seal, View())
      ensures admission == if old(admission).Terminal? then Terminal else Sealed
    {
      hide Inv;
      ghost var before := View();
      if admission != Terminal { admission := Sealed; }
      InvKept(config, before, Seal, View());
    }

    // ------------------------------------------------------------- teardown

    method StartTeardown(batches: seq<seq<nat>>)
      requires Valid() && teardown.Running? && forall b | b in batches :: b != []
      modifies `teardown
      ensures Valid() && TeardownStep(config, old(View()), Step.StartTeardown(batches), View())
    {
      hide Inv;
      ghost var before := View();
      teardown := Dropping(batches, false, false);
      TearKept(config, before, Step.StartTeardown(batches), View());
    }

    /** The permit of the next batch is taken before its first attempt. */
    method OfferBatch()
      requires Valid() && teardown.Dropping? && teardown.batches != [] && !teardown.offered
      modifies `teardown, `depth
      ensures Valid() && TeardownStep(config, old(View()), Step.OfferBatch, View())
    {
      hide Inv, TicketCount;
      ghost var before := View();
      depth := depth + |teardown.batches[0]|;
      teardown := Dropping(teardown.batches, true, true);
      TearKept(config, before, Step.OfferBatch, View());
    }

    /** One attempt: the batch enters, or waits for the next attempt. */
    method TryBatch() returns (sent: bool)
      requires Valid() && teardown.Dropping? && teardown.batches != [] && teardown.offered
      modifies `teardown, `spool, `entered
      ensures Valid() && sent == HasSlot(old(View()).core, config.capacity)
      ensures if sent then TeardownStep(config, old(View()), SendBatch, View()) else View() == old(View())
    {
      hide Inv, TicketCount;
      ghost var before := View();
      sent := |spool| < config.capacity + EVENT_SPOOL_EMERGENCY_CAPACITY;
      if sent {
        spool := spool + [Batch(teardown.batches[0])];
        entered := entered + [Batch(teardown.batches[0])];
        teardown := Dropping(teardown.batches[1..], false, true);
        TearKept(config, before, SendBatch, View());
      }
    }

    /** The retry budget is used up: the batch is dropped and counted. */
    method GiveUpBatch()
      requires Valid() && teardown.Dropping? && teardown.batches != [] && teardown.offered
      modifies `teardown, `depth, `dropped
      ensures Valid() && TeardownStep(config, old(View()), AbandonBatch, View())
      ensures dropped == old(dropped) + |old(teardown).batches[0]|
    {
      hide Inv, TicketCount;
      DepthCovers(config, View());
      ghost var before := View();
      depth := depth - |teardown.batches[0]|;
      dropped := dropped + |teardown.batches[0]|;
      teardown := Dropping(teardown.batches[1..], false, true);
      TearKept(config, before, AbandonBatch, View());
    }

    /** The close after the batches: the first call makes the terminal item, which
        enters at once if there is a slot and is left to the retries otherwise. */
    method CloseEventSpool(reason: Option<nat>) returns (first: bool)
      requires Valid() && (admission.Terminal? || (teardown.Dropping? && teardown.batches == []))
      modifies `admission, `depth, `teardown, `spool, `entered
      ensures Valid() && (first <==> !old(admission).Terminal?)
      ensures !first ==> View() == old(View())
      ensures first && !HasSlot(old(View()).core, config.capacity) ==>
                TeardownStep(config, old(View()), CloseSpool(reason), View())
      ensures first && HasSlot(old(View()).core, config.capacity) ==>
                && TeardownStep(config, old(View()), CloseSpool(reason), ClosedTo(old(View()), reason))
                && TeardownStep(config, ClosedTo(old(View()), reason), SendTerminal, View())
      ensures first ==>
                && admission.Terminal?
                && if |old(spool)| < config.capacity + 2
                   then spool == old(spool) + [Final(reason)] && teardown.Closed?
                   else spool == old(spool) && teardown == Closing(reason)
    {
      hide Inv, TicketCount;
      first := admission != Terminal;
      if !first { return; }
      ghost var before := View();
      admission, depth, teardown := Terminal, depth + 1, Closing(reason);
      TearKept(config, before, CloseSpool(reason), View());
      var sent := RetryTerminal();
    }

    /** One attempt to put the terminal item into the spool. */
    method RetryTerminal() returns (sent: bool)
      requires Valid() && teardown.Closing?
      modifies `teardown, `spool, `entered
      ensures Valid() && sent == HasSlot(old(View()).core, config.capacity)
      ensures if sent then TeardownStep(config, old(View()), SendTerminal, View()) else View() == old(View())
      ensures sent ==> spool == old(spool) + [Final(old(teardown).reason)]
    {
      hide Inv, TicketCount;
      ghost var before := View();
      sent := |spool| < config.capacity + EVENT_SPOOL_EMERGENCY_CAPACITY;
      if sent {
        spool := spool + [Final(teardown.reason)];
        entered := entered + [Final(teardown.reason)];
        teardown := Teardown.Closed;
        TearKept(config, before, SendTerminal, View());
      }
    }

    // -------------------------------------------------------------- tickets

    /** The response with its ticket goes into the control queue, or the ticket is
        dropped because the writer is gone. */
    method QueueResponse(ticket: nat) returns (queued: bool)
      requires Valid() && ticket in responses.held
      modifies `responses, `tickets, `pendingTickets
      ensures Valid() && queued == !old(responses).gone
      ensures ResponseStep(old(View()), if queued then Step.QueueResponse(ticket) else DropHeld(ticket), View())
    {
      hide Inv, TicketCount;
      ghost var before := View();
      HeldIsPending(config, before, ticket);
      queued := !responses.gone;
      responses := responses.(held := responses.held - {ticket});
      if queued {
        responses := responses.(queue := responses.queue + [ticket]);
        ResponseKept(config, before, Step.QueueResponse(ticket), View());
      } else {
        Settle(ticket, false);
        ResponseKept(config, before, DropHeld(ticket), View());
      }
    }

    /** The end of a ticket: its event is published or it was dropped. */
    method Settle(ticket: nat, published: bool)
      requires TicketCount(tickets, nextTicket, pendingTickets) && ticket in tickets && tickets[ticket].Reserved?
      modifies `tickets, `pendingTickets
      ensures TicketCount(tickets, nextTicket, pendingTickets)
      ensures tickets == old(tickets)[ticket := if published then Published(old(tickets)[ticket].id) else Abandoned]
    {
      TicketSettled(tickets, nextTicket, pendingTickets, ticket,
                    if published then Published(tickets[ticket].id) else Abandoned);
      tickets := tickets[ticket := if published then Published(tickets[ticket].id) else Abandoned];
      pendingTickets := pendingTickets - 1;
    }

    /** The writer's batch is on the wire: the events behind its responses are
        published, one after the other. */
    method CompleteWrite()
      requires Valid() && responses.sending
      modifies `responses, `tickets, `pendingTickets
      ensures Valid() && ResponseStep(old(View()), WriteDone, WroteBatch(old(View())))
      ensures View() == AfterPublish(WroteBatch(old(View())), |old(responses).batch|)
    {
      hide Inv, TicketCount, AfterPublish;
      ghost var before := View();
      responses := responses.(sending := false, done := responses.batch, batch := [],
                              wire := responses.wire + responses.batch);
      ghost var mid := View();
      ResponseKept(config, before, WriteDone, mid);
      hide ResponseStep, WroteBatch;
      PublishStart(mid);
      ghost var n := |responses.done|;
      ghost var i := 0;
      while responses.done != []
        invariant Valid() && i <= n && View() == AfterPublish(mid, i) && responses.done == mid.responses.done[i..]
        decreases |responses.done|
      {
        PublishIsRun(mid, i);
        AfterPublishLeft(mid, i + 1);
        ghost var s := View();
        PublishFront();
        PublishUnique(s, View(), AfterPublish(mid, i + 1));
        i := i + 1;
      }
    }

    /** The event behind the next written response is published. */
    method PublishFront()
      requires Valid() && responses.done != []
      modifies `responses, `tickets, `pendingTickets
      ensures Valid() && ResponseStep(old(View()), PublishNext, View())
    {
      hide Inv, TicketCount;
      ghost var before := View();
      DoneIsPending(config, before);
      Settle(responses.done[0], true);
      responses := responses.(done := responses.done[1..]);
      ResponseKept(config, before, PublishNext, View());
    }

    // ------------------------------------------------------------ dispatcher

    method Receive()
      requires Valid() && current.None? && !exited && spool != []
      modifies `current, `taken, `spool
      ensures Valid() && DispatchStep(config, old(View()), Step.Receive, View())
      ensures current == Some(Current(old(spool)[0], 0))
    {
      hide Inv, TicketCount, EventsOf, Ready, Forwarding;
      ghost var before := View();
      current := Some(Current(spool[0], 0));
      taken := taken + 1;
      spool := spool[1..];
      DispatchKept(config, before, Step.Receive, View());
    }

    /** The next event goes into the application's channel; a place stays free. */
    method Forward()
      requires Valid() && Forwarding(View()) && receiverOpen && Free(config, View()) >= 2
      modifies `current, `out
      ensures Valid() && DispatchStep(config, old(View()), Deliver, View())
      ensures out == old(out) + [NextEvent(old(View()))]
      ensures current == Some(old(current).value.(done := old(current).value.done + 1))
    {
      hide Inv, TicketCount, EventsOf, Ready;
      ghost var before := View();
      out := out + [EventsOf(current.value.item, tickets)[current.value.done]];
      current := Some(current.value.(done := current.value.done + 1));
      DispatchKept(config, before, Deliver, View());
    }

    /** The application is gone, or did not read in time: from here on events are
        discarded, and a slow application also closes the connection. */
    method GiveUp()
      requires Valid() && Forwarding(View()) && (receiverOpen ==> Free(config, View()) < 2)
      modifies `discard, `cut, `admission, `overload
      ensures Valid() && DispatchStep(config, old(View()), Step.GiveUp(receiverOpen), View())
      ensures discard && overload == (old(overload) || receiverOpen)
      ensures admission == if receiverOpen && (old(admission).Open? || old(admission).Draining?) then Overflowed
                           else old(admission)
    {
      hide Inv, TicketCount, EventsOf, Ready;
      ghost var before := View();
      DepthCovers(config, before);
      discard, cut := true, taken - 1;
      if receiverOpen {
        overload := true;
        if admission == Open || admission == Draining { admission := Overflowed; }
      }
      DispatchKept(config, before, Step.GiveUp(receiverOpen), View());
    }

    /** The wait for two free places, while the application reads `readings` events
        at most. */
    method WaitForRoom(readings: nat) returns (k: nat)
      requires Valid() && receiverOpen
      modifies `consumed
      ensures k == ReadsFor(config, old(View()), readings) && consumed == old(consumed) + k
    {
      hide Inv, TicketCount;
      OutBound(config, View());
      var free := config.publicCapacity - (|out| - consumed);
      if free >= 2 { return 0; }
      k := if readings < |out| - consumed then readings else |out| - consumed;
      consumed := consumed + k;
    }

    /** One attempt to put the next event of the current item into the application's
        channel. */
    method Attempt(readings: nat, ghost states: seq<State>, ghost steps: seq<Step>)
      returns (sent: bool, ghost states': seq<State>, ghost steps': seq<Step>)
      requires Valid() && Forwarding(View())
      requires PathRun(config, states, steps) && states[|steps|] == View()
      modifies `current, `out, `consumed, `discard, `cut, `admission, `overload
      ensures Valid() && Extends(config, states, steps, states', steps') && states'[|steps'|] == View()
      ensures sent <==> old(receiverOpen) && FindsRoom(config, old(View()), readings)
      ensures sent <==>
                && old(receiverOpen)
                && (|| config.publicCapacity - (|old(out)| - old(consumed)) >= 2
                    || (&& config.publicCapacity >= 2
                        && config.publicCapacity - (|old(out)| - old(consumed)) + readings >= 2))
      ensures if sent
              then out == old(out) + [NextEvent(old(View()))] && !discard
                   && current == Some(old(current).value.(done := old(current).value.done + 1))
              else out == old(out) && discard && current == old(current)
      ensures overload == (old(overload) || (!sent && old(receiverOpen)))
    {
      hide Inv, TicketCount, PathRun, EventsOf, Ready, DispatchStep;
      states', steps' := states, steps;
      ExtendsItself(config, states, steps);
      sent := false;
      if receiverOpen {
        OutBound(config, View());
        var k := WaitForRoom(readings);
        states', steps' := ReadsAreRun(config, states, steps, k);
        ReadsExtend(config, states, steps, states', steps');
        sent := config.publicCapacity - (|out| - consumed) >= 2;
      }
      ghost var step := if sent then Deliver else Step.GiveUp(receiverOpen);
      if sent {
        Forward();
      } else {
        GiveUp();
      }
      states', steps' := Extended(config, states, steps, states', steps', step, View());
    }

    /** One ready event: it is forwarded, or counted as dropped. */
    method DispatchDirect(readings: nat, ghost states: seq<State>, ghost steps: seq<Step>)
      returns (ghost states': seq<State>, ghost steps': seq<Step>)
      requires Valid() && current.Some? && (!discard ==> Forwarding(View()))
      requires PathRun(config, states, steps) && states[|steps|] == View()
      modifies `current, `out, `consumed, `discard, `cut, `admission, `overload, `dropped
      ensures Valid() && Extends(config, states, steps, states', steps') && states'[|steps'|] == View()
      ensures old(discard) ==> View() == old(View())
      ensures current.Some? && current.value.item == old(current).value.item
      ensures !discard ==> current.value.done == old(current).value.done + 1
      ensures !discard ==> out == old(out) + [NextEvent(old(View()))]
      ensures discard ==> out == old(out)
      ensures dropped + |out| == old(dropped) + |old(out)| + 1
    {
      hide Inv, TicketCount, PathRun, Forwarding;
      if discard {
        dropped := dropped + 1;
        ExtendsItself(config, states, steps);
        return states, steps;
      }
      var sent;
      sent, states', steps' := Attempt(readings, states, steps);
      if !sent { dropped := dropped + 1; }
    }

    /** The events of a teardown batch, one after the other. */
    method DispatchBatch(readings: seq<nat>, ghost states: seq<State>, ghost steps: seq<Step>)
      returns (ghost states': seq<State>, ghost steps': seq<Step>)
      requires Valid() && current.Some? && current.value.item.Batch? && (!discard ==> current.value.done == 0)
      requires |readings| == |current.value.item.ids|
      requires PathRun(config, states, steps) && states[|steps|] == View()
      modifies `current, `out, `consumed, `discard, `cut, `admission, `overload, `dropped
      ensures Valid() && Extends(config, states, steps, states', steps') && states'[|steps'|] == View()
      ensures current.Some? && current.value.item == old(current).value.item
      ensures !discard ==> current.value.done == |readings|
      ensures dropped + |out| == old(dropped) + |old(out)| + |readings|
      ensures |old(out)| <= |out| && out[..|old(out)|] == old(out)
      ensures forall j | 0 <= j < |out| - |old(out)| && !old(discard) ::
                j < |readings| && out[|old(out)| + j] == Ordinary(old(current).value.item.ids[j])
    {
      hide Inv, TicketCount, PathRun, Extends;
      states', steps' := states, steps;
      PathRunSize(config, states, steps);
      ExtendsItself(config, states, steps);
      for i := 0 to |readings|
        invariant Valid() && Extends(config, states, steps, states', steps')
        invariant |states'| > |steps'| && states'[|steps'|] == View()
        invariant current.Some? && current.value.item == old(current).value.item
        invariant !discard ==> current.value.done == i
        invariant dropped + |out| == old(dropped) + |old(out)| + i
        invariant |old(out)| <= |out| <= |old(out)| + i && out[..|old(out)|] == old(out)
        invariant !discard ==> |out| == |old(out)| + i
        invariant forall j | 0 <= j < |out| - |old(out)| && !old(discard) ::
                    j < |readings| && out[|old(out)| + j] == Ordinary(old(current).value.item.ids[j])
      {
        ExtendsRun(config, states, steps, states', steps');
        ghost var more, moreSteps := states', steps';
        states', steps' := DispatchDirect(readings[i], more, moreSteps);
        ExtendsTwice(config, states, steps, more, moreSteps, states', steps');
      }
    }

    method FinishItem()
      requires Valid() && current.Some? && !current.value.item.Final?
      requires discard || (Ready(current.value.item, tickets)
                           && current.value.done == |EventsOf(current.value.item, tickets)|)
      modifies `current, `depth
      ensures Valid() && DispatchStep(config, old(View()), Step.FinishItem, View())
      ensures current.None?
    {
      hide Inv, TicketCount, EventsOf, Ready;
      ghost var before := View();
      DepthCovers(config, before);
      depth := depth - Weight(current.value.item);
      current := None;
      DispatchKept(config, before, Step.FinishItem, View());
    }

    /** The terminal item: Disconnected takes the reserved place, and it is over. */
    method Exit()
      requires Valid() && current.Some? && current.value.item.Final?
      modifies `current, `depth, `exited, `out
      ensures Valid() && DispatchStep(config, old(View()), Step.Exit, View())
      ensures current.None? && exited
    {
      hide Inv, TicketCount, DispatchStep;
      ghost var before := View();
      DepthCovers(config, before);
      var reason := current.value.item.reason;
      if reason.Some? && receiverOpen && config.publicCapacity - (|out| - consumed) >= 1 {
        out := out + [Disconnected(reason.value)];
      }
      current, exited, depth := None, true, depth - 1;
      ExitIsStep(config, before, View());
      DispatchKept(config, before, Step.Exit, View());
    }

    /** The events of the current item. Outside the discard mode a deferred event is
        awaited first, so its ticket is settled here. */
    method DispatchItem(readings: seq<nat>, ghost states: seq<State>, ghost steps: seq<Step>)
      returns (ghost states': seq<State>, ghost steps': seq<Step>)
      requires Valid() && current.Some? && !current.value.item.Final? && current.value.done == 0
      requires !discard ==> Ready(current.value.item, tickets)
      requires |readings| == |EventsOf(current.value.item, tickets)|
      requires PathRun(config, states, steps) && states[|steps|] == View()
      modifies `current, `out, `consumed, `discard, `cut, `admission, `overload, `dropped
      ensures Valid() && Extends(config, states, steps, states', steps') && states'[|steps'|] == View()
      ensures current.Some? && current.value.item == old(current).value.item
      ensures !discard ==> Ready(current.value.item, tickets) && current.value.done == |readings|
      ensures dropped + |out| == old(dropped) + |old(out)| + Reports(old(current).value.item)
    {
      hide Inv, TicketCount, PathRun, Forwarding;
      if current.value.item.Batch? {
        states', steps' := DispatchBatch(readings, states, steps);
      } else if discard || readings == [] {
        dropped := dropped + 1;
        states', steps' := states, steps;
        ExtendsItself(config, states, steps);
      } else {
        FirstForwarding(View());
        states', steps' := DispatchDirect(readings[0], states, steps);
      }
    }

    /** One spool item from its receipt to its end; the last one is the terminal item.
        `readings` says how much the application reads while each attempt waits. */
    method Handle(readings: seq<nat>) returns (ghost states: seq<State>, ghost steps: seq<Step>)
      requires Valid() && current.None? && !exited && spool != []
      requires !discard ==> Ready(spool[0], tickets)
      requires |readings| == |EventsOf(spool[0], tickets)|
      modifies `current, `taken, `spool, `out, `consumed, `discard, `cut, `admission, `overload, `dropped, `depth,
               `exited
      ensures Valid() && PathRun(config, states, steps) && states[0] == old(View()) && states[|steps|] == View()
      ensures steps != [] && steps[0] == Step.Receive
      ensures steps[|steps| - 1] == if old(spool)[0].Final? then Step.Exit else Step.FinishItem
      ensures exited == old(spool)[0].Final?
      ensures !exited ==> dropped + |out| == old(dropped) + |old(out)| + Reports(old(spool)[0])
    {
      hide Inv, TicketCount, PathRun, Extends, DispatchStep, EventsOf, Ready, Reports, View;
      var final := spool[0].Final?;
      ghost var before := View();
      Receive();
      ghost var first, firstSteps := ReceivedRun(config, before, View());
      if final {
        states, steps := HandleFinal(first, firstSteps);
      } else {
        states, steps := HandleItem(readings, first, firstSteps);
      }
      ExtendedEnds(config, first, firstSteps, states, steps);
    }

    /** The terminal item, once it was received. */
    method HandleFinal(ghost states: seq<State>, ghost steps: seq<Step>)
      returns (ghost states': seq<State>, ghost steps': seq<Step>)
      requires Valid() && current.Some? && current.value.item.Final?
      requires PathRun(config, states, steps) && states[|steps|] == View()
      modifies `current, `depth, `exited, `out
      ensures Valid() && Extends(config, states, steps, states', steps')
      ensures |states'| == |steps'| + 1 && states'[|steps'|] == View()
      ensures current.None? && exited && |steps'| > |steps| && steps'[|steps'| - 1] == Step.Exit
    {
      hide Inv, TicketCount, PathRun, DispatchStep;
      ExtendsItself(config, states, steps);
      Exit();
      states', steps' := Extended(config, states, steps, states, steps, Step.Exit, View());
      PathRunSize(config, states', steps');
    }

    /** An item other than the terminal one, once it was received. */
    method HandleItem(readings: seq<nat>, ghost states: seq<State>, ghost steps: seq<Step>)
      returns (ghost states': seq<State>, ghost steps': seq<Step>)
      requires Valid() && current.Some? && !current.value.item.Final? && current.value.done == 0
      requires !discard ==> Ready(current.value.item, tickets)
      requires |readings| == |EventsOf(current.value.item, tickets)|
      requires PathRun(config, states, steps) && states[|steps|] == View()
      modifies `current, `out, `consumed, `discard, `cut, `admission, `overload, `dropped, `depth
      ensures Valid() && Extends(config, states, steps, states', steps')
      ensures |states'| == |steps'| + 1 && states'[|steps'|] == View()
      ensures current.None? && |steps'| > |steps| && steps'[|steps'| - 1] == Step.FinishItem
      ensures dropped + |out| == old(dropped) + |old(out)| + Reports(old(current).value.item)
    {
      hide Inv, TicketCount, PathRun, DispatchStep, EventsOf, Ready;
      ghost var more, moreSteps := DispatchItem(readings, states, steps);
      FinishItem();
      states', steps' := Extended(config, states, steps, more, moreSteps, Step.FinishItem, View());
      PathRunSize(config, states', steps');
    }
  }

  /** How many events an item reports to the application, or counts as dropped. */
  function Reports(i: Item): nat {
    if i.Batch? then |i.ids| else 1
  }

  lemma ExitIsStep(c: Config, s: State, s': State)
    requires s.current.Some? && s.current.value.item.Final? && s.core.depth >= 1
    requires s'.core == s.core.(depth := s.core.depth - 1) && s'.current.None? && s'.exited
    requires var reason := s.current.value.item.reason;
             s'.out == if reason.Some? && s.receiverOpen && Free(c, s) >= 1
                       then s.out + [Disconnected(reason.value)] else s.out
    requires && s'.emission == s.emission && s'.entered == s.entered && s'.taken == s.taken
             && s'.teardown == s.teardown && s'.consumed == s.consumed && s'.receiverOpen == s.receiverOpen
             && s'.discard == s.discard && s'.cut == s.cut && s'.responses == s.responses
    ensures DispatchStep(c, s, Step.Exit, s')
  {
  }

  lemma FirstForwarding(s: State)
    requires s.current.Some? && !s.discard && Ready(s.current.value.item, s.core.tickets) && s.current.value.done == 0
    requires EventsOf(s.current.value.item, s.core.tickets) != []
    ensures Forwarding(s)
  {
  }

  lemma ReceivedRun(c: Config, s: State, s': State) returns (states: seq<State>, steps: seq<Step>)
    requires Inv(c, s) && DispatchStep(c, s, Step.Receive, s')
    ensures PathRun(c, states, steps) && states == [s, s'] && steps == [Step.Receive]
  {
    hide Inv, DispatchStep;
    DispatchIsNext(c, s, Step.Receive, s');
    hide Next;
    states, steps := [s, s'], [Step.Receive];
  }

  lemma ExtendsRun(c: Config, states: seq<State>, steps: seq<Step>, more: seq<State>, moreSteps: seq<Step>)
    requires Extends(c, states, steps, more, moreSteps)
    ensures PathRun(c, more, moreSteps) && |more| == |moreSteps| + 1
  {
  }

  lemma ExtendedEnds(c: Config, states: seq<State>, steps: seq<Step>, states': seq<State>, steps': seq<Step>)
    requires Extends(c, states, steps, states', steps') && states != [] && steps != []
    ensures PathRun(c, states', steps') && |states'| == |steps'| + 1
    ensures states'[0] == states[0] && steps' != [] && steps'[0] == steps[0]
  {
    hide Next, DispatcherOrReader;
  }

  lemma ExtendsTwice(
    c: Config, states: seq<State>, steps: seq<Step>, more: seq<State>, moreSteps: seq<Step>,
    states': seq<State>, steps': seq<Step>)
    requires Extends(c, states, steps, more, moreSteps) && Extends(c, more, moreSteps, states', steps')
    ensures Extends(c, states, steps, states', steps') && |states'| == |steps'| + 1
  {
    hide Next, DispatcherOrReader;
  }

  /** The next event of the current item. */
  function NextEvent(s: State): Event
    requires Forwarding(s)
  {
    EventsOf(s.current.value.item, s.core.tickets)[s.current.value.done]
  }

  /** How many events the application reads before an attempt is made. */
  function ReadsFor(c: Config, s: State, readings: nat): int {
    if Free(c, s) >= 2 then 0 else if readings < |s.out| - s.consumed then readings else |s.out| - s.consumed
  }

  /** There is room for an event and for Disconnected, at once or after some reads. */
  predicate FindsRoom(c: Config, s: State, readings: nat) {
    Free(c, s) + ReadsFor(c, s, readings) >= 2
  }

  ghost predicate Extends(
    c: Config, states: seq<State>, steps: seq<Step>, states': seq<State>, steps': seq<Step>)
  {
    PathRun(c, states', steps') && states <= states' && steps <= steps'
  }

  lemma ExtendsItself(c: Config, states: seq<State>, steps: seq<Step>)
    requires PathRun(c, states, steps)
    ensures Extends(c, states, steps, states, steps)
  {
  }

  lemma ReadsExtend(c: Config, states: seq<State>, steps: seq<Step>, states': seq<State>, steps': seq<Step>)
    requires PathRun(c, states', steps') && states <= states' && steps <= steps'
    ensures Extends(c, states, steps, states', steps')
  {
  }

  /** A run of the dispatcher goes on by one step of its own. */
  lemma Extended(
    c: Config, states: seq<State>, steps: seq<Step>, more: seq<State>, moreSteps: seq<Step>, step: Step, s': State)
    returns (states': seq<State>, steps': seq<Step>)
    requires Extends(c, states, steps, more, moreSteps) && Inv(c, more[|moreSteps|])
    requires DispatcherOrReader(step) && DispatchStep(c, more[|moreSteps|], step, s')
    ensures Extends(c, states, steps, states', steps') && states'[|steps'|] == s' && Inv(c, s')
    ensures steps' == moreSteps + [step] && |moreSteps| >= |steps|
  {
    hide Inv, DispatchStep;
    PathRunSize(c, more, moreSteps);
    DispatchIsNext(c, more[|moreSteps|], step, s');
    InvNext(c, more[|moreSteps|], step, s');
    hide Next;
    RunSnoc(c, more, moreSteps, step, s');
    hide PathRun;
    states', steps' := more + [s'], moreSteps + [step];
  }

  lemma OutBound(c: Config, s: State)
    requires Inv(c, s)
    ensures s.consumed <= |s.out|
  {
    hide Flow, Ordered, Depths, Gate;
  }

  lemma DispatchKept(c: Config, s: State, step: Step, s': State)
    requires Inv(c, s) && DispatchStep(c, s, step, s')
    ensures Inv(c, s')
  {
    hide Inv, DispatchStep;
    DispatchIsNext(c, s, step, s');
    InvNext(c, s, step, s');
  }

  lemma PublishUnique(s: State, t: State, u: State)
    requires ResponseStep(s, PublishNext, t) && ResponseStep(s, PublishNext, u)
    ensures t == u
  {
  }

  /** The close of the spool before its terminal item was sent. */
  function ClosedTo(s: State, reason: Option<nat>): State {
    s.(teardown := Closing(reason), core := s.core.(admission := Terminal, depth := s.core.depth + 1))
  }

  /** The batch on the wire, its events not published yet. */
  function WroteBatch(s: State): State {
    var g := s.responses;
    s.(responses := g.(sending := false, done := g.batch, batch := [], wire := g.wire + g.batch))
  }

  lemma PublishStart(s: State)
    ensures AfterPublish(s, 0) == s && s.responses.(done := s.responses.done[0..]) == s.responses
  {
    assert s.responses.done[0..] == s.responses.done;
  }

  lemma DoneIsPending(c: Config, s: State)
    requires Inv(c, s) && s.responses.done != []
    ensures Pending(s, s.responses.done[0])
  {
    hide Flow, Ordered, Depths, SlotKept, WireOk, Distinct;
    assert s.responses.done[0] in Carried(s.responses);
  }

  lemma HeldIsPending(c: Config, s: State, t: nat)
    requires Inv(c, s) && t in s.responses.held
    ensures Pending(s, t)
  {
    hide Flow, Ordered, Depths, SlotKept, WireOk, Distinct, Carried;
  }

  lemma DepthCovers(c: Config, s: State)
    requires Inv(c, s)
    ensures s.core.depth >= CurrentWeight(s) + WaitingWeight(s.teardown)
    ensures s.current.Some? ==> s.taken > 0
  {
    hide Ordered, SlotKept, Gate, WeightOf, TerminalLast;
  }

  lemma TearKept(c: Config, s: State, step: Step, s': State)
    requires Inv(c, s) && TeardownStep(c, s, step, s')
    ensures Inv(c, s')
  {
    hide Inv, TeardownStep;
    TeardownIsNext(c, s, step, s');
    InvNext(c, s, step, s');
  }

  lemma ResponseKept(c: Config, s: State, step: Step, s': State)
    requires Inv(c, s) && ResponseStep(s, step, s')
    ensures Inv(c, s')
  {
    hide Inv, ResponseStep;
    ResponseIsNext(c, s, step, s');
    InvNext(c, s, step, s');
  }

  lemma TicketSettled(tickets: map<nat, Ticket>, next: nat, pending: nat, t: nat, ticket: Ticket)
    requires TicketCount(tickets, next, pending) && t in tickets && tickets[t].Reserved? && !ticket.Reserved?
    ensures pending > 0 && TicketCount(tickets[t := ticket], next, pending - 1)
  {
    GatedUpdate(tickets, t, ticket);
    assert t in Gated(tickets);
  }

  /** Reserved tickets are counted, and new ticket numbers are unused. */
  ghost predicate TicketCount(tickets: map<nat, Ticket>, next: nat, pending: nat) {
    (forall t | t in tickets :: t < next) && pending == |Gated(tickets)|
  }

  lemma NoTickets()
    ensures TicketCount(map[], 0, 0)
  {
  }

  lemma TicketAdded(tickets: map<nat, Ticket>, t: nat, pending: nat, ticket: Ticket)
    requires TicketCount(tickets, t, pending)
    ensures TicketCount(tickets[t := ticket], t + 1, pending + if ticket.Reserved? then 1 else 0) && t !in tickets
  {
    GatedUpdate(tickets, t, ticket);
    assert t !in Gated(tickets);
  }

  lemma CountIsIdle(tickets: map<nat, Ticket>, next: nat, pending: nat)
    requires TicketCount(tickets, next, pending)
    ensures pending == 0 <==> Gated(tickets) == {}
  {
  }

  lemma InvKept(c: Config, s: State, step: Step, s': State)
    requires Inv(c, s) && EmitStep(c, s, step, s')
    ensures Inv(c, s')
  {
    hide Inv, EmitStep;
    EmitIsNext(c, s, step, s');
    InvNext(c, s, step, s');
  }
}
