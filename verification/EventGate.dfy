/** Who holds the ticket of a gated event, and why a published event has its
    response on the wire. */
module EventGate {
  import opened Wrappers
  import opened EventSpool
  import opened EventDispatch

  /** The tickets behind the reader, in the order of their responses. */
  function Carried(g: Responses): seq<nat> {
    g.done + g.batch + g.queue
  }

  ghost predicate Distinct(s: seq<nat>) {
    forall i, j | 0 <= i < j < |s| :: s[i] != s[j]
  }

  ghost predicate Pending(s: State, t: nat) {
    t in s.core.tickets && s.core.tickets[t].Reserved?
  }

  predicate InFlight(s: State, t: nat) {
    s.emission.Some? && s.emission.value.item == Deferred(t)
  }

  /** The writer publishes before it goes on, and not after it is gone. */
  predicate WriterOk(g: Responses) {
    && (g.done != [] ==> g.batch == [] && !g.sending)
    && (g.gone ==> g.done == [] && !g.sending)
  }

  /** Every pending ticket has exactly one holder, and every held ticket is pending. */
  ghost predicate HoldersOk(s: State) {
    && (forall t | t in s.responses.held :: Pending(s, t))
    && (forall t | t in Carried(s.responses) :: Pending(s, t) && t !in s.responses.held)
    && Distinct(Carried(s.responses))
    && (forall t | InFlight(s, t) :: Pending(s, t) && t !in s.responses.held && t !in Carried(s.responses))
    && (forall t | Pending(s, t) :: t in s.responses.held || t in Carried(s.responses) || InFlight(s, t))
  }

  /** A published event has its response on the wire. */
  ghost predicate WireOk(s: State) {
    && (forall t | t in s.responses.done :: t in s.responses.wire)
    && (forall t | t in s.core.tickets && s.core.tickets[t].Published? :: t in s.responses.wire)
  }

  /** Every gated item in the spool's history has its ticket. */
  ghost predicate EnteredKnown(s: State) {
    forall i | i in s.entered && i.Deferred? :: i.ticket in s.core.tickets
  }

  ghost predicate Gate(s: State) {
    WriterOk(s.responses) && HoldersOk(s) && WireOk(s) && EnteredKnown(s)
  }

  // ----------------------------------------------------------- moving a ticket

  /** The carried tickets after each step of the gate. */
  lemma CarriedMoves(s: State, step: Step, s': State)
    requires WriterOk(s.responses) && ResponseStep(s, step, s')
    ensures WriterOk(s'.responses)
    ensures Carried(s'.responses) ==
            match step
            case QueueResponse(t) => Carried(s.responses) + [t]
            case PublishNext => Carried(s.responses)[1..]
            case DropResponse => Carried(s.responses)[1..]
            case _ => Carried(s.responses)
    ensures (step.PublishNext? ==> Carried(s.responses) != [] && s.responses.done[0] == Carried(s.responses)[0])
    ensures (step.DropResponse? ==>
              Carried(s.responses) != [] && (s.responses.batch + s.responses.queue)[0] == Carried(s.responses)[0])
  {
    hide Carried, Settled;
    var g := s.responses;
    match step {
      case QueueResponse(t) => QueueCarries(g, t);
      case DropHeld(t) => CarriedSame(g, s'.responses);
      case PickResponse => PickCarries(g);
      case StartWrite => CarriedSame(g, s'.responses);
      case WriteDone => WriteCarries(g);
      case PublishNext => PublishCarries(g);
      case WriterGone => CarriedSame(g, s'.responses);
      case DropResponse => DropCarries(g);
    }
  }

  lemma QueueCarries(g: Responses, t: nat)
    ensures Carried(g.(held := g.held - {t}, queue := g.queue + [t])) == Carried(g) + [t]
  {
  }

  lemma PickCarries(g: Responses)
    requires g.done == [] && g.queue != []
    ensures Carried(g.(queue := g.queue[1..], batch := g.batch + [g.queue[0]])) == Carried(g)
  {
    assert g.queue == [g.queue[0]] + g.queue[1..];
  }

  lemma WriteCarries(g: Responses)
    requires WriterOk(g) && g.sending
    ensures Carried(g.(sending := false, done := g.batch, batch := [], wire := g.wire + g.batch)) == Carried(g)
  {
  }

  lemma PublishCarries(g: Responses)
    requires g.done != []
    ensures Carried(g.(done := g.done[1..])) == Carried(g)[1..] && Carried(g) != [] && Carried(g)[0] == g.done[0]
  {
    assert Carried(g)[1..] == g.done[1..] + g.batch + g.queue;
  }

  lemma DropCarries(g: Responses)
    requires g.done == [] && g.batch + g.queue != []
    ensures Carried(g) != [] && Carried(g)[0] == (g.batch + g.queue)[0]
    ensures Carried(if g.batch != [] then g.(batch := g.batch[1..]) else g.(queue := g.queue[1..])) == Carried(g)[1..]
  {
    assert Carried(g) == g.batch + g.queue;
    if g.batch != [] {
      assert Carried(g)[1..] == g.batch[1..] + g.queue;
    } else {
      assert Carried(g) == g.queue;
    }
  }

  lemma DistinctParts(s: seq<nat>, x: nat)
    requires Distinct(s)
    ensures x !in s ==> Distinct(s + [x])
    ensures s != [] ==> Distinct(s[1..]) && s[0] !in s[1..] && forall y :: y in s <==> y == s[0] || y in s[1..]
  {
    if s != [] {
      assert s == [s[0]] + s[1..];
    }
  }

  /** One holder settles its ticket and lets go of it. */
  lemma SettleKeeps(s: State, t: nat, published: bool, s': State)
    requires HoldersOk(s) && Pending(s, t) && !InFlight(s, t)
    requires s'.core == Settled(s, t, published).core && s'.emission == s.emission
    requires || (&& s'.responses.held == s.responses.held - {t} && Carried(s'.responses) == Carried(s.responses)
                 && t in s.responses.held)
             || (&& s'.responses.held == s.responses.held && Carried(s.responses) != [] && t == Carried(s.responses)[0]
                 && Carried(s'.responses) == Carried(s.responses)[1..])
    ensures HoldersOk(s')
  {
    hide Carried;
    DistinctParts(Carried(s.responses), t);
    forall x
      ensures Pending(s', x) <==> Pending(s, x) && x != t
    {
    }
  }

  lemma ResponseHolders(s: State, step: Step, s': State)
    requires Gate(s) && ResponseStep(s, step, s')
    ensures HoldersOk(s')
  {
    CarriedMoves(s, step, s');
    hide Carried, WireOk;
    match step {
      case QueueResponse(t) => QueueKeeps(s, t, s');
      case DropHeld(t) => SettleKeeps(s, t, false, s');
      case PublishNext => SettleKeeps(s, s.responses.done[0], true, s');
      case DropResponse => SettleKeeps(s, Carried(s.responses)[0], false, s');
      case _ => SameHolders(s, s');
    }
  }

  lemma QueueKeeps(s: State, t: nat, s': State)
    requires HoldersOk(s) && t in s.responses.held && s'.core == s.core && s'.emission == s.emission
    requires s'.responses.held == s.responses.held - {t} && Carried(s'.responses) == Carried(s.responses) + [t]
    ensures HoldersOk(s')
  {
    hide Carried;
    DistinctParts(Carried(s.responses), t);
    forall x
      ensures Pending(s', x) <==> Pending(s, x)
    {
    }
  }

  lemma SameHolders(s: State, s': State)
    requires HoldersOk(s) && s'.core.tickets == s.core.tickets && s'.emission == s.emission
    requires s'.responses.held == s.responses.held && Carried(s'.responses) == Carried(s.responses)
    ensures HoldersOk(s')
  {
    hide Carried;
    forall x
      ensures Pending(s', x) <==> Pending(s, x)
    {
    }
  }

  lemma ResponseWire(s: State, step: Step, s': State)
    requires Gate(s) && ResponseStep(s, step, s')
    ensures WireOk(s')
  {
    hide HoldersOk;
    if step.PublishNext? {
      assert s.responses.done[0] in s.responses.done;
      assert forall t | t in s.responses.done[1..] :: t in s.responses.done;
    }
  }

  /** Settled tickets never change. */
  ghost predicate TicketsGrow(t: map<nat, Ticket>, t': map<nat, Ticket>) {
    forall x | x in t :: x in t' && (!t[x].Reserved? ==> t'[x] == t[x])
  }

  lemma SettledGrows(s: State, t: nat, published: bool)
    requires Pending(s, t)
    ensures TicketsGrow(s.core.tickets, Settled(s, t, published).core.tickets)
  {
  }

  lemma ResponseTickets(s: State, step: Step, s': State)
    requires Gate(s) && ResponseStep(s, step, s')
    ensures TicketsGrow(s.core.tickets, s'.core.tickets)
  {
    CarriedMoves(s, step, s');
    hide Carried, WireOk, Distinct, InFlight, TicketsGrow, Settled;
    match step {
      case DropHeld(t) => SettledGrows(s, t, false);
      case PublishNext =>
        assert s.responses.done[0] in Carried(s.responses);
        SettledGrows(s, s.responses.done[0], true);
      case DropResponse =>
        assert (s.responses.batch + s.responses.queue)[0] in Carried(s.responses);
        SettledGrows(s, (s.responses.batch + s.responses.queue)[0], false);
      case _ => SameTickets(s.core.tickets);
    }
  }

  lemma GrowsKnown(s: State, s': State)
    requires EnteredKnown(s) && s'.entered == s.entered && TicketsGrow(s.core.tickets, s'.core.tickets)
    ensures EnteredKnown(s')
  {
  }

  lemma SameTickets(t: map<nat, Ticket>)
    ensures TicketsGrow(t, t)
  {
  }

  // ---------------------------------------------------------------- emissions

  lemma BeginGate(c: Config, s: State, step: Step, s': State)
    requires Gate(s) && EmitStep(c, s, step, s') && step.BeginEmit?
    ensures Gate(s') && TicketsGrow(s.core.tickets, s'.core.tickets)
  {
    hide Carried, Distinct;
    forall x
      ensures Pending(s', x) <==> Pending(s, x) || InFlight(s', x)
    {
    }
  }

  lemma FinishGate(c: Config, s: State, step: Step, s': State)
    requires Gate(s) && EmitStep(c, s, step, s') && step.FinishEmit?
    ensures Gate(s')
  {
    FinishHolders(c, s, step, s');
    hide Carried, Distinct, HasSlot, Weight, HoldersOk;
    InFlightPending(s);
    hide Pending;
  }

  lemma InFlightPending(s: State)
    requires HoldersOk(s)
    ensures s.emission.Some? && s.emission.value.item.Deferred? ==> Pending(s, s.emission.value.item.ticket)
  {
    hide Carried;
    assert s.emission.Some? && s.emission.value.item.Deferred? ==> InFlight(s, s.emission.value.item.ticket);
  }

  lemma FinishHolders(c: Config, s: State, step: Step, s': State)
    requires HoldersOk(s) && EmitStep(c, s, step, s') && step.FinishEmit?
    ensures HoldersOk(s')
  {
    hide Carried, Distinct, HasSlot, Weight;
    CarriedSame(s.responses, s'.responses);
    forall x
      ensures Pending(s', x) <==> Pending(s, x) && !(InFlight(s, x) && s'.entered == s.entered)
    {
    }
  }

  lemma FinishTickets(c: Config, s: State, step: Step, s': State)
    requires Gate(s) && EmitStep(c, s, step, s') && step.FinishEmit?
    ensures TicketsGrow(s.core.tickets, s'.core.tickets)
  {
    hide Carried, Distinct, HasSlot, Weight, WireOk;
    assert s.emission.value.item.Deferred? ==> InFlight(s, s.emission.value.item.ticket);
  }

  lemma CarriedSame(g: Responses, g': Responses)
    requires g'.done == g.done && g'.batch == g.batch && g'.queue == g.queue
    ensures Carried(g') == Carried(g)
  {
  }

  lemma OtherGate(c: Config, s: State, step: Step, s': State)
    requires Gate(s)
    requires || (EmitStep(c, s, step, s') && !step.BeginEmit? && !step.FinishEmit?)
             || TeardownStep(c, s, step, s') || DispatchStep(c, s, step, s') || ConsumerStep(s, step, s')
    ensures Gate(s') && TicketsGrow(s.core.tickets, s'.core.tickets)
  {
    OtherSame(c, s, step, s');
    hide EmitStep, TeardownStep, DispatchStep, ConsumerStep, Carried;
    SameHolders(s, s');
    hide HoldersOk, WireOk, WriterOk;
    assert forall i | i in s'.entered && i.Deferred? :: i in s.entered;
  }

  /** The gate and its tickets, and the gated items that have entered. */
  ghost predicate GateSame(s: State, s': State) {
    && s'.core.tickets == s.core.tickets && s'.responses == s.responses && s'.emission == s.emission
    && forall i | i in s'.entered && i.Deferred? :: i in s.entered
  }

  lemma SealSame(c: Config, s: State, step: Step, s': State)
    requires EmitStep(c, s, step, s') && !step.BeginEmit? && !step.FinishEmit?
    ensures GateSame(s, s')
  {
    hide Idle;
  }

  lemma TeardownGate(c: Config, s: State, step: Step, s': State)
    requires TeardownStep(c, s, step, s')
    ensures GateSame(s, s')
  {
    hide HasSlot;
  }

  lemma DispatchGate(c: Config, s: State, step: Step, s': State)
    requires DispatchStep(c, s, step, s') || ConsumerStep(s, step, s')
    ensures GateSame(s, s')
  {
    hide Free, Ready, EventsOf, Weight, Forwarding;
  }

  lemma OtherSame(c: Config, s: State, step: Step, s': State)
    requires || (EmitStep(c, s, step, s') && !step.BeginEmit? && !step.FinishEmit?)
             || TeardownStep(c, s, step, s') || DispatchStep(c, s, step, s') || ConsumerStep(s, step, s')
    ensures GateSame(s, s')
  {
    hide EmitStep, TeardownStep, DispatchStep, ConsumerStep, GateSame;
    if TeardownStep(c, s, step, s') {
      TeardownGate(c, s, step, s');
    } else if DispatchStep(c, s, step, s') || ConsumerStep(s, step, s') {
      DispatchGate(c, s, step, s');
    } else {
      SealSame(c, s, step, s');
    }
  }

  lemma GateNext(c: Config, s: State, step: Step, s': State)
    requires Gate(s) && Next(c, s, step, s')
    ensures Gate(s') && TicketsGrow(s.core.tickets, s'.core.tickets)
  {
    hide EmitStep, ResponseStep, TeardownStep, DispatchStep, ConsumerStep, TicketsGrow;
    if ResponseStep(s, step, s') {
      ResponseTickets(s, step, s');
      ResponseHolders(s, step, s');
      ResponseWire(s, step, s');
      CarriedMoves(s, step, s');
      QuietSame(s, step, s');
      hide HoldersOk, WireOk;
      GrowsKnown(s, s');
    } else if EmitStep(c, s, step, s') && step.BeginEmit? {
      hide Gate;
      BeginGate(c, s, step, s');
    } else if EmitStep(c, s, step, s') && step.FinishEmit? {
      hide Gate;
      FinishGate(c, s, step, s');
      FinishTickets(c, s, step, s');
    } else {
      hide Gate;
      OtherGate(c, s, step, s');
    }
  }
}
