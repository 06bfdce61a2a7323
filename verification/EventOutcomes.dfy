/** What becomes of the close reason and of a written DELIVER, over whole runs. */
module EventOutcomes {
  import opened Wrappers
  import opened EventSpool
  import opened EventDispatch
  import opened EventDepth
  import opened EventGate
  import opened EventOrder
  import opened EventPromises

  // ------------------------------------------------------------- close reason

  /** The terminal item waits with this reason, or has entered with it as the last. */
  ghost predicate Carries(s: State, reason: Option<nat>) {
    || s.teardown == Closing(reason)
    || (s.teardown.Closed? && s.entered != [] && s.entered[|s.entered| - 1] == Final(reason))
  }

  lemma CarriesNext(c: Config, s: State, step: Step, s': State, reason: Option<nat>)
    requires TerminalLast(s) && Carries(s, reason) && Next(c, s, step, s')
    ensures Carries(s', reason)
  {
    TerminalAlready(s, reason);
    hide EmitStep, ResponseStep, TeardownStep, DispatchStep, ConsumerStep, TerminalLast;
    if EmitStep(c, s, step, s') {
      TerminalEmits(c, s, step, s');
    } else if TeardownStep(c, s, step, s') {
      CarriesTeardown(c, s, step, s', reason);
    } else if DispatchStep(c, s, step, s') {
      DispatchLeaves(c, s, step, s');
    } else {
      QuietSame(s, step, s');
    }
  }

  lemma TerminalAlready(s: State, reason: Option<nat>)
    requires TerminalLast(s) && Carries(s, reason)
    ensures s.core.admission.Terminal?
  {
  }

  lemma CarriesTeardown(c: Config, s: State, step: Step, s': State, reason: Option<nat>)
    requires TeardownStep(c, s, step, s') && Carries(s, reason)
    ensures Carries(s', reason)
  {
    hide HasSlot;
  }

  lemma DispatchLeaves(c: Config, s: State, step: Step, s': State)
    requires DispatchStep(c, s, step, s')
    ensures s'.teardown == s.teardown && s'.entered == s.entered && s'.core.tickets == s.core.tickets
    ensures s'.responses == s.responses && |s'.core.spool| <= |s.core.spool|
  {
    hide Free, Ready, EventsOf, Weight;
  }

  lemma {:induction false} ReasonKept(
    c: Config, states: seq<State>, steps: seq<Step>, i: nat, j: nat, reason: Option<nat>)
    requires Run(c, states, steps) && i < j < |states|
    requires steps[i] == CloseSpool(reason)
    ensures Carries(states[j], reason)
    decreases j - i
  {
    hide Inv, Init;
    assert Next(c, states[j - 1], steps[j - 1], states[j]);
    hide Next;
    if i == j - 1 {
      ClosesWith(c, states[i], states[j], reason);
    } else {
      ReasonKept(c, states, steps, i, j - 1, reason);
      RunInv(c, states, steps, j - 1);
      InvFlow(c, states[j - 1]);
      CarriesNext(c, states[j - 1], steps[j - 1], states[j], reason);
    }
  }

  lemma ClosesWith(c: Config, s: State, s': State, reason: Option<nat>)
    requires Next(c, s, CloseSpool(reason), s')
    ensures s'.teardown == Closing(reason)
  {
  }

  lemma ExitAt(c: Config, s: State, s': State)
    requires Next(c, s, Exit, s')
    ensures DispatchStep(c, s, Exit, s') && s.current.Some? && s.current.value.item.Final?
    ensures s.current.value.item.reason.None? ==> s'.out == s.out
  {
    hide Free;
  }

  /** The item at the dispatcher is the one that was entered last. */
  lemma FinalIsLast(s: State, reason: Option<nat>)
    requires Fifo(s) && TerminalLast(s) && Carries(s, reason)
    requires s.current.Some? && s.current.value.item.Final?
    ensures s.current.value.item == Final(reason)
  {
    var k := s.taken - 1;
    assert s.entered[k].Final?;
  }

  /** The reason the spool was closed with is the one the application is told, as the
      last event; without a reason the dispatcher exits in silence. */
  lemma ReasonArrives(c: Config, states: seq<State>, steps: seq<Step>, i: nat, n: nat, reason: Option<nat>)
    requires Run(c, states, steps) && i < n < |steps|
    requires steps[i] == CloseSpool(reason) && steps[n].Exit? && states[n].receiverOpen
    ensures states[n + 1].exited
    ensures states[n + 1].out ==
            if reason.Some? then states[n].out + [Disconnected(reason.value)] else states[n].out
  {
    hide Inv, Next, Init, Fifo, TerminalLast;
    ReasonKept(c, states, steps, i, n, reason);
    RunInv(c, states, steps, n);
    InvFlow(c, states[n]);
    assert Next(c, states[n], Exit, states[n + 1]);
    ExitAt(c, states[n], states[n + 1]);
    FinalIsLast(states[n], reason);
    NotExited(c, states[n], steps[n], states[n + 1]);
    if reason.Some? {
      DisconnectedDelivered(c, states, steps, n);
    }
    ExitsAt(c, states[n], states[n + 1]);
  }

  lemma ExitsAt(c: Config, s: State, s': State)
    requires DispatchStep(c, s, Exit, s')
    ensures s'.exited
  {
    hide Free;
  }

  // ----------------------------------------------------------------- DELIVERs

  /** The ticket was made for this event: it still waits, was published, or was dropped. */
  ghost predicate MadeFor(s: State, t: nat, id: nat) {
    && t in s.core.tickets
    && (s.core.tickets[t] == Reserved(id) || s.core.tickets[t] == Published(id) || s.core.tickets[t] == Abandoned)
  }

  lemma TeardownTickets(c: Config, s: State, step: Step, s': State)
    requires TeardownStep(c, s, step, s')
    ensures s'.core.tickets == s.core.tickets && s'.responses == s.responses
  {
    hide HasSlot;
  }

  lemma EmitTickets(c: Config, s: State, step: Step, s': State, t: nat)
    requires EmitStep(c, s, step, s') && t in s.core.tickets
    ensures t in s'.core.tickets
    ensures s'.core.tickets[t] == s.core.tickets[t] || s'.core.tickets[t] == Abandoned
    ensures s'.core.tickets[t] != s.core.tickets[t] ==> InFlight(s, t)
    ensures s'.responses.wire == s.responses.wire && s'.responses.done == s.responses.done
  {
    hide Idle, HasSlot, Admits, Weight;
  }

  lemma ResponseSettles(s: State, step: Step, s': State, t: nat, id: nat)
    requires ResponseStep(s, step, s') && MadeFor(s, t, id)
    ensures MadeFor(s', t, id)
  {
  }

  lemma MadeForNext(c: Config, s: State, step: Step, s': State, t: nat, id: nat)
    requires MadeFor(s, t, id) && Next(c, s, step, s')
    ensures MadeFor(s', t, id)
  {
    hide EmitStep, ResponseStep, TeardownStep, DispatchStep;
    if EmitStep(c, s, step, s') {
      EmitTickets(c, s, step, s', t);
    } else if ResponseStep(s, step, s') {
      ResponseSettles(s, step, s', t, id);
    } else if TeardownStep(c, s, step, s') {
      TeardownTickets(c, s, step, s');
    } else if DispatchStep(c, s, step, s') {
      DispatchLeaves(c, s, step, s');
    }
  }

  /** A ticket keeps the event it was reserved for. */
  lemma {:induction false} TicketKeepsEvent(
    c: Config, states: seq<State>, steps: seq<Step>, i: nat, j: nat, t: nat, id: nat)
    requires Run(c, states, steps) && i < j < |states|
    requires steps[i] == BeginEmit(Deferred(t), id)
    ensures MadeFor(states[j], t, id)
    decreases j - i
  {
    hide Init;
    assert Next(c, states[j - 1], steps[j - 1], states[j]);
    if i < j - 1 {
      hide Next, MadeFor;
      TicketKeepsEvent(c, states, steps, i, j - 1, t, id);
      MadeForNext(c, states[j - 1], steps[j - 1], states[j], t, id);
    }
  }

  /** A response on the wire has published its event, or is just about to. */
  ghost predicate WireSettled(s: State) {
    forall t | t in s.responses.wire ::
      t in s.responses.done || (t in s.core.tickets && s.core.tickets[t].Published?)
  }

  lemma WireEmit(c: Config, s: State, step: Step, s': State)
    requires Gate(s) && WireSettled(s) && EmitStep(c, s, step, s')
    ensures WireSettled(s')
  {
    EmitKeepsWire(c, s, step, s');
    hide EmitStep, WriterOk, EnteredKnown;
    forall t | t in s'.responses.wire
      ensures t in s'.responses.done || (t in s'.core.tickets && s'.core.tickets[t].Published?)
    {
      if t !in s.responses.done {
        EmitTickets(c, s, step, s', t);
      }
    }
  }

  lemma EmitKeepsWire(c: Config, s: State, step: Step, s': State)
    requires EmitStep(c, s, step, s')
    ensures s'.responses.wire == s.responses.wire && s'.responses.done == s.responses.done
  {
    hide Idle, HasSlot, Admits, Weight, Offer;
  }

  /** A ticket that waits elsewhere has no response on the wire. */
  lemma WaitingIsUnwritten(s: State, t: nat)
    requires WireSettled(s) && Pending(s, t) && t !in s.responses.done
    ensures t !in s.responses.wire
  {
  }

  lemma WireResponse(s: State, step: Step, s': State)
    requires Gate(s) && WireSettled(s) && ResponseStep(s, step, s')
    ensures WireSettled(s')
  {
    hide WireOk, EnteredKnown;
    match step {
      case DropHeld(t) =>
        HeldIsElsewhere(s, t);
        WaitingIsUnwritten(s, t);
      case PublishNext => DoneIsCarried(s);
      case DropResponse =>
        var t := (s.responses.batch + s.responses.queue)[0];
        CarriedPending(s, t);
        WaitingIsUnwritten(s, t);
      case _ =>
    }
  }

  lemma HeldIsElsewhere(s: State, t: nat)
    requires Gate(s) && t in s.responses.held
    ensures Pending(s, t) && t !in s.responses.done
  {
    assert forall x | x in s.responses.done :: x in Carried(s.responses);
  }

  lemma DoneIsCarried(s: State)
    requires Gate(s) && s.responses.done != []
    ensures Pending(s, s.responses.done[0])
  {
    assert s.responses.done[0] in Carried(s.responses);
  }

  lemma CarriedPending(s: State, t: nat)
    requires Gate(s) && t in s.responses.batch + s.responses.queue
    ensures Pending(s, t)
  {
    assert t in Carried(s.responses);
  }

  lemma WireNext(c: Config, s: State, step: Step, s': State)
    requires Gate(s) && WireSettled(s) && Next(c, s, step, s')
    ensures WireSettled(s')
  {
    hide EmitStep, ResponseStep, TeardownStep, DispatchStep, Gate;
    if EmitStep(c, s, step, s') {
      WireEmit(c, s, step, s');
    } else if ResponseStep(s, step, s') {
      WireResponse(s, step, s');
    } else if TeardownStep(c, s, step, s') {
      TeardownTickets(c, s, step, s');
    } else if DispatchStep(c, s, step, s') {
      DispatchLeaves(c, s, step, s');
    }
  }

  /** In every run, a DELIVER whose response was written completely is published: the
      next thing the writer does with it, and never given up instead. */
  lemma {:induction false} WrittenArePublished(c: Config, states: seq<State>, steps: seq<Step>, n: nat)
    requires Run(c, states, steps) && n < |states|
    ensures WireSettled(states[n])
  {
    hide Next, Gate;
    if n > 0 {
      WrittenArePublished(c, states, steps, n - 1);
      RunInv(c, states, steps, n - 1);
      InvGate(c, states[n - 1]);
      WireNext(c, states[n - 1], steps[n - 1], states[n]);
    }
  }

  lemma InvGate(c: Config, s: State)
    requires Inv(c, s)
    ensures Gate(s)
  {
    hide Gate, Ordered, Depths, SlotKept, Flow;
  }

  lemma {:induction false} FlattenHas(items: seq<Item>, tickets: map<nat, Ticket>, k: nat, e: Event)
    requires k < |items| && e in EventsOf(items[k], tickets)
    ensures e in Flatten(items, tickets)
  {
    hide EventsOf;
    if k < |items| - 1 {
      FlattenHas(items[..|items| - 1], tickets, k, e);
    }
  }

  /** Once the dispatcher is through without having discarded, each DELIVER that entered
      and whose response was written and published has reached the application, as the
      very event its place was reserved for. */
  lemma WrittenDeliverForwarded(
    c: Config, states: seq<State>, steps: seq<Step>, i: nat, n: nat, k: nat, t: nat, id: nat)
    requires Run(c, states, steps) && i < n < |states| && steps[i] == BeginEmit(Deferred(t), id)
    requires states[n].exited && !states[n].discard
    requires k < |states[n].entered| && states[n].entered[k] == Deferred(t)
    requires t in states[n].responses.wire && t !in states[n].responses.done
    ensures Ordinary(id) in states[n].out
  {
    hide Run, Flatten;
    TicketKeepsEvent(c, states, steps, i, n, t, id);
    WrittenArePublished(c, states, steps, n);
    AllForwarded(c, states, steps, n);
    FlattenHas(states[n].entered, states[n].core.tickets, k, Ordinary(id));
    BodyFrom(states[n].out, Ordinary(id));
  }

  lemma BodyFrom(out: seq<Event>, e: Event)
    requires e in Body(out)
    ensures e in out
  {
  }

  // -------------------------------------------------------------- spool bound

  lemma SpoolGrows(c: Config, s: State, step: Step, s': State)
    requires EmitStep(c, s, step, s') || TeardownStep(c, s, step, s')
    requires |s.core.spool| <= c.capacity + 2
    ensures |s'.core.spool| <= c.capacity + 2
  {
    hide Idle, Weight, Admits;
  }

  /** The spool never holds more than its ordinary capacity and two items. */
  lemma {:induction false} SpoolNeverOver(c: Config, states: seq<State>, steps: seq<Step>, n: nat)
    requires Run(c, states, steps) && n < |states|
    ensures |states[n].core.spool| <= c.capacity + 2
  {
    if n > 0 {
      SpoolNeverOver(c, states, steps, n - 1);
      var s, step, s' := states[n - 1], steps[n - 1], states[n];
      assert Next(c, s, step, s');
      hide Run, EmitStep, ResponseStep, TeardownStep, DispatchStep, ConsumerStep;
      if EmitStep(c, s, step, s') || TeardownStep(c, s, step, s') {
        SpoolGrows(c, s, step, s');
      } else if DispatchStep(c, s, step, s') {
        DispatchLeaves(c, s, step, s');
      } else {
        QuietSame(s, step, s');
      }
    }
  }
}
