/** What the event path promises over every run. */
module EventPromises {
  import opened Wrappers
  import opened EventSpool
  import opened EventDispatch
  import opened EventDepth
  import opened EventGate
  import opened EventOrder

  /** Before the end, one place of the application's channel stays free. */
  ghost predicate SlotKept(c: Config, s: State) {
    s.consumed <= |s.out| && (!s.exited ==> Free(c, s) >= 1)
  }

  ghost predicate Inv(c: Config, s: State) {
    Flow(s) && Ordered(s) && Depths(c, s) && SlotKept(c, s) && Gate(s)
  }

  lemma InvInit(c: Config, s: State)
    requires Init(c, s) && c.publicCapacity >= 1
    ensures Inv(c, s)
  {
    hide Ordered, Depths, Gate;
    InitOrdered(c, s);
    InitDepths(c, s);
    InitGate(c, s);
  }

  lemma InitGate(c: Config, s: State)
    requires Init(c, s)
    ensures Gate(s)
  {
  }

  lemma InitOrdered(c: Config, s: State)
    requires Init(c, s)
    ensures Ordered(s)
  {
  }

  lemma InitDepths(c: Config, s: State)
    requires Init(c, s)
    ensures Depths(c, s)
  {
  }

  lemma SlotNext(c: Config, s: State, step: Step, s': State)
    requires SlotKept(c, s) && Flow(s) && Next(c, s, step, s')
    ensures SlotKept(c, s')
  {
    hide EmitStep, ResponseStep, TeardownStep, DispatchStep, ConsumerStep, Fifo, TerminalLast;
    if DispatchStep(c, s, step, s') {
      DispatchSlot(c, s, step, s');
    } else if EmitStep(c, s, step, s') {
      EmitSlot(c, s, step, s');
    } else if TeardownStep(c, s, step, s') {
      TeardownSlot(c, s, step, s');
    } else {
      QuietSlot(c, s, step, s');
    }
  }

  lemma DispatchSlot(c: Config, s: State, step: Step, s': State)
    requires SlotKept(c, s) && DispatchStep(c, s, step, s')
    ensures SlotKept(c, s')
  {
    hide Ready, EventsOf, Weight;
  }

  lemma EmitSlot(c: Config, s: State, step: Step, s': State)
    requires SlotKept(c, s) && EmitStep(c, s, step, s')
    ensures SlotKept(c, s')
  {
    hide Offer, Idle;
  }

  lemma TeardownSlot(c: Config, s: State, step: Step, s': State)
    requires SlotKept(c, s) && TeardownStep(c, s, step, s')
    ensures SlotKept(c, s')
  {
    hide HasSlot;
  }

  lemma QuietSlot(c: Config, s: State, step: Step, s': State)
    requires SlotKept(c, s) && (ResponseStep(s, step, s') || ConsumerStep(s, step, s'))
    ensures SlotKept(c, s')
  {
  }

  lemma InvNext(c: Config, s: State, step: Step, s': State)
    requires Inv(c, s) && Next(c, s, step, s')
    ensures Inv(c, s')
  {
    hide Flow, Ordered, Depths, SlotKept, Gate, Next;
    FlowNext(c, s, step, s');
    OrderedNext(c, s, step, s');
    DepthsNext(c, s, step, s');
    SlotNext(c, s, step, s');
    GateNext(c, s, step, s');
  }

  ghost predicate Run(c: Config, states: seq<State>, steps: seq<Step>) {
    && c.publicCapacity >= 1
    && |states| == |steps| + 1
    && Init(c, states[0])
    && forall i | 0 <= i < |steps| :: Next(c, states[i], steps[i], states[i + 1])
  }

  lemma {:induction false} RunInv(c: Config, states: seq<State>, steps: seq<Step>, n: nat)
    requires Run(c, states, steps) && n < |states|
    ensures Inv(c, states[n])
  {
    hide Inv, Init, Next;
    if n == 0 {
      InvInit(c, states[0]);
    } else {
      RunInv(c, states, steps, n - 1);
      InvNext(c, states[n - 1], steps[n - 1], states[n]);
    }
  }

  // -------------------------------------------------------------------- depth

  /** Until the teardown offers a batch, the spool holds at most one item more than
      its ordinary capacity, so a slot is left for the terminal item. */
  lemma SpoolBound(c: Config, states: seq<State>, steps: seq<Step>, n: nat)
    requires Run(c, states, steps) && n < |states| && Quiet(states[n])
    ensures |states[n].core.spool| <= states[n].core.depth <= c.capacity + 1
    ensures HasSlot(states[n].core, c.capacity)
  {
    hide Run, Flow, Ordered, SlotKept, Gate;
    RunInv(c, states, steps, n);
    LengthBelowDepth(states[n]);
    hide Accounted, AllWeigh;
  }

  /** Until then every emission that passed the admission check is accepted, the one
      that finds the spool full and closes it included. */
  lemma EmissionAccepted(c: Config, states: seq<State>, steps: seq<Step>, n: nat)
    requires Run(c, states, steps) && n < |steps| && Quiet(states[n]) && steps[n].FinishEmit?
    requires EmitStep(c, states[n], steps[n], states[n + 1])
    ensures states[n + 1].entered == states[n].entered + [states[n].emission.value.item]
    ensures states[n + 1].core.admission ==
            if states[n].emission.value.room then states[n].core.admission else Overflowed
  {
    hide Next, Init, Flow, Ordered, SlotKept, Gate, Depths, EmitStep;
    RunInv(c, states, steps, n);
    QuietEmissionEnters(c, states[n], states[n + 1]);
  }

  /** Without dropped submits the terminal item enters at the first attempt. */
  lemma TerminalFits(c: Config, states: seq<State>, steps: seq<Step>, n: nat)
    requires Run(c, states, steps) && n < |steps| && Quiet(states[n]) && steps[n].CloseSpool?
    requires TeardownStep(c, states[n], steps[n], states[n + 1])
    ensures HasSlot(states[n + 1].core, c.capacity)
  {
    SpoolBound(c, states, steps, n);
  }

  // ---------------------------------------------------------------- admission

  lemma RankNext(c: Config, s: State, step: Step, s': State)
    requires TerminalLast(s) && Next(c, s, step, s')
    ensures Rank(s.core.admission) <= Rank(s'.core.admission)
  {
    hide EmitStep, ResponseStep, TeardownStep, DispatchStep, ConsumerStep, TerminalLast, Rank;
    if EmitStep(c, s, step, s') {
      EmitRank(c, s, step, s');
    } else if TeardownStep(c, s, step, s') || DispatchStep(c, s, step, s') {
      OtherRank(c, s, step, s');
    } else {
      QuietSame(s, step, s');
    }
  }

  lemma EmitRank(c: Config, s: State, step: Step, s': State)
    requires TerminalLast(s) && EmitStep(c, s, step, s')
    ensures Rank(s.core.admission) <= Rank(s'.core.admission)
  {
    hide HasSlot, Idle, Weight;
  }

  lemma OtherRank(c: Config, s: State, step: Step, s': State)
    requires TeardownStep(c, s, step, s') || DispatchStep(c, s, step, s')
    ensures Rank(s.core.admission) <= Rank(s'.core.admission)
  {
    hide HasSlot, Free, Ready, EventsOf, Weight;
  }

  /** Admission only moves forward. */
  lemma {:induction false} AdmissionForward(c: Config, states: seq<State>, steps: seq<Step>, i: nat, j: nat)
    requires Run(c, states, steps) && i <= j < |states|
    ensures Rank(states[i].core.admission) <= Rank(states[j].core.admission)
    decreases j - i
  {
    hide Inv, Next, Rank, Init;
    if i < j {
      AdmissionForward(c, states, steps, i, j - 1);
      RunInv(c, states, steps, j - 1);
      InvFlow(c, states[j - 1]);
      RankNext(c, states[j - 1], steps[j - 1], states[j]);
    }
  }

  lemma InvFlow(c: Config, s: State)
    requires Inv(c, s)
    ensures Fifo(s) && TerminalLast(s)
  {
    hide Fifo, TerminalLast, Ordered, Depths, SlotKept, Gate;
  }

  lemma TerminalEntersLast(c: Config, s: State, step: Step, s': State)
    requires TerminalLast(s) && Next(c, s, step, s') && s.core.admission.Terminal?
    ensures s'.core.admission.Terminal?
    ensures s'.entered == s.entered || (exists r :: s'.entered == s.entered + [Final(r)])
  {
    hide EmitStep, ResponseStep, TeardownStep, DispatchStep, ConsumerStep, TerminalLast;
    if EmitStep(c, s, step, s') {
      TerminalEmits(c, s, step, s');
    } else if TeardownStep(c, s, step, s') {
      var r := TerminalTears(c, s, step, s');
      assert s'.entered == s.entered + [Final(r)];
    } else if DispatchStep(c, s, step, s') {
      TerminalDispatches(c, s, step, s');
    } else {
      QuietSame(s, step, s');
    }
  }

  lemma TerminalEmits(c: Config, s: State, step: Step, s': State)
    requires TerminalLast(s) && EmitStep(c, s, step, s') && s.core.admission.Terminal?
    ensures s' == s
  {
    hide Idle, HasSlot, Weight;
  }

  lemma TerminalTears(c: Config, s: State, step: Step, s': State) returns (r: Option<nat>)
    requires TerminalLast(s) && TeardownStep(c, s, step, s') && s.core.admission.Terminal?
    ensures step.SendTerminal? && s'.core.admission.Terminal? && s'.entered == s.entered + [Final(r)]
  {
    hide HasSlot;
    r := s.teardown.reason;
  }

  lemma TerminalDispatches(c: Config, s: State, step: Step, s': State)
    requires DispatchStep(c, s, step, s') && s.core.admission.Terminal?
    ensures s'.core.admission.Terminal? && s'.entered == s.entered
  {
    hide Free, Ready, EventsOf, Weight;
  }

  /** Once admission is terminal, only the terminal item can still enter, and at
      most once: it is the last item of the whole run. */
  lemma {:induction false} NothingAfterTerminal(c: Config, states: seq<State>, steps: seq<Step>, i: nat, j: nat)
    requires Run(c, states, steps) && i <= j < |states| && states[i].core.admission.Terminal?
    ensures states[j].core.admission.Terminal? && states[i].entered <= states[j].entered
    ensures forall k | |states[i].entered| <= k < |states[j].entered| :: states[j].entered[k].Final?
    ensures |states[j].entered| <= |states[i].entered| + 1
    decreases j - i
  {
    hide Inv, Next, Init;
    RunInv(c, states, steps, j);
    InvFlow(c, states[j]);
    if i < j {
      NothingAfterTerminal(c, states, steps, i, j - 1);
      RunInv(c, states, steps, j - 1);
      InvFlow(c, states[j - 1]);
      TerminalEntersLast(c, states[j - 1], steps[j - 1], states[j]);
      OneFinal(states[i], states[j]);
    }
  }

  lemma OneFinal(s: State, s': State)
    requires TerminalLast(s') && s.entered <= s'.entered
    requires forall k | |s.entered| <= k < |s'.entered| :: s'.entered[k].Final?
    ensures |s'.entered| <= |s.entered| + 1
  {
    assert |s'.entered| > |s.entered| ==> s'.entered[|s.entered|].Final?;
  }

  /** Sealed with no gated event left, and no emission under way. */
  ghost predicate SealedIdle(s: State) {
    Rank(s.core.admission) >= 3 && s.emission.None? && Idle(s.core)
  }

  lemma SealedIdleNext(c: Config, s: State, step: Step, s': State)
    requires SealedIdle(s) && Next(c, s, step, s')
    ensures SealedIdle(s')
  {
    hide EmitStep, ResponseStep, TeardownStep, DispatchStep, ConsumerStep;
    if EmitStep(c, s, step, s') {
      SealedEmit(c, s, step, s');
    } else if ResponseStep(s, step, s') {
      QuietSame(s, step, s');
      SealedResponse(s, step, s');
    } else {
      SealedOther(c, s, step, s');
    }
  }

  lemma SealedEmit(c: Config, s: State, step: Step, s': State)
    requires SealedIdle(s) && EmitStep(c, s, step, s')
    ensures SealedIdle(s')
  {
    hide HasSlot, Weight;
  }

  lemma SealedResponse(s: State, step: Step, s': State)
    requires Idle(s.core) && ResponseStep(s, step, s')
    ensures Idle(s'.core)
  {
  }

  lemma SealedOther(c: Config, s: State, step: Step, s': State)
    requires SealedIdle(s)
    requires TeardownStep(c, s, step, s') || DispatchStep(c, s, step, s') || ConsumerStep(s, step, s')
    ensures SealedIdle(s')
  {
    hide HasSlot, Free, Ready, EventsOf, Weight;
  }

  /** After a seal of an idle spool no event waits behind its gate any more. */
  lemma {:induction false} SealStaysIdle(c: Config, states: seq<State>, steps: seq<Step>, i: nat, j: nat)
    requires Run(c, states, steps) && i < j < |states|
    requires steps[i].SealIfIdle? && Idle(states[i].core)
    ensures SealedIdle(states[j])
    decreases j - i
  {
    hide Init;
    if i + 1 < j {
      SealStaysIdle(c, states, steps, i, j - 1);
      assert Next(c, states[j - 1], steps[j - 1], states[j]);
      SealedIdleNext(c, states[j - 1], steps[j - 1], states[j]);
    } else {
      assert Next(c, states[i], steps[i], states[i + 1]);
    }
  }

  // -------------------------------------------------------------------- order

  /** The application sees a prefix of the spool's events, in spool order. */
  lemma SpoolOrder(c: Config, states: seq<State>, steps: seq<Step>, n: nat)
    requires Run(c, states, steps) && n < |states|
    ensures Body(states[n].out) <= Flatten(states[n].entered, states[n].core.tickets)
  {
    hide Run, Depths, SlotKept, Gate, TerminalLast;
    RunInv(c, states, steps, n);
    BelowTaken(states[n]);
    FlattenPrefix(states[n].entered, states[n].core.tickets, states[n].taken, |states[n].entered|);
    assert states[n].entered[..|states[n].entered|] == states[n].entered;
  }

  lemma BelowTaken(s: State)
    requires Fifo(s) && Ordered(s)
    ensures Body(s.out) <= Flatten(s.entered[..s.taken], s.core.tickets)
  {
    hide Body, AllReady, Ready, DisconnectedLast;
    if s.discard {
      FlattenPrefix(s.entered, s.core.tickets, s.cut + 1, s.taken);
    } else if s.current.Some? {
      PartBelow(s, s.taken - 1);
    }
  }

  lemma PartBelow(s: State, k: nat)
    requires Fifo(s) && Exact(s) && s.current.Some? && k == s.taken - 1
    ensures Body(s.out) <= Flatten(s.entered[..k + 1], s.core.tickets)
  {
    hide Body, AllReady, Ready, EventsOf;
    FlattenNext(s.entered, s.core.tickets, k);
  }

  /** Without discarding, everything that entered has been forwarded by the end,
      each event once and in order. */
  lemma AllForwarded(c: Config, states: seq<State>, steps: seq<Step>, n: nat)
    requires Run(c, states, steps) && n < |states| && states[n].exited && !states[n].discard
    ensures Body(states[n].out) == Flatten(states[n].entered, states[n].core.tickets)
  {
    hide Run, Depths, SlotKept, Gate, Body, Flatten, AllReady;
    RunInv(c, states, steps, n);
    var s := states[n];
    assert s.entered[..Finished(s)] == s.entered;
  }

  /** A gated event holds back everything behind it. */
  lemma GateBlocks(c: Config, states: seq<State>, steps: seq<Step>, n: nat, k: nat)
    requires Run(c, states, steps) && n < |states| && k < |states[n].entered|
    requires !Ready(states[n].entered[k], states[n].core.tickets)
    ensures Body(states[n].out) <= Flatten(states[n].entered[..k], states[n].core.tickets)
  {
    hide Run, Depths, SlotKept, Gate, TerminalLast, Ready;
    RunInv(c, states, steps, n);
    BehindGate(states[n], k);
  }

  lemma BehindGate(s: State, k: nat)
    requires Fifo(s) && Ordered(s) && k < |s.entered| && !Ready(s.entered[k], s.core.tickets)
    ensures Body(s.out) <= Flatten(s.entered[..k], s.core.tickets)
  {
    var tickets := s.core.tickets;
    hide Body, Ready, DisconnectedLast, Flatten;
    if s.discard {
      NotReadyOutside(s.entered, tickets, s.cut + 1, k);
      FlattenPrefix(s.entered, tickets, s.cut + 1, k);
    } else {
      var f := Finished(s);
      NotReadyOutside(s.entered, tickets, f, k);
      if f < k && s.current.Some? {
        PartBelow(s, f);
        FlattenPrefix(s.entered, tickets, f + 1, k);
      } else {
        if s.current.Some? {
          UnreadyPart(s);
        }
        FlattenPrefix(s.entered, tickets, f, k);
      }
    }
  }

  lemma UnreadyPart(s: State)
    requires PartOk(s) && s.current.Some? && !Ready(s.current.value.item, s.core.tickets)
    ensures Part(s) == []
  {
  }

  lemma NotReadyOutside(items: seq<Item>, tickets: map<nat, Ticket>, j: nat, k: nat)
    requires j <= |items| && k < |items| && AllReady(items[..j], tickets) && !Ready(items[k], tickets)
    ensures j <= k
  {
    hide Ready, AllReady;
    if k < j {
      PrefixReady(items, tickets, j, k);
    }
  }

  lemma PrefixReady(items: seq<Item>, tickets: map<nat, Ticket>, j: nat, k: nat)
    requires k < j <= |items| && AllReady(items[..j], tickets)
    ensures Ready(items[k], tickets)
  {
    hide Ready;
    assert items[..j][k] == items[k];
  }

  /** A DELIVER whose response is not on the wire was given up, and then it is never
      forwarded, or it holds back itself and everything behind it. */
  lemma OnlyWrittenForwarded(c: Config, states: seq<State>, steps: seq<Step>, n: nat, k: nat)
    requires Run(c, states, steps) && n < |states| && k < |states[n].entered|
    requires states[n].entered[k].Deferred? && states[n].entered[k].ticket !in states[n].responses.wire
    ensures var tickets, item := states[n].core.tickets, states[n].entered[k];
            || (item.ticket in tickets && tickets[item.ticket].Abandoned? && EventsOf(item, tickets) == [])
            || Body(states[n].out) <= Flatten(states[n].entered[..k], tickets)
  {
    hide Run, Flow, Ordered, Depths, SlotKept, HoldersOk, WriterOk;
    RunInv(c, states, steps, n);
    assert states[n].entered[k] in states[n].entered;
    if !Ready(states[n].entered[k], states[n].core.tickets) {
      GateBlocks(c, states, steps, n, k);
    }
  }

  // -------------------------------------------------------------- disconnected

  /** Disconnected finds its reserved place whenever the receiver is still there. */
  lemma DisconnectedDelivered(c: Config, states: seq<State>, steps: seq<Step>, n: nat)
    requires Run(c, states, steps) && n < |steps| && steps[n].Exit?
    requires DispatchStep(c, states[n], steps[n], states[n + 1])
    requires states[n].receiverOpen && states[n].current.value.item.reason.Some?
    ensures states[n + 1].out == states[n].out + [Disconnected(states[n].current.value.item.reason.value)]
    ensures states[n + 1].taken == |states[n + 1].entered|
  {
    hide Next, Init, Ordered, Depths, Gate;
    RunInv(c, states, steps, n);
    NotExited(c, states[n], steps[n], states[n + 1]);
  }

  lemma ExitedIsFinal(c: Config, s: State, step: Step, s': State)
    requires Flow(s) && s.exited && Next(c, s, step, s')
    ensures s'.exited && s'.out == s.out
  {
    hide EmitStep, ResponseStep, TeardownStep, DispatchStep, ConsumerStep, Flow;
    if EmitStep(c, s, step, s') {
      EmitSame(c, s, step, s');
    } else if DispatchStep(c, s, step, s') {
      NotExited(c, s, step, s');
    } else if TeardownStep(c, s, step, s') {
      TeardownSame(c, s, step, s');
    } else {
      QuietSame(s, step, s');
    }
  }

  /** It is the last event of the run: nothing follows it, ever. */
  lemma {:induction false} DisconnectedIsLast(c: Config, states: seq<State>, steps: seq<Step>, i: nat, j: nat)
    requires Run(c, states, steps) && i <= j < |states|
    requires exists k :: 0 <= k < |states[i].out| && states[i].out[k].Disconnected?
    ensures states[i].out[|states[i].out| - 1].Disconnected? && states[j].exited && states[j].out == states[i].out
    decreases j - i
  {
    hide Next, Init, Depths, SlotKept, Gate, Flow;
    RunInv(c, states, steps, i);
    if i < j {
      DisconnectedIsLast(c, states, steps, i, j - 1);
      RunInv(c, states, steps, j - 1);
      ExitedIsFinal(c, states[j - 1], steps[j - 1], states[j]);
    }
  }
}
