/** The dispatcher is never stuck: a consumer that stops reading makes it give up at
    most once, and from the close of the spool on every run has a bounded number of
    its steps, until the terminal item has been reached. */
module EventProgress {
  import opened Wrappers
  import opened EventSpool
  import opened EventDispatch
  import opened EventDepth
  import opened EventGate
  import opened EventOrder
  import opened EventPromises

  /** Most events an item can turn out to stand for. */
  function MostEvents(i: Item): nat {
    match i
    case Direct(_) => 1
    case Batch(ids) => |ids|
    case Deferred(_) => 1
    case Final(_) => 0
  }

  function SpoolWork(spool: seq<Item>): nat {
    if spool == [] then 0 else 2 + MostEvents(spool[0]) + SpoolWork(spool[1..])
  }

  function CurrentWork(s: State): int {
    if s.current.None? then 0 else 1 + MostEvents(s.current.value.item) - s.current.value.done
  }

  /** How many steps the dispatcher can still take with what is in the spool. */
  function Work(s: State): int {
    SpoolWork(s.core.spool) + CurrentWork(s) + if s.discard then 0 else 1
  }

  lemma EventsBounded(i: Item, tickets: map<nat, Ticket>)
    ensures |EventsOf(i, tickets)| <= MostEvents(i)
  {
  }

  /** The forwarded part of the current item. */
  ghost predicate DoneOk(s: State) {
    s.current.Some? ==> s.current.value.done <= MostEvents(s.current.value.item)
  }

  /** Every step of the dispatcher uses up work, whatever it is. */
  lemma DispatchUsesWork(c: Config, s: State, step: Step, s': State)
    requires DoneOk(s) && DispatchStep(c, s, step, s')
    ensures 0 <= Work(s') < Work(s) && DoneOk(s')
  {
    hide Free, Ready, EventsOf, Weight;
    if s.current.Some? {
      EventsBounded(s.current.value.item, s.core.tickets);
    }
  }

  /** What the dispatcher does next; `s` names no gated item it has to wait for. */
  function NextDispatch(c: Config, s: State): Step {
    if s.current.None? then Receive
    else if s.current.value.item.Final? then Exit
    else if !Forwarding(s) then FinishItem
    else if !s.receiverOpen then GiveUp(false)
    else if Free(c, s) >= 2 then Deliver
    else GiveUp(true)
  }

  /** The dispatcher has something to do and its current item is not behind a gate. */
  ghost predicate Unblocked(s: State) {
    && !s.exited && s.emission.None?
    && (s.current.Some? || s.core.spool != [])
    && (s.current.Some? && !s.discard ==>
          && Ready(s.current.value.item, s.core.tickets)
          && s.current.value.done <= |EventsOf(s.current.value.item, s.core.tickets)|)
  }

  /** The state that step leads to. */
  function Dispatched(c: Config, s: State): State
    requires s.current.None? ==> s.core.spool != []
    requires s.current.Some? ==> s.core.depth >= Weight(s.current.value.item) && s.taken > 0
  {
    match NextDispatch(c, s)
    case Receive =>
      s.(current := Some(Current(s.core.spool[0], 0)), taken := s.taken + 1,
         core := s.core.(spool := s.core.spool[1..]))
    case Exit =>
      var reason := s.current.value.item.reason;
      s.(current := None, exited := true, core := s.core.(depth := s.core.depth - 1),
         out := if reason.Some? && s.receiverOpen && Free(c, s) >= 1
                then s.out + [Disconnected(reason.value)] else s.out)
    case FinishItem =>
      s.(current := None, core := s.core.(depth := s.core.depth - Weight(s.current.value.item)))
    case Deliver =>
      var u := s.current.value;
      s.(out := s.out + [EventsOf(u.item, s.core.tickets)[u.done]], current := Some(u.(done := u.done + 1)))
    case GiveUp(backpressure) =>
      s.(discard := true, cut := s.taken - 1,
         core := s.core.(admission := if backpressure && Admits(s.core.admission) then Overflowed
                                      else s.core.admission))
  }

  /** It can always move: a full channel or a lost receiver only starts discarding. */
  lemma NeverStuck(c: Config, s: State)
    requires Fifo(s) && Accounted(s) && Unblocked(s)
    ensures s.current.Some? ==> s.core.depth >= Weight(s.current.value.item) && s.taken > 0
    ensures DispatchStep(c, s, NextDispatch(c, s), Dispatched(c, s))
  {
    hide WeightOf, EventsOf, Ready;
  }

  // ---------------------------------------------------------- closing the spool

  /** Teardown has made the terminal item; it waits for a slot or has entered. */
  ghost predicate Ending(c: Config, s: State) {
    Inv(c, s) && DoneOk(s) && (s.teardown.Closing? || s.teardown.Closed?)
  }

  /** The work left once the terminal item is counted in. */
  function TotalWork(s: State): int {
    Work(s) + if s.teardown.Closing? then 2 else 0
  }

  predicate IsDispatch(step: Step) {
    step.Receive? || step.Deliver? || step.GiveUp? || step.FinishItem? || step.Exit?
  }

  lemma StepKinds(c: Config, s: State, step: Step, s': State)
    requires Next(c, s, step, s')
    ensures IsDispatch(step) <==> DispatchStep(c, s, step, s')
  {
    hide Idle, HasSlot, Free, Ready, EventsOf, Weight, Forwarding, Offer, Settled;
  }

  lemma {:induction false} SpoolWorkSnoc(spool: seq<Item>, i: Item)
    ensures SpoolWork(spool + [i]) == SpoolWork(spool) + 2 + MostEvents(i)
  {
    if spool == [] {
      assert [] + [i] == [i];
    } else {
      SpoolWorkSnoc(spool[1..], i);
      assert (spool + [i])[1..] == spool[1..] + [i];
    }
  }

  /** Every step of every actor: the dispatcher's steps use up work, no other step
      adds any, and the terminal item's own work was counted from the start. */
  lemma EndingNext(c: Config, s: State, step: Step, s': State)
    requires Ending(c, s) && Next(c, s, step, s')
    ensures Ending(c, s') && TotalWork(s') <= TotalWork(s) - if IsDispatch(step) then 1 else 0
  {
    StepKinds(c, s, step, s');
    InvFlow(c, s);
    TerminalAdmission(s);
    hide Inv, DoneOk, Work, IsDispatch;
    InvNext(c, s, step, s');
    hide Next, EmitStep, ResponseStep, TeardownStep, DispatchStep, ConsumerStep;
    NextKinds(c, s, step, s');
    if DispatchStep(c, s, step, s') {
      DispatchUsesWork(c, s, step, s');
      DispatchKeeps(c, s, step, s');
    } else if EmitStep(c, s, step, s') {
      TerminalEmits(c, s, step, s');
    } else if TeardownStep(c, s, step, s') {
      SendAddsItem(c, s, step, s');
    } else {
      QuietSame(s, step, s');
      SameWork(s, s');
    }
  }

  lemma NextKinds(c: Config, s: State, step: Step, s': State)
    requires Next(c, s, step, s')
    ensures || EmitStep(c, s, step, s') || ResponseStep(s, step, s') || TeardownStep(c, s, step, s')
            || DispatchStep(c, s, step, s') || ConsumerStep(s, step, s')
  {
    hide EmitStep, ResponseStep, TeardownStep, DispatchStep, ConsumerStep;
  }

  lemma TerminalAdmission(s: State)
    requires TerminalLast(s) && (s.teardown.Closing? || s.teardown.Closed?)
    ensures s.core.admission.Terminal? && s.emission.None?
  {
  }

  lemma SameWork(s: State, s': State)
    requires s'.core.spool == s.core.spool && s'.current == s.current && s'.discard == s.discard
    ensures Work(s') == Work(s) && (DoneOk(s) ==> DoneOk(s'))
  {
  }

  lemma SendAddsItem(c: Config, s: State, step: Step, s': State)
    requires TerminalLast(s) && TeardownStep(c, s, step, s') && s.core.admission.Terminal?
    ensures step.SendTerminal? && s.teardown.Closing? && s'.teardown.Closed? && Work(s') == Work(s) + 2
    ensures s'.core.tickets == s.core.tickets && (DoneOk(s) ==> DoneOk(s'))
  {
    hide HasSlot;
    var r := TerminalTears(c, s, step, s');
    SpoolWorkSnoc(s.core.spool, Final(s.teardown.reason));
  }

  lemma DispatchKeeps(c: Config, s: State, step: Step, s': State)
    requires DispatchStep(c, s, step, s')
    ensures s'.teardown == s.teardown && s'.emission == s.emission && s'.core.tickets == s.core.tickets
  {
    hide Free, Ready, EventsOf, Weight;
  }

  // --------------------------------------------------------------- what is left

  /** The dispatcher waits for a gated event whose ticket its holder still has. */
  ghost predicate AtGate(s: State) {
    s.current.Some? && !s.discard && !Ready(s.current.value.item, s.core.tickets)
  }

  /** Until it has exited, the dispatcher or the retry of the terminal item can move,
      unless the dispatcher stands at a gate. */
  lemma EndingMoves(c: Config, s: State) returns (step: Step, s': State)
    requires Ending(c, s) && !s.exited && !AtGate(s)
    ensures Next(c, s, step, s') && (IsDispatch(step) || step.SendTerminal?)
  {
    InvFlow(c, s);
    TerminalAdmission(s);
    if s.teardown.Closing? && HasSlot(s.core, c.capacity) {
      step, s' := SendTerminal, Sent(s);
      SentIsStep(c, s);
      hide TeardownStep;
    } else {
      EndingUnblocked(c, s);
      hide Fifo, Accounted, Unblocked, Inv, AtGate;
      NeverStuck(c, s);
      step, s' := NextDispatch(c, s), Dispatched(c, s);
      hide NextDispatch, Dispatched;
      assert Next(c, s, step, s') by {
        hide DispatchStep;
      }
      StepKinds(c, s, step, s');
    }
  }

  /** The terminal item takes a slot. */
  function Sent(s: State): State
    requires s.teardown.Closing?
  {
    s.(teardown := Teardown.Closed, core := s.core.(spool := s.core.spool + [Final(s.teardown.reason)]),
       entered := s.entered + [Final(s.teardown.reason)])
  }

  lemma SentIsStep(c: Config, s: State)
    requires s.teardown.Closing? && HasSlot(s.core, c.capacity)
    ensures TeardownStep(c, s, SendTerminal, Sent(s))
  {
    hide HasSlot;
  }

  lemma EndingUnblocked(c: Config, s: State)
    requires Ending(c, s) && !s.exited && !AtGate(s)
    requires s.teardown.Closed? || !HasSlot(s.core, c.capacity)
    ensures Fifo(s) && Accounted(s) && Unblocked(s)
  {
    hide AllWeigh, Bounded, Accounted, Gate, SlotKept, EventsOf, Ready;
    assert s.core.spool == [] ==> s.taken == |s.entered|;
    EndingPart(c, s);
  }

  lemma EndingPart(c: Config, s: State)
    requires Ending(c, s)
    ensures s.current.Some? && !s.discard ==>
              s.current.value.done <= |EventsOf(s.current.value.item, s.core.tickets)|
  {
    hide AllWeigh, Bounded, Accounted, Gate, SlotKept, EventsOf;
  }

  // --------------------------------------------------------------------- runs

  function CountDispatch(steps: seq<Step>): nat {
    if steps == [] then 0
    else CountDispatch(steps[..|steps| - 1]) + if IsDispatch(steps[|steps| - 1]) then 1 else 0
  }

  lemma DoneNext(c: Config, s: State, step: Step, s': State)
    requires DoneOk(s) && Next(c, s, step, s')
    ensures DoneOk(s')
  {
    NextKinds(c, s, step, s');
    hide EmitStep, ResponseStep, TeardownStep, DispatchStep, ConsumerStep, Next;
    if DispatchStep(c, s, step, s') {
      DispatchUsesWork(c, s, step, s');
    } else if EmitStep(c, s, step, s') {
      EmitSame(c, s, step, s');
    } else if TeardownStep(c, s, step, s') {
      TeardownSame(c, s, step, s');
    } else {
      QuietSame(s, step, s');
    }
  }

  lemma {:induction false} RunDone(c: Config, states: seq<State>, steps: seq<Step>, n: nat)
    requires Run(c, states, steps) && n < |states|
    ensures DoneOk(states[n])
  {
    hide Next, DoneOk;
    if n == 0 {
      InitDone(c, states[0]);
    } else {
      RunDone(c, states, steps, n - 1);
      DoneNext(c, states[n - 1], steps[n - 1], states[n]);
    }
  }

  lemma InitDone(c: Config, s: State)
    requires Init(c, s)
    ensures DoneOk(s)
  {
  }

  lemma RunEnding(c: Config, states: seq<State>, steps: seq<Step>, n: nat)
    requires Run(c, states, steps) && n < |states|
    requires states[n].teardown.Closing? || states[n].teardown.Closed?
    ensures Ending(c, states[n])
  {
    hide Run, Inv, DoneOk;
    RunInv(c, states, steps, n);
    RunDone(c, states, steps, n);
  }

  /** In every run, once the terminal item exists, inside the spool or waiting for a
      slot, the dispatcher takes at most the work that was left, whatever all others
      do meanwhile. */
  lemma {:induction false} DispatcherStepsBounded(c: Config, states: seq<State>, steps: seq<Step>, n: nat, m: nat)
    requires Run(c, states, steps) && n <= m < |states|
    requires states[n].teardown.Closing? || states[n].teardown.Closed?
    ensures Ending(c, states[m]) && 0 <= TotalWork(states[m])
    ensures CountDispatch(steps[n..m]) <= TotalWork(states[n]) - TotalWork(states[m])
    decreases m - n
  {
    hide Next, Init, Inv, DoneOk, Work, IsDispatch;
    RunEnding(c, states, steps, n);
    if n < m {
      DispatcherStepsBounded(c, states, steps, n, m - 1);
      assert Next(c, states[m - 1], steps[m - 1], states[m]);
      EndingNext(c, states[m - 1], steps[m - 1], states[m]);
      assert steps[n..m][..m - 1 - n] == steps[n..m - 1];
    }
    WorkNatural(states[m]);
  }

  lemma WorkNatural(s: State)
    requires DoneOk(s)
    ensures 0 <= TotalWork(s)
  {
  }

  /** In every run, from then on and until the dispatcher has exited, its next step or
      the entry of the terminal item is enabled, a gate excepted; and a ticket behind
      a gate always has a holder that can settle it. */
  lemma CanAlwaysMove(c: Config, states: seq<State>, steps: seq<Step>, n: nat) returns (step: Step, s': State)
    requires Run(c, states, steps) && n < |states| && !states[n].exited
    requires states[n].teardown.Closing? || states[n].teardown.Closed?
    ensures !AtGate(states[n]) ==> Next(c, states[n], step, s') && (IsDispatch(step) || step.SendTerminal?)
    ensures AtGate(states[n]) ==>
              var t := states[n].current.value.item.ticket;
              t in states[n].responses.held || t in Carried(states[n].responses)
  {
    hide Run, Next, IsDispatch;
    RunEnding(c, states, steps, n);
    if AtGate(states[n]) {
      GateHasHolder(c, states[n]);
      step, s' := FinishItem, states[n];
    } else {
      hide AtGate;
      step, s' := EndingMoves(c, states[n]);
    }
  }

  lemma GateHasHolder(c: Config, s: State)
    requires Ending(c, s) && AtGate(s)
    ensures s.current.value.item.Deferred?
    ensures var t := s.current.value.item.ticket; t in s.responses.held || t in Carried(s.responses)
  {
    hide Ordered, Depths, SlotKept, WireOk, Carried, Distinct;
    TerminalAdmission(s);
    assert s.entered[s.taken - 1] in s.entered;
    assert Pending(s, s.current.value.item.ticket);
  }

  /** A run of the dispatcher and of the terminal item's retry alone. */
  ghost predicate OwnRun(c: Config, states: seq<State>, steps: seq<Step>) {
    && |states| == |steps| + 1
    && forall i | 0 <= i < |steps| ::
         Next(c, states[i], steps[i], states[i + 1]) && (IsDispatch(steps[i]) || steps[i].SendTerminal?)
  }

  lemma {:induction false} ReachesTerminal(c: Config, s: State) returns (states: seq<State>, steps: seq<Step>)
    requires Ending(c, s) && Idle(s.core)
    ensures OwnRun(c, states, steps) && states[0] == s && states[|steps|].exited
    decreases TotalWork(s), if s.teardown.Closing? then 1 else 0
  {
    hide Next, Ending, TotalWork, Idle, IsDispatch;
    if s.exited {
      states, steps := [s], [];
    } else {
      IdleNoGate(c, s);
      hide AtGate;
      var step, s' := EndingMoves(c, s);
      EndingNext(c, s, step, s');
      OwnStep(c, s, step, s');
      EndingWork(c, s');
      var laterStates, laterSteps := ReachesTerminal(c, s');
      states, steps := [s] + laterStates, [step] + laterSteps;
      OwnCons(c, s, step, laterStates, laterSteps);
    }
  }

  lemma EndingWork(c: Config, s: State)
    requires Ending(c, s)
    ensures 0 <= TotalWork(s)
  {
    hide Inv;
    WorkNatural(s);
  }

  lemma IdleNoGate(c: Config, s: State)
    requires Ending(c, s) && Idle(s.core)
    ensures !AtGate(s)
  {
    hide Ordered, Depths, SlotKept, WireOk, HoldersOk;
    assert s.current.Some? ==> s.entered[s.taken - 1] in s.entered;
  }

  lemma OwnStep(c: Config, s: State, step: Step, s': State)
    requires Ending(c, s) && Next(c, s, step, s') && (IsDispatch(step) || step.SendTerminal?)
    ensures Idle(s.core) ==> Idle(s'.core)
    ensures step.SendTerminal? ==> s.teardown.Closing? && !s'.teardown.Closing?
    ensures IsDispatch(step) ==> s'.teardown == s.teardown
  {
    StepKinds(c, s, step, s');
    InvFlow(c, s);
    TerminalAdmission(s);
    NextKinds(c, s, step, s');
    SendIsTeardown(c, s, step, s');
    hide Inv, DoneOk, Next, EmitStep, ResponseStep, TeardownStep, DispatchStep, ConsumerStep;
    if IsDispatch(step) {
      DispatchKeeps(c, s, step, s');
    } else {
      SendAddsItem(c, s, step, s');
    }
  }

  lemma SendIsTeardown(c: Config, s: State, step: Step, s': State)
    requires Next(c, s, step, s')
    ensures step.SendTerminal? ==> TeardownStep(c, s, step, s')
  {
    hide TeardownStep;
  }

  lemma OwnCons(c: Config, s: State, step: Step, states: seq<State>, steps: seq<Step>)
    requires OwnRun(c, states, steps) && Next(c, s, step, states[0]) && (IsDispatch(step) || step.SendTerminal?)
    ensures OwnRun(c, [s] + states, [step] + steps)
  {
    hide Next, IsDispatch;
  }

  /** In every run, once the terminal item exists and no gated event is pending, the
      dispatcher reaches it and exits, by its own steps and one retry that finds a
      slot, however little the application reads and however full the spool is. */
  lemma TerminalIsReached(c: Config, states: seq<State>, steps: seq<Step>, n: nat)
    returns (later: seq<State>, own: seq<Step>)
    requires Run(c, states, steps) && n < |states| && Idle(states[n].core)
    requires states[n].teardown.Closing? || states[n].teardown.Closed?
    ensures OwnRun(c, later, own) && later[0] == states[n] && later[|own|].exited
  {
    hide Run, Ending, Idle;
    RunEnding(c, states, steps, n);
    later, own := ReachesTerminal(c, states[n]);
  }

  // ------------------------------------------------------------ discarding once

  lemma DiscardStays(c: Config, s: State, step: Step, s': State)
    requires Next(c, s, step, s')
    ensures s.discard ==> s'.discard && !step.GiveUp?
    ensures step.GiveUp? ==> s'.discard
  {
    NextKinds(c, s, step, s');
    StepKinds(c, s, step, s');
    hide Next, EmitStep, ResponseStep, TeardownStep, ConsumerStep;
    if DispatchStep(c, s, step, s') {
      hide Free, Ready, EventsOf, Weight;
    } else {
      hide DispatchStep;
      if EmitStep(c, s, step, s') {
        EmitSame(c, s, step, s');
      } else if TeardownStep(c, s, step, s') {
        TeardownSame(c, s, step, s');
      } else {
        QuietSame(s, step, s');
      }
    }
  }

  lemma {:induction false} DiscardForGood(c: Config, states: seq<State>, steps: seq<Step>, i: nat, j: nat)
    requires Run(c, states, steps) && i <= j < |states| && states[i].discard
    ensures states[j].discard
    decreases j - i
  {
    hide Next, Init;
    if i < j {
      DiscardForGood(c, states, steps, i, j - 1);
      DiscardStays(c, states[j - 1], steps[j - 1], states[j]);
    }
  }

  /** In every run the dispatcher gives up on the application at most once: it waits
      out the backpressure budget no second time. */
  lemma GivesUpOnce(c: Config, states: seq<State>, steps: seq<Step>, i: nat, j: nat)
    requires Run(c, states, steps) && i < j < |steps| && steps[i].GiveUp?
    ensures !steps[j].GiveUp?
  {
    hide Next, Init;
    DiscardStays(c, states[i], steps[i], states[i + 1]);
    DiscardForGood(c, states, steps, i + 1, j);
    DiscardStays(c, states[j], steps[j], states[j + 1]);
  }
}
