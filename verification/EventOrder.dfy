/** What the application receives follows the order of the spool. */
module EventOrder {
  import opened Wrappers
  import opened EventSpool
  import opened EventDispatch
  import opened EventGate

  /** The ordinary events in the application's channel. */
  function Body(out: seq<Event>): seq<Event> {
    if out != [] && out[|out| - 1].Disconnected? then out[..|out| - 1] else out
  }

  ghost predicate DisconnectedLast(s: State) {
    forall k | 0 <= k < |s.out| :: s.out[k].Disconnected? ==> s.exited && k == |s.out| - 1
  }

  ghost predicate AllReady(items: seq<Item>, tickets: map<nat, Ticket>) {
    forall i | i in items :: Ready(i, tickets)
  }

  function Finished(s: State): int {
    s.taken - if s.current.Some? then 1 else 0
  }

  /** The events of the current item that were forwarded already. */
  ghost predicate PartOk(s: State) {
    s.current.Some? ==> s.current.value.done <= |EventsOf(s.current.value.item, s.core.tickets)|
  }

  function Part(s: State): seq<Event>
    requires PartOk(s)
  {
    if s.current.Some? then EventsOf(s.current.value.item, s.core.tickets)[..s.current.value.done] else []
  }

  /** Nothing is lost: all events of the finished items, and part of the current one. */
  ghost predicate Exact(s: State) {
    && 0 <= Finished(s) <= |s.entered| && PartOk(s)
    && AllReady(s.entered[..Finished(s)], s.core.tickets)
    && Body(s.out) == Flatten(s.entered[..Finished(s)], s.core.tickets) + Part(s)
  }

  /** Discarding began inside item `cut`. */
  ghost predicate Cut(s: State) {
    && s.cut < s.taken <= |s.entered|
    && AllReady(s.entered[..s.cut + 1], s.core.tickets)
    && Body(s.out) <= Flatten(s.entered[..s.cut + 1], s.core.tickets)
  }

  ghost predicate Ordered(s: State) {
    DisconnectedLast(s) && if s.discard then Cut(s) else Exact(s)
  }

  // ------------------------------------------------------------------ helpers

  lemma ReadyStable(i: Item, t: map<nat, Ticket>, t': map<nat, Ticket>)
    requires TicketsGrow(t, t')
    ensures Ready(i, t) ==> Ready(i, t') && EventsOf(i, t') == EventsOf(i, t)
    ensures !Ready(i, t) ==> EventsOf(i, t) == []
    ensures |EventsOf(i, t)| <= |EventsOf(i, t')|
  {
  }

  lemma {:induction false} FlattenStable(items: seq<Item>, t: map<nat, Ticket>, t': map<nat, Ticket>)
    requires AllReady(items, t) && TicketsGrow(t, t')
    ensures AllReady(items, t') && Flatten(items, t') == Flatten(items, t)
  {
    hide EventsOf, Ready, TicketsGrow;
    if items != [] {
      var front, last := items[..|items| - 1], items[|items| - 1];
      assert items == front + [last] && last in items;
      FlattenStable(front, t, t');
      ReadyStable(last, t, t');
    }
  }

  lemma FlattenNext(items: seq<Item>, t: map<nat, Ticket>, k: nat)
    requires k < |items|
    ensures Flatten(items[..k + 1], t) == Flatten(items[..k], t) + EventsOf(items[k], t)
  {
    assert items[..k + 1][..k] == items[..k];
  }

  lemma {:induction false} FlattenPrefix(items: seq<Item>, t: map<nat, Ticket>, j: nat, k: nat)
    requires j <= k <= |items|
    ensures Flatten(items[..j], t) <= Flatten(items[..k], t)
    decreases k - j
  {
    if j < k {
      FlattenPrefix(items, t, j, k - 1);
      FlattenNext(items, t, k - 1);
    }
  }

  /** Steps that leave the dispatcher and the channel alone. */
  lemma OrderedKept(s: State, s': State)
    requires Ordered(s) && s.entered <= s'.entered && s'.taken == s.taken && s'.current == s.current
    requires s'.out == s.out && s'.discard == s.discard && s'.cut == s.cut && s'.exited == s.exited
    requires TicketsGrow(s.core.tickets, s'.core.tickets)
    ensures Ordered(s')
  {
    hide EventsOf, Ready, Flatten, TicketsGrow, AllReady, Body;
    if s.discard {
      assert s'.entered[..s.cut + 1] == s.entered[..s.cut + 1];
      FlattenStable(s.entered[..s.cut + 1], s.core.tickets, s'.core.tickets);
    } else {
      assert s'.entered[..Finished(s)] == s.entered[..Finished(s)];
      FlattenStable(s.entered[..Finished(s)], s.core.tickets, s'.core.tickets);
      if s.current.Some? {
        ReadyStable(s.current.value.item, s.core.tickets, s'.core.tickets);
        assert Part(s') == Part(s);
      }
    }
  }

  // -------------------------------------------------------------------- steps

  lemma EmitSame(c: Config, s: State, step: Step, s': State)
    requires EmitStep(c, s, step, s')
    ensures s.entered <= s'.entered && s'.taken == s.taken && s'.current == s.current && s'.out == s.out
    ensures s'.discard == s.discard && s'.cut == s.cut && s'.exited == s.exited
  {
    hide Offer, Idle, HasSlot, Weight;
  }

  lemma TeardownSame(c: Config, s: State, step: Step, s': State)
    requires TeardownStep(c, s, step, s')
    ensures s.entered <= s'.entered && s'.taken == s.taken && s'.current == s.current && s'.out == s.out
    ensures s'.discard == s.discard && s'.cut == s.cut && s'.exited == s.exited
  {
    hide HasSlot;
  }

  lemma ReceiveOrdered(c: Config, s: State, s': State)
    requires Ordered(s) && Fifo(s) && DispatchStep(c, s, Receive, s')
    ensures Ordered(s')
  {
    hide Ready, EventsOf, Flatten, AllReady, Body;
    if !s.discard {
      assert Part(s') == [] == Part(s);
    }
  }

  lemma DeliverOrdered(c: Config, s: State, s': State)
    requires Ordered(s) && Fifo(s) && !s.exited && DispatchStep(c, s, Deliver, s')
    ensures Ordered(s')
  {
    hide Flatten, AllReady, Ready, Free;
    var u := s.current.value;
    var e := EventsOf(u.item, s.core.tickets);
    assert e[u.done].Ordinary?;
    hide EventsOf;
    assert e[..u.done + 1] == e[..u.done] + [e[u.done]];
    assert Part(s') == Part(s) + [e[u.done]];
    BodyGrows(s, s', e[u.done]);
  }

  lemma BodyGrows(s: State, s': State, e: Event)
    requires DisconnectedLast(s) && !s.exited && e.Ordinary? && s'.out == s.out + [e]
    ensures Body(s'.out) == Body(s.out) + [e] && DisconnectedLast(s')
  {
  }

  lemma GiveUpOrdered(c: Config, s: State, step: Step, s': State)
    requires Ordered(s) && Fifo(s) && step.GiveUp? && DispatchStep(c, s, step, s')
    ensures Ordered(s')
  {
    hide Flatten, AllReady, Ready, Free, EventsOf, Body;
    CurrentIsCut(s, s'.cut);
  }

  /** The current item is ready, so everything up to it is. */
  lemma CurrentIsCut(s: State, k: nat)
    requires Exact(s) && Fifo(s) && s.current.Some? && Ready(s.current.value.item, s.core.tickets) && k == s.taken - 1
    ensures AllReady(s.entered[..k + 1], s.core.tickets)
    ensures Body(s.out) <= Flatten(s.entered[..k + 1], s.core.tickets)
    ensures s.current.value.done == |EventsOf(s.current.value.item, s.core.tickets)| ==>
              Body(s.out) == Flatten(s.entered[..k + 1], s.core.tickets)
  {
    hide Ready, EventsOf, Body;
    FlattenNext(s.entered, s.core.tickets, k);
    hide Flatten;
    assert s.entered[..k + 1] == s.entered[..k] + [s.entered[k]];
  }

  lemma FinishOrdered(c: Config, s: State, s': State)
    requires Ordered(s) && Fifo(s) && DispatchStep(c, s, FinishItem, s')
    ensures Ordered(s')
  {
    hide Flatten, AllReady, Ready, Free, EventsOf, Body, Weight;
    if !s.discard {
      CurrentIsCut(s, s.taken - 1);
    }
  }

  lemma ExitOrdered(c: Config, s: State, s': State)
    requires Ordered(s) && Fifo(s) && !s.exited && DispatchStep(c, s, Exit, s')
    ensures Ordered(s')
  {
    hide Flatten, AllReady, Free, Body;
    BodyStays(s, s');
    if !s.discard {
      CurrentIsCut(s, s.taken - 1);
    }
  }

  lemma BodyStays(s: State, s': State)
    requires DisconnectedLast(s) && !s.exited && s'.exited
    requires s'.out == s.out || (|s'.out| == |s.out| + 1 && s'.out[..|s.out|] == s.out && s'.out[|s.out|].Disconnected?)
    ensures Body(s'.out) == Body(s.out) && DisconnectedLast(s')
  {
  }

  lemma DispatchOrdered(c: Config, s: State, step: Step, s': State)
    requires Ordered(s) && Flow(s) && DispatchStep(c, s, step, s')
    ensures Ordered(s')
  {
    NotExited(c, s, step, s');
    hide Ordered, Fifo, TerminalLast, DispatchStep;
    match step {
      case Receive => ReceiveOrdered(c, s, s');
      case Deliver => DeliverOrdered(c, s, s');
      case GiveUp(_) => GiveUpOrdered(c, s, step, s');
      case FinishItem => FinishOrdered(c, s, s');
      case Exit => ExitOrdered(c, s, s');
    }
  }

  /** The dispatcher takes no step after it has exited. */
  lemma NotExited(c: Config, s: State, step: Step, s': State)
    requires Flow(s) && DispatchStep(c, s, step, s')
    ensures !s.exited && (step.Receive? || step.Deliver? || step.GiveUp? || step.FinishItem? || step.Exit?)
  {
    hide Free, Ready, EventsOf, Weight;
  }

  lemma OrderedNext(c: Config, s: State, step: Step, s': State)
    requires Ordered(s) && Flow(s) && Gate(s) && Next(c, s, step, s')
    ensures Ordered(s')
  {
    hide Fifo, TerminalLast, Gate, EmitStep, ResponseStep, TeardownStep, DispatchStep, ConsumerStep,
         DisconnectedLast, Cut, Exact;
    GateNext(c, s, step, s');
    if DispatchStep(c, s, step, s') {
      DispatchOrdered(c, s, step, s');
    } else {
      if EmitStep(c, s, step, s') {
        EmitSame(c, s, step, s');
      } else if TeardownStep(c, s, step, s') {
        TeardownSame(c, s, step, s');
      } else {
        QuietSame(s, step, s');
      }
      OrderedKept(s, s');
    }
  }
}
