/** From decision to application: the SUBMIT machine and the event machine side by
    side. Every terminal decision is reported by one event; when no event was dropped,
    each accepted submit is reported to the application exactly once. */
module Delivery {
  import opened Wrappers
  import opened EventSpool
  import opened EventDispatch
  import opened EventDepth
  import opened EventGate
  import opened EventOrder
  import opened EventPromises
  import S = SubmitModel
  import SO = SubmitOwnership
  import SD = SubmitDecisions
  import ST = SubmitTheorems

  /** `owed`: decided, but not handed to the spool yet. `reporting`: its emission is
      under way. `dropping`: torn down, not packed into batches yet. `lost`: the spool
      refused the report or the teardown's budget ran out; these are the dropped
      events. */
  datatype Joint = Joint(
    submits: S.State,
    events: State,
    owed: seq<nat>,
    reporting: Option<nat>,
    dropping: seq<nat>,
    lost: seq<nat>)

  /** Reports of submits have even event ids, DELIVERs odd ones. */
  function Report(id: u32): nat {
    2 * id as int
  }

  datatype JointStep =
    | SubmitOnly(submit: S.Step)
    | Answer(submit: S.Step, id: u32)
    | Drop(submit: S.Step, id: u32)
    | TimeOut(submit: S.Step, id: u32)
    | EventOnly(event: Step)
    | ReportBegin
    | ReportEnd
    | Refuse
    | PackDropped(batches: seq<seq<nat>>)
    | LoseBatch

  function Concat(batches: seq<seq<nat>>): seq<nat> {
    if batches == [] then [] else batches[0] + Concat(batches[1..])
  }

  /** The next decision is about `id`. */
  ghost predicate Decides(s: S.State, s': S.State, id: u32) {
    && |s'.log.decisions| == |s.log.decisions| + 1 && s'.log.decisions[..|s.log.decisions|] == s.log.decisions
    && s'.log.decisions[|s.log.decisions|].id == id
  }

  /** Event steps that report no decision. */
  ghost predicate Unrelated(j: Joint, step: Step, s': State) {
    && (step.BeginEmit? && step.item.Deferred? ==> step.id % 2 == 1)
    && (step.FinishEmit? ==>
          j.reporting.None? && j.events.emission.Some?
          && (j.events.emission.value.item.Deferred? || s'.entered == j.events.entered))
    && !step.StartTeardown? && !step.AbandonBatch?
  }

  ghost predicate JointNext(sc: S.Config, ec: Config, j: Joint, step: JointStep, j': Joint) {
    match step
    case SubmitOnly(submit) =>
      && S.Next(j.submits, sc, submit, j'.submits) && j'.submits.log.decisions == j.submits.log.decisions
      && j' == j.(submits := j'.submits)
    case Answer(submit, id) =>
      && S.Next(j.submits, sc, submit, j'.submits) && submit.Respond? && Decides(j.submits, j'.submits, id)
      && j' == j.(submits := j'.submits, owed := j.owed + [Report(id)])
    case Drop(submit, id) =>
      && S.Next(j.submits, sc, submit, j'.submits) && submit.FailOne? && Decides(j.submits, j'.submits, id)
      && j' == j.(submits := j'.submits, dropping := j.dropping + [Report(id)])
    case TimeOut(submit, id) =>
      && S.Next(j.submits, sc, submit, j'.submits) && submit.ScanTimeout? && Decides(j.submits, j'.submits, id)
      && j.reporting.None? && EmitStep(ec, j.events, FinishEmit, j'.events)
      && j'.events.entered == j.events.entered + [Direct(Report(id))]
      && j' == j.(submits := j'.submits, events := j'.events)
    case EventOnly(event) =>
      && Next(ec, j.events, event, j'.events) && Unrelated(j, event, j'.events)
      && j' == j.(events := j'.events)
    case ReportBegin =>
      && j.owed != [] && EmitStep(ec, j.events, BeginEmit(Direct(j.owed[0]), j.owed[0]), j'.events)
      && j' == j.(events := j'.events, owed := j.owed[1..], reporting := Some(j.owed[0]))
    case ReportEnd =>
      && j.reporting.Some? && EmitStep(ec, j.events, FinishEmit, j'.events)
      && j' == j.(events := j'.events, reporting := None,
                  lost := if j'.events.entered == j.events.entered then j.lost + [j.reporting.value] else j.lost)
    case Refuse =>
      && j.owed != [] && j.events.emission.None? && !Admits(j.events.core.admission)
      && j' == j.(owed := j.owed[1..], lost := j.lost + [j.owed[0]])
    case PackDropped(batches) =>
      && j.submits.shutdown.phase == S.Closed && j.submits.pending == map[] && Concat(batches) == j.dropping
      && TeardownStep(ec, j.events, StartTeardown(batches), j'.events)
      && j' == j.(events := j'.events, dropping := [])
    case LoseBatch =>
      && j.events.teardown.Dropping? && j.events.teardown.batches != []
      && TeardownStep(ec, j.events, AbandonBatch, j'.events)
      && j' == j.(events := j'.events, lost := j.lost + j.events.teardown.batches[0])
  }

  ghost predicate JointInit(sc: S.Config, ec: Config, j: Joint) {
    && S.Init(j.submits, sc) && Init(ec, j.events)
    && j == Joint(j.submits, j.events, [], None, [], [])
  }

  // -------------------------------------------------------------- accounting

  function DecisionCodes(ds: seq<S.Decision>): (codes: seq<nat>)
    ensures |codes| == |ds|
  {
    seq(|ds|, i requires 0 <= i < |ds| => Report(ds[i].id))
  }

  /** The event ids that went into the spool without a gate. */
  function EnteredCodes(items: seq<Item>): seq<nat> {
    if items == [] then []
    else
      var last := items[|items| - 1];
      EnteredCodes(items[..|items| - 1]) +
        (if last.Direct? then [last.id] else if last.Batch? then last.ids else [])
  }

  function TeardownCodes(t: Teardown): seq<nat> {
    if t.Dropping? then Concat(t.batches) else []
  }

  function InFlightCodes(reporting: Option<nat>): multiset<nat> {
    if reporting.Some? then multiset{reporting.value} else multiset{}
  }

  /** Every decision is owed, on its way, in the spool's history, or lost: once. */
  ghost predicate Accounts(j: Joint) {
    multiset(DecisionCodes(j.submits.log.decisions)) ==
    multiset(j.owed) + InFlightCodes(j.reporting) + multiset(j.dropping) + multiset(EnteredCodes(j.events.entered))
    + multiset(TeardownCodes(j.events.teardown)) + multiset(j.lost)
  }

  ghost predicate ReportingOk(j: Joint) {
    j.reporting.Some? ==> j.events.emission.Some? && j.events.emission.value.item == Direct(j.reporting.value)
  }

  ghost predicate OddTickets(tickets: map<nat, Ticket>) {
    forall t | t in tickets && !tickets[t].Abandoned? :: tickets[t].id % 2 == 1
  }

  ghost predicate JointInv(sc: S.Config, ec: Config, j: Joint) {
    && ST.Inv(j.submits, sc) && Inv(ec, j.events)
    && Accounts(j) && ReportingOk(j) && OddTickets(j.events.core.tickets)
  }

  lemma DecisionSnoc(s: S.State, s': S.State, id: u32)
    requires Decides(s, s', id)
    ensures multiset(DecisionCodes(s'.log.decisions)) == multiset(DecisionCodes(s.log.decisions)) + multiset{Report(id)}
  {
    var ds, ds' := s.log.decisions, s'.log.decisions;
    assert DecisionCodes(ds') == DecisionCodes(ds) + [Report(id)];
  }

  lemma EnteredSnoc(items: seq<Item>, i: Item)
    ensures multiset(EnteredCodes(items + [i])) == multiset(EnteredCodes(items)) +
            multiset(if i.Direct? then [i.id] else if i.Batch? then i.ids else [])
  {
    assert (items + [i])[..|items|] == items;
  }

  lemma TakeFirst(s: seq<nat>)
    requires s != []
    ensures multiset(s) == multiset{s[0]} + multiset(s[1..])
  {
    assert s == [s[0]] + s[1..];
  }

  /** What the steps of the event machine do to the histories of reports. */
  ghost predicate SameReports(s: State, s': State) {
    multiset(EnteredCodes(s'.entered)) + multiset(TeardownCodes(s'.teardown)) ==
    multiset(EnteredCodes(s.entered)) + multiset(TeardownCodes(s.teardown))
  }

  lemma FinishReports(c: Config, s: State, s': State)
    requires EmitStep(c, s, FinishEmit, s')
    requires s.emission.value.item.Direct? || s.emission.value.item.Deferred?
    ensures s'.teardown == s.teardown && s'.emission.None?
    ensures s'.entered == s.entered || s'.entered == s.entered + [s.emission.value.item]
    ensures s.emission.value.item.Deferred? ==> SameReports(s, s')
    ensures forall t | t in s'.core.tickets && !s'.core.tickets[t].Abandoned? ::
              t in s.core.tickets && s'.core.tickets[t] == s.core.tickets[t]
  {
    hide HasSlot, Weight;
    EnteredSnoc(s.entered, s.emission.value.item);
    hide EnteredCodes;
  }

  lemma SealReports(c: Config, s: State, step: Step, s': State)
    requires EmitStep(c, s, step, s') && !step.FinishEmit?
    ensures s'.entered == s.entered && s'.teardown == s.teardown
    ensures !step.BeginEmit? ==> s'.core.tickets == s.core.tickets && s'.emission == s.emission
    ensures step.BeginEmit? ==> s.emission.None? && s'.emission.Some? && s'.emission.value.item == step.item
    ensures step.BeginEmit? ==>
              s'.core.tickets == if step.item.Direct? then s.core.tickets
                                 else s.core.tickets[step.item.ticket := Reserved(step.id)]
    ensures step.BeginEmit? ==> step.item.Direct? || step.item.Deferred?
  {
    hide Idle;
  }

  lemma TeardownReports(c: Config, s: State, step: Step, s': State)
    requires TeardownStep(c, s, step, s') && !step.StartTeardown? && !step.AbandonBatch?
    ensures SameReports(s, s') && s'.core.tickets == s.core.tickets && s'.emission == s.emission
  {
    hide HasSlot;
    match step {
      case SendBatch => EnteredSnoc(s.entered, Batch(s.teardown.batches[0]));
      case SendTerminal => EnteredSnoc(s.entered, Final(s.teardown.reason));
      case _ =>
    }
  }

  lemma ResponseReports(s: State, step: Step, s': State)
    requires ResponseStep(s, step, s') && OddTickets(s.core.tickets)
    ensures s'.entered == s.entered && s'.teardown == s.teardown && s'.emission == s.emission
    ensures OddTickets(s'.core.tickets)
  {
  }

  lemma DispatchReports(c: Config, s: State, step: Step, s': State)
    requires DispatchStep(c, s, step, s') || ConsumerStep(s, step, s')
    ensures s'.entered == s.entered && s'.teardown == s.teardown && s'.emission == s.emission
    ensures s'.core.tickets == s.core.tickets
  {
    hide Free, Ready, EventsOf, Weight, Forwarding;
  }

  /** An event step that reports nothing leaves the accounts alone. */
  lemma UnrelatedKeeps(c: Config, j: Joint, step: Step, j': Joint)
    requires Inv(c, j.events) && ReportingOk(j) && OddTickets(j.events.core.tickets)
    requires Next(c, j.events, step, j'.events) && Unrelated(j, step, j'.events) && j' == j.(events := j'.events)
    ensures SameReports(j.events, j'.events) && ReportingOk(j') && OddTickets(j'.events.core.tickets)
  {
    var s, s' := j.events, j'.events;
    EmissionItem(c, s);
    hide EmitStep, ResponseStep, TeardownStep, DispatchStep, ConsumerStep, Inv, EnteredCodes, TeardownCodes;
    if EmitStep(c, s, step, s') && step.FinishEmit? {
      FinishReports(c, s, s');
    } else if EmitStep(c, s, step, s') {
      SealReports(c, s, step, s');
    } else if TeardownStep(c, s, step, s') {
      TeardownReports(c, s, step, s');
    } else if ResponseStep(s, step, s') {
      ResponseReports(s, step, s');
    } else {
      DispatchReports(c, s, step, s');
    }
  }

  lemma EmissionItem(c: Config, s: State)
    requires Inv(c, s)
    ensures s.emission.Some? ==> s.emission.value.item.Direct? || s.emission.value.item.Deferred?
  {
    hide Ordered, SlotKept, Fifo;
    InvFlow(c, s);
  }

  lemma EmitIsNext(c: Config, s: State, step: Step, s': State)
    requires Inv(c, s) && (EmitStep(c, s, step, s') || TeardownStep(c, s, step, s'))
    ensures Inv(c, s')
  {
    hide EmitStep, TeardownStep, Inv;
    InvNext(c, s, step, s');
  }

  // --------------------------------------------------------------------- steps

  lemma JointParts(sc: S.Config, ec: Config, j: Joint, step: JointStep, j': Joint)
    requires S.ValidConfig(sc) && JointInv(sc, ec, j) && JointNext(sc, ec, j, step, j')
    ensures ST.Inv(j'.submits, sc) && Inv(ec, j'.events)
  {
    hide S.Next, S.ValidConfig, ST.Inv, Inv, Next, EmitStep, TeardownStep, Accounts, OddTickets, Unrelated, Decides;
    match step {
      case SubmitOnly(submit) => ST.InvNext(j.submits, sc, submit, j'.submits);
      case Answer(submit, _) => ST.InvNext(j.submits, sc, submit, j'.submits);
      case Drop(submit, _) => ST.InvNext(j.submits, sc, submit, j'.submits);
      case TimeOut(submit, _) =>
        ST.InvNext(j.submits, sc, submit, j'.submits);
        EmitIsNext(ec, j.events, FinishEmit, j'.events);
      case EventOnly(event) => InvNext(ec, j.events, event, j'.events);
      case ReportBegin => EmitIsNext(ec, j.events, BeginEmit(Direct(j.owed[0]), j.owed[0]), j'.events);
      case ReportEnd => EmitIsNext(ec, j.events, FinishEmit, j'.events);
      case Refuse =>
      case PackDropped(batches) => EmitIsNext(ec, j.events, StartTeardown(batches), j'.events);
      case LoseBatch => EmitIsNext(ec, j.events, AbandonBatch, j'.events);
    }
  }

  /** A decision is owed, or waits to be packed into a batch. */
  lemma DecideAccounts(j: Joint, id: u32, j': Joint)
    requires Accounts(j) && Decides(j.submits, j'.submits, id)
    requires || j' == j.(submits := j'.submits, owed := j.owed + [Report(id)])
             || j' == j.(submits := j'.submits, dropping := j.dropping + [Report(id)])
    ensures Accounts(j')
  {
    hide Decides, DecisionCodes, EnteredCodes, TeardownCodes;
    DecisionSnoc(j.submits, j'.submits, id);
  }

  lemma TimeOutAccounts(ec: Config, j: Joint, id: u32, j': Joint)
    requires Inv(ec, j.events) && Accounts(j) && ReportingOk(j) && OddTickets(j.events.core.tickets)
    requires Decides(j.submits, j'.submits, id) && j.reporting.None?
    requires EmitStep(ec, j.events, FinishEmit, j'.events)
    requires j'.events.entered == j.events.entered + [Direct(Report(id))]
    requires j' == j.(submits := j'.submits, events := j'.events)
    ensures Accounts(j') && ReportingOk(j') && OddTickets(j'.events.core.tickets)
  {
    hide Inv, Decides, DecisionCodes, EnteredCodes, TeardownCodes, EmitStep;
    EmissionItem(ec, j.events);
    EmissionHeld(ec, j.events, j'.events);
    FinishReports(ec, j.events, j'.events);
    DecisionSnoc(j.submits, j'.submits, id);
    EnteredSnoc(j.events.entered, Direct(Report(id)));
  }

  lemma EmissionHeld(c: Config, s: State, s': State)
    requires EmitStep(c, s, FinishEmit, s')
    ensures s.emission.Some?
  {
    hide Offer;
  }

  /** The oldest report owed leaves the queue: into an emission, or lost. */
  lemma OwedMoves(j: Joint, j': Joint)
    requires Accounts(j) && j.owed != [] && j'.owed == j.owed[1..] && j'.submits == j.submits
    requires j'.dropping == j.dropping && j'.events.entered == j.events.entered
    requires j'.events.teardown == j.events.teardown
    requires || (j'.lost == j.lost + [j.owed[0]] && j'.reporting == j.reporting)
             || (j'.lost == j.lost && j.reporting.None? && j'.reporting == Some(j.owed[0]))
    ensures Accounts(j')
  {
    hide DecisionCodes, EnteredCodes, TeardownCodes;
    TakeFirst(j.owed);
  }

  lemma BeginAccounts(ec: Config, j: Joint, j': Joint)
    requires Accounts(j) && ReportingOk(j) && j.owed != []
    requires EmitStep(ec, j.events, BeginEmit(Direct(j.owed[0]), j.owed[0]), j'.events)
    requires j' == j.(events := j'.events, owed := j.owed[1..], reporting := Some(j.owed[0]))
    ensures Accounts(j') && ReportingOk(j') && j'.events.core.tickets == j.events.core.tickets
  {
    hide EmitStep, Accounts;
    SealReports(ec, j.events, BeginEmit(Direct(j.owed[0]), j.owed[0]), j'.events);
    NoneReporting(j);
    OwedMoves(j, j');
  }

  /** The report under way ends in the spool's history or is lost. */
  lemma ReportingMoves(j: Joint, j': Joint)
    requires Accounts(j) && j.reporting.Some? && j'.reporting.None? && j'.submits == j.submits
    requires j'.owed == j.owed && j'.dropping == j.dropping && j'.events.teardown == j.events.teardown
    requires || (j'.lost == j.lost + [j.reporting.value] && j'.events.entered == j.events.entered)
             || (j'.lost == j.lost && j'.events.entered == j.events.entered + [Direct(j.reporting.value)])
    ensures Accounts(j')
  {
    hide DecisionCodes, EnteredCodes, TeardownCodes;
    EnteredSnoc(j.events.entered, Direct(j.reporting.value));
  }

  lemma EndAccounts(ec: Config, j: Joint, j': Joint)
    requires Accounts(j) && ReportingOk(j) && OddTickets(j.events.core.tickets) && j.reporting.Some?
    requires EmitStep(ec, j.events, FinishEmit, j'.events)
    requires j' == j.(events := j'.events, reporting := None,
                      lost := if j'.events.entered == j.events.entered then j.lost + [j.reporting.value] else j.lost)
    ensures Accounts(j') && ReportingOk(j') && OddTickets(j'.events.core.tickets)
  {
    hide EmitStep, Accounts;
    FinishReports(ec, j.events, j'.events);
    ReportingMoves(j, j');
  }

  lemma NoneReporting(j: Joint)
    requires ReportingOk(j) && j.events.emission.None?
    ensures j.reporting.None?
  {
  }

  lemma PackAccounts(ec: Config, j: Joint, batches: seq<seq<nat>>, j': Joint)
    requires Accounts(j) && Concat(batches) == j.dropping
    requires TeardownStep(ec, j.events, StartTeardown(batches), j'.events)
    requires j' == j.(events := j'.events, dropping := [])
    ensures Accounts(j') && j'.events.core.tickets == j.events.core.tickets
    ensures j'.events.emission == j.events.emission
  {
    hide DecisionCodes, EnteredCodes, HasSlot;
  }

  lemma LoseAccounts(ec: Config, j: Joint, j': Joint)
    requires Accounts(j) && j.events.teardown.Dropping? && j.events.teardown.batches != []
    requires TeardownStep(ec, j.events, AbandonBatch, j'.events)
    requires j' == j.(events := j'.events, lost := j.lost + j.events.teardown.batches[0])
    ensures Accounts(j') && j'.events.core.tickets == j.events.core.tickets
    ensures j'.events.emission == j.events.emission
  {
    hide DecisionCodes, EnteredCodes, HasSlot;
  }

  lemma SameAccounts(j: Joint, j': Joint)
    requires Accounts(j) && SameReports(j.events, j'.events) && j' == j.(events := j'.events)
    ensures Accounts(j')
  {
    hide DecisionCodes, EnteredCodes, TeardownCodes;
    var rest := multiset(j.owed) + InFlightCodes(j.reporting) + multiset(j.dropping) + multiset(j.lost);
    assert rest + (multiset(EnteredCodes(j.events.entered)) + multiset(TeardownCodes(j.events.teardown))) ==
           multiset(DecisionCodes(j.submits.log.decisions));
  }

  lemma JointInvNext(sc: S.Config, ec: Config, j: Joint, step: JointStep, j': Joint)
    requires S.ValidConfig(sc) && JointInv(sc, ec, j) && JointNext(sc, ec, j, step, j')
    ensures JointInv(sc, ec, j')
  {
    hide JointNext, S.ValidConfig, ST.Inv, Inv, Accounts, OddTickets, ReportingOk;
    JointParts(sc, ec, j, step, j');
    AccountsNext(sc, ec, j, step, j');
  }

  lemma AccountsNext(sc: S.Config, ec: Config, j: Joint, step: JointStep, j': Joint)
    requires JointInv(sc, ec, j) && JointNext(sc, ec, j, step, j')
    ensures Accounts(j') && ReportingOk(j') && OddTickets(j'.events.core.tickets)
  {
    hide S.Next, ST.Inv, Inv, Next, EmitStep, TeardownStep, Decides, Unrelated, Accounts, OddTickets, SameReports;
    match step {
      case SubmitOnly(_) => SameDecisions(j, j');
      case Answer(_, id) => DecideAccounts(j, id, j');
      case Drop(_, id) => DecideAccounts(j, id, j');
      case TimeOut(_, id) => TimeOutAccounts(ec, j, id, j');
      case EventOnly(event) =>
        UnrelatedKeeps(ec, j, event, j');
        SameAccounts(j, j');
      case ReportBegin => BeginAccounts(ec, j, j');
      case ReportEnd => EndAccounts(ec, j, j');
      case Refuse => OwedMoves(j, j');
      case PackDropped(batches) => PackAccounts(ec, j, batches, j');
      case LoseBatch => LoseAccounts(ec, j, j');
    }
  }

  lemma SameDecisions(j: Joint, j': Joint)
    requires Accounts(j) && j'.submits.log.decisions == j.submits.log.decisions && j' == j.(submits := j'.submits)
    ensures Accounts(j')
  {
    hide DecisionCodes, EnteredCodes, TeardownCodes;
  }

  ghost predicate JointRun(sc: S.Config, ec: Config, states: seq<Joint>, steps: seq<JointStep>) {
    && S.ValidConfig(sc) && ec.publicCapacity >= 1
    && |states| == |steps| + 1
    && JointInit(sc, ec, states[0])
    && forall i | 0 <= i < |steps| :: JointNext(sc, ec, states[i], steps[i], states[i + 1])
  }

  lemma JointInvInit(sc: S.Config, ec: Config, j: Joint)
    requires JointInit(sc, ec, j) && ec.publicCapacity >= 1
    ensures JointInv(sc, ec, j)
  {
    hide ST.Inv, Inv;
    ST.InvInit(j.submits, sc);
    InvInit(ec, j.events);
  }

  lemma {:induction false} JointRunInv(
    sc: S.Config, ec: Config, states: seq<Joint>, steps: seq<JointStep>, n: nat)
    requires JointRun(sc, ec, states, steps) && n < |states|
    ensures JointInv(sc, ec, states[n])
  {
    hide JointInv, JointNext, JointInit, S.ValidConfig;
    if n == 0 {
      JointInvInit(sc, ec, states[0]);
    } else {
      JointRunInv(sc, ec, states, steps, n - 1);
      JointInvNext(sc, ec, states[n - 1], steps[n - 1], states[n]);
    }
  }

  // ----------------------------------------------------------------- delivery

  /** How often a report stands among the events of some items. */
  lemma {:induction false} FlattenCounts(items: seq<Item>, tickets: map<nat, Ticket>, code: nat)
    requires OddTickets(tickets) && code % 2 == 0
    ensures multiset(Flatten(items, tickets))[Ordinary(code)] == multiset(EnteredCodes(items))[code]
  {
    if items != [] {
      var init, last := items[..|items| - 1], items[|items| - 1];
      FlattenCounts(init, tickets, code);
      ItemCounts(last, tickets, code);
    }
  }

  lemma ItemCounts(i: Item, tickets: map<nat, Ticket>, code: nat)
    requires OddTickets(tickets) && code % 2 == 0
    ensures multiset(EventsOf(i, tickets))[Ordinary(code)] ==
            multiset(if i.Direct? then [i.id] else if i.Batch? then i.ids else [])[code]
  {
    if i.Batch? {
      BatchCounts(i.ids, code, EventsOf(i, tickets));
    }
  }

  lemma {:induction false} BatchCounts(ids: seq<nat>, code: nat, events: seq<Event>)
    requires |events| == |ids| && forall k | 0 <= k < |ids| :: events[k] == Ordinary(ids[k])
    ensures multiset(events)[Ordinary(code)] == multiset(ids)[code]
  {
    if ids != [] {
      var n := |ids| - 1;
      BatchCounts(ids[..n], code, events[..n]);
      assert ids == ids[..n] + [ids[n]] && events == events[..n] + [events[n]];
    }
  }

  lemma {:induction false} CodesCount(ds: seq<S.Decision>, i: nat)
    requires i < |ds| && forall k | 0 <= k < |ds| && k != i :: ds[k].id != ds[i].id
    ensures multiset(DecisionCodes(ds))[Report(ds[i].id)] == 1
  {
    var codes := DecisionCodes(ds);
    var front, back := codes[..i], codes[i + 1..];
    assert codes == front + [codes[i]] + back;
    assert codes[i] !in front && codes[i] !in back;
  }

  lemma {:induction false} CodesAtMostOnce(ds: seq<S.Decision>, id: u32)
    requires SD.NoneTwice(ds)
    ensures multiset(DecisionCodes(ds))[Report(id)] <= 1
  {
    if ds != [] {
      var n := |ds| - 1;
      CodesAtMostOnce(ds[..n], id);
      assert DecisionCodes(ds) == DecisionCodes(ds[..n]) + [Report(ds[n].id)];
      if ds[n].id == id {
        assert Report(id) !in DecisionCodes(ds[..n]);
      }
    }
  }

  lemma CountsOfPrefix(a: seq<Event>, b: seq<Event>, e: Event)
    requires a <= b
    ensures multiset(a)[e] <= multiset(b)[e]
  {
    assert b == a + b[|a|..];
  }

  /** In every state of every run, no submit has been reported to the application
      twice, whatever was dropped. */
  lemma ReportedAtMostOnce(
    sc: S.Config, ec: Config, states: seq<Joint>, steps: seq<JointStep>, n: nat, id: u32)
    requires JointRun(sc, ec, states, steps) && n < |states|
    ensures multiset(Body(states[n].events.out))[Ordinary(Report(id))] <= 1
  {
    hide JointRun, ST.Inv, Inv, DecisionCodes, EnteredCodes, TeardownCodes, Flatten, Body, OddTickets, SO.Own;
    JointRunInv(sc, ec, states, steps, n);
    var j := states[n];
    OutBelow(ec, j.events);
    CountsOfPrefix(Body(j.events.out), Flatten(j.events.entered, j.events.core.tickets), Ordinary(Report(id)));
    FlattenCounts(j.events.entered, j.events.core.tickets, Report(id));
    DecidedParts(sc, j.submits);
    CodesAtMostOnce(j.submits.log.decisions, id);
  }

  lemma DecidedParts(sc: S.Config, s: S.State)
    requires ST.Inv(s, sc)
    ensures SO.Own(s) && SD.Dec(s)
  {
    hide SO.Own, SD.Dec;
  }

  lemma OutBelow(c: Config, s: State)
    requires Inv(c, s)
    ensures Body(s.out) <= Flatten(s.entered, s.core.tickets)
  {
    hide Depths, SlotKept, Gate, TerminalLast, Ordered, Body, Flatten;
    BelowTaken(s);
    FlattenPrefix(s.entered, s.core.tickets, s.taken, |s.entered|);
    assert s.entered[..|s.entered|] == s.entered;
  }

  /** No report is on its way any more: the terminal item has passed, and the
      application was never given up. */
  ghost predicate AllArrived(j: Joint) {
    && j.owed == [] && j.reporting.None? && j.dropping == []
    && j.events.exited && !j.events.discard
  }

  /** The documented promise: once the closed connection has no pending submit left,
      every accepted submit was reported to the application exactly once, or its one
      report is among the dropped events. */
  lemma ReportedExactlyOnce(
    sc: S.Config, ec: Config, states: seq<Joint>, steps: seq<JointStep>, n: nat, id: u32)
    requires JointRun(sc, ec, states, steps) && n < |states|
    requires states[n].submits.pending == map[] && AllArrived(states[n])
    requires id in states[n].submits.log.admitted
    ensures multiset(Body(states[n].events.out))[Ordinary(Report(id))] == if Report(id) in states[n].lost then 0 else 1
  {
    hide JointRun, ST.Inv, Inv, DecisionCodes, EnteredCodes, Flatten, Body, OddTickets, SO.Own;
    JointRunInv(sc, ec, states, steps, n);
    var j := states[n];
    AllOut(ec, j.events);
    DecidedParts(sc, j.submits);
    DecidedCount(j.submits, id);
    FlattenCounts(j.events.entered, j.events.core.tickets, Report(id));
  }

  lemma DecidedCount(s: S.State, id: u32)
    requires SO.Own(s) && SD.Dec(s) && s.pending == map[] && id in s.log.admitted
    ensures multiset(DecisionCodes(s.log.decisions))[Report(id)] == 1
  {
    SD.AllDecided(s);
    var i :| 0 <= i < |s.log.decisions| && s.log.decisions[i].id == id
             && forall k | 0 <= k < |s.log.decisions| && k != i :: s.log.decisions[k].id != id;
    CodesCount(s.log.decisions, i);
  }

  lemma AllOut(c: Config, s: State)
    requires Inv(c, s) && s.exited && !s.discard
    ensures Body(s.out) == Flatten(s.entered, s.core.tickets) && TeardownCodes(s.teardown) == []
  {
    hide Depths, SlotKept, Body, Flatten, AllReady;
    assert s.entered[..Finished(s)] == s.entered;
  }
}
