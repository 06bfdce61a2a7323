/** No lease leaks: which ids are reserved, and that no two submits share a submission id. */
module SubmitLeases {
  import opened Wrappers
  import opened SequenceRegistry
  import opened SubmitModel
  import opened SubmitOwnership
  import opened SubmitDecisions
  import opened SubmitPlaces
  import opened SubmitTheorems
  import opened SubmitPromises

  /** Somebody alive holds the reservation: a caller, or an undropped entry with an
      automatic id. */
  predicate HasOwner(s: State, id: u32) {
    Leased(s, id) || (id in s.pending && !s.pending[id].manual)
  }

  /** Ids whose retirement was refused by a full table; their reservation is kept. */
  ghost function RefusedIn(steps: seq<Step>): set<u32> {
    set step | step in steps && step.Admit? && !step.retired :: step.id
  }

  /** Reserved are exactly the ids with an owner and the refused ones. */
  ghost predicate ExactlyReserved(s: State, refused: set<u32>) {
    && (forall id: u32 :: id in s.registry.reserved <==> HasOwner(s, id) || id in refused)
    && (forall id | id in refused :: !Leased(s, id) && id !in s.log.admitted)
  }

  ghost function RefusedBy(step: Step): set<u32> {
    if step.Admit? && !step.retired then {step.id} else {}
  }

  lemma RefusedSnoc(steps: seq<Step>, step: Step)
    ensures RefusedIn(steps + [step]) == RefusedIn(steps) + RefusedBy(step)
  {
    forall id: u32
      ensures id in RefusedIn(steps + [step]) <==> id in RefusedIn(steps) || id in RefusedBy(step)
    {
      if id in RefusedIn(steps) {
        var x :| x in steps && x.Admit? && !x.retired && x.id == id;
        assert x in steps + [step];
      }
      if id in RefusedBy(step) {
        assert step in steps + [step];
      }
    }
  }

  // ------------------------------------------------------------------ the steps

  lemma ManualReserved(s: State, step: Step, s': State, refused: set<u32>)
    requires Own(s) && ExactlyReserved(s, refused) && CallerStep(s, step, s') && step.ReserveManual?
    ensures ExactlyReserved(s', refused)
  {
    hide Valid, Blocked, Spent, InPrefix, BatchSpec;
    BatchFacts(s.registry, s'.registry, step.base, step.count, step.ids);
    NewUnreserved(s.registry);
  }

  lemma AutomaticReserved(s: State, step: Step, s': State, refused: set<u32>)
    requires Own(s) && ExactlyReserved(s, refused) && CallerStep(s, step, s')
    requires step.LeaseAutomatic? || step.LeaseOther?
    ensures ExactlyReserved(s', refused)
  {
    hide Valid, Blocked, Spent, InPrefix, NextSpec;
    NextFacts(s.registry, s'.registry, step.leased);
    NewUnreserved(s.registry);
  }

  /** Between two states only the standing of `id` differs. */
  ghost predicate OnlyOne(s: State, s': State, id: u32) {
    forall x: u32 | x != id ::
      && (HasOwner(s', x) <==> HasOwner(s, x)) && (Leased(s', x) <==> Leased(s, x))
      && (x in s'.registry.reserved <==> x in s.registry.reserved)
      && (x in s'.log.admitted <==> x in s.log.admitted)
  }

  lemma OneReserved(s: State, s': State, id: u32, refused: set<u32>, more: set<u32>)
    requires ExactlyReserved(s, refused) && OnlyOne(s, s', id) && more <= {id} && id !in refused
    requires id in s'.registry.reserved <==> HasOwner(s', id) || id in more
    requires id in more ==> !Leased(s', id) && id !in s'.log.admitted
    ensures ExactlyReserved(s', refused + more)
  {
    hide HasOwner, Leased;
  }

  lemma AdmitReserved(s: State, step: Step, s': State, refused: set<u32>)
    requires Own(s) && ExactlyReserved(s, refused) && CallerStep(s, step, s') && step.Admit?
    ensures ExactlyReserved(s', refused + RefusedBy(step))
  {
    AdmitParts(s, step, s');
    assert Leased(s, step.id);
    hide Own, CallerStep, HasOwner, Leased, OnlyOne;
    OneReserved(s, s', step.id, refused, RefusedBy(step));
  }

  lemma AdmitRegistry(s: State, step: Step, s': State)
    requires Own(s) && CallerStep(s, step, s') && step.Admit?
    ensures step.id in s.callers.ready
    ensures s' == (if step.retired then Admitted(s, step.id) else Refused(s, step.id)).(registry := s'.registry)
    ensures s'.registry.reserved ==
            if step.retired && s.callers.ready[step.id].manual then s.registry.reserved - {step.id}
            else s.registry.reserved
  {
    hide Valid, Blocked, Spent, InPrefix, RetireSpec, Admitted, Refused;
    if s.callers.ready[step.id].manual {
      RetireFacts(s.registry, s'.registry, step.id, step.retired);
    }
  }

  lemma ReadyAlone(s: State, id: u32)
    requires Own(s) && id in s.callers.ready
    ensures id in s.registry.reserved && id !in s.log.admitted && id !in s.pending
    ensures id !in s.callers.held && id !in s.callers.leased && id !in s.callers.others
  {
  }

  lemma AdmitParts(s: State, step: Step, s': State)
    requires Own(s) && CallerStep(s, step, s') && step.Admit?
    ensures OnlyOne(s, s', step.id) && !Leased(s', step.id)
    ensures !step.retired ==> step.id in s'.registry.reserved && step.id !in s'.log.admitted
    ensures step.retired ==> (step.id in s'.registry.reserved <==> HasOwner(s', step.id))
  {
    hide Own, CallerStep;
    AdmitRegistry(s, step, s');
    ReadyAlone(s, step.id);
  }

  lemma OtherReserved(s: State, step: Step, s': State, refused: set<u32>)
    requires Own(s) && ExactlyReserved(s, refused) && CallerStep(s, step, s')
    requires !step.Admit? && !step.LeaseAutomatic? && !step.LeaseOther? && !step.ReserveManual?
    ensures ExactlyReserved(s', refused)
  {
    if step.AcquirePermit? || step.AbortWaiting? {
      hide Own, ExactlyReserved;
      SameReserved(s, s', refused);
    } else {
      OtherParts(s, step, s');
      var id := step.id;
      hide Own, CallerStep, HasOwner, OnlyOne;
      assert Leased(s, id);
      OneReserved(s, s', id, refused, {});
      assert refused + {} == refused;
    }
  }

  lemma OtherParts(s: State, step: Step, s': State)
    requires Own(s) && CallerStep(s, step, s')
    requires || step.DropHeld? || step.LeaseHeld? || step.ReserveSlot? || step.AbortLeased? || step.AbortReady?
             || step.DropOther?
    ensures OnlyOne(s, s', step.id) && Leased(s, step.id)
    ensures step.id in s'.registry.reserved <==> HasOwner(s', step.id)
  {
    hide Valid, Spent, InPrefix;
  }

  lemma CallerReserved(s: State, step: Step, s': State, refused: set<u32>)
    requires Own(s) && ExactlyReserved(s, refused) && CallerStep(s, step, s')
    ensures ExactlyReserved(s', refused + RefusedBy(step))
  {
    hide Own, ExactlyReserved, CallerStep;
    assert !step.Admit? ==> refused + RefusedBy(step) == refused;
    match step {
      case ReserveManual(_, _, _) => ManualReserved(s, step, s', refused);
      case LeaseAutomatic(_) => AutomaticReserved(s, step, s', refused);
      case LeaseOther(_) => AutomaticReserved(s, step, s', refused);
      case Admit(_, _) => AdmitReserved(s, step, s', refused);
      case _ => OtherReserved(s, step, s', refused);
    }
  }

  lemma NewUnreserved(r: Registry)
    ensures forall x: u32 :: !Blocked(r, x) ==> x !in r.reserved
  {
  }

  lemma RemoveReserved(s: State, id: u32, refused: set<u32>)
    requires Own(s) && ExactlyReserved(s, refused) && id in s.pending
    ensures ExactlyReserved(RemoveEntry(s, id), refused)
  {
    hide Valid, Spent, InPrefix;
  }

  /** The map keeps its entries' kinds, and nothing else that matters has changed. */
  lemma SameReserved(s: State, s': State, refused: set<u32>)
    requires ExactlyReserved(s, refused)
    requires s'.registry == s.registry && s'.log.admitted == s.log.admitted
    requires s'.callers == s.callers.(free := s'.callers.free, waiting := s'.callers.waiting)
    requires s'.pending.Keys == s.pending.Keys
    requires forall id | id in s'.pending :: s'.pending[id].manual == s.pending[id].manual
    ensures ExactlyReserved(s', refused)
  {
  }

  lemma CompleteReserved(s: State, key: Key, refused: set<u32>)
    requires Own(s) && ExactlyReserved(s, refused)
    ensures ExactlyReserved(CompleteOne(s, key), refused)
  {
    hide ExactlyReserved, Own;
    if AnsweredEarly(s.pending, key) {
      RemoveReserved(s, key.sequenceId, refused);
    } else {
      SameReserved(s, CompleteOne(s, key), refused);
    }
  }

  lemma WriterReserved(s: State, step: Step, s': State, refused: set<u32>)
    requires Own(s) && ExactlyReserved(s, refused) && WriterStep(s, step, s')
    ensures ExactlyReserved(s', refused)
  {
    hide ExactlyReserved, Own, CompleteOne;
    if step.CompleteNext? {
      var t := CompleteOne(s, s.writer.claimed[0]);
      CompleteReserved(s, s.writer.claimed[0], refused);
      CompleteAdmits(s, s.writer.claimed[0]);
      SameReserved(t, s', refused);
    } else {
      SameReserved(s, s', refused);
    }
  }

  lemma CompleteAdmits(s: State, key: Key)
    ensures CompleteOne(s, key).log == s.log
  {
  }

  lemma ScanReserved(s: State, c: Config, step: Step, s': State, refused: set<u32>)
    requires Own(s) && ExactlyReserved(s, refused) && ScanStep(s, c, step, s')
    ensures ExactlyReserved(s', refused)
  {
    hide IsScanList, RetireSpec, Own;
    if step.ScanTimeout? && s'.pending != s.pending {
      TimeoutReserved(s, c, step, s', refused);
    } else {
      hide ExactlyReserved;
      SameReserved(s, s', refused);
    }
  }

  lemma TimeoutReserved(s: State, c: Config, step: Step, s': State, refused: set<u32>)
    requires Own(s) && ExactlyReserved(s, refused) && ScanStep(s, c, step, s')
    requires step.ScanTimeout? && s'.pending != s.pending
    ensures ExactlyReserved(s', refused)
  {
    var id := s.scanner.list[0].sequenceId;
    TimeoutParts(s, c, step, s');
    hide Own, ScanStep, HasOwner, Leased, OnlyOne;
    OneReserved(s, s', id, refused, {});
    assert refused + {} == refused;
  }

  lemma TimeoutParts(s: State, c: Config, step: Step, s': State)
    requires Own(s) && ScanStep(s, c, step, s') && step.ScanTimeout? && s'.pending != s.pending
    ensures s.scanner.list != []
    ensures var id := s.scanner.list[0].sequenceId;
            OnlyOne(s, s', id) && id in s.log.admitted && id !in s'.registry.reserved && !HasOwner(s', id)
  {
    hide Valid, Spent, InPrefix, RetireSpec;
    var id := s.scanner.list[0].sequenceId;
    PendingIsSpent(s, id);
    RetireFacts(s.registry, s'.registry, id, step.retired);
  }

  lemma RespondReserved(s: State, id: u32, refused: set<u32>)
    requires Own(s) && ExactlyReserved(s, refused)
    ensures ExactlyReserved(RespondOne(s, id), refused)
  {
    hide ExactlyReserved, Own;
    if Answers(s.pending, id) && !s.pending[id].state.Writing? {
      RemoveReserved(s, id, refused);
      SameReserved(RemoveEntry(s, id), RespondOne(s, id), refused);
    } else {
      SameReserved(s, RespondOne(s, id), refused);
    }
  }

  lemma ShutdownReserved(s: State, step: Step, s': State, refused: set<u32>)
    requires Own(s) && ExactlyReserved(s, refused) && ShutdownStep(s, step, s')
    ensures ExactlyReserved(s', refused)
  {
    hide ExactlyReserved, Own;
    if step.FailOne? {
      RemoveReserved(s, step.id, refused);
      SameReserved(RemoveEntry(s, step.id), s', refused);
    } else {
      SameReserved(s, s', refused);
    }
  }

  lemma ReservedNext(s: State, c: Config, step: Step, s': State, refused: set<u32>)
    requires Own(s) && ExactlyReserved(s, refused) && Next(s, c, step, s')
    ensures ExactlyReserved(s', refused + RefusedBy(step))
  {
    hide Own, ExactlyReserved;
    if CallerStep(s, step, s') {
      hide CallerStep;
      CallerReserved(s, step, s', refused);
    } else {
      NoRefusal(s, c, step, s', refused);
      hide CallerStep, WriterStep, ScanStep, ShutdownStep, RespondOne;
      if WriterStep(s, step, s') {
        WriterReserved(s, step, s', refused);
      } else if ScanStep(s, c, step, s') {
        ScanReserved(s, c, step, s', refused);
      } else if ShutdownStep(s, step, s') {
        ShutdownReserved(s, step, s', refused);
      } else {
        RespondReserved(s, step.id, refused);
      }
    }
  }

  lemma NoRefusal(s: State, c: Config, step: Step, s': State, refused: set<u32>)
    requires Next(s, c, step, s') && !CallerStep(s, step, s')
    ensures refused + RefusedBy(step) == refused
  {
    hide CallerStep, RespondOne;
  }

  /** In every reachable state an id is reserved if and only if a caller or a pending
      automatic submit still owns it, or its retirement was refused by a full table: no
      end of a submit, timely or not, leaves a reservation behind. */
  lemma {:induction false} NoLeaseLeaks(c: Config, states: seq<State>, steps: seq<Step>, n: nat)
    requires Run(c, states, steps) && n < |states|
    ensures ExactlyReserved(states[n], RefusedIn(steps[..n]))
  {
    hide Next, Own, Permits, Dec, Frames, Timed, Draining, ValidConfig;
    if n == 0 {
      assert steps[..0] == [];
    } else {
      hide Init, ExactlyReserved, RefusedIn;
      NoLeaseLeaks(c, states, steps, n - 1);
      At(c, states, steps, n - 1);
      ReservedNext(states[n - 1], c, steps[n - 1], states[n], RefusedIn(steps[..n - 1]));
      assert steps[..n] == steps[..n - 1] + [steps[n - 1]];
      RefusedSnoc(steps[..n - 1], steps[n - 1]);
    }
  }

  // ------------------------------------------------------------ submission ids

  /** The submission id that goes with a sequence id, from its lease on. */
  function SubmissionOf(s: State, id: u32): Option<nat> {
    if id in s.callers.leased then Some(s.callers.leased[id].submissionId)
    else if id in s.callers.ready then Some(s.callers.ready[id].submissionId)
    else if id in s.log.admitted then Some(s.log.admitted[id])
    else None
  }

  ghost predicate SubmissionsDiffer(s: State) {
    && (forall id: u32 :: SubmissionOf(s, id).Some? ==> SubmissionOf(s, id).value < s.callers.nextSubmissionId)
    && (forall x: u32, y: u32 | x != y && SubmissionOf(s, x).Some? && SubmissionOf(s, y).Some? ::
          SubmissionOf(s, x) != SubmissionOf(s, y))
  }

  /** A step keeps the submission ids that remain, or gives the next one to one lease. */
  ghost predicate SubmissionsFrom(s: State, s': State, given: Option<u32>) {
    && s.callers.nextSubmissionId + (if given.Some? then 1 else 0) == s'.callers.nextSubmissionId
    && forall id: u32 :: SubmissionOf(s', id).Some? ==>
         if given == Some(id) then SubmissionOf(s', id) == Some(s.callers.nextSubmissionId)
         else SubmissionOf(s', id) == SubmissionOf(s, id)
  }

  lemma FromDiffers(s: State, s': State, given: Option<u32>)
    requires SubmissionsDiffer(s) && SubmissionsFrom(s, s', given)
    ensures SubmissionsDiffer(s')
  {
    hide SubmissionOf;
  }

  lemma LeaseSubmissions(s: State, step: Step, s': State) returns (given: Option<u32>)
    requires Own(s) && CallerStep(s, step, s') && (step.LeaseAutomatic? || step.LeaseHeld?)
    ensures SubmissionsFrom(s, s', given)
  {
    hide Valid, Spent, InPrefix, NextSpec;
    given := if step.LeaseHeld? then Some(step.id) else step.leased;
  }

  lemma MoveSubmissions(s: State, step: Step, s': State)
    requires Own(s) && CallerStep(s, step, s') && (step.ReserveSlot? || step.Admit?)
    ensures SubmissionsFrom(s, s', None)
  {
    hide Valid, Spent, InPrefix, RetireSpec;
  }

  lemma KeepSubmissions(s: State, step: Step, s': State)
    requires Own(s) && CallerStep(s, step, s')
    requires !step.LeaseAutomatic? && !step.LeaseHeld? && !step.ReserveSlot? && !step.Admit?
    ensures SubmissionsFrom(s, s', None)
  {
    hide Valid, Spent, InPrefix, NextSpec, BatchSpec, RetireSpec;
  }

  lemma CallerSubmissions(s: State, step: Step, s': State) returns (given: Option<u32>)
    requires Own(s) && CallerStep(s, step, s')
    ensures SubmissionsFrom(s, s', given)
  {
    hide Own, CallerStep, SubmissionsFrom;
    given := None;
    if step.LeaseAutomatic? || step.LeaseHeld? {
      given := LeaseSubmissions(s, step, s');
    } else if step.ReserveSlot? || step.Admit? {
      MoveSubmissions(s, step, s');
    } else {
      KeepSubmissions(s, step, s');
    }
  }

  lemma OtherSubmissions(s: State, c: Config, step: Step, s': State)
    requires Next(s, c, step, s') && !CallerStep(s, step, s')
    ensures s'.callers == s.callers.(free := s'.callers.free) && s'.log.admitted == s.log.admitted
  {
    hide CallerStep, RetireSpec, IsScanList;
  }

  lemma SubmissionsNext(s: State, c: Config, step: Step, s': State)
    requires Own(s) && SubmissionsDiffer(s) && Next(s, c, step, s')
    ensures SubmissionsDiffer(s')
  {
    hide Own, SubmissionsDiffer, CallerStep, WriterStep, ScanStep, ShutdownStep, RespondOne;
    if CallerStep(s, step, s') {
      var given := CallerSubmissions(s, step, s');
      FromDiffers(s, s', given);
    } else {
      OtherSubmissions(s, c, step, s');
      FromDiffers(s, s', None);
    }
  }

  lemma {:induction false} RunSubmissions(c: Config, states: seq<State>, steps: seq<Step>, n: nat)
    requires Run(c, states, steps) && n < |states|
    ensures SubmissionsDiffer(states[n])
  {
    hide Next, Own, Permits, Dec, Frames, Timed, Draining, ValidConfig;
    if n > 0 {
      hide Init, SubmissionsDiffer;
      RunSubmissions(c, states, steps, n - 1);
      At(c, states, steps, n - 1);
      SubmissionsNext(states[n - 1], c, steps[n - 1], states[n]);
    }
  }

  /** No two submits of a connection ever share a submission id. */
  lemma SubmissionIdsDiffer(c: Config, states: seq<State>, steps: seq<Step>, n: nat, x: u32, y: u32)
    requires Run(c, states, steps) && n < |states| && x != y
    requires x in states[n].log.admitted && y in states[n].log.admitted
    ensures states[n].log.admitted[x] != states[n].log.admitted[y]
  {
    hide Permits, Dec, Frames, Timed, Draining, Run, Next;
    RunSubmissions(c, states, steps, n);
    At(c, states, steps, n);
    assert SubmissionOf(states[n], x) == Some(states[n].log.admitted[x]);
    assert SubmissionOf(states[n], y) == Some(states[n].log.admitted[y]);
  }
}
