/** Who owns which sequence id, permit and queue slot, in every reachable state. */
module SubmitOwnership {
  import opened Wrappers
  import opened SequenceRegistry
  import opened SubmitModel

  /** The id is under lease, outside the pending map. */
  predicate Leased(s: State, id: u32) {
    id in s.callers.held || id in s.callers.leased || id in s.callers.ready || id in s.callers.others
  }

  /** Every leased id has one owner and keeps its reservation; every id ever
      admitted is used for good. */
  ghost predicate Own(s: State) {
    && Valid(s.registry)
    && (forall id | id in s.callers.held ::
          id in s.registry.reserved && id !in s.log.admitted
          && id !in s.callers.leased && id !in s.callers.ready && id !in s.callers.others)
    && (forall id | id in s.callers.leased ::
          id in s.registry.reserved && id !in s.log.admitted
          && id !in s.callers.ready && id !in s.callers.others)
    && (forall id | id in s.callers.ready ::
          id in s.registry.reserved && id !in s.log.admitted && id !in s.callers.others)
    && (forall id | id in s.callers.others ::
          id in s.registry.reserved && id !in s.log.admitted)
    && (forall id | id in s.log.admitted :: Spent(s.registry, id))
    && (forall id | id in s.callers.leased && !s.callers.leased[id].manual :: InPrefix(s.registry, id))
    && (forall id | id in s.callers.ready && !s.callers.ready[id].manual :: InPrefix(s.registry, id))
    && (forall id | id in s.pending :: id in s.log.admitted && s.pending[id].submissionId == s.log.admitted[id])
  }

  function Bit(b: bool): nat {
    if b then 1 else 0
  }

  /** Window permits and queue slots are neither lost nor duplicated. */
  ghost predicate Permits(s: State, c: Config) {
    && s.callers.free + s.callers.waiting + |s.callers.leased| + |s.callers.ready| + |s.pending| == c.windowSize
    && s.channel.slots + |s.channel.queue| + |s.callers.ready| + Bit(s.scanner.slot) == SEND_CHANNEL_CAPACITY
  }

  lemma OwnInit(s: State, c: Config)
    requires Init(s, c)
    ensures Own(s) && Permits(s, c)
  {
  }

  /** Removing an entry keeps ownership whatever becomes of its reservation. */
  lemma OwnShrink(s: State, s': State)
    requires Own(s)
    requires Valid(s'.registry)
    requires forall id | id in s.registry.reserved && id !in s.log.admitted :: id in s'.registry.reserved
    requires forall id: u32 :: Spent(s.registry, id) ==> Spent(s'.registry, id)
    requires forall id: u32 :: InPrefix(s.registry, id) ==> InPrefix(s'.registry, id)
    requires s'.callers == s.callers.(free := s'.callers.free)
    requires s'.log.admitted == s.log.admitted
    requires forall id | id in s'.pending ::
               id in s.pending && s'.pending[id].submissionId == s.pending[id].submissionId
    ensures Own(s')
  {
    hide Valid, Spent, InPrefix;
  }

  lemma OwnRemove(s: State, id: u32)
    requires Own(s) && id in s.pending
    ensures Own(RemoveEntry(s, id))
  {
    ReleaseFacts(s.registry, id);
    OwnShrink(s, RemoveEntry(s, id));
  }

  /** Free ids belong to nobody. */
  lemma FreeUnowned(s: State, id: u32)
    requires Own(s) && !Blocked(s.registry, id)
    ensures !Leased(s, id) && id !in s.log.admitted && id !in s.pending
  {
    hide Valid, Spent, InPrefix;
  }

  lemma OwnLease(s: State, step: Step, s': State)
    requires Own(s) && CallerStep(s, step, s') && step.LeaseAutomatic?
    ensures Own(s')
  {
    hide Valid, Spent, NextSpec, InPrefix;
    NextFacts(s.registry, s'.registry, step.leased);
    if step.leased.Some? {
      FreeUnowned(s, step.leased.value);
    }
  }

  lemma OwnLeaseOther(s: State, step: Step, s': State)
    requires Own(s) && CallerStep(s, step, s') && step.LeaseOther?
    ensures Own(s')
  {
    hide Valid, Spent, NextSpec, InPrefix;
    NextFacts(s.registry, s'.registry, step.leased);
    if step.leased.Some? {
      FreeUnowned(s, step.leased.value);
    }
  }

  lemma OwnManual(s: State, step: Step, s': State)
    requires Own(s) && CallerStep(s, step, s') && step.ReserveManual?
    ensures Own(s')
  {
    hide Valid, Spent, BatchSpec, InPrefix;
    BatchFacts(s.registry, s'.registry, step.base, step.count, step.ids);
    forall id | id in ManualIds(step.ids)
      ensures !Leased(s, id) && id !in s.log.admitted
    {
      FreeUnowned(s, id);
    }
  }

  lemma OwnDrop(s: State, step: Step, s': State)
    requires Own(s) && CallerStep(s, step, s')
    requires step.DropHeld? || step.AbortLeased? || step.AbortReady? || step.DropOther?
    ensures Own(s')
  {
    hide Valid, Spent, InPrefix;
    ReleaseFacts(s.registry, step.id);
  }

  lemma OwnMove(s: State, step: Step, s': State)
    requires Own(s) && CallerStep(s, step, s')
    requires step.AcquirePermit? || step.AbortWaiting? || step.LeaseHeld? || step.ReserveSlot?
    ensures Own(s')
  {
    hide Valid, Spent, InPrefix;
  }

  lemma OwnCaller(s: State, step: Step, s': State)
    requires Own(s) && CallerStep(s, step, s')
    ensures Own(s')
  {
    assert CallerKind(step);
    hide Own, CallerStep;
    if step.LeaseAutomatic? { OwnLease(s, step, s'); }
    if step.LeaseOther? { OwnLeaseOther(s, step, s'); }
    if step.ReserveManual? { OwnManual(s, step, s'); }
    if step.Admit? { OwnAdmit(s, step, s'); }
    if step.DropHeld? || step.AbortLeased? || step.AbortReady? || step.DropOther? { OwnDrop(s, step, s'); }
    if step.AcquirePermit? || step.AbortWaiting? || step.LeaseHeld? || step.ReserveSlot? { OwnMove(s, step, s'); }
  }

  predicate CallerKind(step: Step) {
    || step.LeaseAutomatic? || step.LeaseOther? || step.ReserveManual? || step.Admit?
    || step.DropHeld? || step.AbortLeased? || step.AbortReady? || step.DropOther?
    || step.AcquirePermit? || step.AbortWaiting? || step.LeaseHeld? || step.ReserveSlot?
  }

  lemma OwnAdmit(s: State, step: Step, s': State)
    requires Own(s) && step.Admit? && CallerStep(s, step, s')
    ensures Own(s')
  {
    hide Valid, InPrefix, Spent, RetireSpec;
    var id := step.id;
    AdmitFacts(s, step, s');
    assert step.retired ==> Spent(s'.registry, id);
  }

  lemma AdmitFacts(s: State, step: Step, s': State)
    requires Own(s) && step.Admit? && CallerStep(s, step, s')
    ensures Valid(s'.registry)
    ensures forall x: u32 :: Spent(s.registry, x) ==> Spent(s'.registry, x)
    ensures forall x: u32 :: InPrefix(s.registry, x) ==> InPrefix(s'.registry, x)
    ensures step.retired ==> Spent(s'.registry, step.id)
    ensures forall x | x in s.registry.reserved && x != step.id :: x in s'.registry.reserved
    ensures !step.retired ==> s'.registry == s.registry
  {
    if s.callers.ready[step.id].manual {
      RetireFacts(s.registry, s'.registry, step.id, step.retired);
    }
  }

  /** Steps that leave the registry, the callers' leases and the admitted ids
      alone and keep every entry's submission id. */
  lemma OwnQuiet(s: State, s': State)
    requires Own(s)
    requires s'.registry == s.registry && s'.callers == s.callers && s'.log.admitted == s.log.admitted
    requires forall id | id in s'.pending ::
               id in s.pending && s'.pending[id].submissionId == s.pending[id].submissionId
    ensures Own(s')
  {
  }

  lemma OwnTimeout(s: State, c: Config, step: Step, s': State)
    requires Own(s) && step.ScanTimeout? && ScanStep(s, c, step, s')
    ensures Own(s')
  {
    hide Valid, Spent, InPrefix, RetireSpec;
    var key := s.scanner.list[0];
    if StillExpired(s.pending, key) && step.accepted {
      RetireFacts(s.registry, s'.registry, key.sequenceId, step.retired);
      OwnShrink(s, s');
    }
  }

  lemma OwnWriter(s: State, step: Step, s': State)
    requires Own(s) && WriterStep(s, step, s')
    ensures Own(s')
  {
    hide Own;
    if step.CompleteNext? && AnsweredEarly(s.pending, s.writer.claimed[0]) {
      OwnRemove(s, s.writer.claimed[0].sequenceId);
      OwnQuiet(RemoveEntry(s, s.writer.claimed[0].sequenceId), s');
    } else {
      OwnQuiet(s, s');
    }
  }

  lemma OwnRespond(s: State, id: u32)
    requires Own(s)
    ensures Own(RespondOne(s, id))
  {
    hide Own;
    if Answers(s.pending, id) && !s.pending[id].state.Writing? {
      OwnRemove(s, id);
      OwnQuiet(RemoveEntry(s, id), RespondOne(s, id));
    } else {
      OwnQuiet(s, RespondOne(s, id));
    }
  }

  lemma OwnScan(s: State, c: Config, step: Step, s': State)
    requires Own(s) && ScanStep(s, c, step, s')
    ensures Own(s')
  {
    if step.ScanTimeout? {
      OwnTimeout(s, c, step, s');
    } else {
      hide Own, IsScanList;
      OwnQuiet(s, s');
    }
  }

  lemma OwnShutdown(s: State, step: Step, s': State)
    requires Own(s) && ShutdownStep(s, step, s')
    ensures Own(s')
  {
    hide Own;
    if step.FailOne? {
      OwnRemove(s, step.id);
      OwnQuiet(RemoveEntry(s, step.id), s');
    } else {
      OwnQuiet(s, s');
    }
  }

  lemma OwnNext(s: State, c: Config, step: Step, s': State)
    requires Own(s) && Next(s, c, step, s')
    ensures Own(s')
  {
    hide Own, CallerStep, WriterStep, ScanStep, ShutdownStep, RespondOne;
    if CallerStep(s, step, s') {
      OwnCaller(s, step, s');
    } else if WriterStep(s, step, s') {
      OwnWriter(s, step, s');
    } else if ScanStep(s, c, step, s') {
      OwnScan(s, c, step, s');
    } else if ShutdownStep(s, step, s') {
      OwnShutdown(s, step, s');
    } else {
      OwnRespond(s, step.id);
    }
  }

  // ------------------------------------------------------------------ permits

  /** Every id put into a caller map is new to it. */
  lemma NewToCallers(s: State, step: Step, s': State)
    requires Own(s) && CallerStep(s, step, s')
    ensures step.LeaseAutomatic? && step.leased.Some? ==> step.leased.value !in s.callers.leased
    ensures step.LeaseHeld? ==> step.id !in s.callers.leased
    ensures step.ReserveSlot? ==> step.id !in s.callers.ready
    ensures step.Admit? ==> step.id !in s.pending
  {
    hide Valid, Spent, NextSpec, BatchSpec, RetireSpec, InPrefix;
    if step.LeaseAutomatic? && step.leased.Some? {
      NextFacts(s.registry, s'.registry, step.leased);
      FreeUnowned(s, step.leased.value);
    }
  }

  /** Removing or adding one key changes a map's size by one. */
  lemma MapSizes<V>(m: map<u32, V>, id: u32, v: V)
    ensures id in m ==> |m - {id}| == |m| - 1
    ensures id !in m ==> |m[id := v]| == |m| + 1
    ensures id in m ==> |m[id := v]| == |m|
  {
    assert (m - {id}).Keys == m.Keys - {id};
    assert m[id := v].Keys == m.Keys + {id};
  }

  lemma PermitsAdmit(s: State, c: Config, step: Step, s': State)
    requires Permits(s, c) && CallerStep(s, step, s') && step.Admit? && step.id !in s.pending
    ensures Permits(s', c)
  {
    hide RetireSpec;
    var t := s.callers.ready[step.id];
    MapSizes(s.callers.ready, step.id, t);
    MapSizes(s.pending, step.id, Entry(t.submissionId, Queued(1), t.manual));
  }

  lemma PermitsSlot(s: State, c: Config, step: Step, s': State)
    requires Permits(s, c) && CallerStep(s, step, s') && step.ReserveSlot? && step.id !in s.callers.ready
    ensures Permits(s', c)
  {
    MapSizes(s.callers.leased, step.id, s.callers.leased[step.id]);
    MapSizes(s.callers.ready, step.id, s.callers.leased[step.id]);
  }

  lemma PermitsLease(s: State, c: Config, step: Step, s': State)
    requires Permits(s, c) && CallerStep(s, step, s')
    requires step.LeaseAutomatic? || step.LeaseHeld?
    requires step.LeaseAutomatic? && step.leased.Some? ==> step.leased.value !in s.callers.leased
    requires step.LeaseHeld? ==> step.id !in s.callers.leased
    ensures Permits(s', c)
  {
    hide NextSpec;
    if step.LeaseHeld? {
      MapSizes(s.callers.leased, step.id, Ticket(s.callers.nextSubmissionId, true));
    } else if step.leased.Some? {
      MapSizes(s.callers.leased, step.leased.value, Ticket(s.callers.nextSubmissionId, false));
    }
  }

  lemma PermitsGiveUp(s: State, c: Config, step: Step, s': State)
    requires Permits(s, c) && CallerStep(s, step, s') && (step.AbortLeased? || step.AbortReady?)
    ensures Permits(s', c)
  {
    hide NextSpec, BatchSpec, RetireSpec;
    if step.AbortLeased? {
      MapSizes(s.callers.leased, step.id, s.callers.leased[step.id]);
    } else {
      MapSizes(s.callers.ready, step.id, s.callers.ready[step.id]);
    }
  }

  lemma PermitsAbort(s: State, c: Config, step: Step, s': State)
    requires Permits(s, c) && CallerStep(s, step, s')
    requires !step.Admit? && !step.ReserveSlot? && !step.LeaseAutomatic? && !step.LeaseHeld?
    ensures Permits(s', c)
  {
    if step.AbortLeased? || step.AbortReady? {
      PermitsGiveUp(s, c, step, s');
    } else {
      hide NextSpec, BatchSpec;
    }
  }

  lemma PermitsCaller(s: State, c: Config, step: Step, s': State)
    requires Own(s) && Permits(s, c) && CallerStep(s, step, s')
    ensures Permits(s', c)
  {
    NewToCallers(s, step, s');
    hide Own, Permits, CallerStep;
    if step.Admit? {
      PermitsAdmit(s, c, step, s');
    } else if step.ReserveSlot? {
      PermitsSlot(s, c, step, s');
    } else if step.LeaseAutomatic? || step.LeaseHeld? {
      PermitsLease(s, c, step, s');
    } else {
      PermitsAbort(s, c, step, s');
    }
  }

  lemma PermitsRemove(s: State, c: Config, id: u32)
    requires Permits(s, c) && id in s.pending
    ensures Permits(RemoveEntry(s, id), c)
  {
    MapSizes(s.pending, id, s.pending[id]);
  }

  lemma PermitsWriter(s: State, c: Config, step: Step, s': State)
    requires Permits(s, c) && WriterStep(s, step, s')
    ensures Permits(s', c)
  {
    match step
    case ClaimNext =>
      var id := s.writer.batch[0].sequenceId;
      if id in s.pending {
        MapSizes(s.pending, id, s'.pending[id]);
      }
    case CompleteNext =>
      var key := s.writer.claimed[0];
      if AnsweredEarly(s.pending, key) {
        PermitsRemove(s, c, key.sequenceId);
      } else if key.sequenceId in s.pending {
        MapSizes(s.pending, key.sequenceId, s'.pending[key.sequenceId]);
      }
    case _ =>
  }

  lemma PermitsRespond(s: State, c: Config, id: u32)
    requires Permits(s, c)
    ensures Permits(RespondOne(s, id), c)
  {
    if Answers(s.pending, id) {
      PermitsRemove(s, c, id);
      MapSizes(s.pending, id, s.pending[id].(state := RespondedWhileWriting(s.pending[id].state.attempt)));
    }
  }

  lemma PermitsScan(s: State, c: Config, step: Step, s': State)
    requires Permits(s, c) && ScanStep(s, c, step, s')
    ensures Permits(s', c)
  {
    hide IsScanList, RetireSpec;
    if |s.scanner.list| > 0 && s.scanner.list[0].sequenceId in s.pending {
      var key := s.scanner.list[0];
      MapSizes(s.pending, key.sequenceId, s.pending[key.sequenceId].(state := Queued(key.attempt + 1)));
    }
  }

  lemma PermitsShutdown(s: State, c: Config, step: Step, s': State)
    requires Permits(s, c) && ShutdownStep(s, step, s')
    ensures Permits(s', c)
  {
    if step.FailOne? {
      PermitsRemove(s, c, step.id);
    }
  }

  lemma PermitsNext(s: State, c: Config, step: Step, s': State)
    requires Own(s) && Permits(s, c) && Next(s, c, step, s')
    ensures Permits(s', c)
  {
    hide Own, Permits, CallerStep, WriterStep, ScanStep, ShutdownStep, RespondOne;
    if CallerStep(s, step, s') {
      PermitsCaller(s, c, step, s');
    } else if WriterStep(s, step, s') {
      PermitsWriter(s, c, step, s');
    } else if ScanStep(s, c, step, s') {
      PermitsScan(s, c, step, s');
    } else if ShutdownStep(s, step, s') {
      PermitsShutdown(s, c, step, s');
    } else {
      PermitsRespond(s, c, step.id);
    }
  }
}
