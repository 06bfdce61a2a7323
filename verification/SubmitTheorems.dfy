/** What holds in every run of the SUBMIT machine. */
module SubmitTheorems {
  import opened Wrappers
  import opened SequenceRegistry
  import opened SubmitModel
  import opened SubmitOwnership
  import opened SubmitDecisions
  import opened SubmitFrames
  import opened SubmitPlaces

  // ------------------------------------------------------- reported timeouts

  ghost predicate WrittenExactly(written: set<Key>, id: u32, submissionId: nat, n: nat) {
    forall x: nat :: Key(id, submissionId, x) in written <==> 1 <= x <= n
  }

  /** A reported timeout tells the truth: its attempts are the whole retry budget
      and are exactly the attempts written so far, and no more will follow. */
  ghost predicate TimedOk(d: Decision, c: Config, admitted: map<u32, nat>, claimed: set<Key>, written: set<Key>) {
    d.TimedOut? ==>
      && d.attempts == c.retryCount && d.id in admitted
      && (forall k | k in claimed :: k.sequenceId != d.id)
      && WrittenExactly(written, d.id, admitted[d.id], d.attempts)
  }

  ghost predicate Timed(s: State, c: Config) {
    forall d | d in s.log.decisions ::
      TimedOk(d, c, s.log.admitted, KeySet(s.writer.claimed), KeySet(s.log.writes))
  }

  lemma TimedQuiet(s: State, c: Config, s': State)
    requires Timed(s, c)
    requires s'.log.writes == s.log.writes && s'.writer.claimed == s.writer.claimed
    requires forall id | id in s.log.admitted :: id in s'.log.admitted && s'.log.admitted[id] == s.log.admitted[id]
    requires forall d | d in s'.log.decisions :: d in s.log.decisions || !d.TimedOut?
    ensures Timed(s', c)
  {
  }

  lemma TimedClaim(s: State, c: Config, step: Step, s': State)
    requires Dec(s) && Timed(s, c) && WriterStep(s, step, s') && step.ClaimNext?
    ensures Timed(s', c)
  {
    var k := s.writer.batch[0];
    if Claimable(s.pending, k, CanSend(s)) {
      assert Undecided(s, k.sequenceId);
      KeysAppend(s.writer.claimed, k);
      forall d | d in s.log.decisions
        ensures TimedOk(d, c, s'.log.admitted, KeySet(s'.writer.claimed), KeySet(s'.log.writes))
      {
        assert TimedOk(d, c, s.log.admitted, KeySet(s.writer.claimed), KeySet(s.log.writes));
        assert Decided(s, d.id) && d.id != k.sequenceId;
      }
    } else {
      TimedQuiet(s, c, s');
    }
  }

  lemma TimedComplete(s: State, c: Config, step: Step, s': State)
    requires Timed(s, c) && Places(s) && WriterStep(s, step, s') && step.CompleteNext?
    ensures Timed(s', c)
  {
    var k := s.writer.claimed[0];
    KeysTail(s.writer.claimed);
    KeysAppend(s.log.writes, k);
    forall d | d in s.log.decisions
      ensures TimedOk(d, c, s'.log.admitted, KeySet(s'.writer.claimed), KeySet(s'.log.writes))
    {
      assert TimedOk(d, c, s.log.admitted, KeySet(s.writer.claimed), KeySet(s.log.writes));
      assert k in KeySet(s.writer.claimed);
    }
  }

  /** An entry that awaits its response was written once for each attempt. */
  lemma AwaitingWritten(v: View, c: Config, id: u32)
    requires Life(v, c) && id in v.pending && v.pending[id].state.AwaitingResponse?
    ensures id in v.admitted
    ensures WrittenExactly(v.written, id, v.admitted[id], v.pending[id].state.attempt)
    ensures forall k | k in v.claimed :: k.sequenceId != id
    ensures 1 <= v.pending[id].state.attempt <= c.retryCount
  {
  }

  lemma TimedTimeout(s: State, c: Config, step: Step, s': State)
    requires Frames(s, c) && Timed(s, c) && ScanStep(s, c, step, s')
    requires step.ScanTimeout? && StillExpired(s.pending, s.scanner.list[0]) && step.accepted
    ensures Timed(s', c)
  {
    hide IsScanList, RetireSpec, TimedOk, Places, Life;
    var key := s.scanner.list[0];
    AwaitingWritten(ViewOf(s), c, key.sequenceId);
    var d := TimedOut(key.sequenceId, key.attempt);
    TimedNew(d, c, s.log.admitted, KeySet(s.writer.claimed), KeySet(s.log.writes));
    assert forall e | e in s'.log.decisions :: e in s.log.decisions || e == d;
  }

  lemma TimedNew(d: Decision, c: Config, admitted: map<u32, nat>, claimed: set<Key>, written: set<Key>)
    requires d.TimedOut? && d.attempts == c.retryCount && d.id in admitted
    requires forall k | k in claimed :: k.sequenceId != d.id
    requires WrittenExactly(written, d.id, admitted[d.id], d.attempts)
    ensures TimedOk(d, c, admitted, claimed, written)
  {
  }

  lemma TimedCaller(s: State, c: Config, step: Step, s': State)
    requires Own(s) && Timed(s, c) && CallerStep(s, step, s')
    ensures Timed(s', c)
  {
    hide Timed, NextSpec, BatchSpec, RetireSpec;
    if step.Admit? && step.retired {
      ReadyIsNew(s, step.id);
    }
    hide Own;
    TimedQuiet(s, c, s');
  }

  lemma TimedWriter(s: State, c: Config, step: Step, s': State)
    requires Frames(s, c) && Dec(s) && Timed(s, c) && WriterStep(s, step, s')
    ensures Timed(s', c)
  {
    hide Timed, Dec, Life, Places;
    if step.ClaimNext? {
      TimedClaim(s, c, step, s');
    } else if step.CompleteNext? {
      TimedComplete(s, c, step, s');
    } else {
      TimedQuiet(s, c, s');
    }
  }

  lemma TimedScan(s: State, c: Config, step: Step, s': State)
    requires Frames(s, c) && Timed(s, c) && ScanStep(s, c, step, s')
    ensures Timed(s', c)
  {
    hide Timed, Frames, IsScanList, RetireSpec;
    if step.ScanTimeout? && StillExpired(s.pending, s.scanner.list[0]) && step.accepted {
      TimedTimeout(s, c, step, s');
    } else {
      TimedQuiet(s, c, s');
    }
  }

  lemma TimedNext(s: State, c: Config, step: Step, s': State)
    requires Own(s) && Frames(s, c) && Dec(s) && Timed(s, c) && Next(s, c, step, s')
    ensures Timed(s', c)
  {
    hide Own, Frames, Dec, Timed, CallerStep, WriterStep, ScanStep;
    if CallerStep(s, step, s') {
      TimedCaller(s, c, step, s');
    } else if WriterStep(s, step, s') {
      TimedWriter(s, c, step, s');
    } else if ScanStep(s, c, step, s') {
      TimedScan(s, c, step, s');
    } else {
      TimedQuiet(s, c, s');
    }
  }

  // ------------------------------------------------------------ drain marker

  /** Nothing is queued behind the drain marker, and the writer's stage says
      which of its lists may be non-empty. */
  ghost predicate Draining(s: State) {
    && (s.shutdown.markerSent ==> s.shutdown.phase != Open)
    && (forall i | 0 <= i < |s.channel.queue| && s.channel.queue[i] == DrainMarker :: i == |s.channel.queue| - 1)
    && (DrainMarker in s.channel.queue ==> s.shutdown.markerSent)
    && (s.writer.marker ==> s.channel.queue == [] && s.shutdown.markerSent)
    && (s.shutdown.started ==> s.shutdown.phase != Open)
    && (s.writer.stage == Composing ==> s.writer.claimed == [])
    && (s.writer.stage == Sending || s.writer.stage == Completing ==> s.writer.batch == [])
  }

  lemma DrainingCaller(s: State, step: Step, s': State)
    requires Draining(s) && CallerStep(s, step, s')
    ensures Draining(s')
  {
    hide NextSpec, BatchSpec, RetireSpec;
  }

  lemma DrainingWriter(s: State, step: Step, s': State)
    requires Draining(s) && WriterStep(s, step, s')
    ensures Draining(s')
  {
  }

  lemma DrainingScan(s: State, c: Config, step: Step, s': State)
    requires Draining(s) && ScanStep(s, c, step, s')
    ensures Draining(s')
  {
    hide IsScanList, RetireSpec;
  }

  lemma DrainingShutdown(s: State, step: Step, s': State)
    requires Draining(s) && ShutdownStep(s, step, s')
    ensures Draining(s')
  {
  }

  lemma DrainingNext(s: State, c: Config, step: Step, s': State)
    requires Draining(s) && Next(s, c, step, s')
    ensures Draining(s')
  {
    hide Draining, CallerStep, WriterStep, ScanStep, ShutdownStep;
    if CallerStep(s, step, s') {
      DrainingCaller(s, step, s');
    } else if WriterStep(s, step, s') {
      DrainingWriter(s, step, s');
    } else if ScanStep(s, c, step, s') {
      DrainingScan(s, c, step, s');
    } else if ShutdownStep(s, step, s') {
      DrainingShutdown(s, step, s');
    } else {
      DrainingRespond(s, step.id);
    }
  }

  lemma DrainingRespond(s: State, id: u32)
    requires Draining(s)
    ensures Draining(RespondOne(s, id))
  {
  }

  // -------------------------------------------------------------- whole runs

  ghost predicate Inv(s: State, c: Config) {
    && Own(s) && Permits(s, c) && Dec(s)
    && Frames(s, c) && ScannerOk(s, c) && Timed(s, c) && Draining(s)
  }

  lemma InvInit(s: State, c: Config)
    requires Init(s, c)
    ensures Inv(s, c)
  {
    OwnInit(s, c);
    DecInit(s, c);
    FramesInit(s, c);
  }

  lemma InvNext(s: State, c: Config, step: Step, s': State)
    requires ValidConfig(c) && Inv(s, c) && Next(s, c, step, s')
    ensures Inv(s', c)
  {
    hide Own, Permits, Dec, Frames, ScannerOk, Timed, Draining, Next, ValidConfig;
    OwnNext(s, c, step, s');
    PermitsNext(s, c, step, s');
    DecNext(s, c, step, s');
    FramesNext(s, c, step, s');
    TimedNext(s, c, step, s');
    DrainingNext(s, c, step, s');
  }

  lemma {:induction false} RunInv(c: Config, states: seq<State>, steps: seq<Step>, n: nat)
    requires Run(c, states, steps) && n < |states|
    ensures Inv(states[n], c)
  {
    hide Inv, Next, Init, ValidConfig;
    if n == 0 {
      InvInit(states[0], c);
    } else {
      RunInv(c, states, steps, n - 1);
      InvNext(states[n - 1], c, steps[n - 1], states[n]);
    }
  }
}
