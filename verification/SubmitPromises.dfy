/** The promises of the SUBMIT interface, for every run of the machine. */
module SubmitPromises {
  import opened Wrappers
  import opened SequenceRegistry
  import opened SubmitModel
  import opened SubmitOwnership
  import opened SubmitDecisions
  import opened SubmitFrames
  import opened SubmitPlaces
  import opened SubmitTheorems

  /** The parts of the invariant and the step, without unfolding them. */
  lemma At(c: Config, states: seq<State>, steps: seq<Step>, n: nat)
    requires Run(c, states, steps) && n < |states|
    ensures var s := states[n];
            Own(s) && Permits(s, c) && Dec(s) && Frames(s, c) && Timed(s, c) && Draining(s) && ValidConfig(c)
    ensures n < |steps| ==> Next(states[n], c, steps[n], states[n + 1])
  {
    RunInv(c, states, steps, n);
    hide Own, Permits, Dec, Frames, Timed, Draining, Next, ValidConfig, Init;
  }

  lemma CallerStepTaken(s: State, c: Config, step: Step, s': State)
    requires Next(s, c, step, s') && step.Admit?
    ensures CallerStep(s, step, s')
  {
    hide RetireSpec;
  }

  lemma WriterStepTaken(s: State, c: Config, step: Step, s': State)
    requires Next(s, c, step, s') && (step.ClaimNext? || step.FinishBatch?)
    ensures WriterStep(s, step, s')
  {
  }

  lemma ScanStepTaken(s: State, c: Config, step: Step, s': State)
    requires Next(s, c, step, s') && step.ScanTimeout?
    ensures ScanStep(s, c, step, s')
  {
    hide RetireSpec;
  }

  // ---------------------------------------------------------------- histories

  ghost predicate Later(s: State, s': State) {
    && s.log.decisions <= s'.log.decisions
    && s.log.writes <= s'.log.writes
    && s.log.admitted.Keys <= s'.log.admitted.Keys
    && (s.shutdown.phase != Open ==>
          s'.shutdown.phase != Open && s'.log.admitted == s.log.admitted && s'.pending.Keys <= s.pending.Keys)
    && (s.shutdown.phase == Closed ==> s'.shutdown.phase == Closed)
  }

  lemma StepLater(s: State, c: Config, step: Step, s': State)
    requires Next(s, c, step, s')
    ensures Later(s, s')
  {
    hide NextSpec, BatchSpec, RetireSpec, CallerStep, WriterStep, ScanStep, ShutdownStep, Later, RespondOne;
    if CallerStep(s, step, s') {
      CallerLater(s, step, s');
    } else if WriterStep(s, step, s') {
      WriterLater(s, step, s');
    } else if ScanStep(s, c, step, s') {
      ScanLater(s, c, step, s');
    } else if ShutdownStep(s, step, s') {
      ShutdownLater(s, step, s');
    } else {
      RespondLater(s, step.id);
    }
  }

  lemma CallerLater(s: State, step: Step, s': State)
    requires CallerStep(s, step, s')
    ensures Later(s, s')
  {
    hide NextSpec, BatchSpec, RetireSpec;
  }

  lemma WriterLater(s: State, step: Step, s': State)
    requires WriterStep(s, step, s')
    ensures Later(s, s')
  {
  }

  lemma ScanLater(s: State, c: Config, step: Step, s': State)
    requires ScanStep(s, c, step, s')
    ensures Later(s, s')
  {
    hide IsScanList, RetireSpec;
  }

  lemma ShutdownLater(s: State, step: Step, s': State)
    requires ShutdownStep(s, step, s')
    ensures Later(s, s')
  {
  }

  lemma RespondLater(s: State, id: u32)
    ensures Later(s, RespondOne(s, id))
  {
  }

  /** Logs only grow, a closed connection stays closed and admits nobody. */
  lemma {:induction false} RunLater(c: Config, states: seq<State>, steps: seq<Step>, i: nat, j: nat)
    requires Run(c, states, steps) && i <= j < |states|
    ensures Later(states[i], states[j])
    decreases j - i
  {
    hide Next, Init, ValidConfig;
    if i < j {
      RunLater(c, states, steps, i, j - 1);
      StepLater(states[j - 1], c, steps[j - 1], states[j]);
      LaterTransitive(states[i], states[j - 1], states[j]);
    }
  }

  lemma LaterTransitive(s: State, t: State, u: State)
    requires Later(s, t) && Later(t, u)
    ensures Later(s, u)
  {
  }

  // ------------------------------------------------- one decision per submit

  ghost predicate DecidedOnce(s: State, id: u32) {
    exists i :: && 0 <= i < |s.log.decisions| && s.log.decisions[i].id == id
                && forall j | 0 <= j < |s.log.decisions| && j != i :: s.log.decisions[j].id != id
  }

  /** In every reachable state, an admitted submit has no terminal decision while
      it waits in the pending map, and exactly one otherwise; a submit answered
      while it is being written already has its one decision. */
  lemma AtMostOneDecision(c: Config, states: seq<State>, steps: seq<Step>, n: nat, id: u32)
    requires Run(c, states, steps) && n < |states| && id in states[n].log.admitted
    ensures if Undecided(states[n], id)
            then forall d | d in states[n].log.decisions :: d.id != id
            else DecidedOnce(states[n], id)
    ensures id in states[n].pending && states[n].pending[id].state.RespondedWhileWriting? ==>
              Responded(id) in states[n].log.decisions
  {
    hide Own, Permits, Frames, Timed, Draining, Run, Next;
    At(c, states, steps, n);
    var s := states[n];
    if Undecided(s, id) {
      forall d | d in s.log.decisions
        ensures d.id != id
      {
        assert d.id in DecidedIds(s.log.decisions);
      }
    } else {
      DecidedHasOne(s, id);
    }
  }

  lemma DecidedHasOne(s: State, id: u32)
    requires NoneTwice(s.log.decisions) && Decided(s, id)
    ensures DecidedOnce(s, id)
  {
    var d :| d in s.log.decisions && d.id == id;
    var i :| 0 <= i < |s.log.decisions| && s.log.decisions[i] == d;
    forall j | 0 <= j < |s.log.decisions| && j != i
      ensures s.log.decisions[j].id != id
    {
      assert if i < j then s.log.decisions[i].id != s.log.decisions[j].id
             else s.log.decisions[j].id != s.log.decisions[i].id;
    }
  }

  /** A decision stands: no later state decides the same id again. */
  lemma DecisionsStand(c: Config, states: seq<State>, steps: seq<Step>, i: nat, j: nat, k: nat)
    requires Run(c, states, steps) && i <= j < |states| && k < |states[i].log.decisions|
    ensures k < |states[j].log.decisions| && states[j].log.decisions[k] == states[i].log.decisions[k]
    ensures forall m | 0 <= m < |states[j].log.decisions| && m != k ::
              states[j].log.decisions[m].id != states[i].log.decisions[k].id
  {
    hide Own, Permits, Frames, Timed, Draining, Run, Next;
    RunLater(c, states, steps, i, j);
    At(c, states, steps, j);
    var ds := states[j].log.decisions;
    forall m | 0 <= m < |ds| && m != k
      ensures ds[m].id != ds[k].id
    {
      assert if m < k then ds[m].id != ds[k].id else ds[k].id != ds[m].id;
    }
  }

  /** Once the connection is closed and teardown has emptied the pending map,
      every submit ever admitted has exactly one decision, and so it stays. */
  lemma ExactlyOneAfterTeardown(c: Config, states: seq<State>, steps: seq<Step>, i: nat, j: nat, id: u32)
    requires Run(c, states, steps) && i <= j < |states|
    requires states[i].shutdown.phase == Closed && states[i].pending == map[]
    requires id in states[j].log.admitted
    ensures states[j].pending == map[] && DecidedOnce(states[j], id)
  {
    RunLater(c, states, steps, i, j);
    assert states[j].pending.Keys == {};
    AtMostOneDecision(c, states, steps, j, id);
  }

  /** Permits are conserved, and every admitted submit is accounted for: answered,
      timed out, dropped, or still undecided in the pending map. */
  lemma NothingLost(c: Config, states: seq<State>, steps: seq<Step>, n: nat)
    requires Run(c, states, steps) && n < |states|
    ensures var s := states[n];
            && s.callers.free + s.callers.waiting + |s.callers.leased| + |s.callers.ready| + |s.pending| == c.windowSize
            && |s.log.admitted| == CountAnswered(s.log.decisions) + CountTimedOut(s.log.decisions)
                                   + CountDropped(s.log.decisions) + |UndecidedIds(s)|
  {
    hide Own, Dec, Frames, Timed, Draining, Run, Next;
    At(c, states, steps, n);
    AdmittedConserved(states[n]);
    CountKinds(states[n].log.decisions);
  }

  function CountAnswered(ds: seq<Decision>): nat {
    if ds == [] then 0 else (if ds[0].Responded? then 1 else 0) + CountAnswered(ds[1..])
  }

  function CountTimedOut(ds: seq<Decision>): nat {
    if ds == [] then 0 else (if ds[0].TimedOut? then 1 else 0) + CountTimedOut(ds[1..])
  }

  function CountDropped(ds: seq<Decision>): nat {
    if ds == [] then 0 else (if ds[0].Dropped? then 1 else 0) + CountDropped(ds[1..])
  }

  lemma {:induction false} CountKinds(ds: seq<Decision>)
    ensures |ds| == CountAnswered(ds) + CountTimedOut(ds) + CountDropped(ds)
  {
    if ds != [] {
      CountKinds(ds[1..]);
    }
  }

  // ------------------------------------------------------------ fresh ids

  /** The id of an admitted submit was never admitted before, so inserting it
      into the pending map overwrites nothing and no late response for an older
      submit can match it. */
  lemma AdmittedIdIsNew(c: Config, states: seq<State>, steps: seq<Step>, i: nat, n: nat)
    requires Run(c, states, steps) && i <= n < |steps|
    requires steps[n].Admit? && steps[n].retired
    ensures steps[n].id !in states[n].pending && steps[n].id !in states[i].log.admitted
    ensures forall d | d in states[n].log.decisions :: d.id != steps[n].id
  {
    hide Own, Permits, Dec, Frames, Timed, Draining, Next, Init, ValidConfig;
    At(c, states, steps, n);
    RunLater(c, states, steps, i, n);
    var s, id := states[n], steps[n].id;
    CallerStepTaken(s, c, steps[n], states[n + 1]);
    ReadyIsNew(s, id);
    OwnPending(s);
    forall d | d in s.log.decisions
      ensures d.id != id
    {
      DecidedWasAdmitted(s, d);
    }
  }

  lemma DecidedWasAdmitted(s: State, d: Decision)
    requires Dec(s) && d in s.log.decisions
    ensures d.id in s.log.admitted
  {
    assert Decided(s, d.id);
  }

  /** Retiring the id of a finally timed-out submit always succeeds: the branch
      that closes the connection over a full retired table cannot be taken. */
  lemma TimeoutRetires(c: Config, states: seq<State>, steps: seq<Step>, n: nat)
    requires Run(c, states, steps) && n < |steps|
    requires steps[n].ScanTimeout? && states[n + 1].pending != states[n].pending
    ensures steps[n].retired
  {
    hide Own, Permits, Dec, Frames, Timed, Draining, Next, Init, ValidConfig;
    At(c, states, steps, n);
    ScanStepTaken(states[n], c, steps[n], states[n + 1]);
    TimeoutStepRetires(states[n], c, steps[n], states[n + 1]);
  }

  lemma TimeoutStepRetires(s: State, c: Config, step: Step, s': State)
    requires Own(s) && ScanStep(s, c, step, s') && step.ScanTimeout? && s'.pending != s.pending
    ensures step.retired
  {
    hide Own, Valid, Spent, RetireSpec;
    var id := s.scanner.list[0].sequenceId;
    OwnPending(s);
    PendingIsSpent(s, id);
    RetireFacts(s.registry, s'.registry, id, step.retired);
  }

  lemma PendingIsSpent(s: State, id: u32)
    requires Own(s) && id in s.pending
    ensures Valid(s.registry) && Spent(s.registry, id)
  {
  }

  // ---------------------------------------------------- frames and attempts

  /** How many frames for `id` the connection has written completely. */
  function WritesOf(writes: seq<Key>, id: u32): nat {
    if writes == [] then 0
    else WritesOf(writes[..|writes| - 1], id) + if writes[|writes| - 1].sequenceId == id then 1 else 0
  }

  ghost function WrittenFor(writes: seq<Key>, id: u32): set<Key> {
    set k | k in writes && k.sequenceId == id
  }

  lemma WrittenSnoc(init: seq<Key>, last: Key, id: u32)
    ensures WrittenFor(init + [last], id) == WrittenFor(init, id) + if last.sequenceId == id then {last} else {}
  {
  }

  lemma LastIsNew(writes: seq<Key>)
    requires Distinct(writes) && writes != []
    ensures Distinct(writes[..|writes| - 1]) && writes[|writes| - 1] !in writes[..|writes| - 1]
  {
  }

  lemma {:induction false} WritesCounted(writes: seq<Key>, id: u32)
    requires Distinct(writes)
    ensures WritesOf(writes, id) == |WrittenFor(writes, id)|
  {
    if writes == [] {
      assert WrittenFor(writes, id) == {};
    } else {
      var init, last := writes[..|writes| - 1], writes[|writes| - 1];
      LastIsNew(writes);
      hide Distinct;
      WritesCounted(init, id);
      assert writes == init + [last];
      WrittenSnoc(init, last, id);
    }
  }

  function AttemptKeys(id: u32, submissionId: nat, n: nat): set<Key> {
    if n == 0 then {} else AttemptKeys(id, submissionId, n - 1) + {Key(id, submissionId, n)}
  }

  lemma {:induction false} AttemptKeysSize(id: u32, submissionId: nat, n: nat)
    ensures |AttemptKeys(id, submissionId, n)| == n
    ensures forall k :: k in AttemptKeys(id, submissionId, n) <==>
              k.sequenceId == id && k.submissionId == submissionId && 1 <= k.attempt <= n
  {
    if n > 0 {
      AttemptKeysSize(id, submissionId, n - 1);
    }
  }

  /** With exactly the attempts 1..n written, n frames were written. */
  lemma ExactlyCounts(s: State, c: Config, id: u32, n: nat)
    requires Frames(s, c) && id in s.log.admitted
    requires WrittenExactly(KeySet(s.log.writes), id, s.log.admitted[id], n)
    ensures WritesOf(s.log.writes, id) == n
  {
    WritesCounted(s.log.writes, id);
    AttemptKeysSize(id, s.log.admitted[id], n);
    var seen := WrittenFor(s.log.writes, id);
    forall k
      ensures k in seen <==> k in AttemptKeys(id, s.log.admitted[id], n)
    {
      WrittenKnown(s, c, k);
      assert k in KeySet(s.log.writes) <==> k in s.log.writes;
    }
    assert seen == AttemptKeys(id, s.log.admitted[id], n);
  }

  lemma WrittenKnown(s: State, c: Config, k: Key)
    requires Frames(s, c)
    ensures k in s.log.writes ==>
              k.sequenceId in s.log.admitted && k.submissionId == s.log.admitted[k.sequenceId] && 1 <= k.attempt
  {
    assert k in s.log.writes ==> k in KeySet(s.log.writes);
  }

  /** Awaiting the response of attempt `a` means that exactly `a` frames of this
      submit are on the wire; a reported timeout names the number of frames
      written, which is the configured retry count, and stays right for ever. */
  lemma AttemptsAreWrites(c: Config, states: seq<State>, steps: seq<Step>, n: nat)
    requires Run(c, states, steps) && n < |states|
    ensures var s := states[n];
            && Distinct(s.log.writes)
            && (forall id | id in s.pending && s.pending[id].state.AwaitingResponse? ::
                  WritesOf(s.log.writes, id) == s.pending[id].state.attempt)
            && (forall d | d in s.log.decisions && d.TimedOut? ::
                  WritesOf(s.log.writes, d.id) == d.attempts == c.retryCount)
  {
    hide Own, Permits, Dec, Draining, Run, Life, Frames, Next;
    At(c, states, steps, n);
    var s := states[n];
    forall id | id in s.pending && s.pending[id].state.AwaitingResponse?
      ensures WritesOf(s.log.writes, id) == s.pending[id].state.attempt
    {
      FramesLife(s, c);
      AwaitingWritten(ViewOf(s), c, id);
      ExactlyCounts(s, c, id, s.pending[id].state.attempt);
    }
    forall d | d in s.log.decisions && d.TimedOut?
      ensures WritesOf(s.log.writes, d.id) == d.attempts == c.retryCount
    {
      ExactlyCounts(s, c, d.id, d.attempts);
    }
    FramesLife(s, c);
  }

  lemma FramesLife(s: State, c: Config)
    requires Frames(s, c)
    ensures Places(s) && Life(ViewOf(s), c)
    ensures Distinct(s.log.writes)
  {
  }

  ghost predicate OnceIn<T>(s: seq<T>, x: T) {
    exists i :: 0 <= i < |s| && s[i] == x && forall j | 0 <= j < |s| && j != i :: s[j] != x
  }

  lemma DistinctOnce<T>(s: seq<T>, x: T)
    requires Distinct(s) && x in s
    ensures OnceIn(s, x)
  {
    var i :| 0 <= i < |s| && s[i] == x;
  }

  /** While submits may be sent, every queued attempt has exactly one frame that
      the writer has not claimed: in the submit queue or in its batch, not both. */
  lemma QueuedHasOneFrame(c: Config, states: seq<State>, steps: seq<Step>, n: nat, id: u32)
    requires Run(c, states, steps) && n < |states|
    requires CanSend(states[n]) && id in states[n].pending && states[n].pending[id].state.Queued?
    ensures var s, k := states[n], KeyOf(states[n].pending, id);
            || (OnceIn(s.channel.queue, Frame(k)) && k !in s.writer.batch)
            || (OnceIn(s.writer.batch, k) && Frame(k) !in s.channel.queue)
  {
    hide Own, Permits, Dec, Timed, Draining, Run, Next;
    At(c, states, steps, n);
    var s, k := states[n], KeyOf(states[n].pending, id);
    QueuedIsUnclaimed(ViewOf(s), c, id);
    FramesLife(s, c);
    InQueue(s.channel.queue, k);
    assert k in KeySet(s.writer.batch) <==> k in s.writer.batch;
    hide Frames, Life, Distinct, OnceIn;
    if k in s.writer.batch {
      DistinctOnce(s.writer.batch, k);
    } else {
      DistinctOnce(s.channel.queue, Frame(k));
    }
  }

  lemma QueuedIsUnclaimed(v: View, c: Config, id: u32)
    requires Life(v, c) && v.canSend && id in v.pending && v.pending[id].state.Queued?
    ensures KeyOf(v.pending, id) in v.unclaimed
  {
  }

  /** While submits may be sent, the only frames the writer leaves out belong to
      submits that already have their decision: nothing undecided is forgotten. */
  lemma SkippedFramesAreDecided(c: Config, states: seq<State>, steps: seq<Step>, n: nat)
    requires Run(c, states, steps) && n < |steps| && steps[n].ClaimNext? && CanSend(states[n])
    requires states[n + 1].writer.claimed == states[n].writer.claimed
    ensures |states[n].writer.batch| > 0
    ensures Decided(states[n], states[n].writer.batch[0].sequenceId)
  {
    hide Own, Permits, Dec, Frames, Timed, Draining, Next, Init, ValidConfig;
    At(c, states, steps, n);
    WriterStepTaken(states[n], c, steps[n], states[n + 1]);
    SkippedIsDecided(states[n], c, steps[n], states[n + 1]);
  }

  lemma SkippedIsDecided(s: State, c: Config, step: Step, s': State)
    requires Dec(s) && Frames(s, c) && WriterStep(s, step, s') && step.ClaimNext? && CanSend(s)
    requires s'.writer.claimed == s.writer.claimed
    ensures Decided(s, s.writer.batch[0].sequenceId)
  {
    var k := s.writer.batch[0];
    assert k in KeySet(s.writer.batch);
    hide Dec, Frames;
    FramesLife(s, c);
    SkippedOnlyWhenGone(ViewOf(s), c, k);
    UnclaimedKnown(ViewOf(s), c, k);
    DecidedOrPending(s, k.sequenceId);
  }

  lemma UnclaimedKnown(v: View, c: Config, k: Key)
    requires Life(v, c) && k in v.unclaimed
    ensures k.sequenceId in v.admitted
  {
  }

  // ------------------------------------------------------------------ drain

  /** When the writer acknowledges the drain marker and nobody has cleared the
      drain flag before, every submit ever admitted has its decision or awaits
      the response to a frame that is on the wire. */
  lemma DrainedOnAck(c: Config, states: seq<State>, steps: seq<Step>, n: nat, id: u32)
    requires Run(c, states, steps) && n < |steps|
    requires steps[n].FinishBatch? && states[n].writer.marker && states[n].shutdown.drain
    requires states[n].shutdown.phase != Closed
    requires id in states[n].log.admitted
    ensures states[n + 1].shutdown.acked && states[n + 1].pending == states[n].pending
    ensures Decided(states[n], id) ||
            (&& id in states[n].pending && states[n].pending[id].state.AwaitingResponse?
             && WritesOf(states[n].log.writes, id) == states[n].pending[id].state.attempt >= 1)
    ensures forall x | x in states[n].pending :: states[n].pending[x].state.AwaitingResponse?
  {
    hide Own, Permits, Dec, Frames, Timed, Draining, Next, Init, ValidConfig;
    At(c, states, steps, n);
    var s := states[n];
    WriterStepTaken(s, c, steps[n], states[n + 1]);
    AttemptsAreWrites(c, states, steps, n);
    FramesLife(s, c);
    hide Life, Places;
    AckIsDrained(s, c, steps[n], states[n + 1]);
    if id in s.pending {
      AwaitingWritten(ViewOf(s), c, id);
    }
    DecidedOrPending(s, id);
  }

  lemma AckIsDrained(s: State, c: Config, step: Step, s': State)
    requires Draining(s) && Life(ViewOf(s), c) && WriterStep(s, step, s') && step.FinishBatch?
    requires s.writer.marker && s.shutdown.drain && s.shutdown.phase != Closed
    ensures forall x | x in s.pending :: s.pending[x].state.AwaitingResponse?
  {
    hide Life;
    DrainedFrames(s, c);
    forall x | x in s.pending
      ensures s.pending[x].state.AwaitingResponse?
    {
      DrainedView(ViewOf(s), c, x);
    }
  }

  lemma DecidedOrPending(s: State, id: u32)
    requires Dec(s) && id in s.log.admitted
    ensures Decided(s, id) || id in s.pending
  {
  }

  lemma DrainedFrames(s: State, c: Config)
    requires Draining(s) && s.writer.stage == Completing && s.writer.claimed == [] && s.writer.marker
    ensures ViewOf(s).unclaimed == {} && ViewOf(s).claimed == {}
  {
    assert s.writer.batch == [] && s.channel.queue == [];
  }

  /** With no frame waiting or being written, a submit that may still be sent can
      only be awaiting its response. */
  lemma DrainedView(v: View, c: Config, id: u32)
    requires Life(v, c) && v.canSend && v.unclaimed == {} && v.claimed == {} && id in v.pending
    ensures v.pending[id].state.AwaitingResponse?
  {
    assert KeyOf(v.pending, id) !in v.unclaimed && KeyOf(v.pending, id) !in v.claimed;
  }
}
