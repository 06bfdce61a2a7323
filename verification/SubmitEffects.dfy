/** What the critical sections do to one submit: which step decides it and how, what a
    response cancels, and when the scanner may act. */
module SubmitEffects {
  import opened Wrappers
  import opened SequenceRegistry
  import opened SubmitModel
  import opened SubmitOwnership
  import opened SubmitDecisions
  import opened SubmitFrames
  import opened SubmitPlaces
  import opened SubmitTheorems
  import opened SubmitPromises

  // ---------------------------------------------------------------- responses

  lemma RespondTaken(s: State, c: Config, id: u32, s': State)
    requires Next(s, c, Respond(id), s')
    ensures s' == RespondOne(s, id)
  {
    hide RespondOne;
  }

  /** A response to a submit without an answer decides it, whatever its state. While the
      frame is being written the entry only remembers the answer; a queued or written
      attempt leaves the map at once and returns its permit. Any other response changes
      nothing. */
  lemma ResponseDecides(s: State, c: Config, id: u32, s': State)
    requires Next(s, c, Respond(id), s')
    ensures id !in s.pending || s.pending[id].state.RespondedWhileWriting? ==> s' == s
    ensures id in s.pending && !s.pending[id].state.RespondedWhileWriting? ==>
              s'.log == s.log.(decisions := s.log.decisions + [Responded(id)])
    ensures id in s.pending && s.pending[id].state.Writing? ==>
              && s'.pending == s.pending[id := s.pending[id].(
                   state := RespondedWhileWriting(s.pending[id].state.attempt))]
              && s'.callers == s.callers && s'.registry == s.registry
    ensures id in s.pending && (s.pending[id].state.Queued? || s.pending[id].state.AwaitingResponse?) ==>
              && s'.pending == s.pending - {id}
              && s'.callers == s.callers.(free := s.callers.free + 1)
              && s'.registry == s.registry.(reserved :=
                   if s.pending[id].manual then s.registry.reserved else s.registry.reserved - {id})
    ensures s'.channel == s.channel && s'.writer == s.writer && s'.scanner == s.scanner && s'.now == s.now
    ensures s'.shutdown == s.shutdown
  {
    RespondTaken(s, c, id, s');
  }

  /** Once out of the map and with no frame being written, a submit stays out, and not
      one frame of it is written any more. */
  ghost predicate Silent(s: State, id: u32) {
    && id in s.log.admitted && id !in s.pending
    && forall k | k in s.writer.claimed :: k.sequenceId != id
  }

  lemma SilentCaller(s: State, step: Step, s': State, id: u32)
    requires id !in s.callers.ready && Silent(s, id) && CallerStep(s, step, s')
    ensures Silent(s', id) && s'.log.writes == s.log.writes
  {
    hide NextSpec, BatchSpec, RetireSpec;
  }

  lemma AdmittedNotReady(s: State, id: u32)
    requires Own(s) && id in s.log.admitted
    ensures id !in s.callers.ready
  {
  }

  lemma SilentWriter(s: State, step: Step, s': State, id: u32)
    requires Silent(s, id) && WriterStep(s, step, s')
    ensures Silent(s', id) && WritesOf(s'.log.writes, id) == WritesOf(s.log.writes, id)
  {
    if step.CompleteNext? {
      assert s.writer.claimed[0] in s.writer.claimed;
      assert s'.log.writes[..|s'.log.writes| - 1] == s.log.writes;
    }
  }

  lemma SilentScan(s: State, c: Config, step: Step, s': State, id: u32)
    requires Silent(s, id) && ScanStep(s, c, step, s')
    ensures Silent(s', id) && s'.log.writes == s.log.writes
  {
    hide IsScanList, RetireSpec;
  }

  lemma SilentShutdown(s: State, step: Step, s': State, id: u32)
    requires Silent(s, id) && ShutdownStep(s, step, s')
    ensures Silent(s', id) && s'.log.writes == s.log.writes
  {
  }

  lemma SilentRespond(s: State, other: u32, id: u32)
    requires Silent(s, id)
    ensures Silent(RespondOne(s, other), id) && RespondOne(s, other).log.writes == s.log.writes
  {
  }

  lemma SilentNext(s: State, c: Config, step: Step, s': State, id: u32)
    requires Own(s) && Silent(s, id) && Next(s, c, step, s')
    ensures Silent(s', id) && WritesOf(s'.log.writes, id) == WritesOf(s.log.writes, id)
  {
    hide Own, WritesOf, CallerStep, WriterStep, ScanStep, ShutdownStep, RespondOne;
    AdmittedNotReady(s, id);
    hide Silent;
    if CallerStep(s, step, s') {
      SilentCaller(s, step, s', id);
    } else if WriterStep(s, step, s') {
      SilentWriter(s, step, s', id);
    } else if ScanStep(s, c, step, s') {
      SilentScan(s, c, step, s', id);
    } else if ShutdownStep(s, step, s') {
      SilentShutdown(s, step, s', id);
    } else {
      SilentRespond(s, step.id, id);
    }
  }

  lemma {:induction false} StaysSilent(c: Config, states: seq<State>, steps: seq<Step>, i: nat, j: nat, id: u32)
    requires Run(c, states, steps) && i <= j < |states| && Silent(states[i], id)
    ensures Silent(states[j], id) && WritesOf(states[j].log.writes, id) == WritesOf(states[i].log.writes, id)
    decreases j - i
  {
    hide Next, Silent, Own, Permits, Dec, Frames, Timed, Draining, Init, WritesOf, ValidConfig;
    if i < j {
      StaysSilent(c, states, steps, i, j - 1, id);
      At(c, states, steps, j - 1);
      SilentNext(states[j - 1], c, steps[j - 1], states[j], id);
    }
  }

  lemma NotBeingWritten(s: State, c: Config, id: u32)
    requires Frames(s, c) && id in s.pending
    requires s.pending[id].state.Queued? || s.pending[id].state.AwaitingResponse?
    ensures forall k | k in s.writer.claimed :: k.sequenceId != id
  {
    hide Places;
    forall k | k in s.writer.claimed
      ensures k.sequenceId != id
    {
      assert k in KeySet(s.writer.claimed);
    }
  }

  /** The answer to an attempt that was written, or to an older one while the next is
      already queued, is the end of that submit: it never enters the map again, and the
      queued retransmission is never written. */
  lemma AnswerCancels(c: Config, states: seq<State>, steps: seq<Step>, i: nat, j: nat, id: u32)
    requires Run(c, states, steps) && i < j < |states| && steps[i] == Respond(id)
    requires id in states[i].pending
    requires states[i].pending[id].state.Queued? || states[i].pending[id].state.AwaitingResponse?
    ensures Responded(id) in states[j].log.decisions && id !in states[j].pending
    ensures WritesOf(states[j].log.writes, id) == WritesOf(states[i].log.writes, id)
  {
    hide Own, Permits, Dec, Frames, Timed, Draining, Next, Init, WritesOf, ValidConfig;
    At(c, states, steps, i);
    NotBeingWritten(states[i], c, id);
    OwnPending(states[i]);
    ResponseDecides(states[i], c, id, states[i + 1]);
    assert Silent(states[i + 1], id);
    StaysSilent(c, states, steps, i + 1, j, id);
    RunLater(c, states, steps, i + 1, j);
    AnsweredSince(states[i], id, states[i + 1], states[j]);
  }

  lemma AnsweredSince(s: State, id: u32, t: State, u: State)
    requires t.log.decisions == s.log.decisions + [Responded(id)] && Later(t, u)
    ensures Responded(id) in u.log.decisions
  {
    assert t.log.decisions[|s.log.decisions|] == Responded(id);
    assert u.log.decisions[|s.log.decisions|] == Responded(id);
  }

  // ---------------------------------------------------- which step decides how

  /** The decision a step makes, if it makes one. */
  ghost predicate DecidedBy(s: State, step: Step, d: Decision) {
    match d
    case Responded(id) => step == Respond(id)
    case TimedOut(id, attempts) =>
      step.ScanTimeout? && step.accepted && s.scanner.list != [] && s.scanner.list[0].sequenceId == id
      && attempts == s.scanner.list[0].attempt
    case Dropped(id) => step == FailOne(id) && s.shutdown.phase == Closed
  }

  lemma CallerDecidesNothing(s: State, step: Step, s': State)
    requires CallerStep(s, step, s') || WriterStep(s, step, s')
    ensures s'.log.decisions == s.log.decisions
  {
    hide NextSpec, BatchSpec, RetireSpec;
  }

  /** In any step at most one decision is made: an answer by a response only, a timeout by
      the scanner at the head of its list only, a drop by the teardown of a closed
      connection only. */
  lemma DecisionSource(s: State, c: Config, step: Step, s': State)
    requires Next(s, c, step, s')
    ensures || s'.log.decisions == s.log.decisions
            || (&& |s'.log.decisions| == |s.log.decisions| + 1
                && s'.log.decisions[..|s.log.decisions|] == s.log.decisions
                && DecidedBy(s, step, s'.log.decisions[|s.log.decisions|]))
  {
    hide CallerStep, WriterStep, RetireSpec, IsScanList, BeginClosingTo;
    if CallerStep(s, step, s') || WriterStep(s, step, s') {
      CallerDecidesNothing(s, step, s');
    }
  }

  // ------------------------------------------------------------- never too early

  /** The entry awaits its response since a write that ended at `writtenAt`. */
  ghost predicate WrittenThen(states: seq<State>, steps: seq<Step>, m: nat, key: Key, writtenAt: nat) {
    && m < |steps| && m < |states| && steps[m].CompleteNext?
    && states[m].writer.claimed != [] && states[m].writer.claimed[0] == key && states[m].now == writtenAt
  }

  /** An entry begins to await its response when its frame is completed, and only then. */
  lemma BeginsAwaiting(s: State, c: Config, step: Step, s': State, id: u32)
    requires Next(s, c, step, s') && id in s'.pending && s'.pending[id].state.AwaitingResponse?
    ensures || (id in s.pending && s'.pending[id] == s.pending[id])
            || (&& step.CompleteNext? && s.writer.claimed != [] && s.writer.claimed[0] == KeyOf(s'.pending, id)
                && s'.pending[id].state.writtenAt == s.now
                && id in s.pending && s.pending[id].state == Writing(s'.pending[id].state.attempt))
  {
    hide CallerStep, WriterStep, ScanStep, ShutdownStep, RespondOne;
    if CallerStep(s, step, s') {
      CallerAwaits(s, step, s', id);
    } else if WriterStep(s, step, s') {
      WriterAwaits(s, step, s', id);
    } else if ScanStep(s, c, step, s') {
      ScanAwaits(s, c, step, s', id);
    } else if ShutdownStep(s, step, s') {
      ShutdownAwaits(s, step, s', id);
    } else {
      RespondAwaits(s, step.id, id);
    }
  }

  lemma CallerAwaits(s: State, step: Step, s': State, id: u32)
    requires CallerStep(s, step, s') && id in s'.pending && s'.pending[id].state.AwaitingResponse?
    ensures id in s.pending && s'.pending[id] == s.pending[id]
  {
    hide NextSpec, BatchSpec, RetireSpec;
  }

  lemma WriterAwaits(s: State, step: Step, s': State, id: u32)
    requires WriterStep(s, step, s') && id in s'.pending && s'.pending[id].state.AwaitingResponse?
    ensures id in s.pending
    ensures s'.pending[id] == s.pending[id] ||
            (&& step.CompleteNext? && s.writer.claimed != [] && s.writer.claimed[0] == KeyOf(s'.pending, id)
             && s'.pending[id].state.writtenAt == s.now && s.pending[id].state == Writing(s'.pending[id].state.attempt))
  {
  }

  lemma ScanAwaits(s: State, c: Config, step: Step, s': State, id: u32)
    requires ScanStep(s, c, step, s') && id in s'.pending && s'.pending[id].state.AwaitingResponse?
    ensures id in s.pending && s'.pending[id] == s.pending[id]
  {
    hide IsScanList, RetireSpec;
  }

  lemma ShutdownAwaits(s: State, step: Step, s': State, id: u32)
    requires ShutdownStep(s, step, s') && id in s'.pending && s'.pending[id].state.AwaitingResponse?
    ensures id in s.pending && s'.pending[id] == s.pending[id]
  {
  }

  lemma RespondAwaits(s: State, other: u32, id: u32)
    requires id in RespondOne(s, other).pending && RespondOne(s, other).pending[id].state.AwaitingResponse?
    ensures id in s.pending && RespondOne(s, other).pending[id] == s.pending[id]
  {
  }

  /** Every attempt that awaits its response was completed in this run, at the instant the
      entry says. */
  lemma {:induction false} AwaitsSinceWrite(
    c: Config, states: seq<State>, steps: seq<Step>, n: nat, id: u32) returns (m: nat)
    requires Run(c, states, steps) && n < |states|
    requires id in states[n].pending && states[n].pending[id].state.AwaitingResponse?
    ensures m < n
    ensures WrittenThen(states, steps, m, KeyOf(states[n].pending, id), states[n].pending[id].state.writtenAt)
  {
    hide Next, ValidConfig;
    assert n > 0;
    BeginsAwaiting(states[n - 1], c, steps[n - 1], states[n], id);
    if id in states[n - 1].pending && states[n].pending[id] == states[n - 1].pending[id] {
      hide Init;
      m := AwaitsSinceWrite(c, states, steps, n - 1, id);
    } else {
      m := n - 1;
    }
  }

  /** What stands on the scan list and still awaits its response has had its time. */
  ghost predicate ListDue(s: State, c: Config) {
    forall k | k in s.scanner.list ::
      && k in s.log.writes
      && (StillExpired(s.pending, k) ==> s.pending[k.sequenceId].state.writtenAt + c.responseTimeout <= s.now)
  }

  lemma ListFrom(s: State, c: Config, step: Step, s': State)
    requires Next(s, c, step, s')
    ensures s.now <= s'.now && s.log.writes <= s'.log.writes
    ensures step.ScanStart? || forall k | k in s'.scanner.list :: k in s.scanner.list
    ensures step.ScanStart? ==> IsScanList(s, c, s'.scanner.list) && s'.pending == s.pending && s'.now == s.now
  {
    hide CallerStep, WriterStep, ScanStep, ShutdownStep, RespondOne;
    if CallerStep(s, step, s') {
      ListCaller(s, step, s');
    } else if WriterStep(s, step, s') {
      ListWriter(s, step, s');
    } else if ScanStep(s, c, step, s') {
      ListScan(s, c, step, s');
    } else if ShutdownStep(s, step, s') {
      ListShutdown(s, step, s');
    } else {
      ListRespond(s, step.id);
    }
  }

  lemma ListCaller(s: State, step: Step, s': State)
    requires CallerStep(s, step, s')
    ensures s'.scanner == s.scanner && s'.now == s.now && s'.log.writes == s.log.writes && !step.ScanStart?
  {
    hide NextSpec, BatchSpec, RetireSpec;
  }

  lemma ListWriter(s: State, step: Step, s': State)
    requires WriterStep(s, step, s')
    ensures s'.scanner == s.scanner && s'.now == s.now && s.log.writes <= s'.log.writes && !step.ScanStart?
  {
  }

  lemma ListScan(s: State, c: Config, step: Step, s': State)
    requires ScanStep(s, c, step, s')
    ensures s'.now == s.now && s'.log.writes == s.log.writes
    ensures step.ScanStart? || forall k | k in s'.scanner.list :: k in s.scanner.list
    ensures step.ScanStart? ==> IsScanList(s, c, s'.scanner.list) && s'.pending == s.pending
  {
    hide IsScanList, RetireSpec;
  }

  lemma ListShutdown(s: State, step: Step, s': State)
    requires ShutdownStep(s, step, s')
    ensures s'.scanner == s.scanner && s.now <= s'.now && s'.log.writes == s.log.writes && !step.ScanStart?
  {
  }

  lemma ListRespond(s: State, id: u32)
    ensures var s' := RespondOne(s, id); s'.scanner == s.scanner && s'.now == s.now && s'.log.writes == s.log.writes
  {
  }

  lemma AwaitingIsWritten(s: State, c: Config, id: u32)
    requires Frames(s, c) && id in s.pending && s.pending[id].state.AwaitingResponse?
    ensures KeyOf(s.pending, id) in s.log.writes
  {
    hide Life, Places;
    AttemptWritten(ViewOf(s), c, id);
    assert KeyOf(s.pending, id) in KeySet(s.log.writes);
  }

  lemma AttemptWritten(v: View, c: Config, id: u32)
    requires Life(v, c) && id in v.pending && v.pending[id].state.AwaitingResponse?
    ensures KeyOf(v.pending, id) in v.written
  {
    assert 1 <= v.pending[id].state.attempt <= WrittenCount(v.pending[id].state);
  }

  /** The frame that is being completed was not written before. */
  lemma CompletingIsNew(s: State, c: Config)
    requires Frames(s, c) && s.writer.claimed != []
    ensures s.writer.claimed[0] !in s.log.writes
  {
    hide Places;
    assert s.writer.claimed[0] in KeySet(s.writer.claimed);
  }

  lemma ListDueNext(s: State, c: Config, step: Step, s': State)
    requires Frames(s, c) && ListDue(s, c) && Next(s, c, step, s')
    ensures ListDue(s', c)
  {
    ListFrom(s, c, step, s');
    hide Next, Frames, IsScanList;
    forall k | k in s'.scanner.list
      ensures k in s'.log.writes
      ensures StillExpired(s'.pending, k) ==> s'.pending[k.sequenceId].state.writtenAt + c.responseTimeout <= s'.now
    {
      if step.ScanStart? {
        ListedIsExpired(s, c, s'.scanner.list, k);
        AwaitingIsWritten(s, c, k.sequenceId);
      } else if StillExpired(s'.pending, k) {
        BeginsAwaiting(s, c, step, s', k.sequenceId);
        if step.CompleteNext? && s.writer.claimed != [] && s.writer.claimed[0] == k {
          CompletingIsNew(s, c);
        }
      }
    }
  }

  lemma ListedIsExpired(s: State, c: Config, list: seq<Key>, k: Key)
    requires IsScanList(s, c, list) && k in list
    ensures k.sequenceId in s.pending && s.pending[k.sequenceId].state.AwaitingResponse?
    ensures k == KeyOf(s.pending, k.sequenceId)
    ensures s.pending[k.sequenceId].state.writtenAt + c.responseTimeout <= s.now
  {
  }

  lemma {:induction false} RunListDue(c: Config, states: seq<State>, steps: seq<Step>, n: nat)
    requires Run(c, states, steps) && n < |states|
    ensures ListDue(states[n], c)
  {
    hide Next, ValidConfig, Own, Permits, Dec, Frames, Timed, Draining;
    if n > 0 {
      RunListDue(c, states, steps, n - 1);
      hide Init, ListDue;
      At(c, states, steps, n - 1);
      ListDueNext(states[n - 1], c, steps[n - 1], states[n]);
    }
  }

  /** The scanner times an attempt out, or queues its successor, no earlier than the
      response timeout after the write of that attempt was completed. */
  lemma NeverTooEarly(c: Config, states: seq<State>, steps: seq<Step>, n: nat) returns (m: nat)
    requires Run(c, states, steps) && n < |steps| && (steps[n].ScanTimeout? || steps[n].ScanRetry?)
    requires states[n + 1].pending != states[n].pending
    ensures m < n && states[n].scanner.list != []
    ensures var key := states[n].scanner.list[0];
            && WrittenThen(states, steps, m, key, states[m].now)
            && states[m].now + c.responseTimeout <= states[n].now
            && key.sequenceId in states[n].pending && KeyOf(states[n].pending, key.sequenceId) == key
  {
    RunListDue(c, states, steps, n);
    assert Next(states[n], c, steps[n], states[n + 1]);
    hide Run, Next, ListDue;
    ScannerActs(states[n], c, steps[n], states[n + 1]);
    m := AwaitsSinceWrite(c, states, steps, n, states[n].scanner.list[0].sequenceId);
    HeadIsDue(states[n], c);
  }

  lemma HeadIsDue(s: State, c: Config)
    requires ListDue(s, c) && s.scanner.list != [] && StillExpired(s.pending, s.scanner.list[0])
    ensures s.pending[s.scanner.list[0].sequenceId].state.writtenAt + c.responseTimeout <= s.now
  {
    assert s.scanner.list[0] in s.scanner.list;
  }

  lemma ScannerActs(s: State, c: Config, step: Step, s': State)
    requires Next(s, c, step, s') && (step.ScanTimeout? || step.ScanRetry?) && s'.pending != s.pending
    ensures s.scanner.list != [] && StillExpired(s.pending, s.scanner.list[0])
    ensures step.ScanRetry? ==> s.shutdown.phase == Open
  {
    hide RetireSpec;
  }
}
