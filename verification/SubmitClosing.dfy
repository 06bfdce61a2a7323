/** Closing: what a graceful close asks for, what stops, and what the acknowledged drain
    marker is worth. */
module SubmitClosing {
  import opened Wrappers
  import opened SequenceRegistry
  import opened SubmitModel
  import opened SubmitOwnership
  import opened SubmitDecisions
  import opened SubmitPlaces
  import opened SubmitTheorems
  import opened SubmitPromises

  /** SUBMIT frames must not go on the wire any more. */
  predicate Stopped(z: Shutdown) {
    z.phase == Closed || (z.phase == Closing && !z.drain)
  }

  /** What one step does to the shutdown state, the queue and the frames being written. */
  ghost predicate ClosingEffect(s: State, step: Step, s': State) {
    && (s.shutdown.phase != Open ==> s'.shutdown.phase != Open)
    && (Stopped(s.shutdown) ==> Stopped(s'.shutdown))
    && (Stopped(s.shutdown) ==> forall k | k in s'.writer.claimed :: k in s.writer.claimed)
    && (s.shutdown.phase != Open ==> forall x | x in s'.channel.queue && x.Frame? :: x in s.channel.queue)
    && (step.BeginClosing? ==>
          match s.shutdown.phase
          case Open => s'.shutdown == Shutdown(Closing, step.drainSubmits, step.drainSubmits,
                                               s.shutdown.markerSent, s.shutdown.acked)
          case Closing => s'.shutdown == s.shutdown.(drain := s.shutdown.drain && step.drainSubmits)
          case Closed => s'.shutdown == s.shutdown)
    && (step.Close? ==> s'.shutdown.phase == Closed)
    && (!step.BeginClosing? && !step.StopDraining? && !step.Close? && !(step.FinishBatch? && s.writer.marker) ==>
          s'.shutdown == s.shutdown.(markerSent := s'.shutdown.markerSent))
  }

  lemma CallerClosing(s: State, step: Step, s': State)
    requires CallerStep(s, step, s')
    ensures ClosingEffect(s, step, s')
  {
    hide NextSpec, BatchSpec, RetireSpec;
  }

  lemma WriterClosing(s: State, step: Step, s': State)
    requires WriterStep(s, step, s')
    ensures ClosingEffect(s, step, s')
  {
    hide ClaimOne, CompleteOne;
    if step.CompleteNext? {
      CompleteLeaves(s, s.writer.claimed[0]);
    }
  }

  lemma CompleteLeaves(s: State, key: Key)
    ensures var t := CompleteOne(s, key); t.shutdown == s.shutdown && t.channel == s.channel
  {
  }

  lemma ScanClosing(s: State, c: Config, step: Step, s': State)
    requires ScanStep(s, c, step, s')
    ensures ClosingEffect(s, step, s')
  {
    hide IsScanList, RetireSpec;
  }

  lemma ShutdownClosing(s: State, step: Step, s': State)
    requires ShutdownStep(s, step, s')
    ensures ClosingEffect(s, step, s')
  {
  }

  lemma RespondClosing(s: State, step: Step, s': State)
    requires step.Respond? && s' == RespondOne(s, step.id)
    ensures ClosingEffect(s, step, s')
  {
  }

  /** A close is entered once, asks for draining only if told so, and never again; out of
      phase Open no frame is queued any more, and once draining is off none is claimed. */
  lemma ClosingNext(s: State, c: Config, step: Step, s': State)
    requires Next(s, c, step, s')
    ensures ClosingEffect(s, step, s')
  {
    hide CallerStep, WriterStep, ScanStep, ShutdownStep, RespondOne, ClosingEffect;
    if CallerStep(s, step, s') {
      CallerClosing(s, step, s');
    } else if WriterStep(s, step, s') {
      WriterClosing(s, step, s');
    } else if ScanStep(s, c, step, s') {
      ScanClosing(s, c, step, s');
    } else if ShutdownStep(s, step, s') {
      ShutdownClosing(s, step, s');
    } else {
      RespondClosing(s, step, s');
    }
  }

  /** In every run, from the moment SUBMITs must not be sent any more, no frame but those
      already being written ever reaches the wire. */
  lemma {:induction false} NothingSentAfterStop(
    c: Config, states: seq<State>, steps: seq<Step>, i: nat, j: nat)
    requires Run(c, states, steps) && i <= j < |states| && Stopped(states[i].shutdown)
    ensures Stopped(states[j].shutdown)
    ensures forall k | k in states[j].writer.claimed :: k in states[i].writer.claimed
    ensures forall k | k in states[j].log.writes :: k in states[i].log.writes || k in states[i].writer.claimed
    decreases j - i
  {
    hide Next, Init, Stopped, ValidConfig;
    if i < j {
      NothingSentAfterStop(c, states, steps, i, j - 1);
      ClosingNext(states[j - 1], c, steps[j - 1], states[j]);
      WritesFromClaimed(states[j - 1], c, steps[j - 1], states[j]);
    }
  }

  lemma WritesFromClaimed(s: State, c: Config, step: Step, s': State)
    requires Next(s, c, step, s')
    ensures forall k | k in s'.log.writes :: k in s.log.writes || k in s.writer.claimed
  {
    hide NextSpec, BatchSpec, RetireSpec, CallerStep, ScanStep, ShutdownStep, RespondOne;
    if CallerStep(s, step, s') {
      CallerWritesNothing(s, step, s');
    } else if ScanStep(s, c, step, s') {
      ScanWritesNothing(s, c, step, s');
    } else if ShutdownStep(s, step, s') {
      ShutdownWritesNothing(s, step, s');
    } else if !WriterStep(s, step, s') {
      RespondLater(s, step.id);
      RespondWritesNothing(s, step.id);
    }
  }

  lemma CallerWritesNothing(s: State, step: Step, s': State)
    requires CallerStep(s, step, s')
    ensures s'.log.writes == s.log.writes
  {
    hide NextSpec, BatchSpec, RetireSpec;
  }

  lemma ScanWritesNothing(s: State, c: Config, step: Step, s': State)
    requires ScanStep(s, c, step, s')
    ensures s'.log.writes == s.log.writes
  {
    hide IsScanList, RetireSpec;
  }

  lemma ShutdownWritesNothing(s: State, step: Step, s': State)
    requires ShutdownStep(s, step, s')
    ensures s'.log.writes == s.log.writes
  {
  }

  lemma RespondWritesNothing(s: State, id: u32)
    ensures RespondOne(s, id).log.writes == s.log.writes
  {
  }

  /** Nobody cuts the drain short, and no earlier marker ends it. */
  ghost predicate LeftToDrain(states: seq<State>, steps: seq<Step>, i: nat, n: nat) {
    && i < n <= |steps| && n < |states|
    && forall r | i < r < n ::
         && !steps[r].StopDraining? && !steps[r].Close?
         && (steps[r].BeginClosing? ==> steps[r].drainSubmits)
         && (steps[r].FinishBatch? ==> !states[r].writer.marker)
  }

  lemma {:induction false} StaysDraining(c: Config, states: seq<State>, steps: seq<Step>, i: nat, n: nat)
    requires Run(c, states, steps) && LeftToDrain(states, steps, i, n)
    requires steps[i] == BeginClosing(true) && states[i].shutdown.phase == Open
    ensures states[n].shutdown.phase == Closing && states[n].shutdown.drain && states[n].shutdown.started
    decreases n - i
  {
    hide Next, Init, ValidConfig;
    ClosingNext(states[n - 1], c, steps[n - 1], states[n]);
    if i < n - 1 {
      StaysDraining(c, states, steps, i, n - 1);
    }
  }

  /** A graceful close keeps its word: when the writer acknowledges the marker and nobody
      has cut the drain short, every submit ever admitted has its decision, or awaits the
      response to a frame that is on the wire. */
  lemma GracefulCloseDrains(c: Config, states: seq<State>, steps: seq<Step>, i: nat, n: nat, id: u32)
    requires Run(c, states, steps) && LeftToDrain(states, steps, i, n) && n < |steps|
    requires steps[i] == BeginClosing(true) && states[i].shutdown.phase == Open
    requires steps[n].FinishBatch? && states[n].writer.marker && id in states[n].log.admitted
    ensures states[n + 1].shutdown.acked
    ensures Decided(states[n], id) ||
            (&& id in states[n].pending && states[n].pending[id].state.AwaitingResponse?
             && WritesOf(states[n].log.writes, id) == states[n].pending[id].state.attempt >= 1)
  {
    hide Run, Decided, WritesOf, LeftToDrain;
    StaysDraining(c, states, steps, i, n);
    DrainedOnAck(c, states, steps, n, id);
  }
}
