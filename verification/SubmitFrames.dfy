/** Where the frames of each attempt are, and how often they were written.

    The queue, the batch, the claimed frames and the write log are looked at as
    sets; `SubmitPlaces` shows that no frame occurs twice in any of them. */
module SubmitFrames {
  import opened Wrappers
  import opened SubmitModel

  datatype View = View(
    pending: Pending,
    admitted: map<u32, nat>,
    unclaimed: set<Key>,
    claimed: set<Key>,
    written: set<Key>,
    canSend: bool)

  predicate Known(v: View, k: Key) {
    k.sequenceId in v.admitted && k.submissionId == v.admitted[k.sequenceId] && 1 <= k.attempt
  }

  /** How many attempts of an entry in this state have been written completely. */
  function WrittenCount(st: AttemptState): int {
    if st.AwaitingResponse? then st.attempt else st.attempt - 1
  }

  predicate BeingWritten(st: AttemptState, attempt: nat) {
    st == Writing(attempt) || st == RespondedWhileWriting(attempt)
  }

  ghost predicate FramesKnown(v: View) {
    && (forall k | k in v.unclaimed :: Known(v, k) && k !in v.claimed && k !in v.written)
    && (forall k | k in v.claimed :: Known(v, k) && k !in v.written)
    && (forall k | k in v.written :: Known(v, k))
    && (forall id | id in v.pending :: id in v.admitted && v.pending[id].submissionId == v.admitted[id])
  }

  /** A frame of a pending submit says what state its entry is in. */
  ghost predicate FrameStates(v: View) {
    && (forall k | k in v.unclaimed && k.sequenceId in v.pending ::
          v.pending[k.sequenceId].state == Queued(k.attempt))
    && (forall k | k in v.claimed && k.sequenceId in v.pending ::
          BeingWritten(v.pending[k.sequenceId].state, k.attempt))
    && (forall k | k in v.written && k.sequenceId in v.pending ::
          k.attempt <= WrittenCount(v.pending[k.sequenceId].state))
  }

  /** An entry's state says which of its frames exist. */
  ghost predicate EntryFrames(v: View, c: Config) {
    && (forall id | id in v.pending :: 1 <= v.pending[id].state.attempt <= c.retryCount)
    && (forall id | id in v.pending && BeingWritten(v.pending[id].state, v.pending[id].state.attempt) ::
          KeyOf(v.pending, id) in v.claimed)
    && (forall id | id in v.pending && v.canSend && v.pending[id].state.Queued? ::
          KeyOf(v.pending, id) in v.unclaimed)
    && (forall id, x: nat | id in v.pending && 1 <= x <= WrittenCount(v.pending[id].state) ::
          Key(id, v.pending[id].submissionId, x) in v.written)
  }

  ghost predicate Life(v: View, c: Config) {
    FramesKnown(v) && FrameStates(v) && EntryFrames(v, c)
  }

  // Each lemma below is one way the actors may change the view.

  lemma LifeAdmit(v: View, c: Config, id: u32, e: Entry)
    requires Life(v, c) && 1 <= c.retryCount
    requires id !in v.admitted && e.state == Queued(1)
    ensures Life(v.(pending := v.pending[id := e],
                    admitted := v.admitted[id := e.submissionId],
                    unclaimed := v.unclaimed + {Key(id, e.submissionId, 1)}), c)
  {
  }

  function RetryView(v: View, id: u32): View
    requires id in v.pending && v.pending[id].state.AwaitingResponse?
  {
    var a := v.pending[id].state.attempt + 1;
    v.(pending := SetAttempt(v.pending, id, Queued(a)),
       unclaimed := v.unclaimed + {Key(id, v.pending[id].submissionId, a)})
  }

  lemma RetryKeepsFramesKnown(v: View, id: u32, c: Config)
    requires Life(v, c) && id in v.pending && v.pending[id].state.AwaitingResponse?
    requires v.pending[id].state.attempt < c.retryCount
    ensures FramesKnown(RetryView(v, id))
  {
  }

  lemma RetryKeepsFrameStates(v: View, id: u32, c: Config)
    requires Life(v, c) && id in v.pending && v.pending[id].state.AwaitingResponse?
    requires v.pending[id].state.attempt < c.retryCount
    ensures FrameStates(RetryView(v, id))
  {
  }

  lemma RetryKeepsEntryFrames(v: View, id: u32, c: Config)
    requires Life(v, c) && id in v.pending && v.pending[id].state.AwaitingResponse?
    requires v.pending[id].state.attempt < c.retryCount
    ensures EntryFrames(RetryView(v, id), c)
  {
  }

  /** An unanswered attempt is queued again under the next number. */
  lemma LifeRetry(v: View, id: u32, c: Config)
    requires Life(v, c) && id in v.pending && v.pending[id].state.AwaitingResponse?
    requires v.pending[id].state.attempt < c.retryCount
    ensures Life(RetryView(v, id), c)
  {
    RetryKeepsFramesKnown(v, id, c);
    RetryKeepsFrameStates(v, id, c);
    RetryKeepsEntryFrames(v, id, c);
  }

  function ClaimView(v: View, k: Key): View
    requires k in v.unclaimed && k.sequenceId in v.pending
  {
    v.(pending := SetAttempt(v.pending, k.sequenceId, Writing(k.attempt)),
       unclaimed := v.unclaimed - {k},
       claimed := v.claimed + {k})
  }

  lemma ClaimKeepsFramesKnown(v: View, k: Key, c: Config)
    requires Life(v, c) && k in v.unclaimed && k.sequenceId in v.pending
    ensures FramesKnown(ClaimView(v, k))
  {
  }

  lemma ClaimKeepsFrameStates(v: View, k: Key, c: Config)
    requires Life(v, c) && k in v.unclaimed && k.sequenceId in v.pending
    ensures FrameStates(ClaimView(v, k))
  {
  }

  lemma ClaimKeepsEntryFrames(v: View, k: Key, c: Config)
    requires Life(v, c) && k in v.unclaimed && k.sequenceId in v.pending
    ensures EntryFrames(ClaimView(v, k), c)
  {
  }

  /** The writer claims a waiting frame. */
  lemma LifeClaim(v: View, k: Key, c: Config)
    requires Life(v, c) && k in v.unclaimed && k.sequenceId in v.pending
    ensures Life(ClaimView(v, k), c)
  {
    ClaimKeepsFramesKnown(v, k, c);
    ClaimKeepsFrameStates(v, k, c);
    ClaimKeepsEntryFrames(v, k, c);
  }

  /** A frame is left out when sending has stopped or its entry is gone. */
  lemma LifeSkip(v: View, c: Config, k: Key)
    requires Life(v, c) && k in v.unclaimed && (!v.canSend || k.sequenceId !in v.pending)
    ensures Life(v.(unclaimed := v.unclaimed - {k}), c)
  {
  }

  function WrittenView(v: View, k: Key, now: nat): View
    requires k in v.claimed && k.sequenceId in v.pending
  {
    v.(pending := SetAttempt(v.pending, k.sequenceId, AwaitingResponse(k.attempt, now)),
       claimed := v.claimed - {k},
       written := v.written + {k})
  }

  lemma WrittenKeepsFramesKnown(v: View, k: Key, now: nat, c: Config)
    requires Life(v, c) && k in v.claimed && k.sequenceId in v.pending
    requires v.pending[k.sequenceId].state.Writing?
    ensures FramesKnown(WrittenView(v, k, now))
  {
  }

  lemma WrittenKeepsFrameStates(v: View, k: Key, now: nat, c: Config)
    requires Life(v, c) && k in v.claimed && k.sequenceId in v.pending
    requires v.pending[k.sequenceId].state.Writing?
    ensures FrameStates(WrittenView(v, k, now))
  {
  }

  lemma WrittenKeepsEntryFrames(v: View, k: Key, now: nat, c: Config)
    requires Life(v, c) && k in v.claimed && k.sequenceId in v.pending
    requires v.pending[k.sequenceId].state.Writing?
    ensures EntryFrames(WrittenView(v, k, now), c)
  {
  }

  /** A claimed frame has been written and now awaits its response. */
  lemma LifeWritten(v: View, k: Key, now: nat, c: Config)
    requires Life(v, c) && k in v.claimed && k.sequenceId in v.pending
    requires v.pending[k.sequenceId].state.Writing?
    ensures Life(WrittenView(v, k, now), c)
  {
    WrittenKeepsFramesKnown(v, k, now, c);
    WrittenKeepsFrameStates(v, k, now, c);
    WrittenKeepsEntryFrames(v, k, now, c);
  }

  /** A completed frame whose entry leaves the map, or left it before. */
  lemma LifeWrittenGone(v: View, c: Config, k: Key)
    requires Life(v, c) && k in v.claimed
    ensures Life(v.(pending := v.pending - {k.sequenceId},
                    claimed := v.claimed - {k},
                    written := v.written + {k}), c)
  {
  }

  lemma LifeAnswered(v: View, c: Config, id: u32)
    requires Life(v, c) && id in v.pending && v.pending[id].state.Writing?
    ensures Life(v.(pending := SetAttempt(v.pending, id, RespondedWhileWriting(v.pending[id].state.attempt))), c)
  {
  }

  lemma LifeRemove(v: View, c: Config, id: u32)
    requires Life(v, c)
    ensures Life(v.(pending := v.pending - {id}), c)
  {
  }

  lemma LifeStopSending(v: View, c: Config)
    requires Life(v, c)
    ensures Life(v.(canSend := false), c)
  {
  }

  /** No frame of the next attempt exists before it is queued. */
  lemma RetryIsNew(v: View, c: Config, id: u32)
    requires Life(v, c) && id in v.pending && v.pending[id].state.AwaitingResponse?
    ensures Key(id, v.pending[id].submissionId, v.pending[id].state.attempt + 1) !in v.unclaimed
  {
  }

  /** No frame of a new submit exists before it is admitted. */
  lemma AdmittedIsNew(v: View, c: Config, id: u32, submissionId: nat)
    requires Life(v, c) && id !in v.admitted
    ensures Key(id, submissionId, 1) !in v.unclaimed
  {
  }

  lemma WaitingIsUnclaimed(v: View, c: Config, k: Key)
    requires Life(v, c) && k in v.unclaimed
    ensures k !in v.claimed
  {
  }

  /** While submits may be sent, each frame that waits for the writer belongs to
      a queued entry or to one already decided, so only the latter are skipped. */
  lemma SkippedOnlyWhenGone(v: View, c: Config, k: Key)
    requires Life(v, c) && k in v.unclaimed && v.canSend
    ensures Claimable(v.pending, k, v.canSend) <==> k.sequenceId in v.pending
  {
  }
}
