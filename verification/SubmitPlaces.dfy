/** The frame invariants carried through every step of the machine. */
module SubmitPlaces {
  import opened Wrappers
  import opened SequenceRegistry
  import opened SubmitModel
  import opened SubmitOwnership
  import opened SubmitDecisions
  import opened SubmitFrames

  function QueueKeys(queue: seq<Item>): set<Key> {
    set i | i in queue && i.Frame? :: i.key
  }

  function KeySet(keys: seq<Key>): set<Key> {
    set k | k in keys
  }

  function ViewOf(s: State): View {
    View(s.pending, s.log.admitted,
         QueueKeys(s.channel.queue) + KeySet(s.writer.batch),
         KeySet(s.writer.claimed), KeySet(s.log.writes), CanSend(s))
  }

  ghost predicate Distinct<T>(s: seq<T>) {
    forall i, j | 0 <= i < j < |s| :: s[i] != s[j]
  }

  /** No frame occurs twice, and there is at most one drain marker. */
  ghost predicate Places(s: State) {
    && Distinct(s.channel.queue) && Distinct(s.writer.batch)
    && Distinct(s.writer.claimed) && Distinct(s.log.writes)
    && QueueKeys(s.channel.queue) !! KeySet(s.writer.batch)
    && (DrainMarker in s.channel.queue ==> s.shutdown.markerSent)
  }

  ghost predicate Frames(s: State, c: Config) {
    Places(s) && Life(ViewOf(s), c)
  }

  // ------------------------------------------------------------ sequence facts

  lemma AppendDistinct<T>(s: seq<T>, x: T)
    requires Distinct(s) && x !in s
    ensures Distinct(s + [x])
  {
  }

  lemma TailDistinct<T>(s: seq<T>)
    requires Distinct(s) && |s| > 0
    ensures Distinct(s[1..]) && s[0] !in s[1..]
    ensures forall x :: x in s <==> x == s[0] || x in s[1..]
  {
  }

  lemma KeysAppend(keys: seq<Key>, k: Key)
    ensures KeySet(keys + [k]) == KeySet(keys) + {k}
  {
  }

  lemma KeysTail(keys: seq<Key>)
    requires Distinct(keys) && |keys| > 0
    ensures KeySet(keys[1..]) == KeySet(keys) - {keys[0]} && keys[0] in KeySet(keys)
  {
    TailDistinct(keys);
    hide Distinct;
    assert forall k :: k in KeySet(keys[1..]) <==> k in keys[1..];
  }

  lemma QueueAppend(queue: seq<Item>, item: Item)
    ensures QueueKeys(queue + [item]) == QueueKeys(queue) + if item.Frame? then {item.key} else {}
  {
    forall k
      ensures k in QueueKeys(queue + [item]) <==> k in QueueKeys(queue) || Frame(k) == item
    {
      assert k in QueueKeys(queue + [item]) <==> Frame(k) in queue + [item];
      assert k in QueueKeys(queue) <==> Frame(k) in queue;
    }
  }

  lemma QueueTail(queue: seq<Item>)
    requires Distinct(queue) && |queue| > 0
    ensures QueueKeys(queue[1..]) == QueueKeys(queue) - if queue[0].Frame? then {queue[0].key} else {}
    ensures queue[0].Frame? ==> queue[0].key in QueueKeys(queue)
  {
    TailDistinct(queue);
    hide Distinct;
    forall k
      ensures k in QueueKeys(queue[1..]) <==> k in QueueKeys(queue) && Frame(k) != queue[0]
    {
      assert k in QueueKeys(queue[1..]) <==> Frame(k) in queue[1..];
      assert k in QueueKeys(queue) <==> Frame(k) in queue;
    }
    assert queue[0] in queue;
  }

  lemma InQueue(queue: seq<Item>, k: Key)
    ensures k in QueueKeys(queue) <==> Frame(k) in queue
  {
  }

  // ------------------------------------------------------------------ the steps

  /** Steps that touch neither frames nor entries, though sending may stop. */
  lemma FramesQuiet(s: State, c: Config, s': State)
    requires Frames(s, c)
    requires s'.pending == s.pending && s'.log.admitted == s.log.admitted && s'.log.writes == s.log.writes
    requires s'.channel.queue == s.channel.queue
    requires s'.writer.batch == s.writer.batch && s'.writer.claimed == s.writer.claimed
    requires CanSend(s') ==> CanSend(s)
    requires s.shutdown.markerSent ==> s'.shutdown.markerSent
    ensures Frames(s', c)
  {
    hide Life, Distinct;
    if CanSend(s') != CanSend(s) {
      LifeStopSending(ViewOf(s), c);
      assert ViewOf(s') == ViewOf(s).(canSend := false);
    } else {
      assert ViewOf(s') == ViewOf(s);
    }
  }

  lemma ReadyIsNew(s: State, id: u32)
    requires Own(s) && id in s.callers.ready
    ensures id !in s.log.admitted
  {
  }

  lemma FramesAdmit(s: State, c: Config, step: Step, s': State)
    requires ValidConfig(c) && Own(s) && Frames(s, c) && CallerStep(s, step, s') && step.Admit? && step.retired
    ensures Frames(s', c)
  {
    var id, t := step.id, s.callers.ready[step.id];
    var e, k := Entry(t.submissionId, Queued(1), t.manual), Key(id, t.submissionId, 1);
    ReadyIsNew(s, id);
    hide Own, RetireSpec, Distinct, Life;
    AdmittedIsNew(ViewOf(s), c, id, t.submissionId);
    LifeAdmit(ViewOf(s), c, id, e);
    InQueue(s.channel.queue, k);
    QueueAppend(s.channel.queue, Frame(k));
    AppendDistinct(s.channel.queue, Frame(k));
    assert ViewOf(s') == ViewOf(s).(pending := s.pending[id := e],
                                    admitted := s.log.admitted[id := e.submissionId],
                                    unclaimed := ViewOf(s).unclaimed + {k});
  }

  lemma FramesCaller(s: State, c: Config, step: Step, s': State)
    requires ValidConfig(c) && Own(s) && Frames(s, c) && CallerStep(s, step, s')
    ensures Frames(s', c)
  {
    hide Own, Frames, NextSpec, BatchSpec, RetireSpec;
    if step.Admit? && step.retired {
      FramesAdmit(s, c, step, s');
    } else {
      FramesQuiet(s, c, s');
    }
  }

  lemma FramesPick(s: State, c: Config, step: Step, s': State)
    requires Frames(s, c) && WriterStep(s, step, s') && (step.PickFrame? || step.PickMarker?)
    ensures Frames(s', c)
  {
    hide Life, Distinct;
    QueueTail(s.channel.queue);
    TailDistinct(s.channel.queue);
    if step.PickFrame? {
      var k := s.channel.queue[0].key;
      KeysAppend(s.writer.batch, k);
      assert k !in s.writer.batch by {
        assert k !in KeySet(s.writer.batch);
      }
      AppendDistinct(s.writer.batch, k);
    }
    assert ViewOf(s') == ViewOf(s);
  }

  lemma FramesClaim(s: State, c: Config, step: Step, s': State)
    requires Frames(s, c) && WriterStep(s, step, s') && step.ClaimNext?
    ensures Frames(s', c)
  {
    hide Distinct, Life;
    var k, v := s.writer.batch[0], ViewOf(s);
    KeysTail(s.writer.batch);
    TailDistinct(s.writer.batch);
    assert k in v.unclaimed && k !in QueueKeys(s.channel.queue);
    WaitingIsUnclaimed(v, c, k);
    if Claimable(s.pending, k, CanSend(s)) {
      LifeClaim(v, k, c);
      KeysAppend(s.writer.claimed, k);
      AppendDistinct(s.writer.claimed, k);
      assert ViewOf(s') == ClaimView(v, k);
    } else {
      assert v.canSend ==> k.sequenceId !in v.pending by {
        if v.canSend {
          SkippedOnlyWhenGone(v, c, k);
        }
      }
      LifeSkip(v, c, k);
      assert ViewOf(s') == v.(unclaimed := v.unclaimed - {k});
    }
  }

  lemma FramesComplete(s: State, c: Config, step: Step, s': State)
    requires Frames(s, c) && WriterStep(s, step, s') && step.CompleteNext?
    ensures Frames(s', c)
  {
    hide Distinct, Life;
    var k, v := s.writer.claimed[0], ViewOf(s);
    KeysTail(s.writer.claimed);
    TailDistinct(s.writer.claimed);
    CompletedKind(v, c, k);
    KeysAppend(s.log.writes, k);
    AppendDistinct(s.log.writes, k);
    if k.sequenceId in s.pending && s.pending[k.sequenceId].state == Writing(k.attempt) {
      LifeWritten(v, k, s.now, c);
      assert ViewOf(s') == WrittenView(v, k, s.now);
    } else {
      LifeWrittenGone(v, c, k);
      assert s'.pending == s.pending - {k.sequenceId};
      assert ViewOf(s') == v.(pending := v.pending - {k.sequenceId},
                              claimed := v.claimed - {k},
                              written := v.written + {k});
    }
  }

  /** A claimed frame's entry is being written, was answered early, or is gone. */
  lemma CompletedKind(v: View, c: Config, k: Key)
    requires Life(v, c) && k in v.claimed
    ensures k !in v.written
    ensures k.sequenceId in v.pending ==>
              Matches(v.pending, k) && BeingWritten(v.pending[k.sequenceId].state, k.attempt)
  {
  }

  lemma FramesWriter(s: State, c: Config, step: Step, s': State)
    requires Frames(s, c) && WriterStep(s, step, s')
    ensures Frames(s', c)
  {
    hide Frames;
    if step.PickFrame? || step.PickMarker? {
      FramesPick(s, c, step, s');
    } else if step.ClaimNext? {
      FramesClaim(s, c, step, s');
    } else if step.CompleteNext? {
      FramesComplete(s, c, step, s');
    } else {
      FramesQuiet(s, c, s');
    }
  }

  /** An entry leaves the map outside the writer. */
  lemma FramesRemove(s: State, c: Config, id: u32, s': State)
    requires Frames(s, c)
    requires s'.pending == s.pending - {id}
    requires s'.log.admitted == s.log.admitted && s'.log.writes == s.log.writes
    requires s'.channel == s.channel && s'.writer == s.writer && s'.shutdown == s.shutdown
    ensures Frames(s', c)
  {
    hide Life, Distinct;
    LifeRemove(ViewOf(s), c, id);
    assert ViewOf(s') == ViewOf(s).(pending := s.pending - {id});
  }

  lemma FramesRespond(s: State, c: Config, id: u32)
    requires Frames(s, c)
    ensures Frames(RespondOne(s, id), c)
  {
    var s' := RespondOne(s, id);
    if Answers(s.pending, id) && s.pending[id].state.Writing? {
      hide Life, Distinct;
      LifeAnswered(ViewOf(s), c, id);
      assert ViewOf(s') == ViewOf(s).(pending := s'.pending);
    } else if Answers(s.pending, id) {
      hide Frames;
      FramesRemove(s, c, id, s');
    }
  }

  lemma FramesRetry(s: State, c: Config, step: Step, s': State)
    requires Frames(s, c) && ScanStep(s, c, step, s') && step.ScanRetry?
    requires StillExpired(s.pending, s.scanner.list[0]) && s.shutdown.phase == Open
    requires s.scanner.list[0].attempt < c.retryCount
    ensures Frames(s', c)
  {
    hide Distinct, Life;
    var v, id := ViewOf(s), s.scanner.list[0].sequenceId;
    var k := Key(id, s.pending[id].submissionId, s.pending[id].state.attempt + 1);
    RetryIsNew(v, c, id);
    LifeRetry(v, id, c);
    InQueue(s.channel.queue, k);
    QueueAppend(s.channel.queue, Frame(k));
    AppendDistinct(s.channel.queue, Frame(k));
    assert k !in KeySet(s.writer.batch);
    assert ViewOf(s') == RetryView(v, id);
  }

  /** A reserved retry is one that may still be made. */
  ghost predicate ScannerOk(s: State, c: Config) {
    s.scanner.slot ==> |s.scanner.list| > 0 && s.scanner.list[0].attempt < c.retryCount
  }

  lemma FramesScan(s: State, c: Config, step: Step, s': State)
    requires Frames(s, c) && ScannerOk(s, c) && ScanStep(s, c, step, s')
    ensures Frames(s', c) && ScannerOk(s', c)
  {
    hide Frames, IsScanList, RetireSpec;
    if step.ScanRetry? && s.shutdown.phase == Open && StillExpired(s.pending, s.scanner.list[0]) {
      FramesRetry(s, c, step, s');
    } else if step.ScanTimeout? && StillExpired(s.pending, s.scanner.list[0]) && step.accepted {
      FramesRemove(s, c, s.scanner.list[0].sequenceId, s');
    } else {
      FramesQuiet(s, c, s');
    }
  }

  lemma FramesMarker(s: State, c: Config, s': State)
    requires Frames(s, c) && ShutdownStep(s, PutMarker, s')
    ensures Frames(s', c)
  {
    hide Life, Distinct;
    QueueAppend(s.channel.queue, DrainMarker);
    AppendDistinct(s.channel.queue, DrainMarker);
    assert ViewOf(s') == ViewOf(s);
  }

  lemma FramesShutdown(s: State, c: Config, step: Step, s': State)
    requires Frames(s, c) && ShutdownStep(s, step, s')
    ensures Frames(s', c)
  {
    hide Frames;
    if step.PutMarker? {
      FramesMarker(s, c, s');
    } else if step.FailOne? {
      FramesRemove(s, c, step.id, s');
    } else {
      FramesQuiet(s, c, s');
    }
  }

  lemma FramesInit(s: State, c: Config)
    requires Init(s, c)
    ensures Frames(s, c) && ScannerOk(s, c)
  {
  }

  lemma FramesNext(s: State, c: Config, step: Step, s': State)
    requires ValidConfig(c) && Own(s) && Frames(s, c) && ScannerOk(s, c) && Next(s, c, step, s')
    ensures Frames(s', c) && ScannerOk(s', c)
  {
    hide Own, Frames, ScannerOk, CallerStep, WriterStep, ScanStep, ShutdownStep, RespondOne;
    if CallerStep(s, step, s') {
      FramesCaller(s, c, step, s');
      CallerKeepsScanner(s, step, s');
    } else if WriterStep(s, step, s') {
      FramesWriter(s, c, step, s');
      WriterKeepsScanner(s, step, s');
    } else if ScanStep(s, c, step, s') {
      FramesScan(s, c, step, s');
    } else if ShutdownStep(s, step, s') {
      FramesShutdown(s, c, step, s');
      ShutdownKeepsScanner(s, step, s');
    } else {
      FramesRespond(s, c, step.id);
      RespondKeepsScanner(s, step.id);
    }
    ScannerSame(s, c, s');
  }

  lemma ScannerSame(s: State, c: Config, s': State)
    requires ScannerOk(s, c)
    ensures s'.scanner == s.scanner ==> ScannerOk(s', c)
  {
  }

  lemma CallerKeepsScanner(s: State, step: Step, s': State)
    requires CallerStep(s, step, s')
    ensures s'.scanner == s.scanner
  {
    hide NextSpec, BatchSpec, RetireSpec;
  }

  lemma WriterKeepsScanner(s: State, step: Step, s': State)
    requires WriterStep(s, step, s')
    ensures s'.scanner == s.scanner
  {
  }

  lemma ShutdownKeepsScanner(s: State, step: Step, s': State)
    requires ShutdownStep(s, step, s')
    ensures s'.scanner == s.scanner
  {
  }

  lemma RespondKeepsScanner(s: State, id: u32)
    ensures RespondOne(s, id).scanner == s.scanner
  {
  }
}
