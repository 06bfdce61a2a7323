/** The critical sections that work through a whole batch under one lock, as they
    update the connection in place, against the one-entry-at-a-time machine. */
module SubmitWindow {
  import opened Wrappers
  import opened SequenceRegistry
  import opened SubmitModel
  import EventSpool

  const SUBMIT_DROPPED_BATCH_SIZE: nat := EventSpool.SUBMIT_DROPPED_BATCH_SIZE

  /** A frame on its way to the writer; only SUBMIT frames carry an attempt key. */
  datatype Outbound = Control(packet: seq<u8>) | Submit(packet: seq<u8>, key: Key)

  /** A SUBMIT_RESP as the reader collects it. */
  datatype Resp = Resp(sequenceId: u32, msgId: seq<u8>, result: u8)

  // ------------------------------------------------- folding single entries

  /** Claim a batch frame by frame. */
  function ClaimAll(p: Pending, batch: seq<Outbound>, allowed: bool): Pending {
    if batch == [] then p
    else
      var before := ClaimAll(p, batch[..|batch| - 1], allowed);
      var last := batch[|batch| - 1];
      if last.Submit? then ClaimOne(before, last.key, allowed) else before
  }

  predicate Keeps(p: Pending, frame: Outbound, allowed: bool) {
    frame.Submit? ==> Claimable(p, frame.key, allowed)
  }

  /** The frames a frame-by-frame claim keeps, in order. */
  function Kept(p: Pending, batch: seq<Outbound>, allowed: bool): (kept: seq<Outbound>)
    ensures |kept| <= |batch|
  {
    if batch == [] then []
    else
      var init, last := batch[..|batch| - 1], batch[|batch| - 1];
      Kept(p, init, allowed) + if Keeps(ClaimAll(p, init, allowed), last, allowed) then [last] else []
  }

  function RespondAll(s: State, resps: seq<Resp>): State {
    if resps == [] then s
    else RespondOne(RespondAll(s, resps[..|resps| - 1]), resps[|resps| - 1].sequenceId)
  }

  /** The responses that are taken as answers, in order of arrival. */
  function Taken(s: State, resps: seq<Resp>): (taken: seq<Resp>)
    ensures |taken| <= |resps|
  {
    if resps == [] then []
    else
      var init, last := resps[..|resps| - 1], resps[|resps| - 1];
      Taken(s, init) + if Answers(RespondAll(s, init).pending, last.sequenceId) then [last] else []
  }

  function CompleteAll(s: State, keys: seq<Key>): State {
    if keys == [] then s
    else CompleteOne(CompleteAll(s, keys[..|keys| - 1]), keys[|keys| - 1])
  }

  /** Tear the entries down in the order given. */
  function FailAll(s: State, order: seq<u32>): State {
    if order == [] then s
    else
      var before := FailAll(s, order[..|order| - 1]);
      var id := order[|order| - 1];
      if id in before.pending then FailEntry(before, id) else before
  }

  // ------------------------------------------------ what the folds amount to

  predicate Earlier(batch: seq<Outbound>, key: Key) {
    exists j :: 0 <= j < |batch| && batch[j].Submit? && batch[j].key == key
  }

  /** Claiming a batch leaves each entry as it was, or moves it from Queued to
      Writing when the batch holds its frame. */
  lemma {:induction false} ClaimAllEntries(p: Pending, batch: seq<Outbound>, allowed: bool, id: u32)
    ensures ClaimAll(p, batch, allowed).Keys == p.Keys
    ensures id in p ==>
              ClaimAll(p, batch, allowed)[id] ==
              if allowed && p[id].state.Queued? && Earlier(batch, KeyOf(p, id))
              then p[id].(state := Writing(p[id].state.attempt)) else p[id]
  {
    if batch != [] {
      var init, last := batch[..|batch| - 1], batch[|batch| - 1];
      ClaimAllEntries(p, init, allowed, id);
      if last.Submit? {
        ClaimAllEntries(p, init, allowed, last.key.sequenceId);
      }
      if id in p {
        assert Earlier(batch, KeyOf(p, id)) <==>
               Earlier(init, KeyOf(p, id)) || (last.Submit? && last.key == KeyOf(p, id)) by {
          EarlierSnoc(init, last, KeyOf(p, id));
          assert batch == init + [last];
        }
      }
    }
  }

  lemma EarlierSnoc(init: seq<Outbound>, last: Outbound, key: Key)
    ensures Earlier(init + [last], key) <==> Earlier(init, key) || (last.Submit? && last.key == key)
  {
    if last.Submit? && last.key == key {
      assert (init + [last])[|init|] == last;
    }
    if Earlier(init, key) {
      var j :| 0 <= j < |init| && init[j].Submit? && init[j].key == key;
      assert (init + [last])[j] == init[j];
    }
  }

  /** Judged against the map before the batch: a SUBMIT frame survives exactly
      when its attempt is queued, sending is allowed, and no earlier frame of the
      batch carries the same key; every other frame survives. */
  lemma KeptExactly(p: Pending, batch: seq<Outbound>, allowed: bool, i: nat)
    requires i < |batch|
    ensures Keeps(ClaimAll(p, batch[..i], allowed), batch[i], allowed) <==>
              (batch[i].Submit? ==> Claimable(p, batch[i].key, allowed) && !Earlier(batch[..i], batch[i].key))
  {
    if batch[i].Submit? {
      var key := batch[i].key;
      ClaimAllEntries(p, batch[..i], allowed, key.sequenceId);
    }
  }

  ghost predicate Named(resps: seq<Resp>, id: u32) {
    exists r :: r in resps && r.sequenceId == id
  }

  lemma NamedSnoc(init: seq<Resp>, last: Resp, id: u32)
    ensures Named(init + [last], id) <==> Named(init, id) || last.sequenceId == id
  {
    assert last in init + [last];
    assert forall r :: r in init ==> r in init + [last];
  }

  /** A batch of responses decides exactly the submits it names that had no answer: each
      leaves the map, or remembers the answer while its frame is being written. Every
      other entry stays as it is. */
  lemma {:induction false} EachAnswered(s: State, resps: seq<Resp>, id: u32)
    ensures var t := RespondAll(s, resps);
            if id in s.pending && !s.pending[id].state.RespondedWhileWriting? && Named(resps, id) then
              && Responded(id) in t.log.decisions
              && if s.pending[id].state.Writing?
                 then id in t.pending && t.pending[id].state == RespondedWhileWriting(s.pending[id].state.attempt)
                 else id !in t.pending
            else
              (id in t.pending <==> id in s.pending) && (id in s.pending ==> t.pending[id] == s.pending[id])
    ensures s.log.decisions <= RespondAll(s, resps).log.decisions
  {
    if resps != [] {
      var init, last := resps[..|resps| - 1], resps[|resps| - 1];
      assert resps == init + [last];
      EachAnswered(s, init, id);
      NamedSnoc(init, last, id);
      hide Named;
      OneAnswered(RespondAll(s, init), last.sequenceId, id);
    }
  }

  lemma OneAnswered(s: State, other: u32, id: u32)
    ensures var t := RespondOne(s, other);
            && s.log.decisions <= t.log.decisions
            && (id in t.pending ==> id in s.pending)
            && (id == other && id in s.pending && !s.pending[id].state.RespondedWhileWriting? ==>
                  && Responded(id) in t.log.decisions
                  && if s.pending[id].state.Writing?
                     then id in t.pending && t.pending[id].state == RespondedWhileWriting(s.pending[id].state.attempt)
                     else id !in t.pending)
            && (id in s.pending && (id != other || s.pending[id].state.RespondedWhileWriting?) ==>
                  id in t.pending && t.pending[id] == s.pending[id])
  {
  }

  /** A batch answers each submit at most once, whatever duplicates it holds, and
      the decisions it adds are its taken responses in order. */
  lemma {:induction false} TakenOnce(s: State, resps: seq<Resp>)
    ensures forall i, j | 0 <= i < j < |Taken(s, resps)| ::
              Taken(s, resps)[i].sequenceId != Taken(s, resps)[j].sequenceId
    ensures forall r | r in Taken(s, resps) :: !Answers(RespondAll(s, resps).pending, r.sequenceId)
    ensures RespondAll(s, resps).log.decisions ==
            s.log.decisions + seq(|Taken(s, resps)|, i requires 0 <= i < |Taken(s, resps)| =>
                                    Responded(Taken(s, resps)[i].sequenceId))
  {
    if resps != [] {
      var init, last := resps[..|resps| - 1], resps[|resps| - 1];
      TakenOnce(s, init);
      var t := RespondAll(s, init);
      hide RespondOne, Answers;
      RespondOnceMore(t, last.sequenceId);
      assert Taken(s, resps) == Taken(s, init) + if Answers(t.pending, last.sequenceId) then [last] else [];
    }
  }

  lemma RespondOnceMore(s: State, id: u32)
    ensures !Answers(RespondOne(s, id).pending, id)
    ensures forall x: u32 :: !Answers(s.pending, x) ==> !Answers(RespondOne(s, id).pending, x)
    ensures RespondOne(s, id).log.decisions ==
            s.log.decisions + if Answers(s.pending, id) then [Responded(id)] else []
  {
  }

  // ------------------------------------------------------------ the scan list

  /** An expired attempt and when it was written. */
  datatype Due = Due(writtenAt: nat, key: Key)

  predicate Precedes(d: Due, e: Due) {
    Older(d.writtenAt, d.key.sequenceId, e.writtenAt, e.key.sequenceId)
  }

  ghost predicate InOrder(dues: seq<Due>) {
    forall i, j | 0 <= i < j < |dues| :: Precedes(dues[i], dues[j])
  }

  ghost predicate IsDue(p: Pending, now: nat, timeout: nat, d: Due) {
    && d.key.sequenceId in p
    && p[d.key.sequenceId] == Entry(d.key.submissionId, AwaitingResponse(d.key.attempt, d.writtenAt),
                                    p[d.key.sequenceId].manual)
    && d.writtenAt + timeout <= now
  }

  method InsertDue(dues: seq<Due>, d: Due) returns (more: seq<Due>)
    requires InOrder(dues) && forall e | e in dues :: e.key.sequenceId != d.key.sequenceId
    ensures InOrder(more) && forall e :: e in more <==> e in dues || e == d
  {
    var i := 0;
    while i < |dues| && Precedes(dues[i], d)
      invariant i <= |dues| && forall j | 0 <= j < i :: Precedes(dues[j], d)
    {
      i := i + 1;
    }
    more := dues[..i] + [d] + dues[i..];
    assert dues == dues[..i] + dues[i..];
    if i < |dues| {
      LatePart(dues, d, i);
    }
  }

  /** The new due stands before all that follow the first it precedes. */
  lemma LatePart(dues: seq<Due>, d: Due, i: nat)
    requires InOrder(dues) && i < |dues| && !Precedes(dues[i], d) && dues[i].key.sequenceId != d.key.sequenceId
    ensures forall j | i <= j < |dues| :: Precedes(d, dues[j])
  {
  }

  function KeysOfDues(dues: seq<Due>): (keys: seq<Key>)
    ensures |keys| == |dues|
  {
    seq(|dues|, i requires 0 <= i < |dues| => dues[i].key)
  }

  /** The first `count` of the dues in order are what a scan may take. */
  lemma OldestFirst(s: State, c: Config, dues: seq<Due>, count: nat)
    requires InOrder(dues) && count <= |dues| && count <= RetryBatchSize(c)
    requires count < |dues| ==> count == RetryBatchSize(c)
    requires forall d :: d in dues <==> IsDue(s.pending, s.now, c.responseTimeout, d)
    ensures IsScanList(s, c, KeysOfDues(dues[..count]))
  {
    var list := KeysOfDues(dues[..count]);
    forall k | k in list
      ensures Expired(s, c, k.sequenceId) && k == KeyOf(s.pending, k.sequenceId)
    {
      var i :| 0 <= i < |list| && list[i] == k;
      assert dues[i] in dues;
    }
    forall i, j | 0 <= i < j < |list|
      ensures list[i].sequenceId != list[j].sequenceId
    {
      DuesDiffer(s, c, dues, i, j);
    }
    forall id | Expired(s, c, id) && KeyOf(s.pending, id) !in list
      ensures |list| == RetryBatchSize(c)
      ensures forall k | k in list ::
                Older(s.pending[k.sequenceId].state.writtenAt, k.sequenceId, s.pending[id].state.writtenAt, id)
    {
      LaterDue(s, c, dues, count, id);
    }
  }

  lemma DuesDiffer(s: State, c: Config, dues: seq<Due>, i: nat, j: nat)
    requires InOrder(dues) && i < j < |dues|
    requires forall d :: d in dues <==> IsDue(s.pending, s.now, c.responseTimeout, d)
    ensures dues[i].key.sequenceId != dues[j].key.sequenceId
  {
    assert dues[i] in dues && dues[j] in dues && Precedes(dues[i], dues[j]);
  }

  lemma NotTaken(dues: seq<Due>, count: nat, j: nat, key: Key)
    requires count <= |dues| && j < |dues| && dues[j].key == key && key !in KeysOfDues(dues[..count])
    ensures count <= j
  {
    var keys := KeysOfDues(dues[..count]);
    assert forall i | 0 <= i < count :: keys[i] == dues[i].key && keys[i] in keys;
  }

  lemma LaterDue(s: State, c: Config, dues: seq<Due>, count: nat, id: u32)
    requires InOrder(dues) && count <= |dues| && (count < |dues| ==> count == RetryBatchSize(c))
    requires forall d :: d in dues <==> IsDue(s.pending, s.now, c.responseTimeout, d)
    requires Expired(s, c, id) && KeyOf(s.pending, id) !in KeysOfDues(dues[..count])
    ensures count == RetryBatchSize(c)
    ensures forall k | k in KeysOfDues(dues[..count]) ::
              k.sequenceId in s.pending && s.pending[k.sequenceId].state.AwaitingResponse?
              && Older(s.pending[k.sequenceId].state.writtenAt, k.sequenceId, s.pending[id].state.writtenAt, id)
  {
    var d := Due(s.pending[id].state.writtenAt, KeyOf(s.pending, id));
    assert IsDue(s.pending, s.now, c.responseTimeout, d);
    var j :| 0 <= j < |dues| && dues[j] == d;
    NotTaken(dues, count, j, d.key);
    forall k | k in KeysOfDues(dues[..count])
      ensures k.sequenceId in s.pending && s.pending[k.sequenceId].state.AwaitingResponse?
      ensures Older(s.pending[k.sequenceId].state.writtenAt, k.sequenceId, s.pending[id].state.writtenAt, id)
    {
      var i :| 0 <= i < count && KeysOfDues(dues[..count])[i] == k;
      assert dues[i] in dues && Precedes(dues[i], dues[j]);
    }
  }

  // ------------------------------------------- single sections, field by field

  /** Everything but the pending map, the queue, the scanner and the counters that
      `s'` states itself is as in `s`. */
  ghost predicate SameElsewhere(s: State, s': State) {
    s'.writer == s.writer && s'.shutdown == s.shutdown && s'.now == s.now
  }

  lemma RetryIsStep(s: State, s': State, c: Config)
    requires s.scanner.list != [] && s.scanner.slot && SameElsewhere(s, s')
    requires s'.registry == s.registry && s'.callers == s.callers && s'.log == s.log
    requires s'.scanner == Scanner(s.scanner.list[1..], false)
    requires var key := s.scanner.list[0];
             if s.shutdown.phase == Open && StillExpired(s.pending, key) then
               && s'.pending == SetAttempt(s.pending, key.sequenceId, Queued(key.attempt + 1))
               && s'.channel == Channel(s.channel.queue + [Frame(key.(attempt := key.attempt + 1))], s.channel.slots)
             else
               s'.pending == s.pending && s'.channel == Channel(s.channel.queue, s.channel.slots + 1)
    ensures ScanStep(s, c, ScanRetry, s')
  {
  }

  lemma TimeoutIsStep(s: State, s': State, c: Config, accepted: bool, retired: bool)
    requires s.scanner.list != [] && !s.scanner.slot && s.scanner.list[0].attempt >= c.retryCount
    requires SameElsewhere(s, s')
    requires s'.scanner == Scanner(s.scanner.list[1..], false) && s'.channel == s.channel
    requires var key := s.scanner.list[0];
             if StillExpired(s.pending, key) && accepted then
               && s'.pending == s.pending - {key.sequenceId}
               && s'.callers == s.callers.(free := s.callers.free + 1)
               && s'.log == s.log.(decisions := s.log.decisions + [TimedOut(key.sequenceId, key.attempt)])
               && RetireSpec(s.registry, s'.registry, key.sequenceId, retired)
             else
               s'.pending == s.pending && s'.callers == s.callers && s'.log == s.log && s'.registry == s.registry
    ensures ScanStep(s, c, ScanTimeout(accepted, retired), s')
  {
    hide RetireSpec;
  }

  lemma AdmitIsStep(s: State, s': State, id: u32, ok: bool)
    requires id in s.callers.ready && s.shutdown.phase == Open && SameElsewhere(s, s') && s'.scanner == s.scanner
    requires if s.callers.ready[id].manual then RetireSpec(s.registry, s'.registry, id, ok)
             else ok && s'.registry == s.registry
    requires var t := s.callers.ready[id];
             if ok then
               && s'.pending == s.pending[id := Entry(t.submissionId, Queued(1), t.manual)]
               && s'.callers == s.callers.(ready := s.callers.ready - {id})
               && s'.channel == Channel(s.channel.queue + [Frame(Key(id, t.submissionId, 1))], s.channel.slots)
               && s'.log == s.log.(admitted := s.log.admitted[id := t.submissionId])
             else
               && s'.pending == s.pending && s'.log == s.log
               && s'.callers == s.callers.(ready := s.callers.ready - {id}, free := s.callers.free + 1)
               && s'.channel == Channel(s.channel.queue, s.channel.slots + 1)
    ensures CallerStep(s, SubmitModel.Step.Admit(id, ok), s')
  {
    hide RetireSpec;
  }

  // -------------------------------------------------------- the shared object

  /** The part of a connection that the SUBMIT sections update. Dropping a pending
      entry returns its permit and drops its lease. */
  class Connection {
    const sequences: SequenceState
    var pending: Pending
    var free: nat
    var phase: Phase
    var drain: bool
    var started: bool
    var now: nat
    var queue: seq<Item>
    var slots: nat
    var expired: seq<Key>
    var slotHeld: bool
    ghost var ready: map<u32, Ticket>
    ghost var admitted: map<u32, nat>
    ghost var decisions: seq<Decision>

    /** The machine state this object stands for, the untouched parts left empty. */
    ghost function View(): State
      reads this, sequences
    {
      State(sequences.View(), pending,
            Callers(free, 0, map[], ready, {}, {}, 0), Channel(queue, slots), Writer(Composing, [], [], false),
            Shutdown(phase, drain, started, false, false), Scanner(expired, slotHeld),
            Log(admitted, decisions, []), now)
    }

    constructor (windowSize: nat)
      ensures fresh(sequences)
      ensures pending == map[] && free == windowSize && phase == Open && !drain && !started && decisions == []
      ensures sequences.View() == NewRegistry(2)
      ensures queue == [] && slots == SEND_CHANNEL_CAPACITY && expired == [] && !slotHeld
    {
      sequences := new SequenceState(2);
      pending := map[];
      free := windowSize;
      phase, drain, started := Open, false, false;
      now := 0;
      queue, slots, expired, slotHeld := [], SEND_CHANNEL_CAPACITY, [], false;
      ready, admitted := map[], map[];
      decisions := [];
    }

    method Remove(id: u32)
      requires id in pending
      modifies this`pending, this`free, sequences
      ensures View() == RemoveEntry(old(View()), id)
    {
      var manual := pending[id].manual;
      pending := pending - {id};
      free := free + 1;
      if !manual {
        sequences.Release(id);
      }
    }

    /** A caller that gives up drops its permit, its lease and its queue slot. */
    method DropReady(id: u32)
      requires id in ready
      modifies this`free, this`slots, this`ready, sequences
      ensures CallerStep(old(View()), AbortReady(id), View())
    {
      ready := ready - {id};
      sequences.Release(id);
      free, slots := free + 1, slots + 1;
    }

    /** The end of a send: a caller that holds a permit, a lease and a queue slot
        enters the map and the queue, or loses all three. */
    method Admit(id: u32, ticket: Ticket) returns (ok: bool)
      requires Valid(sequences.View()) && id in ready && ready[id] == ticket
      modifies this`pending, this`free, this`queue, this`slots, this`ready, this`admitted, sequences
      ensures old(phase) == Open ==> CallerStep(old(View()), SubmitModel.Step.Admit(id, ok), View())
      ensures old(phase) != Open ==> !ok && CallerStep(old(View()), AbortReady(id), View())
    {
      hide CallerStep, RetireSpec, Valid;
      ghost var before := View();
      if phase != Open {
        DropReady(id);
        return false;
      }
      ready := ready - {id};
      ok := true;
      if ticket.manual {
        ok := sequences.Retire(id);
        if !ok {
          free, slots := free + 1, slots + 1;
          AdmitIsStep(before, View(), id, false);
          return;
        }
      }
      pending := pending[id := Entry(ticket.submissionId, Queued(1), ticket.manual)];
      admitted := admitted[id := ticket.submissionId];
      queue := queue + [Frame(Key(id, ticket.submissionId, 1))];
      AdmitIsStep(before, View(), id, true);
    }

    /** The attempts one scan handles: expired ones, oldest first, cut to the batch. */
    method CollectExpired(c: Config)
      requires expired == [] && !slotHeld
      modifies this`expired
      ensures ScanStep(old(View()), c, ScanStart, View())
    {
      var all: seq<Due> := [];
      var todo := pending.Keys;
      while todo != {}
        invariant todo <= pending.Keys && InOrder(all)
        invariant forall d :: d in all <==> d.key.sequenceId !in todo && IsDue(pending, now, c.responseTimeout, d)
      {
        var id :| id in todo;
        todo := todo - {id};
        match pending[id].state {
          case AwaitingResponse(attempt, writtenAt) =>
            if writtenAt + c.responseTimeout <= now {
              all := InsertDue(all, Due(writtenAt, Key(id, pending[id].submissionId, attempt)));
            }
          case _ =>
        }
      }
      var count := if |all| < RetryBatchSize(c) then |all| else RetryBatchSize(c);
      OldestFirst(View(), c, all, count);
      expired := KeysOfDues(all[..count]);
    }

    /** The last attempt of the next expired submit has had its time. */
    method ExpireFinal(c: Config, accepted: bool) returns (retired: bool)
      requires Valid(sequences.View()) && expired != [] && !slotHeld && expired[0].attempt >= c.retryCount
      modifies this`pending, this`free, this`expired, this`decisions, sequences
      ensures ScanStep(old(View()), c, ScanTimeout(accepted, retired), View())
    {
      hide RetireSpec, ScanStep, Valid;
      ghost var before := View();
      var key := expired[0];
      expired := expired[1..];
      retired := true;
      var stillExpired := key.sequenceId in pending && pending[key.sequenceId].submissionId == key.submissionId
                          && pending[key.sequenceId].state.AwaitingResponse?
                          && pending[key.sequenceId].state.attempt == key.attempt;
      if stillExpired && accepted {
        pending := pending - {key.sequenceId};
        free := free + 1;
        decisions := decisions + [TimedOut(key.sequenceId, key.attempt)];
        retired := sequences.Retire(key.sequenceId);
      }
      TimeoutIsStep(before, View(), c, accepted, retired);
    }

    /** A queue slot for the next retransmission, or none: then it waits for a
        later scan. */
    method TryReserveSlot(c: Config) returns (reserved: bool)
      requires expired != [] && !slotHeld && expired[0].attempt < c.retryCount
      modifies this`expired, this`slots, this`slotHeld
      ensures ScanStep(old(View()), c, if reserved then ScanReserve else ScanSkip, View())
    {
      reserved := slots > 0;
      if reserved {
        slots, slotHeld := slots - 1, true;
      } else {
        expired := expired[1..];
      }
    }

    /** Queue the next attempt, unless the submit was decided or the connection
        left Open meanwhile. */
    method CommitRetry(c: Config) returns (committed: bool)
      requires expired != [] && slotHeld
      modifies this`pending, this`queue, this`slots, this`expired, this`slotHeld
      ensures ScanStep(old(View()), c, ScanRetry, View())
      ensures committed <==> old(phase) == Open && StillExpired(old(pending), old(expired)[0])
    {
      hide ScanStep;
      ghost var before := View();
      var key := expired[0];
      expired, slotHeld := expired[1..], false;
      if key.sequenceId !in pending
         || phase != Open || pending[key.sequenceId].submissionId != key.submissionId
         || !(pending[key.sequenceId].state.AwaitingResponse? && pending[key.sequenceId].state.attempt == key.attempt)
      {
        slots := slots + 1;
        RetryIsStep(before, View(), c);
        return false;
      }
      pending := SetAttempt(pending, key.sequenceId, Queued(key.attempt + 1));
      queue := queue + [Frame(key.(attempt := key.attempt + 1))];
      RetryIsStep(before, View(), c);
      committed := true;
    }

    /** Enter Closing once; a later close without draining cancels the drain. */
    method BeginClosing(drainSubmits: bool) returns (first: bool)
      modifies this`phase, this`drain, this`started
      ensures ShutdownStep(old(View()), SubmitModel.Step.BeginClosing(drainSubmits), View())
      ensures first <==> old(phase) == Open
      ensures first ==> phase == Closing && drain == drainSubmits && started == drainSubmits
      ensures !first ==> phase == old(phase) && started == old(started)
      ensures !first ==> drain == (old(drain) && (drainSubmits || phase == Closed))
    {
      if phase != Open {
        if phase == Closing && !drainSubmits {
          drain := false;
        }
        return false;
      }
      drain := drainSubmits;
      started := drainSubmits;
      phase := Closing;
      return true;
    }

    method TransitionToClosed() returns (first: bool)
      modifies this`phase
      ensures ShutdownStep(old(View()), Close, View()) && (first <==> old(phase) != Closed)
      ensures phase == Closed
    {
      first := phase != Closed;
      phase := Closed;
    }

    /** Claim one frame; frames other than SUBMIT need no claim. */
    method ClaimFrame(frame: Outbound, allowed: bool) returns (claimed: bool)
      modifies this`pending
      ensures claimed <==> Keeps(old(pending), frame, allowed)
      ensures pending == if frame.Submit? then ClaimOne(old(pending), frame.key, allowed) else old(pending)
    {
      if frame.Control? {
        return true;
      }
      var key := frame.key;
      claimed := allowed && key.sequenceId in pending
                 && pending[key.sequenceId].submissionId == key.submissionId
                 && pending[key.sequenceId].state == Queued(key.attempt);
      if claimed {
        pending := SetAttempt(pending, key.sequenceId, Writing(key.attempt));
      }
    }

    /** Claim the SUBMIT attempts of a batch and squeeze out, in place, the frames
        that may not be written; the first `retained` slots hold the rest. */
    method ClaimSubmitAttempts(batch: array<Outbound>) returns (retained: nat)
      modifies this`pending, batch
      ensures retained <= batch.Length
      ensures var allowed := CanSend(old(View()));
              && pending == ClaimAll(old(pending), old(batch[..]), allowed)
              && batch[..retained] == Kept(old(pending), old(batch[..]), allowed)
    {
      var any := false;
      for i := 0 to batch.Length
        invariant !any ==> forall j | 0 <= j < i :: batch[j].Control?
        invariant batch[..] == old(batch[..]) && pending == old(pending)
      {
        if batch[i].Submit? {
          any := true;
        }
      }
      if !any {
        NothingToClaim(pending, batch[..], CanSend(View()));
        return batch.Length;
      }
      var allowed := phase == Open || (phase == Closing && drain);
      retained := 0;
      for read := 0 to batch.Length
        invariant retained <= read
        invariant batch[read..] == old(batch[..])[read..]
        invariant pending == ClaimAll(old(pending), old(batch[..])[..read], allowed)
        invariant batch[..retained] == Kept(old(pending), old(batch[..])[..read], allowed)
      {
        assert old(batch[..])[..read + 1][..read] == old(batch[..])[..read];
        assert batch[read] == old(batch[..])[read];
        var frame := batch[read];
        var claimed := ClaimFrame(frame, allowed);
        if claimed {
          batch[retained] := frame;
          retained := retained + 1;
        }
      }
      assert old(batch[..])[..batch.Length] == old(batch[..]);
    }

    /** Finish the frames of a batch that is on the wire. */
    method CompleteSubmitAttempts(keys: seq<Key>)
      modifies this`pending, this`free, sequences
      ensures View() == CompleteAll(old(View()), keys)
    {
      for i := 0 to |keys|
        invariant View() == CompleteAll(old(View()), keys[..i])
      {
        assert keys[..i + 1][..i] == keys[..i];
        var key := keys[i];
        if key.sequenceId in pending && pending[key.sequenceId].submissionId == key.submissionId {
          var state := pending[key.sequenceId].state;
          if state == Writing(key.attempt) {
            pending := SetAttempt(pending, key.sequenceId, AwaitingResponse(key.attempt, now));
          } else if state == RespondedWhileWriting(key.attempt) {
            Remove(key.sequenceId);
          }
        }
      }
      assert keys[..|keys|] == keys;
    }

    /** Match one response; an answer decides its submit. */
    method MatchResponse(sequenceId: u32) returns (handled: bool)
      modifies this`pending, this`free, this`decisions, sequences
      ensures View() == RespondOne(old(View()), sequenceId)
      ensures handled <==> sequenceId in old(pending) && !old(pending)[sequenceId].state.RespondedWhileWriting?
      ensures decisions == old(decisions) + if handled then [Responded(sequenceId)] else []
      ensures !handled ==> pending == old(pending) && free == old(free)
      ensures handled && old(pending)[sequenceId].state.Writing? ==>
                pending == old(pending)[sequenceId := old(pending)[sequenceId].(
                             state := RespondedWhileWriting(old(pending)[sequenceId].state.attempt))]
      ensures handled && !old(pending)[sequenceId].state.Writing? ==>
                pending == old(pending) - {sequenceId} && free == old(free) + 1
    {
      if sequenceId !in pending {
        return false;
      }
      match pending[sequenceId].state {
        case Writing(attempt) =>
          pending := SetAttempt(pending, sequenceId, RespondedWhileWriting(attempt));
        case RespondedWhileWriting(_) =>
          return false;
        case _ =>
          Remove(sequenceId);
      }
      decisions := decisions + [Responded(sequenceId)];
      return true;
    }

    /** Tear one entry down. */
    method Fail(id: u32) returns (answered: bool)
      requires id in pending
      modifies this`pending, this`free, this`decisions, sequences
      ensures View() == FailEntry(old(View()), id)
      ensures answered <==> old(pending[id].state).RespondedWhileWriting?
      ensures pending == old(pending) - {id}
      ensures decisions == old(decisions) + if answered then [] else [Dropped(id)]
    {
      answered := pending[id].state.RespondedWhileWriting?;
      Remove(id);
      if !answered {
        decisions := decisions + [Dropped(id)];
      }
    }

    /** Match a batch of responses and squeeze out, in place, those that answer
        nothing; the first `retained` slots are then published in order. */
    method FlushSubmitResps(resps: array<Resp>) returns (retained: nat)
      modifies this`pending, this`free, this`decisions, sequences, resps
      ensures retained <= resps.Length
      ensures View() == RespondAll(old(View()), old(resps[..]))
      ensures resps[..retained] == Taken(old(View()), old(resps[..]))
      ensures forall r | r in old(resps[..]) && r.sequenceId in old(pending)
                         && !old(pending)[r.sequenceId].state.RespondedWhileWriting? ::
                && Responded(r.sequenceId) in decisions
                && if old(pending)[r.sequenceId].state.Writing?
                   then r.sequenceId in pending && pending[r.sequenceId].state.RespondedWhileWriting?
                   else r.sequenceId !in pending
    {
      retained := 0;
      for read := 0 to resps.Length
        invariant retained <= read
        invariant resps[read..] == old(resps[..])[read..]
        invariant View() == RespondAll(old(View()), old(resps[..])[..read])
        invariant resps[..retained] == Taken(old(View()), old(resps[..])[..read])
      {
        assert old(resps[..])[..read + 1][..read] == old(resps[..])[..read];
        assert resps[read] == old(resps[..])[read];
        var resp := resps[read];
        var handled := MatchResponse(resp.sequenceId);
        if handled {
          resps[retained] := resp;
          retained := retained + 1;
        }
      }
      assert old(resps[..])[..resps.Length] == old(resps[..]);
      ghost var before, all := old(View()), old(resps[..]);
      forall r | r in all && r.sequenceId in before.pending
                 && !before.pending[r.sequenceId].state.RespondedWhileWriting?
        ensures Responded(r.sequenceId) in decisions
        ensures if before.pending[r.sequenceId].state.Writing?
                then r.sequenceId in pending && pending[r.sequenceId].state.RespondedWhileWriting?
                else r.sequenceId !in pending
      {
        EachAnswered(before, all, r.sequenceId);
        assert Named(all, r.sequenceId);
      }
    }

    /** Empty the pending map at teardown and pack the ids that still lacked a
        decision into batches of at most SUBMIT_DROPPED_BATCH_SIZE. */
    method FailAllPending() returns (batches: seq<seq<u32>>, ghost order: seq<u32>)
      modifies this`pending, this`free, this`decisions, sequences
      ensures pending == map[]
      ensures View() == FailAll(old(View()), order)
      ensures forall id :: id in order <==> id in old(pending)
      ensures forall i, j | 0 <= i < j < |order| :: order[i] != order[j]
      ensures decisions == old(decisions) + DroppedAll(Concat(batches))
      ensures forall b | b in batches :: 1 <= |b| <= SUBMIT_DROPPED_BATCH_SIZE
      ensures |batches| == (|Concat(batches)| + SUBMIT_DROPPED_BATCH_SIZE - 1) / SUBMIT_DROPPED_BATCH_SIZE
      ensures |Concat(batches)| <= |old(pending)|
    {
      hide FailAll, FailEntry, RemoveEntry, OrderedSoFar;
      var dropped: seq<u32> := [];
      order := [];
      TeardownStarts(View());
      while pending != map[]
        invariant View() == FailAll(old(View()), order)
        invariant OrderedSoFar(old(pending), pending, order)
        invariant decisions == old(decisions) + DroppedAll(dropped)
        invariant |dropped| + |pending| <= |old(pending)|
        decreases |pending|
      {
        var id :| id in pending;
        assert (pending - {id}).Keys == pending.Keys - {id};
        label before:
        var answered := Fail(id);
        if !answered {
          dropped := dropped + [id];
        }
        FailAllSnoc(old(View()), order, id);
        OrderedStep(old(pending), old@before(pending), order, id);
        order := order + [id];
      }
      OrderedEnd(old(pending), pending, order);
      batches := Chunks(dropped);
    }
  }

  /** The ids torn down so far: each once, and just those that have left the map. */
  ghost predicate OrderedSoFar(before: Pending, now: Pending, order: seq<u32>) {
    && (forall id :: id in before <==> id in order || id in now)
    && (forall id | id in order :: id !in now)
    && (forall i, j | 0 <= i < j < |order| :: order[i] != order[j])
  }

  lemma TeardownStarts(s: State)
    ensures FailAll(s, []) == s && OrderedSoFar(s.pending, s.pending, [])
  {
  }

  lemma OrderedStep(before: Pending, now: Pending, order: seq<u32>, id: u32)
    requires OrderedSoFar(before, now, order) && id in now
    ensures OrderedSoFar(before, now - {id}, order + [id])
  {
  }

  lemma OrderedEnd(before: Pending, now: Pending, order: seq<u32>)
    requires OrderedSoFar(before, now, order) && now == map[]
    ensures forall id :: id in order <==> id in before
    ensures forall i, j | 0 <= i < j < |order| :: order[i] != order[j]
  {
  }

  lemma FailAllSnoc(s: State, order: seq<u32>, id: u32)
    requires id in FailAll(s, order).pending
    ensures FailAll(s, order + [id]) == FailEntry(FailAll(s, order), id)
  {
    assert (order + [id])[..|order|] == order;
  }

  lemma {:induction false} NothingToClaim(p: Pending, batch: seq<Outbound>, allowed: bool)
    requires forall j | 0 <= j < |batch| :: batch[j].Control?
    ensures ClaimAll(p, batch, allowed) == p && Kept(p, batch, allowed) == batch
  {
    if batch != [] {
      NothingToClaim(p, batch[..|batch| - 1], allowed);
    }
  }

  function DroppedAll(ids: seq<u32>): (ds: seq<Decision>)
    ensures |ds| == |ids|
  {
    seq(|ids|, i requires 0 <= i < |ids| => Dropped(ids[i]))
  }

  function Concat<T>(parts: seq<seq<T>>): seq<T> {
    if parts == [] then [] else parts[0] + Concat(parts[1..])
  }

  function Chunks(ids: seq<u32>): (parts: seq<seq<u32>>)
    ensures Concat(parts) == ids
    ensures forall b | b in parts :: 1 <= |b| <= SUBMIT_DROPPED_BATCH_SIZE
    ensures |parts| == (|ids| + SUBMIT_DROPPED_BATCH_SIZE - 1) / SUBMIT_DROPPED_BATCH_SIZE
  {
    if ids == [] then []
    else if |ids| <= SUBMIT_DROPPED_BATCH_SIZE then [ids]
    else [ids[..SUBMIT_DROPPED_BATCH_SIZE]] + Chunks(ids[SUBMIT_DROPPED_BATCH_SIZE..])
  }

  // ------------------------------------ batches are runs of machine steps

  function SubmitFrames(keys: seq<Key>): (frames: seq<Outbound>)
    ensures |frames| == |keys|
  {
    seq(|keys|, i requires 0 <= i < |keys| => Submit([], keys[i]))
  }

  function KeysOf(frames: seq<Outbound>): (keys: seq<Key>)
    requires forall f | f in frames :: f.Submit?
    ensures |keys| == |frames|
  {
    seq(|frames|, i requires 0 <= i < |frames| => frames[i].key)
  }

  lemma {:induction false} KeptAreSubmits(p: Pending, batch: seq<Outbound>, allowed: bool)
    requires forall f | f in batch :: f.Submit?
    ensures forall f | f in Kept(p, batch, allowed) :: f.Submit?
  {
    if batch != [] {
      KeptAreSubmits(p, batch[..|batch| - 1], allowed);
    }
  }

  /** The machine after the first `n` claims of the writer's batch. */
  ghost function AfterClaims(s: State, n: nat): State
    requires n <= |s.writer.batch|
  {
    var frames := SubmitFrames(s.writer.batch[..n]);
    KeptAreSubmits(s.pending, frames, CanSend(s));
    s.(pending := ClaimAll(s.pending, frames, CanSend(s)),
       writer := s.writer.(
         batch := s.writer.batch[n..],
         claimed := s.writer.claimed + KeysOf(Kept(s.pending, frames, CanSend(s)))))
  }

  /** Claiming a whole batch under one lock is the run of its single claims. */
  lemma ClaimIsRun(s: State, c: Config, n: nat)
    requires s.writer.stage == Claiming && n < |s.writer.batch|
    ensures AfterClaims(s, 0) == s
    ensures Next(AfterClaims(s, n), c, ClaimNext, AfterClaims(s, n + 1))
  {
    var keys := s.writer.batch;
    assert SubmitFrames(keys[..n + 1]) == SubmitFrames(keys[..n]) + [Submit([], keys[n])];
    assert SubmitFrames(keys[..n + 1])[..n] == SubmitFrames(keys[..n]);
    assert s.writer.batch[n..][0] == keys[n] && keys[n..][1..] == keys[n + 1..];
    assert WriterStep(AfterClaims(s, n), ClaimNext, AfterClaims(s, n + 1));
  }

  /** So is matching a batch of responses ... */
  lemma RespondIsRun(s: State, c: Config, resps: seq<Resp>, n: nat)
    requires n < |resps|
    ensures RespondAll(s, resps[..0]) == s
    ensures Next(RespondAll(s, resps[..n]), c, Respond(resps[n].sequenceId), RespondAll(s, resps[..n + 1]))
  {
    assert resps[..n + 1][..n] == resps[..n];
  }

  ghost function AfterCompletes(s: State, n: nat): State
    requires n <= |s.writer.claimed|
  {
    CompleteAll(s, s.writer.claimed[..n]).(
      writer := s.writer.(claimed := s.writer.claimed[n..]),
      log := s.log.(writes := s.log.writes + s.writer.claimed[..n]))
  }

  lemma {:induction false} CompleteKeeps(s: State, keys: seq<Key>)
    ensures var t := CompleteAll(s, keys); t.log == s.log && t.writer == s.writer && t.now == s.now
  {
    if keys != [] {
      CompleteKeeps(s, keys[..|keys| - 1]);
    }
  }

  /** ... and completing a written batch. */
  lemma CompleteIsRun(s: State, c: Config, n: nat)
    requires s.writer.stage == Completing && n < |s.writer.claimed|
    ensures AfterCompletes(s, 0) == s
    ensures Next(AfterCompletes(s, n), c, CompleteNext, AfterCompletes(s, n + 1))
  {
    var keys := s.writer.claimed;
    assert keys[..n + 1][..n] == keys[..n];
    CompleteKeeps(s, keys[..n]);
    CompleteKeeps(s, keys[..n + 1]);
    assert keys[n..][0] == keys[n] && keys[n..][1..] == keys[n + 1..];
    assert s.log.writes + keys[..n + 1] == s.log.writes + keys[..n] + [keys[n]];
    assert WriterStep(AfterCompletes(s, n), CompleteNext, AfterCompletes(s, n + 1));
  }

  /** ... and tearing the pending map down. */
  lemma TeardownIsRun(s: State, c: Config, order: seq<u32>, n: nat)
    requires s.shutdown.phase == Closed && n < |order|
    requires forall i, j | 0 <= i < j < |order| :: order[i] != order[j]
    requires forall id | id in order :: id in s.pending
    ensures FailAll(s, order[..0]) == s
    ensures Next(FailAll(s, order[..n]), c, FailOne(order[n]), FailAll(s, order[..n + 1]))
  {
    assert order[..n + 1][..n] == order[..n];
    FailAllLeaves(s, order[..n], order[n]);
  }

  lemma {:induction false} FailAllLeaves(s: State, order: seq<u32>, id: u32)
    requires id !in order
    ensures FailAll(s, order).shutdown == s.shutdown
    ensures id in s.pending ==> id in FailAll(s, order).pending
  {
    if order != [] {
      FailAllLeaves(s, order[..|order| - 1], id);
    }
  }
}
