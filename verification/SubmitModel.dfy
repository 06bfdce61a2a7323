/** The SUBMIT lifecycle of one connection as a state machine.

    Five actors share the pending map: callers, the batching writer, the reader,
    the timeout scanner and teardown.  Every step below is one critical section;
    a section that works through a batch under one lock is split into its
    single-entry steps, so the machine allows at least the interleavings the
    locks allow. */
module SubmitModel {
  import opened Wrappers
  import opened SequenceRegistry

  const SEND_CHANNEL_CAPACITY: nat := 1000
  const MAX_SUBMIT_RETRY_SPREAD_TICKS: nat := 4

  datatype Config = Config(windowSize: nat, retryCount: nat, responseTimeout: nat)

  /** What configuration validation guarantees. */
  ghost predicate ValidConfig(c: Config) {
    1 <= c.windowSize <= 16384 && 1 <= c.retryCount && 1 <= c.responseTimeout
  }

  /** How many expired attempts one scan may handle. */
  function RetryBatchSize(c: Config): (size: nat)
    ensures 4 * size >= c.windowSize && (c.windowSize >= 1 ==> 4 * (size - 1) < c.windowSize)
  {
    (c.windowSize + MAX_SUBMIT_RETRY_SPREAD_TICKS - 1) / MAX_SUBMIT_RETRY_SPREAD_TICKS
  }

  datatype AttemptState =
    | Queued(attempt: nat)
    | Writing(attempt: nat)
    | AwaitingResponse(attempt: nat, writtenAt: nat)
    | RespondedWhileWriting(attempt: nat)

  datatype Entry = Entry(submissionId: nat, state: AttemptState, manual: bool)

  type Pending = map<u32, Entry>

  datatype Key = Key(sequenceId: u32, submissionId: nat, attempt: nat)

  datatype Item = Frame(key: Key) | DrainMarker

  datatype Phase = Open | Closing | Closed

  /** A caller that holds a window permit and a sequence lease. */
  datatype Ticket = Ticket(submissionId: nat, manual: bool)

  /** Callers between taking a window permit and entering the pending map.
      `waiting` hold a permit only, `leased` also a sequence lease, `ready` also a
      queue slot. `held` are manual leases not yet handed to a segment, `others`
      the leases of heartbeats and of CMPP_TERMINATE. */
  datatype Callers = Callers(
    free: nat,
    waiting: nat,
    leased: map<u32, Ticket>,
    ready: map<u32, Ticket>,
    held: set<u32>,
    others: set<u32>,
    nextSubmissionId: nat)

  /** The bounded submit queue; `slots` are the channel's free permits. */
  datatype Channel = Channel(queue: seq<Item>, slots: nat)

  datatype Stage = Composing | Claiming | Sending | Completing | Exited

  /** The writer: frames taken from the queue but not yet claimed, frames claimed
      and being written, and whether a drain marker ended the batch. */
  datatype Writer = Writer(stage: Stage, batch: seq<Key>, claimed: seq<Key>, marker: bool)

  /** `started`: a graceful close began; `acked`: its drain marker was answered. */
  datatype Shutdown = Shutdown(phase: Phase, drain: bool, started: bool, markerSent: bool, acked: bool)

  datatype Scanner = Scanner(list: seq<Key>, slot: bool)

  datatype Decision =
    | Responded(id: u32)
    | TimedOut(id: u32, attempts: nat)
    | Dropped(id: u32)

  /** Histories: every admitted id with its submission id, every terminal
      decision in order, every completely written frame in order. */
  datatype Log = Log(admitted: map<u32, nat>, decisions: seq<Decision>, writes: seq<Key>)

  datatype State = State(
    registry: Registry,
    pending: Pending,
    callers: Callers,
    channel: Channel,
    writer: Writer,
    shutdown: Shutdown,
    scanner: Scanner,
    log: Log,
    now: nat)

  /** Whether the writer may put SUBMIT frames on the wire. */
  predicate CanSend(s: State) {
    s.shutdown.phase == Open || (s.shutdown.phase == Closing && s.shutdown.drain)
  }

  ghost predicate Init(s: State, c: Config) {
    && s.registry == NewRegistry(2)
    && s.pending == map[]
    && s.callers == Callers(c.windowSize, 0, map[], map[], {}, {}, 1)
    && s.channel == Channel([], SEND_CHANNEL_CAPACITY)
    && s.writer == Writer(Composing, [], [], false)
    && s.shutdown == Shutdown(Open, false, false, false, false)
    && s.scanner == Scanner([], false)
    && s.log == Log(map[], [], [])
  }

  datatype Step =
    // callers
    | AcquirePermit
    | ReserveManual(base: u32, count: nat, ids: Option<seq<u32>>)
    | DropHeld(id: u32)
    | LeaseAutomatic(leased: Option<u32>)
    | LeaseHeld(id: u32)
    | ReserveSlot(id: u32)
    | Admit(id: u32, retired: bool)
    | AbortWaiting
    | AbortLeased(id: u32)
    | AbortReady(id: u32)
    | LeaseOther(leased: Option<u32>)
    | DropOther(id: u32)
    // writer
    | PickFrame
    | PickMarker
    | StartClaim
    | ClaimNext
    | StartSend
    | SendDone
    | CompleteNext
    | FinishBatch
    | WriterExit
    // reader
    | Respond(id: u32)
    // timeout scanner
    | ScanStart
    | ScanTimeout(accepted: bool, retired: bool)
    | ScanReserve
    | ScanSkip
    | ScanRetry
    // shutdown
    | BeginClosing(drainSubmits: bool)
    | PutMarker
    | StopDraining
    | Close
    | FailOne(id: u32)
    | Tick

  // ---------------------------------------------------------------- helpers

  /** Dropping a pending entry returns its window permit and drops its lease;
      only an automatic lease still releases its id. */
  function RemoveEntry(s: State, id: u32): State
    requires id in s.pending
  {
    s.(pending := s.pending - {id},
       callers := s.callers.(free := s.callers.free + 1),
       registry := if s.pending[id].manual then s.registry else Released(s.registry, id))
  }

  function SetAttempt(p: Pending, id: u32, st: AttemptState): Pending
    requires id in p
  {
    p[id := p[id].(state := st)]
  }

  function Decide(s: State, d: Decision): State {
    s.(log := s.log.(decisions := s.log.decisions + [d]))
  }

  /** A frame may be claimed only if its attempt is the one queued now. */
  predicate Claimable(p: Pending, key: Key, allowed: bool) {
    && allowed && key.sequenceId in p
    && p[key.sequenceId].submissionId == key.submissionId
    && p[key.sequenceId].state == Queued(key.attempt)
  }

  /** Claim one frame: its entry moves to Writing, or the frame is left out. */
  function ClaimOne(p: Pending, key: Key, allowed: bool): Pending {
    if Claimable(p, key, allowed) then SetAttempt(p, key.sequenceId, Writing(key.attempt)) else p
  }

  predicate Matches(p: Pending, key: Key) {
    key.sequenceId in p && p[key.sequenceId].submissionId == key.submissionId
  }

  /** Whether completing this frame ends an entry that was answered meanwhile. */
  predicate AnsweredEarly(p: Pending, key: Key) {
    Matches(p, key) && p[key.sequenceId].state == RespondedWhileWriting(key.attempt)
  }

  /** Complete one written frame. */
  function CompleteOne(s: State, key: Key): State {
    if AnsweredEarly(s.pending, key) then
      RemoveEntry(s, key.sequenceId)
    else if Matches(s.pending, key) && s.pending[key.sequenceId].state == Writing(key.attempt) then
      s.(pending := SetAttempt(s.pending, key.sequenceId, AwaitingResponse(key.attempt, s.now)))
    else
      s
  }

  /** Whether a response for `id` is taken as that submit's answer. */
  predicate Answers(p: Pending, id: u32) {
    id in p && !p[id].state.RespondedWhileWriting?
  }

  /** Match one SUBMIT_RESP. */
  function RespondOne(s: State, id: u32): State {
    if !Answers(s.pending, id) then
      s
    else if s.pending[id].state.Writing? then
      Decide(s.(pending := SetAttempt(s.pending, id, RespondedWhileWriting(s.pending[id].state.attempt))),
             Responded(id))
    else
      Decide(RemoveEntry(s, id), Responded(id))
  }

  /** Drop one entry at teardown; an entry already answered gets no second decision. */
  function FailEntry(s: State, id: u32): State
    requires id in s.pending
  {
    if s.pending[id].state.RespondedWhileWriting? then RemoveEntry(s, id)
    else Decide(RemoveEntry(s, id), Dropped(id))
  }

  /** The scanner's question, asked again under the lock. */
  predicate StillExpired(p: Pending, key: Key) {
    && Matches(p, key)
    && p[key.sequenceId].state.AwaitingResponse?
    && p[key.sequenceId].state.attempt == key.attempt
  }

  function BeginClosingTo(z: Shutdown, drainSubmits: bool): Shutdown {
    match z.phase
    case Open => z.(phase := Closing, drain := drainSubmits, started := drainSubmits)
    case Closing => if drainSubmits then z else z.(drain := false)
    case Closed => z
  }

  // -------------------------------------------------------------- scan order

  ghost predicate Expired(s: State, c: Config, id: u32) {
    && id in s.pending && s.pending[id].state.AwaitingResponse?
    && s.pending[id].state.writtenAt + c.responseTimeout <= s.now
  }

  /** Oldest first; ids break ties. */
  predicate Older(t1: nat, id1: u32, t2: nat, id2: u32) {
    t1 < t2 || (t1 == t2 && id1 < id2)
  }

  function KeyOf(p: Pending, id: u32): Key
    requires id in p
  {
    Key(id, p[id].submissionId, p[id].state.attempt)
  }

  /** The list one scan works through: the oldest expired attempts, at most one
      retry batch of them. */
  ghost predicate IsScanList(s: State, c: Config, list: seq<Key>) {
    && |list| <= RetryBatchSize(c)
    && (forall i, j | 0 <= i < j < |list| :: list[i].sequenceId != list[j].sequenceId)
    && (forall k | k in list :: Expired(s, c, k.sequenceId) && k == KeyOf(s.pending, k.sequenceId))
    && (forall id | Expired(s, c, id) && KeyOf(s.pending, id) !in list ::
          && |list| == RetryBatchSize(c)
          && forall k | k in list ::
               Older(s.pending[k.sequenceId].state.writtenAt, k.sequenceId,
                     s.pending[id].state.writtenAt, id))
  }

  // ---------------------------------------------------------------- the steps

  ghost predicate CallerStep(s: State, step: Step, s': State) {
    match step
    case AcquirePermit =>
      && s.callers.free > 0
      && s' == s.(callers := s.callers.(free := s.callers.free - 1, waiting := s.callers.waiting + 1))
    case ReserveManual(base, count, ids) =>
      && BatchSpec(s.registry, s'.registry, base, count, ids)
      && s' == s.(registry := s'.registry,
                  callers := s.callers.(held := s.callers.held + ManualIds(ids)))
    case DropHeld(id) =>
      && id in s.callers.held
      && s' == s.(registry := Released(s.registry, id),
                  callers := s.callers.(held := s.callers.held - {id}))
    case LeaseAutomatic(leased) =>
      && s.callers.waiting > 0
      && NextSpec(s.registry, s'.registry, leased)
      && s' == s.(registry := s'.registry, callers := LeasedTo(s.callers, leased))
    case LeaseHeld(id) =>
      && s.callers.waiting > 0 && id in s.callers.held
      && s' == s.(callers := s.callers.(
                    waiting := s.callers.waiting - 1,
                    held := s.callers.held - {id},
                    leased := s.callers.leased[id := Ticket(s.callers.nextSubmissionId, true)],
                    nextSubmissionId := s.callers.nextSubmissionId + 1))
    case ReserveSlot(id) =>
      && id in s.callers.leased && s.channel.slots > 0
      && s' == s.(channel := s.channel.(slots := s.channel.slots - 1),
                  callers := s.callers.(leased := s.callers.leased - {id},
                                        ready := s.callers.ready[id := s.callers.leased[id]]))
    case Admit(id, retired) =>
      && id in s.callers.ready && s.shutdown.phase == Open
      && (if s.callers.ready[id].manual then RetireSpec(s.registry, s'.registry, id, retired)
          else retired && s'.registry == s.registry)
      && s' == (if retired then Admitted(s, id) else Refused(s, id)).(registry := s'.registry)
    case AbortWaiting =>
      && s.callers.waiting > 0
      && s' == s.(callers := s.callers.(waiting := s.callers.waiting - 1, free := s.callers.free + 1))
    case AbortLeased(id) =>
      && id in s.callers.leased
      && s' == s.(registry := Released(s.registry, id),
                  callers := s.callers.(leased := s.callers.leased - {id}, free := s.callers.free + 1))
    case AbortReady(id) =>
      && id in s.callers.ready
      && s' == s.(registry := Released(s.registry, id),
                  channel := s.channel.(slots := s.channel.slots + 1),
                  callers := s.callers.(ready := s.callers.ready - {id}, free := s.callers.free + 1))
    case LeaseOther(leased) =>
      && NextSpec(s.registry, s'.registry, leased)
      && s' == s.(registry := s'.registry,
                  callers := s.callers.(others := s.callers.others + LeasedIds(leased)))
    case DropOther(id) =>
      && id in s.callers.others
      && s' == s.(registry := Released(s.registry, id),
                  callers := s.callers.(others := s.callers.others - {id}))
    case _ => false
  }

  /** A ready caller's submit enters the pending map and its first frame the queue. */
  function Admitted(s: State, id: u32): State
    requires id in s.callers.ready
  {
    var t := s.callers.ready[id];
    s.(pending := s.pending[id := Entry(t.submissionId, Queued(1), t.manual)],
       callers := s.callers.(ready := s.callers.ready - {id}),
       channel := s.channel.(queue := s.channel.queue + [Frame(Key(id, t.submissionId, 1))]),
       log := s.log.(admitted := s.log.admitted[id := t.submissionId]))
  }

  /** A manual id that cannot be retired is given up; its reservation stays. */
  function Refused(s: State, id: u32): State
    requires id in s.callers.ready
  {
    s.(callers := s.callers.(ready := s.callers.ready - {id}, free := s.callers.free + 1),
       channel := s.channel.(slots := s.channel.slots + 1))
  }

  function ManualIds(ids: Option<seq<u32>>): set<u32> {
    if ids.Some? then set x | x in ids.value else {}
  }

  function LeasedIds(id: Option<u32>): set<u32> {
    if id.Some? then {id.value} else {}
  }

  /** A waiting caller gets an automatic lease, or gives its permit back. */
  function LeasedTo(k: Callers, id: Option<u32>): Callers
    requires k.waiting > 0
  {
    match id
    case None => k.(waiting := k.waiting - 1, free := k.free + 1)
    case Some(x) =>
      k.(waiting := k.waiting - 1,
         leased := k.leased[x := Ticket(k.nextSubmissionId, false)],
         nextSubmissionId := k.nextSubmissionId + 1)
  }

  ghost predicate WriterStep(s: State, step: Step, s': State) {
    match step
    case PickFrame =>
      && s.writer.stage == Composing && !s.writer.marker
      && |s.channel.queue| > 0 && s.channel.queue[0].Frame?
      && s' == s.(channel := Channel(s.channel.queue[1..], s.channel.slots + 1),
                  writer := s.writer.(batch := s.writer.batch + [s.channel.queue[0].key]))
    case PickMarker =>
      && s.writer.stage == Composing && !s.writer.marker
      && |s.channel.queue| > 0 && s.channel.queue[0].DrainMarker?
      && s' == s.(channel := Channel(s.channel.queue[1..], s.channel.slots + 1),
                  writer := s.writer.(marker := true))
    case StartClaim =>
      && s.writer.stage == Composing
      && s' == s.(writer := s.writer.(stage := Claiming))
    case ClaimNext =>
      && s.writer.stage == Claiming && |s.writer.batch| > 0
      && var key := s.writer.batch[0];
         s' == s.(pending := ClaimOne(s.pending, key, CanSend(s)),
                  writer := s.writer.(
                    batch := s.writer.batch[1..],
                    claimed := if Claimable(s.pending, key, CanSend(s)) then s.writer.claimed + [key]
                               else s.writer.claimed))
    case StartSend =>
      && s.writer.stage == Claiming && s.writer.batch == []
      && s' == s.(writer := s.writer.(stage := Sending))
    case SendDone =>
      && s.writer.stage == Sending
      && s' == s.(writer := s.writer.(stage := Completing))
    case CompleteNext =>
      && s.writer.stage == Completing && |s.writer.claimed| > 0
      && var key := s.writer.claimed[0];
         s' == CompleteOne(s, key).(
                 writer := s.writer.(claimed := s.writer.claimed[1..]),
                 log := s.log.(writes := s.log.writes + [key]))
    case FinishBatch =>
      && s.writer.stage == Completing && s.writer.claimed == []
      && s' == s.(writer := s.writer.(stage := Composing, marker := false),
                  shutdown := if s.writer.marker then s.shutdown.(drain := false, acked := true) else s.shutdown)
    case WriterExit =>
      && s.shutdown.phase == Closed
      && s' == s.(writer := s.writer.(stage := Exited))
    case _ => false
  }

  ghost predicate ScanStep(s: State, c: Config, step: Step, s': State) {
    match step
    case ScanStart =>
      && s.scanner == Scanner([], false)
      && s' == s.(scanner := Scanner(s'.scanner.list, false))
      && IsScanList(s, c, s'.scanner.list)
    case ScanTimeout(accepted, retired) =>
      && |s.scanner.list| > 0 && !s.scanner.slot && s.scanner.list[0].attempt >= c.retryCount
      && var key := s.scanner.list[0];
         var popped := s.(scanner := Scanner(s.scanner.list[1..], false));
         if StillExpired(s.pending, key) && accepted then
           && s' == Decide(popped.(pending := s.pending - {key.sequenceId},
                                   callers := s.callers.(free := s.callers.free + 1),
                                   registry := s'.registry),
                           TimedOut(key.sequenceId, key.attempt))
           && RetireSpec(s.registry, s'.registry, key.sequenceId, retired)
         else
           s' == popped
    case ScanReserve =>
      && |s.scanner.list| > 0 && !s.scanner.slot && s.scanner.list[0].attempt < c.retryCount
      && s.channel.slots > 0
      && s' == s.(scanner := s.scanner.(slot := true), channel := s.channel.(slots := s.channel.slots - 1))
    case ScanSkip =>
      && |s.scanner.list| > 0 && !s.scanner.slot && s.scanner.list[0].attempt < c.retryCount
      && s.channel.slots == 0
      && s' == s.(scanner := Scanner(s.scanner.list[1..], false))
    case ScanRetry =>
      && |s.scanner.list| > 0 && s.scanner.slot
      && var key := s.scanner.list[0];
         s' == if s.shutdown.phase == Open && StillExpired(s.pending, key) then
                 s.(pending := SetAttempt(s.pending, key.sequenceId, Queued(key.attempt + 1)),
                    channel := s.channel.(queue := s.channel.queue + [Frame(key.(attempt := key.attempt + 1))]),
                    scanner := Scanner(s.scanner.list[1..], false))
               else
                 s.(channel := s.channel.(slots := s.channel.slots + 1),
                    scanner := Scanner(s.scanner.list[1..], false))
    case _ => false
  }

  ghost predicate ShutdownStep(s: State, step: Step, s': State) {
    match step
    case BeginClosing(drainSubmits) =>
      s' == s.(shutdown := BeginClosingTo(s.shutdown, drainSubmits))
    case PutMarker =>
      && s.shutdown.started && !s.shutdown.markerSent && s.channel.slots > 0
      && s' == s.(shutdown := s.shutdown.(markerSent := true),
                  channel := Channel(s.channel.queue + [DrainMarker], s.channel.slots - 1))
    case StopDraining =>
      && s.shutdown.phase != Open
      && s' == s.(shutdown := s.shutdown.(drain := false))
    case Close =>
      s' == s.(shutdown := s.shutdown.(phase := Closed))
    case FailOne(id) =>
      && s.shutdown.phase == Closed && id in s.pending
      && s' == FailEntry(s, id)
    case Tick =>
      && s' == s.(now := s'.now) && s.now < s'.now
    case _ => false
  }

  ghost predicate Next(s: State, c: Config, step: Step, s': State) {
    || CallerStep(s, step, s')
    || WriterStep(s, step, s')
    || (step.Respond? && s' == RespondOne(s, step.id))
    || ScanStep(s, c, step, s')
    || ShutdownStep(s, step, s')
  }

  ghost predicate Run(c: Config, states: seq<State>, steps: seq<Step>) {
    && ValidConfig(c)
    && |states| == |steps| + 1
    && Init(states[0], c)
    && forall i | 0 <= i < |steps| :: Next(states[i], c, steps[i], states[i + 1])
  }
}
