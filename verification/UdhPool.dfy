/** The UDH reference pool as a state machine. Acquiring takes all its buckets at
    once; releasing visits them one at a time, so other leases may be acquired or
    released while a release is half done. */
module UdhPool {
  import opened Wrappers
  import opened UdhBuckets

  const UDH_REFERENCE_BUCKET_COUNT: nat := 4096

  /** A release in progress: the buckets still to visit, and the deadline of the
      cooldown (none when the instant cannot be represented). */
  datatype Release = Release(remaining: set<nat>, deadline: Option<nat>)

  datatype Lease = Lease(buckets: set<nat>, reference: u8, cooldown: nat, exposed: bool, release: Option<Release>)

  /** A promise that `reference` is not used in `bucket` before `deadline`. */
  datatype Quarantine = Quarantine(bucket: nat, reference: u8, deadline: Option<nat>)

  /** `quarantines` is the history of promises made by releases of exposed leases;
      `maxInstant` is the last instant the clock can represent. */
  datatype State = State(
    pool: seq<Bucket>,
    leases: map<nat, Lease>,
    quarantines: set<Quarantine>,
    clock: nat,
    maxInstant: nat)

  /** `preferred.wrapping_add(offset)` */
  function Cyclic(preferred: u8, offset: u8): u8 {
    (preferred + offset) % 256
  }

  predicate FreeIn(pool: seq<Bucket>, ids: set<nat>, r: u8, now: nat)
    requires forall b | b in ids :: b < |pool|
  {
    forall b | b in ids :: !Blocked(Purged(pool[b], now), r)
  }

  /** The first free reference in cyclic order from the preferred one. */
  ghost predicate FirstFree(pool: seq<Bucket>, ids: set<nat>, preferred: u8, now: nat, result: Option<u8>)
    requires forall b | b in ids :: b < |pool|
  {
    match result
    case None => forall r: u8 :: !FreeIn(pool, ids, r, now)
    case Some(r) =>
      exists offset: u8 ::
        && r == Cyclic(preferred, offset) && FreeIn(pool, ids, r, now)
        && forall earlier: u8 | earlier < offset :: !FreeIn(pool, ids, Cyclic(preferred, earlier), now)
  }

  /** Every bucket of `ids` purged, and `result`, if any, marked active there. */
  function PoolAfterAcquire(pool: seq<Bucket>, ids: set<nat>, now: nat, result: Option<u8>): (p: seq<Bucket>)
    ensures |p| == |pool|
  {
    seq(|pool|, b requires 0 <= b < |pool| =>
      if b !in ids then pool[b]
      else match result
           case None => Purged(pool[b], now)
           case Some(r) => var q := Purged(pool[b], now); q.(active := q.active + {r}))
  }

  function DeadlineOf(l: Lease, now: nat, maxInstant: nat): Option<nat> {
    if l.exposed && now + l.cooldown <= maxInstant then Some(now + l.cooldown) else None
  }

  datatype Step =
    | Acquire(id: nat, ids: set<nat>, preferred: u8, cooldown: nat, now: nat, result: Option<u8>)
    | MarkExposed(id: nat)
    | StartRelease(id: nat, now: nat)
    | ReleaseBucket(id: nat, bucket: nat)
    | EndRelease(id: nat)
    | Tick(clock: nat)

  ghost predicate Init(s: State) {
    && s.pool == seq(UDH_REFERENCE_BUCKET_COUNT, _ => EMPTY_BUCKET)
    && s.leases == map[] && s.quarantines == {}
  }

  /** `now` is read before the locks are taken, so it may lag behind the clock. */
  ghost predicate Next(s: State, step: Step, s': State) {
    match step
    case Acquire(id, ids, preferred, cooldown, now, result) =>
      && id !in s.leases && now <= s.clock
      && (forall b | b in ids :: b < |s.pool|)
      && FirstFree(s.pool, ids, preferred, now, result)
      && s' == s.(pool := PoolAfterAcquire(s.pool, ids, now, result),
                  leases := if result.None? then s.leases
                            else s.leases[id := Lease(ids, result.value, cooldown, false, None)])
    case MarkExposed(id) =>
      && id in s.leases && s.leases[id].release.None?
      && s' == s.(leases := s.leases[id := s.leases[id].(exposed := true)])
    case StartRelease(id, now) =>
      && id in s.leases && s.leases[id].release.None? && now <= s.clock
      && var l := s.leases[id];
         var deadline := DeadlineOf(l, now, s.maxInstant);
         s' == s.(leases := s.leases[id := l.(release := Some(Release(l.buckets, deadline)))],
                  quarantines := s.quarantines +
                    if l.exposed then (set b | b in l.buckets :: Quarantine(b, l.reference, deadline)) else {})
    case ReleaseBucket(id, bucket) =>
      && id in s.leases && s.leases[id].release.Some? && bucket in s.leases[id].release.value.remaining
      && bucket < |s.pool|
      && var l := s.leases[id];
         s' == s.(pool := s.pool[bucket :=
                            ReleasedBucket(s.pool[bucket], l.reference, l.exposed, l.release.value.deadline)],
                  leases := s.leases[id := l.(release := Some(l.release.value.(
                                                remaining := l.release.value.remaining - {bucket})))])
    case EndRelease(id) =>
      && id in s.leases && s.leases[id].release.Some? && s.leases[id].release.value.remaining == {}
      && s' == s.(leases := s.leases - {id})
    case Tick(clock) =>
      && s.clock <= clock && s' == s.(clock := clock)
  }

  // -------------------------------------------------------------- invariants

  /** The lease still occupies its reference in bucket `b`. */
  predicate Holds(l: Lease, b: nat) {
    if l.release.None? then b in l.buckets else b in l.release.value.remaining
  }

  ghost predicate PoolOk(s: State) {
    forall b | 0 <= b < |s.pool| :: BucketOk(s.pool[b])
  }

  ghost predicate HeldIsActive(s: State) {
    forall id, b: nat {:trigger Holds(s.leases[id], b)} | id in s.leases && Holds(s.leases[id], b) ::
      b < |s.pool| && s.leases[id].reference in s.pool[b].active
  }

  ghost predicate ActiveIsHeld(s: State) {
    forall b: nat, r | b < |s.pool| && r in s.pool[b].active ::
      exists id :: id in s.leases && Holds(s.leases[id], b) && s.leases[id].reference == r
  }

  /** No two leases hold the same reference in one bucket. */
  ghost predicate NoneShared(s: State) {
    forall i, j, b: nat {:trigger Holds(s.leases[i], b), Holds(s.leases[j], b)} |
      i in s.leases && j in s.leases && i != j && Holds(s.leases[i], b) && Holds(s.leases[j], b) ::
      s.leases[i].reference != s.leases[j].reference
  }

  /** The active bitmaps are exactly the references held by leases. */
  ghost predicate Held(s: State) {
    HeldIsActive(s) && ActiveIsHeld(s) && NoneShared(s)
  }

  predicate Over(q: Quarantine, clock: nat) {
    q.deadline.Some? && q.deadline.value <= clock
  }

  /** A release that has not reached the bucket yet will put this promise on it. */
  predicate WillCool(l: Lease, q: Quarantine) {
    && l.release.Some? && l.exposed && Holds(l, q.bucket)
    && l.reference == q.reference && l.release.value.deadline == q.deadline
  }

  /** The promise is kept by the releasing lease, or by the cooldown. */
  ghost predicate Kept(s: State, q: Quarantine) {
    && q.bucket < |s.pool|
    && ((exists id :: id in s.leases && WillCool(s.leases[id], q))
        || CoolsUntil(s.pool[q.bucket], q.reference, q.deadline))
  }

  ghost predicate Quarantined(s: State) {
    && (forall q | q in s.quarantines && !Over(q, s.clock) :: Kept(s, q))
    && (forall id, b: nat {:trigger Holds(s.leases[id], b)} | id in s.leases && Holds(s.leases[id], b)
                            && s.leases[id].release.Some? && s.leases[id].exposed ::
          Quarantine(b, s.leases[id].reference, s.leases[id].release.value.deadline) in s.quarantines)
    && (forall b: nat, r, d | b < |s.pool| && CoolsUntil(s.pool[b], r, d) ::
          Quarantine(b, r, d) in s.quarantines)
  }

  ghost predicate Inv(s: State) {
    PoolOk(s) && Held(s) && Quarantined(s)
  }

  // ------------------------------------------------------------------ acquire

  lemma AcquirePool(s: State, step: Step, s': State)
    requires PoolOk(s) && Next(s, step, s') && step.Acquire?
    ensures PoolOk(s')
    ensures forall b: nat, r, d | b < |s.pool| && CoolsUntil(s'.pool[b], r, d) :: CoolsUntil(s.pool[b], r, d)
    ensures forall b: nat, r, d | b < |s.pool| && CoolsUntil(s.pool[b], r, d) && (d.Some? ==> step.now < d.value) ::
              CoolsUntil(s'.pool[b], r, d)
  {
    hide BucketOk, CoolsUntil, FirstFree;
    forall b: nat | b < |s.pool|
      ensures BucketOk(s'.pool[b])
      ensures forall r, d | CoolsUntil(s'.pool[b], r, d) :: CoolsUntil(s.pool[b], r, d)
      ensures forall r, d | CoolsUntil(s.pool[b], r, d) && (d.Some? ==> step.now < d.value) ::
                CoolsUntil(s'.pool[b], r, d)
    {
      if b in step.ids {
        AcquireBucket(s.pool[b], step.now, step.result);
        if step.result.Some? {
          ResultFree(s, step, b);
          AcquiredBucket(s.pool[b], step.now, step.result.value);
        }
      }
    }
  }

  lemma AcquireBucket(b: Bucket, now: nat, result: Option<u8>)
    requires BucketOk(b)
    ensures BucketOk(Purged(b, now))
    ensures forall r, d | CoolsUntil(Purged(b, now), r, d) :: CoolsUntil(b, r, d)
    ensures forall r, d | CoolsUntil(b, r, d) && (d.Some? ==> now < d.value) :: CoolsUntil(Purged(b, now), r, d)
  {
    PurgeKeeps(b, now);
  }

  lemma AcquiredBucket(b: Bucket, now: nat, r: u8)
    requires BucketOk(b) && !Blocked(Purged(b, now), r)
    ensures var q := Purged(b, now); var q' := q.(active := q.active + {r});
            BucketOk(q') && forall x, d :: CoolsUntil(q', x, d) <==> CoolsUntil(q, x, d)
  {
    PurgeKeeps(b, now);
    ActivateKeeps(Purged(b, now), r);
  }

  lemma ResultFree(s: State, step: Step, b: nat)
    requires step.Acquire? && step.result.Some? && b in step.ids && (forall x | x in step.ids :: x < |s.pool|)
    requires FirstFree(s.pool, step.ids, step.preferred, step.now, step.result)
    ensures !Blocked(Purged(s.pool[b], step.now), step.result.value)
  {
  }

  lemma AcquireHeld(s: State, step: Step, s': State)
    requires PoolOk(s) && Held(s) && Next(s, step, s') && step.Acquire?
    ensures Held(s')
  {
    hide BucketOk, FirstFree, PoolOk;
    if step.result.Some? {
      var r, l := step.result.value, Lease(step.ids, step.result.value, step.cooldown, false, None);
      forall b | b in step.ids
        ensures r !in s.pool[b].active
      {
        ResultFree(s, step, b);
      }
      AcquireActive(s, step, s');
      HeldAdd(s, step.id, l, s');
    } else {
      HeldSame(s, s');
    }
  }

  lemma AcquireActive(s: State, step: Step, s': State)
    requires Next(s, step, s') && step.Acquire?
    ensures |s'.pool| == |s.pool|
    ensures forall b: nat | b < |s.pool| ::
              s'.pool[b].active ==
              s.pool[b].active + if b in step.ids && step.result.Some? then {step.result.value} else {}
  {
    hide FirstFree;
  }

  lemma HeldSame(s: State, s': State)
    requires Held(s) && s'.leases == s.leases && |s'.pool| == |s.pool|
    requires forall b: nat | b < |s.pool| :: s'.pool[b].active == s.pool[b].active
    ensures Held(s')
  {
  }

  lemma HeldAdd(s: State, id: nat, l: Lease, s': State)
    requires Held(s) && id !in s.leases && l.release.None? && s'.leases == s.leases[id := l]
    requires |s'.pool| == |s.pool| && forall b | b in l.buckets :: b < |s.pool| && l.reference !in s.pool[b].active
    requires forall b: nat | b < |s.pool| ::
               s'.pool[b].active == s.pool[b].active + if b in l.buckets then {l.reference} else {}
    ensures Held(s')
  {
    forall i, b: nat | i in s'.leases && Holds(s'.leases[i], b)
      ensures b < |s'.pool| && s'.leases[i].reference in s'.pool[b].active
      ensures i != id && b in l.buckets ==> s'.leases[i].reference != l.reference
    {
      if i != id {
        assert i in s.leases && Holds(s.leases[i], b);
      }
    }
    forall b: nat, r | b < |s'.pool| && r in s'.pool[b].active
      ensures exists i :: i in s'.leases && Holds(s'.leases[i], b) && s'.leases[i].reference == r
    {
      if r in s.pool[b].active {
        var i :| i in s.leases && Holds(s.leases[i], b) && s.leases[i].reference == r;
        assert i in s'.leases && Holds(s'.leases[i], b) && s'.leases[i].reference == r;
      } else {
        assert id in s'.leases && Holds(s'.leases[id], b) && s'.leases[id].reference == r;
      }
    }
  }

  lemma AcquireQuarantined(s: State, step: Step, s': State)
    requires PoolOk(s) && Quarantined(s) && Next(s, step, s') && step.Acquire?
    ensures Quarantined(s')
  {
    hide BucketOk, FirstFree, CoolsUntil;
    AcquirePool(s, step, s');
    hide PoolOk;
    assert |s'.pool| == |s.pool| && s'.clock == s.clock && s'.quarantines == s.quarantines;
    forall q | q in s'.quarantines && !Over(q, s'.clock)
      ensures Kept(s', q)
    {
      assert Kept(s, q);
      if id :| id in s.leases && WillCool(s.leases[id], q) {
        assert id in s'.leases && WillCool(s'.leases[id], q);
      }
    }
  }

  // ------------------------------------------------------------------ release

  lemma ReleaseHolds(s: State, step: Step, s': State)
    requires Next(s, step, s') && step.ReleaseBucket?
    ensures s'.leases.Keys == s.leases.Keys && |s'.pool| == |s.pool| && Holds(s.leases[step.id], step.bucket)
    ensures forall i | i in s.leases :: s'.leases[i].reference == s.leases[i].reference
    ensures forall i, b: nat {:trigger Holds(s'.leases[i], b)} | i in s.leases ::
              Holds(s'.leases[i], b) <==> Holds(s.leases[i], b) && !(i == step.id && b == step.bucket)
    ensures forall b: nat | b < |s.pool| :: s'.pool[b].active ==
              if b == step.bucket then s.pool[b].active - {s.leases[step.id].reference} else s.pool[b].active
  {
  }

  lemma ReleaseHeldIsActive(s: State, step: Step, s': State)
    requires HeldIsActive(s) && NoneShared(s) && Next(s, step, s') && step.ReleaseBucket?
    ensures HeldIsActive(s') && NoneShared(s')
  {
    ReleaseHolds(s, step, s');
    hide Holds, Next;
    assert Holds(s.leases[step.id], step.bucket);
    forall i, b: nat | i in s'.leases && Holds(s'.leases[i], b)
      ensures b < |s'.pool| && s'.leases[i].reference in s'.pool[b].active
    {
      assert i in s.leases && Holds(s.leases[i], b);
    }
  }

  lemma ReleaseActiveIsHeld(s: State, step: Step, s': State)
    requires ActiveIsHeld(s) && Next(s, step, s') && step.ReleaseBucket?
    ensures ActiveIsHeld(s')
  {
    ReleaseHolds(s, step, s');
    hide Holds, Next;
    forall b: nat, r | b < |s'.pool| && r in s'.pool[b].active
      ensures exists i :: i in s'.leases && Holds(s'.leases[i], b) && s'.leases[i].reference == r
    {
      assert r in s.pool[b].active;
      var i :| i in s.leases && Holds(s.leases[i], b) && s.leases[i].reference == r;
      assert i in s'.leases && Holds(s'.leases[i], b) && s'.leases[i].reference == r;
    }
  }

  lemma ReleaseHeld(s: State, step: Step, s': State)
    requires Held(s) && Next(s, step, s') && step.ReleaseBucket?
    ensures s.leases[step.id].reference in s.pool[step.bucket].active
    ensures Held(s')
  {
    ReleaseHolds(s, step, s');
    ReleaseHeldIsActive(s, step, s');
    ReleaseActiveIsHeld(s, step, s');
    hide Next, ActiveIsHeld, NoneShared;
  }

  lemma ReleasePool(s: State, step: Step, s': State)
    requires PoolOk(s) && Next(s, step, s') && step.ReleaseBucket?
    requires s.leases[step.id].reference in s.pool[step.bucket].active
    ensures PoolOk(s')
  {
    hide BucketOk;
    var l := s.leases[step.id];
    ReleaseKeeps(s.pool[step.bucket], l.reference, l.exposed, l.release.value.deadline);
  }

  lemma ReleaseQuarantined(s: State, step: Step, s': State)
    requires PoolOk(s) && Quarantined(s) && Next(s, step, s') && step.ReleaseBucket?
    requires s.leases[step.id].reference in s.pool[step.bucket].active
    ensures Quarantined(s')
  {
    hide BucketOk, CoolsUntil;
    var l, b0 := s.leases[step.id], step.bucket;
    ReleaseKeeps(s.pool[b0], l.reference, l.exposed, l.release.value.deadline);
    hide PoolOk;
    ActiveNeverCools(s, b0, l.reference);
    forall q | q in s'.quarantines && !Over(q, s'.clock)
      ensures Kept(s', q)
    {
      assert Kept(s, q);
      if id :| id in s.leases && WillCool(s.leases[id], q) {
        if id != step.id || q.bucket != b0 {
          assert id in s'.leases && WillCool(s'.leases[id], q);
        }
      }
    }
    assert Holds(l, b0);
    forall i, b: nat | i in s'.leases && Holds(s'.leases[i], b) && s'.leases[i].release.Some? && s'.leases[i].exposed
      ensures Quarantine(b, s'.leases[i].reference, s'.leases[i].release.value.deadline) in s'.quarantines
    {
      assert i in s.leases && Holds(s.leases[i], b);
    }
    forall b: nat, r, d | b < |s'.pool| && CoolsUntil(s'.pool[b], r, d)
      ensures Quarantine(b, r, d) in s'.quarantines
    {
    }
  }

  lemma ActiveNeverCools(s: State, b: nat, r: u8)
    requires PoolOk(s) && b < |s.pool| && r in s.pool[b].active
    ensures forall d :: !CoolsUntil(s.pool[b], r, d)
  {
  }

  // -------------------------------------------------------------- other steps

  /** The pool stays and every lease holds what it held. */
  ghost predicate SameHolders(s: State, s': State) {
    && s'.pool == s.pool
    && (forall id | id in s'.leases :: id in s.leases && s'.leases[id].reference == s.leases[id].reference)
    && (forall id, b: nat {:trigger Holds(s'.leases[id], b)} | id in s'.leases && Holds(s'.leases[id], b) ::
          Holds(s.leases[id], b))
    && (forall id, b: nat {:trigger Holds(s.leases[id], b)} | id in s.leases && Holds(s.leases[id], b) ::
          id in s'.leases && Holds(s'.leases[id], b))
  }

  lemma HeldKept(s: State, s': State)
    requires Held(s) && SameHolders(s, s')
    ensures Held(s')
  {
    forall i, b: nat | i in s'.leases && Holds(s'.leases[i], b)
      ensures b < |s'.pool| && s'.leases[i].reference in s'.pool[b].active
    {
      assert i in s.leases && Holds(s.leases[i], b);
    }
    forall b: nat, r | b < |s'.pool| && r in s'.pool[b].active
      ensures exists i :: i in s'.leases && Holds(s'.leases[i], b) && s'.leases[i].reference == r
    {
      var i :| i in s.leases && Holds(s.leases[i], b) && s.leases[i].reference == r;
      assert i in s'.leases && Holds(s'.leases[i], b) && s'.leases[i].reference == r;
    }
  }

  predicate Quiet(step: Step) {
    step.MarkExposed? || step.StartRelease? || step.EndRelease? || step.Tick?
  }

  lemma QuietHolders(s: State, step: Step, s': State)
    requires Next(s, step, s') && Quiet(step)
    ensures SameHolders(s, s')
  {
  }

  lemma KeptByLeases(s: State, s': State, q: Quarantine)
    requires s'.pool == s.pool && Kept(s, q)
    requires forall id | id in s.leases && WillCool(s.leases[id], q) :: id in s'.leases && WillCool(s'.leases[id], q)
    ensures Kept(s', q)
  {
    hide CoolsUntil, WillCool;
    if id :| id in s.leases && WillCool(s.leases[id], q) {
      assert id in s'.leases && WillCool(s'.leases[id], q);
    }
  }

  lemma QuietQuarantined(s: State, step: Step, s': State)
    requires Quarantined(s) && Next(s, step, s') && Quiet(step) && !step.StartRelease?
    ensures Quarantined(s')
  {
    hide CoolsUntil, Kept;
    forall q | q in s'.quarantines && !Over(q, s'.clock)
      ensures Kept(s', q)
    {
      assert !Over(q, s.clock);
      KeptByLeases(s, s', q);
    }
    forall i, b: nat | i in s'.leases && Holds(s'.leases[i], b) && s'.leases[i].release.Some? && s'.leases[i].exposed
      ensures Quarantine(b, s'.leases[i].reference, s'.leases[i].release.value.deadline) in s'.quarantines
    {
      assert i in s.leases && Holds(s.leases[i], b);
    }
  }

  lemma StartQuarantined(s: State, step: Step, s': State)
    requires HeldIsActive(s) && Quarantined(s) && Next(s, step, s') && step.StartRelease?
    ensures Quarantined(s')
  {
    hide CoolsUntil, HeldIsActive;
    var l, l' := s.leases[step.id], s'.leases[step.id];
    forall q | q in s'.quarantines && !Over(q, s'.clock)
      ensures Kept(s', q)
    {
      if q in s.quarantines {
        KeptByLeases(s, s', q);
      } else {
        assert Holds(l, q.bucket);
        HeldBucket(s, step.id, q.bucket);
        assert step.id in s'.leases && WillCool(s'.leases[step.id], q);
      }
    }
    forall i, b: nat | i in s'.leases && Holds(s'.leases[i], b) && s'.leases[i].release.Some? && s'.leases[i].exposed
      ensures Quarantine(b, s'.leases[i].reference, s'.leases[i].release.value.deadline) in s'.quarantines
    {
      if i != step.id {
        assert i in s.leases && Holds(s.leases[i], b);
      }
    }
  }

  lemma HeldBucket(s: State, id: nat, b: nat)
    requires HeldIsActive(s) && id in s.leases && Holds(s.leases[id], b)
    ensures b < |s.pool|
  {
  }

  // --------------------------------------------------------------------- runs

  lemma InvInit(s: State)
    requires Init(s)
    ensures Inv(s)
  {
  }

  lemma InvNext(s: State, step: Step, s': State)
    requires Inv(s) && Next(s, step, s')
    ensures Inv(s')
  {
    hide PoolOk, HeldIsActive, ActiveIsHeld, NoneShared, Quarantined, SameHolders;
    if step.Acquire? {
      AcquirePool(s, step, s');
      AcquireHeld(s, step, s');
      AcquireQuarantined(s, step, s');
    } else if step.ReleaseBucket? {
      ReleaseHeld(s, step, s');
      ReleasePool(s, step, s');
      ReleaseQuarantined(s, step, s');
    } else {
      QuietHolders(s, step, s');
      HeldKept(s, s');
      QuietPool(s, s');
      if step.StartRelease? {
        StartQuarantined(s, step, s');
      } else {
        QuietQuarantined(s, step, s');
      }
    }
  }

  lemma QuietPool(s: State, s': State)
    requires PoolOk(s) && SameHolders(s, s')
    ensures PoolOk(s')
  {
  }

  ghost predicate Run(states: seq<State>, steps: seq<Step>) {
    && |states| == |steps| + 1
    && Init(states[0])
    && forall i | 0 <= i < |steps| :: Next(states[i], steps[i], states[i + 1])
  }

  lemma {:induction false} RunInv(states: seq<State>, steps: seq<Step>, i: nat)
    requires Run(states, steps) && i < |states|
    ensures Inv(states[i])
  {
    hide Inv, Init, Next;
    if i == 0 {
      InvInit(states[0]);
    } else {
      RunInv(states, steps, i - 1);
      InvNext(states[i - 1], steps[i - 1], states[i]);
    }
  }

  // ----------------------------------------------------------------- promises

  /** Two live leases that share a bucket carry different references. */
  lemma LeasesDiffer(states: seq<State>, steps: seq<Step>, k: nat, i: nat, j: nat, b: nat)
    requires Run(states, steps) && k < |states| && i != j
    requires i in states[k].leases && j in states[k].leases
    requires states[k].leases[i].release.None? && states[k].leases[j].release.None?
    requires b in states[k].leases[i].buckets && b in states[k].leases[j].buckets
    ensures states[k].leases[i].reference != states[k].leases[j].reference
  {
    hide Run, PoolOk, HeldIsActive, ActiveIsHeld, Quarantined;
    RunInv(states, steps, k);
    assert Holds(states[k].leases[i], b) && Holds(states[k].leases[j], b);
  }

  /** A reference under an unfinished quarantine is blocked, whether its release
      has reached the bucket yet or not. */
  lemma QuarantineBlocks(s: State, q: Quarantine, now: nat)
    requires Inv(s) && q in s.quarantines && !Over(q, s.clock) && now <= s.clock
    ensures q.bucket < |s.pool| && Blocked(Purged(s.pool[q.bucket], now), q.reference)
  {
    hide ActiveIsHeld, NoneShared, BucketOk;
    assert Kept(s, q);
    if id :| id in s.leases && WillCool(s.leases[id], q) {
      assert Holds(s.leases[id], q.bucket);
    } else {
      PurgeKeeps(s.pool[q.bucket], now);
      assert CoolsUntil(Purged(s.pool[q.bucket], now), q.reference, q.deadline);
    }
  }

  lemma {:induction false} QuarantinesGrow(states: seq<State>, steps: seq<Step>, i: nat, j: nat)
    requires Run(states, steps) && i <= j < |states|
    ensures states[i].quarantines <= states[j].quarantines
    decreases j - i
  {
    hide Init;
    if i < j {
      QuarantinesGrow(states, steps, i, j - 1);
      assert Next(states[j - 1], steps[j - 1], states[j]);
    }
  }

  /** The reference of an exposed lease is not acquired again in any of its buckets
      before its deadline, from the moment its release starts. */
  lemma RestsUntilDeadline(states: seq<State>, steps: seq<Step>, i: nat, j: nat, b: nat)
    requires Run(states, steps) && i < j < |steps|
    requires steps[i].StartRelease? && steps[i].id in states[i].leases
    requires states[i].leases[steps[i].id].exposed && b in states[i].leases[steps[i].id].buckets
    requires steps[j].Acquire? && b in steps[j].ids
    requires steps[j].result == Some(states[i].leases[steps[i].id].reference)
    ensures steps[i].now + states[i].leases[steps[i].id].cooldown <= states[i].maxInstant
    ensures steps[i].now + states[i].leases[steps[i].id].cooldown <= states[j].clock
  {
    var s, l := states[i], states[i].leases[steps[i].id];
    var q := Quarantine(b, l.reference, DeadlineOf(l, steps[i].now, s.maxInstant));
    assert q in states[i + 1].quarantines by {
      assert Next(states[i], steps[i], states[i + 1]);
    }
    assert Next(states[j], steps[j], states[j + 1]);
    QuarantinesGrow(states, steps, i + 1, j);
    RunInv(states, steps, j);
    hide Run, Inv, Quarantined, Held, Kept;
    if !Over(q, states[j].clock) {
      QuarantineBlocks(states[j], q, steps[j].now);
      ResultFree(states[j], steps[j], b);
    }
  }

  /** Some lease still occupies the reference in the bucket. */
  ghost predicate IsHeld(s: State, b: nat, r: u8) {
    exists id :: id in s.leases && Holds(s.leases[id], b) && s.leases[id].reference == r
  }

  /** A release has promised to rest the reference in the bucket beyond `now`. */
  ghost predicate IsResting(s: State, b: nat, r: u8, now: nat) {
    exists q :: q in s.quarantines && q.bucket == b && q.reference == r && !Over(q, now)
  }

  lemma HeldIsBlocked(s: State, b: nat, r: u8, now: nat)
    requires HeldIsActive(s) && IsHeld(s, b, r)
    ensures b < |s.pool| && Blocked(Purged(s.pool[b], now), r)
  {
  }

  lemma RestingIsBlocked(s: State, b: nat, r: u8, now: nat)
    requires Inv(s) && IsResting(s, b, r, now) && s.clock <= now
    ensures b < |s.pool| && Blocked(Purged(s.pool[b], now), r)
  {
    hide ActiveIsHeld, NoneShared, BucketOk;
    var q :| q in s.quarantines && q.bucket == b && q.reference == r && !Over(q, now);
    assert Kept(s, q);
    if id :| id in s.leases && WillCool(s.leases[id], q) {
      assert Holds(s.leases[id], q.bucket);
    } else {
      PurgeKeeps(s.pool[b], now);
      assert CoolsUntil(Purged(s.pool[b], now), r, q.deadline);
    }
  }

  lemma CoolingIsResting(s: State, b: nat, r: u8, now: nat)
    requires Quarantined(s) && b < |s.pool| && r in Purged(s.pool[b], now).cooling
    ensures IsResting(s, b, r, now)
  {
    hide Kept;
    var bucket := s.pool[b];
    if r in HeapReferences(bucket.cooldowns) {
      var e :| e in bucket.cooldowns && e.1 == r;
      assert CoolsUntil(bucket, r, Some(e.0));
      var q := Quarantine(b, r, Some(e.0));
      assert q in s.quarantines;
      assert !Over(q, now) by {
        assert e.0 <= now ==> r in ExpiredReferences(bucket.cooldowns, now);
      }
    } else {
      assert CoolsUntil(bucket, r, None);
      assert Quarantine(b, r, None) in s.quarantines;
    }
  }

  /** Nothing leaks and nothing is lost: from the clock on, a reference is blocked in a
      bucket exactly while a lease holds it there or a promised rest is not over. */
  lemma BlockedExactly(s: State, now: nat, b: nat, r: u8)
    requires Inv(s) && b < |s.pool| && s.clock <= now
    ensures Blocked(Purged(s.pool[b], now), r) <==> IsHeld(s, b, r) || IsResting(s, b, r, now)
  {
    hide HeldIsActive, NoneShared, Kept, PoolOk, IsResting;
    if IsHeld(s, b, r) {
      HeldIsBlocked(s, b, r, now);
    }
    if IsResting(s, b, r, now) {
      RestingIsBlocked(s, b, r, now);
    }
    if r in Purged(s.pool[b], now).cooling {
      CoolingIsResting(s, b, r, now);
    }
  }

  /** Every reference is reached from the preferred one within 256 offsets. */
  lemma CyclicOnto(preferred: u8, r: u8)
    ensures var offset := (r - preferred) % 256; 0 <= offset <= 255 && Cyclic(preferred, offset) == r
  {
  }

  /** The search has one answer; it fails only when all 256 references are blocked
      somewhere. */
  lemma FirstFreeUnique(pool: seq<Bucket>, ids: set<nat>, preferred: u8, now: nat, x: Option<u8>, y: Option<u8>)
    requires forall b | b in ids :: b < |pool|
    requires FirstFree(pool, ids, preferred, now, x) && FirstFree(pool, ids, preferred, now, y)
    ensures x == y
  {
    hide FreeIn, Cyclic;
    if x.Some? && y.Some? {
      var i: u8 :| x.value == Cyclic(preferred, i) && FreeIn(pool, ids, x.value, now)
                   && forall e: u8 | e < i :: !FreeIn(pool, ids, Cyclic(preferred, e), now);
      var j: u8 :| y.value == Cyclic(preferred, j) && FreeIn(pool, ids, y.value, now)
                   && forall e: u8 | e < j :: !FreeIn(pool, ids, Cyclic(preferred, e), now);
      assert !(i < j) && !(j < i);
    }
  }
}
