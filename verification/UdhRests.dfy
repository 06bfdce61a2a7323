/** How long a reference rests, over whole runs: from the release of an exposed lease
    for exactly its cooldown, or for ever when that end cannot be represented. */
module UdhRests {
  import opened Wrappers
  import opened UdhBuckets
  import opened UdhPool

  /** Step `k` starts the release of an exposed lease of `r` in bucket `b`. */
  ghost predicate Releases(states: seq<State>, steps: seq<Step>, k: nat, b: nat, r: u8) {
    && k < |steps| && k < |states| && steps[k].StartRelease? && steps[k].id in states[k].leases
    && var l := states[k].leases[steps[k].id]; l.exposed && l.reference == r && b in l.buckets
  }

  /** When the rest that step `k` promises is over. */
  ghost function RestEnd(states: seq<State>, steps: seq<Step>, k: nat, b: nat, r: u8): nat
    requires Releases(states, steps, k, b, r)
  {
    steps[k].now + states[k].leases[steps[k].id].cooldown
  }

  /** At instant `t` that rest is not over. */
  ghost predicate RestsAt(states: seq<State>, steps: seq<Step>, k: nat, b: nat, r: u8, t: nat) {
    && Releases(states, steps, k, b, r)
    && (RestEnd(states, steps, k, b, r) > states[k].maxInstant || t < RestEnd(states, steps, k, b, r))
  }

  /** The quarantine that step `k` adds for the bucket. */
  ghost predicate Promises(states: seq<State>, steps: seq<Step>, k: nat, q: Quarantine) {
    && Releases(states, steps, k, q.bucket, q.reference)
    && var end := RestEnd(states, steps, k, q.bucket, q.reference);
       q.deadline == if end <= states[k].maxInstant then Some(end) else None
  }

  lemma StepPromises(states: seq<State>, steps: seq<Step>, n: nat, q: Quarantine)
    requires n < |steps| && n + 1 < |states| && Next(states[n], steps[n], states[n + 1])
    ensures q in states[n + 1].quarantines <==> q in states[n].quarantines || Promises(states, steps, n, q)
  {
    hide FirstFree, PoolAfterAcquire, ReleasedBucket;
    if steps[n].StartRelease? && Promises(states, steps, n, q) {
      var l := states[n].leases[steps[n].id];
      assert q == Quarantine(q.bucket, l.reference, DeadlineOf(l, steps[n].now, states[n].maxInstant));
    }
  }

  /** The quarantines of a state are the promises of the releases before it. */
  lemma {:induction false} QuarantineHistory(states: seq<State>, steps: seq<Step>, n: nat, q: Quarantine)
    requires Run(states, steps) && n < |states|
    ensures q in states[n].quarantines <==> exists k: nat :: k < n && Promises(states, steps, k, q)
  {
    hide Next, Promises;
    if n > 0 {
      QuarantineHistory(states, steps, n - 1, q);
      StepPromises(states, steps, n - 1, q);
      if k: nat :| k < n && Promises(states, steps, k, q) {
        assert k < n - 1 || k == n - 1;
      }
    }
  }

  lemma RestingIs(states: seq<State>, steps: seq<Step>, n: nat, b: nat, r: u8, t: nat)
    requires Run(states, steps) && n < |states|
    ensures IsResting(states[n], b, r, t) <==> exists k: nat :: k < n && RestsAt(states, steps, k, b, r, t)
  {
    hide Run, Releases, RestEnd;
    if IsResting(states[n], b, r, t) {
      var q :| q in states[n].quarantines && q.bucket == b && q.reference == r && !Over(q, t);
      QuarantineHistory(states, steps, n, q);
      var k: nat :| k < n && Promises(states, steps, k, q);
      assert RestsAt(states, steps, k, b, r, t);
    }
    if k: nat :| k < n && RestsAt(states, steps, k, b, r, t) {
      var end := RestEnd(states, steps, k, b, r);
      var q := Quarantine(b, r, if end <= states[k].maxInstant then Some(end) else None);
      assert Promises(states, steps, k, q);
      QuarantineHistory(states, steps, n, q);
    }
  }

  /** In every reachable state and at every later instant, a purged bucket blocks a
      reference exactly while a lease holds it there, or some earlier release of an
      exposed lease of it is less than its cooldown ago. */
  lemma BlockedByHistory(states: seq<State>, steps: seq<Step>, n: nat, b: nat, r: u8, t: nat)
    requires Run(states, steps) && n < |states| && b < |states[n].pool| && states[n].clock <= t
    ensures Blocked(Purged(states[n].pool[b], t), r) <==>
              IsHeld(states[n], b, r) || exists k: nat :: k < n && RestsAt(states, steps, k, b, r, t)
  {
    hide Run, Inv, Blocked, Purged, IsHeld, IsResting, RestsAt;
    RunInv(states, steps, n);
    BlockedExactly(states[n], t, b, r);
    RestingIs(states, steps, n, b, r, t);
  }

  /** After one release of an exposed lease has left the bucket and without any other,
      the reference is blocked there exactly until release instant plus cooldown, and
      for ever when that instant cannot be represented. */
  lemma RestEndsExactly(states: seq<State>, steps: seq<Step>, i: nat, n: nat, b: nat, t: nat)
    requires Run(states, steps) && i < n < |states| && states[n].clock <= t
    requires steps[i].StartRelease? && steps[i].id in states[i].leases
    requires states[i].leases[steps[i].id].exposed && b in states[i].leases[steps[i].id].buckets
    requires b < |states[n].pool|
    requires !IsHeld(states[n], b, states[i].leases[steps[i].id].reference)
    requires forall k: nat | k < n && Releases(states, steps, k, b, states[i].leases[steps[i].id].reference) :: k == i
    ensures var l := states[i].leases[steps[i].id];
            var end := steps[i].now + l.cooldown;
            Blocked(Purged(states[n].pool[b], t), l.reference) <==> end > states[i].maxInstant || t < end
  {
    assert i < |steps|;
    hide Run, Blocked, Purged, IsHeld;
    var r := states[i].leases[steps[i].id].reference;
    BlockedByHistory(states, steps, n, b, r, t);
    assert Releases(states, steps, i, b, r);
    var end := steps[i].now + states[i].leases[steps[i].id].cooldown;
    assert RestsAt(states, steps, i, b, r, t) <==> end > states[i].maxInstant || t < end;
    if k: nat :| k < n && RestsAt(states, steps, k, b, r, t) {
      assert Releases(states, steps, k, b, r);
      assert RestsAt(states, steps, i, b, r, t);
    }
  }

  /** A preferred reference that is neither held nor resting in any of the buckets is
      the one that is acquired, at the very instant its last rest is over. */
  lemma ReusedAtOnce(states: seq<State>, steps: seq<Step>, n: nat)
    requires Run(states, steps) && n < |steps| && steps[n].Acquire? && steps[n].now == states[n].clock
    requires forall b | b in steps[n].ids :: !IsHeld(states[n], b, steps[n].preferred)
    requires forall b, k: nat | b in steps[n].ids && k < n ::
               !RestsAt(states, steps, k, b, steps[n].preferred, steps[n].now)
    ensures steps[n].result == Some(steps[n].preferred)
  {
    var s, step := states[n], steps[n];
    assert Next(s, step, states[n + 1]);
    assert forall b | b in step.ids :: b < |s.pool|;
    hide Next, Run, Blocked, Purged, IsHeld, RestsAt;
    forall b | b in step.ids
      ensures !Blocked(Purged(s.pool[b], step.now), step.preferred)
    {
      BlockedByHistory(states, steps, n, b, step.preferred, step.now);
    }
    assert Cyclic(step.preferred, 0) == step.preferred;
    FirstIsPreferred(s.pool, step.ids, step.preferred, step.now, step.result);
  }

  lemma FirstIsPreferred(pool: seq<Bucket>, ids: set<nat>, preferred: u8, now: nat, result: Option<u8>)
    requires forall b | b in ids :: b < |pool|
    requires FirstFree(pool, ids, preferred, now, result) && FreeIn(pool, ids, preferred, now)
    ensures result == Some(preferred)
  {
    hide FreeIn;
    assert Cyclic(preferred, 0) == preferred;
    assert result.Some?;
  }

  // ------------------------------------------------------------ where leases come from

  /** Step `k` acquired this lease: its reference, buckets and cooldown are that step's. */
  ghost predicate AcquiredBy(steps: seq<Step>, k: nat, id: nat, l: Lease) {
    && k < |steps| && steps[k].Acquire? && steps[k].id == id && steps[k].result == Some(l.reference)
    && l.buckets == steps[k].ids && l.cooldown == steps[k].cooldown
  }

  /** One step back in the life of a lease. */
  lemma LeaseBefore(s: State, step: Step, s': State, id: nat)
    requires Next(s, step, s') && id in s'.leases
    ensures || (step.Acquire? && step.id == id && id !in s.leases && !s'.leases[id].exposed
                && AcquiredBy([step], 0, id, s'.leases[id]))
            || (&& id in s.leases && s'.leases[id].reference == s.leases[id].reference
                && s'.leases[id].buckets == s.leases[id].buckets && s'.leases[id].cooldown == s.leases[id].cooldown
                && (s'.leases[id].exposed ==> s.leases[id].exposed || step == MarkExposed(id)))
  {
    hide FirstFree, PoolAfterAcquire, ReleasedBucket, DeadlineOf;
  }

  /** In every run a lease is what some acquisition made it, and it is exposed only if it
      was marked since. */
  lemma {:induction false} LeaseHistory(states: seq<State>, steps: seq<Step>, n: nat, id: nat) returns (k: nat)
    requires Run(states, steps) && n < |states| && id in states[n].leases
    ensures k < n && AcquiredBy(steps, k, id, states[n].leases[id])
    ensures states[n].leases[id].exposed ==> exists m: nat :: k < m < n && steps[m] == MarkExposed(id)
  {
    hide Next;
    assert n > 0;
    LeaseBefore(states[n - 1], steps[n - 1], states[n], id);
    if id in states[n - 1].leases {
      k := LeaseHistory(states, steps, n - 1, id);
      assert states[n].leases[id].exposed && !states[n - 1].leases[id].exposed ==> steps[n - 1] == MarkExposed(id);
    } else {
      k := n - 1;
    }
  }
}
