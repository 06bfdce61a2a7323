/** The UDH reference pool as the object the client keeps: an array of buckets of
    bitmaps and cooldown heaps, updated in place. */
module UdhReferencePool {
  import opened Wrappers
  import opened UdhBitmap
  import opened UdhBuckets
  import opened UdhPool

  datatype BucketState = BucketState(active: Bitmap, cooling: Bitmap, cooldowns: seq<Cooldown>)

  ghost function View(b: BucketState): Bucket {
    Bucket(Members(b.active), Members(b.cooling), b.cooldowns)
  }

  ghost function Views(bs: seq<BucketState>): (p: seq<Bucket>)
    ensures |p| == |bs|
  {
    seq(|bs|, i requires 0 <= i < |bs| => View(bs[i]))
  }

  // ------------------------------------------------------------ cooldown heap

  predicate Before(e: Cooldown, f: Cooldown) {
    e.0 < f.0 || (e.0 == f.0 && e.1 <= f.1)
  }

  /** The entry a heap would pop: the earliest deadline. */
  method Peek(h: seq<Cooldown>) returns (k: nat)
    requires h != []
    ensures k < |h| && forall j | 0 <= j < |h| :: Before(h[k], h[j])
  {
    k := 0;
    for i := 1 to |h|
      invariant k < i && forall j | 0 <= j < i :: Before(h[k], h[j])
    {
      if !Before(h[k], h[i]) { k := i; }
    }
  }

  lemma UnexpiredWithout(h: seq<Cooldown>, k: nat, now: nat)
    requires k < |h| && h[k].0 <= now
    ensures Unexpired(h[..k] + h[k + 1..], now) == Unexpired(h, now)
  {
    var a, b := h[..k], h[k + 1..];
    UnexpiredSplit(a, b, now);
    UnexpiredSplit([h[k]], b, now);
    UnexpiredSplit(a, [h[k]] + b, now);
    assert h == a + ([h[k]] + b);
    assert Unexpired([h[k]], now) == [];
  }

  lemma ExpiredWithout(h: seq<Cooldown>, k: nat, now: nat)
    requires k < |h| && h[k].0 <= now
    ensures ExpiredReferences(h, now) == ExpiredReferences(h[..k] + h[k + 1..], now) + {h[k].1}
  {
    var g := h[..k] + h[k + 1..];
    assert forall e :: e in h <==> e in g || e == h[k];
    forall r
      ensures r in ExpiredReferences(h, now) <==> r in ExpiredReferences(g, now) + {h[k].1}
    {
      if r in ExpiredReferences(h, now) && r != h[k].1 {
        var e :| e in h && e.0 <= now && e.1 == r;
        assert e in g;
      }
    }
  }

  lemma {:induction false} AllUnexpired(h: seq<Cooldown>, now: nat)
    requires forall e | e in h :: e.0 > now
    ensures Unexpired(h, now) == h && ExpiredReferences(h, now) == {}
  {
    if h != [] {
      AllUnexpired(h[1..], now);
      assert h == [h[0]] + h[1..];
    }
  }

  method Purge(b: BucketState, now: nat) returns (p: BucketState)
    ensures View(p) == Purged(View(b), now)
  {
    p := b;
    while p.cooldowns != []
      invariant p.active == b.active
      invariant Unexpired(p.cooldowns, now) == Unexpired(b.cooldowns, now)
      invariant Members(p.cooling) - ExpiredReferences(p.cooldowns, now) ==
                Members(b.cooling) - ExpiredReferences(b.cooldowns, now)
      decreases |p.cooldowns|
    {
      var h := p.cooldowns;
      var k := Peek(h);
      if h[k].0 > now { break; }
      UnexpiredWithout(h, k, now);
      ExpiredWithout(h, k, now);
      BitMembers(p.cooling, h[k].1, false);
      p := BucketState(p.active, WithBit(p.cooling, h[k].1, false), h[..k] + h[k + 1..]);
    }
    AllUnexpired(p.cooldowns, now);
  }

  // ---------------------------------------------------------------- lock order

  predicate Ascending(ids: seq<nat>) {
    forall i, j | 0 <= i < j < |ids| :: ids[i] < ids[j]
  }

  predicate InRange(ids: seq<nat>, bound: nat) {
    forall i | 0 <= i < |ids| :: ids[i] < bound
  }

  function Elements(ids: seq<nat>): set<nat> {
    set i | i in ids
  }

  /** The buckets to lock, each once and in ascending order. */
  method SortedIds(ids: seq<nat>) returns (sorted: seq<nat>)
    ensures Ascending(sorted) && Elements(sorted) == Elements(ids)
  {
    sorted := [];
    for i := 0 to |ids|
      invariant Ascending(sorted) && Elements(sorted) == Elements(ids[..i])
    {
      var k := 0;
      while k < |sorted| && sorted[k] < ids[i]
        invariant k <= |sorted| && forall j | 0 <= j < k :: sorted[j] < ids[i]
      {
        k := k + 1;
      }
      assert Elements(ids[..i + 1]) == Elements(ids[..i]) + {ids[i]};
      if k == |sorted| || sorted[k] != ids[i] {
        InsertElement(sorted, k, ids[i]);
        sorted := sorted[..k] + [ids[i]] + sorted[k..];
      }
    }
    assert ids[..|ids|] == ids;
  }

  lemma InsertElement(sorted: seq<nat>, k: nat, id: nat)
    requires Ascending(sorted) && k <= |sorted|
    requires (forall j | 0 <= j < k :: sorted[j] < id) && (k < |sorted| ==> id < sorted[k])
    ensures Ascending(sorted[..k] + [id] + sorted[k..])
    ensures Elements(sorted[..k] + [id] + sorted[k..]) == Elements(sorted) + {id}
  {
    var t := sorted[..k] + [id] + sorted[k..];
    forall x
      ensures x in t <==> x in sorted || x == id
    {
      assert sorted == sorted[..k] + sorted[k..];
    }
  }

  // ---------------------------------------------------------------------- pool

  class UdhReferencePool {
    const buckets: array<BucketState>

    ghost function Pool(): (p: seq<Bucket>)
      reads buckets
      ensures |p| == buckets.Length
    {
      Views(buckets[..])
    }

    constructor (bucketCount: nat)
      ensures fresh(buckets) && Pool() == seq(bucketCount, _ => EMPTY_BUCKET)
    {
      EmptyMembers();
      buckets := new BucketState[bucketCount](_ => BucketState(EMPTY, EMPTY, []));
    }

    /** A purge of every locked bucket. */
    method PurgeAll(ids: seq<nat>, now: nat)
      requires Ascending(ids) && InRange(ids, buckets.Length)
      modifies buckets
      ensures Pool() == PoolAfterAcquire(old(Pool()), Elements(ids), now, None)
    {
      for j := 0 to |ids|
        invariant forall b | 0 <= b < buckets.Length ::
                    View(buckets[b]) ==
                    if b in ids[..j] then Purged(old(View(buckets[b])), now) else old(View(buckets[b]))
      {
        var p := Purge(buckets[ids[j]], now);
        assert ids[..j + 1] == ids[..j] + [ids[j]];
        buckets[ids[j]] := p;
      }
      assert ids[..|ids|] == ids;
    }

    method FreeEverywhere(ids: seq<nat>, reference: u8) returns (free: bool)
      requires InRange(ids, buckets.Length)
      ensures free <==> forall b | b in ids :: !Blocked(Pool()[b], reference)
    {
      free := true;
      for j := 0 to |ids|
        invariant free <==> forall i | 0 <= i < j :: !Blocked(Pool()[ids[i]], reference)
      {
        var bucket := buckets[ids[j]];
        assert Pool()[ids[j]] == View(bucket);
        EitherIsOr(bucket.active, bucket.cooling, reference);
        free := free && !EitherIsSet(bucket.active, bucket.cooling, reference);
      }
    }

    method Activate(ids: seq<nat>, reference: u8)
      requires Ascending(ids) && InRange(ids, buckets.Length)
      modifies buckets
      ensures forall b | 0 <= b < buckets.Length ::
                Pool()[b] == if b in ids then old(Pool()[b]).(active := old(Pool()[b]).active + {reference})
                             else old(Pool()[b])
    {
      for j := 0 to |ids|
        invariant forall b | 0 <= b < buckets.Length ::
                    View(buckets[b]) == var o := old(View(buckets[b]));
                                        if b in ids[..j] then o.(active := o.active + {reference}) else o
      {
        var bucket := buckets[ids[j]];
        BitMembers(bucket.active, reference, true);
        assert ids[..j + 1] == ids[..j] + [ids[j]];
        buckets[ids[j]] := bucket.(active := WithBit(bucket.active, reference, true));
      }
      assert ids[..|ids|] == ids;
    }

    method TryAcquire(bucketIds: seq<nat>, preferred: u8, now: nat) returns (result: Option<u8>)
      requires InRange(bucketIds, buckets.Length)
      modifies buckets
      ensures forall b | b in Elements(bucketIds) :: b < |old(Pool())|
      ensures FirstFree(old(Pool()), Elements(bucketIds), preferred, now, result)
      ensures Pool() == PoolAfterAcquire(old(Pool()), Elements(bucketIds), now, result)
    {
      var ids := SortedIds(bucketIds);
      ghost var before := Pool();
      assert InRange(ids, buckets.Length) by {
        assert forall i | 0 <= i < |ids| :: ids[i] in Elements(bucketIds);
      }
      assert forall b | b in ids :: b in Elements(ids);
      PurgeAll(ids, now);
      ghost var purged := Pool();
      var offset := 0;
      while offset <= 255
        invariant 0 <= offset <= 256 && Pool() == purged
        invariant forall earlier: u8 | earlier < offset ::
                    !FreeIn(before, Elements(ids), Cyclic(preferred, earlier), now)
      {
        var reference := Cyclic(preferred, offset);
        var free := FreeEverywhere(ids, reference);
        assert free <==> FreeIn(before, Elements(ids), reference, now);
        if free {
          Activate(ids, reference);
          assert Pool() == PoolAfterAcquire(before, Elements(ids), now, Some(reference));
          return Some(reference);
        }
        offset := offset + 1;
      }
      forall r: u8
        ensures !FreeIn(before, Elements(ids), r, now)
      {
        CyclicOnto(preferred, r);
      }
      return None;
    }

    /** The critical section of one bucket during a release. */
    method ReleaseInBucket(bucketId: nat, reference: u8, exposed: bool, deadline: Option<nat>)
      requires bucketId < buckets.Length
      modifies buckets
      ensures Pool() == old(Pool())[bucketId := ReleasedBucket(old(Pool())[bucketId], reference, exposed, deadline)]
    {
      var bucket := buckets[bucketId];
      BitMembers(bucket.active, reference, false);
      bucket := bucket.(active := WithBit(bucket.active, reference, false));
      if exposed {
        BitMembers(bucket.cooling, reference, true);
        bucket := bucket.(cooling := WithBit(bucket.cooling, reference, true));
        if deadline.Some? {
          bucket := bucket.(cooldowns := bucket.cooldowns + [(deadline.value, reference)]);
        }
      }
      buckets[bucketId] := bucket;
    }

    method Release(ids: seq<nat>, lease: Lease, now: nat, maxInstant: nat)
      requires Ascending(ids) && InRange(ids, buckets.Length)
      modifies buckets
      ensures forall b | 0 <= b < buckets.Length ::
                Pool()[b] ==
                if b in ids
                then ReleasedBucket(old(Pool()[b]), lease.reference, lease.exposed, DeadlineOf(lease, now, maxInstant))
                else old(Pool()[b])
      ensures forall b | b in ids ::
                && lease.reference !in Pool()[b].active
                && (!lease.exposed ==> Pool()[b].cooling == old(Pool()[b]).cooling)
                && (lease.exposed ==>
                      && lease.reference in Pool()[b].cooling
                      && Pool()[b].cooldowns == old(Pool()[b]).cooldowns +
                           if now + lease.cooldown <= maxInstant then [(now + lease.cooldown, lease.reference)] else [])
    {
      var deadline := DeadlineOf(lease, now, maxInstant);
      ghost var before := Pool();
      for j := 0 to |ids|
        invariant forall b | 0 <= b < buckets.Length ::
                    Pool()[b] ==
                    if b in ids[..j] then ReleasedBucket(before[b], lease.reference, lease.exposed, deadline)
                    else before[b]
      {
        assert ids[..j + 1] == ids[..j] + [ids[j]];
        ReleaseInBucket(ids[j], lease.reference, lease.exposed, deadline);
      }
      assert ids[..|ids|] == ids;
    }
  }
}
