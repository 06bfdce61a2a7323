/** One bucket of the UDH reference pool, as the sets its bitmaps stand for and
    the entries of its cooldown heap. */
module UdhBuckets {
  import opened Wrappers

  /** Deadline and reference of one cooldown. */
  type Cooldown = (nat, u8)

  datatype Bucket = Bucket(active: set<u8>, cooling: set<u8>, cooldowns: seq<Cooldown>)

  const EMPTY_BUCKET := Bucket({}, {}, [])

  predicate Blocked(b: Bucket, r: u8) {
    r in b.active || r in b.cooling
  }

  function HeapReferences(h: seq<Cooldown>): set<u8> {
    set e | e in h :: e.1
  }

  ghost predicate OneEntryEach(h: seq<Cooldown>) {
    forall i, j | 0 <= i < j < |h| :: h[i].1 != h[j].1
  }

  /** No reference is both leased and cooling, and each cooling reference has one
      heap entry, or none when its deadline could not be represented. */
  ghost predicate BucketOk(b: Bucket) {
    && b.active !! b.cooling
    && HeapReferences(b.cooldowns) <= b.cooling
    && OneEntryEach(b.cooldowns)
  }

  /** `r` is cooling here until `deadline`, for ever when there is none. */
  ghost predicate CoolsUntil(b: Bucket, r: u8, deadline: Option<nat>) {
    && r in b.cooling
    && match deadline
       case Some(d) => (d, r) in b.cooldowns
       case None => r !in HeapReferences(b.cooldowns)
  }

  // -------------------------------------------------------------------- purge

  function Unexpired(h: seq<Cooldown>, now: nat): seq<Cooldown> {
    if h == [] then []
    else (if h[0].0 > now then [h[0]] else []) + Unexpired(h[1..], now)
  }

  lemma {:induction false} UnexpiredMembers(h: seq<Cooldown>, now: nat)
    ensures forall e :: e in Unexpired(h, now) <==> e in h && e.0 > now
  {
    if h != [] {
      UnexpiredMembers(h[1..], now);
      assert forall e :: e in h <==> e == h[0] || e in h[1..];
    }
  }

  function ExpiredReferences(h: seq<Cooldown>, now: nat): set<u8> {
    set e | e in h && e.0 <= now :: e.1
  }

  /** The bucket without the cooldowns that are over at `now`. */
  function Purged(b: Bucket, now: nat): Bucket {
    b.(cooling := b.cooling - ExpiredReferences(b.cooldowns, now),
       cooldowns := Unexpired(b.cooldowns, now))
  }

  lemma {:induction false} UnexpiredSplit(g: seq<Cooldown>, h: seq<Cooldown>, now: nat)
    ensures Unexpired(g + h, now) == Unexpired(g, now) + Unexpired(h, now)
  {
    if g == [] {
      assert g + h == h;
    } else {
      var first := if g[0].0 > now then [g[0]] else [];
      UnexpiredSplit(g[1..], h, now);
      assert (g + h)[1..] == g[1..] + h;
      assert first + (Unexpired(g[1..], now) + Unexpired(h, now)) ==
             (first + Unexpired(g[1..], now)) + Unexpired(h, now);
    }
  }

  lemma {:induction false} UnexpiredDistinct(h: seq<Cooldown>, now: nat)
    requires OneEntryEach(h)
    ensures OneEntryEach(Unexpired(h, now))
  {
    if h != [] {
      UnexpiredDistinct(h[1..], now);
      UnexpiredMembers(h[1..], now);
      forall e | e in Unexpired(h[1..], now)
        ensures e.1 != h[0].1
      {
        var i :| 0 <= i < |h[1..]| && h[1..][i] == e;
        assert h[i + 1] == e;
      }
    }
  }

  lemma SameEntry(h: seq<Cooldown>, d: nat, e: nat, r: u8)
    requires OneEntryEach(h) && (d, r) in h && (e, r) in h
    ensures d == e
  {
    var i :| 0 <= i < |h| && h[i] == (d, r);
    var j :| 0 <= j < |h| && h[j] == (e, r);
    assert i < j || j < i || i == j;
  }

  /** Purging keeps the bucket consistent and ends no cooldown early. */
  lemma PurgeKeeps(b: Bucket, now: nat)
    requires BucketOk(b)
    ensures BucketOk(Purged(b, now))
    ensures forall r, deadline | CoolsUntil(b, r, deadline) && (deadline.Some? ==> now < deadline.value) ::
              CoolsUntil(Purged(b, now), r, deadline)
    ensures forall r, deadline | CoolsUntil(Purged(b, now), r, deadline) :: CoolsUntil(b, r, deadline)
  {
    var p := Purged(b, now);
    UnexpiredDistinct(b.cooldowns, now);
    UnexpiredMembers(b.cooldowns, now);
    forall e, f | e in b.cooldowns && f in b.cooldowns && e.1 == f.1
      ensures e == f
    {
      SameEntry(b.cooldowns, e.0, f.0, e.1);
    }
    forall r | r in HeapReferences(p.cooldowns)
      ensures r in p.cooling
    {
      var e :| e in p.cooldowns && e.1 == r;
      assert e in b.cooldowns && r in HeapReferences(b.cooldowns);
    }
    forall r | r in HeapReferences(b.cooldowns) && r in p.cooling
      ensures r in HeapReferences(p.cooldowns)
    {
      var e :| e in b.cooldowns && e.1 == r;
      assert e in p.cooldowns;
    }
  }

  // ------------------------------------------------------- acquire and release

  lemma ActivateKeeps(b: Bucket, r: u8)
    requires BucketOk(b) && !Blocked(b, r)
    ensures BucketOk(b.(active := b.active + {r}))
  {
  }

  /** What releasing `r` in one bucket does. */
  function ReleasedBucket(b: Bucket, r: u8, exposed: bool, deadline: Option<nat>): Bucket {
    if !exposed then b.(active := b.active - {r})
    else
      Bucket(b.active - {r}, b.cooling + {r},
             match deadline
             case Some(d) => b.cooldowns + [(d, r)]
             case None => b.cooldowns)
  }

  lemma HeapAppend(h: seq<Cooldown>, e: Cooldown)
    ensures HeapReferences(h + [e]) == HeapReferences(h) + {e.1}
    ensures OneEntryEach(h) && e.1 !in HeapReferences(h) ==> OneEntryEach(h + [e])
  {
    forall r
      ensures r in HeapReferences(h + [e]) <==> r in HeapReferences(h) + {e.1}
    {
      if r in HeapReferences(h) + {e.1} {
        var f :| (f in h || f == e) && f.1 == r;
        assert f in h + [e];
      }
    }
  }

  lemma ReleaseKeeps(b: Bucket, r: u8, exposed: bool, deadline: Option<nat>)
    requires BucketOk(b) && r in b.active
    ensures var b' := ReleasedBucket(b, r, exposed, deadline);
            && BucketOk(b')
            && (exposed ==> CoolsUntil(b', r, deadline))
            && (forall x, d | x != r :: CoolsUntil(b', x, d) <==> CoolsUntil(b, x, d))
            && (forall d | CoolsUntil(b', r, d) :: exposed && d == deadline)
  {
    var b' := ReleasedBucket(b, r, exposed, deadline);
    assert r !in HeapReferences(b.cooldowns);
    forall e | e in b.cooldowns
      ensures e.1 != r
    {
      assert e.1 in HeapReferences(b.cooldowns);
    }
    if exposed && deadline.Some? {
      HeapAppend(b.cooldowns, (deadline.value, r));
    }
  }
}
