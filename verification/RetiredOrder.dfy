/** Whole histories of retired ids: when their order matters. The table refuses an id
    that needs a range of its own once it is full, so near the bound one order of the
    same ids may be accepted and another refused. */
module RetiredOrder {
  import opened Wrappers
  import opened RetiredRanges

  /** Retire ids one after the other, each only if it is not retired yet. */
  ghost function InsertAll(m: Ranges, ids: seq<u32>): (r: Option<Ranges>)
    requires Canonical(m) && |m| <= MAX_RETIRED_SEQUENCE_RANGES
    ensures r.Some? ==>
              && Canonical(r.value) && |r.value| <= MAX_RETIRED_SEQUENCE_RANGES
              && forall x: u32 :: Covers(r.value, x) <==> Covers(m, x) || x in ids
  {
    if ids == [] then Some(m)
    else
      var last := |ids| - 1;
      match InsertAll(m, ids[..last])
      case None => None
      case Some(n) =>
        assert forall x :: x in ids <==> x in ids[..last] || x == ids[last];
        if Covers(n, ids[last]) then Some(n) else InsertRetired(n, ids[last])
  }

  ghost predicate SameIds(a: seq<u32>, b: seq<u32>) {
    forall x :: x in a <==> x in b
  }

  // ------------------------------------------------------- ids that need a range

  /** The id is neither in a range nor next to one. */
  ghost predicate Alone(m: Ranges, x: u32) {
    !Covers(m, x) && Isolated(m, x)
  }

  ghost function AloneIn(m: Ranges, ids: seq<u32>): set<u32> {
    set x | x in ids && Alone(m, x)
  }

  /** No two ids follow each other. */
  ghost predicate Apart(s: set<u32>) {
    forall x, y | x in s && y in s :: x as int + 1 != y
  }

  /** Each of these ids needs a range of its own, whatever the order among them. */
  ghost predicate Spread(m: Ranges, s: set<u32>) {
    Apart(s) && forall x | x in s :: Alone(m, x)
  }

  function Least(c: set<u32>): (x: u32)
    requires c != {}
    ensures x in c && forall y | y in c :: x <= y
  {
    var r := CeilingIn(c, 0);
    assert r.Some? by {
      var z :| z in c;
    }
    r.value
  }

  /** The id and its successor, if any, are out of the way. */
  ghost function Without(c: set<u32>, x: u32): set<u32> {
    set y | y in c && y != x && y as int != x as int + 1
  }

  /** The largest number of ids of `c` no two of which follow each other: take the
      least, leave out its successor, and go on. */
  ghost function MostApart(c: set<u32>): nat
    decreases |c|
  {
    if c == {} then 0
    else
      WithoutShrinks(c, Least(c));
      1 + MostApart(Without(c, Least(c)))
  }

  lemma WithoutShrinks(c: set<u32>, x: u32)
    requires x in c
    ensures Without(c, x) < c && |Without(c, x)| < |c|
  {
    assert x !in Without(c, x);
    assert Without(c, x) <= c - {x};
    SubsetSize(Without(c, x), c - {x});
  }

  /** No choice of ids that are apart is larger ... */
  lemma {:induction false} MostApartIsMost(c: set<u32>, s: set<u32>)
    requires s <= c && Apart(s)
    ensures |s| <= MostApart(c)
    decreases |c|
  {
    if c != {} {
      var x := Least(c);
      WithoutShrinks(c, x);
      MostApartIsMost(Without(c, x), Without(s, x));
      TakesOne(s, x);
    } else {
      assert s == {};
    }
  }

  lemma TakesOne(s: set<u32>, x: u32)
    requires Apart(s)
    ensures |s| <= |Without(s, x)| + 1
  {
    if x in s {
      assert s == Without(s, x) + {x};
    } else if y: u32 :| y in s && y as int == x as int + 1 {
      assert s == Without(s, x) + {y};
    } else {
      assert s == Without(s, x);
    }
  }

  /** ... and one choice reaches the number. */
  lemma {:induction false} MostApartReached(c: set<u32>) returns (s: set<u32>)
    ensures s <= c && Apart(s) && |s| == MostApart(c)
    decreases |c|
  {
    if c == {} {
      s := {};
    } else {
      var x := Least(c);
      WithoutShrinks(c, x);
      var rest := MostApartReached(Without(c, x));
      s := rest + {x};
      assert x !in rest;
      forall y, z | y in s && z in s
        ensures y as int + 1 != z
      {
        assert y in rest ==> x < y && y as int != x as int + 1;
        assert z in rest ==> x < z && z as int != x as int + 1;
      }
    }
  }

  // ------------------------------------------------------------- one history

  lemma InsertSize(m: Ranges, id: u32)
    requires Canonical(m) && !Covers(m, id) && |m| <= MAX_RETIRED_SEQUENCE_RANGES && InsertRetired(m, id).Some?
    ensures var n := InsertRetired(m, id).value;
            if Isolated(m, id) then |n| == |m| + 1 else |n| <= |m|
  {
    JoinsMeanTouching(m, id);
    hide Covers, Canonical, Isolated, InsertedId, Floor, Ceiling;
    if JoinsPrevious(m, id) && JoinsNext(m, id) {
      MergeCorrect(m, id);
    } else if JoinsPrevious(m, id) {
      GrowUpCorrect(m, id);
    } else if JoinsNext(m, id) {
      GrowDownCorrect(m, id);
    } else {
      SingletonCorrect(m, id);
    }
  }

  /** Some of the ids that are alone and apart account for every range a history has
      added, and for the one it was refused. */
  lemma {:induction false} Accounts(m: Ranges, ids: seq<u32>) returns (s: set<u32>)
    requires Canonical(m) && |m| <= MAX_RETIRED_SEQUENCE_RANGES
    ensures Spread(m, s) && forall x | x in s :: x in ids
    ensures InsertAll(m, ids).Some? ==> |InsertAll(m, ids).value| <= |m| + |s|
    ensures InsertAll(m, ids).None? ==> |m| + |s| > MAX_RETIRED_SEQUENCE_RANGES
  {
    hide Covers, Canonical;
    if ids == [] {
      s := {};
    } else {
      var init, y := ids[..|ids| - 1], ids[|ids| - 1];
      assert ids == init + [y];
      s := Accounts(m, init);
      if InsertAll(m, init).Some? {
        var n := InsertAll(m, init).value;
        if !Covers(n, y) {
          if Isolated(n, y) {
            JoinsSpread(m, n, init, s, y);
            s := s + {y};
          }
          if InsertRetired(n, y).Some? {
            InsertSize(n, y);
          }
        }
      }
    }
  }

  /** An id that is alone in the grown table joins the ids that account for it. */
  lemma JoinsSpread(m: Ranges, n: Ranges, init: seq<u32>, s: set<u32>, y: u32)
    requires Spread(m, s) && (forall x | x in s :: x in init) && !Covers(n, y) && Isolated(n, y)
    requires forall x: u32 :: Covers(n, x) <==> Covers(m, x) || x in init
    ensures Spread(m, s + {y}) && |s + {y}| == |s| + 1
  {
    hide Covers;
    assert y !in s;
    forall x | x in s
      ensures x as int + 1 != y && y as int + 1 != x
    {
      assert Covers(n, x);
    }
  }

  /** Ids that are alone and apart take a range each, in any order. */
  lemma {:induction false} SpreadTakesRanges(m: Ranges, ids: seq<u32>, s: set<u32>)
    requires Canonical(m) && |m| <= MAX_RETIRED_SEQUENCE_RANGES && Spread(m, s)
    requires (forall x | x in ids :: x in s) && forall i, j | 0 <= i < j < |ids| :: ids[i] != ids[j]
    ensures InsertAll(m, ids).Some? ==> |InsertAll(m, ids).value| == |m| + |ids|
  {
    hide Covers, Canonical;
    if ids != [] {
      var init, y := ids[..|ids| - 1], ids[|ids| - 1];
      SpreadTakesRanges(m, init, s);
      if InsertAll(m, ids).Some? {
        var n := InsertAll(m, init).value;
        assert y in ids && y !in init && forall x | x in init :: x in ids;
        StaysAlone(m, n, init, s, y);
        InsertSize(n, y);
      }
    }
  }

  lemma StaysAlone(m: Ranges, n: Ranges, init: seq<u32>, s: set<u32>, y: u32)
    requires Spread(m, s) && y in s && y !in init && forall x | x in init :: x in s
    requires forall x: u32 :: Covers(n, x) <==> Covers(m, x) || x in init
    ensures !Covers(n, y) && Isolated(n, y)
  {
    hide Covers;
    assert y > 0 ==> (y - 1) as u32 !in init;
    assert y < U32_MAX ==> (y + 1) as u32 !in init;
  }

  lemma {:induction false} PrefixRefused(m: Ranges, a: seq<u32>, b: seq<u32>)
    requires Canonical(m) && |m| <= MAX_RETIRED_SEQUENCE_RANGES && InsertAll(m, a).None?
    ensures InsertAll(m, a + b).None?
  {
    hide Canonical, Covers;
    if b == [] {
      assert a + b == a;
    } else {
      PrefixRefused(m, a, b[..|b| - 1]);
      assert (a + b)[..|a + b| - 1] == a + b[..|b| - 1];
    }
  }

  lemma {:induction false} Listed(s: set<u32>) returns (ids: seq<u32>)
    ensures (forall x :: x in ids <==> x in s) && |ids| == |s|
    ensures forall i, j | 0 <= i < j < |ids| :: ids[i] != ids[j]
    decreases |s|
  {
    if s == {} {
      ids := [];
    } else {
      var x :| x in s;
      var rest := Listed(s - {x});
      ids := rest + [x];
      assert x !in rest;
    }
  }

  // ------------------------------------------------------------- all histories

  /** The bound leaves room for every id that may need a range of its own. */
  ghost predicate RoomForAll(m: Ranges, ids: seq<u32>) {
    |m| + MostApart(AloneIn(m, ids)) <= MAX_RETIRED_SEQUENCE_RANGES
  }

  lemma RoomAccepts(m: Ranges, a: seq<u32>, b: seq<u32>)
    requires Canonical(m) && |m| <= MAX_RETIRED_SEQUENCE_RANGES && RoomForAll(m, a) && SameIds(a, b)
    ensures InsertAll(m, b).Some?
  {
    hide InsertAll, Covers, Canonical, Isolated;
    var s := Accounts(m, b);
    assert s <= AloneIn(m, a);
    MostApartIsMost(AloneIn(m, a), s);
  }

  lemma NoRoomRefuses(m: Ranges, a: seq<u32>) returns (b: seq<u32>)
    requires Canonical(m) && |m| <= MAX_RETIRED_SEQUENCE_RANGES && !RoomForAll(m, a)
    ensures SameIds(a, b) && InsertAll(m, b).None?
  {
    hide InsertAll, Covers, Canonical, Isolated;
    var s := MostApartReached(AloneIn(m, a));
    var first := Listed(s);
    SpreadTakesRanges(m, first, s);
    PrefixRefused(m, first, a);
    b := first + a;
  }

  /** Exactly when there is room for all, every order of the ids is accepted. */
  lemma AllOrdersAccepted(m: Ranges, a: seq<u32>)
    requires Canonical(m) && |m| <= MAX_RETIRED_SEQUENCE_RANGES
    ensures (forall b | SameIds(a, b) :: InsertAll(m, b).Some?) <==> RoomForAll(m, a)
  {
    hide InsertAll, Covers, Canonical, RoomForAll;
    if RoomForAll(m, a) {
      forall b | SameIds(a, b)
        ensures InsertAll(m, b).Some?
      {
        RoomAccepts(m, a, b);
      }
    } else {
      var b := NoRoomRefuses(m, a);
    }
  }

  /** With room for all, any two orders of the same ids are accepted and give the same
      table. */
  lemma OrderIrrelevant(m: Ranges, a: seq<u32>, b: seq<u32>)
    requires Canonical(m) && |m| <= MAX_RETIRED_SEQUENCE_RANGES && RoomForAll(m, a) && SameIds(a, b)
    ensures InsertAll(m, a).Some? && InsertAll(m, b) == InsertAll(m, a)
  {
    hide Canonical, Covers, InsertAll, RoomForAll;
    RoomAccepts(m, a, a);
    RoomAccepts(m, a, b);
    CanonicalUnique(InsertAll(m, a).value, InsertAll(m, b).value);
  }

  // ------------------------------------------------------------- a full table

  /** In a full table one order of two ids is accepted and the other refused. */
  lemma OrderMattersWhenFull(m: Ranges, x: u32)
    requires Canonical(m) && |m| == MAX_RETIRED_SEQUENCE_RANGES && x < U32_MAX - 2
    requires Covers(m, x) && !Covers(m, x + 1) && !Covers(m, x + 2) && !Covers(m, x + 3)
    ensures InsertAll(m, [x + 1, x + 2]).Some? && InsertAll(m, [x + 2, x + 1]).None?
  {
    hide Canonical, Covers;
    InsertsOne(m, x + 1);
    InsertsOne(m, x + 2);
    var n := InsertRetired(m, x + 1).value;
    assert [x + 1, x + 2][..1] == [x + 1] && [x + 2, x + 1][..1] == [x + 2];
    assert Covers(n, x + 1);
  }

  lemma InsertsOne(m: Ranges, id: u32)
    requires Canonical(m) && |m| <= MAX_RETIRED_SEQUENCE_RANGES && !Covers(m, id)
    ensures InsertAll(m, [id]) == InsertRetired(m, id)
  {
    hide Canonical, Covers, InsertRetired;
    assert [id][..0] == [];
    assert InsertAll(m, []) == Some(m);
  }

  function Tens(n: nat): (ids: seq<u32>)
    requires n <= MAX_RETIRED_SEQUENCE_RANGES
    ensures |ids| == n && forall i | 0 <= i < n :: ids[i] == 10 * i
  {
    seq(n, i requires 0 <= i < n => 10 * i)
  }

  /** Exactly the first `n` multiples of ten are retired. */
  ghost predicate TensCovered(m: Ranges, n: nat) {
    forall x: u32 :: Covers(m, x) <==> x % 10 == 0 && x < 10 * n
  }

  lemma TenIsAlone(m: Ranges, n: nat)
    requires TensCovered(m, n) && n < MAX_RETIRED_SEQUENCE_RANGES
    ensures !Covers(m, 10 * n) && Isolated(m, 10 * n)
  {
    hide Covers;
  }

  lemma NextTen(m: Ranges, n: nat, m': Ranges)
    requires TensCovered(m, n) && n < MAX_RETIRED_SEQUENCE_RANGES && InsertedId(m, m', 10 * n)
    ensures TensCovered(m', n + 1)
  {
    hide Covers, Canonical;
    forall x: u32
      ensures Covers(m', x) <==> x % 10 == 0 && x < 10 * (n + 1)
    {
      assert x % 10 == 0 ==> x == 10 * (x / 10);
    }
  }

  lemma InsertsLast(m: Ranges, ids: seq<u32>, id: u32)
    requires Canonical(m) && |m| <= MAX_RETIRED_SEQUENCE_RANGES
    requires InsertAll(m, ids).Some? && !Covers(InsertAll(m, ids).value, id)
    ensures InsertAll(m, ids + [id]) == InsertRetired(InsertAll(m, ids).value, id)
  {
    hide Canonical, Covers, InsertRetired;
    assert (ids + [id])[..|ids|] == ids;
  }

  /** Retiring 0, 10, 20, ... one at a time gives a range to each of them. */
  lemma {:induction false} TensTable(n: nat) returns (m: Ranges)
    requires n <= MAX_RETIRED_SEQUENCE_RANGES
    ensures Canonical(map[]) && InsertAll(map[], Tens(n)) == Some(m) && Canonical(m) && |m| == n && TensCovered(m, n)
  {
    hide Canonical, Covers, TensCovered, InsertAll, Tens;
    NothingRetired();
    if n == 0 {
      m := map[];
    } else {
      var before := TensTable(n - 1);
      m := TensNext(before, n - 1);
    }
  }

  lemma TensNext(before: Ranges, n: nat) returns (m: Ranges)
    requires n < MAX_RETIRED_SEQUENCE_RANGES && Canonical(map[]) && Canonical(before) && |before| == n
    requires InsertAll(map[], Tens(n)) == Some(before) && TensCovered(before, n)
    ensures InsertAll(map[], Tens(n + 1)) == Some(m) && Canonical(m) && |m| == n + 1 && TensCovered(m, n + 1)
  {
    hide Canonical, Covers, TensCovered, InsertAll, InsertedId, Isolated, InsertRetired;
    var id: u32 := 10 * n;
    TenIsAlone(before, n);
    InsertsLast(map[], Tens(n), id);
    assert Tens(n + 1) == Tens(n) + [id];
    InsertSize(before, id);
    m := InsertRetired(before, id).value;
    NextTen(before, n, m);
    InsertedCanonical(before, m, id);
  }

  lemma InsertedCanonical(m: Ranges, m': Ranges, id: u32)
    requires InsertedId(m, m', id)
    ensures Canonical(m')
  {
  }

  lemma NothingRetired()
    ensures Canonical(map[]) && TensCovered(map[], 0) && InsertAll(map[], Tens(0)) == Some(map[])
  {
  }

  /** The table that 65536 single retirements fill refuses 2 before 1, but not 1
      before 2. */
  lemma FullTableExample() returns (m: Ranges)
    ensures Canonical(map[]) && InsertAll(map[], Tens(MAX_RETIRED_SEQUENCE_RANGES)) == Some(m) && Canonical(m)
    ensures |m| == MAX_RETIRED_SEQUENCE_RANGES
    ensures InsertAll(m, [1, 2]).Some? && InsertAll(m, [2, 1]).None?
  {
    hide Canonical, Covers, InsertAll;
    NothingRetired();
    m := TensTable(MAX_RETIRED_SEQUENCE_RANGES);
    OrderMattersWhenFull(m, 0);
  }
}
