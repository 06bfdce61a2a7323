/** The table of retired sequence ids: an ordered map from the first id of each
    closed range to its last id (`BTreeMap<u32, u32>`).  The map stands for the
    set of ids it covers; it is kept canonical, so equal sets have equal maps. */
module RetiredRanges {
  import opened Wrappers

  /** Bound on the number of disjoint ranges, not on the ids they cover. */
  const MAX_RETIRED_SEQUENCE_RANGES: nat := 65_536

  type Ranges = map<u32, u32>

  ghost predicate Covers(m: Ranges, id: u32) {
    exists lo :: lo in m && lo <= id <= m[lo]
  }

  /** Non-empty ranges that neither overlap nor touch. */
  ghost predicate Canonical(m: Ranges) {
    && (forall lo :: lo in m ==> lo <= m[lo])
    && (forall a, b :: a in m && b in m && a < b ==> m[a] as int + 1 < b)
  }

  ghost predicate IsFloor(m: Ranges, id: u32, lo: u32) {
    lo in m && lo <= id && forall k :: k in m && k <= id ==> k <= lo
  }

  ghost predicate IsCeiling(m: Ranges, id: u32, lo: u32) {
    lo in m && id <= lo && forall k :: k in m && id <= k ==> lo <= k
  }

  /** `range(..=id).next_back()`: the greatest key not above `id`. */
  function Floor(m: Ranges, id: u32): (r: Option<u32>)
    ensures r.Some? ==> IsFloor(m, id, r.value)
    ensures r.None? ==> forall k :: k in m ==> id < k
  {
    FloorIn(m.Keys, id)
  }

  /** `range(id..).next()`: the least key not below `id`. */
  function Ceiling(m: Ranges, id: u32): (r: Option<u32>)
    ensures r.Some? ==> IsCeiling(m, id, r.value)
    ensures r.None? ==> forall k :: k in m ==> k < id
  {
    CeilingIn(m.Keys, id)
  }

  function FloorIn(keys: set<u32>, id: u32): (r: Option<u32>)
    ensures r.Some? ==> r.value in keys && r.value <= id
    ensures r.Some? ==> forall k :: k in keys && k <= id ==> k <= r.value
    ensures r.None? ==> forall k :: k in keys ==> id < k
    decreases id
  {
    if id in keys then Some(id) else if id == 0 then None else FloorIn(keys, id - 1)
  }

  function CeilingIn(keys: set<u32>, id: u32): (r: Option<u32>)
    ensures r.Some? ==> r.value in keys && id <= r.value
    ensures r.Some? ==> forall k :: k in keys && id <= k ==> r.value <= k
    ensures r.None? ==> forall k :: k in keys ==> k < id
    decreases U32_MAX - id
  {
    if id in keys then Some(id) else if id == U32_MAX then None else CeilingIn(keys, id + 1)
  }

  /** Looking only at the floor range decides membership in a canonical table. */
  function RetiredContains(m: Ranges, id: u32): (r: bool)
    requires Canonical(m)
    ensures r <==> Covers(m, id)
  {
    match Floor(m, id)
    case None => false
    case Some(lo) => id <= m[lo]
  }

  /** Two canonical tables that cover the same ids are the same table. */
  lemma CanonicalUnique(m: Ranges, n: Ranges)
    requires Canonical(m) && Canonical(n)
    requires forall id: u32 :: Covers(m, id) <==> Covers(n, id)
    ensures m == n
  {
    forall lo | lo in m
      ensures lo in n && m[lo] == n[lo]
    {
      SameRange(m, n, lo);
    }
    forall lo | lo in n
      ensures lo in m
    {
      SameRange(n, m, lo);
    }
  }

  lemma SameRange(m: Ranges, n: Ranges, lo: u32)
    requires Canonical(m) && Canonical(n) && lo in m
    requires forall id: u32 :: Covers(m, id) <==> Covers(n, id)
    ensures lo in n && m[lo] == n[lo]
  {
    RangeInside(m, n, lo);
    var outer :| outer in n && outer <= lo && m[lo] <= n[outer];
    RangeInside(n, m, outer);
    var back :| back in m && back <= outer && n[outer] <= m[back];
    assert back == lo;
  }

  /** Each range of `m` lies inside one range of `n`. */
  lemma RangeInside(m: Ranges, n: Ranges, lo: u32)
    requires Canonical(m) && Canonical(n) && lo in m
    requires forall id: u32 :: Covers(m, id) ==> Covers(n, id)
    ensures exists outer :: outer in n && outer <= lo && m[lo] <= n[outer]
  {
    assert Covers(m, lo);
    var outer :| outer in n && outer <= lo <= n[outer];
    RangeCovers(m, lo);
    if n[outer] < m[lo] {
      AfterRangeUncovered(n, outer);
    }
  }

  lemma AfterRangeUncovered(m: Ranges, lo: u32)
    requires Canonical(m) && lo in m && m[lo] < U32_MAX
    ensures !Covers(m, m[lo] + 1)
  {
  }

  lemma RangeCovers(m: Ranges, lo: u32)
    requires lo in m
    ensures forall y: u32 | lo <= y <= m[lo] :: Covers(m, y)
  {
  }

  lemma RemoveRange(m: Ranges, lo: u32)
    requires Canonical(m) && lo in m
    ensures Canonical(m - {lo}) && |m - {lo}| == |m| - 1
    ensures forall y: u32 :: Covers(m - {lo}, y) <==> Covers(m, y) && !(lo <= y <= m[lo])
  {
    var n := m - {lo};
    assert n.Keys == m.Keys - {lo};
    forall y: u32
      ensures Covers(n, y) <==> Covers(m, y) && !(lo <= y <= m[lo])
    {
      if Covers(n, y) {
        var k :| k in n && k <= y <= n[k];
        assert k in m && k <= y <= m[k];
        assert k < lo || lo < k;
      }
      if Covers(m, y) && !(lo <= y <= m[lo]) {
        var k :| k in m && k <= y <= m[k];
        assert k in n && k <= y <= n[k];
      }
    }
  }

  lemma TrimRange(m: Ranges, lo: u32, cut: u32)
    requires Canonical(m) && lo in m && lo < cut <= m[lo]
    ensures Canonical(m[lo := cut - 1]) && |m[lo := cut - 1]| == |m|
    ensures forall y: u32 :: Covers(m[lo := cut - 1], y) <==> Covers(m, y) && !(cut <= y <= m[lo])
  {
    hide Canonical, Covers;
    var rest := m - {lo};
    RangesAround(m, lo);
    RemoveRange(m, lo);
    RangeCovers(m, lo);
    AddRange(rest, lo, cut - 1);
    assert m[lo := cut - 1] == rest[lo := cut - 1];
  }

  lemma RangesAround(m: Ranges, lo: u32)
    requires Canonical(m) && lo in m
    ensures lo <= m[lo]
    ensures forall k :: k in m && k < lo ==> m[k] as int + 1 < lo
    ensures forall k :: k in m && lo < k ==> m[lo] as int + 1 < k
  {
  }

  /** What inserting one fresh id must do to the table. */
  ghost predicate InsertedId(m: Ranges, m': Ranges, id: u32) {
    && Canonical(m')
    && (forall x: u32 :: Covers(m', x) <==> Covers(m, x) || x == id)
  }

  /** An id that touches no range needs a table entry of its own. */
  ghost predicate Isolated(m: Ranges, id: u32) {
    && (id > 0 ==> !Covers(m, id - 1))
    && (id < U32_MAX ==> !Covers(m, id + 1))
  }

  predicate JoinsPrevious(m: Ranges, id: u32) {
    var previous := Floor(m, id);
    previous.Some? && CheckedSuccessor(m[previous.value]) == Some(id)
  }

  predicate JoinsNext(m: Ranges, id: u32) {
    var next := Ceiling(m, id);
    next.Some? && CheckedSuccessor(id) == Some(next.value)
  }

  lemma JoinsMeanTouching(m: Ranges, id: u32)
    requires Canonical(m) && !Covers(m, id)
    ensures JoinsPrevious(m, id) <==> id > 0 && Covers(m, id - 1)
    ensures JoinsNext(m, id) <==> id < U32_MAX && Covers(m, id + 1)
    ensures Isolated(m, id) <==> !JoinsPrevious(m, id) && !JoinsNext(m, id)
  {
    if id > 0 && Covers(m, id - 1) {
      var k :| k in m && k <= id - 1 <= m[k];
      assert k == Floor(m, id).value;
    }
    if id < U32_MAX && Covers(m, id + 1) {
      var k :| k in m && k <= id + 1 <= m[k];
      assert k == Ceiling(m, id).value;
    }
  }

  /** Enlarging the range at `lo` so that it ends at `end`, over ids that were
      free up to the next range. */
  lemma ExtendRange(m: Ranges, lo: u32, end: u32)
    requires Canonical(m) && lo in m && m[lo] < end
    requires forall k :: k in m && lo < k ==> end as int + 1 < k
    ensures Canonical(m[lo := end]) && |m[lo := end]| == |m|
    ensures forall x: u32 :: Covers(m[lo := end], x) <==> Covers(m, x) || m[lo] < x <= end
  {
    assert m[lo := end].Keys == m.Keys;
    assert lo <= m[lo];
    ExtendCovers(m, lo, end);
  }

  lemma ExtendCovers(m: Ranges, lo: u32, end: u32)
    requires lo in m && lo <= m[lo] < end
    ensures forall x: u32 :: Covers(m[lo := end], x) <==> Covers(m, x) || m[lo] < x <= end
  {
    var n := m[lo := end];
    forall x: u32
      ensures Covers(n, x) <==> Covers(m, x) || m[lo] < x <= end
    {
      if Covers(n, x) {
        var k :| k in n && k <= x <= n[k];
        assert k in m;
        if k != lo || x <= m[lo] {
          assert k in m && k <= x <= m[k];
        }
      }
      if Covers(m, x) {
        var k :| k in m && k <= x <= m[k];
        assert k in n && k <= x <= n[k];
      }
      if m[lo] < x <= end {
        assert lo in n && lo <= x <= n[lo];
      }
    }
  }

  /** Adding a range that touches no other. */
  lemma AddRange(m: Ranges, lo: u32, end: u32)
    requires Canonical(m) && lo !in m && lo <= end
    requires forall k :: k in m && k < lo ==> m[k] as int + 1 < lo
    requires forall k :: k in m && lo < k ==> end as int + 1 < k
    ensures Canonical(m[lo := end]) && |m[lo := end]| == |m| + 1
    ensures forall x: u32 :: Covers(m[lo := end], x) <==> Covers(m, x) || lo <= x <= end
  {
    AddCovers(m, lo, end);
    hide Covers;
    assert m[lo := end].Keys == m.Keys + {lo};
  }

  lemma AddCovers(m: Ranges, lo: u32, end: u32)
    requires lo !in m && lo <= end
    ensures forall x: u32 :: Covers(m[lo := end], x) <==> Covers(m, x) || lo <= x <= end
  {
    var n := m[lo := end];
    forall x: u32
      ensures Covers(n, x) <==> Covers(m, x) || lo <= x <= end
    {
      if Covers(n, x) {
        var k :| k in n && k <= x <= n[k];
        assert k == lo || (k in m && k <= x <= m[k]);
      }
      if Covers(m, x) {
        var k :| k in m && k <= x <= m[k];
        assert k in n && k <= x <= n[k];
      }
      if lo <= x <= end {
        assert lo in n && lo <= x <= n[lo];
      }
    }
  }

  /** The table after retiring an id that was not covered, or nothing when the
      id needs an entry of its own and the table is full. */
  function InsertRetired(m: Ranges, id: u32): (r: Option<Ranges>)
    requires Canonical(m) && !Covers(m, id) && |m| <= MAX_RETIRED_SEQUENCE_RANGES
    ensures r.None? <==> Isolated(m, id) && |m| == MAX_RETIRED_SEQUENCE_RANGES
    ensures r.Some? ==> InsertedId(m, r.value, id) && |r.value| <= MAX_RETIRED_SEQUENCE_RANGES
  {
    JoinsMeanTouching(m, id);
    var previous, next := Floor(m, id), Ceiling(m, id);
    if JoinsPrevious(m, id) && JoinsNext(m, id) then
      MergeCorrect(m, id);
      Some(m[previous.value := m[next.value]] - {next.value})
    else if JoinsPrevious(m, id) then
      GrowUpCorrect(m, id);
      Some(m[previous.value := id])
    else if JoinsNext(m, id) then
      GrowDownCorrect(m, id);
      Some((m - {next.value})[id := m[next.value]])
    else if |m| >= MAX_RETIRED_SEQUENCE_RANGES then
      None
    else
      SingletonCorrect(m, id);
      Some(m[id := id])
  }

  lemma GrowUpCorrect(m: Ranges, id: u32)
    requires Canonical(m) && !Covers(m, id) && JoinsPrevious(m, id) && !JoinsNext(m, id)
    ensures InsertedId(m, m[Floor(m, id).value := id], id)
    ensures |m[Floor(m, id).value := id]| == |m|
  {
    JoinsMeanTouching(m, id);
    var lo := Floor(m, id).value;
    forall k | k in m && lo < k
      ensures id as int + 1 < k
    {
      RangeCovers(m, k);
    }
    ExtendRange(m, lo, id);
  }

  lemma GrowDownCorrect(m: Ranges, id: u32)
    requires Canonical(m) && !Covers(m, id) && !JoinsPrevious(m, id) && JoinsNext(m, id)
    ensures InsertedId(m, (m - {Ceiling(m, id).value})[id := m[Ceiling(m, id).value]], id)
    ensures |(m - {Ceiling(m, id).value})[id := m[Ceiling(m, id).value]]| == |m|
  {
    JoinsMeanTouching(m, id);
    var hi := Ceiling(m, id).value;
    RemoveRange(m, hi);
    var n := m - {hi};
    forall k | k in n && k < id
      ensures n[k] as int + 1 < id
    {
      BelowStaysBelow(m, id, k);
    }
    AddRange(n, id, m[hi]);
  }

  lemma SingletonCorrect(m: Ranges, id: u32)
    requires Canonical(m) && !Covers(m, id) && !JoinsPrevious(m, id) && !JoinsNext(m, id)
    ensures InsertedId(m, m[id := id], id)
    ensures |m[id := id]| == |m| + 1
  {
    JoinsMeanTouching(m, id);
    forall k | k in m && k < id
      ensures m[k] as int + 1 < id
    {
      BelowStaysBelow(m, id, k);
    }
    forall k | k in m && id < k
      ensures id as int + 1 < k
    {
      RangeCovers(m, k);
    }
    assert id !in m by {
      if id in m {
        RangeCovers(m, id);
      }
    }
    AddRange(m, id, id);
  }

  lemma BelowStaysBelow(m: Ranges, id: u32, k: u32)
    requires Canonical(m) && !Covers(m, id) && k in m && k < id
    requires id > 0 ==> !Covers(m, id - 1)
    ensures m[k] as int + 1 < id
  {
    RangeCovers(m, k);
  }

  lemma MergeCorrect(m: Ranges, id: u32)
    requires Canonical(m) && !Covers(m, id) && JoinsPrevious(m, id) && JoinsNext(m, id)
    ensures var lo, hi := Floor(m, id).value, Ceiling(m, id).value;
            && lo in m && hi in m
            && InsertedId(m, m[lo := m[hi]] - {hi}, id)
            && |m[lo := m[hi]] - {hi}| == |m| - 1
  {
    MergeNeighbours(m, Floor(m, id).value, id, Ceiling(m, id).value);
  }

  lemma MergeNeighbours(m: Ranges, lo: u32, id: u32, hi: u32)
    requires Canonical(m) && lo in m && hi in m
    requires m[lo] as int + 1 == id && id as int + 1 == hi
    ensures InsertedId(m, m[lo := m[hi]] - {hi}, id)
    ensures |m[lo := m[hi]] - {hi}| == |m| - 1
  {
    hide Canonical, Covers;
    var n := m - {hi};
    RangesBeyond(m, lo, hi);
    RemoveRange(m, hi);
    ExtendRange(n, lo, m[hi]);
    var merged := n[lo := m[hi]];
    assert m[lo := m[hi]] - {hi} == merged;
    RangeCovers(m, hi);
    forall x: u32
      ensures Covers(merged, x) <==> Covers(m, x) || x == id
    {
      assert Covers(merged, x) <==> Covers(n, x) || m[lo] < x <= m[hi];
      assert Covers(n, x) <==> Covers(m, x) && !(hi <= x <= m[hi]);
    }
  }

  lemma RangesBeyond(m: Ranges, lo: u32, hi: u32)
    requires Canonical(m) && lo in m && hi in m && m[lo] as int + 2 == hi
    ensures hi <= m[hi]
    ensures forall k :: k in m - {hi} && lo < k ==> m[hi] as int + 1 < k
  {
  }
}
