/** Sequence-id registry of one connection: automatic ids grow from a fixed
    start, manual ids are reserved in batches anywhere in the u32 space, and ids
    that went on the wire are never handed out again. */
module SequenceRegistry {
  import opened Wrappers
  import opened RetiredRanges

  /** The registry as a value. Automatic ids `start..=usedThrough` are the
      automatic prefix; they stay used whether or not a lease is still alive. */
  datatype Registry = Registry(
    nextAutomatic: Option<u32>,
    automaticStart: u32,
    automaticUsedThrough: Option<u32>,
    reserved: set<u32>,
    retired: Ranges)

  predicate InPrefix(r: Registry, id: u32) {
    r.automaticUsedThrough.Some? && r.automaticStart <= id <= r.automaticUsedThrough.value
  }

  /** Ids that may never be handed out again. */
  ghost predicate Spent(r: Registry, id: u32) {
    InPrefix(r, id) || Covers(r.retired, id)
  }

  /** Ids that cannot be handed out now. */
  ghost predicate Blocked(r: Registry, id: u32) {
    Spent(r, id) || id in r.reserved
  }

  ghost predicate Valid(r: Registry) {
    && 1 <= r.automaticStart
    && r.nextAutomatic == (match r.automaticUsedThrough
                           case None => Some(r.automaticStart)
                           case Some(u) => CheckedSuccessor(u))
    && (r.automaticUsedThrough.Some? ==> r.automaticStart <= r.automaticUsedThrough.value)
    && Canonical(r.retired)
    && |r.retired| <= MAX_RETIRED_SEQUENCE_RANGES
    && (forall id: u32 :: InPrefix(r, id) ==> !Covers(r.retired, id))
  }

  function NewRegistry(next: u32): (r: Registry)
    ensures Valid(r) && forall id: u32 :: !Blocked(r, id)
    ensures r.nextAutomatic == Some(if next >= 1 then next else 1)
  {
    var start := if next == 0 then 1 else next;
    Registry(Some(start), start, None, {}, map[])
  }

  /** What one automatic reservation may do, told without its loop: a linear
      search from the cursor that absorbs everything it walks over. */
  ghost predicate NextSpec(r: Registry, r': Registry, id: Option<u32>) {
    && Valid(r')
    && r'.automaticStart == r.automaticStart
    && match r.nextAutomatic
       case None => id.None? && r' == r
       case Some(cursor) =>
         match id
         case Some(x) =>
           && cursor <= x && !Covers(r.retired, x) && x !in r.reserved
           && (forall y: u32 | cursor <= y < x :: Covers(r.retired, y) || y in r.reserved)
           && r'.automaticUsedThrough == Some(x)
           && r'.reserved == r.reserved + {x}
           && (forall y: u32 :: Covers(r'.retired, y) <==>
                 Covers(r.retired, y) && !(r.automaticStart <= y <= x))
         case None =>
           && (forall y: u32 | cursor <= y :: Covers(r.retired, y) || y in r.reserved)
           && r'.automaticUsedThrough == Some(U32_MAX)
           && r'.reserved == r.reserved
           && (forall y: u32 :: Covers(r'.retired, y) <==>
                 Covers(r.retired, y) && y < r.automaticStart)
  }

  function BatchIds(base: u32, count: nat): (ids: seq<u32>)
    ensures |ids| == count
    ensures forall i | 0 <= i < count :: ids[i] == WrappingAdd(base, i)
  {
    seq(count, i requires 0 <= i < count => WrappingAdd(base, i))
  }

  ghost predicate BatchSpec(r: Registry, r': Registry, base: u32, count: nat, ids: Option<seq<u32>>) {
    if count <= 255 && forall i | 0 <= i < count :: !Blocked(r, WrappingAdd(base, i)) then
      && ids == Some(BatchIds(base, count))
      && r' == r.(reserved := r.reserved + set x | x in BatchIds(base, count))
    else
      ids.None? && r' == r
  }

  /** Retiring succeeds except for an unused id that touches no retired range
      while the table is full; a refused id keeps its reservation. */
  ghost predicate RetireSpec(r: Registry, r': Registry, id: u32, ok: bool) {
    if Spent(r, id) then
      ok && r' == r.(reserved := r.reserved - {id})
    else if Isolated(r.retired, id) && |r.retired| == MAX_RETIRED_SEQUENCE_RANGES then
      !ok && r' == r
    else
      && ok && Valid(r')
      && r' == r.(reserved := r.reserved - {id}, retired := r'.retired)
      && InsertedId(r.retired, r'.retired, id)
  }

  function Released(r: Registry, id: u32): Registry {
    r.(reserved := r.reserved - {id})
  }

  /** Removing the range under the cursor, except its part below the automatic
      start, uncovers exactly the ids the automatic prefix takes over. */
  lemma AbsorbRange(m: Ranges, m': Ranges, lo: u32, automaticStart: u32, cursor: u32)
    requires Canonical(m) && lo in m && lo <= cursor <= m[lo]
    requires 1 <= automaticStart <= cursor
    requires forall y: u32 | automaticStart <= y < cursor :: !Covers(m, y)
    requires m' == if lo < automaticStart then (m - {lo})[lo := automaticStart - 1] else m - {lo}
    ensures Canonical(m') && |m'| <= |m|
    ensures forall y: u32 :: Covers(m', y) <==> Covers(m, y) && !(automaticStart <= y <= m[lo])
  {
    hide Canonical, Covers;
    RangeCovers(m, lo);
    if lo < automaticStart {
      assert Covers(m, automaticStart);
      assert m' == m[lo := automaticStart - 1];
      TrimRange(m, lo, automaticStart);
    } else {
      assert Covers(m, lo);
      RemoveRange(m, lo);
    }
  }

  /** Where the search stands after walking from the cursor of `r` to `cur`:
      everything passed was taken, and nothing but the prefix has changed. */
  ghost predicate Searching(r: Registry, cur: Registry) {
    && Valid(r) && Valid(cur)
    && cur.automaticStart == r.automaticStart
    && cur.reserved == r.reserved
    && (forall y: u32 :: Covers(cur.retired, y) <==> Covers(r.retired, y) && !InPrefix(cur, y))
    && (r.nextAutomatic.None? ==> cur == r)
    && (r.nextAutomatic.Some? && cur.nextAutomatic.Some? ==> r.nextAutomatic.value <= cur.nextAutomatic.value)
    && (r.nextAutomatic.Some? ==> forall y: u32 | r.nextAutomatic.value <= y && InPrefix(cur, y) ::
          Covers(r.retired, y) || y in r.reserved)
  }

  lemma SearchExhausted(r: Registry, cur: Registry)
    requires Searching(r, cur) && cur.nextAutomatic.None?
    ensures NextSpec(r, cur, None)
  {
    if r.nextAutomatic.Some? {
      assert cur.automaticUsedThrough == Some(U32_MAX);
      forall y: u32 | r.nextAutomatic.value <= y
        ensures Covers(r.retired, y) || y in r.reserved
      {
        assert InPrefix(cur, y);
      }
      forall y: u32
        ensures Covers(cur.retired, y) <==> Covers(r.retired, y) && y < r.automaticStart
      {
        assert InPrefix(cur, y) <==> r.automaticStart <= y;
      }
    }
  }

  lemma SearchAbsorbs(r: Registry, cur: Registry, cur': Registry, lo: u32)
    requires Searching(r, cur) && cur.nextAutomatic.Some?
    requires lo in cur.retired && lo <= cur.nextAutomatic.value <= cur.retired[lo]
    requires AbsorbsRange(cur, cur', lo)
    ensures Searching(r, cur')
  {
    hide Canonical, Covers, AbsorbsRange;
    AbsorbUncovers(cur, cur', lo);
    PrefixGrows(cur, cur', cur.retired[lo]);
  }

  /** One turn of the search that swallows the range starting at `lo`. */
  ghost predicate AbsorbsRange(cur: Registry, cur': Registry, lo: u32) {
    && lo in cur.retired && 1 <= cur.automaticStart
    && cur' == cur.(
         nextAutomatic := CheckedSuccessor(cur.retired[lo]),
         automaticUsedThrough := Some(cur.retired[lo]),
         retired := if lo < cur.automaticStart
                    then (cur.retired - {lo})[lo := cur.automaticStart - 1]
                    else cur.retired - {lo})
  }

  lemma AbsorbUncovers(cur: Registry, cur': Registry, lo: u32)
    requires Valid(cur) && cur.nextAutomatic.Some?
    requires lo in cur.retired && lo <= cur.nextAutomatic.value <= cur.retired[lo]
    requires AbsorbsRange(cur, cur', lo)
    ensures Canonical(cur'.retired) && |cur'.retired| <= |cur.retired|
    ensures cur'.automaticStart == cur.automaticStart && cur'.reserved == cur.reserved
    ensures cur'.automaticUsedThrough == Some(cur.retired[lo])
    ensures cur'.nextAutomatic == CheckedSuccessor(cur.retired[lo])
    ensures forall y: u32 | cur.nextAutomatic.value <= y <= cur.retired[lo] :: Covers(cur.retired, y)
    ensures forall y: u32 :: Covers(cur'.retired, y) <==>
              Covers(cur.retired, y) && !(cur.automaticStart <= y <= cur.retired[lo])
  {
    hide Canonical, Covers;
    forall y: u32 | cur.automaticStart <= y < cur.nextAutomatic.value
      ensures !Covers(cur.retired, y)
    {
      assert InPrefix(cur, y);
    }
    AbsorbRange(cur.retired, cur'.retired, lo, cur.automaticStart, cur.nextAutomatic.value);
    RangeCovers(cur.retired, lo);
  }

  lemma PrefixGrows(cur: Registry, cur': Registry, end: u32)
    requires cur.automaticStart == cur'.automaticStart && cur'.automaticUsedThrough == Some(end)
    requires cur.nextAutomatic.Some? && cur.automaticStart <= cur.nextAutomatic.value <= end
    requires cur.nextAutomatic == (match cur.automaticUsedThrough
                                   case None => Some(cur.automaticStart)
                                   case Some(u) => CheckedSuccessor(u))
    ensures forall y: u32 :: InPrefix(cur', y) <==> InPrefix(cur, y) || cur.nextAutomatic.value <= y <= end
  {
  }

  lemma SearchSkips(r: Registry, cur: Registry, cur': Registry)
    requires Searching(r, cur) && cur.nextAutomatic.Some?
    requires cur.nextAutomatic.value in r.reserved && !Covers(cur.retired, cur.nextAutomatic.value)
    requires cur' == cur.(
                 nextAutomatic := CheckedSuccessor(cur.nextAutomatic.value),
                 automaticUsedThrough := cur.nextAutomatic)
    ensures Searching(r, cur')
  {
    PrefixGrows(cur, cur', cur.nextAutomatic.value);
  }

  lemma SearchFinds(r: Registry, cur: Registry, cur': Registry)
    requires Searching(r, cur) && cur.nextAutomatic.Some?
    requires cur.nextAutomatic.value !in r.reserved && !Covers(cur.retired, cur.nextAutomatic.value)
    requires cur' == cur.(
                 nextAutomatic := CheckedSuccessor(cur.nextAutomatic.value),
                 automaticUsedThrough := cur.nextAutomatic,
                 reserved := cur.reserved + {cur.nextAutomatic.value})
    ensures NextSpec(r, cur', cur.nextAutomatic)
  {
    PrefixGrows(cur, cur', cur.nextAutomatic.value);
    assert !InPrefix(cur, cur.nextAutomatic.value);
  }

  // What a holder of leases needs to know about each operation.

  /** An automatic lease gets a free id, which becomes used for good. */
  lemma NextFacts(r: Registry, r': Registry, id: Option<u32>)
    requires Valid(r) && NextSpec(r, r', id)
    ensures Valid(r')
    ensures forall x: u32 :: Spent(r, x) ==> Spent(r', x)
    ensures forall x: u32 :: InPrefix(r, x) ==> InPrefix(r', x)
    ensures r'.reserved == r.reserved + if id.Some? then {id.value} else {}
    ensures id.Some? ==> !Blocked(r, id.value) && InPrefix(r', id.value)
  {
    hide Canonical, Covers;
  }

  /** The first automatic id of a new registry is its start, one at least. */
  lemma FirstAutomatic(next: u32, r': Registry, id: Option<u32>)
    requires NextSpec(NewRegistry(next), r', id)
    ensures id == Some(if next >= 1 then next else 1)
  {
    hide Canonical, Covers, InPrefix, NewRegistry, Valid;
    var r: Registry, start: u32 := NewRegistry(next), if next >= 1 then next else 1;
    assert !Blocked(r, start) && r.nextAutomatic == Some(start);
  }

  lemma BatchFacts(r: Registry, r': Registry, base: u32, count: nat, ids: Option<seq<u32>>)
    requires Valid(r) && BatchSpec(r, r', base, count, ids)
    ensures Valid(r')
    ensures forall x: u32 :: Spent(r, x) <==> Spent(r', x)
    ensures forall x: u32 :: InPrefix(r, x) ==> InPrefix(r', x)
    ensures r'.reserved == r.reserved + if ids.Some? then (set x | x in ids.value) else {}
    ensures ids.Some? ==> forall x | x in ids.value :: !Blocked(r, x)
  {
    hide Canonical, Covers;
    if ids.Some? {
      forall x | x in ids.value
        ensures !Blocked(r, x)
      {
        var i :| 0 <= i < |ids.value| && ids.value[i] == x;
        assert x == WrappingAdd(base, i);
      }
    }
  }

  /** The ids a batch asks for: `count` of them from `base` on, going on at zero after the
      largest one. */
  predicate Asked(base: u32, count: nat, id: u32) {
    base <= id < base + count || id + 0x1_0000_0000 < base + count
  }

  lemma WrapsOnce(base: u32, count: nat, i: nat)
    requires i < count <= 255
    ensures WrappingAdd(base, i) as int == if base + i <= 0xFFFF_FFFF then base + i else base + i - 0x1_0000_0000
    ensures Asked(base, count, WrappingAdd(base, i))
  {
  }

  lemma AskedAt(base: u32, count: nat, id: u32) returns (i: nat)
    requires count <= 255 && Asked(base, count, id)
    ensures i < count && WrappingAdd(base, i) == id
  {
    i := if base <= id then id - base else id + 0x1_0000_0000 - base;
  }

  /** A batch is granted exactly when none of the ids asked for is blocked, and then
      it is these ids in order, each reserved from now on, and no other id. */
  lemma BatchIsAsked(r: Registry, r': Registry, base: u32, count: nat, ids: Option<seq<u32>>)
    requires BatchSpec(r, r', base, count, ids)
    ensures ids.Some? <==> count <= 255 && forall id: u32 | Asked(base, count, id) :: !Blocked(r, id)
    ensures ids.Some? ==>
              && |ids.value| == count
              && (forall i | 0 <= i < count ::
                    ids.value[i] == if base + i <= 0xFFFF_FFFF then base + i else base + i - 0x1_0000_0000)
              && forall id: u32 :: id in r'.reserved <==> id in r.reserved || Asked(base, count, id)
    ensures r'.reserved == r.reserved || ids.Some?
  {
    hide Blocked, WrappingAdd, Asked;
    if count <= 255 {
      forall i: nat | i < count
        ensures Asked(base, count, WrappingAdd(base, i))
        ensures WrappingAdd(base, i) as int == if base + i <= 0xFFFF_FFFF then base + i else base + i - 0x1_0000_0000
      {
        WrapsOnce(base, count, i);
      }
      forall id: u32 | Asked(base, count, id)
        ensures exists i: nat :: i < count && WrappingAdd(base, i) == id
      {
        var i := AskedAt(base, count, id);
      }
      if ids.Some? {
        forall id: u32
          ensures id in BatchIds(base, count) <==> Asked(base, count, id)
        {
          if Asked(base, count, id) {
            var i: nat :| i < count && WrappingAdd(base, i) == id;
            assert BatchIds(base, count)[i] == id;
          }
        }
      }
    }
  }

  lemma RetireFacts(r: Registry, r': Registry, id: u32, ok: bool)
    requires Valid(r) && RetireSpec(r, r', id, ok)
    ensures Valid(r')
    ensures forall x: u32 :: Spent(r, x) ==> Spent(r', x)
    ensures forall x: u32 :: InPrefix(r, x) ==> InPrefix(r', x)
    ensures ok ==> Spent(r', id) && r'.reserved == r.reserved - {id}
    ensures !ok ==> r' == r
    ensures Spent(r, id) ==> ok
  {
  }

  lemma ReleaseFacts(r: Registry, id: u32)
    requires Valid(r)
    ensures Valid(Released(r, id))
    ensures forall x: u32 :: Spent(r, x) <==> Spent(Released(r, id), x)
    ensures forall x: u32 :: InPrefix(r, x) <==> InPrefix(Released(r, id), x)
  {
  }

  /** The registry object: one mutex-protected state updated in place. */
  class SequenceState {
    var nextAutomatic: Option<u32>
    const automaticStart: u32
    var automaticUsedThrough: Option<u32>
    var reserved: set<u32>
    var retired: Ranges

    ghost function View(): Registry
      reads this
    {
      Registry(nextAutomatic, automaticStart, automaticUsedThrough, reserved, retired)
    }

    constructor (next: u32)
      ensures View() == NewRegistry(next)
      ensures nextAutomatic == Some(if next >= 1 then next else 1) && reserved == {} && retired == map[]
    {
      nextAutomatic := Some(if next == 0 then 1 else next);
      automaticStart := if next == 0 then 1 else next;
      automaticUsedThrough := None;
      reserved := {};
      retired := map[];
    }

    /** Move the cursor past the range that starts at `start`, dropping the
        range except for its part below the automatic start. */
    method AbsorbFrom(start: u32)
      requires start in retired && 1 <= automaticStart
      modifies this
      ensures AbsorbsRange(old(View()), View(), start)
    {
      var end := retired[start];
      automaticUsedThrough := Some(end);
      nextAutomatic := CheckedSuccessor(end);
      retired := retired - {start};
      if start < automaticStart {
        retired := retired[start := automaticStart - 1];
      }
    }

    /** Lease the next automatic id, skipping reserved ids and absorbing
        retired ranges that the cursor runs into. */
    method ReserveNext() returns (id: Option<u32>)
      requires Valid(View())
      modifies this
      ensures NextSpec(old(View()), View(), id)
    {
      hide Canonical, Covers, NextSpec;
      ghost var r := View();
      while true
        invariant Searching(r, View())
        decreases if nextAutomatic.Some? then U32_MAX + 1 - nextAutomatic.value else 0
      {
        match nextAutomatic
        case None =>
          SearchExhausted(r, View());
          return None;
        case Some(sequenceId) =>
          ghost var cur := View();
          automaticUsedThrough := Some(sequenceId);
          nextAutomatic := CheckedSuccessor(sequenceId);
          var floor := Floor(retired, sequenceId);
          if floor.Some? && sequenceId <= retired[floor.value] {
            AbsorbFrom(floor.value);
            SearchAbsorbs(r, cur, View(), floor.value);
            continue;
          }
          assert !Covers(retired, sequenceId) by {
            assert !RetiredContains(retired, sequenceId);
          }
          if sequenceId !in reserved {
            reserved := reserved + {sequenceId};
            SearchFinds(r, cur, View());
            return Some(sequenceId);
          }
          SearchSkips(r, cur, View());
      }
    }

    /** Reserve `count` consecutive ids from `base`, wrapping at the top of the
        u32 space; all of them or none. */
    method ReserveBatch(base: u32, count: nat) returns (ids: Option<seq<u32>>)
      requires Valid(View())
      modifies this
      ensures BatchSpec(old(View()), View(), base, count, ids)
      ensures ids.Some? <==>
                count <= 255 && forall id: u32 | Asked(base, count, id) :: !Blocked(old(View()), id)
      ensures ids.Some? ==>
                && |ids.value| == count
                && forall i | 0 <= i < count ::
                     ids.value[i] == if base + i <= 0xFFFF_FFFF then base + i else base + i - 0x1_0000_0000
      ensures forall id: u32 :: id in reserved <==> id in old(reserved) || (ids.Some? && Asked(base, count, id))
    {
      if count > 255 {
        BatchIsAsked(View(), View(), base, count, None);
        return None;
      }
      var list: seq<u32>, seen: set<u32> := [], {};
      for index := 0 to count
        invariant list == BatchIds(base, index)
        invariant seen == set x | x in list
        invariant View() == old(View())
      {
        var sequenceId := WrappingAdd(base, index);
        WrappingAddInjective(base, index);
        if sequenceId in seen {
          assert false;
          return None;
        }
        seen := seen + {sequenceId};
        list := list + [sequenceId];
      }
      for i := 0 to |list|
        invariant forall k | 0 <= k < i :: !Blocked(View(), WrappingAdd(base, k))
        invariant View() == old(View())
      {
        var id := list[i];
        if InPrefix(Registry(nextAutomatic, automaticStart, automaticUsedThrough, reserved, retired), id)
           || id in reserved || RetiredContains(retired, id) {
          assert Blocked(View(), WrappingAdd(base, i));
          BatchIsAsked(View(), View(), base, count, None);
          return None;
        }
      }
      ghost var before := View();
      reserved := reserved + set x | x in list;
      BatchIsAsked(before, View(), base, count, Some(list));
      return Some(list);
    }

    method Release(sequenceId: u32)
      modifies this
      ensures View() == Released(old(View()), sequenceId)
    {
      reserved := reserved - {sequenceId};
    }

    method Retire(sequenceId: u32) returns (ok: bool)
      requires Valid(View())
      modifies this
      ensures RetireSpec(old(View()), View(), sequenceId, ok)
      ensures Valid(View())
    {
      if automaticUsedThrough.Some? && automaticStart <= sequenceId <= automaticUsedThrough.value {
        reserved := reserved - {sequenceId};
        return true;
      }
      if RetiredContains(retired, sequenceId) {
        reserved := reserved - {sequenceId};
        return true;
      }
      ok := InsertRetiredSequence(sequenceId);
      if !ok {
        return false;
      }
      reserved := reserved - {sequenceId};
      return true;
    }

    /** Add one id to the retired table in place, merging it with the ranges it
        touches; refuse when it would need one entry too many. */
    method InsertRetiredSequence(sequenceId: u32) returns (ok: bool)
      requires Canonical(retired) && !Covers(retired, sequenceId)
      requires |retired| <= MAX_RETIRED_SEQUENCE_RANGES
      modifies this`retired
      ensures ok <==> InsertRetired(old(retired), sequenceId).Some?
      ensures retired == if ok then InsertRetired(old(retired), sequenceId).value else old(retired)
    {
      hide Canonical, Covers, IsFloor, IsCeiling;
      var previous := Floor(retired, sequenceId);
      var next := Ceiling(retired, sequenceId);
      var joinsPrevious := previous.Some? && CheckedSuccessor(retired[previous.value]) == Some(sequenceId);
      var joinsNext := next.Some? && CheckedSuccessor(sequenceId) == Some(next.value);
      if joinsPrevious && joinsNext {
        var nextEnd := retired[next.value];
        retired := retired[previous.value := nextEnd];
        retired := retired - {next.value};
      } else if joinsPrevious {
        retired := retired[previous.value := sequenceId];
      } else if joinsNext {
        var nextEnd := retired[next.value];
        retired := retired - {next.value};
        retired := retired[sequenceId := nextEnd];
      } else {
        if |retired| >= MAX_RETIRED_SEQUENCE_RANGES {
          return false;
        }
        retired := retired[sequenceId := sequenceId];
      }
      return true;
    }
  }

  /** At most 255 consecutive ids never wrap onto each other. */
  lemma WrappingAddInjective(base: u32, n: nat)
    requires n <= 255
    ensures forall i: nat | i < n :: WrappingAdd(base, i) != WrappingAdd(base, n)
  {
    forall i: nat | i < n
      ensures WrappingAdd(base, i) != WrappingAdd(base, n)
    {
      assert base + n == base + i + (n - i);
    }
  }
}
