/** Planning the segments of a submit content, and cutting them out. */
module SmsSplit {
  import opened Wrappers
  import opened SmsText
  import opened Utf8
  import opened SmsPlan

  /** Byte offsets into the UTF-8 string. */
  datatype Range = Range(start: nat, end: nat)

  datatype Plan = Plan(content: Text, encoding: SmsEncoding, ranges: seq<Range>, preferredRef: Option<u8>)

  datatype PlanError = TooManySegments | OutOfRange | MissingReference

  datatype Segment = Segment(msgFmt: u8, tpUdhi: u8, pkTotal: u8, pkNumber: u8, content: seq<u8>)

  /** Byte offset of character position `k`. */
  function Offset(t: Text, k: nat): nat
    requires k <= |t|
  {
    Utf8Size(t[..k])
  }

  lemma OffsetSnoc(t: Text, k: nat)
    requires k < |t|
    ensures Offset(t, k + 1) == Offset(t, k) + Utf8Width(t[k])
  {
    assert t[..k + 1][..k] == t[..k];
  }

  lemma {:induction false} OffsetGrows(t: Text, j: nat, k: nat)
    requires j < k <= |t|
    ensures Offset(t, j) < Offset(t, k)
  {
    hide Offset;
    OffsetSnoc(t, k - 1);
    if j < k - 1 {
      OffsetGrows(t, j, k - 1);
    }
  }

  /** `ranges` are the byte ranges of the segments between `cuts`. */
  ghost predicate RangesAre(t: Text, ranges: seq<Range>, cuts: Cuts) {
    && |cuts| == |ranges| + 1
    && (forall k | 0 <= k < |cuts| :: cuts[k] <= |t|)
    && forall k | 0 <= k < |ranges| :: ranges[k] == Range(Offset(t, cuts[k]), Offset(t, cuts[k + 1]))
  }

  lemma RangesSnoc(t: Text, ranges: seq<Range>, cuts: Cuts, k: nat)
    requires RangesAre(t, ranges, cuts) && k <= |t|
    ensures RangesAre(t, ranges + [Range(Offset(t, cuts[|cuts| - 1]), Offset(t, k))], cuts + [k])
  {
    hide Offset;
  }

  // ------------------------------------------------------------ the two passes

  method TotalBytes(t: Text, e: SmsEncoding) returns (total: nat)
    requires e == ChooseEncoding(t)
    ensures total == Size(e, t)
  {
    match e {
      case Ascii =>
        Utf8Ascii(t);
        AsciiSize(t);
        total := Utf8Size(t);
      case Ucs2 =>
        total := 0;
        for i := 0 to |t|
          invariant total == Size(Ucs2, t[..i])
        {
          assert t[..i + 1][..i] == t[..i];
          total := total + 2 * |Units(t[i])|;
        }
        assert t[..|t|] == t;
    }
  }

  /** The counting pass. */
  method CountUcs2Segments(t: Text) returns (count: nat, ghost cuts: Cuts)
    requires t != []
    ensures Greedy(Ucs2, t, cuts)
    ensures forall greedy | Greedy(Ucs2, t, greedy) :: count == |greedy| - 1
  {
    hide Growing, StartsNew, Greedy;
    count := 1;
    var current: nat := 0;
    cuts := [0];
    GrowStart(Ucs2, t);
    for i := 0 to |t|
      invariant Growing(Ucs2, t, cuts, i, current) && count == |cuts|
    {
      var encodedLen := 2 * |Units(t[i])|;
      StartsNewIs(Ucs2, t[i], current);
      if current != 0 && current + encodedLen > MULTIPART_MAX_BYTES {
        GrowClose(Ucs2, t, cuts, i, current);
        cuts := cuts + [i];
        count := count + 1;
        current := 0;
      } else {
        GrowOpen(Ucs2, t, cuts, i, current);
      }
      current := current + encodedLen;
    }
    GrowEnd(Ucs2, t, cuts, current);
    cuts := cuts + [|t|];
    forall greedy | Greedy(Ucs2, t, greedy)
      ensures count == |greedy| - 1
    {
      GreedyIsUnique(Ucs2, t, cuts, greedy);
    }
  }

  lemma StartsNewIs(e: SmsEncoding, c: Scalar, current: nat)
    ensures StartsNew(e, c, current) <==> current != 0 && current + Width(e, c) > MULTIPART_MAX_BYTES
  {
  }

  /** The pass that records the segments. */
  method Ucs2Ranges(t: Text) returns (ranges: seq<Range>, ghost cuts: Cuts)
    requires t != []
    ensures Greedy(Ucs2, t, cuts)
    ensures forall greedy | Greedy(Ucs2, t, greedy) :: RangesAre(t, ranges, greedy)
  {
    hide Growing, StartsNew, Greedy, RangesAre, Offset;
    ranges := [];
    var start: nat, current: nat, offset: nat := 0, 0, 0;
    cuts := [0];
    GrowStart(Ucs2, t);
    FirstRange(t);
    for i := 0 to |t|
      invariant Growing(Ucs2, t, cuts, i, current) && RangesAre(t, ranges, cuts) && cuts != []
      invariant cuts[|cuts| - 1] <= |t| && start == Offset(t, cuts[|cuts| - 1]) && offset == Offset(t, i)
    {
      var encodedLen := 2 * |Units(t[i])|;
      StartsNewIs(Ucs2, t[i], current);
      if current != 0 && current + encodedLen > MULTIPART_MAX_BYTES {
        GrowClose(Ucs2, t, cuts, i, current);
        RangesSnoc(t, ranges, cuts, i);
        cuts := cuts + [i];
        ranges := ranges + [Range(start, offset)];
        start := offset;
        current := 0;
      } else {
        GrowOpen(Ucs2, t, cuts, i, current);
      }
      current := current + encodedLen;
      OffsetSnoc(t, i);
      offset := offset + Utf8Width(t[i]);
    }
    GrowEnd(Ucs2, t, cuts, current);
    RangesSnoc(t, ranges, cuts, |t|);
    WholeOffset(t);
    ranges := ranges + [Range(start, Utf8Size(t))];
    cuts := cuts + [|t|];
    forall greedy | Greedy(Ucs2, t, greedy)
      ensures RangesAre(t, ranges, greedy)
    {
      GreedyIsUnique(Ucs2, t, cuts, greedy);
    }
  }

  lemma FirstRange(t: Text)
    ensures RangesAre(t, [], [0]) && Offset(t, 0) == 0
  {
  }

  lemma WholeOffset(t: Text)
    ensures Offset(t, |t|) == Utf8Size(t)
  {
    assert t[..|t|] == t;
  }

  lemma AsciiSpan(t: Text, from: nat, to: nat)
    requires from <= to <= |t|
    ensures Span(Ascii, t, from, to) == to - from
  {
    AsciiSize(t[from..to]);
  }

  lemma AsciiOffset(t: Text, k: nat)
    requires IsAscii(t) && k <= |t|
    ensures Offset(t, k) == k
  {
    Utf8Ascii(t[..k]);
  }

  /** Full chunks up to `start`, the last one excepted once the text is used up. */
  ghost predicate Chunked(t: Text, cuts: Cuts, start: nat) {
    && |cuts| >= 1 && cuts[0] == 0 && cuts[|cuts| - 1] == start <= |t| && StrictlyAscending(cuts)
    && (forall k: nat | k + 1 < |cuts| && (k + 2 < |cuts| || start < |t|) :: Full(Ascii, t, cuts, k))
    && (start < |t| ==> start == (|cuts| - 1) * MULTIPART_MAX_BYTES)
    && (start == |t| ==> (|cuts| - 2) * MULTIPART_MAX_BYTES < |t| <= (|cuts| - 1) * MULTIPART_MAX_BYTES)
    && (|cuts| >= 2 ==> cuts[|cuts| - 2] <= start && start - cuts[|cuts| - 2] <= MULTIPART_MAX_BYTES)
  }

  lemma ChunkStep(t: Text, cuts: Cuts, start: nat, length: nat)
    requires Chunked(t, cuts, start) && start < |t|
    requires length == if |t| - start < MULTIPART_MAX_BYTES then |t| - start else MULTIPART_MAX_BYTES
    ensures Chunked(t, cuts + [start + length], start + length)
  {
    var all := cuts + [start + length];
    forall k: nat | k + 1 < |all| && (k + 2 < |all| || start + length < |t|)
      ensures Full(Ascii, t, all, k)
    {
      if k + 1 < |cuts| {
        assert Full(Ascii, t, cuts, k);
      } else {
        AsciiSpan(t, start, start + length);
      }
    }
  }

  lemma ChunkEnd(t: Text, cuts: Cuts)
    requires Chunked(t, cuts, |t|) && t != []
    ensures Greedy(Ascii, t, cuts)
    ensures |cuts| - 1 == (|t| + MULTIPART_MAX_BYTES - 1) / MULTIPART_MAX_BYTES
  {
    AsciiSpan(t, cuts[|cuts| - 2], |t|);
  }

  /** The count that division gives is the count of the greedy split. */
  lemma AsciiCuts(t: Text) returns (cuts: Cuts)
    requires t != []
    ensures Greedy(Ascii, t, cuts)
    ensures |cuts| - 1 == (|t| + MULTIPART_MAX_BYTES - 1) / MULTIPART_MAX_BYTES
  {
    hide Greedy, Full;
    var start := 0;
    cuts := [0];
    while start < |t|
      invariant Chunked(t, cuts, start)
    {
      var length := if |t| - start < MULTIPART_MAX_BYTES then |t| - start else MULTIPART_MAX_BYTES;
      ChunkStep(t, cuts, start, length);
      cuts := cuts + [start + length];
      start := start + length;
    }
    ChunkEnd(t, cuts);
  }

  method AsciiRanges(t: Text) returns (ranges: seq<Range>, ghost cuts: Cuts)
    requires IsAscii(t) && t != []
    ensures Greedy(Ascii, t, cuts)
    ensures forall greedy | Greedy(Ascii, t, greedy) :: RangesAre(t, ranges, greedy)
    ensures |ranges| == (|t| + MULTIPART_MAX_BYTES - 1) / MULTIPART_MAX_BYTES
  {
    hide Greedy, RangesAre, Offset, Full;
    ranges := [];
    var start := 0;
    cuts := [0];
    FirstRange(t);
    while start < |t|
      invariant Chunked(t, cuts, start) && RangesAre(t, ranges, cuts)
    {
      var length := if |t| - start < MULTIPART_MAX_BYTES then |t| - start else MULTIPART_MAX_BYTES;
      ChunkStep(t, cuts, start, length);
      AsciiOffset(t, start);
      AsciiOffset(t, start + length);
      RangesSnoc(t, ranges, cuts, start + length);
      cuts := cuts + [start + length];
      ranges := ranges + [Range(start, start + length)];
      start := start + length;
    }
    ChunkEnd(t, cuts);
    RangesCount(t, ranges, cuts);
    forall greedy | Greedy(Ascii, t, greedy)
      ensures RangesAre(t, ranges, greedy)
    {
      GreedyIsUnique(Ascii, t, cuts, greedy);
    }
  }

  lemma RangesCount(t: Text, ranges: seq<Range>, cuts: Cuts)
    requires RangesAre(t, ranges, cuts)
    ensures |cuts| == |ranges| + 1
  {
  }

  // ---------------------------------------------------------------- the plan

  /** A split into segments that can be sent: one whole segment, or several that fit
      beside their header. */
  ghost predicate Sendable(t: Text, cuts: Cuts) {
    && IsPartition(t, cuts)
    && ((|cuts| == 2 && Size(ChooseEncoding(t), t) <= SINGLE_MAX_BYTES) || Fits(ChooseEncoding(t), t, cuts))
  }

  ghost predicate Planned(t: Text, p: Plan, cuts: Cuts) {
    && p.content == t && p.encoding == ChooseEncoding(t)
    && RangesAre(t, p.ranges, cuts) && Sendable(t, cuts) && 1 <= |p.ranges| <= 255
    && (|p.ranges| > 1 <==> Size(p.encoding, t) > SINGLE_MAX_BYTES)
    && (|p.ranges| > 1 ==> Greedy(p.encoding, t, cuts))
    && (p.preferredRef.Some? <==> |p.ranges| > 1)
  }

  lemma WholePlan(t: Text)
    requires Size(ChooseEncoding(t), t) <= SINGLE_MAX_BYTES
    ensures Sendable(t, [0, |t|]) && RangesAre(t, [Range(0, Utf8Size(t))], [0, |t|])
  {
    hide ChooseEncoding, Size;
    FirstRange(t);
    WholeOffset(t);
    RangesSnoc(t, [], [0], |t|);
    assert [] + [Range(0, Utf8Size(t))] == [Range(0, Utf8Size(t))] && [0] + [|t|] == [0, |t|];
  }

  /** No sendable split is shorter than the greedy one of a long text. */
  lemma LongFewest(t: Text, greedy: Cuts, other: Cuts)
    requires Size(ChooseEncoding(t), t) > SINGLE_MAX_BYTES
    requires Greedy(ChooseEncoding(t), t, greedy) && Sendable(t, other)
    ensures |greedy| <= |other|
  {
    hide Size, ChooseEncoding, Greedy, Fits;
    GreedyIsFewest(ChooseEncoding(t), t, greedy, other);
  }

  /** A long text needs more than one segment. */
  lemma LongIsMultipart(t: Text, cuts: Cuts)
    requires Size(ChooseEncoding(t), t) > SINGLE_MAX_BYTES && Greedy(ChooseEncoding(t), t, cuts)
    ensures |cuts| > 2
  {
    hide Size, ChooseEncoding, Full;
    assert t[0..|t|] == t;
  }

  /** The plan has the fewest segments any sendable split can have. */
  lemma PlanIsFewest(t: Text, p: Plan, cuts: Cuts, other: Cuts)
    requires Planned(t, p, cuts) && Sendable(t, other)
    ensures |p.ranges| <= |other| - 1
  {
    hide Size, ChooseEncoding, Greedy, Fits;
    if |p.ranges| > 1 {
      LongFewest(t, cuts, other);
    }
  }

  lemma LongPlan(t: Text, cuts: Cuts)
    requires Greedy(ChooseEncoding(t), t, cuts)
    ensures Sendable(t, cuts)
  {
    hide ChooseEncoding;
    GreedyFits(ChooseEncoding(t), t, cuts);
  }

  lemma PlanWitness(t: Text, cuts: Cuts)
    requires Sendable(t, cuts) && |cuts| - 1 <= 255
    ensures !forall other | Sendable(t, other) :: |other| - 1 > 255
  {
    hide Sendable;
  }

  lemma LongNotEmpty(t: Text, e: SmsEncoding)
    requires Size(e, t) > SINGLE_MAX_BYTES
    ensures t != []
  {
  }

  /** Planning fails exactly when no sendable split has at most 255 segments. */
  method PrepareSubmitContent(t: Text, counter: u32) returns (r: Result<Plan, PlanError>, next: u32, ghost cuts: Cuts)
    ensures r.Ok? ==> Planned(t, r.value, cuts)
    ensures r.Err? <==> forall other | Sendable(t, other) :: |other| - 1 > 255
    ensures r.Err? ==> r.error == TooManySegments
    ensures next == if r.Err? || |r.value.ranges| == 1 then counter
                    else if counter == 0xFFFF_FFFF then 0 else counter + 1
    ensures r.Ok? && r.value.preferredRef.Some? ==> r.value.preferredRef.value == counter % 256
  {
    hide Greedy, Sendable, RangesAre, Size, Offset;
    var encoding := ChooseEncoding(t);
    var totalBytes := TotalBytes(t, encoding);
    next := counter;
    if totalBytes <= SINGLE_MAX_BYTES {
      cuts := [0, |t|];
      WholePlan(t);
      PlanWitness(t, cuts);
      return Ok(Plan(t, encoding, [Range(0, Utf8Size(t))], None)), next, cuts;
    }
    LongNotEmpty(t, encoding);
    var segmentCount: nat;
    ghost var counted: Cuts;
    match encoding {
      case Ascii =>
        AsciiSize(t);
        segmentCount := (totalBytes + MULTIPART_MAX_BYTES - 1) / MULTIPART_MAX_BYTES;
        counted := AsciiCuts(t);
      case Ucs2 => segmentCount, counted := CountUcs2Segments(t);
    }
    if segmentCount > 255 {
      forall other | Sendable(t, other)
        ensures |other| - 1 > 255
      {
        LongFewest(t, counted, other);
      }
      return Err(TooManySegments), next, counted;
    }
    var ranges;
    match encoding {
      case Ascii => ranges, cuts := AsciiRanges(t);
      case Ucs2 => ranges, cuts := Ucs2Ranges(t);
    }
    GreedyIsUnique(encoding, t, counted, cuts);
    RangesCount(t, ranges, cuts);
    assert segmentCount == |ranges|;
    LongPlan(t, cuts);
    LongIsMultipart(t, cuts);
    PlanWitness(t, cuts);
    next := WrappingAdd(counter, 1);
    r := Ok(Plan(t, encoding, ranges, Some(counter % 256)));
  }
}
