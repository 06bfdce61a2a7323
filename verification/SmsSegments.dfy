/** Cutting the segments of a plan, and reading them back. */
module SmsSegments {
  import opened Wrappers
  import opened SmsText
  import opened Utf8
  import opened SmsPlan
  import opened SmsSplit

  /** Character position of a byte offset. */
  function PositionOf(t: Text, offset: nat): (k: nat)
    ensures k <= |t|
  {
    if t == [] || Utf8Size(t) <= offset then |t| else PositionOf(t[..|t| - 1], offset)
  }

  lemma {:induction false} PositionOfOffset(t: Text, k: nat)
    requires k <= |t|
    ensures PositionOf(t, Offset(t, k)) == k
  {
    if k == |t| {
      WholeOffset(t);
    } else {
      OffsetGrows(t, k, |t|);
      WholeOffset(t);
      PositionOfOffset(t[..|t| - 1], k);
      assert t[..|t| - 1][..k] == t[..k];
    }
  }

  /** The characters in a byte range whose ends lie between characters. */
  function Slice(t: Text, r: Range): Text
    requires PositionOf(t, r.start) <= PositionOf(t, r.end)
  {
    t[PositionOf(t, r.start)..PositionOf(t, r.end)]
  }

  lemma SliceIsPart(t: Text, ranges: seq<Range>, cuts: Cuts, k: nat)
    requires RangesAre(t, ranges, cuts) && k < |ranges| && cuts[k] <= cuts[k + 1]
    ensures PositionOf(t, ranges[k].start) == cuts[k] && PositionOf(t, ranges[k].end) == cuts[k + 1]
  {
    hide Offset, PositionOf;
    PositionOfOffset(t, cuts[k]);
    PositionOfOffset(t, cuts[k + 1]);
  }

  function Header(reference: u8, total: u8, number: u8): seq<u8> {
    [0x05, 0x00, 0x03, reference, total, number]
  }

  /** Segment `index` of the plan, as it is sent. */
  method CutSegment(p: Plan, index: nat, reference: Option<u8>, ghost cuts: Cuts)
    returns (r: Result<Segment, PlanError>)
    requires Planned(p.content, p, cuts)
    ensures r.Err? <==> index >= |p.ranges|
    ensures r.Err? ==> r.error == OutOfRange
    ensures r.Ok? ==> IsSegment(p, cuts, index, reference, r.value)
    ensures r.Ok? && |p.ranges| > 1 ==>
              && |r.value.content| > 5 && (reference.Some? || p.preferredRef.Some?)
              && r.value.content[0] == 5 && r.value.content[1] == 0 && r.value.content[2] == 3
              && r.value.content[3] == (if reference.Some? then reference else p.preferredRef).value
              && r.value.content[4] == |p.ranges| && r.value.content[5] == index + 1
  {
    hide Sendable, RangesAre, Greedy, Encoded, Size;
    if index >= |p.ranges| { return Err(OutOfRange); }
    PlanParts(p, cuts, index);
    var encoded := EncodeContent(Slice(p.content, p.ranges[index]), p.encoding);
    if |p.ranges| == 1 {
      return Ok(Segment(MsgFmt(p.encoding), 0, 1, 1, encoded));
    }
    var total: u8 := |p.ranges|;
    var number: u8 := index + 1;
    var ref := if reference.Some? then reference.value else p.preferredRef.value;
    r := Ok(Segment(MsgFmt(p.encoding), 1, total, number, Header(ref, total, number) + encoded));
  }

  /** What segment `index` must be: its characters, numbered from one, with the
      concatenation header exactly when there are several. */
  ghost predicate IsSegment(p: Plan, cuts: Cuts, index: nat, reference: Option<u8>, s: Segment) {
    && IsPartition(p.content, cuts) && |cuts| == |p.ranges| + 1 && index < |p.ranges|
    && var encoded := Encoded(p.content[cuts[index]..cuts[index + 1]], p.encoding);
       && s.msgFmt == MsgFmt(p.encoding)
       && s.pkTotal == |p.ranges| && s.pkNumber == index + 1
       && (if |p.ranges| == 1 then s.tpUdhi == 0 && s.content == encoded
           else
             && s.tpUdhi == 1
             && (reference.Some? || p.preferredRef.Some?)
             && s.content == Header(if reference.Some? then reference.value else p.preferredRef.value,
                                    s.pkTotal, s.pkNumber) + encoded)
  }

  lemma PlanParts(p: Plan, cuts: Cuts, index: nat)
    requires Planned(p.content, p, cuts) && index < |p.ranges|
    ensures IsPartition(p.content, cuts) && |cuts| == |p.ranges| + 1
    ensures PositionOf(p.content, p.ranges[index].start) == cuts[index]
    ensures PositionOf(p.content, p.ranges[index].end) == cuts[index + 1]
  {
    hide PositionOf, Fits, Greedy, Size, Offset;
    SliceIsPart(p.content, p.ranges, cuts, index);
  }

  /** A segment is never longer than the content field allows. */
  lemma SegmentFits(p: Plan, cuts: Cuts, index: nat, reference: Option<u8>, s: Segment)
    requires Planned(p.content, p, cuts) && IsSegment(p, cuts, index, reference, s)
    ensures |s.content| <= SINGLE_MAX_BYTES
  {
    hide RangesAre, Greedy, Size, Encoded, ChooseEncoding;
    var t := p.content;
    EncodedSize(t[cuts[index]..cuts[index + 1]], p.encoding);
    if |p.ranges| > 1 {
      assert SegmentSize(p.encoding, t, cuts, index) <= MULTIPART_MAX_BYTES;
    } else {
      assert t[0..|t|] == t;
    }
  }

  /** Each segment decodes to its own characters, alone. */
  lemma SegmentDecodes(p: Plan, cuts: Cuts, index: nat, reference: Option<u8>, s: Segment)
    requires Planned(p.content, p, cuts) && IsSegment(p, cuts, index, reference, s)
    ensures DecodeMsgContent(s.msgFmt, s.tpUdhi, s.content) == Some(p.content[cuts[index]..cuts[index + 1]])
  {
    hide RangesAre, Size, Encoded, Full, Sendable, DecodeMsgContent;
    var part := p.content[cuts[index]..cuts[index + 1]];
    if |p.ranges| > 1 {
      ContentRoundTrip(part, p.encoding, s.content[..6]);
      assert s.content == s.content[..6] + Encoded(part, p.encoding);
    } else {
      ContentRoundTrip(part, p.encoding, []);
      assert [] + s.content == s.content;
    }
  }

  function Join(parts: seq<Text>): Text {
    if parts == [] then [] else Join(parts[..|parts| - 1]) + parts[|parts| - 1]
  }

  /** The parts between the first `n` cuts make up the text up to there. */
  lemma {:induction false} PartsJoin(t: Text, cuts: Cuts, parts: seq<Text>)
    requires IsPartition(t, cuts) && |parts| < |cuts|
    requires forall k | 0 <= k < |parts| :: parts[k] == t[cuts[k]..cuts[k + 1]]
    ensures Join(parts) == t[..cuts[|parts|]]
  {
    if parts != [] {
      var n := |parts| - 1;
      PartsJoin(t, cuts, parts[..n]);
      assert t[..cuts[n]] + t[cuts[n]..cuts[n + 1]] == t[..cuts[n + 1]];
    }
  }

  /** The text of each segment; None as soon as one cannot be decoded. */
  function DecodeAll(segments: seq<Segment>): Option<seq<Text>> {
    if segments == [] then Some([])
    else
      var s := segments[|segments| - 1];
      match (DecodeAll(segments[..|segments| - 1]), DecodeMsgContent(s.msgFmt, s.tpUdhi, s.content))
      case (Some(parts), Some(part)) => Some(parts + [part])
      case _ => None
  }

  ghost predicate AreSegments(p: Plan, cuts: Cuts, segments: seq<Segment>) {
    |segments| <= |p.ranges| && forall k: nat | k < |segments| :: IsSegment(p, cuts, k, p.preferredRef, segments[k])
  }

  lemma {:induction false} AllDecode(p: Plan, cuts: Cuts, segments: seq<Segment>)
    requires Planned(p.content, p, cuts) && AreSegments(p, cuts, segments)
    ensures DecodeAll(segments).Some? && |DecodeAll(segments).value| == |segments|
    ensures IsPartition(p.content, cuts) && |cuts| == |p.ranges| + 1
    ensures forall k: nat | k < |segments| ::
              DecodeAll(segments).value[k] == p.content[cuts[k]..cuts[k + 1]]
  {
    hide DecodeMsgContent, DecodeAll, IsSegment, Greedy, RangesAre, Fits, Sendable, Size;
    PlanPartition(p, cuts);
    if segments == [] {
      DecodeNone();
    } else {
      var n := |segments| - 1;
      AllDecode(p, cuts, segments[..n]);
      assert IsSegment(p, cuts, n, p.preferredRef, segments[n]);
      SegmentDecodes(p, cuts, n, p.preferredRef, segments[n]);
      DecodeSnoc(segments, p.content[cuts[n]..cuts[n + 1]]);
    }
  }

  lemma PlanPartition(p: Plan, cuts: Cuts)
    requires Planned(p.content, p, cuts)
    ensures IsPartition(p.content, cuts) && |cuts| == |p.ranges| + 1
  {
    hide Greedy, Fits, Size;
  }

  lemma DecodeNone()
    ensures DecodeAll([]) == Some([])
  {
  }

  lemma DecodeSnoc(segments: seq<Segment>, part: Text)
    requires segments != [] && DecodeAll(segments[..|segments| - 1]).Some?
    requires var s := segments[|segments| - 1]; DecodeMsgContent(s.msgFmt, s.tpUdhi, s.content) == Some(part)
    ensures DecodeAll(segments) == Some(DecodeAll(segments[..|segments| - 1]).value + [part])
  {
    hide DecodeMsgContent;
  }

  /** Reading the segments one by one and joining gives back the whole text. */
  lemma SplitRoundTrip(p: Plan, cuts: Cuts, segments: seq<Segment>)
    requires Planned(p.content, p, cuts) && AreSegments(p, cuts, segments) && |segments| == |p.ranges|
    ensures DecodeAll(segments).Some? && Join(DecodeAll(segments).value) == p.content
  {
    hide IsSegment, Greedy, RangesAre, Fits, Size, DecodeAll, Join;
    AllDecode(p, cuts, segments);
    PartsJoin(p.content, cuts, DecodeAll(segments).value);
  }

  method TrySplitContent(t: Text, counter: u32) returns (r: Result<seq<Segment>, PlanError>, next: u32)
    ensures r.Err? <==> forall other | Sendable(t, other) :: |other| - 1 > 255
    ensures r.Ok? ==> DecodeAll(r.value).Some? && Join(DecodeAll(r.value).value) == t
    ensures r.Ok? ==> forall other | Sendable(t, other) :: |r.value| <= |other| - 1
    ensures r.Ok? ==> forall k: nat | k < |r.value| ::
              && r.value[k].pkTotal == |r.value| && r.value[k].pkNumber == k + 1
              && |r.value[k].content| <= SINGLE_MAX_BYTES
    ensures r.Ok? && |r.value| > 1 ==> forall k: nat | k < |r.value| ::
              && r.value[k].tpUdhi == 1 && |r.value[k].content| > 6
              && r.value[k].content[0] == 5 && r.value[k].content[1] == 0 && r.value[k].content[2] == 3
              && r.value[k].content[3] == counter % 256
              && r.value[k].content[4] == |r.value| && r.value[k].content[5] == k + 1
    ensures r.Ok? && |r.value| == 1 ==> r.value[0].tpUdhi == 0 && r.value[0].content == Encoded(t, ChooseEncoding(t))
    ensures r.Ok? ==> |r.value| >= 1 && (|r.value| == 1 <==> |Encoded(t, ChooseEncoding(t))| <= 140)
    ensures r.Ok? ==> forall k: nat | k < |r.value| ::
              r.value[k].msgFmt == if forall i | 0 <= i < |t| :: t[i] < 0x80 then 0 else 8
    ensures next == if r.Err? || |r.value| == 1 then counter
                    else if counter == 0xFFFF_FFFF then 0 else counter + 1
  {
    hide Sendable, Planned, IsSegment, Join, DecodeAll, Size, Encoded;
    ghost var cuts: Cuts;
    var plan: Result<Plan, PlanError>;
    plan, next, cuts := PrepareSubmitContent(t, counter);
    if plan.Err? { return Err(plan.error), next; }
    var p := plan.value;
    PlannedContent(t, p, cuts);
    EncodedSize(t, p.encoding);
    var segments: seq<Segment> := [];
    var index := 0;
    while index < |p.ranges|
      invariant index <= |p.ranges| && |segments| == index && AreSegments(p, cuts, segments)
      invariant forall k: nat | k < index :: Shaped(p, k, segments[k])
    {
      var segment := CutSegment(p, index, p.preferredRef, cuts);
      SegmentShape(p, cuts, index, segment.value);
      segments := segments + [segment.value];
      index := index + 1;
    }
    SplitRoundTrip(p, cuts, segments);
    forall other | Sendable(t, other)
      ensures |segments| <= |other| - 1
    {
      PlanIsFewest(t, p, cuts, other);
    }
    r := Ok(segments);
  }

  lemma PlannedContent(t: Text, p: Plan, cuts: Cuts)
    requires Planned(t, p, cuts)
    ensures p.content == t && 1 <= |p.ranges| <= 255 && (p.preferredRef.Some? <==> |p.ranges| > 1)
    ensures p.encoding == ChooseEncoding(t) && (|p.ranges| > 1 <==> Size(p.encoding, t) > SINGLE_MAX_BYTES)
  {
    hide Sendable, RangesAre, Greedy;
  }

  /** Numbering and header of segment `k`. */
  predicate Shaped(p: Plan, k: nat, s: Segment) {
    && s.pkTotal == |p.ranges| && s.pkNumber == k + 1 && |s.content| <= SINGLE_MAX_BYTES
    && s.msgFmt == MsgFmt(p.encoding)
    && (|p.ranges| == 1 ==> s.tpUdhi == 0 && s.content == Encoded(p.content, p.encoding))
    && (|p.ranges| > 1 ==>
          && s.tpUdhi == 1 && |s.content| > 6 && p.preferredRef.Some?
          && s.content[0] == 5 && s.content[1] == 0 && s.content[2] == 3
          && s.content[3] == p.preferredRef.value && s.content[4] == s.pkTotal && s.content[5] == s.pkNumber)
  }

  lemma SegmentShape(p: Plan, cuts: Cuts, k: nat, s: Segment)
    requires Planned(p.content, p, cuts) && IsSegment(p, cuts, k, p.preferredRef, s)
    ensures Shaped(p, k, s)
  {
    hide RangesAre, Size, Encoded, Full, Sendable;
    SegmentFits(p, cuts, k, p.preferredRef, s);
    var part := p.content[cuts[k]..cuts[k + 1]];
    if |p.ranges| > 1 {
      EncodedNotEmpty(part, p.encoding);
    } else {
      assert part == p.content;
    }
  }

  /** A split can be sent when it is one segment of at most 140 bytes, or when each
      part fits into 140 bytes behind a six-byte header. */
  lemma SendableIs(t: Text, cuts: Cuts)
    requires IsPartition(t, cuts)
    ensures Sendable(t, cuts) <==>
              || (|cuts| == 2 && |Encoded(t, ChooseEncoding(t))| <= 140)
              || forall k: nat | k < |cuts| - 1 :: 6 + |Encoded(t[cuts[k]..cuts[k + 1]], ChooseEncoding(t))| <= 140
  {
    hide Encoded, Size, ChooseEncoding;
    EncodedSize(t, ChooseEncoding(t));
    forall k: nat | k < |cuts| - 1
      ensures SegmentSize(ChooseEncoding(t), t, cuts, k) ==
              |Encoded(t[cuts[k]..cuts[k + 1]], ChooseEncoding(t))|
    {
      EncodedSize(t[cuts[k]..cuts[k + 1]], ChooseEncoding(t));
    }
  }
}
