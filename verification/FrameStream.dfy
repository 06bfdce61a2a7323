/** Frames on a byte stream that arrives in pieces. */
module FrameStream {
  import opened Wrappers
  import opened WireBytes
  import opened Pdu
  import opened PduRoundTrip

  const CMPP_HEADER_LENGTH: nat := 12
  const CMPP_MAX_MESSAGE_LENGTH: nat := 65536

  datatype Frame = Frame(sequenceId: u32, pdu: Pdu)

  /** The frame that arrives. */
  function FrameKept(f: Frame): Frame {
    Frame(f.sequenceId, PduKept(f.pdu))
  }

  function AllKept(frames: seq<Frame>): (kept: seq<Frame>)
    ensures |kept| == |frames|
  {
    seq(|frames|, i requires 0 <= i < |frames| => FrameKept(frames[i]))
  }

  predicate AllEncodable(frames: seq<Frame>) {
    forall i | 0 <= i < |frames| :: Encodable(frames[i].pdu)
  }

  lemma FrameLength(p: Pdu)
    requires Encodable(p)
    ensures CMPP_HEADER_LENGTH + |Body(p)| <= 12 + 126 + 255 * 21 + 255 < CMPP_MAX_MESSAGE_LENGTH
  {
    HintIsExact(p);
    hide Body;
  }

  function FrameBytes(f: Frame): (b: Bytes)
    requires Encodable(f.pdu)
    ensures |b| == CMPP_HEADER_LENGTH + |Body(f.pdu)|
  {
    FrameLength(f.pdu);
    BigEndian32(CMPP_HEADER_LENGTH + |Body(f.pdu)|) + BigEndian32(CommandId(f.pdu)) + BigEndian32(f.sequenceId)
    + Body(f.pdu)
  }

  /** One call of the decoder: what it returns, and what it leaves in the buffer. */
  function DecodeStep(data: Bytes): (Result<Option<Frame>, DecodeError>, Bytes) {
    if |data| < CMPP_HEADER_LENGTH then (Ok(None), data)
    else
      var total: nat := FromBigEndian32(data[..4]);
      if !(CMPP_HEADER_LENGTH <= total <= CMPP_MAX_MESSAGE_LENGTH) then (Err(MessageLength), data)
      else if |data| < total then (Ok(None), data)
      else
        match DecodePdu(FromBigEndian32(data[4..8]), data[12..total])
        case Err(e) => (Err(e), data[total..])
        case Ok(p) => (Ok(Some(Frame(FromBigEndian32(data[8..12]), p))), data[total..])
  }

  datatype Drained = Drained(frames: seq<Frame>, rest: Bytes, error: Option<DecodeError>)

  /** Decoding until more bytes are needed. */
  function Drain(data: Bytes): Drained
    decreases |data|
  {
    match DecodeStep(data)
    case (Ok(None), rest) => Drained([], rest, None)
    case (Err(e), rest) => Drained([], rest, Some(e))
    case (Ok(Some(f)), rest) =>
      var d := Drain(rest);
      Drained([f] + d.frames, d.rest, d.error)
  }

  /** The pieces arrive one after the other; each is drained before the next. */
  function Feed(buffer: Bytes, pieces: seq<Bytes>): Drained
    decreases |pieces|
  {
    if pieces == [] then Drained([], buffer, None)
    else
      var d := Drain(buffer + pieces[0]);
      if d.error.Some? then d
      else
        var later := Feed(d.rest, pieces[1..]);
        Drained(d.frames + later.frames, later.rest, later.error)
  }

  function Stream(frames: seq<Frame>): Bytes
    requires AllEncodable(frames)
  {
    if frames == [] then [] else FrameBytes(frames[0]) + Stream(frames[1..])
  }

  // ----------------------------------------------------------------- one frame

  lemma HeaderReads(f: Frame, more: Bytes)
    requires Encodable(f.pdu)
    ensures var data, total := FrameBytes(f) + more, CMPP_HEADER_LENGTH + |Body(f.pdu)|;
            && FromBigEndian32(data[..4]) == total && FromBigEndian32(data[4..8]) == CommandId(f.pdu)
            && FromBigEndian32(data[8..12]) == f.sequenceId && data[12..total] == Body(f.pdu) && data[total..] == more
  {
    hide BigEndian32, FromBigEndian32, Body, CommandId;
    FrameLength(f.pdu);
    BigEndian32RoundTrip(CMPP_HEADER_LENGTH + |Body(f.pdu)|);
    BigEndian32RoundTrip(CommandId(f.pdu));
    BigEndian32RoundTrip(f.sequenceId);
    var data := FrameBytes(f) + more;
    assert data[..4] == BigEndian32(CMPP_HEADER_LENGTH + |Body(f.pdu)|);
    assert data[4..8] == BigEndian32(CommandId(f.pdu)) && data[8..12] == BigEndian32(f.sequenceId);
  }

  /** A complete frame at the front of the buffer is returned and removed. */
  lemma WholeFrame(f: Frame, more: Bytes)
    requires Encodable(f.pdu)
    ensures DecodeStep(FrameBytes(f) + more) == (Ok(Some(FrameKept(f))), more)
  {
    hide FrameBytes, Body, FromBigEndian32, DecodePdu, CommandId, PduKept, Encodable;
    HeaderReads(f, more);
    FrameLength(f.pdu);
    PduArrives(f.pdu);
  }

  /** A partial frame asks for more bytes and stays in the buffer. */
  lemma PartialFrame(f: Frame, part: Bytes)
    requires Encodable(f.pdu) && part < FrameBytes(f)
    ensures DecodeStep(part) == (Ok(None), part)
  {
    hide FrameBytes, Body, FromBigEndian32, DecodePdu, CommandId;
    HeaderReads(f, []);
    FrameLength(f.pdu);
    assert FrameBytes(f) + [] == FrameBytes(f);
    if |part| >= CMPP_HEADER_LENGTH {
      assert part[..4] == FrameBytes(f)[..4];
    }
  }

  // ---------------------------------------------------------------- the stream

  /** `rest` is a proper beginning of the next frame, or nothing. */
  predicate Waiting(frames: seq<Frame>, rest: Bytes)
    requires AllEncodable(frames)
  {
    if frames == [] then rest == [] else rest < FrameBytes(frames[0])
  }

  lemma DrainOne(f: Frame, more: Bytes)
    requires Encodable(f.pdu)
    ensures Drain(FrameBytes(f) + more) == var d := Drain(more); Drained([FrameKept(f)] + d.frames, d.rest, d.error)
  {
    hide FrameBytes, DecodeStep, Encodable, FrameKept;
    WholeFrame(f, more);
  }

  lemma DrainNone(part: Bytes)
    requires DecodeStep(part) == (Ok(None), part)
    ensures Drain(part) == Drained([], part, None)
  {
    hide DecodeStep;
  }

  /** The stream behind its first frame, as far as `data` reaches. */
  lemma BehindFirst(frames: seq<Frame>, data: Bytes)
    requires frames != [] && AllEncodable(frames) && data <= Stream(frames)
    requires |data| >= |FrameBytes(frames[0])|
    ensures var f, more := FrameBytes(frames[0]), data[|FrameBytes(frames[0])|..];
            && data == f + more && more <= Stream(frames[1..])
            && Stream(frames)[|data|..] == Stream(frames[1..])[|more|..]
  {
    hide FrameBytes, Encodable;
    BeyondPrefix(FrameBytes(frames[0]), Stream(frames[1..]), data);
  }

  lemma BeyondPrefix(f: Bytes, rest: Bytes, data: Bytes)
    requires data <= f + rest && |data| >= |f|
    ensures data == f + data[|f|..] && data[|f|..] <= rest && (f + rest)[|data|..] == rest[|data[|f|..]|..]
  {
    assert f == (f + rest)[..|f|] == data[..|f|];
    assert rest == (f + rest)[|f|..];
  }

  /** Draining the beginning of a stream yields the frames that are complete. */
  lemma {:induction false} DrainPrefix(frames: seq<Frame>, data: Bytes) returns (k: nat)
    requires AllEncodable(frames) && data <= Stream(frames)
    ensures k <= |frames| && Drain(data).frames == AllKept(frames[..k]) && Drain(data).error == None
    ensures Waiting(frames[k..], Drain(data).rest)
    ensures Stream(frames[k..]) == Drain(data).rest + Stream(frames)[|data|..]
    decreases |frames|
  {
    hide FrameBytes, DecodeStep, Drain, AllKept, Encodable, Stream, Waiting, AllEncodable;
    EncodableParts(frames);
    if frames == [] || |data| < |FrameBytes(frames[0])| {
      k := 0;
      DrainShort(frames, data);
    } else {
      BehindFirst(frames, data);
      var more := data[|FrameBytes(frames[0])|..];
      DrainOne(frames[0], more);
      k := DrainPrefix(frames[1..], more);
      KeptCons(frames, k);
      k := k + 1;
    }
  }

  lemma EncodableParts(frames: seq<Frame>)
    requires AllEncodable(frames)
    ensures frames != [] ==> Encodable(frames[0].pdu) && AllEncodable(frames[1..])
    ensures forall k: nat | k <= |frames| :: AllEncodable(frames[k..])
  {
    hide Encodable;
  }

  lemma DrainShort(frames: seq<Frame>, data: Bytes)
    requires AllEncodable(frames) && data <= Stream(frames)
    requires frames == [] || |data| < |FrameBytes(frames[0])|
    ensures Drain(data) == Drained([], data, None) && AllKept(frames[..0]) == []
    ensures Waiting(frames[0..], data) && Stream(frames[0..]) == data + Stream(frames)[|data|..]
  {
    hide FrameBytes, DecodeStep, Drain, Encodable;
    assert frames[0..] == frames;
    if frames == [] {
      EmptyStep();
      DrainNone([]);
    } else {
      assert data == Stream(frames)[..|data|] == FrameBytes(frames[0])[..|data|];
      PartialFrame(frames[0], data);
      DrainNone(data);
    }
  }

  lemma KeptCons(frames: seq<Frame>, k: nat)
    requires k < |frames|
    ensures AllKept(frames[..k + 1]) == [FrameKept(frames[0])] + AllKept(frames[1..][..k])
    ensures frames[1..][k..] == frames[k + 1..]
  {
    hide FrameKept;
  }

  lemma EmptyStep()
    ensures DecodeStep([]) == (Ok(None), [])
  {
  }

  function Concat(pieces: seq<Bytes>): Bytes {
    if pieces == [] then [] else pieces[0] + Concat(pieces[1..])
  }

  lemma NothingWaits(frames: seq<Frame>, buffer: Bytes)
    requires AllEncodable(frames) && Waiting(frames, buffer) && buffer == Stream(frames)
    ensures frames == [] && buffer == []
  {
    hide FrameBytes, Encodable, Stream;
    StreamLength(frames);
  }

  lemma StreamLength(frames: seq<Frame>)
    requires AllEncodable(frames)
    ensures if frames == [] then Stream(frames) == [] else |Stream(frames)| >= |FrameBytes(frames[0])|
  {
    hide FrameBytes, Encodable;
  }

  lemma {:induction false} FeedStream(frames: seq<Frame>, buffer: Bytes, pieces: seq<Bytes>)
    requires AllEncodable(frames) && Waiting(frames, buffer)
    requires buffer + Concat(pieces) == Stream(frames)
    ensures Feed(buffer, pieces) == Drained(AllKept(frames), [], None)
    decreases |pieces|
  {
    hide FrameBytes, Drain, AllKept, Encodable, Stream;
    if pieces == [] {
      assert buffer + [] == buffer;
      NothingWaits(frames, buffer);
      KeptJoin([], frames, 0);
    } else {
      var data := buffer + pieces[0];
      StreamPiece(buffer, pieces, Stream(frames));
      var k := DrainPrefix(frames, data);
      FeedStream(frames[k..], Drain(data).rest, pieces[1..]);
      KeptJoin(frames[..k], frames, k);
    }
  }

  lemma StreamPiece(buffer: Bytes, pieces: seq<Bytes>, stream: Bytes)
    requires pieces != [] && buffer + Concat(pieces) == stream
    ensures buffer + pieces[0] <= stream && stream[|buffer + pieces[0]|..] == Concat(pieces[1..])
  {
    assert stream == (buffer + pieces[0]) + Concat(pieces[1..]);
  }

  lemma KeptJoin(front: seq<Frame>, frames: seq<Frame>, k: nat)
    requires k <= |frames| && front == frames[..k]
    ensures AllKept(frames) == AllKept(front) + AllKept(frames[k..]) && AllKept([]) == []
  {
    hide FrameKept;
  }

  /** However the bytes of any encodable frames are cut, these frames come out in order,
      but for what their string fields cut off, and nothing is left in the buffer. */
  lemma AnyCut(frames: seq<Frame>, pieces: seq<Bytes>)
    requires AllEncodable(frames) && Concat(pieces) == Stream(frames)
    ensures Feed([], pieces) == Drained(AllKept(frames), [], None)
  {
    hide FrameBytes;
    assert [] + Concat(pieces) == Concat(pieces);
    FeedStream(frames, [], pieces);
  }

  /** Exactly the frames whose strings survive their fields come out unchanged. */
  lemma AnyCutExact(frames: seq<Frame>, pieces: seq<Bytes>)
    requires AllEncodable(frames) && Concat(pieces) == Stream(frames)
    ensures Feed([], pieces) == Drained(frames, [], None) <==>
            forall i | 0 <= i < |frames| :: SurvivingPdu(frames[i].pdu)
  {
    hide Feed, Stream, Encodable, SurvivingPdu, PduKept;
    AnyCut(frames, pieces);
    forall i | 0 <= i < |frames|
      ensures AllKept(frames)[i] == frames[i] <==> SurvivingPdu(frames[i].pdu)
    {
      KeptIff(frames[i].pdu);
    }
    assert AllKept(frames) == frames <==> forall i | 0 <= i < |frames| :: AllKept(frames)[i] == frames[i];
  }
}
