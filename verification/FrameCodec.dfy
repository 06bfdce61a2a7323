/** The codec as it works: fields appended to a buffer, a length patched in, a body
    read by a cursor, and frames split off the front of the receive buffer. */
module FrameCodec {
  import opened Wrappers
  import opened Utf8
  import opened WireBytes
  import opened OctetText
  import opened Pdu
  import opened PduRoundTrip
  import opened FrameStream

  lemma FlattenSnoc(fields: seq<Bytes>, field: Bytes)
    ensures Flatten(fields + [field]) == Flatten(fields) + field
  {
    FlattenSplit(fields, [field]);
    assert Flatten([field]) == field + Flatten([]);
  }

  lemma HeaderFields(a: Bytes, b: Bytes, c: Bytes)
    ensures Flatten([] + [a] + [b] + [c]) == a + b + c
  {
    FlattenSnoc([], a);
    FlattenSnoc([] + [a], b);
    FlattenSnoc([] + [a] + [b], c);
  }

  function SubmitIds(s: Submit): seq<Bytes> {
    [s.msgId, [s.pkTotal], [s.pkNumber], [s.registeredDelivery], [s.msgLevel], PutText(s.serviceId, 10),
     [s.feeUserType]]
  }

  function SubmitFormat(s: Submit): seq<Bytes> {
    [PutText(s.feeTerminalId, 21), [s.tpPid], [s.tpUdhi], [s.msgFmt], PutText(s.msgSrc, 6),
     PutText(s.feeType, 2)]
  }

  function SubmitTimes(s: Submit): seq<Bytes>
    requires |s.destTerminalIds| <= 255
  {
    [PutText(s.feeCode, 6), PutText(s.validTime, 17), PutText(s.atTime, 17), PutText(s.srcId, 21),
     [|s.destTerminalIds|]]
  }

  lemma SubmitHeadParts(s: Submit)
    requires |s.destTerminalIds| <= 255
    ensures SubmitHead(s) == SubmitIds(s) + SubmitFormat(s) + SubmitTimes(s)
  {
    hide PutText;
  }

  /** A growing buffer. `fields` lists what was put since `base`. */
  class FrameBuffer {
    var data: Bytes
    ghost var base: Bytes
    ghost var fields: seq<Bytes>

    ghost predicate Valid()
      reads this
    {
      data == base + Flatten(fields)
    }

    constructor (received: Bytes)
      ensures Valid() && data == received
    {
      data, base, fields := received, received, [];
    }

    ghost method Mark()
      modifies `base, `fields
      ensures Valid() && base == data && fields == []
    {
      base, fields := data, [];
    }

    method PutSlice(bytes: Bytes)
      requires Valid()
      modifies `data, `fields
      ensures Valid() && fields == old(fields) + [bytes]
    {
      FlattenSnoc(fields, bytes);
      data := data + bytes;
      fields := fields + [bytes];
    }

    method PutU8(x: u8)
      requires Valid()
      modifies `data, `fields
      ensures Valid() && fields == old(fields) + [[x]]
    {
      PutSlice([x]);
    }

    method PutU32(x: u32)
      requires Valid()
      modifies `data, `fields
      ensures Valid() && fields == old(fields) + [BigEndian32(x)]
    {
      PutSlice(BigEndian32(x));
    }

    /** Too long a string is cut off, too short a one is padded. */
    method PutOctetStr(t: Text, width: nat)
      requires Valid()
      modifies `data, `fields
      ensures Valid() && fields == old(fields) + [PutText(t, width)]
    {
      FlattenSnoc(fields, PutText(t, width));
      var s := Encode(t);
      hide Encode;
      var n := if |s| < width then |s| else width;
      data := data + s[..n];
      for i := n to width
        invariant data == old(data) + s[..n] + Zeros(i - n) && fields == old(fields)
      {
        assert Zeros(i + 1 - n) == Zeros(i - n) + [0];
        data := data + [0];
      }
      assert s[..n] + Zeros(width - n) == PutText(t, width);
      fields := fields + [PutText(t, width)];
    }

    method EncodeConnect(c: Connect)
      requires Valid()
      modifies `data, `fields
      ensures Valid() && fields == old(fields) + ConnectFields(c)
    {
      hide PutText, BigEndian32, Flatten;
      PutOctetStr(c.sourceAddr, 6);
      PutSlice(c.authenticatorSource);
      PutU8(c.version);
      PutU32(c.timestamp);
    }

    method EncodeConnectResp(c: ConnectResp)
      requires Valid()
      modifies `data, `fields
      ensures Valid() && fields == old(fields) + ConnectRespFields(c)
    {
      hide Flatten;
      PutU8(c.status);
      PutSlice(c.authenticatorIsmg);
      PutU8(c.version);
    }

    method EncodeAcknowledgement(a: Acknowledgement)
      requires Valid()
      modifies `data, `fields
      ensures Valid() && fields == old(fields) + AcknowledgementFields(a)
    {
      hide Flatten;
      PutSlice(a.msgId);
      PutU8(a.result);
    }

    method PutSubmitIds(s: Submit)
      requires Valid()
      modifies `data, `fields
      ensures Valid() && fields == old(fields) + SubmitIds(s)
    {
      hide PutText, Flatten;
      PutSlice(s.msgId);
      PutU8(s.pkTotal);
      PutU8(s.pkNumber);
      PutU8(s.registeredDelivery);
      PutU8(s.msgLevel);
      PutOctetStr(s.serviceId, 10);
      PutU8(s.feeUserType);
    }

    method PutSubmitFormat(s: Submit)
      requires Valid()
      modifies `data, `fields
      ensures Valid() && fields == old(fields) + SubmitFormat(s)
    {
      hide PutText, Flatten;
      PutOctetStr(s.feeTerminalId, 21);
      PutU8(s.tpPid);
      PutU8(s.tpUdhi);
      PutU8(s.msgFmt);
      PutOctetStr(s.msgSrc, 6);
      PutOctetStr(s.feeType, 2);
    }

    method PutSubmitTimes(s: Submit)
      requires Valid() && |s.destTerminalIds| <= 255
      modifies `data, `fields
      ensures Valid() && fields == old(fields) + SubmitTimes(s)
    {
      hide PutText, Flatten;
      PutOctetStr(s.feeCode, 6);
      PutOctetStr(s.validTime, 17);
      PutOctetStr(s.atTime, 17);
      PutOctetStr(s.srcId, 21);
      PutU8(|s.destTerminalIds|);
    }

    method PutContent(content: Bytes)
      requires Valid() && |content| <= 255
      modifies `data, `fields
      ensures Valid() && fields == old(fields) + ContentTail(content)
    {
      hide Flatten;
      PutU8(|content|);
      PutSlice(content);
      PutSlice(RESERVED);
    }

    method EncodeSubmit(s: Submit)
      requires Valid() && Encodable(SubmitPdu(s))
      modifies `data, `fields
      ensures Valid() && fields == old(fields) + Fields(SubmitPdu(s))
    {
      hide Flatten, PutText, SubmitIds, SubmitFormat, SubmitTimes, ContentTail;
      ghost var before, ids := fields, DestinationFields(s.destTerminalIds);
      PutSubmitIds(s);
      PutSubmitFormat(s);
      PutSubmitTimes(s);
      SubmitHeadParts(s);
      hide SubmitHead;
      assert fields == before + SubmitHead(s);
      ghost var head := fields;
      for i := 0 to |s.destTerminalIds|
        invariant Valid() && fields == head + ids[..i]
      {
        PutOctetStr(s.destTerminalIds[i], 21);
      }
      PutContent(s.msgContent);
      assert fields == head + ids + ContentTail(s.msgContent);
    }

    method EncodeDeliver(d: Deliver)
      requires Valid() && Encodable(DeliverPdu(d))
      modifies `data, `fields
      ensures Valid() && fields == old(fields) + Fields(DeliverPdu(d))
    {
      hide PutText, Flatten, ContentTail;
      ghost var before := fields;
      PutSlice(d.msgId);
      PutOctetStr(d.destId, 21);
      PutOctetStr(d.serviceId, 10);
      PutU8(d.tpPid);
      PutU8(d.tpUdhi);
      PutU8(d.msgFmt);
      PutOctetStr(d.srcTerminalId, 21);
      PutU8(d.registeredDelivery);
      assert fields == before + DeliverHead(d);
      hide DeliverHead;
      PutContent(d.msgContent);
    }

    method EncodeBody(p: Pdu)
      requires Valid() && Encodable(p)
      modifies `data, `fields
      ensures Valid() && fields == old(fields) + Fields(p)
    {
      hide Flatten, ConnectFields, ConnectRespFields, AcknowledgementFields, SubmitHead, DestinationFields,
           DeliverHead, ContentTail;
      match p {
        case ConnectPdu(c) => EncodeConnect(c);
        case ConnectRespPdu(c) => EncodeConnectResp(c);
        case SubmitPdu(s) => EncodeSubmit(s);
        case SubmitRespPdu(a) => EncodeAcknowledgement(a);
        case DeliverPdu(d) => EncodeDeliver(d);
        case DeliverRespPdu(a) => EncodeAcknowledgement(a);
        case ActiveTestResp => PutU8(0);
        case _ =>
      }
    }

    /** Header with a zero length, body, and then the length that was written. */
    method EncodeFrame(f: Frame) returns (error: Option<EncodeError>)
      modifies this
      ensures error == ValidateEncode(f.pdu)
      ensures error == Some(TooManyDestinations) <==> f.pdu.SubmitPdu? && |f.pdu.submit.destTerminalIds| > 255
      ensures error == Some(ContentTooLong) <==>
                || (f.pdu.SubmitPdu? && |f.pdu.submit.destTerminalIds| <= 255 && |f.pdu.submit.msgContent| > 255)
                || (f.pdu.DeliverPdu? && |f.pdu.deliver.msgContent| > 255)
      ensures error.Some? ==> data == old(data)
      ensures error.None? ==> Encodable(f.pdu) && data == old(data) + FrameBytes(f)
    {
      hide Flatten, Fields, BigEndian32;
      error := ValidateEncode(f.pdu);
      if error.Some? { return; }
      Mark();
      var start := |data|;
      PutU32(0);
      PutU32(CommandId(f.pdu));
      PutU32(f.sequenceId);
      ghost var header := data;
      HeaderFields(BigEndian32(0), BigEndian32(CommandId(f.pdu)), BigEndian32(f.sequenceId));
      Mark();
      EncodeBody(f.pdu);
      assert fields == [] + Fields(f.pdu) == Fields(f.pdu);
      assert data == header + Body(f.pdu);
      FrameLength(f.pdu);
      var totalLength: u32 := |data| - start;
      data := data[..start] + BigEndian32(totalLength) + data[start + 4..];
    }

    /** One call of the decoder on the receive buffer. */
    method DecodeFrame() returns (r: Result<Option<Frame>, DecodeError>)
      modifies this
      ensures (r, data) == DecodeStep(old(data))
    {
      hide FromBigEndian32, DecodePdu;
      if |data| < CMPP_HEADER_LENGTH { return Ok(None); }
      var totalLength: nat := FromBigEndian32(data[..4]);
      if !(CMPP_HEADER_LENGTH <= totalLength <= CMPP_MAX_MESSAGE_LENGTH) { return Err(MessageLength); }
      if |data| < totalLength { return Ok(None); }
      var commandId, sequenceId := FromBigEndian32(data[4..8]), FromBigEndian32(data[8..12]);
      var raw := data[..totalLength];
      data := data[totalLength..];
      var body := raw[CMPP_HEADER_LENGTH..];
      assert body == old(data)[12..totalLength];
      var pdu := ReadPdu(commandId, body);
      match pdu {
        case Err(e) => r := Err(e);
        case Ok(p) => r := Ok(Some(Frame(sequenceId, p)));
      }
    }
  }

  // ------------------------------------------------------------------- reading

  /** The next `n` bytes from position `pos`. */
  function TakeSpec(buf: Bytes, pos: nat, n: nat): (r: Result<Bytes, DecodeError>)
    ensures r.Ok? <==> pos + n <= |buf|
    ensures r.Ok? ==> |r.value| == n
    ensures r.Err? ==> r.error == Truncated
  {
    if pos + n > |buf| then Err(Truncated) else Ok(buf[pos..pos + n])
  }

  /** A cursor over a body. `taken` lists the fields read so far. */
  class BodyReader {
    const buf: Bytes
    var pos: nat
    ghost var taken: seq<Bytes>

    ghost predicate Valid()
      reads this
    {
      pos <= |buf| && buf[..pos] == Flatten(taken)
    }

    constructor (body: Bytes)
      ensures Valid() && buf == body && pos == 0 && taken == []
    {
      buf, pos, taken := body, 0, [];
    }

    method Take(n: nat) returns (r: Result<Bytes, DecodeError>)
      requires Valid()
      modifies `pos, `taken
      ensures Valid() && r == TakeSpec(buf, old(pos), n)
      ensures r.Ok? ==> pos == old(pos) + n && taken == old(taken) + [r.value]
    {
      if pos + n > |buf| { return Err(Truncated); }
      var field := buf[pos..pos + n];
      FlattenSnoc(taken, field);
      assert buf[..pos + n] == buf[..pos] + field;
      pos := pos + n;
      taken := taken + [field];
      r := Ok(field);
    }

    method U8() returns (r: Result<u8, DecodeError>)
      requires Valid()
      modifies `pos, `taken
      ensures Valid() && (r.Ok? <==> TakeSpec(buf, old(pos), 1).Ok?)
      ensures r.Err? ==> r.error == Truncated
      ensures r.Ok? ==> pos == old(pos) + 1 && [r.value] == TakeSpec(buf, old(pos), 1).value
                        && taken == old(taken) + [[r.value]]
    {
      var b :- Take(1);
      assert b == [b[0]];
      r := Ok(b[0]);
    }

    method U32() returns (r: Result<u32, DecodeError>)
      requires Valid()
      modifies `pos, `taken
      ensures Valid() && (r.Ok? <==> TakeSpec(buf, old(pos), 4).Ok?)
      ensures r.Err? ==> r.error == Truncated
      ensures r.Ok? ==> pos == old(pos) + 4 && r.value == FromBigEndian32(TakeSpec(buf, old(pos), 4).value)
                        && taken == old(taken) + [TakeSpec(buf, old(pos), 4).value]
    {
      var b :- Take(4);
      r := Ok(FromBigEndian32(b));
    }

    method Finish() returns (r: Result<(), DecodeError>)
      requires Valid()
      ensures r == if pos == |buf| then Ok(()) else Err(Trailing)
    {
      r := if pos != |buf| then Err(Trailing) else Ok(());
    }

    /** What was taken is what splitting the body gives. */
    lemma TakenIsSplit(widths: seq<nat>)
      requires Valid() && HaveWidths(taken, widths)
      ensures Split(widths, buf) == Some((taken, buf[pos..]))
    {
      SplitFlatten(widths, taken, buf[pos..]);
      assert buf == buf[..pos] + buf[pos..];
    }
  }

  method ReadConnect(body: Bytes) returns (r: Result<Connect, DecodeError>)
    ensures r == DecodeConnect(body)
  {
    hide Split, Flatten, ReadText, FromBigEndian32;
    SplitNeeds(CONNECT_WIDTHS, body);
    assert Total(CONNECT_WIDTHS) == 27;
    hide Total;
    var reader := new BodyReader(body);
    var sourceAddr :- reader.Take(6);
    var authenticator :- reader.Take(16);
    var version :- reader.U8();
    var timestamp :- reader.U32();
    reader.TakenIsSplit(CONNECT_WIDTHS);
    var _ :- reader.Finish();
    r := Ok(Connect(ReadText(sourceAddr), authenticator, version, timestamp));
  }

  method ReadConnectResp(body: Bytes) returns (r: Result<ConnectResp, DecodeError>)
    ensures r == DecodeConnectResp(body)
  {
    hide Split, Flatten;
    SplitNeeds(CONNECT_RESP_WIDTHS, body);
    assert Total(CONNECT_RESP_WIDTHS) == 18;
    hide Total;
    var reader := new BodyReader(body);
    var status :- reader.U8();
    var authenticator :- reader.Take(16);
    var version :- reader.U8();
    reader.TakenIsSplit(CONNECT_RESP_WIDTHS);
    var _ :- reader.Finish();
    r := Ok(ConnectResp(status, authenticator, version));
  }

  method ReadAcknowledgement(body: Bytes) returns (r: Result<Acknowledgement, DecodeError>)
    ensures r == DecodeAcknowledgement(body)
  {
    hide Split, Flatten;
    SplitNeeds(ACKNOWLEDGEMENT_WIDTHS, body);
    assert Total(ACKNOWLEDGEMENT_WIDTHS) == 9;
    hide Total;
    var reader := new BodyReader(body);
    var msgId :- reader.Take(8);
    var result :- reader.U8();
    reader.TakenIsSplit(ACKNOWLEDGEMENT_WIDTHS);
    var _ :- reader.Finish();
    r := Ok(Acknowledgement(msgId, result));
  }

  lemma DeliverTooShort(body: Bytes)
    ensures |body| < 64 ==> DecodeDeliver(body) == Err(Truncated)
  {
    SplitNeeds(DELIVER_HEAD_WIDTHS, body);
    DeliverHeadTotal();
  }

  /** The rest of a body behind its head: content and reserved bytes. */
  method ReadTail(reader: BodyReader) returns (r: Result<Bytes, DecodeError>)
    requires reader.Valid()
    modifies reader
    ensures r == DecodeTail(reader.buf[old(reader.pos)..])
  {
    hide Flatten;
    ghost var tail := reader.buf[reader.pos..];
    var length :- reader.U8();
    assert length == tail[0];
    var content :- reader.Take(length);
    assert content == tail[1..1 + length];
    var _ :- reader.Take(8);
    var _ :- reader.Finish();
    r := Ok(content);
  }

  method ReadDeliver(body: Bytes) returns (r: Result<Deliver, DecodeError>)
    ensures r == DecodeDeliver(body)
  {
    hide Split, Flatten, ReadText, DecodeTail, DecodeDeliver, TakeSpec;
    DeliverTooShort(body);
    var reader := new BodyReader(body);
    var ids :- ReadDeliverIds(reader);
    var formats :- ReadDeliverFormats(reader);
    ghost var head := reader.taken;
    assert head == [ids.0, ids.1, ids.2] + [[formats.0], [formats.1], [formats.2], formats.3, [formats.4]];
    reader.TakenIsSplit(DELIVER_HEAD_WIDTHS);
    DeliverIs(body, head, body[reader.pos..]);
    var content :- ReadTail(reader);
    r := Ok(Deliver(ids.0, ReadText(ids.1), ReadText(ids.2), formats.0, formats.1, formats.2, ReadText(formats.3),
                    formats.4, content));
    assert r.value == DeliverFrom(head, content);
  }

  method ReadDeliverIds(reader: BodyReader) returns (r: Result<(MsgId, Bytes, Bytes), DecodeError>)
    requires reader.Valid()
    modifies reader
    ensures reader.Valid()
    ensures r.Err? ==> r.error == Truncated && old(reader.pos) + 39 > |reader.buf|
    ensures r.Ok? ==>
              && reader.pos == old(reader.pos) + 39 && |r.value.1| == 21 && |r.value.2| == 10
              && reader.taken == old(reader.taken) + [r.value.0, r.value.1, r.value.2]
  {
    hide Flatten, TakeSpec;
    var msgId :- reader.Take(8);
    var destId :- reader.Take(21);
    var serviceId :- reader.Take(10);
    r := Ok((msgId, destId, serviceId));
  }

  method ReadDeliverFormats(reader: BodyReader) returns (r: Result<(u8, u8, u8, Bytes, u8), DecodeError>)
    requires reader.Valid()
    modifies reader
    ensures reader.Valid()
    ensures r.Err? ==> r.error == Truncated && old(reader.pos) + 25 > |reader.buf|
    ensures r.Ok? ==>
              && reader.pos == old(reader.pos) + 25 && |r.value.3| == 21
              && reader.taken == old(reader.taken)
                                 + [[r.value.0], [r.value.1], [r.value.2], r.value.3, [r.value.4]]
  {
    hide Flatten, TakeSpec;
    var tpPid :- reader.U8();
    var tpUdhi :- reader.U8();
    var msgFmt :- reader.U8();
    var srcTerminalId :- reader.Take(21);
    var registeredDelivery :- reader.U8();
    r := Ok((tpPid, tpUdhi, msgFmt, srcTerminalId, registeredDelivery));
  }

  lemma DeliverIs(body: Bytes, head: seq<Bytes>, rest: Bytes)
    requires HaveWidths(head, DELIVER_HEAD_WIDTHS) && Split(DELIVER_HEAD_WIDTHS, body) == Some((head, rest))
    ensures DecodeDeliver(body) ==
            match DecodeTail(rest) { case Err(e) => Err(e) case Ok(content) => Ok(DeliverFrom(head, content)) }
  {
    hide Split, DecodeTail, DeliverFrom;
  }

  lemma SubmitTooShort(body: Bytes)
    ensures |body| < 117 ==> DecodeSubmit(body) == Err(Truncated)
  {
    SplitNeeds(SUBMIT_HEAD_WIDTHS, body);
    SubmitHeadTotal();
  }

  type SubmitIdPart = (MsgId, u8, u8, u8, u8, Bytes, u8)
  type SubmitFormatPart = (Bytes, u8, u8, u8, Bytes, Bytes)
  type SubmitTimePart = (Bytes, Bytes, Bytes, Bytes, u8)

  function SubmitIdList(a: SubmitIdPart): seq<Bytes> {
    [a.0, [a.1], [a.2], [a.3], [a.4], a.5, [a.6]]
  }

  function SubmitFormatList(b: SubmitFormatPart): seq<Bytes> {
    [b.0, [b.1], [b.2], [b.3], b.4, b.5]
  }

  function SubmitTimeList(c: SubmitTimePart): seq<Bytes> {
    [c.0, c.1, c.2, c.3, [c.4]]
  }

  /** The head as the list of its fields. */
  function SubmitParts(a: SubmitIdPart, b: SubmitFormatPart, c: SubmitTimePart): (head: seq<Bytes>)
    requires |a.5| == 10 && |b.0| == 21 && |b.4| == 6 && |b.5| == 2
    requires |c.0| == 6 && |c.1| == 17 && |c.2| == 17 && |c.3| == 21
    ensures HaveWidths(head, SUBMIT_HEAD_WIDTHS) && head[17] == [c.4]
  {
    [] + SubmitIdList(a) + SubmitFormatList(b) + SubmitTimeList(c)
  }

  method ReadSubmitIds(reader: BodyReader) returns (r: Result<SubmitIdPart, DecodeError>)
    requires reader.Valid()
    modifies reader
    ensures reader.Valid()
    ensures r.Err? ==> r.error == Truncated && old(reader.pos) + 23 > |reader.buf|
    ensures r.Ok? ==>
              && reader.pos == old(reader.pos) + 23 && |r.value.5| == 10
              && reader.taken == old(reader.taken) + SubmitIdList(r.value)
  {
    hide Flatten, TakeSpec;
    var msgId :- reader.Take(8);
    var pkTotal :- reader.U8();
    var pkNumber :- reader.U8();
    var registeredDelivery :- reader.U8();
    var msgLevel :- reader.U8();
    var serviceId :- reader.Take(10);
    var feeUserType :- reader.U8();
    r := Ok((msgId, pkTotal, pkNumber, registeredDelivery, msgLevel, serviceId, feeUserType));
  }

  method ReadSubmitFormat(reader: BodyReader) returns (r: Result<SubmitFormatPart, DecodeError>)
    requires reader.Valid()
    modifies reader
    ensures reader.Valid()
    ensures r.Err? ==> r.error == Truncated && old(reader.pos) + 32 > |reader.buf|
    ensures r.Ok? ==>
              && reader.pos == old(reader.pos) + 32 && |r.value.0| == 21 && |r.value.4| == 6 && |r.value.5| == 2
              && reader.taken == old(reader.taken) + SubmitFormatList(r.value)
  {
    hide Flatten, TakeSpec;
    var feeTerminalId :- reader.Take(21);
    var tpPid :- reader.U8();
    var tpUdhi :- reader.U8();
    var msgFmt :- reader.U8();
    var msgSrc :- reader.Take(6);
    var feeType :- reader.Take(2);
    r := Ok((feeTerminalId, tpPid, tpUdhi, msgFmt, msgSrc, feeType));
  }

  method ReadSubmitTimes(reader: BodyReader) returns (r: Result<SubmitTimePart, DecodeError>)
    requires reader.Valid()
    modifies reader
    ensures reader.Valid()
    ensures r.Err? ==> r.error == Truncated && old(reader.pos) + 62 > |reader.buf|
    ensures r.Ok? ==>
              && reader.pos == old(reader.pos) + 62
              && |r.value.0| == 6 && |r.value.1| == 17 && |r.value.2| == 17 && |r.value.3| == 21
              && reader.taken == old(reader.taken) + SubmitTimeList(r.value)
  {
    hide Flatten, TakeSpec;
    var feeCode :- reader.Take(6);
    var validTime :- reader.Take(17);
    var atTime :- reader.Take(17);
    var srcId :- reader.Take(21);
    var destCount :- reader.U8();
    r := Ok((feeCode, validTime, atTime, srcId, destCount));
  }

  /** The destinations behind the head, once their number has been checked. */
  method ReadDestinations(reader: BodyReader, count: nat) returns (fields: seq<Bytes>)
    requires reader.Valid() && |reader.buf| - reader.pos >= count * 21
    modifies reader
    ensures reader.Valid() && reader.pos == old(reader.pos) + count * 21
    ensures Split(seq(count, _ => 21), reader.buf[old(reader.pos)..]) == Some((fields, reader.buf[reader.pos..]))
  {
    hide Split, TakeSpec, Flatten;
    ghost var start := reader.pos;
    fields := [];
    FirstDestination(reader.buf, start);
    for i := 0 to count
      invariant reader.Valid() && reader.pos == start + i * 21
      invariant DestinationsRead(reader.buf, start, fields, i)
    {
      DestinationFitsIn(count, i);
      TakeIs(reader.buf, reader.pos, 21);
      var field := reader.Take(21);
      NextDestination(reader.buf, start, fields, i, field.value);
      fields := fields + [field.value];
    }
    DestinationsSplit(reader.buf, start, fields, count);
  }

  /** The first `i` destinations lie between `start` and where the cursor is. */
  ghost predicate DestinationsRead(buf: Bytes, start: nat, fields: seq<Bytes>, i: nat) {
    && start + i * 21 <= |buf| && |fields| == i && (forall k | 0 <= k < i :: |fields[k]| == 21)
    && buf[start..] == Flatten(fields) + buf[start + i * 21..]
  }

  lemma DestinationFitsIn(count: nat, i: nat)
    requires i < count
    ensures (i + 1) * 21 <= count * 21
  {
  }

  lemma FirstDestination(buf: Bytes, start: nat)
    requires start <= |buf|
    ensures DestinationsRead(buf, start, [], 0)
  {
  }

  lemma NextDestination(buf: Bytes, start: nat, fields: seq<Bytes>, i: nat, field: Bytes)
    requires DestinationsRead(buf, start, fields, i) && start + (i + 1) * 21 <= |buf|
    requires field == buf[start + i * 21..start + i * 21 + 21]
    ensures DestinationsRead(buf, start, fields + [field], i + 1)
  {
    hide Flatten;
    FlattenSnoc(fields, field);
    var p := start + i * 21;
    assert start + (i + 1) * 21 == p + 21;
    assert buf[p..] == field + buf[p + 21..];
  }

  lemma DestinationsSplit(buf: Bytes, start: nat, fields: seq<Bytes>, count: nat)
    requires DestinationsRead(buf, start, fields, count)
    ensures Split(seq(count, _ => 21), buf[start..]) == Some((fields, buf[start + count * 21..]))
  {
    hide Flatten, Split;
    SplitFlatten(seq(count, _ => 21), fields, buf[start + count * 21..]);
  }

  lemma TakeIs(buf: Bytes, pos: nat, n: nat)
    requires pos + n <= |buf|
    ensures TakeSpec(buf, pos, n) == Ok(buf[pos..pos + n])
  {
  }

  method ReadSubmit(body: Bytes) returns (r: Result<Submit, DecodeError>)
    ensures r == DecodeSubmit(body)
  {
    hide Split, Flatten, ReadText, DecodeTail, DecodeSubmit, TakeSpec, SubmitFrom, SubmitIdList, SubmitFormatList,
         SubmitTimeList;
    SubmitTooShort(body);
    var reader := new BodyReader(body);
    var ids :- ReadSubmitIds(reader);
    ghost var taken := [] + SubmitIdList(ids);
    assert reader.taken == taken;
    var formats :- ReadSubmitFormat(reader);
    taken := taken + SubmitFormatList(formats);
    assert reader.taken == taken;
    var times :- ReadSubmitTimes(reader);
    taken := taken + SubmitTimeList(times);
    assert reader.taken == taken;
    ghost var head := SubmitParts(ids, formats, times);
    assert head == taken;
    hide SubmitParts;
    reader.TakenIsSplit(SUBMIT_HEAD_WIDTHS);
    var destCount: nat := times.4;
    SubmitIs(body, head, body[reader.pos..]);
    if |body| - reader.pos < destCount * 21 + 1 + 8 { return Err(DestinationCount); }
    ghost var destinations := body[reader.pos..];
    var fields := ReadDestinations(reader, destCount);
    var content :- ReadTail(reader);
    r := Ok(Submit(ids.0, ids.1, ids.2, ids.3, ids.4, ReadText(ids.5), ids.6, ReadText(formats.0), formats.1, formats.2,
                   formats.3, ReadText(formats.4), ReadText(formats.5), ReadText(times.0), ReadText(times.1),
                   ReadText(times.2), ReadText(times.3), ReadAll(fields), content));
    SubmitFromParts(ids, formats, times, fields, content);
  }

  lemma SubmitFromParts(a: SubmitIdPart, b: SubmitFormatPart, c: SubmitTimePart, ds: seq<Bytes>, content: Bytes)
    requires |a.5| == 10 && |b.0| == 21 && |b.4| == 6 && |b.5| == 2
    requires |c.0| == 6 && |c.1| == 17 && |c.2| == 17 && |c.3| == 21
    ensures SubmitFrom(SubmitParts(a, b, c), ds, content) ==
            Submit(a.0, a.1, a.2, a.3, a.4, ReadText(a.5), a.6, ReadText(b.0), b.1, b.2, b.3, ReadText(b.4),
                   ReadText(b.5), ReadText(c.0), ReadText(c.1), ReadText(c.2), ReadText(c.3), ReadAll(ds), content)
  {
    hide ReadText, ReadAll;
  }

  lemma SubmitIs(body: Bytes, head: seq<Bytes>, rest: Bytes)
    requires HaveWidths(head, SUBMIT_HEAD_WIDTHS) && Split(SUBMIT_HEAD_WIDTHS, body) == Some((head, rest))
    ensures var count: nat := head[17][0];
            && (|rest| < count * 21 + 1 + 8 ==> DecodeSubmit(body) == Err(DestinationCount))
            && (|rest| >= count * 21 + 1 + 8 && Split(seq(count, _ => 21), rest).Some? ==>
                  var (ds, tail) := Split(seq(count, _ => 21), rest).value;
                  && (DecodeTail(tail).Err? ==> DecodeSubmit(body) == Err(DecodeTail(tail).error))
                  && (DecodeTail(tail).Ok? ==> DecodeSubmit(body) == Ok(SubmitFrom(head, ds, DecodeTail(tail).value))))
  {
    hide Split, DecodeTail, SubmitFrom;
  }

  method RequireBodyLen(body: Bytes, expected: nat, p: Pdu) returns (r: Result<Pdu, DecodeError>)
    ensures r == DecodeEmpty(body, expected, p)
  {
    if |body| != expected { return Err(BodyLength); }
    r := Ok(p);
  }

  method ReadPdu(commandId: u32, body: Bytes) returns (r: Result<Pdu, DecodeError>)
    ensures r == DecodePdu(commandId, body)
  {
    hide DecodeConnect, DecodeConnectResp, DecodeSubmit, DecodeDeliver, DecodeAcknowledgement, DecodeEmpty;
    if commandId == CMPP_CONNECT {
      var c :- ReadConnect(body);
      r := Ok(ConnectPdu(c));
    } else if commandId == CMPP_CONNECT_RESP {
      var c :- ReadConnectResp(body);
      r := Ok(ConnectRespPdu(c));
    } else if commandId == CMPP_SUBMIT {
      var s :- ReadSubmit(body);
      r := Ok(SubmitPdu(s));
    } else if commandId == CMPP_SUBMIT_RESP {
      var a :- ReadAcknowledgement(body);
      r := Ok(SubmitRespPdu(a));
    } else if commandId == CMPP_DELIVER {
      var d :- ReadDeliver(body);
      r := Ok(DeliverPdu(d));
    } else if commandId == CMPP_DELIVER_RESP {
      var a :- ReadAcknowledgement(body);
      r := Ok(DeliverRespPdu(a));
    } else if commandId == CMPP_ACTIVE_TEST {
      r := RequireBodyLen(body, 0, ActiveTest);
    } else if commandId == CMPP_ACTIVE_TEST_RESP {
      r := RequireBodyLen(body, 1, ActiveTestResp);
    } else if commandId == CMPP_TERMINATE {
      r := RequireBodyLen(body, 0, Terminate);
    } else if commandId == CMPP_TERMINATE_RESP {
      r := RequireBodyLen(body, 0, TerminateResp);
    } else {
      r := Err(UnknownCommand);
    }
  }
}
