/** CMPP 2.0 protocol data units and their bodies. */
module Pdu {
  import opened Wrappers
  import opened Utf8
  import opened WireBytes
  import opened OctetText

  type MsgId = b: Bytes | |b| == 8 witness [0, 0, 0, 0, 0, 0, 0, 0]
  type Authenticator = b: Bytes | |b| == 16 witness [0, 0, 0, 0, 0, 0, 0, 0, 0, 0, 0, 0, 0, 0, 0, 0]

  datatype Connect = Connect(sourceAddr: Text, authenticatorSource: Authenticator, version: u8, timestamp: u32)

  datatype ConnectResp = ConnectResp(status: u8, authenticatorIsmg: Authenticator, version: u8)

  datatype Submit = Submit(
    msgId: MsgId, pkTotal: u8, pkNumber: u8, registeredDelivery: u8, msgLevel: u8, serviceId: Text,
    feeUserType: u8, feeTerminalId: Text, tpPid: u8, tpUdhi: u8, msgFmt: u8, msgSrc: Text, feeType: Text,
    feeCode: Text, validTime: Text, atTime: Text, srcId: Text, destTerminalIds: seq<Text>, msgContent: Bytes)

  datatype Acknowledgement = Acknowledgement(msgId: MsgId, result: u8)

  datatype Deliver = Deliver(
    msgId: MsgId, destId: Text, serviceId: Text, tpPid: u8, tpUdhi: u8, msgFmt: u8, srcTerminalId: Text,
    registeredDelivery: u8, msgContent: Bytes)

  datatype Pdu =
    | ConnectPdu(connect: Connect)
    | ConnectRespPdu(connectResp: ConnectResp)
    | SubmitPdu(submit: Submit)
    | SubmitRespPdu(submitResp: Acknowledgement)
    | DeliverPdu(deliver: Deliver)
    | DeliverRespPdu(deliverResp: Acknowledgement)
    | ActiveTest
    | ActiveTestResp
    | Terminate
    | TerminateResp

  datatype DecodeError =
    | Truncated
    | Trailing
    | BodyLength
    | DestinationCount
    | UnknownCommand
    | MessageLength

  datatype EncodeError = TooManyDestinations | ContentTooLong

  const CMPP_CONNECT: u32 := 0x0000_0001
  const CMPP_CONNECT_RESP: u32 := 0x8000_0001
  const CMPP_TERMINATE: u32 := 0x0000_0002
  const CMPP_TERMINATE_RESP: u32 := 0x8000_0002
  const CMPP_SUBMIT: u32 := 0x0000_0004
  const CMPP_SUBMIT_RESP: u32 := 0x8000_0004
  const CMPP_DELIVER: u32 := 0x0000_0005
  const CMPP_DELIVER_RESP: u32 := 0x8000_0005
  const CMPP_ACTIVE_TEST: u32 := 0x0000_0008
  const CMPP_ACTIVE_TEST_RESP: u32 := 0x8000_0008

  function CommandId(p: Pdu): u32 {
    match p
    case ConnectPdu(_) => CMPP_CONNECT
    case ConnectRespPdu(_) => CMPP_CONNECT_RESP
    case SubmitPdu(_) => CMPP_SUBMIT
    case SubmitRespPdu(_) => CMPP_SUBMIT_RESP
    case DeliverPdu(_) => CMPP_DELIVER
    case DeliverRespPdu(_) => CMPP_DELIVER_RESP
    case ActiveTest => CMPP_ACTIVE_TEST
    case ActiveTestResp => CMPP_ACTIVE_TEST_RESP
    case Terminate => CMPP_TERMINATE
    case TerminateResp => CMPP_TERMINATE_RESP
  }

  // ----------------------------------------------------------------- encoding

  function ValidateEncode(p: Pdu): Option<EncodeError> {
    match p
    case SubmitPdu(s) =>
      if |s.destTerminalIds| > 255 then Some(TooManyDestinations)
      else if |s.msgContent| > 255 then Some(ContentTooLong) else None
    case DeliverPdu(d) => if |d.msgContent| > 255 then Some(ContentTooLong) else None
    case _ => None
  }

  predicate Encodable(p: Pdu) {
    ValidateEncode(p).None?
  }

  const CONNECT_WIDTHS: seq<nat> := [6, 16, 1, 4]
  const CONNECT_RESP_WIDTHS: seq<nat> := [1, 16, 1]
  const ACKNOWLEDGEMENT_WIDTHS: seq<nat> := [8, 1]
  const SUBMIT_HEAD_WIDTHS: seq<nat> := [8, 1, 1, 1, 1, 10, 1, 21, 1, 1, 1, 6, 2, 6, 17, 17, 21, 1]
  const DELIVER_HEAD_WIDTHS: seq<nat> := [8, 21, 10, 1, 1, 1, 21, 1]
  const RESERVED: Bytes := [0, 0, 0, 0, 0, 0, 0, 0]

  function ConnectFields(c: Connect): (f: seq<Bytes>)
    ensures HaveWidths(f, CONNECT_WIDTHS)
  {
    [PutText(c.sourceAddr, 6), c.authenticatorSource, [c.version], BigEndian32(c.timestamp)]
  }

  function ConnectRespFields(c: ConnectResp): (f: seq<Bytes>)
    ensures HaveWidths(f, CONNECT_RESP_WIDTHS)
  {
    [[c.status], c.authenticatorIsmg, [c.version]]
  }

  function AcknowledgementFields(a: Acknowledgement): (f: seq<Bytes>)
    ensures HaveWidths(f, ACKNOWLEDGEMENT_WIDTHS)
  {
    [a.msgId, [a.result]]
  }

  function SubmitHead(s: Submit): (f: seq<Bytes>)
    requires |s.destTerminalIds| <= 255
    ensures HaveWidths(f, SUBMIT_HEAD_WIDTHS)
  {
    [s.msgId, [s.pkTotal], [s.pkNumber], [s.registeredDelivery], [s.msgLevel], PutText(s.serviceId, 10),
     [s.feeUserType], PutText(s.feeTerminalId, 21), [s.tpPid], [s.tpUdhi], [s.msgFmt], PutText(s.msgSrc, 6),
     PutText(s.feeType, 2), PutText(s.feeCode, 6), PutText(s.validTime, 17), PutText(s.atTime, 17),
     PutText(s.srcId, 21), [|s.destTerminalIds|]]
  }

  function DestinationFields(ds: seq<Text>): (f: seq<Bytes>)
    ensures HaveWidths(f, seq(|ds|, _ => 21))
  {
    seq(|ds|, i requires 0 <= i < |ds| => PutText(ds[i], 21))
  }

  function DeliverHead(d: Deliver): (f: seq<Bytes>)
    ensures HaveWidths(f, DELIVER_HEAD_WIDTHS)
  {
    [d.msgId, PutText(d.destId, 21), PutText(d.serviceId, 10), [d.tpPid], [d.tpUdhi], [d.msgFmt],
     PutText(d.srcTerminalId, 21), [d.registeredDelivery]]
  }

  /** The content behind its length, and the reserved field. */
  function ContentTail(content: Bytes): (f: seq<Bytes>)
    requires |content| <= 255
  {
    [[|content|], content, RESERVED]
  }

  function Fields(p: Pdu): seq<Bytes>
    requires Encodable(p)
  {
    match p
    case ConnectPdu(c) => ConnectFields(c)
    case ConnectRespPdu(c) => ConnectRespFields(c)
    case SubmitPdu(s) => SubmitHead(s) + DestinationFields(s.destTerminalIds) + ContentTail(s.msgContent)
    case SubmitRespPdu(a) => AcknowledgementFields(a)
    case DeliverPdu(d) => DeliverHead(d) + ContentTail(d.msgContent)
    case DeliverRespPdu(a) => AcknowledgementFields(a)
    case ActiveTestResp => [[0]]
    case _ => []
  }

  function Body(p: Pdu): Bytes
    requires Encodable(p)
  {
    Flatten(Fields(p))
  }

  function BodyLenHint(p: Pdu): nat {
    match p
    case ConnectPdu(_) => 27
    case ConnectRespPdu(_) => 18
    case SubmitPdu(s) => 126 + |s.destTerminalIds| * 21 + |s.msgContent|
    case SubmitRespPdu(_) => 9
    case DeliverRespPdu(_) => 9
    case DeliverPdu(d) => 73 + |d.msgContent|
    case ActiveTestResp => 1
    case _ => 0
  }

  // ----------------------------------------------------------------- decoding

  function DecodeConnect(body: Bytes): Result<Connect, DecodeError> {
    match Split(CONNECT_WIDTHS, body)
    case None => Err(Truncated)
    case Some((f, rest)) =>
      if rest != [] then Err(Trailing)
      else Ok(Connect(ReadText(f[0]), f[1], f[2][0], FromBigEndian32(f[3])))
  }

  function DecodeConnectResp(body: Bytes): Result<ConnectResp, DecodeError> {
    match Split(CONNECT_RESP_WIDTHS, body)
    case None => Err(Truncated)
    case Some((f, rest)) =>
      if rest != [] then Err(Trailing) else Ok(ConnectResp(f[0][0], f[1], f[2][0]))
  }

  function DecodeAcknowledgement(body: Bytes): Result<Acknowledgement, DecodeError> {
    match Split(ACKNOWLEDGEMENT_WIDTHS, body)
    case None => Err(Truncated)
    case Some((f, rest)) => if rest != [] then Err(Trailing) else Ok(Acknowledgement(f[0], f[1][0]))
  }

  function DecodeTail(b: Bytes): Result<Bytes, DecodeError> {
    if |b| < 1 then Err(Truncated)
    else
      var length: nat := b[0];
      if |b| < 1 + length + 8 then Err(Truncated)
      else if |b| > 1 + length + 8 then Err(Trailing)
      else Ok(b[1..1 + length])
  }

  function ReadAll(fields: seq<Bytes>): seq<Text> {
    seq(|fields|, i requires 0 <= i < |fields| => ReadText(fields[i]))
  }

  function SubmitFrom(f: seq<Bytes>, destinations: seq<Bytes>, content: Bytes): Submit
    requires HaveWidths(f, SUBMIT_HEAD_WIDTHS)
  {
    Submit(f[0], f[1][0], f[2][0], f[3][0], f[4][0], ReadText(f[5]), f[6][0], ReadText(f[7]), f[8][0], f[9][0],
           f[10][0], ReadText(f[11]), ReadText(f[12]), ReadText(f[13]), ReadText(f[14]), ReadText(f[15]),
           ReadText(f[16]), ReadAll(destinations), content)
  }

  function DecodeSubmit(body: Bytes): Result<Submit, DecodeError> {
    match Split(SUBMIT_HEAD_WIDTHS, body)
    case None => Err(Truncated)
    case Some((f, rest)) =>
      var count: nat := f[17][0];
      if |rest| < count * 21 + 1 + 8 then Err(DestinationCount)
      else
        match Split(seq(count, _ => 21), rest)
        case None => Err(Truncated)
        case Some((ds, tail)) =>
          match DecodeTail(tail)
          case Err(e) => Err(e)
          case Ok(content) => Ok(SubmitFrom(f, ds, content))
  }

  function DeliverFrom(f: seq<Bytes>, content: Bytes): Deliver
    requires HaveWidths(f, DELIVER_HEAD_WIDTHS)
  {
    Deliver(f[0], ReadText(f[1]), ReadText(f[2]), f[3][0], f[4][0], f[5][0], ReadText(f[6]), f[7][0], content)
  }

  function DecodeDeliver(body: Bytes): Result<Deliver, DecodeError> {
    match Split(DELIVER_HEAD_WIDTHS, body)
    case None => Err(Truncated)
    case Some((f, rest)) =>
      match DecodeTail(rest)
      case Err(e) => Err(e)
      case Ok(content) => Ok(DeliverFrom(f, content))
  }

  function Map<T, U>(r: Result<T, DecodeError>, f: T -> U): Result<U, DecodeError> {
    match r
    case Ok(x) => Ok(f(x))
    case Err(e) => Err(e)
  }

  function DecodeEmpty(body: Bytes, length: nat, p: Pdu): Result<Pdu, DecodeError> {
    if |body| != length then Err(BodyLength) else Ok(p)
  }

  function DecodePdu(commandId: u32, body: Bytes): Result<Pdu, DecodeError> {
    if commandId == CMPP_CONNECT then Map(DecodeConnect(body), c => ConnectPdu(c))
    else if commandId == CMPP_CONNECT_RESP then Map(DecodeConnectResp(body), c => ConnectRespPdu(c))
    else if commandId == CMPP_SUBMIT then Map(DecodeSubmit(body), s => SubmitPdu(s))
    else if commandId == CMPP_SUBMIT_RESP then Map(DecodeAcknowledgement(body), a => SubmitRespPdu(a))
    else if commandId == CMPP_DELIVER then Map(DecodeDeliver(body), d => DeliverPdu(d))
    else if commandId == CMPP_DELIVER_RESP then Map(DecodeAcknowledgement(body), a => DeliverRespPdu(a))
    else if commandId == CMPP_ACTIVE_TEST then DecodeEmpty(body, 0, ActiveTest)
    else if commandId == CMPP_ACTIVE_TEST_RESP then DecodeEmpty(body, 1, ActiveTestResp)
    else if commandId == CMPP_TERMINATE then DecodeEmpty(body, 0, Terminate)
    else if commandId == CMPP_TERMINATE_RESP then DecodeEmpty(body, 0, TerminateResp)
    else Err(UnknownCommand)
  }

  // -------------------------------------------------------------- body length

  /** The capacity hint is exactly what the body takes. */
  lemma HintIsExact(p: Pdu)
    requires Encodable(p)
    ensures |Body(p)| == BodyLenHint(p)
  {
    hide PutText, BigEndian32, Split;
    match p {
      case ConnectPdu(c) => FlattenLength(ConnectFields(c), CONNECT_WIDTHS);
      case ConnectRespPdu(c) => FlattenLength(ConnectRespFields(c), CONNECT_RESP_WIDTHS);
      case SubmitPdu(s) => SubmitLength(s);
      case SubmitRespPdu(a) => FlattenLength(AcknowledgementFields(a), ACKNOWLEDGEMENT_WIDTHS);
      case DeliverPdu(d) => DeliverLength(d);
      case DeliverRespPdu(a) => FlattenLength(AcknowledgementFields(a), ACKNOWLEDGEMENT_WIDTHS);
      case ActiveTestResp => assert Flatten([[0]]) == [0] + Flatten([]);
      case _ =>
    }
  }

  lemma {:induction false} TotalRepeat(n: nat, width: nat)
    ensures Total(seq(n, _ => width)) == n * width
  {
    if n > 0 {
      var widths := seq(n, _ => width);
      assert widths[1..] == seq(n - 1, _ => width);
      TotalRepeat(n - 1, width);
    }
  }

  lemma TailLength(content: Bytes)
    requires |content| <= 255
    ensures |Flatten(ContentTail(content))| == 9 + |content|
    ensures Flatten(ContentTail(content)) == [|content|] + content + RESERVED
  {
    var f := ContentTail(content);
    var f1 := f[1..];
    var f2 := f1[1..];
    assert f1 == [content, RESERVED] && f2 == [RESERVED] && |f2[1..]| == 0;
    assert Flatten(f2) == RESERVED + [];
    assert Flatten(f1) == content + RESERVED;
  }

  lemma SubmitHeadTotal()
    ensures Total(SUBMIT_HEAD_WIDTHS) == 117
  {
    hide Total;
    var a: seq<nat>, b: seq<nat>, c: seq<nat> := [8, 1, 1, 1, 1, 10, 1], [21, 1, 1, 1, 6, 2], [6, 17, 17, 21, 1];
    assert SUBMIT_HEAD_WIDTHS == a + (b + c);
    TotalSplit(a, b + c);
    TotalSplit(b, c);
    TotalOf(a);
    TotalOf(b);
    TotalOf(c);
  }

  lemma {:induction false} TotalSplit(a: seq<nat>, b: seq<nat>)
    ensures Total(a + b) == Total(a) + Total(b)
  {
    if a == [] {
      assert a + b == b;
    } else {
      TotalSplit(a[1..], b);
      assert (a + b)[1..] == a[1..] + b;
    }
  }

  /** A short list of widths, added up. */
  lemma TotalOf(w: seq<nat>)
    ensures |w| == 5 ==> Total(w) == w[0] + w[1] + w[2] + w[3] + w[4]
    ensures |w| == 6 ==> Total(w) == w[0] + w[1] + w[2] + w[3] + w[4] + w[5]
    ensures |w| == 7 ==> Total(w) == w[0] + w[1] + w[2] + w[3] + w[4] + w[5] + w[6]
  {
    if 5 <= |w| <= 7 {
      assert w[1..][1..] == w[2..] && w[2..][1..] == w[3..] && w[3..][1..] == w[4..] && w[4..][1..] == w[5..];
      assert Total(w) == w[0] + w[1] + w[2] + w[3] + w[4] + Total(w[5..]);
      if |w| >= 6 {
        assert w[5..][1..] == w[6..];
        assert Total(w[5..]) == w[5] + Total(w[6..]);
      }
      if |w| == 7 {
        assert |w[6..][1..]| == 0;
        assert Total(w[6..]) == w[6] + Total([]);
      }
    }
  }

  lemma SubmitLength(s: Submit)
    requires |s.destTerminalIds| <= 255 && |s.msgContent| <= 255
    ensures |Flatten(SubmitHead(s) + DestinationFields(s.destTerminalIds) + ContentTail(s.msgContent))| ==
            126 + |s.destTerminalIds| * 21 + |s.msgContent|
  {
    hide SubmitHead, DestinationFields, ContentTail, Flatten;
    FlattenSplit(SubmitHead(s) + DestinationFields(s.destTerminalIds), ContentTail(s.msgContent));
    FlattenSplit(SubmitHead(s), DestinationFields(s.destTerminalIds));
    FlattenLength(SubmitHead(s), SUBMIT_HEAD_WIDTHS);
    FlattenLength(DestinationFields(s.destTerminalIds), seq(|s.destTerminalIds|, _ => 21));
    TotalRepeat(|s.destTerminalIds|, 21);
    SubmitHeadTotal();
    TailLength(s.msgContent);
  }

  lemma DeliverLength(d: Deliver)
    requires |d.msgContent| <= 255
    ensures |Flatten(DeliverHead(d) + ContentTail(d.msgContent))| == 73 + |d.msgContent|
  {
    hide DeliverHead, ContentTail, Flatten;
    FlattenSplit(DeliverHead(d), ContentTail(d.msgContent));
    FlattenLength(DeliverHead(d), DELIVER_HEAD_WIDTHS);
    DeliverHeadTotal();
    TailLength(d.msgContent);
  }

  lemma DeliverHeadTotal()
    ensures Total(DELIVER_HEAD_WIDTHS) == 64
  {
    TotalSplit([8, 21, 10], [1, 1, 1, 21, 1]);
    TotalOf([1, 1, 1, 21, 1]);
    assert DELIVER_HEAD_WIDTHS == [8, 21, 10] + [1, 1, 1, 21, 1];
    assert Total([8, 21, 10]) == 39;
  }
}
