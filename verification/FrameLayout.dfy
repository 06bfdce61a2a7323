/** Where each field stands in a frame: the wire format byte by byte. */
module FrameLayout {
  import opened Wrappers
  import opened Utf8
  import opened WireBytes
  import opened OctetText
  import opened Pdu
  import opened FrameStream

  /** `offs` are the ends of fields with these widths, from zero on. */
  predicate AreOffsets(widths: seq<nat>, offs: seq<nat>) {
    && |offs| == |widths| + 1 && offs[0] == 0
    && forall i | 0 <= i < |widths| :: offs[i + 1] == offs[i] + widths[i]
  }

  /** Field `i` is what stands between two offsets. */
  lemma {:induction false} FieldStands(fields: seq<Bytes>, widths: seq<nat>, offs: seq<nat>, i: nat)
    requires HaveWidths(fields, widths) && AreOffsets(widths, offs) && i < |fields|
    ensures |Flatten(fields)| == offs[|widths|] && offs[i] <= offs[i + 1] <= |Flatten(fields)|
    ensures Flatten(fields)[offs[i]..offs[i + 1]] == fields[i]
  {
    var n := |fields| - 1;
    var front, last := fields[..n], fields[n];
    assert fields == front + [last];
    FlattenSplit(front, [last]);
    assert Flatten([last]) == last + Flatten([]);
    assert Flatten(fields) == Flatten(front) + last;
    hide Flatten;
    if n == 0 {
      assert front == [] && Flatten([]) == [];
    } else {
      FieldStands(front, widths[..n], offs[..n + 1], if i < n then i else 0);
    }
  }

  /** A string in its field: its UTF-8 bytes as far as they fit, and NUL behind them. */
  ghost predicate Holds(field: Bytes, t: Text, width: nat) {
    && |field| == width
    && forall k | 0 <= k < width :: field[k] == if k < |Encode(t)| then Encode(t)[k] else 0
  }

  lemma FieldHolds(t: Text, width: nat)
    ensures Holds(PutText(t, width), t, width)
  {
    hide Encode;
  }

  /** A 32-bit number, its upper byte first. */
  predicate IsBigEndian(b: Bytes, x: int) {
    && |b| == 4
    && x == ((b[0] as int * 0x100 + b[1] as int) * 0x100 + b[2] as int) * 0x100 + b[3] as int
  }

  lemma NumberStands(x: u32)
    ensures IsBigEndian(BigEndian32(x), x)
  {
  }

  lemma ByteAt(fields: seq<Bytes>, widths: seq<nat>, offs: seq<nat>, i: nat, x: u8)
    requires HaveWidths(fields, widths) && AreOffsets(widths, offs) && i < |fields| && fields[i] == [x]
    ensures offs[i] < |Flatten(fields)| && Flatten(fields)[offs[i]] == x
  {
    hide Flatten;
    FieldStands(fields, widths, offs, i);
    assert Flatten(fields)[offs[i]..offs[i + 1]][0] == x;
  }

  lemma TextAt(fields: seq<Bytes>, widths: seq<nat>, offs: seq<nat>, i: nat, t: Text)
    requires HaveWidths(fields, widths) && AreOffsets(widths, offs) && i < |fields|
    requires fields[i] == PutText(t, widths[i])
    ensures offs[i] <= offs[i + 1] <= |Flatten(fields)|
    ensures Holds(Flatten(fields)[offs[i]..offs[i + 1]], t, widths[i])
  {
    hide Flatten, PutText, Holds;
    FieldStands(fields, widths, offs, i);
    FieldHolds(t, widths[i]);
  }

  // ------------------------------------------------------------------- frames

  /** The number of each kind of request; its response has the upper bit set. */
  function KindNumber(p: Pdu): u8 {
    match p
    case ConnectPdu(_) => 1
    case ConnectRespPdu(_) => 1
    case Terminate => 2
    case TerminateResp => 2
    case SubmitPdu(_) => 4
    case SubmitRespPdu(_) => 4
    case DeliverPdu(_) => 5
    case DeliverRespPdu(_) => 5
    case ActiveTest => 8
    case ActiveTestResp => 8
  }

  predicate IsResponse(p: Pdu) {
    p.ConnectRespPdu? || p.TerminateResp? || p.SubmitRespPdu? || p.DeliverRespPdu? || p.ActiveTestResp?
  }

  lemma CommandStands(p: Pdu)
    ensures BigEndian32(CommandId(p)) == [if IsResponse(p) then 0x80 else 0, 0, 0, KindNumber(p)]
  {
    NumberStands(CommandId(p));
    hide BigEndian32;
  }

  /** Exactly up to 255 destinations and 255 bytes of content can be encoded. */
  lemma EncodableIs(p: Pdu)
    ensures Encodable(p) <==>
              && (p.SubmitPdu? ==> |p.submit.destTerminalIds| <= 255 && |p.submit.msgContent| <= 255)
              && (p.DeliverPdu? ==> |p.deliver.msgContent| <= 255)
  {
  }

  /** Length, command and sequence id in four bytes each, and the body behind them. */
  lemma FrameStands(f: Frame)
    requires Encodable(f.pdu)
    ensures var b := FrameBytes(f);
            && |b| == 12 + |Body(f.pdu)| && b[12..] == Body(f.pdu)
            && IsBigEndian(b[..4], |b|)
            && b[4..8] == [if IsResponse(f.pdu) then 0x80 else 0, 0, 0, KindNumber(f.pdu)]
            && IsBigEndian(b[8..12], f.sequenceId)
  {
    hide BigEndian32, CommandId, Body, IsBigEndian;
    FrameLength(f.pdu);
    NumberStands(12 + |Body(f.pdu)|);
    CommandStands(f.pdu);
    NumberStands(f.sequenceId);
    var a, b, c := BigEndian32(12 + |Body(f.pdu)|), BigEndian32(CommandId(f.pdu)), BigEndian32(f.sequenceId);
    assert FrameBytes(f) == a + b + c + Body(f.pdu);
    ThreeParts(a, b, c, Body(f.pdu));
  }

  lemma ThreeParts(a: Bytes, b: Bytes, c: Bytes, d: Bytes)
    requires |a| == 4 && |b| == 4 && |c| == 4
    ensures var x := a + b + c + d; x[..4] == a && x[4..8] == b && x[8..12] == c && x[12..] == d
  {
  }

  // ------------------------------------------------------------------- bodies

  const SUBMIT_OFFSETS: seq<nat> := [0, 8, 9, 10, 11, 12, 22, 23, 44, 45, 46, 47, 53, 55, 61, 78, 95, 116, 117]
  const DELIVER_OFFSETS: seq<nat> := [0, 8, 29, 39, 40, 41, 42, 63, 64]

  /** The fields of a SUBMIT before its destinations. */
  ghost predicate SubmitStarts(b: Bytes, s: Submit) {
    && |b| >= 117
    && b[..8] == s.msgId && b[8] == s.pkTotal && b[9] == s.pkNumber && b[10] == s.registeredDelivery
    && b[11] == s.msgLevel && Holds(b[12..22], s.serviceId, 10) && b[22] == s.feeUserType
    && Holds(b[23..44], s.feeTerminalId, 21) && b[44] == s.tpPid && b[45] == s.tpUdhi && b[46] == s.msgFmt
    && Holds(b[47..53], s.msgSrc, 6) && Holds(b[53..55], s.feeType, 2) && Holds(b[55..61], s.feeCode, 6)
    && Holds(b[61..78], s.validTime, 17) && Holds(b[78..95], s.atTime, 17) && Holds(b[95..116], s.srcId, 21)
    && b[116] as int == |s.destTerminalIds|
  }

  lemma SubmitHeadStands(s: Submit)
    requires |s.destTerminalIds| <= 255
    ensures |Flatten(SubmitHead(s))| == 117 && SubmitStarts(Flatten(SubmitHead(s)), s)
  {
    hide PutText, Flatten, Holds;
    FieldStands(SubmitHead(s), SUBMIT_HEAD_WIDTHS, SUBMIT_OFFSETS, 0);
    SubmitNumbers(s);
    SubmitTexts(s);
  }

  lemma SubmitNumbers(s: Submit)
    requires |s.destTerminalIds| <= 255 && |Flatten(SubmitHead(s))| == 117
    ensures var b := Flatten(SubmitHead(s));
            && b[8] == s.pkTotal && b[9] == s.pkNumber && b[10] == s.registeredDelivery && b[11] == s.msgLevel
            && b[22] == s.feeUserType && b[44] == s.tpPid && b[45] == s.tpUdhi && b[46] == s.msgFmt
            && b[116] as int == |s.destTerminalIds|
  {
    hide PutText, Flatten;
    var f, w, o := SubmitHead(s), SUBMIT_HEAD_WIDTHS, SUBMIT_OFFSETS;
    ByteAt(f, w, o, 1, s.pkTotal);
    ByteAt(f, w, o, 2, s.pkNumber);
    ByteAt(f, w, o, 3, s.registeredDelivery);
    ByteAt(f, w, o, 4, s.msgLevel);
    ByteAt(f, w, o, 6, s.feeUserType);
    ByteAt(f, w, o, 8, s.tpPid);
    ByteAt(f, w, o, 9, s.tpUdhi);
    ByteAt(f, w, o, 10, s.msgFmt);
    ByteAt(f, w, o, 17, |s.destTerminalIds|);
  }

  lemma SubmitTexts(s: Submit)
    requires |s.destTerminalIds| <= 255 && |Flatten(SubmitHead(s))| == 117
    ensures var b := Flatten(SubmitHead(s));
            && Holds(b[12..22], s.serviceId, 10) && Holds(b[23..44], s.feeTerminalId, 21)
            && Holds(b[47..53], s.msgSrc, 6) && Holds(b[53..55], s.feeType, 2) && Holds(b[55..61], s.feeCode, 6)
            && Holds(b[61..78], s.validTime, 17) && Holds(b[78..95], s.atTime, 17) && Holds(b[95..116], s.srcId, 21)
  {
    hide PutText, Flatten, Holds;
    var f, w, o := SubmitHead(s), SUBMIT_HEAD_WIDTHS, SUBMIT_OFFSETS;
    TextAt(f, w, o, 5, s.serviceId);
    TextAt(f, w, o, 7, s.feeTerminalId);
    TextAt(f, w, o, 11, s.msgSrc);
    TextAt(f, w, o, 12, s.feeType);
    TextAt(f, w, o, 13, s.feeCode);
    TextAt(f, w, o, 14, s.validTime);
    TextAt(f, w, o, 15, s.atTime);
    TextAt(f, w, o, 16, s.srcId);
  }

  /** The length byte, the content and eight reserved bytes, at the end. */
  ghost predicate EndsWith(b: Bytes, at: nat, content: Bytes) {
    && |b| == at + 1 + |content| + 8
    && b[at] as int == |content| && b[at + 1..at + 1 + |content|] == content
    && b[at + 1 + |content|..] == [0, 0, 0, 0, 0, 0, 0, 0]
  }

  lemma TailStands(front: Bytes, content: Bytes)
    requires |content| <= 255
    ensures EndsWith(front + Flatten(ContentTail(content)), |front|, content)
  {
    hide ContentTail;
    TailLength(content);
    assert RESERVED == [0, 0, 0, 0, 0, 0, 0, 0];
    var length: u8 := |content|;
    hide Flatten;
    assert (front + ([length] + content + RESERVED))[|front|] == length;
  }

  lemma {:induction false} DestinationsStand(ds: seq<Text>)
    ensures |Flatten(DestinationFields(ds))| == 21 * |ds|
    ensures forall i | 0 <= i < |ds| :: Holds(Flatten(DestinationFields(ds))[21 * i..21 * i + 21], ds[i], 21)
  {
    hide PutText, Holds;
    if ds == [] {
      assert DestinationFields(ds) == [];
    } else {
      var n := |ds| - 1;
      DestinationsStand(ds[..n]);
      FieldHolds(ds[n], 21);
      assert DestinationFields(ds) == DestinationFields(ds[..n]) + [PutText(ds[n], 21)];
      FlattenSplit(DestinationFields(ds[..n]), [PutText(ds[n], 21)]);
      assert Flatten([PutText(ds[n], 21)]) == PutText(ds[n], 21) + Flatten([]);
      var front := Flatten(DestinationFields(ds[..n]));
      assert Flatten(DestinationFields(ds)) == front + PutText(ds[n], 21);
      hide Flatten, DestinationFields;
      forall i | 0 <= i < |ds|
        ensures Holds(Flatten(DestinationFields(ds))[21 * i..21 * i + 21], ds[i], 21)
      {
        if i < n {
          assert Flatten(DestinationFields(ds))[21 * i..21 * i + 21] == front[21 * i..21 * i + 21];
          assert Holds(front[21 * i..21 * i + 21], ds[..n][i], 21);
        } else {
          assert Flatten(DestinationFields(ds))[21 * i..21 * i + 21] == PutText(ds[n], 21);
        }
      }
    }
  }

  lemma StartsPrefix(b: Bytes, more: Bytes, s: Submit)
    requires |b| == 117 && SubmitStarts(b, s)
    ensures SubmitStarts(b + more, s)
  {
    hide Holds;
    var x := b + more;
    assert x[..8] == b[..8] && x[12..22] == b[12..22] && x[23..44] == b[23..44] && x[47..53] == b[47..53];
    assert x[53..55] == b[53..55] && x[55..61] == b[55..61] && x[61..78] == b[61..78] && x[78..95] == b[78..95];
    assert x[95..116] == b[95..116];
  }

  lemma SubmitBody(s: Submit)
    requires Encodable(SubmitPdu(s))
    ensures Body(SubmitPdu(s)) ==
            Flatten(SubmitHead(s)) + Flatten(DestinationFields(s.destTerminalIds)) + Flatten(ContentTail(s.msgContent))
  {
    hide Flatten, SubmitHead, DestinationFields, ContentTail;
    var head, ds, tail := SubmitHead(s), DestinationFields(s.destTerminalIds), ContentTail(s.msgContent);
    FlattenSplit(head + ds, tail);
    FlattenSplit(head, ds);
  }

  lemma DestinationsBehind(h: Bytes, d: Bytes, t: Bytes, ds: seq<Text>)
    requires |h| == 117 && |d| == 21 * |ds|
    requires forall i | 0 <= i < |ds| :: Holds(d[21 * i..21 * i + 21], ds[i], 21)
    ensures forall i | 0 <= i < |ds| :: Holds((h + d + t)[117 + 21 * i..138 + 21 * i], ds[i], 21)
  {
    hide Holds;
    forall i | 0 <= i < |ds|
      ensures Holds((h + d + t)[117 + 21 * i..138 + 21 * i], ds[i], 21)
    {
      assert (h + d + t)[117 + 21 * i..138 + 21 * i] == d[21 * i..21 * i + 21];
    }
  }

  /** The body of a SUBMIT, field by field. */
  lemma SubmitStands(s: Submit)
    requires Encodable(SubmitPdu(s))
    ensures var b, n := Body(SubmitPdu(s)), |s.destTerminalIds|;
            && SubmitStarts(b, s) && |b| >= 117 + 21 * n
            && (forall i | 0 <= i < n :: Holds(b[117 + 21 * i..138 + 21 * i], s.destTerminalIds[i], 21))
            && EndsWith(b, 117 + 21 * n, s.msgContent)
  {
    hide Flatten, SubmitHead, DestinationFields, ContentTail, SubmitStarts, EndsWith, Holds, Body;
    SubmitBody(s);
    SubmitHeadStands(s);
    DestinationsStand(s.destTerminalIds);
    var h, d, t := Flatten(SubmitHead(s)), Flatten(DestinationFields(s.destTerminalIds)),
                   Flatten(ContentTail(s.msgContent));
    assert (h + d) + t == h + (d + t);
    TailStands(h + d, s.msgContent);
    StartsPrefix(h, d + t, s);
    DestinationsBehind(h, d, t, s.destTerminalIds);
  }

  ghost predicate DeliverStarts(b: Bytes, d: Deliver) {
    && |b| >= 64
    && b[..8] == d.msgId && Holds(b[8..29], d.destId, 21) && Holds(b[29..39], d.serviceId, 10)
    && b[39] == d.tpPid && b[40] == d.tpUdhi && b[41] == d.msgFmt && Holds(b[42..63], d.srcTerminalId, 21)
    && b[63] == d.registeredDelivery
  }

  lemma DeliverHeadStands(d: Deliver)
    ensures |Flatten(DeliverHead(d))| == 64 && DeliverStarts(Flatten(DeliverHead(d)), d)
  {
    hide PutText, Flatten, Holds;
    var f, w, o := DeliverHead(d), DELIVER_HEAD_WIDTHS, DELIVER_OFFSETS;
    FieldStands(f, w, o, 0);
    TextAt(f, w, o, 1, d.destId);
    TextAt(f, w, o, 2, d.serviceId);
    TextAt(f, w, o, 6, d.srcTerminalId);
    ByteAt(f, w, o, 3, d.tpPid);
    ByteAt(f, w, o, 4, d.tpUdhi);
    ByteAt(f, w, o, 5, d.msgFmt);
    ByteAt(f, w, o, 7, d.registeredDelivery);
  }

  /** The body of a DELIVER. */
  lemma DeliverStands(d: Deliver)
    requires Encodable(DeliverPdu(d))
    ensures DeliverStarts(Body(DeliverPdu(d)), d) && EndsWith(Body(DeliverPdu(d)), 64, d.msgContent)
  {
    hide Flatten, DeliverHead, ContentTail, EndsWith, Holds;
    FlattenSplit(DeliverHead(d), ContentTail(d.msgContent));
    DeliverHeadStands(d);
    TailStands(Flatten(DeliverHead(d)), d.msgContent);
    var h, b := Flatten(DeliverHead(d)), Body(DeliverPdu(d));
    assert b[..8] == h[..8] && b[8..29] == h[8..29] && b[29..39] == h[29..39] && b[42..63] == h[42..63];
  }

  /** The bodies of the other kinds. */
  lemma OthersStand(p: Pdu)
    requires !p.SubmitPdu? && !p.DeliverPdu?
    ensures var b := Body(p);
            match p
            case ConnectPdu(c) =>
              && |b| == 27 && Holds(b[..6], c.sourceAddr, 6) && b[6..22] == c.authenticatorSource
              && b[22] == c.version && IsBigEndian(b[23..27], c.timestamp)
            case ConnectRespPdu(c) => b == [c.status] + c.authenticatorIsmg + [c.version]
            case SubmitRespPdu(a) => b == a.msgId + [a.result]
            case DeliverRespPdu(a) => b == a.msgId + [a.result]
            case ActiveTestResp => b == [0]
            case _ => b == []
  {
    hide PutText, BigEndian32, Holds, IsBigEndian, Flatten;
    Nothing();
    match p {
      case ConnectPdu(c) => ConnectStands(c);
      case ConnectRespPdu(c) => ConnectRespStands(c);
      case SubmitRespPdu(a) => AcknowledgementStands(a);
      case DeliverRespPdu(a) => AcknowledgementStands(a);
      case ActiveTestResp =>
        HeadIs([0], []);
        assert [[0 as u8]] == [[0 as u8]] + [];
      case _ =>
    }
  }

  lemma ConnectStands(c: Connect)
    ensures var b := Flatten(ConnectFields(c));
            && |b| == 27 && Holds(b[..6], c.sourceAddr, 6) && b[6..22] == c.authenticatorSource
            && b[22] == c.version && IsBigEndian(b[23..27], c.timestamp)
  {
    hide PutText, BigEndian32, Holds, IsBigEndian, Flatten;
    var f, w, o: seq<nat> := ConnectFields(c), CONNECT_WIDTHS, [0, 6, 22, 23, 27];
    TextAt(f, w, o, 0, c.sourceAddr);
    FieldStands(f, w, o, 1);
    ByteAt(f, w, o, 2, c.version);
    FieldStands(f, w, o, 3);
    NumberStands(c.timestamp);
  }

  lemma HeadIs(field: Bytes, more: seq<Bytes>)
    ensures Flatten([field] + more) == field + Flatten(more) && Flatten([]) == []
  {
    assert ([field] + more)[1..] == more;
  }

  lemma Nothing()
    ensures Flatten([]) == []
  {
  }

  lemma ConnectRespStands(c: ConnectResp)
    ensures Flatten(ConnectRespFields(c)) == [c.status] + c.authenticatorIsmg + [c.version]
  {
    hide Flatten;
    HeadIs([c.status], [c.authenticatorIsmg, [c.version]]);
    HeadIs(c.authenticatorIsmg, [[c.version]]);
    HeadIs([c.version], []);
    assert [[c.status]] + [c.authenticatorIsmg, [c.version]] == ConnectRespFields(c);
    assert [c.authenticatorIsmg] + [[c.version]] == [c.authenticatorIsmg, [c.version]];
    assert [[c.version]] + [] == [[c.version]];
  }

  lemma AcknowledgementStands(a: Acknowledgement)
    ensures Flatten(AcknowledgementFields(a)) == a.msgId + [a.result]
  {
    hide Flatten;
    HeadIs(a.msgId, [[a.result]]);
    HeadIs([a.result], []);
    assert AcknowledgementFields(a) == [a.msgId] + [[a.result]] && [[a.result]] + [] == [[a.result]];
  }

  // ----------------------------------------------------------------- decoding

  /** What one call of the decoder does with a buffer: it waits for twelve bytes and for
      the length they announce, refuses a length out of range or an unknown command, and
      otherwise takes exactly that many bytes off. */
  lemma DecoderDecides(data: Bytes)
    ensures |data| < 12 ==> DecodeStep(data) == (Ok(None), data)
    ensures |data| >= 12 ==>
              var n := ((data[0] as int * 0x100 + data[1] as int) * 0x100 + data[2] as int) * 0x100 + data[3] as int;
              && (n < 12 || n > 65536 ==> DecodeStep(data) == (Err(MessageLength), data))
              && (12 <= n <= 65536 && |data| < n ==> DecodeStep(data) == (Ok(None), data))
              && (12 <= n <= 65536 && |data| >= n ==>
                    && DecodeStep(data).1 == data[n..] && DecodeStep(data).0 != Ok(None)
                    && (!Known(data[4..8]) ==> DecodeStep(data).0 == Err(UnknownCommand))
                    && (DecodeStep(data).0 == Err(UnknownCommand) ==> !Known(data[4..8])))
  {
    if |data| >= 12 {
      hide DecodePdu;
      CommandIsKnown(data[4..8]);
      var n := FromBigEndian32(data[..4]);
      if 12 <= n <= 65536 && |data| >= n {
        UnknownRefused(FromBigEndian32(data[4..8]), data[12..n]);
      }
    }
  }

  lemma {:induction false} SplitParts(widths: seq<nat>, b: Bytes)
    requires Split(widths, b).Some?
    ensures var (f, rest) := Split(widths, b).value; HaveWidths(f, widths) && Flatten(f) + rest == b
  {
    if widths == [] {
      assert [] + b == b;
    } else {
      SplitParts(widths[1..], b[widths[0]..]);
      var (f, rest) := Split(widths[1..], b[widths[0]..]).value;
      assert ([b[..widths[0]]] + f)[1..] == f;
      assert b[..widths[0]] + (Flatten(f) + rest) == b;
      assert b[..widths[0]] + Flatten(f) + rest == b[..widths[0]] + (Flatten(f) + rest);
    }
  }

  lemma SplitRest(widths: seq<nat>, b: Bytes, n: nat)
    requires Total(widths) == n <= |b|
    ensures Split(widths, b).Some? && Split(widths, b).value.1 == b[n..]
  {
    hide Flatten, Split, Total;
    SplitNeeds(widths, b);
    SplitParts(widths, b);
    var (f, rest) := Split(widths, b).value;
    FlattenLength(f, widths);
    assert b[n..] == rest;
  }

  /** What is split off a SUBMIT body before its destinations. */
  lemma SubmitFront(b: Bytes)
    requires |b| >= 117
    ensures Split(SUBMIT_HEAD_WIDTHS, b).Some?
    ensures var (f, rest) := Split(SUBMIT_HEAD_WIDTHS, b).value; f[17] == [b[116]] && rest == b[117..]
  {
    hide Flatten, Split, Total;
    SubmitHeadTotal();
    SplitRest(SUBMIT_HEAD_WIDTHS, b, 117);
    SplitParts(SUBMIT_HEAD_WIDTHS, b);
    CountByte(Split(SUBMIT_HEAD_WIDTHS, b).value.0, Split(SUBMIT_HEAD_WIDTHS, b).value.1, b);
  }

  lemma CountByte(f: seq<Bytes>, rest: Bytes, b: Bytes)
    requires HaveWidths(f, SUBMIT_HEAD_WIDTHS) && Flatten(f) + rest == b
    ensures |b| >= 117 && f[17] == [b[116]]
  {
    hide Flatten;
    FieldStands(f, SUBMIT_HEAD_WIDTHS, SUBMIT_OFFSETS, 17);
    hide AreOffsets, HaveWidths;
    var h := Flatten(f);
    assert f[17] == h[116..117] == [h[116]];
    assert b[116] == h[116];
  }

  /** How the end of a body is judged, from its length byte on. */
  ghost predicate TailJudged(tail: Bytes, e: Result<Bytes, DecodeError>) {
    if |tail| == 0 then e == Err(Truncated)
    else if |tail| < 9 + tail[0] as int then e == Err(Truncated)
    else if |tail| > 9 + tail[0] as int then e == Err(Trailing)
    else e == Ok(tail[1..1 + tail[0] as int])
  }

  /** A SUBMIT body is accepted exactly when it is as long as its destination count and
      its content length say; what else it is tells which error is returned. */
  lemma SubmitAccepted(b: Bytes)
    ensures |b| < 117 ==> DecodeSubmit(b) == Err(Truncated)
    ensures |b| >= 117 ==>
              var at := 117 + 21 * b[116] as int;
              if |b| < at + 9 then DecodeSubmit(b) == Err(DestinationCount)
              else if |b| < at + 9 + b[at] as int then DecodeSubmit(b) == Err(Truncated)
              else if |b| > at + 9 + b[at] as int then DecodeSubmit(b) == Err(Trailing)
              else DecodeSubmit(b).Ok? && DecodeSubmit(b).value.msgContent == b[at + 1..at + 1 + b[at] as int]
  {
    hide Flatten, Split, Total, SubmitFrom;
    SubmitHeadTotal();
    SplitNeeds(SUBMIT_HEAD_WIDTHS, b);
    if |b| >= 117 {
      SubmitFront(b);
      var n: nat := b[116];
      var rest := b[117..];
      TotalRepeat(n, 21);
      if |rest| >= n * 21 + 9 {
        SplitRest(seq(n, _ => 21), rest, n * 21);
        var tail := rest[n * 21..];
        assert tail == b[117 + 21 * n..];
        ContentFrom(Split(SUBMIT_HEAD_WIDTHS, b).value.0, Split(seq(n, _ => 21), rest).value.0, tail);
      }
    }
  }

  lemma ContentFrom(f: seq<Bytes>, ds: seq<Bytes>, tail: Bytes)
    requires HaveWidths(f, SUBMIT_HEAD_WIDTHS)
    ensures TailJudged(tail, DecodeTail(tail))
    ensures DecodeTail(tail).Ok? ==> SubmitFrom(f, ds, DecodeTail(tail).value).msgContent == DecodeTail(tail).value
  {
    hide ReadText, ReadAll;
  }

  /** So is a DELIVER body ... */
  lemma DeliverAccepted(b: Bytes)
    ensures |b| < 65 ==> DecodeDeliver(b) == Err(Truncated)
    ensures |b| >= 65 ==>
              if |b| < 73 + b[64] as int then DecodeDeliver(b) == Err(Truncated)
              else if |b| > 73 + b[64] as int then DecodeDeliver(b) == Err(Trailing)
              else DecodeDeliver(b).Ok? && DecodeDeliver(b).value.msgContent == b[65..65 + b[64] as int]
  {
    hide Flatten, Split, Total, ReadText;
    DeliverHeadTotal();
    SplitNeeds(DELIVER_HEAD_WIDTHS, b);
    if |b| >= 64 {
      SplitRest(DELIVER_HEAD_WIDTHS, b, 64);
      var tail := b[64..];
      assert TailJudged(tail, DecodeTail(tail));
    }
  }

  /** ... and a body of fixed length exactly at that length. */
  lemma FixedAccepted(b: Bytes)
    ensures DecodeConnect(b).Ok? <==> |b| == 27
    ensures DecodeConnect(b).Err? ==> DecodeConnect(b).error == if |b| < 27 then Truncated else Trailing
    ensures DecodeConnectResp(b).Ok? <==> |b| == 18
    ensures DecodeConnectResp(b).Err? ==> DecodeConnectResp(b).error == if |b| < 18 then Truncated else Trailing
    ensures DecodeAcknowledgement(b).Ok? <==> |b| == 9
    ensures DecodeAcknowledgement(b).Err? ==> DecodeAcknowledgement(b).error == if |b| < 9 then Truncated else Trailing
  {
    hide Split, ReadText, FromBigEndian32;
    SmallTotals();
    SplitNeeds(CONNECT_WIDTHS, b);
    SplitNeeds(CONNECT_RESP_WIDTHS, b);
    SplitNeeds(ACKNOWLEDGEMENT_WIDTHS, b);
    hide Total;
    if |b| >= 27 { SplitRest(CONNECT_WIDTHS, b, 27); }
    if |b| >= 18 { SplitRest(CONNECT_RESP_WIDTHS, b, 18); }
    if |b| >= 9 { SplitRest(ACKNOWLEDGEMENT_WIDTHS, b, 9); }
  }

  lemma SmallTotals()
    ensures Total(CONNECT_WIDTHS) == 27 && Total(CONNECT_RESP_WIDTHS) == 18 && Total(ACKNOWLEDGEMENT_WIDTHS) == 9
  {
    assert Total([4]) == 4 && Total([1, 4]) == 5 && Total([16, 1, 4]) == 21;
    assert Total([1]) == 1 && Total([16, 1]) == 17;
    assert CONNECT_WIDTHS[1..] == [16, 1, 4] && CONNECT_RESP_WIDTHS[1..] == [16, 1];
    assert ACKNOWLEDGEMENT_WIDTHS[1..] == [1];
  }

  /** The ten command ids. */
  predicate Known(b: Bytes) {
    && |b| == 4 && (b[0] == 0 || b[0] == 0x80) && b[1] == 0 && b[2] == 0
    && (b[3] == 1 || b[3] == 2 || b[3] == 4 || b[3] == 5 || b[3] == 8)
  }

  predicate KnownCommand(x: u32) {
    || x == 1 || x == 2 || x == 4 || x == 5 || x == 8
    || x == 0x8000_0001 || x == 0x8000_0002 || x == 0x8000_0004 || x == 0x8000_0005 || x == 0x8000_0008
  }

  lemma CommandIsKnown(b: Bytes)
    requires |b| == 4
    ensures Known(b) <==> KnownCommand(FromBigEndian32(b))
  {
  }

  lemma UnknownRefused(commandId: u32, body: Bytes)
    ensures DecodePdu(commandId, body) == Err(UnknownCommand) <==> !KnownCommand(commandId)
  {
    hide ReadText, Split, SubmitFrom, DeliverFrom;
  }
}
