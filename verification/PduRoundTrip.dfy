/** Decoding what was encoded. */
module PduRoundTrip {
  import opened Wrappers
  import opened Utf8
  import opened WireBytes
  import opened OctetText
  import opened Pdu

  function SubmitKept(s: Submit): Submit {
    s.(serviceId := Kept(s.serviceId, 10), feeTerminalId := Kept(s.feeTerminalId, 21), msgSrc := Kept(s.msgSrc, 6),
       feeType := Kept(s.feeType, 2), feeCode := Kept(s.feeCode, 6), validTime := Kept(s.validTime, 17),
       atTime := Kept(s.atTime, 17), srcId := Kept(s.srcId, 21),
       destTerminalIds := seq(|s.destTerminalIds|,
                              i requires 0 <= i < |s.destTerminalIds| => Kept(s.destTerminalIds[i], 21)))
  }

  function DeliverKept(d: Deliver): Deliver {
    d.(destId := Kept(d.destId, 21), serviceId := Kept(d.serviceId, 10), srcTerminalId := Kept(d.srcTerminalId, 21))
  }

  /** The PDU that arrives. */
  function PduKept(p: Pdu): Pdu {
    match p
    case ConnectPdu(c) => ConnectPdu(c.(sourceAddr := Kept(c.sourceAddr, 6)))
    case SubmitPdu(s) => SubmitPdu(SubmitKept(s))
    case DeliverPdu(d) => DeliverPdu(DeliverKept(d))
    case _ => p
  }

  predicate SurvivingSubmit(s: Submit) {
    && Survives(s.serviceId, 10) && Survives(s.feeTerminalId, 21) && Survives(s.msgSrc, 6)
    && Survives(s.feeType, 2) && Survives(s.feeCode, 6) && Survives(s.validTime, 17)
    && Survives(s.atTime, 17) && Survives(s.srcId, 21)
    && forall i | 0 <= i < |s.destTerminalIds| :: Survives(s.destTerminalIds[i], 21)
  }

  predicate SurvivingPdu(p: Pdu) {
    match p
    case ConnectPdu(c) => Survives(c.sourceAddr, 6)
    case SubmitPdu(s) => SurvivingSubmit(s)
    case DeliverPdu(d) => Survives(d.destId, 21) && Survives(d.serviceId, 10) && Survives(d.srcTerminalId, 21)
    case _ => true
  }

  // ------------------------------------------------------- one kind at a time

  lemma SplitWhole(widths: seq<nat>, fields: seq<Bytes>)
    requires HaveWidths(fields, widths)
    ensures Split(widths, Flatten(fields)) == Some((fields, []))
  {
    hide Split, Flatten;
    SplitFlatten(widths, fields, []);
    assert Flatten(fields) + [] == Flatten(fields);
  }

  lemma ConnectArrives(c: Connect)
    ensures DecodeConnect(Flatten(ConnectFields(c))) == Ok(c.(sourceAddr := Kept(c.sourceAddr, 6)))
  {
    hide Split, Flatten, ReadText, PutText, BigEndian32, FromBigEndian32;
    SplitWhole(CONNECT_WIDTHS, ConnectFields(c));
    BigEndian32RoundTrip(c.timestamp);
  }

  lemma ConnectRespArrives(c: ConnectResp)
    ensures DecodeConnectResp(Flatten(ConnectRespFields(c))) == Ok(c)
  {
    hide Split, Flatten;
    SplitWhole(CONNECT_RESP_WIDTHS, ConnectRespFields(c));
  }

  lemma AcknowledgementArrives(a: Acknowledgement)
    ensures DecodeAcknowledgement(Flatten(AcknowledgementFields(a))) == Ok(a)
  {
    hide Split, Flatten;
    SplitWhole(ACKNOWLEDGEMENT_WIDTHS, AcknowledgementFields(a));
  }

  lemma TailArrives(content: Bytes)
    requires |content| <= 255
    ensures DecodeTail(Flatten(ContentTail(content))) == Ok(content)
  {
    hide Flatten, ContentTail;
    TailLength(content);
    var b := Flatten(ContentTail(content));
    assert b[0] == |content| && b[1..1 + |content|] == content;
  }

  lemma HeadIsKept(s: Submit)
    requires |s.destTerminalIds| <= 255
    ensures SubmitFrom(SubmitHead(s), DestinationFields(s.destTerminalIds), s.msgContent) == SubmitKept(s)
  {
    hide ReadText, PutText;
    assert ReadAll(DestinationFields(s.destTerminalIds)) == SubmitKept(s).destTerminalIds;
  }

  lemma HeadCount(s: Submit)
    requires |s.destTerminalIds| <= 255
    ensures SubmitHead(s)[17] == [|s.destTerminalIds|]
  {
    hide PutText;
  }

  lemma SubmitArrives(s: Submit)
    requires |s.destTerminalIds| <= 255 && |s.msgContent| <= 255
    ensures DecodeSubmit(Flatten(SubmitHead(s) + DestinationFields(s.destTerminalIds) + ContentTail(s.msgContent)))
            == Ok(SubmitKept(s))
  {
    hide Flatten, SubmitHead, DestinationFields, ContentTail, Split, SubmitKept, SubmitFrom, DecodeTail, PutText,
         ReadText, ReadAll;
    var head, ds, tail := SubmitHead(s), DestinationFields(s.destTerminalIds), ContentTail(s.msgContent);
    HeadCount(s);
    FlattenSplit(head + ds, tail);
    FlattenSplit(head, ds);
    assert Flatten(head) + Flatten(ds) + Flatten(tail) == Flatten(head) + (Flatten(ds) + Flatten(tail));
    SplitFlatten(SUBMIT_HEAD_WIDTHS, head, Flatten(ds) + Flatten(tail));
    SplitFlatten(seq(|s.destTerminalIds|, _ => 21), ds, Flatten(tail));
    FlattenLength(ds, seq(|s.destTerminalIds|, _ => 21));
    TotalRepeat(|s.destTerminalIds|, 21);
    TailLength(s.msgContent);
    TailArrives(s.msgContent);
    HeadIsKept(s);
  }

  lemma DeliverArrives(d: Deliver)
    requires |d.msgContent| <= 255
    ensures DecodeDeliver(Flatten(DeliverHead(d) + ContentTail(d.msgContent))) == Ok(DeliverKept(d))
  {
    var head, tail := DeliverHead(d), ContentTail(d.msgContent);
    assert DeliverFrom(head, d.msgContent) == DeliverKept(d) by {
      hide ReadText, PutText;
    }
    hide Flatten, DeliverHead, ContentTail, Split, DeliverKept, DeliverFrom, DecodeTail;
    FlattenSplit(head, tail);
    SplitFlatten(DELIVER_HEAD_WIDTHS, head, Flatten(tail));
    TailArrives(d.msgContent);
  }

  /** Every encodable PDU decodes to itself, but for what its string fields cut off. */
  lemma PduArrives(p: Pdu)
    requires Encodable(p)
    ensures DecodePdu(CommandId(p), Body(p)) == Ok(PduKept(p))
  {
    hide Flatten, ConnectFields, ConnectRespFields, SubmitHead, DestinationFields, ContentTail,
         DeliverHead, AcknowledgementFields, DecodeConnect, DecodeConnectResp, DecodeSubmit,
         DecodeDeliver, DecodeAcknowledgement, Kept, SubmitKept, DeliverKept;
    match p {
      case ConnectPdu(c) => ConnectArrives(c);
      case ConnectRespPdu(c) => ConnectRespArrives(c);
      case SubmitPdu(s) => SubmitArrives(s);
      case SubmitRespPdu(a) => AcknowledgementArrives(a);
      case DeliverPdu(d) => DeliverArrives(d);
      case DeliverRespPdu(a) => AcknowledgementArrives(a);
      case _ => HintIsExact(p);
    }
  }

  lemma SubmitKeptIff(s: Submit)
    ensures SubmitKept(s) == s <==> SurvivingSubmit(s)
  {
    hide Kept, Survives;
    OctetRoundTrip(s.serviceId, 10);
    OctetRoundTrip(s.feeTerminalId, 21);
    OctetRoundTrip(s.msgSrc, 6);
    OctetRoundTrip(s.feeType, 2);
    OctetRoundTrip(s.feeCode, 6);
    OctetRoundTrip(s.validTime, 17);
    OctetRoundTrip(s.atTime, 17);
    OctetRoundTrip(s.srcId, 21);
    forall i | 0 <= i < |s.destTerminalIds|
      ensures SubmitKept(s).destTerminalIds[i] == s.destTerminalIds[i] <==> Survives(s.destTerminalIds[i], 21)
    {
      OctetRoundTrip(s.destTerminalIds[i], 21);
    }
    assert SubmitKept(s).destTerminalIds == s.destTerminalIds <==>
           forall i | 0 <= i < |s.destTerminalIds| :: SubmitKept(s).destTerminalIds[i] == s.destTerminalIds[i];
  }

  lemma KeptIff(p: Pdu)
    ensures PduKept(p) == p <==> SurvivingPdu(p)
  {
    hide Kept, Survives, SubmitKept, SurvivingSubmit;
    match p {
      case ConnectPdu(c) => OctetRoundTrip(c.sourceAddr, 6);
      case SubmitPdu(s) => SubmitKeptIff(s);
      case DeliverPdu(d) =>
        OctetRoundTrip(d.destId, 21);
        OctetRoundTrip(d.serviceId, 10);
        OctetRoundTrip(d.srcTerminalId, 21);
      case _ =>
    }
  }

  /** The round trip is exact for the PDUs whose strings survive their fields, and only
      for them. */
  lemma BodyRoundTrip(p: Pdu)
    requires Encodable(p)
    ensures DecodePdu(CommandId(p), Body(p)) == Ok(p) <==> SurvivingPdu(p)
  {
    hide Encodable, DecodePdu, Body, CommandId, PduKept, SurvivingPdu;
    PduArrives(p);
    KeptIff(p);
  }
}
