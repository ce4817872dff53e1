/** The PDUs octet by octet (SMPP v3.4, section 4): which command id, which members, in
    which order, and how long each may be. */
module PduFormats {
  import opened Octets
  import opened Flags
  import opened Schema
  import opened Pdus
  import opened WireFormat
  import Oparam

  function CString(s: seq<Octet>, max: nat): Result<seq<Octet>> {
    if |s| < max then Ok(s + [0]) else Err
  }

  function Sized(s: seq<Octet>, max: nat): Result<seq<Octet>>
    requires max <= 0xFF
  {
    if |s| <= max then Ok([|s|] + s) else Err
  }

  function Join(parts: seq<Result<seq<Octet>>>): Result<seq<Octet>> {
    if parts == [] then Ok([])
    else if parts[0].Ok? && Join(parts[1..]).Ok? then Ok(parts[0].value + Join(parts[1..]).value)
    else Err
  }

  lemma {:induction false} EncodeIsJoin(fields: seq<Field>, vals: seq<Value>, parts: seq<Result<seq<Octet>>>)
    requires Typed(fields, vals) && |parts| == |fields|
    requires forall i | 0 <= i < |fields| :: EncodeField(fields[i].kind, vals[i]) == parts[i]
    ensures EncodeFields(fields, vals) == Join(parts)
  {
    if fields != [] {
      hide EncodeField;
      forall i | 0 <= i < |fields| - 1 ensures EncodeField(fields[1..][i].kind, vals[1..][i]) == parts[1..][i] {
        assert fields[1..][i] == fields[i + 1] && vals[1..][i] == vals[i + 1] && parts[1..][i] == parts[i + 1];
      }
      assert EncodeField(fields[0].kind, vals[0]) == parts[0];
      EncodeIsJoin(fields[1..], vals[1..], parts[1..]);
    }
  }

  /** The members of a submit_sm or deliver_sm. */
  datatype ShortMessagePdu = ShortMessagePdu(
    serviceType: seq<Octet>, sourceAddrTon: Octet, sourceAddrNpi: Octet, sourceAddr: seq<Octet>,
    destAddrTon: Octet, destAddrNpi: Octet, destAddr: seq<Octet>, esmClass: EsmClass, protocolId: Octet,
    priorityFlag: Octet, scheduleDeliveryTime: seq<Octet>, validityPeriod: seq<Octet>,
    registeredDelivery: RegisteredDelivery, replaceIfPresentFlag: Octet, dataCoding: Octet,
    smDefaultMsgId: Octet, shortMessage: seq<Octet>, oparam: Oparam.Params)
  {
    function Values(): seq<Value> {
      [Text(serviceType), Number(sourceAddrTon), Number(sourceAddrNpi), Text(sourceAddr), Number(destAddrTon),
       Number(destAddrNpi), Text(destAddr), Esm(esmClass), Number(protocolId), Number(priorityFlag),
       Text(scheduleDeliveryTime), Text(validityPeriod), Value.Delivery(registeredDelivery),
       Number(replaceIfPresentFlag), Number(dataCoding), Number(smDefaultMsgId), Text(shortMessage), Optional(oparam)]
    }

    function Parts(timeMax: nat): seq<Result<seq<Octet>>> {
      [CString(serviceType, 6), Ok([sourceAddrTon]), Ok([sourceAddrNpi]), CString(sourceAddr, 21), Ok([destAddrTon]),
       Ok([destAddrNpi]), CString(destAddr, 21), Ok([esmClass.ToU8()]), Ok([protocolId]), Ok([priorityFlag]),
       CString(scheduleDeliveryTime, timeMax), CString(validityPeriod, timeMax), Ok([registeredDelivery.ToU8()]),
       Ok([replaceIfPresentFlag]), Ok([dataCoding]), Ok([smDefaultMsgId]), Sized(shortMessage, 254),
       Ok(Oparam.Serialize(oparam))]
    }
  }

  lemma SubmitSmOnTheWire(p: ShortMessagePdu)
    ensures Typed(SubmitSmFields(), p.Values())
    ensures EncodeFields(SubmitSmFields(), p.Values()) == Join(p.Parts(17))
  {
    hide EsmClass.ToU8, RegisteredDelivery.ToU8, Oparam.Serialize;
    EncodeIsJoin(SubmitSmFields(), p.Values(), p.Parts(17));
  }

  lemma DeliverSmOnTheWire(p: ShortMessagePdu)
    ensures Typed(DeliverSmFields(), p.Values())
    ensures EncodeFields(DeliverSmFields(), p.Values()) == Join(p.Parts(1))
  {
    hide EsmClass.ToU8, RegisteredDelivery.ToU8, Oparam.Serialize;
    EncodeIsJoin(DeliverSmFields(), p.Values(), p.Parts(1));
  }

  lemma ReplaceSmOnTheWire(messageId: seq<Octet>, ton: Octet, npi: Octet, sourceAddr: seq<Octet>,
                           scheduleDeliveryTime: seq<Octet>, validityPeriod: seq<Octet>,
                           registeredDelivery: RegisteredDelivery, smDefaultMsgId: Octet, shortMessage: seq<Octet>)
    ensures var vals := [Text(messageId), Number(ton), Number(npi), Text(sourceAddr), Text(scheduleDeliveryTime),
                         Text(validityPeriod), Value.Delivery(registeredDelivery), Number(smDefaultMsgId),
                         Text(shortMessage)];
            && Typed(ReplaceSmFields(), vals)
            && EncodeFields(ReplaceSmFields(), vals)
               == Join([CString(messageId, 65), Ok([ton]), Ok([npi]), CString(sourceAddr, 21),
                        CString(scheduleDeliveryTime, 17), CString(validityPeriod, 17),
                        Ok([registeredDelivery.ToU8()]), Ok([smDefaultMsgId]), Sized(shortMessage, 254)])
  {
    hide RegisteredDelivery.ToU8;
    var vals := [Text(messageId), Number(ton), Number(npi), Text(sourceAddr), Text(scheduleDeliveryTime),
                 Text(validityPeriod), Value.Delivery(registeredDelivery), Number(smDefaultMsgId), Text(shortMessage)];
    var parts := [CString(messageId, 65), Ok([ton]), Ok([npi]), CString(sourceAddr, 21),
                  CString(scheduleDeliveryTime, 17), CString(validityPeriod, 17),
                  Ok([registeredDelivery.ToU8()]), Ok([smDefaultMsgId]), Sized(shortMessage, 254)];
    EncodeIsJoin(ReplaceSmFields(), vals, parts);
  }

  /** The three requests to bind. */
  lemma BindOnTheWire(systemId: seq<Octet>, password: seq<Octet>, systemType: seq<Octet>, interfaceVersion: Octet,
                      addrTon: Octet, addrNpi: Octet, addressRange: seq<Octet>)
    ensures var vals := [Text(systemId), Text(password), Text(systemType), Number(interfaceVersion),
                        Number(addrTon), Number(addrNpi), Text(addressRange)];
            var parts := [CString(systemId, 16), CString(password, 9), CString(systemType, 13),
                         Ok([interfaceVersion]), Ok([addrTon]), Ok([addrNpi]), CString(addressRange, 41)];
            && Typed(BindReceiverFields(), vals) && EncodeFields(BindReceiverFields(), vals) == Join(parts)
            && Typed(BindTransceiverFields(), vals) && EncodeFields(BindTransceiverFields(), vals) == Join(parts)
            && Typed(BindTransmitterFields(), vals) && EncodeFields(BindTransmitterFields(), vals) == Join(parts)
  {
    var vals := [Text(systemId), Text(password), Text(systemType), Number(interfaceVersion), Number(addrTon),
                 Number(addrNpi), Text(addressRange)];
    var parts := [CString(systemId, 16), CString(password, 9), CString(systemType, 13), Ok([interfaceVersion]),
                  Ok([addrTon]), Ok([addrNpi]), CString(addressRange, 41)];
    EncodeIsJoin(BindReceiverFields(), vals, parts);
    EncodeIsJoin(BindTransceiverFields(), vals, parts);
    EncodeIsJoin(BindTransmitterFields(), vals, parts);
  }

  /** Their responses. */
  lemma BindRespOnTheWire(systemId: seq<Octet>, oparam: Oparam.Params)
    ensures var vals := [Text(systemId), Optional(oparam)];
            var parts := [CString(systemId, 16), Ok(Oparam.Serialize(oparam))];
            && Typed(BindReceiverRespFields(), vals) && EncodeFields(BindReceiverRespFields(), vals) == Join(parts)
            && Typed(BindTransceiverRespFields(), vals)
            && EncodeFields(BindTransceiverRespFields(), vals) == Join(parts)
            && Typed(BindTransmitterRespFields(), vals)
            && EncodeFields(BindTransmitterRespFields(), vals) == Join(parts)
  {
    hide Oparam.Serialize;
    var vals := [Text(systemId), Optional(oparam)];
    var parts := [CString(systemId, 16), Ok(Oparam.Serialize(oparam))];
    EncodeIsJoin(BindReceiverRespFields(), vals, parts);
    EncodeIsJoin(BindTransceiverRespFields(), vals, parts);
    EncodeIsJoin(BindTransmitterRespFields(), vals, parts);
  }

  /** outbind */
  lemma OutbindOnTheWire(systemId: seq<Octet>, password: seq<Octet>)
    ensures var vals := [Text(systemId), Text(password)];
            var parts := [CString(systemId, 16), CString(password, 9)];
            && Typed(OutbindFields(), vals) && EncodeFields(OutbindFields(), vals) == Join(parts)
  {
    var vals := [Text(systemId), Text(password)];
    var parts := [CString(systemId, 16), CString(password, 9)];
    EncodeIsJoin(OutbindFields(), vals, parts);
  }

  /** data_sm */
  lemma DataSmOnTheWire(serviceType: seq<Octet>, sourceAddrTon: Octet, sourceAddrNpi: Octet,
                        sourceAddr: seq<Octet>, destAddrTon: Octet, destAddrNpi: Octet, destAddr: seq<Octet>,
                        esmClass: EsmClass, registeredDelivery: RegisteredDelivery, dataCoding: Octet,
                        oparam: Oparam.Params)
    ensures var vals := [Text(serviceType), Number(sourceAddrTon), Number(sourceAddrNpi), Text(sourceAddr),
                        Number(destAddrTon), Number(destAddrNpi), Text(destAddr), Esm(esmClass),
                        Value.Delivery(registeredDelivery), Number(dataCoding), Optional(oparam)];
            var parts := [CString(serviceType, 6), Ok([sourceAddrTon]), Ok([sourceAddrNpi]),
                         CString(sourceAddr, 65), Ok([destAddrTon]), Ok([destAddrNpi]), CString(destAddr, 65),
                         Ok([esmClass.ToU8()]), Ok([registeredDelivery.ToU8()]), Ok([dataCoding]),
                         Ok(Oparam.Serialize(oparam))];
            && Typed(DataSmFields(), vals) && EncodeFields(DataSmFields(), vals) == Join(parts)
  {
    hide EsmClass.ToU8, RegisteredDelivery.ToU8, Oparam.Serialize;
    var vals := [Text(serviceType), Number(sourceAddrTon), Number(sourceAddrNpi), Text(sourceAddr),
                 Number(destAddrTon), Number(destAddrNpi), Text(destAddr), Esm(esmClass),
                 Value.Delivery(registeredDelivery), Number(dataCoding), Optional(oparam)];
    var parts := [CString(serviceType, 6), Ok([sourceAddrTon]), Ok([sourceAddrNpi]), CString(sourceAddr, 65),
                  Ok([destAddrTon]), Ok([destAddrNpi]), CString(destAddr, 65), Ok([esmClass.ToU8()]),
                  Ok([registeredDelivery.ToU8()]), Ok([dataCoding]), Ok(Oparam.Serialize(oparam))];
    EncodeIsJoin(DataSmFields(), vals, parts);
  }

  /** data_sm_resp */
  lemma DataSmRespOnTheWire(messageId: seq<Octet>, oparam: Oparam.Params)
    ensures var vals := [Text(messageId), Optional(oparam)];
            var parts := [CString(messageId, 65), Ok(Oparam.Serialize(oparam))];
            && Typed(DataSmRespFields(), vals) && EncodeFields(DataSmRespFields(), vals) == Join(parts)
  {
    hide Oparam.Serialize;
    var vals := [Text(messageId), Optional(oparam)];
    var parts := [CString(messageId, 65), Ok(Oparam.Serialize(oparam))];
    EncodeIsJoin(DataSmRespFields(), vals, parts);
  }

  /** cancel_sm */
  lemma CancelSmOnTheWire(serviceType: seq<Octet>, messageId: seq<Octet>, sourceAddrTon: Octet,
                          sourceAddrNpi: Octet, sourceAddr: seq<Octet>, destAddrTon: Octet, destAddrNpi: Octet,
                          destAddr: seq<Octet>)
    ensures var vals := [Text(serviceType), Text(messageId), Number(sourceAddrTon), Number(sourceAddrNpi),
                        Text(sourceAddr), Number(destAddrTon), Number(destAddrNpi), Text(destAddr)];
            var parts := [CString(serviceType, 6), CString(messageId, 65), Ok([sourceAddrTon]),
                         Ok([sourceAddrNpi]), CString(sourceAddr, 21), Ok([destAddrTon]), Ok([destAddrNpi]),
                         CString(destAddr, 21)];
            && Typed(CancelSmFields(), vals) && EncodeFields(CancelSmFields(), vals) == Join(parts)
  {
    var vals := [Text(serviceType), Text(messageId), Number(sourceAddrTon), Number(sourceAddrNpi),
                 Text(sourceAddr), Number(destAddrTon), Number(destAddrNpi), Text(destAddr)];
    var parts := [CString(serviceType, 6), CString(messageId, 65), Ok([sourceAddrTon]), Ok([sourceAddrNpi]),
                  CString(sourceAddr, 21), Ok([destAddrTon]), Ok([destAddrNpi]), CString(destAddr, 21)];
    EncodeIsJoin(CancelSmFields(), vals, parts);
  }

  /** query_sm */
  lemma QuerySmOnTheWire(messageId: seq<Octet>, sourceAddrTon: Octet, sourceAddrNpi: Octet,
                         sourceAddr: seq<Octet>)
    ensures var vals := [Text(messageId), Number(sourceAddrTon), Number(sourceAddrNpi), Text(sourceAddr)];
            var parts := [CString(messageId, 65), Ok([sourceAddrTon]), Ok([sourceAddrNpi]),
                         CString(sourceAddr, 21)];
            && Typed(QuerySmFields(), vals) && EncodeFields(QuerySmFields(), vals) == Join(parts)
  {
    var vals := [Text(messageId), Number(sourceAddrTon), Number(sourceAddrNpi), Text(sourceAddr)];
    var parts := [CString(messageId, 65), Ok([sourceAddrTon]), Ok([sourceAddrNpi]), CString(sourceAddr, 21)];
    EncodeIsJoin(QuerySmFields(), vals, parts);
  }

  /** query_sm_resp */
  lemma QuerySmRespOnTheWire(messageId: seq<Octet>, finalDate: seq<Octet>, messageState: Octet, errorCode: Octet)
    ensures var vals := [Text(messageId), Text(finalDate), Number(messageState), Number(errorCode)];
            var parts := [CString(messageId, 65), CString(finalDate, 17), Ok([messageState]), Ok([errorCode])];
            && Typed(QuerySmRespFields(), vals) && EncodeFields(QuerySmRespFields(), vals) == Join(parts)
  {
    var vals := [Text(messageId), Text(finalDate), Number(messageState), Number(errorCode)];
    var parts := [CString(messageId, 65), CString(finalDate, 17), Ok([messageState]), Ok([errorCode])];
    EncodeIsJoin(QuerySmRespFields(), vals, parts);
  }

  /** submit_sm_resp */
  lemma SubmitSmRespOnTheWire(messageId: seq<Octet>)
    ensures var vals := [Text(messageId)];
            var parts := [CString(messageId, 65)];
            && Typed(SubmitSmRespFields(), vals) && EncodeFields(SubmitSmRespFields(), vals) == Join(parts)
  {
    var vals := [Text(messageId)];
    var parts := [CString(messageId, 65)];
    EncodeIsJoin(SubmitSmRespFields(), vals, parts);
  }

  /** deliver_sm_resp, whose message_id is empty */
  lemma DeliverSmRespOnTheWire(messageId: seq<Octet>)
    ensures var vals := [Text(messageId)];
            var parts := [CString(messageId, 1)];
            && Typed(DeliverSmRespFields(), vals) && EncodeFields(DeliverSmRespFields(), vals) == Join(parts)
  {
    var vals := [Text(messageId)];
    var parts := [CString(messageId, 1)];
    EncodeIsJoin(DeliverSmRespFields(), vals, parts);
  }

  /** alert_notification */
  lemma AlertNotificationOnTheWire(sourceAddrTon: Octet, sourceAddrNpi: Octet, sourceAddr: seq<Octet>,
                                   esmeAddrTon: Octet, esmeAddrNpi: Octet, esmeAddr: seq<Octet>,
                                   oparam: Oparam.Params)
    ensures var vals := [Number(sourceAddrTon), Number(sourceAddrNpi), Text(sourceAddr), Number(esmeAddrTon),
                        Number(esmeAddrNpi), Text(esmeAddr), Optional(oparam)];
            var parts := [Ok([sourceAddrTon]), Ok([sourceAddrNpi]), CString(sourceAddr, 65), Ok([esmeAddrTon]),
                         Ok([esmeAddrNpi]), CString(esmeAddr, 65), Ok(Oparam.Serialize(oparam))];
            && Typed(AlertNotificationFields(), vals) && EncodeFields(AlertNotificationFields(), vals) == Join(parts)
  {
    hide Oparam.Serialize;
    var vals := [Number(sourceAddrTon), Number(sourceAddrNpi), Text(sourceAddr), Number(esmeAddrTon),
                 Number(esmeAddrNpi), Text(esmeAddr), Optional(oparam)];
    var parts := [Ok([sourceAddrTon]), Ok([sourceAddrNpi]), CString(sourceAddr, 65), Ok([esmeAddrTon]),
                  Ok([esmeAddrNpi]), CString(esmeAddr, 65), Ok(Oparam.Serialize(oparam))];
    EncodeIsJoin(AlertNotificationFields(), vals, parts);
  }

  /** The alternatives, by position. */
  lemma IsOfVariant(k: nat)
    requires k < 21
    ensures k == 0 ==> ALERT_NOTIFICATION in VARIANT
    ensures k == 1 ==> BIND_RECEIVER in VARIANT
    ensures k == 2 ==> BIND_RECEIVER_RESP in VARIANT
    ensures k == 3 ==> BIND_TRANSCEIVER in VARIANT
    ensures k == 4 ==> BIND_TRANSCEIVER_RESP in VARIANT
    ensures k == 5 ==> BIND_TRANSMITTER in VARIANT
    ensures k == 6 ==> BIND_TRANSMITTER_RESP in VARIANT
    ensures k == 7 ==> CANCEL_SM in VARIANT
    ensures k == 8 ==> CANCEL_SM_RESP in VARIANT
    ensures k == 9 ==> DATA_SM in VARIANT
    ensures k == 10 ==> DATA_SM_RESP in VARIANT
    ensures k == 11 ==> DELIVER_SM in VARIANT
    ensures k == 12 ==> DELIVER_SM_RESP in VARIANT
    ensures k == 13 ==> GENERIC_NACK in VARIANT
    ensures k == 14 ==> OUTBIND in VARIANT
    ensures k == 15 ==> QUERY_SM in VARIANT
    ensures k == 16 ==> QUERY_SM_RESP in VARIANT
    ensures k == 17 ==> REPLACE_SM in VARIANT
    ensures k == 18 ==> REPLACE_SM_RESP in VARIANT
    ensures k == 19 ==> SUBMIT_SM in VARIANT
    ensures k == 20 ==> SUBMIT_SM_RESP in VARIANT
  {
    hide AlertNotificationFields, BindReceiverFields, BindReceiverRespFields, BindTransceiverFields,
      BindTransceiverRespFields, BindTransmitterFields, BindTransmitterRespFields, CancelSmFields, DataSmFields,
      DataSmRespFields, DeliverSmFields, DeliverSmRespFields, OutbindFields, QuerySmFields, QuerySmRespFields,
      ReplaceSmFields, SubmitSmFields, SubmitSmRespFields;
    assert VARIANT[k] in VARIANT;
  }

  /** The types that the dispatch finds under the command ids of the standard: binding and
      alerts, */
  lemma BindIds()
    ensures Find(VARIANT, 0x0000_0102) == Ok(PduType(0x0000_0102, AlertNotificationFields()))
    ensures Find(VARIANT, 0x0000_0001) == Ok(PduType(0x0000_0001, BindReceiverFields()))
    ensures Find(VARIANT, 0x8000_0001) == Ok(PduType(0x8000_0001, BindReceiverRespFields()))
    ensures Find(VARIANT, 0x0000_0009) == Ok(PduType(0x0000_0009, BindTransceiverFields()))
    ensures Find(VARIANT, 0x8000_0009) == Ok(PduType(0x8000_0009, BindTransceiverRespFields()))
    ensures Find(VARIANT, 0x0000_0002) == Ok(PduType(0x0000_0002, BindTransmitterFields()))
    ensures Find(VARIANT, 0x8000_0002) == Ok(PduType(0x8000_0002, BindTransmitterRespFields()))
  {
    hide Find, VARIANT, AlertNotificationFields, BindReceiverFields, BindReceiverRespFields, BindTransceiverFields,
      BindTransceiverRespFields, BindTransmitterFields, BindTransmitterRespFields, CancelSmFields, DataSmFields,
      DataSmRespFields, DeliverSmFields, DeliverSmRespFields, OutbindFields, QuerySmFields, QuerySmRespFields,
      ReplaceSmFields, SubmitSmFields, SubmitSmRespFields;
    IsOfVariant(0);
    EachTypeIsFound(ALERT_NOTIFICATION);
    IsOfVariant(1);
    EachTypeIsFound(BIND_RECEIVER);
    IsOfVariant(2);
    EachTypeIsFound(BIND_RECEIVER_RESP);
    IsOfVariant(3);
    EachTypeIsFound(BIND_TRANSCEIVER);
    IsOfVariant(4);
    EachTypeIsFound(BIND_TRANSCEIVER_RESP);
    IsOfVariant(5);
    EachTypeIsFound(BIND_TRANSMITTER);
    IsOfVariant(6);
    EachTypeIsFound(BIND_TRANSMITTER_RESP);
  }

  /** messages to and from the centre, */
  lemma DeliveryIds()
    ensures Find(VARIANT, 0x0000_0008) == Ok(PduType(0x0000_0008, CancelSmFields()))
    ensures Find(VARIANT, 0x8000_0008) == Ok(PduType(0x8000_0008, []))
    ensures Find(VARIANT, 0x0000_0103) == Ok(PduType(0x0000_0103, DataSmFields()))
    ensures Find(VARIANT, 0x8000_0103) == Ok(PduType(0x8000_0103, DataSmRespFields()))
    ensures Find(VARIANT, 0x0000_0005) == Ok(PduType(0x0000_0005, DeliverSmFields()))
    ensures Find(VARIANT, 0x8000_0005) == Ok(PduType(0x8000_0005, DeliverSmRespFields()))
    ensures Find(VARIANT, 0x8000_0000) == Ok(PduType(0x8000_0000, []))
  {
    hide Find, VARIANT, AlertNotificationFields, BindReceiverFields, BindReceiverRespFields, BindTransceiverFields,
      BindTransceiverRespFields, BindTransmitterFields, BindTransmitterRespFields, CancelSmFields, DataSmFields,
      DataSmRespFields, DeliverSmFields, DeliverSmRespFields, OutbindFields, QuerySmFields, QuerySmRespFields,
      ReplaceSmFields, SubmitSmFields, SubmitSmRespFields;
    IsOfVariant(7);
    EachTypeIsFound(CANCEL_SM);
    IsOfVariant(8);
    EachTypeIsFound(CANCEL_SM_RESP);
    IsOfVariant(9);
    EachTypeIsFound(DATA_SM);
    IsOfVariant(10);
    EachTypeIsFound(DATA_SM_RESP);
    IsOfVariant(11);
    EachTypeIsFound(DELIVER_SM);
    IsOfVariant(12);
    EachTypeIsFound(DELIVER_SM_RESP);
    IsOfVariant(13);
    EachTypeIsFound(GENERIC_NACK);
  }

  /** and the rest. */
  lemma QueryIds()
    ensures Find(VARIANT, 0x0000_000B) == Ok(PduType(0x0000_000B, OutbindFields()))
    ensures Find(VARIANT, 0x0000_0003) == Ok(PduType(0x0000_0003, QuerySmFields()))
    ensures Find(VARIANT, 0x8000_0003) == Ok(PduType(0x8000_0003, QuerySmRespFields()))
    ensures Find(VARIANT, 0x0000_0007) == Ok(PduType(0x0000_0007, ReplaceSmFields()))
    ensures Find(VARIANT, 0x8000_0007) == Ok(PduType(0x8000_0007, []))
    ensures Find(VARIANT, 0x0000_0004) == Ok(PduType(0x0000_0004, SubmitSmFields()))
    ensures Find(VARIANT, 0x8000_0004) == Ok(PduType(0x8000_0004, SubmitSmRespFields()))
  {
    hide Find, VARIANT, AlertNotificationFields, BindReceiverFields, BindReceiverRespFields, BindTransceiverFields,
      BindTransceiverRespFields, BindTransmitterFields, BindTransmitterRespFields, CancelSmFields, DataSmFields,
      DataSmRespFields, DeliverSmFields, DeliverSmRespFields, OutbindFields, QuerySmFields, QuerySmRespFields,
      ReplaceSmFields, SubmitSmFields, SubmitSmRespFields;
    IsOfVariant(14);
    EachTypeIsFound(OUTBIND);
    IsOfVariant(15);
    EachTypeIsFound(QUERY_SM);
    IsOfVariant(16);
    EachTypeIsFound(QUERY_SM_RESP);
    IsOfVariant(17);
    EachTypeIsFound(REPLACE_SM);
    IsOfVariant(18);
    EachTypeIsFound(REPLACE_SM_RESP);
    IsOfVariant(19);
    EachTypeIsFound(SUBMIT_SM);
    IsOfVariant(20);
    EachTypeIsFound(SUBMIT_SM_RESP);
  }

  /** A response has the id of its request with the top bit set. */
  lemma ResponseIds(k: nat)
    requires k in {1, 3, 5, 7, 9, 11, 15, 17, 19}
    ensures k + 1 < |VARIANT|
    ensures VARIANT[k + 1].commandId == VARIANT[k].commandId as int + 0x8000_0000
  {
    hide AlertNotificationFields, BindReceiverFields, BindReceiverRespFields, BindTransceiverFields,
      BindTransceiverRespFields, BindTransmitterFields, BindTransmitterRespFields, CancelSmFields, DataSmFields,
      DataSmRespFields, DeliverSmFields, DeliverSmRespFields, OutbindFields, QuerySmFields, QuerySmRespFields,
      ReplaceSmFields, SubmitSmFields, SubmitSmRespFields;
  }
}
