/** The PDU types of the variant, as data: command id and field table. */
module Pdus {
  import opened Octets
  import opened Flags
  import opened Schema

  datatype PduType = PduType(commandId: U32, fields: seq<Field>)

  /** A PDU of any type: its command id and its member values. */
  datatype Pdu = Pdu(commandId: U32, vals: seq<Value>)

  const ENQUIRE_LINK: U32 := 0x0000_0015
  const ENQUIRE_LINK_RESP: U32 := 0x8000_0015
  const UNBIND: U32 := 0x0000_0006
  const UNBIND_RESP: U32 := 0x8000_0006

  /** The command ids that the session itself sends and answers. */
  predicate IsControl(id: U32) {
    id == ENQUIRE_LINK || id == ENQUIRE_LINK_RESP || id == UNBIND || id == UNBIND_RESP
  }

  const ALERT_NOTIFICATION: PduType := PduType(0x0000_0102, AlertNotificationFields())

  function AlertNotificationFields(): seq<Field> {
    [
      Field(EnumU8, Number(0)), // source_addr_ton
      Field(EnumU8, Number(0)), // source_addr_npi
      Field(COctetStr(65), Text([])), // source_addr
      Field(EnumU8, Number(0)), // esme_addr_ton
      Field(EnumU8, Number(0)), // esme_addr_npi
      Field(COctetStr(65), Text([])), // esme_addr
      Field(Smart, Optional(map[])) // oparam
    ]
  }

  const BIND_RECEIVER: PduType := PduType(0x0000_0001, BindReceiverFields())

  function BindReceiverFields(): seq<Field> {
    [
      Field(COctetStr(16), Text([])), // system_id
      Field(COctetStr(9), Text([])), // password
      Field(COctetStr(13), Text([])), // system_type
      Field(EnumU8, Number(0x34)), // interface_version
      Field(EnumU8, Number(0)), // addr_ton
      Field(EnumU8, Number(0)), // addr_npi
      Field(COctetStr(41), Text([])) // address_range
    ]
  }

  const BIND_RECEIVER_RESP: PduType := PduType(0x8000_0001, BindReceiverRespFields())

  function BindReceiverRespFields(): seq<Field> {
    [
      Field(COctetStr(16), Text([])), // system_id
      Field(Smart, Optional(map[])) // oparam
    ]
  }

  const BIND_TRANSCEIVER: PduType := PduType(0x0000_0009, BindTransceiverFields())

  function BindTransceiverFields(): seq<Field> {
    [
      Field(COctetStr(16), Text([])), // system_id
      Field(COctetStr(9), Text([])), // password
      Field(COctetStr(13), Text([])), // system_type
      Field(EnumU8, Number(0x34)), // interface_version
      Field(EnumU8, Number(0)), // addr_ton
      Field(EnumU8, Number(0)), // addr_npi
      Field(COctetStr(41), Text([])) // address_range
    ]
  }

  const BIND_TRANSCEIVER_RESP: PduType := PduType(0x8000_0009, BindTransceiverRespFields())

  function BindTransceiverRespFields(): seq<Field> {
    [
      Field(COctetStr(16), Text([])), // system_id
      Field(Smart, Optional(map[])) // oparam
    ]
  }

  const BIND_TRANSMITTER: PduType := PduType(0x0000_0002, BindTransmitterFields())

  function BindTransmitterFields(): seq<Field> {
    [
      Field(COctetStr(16), Text([])), // system_id
      Field(COctetStr(9), Text([])), // password
      Field(COctetStr(13), Text([])), // system_type
      Field(EnumU8, Number(0x34)), // interface_version
      Field(EnumU8, Number(0)), // addr_ton
      Field(EnumU8, Number(0)), // addr_npi
      Field(COctetStr(41), Text([])) // address_range
    ]
  }

  const BIND_TRANSMITTER_RESP: PduType := PduType(0x8000_0002, BindTransmitterRespFields())

  function BindTransmitterRespFields(): seq<Field> {
    [
      Field(COctetStr(16), Text([])), // system_id
      Field(Smart, Optional(map[])) // oparam
    ]
  }

  const CANCEL_SM: PduType := PduType(0x0000_0008, CancelSmFields())

  function CancelSmFields(): seq<Field> {
    [
      Field(COctetStr(6), Text([])), // service_type
      Field(COctetStr(65), Text([])), // message_id
      Field(EnumU8, Number(0)), // source_addr_ton
      Field(EnumU8, Number(0)), // source_addr_npi
      Field(COctetStr(21), Text([])), // source_addr
      Field(EnumU8, Number(0)), // dest_addr_ton
      Field(EnumU8, Number(0)), // dest_addr_npi
      Field(COctetStr(21), Text([])) // dest_addr
    ]
  }

  const CANCEL_SM_RESP: PduType := PduType(0x8000_0008, [])

  const DATA_SM: PduType := PduType(0x0000_0103, DataSmFields())

  function DataSmFields(): seq<Field> {
    [
      Field(COctetStr(6), Text([])), // service_type
      Field(EnumU8, Number(0)), // source_addr_ton
      Field(EnumU8, Number(0)), // source_addr_npi
      Field(COctetStr(65), Text([])), // source_addr
      Field(EnumU8, Number(0)), // dest_addr_ton
      Field(EnumU8, Number(0)), // dest_addr_npi
      Field(COctetStr(65), Text([])), // dest_addr
      Field(EsmClassFlag, Esm(EsmClass(0, 0, 0))), // esm_class
      Field(RegisteredDeliveryFlag, Delivery(RegisteredDelivery(0, 0, 0))), // registered_delivery
      Field(EnumU8, Number(0)), // data_coding
      Field(Smart, Optional(map[])) // oparam
    ]
  }

  const DATA_SM_RESP: PduType := PduType(0x8000_0103, DataSmRespFields())

  function DataSmRespFields(): seq<Field> {
    [
      Field(COctetStr(65), Text([])), // message_id
      Field(Smart, Optional(map[])) // oparam
    ]
  }

  const DELIVER_SM: PduType := PduType(0x0000_0005, DeliverSmFields())

  function DeliverSmFields(): seq<Field> {
    [
      Field(COctetStr(6), Text([])), // service_type
      Field(EnumU8, Number(0)), // source_addr_ton
      Field(EnumU8, Number(0)), // source_addr_npi
      Field(COctetStr(21), Text([])), // source_addr
      Field(EnumU8, Number(0)), // dest_addr_ton
      Field(EnumU8, Number(0)), // dest_addr_npi
      Field(COctetStr(21), Text([])), // dest_addr
      Field(EsmClassFlag, Esm(EsmClass(0, 0, 0))), // esm_class
      Field(PlainU8, Number(0)), // protocol_id
      Field(EnumU8, Number(0)), // priority_flag
      Field(COctetStr(1), Text([])), // schedule_delivery_time
      Field(COctetStr(1), Text([])), // validity_period
      Field(RegisteredDeliveryFlag, Delivery(RegisteredDelivery(0, 0, 0))), // registered_delivery
      Field(EnumU8, Number(0)), // replace_if_present_flag
      Field(EnumU8, Number(0)), // data_coding
      Field(PlainU8, Number(0)), // sm_default_msg_id
      Field(U8OctetStr(254), Text([])), // short_message
      Field(Smart, Optional(map[])) // oparam
    ]
  }

  const DELIVER_SM_RESP: PduType := PduType(0x8000_0005, DeliverSmRespFields())

  function DeliverSmRespFields(): seq<Field> {
    [
      Field(COctetStr(1), Text([])) // message_id
    ]
  }

  const GENERIC_NACK: PduType := PduType(0x8000_0000, [])

  const OUTBIND: PduType := PduType(0x0000_000B, OutbindFields())

  function OutbindFields(): seq<Field> {
    [
      Field(COctetStr(16), Text([])), // system_id
      Field(COctetStr(9), Text([])) // password
    ]
  }

  const QUERY_SM: PduType := PduType(0x0000_0003, QuerySmFields())

  function QuerySmFields(): seq<Field> {
    [
      Field(COctetStr(65), Text([])), // message_id
      Field(EnumU8, Number(0)), // source_addr_ton
      Field(EnumU8, Number(0)), // source_addr_npi
      Field(COctetStr(21), Text([])) // source_addr
    ]
  }

  const QUERY_SM_RESP: PduType := PduType(0x8000_0003, QuerySmRespFields())

  function QuerySmRespFields(): seq<Field> {
    [
      Field(COctetStr(65), Text([])), // message_id
      Field(COctetStr(17), Text([])), // final_date
      Field(EnumU8, Number(0x07)), // message_state
      Field(PlainU8, Number(0)) // error_code
    ]
  }

  const REPLACE_SM: PduType := PduType(0x0000_0007, ReplaceSmFields())

  function ReplaceSmFields(): seq<Field> {
    [
      Field(COctetStr(65), Text([])), // message_id
      Field(EnumU8, Number(0)), // source_addr_ton
      Field(EnumU8, Number(0)), // source_addr_npi
      Field(COctetStr(21), Text([])), // source_addr
      Field(COctetStr(17), Text([])), // schedule_delivery_time
      Field(COctetStr(17), Text([])), // validity_period
      Field(RegisteredDeliveryFlag, Delivery(RegisteredDelivery(0, 0, 0))), // registered_delivery
      Field(PlainU8, Number(0)), // sm_default_msg_id
      Field(U8OctetStr(254), Text([])) // short_message
    ]
  }

  const REPLACE_SM_RESP: PduType := PduType(0x8000_0007, [])

  const SUBMIT_SM: PduType := PduType(0x0000_0004, SubmitSmFields())

  function SubmitSmFields(): seq<Field> {
    [
      Field(COctetStr(6), Text([])), // service_type
      Field(EnumU8, Number(0)), // source_addr_ton
      Field(EnumU8, Number(0)), // source_addr_npi
      Field(COctetStr(21), Text([])), // source_addr
      Field(EnumU8, Number(0)), // dest_addr_ton
      Field(EnumU8, Number(0)), // dest_addr_npi
      Field(COctetStr(21), Text([])), // dest_addr
      Field(EsmClassFlag, Esm(EsmClass(0, 0, 0))), // esm_class
      Field(PlainU8, Number(0)), // protocol_id
      Field(EnumU8, Number(0)), // priority_flag
      Field(COctetStr(17), Text([])), // schedule_delivery_time
      Field(COctetStr(17), Text([])), // validity_period
      Field(RegisteredDeliveryFlag, Delivery(RegisteredDelivery(0, 0, 0))), // registered_delivery
      Field(EnumU8, Number(0)), // replace_if_present_flag
      Field(EnumU8, Number(0)), // data_coding
      Field(PlainU8, Number(0)), // sm_default_msg_id
      Field(U8OctetStr(254), Text([])), // short_message
      Field(Smart, Optional(map[])) // oparam
    ]
  }

  const SUBMIT_SM_RESP: PduType := PduType(0x8000_0004, SubmitSmRespFields())

  function SubmitSmRespFields(): seq<Field> {
    [
      Field(COctetStr(65), Text([])) // message_id
    ]
  }

  /** The alternatives of pdu_variant in order, without invalid_pdu. */
  const VARIANT: seq<PduType> := [
    ALERT_NOTIFICATION,
    BIND_RECEIVER,
    BIND_RECEIVER_RESP,
    BIND_TRANSCEIVER,
    BIND_TRANSCEIVER_RESP,
    BIND_TRANSMITTER,
    BIND_TRANSMITTER_RESP,
    CANCEL_SM,
    CANCEL_SM_RESP,
    DATA_SM,
    DATA_SM_RESP,
    DELIVER_SM,
    DELIVER_SM_RESP,
    GENERIC_NACK,
    OUTBIND,
    QUERY_SM,
    QUERY_SM_RESP,
    REPLACE_SM,
    REPLACE_SM_RESP,
    SUBMIT_SM,
    SUBMIT_SM_RESP
  ]

  /** The dispatch fold: the first alternative with this command id. */
  function Find(types: seq<PduType>, id: U32): (r: Result<PduType>)
    ensures r.Ok? ==> r.value in types && r.value.commandId == id
    ensures r.Err? <==> forall t | t in types :: t.commandId != id
  {
    if types == [] then Err
    else if types[0].commandId == id then Ok(types[0])
    else Find(types[1..], id)
  }

  lemma {:induction false} FindFirst(types: seq<PduType>, k: nat, id: U32)
    requires k < |types| && types[k].commandId == id
    requires forall j | 0 <= j < k :: types[j].commandId != id
    ensures Find(types, id) == Ok(types[k])
  {
    if k > 0 {
      FindFirst(types[1..], k - 1, id);
    }
  }

  lemma BindReceiverRespIsThird()
    ensures Find(VARIANT, 0x8000_0001) == Ok(BIND_RECEIVER_RESP)
  {
    hide Find, AlertNotificationFields, BindReceiverFields, BindReceiverRespFields, BindTransceiverFields,
      BindTransceiverRespFields, BindTransmitterFields, BindTransmitterRespFields, CancelSmFields, DataSmFields,
      DataSmRespFields, DeliverSmFields, DeliverSmRespFields, OutbindFields, QuerySmFields, QuerySmRespFields,
      ReplaceSmFields, SubmitSmFields, SubmitSmRespFields;
    FindFirst(VARIANT, 2, 0x8000_0001);
  }

  lemma DistinctIds(k: nat)
    requires k < |VARIANT|
    ensures forall j | 0 <= j < k :: VARIANT[j].commandId != VARIANT[k].commandId
  {
    if k < 8 {
      FirstIds(k);
    } else if k < 15 {
      MiddleIds(k);
    } else {
      LastIds(k);
    }
  }

  lemma FirstIds(k: nat)
    requires k < 8
    ensures forall j | 0 <= j < k :: VARIANT[j].commandId != VARIANT[k].commandId
  {
  }

  lemma MiddleIds(k: nat)
    requires 8 <= k < 15
    ensures forall j | 0 <= j < k :: VARIANT[j].commandId != VARIANT[k].commandId
  {
  }

  lemma LastIds(k: nat)
    requires 15 <= k < |VARIANT|
    ensures forall j | 0 <= j < k :: VARIANT[j].commandId != VARIANT[k].commandId
  {
  }

  /** A PDU of the variant, with members of the declared types. */
  predicate WfPdu(p: Pdu) {
    var t := Find(VARIANT, p.commandId);
    t.Ok? && Typed(t.value.fields, p.vals)
  }

  function FieldsOf(p: Pdu): seq<Field>
    requires WfPdu(p)
  {
    Find(VARIANT, p.commandId).value.fields
  }

  function EncodeBody(p: Pdu): Result<seq<Octet>>
    requires WfPdu(p)
  {
    EncodeFields(FieldsOf(p), p.vals)
  }

  /** An unknown command id fails like an undecodable body. */
  function DecodeBody(id: U32, body: seq<Octet>): Result<Pdu> {
    match Find(VARIANT, id)
    case Err => Err
    case Ok(t) =>
      match Decode(t.fields, body)
      case Err => Err
      case Ok(vals) => Ok(Pdu(id, vals))
  }

  /** Limits that fit, and a default that is the zero of its type. */
  predicate PlainField(f: Field) {
    && WfKind(f.kind)
    && HasKind(f.kind, f.default)
    && match f.default
       case Number(_) => true
       case Esm(e) => e == EsmClass(0, 0, 0)
       case Delivery(r) => r == RegisteredDelivery(0, 0, 0)
       case Text(s) => s == [] && (f.kind.COctetStr? ==> f.kind.max > 0)
       case Optional(m) => m == map[]
  }

  ghost predicate PlainTable(fields: seq<Field>) {
    forall i | 0 <= i < |fields| :: PlainField(fields[i]) && (fields[i].kind.Smart? ==> i == |fields| - 1)
  }

  lemma PlainTableIsWf(fields: seq<Field>)
    requires PlainTable(fields)
    ensures WfSchema(fields)
  {
    forall i | 0 <= i < |fields|
      ensures WfField(fields[i]) && (fields[i].kind.Smart? ==> i == |fields| - 1)
    {
      assert PlainField(fields[i]);
    }
  }

  lemma SubmitTable()
    ensures PlainTable(SUBMIT_SM.fields)
  {
    var fields := SUBMIT_SM.fields;
    forall i | 0 <= i < |fields|
      ensures PlainField(fields[i]) && (fields[i].kind.Smart? ==> i == |fields| - 1)
    {
      if i < 6 {
      } else if i < 12 {
      } else {
      }
    }
  }

  lemma DeliverTable()
    ensures PlainTable(DELIVER_SM.fields)
  {
    var fields := DELIVER_SM.fields;
    forall i | 0 <= i < |fields|
      ensures PlainField(fields[i]) && (fields[i].kind.Smart? ==> i == |fields| - 1)
    {
      if i < 6 {
      } else if i < 12 {
      } else {
      }
    }
  }

  lemma BindTables()
    ensures PlainTable(BIND_RECEIVER.fields)
    ensures PlainTable(BIND_RECEIVER_RESP.fields)
    ensures PlainTable(BIND_TRANSCEIVER.fields)
    ensures PlainTable(BIND_TRANSCEIVER_RESP.fields)
  {
  }

  lemma BindRespTables()
    ensures PlainTable(BIND_TRANSMITTER.fields)
    ensures PlainTable(BIND_TRANSMITTER_RESP.fields)
    ensures PlainTable(OUTBIND.fields)
  {
  }

  lemma AddressTables()
    ensures PlainTable(ALERT_NOTIFICATION.fields)
    ensures PlainTable(DATA_SM.fields)
  {
  }

  lemma CancelTables()
    ensures PlainTable(CANCEL_SM.fields)
    ensures PlainTable(CANCEL_SM_RESP.fields)
  {
  }

  lemma ReplyTables()
    ensures PlainTable(DATA_SM_RESP.fields)
    ensures PlainTable(DELIVER_SM_RESP.fields)
    ensures PlainTable(GENERIC_NACK.fields)
    ensures PlainTable(SUBMIT_SM_RESP.fields)
  {
  }

  lemma QueryAndReplaceTables()
    ensures PlainTable(QUERY_SM.fields)
    ensures PlainTable(QUERY_SM_RESP.fields)
    ensures PlainTable(REPLACE_SM.fields)
    ensures PlainTable(REPLACE_SM_RESP.fields)
  {
  }

  lemma TablesAreWellFormed()
    ensures forall t | t in VARIANT :: WfSchema(t.fields)
  {
    SubmitTable();
    DeliverTable();
    BindTables();
    BindRespTables();
    AddressTables();
    CancelTables();
    ReplyTables();
    QueryAndReplaceTables();
    forall t | t in VARIANT ensures WfSchema(t.fields) {
      assert PlainTable(t.fields);
      PlainTableIsWf(t.fields);
    }
  }

  lemma EnquireLinkIsNoPdu(id: U32)
    requires id == ENQUIRE_LINK || id == ENQUIRE_LINK_RESP
    ensures forall t | t in VARIANT :: t.commandId != id
  {
    hide Find;
  }

  lemma UnbindIsNoPdu(id: U32)
    requires id == UNBIND || id == UNBIND_RESP
    ensures forall t | t in VARIANT :: t.commandId != id
  {
    hide Find;
  }

  /** No alternative of the variant bears a command id of the session's own. */
  lemma ControlIdsAreNotPdus(id: U32)
    requires IsControl(id)
    ensures Find(VARIANT, id) == Err
  {
    if id == ENQUIRE_LINK || id == ENQUIRE_LINK_RESP {
      EnquireLinkIsNoPdu(id);
    } else {
      UnbindIsNoPdu(id);
    }
  }

  /** A PDU of any of the 21 types comes back from its encoding exactly when its
      values are faithful. */
  lemma {:induction false} PduRoundTripExactly(p: Pdu)
    requires WfPdu(p) && EncodeBody(p).Ok?
    ensures DecodeBody(p.commandId, EncodeBody(p).value) == Ok(p) <==> AllFaithful(FieldsOf(p), p.vals)
  {
    hide Find;
    TablesAreWellFormed();
    RoundTripExactly(FieldsOf(p), p.vals);
  }

  /** Whatever arrives and is decoded can be sent on: it encodes, to no more
      octets than arrived, and its receiver decodes the same PDU. */
  lemma {:induction false} DecodedPduCanBeForwarded(id: U32, body: seq<Octet>)
    requires DecodeBody(id, body).Ok?
    ensures var p := DecodeBody(id, body).value;
            && WfPdu(p) && EncodeBody(p).Ok?
            && DecodeBody(id, EncodeBody(p).value) == Ok(p)
            && (body != [] ==> |EncodeBody(p).value| <= |body|)
  {
    hide Find;
    TablesAreWellFormed();
    DecodeNormalises(Find(VARIANT, id).value.fields, body);
  }

  /** A deliver_sm leaves its two time fields empty, or is not serialized. */
  lemma DeliverSmHasNoTimes(vals: seq<Value>)
    requires Typed(DELIVER_SM.fields, vals)
    requires EncodeFields(DELIVER_SM.fields, vals).Ok?
    ensures |vals| == 18 && vals[10] == Text([]) && vals[11] == Text([])
  {
    hide DeliverSmFields, EncodeFields, EncodeField;
    DeliverTimes();
    EncodableExactly(DELIVER_SM.fields, vals);
    EmptyOnly(DELIVER_SM.fields, vals, 10);
    EmptyOnly(DELIVER_SM.fields, vals, 11);
  }

  lemma DeliverTimes()
    ensures var fields := DeliverSmFields();
            |fields| == 18 && fields[10].kind == COctetStr(1) && fields[11].kind == COctetStr(1)
  {
  }

  lemma EmptyOnly(fields: seq<Field>, vals: seq<Value>, i: nat)
    requires Typed(fields, vals) && i < |fields| && fields[i].kind == COctetStr(1)
    requires EncodeField(fields[i].kind, vals[i]).Ok?
    ensures vals[i] == Text([])
  {
    assert HasKind(fields[i].kind, vals[i]);
  }
}
