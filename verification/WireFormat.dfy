/** The format of fields and PDUs on the wire (SMPP v3.4, sections 3.1 and 4), said
    without the codec; the codec accepts and produces exactly this. */
module WireFormat {
  import opened Octets
  import opened HeaderCodec
  import opened Flags
  import opened Schema
  import opened Pdus
  import opened Frames
  import Oparam

  // -------------------------------------------------------------------------
  // One field

  /** `b` is what a field of kind `k` with value `v` puts on the wire. */
  ghost predicate OnWire(k: Kind, v: Value, b: seq<Octet>)
    requires HasKind(k, v)
  {
    match k
    case EnumU8 => b == [v.n]
    case PlainU8 => b == [v.n]
    case EsmClassFlag =>
      |b| == 1 && b[0] as bv8 == v.e.messagingMode | v.e.messageType | v.e.gsmNetworkFeatures
    case RegisteredDeliveryFlag =>
      |b| == 1 && b[0] as bv8 == v.r.smscDeliveryReceipt | v.r.smeOriginatedAck | v.r.intermediateNotification
    case COctetStr(max) => |b| == |v.s| + 1 && |b| <= max && b[..|v.s|] == v.s && b[|v.s|] == 0
    case U8OctetStr(max) => |b| == |v.s| + 1 && |v.s| <= max && b[0] == |v.s| && b[1..] == v.s
    case Smart => b == Oparam.Serialize(v.m)
  }

  /** A field is written like that, and not at all if that is impossible. */
  lemma EncodesExactly(k: Kind, v: Value, b: seq<Octet>)
    requires WfKind(k) && HasKind(k, v)
    ensures EncodeField(k, v) == Ok(b) <==> OnWire(k, v, b)
  {
    match k {
      case EsmClassFlag => BitsAndOctet(v.e.Bits(), b);
      case RegisteredDeliveryFlag => BitsAndOctet(v.r.Bits(), b);
      case COctetStr(max) =>
        if |b| == |v.s| + 1 {
          assert b == b[..|v.s|] + [b[|v.s|]];
        }
      case U8OctetStr(max) =>
        if b != [] {
          assert b == [b[0]] + b[1..];
        }
      case _ =>
    }
  }

  lemma BitsAndOctet(bits: bv8, b: seq<Octet>)
    ensures |b| == 1 ==> (b[0] as bv8 == bits <==> b == [bits as int])
  {
    BitsOfU8(bits);
    if |b| == 1 {
      U8OfBits(b[0]);
    }
  }

  /** `f` is read as a field of kind `k` with value `v`. */
  ghost predicate ReadsAs(k: Kind, f: seq<Octet>, v: Value)
    requires HasKind(k, v)
  {
    match k
    case EnumU8 => f == [v.n]
    case PlainU8 => f == [v.n]
    case EsmClassFlag =>
      && |f| == 1 && v.e.messagingMode as int == f[0] % 4 && v.e.messageType as int == f[0] / 4 % 16 * 4
      && v.e.gsmNetworkFeatures as int == f[0] / 64 * 64
    case RegisteredDeliveryFlag =>
      && |f| == 1 && v.r.smscDeliveryReceipt as int == f[0] % 4 && v.r.smeOriginatedAck as int == f[0] / 4 % 4 * 4
      && v.r.intermediateNotification as int == f[0] / 16 % 2 * 16
    case COctetStr(max) => |f| == |v.s| + 1 && |f| <= max && f[..|v.s|] == v.s && 0 !in v.s && f[|v.s|] == 0
    case U8OctetStr(max) => |f| == |v.s| + 1 && |v.s| <= max && f[0] == |v.s| && f[1..] == v.s
    case Smart => Oparam.Parse(f) == Ok((v.m, []))
  }

  /** A field is read off the front of `b`, leaving `rest`, exactly if what precedes
      `rest` reads as it; an oparam leaves no more than three octets. */
  lemma DecodesExactly(k: Kind, b: seq<Octet>, v: Value, rest: seq<Octet>)
    requires WfKind(k) && HasKind(k, v)
    ensures DecodeField(k, b) == Ok((v, rest))
       <==> && |rest| <= |b| && rest == b[|b| - |rest|..] && ReadsAs(k, b[..|b| - |rest|], v)
            && (k.Smart? ==> |rest| < Oparam.TLV_HEADER)
  {
    match k {
      case COctetStr(max) => CStringExactly(max, b, v.s, rest);
      case U8OctetStr(max) => SizedExactly(max, b, v.s, rest);
      case Smart => Oparam.ParseCut(b, v.m, rest);
      case EsmClassFlag =>
        OneOctet(b, rest);
        if b != [] {
          EsmClassBits(b[0]);
          EsmEqual(EsmClass.FromU8(b[0]), v.e);
        }
      case RegisteredDeliveryFlag =>
        OneOctet(b, rest);
        if b != [] {
          RegisteredDeliveryBits(b[0]);
          DeliveryEqual(RegisteredDelivery.FromU8(b[0]), v.r);
        }
      case _ => OneOctet(b, rest);
    }
  }

  lemma OneOctet(b: seq<Octet>, rest: seq<Octet>)
    ensures b != [] && rest == b[1..]
       <==> |rest| <= |b| && rest == b[|b| - |rest|..] && |b[..|b| - |rest|]| == 1
    ensures b != [] && rest == b[1..] ==> b[..|b| - |rest|] == [b[0]]
  {
  }

  lemma EsmEqual(d: EsmClass, e: EsmClass)
    ensures d == e <==>
              && d.messagingMode as int == e.messagingMode as int && d.messageType as int == e.messageType as int
              && d.gsmNetworkFeatures as int == e.gsmNetworkFeatures as int
  {
    SameBits(d.messagingMode, e.messagingMode);
    SameBits(d.messageType, e.messageType);
    SameBits(d.gsmNetworkFeatures, e.gsmNetworkFeatures);
  }

  lemma DeliveryEqual(d: RegisteredDelivery, e: RegisteredDelivery)
    ensures d == e <==>
              && d.smscDeliveryReceipt as int == e.smscDeliveryReceipt as int
              && d.smeOriginatedAck as int == e.smeOriginatedAck as int
              && d.intermediateNotification as int == e.intermediateNotification as int
  {
    SameBits(d.smscDeliveryReceipt, e.smscDeliveryReceipt);
    SameBits(d.smeOriginatedAck, e.smeOriginatedAck);
    SameBits(d.intermediateNotification, e.intermediateNotification);
  }

  lemma SameBits(a: bv8, b: bv8)
    ensures a == b <==> a as int == b as int
  {
    BitsOfU8(a);
    BitsOfU8(b);
  }

  lemma CStringExactly(max: nat, b: seq<Octet>, s: seq<Octet>, rest: seq<Octet>)
    ensures DecodeField(COctetStr(max), b) == Ok((Text(s), rest))
       <==> |rest| <= |b| && rest == b[|b| - |rest|..] && ReadsAs(COctetStr(max), b[..|b| - |rest|], Text(s))
  {
    var n := FindNul(b);
    if n < |b| {
      assert b == b[..n] + [0] + b[n + 1..];
    }
    if |rest| <= |b| && rest == b[|b| - |rest|..] && ReadsAs(COctetStr(max), b[..|b| - |rest|], Text(s)) {
      var f := b[..|b| - |rest|];
      assert f == s + [0] && b == s + [0] + rest;
      FindNulAfter(s, rest);
      assert b[..|s|] == s && b[|s| + 1..] == rest;
    }
  }

  lemma SizedExactly(max: nat, b: seq<Octet>, s: seq<Octet>, rest: seq<Octet>)
    requires max <= 0xFF
    ensures DecodeField(U8OctetStr(max), b) == Ok((Text(s), rest))
       <==> |rest| <= |b| && rest == b[|b| - |rest|..] && ReadsAs(U8OctetStr(max), b[..|b| - |rest|], Text(s))
  {
    if b != [] && b[0] < |b| {
      var n: nat := 1 + b[0] as int;
      assert b[..n][1..] == b[1..n];
    }
    if |rest| < |b| && rest == b[|b| - |rest|..] {
      var f := b[..|b| - |rest|];
      assert f[0] == b[0] && f[1..] == b[1..|b| - |rest|];
    }
  }

  // -------------------------------------------------------------------------
  // The fields of a table

  /** A PDU is written field after field, in the order of its table. */
  lemma {:induction false} WrittenInOrder(fields: seq<Field>, vals: seq<Value>) returns (parts: seq<seq<Octet>>)
    requires Typed(fields, vals) && (forall f | f in fields :: WfKind(f.kind)) && EncodeFields(fields, vals).Ok?
    ensures |parts| == |fields| && forall i | 0 <= i < |fields| :: OnWire(fields[i].kind, vals[i], parts[i])
    ensures EncodeFields(fields, vals) == Ok(Flatten(parts))
  {
    if fields == [] {
      parts := [];
    } else {
      hide OnWire, EncodeField;
      var rest := WrittenInOrder(fields[1..], vals[1..]);
      var b := EncodeField(fields[0].kind, vals[0]).value;
      parts := [b] + rest;
      assert parts[1..] == rest;
      EncodesExactly(fields[0].kind, vals[0], b);
      forall i | 0 <= i < |fields| ensures OnWire(fields[i].kind, vals[i], parts[i]) {
        if i > 0 {
          assert fields[1..][i - 1] == fields[i] && vals[1..][i - 1] == vals[i] && rest[i - 1] == parts[i];
        }
      }
    }
  }

  predicate EndsInSmart(fields: seq<Field>) {
    fields != [] && fields[|fields| - 1].kind.Smart?
  }

  ghost predicate AllRead(fields: seq<Field>, vals: seq<Value>, parts: seq<seq<Octet>>)
    requires Typed(fields, vals)
  {
    |parts| == |fields| && forall i | 0 <= i < |fields| :: ReadsAs(fields[i].kind, parts[i], vals[i])
  }

  lemma AllReadCons(fields: seq<Field>, vals: seq<Value>, parts: seq<seq<Octet>>)
    requires Typed(fields, vals) && fields != [] && parts != []
    ensures AllRead(fields, vals, parts)
       <==> ReadsAs(fields[0].kind, parts[0], vals[0]) && AllRead(fields[1..], vals[1..], parts[1..])
  {
    hide ReadsAs;
    if AllRead(fields, vals, parts) {
      forall i | 0 <= i < |fields| - 1 ensures ReadsAs(fields[1..][i].kind, parts[1..][i], vals[1..][i]) {
        assert ReadsAs(fields[i + 1].kind, parts[i + 1], vals[i + 1]);
      }
    }
    if ReadsAs(fields[0].kind, parts[0], vals[0]) && AllRead(fields[1..], vals[1..], parts[1..]) {
      forall i | 0 <= i < |fields| ensures ReadsAs(fields[i].kind, parts[i], vals[i]) {
        if i > 0 {
          assert ReadsAs(fields[1..][i - 1].kind, parts[1..][i - 1], vals[1..][i - 1]);
        }
      }
    }
  }

  ghost predicate ReadInOrder(fields: seq<Field>, vals: seq<Value>, b: seq<Octet>,
                              parts: seq<seq<Octet>>, tail: seq<Octet>)
    requires Typed(fields, vals)
  {
    && AllRead(fields, vals, parts)
    && b == Flatten(parts) + tail && (EndsInSmart(fields) ==> |tail| < Oparam.TLV_HEADER)
  }

  /** A PDU is read exactly if its octets are its fields one after the other, in the
      order of its table, and something that is ignored: up to three octets after an
      oparam, anything without one. */
  lemma {:induction false} ReadsExactly(fields: seq<Field>, vals: seq<Value>, b: seq<Octet>)
    requires WfSchema(fields) && Typed(fields, vals)
    ensures DecodeFields(fields, b) == Ok(vals) <==> exists parts, tail :: ReadInOrder(fields, vals, b, parts, tail)
  {
    if DecodeFields(fields, b) == Ok(vals) {
      var parts, tail := SplitRead(fields, vals, b);
    }
    if parts, tail :| ReadInOrder(fields, vals, b, parts, tail) {
      JoinRead(fields, vals, b, parts, tail);
    }
  }

  lemma {:induction false} SplitRead(fields: seq<Field>, vals: seq<Value>, b: seq<Octet>)
    returns (parts: seq<seq<Octet>>, tail: seq<Octet>)
    requires WfSchema(fields) && Typed(fields, vals) && DecodeFields(fields, b) == Ok(vals)
    ensures ReadInOrder(fields, vals, b, parts, tail)
  {
    if fields == [] {
      parts, tail := [], b;
      assert Flatten([]) + b == b;
    } else {
      hide ReadsAs, DecodeField, AllRead;
      var k := fields[0].kind;
      assert WfField(fields[0]);
      var (v, rest) := DecodeField(k, b).value;
      var vs := DecodeFields(fields[1..], rest).value;
      assert [v] + vs == vals;
      assert v == vals[0] && vs == vals[1..];
      DecodesExactly(k, b, v, rest);
      TailOfSchema(fields);
      var more: seq<seq<Octet>>;
      more, tail := SplitRead(fields[1..], vs, rest);
      var f := b[..|b| - |rest|];
      parts := [f] + more;
      assert parts[1..] == more;
      assert b == f + rest;
      Regroup(f, Flatten(more), tail);
      AllReadCons(fields, vals, parts);
      AllReadLength(fields[1..], vs, more);
      SmartIsLast(fields, rest, more, tail);
    }
  }

  lemma AllReadLength(fields: seq<Field>, vals: seq<Value>, parts: seq<seq<Octet>>)
    requires Typed(fields, vals) && AllRead(fields, vals, parts)
    ensures |parts| == |fields|
  {
  }

  lemma SmartIsLast(fields: seq<Field>, rest: seq<Octet>, more: seq<seq<Octet>>, tail: seq<Octet>)
    requires WfSchema(fields) && fields != [] && |more| == |fields| - 1 && rest == Flatten(more) + tail
    requires fields[0].kind.Smart? ==> |rest| < Oparam.TLV_HEADER
    requires EndsInSmart(fields[1..]) ==> |tail| < Oparam.TLV_HEADER
    ensures EndsInSmart(fields) ==> |tail| < Oparam.TLV_HEADER
  {
    if |fields| > 1 {
      assert fields[1..][|fields| - 2] == fields[|fields| - 1];
    } else {
      assert more == [];
    }
  }

  lemma {:induction false} JoinRead(fields: seq<Field>, vals: seq<Value>, b: seq<Octet>,
                                    parts: seq<seq<Octet>>, tail: seq<Octet>)
    requires WfSchema(fields) && Typed(fields, vals) && ReadInOrder(fields, vals, b, parts, tail)
    ensures DecodeFields(fields, b) == Ok(vals)
  {
    if fields != [] {
      hide ReadsAs, DecodeField, AllRead;
      AllReadLength(fields, vals, parts);
      AllReadCons(fields, vals, parts);
      var k, v := fields[0].kind, vals[0];
      assert WfField(fields[0]) && (k.Smart? ==> |fields| == 1);
      var f, rest := parts[0], Flatten(parts[1..]) + tail;
      Regroup(f, Flatten(parts[1..]), tail);
      assert b == f + rest;
      assert b[..|b| - |rest|] == f && b[|b| - |rest|..] == rest;
      if k.Smart? {
        assert parts[1..] == [];
      }
      DecodesExactly(k, b, v, rest);
      TailOfSchema(fields);
      if EndsInSmart(fields[1..]) {
        assert fields[1..][|fields| - 2] == fields[|fields| - 1];
      }
      JoinRead(fields[1..], vals[1..], rest, parts[1..], tail);
      assert [v] + vals[1..] == vals;
    }
  }

  // -------------------------------------------------------------------------
  // Whole frames

  /** No type of the variant hides another: each is found by its command id. */
  lemma EachTypeIsFound(t: PduType)
    requires t in VARIANT
    ensures Find(VARIANT, t.commandId) == Ok(t)
  {
    var k :| 0 <= k < |VARIANT| && VARIANT[k] == t;
    DistinctIds(k);
    FindFirst(VARIANT, k, t.commandId);
  }

  /** A body of no octets stands for the PDU with all its defaults, whatever its type
      requires. */
  lemma EmptyBodyIsDefault(t: PduType)
    requires t in VARIANT
    ensures var r := DecodeBody(t.commandId, []);
            && r.Ok? && r.value.commandId == t.commandId && |r.value.vals| == |t.fields|
            && forall i | 0 <= i < |t.fields| :: r.value.vals[i] == t.fields[i].default
  {
    hide Find;
    EachTypeIsFound(t);
  }

  /** So a frame that is nothing but a header delivers that PDU. */
  lemma HeaderOnlyFrameDelivers(f: seq<Octet>, t: PduType)
    requires IsFrame(f) && |f| == HEADER_LENGTH
    requires t in VARIANT && HeaderCodec.Deserialize(f).commandId == t.commandId
    ensures var vals := seq(|t.fields|, i requires 0 <= i < |t.fields| => t.fields[i].default);
            var h := HeaderCodec.Deserialize(f);
            Observe(f) == [Observation.Delivery(Decoded(Pdu(t.commandId, vals)), h.sequenceNumber, h.commandStatus)]
  {
    hide Find, DecodeBody, HeaderCodec.Deserialize;
    EachTypeIsFound(t);
    EmptyBodyIsDefault(t);
    if IsControl(t.commandId) {
      ControlIdsAreNotPdus(t.commandId);
    }
    assert f[HEADER_LENGTH..] == [];
    var r := DecodeBody(t.commandId, []);
    assert r.value.vals == seq(|t.fields|, i requires 0 <= i < |t.fields| => t.fields[i].default);
  }

  /** A frame of no known type, and one whose body its type cannot read, is delivered
      as it is. */
  lemma UnreadableFrameIsInvalid(f: seq<Octet>)
    requires IsFrame(f) && !IsControl(HeaderCodec.Deserialize(f).commandId)
    requires Unreadable(HeaderCodec.Deserialize(f).commandId, f[HEADER_LENGTH..])
    ensures var h := HeaderCodec.Deserialize(f);
            Observe(f) == [Observation.Delivery(Undecodable(f), h.sequenceNumber, h.commandStatus)]
  {
    hide DecodeBody, Unreadable, HeaderCodec.Deserialize;
    DecodeBodyFails(HeaderCodec.Deserialize(f).commandId, f[HEADER_LENGTH..]);
  }

  ghost predicate Unreadable(id: U32, body: seq<Octet>) {
    forall t | t in VARIANT && t.commandId == id :: body != [] && DecodeFields(t.fields, body).Err?
  }

  lemma DecodeBodyFails(id: U32, body: seq<Octet>)
    requires Unreadable(id, body)
    ensures DecodeBody(id, body).Err?
  {
    hide Find, DecodeFields;
  }
}
