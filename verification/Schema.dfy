/** The schema-driven codec: a PDU is a list of fields, each with a codec, and
    encoding and decoding walk the list. */
module Schema {
  import opened Octets
  import opened Flags
  import Oparam

  // The field codecs of serialization.hpp. `enum_flag` occurs with two types.
  datatype Kind =
    | EnumU8
    | PlainU8
    | EsmClassFlag
    | RegisteredDeliveryFlag
    | COctetStr(max: nat)
    | U8OctetStr(max: nat)
    | Smart

  datatype Value =
    | Number(n: Octet)
    | Esm(e: EsmClass)
    | Delivery(r: RegisteredDelivery)
    | Text(s: seq<Octet>)
    | Optional(m: Oparam.Params)

  /** A codec and the member's default initializer. */
  datatype Field = Field(kind: Kind, default: Value)

  predicate HasKind(k: Kind, v: Value) {
    match k
    case EnumU8 => v.Number?
    case PlainU8 => v.Number?
    case EsmClassFlag => v.Esm?
    case RegisteredDeliveryFlag => v.Delivery?
    case COctetStr(_) => v.Text?
    case U8OctetStr(_) => v.Text?
    case Smart => v.Optional?
  }

  /** The member values of a PDU of this schema, one per field. */
  predicate Typed(fields: seq<Field>, vals: seq<Value>) {
    |fields| == |vals| && forall i | 0 <= i < |fields| :: HasKind(fields[i].kind, vals[i])
  }

  // -------------------------------------------------------------------------
  // One field

  function EncodeField(k: Kind, v: Value): Result<seq<Octet>>
    requires HasKind(k, v)
  {
    match k
    case EnumU8 => Ok([v.n])
    case PlainU8 => Ok([v.n])
    case EsmClassFlag => Ok([v.e.ToU8()])
    case RegisteredDeliveryFlag => Ok([v.r.ToU8()])
    case COctetStr(max) => if |v.s| >= max then Err else Ok(v.s + [0])
    case U8OctetStr(max) => if |v.s| > max then Err else Ok([|v.s| % 0x100] + v.s)
    case Smart => Ok(Oparam.Serialize(v.m))
  }

  /** The position of the first NUL, or the length if there is none. */
  function FindNul(b: seq<Octet>): (i: nat)
    ensures i <= |b| && 0 !in b[..i] && (i < |b| ==> b[i] == 0)
  {
    if b == [] || b[0] == 0 then 0
    else
      var i := 1 + FindNul(b[1..]);
      assert b[..i] == [b[0]] + b[1..][..i - 1];
      i
  }

  /** The decoded value and the octets after it. */
  function DecodeField(k: Kind, b: seq<Octet>): Result<(Value, seq<Octet>)> {
    match k
    case EnumU8 => if b == [] then Err else Ok((Number(b[0]), b[1..]))
    case PlainU8 => if b == [] then Err else Ok((Number(b[0]), b[1..]))
    case EsmClassFlag => if b == [] then Err else Ok((Esm(EsmClass.FromU8(b[0])), b[1..]))
    case RegisteredDeliveryFlag =>
      if b == [] then Err else Ok((Delivery(RegisteredDelivery.FromU8(b[0])), b[1..]))
    case COctetStr(max) =>
      var n := FindNul(b);
      if n == |b| || n >= max then Err else Ok((Text(b[..n]), b[n + 1..]))
    case U8OctetStr(max) =>
      if b == [] || |b| <= b[0] || b[0] > max then Err else Ok((Text(b[1..b[0] + 1]), b[b[0] + 1..]))
    case Smart =>
      match Oparam.Parse(b)
      case Err => Err
      case Ok((m, rest)) => Ok((Optional(m), rest))
  }

  /** The values that survive a round trip, among those that can be encoded. */
  ghost predicate Faithful(k: Kind, v: Value)
    requires HasKind(k, v)
  {
    match k
    case EnumU8 => true
    case PlainU8 => true
    case EsmClassFlag => v.e.WithinMasks()
    case RegisteredDeliveryFlag => v.r.WithinMasks()
    case COctetStr(_) => 0 !in v.s
    case U8OctetStr(_) => true
    case Smart => Oparam.ValidParams(v.m)
  }

  ghost predicate AllFaithful(fields: seq<Field>, vals: seq<Value>)
    requires Typed(fields, vals)
  {
    forall i | 0 <= i < |fields| :: Faithful(fields[i].kind, vals[i])
  }

  /** A u8_octet_str limit must fit the length octet. */
  predicate WfKind(k: Kind) {
    k.U8OctetStr? ==> k.max <= 0xFF
  }

  lemma {:induction false} FindNulAfter(s: seq<Octet>, rest: seq<Octet>)
    requires 0 !in s
    ensures FindNul(s + [0] + rest) == |s|
  {
    var b := s + [0] + rest;
    if s != [] {
      assert b[0] == s[0] && s[0] in s;
      assert b[1..] == s[1..] + [0] + rest;
      FindNulAfter(s[1..], rest);
    }
  }

  /** A field other than oparam comes back from whatever precedes other octets,
      exactly when its value is faithful. */
  lemma FieldRoundTrip(k: Kind, v: Value, rest: seq<Octet>)
    requires WfKind(k) && !k.Smart? && HasKind(k, v) && EncodeField(k, v).Ok?
    ensures DecodeField(k, EncodeField(k, v).value + rest) == Ok((v, rest)) <==> Faithful(k, v)
  {
    var b := EncodeField(k, v).value + rest;
    match k {
      case EnumU8 =>
        assert b[1..] == rest;
      case PlainU8 =>
        assert b[1..] == rest;
      case EsmClassFlag =>
        assert b[1..] == rest;
        EsmClassRoundTrip(v.e);
      case RegisteredDeliveryFlag =>
        assert b[1..] == rest;
        RegisteredDeliveryRoundTrip(v.r);
      case COctetStr(max) =>
        var n := FindNul(b);
        if 0 !in v.s {
          FindNulAfter(v.s, rest);
          assert b[..n] == v.s && b[n + 1..] == rest;
        } else if n < |b| {
          assert 0 !in b[..n];
        }
      case U8OctetStr(max) =>
        assert b[1..b[0] + 1] == v.s && b[b[0] + 1..] == rest;
    }
  }

  /** Decoding yields only values that can be encoded and are faithful, and no
      field is written longer than it was read. */
  lemma DecodedFieldIsFaithful(k: Kind, b: seq<Octet>)
    requires WfKind(k) && DecodeField(k, b).Ok?
    ensures var (v, rest) := DecodeField(k, b).value;
            && HasKind(k, v) && Faithful(k, v)
            && EncodeField(k, v).Ok? && |EncodeField(k, v).value| + |rest| <= |b|
  {
    match k {
      case EnumU8 =>
      case PlainU8 =>
      case EsmClassFlag =>
        EsmClassOctetSurvives(b[0]);
      case RegisteredDeliveryFlag =>
        RegisteredDeliveryKeepsLowFiveBits(b[0]);
      case COctetStr(max) =>
      case U8OctetStr(max) =>
      case Smart =>
        Oparam.ParseOntoValid(map[], b);
        Oparam.SerializeNoLonger(map[], b);
        SerializeEmpty(0);
    }
  }

  lemma {:induction false} SerializeEmpty(from: nat)
    ensures Oparam.Entries(map[], from) == []
    decreases 0x1_0000 - from
  {
    if from < 0x1_0000 {
      SerializeEmpty(from + 1);
    }
  }

  // -------------------------------------------------------------------------
  // The whole list

  function EncodeFields(fields: seq<Field>, vals: seq<Value>): Result<seq<Octet>>
    requires Typed(fields, vals)
  {
    if fields == [] then Ok([])
    else
      match EncodeField(fields[0].kind, vals[0])
      case Err => Err
      case Ok(b) =>
        match EncodeFields(fields[1..], vals[1..])
        case Err => Err
        case Ok(bs) => Ok(b + bs)
  }

  /** The decoded members; the octets after the last field are dropped. */
  function DecodeFields(fields: seq<Field>, b: seq<Octet>): (r: Result<seq<Value>>)
    ensures r.Ok? ==> |r.value| == |fields|
  {
    if fields == [] then Ok([])
    else
      match DecodeField(fields[0].kind, b)
      case Err => Err
      case Ok((v, rest)) =>
        match DecodeFields(fields[1..], rest)
        case Err => Err
        case Ok(vs) => Ok([v] + vs)
  }

  function Defaults(fields: seq<Field>): (vals: seq<Value>)
    ensures |vals| == |fields|
  {
    seq(|fields|, i requires 0 <= i < |fields| => fields[i].default)
  }

  /** smpp::deserialize: an empty body stands for the default-constructed PDU. */
  function Decode(fields: seq<Field>, b: seq<Octet>): (r: Result<seq<Value>>)
    ensures r.Ok? ==> |r.value| == |fields|
  {
    if b == [] then Ok(Defaults(fields)) else DecodeFields(fields, b)
  }

  /** The codec limits fit, defaults can be sent, and oparam, which swallows all
      that is left, is the last field if it occurs. */
  ghost predicate WfSchema(fields: seq<Field>) {
    forall i | 0 <= i < |fields| :: WfField(fields[i]) && (fields[i].kind.Smart? ==> i == |fields| - 1)
  }

  ghost predicate WfField(f: Field) {
    && WfKind(f.kind)
    && HasKind(f.kind, f.default)
    && EncodeField(f.kind, f.default).Ok?
    && Faithful(f.kind, f.default)
    && (f.kind.Smart? ==> f.default == Optional(map[]))
  }

  /** Serialization throws exactly when some string exceeds its limit. */
  lemma {:induction false} EncodableExactly(fields: seq<Field>, vals: seq<Value>)
    requires Typed(fields, vals)
    ensures EncodeFields(fields, vals).Ok?
       <==> forall i | 0 <= i < |fields| :: EncodeField(fields[i].kind, vals[i]).Ok?
  {
    if fields != [] {
      EncodableExactly(fields[1..], vals[1..]);
      assert forall i | 1 <= i < |fields| :: fields[i] == fields[1..][i - 1] && vals[i] == vals[1..][i - 1];
      assert forall i | 0 <= i < |fields[1..]| :: fields[1..][i] == fields[i + 1] && vals[1..][i] == vals[i + 1];
    }
  }

  lemma {:induction false} DecodeOfEncodeFields(fields: seq<Field>, vals: seq<Value>)
    requires WfSchema(fields) && Typed(fields, vals) && AllFaithful(fields, vals)
    requires EncodeFields(fields, vals).Ok?
    ensures DecodeFields(fields, EncodeFields(fields, vals).value) == Ok(vals)
  {
    if fields != [] {
      var k, v := fields[0].kind, vals[0];
      assert Faithful(k, v);
      var b := EncodeField(k, v).value;
      var bs := EncodeFields(fields[1..], vals[1..]).value;
      if k.Smart? {
        assert WfField(fields[0]);
        assert fields[1..] == [] && bs == [] && b + bs == b;
        Oparam.ParseSerialize(v.m);
      } else {
        assert WfField(fields[0]);
        FieldRoundTrip(k, v, bs);
      }
      assert DecodeField(k, b + bs) == Ok((v, bs));
      TailOfSchema(fields);
      forall i | 0 <= i < |fields[1..]| ensures Faithful(fields[1..][i].kind, vals[1..][i]) {
        assert Faithful(fields[i + 1].kind, vals[i + 1]);
      }
      DecodeOfEncodeFields(fields[1..], vals[1..]);
      assert [v] + vals[1..] == vals;
    }
  }

  lemma TailOfSchema(fields: seq<Field>)
    requires WfSchema(fields) && fields != []
    ensures WfSchema(fields[1..])
  {
    forall i | 0 <= i < |fields[1..]|
      ensures WfField(fields[1..][i]) && (fields[1..][i].kind.Smart? ==> i == |fields[1..]| - 1)
    {
      assert fields[1..][i] == fields[i + 1];
    }
  }

  lemma {:induction false} DecodedFieldsAreFaithful(fields: seq<Field>, b: seq<Octet>)
    requires WfSchema(fields) && DecodeFields(fields, b).Ok?
    ensures var vals := DecodeFields(fields, b).value;
            && Typed(fields, vals) && AllFaithful(fields, vals)
            && EncodeFields(fields, vals).Ok? && |EncodeFields(fields, vals).value| <= |b|
  {
    if fields != [] {
      var k := fields[0].kind;
      assert WfField(fields[0]);
      DecodedFieldIsFaithful(k, b);
      var (v, rest) := DecodeField(k, b).value;
      TailOfSchema(fields);
      DecodedFieldsAreFaithful(fields[1..], rest);
      var vs := DecodeFields(fields[1..], rest).value;
      var vals := [v] + vs;
      assert DecodeFields(fields, b) == Ok(vals) && vals[1..] == vs;
      forall i | 0 <= i < |fields| ensures HasKind(fields[i].kind, vals[i]) && Faithful(fields[i].kind, vals[i]) {
        if i > 0 {
          assert fields[1..][i - 1] == fields[i] && vs[i - 1] == vals[i];
          assert HasKind(fields[1..][i - 1].kind, vs[i - 1]) && Faithful(fields[1..][i - 1].kind, vs[i - 1]);
        }
      }
    }
  }

  lemma {:induction false} DefaultsAreFaithful(fields: seq<Field>)
    requires WfSchema(fields)
    ensures Typed(fields, Defaults(fields)) && AllFaithful(fields, Defaults(fields))
    ensures EncodeFields(fields, Defaults(fields)).Ok?
  {
    forall i | 0 <= i < |fields|
      ensures HasKind(fields[i].kind, Defaults(fields)[i]) && Faithful(fields[i].kind, Defaults(fields)[i])
    {
      assert WfField(fields[i]);
    }
    if fields != [] {
      assert WfField(fields[0]);
      TailOfSchema(fields);
      DefaultsAreFaithful(fields[1..]);
      assert Defaults(fields)[1..] == Defaults(fields[1..]);
    }
  }

  /** Only a PDU without required fields and with no parameter set has an empty
      encoding, and then it is the default PDU. */
  lemma EmptyEncodingIsDefault(fields: seq<Field>, vals: seq<Value>)
    requires WfSchema(fields) && Typed(fields, vals) && AllFaithful(fields, vals)
    requires EncodeFields(fields, vals) == Ok([])
    ensures vals == Defaults(fields)
  {
    if fields != [] {
      var k, v := fields[0].kind, vals[0];
      assert WfField(fields[0]) && HasKind(k, v) && Faithful(k, v);
      assert EncodeField(k, v) == Ok([]);
      assert k.Smart?;
      Oparam.ParseSerialize(v.m);
      assert v.m == map[];
      assert |fields| == 1;
    }
  }

  /** The round trip of a whole PDU: an encodable value is decoded to itself if
      and only if every C-string is free of NULs and every flag keeps to its
      masks (and the parameters fit their length fields). */
  lemma {:induction false} RoundTripExactly(fields: seq<Field>, vals: seq<Value>)
    requires WfSchema(fields) && Typed(fields, vals) && EncodeFields(fields, vals).Ok?
    ensures Decode(fields, EncodeFields(fields, vals).value) == Ok(vals) <==> AllFaithful(fields, vals)
  {
    var b := EncodeFields(fields, vals).value;
    if AllFaithful(fields, vals) {
      if b == [] {
        EmptyEncodingIsDefault(fields, vals);
      } else {
        DecodeOfEncodeFields(fields, vals);
      }
    }
    if Decode(fields, b) == Ok(vals) {
      if b == [] {
        DefaultsAreFaithful(fields);
      } else {
        DecodedFieldsAreFaithful(fields, b);
      }
    }
  }

  /** Decoding normalises: what is decoded can be encoded again, decodes to the
      same value, and its encoding is no longer than a non-empty input. */
  lemma {:induction false} DecodeNormalises(fields: seq<Field>, b: seq<Octet>)
    requires WfSchema(fields) && Decode(fields, b).Ok?
    ensures var vals := Decode(fields, b).value;
            && Typed(fields, vals) && AllFaithful(fields, vals)
            && EncodeFields(fields, vals).Ok?
            && Decode(fields, EncodeFields(fields, vals).value) == Ok(vals)
            && (b != [] ==> |EncodeFields(fields, vals).value| <= |b|)
  {
    if b == [] {
      DefaultsAreFaithful(fields);
    } else {
      DecodedFieldsAreFaithful(fields, b);
    }
    RoundTripExactly(fields, Decode(fields, b).value);
  }

  // -------------------------------------------------------------------------
  // The imperative form: an output vector and an advancing span

  method SerializeField(vec: OctetVector, k: Kind, v: Value) returns (ok: bool)
    requires HasKind(k, v)
    modifies vec
    ensures ok <==> EncodeField(k, v).Ok?
    ensures vec.bytes == old(vec.bytes) + if ok then EncodeField(k, v).value else []
  {
    match k {
      case EnumU8 =>
        vec.PushBack(v.n);
      case PlainU8 =>
        vec.PushBack(v.n);
      case EsmClassFlag =>
        vec.PushBack(v.e.ToU8());
      case RegisteredDeliveryFlag =>
        vec.PushBack(v.r.ToU8());
      case COctetStr(max) =>
        if |v.s| >= max {
          return false;
        }
        vec.Insert(v.s + [0]);
      case U8OctetStr(max) =>
        if |v.s| > max {
          return false;
        }
        vec.PushBack(|v.s| % 0x100);
        vec.Insert(v.s);
      case Smart =>
        var oparam := new Oparam.OptionalParameters();
        oparam.params := v.m;
        oparam.SerializeTo(vec);
    }
    return true;
  }

  /** The encoding of the first `k` fields. */
  ghost function EncodeFirst(fields: seq<Field>, vals: seq<Value>, k: nat): Result<seq<Octet>>
    requires Typed(fields, vals) && k <= |fields|
  {
    EncodeFields(fields[..k], vals[..k])
  }

  /** Field `k` is the first that cannot be encoded, and `b` is what precedes it. */
  ghost predicate FailsAt(fields: seq<Field>, vals: seq<Value>, k: nat, b: seq<Octet>)
    requires Typed(fields, vals)
  {
    k < |fields| && EncodeField(fields[k].kind, vals[k]).Err? && EncodeFirst(fields, vals, k) == Ok(b)
  }

  /** The fold of smpp::serialize_to. When a field throws, the fields before it
      have already been appended. */
  method SerializeTo(vec: OctetVector, fields: seq<Field>, vals: seq<Value>) returns (ok: bool)
    requires Typed(fields, vals)
    modifies vec
    ensures ok <==> EncodeFields(fields, vals).Ok?
    ensures ok ==> vec.bytes == old(vec.bytes) + EncodeFields(fields, vals).value
    ensures !ok ==> exists k, b :: FailsAt(fields, vals, k, b) && vec.bytes == old(vec.bytes) + b
  {
    hide EncodeFirst, EncodeField;
    EncodeNone(fields, vals);
    ghost var b: seq<Octet> := [];
    for i := 0 to |fields|
      invariant EncodeFirst(fields, vals, i) == Ok(b)
      invariant vec.bytes == old(vec.bytes) + b
    {
      EncodeSnoc(fields, vals, i);
      var done := SerializeField(vec, fields[i].kind, vals[i]);
      if !done {
        EncodableExactly(fields, vals);
        assert FailsAt(fields, vals, i, b);
        return false;
      }
      b := b + EncodeField(fields[i].kind, vals[i]).value;
    }
    EncodeAll(fields, vals);
    return true;
  }

  lemma EncodeNone(fields: seq<Field>, vals: seq<Value>)
    requires Typed(fields, vals)
    ensures EncodeFirst(fields, vals, 0) == Ok([])
  {
  }

  lemma EncodeAll(fields: seq<Field>, vals: seq<Value>)
    requires Typed(fields, vals)
    ensures EncodeFirst(fields, vals, |fields|) == EncodeFields(fields, vals)
  {
    assert fields[..|fields|] == fields && vals[..|fields|] == vals;
  }

  lemma {:induction false} EncodeSnoc(fields: seq<Field>, vals: seq<Value>, i: nat)
    requires Typed(fields, vals) && i < |fields|
    ensures EncodeFirst(fields, vals, i + 1) == (
      var init, last := EncodeFirst(fields, vals, i), EncodeField(fields[i].kind, vals[i]);
      if init.Ok? && last.Ok? then Ok(init.value + last.value) else Err)
    decreases i
  {
    hide EncodeField;
    EncodeFirstStep(fields, vals, i + 1);
    var head, last := EncodeField(fields[0].kind, vals[0]), EncodeField(fields[i].kind, vals[i]);
    if i == 0 {
      EncodeNone(fields, vals);
      EncodeNone(fields[1..], vals[1..]);
      assert head.Ok? ==> head.value + [] == [] + head.value;
    } else {
      EncodeFirstStep(fields, vals, i);
      EncodeSnoc(fields[1..], vals[1..], i - 1);
      var init := EncodeFirst(fields[1..], vals[1..], i - 1);
      if head.Ok? && init.Ok? && last.Ok? {
        Regroup(head.value, init.value, last.value);
      }
    }
  }

  lemma EncodeFirstStep(fields: seq<Field>, vals: seq<Value>, k: nat)
    requires Typed(fields, vals) && 0 < k <= |fields|
    ensures EncodeFirst(fields, vals, k) == (
      var head, tail := EncodeField(fields[0].kind, vals[0]), EncodeFirst(fields[1..], vals[1..], k - 1);
      if head.Ok? && tail.Ok? then Ok(head.value + tail.value) else Err)
  {
    assert fields[..k][1..] == fields[1..][..k - 1] && vals[..k][1..] == vals[1..][..k - 1];
  }

  /** std::find for the terminating NUL. */
  method FindNulIn(b: seq<Octet>) returns (pos: nat)
    ensures pos == FindNul(b)
  {
    pos := 0;
    while pos < |b| && b[pos] != 0
      invariant pos <= |b|
      invariant FindNul(b) == pos + FindNul(b[pos..])
    {
      assert b[pos..][1..] == b[pos + 1..];
      pos := pos + 1;
    }
  }

  /** Reads one field off the front of the span. On an error the span is as it
      was, except that oparam has consumed the TLVs before the bad one. */
  method DeserializeField(buf: OctetSpan, k: Kind) returns (r: Result<Value>)
    modifies buf
    ensures r.Ok? <==> DecodeField(k, old(buf.bytes)).Ok?
    ensures r.Ok? ==> DecodeField(k, old(buf.bytes)) == Ok((r.value, buf.bytes))
    ensures r.Err? && !k.Smart? ==> buf.bytes == old(buf.bytes)
    ensures r.Err? && k.Smart? ==> exists i, m :: Oparam.StopsAt(old(buf.bytes), i, m, buf.bytes)
  {
    var b := buf.bytes;
    match k {
      case EnumU8 =>
        if b == [] {
          return Err;
        }
        buf.DropFirst(1);
        return Ok(Number(b[0]));
      case PlainU8 =>
        if b == [] {
          return Err;
        }
        buf.DropFirst(1);
        return Ok(Number(b[0]));
      case EsmClassFlag =>
        if b == [] {
          return Err;
        }
        buf.DropFirst(1);
        return Ok(Esm(EsmClass.FromU8(b[0])));
      case RegisteredDeliveryFlag =>
        if b == [] {
          return Err;
        }
        buf.DropFirst(1);
        return Ok(Delivery(RegisteredDelivery.FromU8(b[0])));
      case COctetStr(max) =>
        var nullPos := FindNulIn(b);
        if nullPos == |b| || nullPos >= max {
          return Err;
        }
        buf.DropFirst(nullPos + 1);
        return Ok(Text(b[..nullPos]));
      case U8OctetStr(max) =>
        if b == [] || |b| <= b[0] || b[0] > max {
          return Err;
        }
        buf.DropFirst(b[0] + 1);
        return Ok(Text(b[1..b[0] + 1]));
      case Smart =>
        var oparam := new Oparam.OptionalParameters();
        var ok := oparam.ParseFrom(buf);
        if !ok {
          return Err;
        }
        return Ok(Optional(oparam.params));
    }
  }

  /** smpp::deserialize over a span of its own. */
  method Deserialize(fields: seq<Field>, body: seq<Octet>) returns (r: Result<seq<Value>>)
    ensures r == Decode(fields, body)
    ensures body == [] ==>
              r.Ok? && |r.value| == |fields| && forall i | 0 <= i < |fields| :: r.value[i] == fields[i].default
  {
    if body == [] {
      return Ok(Defaults(fields));
    }
    var buf := new OctetSpan(body);
    var vals: seq<Value> := [];
    assert fields[0..] == fields;
    assert DecodeFields(fields, body).Ok? ==> [] + DecodeFields(fields, body).value == DecodeFields(fields, body).value;
    for i := 0 to |fields|
      invariant fresh(buf)
      invariant var rest := DecodeFields(fields[i..], buf.bytes);
                DecodeFields(fields, body) == if rest.Ok? then Ok(vals + rest.value) else Err
    {
      assert fields[i..][1..] == fields[i + 1..];
      var v := DeserializeField(buf, fields[i].kind);
      if v.Err? {
        return Err;
      }
      assert forall r: seq<Value> :: vals + ([v.value] + r) == vals + [v.value] + r;
      vals := vals + [v.value];
    }
    assert DecodeFields(fields[|fields|..], buf.bytes) == Ok([]);
    assert vals + [] == vals;
    return Ok(vals);
  }
}
