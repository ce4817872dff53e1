/** User data headers and the short_message field that carries them
    (3GPP TS 23.040, section 9.2.3.24). */
module ShortMessage {
  import opened Octets
  import opened Flags

  const ELEMENT_HEADER := 2
  const CONCAT_8BIT: Octet := 0x00
  const CONCAT_16BIT: Octet := 0x08

  datatype Element = Element(tag: Octet, value: seq<Octet>)

  datatype MultiPartData = MultiPartData(reference: U16, parts: Octet, sequence: Octet)

  /** What the parsing constructor and the setter can leave in a header list. */
  predicate WfElement(e: Element) {
    && |e.value| <= 0xFF
    && (e.tag == CONCAT_8BIT ==> |e.value| == 3)
    && (e.tag == CONCAT_16BIT ==> |e.value| == 4)
  }

  ghost predicate WfElements(hs: seq<Element>) {
    forall e | e in hs :: WfElement(e)
  }

  // -------------------------------------------------------------------------
  // The header list on the wire

  /** A single octet left over at the end is ignored. */
  function Parse(b: seq<Octet>): Result<seq<Element>>
    decreases |b|
  {
    if |b| < ELEMENT_HEADER then Ok([])
    else if b[1] > |b| - ELEMENT_HEADER then Err
    else
      var e := Element(b[0], b[ELEMENT_HEADER..ELEMENT_HEADER + b[1]]);
      if !WfElement(e) then Err
      else
        match Parse(b[ELEMENT_HEADER + b[1]..])
        case Err => Err
        case Ok(es) => Ok([e] + es)
  }

  lemma ParseStep(b: seq<Octet>)
    ensures |b| < ELEMENT_HEADER ==> Parse(b) == Ok([])
    ensures |b| >= ELEMENT_HEADER && b[1] > |b| - ELEMENT_HEADER ==> Parse(b) == Err
    ensures |b| >= ELEMENT_HEADER && b[1] <= |b| - ELEMENT_HEADER ==>
              var e := Element(b[0], b[ELEMENT_HEADER..ELEMENT_HEADER + b[1]]);
              var rest := Parse(b[ELEMENT_HEADER + b[1]..]);
              Parse(b) == if WfElement(e) && rest.Ok? then Ok([e] + rest.value) else Err
  {
  }

  /** The length octet is the length modulo 2^8, as the conversion to char does. */
  function ElementOctets(e: Element): seq<Octet> {
    [e.tag, |e.value| % 0x100] + e.value
  }

  function Serialize(hs: seq<Element>): seq<Octet> {
    if hs == [] then [] else ElementOctets(hs[0]) + Serialize(hs[1..])
  }

  lemma {:induction false} ParseSerialize(hs: seq<Element>)
    requires WfElements(hs)
    ensures Parse(Serialize(hs)) == Ok(hs)
  {
    if hs != [] {
      var e, rest := hs[0], Serialize(hs[1..]);
      var b := ElementOctets(e) + rest;
      assert WfElement(e);
      assert b[ELEMENT_HEADER..ELEMENT_HEADER + b[1]] == e.value;
      assert b[ELEMENT_HEADER + b[1]..] == rest;
      ParseSerialize(hs[1..]);
      assert [e] + hs[1..] == hs;
    }
  }

  lemma {:induction false} SerializeParse(b: seq<Octet>)
    requires Parse(b).Ok?
    ensures WfElements(Parse(b).value)
    ensures Serialize(Parse(b).value) <= b
    ensures |b| - |Serialize(Parse(b).value)| <= 1
    decreases |b|
  {
    hide Parse, Serialize;
    ParseStep(b);
    if |b| >= ELEMENT_HEADER {
      var e := Element(b[0], b[ELEMENT_HEADER..ELEMENT_HEADER + b[1]]);
      var rest := b[ELEMENT_HEADER + b[1]..];
      SerializeParse(rest);
      SerializeCons(e, Parse(rest).value);
      assert b == ElementOctets(e) + rest;
    } else {
      SerializeEmptyExactly([]);
    }
  }

  lemma SerializeCons(e: Element, es: seq<Element>)
    ensures Serialize([e] + es) == ElementOctets(e) + Serialize(es)
  {
    assert ([e] + es)[1..] == es;
  }

  lemma {:induction false} SerializeEmptyExactly(hs: seq<Element>)
    ensures Serialize(hs) == [] <==> hs == []
  {
    if hs != [] {
      assert |ElementOctets(hs[0])| >= 2;
    }
  }

  // -------------------------------------------------------------------------
  // Packing

  /** extract_unicode(data_coding) == ascii_8_bit. */
  predicate IsAscii8Bit(dataCoding: Octet) {
    dataCoding / 0x10 == 0 && dataCoding !in {0x02, 0x04, 0x08, 0x09, 0x0A}
  }

  function MaxLength(dataCoding: Octet): nat {
    if IsAscii8Bit(dataCoding) then 160 else 140
  }

  /** The header list, if there is one, is preceded by a single length octet. */
  function Pack(hs: seq<Element>, body: seq<Octet>, dataCoding: Octet): Result<seq<Octet>> {
    var udh := Serialize(hs);
    var message := (if |udh| != 0 then [|udh| % 0x100] + udh else []) + body;
    if |message| > MaxLength(dataCoding) then Err else Ok(message)
  }

  /** The octet at index 0 of an empty std::string is its terminating NUL. */
  function Unpack(esm: EsmClass, dataCoding: Octet, message: seq<Octet>): Result<(seq<Element>, seq<Octet>)> {
    if |message| > MaxLength(dataCoding) then Err
    else if esm.HasUdhi() then
      var udhLength := if message == [] then 0 else message[0];
      if udhLength >= |message| then Err
      else
        match Parse(message[1..1 + udhLength])
        case Err => Err
        case Ok(hs) => Ok((hs, message[1 + udhLength..]))
    else Ok(([], message))
  }

  /** The one-octet length is never truncated, because the total is bounded; so
      unpacking with the UDHI bit set exactly when there are headers restores
      headers and body. */
  lemma UnpackPack(esm: EsmClass, dataCoding: Octet, hs: seq<Element>, body: seq<Octet>)
    requires WfElements(hs) && Pack(hs, body, dataCoding).Ok?
    requires esm.gsmNetworkFeatures == 0x40 || esm.gsmNetworkFeatures == 0xC0 <==> hs != []
    ensures |Serialize(hs)| <= 0xFF
    ensures Unpack(esm, dataCoding, Pack(hs, body, dataCoding).value) == Ok((hs, body))
  {
    var udh := Serialize(hs);
    var message := Pack(hs, body, dataCoding).value;
    SerializeEmptyExactly(hs);
    if hs != [] {
      assert message[0] == |udh|;
      assert message[1..1 + |udh|] == udh;
      assert message[1 + |udh|..] == body;
      ParseSerialize(hs);
    } else {
      assert message == body;
    }
  }

  /** The same over the octet that carries the esm_class: bit 6 announces headers. */
  lemma UnpackPackOctet(esmOctet: Octet, dataCoding: Octet, hs: seq<Element>, body: seq<Octet>)
    requires WfElements(hs) && Pack(hs, body, dataCoding).Ok?
    requires esmOctet / 0x40 % 2 == 1 <==> hs != []
    ensures Unpack(EsmClass.FromU8(esmOctet), dataCoding, Pack(hs, body, dataCoding).value) == Ok((hs, body))
  {
    UdhiIsBit6(esmOctet);
    UnpackPack(EsmClass.FromU8(esmOctet), dataCoding, hs, body);
  }

  lemma RepackedUdh(n: Octet, udh: seq<Octet>, again: seq<Octet>, body: seq<Octet>)
    requires |udh| == n && again <= udh
    ensures (if |again| != 0 then [|again| % 0x100] + again else []) + body == [n] + udh + body
       <==> again != [] && |again| == n
  {
    if |again| == n {
      assert again == udh;
    }
  }

  /** Packing what was unpacked restores the message, unless the UDHI bit came
      with a header of no elements or with an octet after its last element. */
  lemma PackUnpackExactly(esm: EsmClass, dataCoding: Octet, message: seq<Octet>)
    requires Unpack(esm, dataCoding, message).Ok?
    ensures var (hs, body) := Unpack(esm, dataCoding, message).value;
            (Pack(hs, body, dataCoding) == Ok(message)
             <==> !(esm.gsmNetworkFeatures == 0x40 || esm.gsmNetworkFeatures == 0xC0)
                  || (hs != [] && |Serialize(hs)| == message[0]))
  {
    var (hs, body) := Unpack(esm, dataCoding, message).value;
    if esm.HasUdhi() {
      var n := message[0];
      var udh := message[1..1 + n];
      SerializeParse(udh);
      SerializeEmptyExactly(hs);
      assert message == [n] + udh + body;
      RepackedUdh(n, udh, Serialize(hs), body);
    } else {
      assert Serialize(hs) == [] && [] + message == message;
    }
  }

  // -------------------------------------------------------------------------
  // What is accepted

  /** An element on the wire: its tag, its length in one octet, its value. */
  lemma ElementLayout(e: Element, hs: seq<Element>)
    requires WfElement(e)
    ensures var b := Serialize([e] + hs);
            && |b| >= 2 + |e.value| && b[0] == e.tag && b[1] == |e.value|
            && b[2..2 + |e.value|] == e.value && b[2 + |e.value|..] == Serialize(hs)
  {
    SerializeCons(e, hs);
  }

  /** Octets are read as these elements exactly if they are the elements, all sound,
      and at most one octet more. */
  lemma ParsesExactly(b: seq<Octet>, hs: seq<Element>)
    ensures Parse(b) == Ok(hs) <==> WfElements(hs) && Serialize(hs) <= b && |b| <= |Serialize(hs)| + 1
  {
    hide Parse, Serialize, WfElements;
    if Parse(b) == Ok(hs) {
      SerializeParse(b);
    }
    if WfElements(hs) && Serialize(hs) <= b && |b| <= |Serialize(hs)| + 1 {
      ParseWithTail(hs, b[|Serialize(hs)|..]);
      assert Serialize(hs) + b[|Serialize(hs)|..] == b;
    }
  }

  lemma {:induction false} ParseWithTail(hs: seq<Element>, tail: seq<Octet>)
    requires WfElements(hs) && |tail| <= 1
    ensures Parse(Serialize(hs) + tail) == Ok(hs)
  {
    if hs == [] {
      assert Serialize(hs) + tail == tail;
    } else {
      var e, rest := hs[0], Serialize(hs[1..]);
      var b := Serialize(hs) + tail;
      assert WfElement(e);
      assert b == ElementOctets(e) + (rest + tail);
      assert b[ELEMENT_HEADER..ELEMENT_HEADER + b[1]] == e.value;
      assert b[ELEMENT_HEADER + b[1]..] == rest + tail;
      ParseWithTail(hs[1..], tail);
      assert [e] + hs[1..] == hs;
    }
  }

  /** The data codings that allow 160 octets; all others allow 140. */
  predicate Allows160(dataCoding: Octet) {
    dataCoding in {0x00, 0x01, 0x03, 0x05, 0x06, 0x07, 0x0B, 0x0C, 0x0D, 0x0E, 0x0F}
  }

  /** Packing fails exactly if headers, their length octet and body exceed the limit. */
  lemma PacksExactly(hs: seq<Element>, body: seq<Octet>, dataCoding: Octet)
    ensures Pack(hs, body, dataCoding).Ok?
       <==> (if hs == [] then 0 else 1) + |Serialize(hs)| + |body| <= if Allows160(dataCoding) then 160 else 140
  {
    SerializeEmptyExactly(hs);
    LimitExactly(dataCoding);
  }

  lemma LimitExactly(dataCoding: Octet)
    ensures MaxLength(dataCoding) == if Allows160(dataCoding) then 160 else 140
  {
    if dataCoding < 0x10 {
      assert dataCoding / 0x10 == 0;
    } else {
      assert dataCoding / 0x10 > 0;
    }
  }

  /** A message is unpacked exactly if it keeps to the limit and, where bit 6 announces
      headers, starts with their length and that many octets that read as headers. */
  lemma UnpacksExactly(esmOctet: Octet, dataCoding: Octet, message: seq<Octet>, hs: seq<Element>, body: seq<Octet>)
    ensures Unpack(EsmClass.FromU8(esmOctet), dataCoding, message) == Ok((hs, body))
       <==> && |message| <= (if Allows160(dataCoding) then 160 else 140)
            && if esmOctet / 0x40 % 2 == 0 then hs == [] && body == message
               else && message != [] && |body| == |message| - 1 - message[0] && body == message[1 + message[0]..]
                    && WfElements(hs) && Serialize(hs) <= message[1..]
                    && |Serialize(hs)| <= message[0] <= |Serialize(hs)| + 1
  {
    LimitExactly(dataCoding);
    UdhiIsBit6(esmOctet);
    if message != [] && message[0] < |message| {
      var udh := message[1..1 + message[0]];
      ParsesExactly(udh, hs);
      assert udh <= message[1..];
    }
  }

  // -------------------------------------------------------------------------
  // Concatenated messages

  function High(n: U16): Octet {
    n / 0x100
  }

  function Low(n: U16): Octet {
    n % 0x100
  }

  /** The element that the setter appends: 16-bit only if 8 bits do not do. */
  function ConcatElement(mpd: MultiPartData): (e: Element)
    ensures WfElement(e)
  {
    if mpd.reference > 0xFF then
      Element(CONCAT_16BIT, [High(mpd.reference), Low(mpd.reference), mpd.parts, mpd.sequence])
    else
      Element(CONCAT_8BIT, [mpd.reference, mpd.parts, mpd.sequence])
  }

  function SetMultiPart(hs: seq<Element>, mpd: MultiPartData): seq<Element> {
    hs + [ConcatElement(mpd)]
  }

  /** The conversion of a char to uint16_t: a signed char is sign-extended. */
  function Widen(charIsSigned: bool, c: Octet): U16 {
    if charIsSigned && c >= 0x80 then 0xFF00 + c else c
  }

  /** `Widen(hi) << 8 | Widen(lo)` in 16 bits: the sign bits of `lo` cover `hi`. */
  function JoinOctets(charIsSigned: bool, hi: Octet, lo: Octet): U16 {
    var w := Widen(charIsSigned, lo);
    (if High(w) == 0xFF then 0xFF else hi) * 0x100 + Low(w)
  }

  function FirstWith(hs: seq<Element>, tag: Octet): (r: Result<Element>)
    ensures r.Ok? ==> r.value in hs && r.value.tag == tag
    ensures r.Err? <==> forall e | e in hs :: e.tag != tag
  {
    if hs == [] then Err
    else if hs[0].tag == tag then Ok(hs[0])
    else FirstWith(hs[1..], tag)
  }

  function GetMultiPart(charIsSigned: bool, hs: seq<Element>): MultiPartData
    requires WfElements(hs)
  {
    var short := FirstWith(hs, CONCAT_8BIT);
    if short.Ok? then
      assert WfElement(short.value);
      var v := short.value.value;
      MultiPartData(Widen(charIsSigned, v[0]), v[1], v[2])
    else
      var long := FirstWith(hs, CONCAT_16BIT);
      if long.Ok? then
        assert WfElement(long.value);
        var v := long.value.value;
        MultiPartData(JoinOctets(charIsSigned, v[0], v[1]), v[2], v[3])
      else MultiPartData(0, 1, 1)
  }

  lemma {:induction false} FirstWithAppend(hs: seq<Element>, e: Element, tag: Octet)
    ensures FirstWith(hs + [e], tag)
         == if FirstWith(hs, tag).Ok? then FirstWith(hs, tag) else if e.tag == tag then Ok(e) else Err
  {
    if hs == [] {
      assert [] + [e] == [e] && [e][1..] == [];
    } else {
      assert (hs + [e])[1..] == hs[1..] + [e];
      FirstWithAppend(hs[1..], e, tag);
    }
  }

  lemma {:induction false} FirstWithAt(hs: seq<Element>, tag: Octet, i: nat)
    requires i < |hs| && hs[i].tag == tag && forall j | 0 <= j < i :: hs[j].tag != tag
    ensures FirstWith(hs, tag) == Ok(hs[i])
  {
    if i > 0 {
      FirstWithAt(hs[1..], tag, i - 1);
    }
  }

  /** The first 8-bit element tells reference, parts and sequence number, in this order;
      its reference is sign-extended where char is signed. */
  lemma GetReadsFirst8Bit(charIsSigned: bool, hs: seq<Element>, i: nat)
    requires WfElements(hs) && i < |hs| && hs[i].tag == 0x00 && forall j | 0 <= j < i :: hs[j].tag != 0x00
    ensures var v, d := hs[i].value, GetMultiPart(charIsSigned, hs);
            && |v| == 3 && d.parts == v[1] && d.sequence == v[2]
            && d.reference == if charIsSigned && v[0] >= 0x80 then 0xFF00 + v[0] as int else v[0] as int
  {
    FirstWithAt(hs, 0x00, i);
  }

  /** Without one, the first 16-bit element does; the sign of its low octet covers the
      high one. */
  lemma GetReadsFirst16Bit(charIsSigned: bool, hs: seq<Element>, i: nat)
    requires WfElements(hs) && i < |hs| && hs[i].tag == 0x08 && forall j | 0 <= j < i :: hs[j].tag != 0x08
    requires forall e | e in hs :: e.tag != 0x00
    ensures var v, d := hs[i].value, GetMultiPart(charIsSigned, hs);
            && |v| == 4 && d.parts == v[2] && d.sequence == v[3]
            && d.reference == if charIsSigned && v[1] >= 0x80 then 0xFF00 + v[1] as int else BigEndian(v[..2])
  {
    FirstWithAt(hs, 0x08, i);
    BigEndianOfTwo(hs[i].value[..2]);
  }

  /** And without any, the message is the only part. */
  lemma GetWithoutElement(charIsSigned: bool, hs: seq<Element>)
    requires WfElements(hs) && forall e | e in hs :: e.tag != 0x00 && e.tag != 0x08
    ensures GetMultiPart(charIsSigned, hs) == MultiPartData(0, 1, 1)
  {
  }

  /** Set appends the short element exactly if the reference fits one octet. */
  lemma SetLayout(hs: seq<Element>, mpd: MultiPartData)
    ensures var after := SetMultiPart(hs, mpd);
            && |after| == |hs| + 1 && hs <= after
            && var e, n := after[|hs|], |after[|hs|].value|;
               && e.tag == (if mpd.reference < 0x100 then 0x00 else 0x08)
               && n == (if mpd.reference < 0x100 then 3 else 4)
               && BigEndian(e.value[..n - 2]) == mpd.reference
               && e.value[n - 2] == mpd.parts && e.value[n - 1] == mpd.sequence
  {
    var e := ConcatElement(mpd);
    if mpd.reference < 0x100 {
      assert e.value[..1][..0] == [];
      assert BigEndian(e.value[..1]) == e.value[0];
    } else {
      BigEndianOfTwo(e.value[..2]);
    }
  }

  /** With no concatenation element yet, what is set is read back unless char is
      signed and sign extension corrupts the reference. */
  lemma GetAfterSetExactly(charIsSigned: bool, hs: seq<Element>, mpd: MultiPartData)
    requires WfElements(hs)
    requires forall e | e in hs :: e.tag != CONCAT_8BIT && e.tag != CONCAT_16BIT
    ensures WfElements(SetMultiPart(hs, mpd))
    ensures GetMultiPart(charIsSigned, SetMultiPart(hs, mpd)) == mpd
       <==> !charIsSigned || Low(mpd.reference) < 0x80 || High(mpd.reference) == 0xFF
  {
    FirstWithAppend(hs, ConcatElement(mpd), CONCAT_8BIT);
    FirstWithAppend(hs, ConcatElement(mpd), CONCAT_16BIT);
    var ref := mpd.reference;
    assert ref == High(ref) * 0x100 + Low(ref);
  }

  /** The same through the wire: set, pack, unpack, get. */
  lemma ConcatenationTrip(charIsSigned: bool, esm: EsmClass, dataCoding: Octet,
                          hs: seq<Element>, mpd: MultiPartData, body: seq<Octet>)
    requires WfElements(hs)
    requires forall e | e in hs :: e.tag != CONCAT_8BIT && e.tag != CONCAT_16BIT
    requires esm.gsmNetworkFeatures == 0x40 || esm.gsmNetworkFeatures == 0xC0
    requires Pack(SetMultiPart(hs, mpd), body, dataCoding).Ok?
    ensures var r := Unpack(esm, dataCoding, Pack(SetMultiPart(hs, mpd), body, dataCoding).value);
            && r.Ok? && WfElements(r.value.0) && r.value.1 == body
            && (GetMultiPart(charIsSigned, r.value.0) == mpd
                <==> !charIsSigned || Low(mpd.reference) < 0x80 || High(mpd.reference) == 0xFF)
  {
    GetAfterSetExactly(charIsSigned, hs, mpd);
    UnpackPack(esm, dataCoding, SetMultiPart(hs, mpd), body);
  }

  function SetAll(hs: seq<Element>, mpds: seq<MultiPartData>): seq<Element>
    decreases |mpds|
  {
    if mpds == [] then hs else SetAll(SetMultiPart(hs, mpds[0]), mpds[1..])
  }

  /** Once there is an 8-bit element, no later set changes what is read. */
  lemma {:induction false} FirstEightBitElementWins(charIsSigned: bool, hs: seq<Element>, mpds: seq<MultiPartData>)
    requires WfElements(hs)
    requires exists e :: e in hs && e.tag == CONCAT_8BIT
    ensures WfElements(SetAll(hs, mpds))
    ensures GetMultiPart(charIsSigned, SetAll(hs, mpds)) == GetMultiPart(charIsSigned, hs)
    decreases |mpds|
  {
    if mpds != [] {
      var e :| e in hs && e.tag == CONCAT_8BIT;
      var hs' := SetMultiPart(hs, mpds[0]);
      assert e in hs';
      FirstWithAppend(hs, ConcatElement(mpds[0]), CONCAT_8BIT);
      assert GetMultiPart(charIsSigned, hs') == GetMultiPart(charIsSigned, hs);
      FirstEightBitElementWins(charIsSigned, hs', mpds[1..]);
    }
  }

  // -------------------------------------------------------------------------
  // The class

  class UserDataHeader {
    var headers: seq<Element>

    ghost predicate Valid()
      reads this
    {
      WfElements(headers)
    }

    constructor ()
      ensures Valid() && headers == []
    {
      headers := [];
    }

    /** The parsing constructor. */
    method ParseFrom(b: seq<Octet>) returns (ok: bool)
      requires headers == []
      modifies this
      ensures Valid()
      ensures ok <==> Parse(b).Ok?
      ensures ok ==> headers == Parse(b).value
    {
      hide Parse;
      var buf := b;
      assert Parse(b).Ok? ==> [] + Parse(b).value == Parse(b).value;
      while |buf| >= ELEMENT_HEADER
        invariant Valid()
        invariant Parse(b) == (if Parse(buf).Ok? then Ok(headers + Parse(buf).value) else Err)
        decreases |buf|
      {
        ParseStep(buf);
        var tag, valLength := buf[0], buf[1];
        if valLength > |buf| - ELEMENT_HEADER {
          return false;
        }
        var val := buf[ELEMENT_HEADER..ELEMENT_HEADER + valLength];
        if (tag == CONCAT_8BIT && |val| != 3) || (tag == CONCAT_16BIT && |val| != 4) {
          return false;
        }
        ghost var was, tail := headers, Parse(buf[ELEMENT_HEADER + valLength..]);
        headers := headers + [Element(tag, val)];
        assert tail.Ok? ==> was + ([Element(tag, val)] + tail.value) == headers + tail.value;
        buf := buf[ELEMENT_HEADER + valLength..];
      }
      ParseStep(buf);
      assert headers + [] == headers;
      return true;
    }

    method SerializeAll() returns (buf: seq<Octet>)
      ensures buf == Serialize(headers)
    {
      buf := [];
      assert headers[0..] == headers;
      for i := 0 to |headers|
        invariant buf + Serialize(headers[i..]) == Serialize(headers)
      {
        var e := headers[i];
        assert headers[i..][1..] == headers[i + 1..];
        assert Serialize(headers[i..]) == ElementOctets(e) + Serialize(headers[i + 1..]);
        buf := buf + [e.tag, |e.value| % 0x100];
        buf := buf + e.value;
      }
    }

    method SetMultiPartData(mpd: MultiPartData)
      requires Valid()
      modifies this
      ensures Valid() && headers == SetMultiPart(old(headers), mpd)
    {
      if mpd.reference > 0xFF {
        headers := headers + [Element(CONCAT_16BIT,
          [mpd.reference / 0x100 % 0x100, mpd.reference % 0x100, mpd.parts, mpd.sequence])];
      } else {
        headers := headers + [Element(CONCAT_8BIT, [mpd.reference, mpd.parts, mpd.sequence])];
      }
    }
  }

  method PackShortMessage(udh: UserDataHeader, body: seq<Octet>, dataCoding: Octet) returns (r: Result<seq<Octet>>)
    ensures r == Pack(udh.headers, body, dataCoding)
  {
    var shortMessage: seq<Octet> := [];
    var serialized := udh.SerializeAll();
    if |serialized| != 0 {
      shortMessage := shortMessage + [|serialized| % 0x100];
      shortMessage := shortMessage + serialized;
      assert shortMessage == [|serialized| % 0x100] + serialized;
    }
    shortMessage := shortMessage + body;
    if IsAscii8Bit(dataCoding) {
      if |shortMessage| > 160 {
        return Err;
      }
    } else if |shortMessage| > 140 {
      return Err;
    }
    return Ok(shortMessage);
  }
}
