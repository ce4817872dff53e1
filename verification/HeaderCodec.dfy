/** The 16-octet SMPP header (SMPP v3.4, section 3.2). */
module HeaderCodec {
  import opened Octets

  const HEADER_LENGTH := 16

  datatype Header = Header(commandLength: U32, commandId: U32, commandStatus: U32, sequenceNumber: U32)

  function Serialize(h: Header): (b: seq<Octet>)
    ensures |b| == HEADER_LENGTH
  {
    U32Octets(h.commandLength) + U32Octets(h.commandId) + U32Octets(h.commandStatus) + U32Octets(h.sequenceNumber)
  }

  /** Reads the first 16 octets only, as the fixed-extent span does. */
  function Deserialize(b: seq<Octet>): Header
    requires |b| >= HEADER_LENGTH
  {
    Header(U32At(b[0..4]), U32At(b[4..8]), U32At(b[8..12]), U32At(b[12..16]))
  }

  lemma DeserializeSerialize(h: Header, rest: seq<Octet>)
    ensures Deserialize(Serialize(h) + rest) == h
  {
    var b := Serialize(h) + rest;
    assert b[0..4] == U32Octets(h.commandLength);
    assert b[4..8] == U32Octets(h.commandId);
    assert b[8..12] == U32Octets(h.commandStatus);
    assert b[12..16] == U32Octets(h.sequenceNumber);
    U32OfOctets(h.commandLength);
    U32OfOctets(h.commandId);
    U32OfOctets(h.commandStatus);
    U32OfOctets(h.sequenceNumber);
  }

  lemma SerializeDeserialize(b: seq<Octet>)
    requires |b| >= HEADER_LENGTH
    ensures Serialize(Deserialize(b)) == b[..HEADER_LENGTH]
  {
    OctetsOfU32(b[0..4]);
    OctetsOfU32(b[4..8]);
    OctetsOfU32(b[8..12]);
    OctetsOfU32(b[12..16]);
    assert b[..16] == b[0..4] + b[4..8] + b[8..12] + b[12..16];
  }

  /** Four big-endian words in the order of the standard: length, id, status, number. */
  lemma HeaderLayout(h: Header)
    ensures var b := Serialize(h);
            && BigEndian(b[0..4]) == h.commandLength && BigEndian(b[4..8]) == h.commandId
            && BigEndian(b[8..12]) == h.commandStatus && BigEndian(b[12..16]) == h.sequenceNumber
  {
    var b := Serialize(h);
    DeserializeSerialize(h, []);
    assert b + [] == b;
    BigEndianOfFour(b[0..4]);
    BigEndianOfFour(b[4..8]);
    BigEndianOfFour(b[8..12]);
    BigEndianOfFour(b[12..16]);
  }

  /** Writes the header over the 16 octets the sender reserved at the front of
      its buffer; what follows them stays. */
  method SerializeInPlace(vec: OctetVector, h: Header)
    requires |vec.bytes| >= HEADER_LENGTH
    modifies vec
    ensures vec.bytes == Serialize(h) + old(vec.bytes)[HEADER_LENGTH..]
  {
    ghost var body := vec.bytes[HEADER_LENGTH..];
    StoreU32(vec, 0, h.commandLength);
    assert vec.bytes[..4] == U32Octets(h.commandLength) && vec.bytes[16..] == body;
    StoreU32(vec, 4, h.commandId);
    assert vec.bytes[..8] == U32Octets(h.commandLength) + U32Octets(h.commandId) && vec.bytes[16..] == body;
    StoreU32(vec, 8, h.commandStatus);
    assert vec.bytes[..12] == U32Octets(h.commandLength) + U32Octets(h.commandId) + U32Octets(h.commandStatus);
    assert vec.bytes[16..] == body;
    StoreU32(vec, 12, h.sequenceNumber);
    assert vec.bytes == Serialize(h) + body;
  }

  method StoreU32(vec: OctetVector, at: nat, val: U32)
    requires at + 4 <= |vec.bytes|
    modifies vec
    ensures vec.bytes == old(vec.bytes)[..at] + U32Octets(val) + old(vec.bytes)[at + 4..]
  {
    vec.bytes := vec.bytes[at := val / 0x100_0000][at + 1 := val / 0x1_0000 % 0x100]
                          [at + 2 := val / 0x100 % 0x100][at + 3 := val % 0x100];
  }
}
