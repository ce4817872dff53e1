/** Optional TLV parameters (SMPP v3.4, section 3.2.4.1). */
module Oparam {
  import opened Octets

  const TLV_HEADER := 4

  type Params = map<U16, seq<Octet>>

  datatype Tlv = Tlv(tag: U16, value: seq<Octet>)

  /** Every value fits its 16-bit length field. */
  ghost predicate ValidParams(m: Params) {
    forall tag | tag in m :: |m[tag]| <= 0xFFFF
  }

  // -------------------------------------------------------------------------
  // Reading

  /** The TLV at the front of `b`. */
  function HeadLength(b: seq<Octet>): nat
    requires |b| >= TLV_HEADER
  {
    U16At(b[2..4])
  }

  function HeadTlv(b: seq<Octet>): (t: Tlv)
    requires |b| >= TLV_HEADER && HeadLength(b) <= |b| - TLV_HEADER
    ensures |t.value| == HeadLength(b)
  {
    Tlv(U16At(b[0..2]), b[TLV_HEADER..TLV_HEADER + HeadLength(b)])
  }

  /** std::map::emplace: an existing tag keeps its value. */
  function Emplace(m: Params, t: Tlv): Params {
    if t.tag in m then m else m[t.tag := t.value]
  }

  /** The parameters read from `b` on top of `m`, and what is left of `b`. */
  function ParseOnto(m: Params, b: seq<Octet>): (r: Result<(Params, seq<Octet>)>)
    ensures r.Ok? ==> |r.value.1| < TLV_HEADER
    decreases |b|
  {
    if |b| < TLV_HEADER then Ok((m, b))
    else if HeadLength(b) > |b| - TLV_HEADER then Err
    else ParseOnto(Emplace(m, HeadTlv(b)), b[TLV_HEADER + HeadLength(b)..])
  }

  function Parse(b: seq<Octet>): Result<(Params, seq<Octet>)> {
    ParseOnto(map[], b)
  }

  // -------------------------------------------------------------------------
  // Writing

  /** Writes the length modulo 2^16, as the conversion to uint16_t does. */
  function TlvOctets(t: Tlv): seq<Octet> {
    U16Octets(t.tag) + U16Octets(|t.value| % 0x1_0000) + t.value
  }

  /** The entries of `m` with a tag of at least `from`, in the order in which
      std::map iterates: by increasing tag. */
  function Entries(m: Params, from: nat): seq<Tlv>
    decreases 0x1_0000 - from
  {
    if from >= 0x1_0000 then []
    else (if from in m then [Tlv(from, m[from])] else []) + Entries(m, from + 1)
  }

  function EntryOctets(ts: seq<Tlv>): seq<Octet> {
    if ts == [] then [] else TlvOctets(ts[0]) + EntryOctets(ts[1..])
  }

  function Serialize(m: Params): seq<Octet> {
    EntryOctets(Entries(m, 0))
  }

  // -------------------------------------------------------------------------
  // parse(serialize(m)) == m

  lemma HeadOfTlvOctets(t: Tlv, rest: seq<Octet>)
    requires |t.value| <= 0xFFFF
    ensures var b := TlvOctets(t) + rest;
            && |b| >= TLV_HEADER && HeadLength(b) == |t.value| <= |b| - TLV_HEADER
            && HeadTlv(b) == t && b[TLV_HEADER + HeadLength(b)..] == rest
  {
    var b := TlvOctets(t) + rest;
    assert b[0..2] == U16Octets(t.tag);
    assert b[2..4] == U16Octets(|t.value| % 0x1_0000);
    assert b[4..4 + |t.value|] == t.value;
  }

  /** `out` holds `acc` and the entries of `m` from tag `from` on. */
  ghost predicate Merges(out: Params, acc: Params, m: Params, from: nat) {
    && (forall tag | tag in out ::
          (tag in acc && out[tag] == acc[tag]) || (tag >= from && tag in m && out[tag] == m[tag]))
    && (forall tag | tag in acc :: tag in out)
    && (forall tag | tag in m && tag >= from :: tag in out)
  }

  lemma {:induction false} ParseEntries(acc: Params, m: Params, from: nat) returns (out: Params)
    requires ValidParams(m) && from <= 0x1_0000
    requires forall tag | tag in acc :: tag < from
    ensures ParseOnto(acc, EntryOctets(Entries(m, from))) == Ok((out, []))
    ensures Merges(out, acc, m, from)
    decreases 0x1_0000 - from
  {
    hide Merges, HeadLength, HeadTlv, TlvOctets;
    if from == 0x1_0000 {
      out := acc;
      MergesNone(acc, m);
    } else if from !in m {
      assert Entries(m, from) == Entries(m, from + 1);
      out := ParseEntries(acc, m, from + 1);
      MergesSkip(out, acc, m, from);
    } else {
      var t := Tlv(from, m[from]);
      var tail := EntryOctets(Entries(m, from + 1));
      EntryOctetsStep(m, from);
      HeadOfTlvOctets(t, tail);
      out := ParseEntries(Emplace(acc, t), m, from + 1);
      MergesStep(out, acc, m, from);
    }
  }

  lemma EntryOctetsStep(m: Params, from: U16)
    ensures EntryOctets(Entries(m, from))
         == (if from in m then TlvOctets(Tlv(from, m[from])) else []) + EntryOctets(Entries(m, from + 1))
  {
    if from in m {
      assert Entries(m, from) == [Tlv(from, m[from])] + Entries(m, from + 1);
    } else {
      assert Entries(m, from) == Entries(m, from + 1);
    }
  }

  lemma MergesNone(acc: Params, m: Params)
    ensures Merges(acc, acc, m, 0x1_0000)
  {
  }

  lemma MergesSkip(out: Params, acc: Params, m: Params, from: U16)
    requires from !in m && Merges(out, acc, m, from + 1)
    ensures Merges(out, acc, m, from)
  {
  }

  lemma MergesStep(out: Params, acc: Params, m: Params, from: U16)
    requires from in m && from !in acc
    requires Merges(out, Emplace(acc, Tlv(from, m[from])), m, from + 1)
    ensures Merges(out, acc, m, from)
  {
  }

  /** Whatever an oparam can hold comes back, and the buffer is used up. */
  lemma {:induction false} ParseSerialize(m: Params)
    requires ValidParams(m)
    ensures Parse(Serialize(m)) == Ok((m, []))
  {
    var out := ParseEntries(map[], m, 0);
    MergesAll(out, m);
  }

  lemma MergesAll(out: Params, m: Params)
    requires Merges(out, map[], m, 0)
    ensures out == m
  {
    assert out.Keys == m.Keys;
  }

  // -------------------------------------------------------------------------
  // serialize(parse(b)): the tag-sorted list of first occurrences

  /** The TLVs of `b` in the order in which they stand there, duplicates and all,
      and the octets after the last whole one; an independent reading of `b`. */
  ghost predicate Reads(b: seq<Octet>, ts: seq<Tlv>, tail: seq<Octet>) {
    && (forall t | t in ts :: |t.value| <= 0xFFFF)
    && |tail| < TLV_HEADER
    && b == EntryOctets(ts) + tail
  }

  /** `v` is the value of the first TLV of `ts` that bears `tag`. */
  ghost predicate FirstOccurrence(ts: seq<Tlv>, tag: U16, v: seq<Octet>) {
    exists i :: 0 <= i < |ts| && ts[i] == Tlv(tag, v) && forall j | 0 <= j < i :: ts[j].tag != tag
  }

  ghost predicate Holds(m: Params, tag: U16, v: seq<Octet>) {
    tag in m && m[tag] == v
  }

  lemma {:induction false} ParseOntoReads(m: Params, b: seq<Octet>) returns (ts: seq<Tlv>)
    requires ParseOnto(m, b).Ok?
    ensures Reads(b, ts, ParseOnto(m, b).value.1)
    ensures forall tag: U16, v :: Holds(ParseOnto(m, b).value.0, tag, v)
              <==> Holds(m, tag, v) || (tag !in m && FirstOccurrence(ts, tag, v))
    decreases |b|
  {
    if |b| < TLV_HEADER {
      ts := [];
      assert EntryOctets(ts) + b == b;
    } else {
      var t := HeadTlv(b);
      var rest := b[TLV_HEADER + HeadLength(b)..];
      var us := ParseOntoReads(Emplace(m, t), rest);
      ts := [t] + us;
      HeadReads(b, us, ParseOnto(m, b).value.1);
      var out := ParseOnto(m, b).value.0;
      assert out == ParseOnto(Emplace(m, t), rest).value.0;
      forall tag: U16, v
        ensures Holds(out, tag, v) <==> Holds(m, tag, v) || (tag !in m && FirstOccurrence(ts, tag, v))
      {
        assert Holds(out, tag, v)
          <==> Holds(Emplace(m, t), tag, v) || (tag !in Emplace(m, t) && FirstOccurrence(us, tag, v));
        FirstOccurrenceCons(t, us, tag, v);
      }
    }
  }

  /** A TLV on the wire: tag and length as big-endian words, then the value. */
  lemma TlvLayout(t: Tlv)
    requires |t.value| <= 0xFFFF
    ensures var b := TlvOctets(t);
            && |b| == TLV_HEADER + |t.value|
            && BigEndian(b[0..2]) == t.tag && BigEndian(b[2..4]) == |t.value| && b[4..] == t.value
  {
    var b := TlvOctets(t);
    BigEndianOfTwo(b[0..2]);
    BigEndianOfTwo(b[2..4]);
  }

  /** Octets are parsed exactly if they are whole TLVs and at most three octets more. */
  lemma ParsesExactly(b: seq<Octet>)
    ensures Parse(b).Ok? <==> exists ts, tail :: Reads(b, ts, tail)
  {
    if Parse(b).Ok? {
      var ts := ParseOntoReads(map[], b);
    }
    if ts, tail :| Reads(b, ts, tail) {
      ReadsParse(map[], ts, tail);
    }
  }

  lemma {:induction false} ReadsParse(m: Params, ts: seq<Tlv>, tail: seq<Octet>)
    requires |tail| < TLV_HEADER && forall t | t in ts :: |t.value| <= 0xFFFF
    ensures ParseOnto(m, EntryOctets(ts) + tail).Ok? && ParseOnto(m, EntryOctets(ts) + tail).value.1 == tail
    decreases |ts|
  {
    if ts == [] {
      assert EntryOctets(ts) + tail == tail;
    } else {
      hide TlvOctets, HeadLength, HeadTlv, Emplace;
      var rest := EntryOctets(ts[1..]) + tail;
      assert EntryOctets(ts) + tail == TlvOctets(ts[0]) + rest by {
        Regroup(TlvOctets(ts[0]), EntryOctets(ts[1..]), tail);
      }
      assert ts[0] in ts;
      HeadOfTlvOctets(ts[0], rest);
      ReadsParse(Emplace(m, ts[0]), ts[1..], tail);
    }
  }

  lemma HeadReads(b: seq<Octet>, us: seq<Tlv>, tail: seq<Octet>)
    requires |b| >= TLV_HEADER && HeadLength(b) <= |b| - TLV_HEADER
    requires Reads(b[TLV_HEADER + HeadLength(b)..], us, tail)
    ensures Reads(b, [HeadTlv(b)] + us, tail)
  {
    var t := HeadTlv(b);
    var rest := b[TLV_HEADER + HeadLength(b)..];
    HeadOctets(b);
    hide TlvOctets, HeadTlv, HeadLength;
    assert ([t] + us)[1..] == us;
    assert EntryOctets([t] + us) == TlvOctets(t) + EntryOctets(us);
    Regroup(TlvOctets(t), EntryOctets(us), tail);
  }

  lemma HeadOctets(b: seq<Octet>)
    requires |b| >= TLV_HEADER && HeadLength(b) <= |b| - TLV_HEADER
    ensures b == TlvOctets(HeadTlv(b)) + b[TLV_HEADER + HeadLength(b)..]
    ensures |HeadTlv(b).value| <= 0xFFFF
  {
    assert U16Octets(HeadTlv(b).tag) == b[0..2];
    assert U16Octets(|HeadTlv(b).value| % 0x1_0000) == b[2..4];
  }

  lemma FirstOccurrenceCons(t: Tlv, us: seq<Tlv>, tag: U16, v: seq<Octet>)
    ensures FirstOccurrence([t] + us, tag, v)
       <==> if tag == t.tag then v == t.value else FirstOccurrence(us, tag, v)
  {
    if tag == t.tag && v == t.value {
      assert ([t] + us)[0] == Tlv(tag, v);
    }
    if tag != t.tag && FirstOccurrence(us, tag, v) {
      OccurrenceBehind(t, us, tag, v);
    }
    if FirstOccurrence([t] + us, tag, v) {
      OccurrenceWithin(t, us, tag, v);
    }
  }

  lemma OccurrenceBehind(t: Tlv, us: seq<Tlv>, tag: U16, v: seq<Octet>)
    requires tag != t.tag && FirstOccurrence(us, tag, v)
    ensures FirstOccurrence([t] + us, tag, v)
  {
    var ts := [t] + us;
    var i :| 0 <= i < |us| && us[i] == Tlv(tag, v) && forall j | 0 <= j < i :: us[j].tag != tag;
    assert ts[i + 1] == Tlv(tag, v);
    assert forall j | 0 < j < i + 1 :: ts[j] == us[j - 1];
  }

  lemma OccurrenceWithin(t: Tlv, us: seq<Tlv>, tag: U16, v: seq<Octet>)
    requires FirstOccurrence([t] + us, tag, v)
    ensures if tag == t.tag then v == t.value else FirstOccurrence(us, tag, v)
  {
    var ts := [t] + us;
    var i :| 0 <= i < |ts| && ts[i] == Tlv(tag, v) && forall j | 0 <= j < i :: ts[j].tag != tag;
    if i > 0 {
      assert ts[0].tag != tag;
      assert us[i - 1] == Tlv(tag, v);
      assert forall j | 0 <= j < i - 1 :: us[j] == ts[j + 1];
    }
  }

  lemma {:induction false} EntriesSorted(m: Params, from: nat)
    ensures var es := Entries(m, from);
            && (forall i, j | 0 <= i < j < |es| :: es[i].tag < es[j].tag)
            && (forall t: Tlv :: t in es <==> t.tag >= from && t.tag in m && m[t.tag] == t.value)
    decreases 0x1_0000 - from
  {
    if from < 0x1_0000 {
      EntriesSorted(m, from + 1);
    }
  }

  /** Writing back what was read from `b`: the first occurrence of every tag of
      `b`, sorted by tag, without the up to three octets after the last TLV. */
  lemma {:induction false} SerializeParse(b: seq<Octet>) returns (ts: seq<Tlv>, es: seq<Tlv>)
    requires Parse(b).Ok?
    ensures Reads(b, ts, Parse(b).value.1)
    ensures Serialize(Parse(b).value.0) == EntryOctets(es)
    ensures forall i, j | 0 <= i < j < |es| :: es[i].tag < es[j].tag
    ensures forall t: Tlv :: t in es <==> FirstOccurrence(ts, t.tag, t.value)
  {
    ts := ParseOntoReads(map[], b);
    var m: Params := Parse(b).value.0;
    es := Entries(m, 0);
    EntriesSorted(m, 0);
    forall t: Tlv ensures t in es <==> FirstOccurrence(ts, t.tag, t.value) {
      assert Holds(m, t.tag, t.value) <==> FirstOccurrence(ts, t.tag, t.value);
    }
  }

  lemma {:induction false} ParseOntoValid(m: Params, b: seq<Octet>)
    requires ValidParams(m) && ParseOnto(m, b).Ok?
    ensures ValidParams(ParseOnto(m, b).value.0)
    decreases |b|
  {
    if |b| >= TLV_HEADER {
      ParseOntoValid(Emplace(m, HeadTlv(b)), b[TLV_HEADER + HeadLength(b)..]);
    }
  }

  /** parse . serialize . parse == parse, so a parsed oparam is canonical. */
  lemma {:induction false} ParseIsCanonical(b: seq<Octet>)
    requires Parse(b).Ok?
    ensures ValidParams(Parse(b).value.0)
    ensures Parse(Serialize(Parse(b).value.0)) == Ok((Parse(b).value.0, []))
  {
    ParseOntoValid(map[], b);
    ParseSerialize(Parse(b).value.0);
  }

  /** What is written takes no more room than what was read: every entry written
      is one of the TLVs read. */
  lemma {:induction false} SerializeNoLonger(m: Params, b: seq<Octet>)
    requires ParseOnto(m, b).Ok?
    ensures var r := ParseOnto(m, b).value;
            |Serialize(r.0)| + |r.1| <= |Serialize(m)| + |b|
    decreases |b|
  {
    if |b| >= TLV_HEADER {
      var t := HeadTlv(b);
      SerializeNoLonger(Emplace(m, t), b[TLV_HEADER + HeadLength(b)..]);
      if t.tag !in m {
        EntriesGrow(m, t, 0);
      }
    }
  }

  lemma {:induction false} EntriesGrow(m: Params, t: Tlv, from: nat)
    requires t.tag !in m
    ensures |EntryOctets(Entries(m[t.tag := t.value], from))|
         == |EntryOctets(Entries(m, from))| + if t.tag >= from then TLV_HEADER + |t.value| else 0
    decreases 0x1_0000 - from
  {
    if from < 0x1_0000 {
      EntriesGrow(m, t, from + 1);
      EntryOctetsStep(m, from);
      EntryOctetsStep(m[t.tag := t.value], from);
    }
  }

  lemma {:induction false} ParseAppend(m: Params, a: seq<Octet>, b: seq<Octet>)
    requires ParseOnto(m, a).Ok? && ParseOnto(m, a).value.1 == []
    ensures ParseOnto(m, a + b) == ParseOnto(ParseOnto(m, a).value.0, b)
    decreases |a|
  {
    if |a| < TLV_HEADER {
      assert a + b == b;
    } else {
      var ab, n := a + b, TLV_HEADER + HeadLength(a);
      assert ab[0..2] == a[0..2] && ab[2..4] == a[2..4];
      assert ab[TLV_HEADER..n] == a[TLV_HEADER..n] && ab[n..] == a[n..] + b;
      ParseAppend(Emplace(m, HeadTlv(a)), a[n..], b);
    }
  }

  /** Parsing stops before octet `k`, where the next TLV does not fit, when it has
      read `m`. */
  ghost predicate StopsAt(b: seq<Octet>, k: nat, m: Params, rest: seq<Octet>) {
    && k <= |b| && rest == b[k..]
    && Parse(b[..k]) == Ok((m, []))
    && |rest| >= TLV_HEADER && HeadLength(rest) > |rest| - TLV_HEADER
  }

  /** What has been parsed up to octet `k` decides what becomes of `b`. */
  lemma ParseFrontNext(b: seq<Octet>, k: nat, m: Params)
    requires k <= |b| && Parse(b[..k]) == Ok((m, []))
    ensures Parse(b) == ParseOnto(m, b[k..])
    ensures var rest := b[k..];
            |rest| >= TLV_HEADER && HeadLength(rest) <= |rest| - TLV_HEADER ==>
              Parse(b[..k + TLV_HEADER + HeadLength(rest)]) == Ok((Emplace(m, HeadTlv(rest)), []))
  {
    hide ParseOnto, Emplace, HeadLength, HeadTlv;
    var rest := b[k..];
    assert b == b[..k] + rest;
    ParseAppend(map[], b[..k], rest);
    if |rest| >= TLV_HEADER && HeadLength(rest) <= |rest| - TLV_HEADER {
      var n := TLV_HEADER + HeadLength(rest);
      assert b[..k + n] == b[..k] + rest[..n];
      ParseAppend(map[], b[..k], rest[..n]);
      ParseOne(m, rest);
    }
  }

  lemma ParseOne(m: Params, b: seq<Octet>)
    requires |b| >= TLV_HEADER && HeadLength(b) <= |b| - TLV_HEADER
    ensures ParseOnto(m, b[..TLV_HEADER + HeadLength(b)]) == Ok((Emplace(m, HeadTlv(b)), []))
  {
    var n := TLV_HEADER + HeadLength(b);
    var tlv := b[..n];
    assert tlv[0..2] == b[0..2] && tlv[2..4] == b[2..4] && tlv[TLV_HEADER..n] == b[TLV_HEADER..n];
    assert tlv[n..] == [];
  }

  /** The octets after the last TLV do not matter. */
  lemma ParseCut(b: seq<Octet>, m: Params, tail: seq<Octet>)
    ensures Parse(b) == Ok((m, tail))
       <==> && |tail| < TLV_HEADER && |tail| <= |b| && tail == b[|b| - |tail|..]
            && Parse(b[..|b| - |tail|]) == Ok((m, []))
  {
    if Parse(b) == Ok((m, tail)) {
      var ts := ParseOntoReads(map[], b);
      var f := EntryOctets(ts);
      ReadsParse(map[], ts, []);
      assert f + [] == f && b[..|f|] == f && b[|f|..] == tail;
      ParseAppend(map[], f, tail);
    }
    if |tail| < TLV_HEADER && |tail| <= |b| && tail == b[|b| - |tail|..] {
      var f := b[..|b| - |tail|];
      assert b == f + tail;
      if Parse(f) == Ok((m, [])) {
        ParseAppend(map[], f, tail);
      }
    }
  }

  // -------------------------------------------------------------------------
  // The class

  class OptionalParameters {
    var params: Params

    ghost predicate Valid()
      reads this
    {
      ValidParams(params)
    }

    constructor ()
      ensures Valid() && params == map[]
    {
      params := map[];
    }

    /** The parsing constructor. On an error the span stands before the TLV that
        does not fit, and those before it have been stored. */
    method ParseFrom(buf: OctetSpan) returns (ok: bool)
      requires params == map[]
      modifies this, buf
      ensures Valid()
      ensures ok <==> Parse(old(buf.bytes)).Ok?
      ensures ok ==> Parse(old(buf.bytes)) == Ok((params, buf.bytes))
      ensures !ok ==> exists k :: StopsAt(old(buf.bytes), k, params, buf.bytes)
    {
      ghost var done := 0;
      while |buf.bytes| >= TLV_HEADER
        invariant Valid()
        invariant 0 <= done <= |old(buf.bytes)| && buf.bytes == old(buf.bytes)[done..]
        invariant Parse(old(buf.bytes)[..done]) == Ok((params, []))
        decreases |buf.bytes|
      {
        ParseFrontNext(old(buf.bytes), done, params);
        var tag := U16At(buf.bytes[0..2]);
        var valLength := U16At(buf.bytes[2..4]);
        if valLength > |buf.bytes| - TLV_HEADER {
          assert StopsAt(old(buf.bytes), done, params, buf.bytes);
          return false;
        }
        if tag !in params {
          params := params[tag := buf.bytes[TLV_HEADER..TLV_HEADER + valLength]];
        }
        buf.DropFirst(TLV_HEADER + valLength);
        done := done + TLV_HEADER + valLength;
      }
      ParseFrontNext(old(buf.bytes), done, params);
      return true;
    }

    /** Appends the parameters to `vec`, by increasing tag. */
    method SerializeTo(vec: OctetVector)
      modifies vec
      ensures vec.bytes == old(vec.bytes) + Serialize(params)
    {
      var tag: nat := 0;
      hide TlvOctets;
      ghost var all := vec.bytes + Serialize(params);
      while tag < 0x1_0000
        invariant 0 <= tag <= 0x1_0000
        invariant vec.bytes + EntryOctets(Entries(params, tag)) == all
      {
        EntryOctetsStep(params, tag);
        if tag in params {
          ghost var was, tail := vec.bytes, EntryOctets(Entries(params, tag + 1));
          SerializeOne(vec, Tlv(tag, params[tag]));
          Regroup(was, TlvOctets(Tlv(tag, params[tag])), tail);
        }
        tag := tag + 1;
      }
      assert EntryOctets(Entries(params, tag)) == [];
    }

    method SerializeOne(vec: OctetVector, t: Tlv)
      modifies vec
      ensures vec.bytes == old(vec.bytes) + TlvOctets(t)
    {
      vec.Insert(U16Octets(t.tag));
      vec.Insert(U16Octets(|t.value| % 0x1_0000));
      vec.Insert(t.value);
    }

    /** Tells whether there was such a parameter. */
    method Erase(tag: U16) returns (existed: bool)
      requires Valid()
      modifies this
      ensures Valid()
      ensures existed <==> tag in old(params)
      ensures params == old(params) - {tag}
    {
      existed := tag in params;
      params := params - {tag};
    }

    method GetAsString(tag: U16) returns (r: Result<seq<Octet>>)
      ensures r == if tag in params then Ok(params[tag]) else Err
    {
      if tag !in params {
        return Err;
      }
      return Ok(params[tag]);
    }

    /** Replaces a value that already exists; refuses one that is too long. */
    method SetAsString(tag: U16, val: seq<Octet>) returns (ok: bool)
      requires Valid()
      modifies this
      ensures Valid()
      ensures ok <==> |val| <= 0xFFFF
      ensures params == if ok then old(params)[tag := val] else old(params)
    {
      if |val| > 0xFFFF {
        return false;
      }
      params := params[tag := val];
      return true;
    }

    method SetAsEnumU8(tag: U16, val: Octet)
      requires Valid()
      modifies this
      ensures Valid()
      ensures params == old(params)[tag := [val]]
    {
      params := params[tag := [val]];
    }
  }
}
