/** Octets, big-endian words, and the two byte containers the codec works on. */
module Octets {

  datatype Result<+T> = Ok(value: T) | Err

  type Octet = x: int | 0 <= x < 0x100
  type U16 = x: int | 0 <= x < 0x1_0000
  type U32 = x: int | 0 <= x < 0x1_0000_0000

  /** The two octets of `n`, most significant first. */
  function U16Octets(n: U16): (b: seq<Octet>)
    ensures |b| == 2
  {
    [n / 0x100, n % 0x100]
  }

  function U16At(b: seq<Octet>): U16
    requires |b| >= 2
  {
    (b[0] as int) * 0x100 + b[1]
  }

  /** The four octets of `n`, most significant first. */
  function U32Octets(n: U32): (b: seq<Octet>)
    ensures |b| == 4
  {
    [n / 0x100_0000, n / 0x1_0000 % 0x100, n / 0x100 % 0x100, n % 0x100]
  }

  function U32At(b: seq<Octet>): U32
    requires |b| >= 4
  {
    (b[0] as int) * 0x100_0000 + (b[1] as int) * 0x1_0000 + (b[2] as int) * 0x100 + b[3]
  }

  lemma U32OfOctets(n: U32)
    ensures U32At(U32Octets(n)) == n
  {
    DivideTwice(n);
    var a, b, c := n / 0x100_0000, n / 0x1_0000, n / 0x100;
    assert n == c * 0x100 + n % 0x100;
    assert c == b * 0x100 + c % 0x100;
    assert b == a * 0x100 + b % 0x100;
  }

  lemma DivideTwice(n: nat)
    ensures n / 0x100 / 0x100 == n / 0x1_0000
    ensures n / 0x1_0000 / 0x100 == n / 0x100_0000
  {
  }

  lemma OctetsOfU32(b: seq<Octet>)
    requires |b| == 4
    ensures U32Octets(U32At(b)) == b
  {
    var n := U32At(b);
    var hi: int, mid: int, low: int := b[0], b[1], b[2];
    assert n / 0x100 == hi * 0x1_0000 + mid * 0x100 + low;
    assert n / 0x1_0000 == hi * 0x100 + mid;
  }

  /** The number that octets stand for, most significant first. */
  function BigEndian(b: seq<Octet>): nat {
    if b == [] then 0 else BigEndian(b[..|b| - 1]) * 0x100 + b[|b| - 1]
  }

  lemma BigEndianOfTwo(b: seq<Octet>)
    requires |b| == 2
    ensures BigEndian(b) == (b[0] as int) * 0x100 + b[1]
  {
    assert b[..1][..0] == [];
    assert BigEndian(b[..1]) == b[0];
  }

  lemma BigEndianOfFour(b: seq<Octet>)
    requires |b| == 4
    ensures BigEndian(b) == U32At(b)
  {
    assert b[..3][..2] == b[..2];
    BigEndianOfTwo(b[..2]);
    assert BigEndian(b[..3]) == BigEndian(b[..2]) * 0x100 + b[2];
  }

  function Flatten(ss: seq<seq<Octet>>): seq<Octet> {
    if ss == [] then [] else ss[0] + Flatten(ss[1..])
  }

  lemma {:induction false} FlattenAppend(ss: seq<seq<Octet>>, tt: seq<seq<Octet>>)
    ensures Flatten(ss + tt) == Flatten(ss) + Flatten(tt)
  {
    if ss == [] {
      assert ss + tt == tt;
    } else {
      assert (ss + tt)[1..] == ss[1..] + tt;
      FlattenAppend(ss[1..], tt);
    }
  }

  lemma FlattenSnoc(ss: seq<seq<Octet>>, t: seq<Octet>)
    ensures Flatten(ss + [t]) == Flatten(ss) + t
  {
    FlattenAppend(ss, [t]);
    assert Flatten([t]) == t + Flatten([]);
  }

  lemma Regroup(a: seq<Octet>, b: seq<Octet>, c: seq<Octet>)
    ensures a + (b + c) == (a + b) + c
  {
  }

  /** std::vector<uint8_t>, as far as the serializers use it. */
  class OctetVector {
    var bytes: seq<Octet>

    constructor ()
      ensures bytes == []
    {
      bytes := [];
    }

    method PushBack(b: Octet)
      modifies this
      ensures bytes == old(bytes) + [b]
    {
      bytes := bytes + [b];
    }

    method Insert(bs: seq<Octet>)
      modifies this
      ensures bytes == old(bytes) + bs
    {
      bytes := bytes + bs;
    }
  }

  /** std::span<const uint8_t>, which the deserializers advance. */
  class OctetSpan {
    var bytes: seq<Octet>

    constructor (b: seq<Octet>)
      ensures bytes == b
    {
      bytes := b;
    }

    method DropFirst(n: nat)
      requires n <= |bytes|
      modifies this
      ensures bytes == old(bytes)[n..]
    {
      bytes := bytes[n..];
    }
  }
}
