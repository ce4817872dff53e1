/** The GSM 03.38 to UCS-2 converter (3GPP TS 23.038, section 6.2.1). */
module GsmConverter {
  import opened Octets

  type Septet = x: int | 0 <= x < 0x80

  const ESCAPE: Septet := 0x1B

  /** The default alphabet. */
  function Basic(septet: Septet): U16
  {
    match septet
    case 0x00 => 0x0040
    case 0x01 => 0x00A3
    case 0x02 => 0x0024
    case 0x03 => 0x00A5
    case 0x04 => 0x00E8
    case 0x05 => 0x00E9
    case 0x06 => 0x00F9
    case 0x07 => 0x00EC
    case 0x08 => 0x00F2
    case 0x09 => 0x00E7
    case 0x0A => 0x000A
    case 0x0B => 0x00D8
    case 0x0C => 0x00F8
    case 0x0D => 0x000D
    case 0x0E => 0x00C5
    case 0x0F => 0x00E5
    case 0x10 => 0x0394
    case 0x11 => 0x005F
    case 0x12 => 0x03A6
    case 0x13 => 0x0393
    case 0x14 => 0x039B
    case 0x15 => 0x03A9
    case 0x16 => 0x03A0
    case 0x17 => 0x03A8
    case 0x18 => 0x03A3
    case 0x19 => 0x0398
    case 0x1A => 0x039E
    case 0x1B => 0x00A0
    case 0x1C => 0x00C6
    case 0x1D => 0x00E6
    case 0x1E => 0x00DF
    case 0x1F => 0x00C9
    case 0x20 => 0x0020
    case 0x21 => 0x0021
    case 0x22 => 0x0022
    case 0x23 => 0x0023
    case 0x24 => 0x00A4
    case 0x25 => 0x0025
    case 0x26 => 0x0026
    case 0x27 => 0x0027
    case 0x28 => 0x0028
    case 0x29 => 0x0029
    case 0x2A => 0x002A
    case 0x2B => 0x002B
    case 0x2C => 0x002C
    case 0x2D => 0x002D
    case 0x2E => 0x002E
    case 0x2F => 0x002F
    case 0x30 => 0x0030
    case 0x31 => 0x0031
    case 0x32 => 0x0032
    case 0x33 => 0x0033
    case 0x34 => 0x0034
    case 0x35 => 0x0035
    case 0x36 => 0x0036
    case 0x37 => 0x0037
    case 0x38 => 0x0038
    case 0x39 => 0x0039
    case 0x3A => 0x003A
    case 0x3B => 0x003B
    case 0x3C => 0x003C
    case 0x3D => 0x003D
    case 0x3E => 0x003E
    case 0x3F => 0x003F
    case 0x40 => 0x00A1
    case 0x41 => 0x0041
    case 0x42 => 0x0042
    case 0x43 => 0x0043
    case 0x44 => 0x0044
    case 0x45 => 0x0045
    case 0x46 => 0x0046
    case 0x47 => 0x0047
    case 0x48 => 0x0048
    case 0x49 => 0x0049
    case 0x4A => 0x004A
    case 0x4B => 0x004B
    case 0x4C => 0x004C
    case 0x4D => 0x004D
    case 0x4E => 0x004E
    case 0x4F => 0x004F
    case 0x50 => 0x0050
    case 0x51 => 0x0051
    case 0x52 => 0x0052
    case 0x53 => 0x0053
    case 0x54 => 0x0054
    case 0x55 => 0x0055
    case 0x56 => 0x0056
    case 0x57 => 0x0057
    case 0x58 => 0x0058
    case 0x59 => 0x0059
    case 0x5A => 0x005A
    case 0x5B => 0x00C4
    case 0x5C => 0x00D6
    case 0x5D => 0x00D1
    case 0x5E => 0x00DC
    case 0x5F => 0x00A7
    case 0x60 => 0x00BF
    case 0x61 => 0x0061
    case 0x62 => 0x0062
    case 0x63 => 0x0063
    case 0x64 => 0x0064
    case 0x65 => 0x0065
    case 0x66 => 0x0066
    case 0x67 => 0x0067
    case 0x68 => 0x0068
    case 0x69 => 0x0069
    case 0x6A => 0x006A
    case 0x6B => 0x006B
    case 0x6C => 0x006C
    case 0x6D => 0x006D
    case 0x6E => 0x006E
    case 0x6F => 0x006F
    case 0x70 => 0x0070
    case 0x71 => 0x0071
    case 0x72 => 0x0072
    case 0x73 => 0x0073
    case 0x74 => 0x0074
    case 0x75 => 0x0075
    case 0x76 => 0x0076
    case 0x77 => 0x0077
    case 0x78 => 0x0078
    case 0x79 => 0x0079
    case 0x7A => 0x007A
    case 0x7B => 0x00E4
    case 0x7C => 0x00F6
    case 0x7D => 0x00F1
    case 0x7E => 0x00FC
    case _ => 0x00E0
  }

  /** The extension table: ten characters, and a space for everything else. */
  function Extended(septet: Septet): U16
  {
    match septet
    case 0x0A => 0x000C
    case 0x14 => 0x005E
    case 0x28 => 0x007B
    case 0x29 => 0x007D
    case 0x2F => 0x005C
    case 0x3C => 0x005B
    case 0x3D => 0x007E
    case 0x3E => 0x005D
    case 0x40 => 0x007C
    case 0x65 => 0x20AC
    case _ => 0x0020
  }

  /** The pairs of the extension table that are defined. */
  predicate IsDefinedPair(septet: Septet) {
    septet in {0x0A, 0x14, 0x28, 0x29, 0x2F, 0x3C, 0x3D, 0x3E, 0x40, 0x65}
  }

  function Word(code: U16): seq<Octet> {
    [code / 0x100, code % 0x100]
  }

  /** The input without the octets above 127. */
  function Septets(body: seq<Octet>): (s: seq<Septet>)
    ensures |s| <= |body|
  {
    if body == [] then []
    else (if body[0] > 127 then [] else [body[0]]) + Septets(body[1..])
  }

  /** Reads one token at a time: an escape and the septet after it, or a septet.
      A trailing escape is dropped. */
  function DecodeTokens(s: seq<Septet>): seq<Octet>
    decreases |s|
  {
    if s == [] then []
    else if s[0] == ESCAPE then
      if |s| == 1 then [] else Word(Extended(s[1])) + DecodeTokens(s[2..])
    else Word(Basic(s[0])) + DecodeTokens(s[1..])
  }

  function Convert(body: seq<Octet>): seq<Octet> {
    DecodeTokens(Septets(body))
  }

  /** The loop over the characters with its one flag is the token decoder. */
  method ConvertGsmToUcs2(body: seq<Octet>) returns (ucs2: seq<Octet>)
    ensures ucs2 == Convert(body)
  {
    hide Basic, Extended, Septets, DecodeTokens;
    ucs2 := [];
    var extended := false;
    assert body[0..] == body;
    for i := 0 to |body|
      invariant Convert(body) == ucs2 + DecodeFrom(extended, Septets(body[i..]))
    {
      var septet := body[i];
      ghost var rest := Septets(body[i + 1..]);
      SeptetsFrom(body, i);
      if septet > 127 {
        continue;
      }
      if !extended && septet == ESCAPE {
        extended := true;
        continue;
      }
      var code := if extended then Extended(septet) else Basic(septet);
      StepOfDecoder(extended, septet, rest);
      assert ucs2 + (Word(code) + DecodeTokens(rest)) == (ucs2 + Word(code)) + DecodeTokens(rest);
      ucs2 := ucs2 + [code / 0x100, code % 0x100];
      extended := false;
    }
    NothingLeft(extended, body);
  }

  lemma SeptetsFrom(body: seq<Octet>, i: nat)
    requires i < |body|
    ensures Septets(body[i..]) == if body[i] > 127 then Septets(body[i + 1..]) else [body[i]] + Septets(body[i + 1..])
  {
    assert body[i..][1..] == body[i + 1..];
  }

  lemma NothingLeft(extended: bool, body: seq<Octet>)
    ensures DecodeFrom(extended, Septets(body[|body|..])) == []
  {
  }

  /** What is still to come, with the escape already read or not. */
  ghost function DecodeFrom(extended: bool, s: seq<Septet>): seq<Octet> {
    if extended then DecodeTokens([ESCAPE] + s) else DecodeTokens(s)
  }

  lemma StepOfDecoder(extended: bool, septet: Septet, rest: seq<Septet>)
    requires !extended ==> septet != ESCAPE
    ensures DecodeFrom(extended, [septet] + rest)
         == Word(if extended then Extended(septet) else Basic(septet)) + DecodeTokens(rest)
  {
    hide Basic, Extended;
    if extended {
      assert ([ESCAPE] + ([septet] + rest))[2..] == rest;
    } else {
      assert ([septet] + rest)[1..] == rest;
    }
  }

  /** `s` ends in an escape that awaits its second septet. */
  predicate OpenEscape(s: seq<Septet>)
    decreases |s|
  {
    s != [] && if s[0] == ESCAPE then |s| == 1 || OpenEscape(s[2..]) else OpenEscape(s[1..])
  }

  lemma {:induction false} DecodeAppend(s: seq<Septet>, t: seq<Septet>)
    requires !OpenEscape(s)
    ensures DecodeTokens(s + t) == DecodeTokens(s) + DecodeTokens(t)
    decreases |s|
  {
    if s == [] {
      assert s + t == t;
    } else if s[0] == ESCAPE {
      assert (s + t)[2..] == s[2..] + t;
      DecodeAppend(s[2..], t);
    } else {
      assert (s + t)[1..] == s[1..] + t;
      DecodeAppend(s[1..], t);
    }
  }

  lemma {:induction false} SeptetsAppend(a: seq<Octet>, b: seq<Octet>)
    ensures Septets(a + b) == Septets(a) + Septets(b)
  {
    if a == [] {
      assert a + b == b;
    } else {
      assert (a + b)[1..] == a[1..] + b;
      SeptetsAppend(a[1..], b);
      var head: seq<Septet> := if a[0] > 127 then [] else [a[0]];
      assert Septets(a + b) == head + Septets(a[1..] + b);
      assert Septets(a) == head + Septets(a[1..]);
    }
  }

  /** A message converts piecewise as long as no escape pair is cut. */
  lemma {:induction false} ConvertAppend(a: seq<Octet>, b: seq<Octet>)
    requires !OpenEscape(Septets(a))
    ensures Convert(a + b) == Convert(a) + Convert(b)
  {
    SeptetsAppend(a, b);
    DecodeAppend(Septets(a), Septets(b));
  }

  lemma {:induction false} DecodeLength(s: seq<Septet>)
    ensures |DecodeTokens(s)| % 2 == 0 && |DecodeTokens(s)| <= 2 * |s|
    decreases |s|
  {
    if s != [] {
      if s[0] != ESCAPE {
        DecodeLength(s[1..]);
      } else if |s| > 1 {
        DecodeLength(s[2..]);
      }
    }
  }

  /** The output is whole UCS-2 words, at most one for each input octet. */
  lemma {:induction false} ConvertLength(body: seq<Octet>)
    ensures |Convert(body)| % 2 == 0 && |Convert(body)| <= 2 * |body|
  {
    DecodeLength(Septets(body));
  }

  // -------------------------------------------------------------------------
  // Character by character

  /** Each character is one big-endian word: of a septet that is no escape, its entry in
      the default alphabet; of an escape and a septet, the septet's entry in the
      extension table; and of an escape with nothing behind it, nothing. */
  lemma ConvertOne(septet: Septet)
    ensures septet != ESCAPE ==> |Convert([septet])| == 2 && BigEndian(Convert([septet])) == Basic(septet)
    ensures |Convert([ESCAPE, septet])| == 2 && BigEndian(Convert([ESCAPE, septet])) == Extended(septet)
    ensures Convert([ESCAPE]) == []
  {
    hide Basic, Extended;
    SeptetsOfOne(septet);
    SeptetsOfOne(ESCAPE);
    assert Septets([septet]) == [septet] && Septets([ESCAPE, septet]) == [ESCAPE, septet] by {
      SeptetsAppend([ESCAPE], [septet]);
      assert [ESCAPE] + [septet] == [ESCAPE, septet];
    }
    assert [ESCAPE, septet][2..] == [] && [septet][1..] == [];
    if septet != ESCAPE {
      var one: seq<Septet> := [septet];
      assert one[1..] == [];
      assert DecodeTokens(one) == Word(Basic(septet)) + DecodeTokens(one[1..]);
      assert Word(Basic(septet)) + [] == Word(Basic(septet));
      BigEndianOfTwo(Word(Basic(septet)));
    }
    assert Convert([ESCAPE, septet]) == Word(Extended(septet)) + DecodeTokens([]);
    assert Word(Extended(septet)) + [] == Word(Extended(septet));
    BigEndianOfTwo(Word(Extended(septet)));
  }

  lemma SeptetsOfOne(septet: Septet)
    ensures Septets([septet]) == [septet]
  {
  }

  /** Octets above 127 are skipped wherever they stand, even within a pair. */
  lemma HighOctetsAreSkipped(a: seq<Octet>, x: Octet, b: seq<Octet>)
    requires x > 127
    ensures Convert(a + [x] + b) == Convert(a + b)
  {
    SeptetsAppend(a + [x], b);
    SeptetsAppend(a, [x]);
    SeptetsAppend(a, b);
    assert Septets([x]) == [];
    assert Septets(a) + [] == Septets(a);
  }

  /** What the extension table does not define becomes a space. */
  lemma UndefinedPairIsSpace(septet: Septet)
    ensures !IsDefinedPair(septet) <==> Extended(septet) == 0x0020
  {
  }

  /** Digits, letters and the punctuation that the alphabets share stay what they are. */
  lemma AsciiStays(septet: Septet)
    requires 0x20 <= septet <= 0x7A && septet != 0x24 && septet != 0x40 && !(0x5B <= septet <= 0x60)
    ensures Basic(septet) == septet
  {
  }

  // -------------------------------------------------------------------------
  // Going back

  /** The septets of one character, if the alphabet has it. */
  function Unconvert(code: U16): seq<Octet> {
    match code
    case 0x0040 => [0x00]
    case 0x00A3 => [0x01]
    case 0x0024 => [0x02]
    case 0x00A5 => [0x03]
    case 0x00E8 => [0x04]
    case 0x00E9 => [0x05]
    case 0x00F9 => [0x06]
    case 0x00EC => [0x07]
    case 0x00F2 => [0x08]
    case 0x00E7 => [0x09]
    case 0x000A => [0x0A]
    case 0x00D8 => [0x0B]
    case 0x00F8 => [0x0C]
    case 0x000D => [0x0D]
    case 0x00C5 => [0x0E]
    case 0x00E5 => [0x0F]
    case 0x0394 => [0x10]
    case 0x005F => [0x11]
    case 0x03A6 => [0x12]
    case 0x0393 => [0x13]
    case 0x039B => [0x14]
    case 0x03A9 => [0x15]
    case 0x03A0 => [0x16]
    case 0x03A8 => [0x17]
    case 0x03A3 => [0x18]
    case 0x0398 => [0x19]
    case 0x039E => [0x1A]
    case 0x00C6 => [0x1C]
    case 0x00E6 => [0x1D]
    case 0x00DF => [0x1E]
    case 0x00C9 => [0x1F]
    case 0x0020 => [0x20]
    case 0x0021 => [0x21]
    case 0x0022 => [0x22]
    case 0x0023 => [0x23]
    case 0x00A4 => [0x24]
    case 0x0025 => [0x25]
    case 0x0026 => [0x26]
    case 0x0027 => [0x27]
    case 0x0028 => [0x28]
    case 0x0029 => [0x29]
    case 0x002A => [0x2A]
    case 0x002B => [0x2B]
    case 0x002C => [0x2C]
    case 0x002D => [0x2D]
    case 0x002E => [0x2E]
    case 0x002F => [0x2F]
    case 0x0030 => [0x30]
    case 0x0031 => [0x31]
    case 0x0032 => [0x32]
    case 0x0033 => [0x33]
    case 0x0034 => [0x34]
    case 0x0035 => [0x35]
    case 0x0036 => [0x36]
    case 0x0037 => [0x37]
    case 0x0038 => [0x38]
    case 0x0039 => [0x39]
    case 0x003A => [0x3A]
    case 0x003B => [0x3B]
    case 0x003C => [0x3C]
    case 0x003D => [0x3D]
    case 0x003E => [0x3E]
    case 0x003F => [0x3F]
    case 0x00A1 => [0x40]
    case 0x0041 => [0x41]
    case 0x0042 => [0x42]
    case 0x0043 => [0x43]
    case 0x0044 => [0x44]
    case 0x0045 => [0x45]
    case 0x0046 => [0x46]
    case 0x0047 => [0x47]
    case 0x0048 => [0x48]
    case 0x0049 => [0x49]
    case 0x004A => [0x4A]
    case 0x004B => [0x4B]
    case 0x004C => [0x4C]
    case 0x004D => [0x4D]
    case 0x004E => [0x4E]
    case 0x004F => [0x4F]
    case 0x0050 => [0x50]
    case 0x0051 => [0x51]
    case 0x0052 => [0x52]
    case 0x0053 => [0x53]
    case 0x0054 => [0x54]
    case 0x0055 => [0x55]
    case 0x0056 => [0x56]
    case 0x0057 => [0x57]
    case 0x0058 => [0x58]
    case 0x0059 => [0x59]
    case 0x005A => [0x5A]
    case 0x00C4 => [0x5B]
    case 0x00D6 => [0x5C]
    case 0x00D1 => [0x5D]
    case 0x00DC => [0x5E]
    case 0x00A7 => [0x5F]
    case 0x00BF => [0x60]
    case 0x0061 => [0x61]
    case 0x0062 => [0x62]
    case 0x0063 => [0x63]
    case 0x0064 => [0x64]
    case 0x0065 => [0x65]
    case 0x0066 => [0x66]
    case 0x0067 => [0x67]
    case 0x0068 => [0x68]
    case 0x0069 => [0x69]
    case 0x006A => [0x6A]
    case 0x006B => [0x6B]
    case 0x006C => [0x6C]
    case 0x006D => [0x6D]
    case 0x006E => [0x6E]
    case 0x006F => [0x6F]
    case 0x0070 => [0x70]
    case 0x0071 => [0x71]
    case 0x0072 => [0x72]
    case 0x0073 => [0x73]
    case 0x0074 => [0x74]
    case 0x0075 => [0x75]
    case 0x0076 => [0x76]
    case 0x0077 => [0x77]
    case 0x0078 => [0x78]
    case 0x0079 => [0x79]
    case 0x007A => [0x7A]
    case 0x00E4 => [0x7B]
    case 0x00F6 => [0x7C]
    case 0x00F1 => [0x7D]
    case 0x00FC => [0x7E]
    case 0x00E0 => [0x7F]
    case 0x000C => [ESCAPE, 0x0A]
    case 0x005E => [ESCAPE, 0x14]
    case 0x007B => [ESCAPE, 0x28]
    case 0x007D => [ESCAPE, 0x29]
    case 0x005C => [ESCAPE, 0x2F]
    case 0x005B => [ESCAPE, 0x3C]
    case 0x007E => [ESCAPE, 0x3D]
    case 0x005D => [ESCAPE, 0x3E]
    case 0x007C => [ESCAPE, 0x40]
    case 0x20AC => [ESCAPE, 0x65]
    case _ => []
  }

  lemma UnconvertBasic(septet: Septet)
    requires septet != ESCAPE
    ensures Unconvert(Basic(septet)) == [septet]
  {
  }

  lemma UnconvertExtended(septet: Septet)
    requires IsDefinedPair(septet)
    ensures Unconvert(Extended(septet)) == [ESCAPE, septet]
  {
    if septet < 0x29 {
      assert septet in {0x0A, 0x14, 0x28};
    } else if septet < 0x3D {
      assert septet in {0x29, 0x2F, 0x3C};
    } else {
      assert septet in {0x3D, 0x3E, 0x40, 0x65};
    }
  }

  function UnconvertAll(ucs2: seq<Octet>): seq<Octet>
    decreases |ucs2|
  {
    if |ucs2| < 2 then [] else Unconvert(U16At(ucs2)) + UnconvertAll(ucs2[2..])
  }

  /** Septets only, no escape left open, and only defined pairs. */
  predicate WellEscaped(s: seq<Octet>)
    decreases |s|
  {
    s == [] ||
    if s[0] == ESCAPE then |s| > 1 && s[1] < 0x80 && IsDefinedPair(s[1]) && WellEscaped(s[2..])
    else s[0] < 0x80 && WellEscaped(s[1..])
  }

  lemma {:induction false} WellEscapedIsSeptets(s: seq<Octet>)
    requires WellEscaped(s)
    ensures Septets(s) == s
    decreases |s|
  {
    if s != [] {
      if s[0] == ESCAPE {
        WellEscapedIsSeptets(s[2..]);
        assert s[1..][1..] == s[2..];
        assert Septets(s[1..]) == [s[1]] + Septets(s[2..]);
        assert s == [s[0]] + ([s[1]] + s[2..]);
      } else {
        WellEscapedIsSeptets(s[1..]);
      }
    }
  }

  lemma {:induction false} UnconvertDecoded(s: seq<Septet>)
    requires WellEscaped(s)
    ensures UnconvertAll(DecodeTokens(s)) == s
    decreases |s|
  {
    if s != [] {
      var code, n := if s[0] == ESCAPE then Extended(s[1]) else Basic(s[0]), if s[0] == ESCAPE then 2 else 1;
      var out := DecodeTokens(s);
      assert out == Word(code) + DecodeTokens(s[n..]);
      assert out[2..] == DecodeTokens(s[n..]);
      assert U16At(out) == code;
      if s[0] == ESCAPE {
        UnconvertExtended(s[1]);
      } else {
        UnconvertBasic(s[0]);
      }
      UnconvertDecoded(s[n..]);
      assert s == s[..n] + s[n..];
    }
  }

  /** On well-escaped messages nothing is lost: the input can be computed from
      the output, so no two of them convert alike. */
  lemma {:induction false} ConvertIsInvertible(body: seq<Octet>)
    requires WellEscaped(body)
    ensures UnconvertAll(Convert(body)) == body
  {
    WellEscapedIsSeptets(body);
    UnconvertDecoded(body);
  }

  lemma {:induction false} ConvertIsInjective(a: seq<Octet>, b: seq<Octet>)
    requires WellEscaped(a) && WellEscaped(b) && Convert(a) == Convert(b)
    ensures a == b
  {
    ConvertIsInvertible(a);
    ConvertIsInvertible(b);
  }
}
