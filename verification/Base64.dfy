/** The Base64 codec (src/cbase64.cpp): section 4 of RFC 4648 over bit streams, and the buffer-filling encoder and
    decoder proved against it. */
module Base64 {
  import opened Basics
  import opened BitStream

  const PAD: byte := 61 // '='

  // ----- alphabet

  /** `basis_64`. */
  function Basis64(v: byte): (c: byte)
    requires v < 64
    ensures InAlphabet(c) && Pr2Six(c) == v
  {
    if v < 26 then v + 65 else if v < 52 then v + 71 else if v < 62 then v - 4 else if v == 62 then 43 else 47
  }

  /** `pr2six`: the value of an alphabet character, 64 for anything else. */
  function Pr2Six(c: byte): (v: byte)
    ensures v <= 64
  {
    if 65 <= c <= 90 then c - 65
    else if 97 <= c <= 122 then c - 71
    else if 48 <= c <= 57 then c + 4
    else if c == 43 then 62
    else if c == 47 then 63
    else 64
  }

  predicate InAlphabet(c: byte) {
    Pr2Six(c) < 64
  }

  /** The encoding table, character by character: Table 1 of RFC 4648. */
  lemma AlphabetTable()
    // ABCDEFGH
    ensures Basis64(0) == 65 && Basis64(1) == 66 && Basis64(2) == 67 && Basis64(3) == 68
    ensures Basis64(4) == 69 && Basis64(5) == 70 && Basis64(6) == 71 && Basis64(7) == 72
    // IJKLMNOP
    ensures Basis64(8) == 73 && Basis64(9) == 74 && Basis64(10) == 75 && Basis64(11) == 76
    ensures Basis64(12) == 77 && Basis64(13) == 78 && Basis64(14) == 79 && Basis64(15) == 80
    // QRSTUVWX
    ensures Basis64(16) == 81 && Basis64(17) == 82 && Basis64(18) == 83 && Basis64(19) == 84
    ensures Basis64(20) == 85 && Basis64(21) == 86 && Basis64(22) == 87 && Basis64(23) == 88
    // YZabcdef
    ensures Basis64(24) == 89 && Basis64(25) == 90 && Basis64(26) == 97 && Basis64(27) == 98
    ensures Basis64(28) == 99 && Basis64(29) == 100 && Basis64(30) == 101 && Basis64(31) == 102
    // ghijklmn
    ensures Basis64(32) == 103 && Basis64(33) == 104 && Basis64(34) == 105 && Basis64(35) == 106
    ensures Basis64(36) == 107 && Basis64(37) == 108 && Basis64(38) == 109 && Basis64(39) == 110
    // opqrstuv
    ensures Basis64(40) == 111 && Basis64(41) == 112 && Basis64(42) == 113 && Basis64(43) == 114
    ensures Basis64(44) == 115 && Basis64(45) == 116 && Basis64(46) == 117 && Basis64(47) == 118
    // wxyz0123
    ensures Basis64(48) == 119 && Basis64(49) == 120 && Basis64(50) == 121 && Basis64(51) == 122
    ensures Basis64(52) == 48 && Basis64(53) == 49 && Basis64(54) == 50 && Basis64(55) == 51
    // 456789+/
    ensures Basis64(56) == 52 && Basis64(57) == 53 && Basis64(58) == 54 && Basis64(59) == 55
    ensures Basis64(60) == 56 && Basis64(61) == 57 && Basis64(62) == 43 && Basis64(63) == 47
  {
  }

  predicate IsRun(text: seq<byte>) {
    forall i :: 0 <= i < |text| ==> InAlphabet(text[i])
  }

  lemma BasisOfPr2Six(c: byte)
    requires InAlphabet(c)
    ensures Basis64(Pr2Six(c)) == c
  {
  }

  function Chars(values: seq<byte>): (text: seq<byte>)
    requires AreSextets(values)
    ensures |text| == |values|
  {
    seq(|values|, i requires 0 <= i < |values| => Basis64(values[i]))
  }

  function Values(text: seq<byte>): (values: seq<byte>)
    requires IsRun(text)
    ensures |values| == |text|
    ensures AreSextets(values)
  {
    seq(|text|, i requires 0 <= i < |text| => Pr2Six(text[i]))
  }

  // ----- section 4 of RFC 4648

  /** The bits of the input in groups of six, and '=' up to a multiple of four characters. */
  function RfcEncode(bytes: seq<byte>): seq<byte> {
    Chars(Sextets(BytesToBits(bytes))) + Padding(|bytes|)
  }

  function Padding(n: nat): seq<byte> {
    if n % 3 == 0 then [] else if n % 3 == 1 then [PAD, PAD] else [PAD]
  }

  /** The complete bytes spelt by a run of alphabet characters. */
  function RfcDecode(run: seq<byte>): (bytes: seq<byte>)
    requires IsRun(run)
    ensures |bytes| == 3 * |run| / 4
  {
    Octets(SextetsToBits(Values(run)))
  }

  /** The longest prefix of alphabet characters, which is what the decoder looks at. */
  function Run(text: seq<byte>): (run: seq<byte>)
    ensures run <= text
    ensures IsRun(run)
    ensures |run| < |text| ==> !InAlphabet(text[|run|])
  {
    if text == [] || !InAlphabet(text[0]) then [] else [text[0]] + Run(text[1..])
  }

  lemma {:induction false} RunIs(run: seq<byte>, rest: seq<byte>)
    requires IsRun(run)
    requires rest != [] ==> !InAlphabet(rest[0])
    ensures Run(run + rest) == run
  {
    if run == [] {
      assert run + rest == rest;
    } else {
      RunIs(run[1..], rest);
      assert (run + rest)[1..] == run[1..] + rest;
    }
  }

  /** An encoding is filled up with '=' to a multiple of four characters: two behind a single leftover byte, one behind
      two, and none otherwise. */
  lemma PaddedWithEquals(bytes: seq<byte>)
    ensures var text, n := RfcEncode(bytes), |Sextets(BytesToBits(bytes))|;
            && |text| % 4 == 0 && n <= |text| && IsRun(text[..n])
            && text[n..] == if |bytes| % 3 == 0 then [] else if |bytes| % 3 == 1 then [61, 61] else [61]
  {
    RfcEncodeLength(bytes);
    hide Sextets, BytesToBits;
    var chars := Chars(Sextets(BytesToBits(bytes)));
    assert RfcEncode(bytes)[..|chars|] == chars;
  }

  // ----- lengths

  function EncodeLen(len: nat): nat {
    (len + 2) / 3 * 4 + 1
  }

  lemma RfcEncodeLength(bytes: seq<byte>)
    ensures |RfcEncode(bytes)| == EncodeLen(|bytes|) - 1
  {
    hide Sextets, BytesToBits, Chars;
    var q := |bytes| / 3;
    assert |bytes| == 3 * q + |bytes| % 3;
    assert |Sextets(BytesToBits(bytes))| == (8 * |bytes| + 5) / 6;
  }

  // ----- the two directions cancel

  lemma ValuesOfChars(values: seq<byte>)
    requires AreSextets(values)
    ensures IsRun(Chars(values))
    ensures Values(Chars(values)) == values
  {
    hide Basis64;
    assert forall k :: 0 <= k < |values| ==> Chars(values)[k] == Basis64(values[k]);
  }

  lemma PaddingIsForeign(n: nat, rest: seq<byte>)
    requires rest != [] ==> !InAlphabet(rest[0])
    ensures Padding(n) + rest != [] ==> !InAlphabet((Padding(n) + rest)[0])
  {
  }

  lemma RunOfEncoding(bytes: seq<byte>, rest: seq<byte>)
    requires rest != [] ==> !InAlphabet(rest[0])
    ensures var values := Sextets(BytesToBits(bytes));
            Run(RfcEncode(bytes) + rest) == Chars(values) && Values(Chars(values)) == values
  {
    hide BytesToBits, Sextets, Run;
    var values := Sextets(BytesToBits(bytes));
    ValuesOfChars(values);
    PaddingIsForeign(|bytes|, rest);
    hide Pr2Six, Basis64, Chars, Padding, Values;
    Reassociate(Chars(values), Padding(|bytes|), rest);
    RunIs(Chars(values), Padding(|bytes|) + rest);
  }

  /** Decoding an encoding gives the original bytes back, whatever non-alphabet text follows the encoding. */
  lemma DecodeEncode(bytes: seq<byte>, rest: seq<byte>)
    requires rest != [] ==> !InAlphabet(rest[0])
    ensures Run(RfcEncode(bytes) + rest) == Chars(Sextets(BytesToBits(bytes)))
    ensures RfcDecode(Run(RfcEncode(bytes) + rest)) == bytes
  {
    hide Octets, BytesToBits, SextetsToBits, Sextets, Run, Pr2Six, Basis64;
    RunOfEncoding(bytes, rest);
    var fill := BitsOfSextets(BytesToBits(bytes));
    OctetsOfBytes(bytes, fill);
  }

  /** Canonical text (section 3.5 of RFC 4648): an alphabet run that is not 1 mod 4, the '=' it needs, and zeros in
      the bits behind the last complete byte. */
  ghost predicate Canonical(text: seq<byte>) {
    var run := Run(text);
    var bits := SextetsToBits(Values(run));
    && |run| % 4 != 1
    && text == run + Padding(3 * |run| / 4)
    && AllZero(bits[|bits| / 8 * 8..])
  }

  lemma EncodeIsCanonical(bytes: seq<byte>)
    ensures Canonical(RfcEncode(bytes))
  {
    hide Octets, BytesToBits, SextetsToBits, Sextets, Run, Pr2Six, Basis64;
    var text := RfcEncode(bytes);
    DecodeEncode(bytes, []);
    assert text + [] == text;
    var q := Sextets(BytesToBits(bytes));
    assert Values(Chars(q)) == q;
    var fill := BitsOfSextets(BytesToBits(bytes));
    var bits := SextetsToBits(q);
    assert bits[|bits| / 8 * 8..] == fill;
  }

  /** Encoding a decoded text reproduces it exactly when it is canonical. */
  lemma EncodeDecodeExactlyWhen(text: seq<byte>)
    ensures RfcEncode(RfcDecode(Run(text))) == text <==> Canonical(text)
  {
    if Canonical(text) {
      CanonicalRun(Run(text));
    }
    if RfcEncode(RfcDecode(Run(text))) == text {
      EncodeIsCanonical(RfcDecode(Run(text)));
    }
  }

  /** A run that is not 1 mod 4 and ends in zero bits is the unpadded encoding of the bytes it spells. */
  lemma CanonicalRun(run: seq<byte>)
    requires IsRun(run)
    requires |run| % 4 != 1
    requires var bits := SextetsToBits(Values(run)); AllZero(bits[|bits| / 8 * 8..])
    ensures Chars(Sextets(BytesToBits(RfcDecode(run)))) == run
  {
    hide Octets, SextetsToBits, BytesToBits, Sextets, Basis64, Pr2Six;
    var bits := SextetsToBits(Values(run));
    var kept := bits[..|bits| / 8 * 8];
    var fill := bits[|bits| / 8 * 8..];
    assert bits == kept + fill;
    BytesOfOctets(bits);
    SextetsOfValues(Values(run), kept, fill);
    forall i | 0 <= i < |run| ensures Basis64(Pr2Six(run[i])) == run[i] {
      BasisOfPr2Six(run[i]);
    }
  }

  /** Any other text is turned into a canonical one that decodes to the same bytes. */
  lemma ReencodingIsCanonical(text: seq<byte>)
    ensures var again := RfcEncode(RfcDecode(Run(text)));
            Canonical(again) && RfcDecode(Run(again)) == RfcDecode(Run(text))
  {
    var bytes := RfcDecode(Run(text));
    EncodeIsCanonical(bytes);
    DecodeEncode(bytes, []);
    assert RfcEncode(bytes) + [] == RfcEncode(bytes);
  }

  /** The complete bytes of a stream spell its bits, up to the incomplete byte. */
  lemma {:induction false} BytesOfOctets(bits: seq<bool>)
    ensures BytesToBits(Octets(bits)) == bits[..|bits| / 8 * 8]
  {
    if |bits| < 8 {
    } else {
      BytesOfOctets(bits[8..]);
      Bits8OfByte(bits[..8]);
      assert Octets(bits)[1..] == Octets(bits[8..]);
      assert bits[..|bits| / 8 * 8] == bits[..8] + bits[8..][..|bits[8..]| / 8 * 8];
    }
  }

  lemma Bits8OfByte(bits: seq<bool>)
    requires |bits| == 8
    ensures Bits8(ByteOf(bits)) == bits
  {
  }

  // ----- base64encode

  /** C promotes a `char` to a 32-bit `int`; on the target `char` is signed. */
  function Promote(b: byte): bv32 {
    if b >= 0x80 then 0xFFFF_FF00 | (b as bv32) else b as bv32
  }

  /** A character from 128 on is negative: 256 less than its byte, modulo 2^32. */
  lemma PromoteExtendsSign(b: byte)
    ensures b < 128 ==> Promote(b) == b as bv32
    ensures b >= 128 ==> Promote(b) + 256 == b as bv32
  {
  }

  /** The four sextets the encoder computes from three characters. */
  function First(b0: byte): byte {
    ((Promote(b0) >> 2) & 0x3F) as byte
  }

  function Second(b0: byte, b1: byte): byte {
    (((Promote(b0) & 0x3) << 4) | ((Promote(b1) & 0xF0) >> 4)) as byte
  }

  function Third(b1: byte, b2: byte): byte {
    (((Promote(b1) & 0xF) << 2) | ((Promote(b2) & 0xC0) >> 6)) as byte
  }

  function Fourth(b2: byte): byte {
    (Promote(b2) & 0x3F) as byte
  }

  /** Sign extension does not matter: every mask keeps to the low eight bits. */
  lemma SextetsOfSignedChars(b0: byte, b1: byte, b2: byte)
    ensures First(b0) == b0 >> 2 && Second(b0, b1) == ((b0 & 3) << 4) | (b1 >> 4)
    ensures Third(b1, b2) == ((b1 & 15) << 2) | (b2 >> 6) && Fourth(b2) == b2 & 63
    ensures First(b0) < 64 && Second(b0, b1) < 64 && Third(b1, b2) < 64 && Fourth(b2) < 64
  {
  }

  /** Three characters and their four sextets spell the same 24 bits. */
  lemma GroupBits(b0: byte, b1: byte, b2: byte)
    ensures First(b0) < 64 && Second(b0, b1) < 64 && Third(b1, b2) < 64 && Fourth(b2) < 64
    ensures Bits6(First(b0)) + Bits6(Second(b0, b1)) + Bits6(Third(b1, b2)) + Bits6(Fourth(b2))
         == Bits8(b0) + Bits8(b1) + Bits8(b2)
  {
    SextetsOfSignedChars(b0, b1, b2);
    hide First, Second, Third, Fourth, Bits8, Bits6;
    HeadBits(b0);
    MiddleBits(b0, b1);
    LaterBits(b1, b2);
    LastBits(b2);
    Regroup(Bits8(b0), Bits8(b1), Bits8(b2));
  }

  lemma Regroup(a: seq<bool>, b: seq<bool>, c: seq<bool>)
    requires |a| == |b| == |c| == 8
    ensures a[..6] + (a[6..] + b[..4]) + (b[4..] + c[..2]) + c[2..] == a + b + c
  {
  }

  lemma LastMasks(b2: byte)
    ensures var b := b2 & 63; On(b, 0x20) == On(b2, 0x20) && On(b, 0x10) == On(b2, 0x10)
    ensures var b := b2 & 63; On(b, 0x08) == On(b2, 0x08) && On(b, 0x04) == On(b2, 0x04)
    ensures var b := b2 & 63; On(b, 0x02) == On(b2, 0x02) && On(b, 0x01) == On(b2, 0x01)
  {
  }

  lemma LastBits(b2: byte)
    ensures Bits6(b2 & 63) == Bits8(b2)[2..]
  {
    LastMasks(b2);
    hide On, Bits6, Bits8;
  }

  lemma HeadMasks(b0: byte)
    ensures var b := b0 >> 2; On(b, 0x20) == On(b0, 0x80) && On(b, 0x10) == On(b0, 0x40)
    ensures var b := b0 >> 2; On(b, 0x08) == On(b0, 0x20) && On(b, 0x04) == On(b0, 0x10)
    ensures var b := b0 >> 2; On(b, 0x02) == On(b0, 0x08) && On(b, 0x01) == On(b0, 0x04)
  {
  }

  lemma HeadBits(b0: byte)
    ensures Bits6(b0 >> 2) == Bits8(b0)[..6]
  {
    HeadMasks(b0);
    hide On, Bits6, Bits8;
  }

  lemma MiddleMasks(b0: byte, b1: byte)
    ensures var b := ((b0 & 3) << 4) | (b1 >> 4); On(b, 0x20) == On(b0, 0x02) && On(b, 0x10) == On(b0, 0x01)
    ensures var b := ((b0 & 3) << 4) | (b1 >> 4); On(b, 0x08) == On(b1, 0x80) && On(b, 0x04) == On(b1, 0x40)
    ensures var b := ((b0 & 3) << 4) | (b1 >> 4); On(b, 0x02) == On(b1, 0x20) && On(b, 0x01) == On(b1, 0x10)
  {
  }

  lemma MiddleBits(b0: byte, b1: byte)
    ensures Bits6(((b0 & 3) << 4) | (b1 >> 4)) == Bits8(b0)[6..] + Bits8(b1)[..4]
  {
    MiddleMasks(b0, b1);
    hide On, Bits6, Bits8;
  }

  lemma LaterMasks(b1: byte, b2: byte)
    ensures var b := ((b1 & 15) << 2) | (b2 >> 6); On(b, 0x20) == On(b1, 0x08) && On(b, 0x10) == On(b1, 0x04)
    ensures var b := ((b1 & 15) << 2) | (b2 >> 6); On(b, 0x08) == On(b1, 0x02) && On(b, 0x04) == On(b1, 0x01)
    ensures var b := ((b1 & 15) << 2) | (b2 >> 6); On(b, 0x02) == On(b2, 0x80) && On(b, 0x01) == On(b2, 0x40)
  {
  }

  lemma LaterBits(b1: byte, b2: byte)
    ensures Bits6(((b1 & 15) << 2) | (b2 >> 6)) == Bits8(b1)[4..] + Bits8(b2)[..2]
  {
    LaterMasks(b1, b2);
    hide On, Bits6, Bits8;
  }

  /** Encoding three more bytes adds their four sextets. */
  lemma ExtendGroup(bytes: seq<byte>, values: seq<byte>, b0: byte, b1: byte, b2: byte)
    requires SextetsToBits(values) == BytesToBits(bytes)
    ensures SextetsToBits(values + [First(b0), Second(b0, b1), Third(b1, b2), Fourth(b2)])
         == BytesToBits(bytes + [b0, b1, b2])
  {
    var group := [First(b0), Second(b0, b1), Third(b1, b2), Fourth(b2)];
    SextetsToBitsConcat(values, group);
    BytesToBitsConcat(bytes, [b0, b1, b2]);
    FourSextets(First(b0), Second(b0, b1), Third(b1, b2), Fourth(b2));
    ThreeBytes(b0, b1, b2);
    GroupBits(b0, b1, b2);
  }

  lemma FourSextets(v0: byte, v1: byte, v2: byte, v3: byte)
    ensures SextetsToBits([v0, v1, v2, v3]) == Bits6(v0) + Bits6(v1) + Bits6(v2) + Bits6(v3)
  {
    hide Bits6;
    SextetsToBitsConcat([v0], [v1, v2, v3]);
    SextetsToBitsConcat([v1], [v2, v3]);
    SextetsToBitsConcat([v2], [v3]);
    assert [v0, v1, v2, v3] == [v0] + [v1, v2, v3];
    assert [v1, v2, v3] == [v1] + [v2, v3];
    assert [v2, v3] == [v2] + [v3];
    forall v ensures SextetsToBits([v]) == Bits6(v) {
      assert SextetsToBits([v]) == Bits6(v) + [];
    }
  }

  lemma ThreeBytes(b0: byte, b1: byte, b2: byte)
    ensures BytesToBits([b0, b1, b2]) == Bits8(b0) + Bits8(b1) + Bits8(b2)
  {
    hide Bits8;
    assert [b0, b1, b2] == [b0] + [b1, b2];
    assert [b1, b2] == [b1] + [b2];
    BytesToBitsConcat([b0], [b1, b2]);
    BytesToBitsConcat([b1], [b2]);
    forall b ensures BytesToBits([b]) == Bits8(b) {
      assert BytesToBits([b]) == Bits8(b) + [];
    }
  }

  /** The sextets of one or two leftover bytes: the last one is filled with four or two zero bits. */
  function LastSextets(rest: seq<byte>): (values: seq<byte>)
    requires 1 <= |rest| <= 2
    ensures |values| == |rest| + 1 && AreSextets(values)
  {
    SextetsOfSignedChars(rest[0], if |rest| == 1 then 0 else rest[1], 0);
    if |rest| == 1 then [First(rest[0]), Second(rest[0], 0)]
    else [First(rest[0]), Second(rest[0], rest[1]), Third(rest[1], 0)]
  }

  lemma BytesLeft(bytes: seq<byte>, values: seq<byte>, rest: seq<byte>)
    requires 1 <= |rest| <= 2
    requires SextetsToBits(values) == BytesToBits(bytes) && AreSextets(values)
    ensures Sextets(BytesToBits(bytes + rest)) == values + LastSextets(rest)
  {
    var b1 := if |rest| == 1 then 0 else rest[1];
    var zeros := if |rest| == 1 then [0, 0] else [0];
    var more := if |rest| == 1 then [Third(0, 0), Fourth(0)] else [Fourth(0)];
    CharsConcat(values, LastSextets(rest));
    hide First, Second, Third, Fourth, SextetsToBits, BytesToBits, Sextets, AreSextets;
    ExtendGroup(bytes, values, rest[0], b1, 0);
    assert values + [First(rest[0]), Second(rest[0], b1), Third(b1, 0), Fourth(0)] == values + LastSextets(rest) + more;
    assert bytes + [rest[0], b1, 0] == bytes + rest + zeros;
    SextetsToBitsConcat(values + LastSextets(rest), more);
    BytesToBitsConcat(bytes + rest, zeros);
    LeftoverBits(BytesToBits(bytes + rest), zeros, values + LastSextets(rest), more);
  }

  /** Sextets that spell a stream followed by part of a zero byte are the sextets of that stream. */
  lemma LeftoverBits(bits: seq<bool>, zeros: seq<byte>, values: seq<byte>, more: seq<byte>)
    requires zeros == [0] || zeros == [0, 0]
    requires SextetsToBits(values) + SextetsToBits(more) == bits + BytesToBits(zeros)
    requires |bits| <= 6 * |values| < |bits| + 6
    requires AreSextets(values)
    ensures Sextets(bits) == values
  {
    var n := 6 * |values| - |bits|;
    var fill := BytesToBits(zeros)[..n];
    assert fill == Bits8(0)[..n];
    assert SextetsToBits(values) == (bits + BytesToBits(zeros))[..6 * |values|] == bits + fill;
    SextetsOfValues(values, bits, fill);
  }

  /** The characters of a run grow with its values. */
  lemma CharsConcat(values: seq<byte>, more: seq<byte>)
    requires AreSextets(values)
    requires AreSextets(more)
    ensures AreSextets(values + more)
    ensures Chars(values + more) == Chars(values) + Chars(more)
  {
  }

  /** `*p++ = c`. */
  method Put(buffer: array<byte>, p: nat, c: byte) returns (next: nat)
    requires p < buffer.Length
    modifies buffer
    ensures next == p + 1
    ensures buffer[..next] == old(buffer[..p]) + [c]
    ensures forall k :: next <= k < buffer.Length ==> buffer[k] == old(buffer[k])
  {
    buffer[p] := c;
    next := p + 1;
  }

  /** One pass of the loop: three characters become four. */
  method EncodeGroup(encoded: array<byte>, p: nat, b0: byte, b1: byte, b2: byte) returns (next: nat)
    requires p + 4 <= encoded.Length
    modifies encoded
    ensures next == p + 4
    ensures var group := [First(b0), Second(b0, b1), Third(b1, b2), Fourth(b2)];
            AreSextets(group) && encoded[..next] == old(encoded[..p]) + Chars(group)
    ensures forall k :: next <= k < encoded.Length ==> encoded[k] == old(encoded[k])
  {
    SextetsOfSignedChars(b0, b1, b2);
    hide First, Second, Third, Fourth, Basis64;
    next := Put(encoded, p, Basis64(First(b0)));
    next := Put(encoded, next, Basis64(Second(b0, b1)));
    next := Put(encoded, next, Basis64(Third(b1, b2)));
    next := Put(encoded, next, Basis64(Fourth(b2)));
  }

  /** The one or two characters the loop leaves over. */
  method EncodeRest(encoded: array<byte>, p: nat, rest: seq<byte>) returns (next: nat)
    requires 1 <= |rest| <= 2 && p + 4 <= encoded.Length
    modifies encoded
    ensures next == p + 4
    ensures encoded[..next] == old(encoded[..p]) + (Chars(LastSextets(rest)) + Padding(|rest|))
    ensures forall k :: next <= k < encoded.Length ==> encoded[k] == old(encoded[k])
  {
    var b0 := rest[0];
    SextetsOfSignedChars(b0, 0, 0);
    hide First, Second, Third, Fourth, Basis64;
    next := Put(encoded, p, Basis64(First(b0)));
    if |rest| == 1 {
      next := Put(encoded, next, Basis64(Second(b0, 0)));
      next := Put(encoded, next, PAD);
    } else {
      SextetsOfSignedChars(b0, rest[1], 0);
      next := Put(encoded, next, Basis64(Second(b0, rest[1])));
      next := Put(encoded, next, Basis64(Third(rest[1], 0)));
    }
    next := Put(encoded, next, PAD);
  }

  lemma PaddingOfRest(n: nat, rest: nat)
    requires n % 3 == 0
    ensures Padding(n + rest) == Padding(rest)
  {
  }

  lemma EncodingOf(bytes: seq<byte>, values: seq<byte>, pads: seq<byte>)
    requires values == Sextets(BytesToBits(bytes)) && pads == Padding(|bytes|)
    ensures RfcEncode(bytes) == Chars(values) + pads
  {
    hide Sextets, BytesToBits, Chars, Padding;
  }

  /** What the loop has written, and the rest, are the whole encoding. */
  lemma EncodingEnds(bytes: seq<byte>, values: seq<byte>, rest: seq<byte>)
    requires SextetsToBits(values) == BytesToBits(bytes) && AreSextets(values)
    requires |bytes| % 3 == 0 && 1 <= |rest| <= 2
    ensures RfcEncode(bytes + rest) == Chars(values) + (Chars(LastSextets(rest)) + Padding(|rest|))
  {
    hide SextetsToBits, BytesToBits, Sextets, LastSextets, Chars, Padding, RfcEncode, AreSextets;
    EncodingOfRest(bytes, values, rest);
    CharsConcat(values, LastSextets(rest));
    Reassociate(Chars(values), Chars(LastSextets(rest)), Padding(|rest|));
  }

  lemma EncodingOfRest(bytes: seq<byte>, values: seq<byte>, rest: seq<byte>)
    requires SextetsToBits(values) == BytesToBits(bytes) && AreSextets(values)
    requires |bytes| % 3 == 0 && 1 <= |rest| <= 2
    ensures AreSextets(values + LastSextets(rest))
    ensures RfcEncode(bytes + rest) == Chars(values + LastSextets(rest)) + Padding(|rest|)
  {
    hide SextetsToBits, BytesToBits, Sextets, LastSextets, Chars, Padding, RfcEncode, AreSextets;
    PaddingOfRest(|bytes|, |rest|);
    BytesLeft(bytes, values, rest);
    EncodingOf(bytes + rest, values + LastSextets(rest), Padding(|rest|));
  }

  lemma EncodingEndsEvenly(bytes: seq<byte>, values: seq<byte>)
    requires SextetsToBits(values) == BytesToBits(bytes) && AreSextets(values)
    requires |bytes| % 3 == 0
    ensures RfcEncode(bytes) == Chars(values)
  {
    hide SextetsToBits, BytesToBits, Sextets, Chars;
    assert BytesToBits(bytes) + [] == BytesToBits(bytes);
    SextetsOfValues(values, BytesToBits(bytes), []);
    assert Padding(|bytes|) == [];
  }

  lemma GroupWritten(text: seq<byte>, i: nat, values: seq<byte>, group: seq<byte>)
    requires i + 3 <= |text| && AreSextets(values) && AreSextets(group)
    requires SextetsToBits(values) == BytesToBits(text[..i])
    requires group == [First(text[i]), Second(text[i], text[i + 1]), Third(text[i + 1], text[i + 2]),
                       Fourth(text[i + 2])]
    ensures AreSextets(values + group) && Chars(values + group) == Chars(values) + Chars(group)
    ensures SextetsToBits(values + group) == BytesToBits(text[..i + 3])
  {
    hide First, Second, Third, Fourth, Chars, SextetsToBits, BytesToBits, AreSextets;
    ExtendGroup(text[..i], values, text[i], text[i + 1], text[i + 2]);
    assert text[..i + 3] == text[..i] + [text[i], text[i + 1], text[i + 2]];
    CharsConcat(values, group);
  }

  lemma EmptyEncoding()
    ensures AreSextets([]) && Chars([]) == [] && SextetsToBits([]) == BytesToBits([]) == []
  {
  }

  /** What the loop leaves over, with its padding. */
  method EncodeTail(encoded: array<byte>, p: nat, text: seq<byte>, i: nat, len: nat, ghost values: seq<byte>)
    returns (next: nat)
    requires i <= len <= i + 2 && len <= |text| && i % 3 == 0 && p == i / 3 * 4
    requires EncodeLen(len) <= encoded.Length && |values| == p && AreSextets(values)
    requires encoded[..p] == Chars(values) && SextetsToBits(values) == BytesToBits(text[..i])
    modifies encoded
    ensures next == EncodeLen(len) - 1
    ensures encoded[..next] == RfcEncode(text[..len])
    ensures forall k :: next <= k < encoded.Length ==> encoded[k] == old(encoded[k])
  {
    hide Chars, SextetsToBits, BytesToBits, LastSextets, RfcEncode, AreSextets;
    next := p;
    if i < len {
      assert text[..len] == text[..i] + text[i..len];
      EncodingEnds(text[..i], values, text[i..len]);
      next := EncodeRest(encoded, p, text[i..len]);
    } else {
      EncodingEndsEvenly(text[..len], values);
    }
  }

  /** `base64encode`: fills the buffer with the encoding and a NUL, and returns how much it wrote. */
  method Base64Encode(encoded: array<byte>, text: seq<byte>, len: nat) returns (written: nat)
    requires len <= |text| && EncodeLen(len) <= encoded.Length
    modifies encoded
    ensures written == EncodeLen(len)
    ensures encoded[..written] == RfcEncode(text[..len]) + [0]
    ensures forall k :: written <= k < encoded.Length ==> encoded[k] == old(encoded[k])
  {
    EmptyEncoding();
    hide First, Second, Third, Fourth, Chars, SextetsToBits, BytesToBits, LastSextets, RfcEncode, AreSextets;
    var p, i := 0, 0;
    ghost var values: seq<byte> := [];
    assert text[..0] == [];
    while i < len - 2
      invariant 0 <= i <= len && i % 3 == 0 && p == i / 3 * 4
      invariant |values| == p && AreSextets(values)
      invariant encoded[..p] == Chars(values)
      invariant SextetsToBits(values) == BytesToBits(text[..i])
      invariant forall k :: p <= k < encoded.Length ==> encoded[k] == old(encoded[k])
    {
      ghost var group := [First(text[i]), Second(text[i], text[i + 1]), Third(text[i + 1], text[i + 2]),
                          Fourth(text[i + 2])];
      p := EncodeGroup(encoded, p, text[i], text[i + 1], text[i + 2]);
      GroupWritten(text, i, values, group);
      values := values + group;
      i := i + 3;
    }
    p := EncodeTail(encoded, p, text, i, len, values);
    written := Put(encoded, p, 0);
  }

  // ----- base64decode

  /** The three bytes the decoder computes from four table values; storing to `unsigned char` drops the high bits. */
  function DecodedFirst(v0: byte, v1: byte): byte {
    (v0 << 2) | (v1 >> 4)
  }

  function DecodedSecond(v1: byte, v2: byte): byte {
    (v1 << 4) | (v2 >> 2)
  }

  function DecodedThird(v2: byte, v3: byte): byte {
    (v2 << 6) | v3
  }

  lemma MiddleOctet(a: seq<bool>, b: seq<bool>, bits: seq<bool>)
    requires |a| == 6 && |b| == 6 && |bits| == 8
    requires bits[0] == a[2] && bits[1] == a[3] && bits[2] == a[4] && bits[3] == a[5]
    requires bits[4] == b[0] && bits[5] == b[1] && bits[6] == b[2] && bits[7] == b[3]
    ensures bits == a[2..] + b[..4]
  {
  }

  lemma LastOctet(a: seq<bool>, b: seq<bool>, bits: seq<bool>)
    requires |a| == 6 && |b| == 6 && |bits| == 8
    requires bits[0] == a[4] && bits[1] == a[5] && bits[2] == b[0] && bits[3] == b[1]
    requires bits[4] == b[2] && bits[5] == b[3] && bits[6] == b[4] && bits[7] == b[5]
    ensures bits == a[4..] + b
  {
  }

  lemma DecodedFirstMasks(v0: byte, v1: byte)
    requires v0 < 64 && v1 < 64
    ensures var b := DecodedFirst(v0, v1); On(b, 0x80) == On(v0, 0x20) && On(b, 0x40) == On(v0, 0x10)
    ensures var b := DecodedFirst(v0, v1); On(b, 0x20) == On(v0, 0x08) && On(b, 0x10) == On(v0, 0x04)
    ensures var b := DecodedFirst(v0, v1); On(b, 0x08) == On(v0, 0x02) && On(b, 0x04) == On(v0, 0x01)
    ensures var b := DecodedFirst(v0, v1); On(b, 0x02) == On(v1, 0x20) && On(b, 0x01) == On(v1, 0x10)
  {
  }

  lemma DecodedFirstBits(v0: byte, v1: byte)
    requires v0 < 64 && v1 < 64
    ensures Bits8(DecodedFirst(v0, v1)) == Bits6(v0) + Bits6(v1)[..2]
  {
    DecodedFirstMasks(v0, v1);
    hide On, Bits6, Bits8, DecodedFirst;
  }

  lemma DecodedSecondMasks(v1: byte, v2: byte)
    requires v1 < 64 && v2 < 64
    ensures var b := DecodedSecond(v1, v2); On(b, 0x80) == On(v1, 0x08) && On(b, 0x40) == On(v1, 0x04)
    ensures var b := DecodedSecond(v1, v2); On(b, 0x20) == On(v1, 0x02) && On(b, 0x10) == On(v1, 0x01)
    ensures var b := DecodedSecond(v1, v2); On(b, 0x08) == On(v2, 0x20) && On(b, 0x04) == On(v2, 0x10)
    ensures var b := DecodedSecond(v1, v2); On(b, 0x02) == On(v2, 0x08) && On(b, 0x01) == On(v2, 0x04)
  {
  }

  lemma DecodedSecondBits(v1: byte, v2: byte)
    requires v1 < 64 && v2 < 64
    ensures Bits8(DecodedSecond(v1, v2)) == Bits6(v1)[2..] + Bits6(v2)[..4]
  {
    DecodedSecondMasks(v1, v2);
    hide On, Bits6, Bits8, DecodedSecond;
    MiddleOctet(Bits6(v1), Bits6(v2), Bits8(DecodedSecond(v1, v2)));
  }

  lemma DecodedThirdMasks(v2: byte, v3: byte)
    requires v2 < 64 && v3 < 64
    ensures var b := DecodedThird(v2, v3); On(b, 0x80) == On(v2, 0x02) && On(b, 0x40) == On(v2, 0x01)
    ensures var b := DecodedThird(v2, v3); On(b, 0x20) == On(v3, 0x20) && On(b, 0x10) == On(v3, 0x10)
    ensures var b := DecodedThird(v2, v3); On(b, 0x08) == On(v3, 0x08) && On(b, 0x04) == On(v3, 0x04)
    ensures var b := DecodedThird(v2, v3); On(b, 0x02) == On(v3, 0x02) && On(b, 0x01) == On(v3, 0x01)
  {
  }

  lemma DecodedThirdBits(v2: byte, v3: byte)
    requires v2 < 64 && v3 < 64
    ensures Bits8(DecodedThird(v2, v3)) == Bits6(v2)[4..] + Bits6(v3)
  {
    DecodedThirdMasks(v2, v3);
    hide On, Bits6, Bits8, DecodedThird;
    LastOctet(Bits6(v2), Bits6(v3), Bits8(DecodedThird(v2, v3)));
  }

  lemma RegroupDecoded(a: seq<bool>, b: seq<bool>, c: seq<bool>, d: seq<bool>)
    requires |a| == |b| == |c| == |d| == 6
    ensures a + b + c + d == (a + b[..2]) + (b[2..] + c[..4]) + (c[4..] + d)
  {
  }

  function DecodedGroup(v0: byte, v1: byte, v2: byte, v3: byte): (group: seq<byte>)
    ensures |group| == 3
  {
    [DecodedFirst(v0, v1), DecodedSecond(v1, v2), DecodedThird(v2, v3)]
  }

  lemma DecodedGroupBits(v0: byte, v1: byte, v2: byte, v3: byte)
    requires v0 < 64 && v1 < 64 && v2 < 64 && v3 < 64
    ensures SextetsToBits([v0, v1, v2, v3]) == BytesToBits(DecodedGroup(v0, v1, v2, v3))
  {
    hide Bits6, Bits8, DecodedFirst, DecodedSecond, DecodedThird, SextetsToBits, BytesToBits;
    FourSextets(v0, v1, v2, v3);
    ThreeBytes(DecodedFirst(v0, v1), DecodedSecond(v1, v2), DecodedThird(v2, v3));
    DecodedFirstBits(v0, v1);
    DecodedSecondBits(v1, v2);
    DecodedThirdBits(v2, v3);
    RegroupDecoded(Bits6(v0), Bits6(v1), Bits6(v2), Bits6(v3));
  }

  /** A last group of at most four values, missing values read as zero. */
  function LastGroup(values: seq<byte>): (group: seq<byte>)
    requires |values| <= 4
    ensures |group| == 3
  {
    DecodedGroup(if |values| > 0 then values[0] else 0, if |values| > 1 then values[1] else 0,
                 if |values| > 2 then values[2] else 0, if |values| > 3 then values[3] else 0)
  }

  /** Whole groups, and then a last group cut to its complete bytes, spell the complete bytes of the whole run. */
  lemma {:induction false} DecodeGroups(values: seq<byte>, last: seq<byte>)
    requires |values| % 4 == 0 && |last| <= 4 && AreSextets(last)
    ensures Octets(SextetsToBits(values + last))
         == Octets(SextetsToBits(values)) + LastGroup(last)[..3 * |last| / 4]
  {
    hide DecodedGroup, SextetsToBits, BytesToBits, Octets;
    var group := LastGroup(last);
    var zeros := seq(4 - |last|, _ => 0 as byte);
    var full := last + zeros;
    assert full == [full[0], full[1], full[2], full[3]];
    DecodedGroupBits(full[0], full[1], full[2], full[3]);
    SextetsToBitsConcat(last, zeros);
    SextetsToBitsConcat(values, last);
    OctetsConcat(SextetsToBits(values), SextetsToBits(last));
    OctetsOfPrefix(group, SextetsToBits(last), SextetsToBits(zeros));
  }

  /** The complete bytes of at most four characters. */
  function LastBytes(text: seq<byte>): (bytes: seq<byte>)
    requires |text| <= 4 && IsRun(text)
    ensures |bytes| == 3 * |text| / 4
  {
    LastGroup(Values(text))[..3 * |text| / 4]
  }

  /** The same, on characters. */
  lemma DecodeMore(run: seq<byte>, last: seq<byte>)
    requires |run| % 4 == 0 && |last| <= 4
    requires IsRun(run)
    requires IsRun(last)
    ensures IsRun(run + last)
    ensures RfcDecode(run + last) == RfcDecode(run) + LastBytes(last)
  {
    hide Pr2Six, LastGroup, Octets, SextetsToBits;
    assert Values(run + last) == Values(run) + Values(last);
    DecodeGroups(Values(run), Values(last));
  }

  lemma OctetsOfPrefix(group: seq<byte>, bits: seq<bool>, more: seq<bool>)
    requires bits + more == BytesToBits(group)
    ensures Octets(bits) == group[..|bits| / 8]
  {
    hide BytesToBits, Octets;
    OctetsPrefix(bits, more);
    assert BytesToBits(group) + [] == BytesToBits(group);
    OctetsOfBytes(group, []);
  }

  function DecodeLen(run: nat): nat {
    (run + 3) / 4 * 3 + 1
  }

  lemma RunAt(text: seq<byte>, n: nat)
    ensures n < |Run(text)| ==> n < |text| && InAlphabet(text[n])
    ensures n == |Run(text)| < |text| ==> !InAlphabet(text[n])
  {
    hide Run;
    assert n < |Run(text)| ==> text[n] == Run(text)[n];
  }

  /** The scan both functions start with: up to the first character outside the alphabet. */
  method RunLength(coded: seq<byte>) returns (n: nat)
    requires |Run(coded)| < |coded|
    ensures n == |Run(coded)|
  {
    hide Run;
    n := 0;
    while Pr2Six(coded[n]) <= 63
      invariant n <= |Run(coded)|
      decreases |Run(coded)| - n
    {
      RunAt(coded, n);
      n := n + 1;
    }
    RunAt(coded, n);
  }

  /** `base64decode_len`. */
  method Base64DecodeLen(coded: seq<byte>) returns (len: nat)
    requires |Run(coded)| < |coded|
    ensures len == DecodeLen(|Run(coded)|) && len > 3 * |Run(coded)| / 4
  {
    var nprbytes := RunLength(coded);
    len := (nprbytes + 3) / 4 * 3 + 1;
  }

  /** One pass of the loop: four characters become three bytes. */
  method DecodeFour(plain: array<byte>, p: nat, text: seq<byte>) returns (next: nat)
    requires |text| == 4 && IsRun(text)
    requires p + 3 <= plain.Length
    modifies plain
    ensures next == p + 3
    ensures plain[..next] == old(plain[..p]) + LastBytes(text)
    ensures forall k :: next <= k < plain.Length ==> plain[k] == old(plain[k])
  {
    hide DecodedFirst, DecodedSecond, DecodedThird, Pr2Six;
    next := Put(plain, p, DecodedFirst(Pr2Six(text[0]), Pr2Six(text[1])));
    next := Put(plain, next, DecodedSecond(Pr2Six(text[1]), Pr2Six(text[2])));
    next := Put(plain, next, DecodedThird(Pr2Six(text[2]), Pr2Six(text[3])));
  }

  /** The characters the loop leaves over; a single one is ignored. */
  method DecodeRest(plain: array<byte>, p: nat, text: seq<byte>) returns (next: nat)
    requires |text| <= 4 && IsRun(text)
    requires p + 3 * |text| / 4 <= plain.Length
    modifies plain
    ensures next == p + 3 * |text| / 4
    ensures plain[..next] == old(plain[..p]) + LastBytes(text)
    ensures forall k :: next <= k < plain.Length ==> plain[k] == old(plain[k])
  {
    hide Pr2Six;
    next := p;
    if |text| > 1 {
      next := Put(plain, next, DecodedFirst(Pr2Six(text[0]), Pr2Six(text[1])));
    }
    if |text| > 2 {
      next := Put(plain, next, DecodedSecond(Pr2Six(text[1]), Pr2Six(text[2])));
    }
    if |text| > 3 {
      next := Put(plain, next, DecodedThird(Pr2Six(text[2]), Pr2Six(text[3])));
    }
  }

  /** The loop: whole groups of four characters, until at most four are left. */
  method DecodeFours(plain: array<byte>, run: seq<byte>) returns (nprbytes: nat, bufout: nat)
    requires IsRun(run)
    requires 3 * |run| / 4 <= plain.Length
    modifies plain
    ensures nprbytes <= 4 && nprbytes <= |run| && (|run| - nprbytes) % 4 == 0 && (|run| > 0 ==> nprbytes > 0)
    ensures bufout == (|run| - nprbytes) / 4 * 3 && plain[..bufout] == RfcDecode(run[..|run| - nprbytes])
    ensures forall k :: bufout <= k < plain.Length ==> plain[k] == old(plain[k])
  {
    hide RfcDecode, LastBytes, Pr2Six;
    nprbytes := |run|;
    bufout := 0;
    var bufin := 0;
    while nprbytes > 4
      invariant nprbytes <= |run| && bufin == |run| - nprbytes && bufin % 4 == 0 && 4 * bufout == 3 * bufin
      invariant |run| > 0 ==> nprbytes > 0
      invariant plain[..bufout] == RfcDecode(run[..bufin])
      invariant forall k :: bufout <= k < plain.Length ==> plain[k] == old(plain[k])
    {
      bufout := DecodeFour(plain, bufout, run[bufin..bufin + 4]);
      DecodeMore(run[..bufin], run[bufin..bufin + 4]);
      assert run[..bufin] + run[bufin..bufin + 4] == run[..bufin + 4];
      bufin := bufin + 4;
      nprbytes := nprbytes - 4;
    }
  }

  /** The count the decoder returns, taken from what the loop left over, is the number of complete bytes. */
  lemma DecodedCount(n: nat, left: nat)
    requires left <= 4 && left <= n && (n - left) % 4 == 0 && (n > 0 ==> left > 0)
    ensures (n + 3) / 4 * 3 - (4 - left) % 4 == 3 * n / 4 == (n - left) / 4 * 3 + 3 * left / 4
  {
    var q := (n - left) / 4;
    assert n == 4 * q + left;
  }

  lemma DecodedFits(n: nat)
    ensures 3 * n / 4 < DecodeLen(n)
  {
    var q, r := n / 4, n % 4;
    assert n == 4 * q + r;
  }

  /** What the loop leaves over, and the NUL. */
  method DecodeTail(plain: array<byte>, p: nat, run: seq<byte>, nprbytes: nat) returns (next: nat)
    requires IsRun(run) && nprbytes <= 4 && nprbytes <= |run| && (|run| - nprbytes) % 4 == 0
    requires p + 3 * nprbytes / 4 < plain.Length && plain[..p] == RfcDecode(run[..|run| - nprbytes])
    modifies plain
    ensures next == p + 3 * nprbytes / 4 + 1
    ensures plain[..next] == RfcDecode(run) + [0]
    ensures forall k :: next <= k < plain.Length ==> plain[k] == old(plain[k])
  {
    hide RfcDecode, LastBytes, Pr2Six;
    var bufin := |run| - nprbytes;
    DecodeMore(run[..bufin], run[bufin..]);
    assert run[..bufin] + run[bufin..] == run;
    next := DecodeRest(plain, p, run[bufin..]);
    next := Put(plain, next, 0);
  }

  /** `base64decode`: fills the buffer with the decoded bytes and a NUL, and returns how many bytes it decoded. The
      text must end in a character outside the alphabet, as every C string does. */
  method Base64Decode(plain: array<byte>, coded: seq<byte>) returns (decoded: nat)
    requires |Run(coded)| < |coded|
    requires DecodeLen(|Run(coded)|) <= plain.Length
    modifies plain
    ensures decoded == 3 * |Run(coded)| / 4
    ensures plain[..decoded] == RfcDecode(Run(coded))
    ensures plain[decoded] == 0
    ensures forall k :: decoded < k < plain.Length ==> plain[k] == old(plain[k])
  {
    hide Run, RfcDecode, DecodeLen;
    var n := RunLength(coded);
    var run := coded[..n];
    assert run == Run(coded);
    var total := (n + 3) / 4 * 3;
    DecodedFits(n);
    var nprbytes, bufout := DecodeFours(plain, run);
    DecodedCount(n, nprbytes);
    bufout := DecodeTail(plain, bufout, run, nprbytes);
    decoded := total - (4 - nprbytes) % 4;
    assert decoded + 1 == bufout;
  }
}
