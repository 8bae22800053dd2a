/** Bytes and 6-bit groups as streams of bits, most significant bit first: the reference in terms of which section 4
    of RFC 4648 defines Base64. */
module BitStream {

  type byte = bv8

  predicate On(b: byte, mask: byte) {
    b & mask != 0
  }

  function Bits8(b: byte): (bits: seq<bool>)
    ensures |bits| == 8
    ensures bits[0] == On(b, 0x80) && bits[1] == On(b, 0x40) && bits[2] == On(b, 0x20) && bits[3] == On(b, 0x10)
    ensures bits[4] == On(b, 0x08) && bits[5] == On(b, 0x04) && bits[6] == On(b, 0x02) && bits[7] == On(b, 0x01)
  {
    [On(b, 0x80), On(b, 0x40), On(b, 0x20), On(b, 0x10), On(b, 0x08), On(b, 0x04), On(b, 0x02), On(b, 0x01)]
  }

  /** The six bits of a value below 64. */
  function Bits6(v: byte): (bits: seq<bool>)
    ensures |bits| == 6
    ensures bits[0] == On(v, 0x20) && bits[1] == On(v, 0x10) && bits[2] == On(v, 0x08)
    ensures bits[3] == On(v, 0x04) && bits[4] == On(v, 0x02) && bits[5] == On(v, 0x01)
  {
    [On(v, 0x20), On(v, 0x10), On(v, 0x08), On(v, 0x04), On(v, 0x02), On(v, 0x01)]
  }

  function Bit(on: bool, mask: byte): byte {
    if on then mask else 0
  }

  function ByteOf(bits: seq<bool>): byte
    requires |bits| == 8
  {
    Bit(bits[0], 0x80) | Bit(bits[1], 0x40) | Bit(bits[2], 0x20) | Bit(bits[3], 0x10)
    | Bit(bits[4], 0x08) | Bit(bits[5], 0x04) | Bit(bits[6], 0x02) | Bit(bits[7], 0x01)
  }

  function SextetOf(bits: seq<bool>): (v: byte)
    requires |bits| == 6
    ensures v < 64
  {
    Bit(bits[0], 0x20) | Bit(bits[1], 0x10) | Bit(bits[2], 0x08) | Bit(bits[3], 0x04) | Bit(bits[4], 0x02)
    | Bit(bits[5], 0x01)
  }

  lemma ByteOfBits8(b: byte)
    ensures ByteOf(Bits8(b)) == b
  {
  }

  lemma Bits6OfSextet(bits: seq<bool>)
    requires |bits| == 6
    ensures Bits6(SextetOf(bits)) == bits
  {
  }

  lemma SextetOfBits6(v: byte)
    requires v < 64
    ensures SextetOf(Bits6(v)) == v
  {
  }

  function BytesToBits(bytes: seq<byte>): (bits: seq<bool>)
    ensures |bits| == 8 * |bytes|
  {
    if bytes == [] then [] else Bits8(bytes[0]) + BytesToBits(bytes[1..])
  }

  function SextetsToBits(values: seq<byte>): (bits: seq<bool>)
    ensures |bits| == 6 * |values|
  {
    if values == [] then [] else Bits6(values[0]) + SextetsToBits(values[1..])
  }

  predicate AreSextets(values: seq<byte>) {
    forall i :: 0 <= i < |values| ==> values[i] < 64
  }

  /** The complete bytes of a bit stream; up to seven bits at its end are dropped. */
  function Octets(bits: seq<bool>): (bytes: seq<byte>)
    ensures |bytes| == |bits| / 8
  {
    if |bits| < 8 then [] else [ByteOf(bits[..8])] + Octets(bits[8..])
  }

  ghost predicate AllZero(bits: seq<bool>) {
    forall i :: 0 <= i < |bits| ==> !bits[i]
  }

  function Zeros(n: nat): (bits: seq<bool>)
    ensures |bits| == n && AllZero(bits)
  {
    seq(n, _ => false)
  }

  /** The 6-bit groups of a bit stream, the last one filled up with zero bits. */
  function Sextets(bits: seq<bool>): (values: seq<byte>)
    ensures |values| == (|bits| + 5) / 6
    ensures AreSextets(values)
  {
    if bits == [] then []
    else if |bits| < 6 then [SextetOf(bits + Zeros(6 - |bits|))]
    else [SextetOf(bits[..6])] + Sextets(bits[6..])
  }

  lemma {:induction false} BytesToBitsConcat(a: seq<byte>, b: seq<byte>)
    ensures BytesToBits(a + b) == BytesToBits(a) + BytesToBits(b)
  {
    if a == [] {
      assert a + b == b;
    } else {
      assert (a + b)[1..] == a[1..] + b;
      BytesToBitsConcat(a[1..], b);
    }
  }

  lemma {:induction false} SextetsToBitsConcat(a: seq<byte>, b: seq<byte>)
    ensures SextetsToBits(a + b) == SextetsToBits(a) + SextetsToBits(b)
  {
    if a == [] {
      assert a + b == b;
    } else {
      assert (a + b)[1..] == a[1..] + b;
      SextetsToBitsConcat(a[1..], b);
    }
  }

  /** Grouping bits into bytes undoes writing bytes as bits, whatever incomplete byte follows. */
  lemma {:induction false} OctetsOfBytes(bytes: seq<byte>, rest: seq<bool>)
    requires |rest| < 8
    ensures Octets(BytesToBits(bytes) + rest) == bytes
  {
    if bytes == [] {
      assert BytesToBits(bytes) + rest == rest;
    } else {
      var bits := BytesToBits(bytes) + rest;
      assert bits[..8] == Bits8(bytes[0]);
      assert bits[8..] == BytesToBits(bytes[1..]) + rest;
      ByteOfBits8(bytes[0]);
      OctetsOfBytes(bytes[1..], rest);
    }
  }

  lemma {:induction false} OctetsConcat(a: seq<bool>, b: seq<bool>)
    requires |a| % 8 == 0
    ensures Octets(a + b) == Octets(a) + Octets(b)
  {
    hide ByteOf;
    if a == [] {
      assert a + b == b;
    } else {
      OctetsConcat(a[8..], b);
      assert (a + b)[..8] == a[..8];
      assert (a + b)[8..] == a[8..] + b;
      assert Octets(a + b) == [ByteOf(a[..8])] + Octets(a[8..] + b);
    }
  }

  lemma OctetsOfShort(bits: seq<bool>)
    requires |bits| < 16
    ensures Octets(bits) == if |bits| < 8 then [] else [ByteOf(bits[..8])]
  {
  }

  lemma OctetsPrefix(bits: seq<bool>, more: seq<bool>)
    ensures Octets(bits) <= Octets(bits + more)
  {
    hide Octets;
    var whole, tail := bits[..|bits| / 8 * 8], bits[|bits| / 8 * 8..];
    assert bits == whole + tail;
    OctetsConcat(whole, tail);
    OctetsOfShort(tail);
    assert bits + more == whole + (tail + more);
    OctetsConcat(whole, tail + more);
  }

  /** Grouping bits into sextets gives the only values that spell the stream with zero bits for fill. */
  lemma {:induction false} SextetsOfValues(values: seq<byte>, bits: seq<bool>, fill: seq<bool>)
    requires AreSextets(values)
    requires SextetsToBits(values) == bits + fill && |fill| < 6 && AllZero(fill)
    ensures Sextets(bits) == values
  {
    if values == [] {
      assert |bits + fill| == 0;
    } else {
      var all := bits + fill;
      assert all[..6] == Bits6(values[0]) && all[6..] == SextetsToBits(values[1..]);
      SextetOfBits6(values[0]);
      if |bits| < 6 {
        assert |values| == 1;
        assert all == bits + Zeros(6 - |bits|);
        assert all[..6] == all;
      } else {
        assert bits[..6] == all[..6];
        assert all[6..] == bits[6..] + fill;
        SextetsOfValues(values[1..], bits[6..], fill);
      }
    }
  }

  /** The sextets of a stream spell the stream, filled up with fewer than six zero bits. */
  lemma {:induction false} BitsOfSextets(bits: seq<bool>) returns (fill: seq<bool>)
    ensures SextetsToBits(Sextets(bits)) == bits + fill && |fill| < 6 && AllZero(fill)
  {
    if bits == [] {
      fill := [];
    } else if |bits| < 6 {
      fill := Zeros(6 - |bits|);
      Bits6OfSextet(bits + fill);
      assert SextetsToBits(Sextets(bits)) == Bits6(SextetOf(bits + fill));
    } else {
      fill := BitsOfSextets(bits[6..]);
      Bits6OfSextet(bits[..6]);
      assert Sextets(bits)[1..] == Sextets(bits[6..]);
      assert SextetsToBits(Sextets(bits)) == bits[..6] + (bits[6..] + fill);
      assert bits == bits[..6] + bits[6..];
    }
  }
}
