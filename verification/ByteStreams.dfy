/**
 Bytes as bits: the one-bit-per-byte arrays the encoder works on, and the packing of eight
 bits into a byte, most significant first (mwandr/tool.c, getoutput).
 */
module ByteStreams {

  type Byte = bv8

  function LowBit(b: Byte): bool
  {
    b & 1 == 1
  }

  function ToByte(u: bool): (b: Byte)
    ensures LowBit(b) == u
  {
    if u then 1 else 0
  }

  function Bits(s: seq<Byte>): (us: seq<bool>)
    ensures |us| == |s|
  {
    seq(|s|, i requires 0 <= i < |s| => LowBit(s[i]))
  }

  function Bytes(us: seq<bool>): (s: seq<Byte>)
    ensures |s| == |us| && Bits(s) == us
  {
    seq(|us|, i requires 0 <= i < |us| => ToByte(us[i]))
  }

  /** Bit j of a byte, counted from the most significant. */
  function BitOf(b: Byte, j: nat): Byte
    requires j < 8
  {
    (b & ((1 as Byte) << (7 - j))) >> (7 - j)
  }

  /** The bits of a byte string, eight per byte, most significant first. */
  function Unpack(bytes: seq<Byte>): (us: seq<bool>)
    ensures |us| == 8 * |bytes|
  {
    seq(8 * |bytes|, i requires 0 <= i < 8 * |bytes| => BitOf(bytes[i / 8], i % 8) == 1)
  }

  function Weight(u: bool, j: nat): Byte
    requires j < 8
  {
    ToByte(u) << (7 - j)
  }

  function PackByte(us: seq<bool>): Byte
    requires |us| == 8
  {
    Weight(us[0], 0) | Weight(us[1], 1) | Weight(us[2], 2) | Weight(us[3], 3)
    | Weight(us[4], 4) | Weight(us[5], 5) | Weight(us[6], 6) | Weight(us[7], 7)
  }

  function Pack(us: seq<bool>): (bytes: seq<Byte>)
    requires |us| % 8 == 0
  {
    seq(|us| / 8, i requires 0 <= i < |us| / 8 => PackByte(us[8 * i..8 * i + 8]))
  }

  lemma BitIsBinary(b: Byte, j: nat)
    requires j < 8
    ensures BitOf(b, j) == 0 || BitOf(b, j) == 1
  {
  }

  lemma PackByteInverts(b: Byte, us: seq<bool>)
    requires |us| == 8 && forall j | 0 <= j < 8 :: us[j] == (BitOf(b, j) == 1)
    ensures PackByte(us) == b
  {
    assert us[0] == (BitOf(b, 0) == 1) && us[1] == (BitOf(b, 1) == 1);
    assert us[2] == (BitOf(b, 2) == 1) && us[3] == (BitOf(b, 3) == 1);
    assert us[4] == (BitOf(b, 4) == 1) && us[5] == (BitOf(b, 5) == 1);
    assert us[6] == (BitOf(b, 6) == 1) && us[7] == (BitOf(b, 7) == 1);
  }

  lemma UnpackedByte(bytes: seq<Byte>, i: nat)
    requires i < |bytes|
    ensures PackByte(Unpack(bytes)[8 * i..8 * i + 8]) == bytes[i]
  {
    var us := Unpack(bytes)[8 * i..8 * i + 8];
    forall j | 0 <= j < 8
      ensures us[j] == (BitOf(bytes[i], j) == 1)
    {
      assert (8 * i + j) / 8 == i && (8 * i + j) % 8 == j;
    }
    PackByteInverts(bytes[i], us);
  }

  /** Packing undoes unpacking. */
  lemma PackInvertsUnpack(bytes: seq<Byte>)
    ensures Pack(Unpack(bytes)) == bytes
  {
    forall i | 0 <= i < |bytes|
      ensures Pack(Unpack(bytes))[i] == bytes[i]
    {
      UnpackedByte(bytes, i);
    }
  }

  /** The source's double loop: one bit of the input per byte of x. */
  method UnpackInto(bytes: seq<Byte>, x: array<Byte>)
    requires 8 * |bytes| <= x.Length
    modifies x
    ensures x[..8 * |bytes|] == Bytes(Unpack(bytes))
    ensures x[8 * |bytes|..] == old(x[8 * |bytes|..])
  {
    var at := 0;
    var i := 0;
    while i < |bytes|
      invariant 0 <= i <= |bytes| && at == 8 * i
      invariant forall n | 0 <= n < at :: x[n] == ToByte(Unpack(bytes)[n])
      invariant x[8 * |bytes|..] == old(x[8 * |bytes|..])
    {
      var b := 0;
      while b < 8
        invariant 0 <= b <= 8 && at == 8 * i + b
        invariant forall n | 0 <= n < at :: x[n] == ToByte(Unpack(bytes)[n])
        invariant x[8 * |bytes|..] == old(x[8 * |bytes|..])
      {
        assert at / 8 == i && at % 8 == b;
        BitIsBinary(bytes[i], b);
        x[at] := (bytes[i] & ((1 as Byte) << (7 - b))) >> (7 - b);
        at := at + 1;
        b := b + 1;
      }
      i := i + 1;
    }
  }
}
