/**
 Lengths passed between the encoder, the device's length register and the network back end
 (mwandr/encode.c and ire/Net_Dom0/data.c), in unsigned 32-bit arithmetic.
 */
module DeviceLength {
  import opened Words
  import opened ByteStreams
  import Frame

  const TWO19 := 0x8_0000

  function ShiftLeft19(v: Word): Word
  {
    v * TWO19 % TWO32
  }

  /** The encoder's length in bits: data and tail. */
  function CodeBits(kByte: nat): nat
  {
    kByte * 8 + 4
  }

  /** The length of the encoded frame in bytes. */
  function EncodedLength(kByte: nat): nat
  {
    CodeBits(kByte) * 4 * 2
  }

  /** It is the length of every frame. */
  lemma EncodedLengthIsFrames(bytes: seq<Byte>, f1: nat, f2: nat)
    ensures |Frame.FrameOf(bytes, f1, f2)| == EncodedLength(|bytes|)
  {
  }

  /** What the back end writes into the length register for a request of `length` bytes. */
  function LengthRegister(length: Word): Word
  {
    ShiftLeft19(length / 8)
  }

  /** The register gets the number of whole bytes of code bits, shifted; what is beyond the last of them is dropped. */
  lemma RegisterRoundsDown(bits: nat, rest: nat)
    requires rest < 8 && 8 * bits + rest < TWO32
    ensures LengthRegister(8 * bits + rest) == ShiftLeft19(bits)
  {
  }

  /** get_send_len: how many decoded bytes to return for a request of `length` encoded bytes. */
  function SendLength(length: Word): Word
  {
    var codeByte := (length - 32) % TWO32 / 64;
    (if codeByte % 4 != 0 then codeByte / 4 + 1 else codeByte / 4) * 8
  }

  /** The back end recovers from the frame length exactly what the encoder itself would have written. */
  lemma RegistersAgree(kByte: nat)
    requires EncodedLength(kByte) < TWO32
    ensures LengthRegister(EncodedLength(kByte)) == ShiftLeft19(CodeBits(kByte))
  {
    assert EncodedLength(kByte) / 8 == CodeBits(kByte);
  }

  /** The register holds the whole length exactly for fewer than 1024 bytes; beyond that high bits are lost. */
  lemma RegisterExactIff(kByte: nat)
    requires EncodedLength(kByte) < TWO32
    ensures LengthRegister(EncodedLength(kByte)) / TWO19 == CodeBits(kByte) <==> kByte < 1024
  {
    RegistersAgree(kByte);
    var bits := CodeBits(kByte);
    if bits < 8192 {
      assert bits * TWO19 % TWO32 == bits * TWO19;
    } else {
      assert ShiftLeft19(bits) / TWO19 < 8192;
    }
  }

  /** The encoder shifts a signed int, and for its shift to be defined there must be fewer than 512 bytes. */
  lemma ShiftDefinedIff(kByte: nat)
    ensures CodeBits(kByte) * TWO19 < TWO31 <==> kByte < 512
    ensures kByte < 512 ==> ShiftLeft19(CodeBits(kByte)) == CodeBits(kByte) * TWO19
  {
    if kByte < 512 {
      assert CodeBits(kByte) <= 4092;
    } else {
      assert CodeBits(kByte) >= 4100;
    }
  }

  /** For a frame the result is the number of bytes at two per data byte, rounded up to a multiple of eight. */
  lemma SendLengthOfFrame(kByte: nat)
    requires EncodedLength(kByte) < TWO32
    ensures var n := SendLength(EncodedLength(kByte));
      n % 8 == 0 && 2 * kByte <= n < 2 * kByte + 8
  {
    assert (EncodedLength(kByte) - 32) % TWO32 == 64 * kByte;
  }

  /** Below the shortest frame the subtraction wraps, and the answer is 2^27 bytes whatever the length. */
  lemma SendLengthWraps(length: Word)
    requires length < 32
    ensures SendLength(length) == 0x800_0000
  {
    assert (length - 32) % TWO32 == TWO32 + length - 32;
    assert (TWO32 + length - 32) / 64 == 0x3FF_FFFF;
  }

  /** The answer is within what the length can hold, two bytes in 64 rounded up to eight, iff it is no less than 32. */
  lemma SendLengthBoundedIff(length: Word)
    ensures SendLength(length) <= length / 32 + 8 <==> length >= 32
  {
    if length < 32 {
      SendLengthWraps(length);
    } else {
      assert (length - 32) % TWO32 == length - 32;
    }
  }

  /** Exactly the lengths from one frame to the next give the same answer as the frame below them. */
  lemma SendLengthRoundsDown(kByte: nat, extra: nat)
    requires EncodedLength(kByte) + extra < TWO32 && extra < 64
    ensures SendLength(EncodedLength(kByte) + extra) == SendLength(EncodedLength(kByte))
  {
    assert (EncodedLength(kByte) + extra - 32) % TWO32 == 64 * kByte + extra;
    assert (64 * kByte + extra) / 64 == kByte;
  }
}
