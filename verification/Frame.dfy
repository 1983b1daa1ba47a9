/**
 The frame the host writes to the device (getoutput in mwandr/tool.c and main in mwandr/encode.c):
 eight-byte groups holding the three code streams, soft symbols, an end marker and a byte swap.
 Every one of the three streams in the frame determines the data.
 */
module Frame {
  import opened ByteStreams
  import opened Rsc
  import Qpp
  import Table
  import Interleaver

  /** The systematic and parity streams of the two constituent encoders, tails included. */
  datatype Streams = Streams(x: seq<bool>, z: seq<bool>, xi: seq<bool>, zi: seq<bool>)

  ghost predicate Sized(s: Streams, k: nat)
  {
    |s.x| == |s.z| == |s.xi| == |s.zi| == k + 3
  }

  /** TS 36.212, section 5.1.3.2.2: bit g of output stream j, with the tail bits multiplexed. */
  function Multiplexed(s: Streams, k: nat, j: nat, g: nat): bool
    requires Sized(s, k) && j < 3 && g < k + 4
  {
    if g < k then
      (if j == 0 then s.x[g] else if j == 1 then s.z[g] else s.zi[g])
    else if g == k then
      (if j == 0 then s.x[k] else if j == 1 then s.z[k] else s.x[k + 1])
    else if g == k + 1 then
      (if j == 0 then s.z[k + 1] else if j == 1 then s.x[k + 2] else s.z[k + 2])
    else if g == k + 2 then
      (if j == 0 then s.xi[k] else if j == 1 then s.zi[k] else s.xi[k + 1])
    else
      (if j == 0 then s.zi[k + 1] else if j == 1 then s.xi[k + 2] else s.zi[k + 2])
  }

  /** One eight-byte group per output index: three code bits and five bytes of padding. */
  function Layout(s: Streams, k: nat): (y: seq<Byte>)
    requires Sized(s, k)
    ensures |y| == 8 * (k + 4)
  {
    seq(8 * (k + 4), n requires 0 <= n < 8 * (k + 4) =>
      if n % 8 < 3 then ToByte(Multiplexed(s, k, n % 8, n / 8)) else 0)
  }

  function Symbol(b: Byte): Byte
  {
    if b == 1 then 0x7f else 0x80
  }

  const MARKER: Byte := 0x81

  /** Soft symbols, with the end marker five bytes before the end. */
  function Marked(y: seq<Byte>): (m: seq<Byte>)
    requires |y| >= 5
    ensures |m| == |y|
  {
    seq(|y|, n requires 0 <= n < |y| => Symbol(y[n]))[|y| - 5 := MARKER]
  }

  /** Each group of eight bytes reversed. */
  function Swapped(s: seq<Byte>): (t: seq<Byte>)
    requires |s| % 8 == 0
    ensures |t| == |s|
  {
    seq(|s|, n requires 0 <= n < |s| => s[8 * (n / 8) + 7 - n % 8])
  }

  lemma MirrorTwice(n: nat, m: nat)
    requires m == 8 * (n / 8) + 7 - n % 8
    ensures m / 8 == n / 8 && 8 * (m / 8) + 7 - m % 8 == n
  {
  }

  lemma SwapIsInvolution(s: seq<Byte>)
    requires |s| % 8 == 0
    ensures Swapped(Swapped(s)) == s
  {
    forall n | 0 <= n < |s|
      ensures Swapped(Swapped(s))[n] == s[n]
    {
      MirrorTwice(n, 8 * (n / 8) + 7 - n % 8);
    }
  }

  // ----- the frame of a byte string -----

  function StreamsOf(us: seq<bool>, interleaved: seq<bool>): (s: Streams)
    requires |us| == |interleaved|
    ensures Sized(s, |us|)
  {
    var x, xi := Terminated(us), Terminated(interleaved);
    Streams(x, Output(x), xi, Output(xi))
  }

  function FrameOfBits(us: seq<bool>, interleaved: seq<bool>): (f: seq<Byte>)
    requires |us| == |interleaved|
    ensures |f| == 8 * (|us| + 4)
  {
    Swapped(Marked(Layout(StreamsOf(us, interleaved), |us|)))
  }

  /** What the device should receive for a byte string under interleaver parameters f1 and f2. */
  function FrameOf(bytes: seq<Byte>, f1: nat, f2: nat): (f: seq<Byte>)
    ensures |f| == 64 * |bytes| + 32
  {
    FrameOfBits(Unpack(bytes), Interleaver.Interleaved(Unpack(bytes), f1, f2, 8 * |bytes|))
  }

  // ----- reading a frame back -----

  /** Slot j of the first k groups: undo the swap and threshold the symbols. */
  function Slot(frame: seq<Byte>, k: nat, j: nat): (us: seq<bool>)
    requires |frame| == 8 * (k + 4) && j < 8
    ensures |us| == k
  {
    seq(k, g requires 0 <= g < k => Swapped(frame)[8 * g + j] == 0x7f)
  }

  lemma SlotThresholds(y: seq<Byte>, k: nat, j: nat, g: nat)
    requires |y| == 8 * (k + 4) && j < 3 && g < k
    ensures Slot(Swapped(Marked(y)), k, j)[g] == (y[8 * g + j] == 1)
  {
    SwapIsInvolution(Marked(y));
  }

  lemma SymbolThresholds(y: seq<Byte>, n: nat)
    requires 5 <= |y| && |y| % 8 == 0 && n < |y| && n != |y| - 5
    ensures (Swapped(Swapped(Marked(y)))[n] == 0x7f) == (y[n] == 1)
  {
    SwapIsInvolution(Marked(y));
  }

  lemma LayoutAt(s: Streams, k: nat, j: nat, g: nat)
    requires Sized(s, k) && j < 3 && g < k + 4
    ensures Layout(s, k)[8 * g + j] == ToByte(Multiplexed(s, k, j, g))
  {
    assert (8 * g + j) / 8 == g && (8 * g + j) % 8 == j;
  }

  lemma SlotReadsStream(s: Streams, k: nat, j: nat)
    requires Sized(s, k) && j < 3
    ensures Slot(Swapped(Marked(Layout(s, k))), k, j)
      == (if j == 0 then s.x else if j == 1 then s.z else s.zi)[..k]
  {
    var y := Layout(s, k);
    var read := Slot(Swapped(Marked(y)), k, j);
    forall g | 0 <= g < k
      ensures read[g] == Multiplexed(s, k, j, g)
    {
      SlotThresholds(y, k, j, g);
      LayoutAt(s, k, j, g);
    }
  }

  /** The bits after the data in the order they are sent: the first three slots of the last four groups. */
  function TailBits(frame: seq<Byte>, k: nat): (us: seq<bool>)
    requires |frame| == 8 * (k + 4)
    ensures |us| == 12
  {
    seq(12, n requires 0 <= n < 12 => Swapped(frame)[8 * (k + n / 3) + n % 3] == 0x7f)
  }

  function Alternated(a: seq<bool>, b: seq<bool>): seq<bool>
    requires |a| == |b|
  {
    if a == [] then [] else [a[0], b[0]] + Alternated(a[1..], b[1..])
  }

  lemma AlternatedThree(a: seq<bool>, b: seq<bool>)
    requires |a| == |b| == 3
    ensures Alternated(a, b) == [a[0], b[0], a[1], b[1], a[2], b[2]]
  {
    assert Alternated(a[1..], b[1..]) == [a[1], b[1]] + Alternated(a[2..], b[2..]);
    assert Alternated(a[2..], b[2..]) == [a[2], b[2]] + Alternated(a[3..], b[3..]);
  }

  lemma GroupBit(s: Streams, k: nat, j: nat, g: nat)
    requires Sized(s, k) && j < 3 && g < k + 4
    ensures (Swapped(Swapped(Marked(Layout(s, k))))[8 * g + j] == 0x7f) == Multiplexed(s, k, j, g)
  {
    SymbolThresholds(Layout(s, k), 8 * g + j);
    LayoutAt(s, k, j, g);
  }

  lemma TailBitsAt(frame: seq<Byte>, k: nat, n: nat, j: nat, g: nat)
    requires |frame| == 8 * (k + 4) && n < 12 && j == n % 3 && g == n / 3
    ensures TailBits(frame, k)[n] == (Swapped(frame)[8 * (k + g) + j] == 0x7f)
  {
  }

  lemma TailBitAt(s: Streams, k: nat, n: nat, j: nat, g: nat)
    requires Sized(s, k) && n < 12 && j == n % 3 && g == n / 3
    ensures TailBits(Swapped(Marked(Layout(s, k))), k)[n] == Multiplexed(s, k, j, k + g)
  {
    GroupBit(s, k, j, k + g);
    TailBitsAt(Swapped(Marked(Layout(s, k))), k, n, j, g);
  }

  /** The tail of the frame is input, parity, input, parity of the first encoder and then of the second. */
  lemma TailReadsBack(s: Streams, k: nat)
    requires Sized(s, k)
    ensures TailBits(Swapped(Marked(Layout(s, k))), k)
      == Alternated(s.x[k..], s.z[k..]) + Alternated(s.xi[k..], s.zi[k..])
  {
    var read := TailBits(Swapped(Marked(Layout(s, k))), k);
    forall n | 0 <= n < 12
      ensures read[n] == Multiplexed(s, k, n % 3, k + n / 3)
    {
      TailBitAt(s, k, n, n % 3, n / 3);
    }
    AlternatedThree(s.x[k..], s.z[k..]);
    AlternatedThree(s.xi[k..], s.zi[k..]);
    assert read == read[..6] + read[6..];
    assert read[..6] == [s.x[k], s.z[k], s.x[k + 1], s.z[k + 1], s.x[k + 2], s.z[k + 2]];
    assert read[6..] == [s.xi[k], s.zi[k], s.xi[k + 1], s.zi[k + 1], s.xi[k + 2], s.zi[k + 2]];
  }

  /** The three ways of reading the data out of a frame. */
  function ReadSystematic(frame: seq<Byte>, n: nat): seq<Byte>
    requires |frame| == 64 * n + 32
  {
    Pack(Slot(frame, 8 * n, 0))
  }

  function ReadFirstParity(frame: seq<Byte>, n: nat): seq<Byte>
    requires |frame| == 64 * n + 32
  {
    Pack(Recover(Slot(frame, 8 * n, 1)).1)
  }

  ghost function ReadSecondParity(frame: seq<Byte>, n: nat, f1: nat, f2: nat): seq<Byte>
    requires |frame| == 64 * n + 32 && n > 0 && Qpp.Surjective(f1, f2, 8 * n)
  {
    Pack(Interleaver.Deinterleaved(Recover(Slot(frame, 8 * n, 2)).1, f1, f2, 8 * n))
  }

  /** Slot 0 packs back to the data. */
  lemma SystematicRoundTrip(bytes: seq<Byte>, f1: nat, f2: nat)
    ensures ReadSystematic(FrameOf(bytes, f1, f2), |bytes|) == bytes
  {
    var us, t := Unpack(bytes), Interleaver.Interleaved(Unpack(bytes), f1, f2, 8 * |bytes|);
    SlotReadsStream(StreamsOf(us, t), |us|, 0);
    assert Terminated(us)[..|us|] == us;
    PackInvertsUnpack(bytes);
  }

  /** The first parity stream alone determines the data. */
  lemma FirstParityRoundTrip(bytes: seq<Byte>, f1: nat, f2: nat)
    ensures ReadFirstParity(FrameOf(bytes, f1, f2), |bytes|) == bytes
  {
    var us, t := Unpack(bytes), Interleaver.Interleaved(Unpack(bytes), f1, f2, 8 * |bytes|);
    SlotReadsStream(StreamsOf(us, t), |us|, 1);
    DataFromParity(us);
    PackInvertsUnpack(bytes);
  }

  /** So does the second one, through the interleaver, whenever that permutes the block. */
  lemma SecondParityRoundTrip(bytes: seq<Byte>, f1: nat, f2: nat)
    requires bytes != [] && Qpp.Permutes(f1, f2, 8 * |bytes|)
    ensures ReadSecondParity(FrameOf(bytes, f1, f2), |bytes|, f1, f2) == bytes
  {
    var us, t := Unpack(bytes), Interleaver.Interleaved(Unpack(bytes), f1, f2, 8 * |bytes|);
    SlotReadsStream(StreamsOf(us, t), |us|, 2);
    DataFromParity(t);
    Interleaver.InterleaveRoundTrip(us, f1, f2, 8 * |bytes|);
    PackInvertsUnpack(bytes);
  }

  /** A frame reads back as the bytes from each of its three streams. */
  ghost predicate ReadsBack(frame: seq<Byte>, bytes: seq<Byte>, f1: nat, f2: nat)
    requires bytes != [] && |frame| == 64 * |bytes| + 32
  {
    && Qpp.Surjective(f1, f2, 8 * |bytes|)
    && ReadSystematic(frame, |bytes|) == bytes
    && ReadFirstParity(frame, |bytes|) == bytes
    && ReadSecondParity(frame, |bytes|, f1, f2) == bytes
  }

  /** Every block size of the standard can be read back from any one of its three streams. */
  lemma LegalRoundTrips(bytes: seq<Byte>, f1: nat, f2: nat)
    requires Table.Legal(|bytes|) && f1 == Table.F1(|bytes|) && f2 == Table.F2(|bytes|)
    ensures ReadsBack(FrameOf(bytes, f1, f2), bytes, f1, f2)
  {
    Interleaver.LegalPermutes(|bytes|);
    SystematicRoundTrip(bytes, f1, f2);
    FirstParityRoundTrip(bytes, f1, f2);
    SecondParityRoundTrip(bytes, f1, f2);
  }

  /** Different data never share a frame, whatever the interleaver parameters were. */
  lemma FrameInjective(a: seq<Byte>, b: seq<Byte>, f1: nat, f2: nat, g1: nat, g2: nat)
    requires FrameOf(a, f1, f2) == FrameOf(b, g1, g2)
    ensures a == b
  {
    SystematicRoundTrip(a, f1, f2);
    SystematicRoundTrip(b, g1, g2);
  }

  /** The marker is on padding and appears once; code bits fill slots 5 to 7 of a swapped group. */
  lemma MarkerUnique(s: Streams, k: nat, n: nat)
    requires Sized(s, k) && n < 8 * (k + 4)
    ensures var frame := Swapped(Marked(Layout(s, k)));
      && (frame[n] == MARKER <==> n == 8 * (k + 3) + 4)
      && (frame[n] == MARKER || frame[n] == 0x7f || frame[n] == 0x80)
      && (frame[n] == 0x7f ==> 5 <= n % 8)
  {
    var m := 8 * (n / 8) + 7 - n % 8;
    assert m % 8 == 7 - n % 8;
  }
}
