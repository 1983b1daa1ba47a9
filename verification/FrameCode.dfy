/**
 What a frame is, said without the functions that build it (mwandr/tool.c and encode.c; 3GPP TS 36.212, sections
 5.1.3.2.1 to 5.1.3.2.3): which bytes carry code bits, that each parity satisfies the code equation against its
 input, and that the tails end both encoders in the zero state. Exactly one frame fits each byte string.
 */
module FrameCode {
  import opened ByteStreams
  import opened Rsc
  import opened Frame
  import Interleaver
  import Qpp

  /** The bits of a byte, most significant first. */
  const MASKS: seq<Byte> := [0x80, 0x40, 0x20, 0x10, 0x08, 0x04, 0x02, 0x01]

  function DataBits(bytes: seq<Byte>): (us: seq<bool>)
    ensures |us| == 8 * |bytes|
  {
    seq(8 * |bytes|, i requires 0 <= i < 8 * |bytes| => bytes[i / 8] & MASKS[i % 8] != 0)
  }

  /** Output i of the interleaver is input (f1 i + f2 i^2) mod K. */
  function PermutedBits(us: seq<bool>, f1: nat, f2: nat): (t: seq<bool>)
    ensures |t| == |us|
  {
    seq(|us|, i requires 0 <= i < |us| => us[Permuted(f1, f2, |us|, i)])
  }

  function Permuted(f1: nat, f2: nat, k: nat, i: nat): (j: nat)
    requires k > 0
    ensures j < k
  {
    (f1 * i + f2 * i * i) % k
  }

  /** Bit j of group g: within its eight bytes, the j-th from the end. */
  function SentBit(frame: seq<Byte>, g: nat, j: nat): bool
    requires 8 * g + 8 <= |frame| && j < 8
  {
    frame[8 * g + 7 - j] == 0x7f
  }

  function SentStream(frame: seq<Byte>, k: nat, j: nat): (us: seq<bool>)
    requires 8 * k <= |frame| && j < 8
    ensures |us| == k
  {
    seq(k, g requires 0 <= g < k => SentBit(frame, g, j))
  }

  /** Every second bit of those after the data, which fill three places a group. */
  function SentTail(frame: seq<Byte>, k: nat, n: nat): (us: seq<bool>)
    requires |frame| == 8 * (k + 4) && n < 8
    ensures |us| == 3
  {
    [SentBit(frame, k + n / 3, n % 3), SentBit(frame, k + (n + 2) / 3, (n + 2) % 3),
     SentBit(frame, k + (n + 4) / 3, (n + 4) % 3)]
  }

  /** The parity fits the input at every index, and the input ends the encoder in the zero state. */
  ghost predicate Coded(us: seq<bool>, zs: seq<bool>)
  {
    |us| == |zs| && Run(us) == ZERO && forall i | 0 <= i < |us| :: CodeEquation(us, zs, i)
  }

  /** The code bits of data us and interleaved data t: both streams with their tails, each with its parity. */
  ghost predicate Carries(frame: seq<Byte>, k: nat, us: seq<bool>, t: seq<bool>)
    requires |frame| == 8 * (k + 4)
  {
    && SentStream(frame, k, 0) == us
    && Coded(us + SentTail(frame, k, 0), SentStream(frame, k, 1) + SentTail(frame, k, 1))
    && Coded(t + SentTail(frame, k, 6), SentStream(frame, k, 2) + SentTail(frame, k, 7))
  }

  predicate PaddedAt(frame: seq<Byte>, groups: nat, g: nat, j: nat)
    requires |frame| == 8 * groups && g < groups && j < 8
  {
    if j < 3 then frame[8 * g + 7 - j] == 0x7f || frame[8 * g + 7 - j] == 0x80
    else frame[8 * g + 7 - j] == if g == groups - 1 && j == 3 then 0x81 else 0x80
  }

  /** Code bits are 0x7f or 0x80, and everything else is 0x80 but for the end marker in the last group. */
  ghost predicate Padded(frame: seq<Byte>, groups: nat)
    requires |frame| == 8 * groups
  {
    forall g: nat, j: nat | g < groups && j < 8 :: PaddedAt(frame, groups, g, j)
  }

  /** The frame of data us and interleaved data t. */
  ghost predicate Encodes(frame: seq<Byte>, us: seq<bool>, t: seq<bool>)
    requires |frame| == 8 * (|us| + 4)
  {
    Padded(frame, |us| + 4) && Carries(frame, |us|, us, t)
  }

  // ----- the bits -----

  lemma MaskedBit(b: Byte, j: nat)
    requires j < 8
    ensures BitOf(b, j) == 1 <==> b & MASKS[j] != 0
  {
    if j < 4 {
      MaskedHigh(b, j);
    } else {
      MaskedLow(b, j);
    }
  }

  lemma MaskedHigh(b: Byte, j: nat)
    requires j < 4
    ensures BitOf(b, j) == 1 <==> b & MASKS[j] != 0
  {
    match j
    case 0 => assert b & 0x80 == 0x80 || b & 0x80 == 0;
    case 1 => assert b & 0x40 == 0x40 || b & 0x40 == 0;
    case 2 => assert b & 0x20 == 0x20 || b & 0x20 == 0;
    case _ => assert b & 0x10 == 0x10 || b & 0x10 == 0;
  }

  lemma MaskedLow(b: Byte, j: nat)
    requires 4 <= j < 8
    ensures BitOf(b, j) == 1 <==> b & MASKS[j] != 0
  {
    match j
    case 4 => assert b & 8 == 8 || b & 8 == 0;
    case 5 => assert b & 4 == 4 || b & 4 == 0;
    case 6 => assert b & 2 == 2 || b & 2 == 0;
    case _ => assert b & 1 == 1 || b & 1 == 0;
  }

  lemma UnpackAt(bytes: seq<Byte>, i: nat, q: nat, r: nat)
    requires i < 8 * |bytes| && q == i / 8 && r == i % 8
    ensures q < |bytes| && Unpack(bytes)[i] == DataBits(bytes)[i]
  {
    MaskedBit(bytes[q], r);
  }

  /** Most significant bit first. */
  lemma UnpackIs(bytes: seq<Byte>)
    ensures Unpack(bytes) == DataBits(bytes)
  {
    forall i | 0 <= i < 8 * |bytes|
      ensures Unpack(bytes)[i] == DataBits(bytes)[i]
    {
      UnpackAt(bytes, i, i / 8, i % 8);
    }
  }

  lemma InterleavedIs(us: seq<bool>, f1: nat, f2: nat)
    ensures Interleaver.Interleaved(us, f1, f2, |us|) == PermutedBits(us, f1, f2)
  {
  }

  // ----- the frame built has them -----

  lemma MirrorIndex(g: nat, j: nat)
    requires j < 8
    ensures var n := 8 * g + 7 - j; 8 * (n / 8) + 7 - n % 8 == 8 * g + j
  {
  }

  lemma BuiltByte(y: seq<Byte>, g: nat, j: nat)
    requires |y| % 8 == 0 && 8 * g + 8 <= |y| && j < 8
    ensures Swapped(Marked(y))[8 * g + 7 - j] == if 8 * g + j == |y| - 5 then MARKER else Symbol(y[8 * g + j])
  {
    MirrorIndex(g, j);
  }

  lemma SentBits(s: Streams, k: nat, g: nat, j: nat)
    requires Sized(s, k) && g < k + 4 && j < 3
    ensures SentBit(Swapped(Marked(Layout(s, k))), g, j) == Multiplexed(s, k, j, g)
  {
    BuiltByte(Layout(s, k), g, j);
    LayoutAt(s, k, j, g);
  }

  lemma SentStreams(s: Streams, k: nat, j: nat, frame: seq<Byte>, want: seq<bool>)
    requires Sized(s, k) && j < 3 && frame == Swapped(Marked(Layout(s, k))) && |want| >= k
    requires want == if j == 0 then s.x else if j == 1 then s.z else s.zi
    ensures SentStream(frame, k, j) == want[..k]
  {
    forall g | 0 <= g < k
      ensures SentStream(frame, k, j)[g] == want[..k][g]
    {
      SentBits(s, k, g, j);
    }
  }

  /** Where in the last four groups the four tails stand. */
  lemma TailPlaces(a: seq<Byte>, k: nat)
    requires |a| == 8 * (k + 4)
    ensures SentTail(a, k, 0) == [SentBit(a, k, 0), SentBit(a, k, 2), SentBit(a, k + 1, 1)]
    ensures SentTail(a, k, 1) == [SentBit(a, k, 1), SentBit(a, k + 1, 0), SentBit(a, k + 1, 2)]
    ensures SentTail(a, k, 6) == [SentBit(a, k + 2, 0), SentBit(a, k + 2, 2), SentBit(a, k + 3, 1)]
    ensures SentTail(a, k, 7) == [SentBit(a, k + 2, 1), SentBit(a, k + 3, 0), SentBit(a, k + 3, 2)]
  {
  }

  lemma SentGroup(s: Streams, k: nat, g: nat, frame: seq<Byte>)
    requires Sized(s, k) && g < k + 4 && frame == Swapped(Marked(Layout(s, k)))
    ensures SentBit(frame, g, 0) == Multiplexed(s, k, 0, g) && SentBit(frame, g, 1) == Multiplexed(s, k, 1, g)
    ensures SentBit(frame, g, 2) == Multiplexed(s, k, 2, g)
  {
    SentBits(s, k, g, 0);
    SentBits(s, k, g, 1);
    SentBits(s, k, g, 2);
  }

  lemma LastThree(us: seq<bool>, k: nat)
    requires |us| == k + 3
    ensures us[k..] == [us[k], us[k + 1], us[k + 2]]
  {
  }

  lemma SentTails(s: Streams, k: nat, frame: seq<Byte>)
    requires Sized(s, k) && frame == Swapped(Marked(Layout(s, k)))
    ensures SentTail(frame, k, 0) == s.x[k..] && SentTail(frame, k, 1) == s.z[k..]
    ensures SentTail(frame, k, 6) == s.xi[k..] && SentTail(frame, k, 7) == s.zi[k..]
  {
    TailPlaces(frame, k);
    SentFirstTails(s, k, frame);
    SentSecondTails(s, k, frame);
    LastThree(s.x, k);
    LastThree(s.z, k);
    LastThree(s.xi, k);
    LastThree(s.zi, k);
  }

  lemma SentFirstTails(s: Streams, k: nat, frame: seq<Byte>)
    requires Sized(s, k) && frame == Swapped(Marked(Layout(s, k)))
    ensures SentBit(frame, k, 0) == s.x[k] && SentBit(frame, k, 1) == s.z[k] && SentBit(frame, k, 2) == s.x[k + 1]
    ensures SentBit(frame, k + 1, 0) == s.z[k + 1] && SentBit(frame, k + 1, 1) == s.x[k + 2]
    ensures SentBit(frame, k + 1, 2) == s.z[k + 2]
  {
    SentGroup(s, k, k, frame);
    SentGroup(s, k, k + 1, frame);
  }

  lemma SentSecondTails(s: Streams, k: nat, frame: seq<Byte>)
    requires Sized(s, k) && frame == Swapped(Marked(Layout(s, k)))
    ensures SentBit(frame, k + 2, 0) == s.xi[k] && SentBit(frame, k + 2, 1) == s.zi[k]
    ensures SentBit(frame, k + 2, 2) == s.xi[k + 1] && SentBit(frame, k + 3, 0) == s.zi[k + 1]
    ensures SentBit(frame, k + 3, 1) == s.xi[k + 2] && SentBit(frame, k + 3, 2) == s.zi[k + 2]
  {
    var g := k + 2;
    SentGroup(s, k, g, frame);
    SentGroup(s, k, g + 1, frame);
  }

  lemma EncoderCodes(us: seq<bool>)
    ensures Coded(Terminated(us), Output(Terminated(us)))
  {
    TailEmptiesRegister(us, Tail(Run(us)));
    CodeEquationIff(Terminated(us), Output(Terminated(us)));
  }

  lemma BuiltPadding(s: Streams, k: nat, frame: seq<Byte>, groups: nat)
    requires Sized(s, k) && frame == Swapped(Marked(Layout(s, k))) && groups == k + 4
    ensures Padded(frame, groups)
  {
    forall g: nat, j: nat | g < groups && j < 8
      ensures PaddedAt(frame, groups, g, j)
    {
      BuiltPaddingAt(s, k, frame, groups, g, j);
    }
  }

  lemma BuiltPaddingAt(s: Streams, k: nat, frame: seq<Byte>, groups: nat, g: nat, j: nat)
    requires Sized(s, k) && frame == Swapped(Marked(Layout(s, k))) && groups == k + 4 && g < groups && j < 8
    ensures PaddedAt(frame, groups, g, j)
  {
    BuiltByte(Layout(s, k), g, j);
    PaddingAt(s, k, g, j);
    assert 8 * g + j == 8 * groups - 5 <==> g == groups - 1 && j == 3;
  }

  lemma PaddingAt(s: Streams, k: nat, g: nat, j: nat)
    requires Sized(s, k) && g < k + 4 && j < 8
    ensures j >= 3 ==> Layout(s, k)[8 * g + j] == 0
  {
    assert (8 * g + j) % 8 == j && (8 * g + j) / 8 == g;
  }

  lemma SplitStream(us: seq<bool>, k: nat)
    requires k <= |us|
    ensures us[..k] + us[k..] == us
  {
  }

  lemma BuiltCarries(us: seq<bool>, t: seq<bool>, k: nat)
    requires |us| == |t| == k
    ensures Carries(FrameOfBits(us, t), k, us, t)
  {
    var s := StreamsOf(us, t);
    SentStreams(s, k, 0, FrameOfBits(us, t), s.x);
    SentStreams(s, k, 1, FrameOfBits(us, t), s.z);
    SentStreams(s, k, 2, FrameOfBits(us, t), s.zi);
    SentTails(s, k, FrameOfBits(us, t));
    SplitStream(s.z, k);
    SplitStream(s.zi, k);
    assert s.x[..k] == us && us + s.x[k..] == s.x && t + s.xi[k..] == s.xi;
    EncoderCodes(us);
    EncoderCodes(t);
  }

  lemma FrameOfIs(bytes: seq<Byte>, f1: nat, f2: nat)
    ensures FrameOf(bytes, f1, f2) == FrameOfBits(DataBits(bytes), PermutedBits(DataBits(bytes), f1, f2))
  {
    UnpackIs(bytes);
    InterleavedIs(DataBits(bytes), f1, f2);
  }

  lemma BuiltEncodes(us: seq<bool>, t: seq<bool>)
    requires |us| == |t|
    ensures Encodes(FrameOfBits(us, t), us, t)
  {
    BuiltCarries(us, t, |us|);
    BuiltPadding(StreamsOf(us, t), |us|, FrameOfBits(us, t), |us| + 4);
  }

  // ----- and is the only one -----

  lemma CodedUnique(us: seq<bool>, tail: seq<bool>, zs: seq<bool>)
    requires |tail| == 3 && Coded(us + tail, zs)
    ensures us + tail == Terminated(us) && zs == Output(Terminated(us))
  {
    TailEmptiesRegister(us, tail);
    CodeEquationIff(us + tail, zs);
  }

  lemma BitsDetermine(a: seq<Byte>, b: seq<Byte>, groups: nat)
    requires |a| == |b| == 8 * groups && Padded(a, groups) && Padded(b, groups)
    requires forall g: nat, j: nat | g < groups && j < 3 :: SentBit(a, g, j) == SentBit(b, g, j)
    ensures a == b
  {
    forall n: nat | n < |a|
      ensures a[n] == b[n]
    {
      var g, j := n / 8, 7 - n % 8;
      assert n == 8 * g + 7 - j;
      assert j < 3 ==> SentBit(a, g, j) == SentBit(b, g, j);
      assert PaddedAt(a, groups, g, j) && PaddedAt(b, groups, g, j);
    }
  }

  lemma StreamsDetermine(a: seq<Byte>, b: seq<Byte>, k: nat)
    requires |a| == |b| == 8 * (k + 4) && Padded(a, k + 4) && Padded(b, k + 4)
    requires forall j: nat | j < 3 :: SentStream(a, k, j) == SentStream(b, k, j)
    requires SentTail(a, k, 0) == SentTail(b, k, 0) && SentTail(a, k, 1) == SentTail(b, k, 1)
    requires SentTail(a, k, 6) == SentTail(b, k, 6) && SentTail(a, k, 7) == SentTail(b, k, 7)
    ensures a == b
  {
    forall g: nat, j: nat | g < k + 4 && j < 3
      ensures SentBit(a, g, j) == SentBit(b, g, j)
    {
      if g < k {
        assert SentStream(a, k, j)[g] == SentStream(b, k, j)[g];
      } else {
        TailsDetermine(a, b, k, g, j);
      }
    }
    BitsDetermine(a, b, k + 4);
  }

  lemma TailsDetermine(a: seq<Byte>, b: seq<Byte>, k: nat, g: nat, j: nat)
    requires |a| == |b| == 8 * (k + 4) && k <= g < k + 4 && j < 3
    requires SentTail(a, k, 0) == SentTail(b, k, 0) && SentTail(a, k, 1) == SentTail(b, k, 1)
    requires SentTail(a, k, 6) == SentTail(b, k, 6) && SentTail(a, k, 7) == SentTail(b, k, 7)
    ensures SentBit(a, g, j) == SentBit(b, g, j)
  {
    TailBitIn(a, k, g, j);
    TailBitIn(b, k, g, j);
  }

  /** Where in the four tails a bit after the data stands. */
  lemma TailBitIn(a: seq<Byte>, k: nat, g: nat, j: nat)
    requires |a| == 8 * (k + 4) && k <= g < k + 4 && j < 3
    ensures SentBit(a, g, j) == match (g - k, j)
      case (0, 0) => SentTail(a, k, 0)[0] case (0, 1) => SentTail(a, k, 1)[0] case (0, _) => SentTail(a, k, 0)[1]
      case (1, 0) => SentTail(a, k, 1)[1] case (1, 1) => SentTail(a, k, 0)[2] case (1, _) => SentTail(a, k, 1)[2]
      case (2, 0) => SentTail(a, k, 6)[0] case (2, 1) => SentTail(a, k, 7)[0] case (2, _) => SentTail(a, k, 6)[1]
      case (_, 0) => SentTail(a, k, 7)[1] case (_, 1) => SentTail(a, k, 6)[2] case (_, _) => SentTail(a, k, 7)[2]
  {
  }

  lemma CarriedAlike(a: seq<Byte>, b: seq<Byte>, k: nat, us: seq<bool>, t: seq<bool>)
    requires |a| == |b| == 8 * (k + 4) && |us| == |t| == k && Carries(a, k, us, t) && Carries(b, k, us, t)
    requires Padded(a, k + 4) && Padded(b, k + 4)
    ensures a == b
  {
    CodedAlike(us, SentTail(a, k, 0), SentTail(b, k, 0), SentStream(a, k, 1), SentStream(b, k, 1),
               SentTail(a, k, 1), SentTail(b, k, 1));
    CodedAlike(t, SentTail(a, k, 6), SentTail(b, k, 6), SentStream(a, k, 2), SentStream(b, k, 2),
               SentTail(a, k, 7), SentTail(b, k, 7));
    StreamsDetermine(a, b, k);
  }

  lemma BitsIff(frame: seq<Byte>, us: seq<bool>, t: seq<bool>)
    requires |us| == |t| && |frame| == 8 * (|us| + 4)
    ensures frame == FrameOfBits(us, t) <==> Encodes(frame, us, t)
  {
    BuiltEncodes(us, t);
    if Encodes(frame, us, t) {
      CarriedAlike(frame, FrameOfBits(us, t), |us|, us, t);
    }
  }

  /** A byte sequence of the right length is the frame of a byte string exactly if it encodes its bits as permuted. */
  lemma FrameIff(frame: seq<Byte>, bytes: seq<Byte>, f1: nat, f2: nat)
    requires |frame| == 64 * |bytes| + 32
    ensures frame == FrameOf(bytes, f1, f2) <==> Encodes(frame, DataBits(bytes), PermutedBits(DataBits(bytes), f1, f2))
  {
    FrameOfIs(bytes, f1, f2);
    BitsIff(frame, DataBits(bytes), PermutedBits(DataBits(bytes), f1, f2));
  }

  lemma CodedAlike(us: seq<bool>, p: seq<bool>, q: seq<bool>, y: seq<bool>, z: seq<bool>, v: seq<bool>, w: seq<bool>)
    requires |p| == |q| == |v| == |w| == 3 && |y| == |z| == |us|
    requires Coded(us + p, y + v) && Coded(us + q, z + w)
    ensures p == q && y == z && v == w
  {
    CodedUnique(us, p, y + v);
    CodedUnique(us, q, z + w);
    assert p == (us + p)[|us|..] && q == (us + q)[|us|..];
    assert y == (y + v)[..|us|] && z == (z + w)[..|us|] && v == (y + v)[|us|..] && w == (z + w)[|us|..];
  }
}
