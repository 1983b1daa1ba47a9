/**
 The loops of getoutput (mwandr/tool.c) and main (mwandr/encode.c) that build a frame in place and
 hand it to the device block by block, each against the specification in Frame.
 */
module FrameBuilder {
  import opened ByteStreams
  import opened Rsc
  import opened Frame
  import opened FrameCode
  import Interleaver
  import Table
  import WordTable
  import Words

  /** The first `at` bytes have been walked over: their code slots are filled, all else is as before. */
  ghost predicate Written(want: seq<Byte>, before: seq<Byte>, after: seq<Byte>, at: nat)
  {
    && |before| == |after| && at <= |want| <= |after|
    && (forall n | 0 <= n < at :: after[n] == if n % 8 < 3 then want[n] else before[n])
    && (forall n | at <= n < |after| :: after[n] == before[n])
  }

  /** Three code bytes, then five bytes skipped. */
  method PutGroup(y: array<Byte>, at: nat, a: Byte, b: Byte, c: Byte, ghost want: seq<Byte>, ghost before: seq<Byte>)
    requires at % 8 == 0 && at + 8 <= |want| && Written(want, before, y[..], at)
    requires a == want[at] && b == want[at + 1] && c == want[at + 2]
    modifies y
    ensures Written(want, before, y[..], at + 8)
  {
    y[at] := a;
    y[at + 1] := b;
    y[at + 2] := c;
  }

  lemma GroupValues(s: Streams, k: nat, g: nat)
    requires Sized(s, k) && g < k + 4
    ensures Layout(s, k)[8 * g] == ToByte(Multiplexed(s, k, 0, g))
    ensures Layout(s, k)[8 * g + 1] == ToByte(Multiplexed(s, k, 1, g))
    ensures Layout(s, k)[8 * g + 2] == ToByte(Multiplexed(s, k, 2, g))
  {
    LayoutAt(s, k, 0, g);
    LayoutAt(s, k, 1, g);
    LayoutAt(s, k, 2, g);
  }

  lemma DataValues(s: Streams, k: nat, g: nat)
    requires Sized(s, k) && g < k
    ensures Layout(s, k)[8 * g] == ToByte(s.x[g])
    ensures Layout(s, k)[8 * g + 1] == ToByte(s.z[g])
    ensures Layout(s, k)[8 * g + 2] == ToByte(s.zi[g])
  {
    GroupValues(s, k, g);
  }

  ghost predicate Holds(a: array<Byte>, us: seq<bool>)
    reads a
  {
    a.Length >= |us| && forall i | 0 <= i < |us| :: a[i] == ToByte(us[i])
  }

  /** The output loop and the twelve tail writes, walking y in groups of eight. */
  method LayOut(x: array<Byte>, parity1: array<Byte>, parity2: array<Byte>, xInterleaved: array<Byte>,
                kBit: nat, y: array<Byte>, ghost s: Streams)
    requires y != x && y != parity1 && y != parity2 && y != xInterleaved
    requires Sized(s, kBit) && y.Length >= 8 * (kBit + 4)
    requires Holds(x, s.x) && Holds(parity1, s.z) && Holds(xInterleaved, s.xi) && Holds(parity2, s.zi)
    modifies y
    ensures Written(Layout(s, kBit), old(y[..]), y[..], 8 * (kBit + 4))
  {
    ghost var before := y[..];
    var at := 0;
    var i := 0;
    while i < kBit
      invariant 0 <= i <= kBit && at == 8 * i
      invariant Written(Layout(s, kBit), before, y[..], at)
    {
      PutData(x[i], parity1[i], parity2[i], i, at, kBit, y, s, before);
      at := at + 8;
      i := i + 1;
    }
    PutFirstTail(x, parity1, kBit, y, s, before);
    PutSecondTail(xInterleaved, parity2, kBit, y, s, before);
  }

  method PutData(a: Byte, b: Byte, c: Byte, i: nat, at: nat, kBit: nat, y: array<Byte>,
                 ghost s: Streams, ghost before: seq<Byte>)
    requires Sized(s, kBit) && i < kBit && at == 8 * i && Written(Layout(s, kBit), before, y[..], at)
    requires a == ToByte(s.x[i]) && b == ToByte(s.z[i]) && c == ToByte(s.zi[i])
    modifies y
    ensures Written(Layout(s, kBit), before, y[..], at + 8)
  {
    DataValues(s, kBit, i);
    PutGroup(y, at, a, b, c, Layout(s, kBit), before);
  }

  /** Tail bits of the first encoder: x p x, p x p. */
  method PutFirstTail(x: array<Byte>, parity1: array<Byte>, kBit: nat, y: array<Byte>,
                      ghost s: Streams, ghost before: seq<Byte>)
    requires y != x && y != parity1
    requires Sized(s, kBit) && Written(Layout(s, kBit), before, y[..], 8 * kBit)
    requires Holds(x, s.x) && Holds(parity1, s.z)
    modifies y
    ensures Written(Layout(s, kBit), before, y[..], 8 * kBit + 16)
  {
    ghost var want := Layout(s, kBit);
    GroupValues(s, kBit, kBit);
    PutGroup(y, 8 * kBit, x[kBit], parity1[kBit], x[kBit + 1], want, before);
    GroupValues(s, kBit, kBit + 1);
    PutGroup(y, 8 * kBit + 8, parity1[kBit + 1], x[kBit + 2], parity1[kBit + 2], want, before);
  }

  /** Tail bits of the second encoder: x p x, p x p. */
  method PutSecondTail(xInterleaved: array<Byte>, parity2: array<Byte>, kBit: nat, y: array<Byte>,
                       ghost s: Streams, ghost before: seq<Byte>)
    requires y != xInterleaved && y != parity2
    requires Sized(s, kBit) && Written(Layout(s, kBit), before, y[..], 8 * kBit + 16)
    requires Holds(xInterleaved, s.xi) && Holds(parity2, s.zi)
    modifies y
    ensures Written(Layout(s, kBit), before, y[..], 8 * (kBit + 4))
  {
    ghost var want := Layout(s, kBit);
    GroupValues(s, kBit, kBit + 2);
    PutGroup(y, 8 * kBit + 16, xInterleaved[kBit], parity2[kBit], xInterleaved[kBit + 1], want, before);
    GroupValues(s, kBit, kBit + 3);
    PutGroup(y, 8 * kBit + 24, parity2[kBit + 1], xInterleaved[kBit + 2], parity2[kBit + 2], want, before);
  }

  /** Soft symbols in place, then the end marker. */
  method MapSymbols(outbuf: array<Byte>)
    requires outbuf.Length >= 5
    modifies outbuf
    ensures outbuf[..] == Marked(old(outbuf[..]))
  {
    var i := 0;
    while i < outbuf.Length
      invariant 0 <= i <= outbuf.Length
      invariant forall n | 0 <= n < i :: outbuf[n] == Symbol(old(outbuf[n]))
      invariant forall n | i <= n < outbuf.Length :: outbuf[n] == old(outbuf[n])
    {
      if outbuf[i] == 1 {
        outbuf[i] := 0x7f;
      } else {
        outbuf[i] := 0x80;
      }
      i := i + 1;
    }
    outbuf[outbuf.Length - 5] := MARKER;
  }

  /** Reverse every group of eight from outbuf into buf. */
  method SwapGroups(outbuf: array<Byte>, buf: array<Byte>)
    requires outbuf != buf && outbuf.Length % 8 == 0 && outbuf.Length <= buf.Length
    modifies buf
    ensures buf[..outbuf.Length] == Swapped(outbuf[..])
    ensures buf[outbuf.Length..] == old(buf[outbuf.Length..])
  {
    var i := 0;
    while i < outbuf.Length
      invariant 0 <= i <= outbuf.Length && i % 8 == 0
      invariant forall n | 0 <= n < i :: buf[n] == Swapped(outbuf[..])[n]
      invariant buf[outbuf.Length..] == old(buf[outbuf.Length..])
    {
      ReverseGroup(outbuf, buf, i);
      forall n | i <= n < i + 8
        ensures buf[n] == Swapped(outbuf[..])[n]
      {
        GroupIndex(i, n);
      }
      i := i + 8;
    }
  }

  lemma GroupIndex(i: nat, n: nat)
    requires i % 8 == 0 && i <= n < i + 8
    ensures 8 * (n / 8) + 7 - n % 8 == i + 7 - (n - i)
  {
  }

  method ReverseGroup(outbuf: array<Byte>, buf: array<Byte>, i: nat)
    requires outbuf != buf && i + 8 <= outbuf.Length <= buf.Length
    modifies buf
    ensures forall n | i <= n < i + 8 :: buf[n] == outbuf[i + 7 - (n - i)]
    ensures buf[..i] == old(buf[..i]) && buf[i + 8..] == old(buf[i + 8..])
  {
    var j, k := 7, i;
    while k < i + 8
      invariant i <= k <= i + 8 && j == 7 - (k - i)
      invariant forall n | i <= n < k :: buf[n] == outbuf[i + 7 - (n - i)]
      invariant buf[..i] == old(buf[..i]) && buf[i + 8..] == old(buf[i + 8..])
    {
      buf[k] := outbuf[i + j];
      j := j - 1;
      k := k + 1;
    }
  }

  // ----- blocks -----

  function Zeros(n: nat): (z: seq<Byte>)
    ensures |z| == n
  {
    seq(n, _ => 0)
  }

  /** The source's block count. */
  function BlockCount(length: nat, blockSize: nat): (count: nat)
    requires blockSize > 0
    ensures length <= count * blockSize < length + blockSize
  {
    assert length == (length / blockSize) * blockSize + length % blockSize;
    if length % blockSize == 0 then length / blockSize else length / blockSize + 1
  }

  function Concat(blocks: seq<seq<Byte>>): seq<Byte>
  {
    if blocks == [] then [] else Concat(blocks[..|blocks| - 1]) + blocks[|blocks| - 1]
  }

  /**
   The write loop: block i goes out at offset i * blockSize, until a write returns anything but the
   block size. `returned` is what the device answers to each write.
   */
  method WriteBlocks(buf: array<Byte>, count: nat, blockSize: nat, returned: seq<int>)
    returns (status: int, sent: seq<seq<Byte>>)
    requires count * blockSize == buf.Length && |returned| == count
    ensures status == 0 <==> forall i | 0 <= i < count :: returned[i] == blockSize
    ensures status == 0 || status == -1
    ensures status == 0 ==> |sent| == count && Concat(sent) == buf[..]
    ensures status == -1 ==> 0 < |sent| <= count && returned[|sent| - 1] != blockSize
    ensures forall i | 0 <= i < |sent| :: |sent[i]| == blockSize
    ensures |sent| * blockSize <= buf.Length && Concat(sent) == buf[..|sent| * blockSize]
  {
    sent := [];
    var i := 0;
    while i < count
      invariant 0 <= i <= count && |sent| == i && i * blockSize <= buf.Length
      invariant forall n | 0 <= n < i :: returned[n] == blockSize
      invariant forall n | 0 <= n < i :: |sent[n]| == blockSize
      invariant Concat(sent) == buf[..i * blockSize]
    {
      BlockInRange(i, count, blockSize);
      var block := buf[i * blockSize..i * blockSize + blockSize];
      assert (sent + [block])[..i] == sent;
      assert buf[..(i + 1) * blockSize] == buf[..i * blockSize] + block;
      sent := sent + [block];
      if returned[i] != blockSize {
        return -1, sent;
      }
      i := i + 1;
    }
    assert buf[..i * blockSize] == buf[..];
    return 0, sent;
  }

  lemma BlockInRange(i: nat, count: nat, blockSize: nat)
    requires i < count
    ensures 0 <= i * blockSize && i * blockSize + blockSize == (i + 1) * blockSize <= count * blockSize
  {
    Words.MulMonotone(blockSize, i + 1, count);
    assert blockSize * (i + 1) == i * blockSize + blockSize;
  }

  /** The code streams of a byte string under interleaver parameters f1 and f2. */
  ghost function StreamsFor(bytes: seq<Byte>, f1: nat, f2: nat): (s: Streams)
    ensures Sized(s, 8 * |bytes|)
  {
    StreamsOf(Unpack(bytes), Interleaver.Interleaved(Unpack(bytes), f1, f2, 8 * |bytes|))
  }

  /** Data and interleaved data, each with a tail that ends its encoder in the zero state, and with its parity. */
  ghost predicate StreamsEncode(s: Streams, bytes: seq<Byte>, f1: nat, f2: nat)
    requires Sized(s, 8 * |bytes|)
  {
    && s.x[..8 * |bytes|] == DataBits(bytes) && Coded(s.x, s.z)
    && s.xi[..8 * |bytes|] == PermutedBits(DataBits(bytes), f1, f2) && Coded(s.xi, s.zi)
  }

  lemma StreamsForEncode(bytes: seq<Byte>, f1: nat, f2: nat)
    ensures StreamsEncode(StreamsFor(bytes, f1, f2), bytes, f1, f2)
  {
    UnpackIs(bytes);
    InterleavedIs(DataBits(bytes), f1, f2);
    EncoderCodes(DataBits(bytes));
    EncoderCodes(PermutedBits(DataBits(bytes), f1, f2));
    PrefixOfTerminated(DataBits(bytes));
    PrefixOfTerminated(PermutedBits(DataBits(bytes), f1, f2));
  }

  lemma PrefixOfTerminated(us: seq<bool>)
    ensures Terminated(us)[..|us|] == us
  {
  }

  /** Both constituent encoders over the unpacked bits and their interleaving. */
  method EncodeStreams(bytes: seq<Byte>, f1: nat, f2: nat)
    returns (x: array<Byte>, parity1: array<Byte>, parity2: array<Byte>, xInterleaved: array<Byte>)
    requires 0 < |bytes| <= 768 && Interleaver.FitsBelow(f1, f2, 8 * |bytes|, Words.TWO31)
    ensures fresh(x) && fresh(parity1) && fresh(parity2) && fresh(xInterleaved)
    ensures var s := StreamsFor(bytes, f1, f2);
      Holds(x, s.x) && Holds(parity1, s.z) && Holds(xInterleaved, s.xi) && Holds(parity2, s.zi)
    ensures StreamsEncode(StreamsFor(bytes, f1, f2), bytes, f1, f2)
  {
    StreamsForEncode(bytes, f1, f2);
    var kBit := 8 * |bytes|;
    x := new Byte[kBit + 3](_ => 0);
    xInterleaved := new Byte[kBit + 3](_ => 0);
    parity1 := new Byte[kBit + 3](_ => 0);
    parity2 := new Byte[kBit + 3](_ => 0);
    UnpackInto(bytes, x);
    Interleaver.ParametersFit(f1, f2, kBit);
    Interleaver.InterleaveSigned(x, f1 as Interleaver.int32, f2 as Interleaver.int32,
                                 kBit as Interleaver.int32, xInterleaved);
    ghost var us := Unpack(bytes);
    InterleavedBytes(x[..], us, f1, f2, kBit);
    EncodeStream(x, kBit, parity1, us);
    EncodeStream(xInterleaved, kBit, parity2, Interleaver.Interleaved(us, f1, f2, kBit));
  }

  method EncodeStream(a: array<Byte>, kBit: nat, parity: array<Byte>, ghost us: seq<bool>)
    requires a != parity && a.Length == kBit + 3 == parity.Length
    requires |us| == kBit && a[..kBit] == Bytes(us)
    modifies a, parity
    ensures Holds(a, Terminated(us)) && Holds(parity, Output(Terminated(us)))
  {
    Encode(a, kBit, parity);
    HoldsConcat(a, us, Tail(Run(us)));
    HoldsPrefix(parity, Output(Terminated(us)));
  }

  lemma InterleavedBytes(s: seq<Byte>, us: seq<bool>, f1: nat, f2: nat, k: nat)
    requires k <= |s| && |us| == k && s[..k] == Bytes(us)
    ensures Interleaver.Interleaved(s, f1, f2, k) == Bytes(Interleaver.Interleaved(us, f1, f2, k))
  {
    forall i | 0 <= i < k
      ensures s[i] == ToByte(us[i])
    {
      assert s[..k][i] == s[i];
    }
  }

  lemma HoldsPrefix(a: array<Byte>, us: seq<bool>)
    requires a.Length >= |us| && a[..|us|] == Bytes(us)
    ensures Holds(a, us)
  {
    assert forall i | 0 <= i < |us| :: a[i] == a[..|us|][i];
  }

  lemma HoldsConcat(a: array<Byte>, us: seq<bool>, ts: seq<bool>)
    requires a.Length >= |us| + |ts| && a[..|us|] == Bytes(us)
    requires a[|us|..|us| + |ts|] == Bytes(ts)
    ensures Holds(a, us + ts)
  {
    assert forall i | 0 <= i < |us| :: a[i] == a[..|us|][i];
    forall i | |us| <= i < |us| + |ts|
      ensures a[i] == ToByte(ts[i - |us|])
    {
      assert a[i] == a[|us|..|us| + |ts|][i - |us|];
    }
  }

  lemma WrittenOverZeros(s: Streams, k: nat, after: seq<Byte>)
    requires Sized(s, k) && Written(Layout(s, k), Zeros(8 * (k + 4)), after, 8 * (k + 4))
    ensures after == Layout(s, k)
  {
  }

  /** Symbols, marker and swap, into a zeroed buffer of whole blocks. */
  method Finish(outbuf: array<Byte>, blockSize: nat) returns (buf: array<Byte>)
    requires outbuf.Length >= 5 && outbuf.Length % 8 == 0 && blockSize > 0
    modifies outbuf
    ensures fresh(buf) && buf.Length == BlockCount(outbuf.Length, blockSize) * blockSize
    ensures buf[..] == Swapped(Marked(old(outbuf[..]))) + Zeros(buf.Length - outbuf.Length)
  {
    MapSymbols(outbuf);
    var count := BlockCount(outbuf.Length, blockSize);
    buf := new Byte[count * blockSize](_ => 0);
    SwapGroups(outbuf, buf);
    assert buf[outbuf.Length..] == Zeros(buf.Length - outbuf.Length);
    assert buf[..] == buf[..outbuf.Length] + buf[outbuf.Length..];
  }

  /** The code bits of a byte string, laid out over zeros. */
  method LayOutStreams(bytes: seq<Byte>, f1: nat, f2: nat) returns (outbuf: array<Byte>)
    requires 0 < |bytes| <= 768 && Interleaver.FitsBelow(f1, f2, 8 * |bytes|, Words.TWO31)
    ensures fresh(outbuf) && outbuf[..] == Layout(StreamsFor(bytes, f1, f2), 8 * |bytes|)
  {
    var x, parity1, parity2, xInterleaved := EncodeStreams(bytes, f1, f2);
    ghost var s := StreamsFor(bytes, f1, f2);
    var kBit := 8 * |bytes|;
    outbuf := new Byte[8 * (kBit + 4)](_ => 0);
    assert outbuf[..] == Zeros(8 * (kBit + 4));
    LayOut(x, parity1, parity2, xInterleaved, kBit, outbuf, s);
    WrittenOverZeros(s, kBit, outbuf[..]);
  }

  lemma StreamsForBits(bytes: seq<Byte>, f1: nat, f2: nat, us: seq<bool>, t: seq<bool>)
    requires us == Unpack(bytes) && t == Interleaver.Interleaved(us, f1, f2, 8 * |bytes|)
    ensures StreamsFor(bytes, f1, f2) == StreamsOf(us, t) && FrameOf(bytes, f1, f2) == FrameOfBits(us, t)
  {
  }

  /** Symbols, marker, swap and padding over the layout of two bit strings. */
  method FinishBits(outbuf: array<Byte>, blockSize: nat, ghost us: seq<bool>, ghost t: seq<bool>)
    returns (buf: array<Byte>)
    requires |us| == |t| && outbuf[..] == Layout(StreamsOf(us, t), |us|) && blockSize > 0
    modifies outbuf
    ensures fresh(buf) && buf.Length == BlockCount(8 * (|us| + 4), blockSize) * blockSize
    ensures buf[..] == FrameOfBits(us, t) + Zeros(buf.Length - 8 * (|us| + 4))
  {
    buf := Finish(outbuf, blockSize);
  }

  /** The frame, padded with zeros to whole blocks. */
  method FrameWith(bytes: seq<Byte>, f1: nat, f2: nat, blockSize: nat) returns (buf: array<Byte>)
    requires 0 < |bytes| <= 768 && Interleaver.FitsBelow(f1, f2, 8 * |bytes|, Words.TWO31) && blockSize > 0
    ensures fresh(buf) && buf.Length == BlockCount(64 * |bytes| + 32, blockSize) * blockSize
    ensures buf[..] == FrameOf(bytes, f1, f2) + Zeros(buf.Length - (64 * |bytes| + 32))
  {
    var outbuf := LayOutStreams(bytes, f1, f2);
    ghost var us := Unpack(bytes);
    ghost var t := Interleaver.Interleaved(us, f1, f2, 8 * |bytes|);
    StreamsForBits(bytes, f1, f2, us, t);
    buf := FinishBits(outbuf, blockSize, us, t);
  }

  /** The row of a byte count; with it the int loop stays in range exactly for the byte counts listed as safe. */
  method LookUp(n: nat) returns (f1: nat, f2: nat)
    requires 5 <= n <= 768
    ensures f1 == Table.F1(n) && f2 == Table.F2(n)
    ensures Interleaver.FitsBelow(f1, f2, 8 * n, Words.TWO31) <==> WordTable.SignedSafe(n)
  {
    var row := Table.GetFIndex(n);
    f1, f2 := Table.Row(row).0, Table.Row(row).1;
    Interleaver.SignedRange(n);
  }

  /**
   getoutput and main together: the row is looked up and the frame built with it; for the standard's sizes it reads
   back as the bytes from each of its three streams.
   */
  method BuildFrame(bytes: seq<Byte>, blockSize: nat) returns (buf: array<Byte>, f1: nat, f2: nat)
    requires 5 <= |bytes| <= 768 && WordTable.SignedSafe(|bytes|) && blockSize > 0
    ensures f1 == Table.F1(|bytes|) && f2 == Table.F2(|bytes|)
    ensures fresh(buf) && buf.Length == BlockCount(64 * |bytes| + 32, blockSize) * blockSize
    ensures buf[..] == FrameOf(bytes, f1, f2) + Zeros(buf.Length - (64 * |bytes| + 32))
    ensures forall i | 64 * |bytes| + 32 <= i < buf.Length :: buf[i] == 0
    ensures Encodes(buf[..64 * |bytes| + 32], DataBits(bytes), PermutedBits(DataBits(bytes), f1, f2))
    ensures Table.Legal(|bytes|) ==> ReadsBack(FrameOf(bytes, f1, f2), bytes, f1, f2)
  {
    f1, f2 := LookUp(|bytes|);
    buf := FrameWith(bytes, f1, f2, blockSize);
    assert buf[..64 * |bytes| + 32] == FrameOf(bytes, f1, f2);
    FrameIff(FrameOf(bytes, f1, f2), bytes, f1, f2);
    if Table.Legal(|bytes|) {
      LegalRoundTrips(bytes, f1, f2);
    }
  }
}
