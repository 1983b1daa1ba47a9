/**
 The recursive systematic convolutional encoder of the turbo code (3GPP TS 36.212, sections
 5.1.3.2.1 and 5.1.3.2.2): a three-stage shift register with feedback 1 + D^2 + D^3 and output
 1 + D + D^3, followed by three tail bits that empty the register.
 */
module Rsc {
  import opened ByteStreams

  datatype Register = Register(d1: bool, d2: bool, d3: bool)

  const ZERO := Register(false, false, false)

  function Xor(a: bool, b: bool): bool
  {
    a != b
  }

  /** The bit that enters the register for input bit u. */
  function Feedback(r: Register, u: bool): bool
  {
    Xor(u, Xor(r.d2, r.d3))
  }

  function Shift(r: Register, f: bool): Register
  {
    Register(f, r.d1, r.d2)
  }

  /** Register contents after the whole input. */
  function Run(us: seq<bool>): Register
  {
    if us == [] then ZERO
    else
      var r := Run(us[..|us| - 1]);
      Shift(r, Feedback(r, us[|us| - 1]))
  }

  /** Parity bit for input u in state r. */
  function Parity(r: Register, u: bool): bool
  {
    Xor(Feedback(r, u), Xor(r.d1, r.d3))
  }

  function Output(us: seq<bool>): (zs: seq<bool>)
    ensures |zs| == |us|
  {
    if us == [] then []
    else
      var init := us[..|us| - 1];
      Output(init) + [Parity(Run(init), us[|us| - 1])]
  }

  /** The input bit that makes the feedback zero. */
  function TailBit(r: Register): bool
  {
    Xor(r.d2, r.d3)
  }

  function Tail(r: Register): (t: seq<bool>)
    ensures |t| == 3
  {
    var r1 := Shift(r, false);
    var r2 := Shift(r1, false);
    [TailBit(r), TailBit(r1), TailBit(r2)]
  }

  /** The input with its tail: what the encoder leaves in x. */
  function Terminated(us: seq<bool>): (t: seq<bool>)
    ensures |t| == |us| + 3
  {
    us + Tail(Run(us))
  }

  // ----- prefixes -----

  lemma RunSnoc(us: seq<bool>, u: bool)
    ensures Run(us + [u]) == Shift(Run(us), Feedback(Run(us), u))
    ensures Output(us + [u]) == Output(us) + [Parity(Run(us), u)]
  {
    assert (us + [u])[..|us|] == us;
  }

  lemma {:induction false} OutputPrefix(us: seq<bool>, n: nat)
    requires n <= |us|
    ensures Output(us)[..n] == Output(us[..n])
  {
    if n < |us| {
      OutputPrefix(us[..|us| - 1], n);
      assert us[..|us| - 1][..n] == us[..n];
    } else {
      assert us[..n] == us;
    }
  }

  lemma OutputAt(us: seq<bool>, i: nat)
    requires i < |us|
    ensures Output(us)[i] == Parity(Run(us[..i]), us[i])
    ensures Run(us[..i + 1]) == Shift(Run(us[..i]), Feedback(Run(us[..i]), us[i]))
  {
    var p := us[..i + 1];
    OutputPrefix(us, i + 1);
    assert p[..i] == us[..i];
    assert Output(us)[i] == Output(us)[..i + 1][i];
  }

  // ----- termination -----

  /** The three tail bits empty the register, and no other three bits do. */
  lemma TailEmptiesRegister(us: seq<bool>, t: seq<bool>)
    requires |t| == 3
    ensures Run(us + t) == ZERO <==> t == Tail(Run(us))
  {
    var a, b, c := us + [t[0]], us + [t[0]] + [t[1]], us + [t[0]] + [t[1]] + [t[2]];
    assert us + t == c;
    RunSnoc(us, t[0]);
    RunSnoc(a, t[1]);
    RunSnoc(b, t[2]);
    assert t == [t[0], t[1], t[2]];
  }

  // ----- the code equation over GF(2) -----

  /** Coefficient i of a stream, zero outside it. */
  function At(s: seq<bool>, i: int): bool
  {
    0 <= i < |s| && s[i]
  }

  /** Coefficient i of parity * (1 + D^2 + D^3) equals that of input * (1 + D + D^3). */
  predicate CodeEquation(us: seq<bool>, zs: seq<bool>, i: int)
  {
    Xor(At(zs, i), Xor(At(zs, i - 2), At(zs, i - 3))) == Xor(At(us, i), Xor(At(us, i - 1), At(us, i - 3)))
  }

  /** The bit that entered the register at step i. */
  function Entered(us: seq<bool>, i: int): bool
    requires i < |us|
  {
    0 <= i && Run(us[..i + 1]).d1
  }

  lemma {:induction false} RegisterHistory(us: seq<bool>, i: nat)
    requires i <= |us|
    ensures Run(us[..i]) == Register(Entered(us, i - 1), Entered(us, i - 2), Entered(us, i - 3))
  {
    if i > 0 {
      RegisterHistory(us, i - 1);
      OutputAt(us, i - 1);
    }
  }

  /** Input and parity as combinations of the bits that entered the register. */
  lemma StreamsFromHistory(us: seq<bool>, i: int)
    requires i < |us|
    ensures At(us, i) == Xor(Entered(us, i), Xor(Entered(us, i - 2), Entered(us, i - 3)))
    ensures At(Output(us), i) == Xor(Entered(us, i), Xor(Entered(us, i - 1), Entered(us, i - 3)))
  {
    if i >= 0 {
      RegisterHistory(us, i);
      RegisterHistory(us, i + 1);
      OutputAt(us, i);
    }
  }

  lemma OutputSatisfiesCode(us: seq<bool>, i: int)
    requires i < |us|
    ensures CodeEquation(us, Output(us), i)
  {
    StreamsFromHistory(us, i);
    StreamsFromHistory(us, i - 1);
    StreamsFromHistory(us, i - 2);
    StreamsFromHistory(us, i - 3);
  }

  lemma {:induction false} CodeDeterminesOutput(us: seq<bool>, zs: seq<bool>, n: nat)
    requires |zs| == |us| && n <= |us|
    requires forall i | 0 <= i < |us| :: CodeEquation(us, zs, i)
    ensures zs[..n] == Output(us)[..n]
  {
    if n > 0 {
      CodeDeterminesOutput(us, zs, n - 1);
      OutputSatisfiesCode(us, n - 1);
      var out := Output(us);
      assert CodeEquation(us, zs, n - 1);
      forall j: int | j < n - 1
        ensures At(zs, j) == At(out, j)
      {
        if j >= 0 {
          assert zs[..n - 1][j] == out[..n - 1][j];
        }
      }
      assert zs[..n] == zs[..n - 1] + [zs[n - 1]];
      assert out[..n] == out[..n - 1] + [out[n - 1]];
    }
  }

  /** A stream is the encoder's parity exactly when it satisfies the code equation at every index. */
  lemma CodeEquationIff(us: seq<bool>, zs: seq<bool>)
    requires |zs| == |us|
    ensures zs == Output(us) <==> forall i | 0 <= i < |us| :: CodeEquation(us, zs, i)
  {
    forall i | 0 <= i < |us|
      ensures CodeEquation(us, Output(us), i)
    {
      OutputSatisfiesCode(us, i);
    }
    if forall i | 0 <= i < |us| :: CodeEquation(us, zs, i) {
      CodeDeterminesOutput(us, zs, |us|);
      assert zs == zs[..|us|] == Output(us)[..|us|] == Output(us);
    }
  }

  // ----- linearity -----

  function XorStream(a: seq<bool>, b: seq<bool>): (c: seq<bool>)
    requires |a| == |b|
    ensures |c| == |a|
  {
    seq(|a|, i requires 0 <= i < |a| => Xor(a[i], b[i]))
  }

  function XorRegister(a: Register, b: Register): Register
  {
    Register(Xor(a.d1, b.d1), Xor(a.d2, b.d2), Xor(a.d3, b.d3))
  }

  lemma StepLinear(ra: Register, rb: Register, a: bool, b: bool)
    ensures Feedback(XorRegister(ra, rb), Xor(a, b)) == Xor(Feedback(ra, a), Feedback(rb, b))
    ensures Parity(XorRegister(ra, rb), Xor(a, b)) == Xor(Parity(ra, a), Parity(rb, b))
  {
  }

  lemma {:induction false} RunLinear(a: seq<bool>, b: seq<bool>)
    requires |a| == |b|
    ensures Run(XorStream(a, b)) == XorRegister(Run(a), Run(b))
    ensures Output(XorStream(a, b)) == XorStream(Output(a), Output(b))
  {
    if a != [] {
      var n := |a| - 1;
      RunLinear(a[..n], b[..n]);
      StepLinear(Run(a[..n]), Run(b[..n]), a[n], b[n]);
      var c := XorStream(a, b);
      assert c == XorStream(a[..n], b[..n]) + [Xor(a[n], b[n])];
      RunSnoc(XorStream(a[..n], b[..n]), Xor(a[n], b[n]));
      OutputSnocXor(Output(a[..n]), Output(b[..n]), Parity(Run(a[..n]), a[n]), Parity(Run(b[..n]), b[n]));
    }
  }

  lemma OutputSnocXor(a: seq<bool>, b: seq<bool>, p: bool, q: bool)
    requires |a| == |b|
    ensures XorStream(a + [p], b + [q]) == XorStream(a, b) + [Xor(p, q)]
  {
  }

  lemma TailLinear(a: Register, b: Register)
    ensures Tail(XorRegister(a, b)) == XorStream(Tail(a), Tail(b))
  {
  }

  lemma XorStreamConcat(a: seq<bool>, b: seq<bool>, s: seq<bool>, t: seq<bool>)
    requires |a| == |b| && |s| == |t|
    ensures XorStream(a + s, b + t) == XorStream(a, b) + XorStream(s, t)
  {
  }

  /** Parity and tail of a sum are the sums of the parities and tails. */
  lemma EncoderLinear(a: seq<bool>, b: seq<bool>)
    requires |a| == |b|
    ensures Terminated(XorStream(a, b)) == XorStream(Terminated(a), Terminated(b))
    ensures Output(Terminated(XorStream(a, b))) == XorStream(Output(Terminated(a)), Output(Terminated(b)))
  {
    RunLinear(a, b);
    TailLinear(Run(a), Run(b));
    XorStreamConcat(a, b, Tail(Run(a)), Tail(Run(b)));
    RunLinear(Terminated(a), Terminated(b));
  }

  // ----- recovering the input from the parity alone -----

  /** The register and the input recovered by running the recurrence on a parity stream. */
  function Recover(zs: seq<bool>): (r: (Register, seq<bool>))
    ensures |r.1| == |zs|
  {
    if zs == [] then (ZERO, [])
    else
      var (r, us) := Recover(zs[..|zs| - 1]);
      var f := Xor(zs[|zs| - 1], Xor(r.d1, r.d3));
      (Shift(r, f), us + [Xor(f, Xor(r.d2, r.d3))])
  }

  lemma {:induction false} RecoverInvertsOutput(us: seq<bool>)
    ensures Recover(Output(us)) == (Run(us), us)
  {
    if us != [] {
      var init, u := us[..|us| - 1], us[|us| - 1];
      RecoverInvertsOutput(init);
      assert us == init + [u];
      RunSnoc(init, u);
      assert Output(us)[..|us| - 1] == Output(init);
    }
  }

  lemma {:induction false} OutputInvertsRecover(zs: seq<bool>)
    ensures Output(Recover(zs).1) == zs && Run(Recover(zs).1) == Recover(zs).0
  {
    if zs != [] {
      var init := zs[..|zs| - 1];
      OutputInvertsRecover(init);
      RunSnoc(Recover(init).1, Recover(zs).1[|zs| - 1]);
      assert Recover(zs).1 == Recover(init).1 + [Recover(zs).1[|zs| - 1]];
      assert zs == init + [zs[|zs| - 1]];
    }
  }

  /** The data part of a terminated block is recovered from its parity. */
  lemma DataFromParity(us: seq<bool>)
    ensures Recover(Output(Terminated(us))).1[..|us|] == us
    ensures Recover(Output(Terminated(us))[..|us|]).1 == us
  {
    RecoverInvertsOutput(Terminated(us));
    OutputPrefix(Terminated(us), |us|);
    assert Terminated(us)[..|us|] == us;
    RecoverInvertsOutput(us);
  }

  // ----- the encoder loop -----

  lemma MaskedXor(a: Byte, b: Byte)
    ensures (a ^ b) & 1 == ToByte(Xor(LowBit(a), LowBit(b)))
  {
  }

  lemma MaskedXor3(a: Byte, b: Byte, c: Byte)
    ensures (a ^ b ^ c) & 1 == ToByte(Xor(LowBit(a), Xor(LowBit(b), LowBit(c))))
  {
  }

  /** Each tail bit is the one that makes the feedback zero at its step. */
  lemma TailStep(us: seq<bool>, i: nat)
    requires |us| <= i < |us| + 3
    ensures Terminated(us)[i] == TailBit(Run(Terminated(us)[..i]))
  {
    var t := Tail(Run(us));
    var ts := Terminated(us);
    assert ts[..|us|] == us;
    assert ts[..|us| + 1] == us + [t[0]];
    assert ts[..|us| + 2] == us + [t[0]] + [t[1]];
    RunSnoc(us, t[0]);
    RunSnoc(us + [t[0]], t[1]);
  }

  /** The source's encoder: parity for kBit + 3 steps, the tail bits written back into x. */
  method Encode(x: array<Byte>, kBit: nat, parity: array<Byte>)
    requires x != parity && kBit + 3 <= x.Length && kBit + 3 <= parity.Length
    modifies x, parity
    ensures x[..kBit] == old(x[..kBit]) && x[kBit + 3..] == old(x[kBit + 3..])
    ensures x[kBit..kBit + 3] == Bytes(Tail(Run(Bits(old(x[..kBit])))))
    ensures parity[..kBit + 3] == Bytes(Output(Terminated(Bits(old(x[..kBit])))))
    ensures parity[kBit + 3..] == old(parity[kBit + 3..])
  {
    ghost var us := Bits(x[..kBit]);
    ghost var ts := Terminated(us);
    var p0: Byte, p1: Byte, p2: Byte, p3: Byte, p4: Byte := 0x30, 0x30, 0x30, 0x30, 0x30;
    var i := 0;
    while i < kBit + 3
      invariant 0 <= i <= kBit + 3
      invariant Register(LowBit(p0), LowBit(p1), LowBit(p2)) == Run(ts[..i])
      invariant x[..kBit] == old(x[..kBit]) && x[kBit + 3..] == old(x[kBit + 3..])
      invariant forall j | kBit <= j < i :: x[j] == ToByte(ts[j])
      invariant forall j | 0 <= j < i :: parity[j] == ToByte(Output(ts)[j])
      invariant parity[kBit + 3..] == old(parity[kBit + 3..])
    {
      OutputAt(ts, i);
      p3 := p2;
      p2 := p1;
      p1 := p0;
      MaskedXor(p2, p3);
      p4 := (p2 ^ p3) & 1;
      if i < kBit {
        assert ts[i] == LowBit(x[..kBit][i]);
        MaskedXor(x[i], p4);
        p0 := (x[i] ^ p4) & 1;
      } else {
        TailStep(us, i);
        MaskedXor(p4, p4);
        x[i] := p4;
        p0 := (p4 ^ p4) & 1;
      }
      MaskedXor3(p0, p1, p3);
      parity[i] := (p0 ^ p1 ^ p3) & 1;
      i := i + 1;
    }
  }
}
