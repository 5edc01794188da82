/** The FFT convolution engine: length planning, zero padding, the bin-by-bin
    product and the normalised read-out around the forward and inverse plans. */
module Convolution {
  import opened ComplexArith
  import opened Spectral
  import opened Transform

  // ---------------------------------------------------------------------------
  // Length planning

  predicate IsPowerOfTwo(n: nat)
    decreases n
  {
    n == 1 || (n >= 2 && n % 2 == 0 && IsPowerOfTwo(n / 2))
  }

  /** p is the transform length chosen for n samples: a power of two, at least n,
      whose half is below n (or p == 1). */
  predicate IsNextPowerOfTwo(n: nat, p: nat) {
    IsPowerOfTwo(p) && n <= p && (p == 1 || p / 2 < n)
  }

  lemma PowerOfTwoPositive(p: nat)
    requires IsPowerOfTwo(p)
    ensures p >= 1
  {
  }

  /** Below a power of two, the next smaller power of two is at most its half. */
  lemma {:induction false} PowerOfTwoBelow(q: nat, p: nat)
    requires IsPowerOfTwo(q) && IsPowerOfTwo(p) && q < p
    ensures 2 * q <= p
    decreases p
  {
    if q > 1 {
      PowerOfTwoBelow(q / 2, p / 2);
    }
  }

  /** The chosen length is the least power of two that holds n samples. */
  lemma NextPowerOfTwoLeast(n: nat, p: nat, q: nat)
    requires IsNextPowerOfTwo(n, p) && IsPowerOfTwo(q) && n <= q
    ensures p <= q
  {
    if q < p {
      PowerOfTwoBelow(q, p);
    }
  }

  /** ... so it is unique. */
  lemma NextPowerOfTwoUnique(n: nat, p: nat, q: nat)
    requires IsNextPowerOfTwo(n, p) && IsNextPowerOfTwo(n, q)
    ensures p == q
  {
    NextPowerOfTwoLeast(n, p, q);
    NextPowerOfTwoLeast(n, q, p);
  }

  /** `next_power_of_2`: 1 for n <= 1, otherwise doubles from 1 until it reaches n. */
  method NextPowerOf2(n: nat) returns (power: nat)
    ensures n <= 1 ==> power == 1
    ensures IsNextPowerOfTwo(n, power)
  {
    if n <= 1 {
      return 1;
    }
    power := 1;
    while power < n
      invariant IsPowerOfTwo(power)
      invariant power / 2 < n
      decreases n - power
    {
      power := power * 2;
    }
  }

  /** The lengths 1, 5, 16 and 17 are planned as 1, 8, 16 and 32. */
  method NextPowerOf2Examples() returns (p1: nat, p5: nat, p16: nat, p17: nat)
    ensures p1 == 1 && p5 == 8 && p16 == 16 && p17 == 32
  {
    p1 := NextPowerOf2(1);
    p5 := NextPowerOf2(5);
    assert IsNextPowerOfTwo(5, 8);
    NextPowerOfTwoUnique(5, p5, 8);
    p16 := NextPowerOf2(16);
    assert IsNextPowerOfTwo(16, 16);
    NextPowerOfTwoUnique(16, p16, 16);
    p17 := NextPowerOf2(17);
    assert IsNextPowerOfTwo(17, 32);
    NextPowerOfTwoUnique(17, p17, 32);
  }

  // ---------------------------------------------------------------------------
  // Zero padding

  /** A real signal lifted into the complex plane and cut or zero-padded to n samples. */
  function Padded(s: seq<real>, n: nat): seq<Complex> {
    seq(n, (i: nat) => if i < |s| then FromReal(s[i]) else Zero)
  }

  function RealParts(x: seq<Complex>): (r: seq<real>)
    ensures |r| == |x|
    ensures forall i :: 0 <= i < |x| ==> r[i] == x[i].re
  {
    seq(|x|, (i: nat) requires i < |x| => x[i].re)
  }

  function Zeros(n: nat): (r: seq<real>)
    ensures |r| == n
    ensures forall i :: 0 <= i < n ==> r[i] == 0.0
  {
    seq(n, (i: nat) => 0.0)
  }

  /** Padding loses nothing but the samples beyond the target length: the real parts
      give back the signal (cut to n, or followed by zeros) and every imaginary part is 0. */
  lemma PaddedRoundTrip(s: seq<real>, n: nat)
    ensures RealParts(Padded(s, n)) == if n <= |s| then s[..n] else s + Zeros(n - |s|)
    ensures forall i :: 0 <= i < n ==> Padded(s, n)[i].im == 0.0
  {
    var r := RealParts(Padded(s, n));
    if n <= |s| {
      assert forall i :: 0 <= i < n ==> r[i] == s[..n][i];
    } else {
      var z := s + Zeros(n - |s|);
      assert forall i :: 0 <= i < n ==> r[i] == z[i];
    }
  }

  /** When both signals are non-empty, the planned length holds each of them whole:
      padding to it only appends zeros. */
  lemma PaddingKeepsInputs(s1: seq<real>, s2: seq<real>, len: nat)
    requires |s1| >= 1 && |s2| >= 1 && IsNextPowerOfTwo(|s1| + |s2| - 1, len)
    ensures RealParts(Padded(s1, len)) == s1 + Zeros(len - |s1|)
    ensures RealParts(Padded(s2, len)) == s2 + Zeros(len - |s2|)
  {
    PaddedRoundTrip(s1, len);
    PaddedRoundTrip(s2, len);
    if len == |s1| {
      assert s1[..len] == s1 + Zeros(0);
    }
    if len == |s2| {
      assert s2[..len] == s2 + Zeros(0);
    }
  }

  /** `to_complex_padded`: a zero buffer of the target length, then every sample whose
      index is below the target length written into its slot. */
  method ToComplexPadded(signal: seq<real>, targetLen: nat) returns (buffer: array<Complex>)
    ensures fresh(buffer)
    ensures buffer[..] == Padded(signal, targetLen)
  {
    buffer := new Complex[targetLen](_ => Zero);
    for i := 0 to |signal|
      invariant buffer[..] == Padded(signal[..i], targetLen)
    {
      if i < targetLen {
        buffer[i] := FromReal(signal[i]);
      }
    }
    assert signal[..|signal|] == signal;
  }

  // ---------------------------------------------------------------------------
  // Bin product and read-out

  /** The frequency-domain product: bin i of `a` is multiplied by bin i of `b`. */
  method MultiplyBins(a: array<Complex>, b: array<Complex>)
    requires a != b && a.Length == b.Length
    modifies a
    ensures a[..] == Pointwise(old(a[..]), b[..])
    ensures unchanged(b)
  {
    for i := 0 to a.Length
      invariant a[..i] == Pointwise(old(a[..]), b[..])[..i]
      invariant a[i..] == old(a[..])[i..]
    {
      a[i] := Mul(a[i], b[i]);
    }
  }

  /** The first outputLen real parts of a buffer, each divided by the transform
      length (the inverse plan does not normalise). */
  function ReadOut(y: seq<Complex>, outputLen: nat, fftLen: nat): (r: seq<real>)
    requires outputLen <= |y| && fftLen >= 1
    ensures |r| == outputLen
  {
    seq(outputLen, (i: nat) requires i < outputLen => y[i].re / (fftLen as real))
  }

  /** The read-out loop: a zero array of the output length, then entry i set to the
      real part of bin i over the transform length. */
  method ExtractNormalised(buffer: array<Complex>, outputLen: nat, fftLen: nat) returns (result: seq<real>)
    requires outputLen <= buffer.Length && fftLen >= 1
    ensures result == ReadOut(buffer[..], outputLen, fftLen)
  {
    var out := new real[outputLen](_ => 0.0);
    for i := 0 to outputLen
      invariant forall k :: 0 <= k < i ==> out[k] == buffer[k].re / (fftLen as real)
    {
      out[i] := buffer[i].re / (fftLen as real);
    }
    result := out[..];
  }

  // ---------------------------------------------------------------------------
  // Linear convolution, the reference the engine is measured against

  /** The product s1[j] * s2[t - j] that output sample t receives from input sample j. */
  function ConvTerm(s1: seq<real>, s2: seq<real>, t: nat, j: nat): real {
    if j < |s1| && j <= t && t - j < |s2| then s1[j] * s2[t - j] else 0.0
  }

  /** The sum of ConvTerm over j < m. */
  function ConvPartial(s1: seq<real>, s2: seq<real>, t: nat, m: nat): real
    decreases m
  {
    if m == 0 then 0.0 else ConvPartial(s1, s2, t, m - 1) + ConvTerm(s1, s2, t, m - 1)
  }

  /** (s1 * s2)[t] = sum over j of s1[j] s2[t - j], for the len1 + len2 - 1 outputs. */
  function LinearConvolution(s1: seq<real>, s2: seq<real>): (r: seq<real>)
    requires |s1| + |s2| >= 1
    ensures |r| == |s1| + |s2| - 1
  {
    seq(|s1| + |s2| - 1, (t: nat) => ConvPartial(s1, s2, t, t + 1))
  }

  lemma LinearConvolutionAt(s1: seq<real>, s2: seq<real>, t: nat)
    requires t < |s1| + |s2| - 1
    ensures LinearConvolution(s1, s2)[t] == ConvPartial(s1, s2, t, t + 1)
  {
  }

  /** Inputs past the output index contribute nothing. */
  lemma {:induction false} ConvPartialSettles(s1: seq<real>, s2: seq<real>, t: nat, m: nat)
    requires m >= t + 1
    ensures ConvPartial(s1, s2, t, m) == ConvPartial(s1, s2, t, t + 1)
    decreases m
  {
    if m > t + 1 {
      ConvPartialSettles(s1, s2, t, m - 1);
    }
  }

  /** Convolution is commutative: sample t of s1 * s2 is sample t of s2 * s1. */
  lemma LinearConvolutionCommutes(s1: seq<real>, s2: seq<real>)
    requires |s1| + |s2| >= 1
    ensures LinearConvolution(s1, s2) == LinearConvolution(s2, s1)
  {
    forall t | 0 <= t < |s1| + |s2| - 1
      ensures LinearConvolution(s1, s2)[t] == LinearConvolution(s2, s1)[t]
    {
      ConvPartialReflect(s1, s2, t, t + 1);
      LinearConvolutionAt(s1, s2, t);
      LinearConvolutionAt(s2, s1, t);
    }
  }

  /** Summing the swapped terms over j < m sums the original terms over
      t + 1 - m <= j <= t. */
  lemma {:induction false} ConvPartialReflect(s1: seq<real>, s2: seq<real>, t: nat, m: nat)
    requires m <= t + 1
    ensures ConvPartial(s2, s1, t, m) == ConvPartial(s1, s2, t, t + 1) - ConvPartial(s1, s2, t, t + 1 - m)
    decreases m
  {
    if m > 0 {
      ConvPartialReflect(s1, s2, t, m - 1);
      assert ConvTerm(s2, s1, t, m - 1) == ConvTerm(s1, s2, t, t + 1 - m);
    }
  }

  /** Convolving with the one-sample unit impulse gives the signal back. */
  lemma ConvolveWithImpulse(s: seq<real>)
    ensures LinearConvolution(s, [1.0]) == s
  {
    forall t | 0 <= t < |s|
      ensures LinearConvolution(s, [1.0])[t] == s[t]
    {
      ImpulseBelow(s, t, t);
      LinearConvolutionAt(s, [1.0], t);
    }
  }

  lemma {:induction false} ImpulseBelow(s: seq<real>, t: nat, m: nat)
    requires m <= t
    ensures ConvPartial(s, [1.0], t, m) == 0.0
    decreases m
  {
    if m > 0 {
      ImpulseBelow(s, t, m - 1);
    }
  }

  /** Every sample of s multiplied by k. */
  function Scaled(s: seq<real>, k: real): seq<real> {
    seq(|s|, (i: nat) requires i < |s| => s[i] * k)
  }

  /** Samples s[i] + u[i] of two signals of the same length. */
  function Summed(s: seq<real>, u: seq<real>): seq<real>
    requires |s| == |u|
  {
    seq(|s|, (i: nat) requires i < |s| => s[i] + u[i])
  }

  lemma {:induction false} ConvPartialScales(s1: seq<real>, s2: seq<real>, k: real, t: nat, m: nat)
    ensures ConvPartial(Scaled(s1, k), s2, t, m) == ConvPartial(s1, s2, t, m) * k
    decreases m
  {
    if m > 0 {
      ConvPartialScales(s1, s2, k, t, m - 1);
      assert ConvTerm(Scaled(s1, k), s2, t, m - 1) == ConvTerm(s1, s2, t, m - 1) * k;
    }
  }

  lemma {:induction false} ConvPartialAdds(s1: seq<real>, u1: seq<real>, s2: seq<real>, t: nat, m: nat)
    requires |s1| == |u1|
    ensures ConvPartial(Summed(s1, u1), s2, t, m) == ConvPartial(s1, s2, t, m) + ConvPartial(u1, s2, t, m)
    decreases m
  {
    if m > 0 {
      ConvPartialAdds(s1, u1, s2, t, m - 1);
      assert ConvTerm(Summed(s1, u1), s2, t, m - 1) == ConvTerm(s1, s2, t, m - 1) + ConvTerm(u1, s2, t, m - 1);
    }
  }

  /** Convolution is linear in its first signal. Scaling a signal scales its convolution. */
  lemma LinearConvolutionScales(s1: seq<real>, s2: seq<real>, k: real)
    requires |s1| + |s2| >= 1
    ensures LinearConvolution(Scaled(s1, k), s2) == Scaled(LinearConvolution(s1, s2), k)
  {
    forall t | 0 <= t < |s1| + |s2| - 1
      ensures LinearConvolution(Scaled(s1, k), s2)[t] == Scaled(LinearConvolution(s1, s2), k)[t]
    {
      ConvPartialScales(s1, s2, k, t, t + 1);
      LinearConvolutionAt(s1, s2, t);
      LinearConvolutionAt(Scaled(s1, k), s2, t);
    }
    assert |Scaled(s1, k)| == |s1|;
  }

  /** The convolution of a sum of two signals is the sum of their convolutions. */
  lemma LinearConvolutionAdds(s1: seq<real>, u1: seq<real>, s2: seq<real>)
    requires |s1| == |u1| && |s1| + |s2| >= 1
    ensures LinearConvolution(Summed(s1, u1), s2) == Summed(LinearConvolution(s1, s2), LinearConvolution(u1, s2))
  {
    forall t | 0 <= t < |s1| + |s2| - 1
      ensures LinearConvolution(Summed(s1, u1), s2)[t] == Summed(LinearConvolution(s1, s2), LinearConvolution(u1, s2))[t]
    {
      ConvPartialAdds(s1, u1, s2, t, t + 1);
      LinearConvolutionAt(s1, s2, t);
      LinearConvolutionAt(u1, s2, t);
      LinearConvolutionAt(Summed(s1, u1), s2, t);
    }
    assert |Summed(s1, u1)| == |s1|;
  }

  /** The worked example: [1, 2, 3] * [0.5, 1] = [0.5, 2, 3.5, 3]. */
  lemma ConvolutionExample()
    ensures LinearConvolution([1.0, 2.0, 3.0], [0.5, 1.0]) == [0.5, 2.0, 3.5, 3.0]
  {
    var s1 := [1.0, 2.0, 3.0];
    var s2 := [0.5, 1.0];
    assert ConvPartial(s1, s2, 0, 1) == 0.5;
    assert ConvPartial(s1, s2, 1, 1) == 1.0;
    assert ConvPartial(s1, s2, 1, 2) == 2.0;
    assert ConvPartial(s1, s2, 2, 1) == 0.0;
    assert ConvPartial(s1, s2, 2, 2) == 2.0;
    assert ConvPartial(s1, s2, 2, 3) == 3.5;
    assert ConvPartial(s1, s2, 3, 1) == 0.0;
    assert ConvPartial(s1, s2, 3, 2) == 0.0;
    assert ConvPartial(s1, s2, 3, 3) == 3.0;
    assert ConvPartial(s1, s2, 3, 4) == 3.0;
  }

  /** The expectation [0.5, 1.5, 2.5, 3] recorded for the same inputs is not their
      convolution: samples 1 and 2 differ (2 and 3.5). */
  lemma ConvolutionExampleAsRecorded()
    ensures LinearConvolution([1.0, 2.0, 3.0], [0.5, 1.0]) != [0.5, 1.5, 2.5, 3.0]
  {
    ConvolutionExample();
    assert [0.5, 2.0, 3.5, 3.0][1] != [0.5, 1.5, 2.5, 3.0][1];
  }

  lemma ConvolutionTermPadded(s1: seq<real>, s2: seq<real>, len: nat, t: nat, j: nat)
    requires t < len && j < len
    ensures ConvolutionTerms(Padded(s1, len), Padded(s2, len), t)(j) == FromReal(ConvTerm(s1, s2, t, j))
  {
    var a := Padded(s1, len);
    var b := Padded(s2, len);
    if j <= t {
      MulZero(a[j]);
      MulZero(b[t - j]);
    }
  }

  /** The convolution sum over the padded complex signals is the real linear convolution
      sum, lifted into the complex plane. */
  lemma {:induction false} PaddedConvolutionSum(s1: seq<real>, s2: seq<real>, len: nat, t: nat, m: nat)
    requires t < len && m <= len
    ensures Sum(m, ConvolutionTerms(Padded(s1, len), Padded(s2, len), t)) == FromReal(ConvPartial(s1, s2, t, m))
    decreases m
  {
    if m > 0 {
      PaddedConvolutionSum(s1, s2, len, t, m - 1);
      ConvolutionTermPadded(s1, s2, len, t, m - 1);
    }
  }

  lemma ScaleCancels(n: real, x: real)
    requires n > 0.0
    ensures Mul(FromReal(n), FromReal(x)).re / n == x
  {
    assert Mul(FromReal(n), FromReal(x)).re == n * x;
  }

  /** A padded signal is zero from its own length (or the target length) on. */
  lemma PaddedTail(s: seq<real>, len: nat, p: nat)
    requires p == (if |s| <= len then |s| else len)
    ensures forall i :: p <= i < len ==> Padded(s, len)[i] == Zero
  {
  }

  /** One output sample of the engine: with w a primitive root of the transform length,
      and that length at least the output length, normalised bin t of the inverse
      transform of the bin product is the linear convolution at t, and
      the imaginary part the read-out discards is exactly zero. */
  lemma EngineSample(s1: seq<real>, s2: seq<real>, w: Complex, len: nat, t: nat)
    requires |s1| + |s2| >= 1 && |s1| + |s2| - 1 <= len
    requires PrimitiveRoot(w, len)
    requires t < |s1| + |s2| - 1
    ensures Dft(Pointwise(Dft(Padded(s1, len), w), Dft(Padded(s2, len), w)), InverseRoot(w, len))[t].re / (len as real)
         == LinearConvolution(s1, s2)[t]
    ensures Dft(Pointwise(Dft(Padded(s1, len), w), Dft(Padded(s2, len), w)), InverseRoot(w, len))[t].im == 0.0
  {
    var a := Padded(s1, len);
    var b := Padded(s2, len);
    var p := if |s1| <= len then |s1| else len;
    var q := if |s2| <= len then |s2| else len;
    PaddedTail(s1, len, p);
    PaddedTail(s2, len, q);
    var x := ConvPartial(s1, s2, t, t + 1);
    var n := len as real;
    var v := Dft(Pointwise(Dft(a, w), Dft(b, w)), InverseRoot(w, len))[t];
    calc {
      v;
      { ConvolutionTheorem(a, b, w, p, q, t); }
      Mul(FromReal(n), Sum(len, ConvolutionTerms(a, b, t)));
      { PaddedConvolutionSum(s1, s2, len, t, len); ConvPartialSettles(s1, s2, t, len); }
      Mul(FromReal(n), FromReal(x));
    }
    ScaleCancels(n, x);
    assert v.re / n == x;
    LinearConvolutionAt(s1, s2, t);
  }

  /** The whole pipeline as a function of the two signals: reading out the first
      len1 + len2 - 1 normalised bins of the inverse transform of the bin product gives
      the linear convolution, whenever the transform length covers the output. */
  lemma EngineOutput(s1: seq<real>, s2: seq<real>, w: Complex, len: nat, outputLen: nat)
    requires |s1| + |s2| >= 1 && outputLen == |s1| + |s2| - 1 && outputLen <= len
    requires PrimitiveRoot(w, len)
    ensures ReadOut(Dft(Pointwise(Dft(Padded(s1, len), w), Dft(Padded(s2, len), w)), InverseRoot(w, len)), outputLen, len)
         == LinearConvolution(s1, s2)
  {
    var r := ReadOut(Dft(Pointwise(Dft(Padded(s1, len), w), Dft(Padded(s2, len), w)), InverseRoot(w, len)), outputLen, len);
    forall t | 0 <= t < outputLen
      ensures r[t] == LinearConvolution(s1, s2)[t]
    {
      EngineSample(s1, s2, w, len, t);
    }
  }

  /** The engine: pad both signals to the next power of two at or above the output
      length, transform them, multiply bin by bin, transform back with the inverse plan
      and keep the normalised real parts of the first len1 + len2 - 1 bins. */
  method FftConvolve(signal1: seq<real>, signal2: seq<real>, planner: nat -> Complex) returns (result: seq<real>)
    requires |signal1| + |signal2| >= 1
    requires ValidPlanner(planner)
    ensures result == LinearConvolution(signal1, signal2)
  {
    var outputLen := |signal1| + |signal2| - 1;
    var fftLen := NextPowerOf2(outputLen);
    PowerOfTwoPositive(fftLen);
    var fft := PlanForward(planner, fftLen);
    var ifft := PlanInverse(planner, fftLen);
    var s1 := ToComplexPadded(signal1, fftLen);
    var s2 := ToComplexPadded(signal2, fftLen);
    assert s1 != s2;
    ghost var w := planner(fftLen);
    ghost var x1 := s1[..];
    ghost var x2 := s2[..];
    Process(fft, s1);
    ghost var f1 := s1[..];
    Process(fft, s2);
    ghost var f2 := s2[..];
    assert s1[..] == f1 == Dft(x1, w) && f2 == Dft(x2, w);
    MultiplyBins(s1, s2);
    ghost var m := s1[..];
    assert m == Pointwise(f1, f2);
    Process(ifft, s1);
    ghost var y := Dft(m, InverseRoot(w, fftLen));
    assert s1[..] == y;
    result := ExtractNormalised(s1, outputLen, fftLen);
    assert result == ReadOut(y, outputLen, fftLen);
    PlannerRoot(planner, fftLen);
    EngineOutput(signal1, signal2, w, fftLen, outputLen);
  }

  /** The engine on the two short signals [1, 2, 3] and [0.5, 1]. */
  method FftConvolveExample(planner: nat -> Complex) returns (result: seq<real>)
    requires ValidPlanner(planner)
    ensures result == [0.5, 2.0, 3.5, 3.0]
  {
    result := FftConvolve([1.0, 2.0, 3.0], [0.5, 1.0], planner);
    ConvolutionExample();
  }

  /** The engine is linear in the reflectivity: run on k times a series, it returns
      k times the trace of that series. */
  method FftConvolveScales(signal1: seq<real>, signal2: seq<real>, k: real, planner: nat -> Complex)
    returns (trace: seq<real>, scaledTrace: seq<real>)
    requires |signal1| + |signal2| >= 1
    requires ValidPlanner(planner)
    ensures scaledTrace == Scaled(trace, k)
  {
    trace := FftConvolve(signal1, signal2, planner);
    scaledTrace := FftConvolve(Scaled(signal1, k), signal2, planner);
    LinearConvolutionScales(signal1, signal2, k);
  }
}
