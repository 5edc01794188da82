/** Finite sums, roots of unity and the discrete Fourier transform: the
    mathematics behind the forward and inverse plans of `rustfft`, stated
    over exact complex numbers. */
module Spectral {
  import opened ComplexArith

  /** f(0) + f(1) + ... + f(n - 1). */
  function Sum(n: nat, f: nat -> Complex): Complex
    decreases n
  {
    if n == 0 then Zero else Add(Sum(n - 1, f), f(n - 1))
  }

  lemma {:induction false} SumExt(n: nat, f: nat -> Complex, g: nat -> Complex)
    requires forall i :: 0 <= i < n ==> f(i) == g(i)
    ensures Sum(n, f) == Sum(n, g)
    decreases n
  {
    if n > 0 {
      SumExt(n - 1, f, g);
    }
  }

  lemma {:induction false} SumZero(n: nat, f: nat -> Complex)
    requires forall i :: 0 <= i < n ==> f(i) == Zero
    ensures Sum(n, f) == Zero
    decreases n
  {
    if n > 0 {
      SumZero(n - 1, f);
    }
  }

  /** A sum of pointwise sums splits into two sums. */
  lemma {:induction false} SumAdd(n: nat, f: nat -> Complex, g: nat -> Complex, h: nat -> Complex)
    requires forall i :: 0 <= i < n ==> h(i) == Add(f(i), g(i))
    ensures Sum(n, h) == Add(Sum(n, f), Sum(n, g))
    decreases n
  {
    if n > 0 {
      SumAdd(n - 1, f, g, h);
    }
  }

  /** A common left factor moves out of a sum. */
  lemma {:induction false} SumScaleLeft(n: nat, c: Complex, f: nat -> Complex, g: nat -> Complex)
    requires forall i :: 0 <= i < n ==> g(i) == Mul(c, f(i))
    ensures Sum(n, g) == Mul(c, Sum(n, f))
    decreases n
  {
    if n == 0 {
      MulZero(c);
    } else {
      SumScaleLeft(n - 1, c, f, g);
      MulAddRight(c, Sum(n - 1, f), f(n - 1));
    }
  }

  /** A common right factor moves out of a sum. */
  lemma SumScaleRight(n: nat, c: Complex, f: nat -> Complex, g: nat -> Complex)
    requires forall i :: 0 <= i < n ==> g(i) == Mul(f(i), c)
    ensures Sum(n, g) == Mul(Sum(n, f), c)
  {
    forall i | 0 <= i < n
      ensures g(i) == Mul(c, f(i))
    {
      MulComm(f(i), c);
    }
    SumScaleLeft(n, c, f, g);
    MulComm(Sum(n, f), c);
  }

  /** A sum whose terms vanish except at index m equals its term at m. */
  lemma {:induction false} SumDelta(n: nat, f: nat -> Complex, m: nat)
    requires m < n
    requires forall i :: 0 <= i < n && i != m ==> f(i) == Zero
    ensures Sum(n, f) == f(m)
    decreases n
  {
    if m == n - 1 {
      SumZero(n - 1, f);
    } else {
      SumDelta(n - 1, f, m);
    }
  }

  /** n copies of One add up to n. */
  lemma {:induction false} SumOfOnes(n: nat, f: nat -> Complex)
    requires forall i :: 0 <= i < n ==> f(i) == One
    ensures Sum(n, f) == FromReal(n as real)
    decreases n
  {
    if n > 0 {
      SumOfOnes(n - 1, f);
    }
  }

  function Row(F: (nat, nat) -> Complex, i: nat): nat -> Complex {
    (j: nat) => F(i, j)
  }

  function Col(F: (nat, nat) -> Complex, j: nat): nat -> Complex {
    (i: nat) => F(i, j)
  }

  function RowSums(F: (nat, nat) -> Complex, m: nat): nat -> Complex {
    (i: nat) => Sum(m, Row(F, i))
  }

  function ColSums(F: (nat, nat) -> Complex, n: nat): nat -> Complex {
    (j: nat) => Sum(n, Col(F, j))
  }

  /** The order of a finite double sum does not matter. */
  lemma {:induction false} SumSwap(n: nat, m: nat, F: (nat, nat) -> Complex)
    ensures Sum(n, RowSums(F, m)) == Sum(m, ColSums(F, n))
    decreases n
  {
    if n == 0 {
      SumZero(m, ColSums(F, 0));
    } else {
      SumSwap(n - 1, m, F);
      SumAdd(m, ColSums(F, n - 1), Row(F, n - 1), ColSums(F, n));
    }
  }

  /** k => z^k, the terms of a geometric series. */
  function Powers(z: Complex): nat -> Complex {
    (k: nat) => Pow(z, k)
  }

  /** (z - 1)(1 + z + ... + z^(n-1)) = z^n - 1. */
  lemma {:induction false} Telescope(z: Complex, n: nat)
    ensures Mul(Sub(z, One), Sum(n, Powers(z))) == Sub(Pow(z, n), One)
    decreases n
  {
    if n == 0 {
      MulZero(Sub(z, One));
    } else {
      Telescope(z, n - 1);
      MulAddRight(Sub(z, One), Sum(n - 1, Powers(z)), Pow(z, n - 1));
      MulSubLeft(z, One, Pow(z, n - 1));
      MulUnit(Pow(z, n - 1));
    }
  }

  /** A geometric series over a full period of a root of unity other than 1 vanishes. */
  lemma GeometricVanishes(z: Complex, n: nat)
    requires Pow(z, n) == One && z != One
    ensures Sum(n, Powers(z)) == Zero
  {
    Telescope(z, n);
    NoZeroDivisors(Sub(z, One), Sum(n, Powers(z)));
  }

  /** w is a primitive n-th root of unity: w^n = 1 and no smaller positive power is 1. */
  predicate PrimitiveRoot(w: Complex, n: nat) {
    n >= 1 && Pow(w, n) == One && forall m :: 0 < m < n ==> Pow(w, m) != One
  }

  /** w^(a+d) = w^a forces w^d = 1 when w^n = 1 and a <= n. */
  lemma PowCancel(w: Complex, n: nat, a: nat, d: nat)
    requires Pow(w, n) == One && a <= n
    requires Pow(w, a + d) == Pow(w, a)
    ensures Pow(w, d) == One
  {
    var inv := Pow(w, n - a);
    PowAdd(w, n - a, a);
    PowAdd(w, a, d);
    calc {
      Pow(w, d);
      { MulUnit(Pow(w, d)); }
      Mul(Mul(inv, Pow(w, a)), Pow(w, d));
      { MulAssoc(inv, Pow(w, a), Pow(w, d)); }
      Mul(inv, Pow(w, a));
      One;
    }
  }

  lemma PowPeriod(w: Complex, n: nat, a: nat, d: nat)
    requires PrimitiveRoot(w, n) && a + d < n
    requires Pow(w, a + d) == Pow(w, a)
    ensures d == 0
  {
    PowCancel(w, n, a, d);
  }

  /** The powers w^0, ..., w^(n-1) of a primitive n-th root are pairwise distinct. */
  lemma PowInjective(w: Complex, n: nat, a: nat, b: nat)
    requires PrimitiveRoot(w, n) && a < n && b < n
    requires Pow(w, a) == Pow(w, b)
    ensures a == b
  {
    var lo, hi := if a <= b then a else b, if a <= b then b else a;
    PowPeriod(w, n, lo, hi - lo);
  }

  /** (ab)^n = a^n b^n. */
  lemma {:induction false} PowDistrib(a: Complex, b: Complex, n: nat)
    ensures Pow(Mul(a, b), n) == Mul(Pow(a, n), Pow(b, n))
    decreases n
  {
    if n == 0 {
      MulUnit(One);
    } else {
      PowDistrib(a, b, n - 1);
      MulInterchange(a, b, Pow(a, n - 1), Pow(b, n - 1));
    }
  }

  /** Every power of an n-th root of unity is again an n-th root of unity. */
  lemma PowerOfRoot(w: Complex, n: nat, s: nat)
    requires Pow(w, n) == One
    ensures Pow(Pow(w, s), n) == One
  {
    PowMul(w, s, n);
    PowMul(w, n, s);
    assert s * n == n * s;
    PowOfOne(s);
  }

  /** The inverse root w^(n-1) of an n-th root of unity w satisfies w * w^(n-1) = 1. */
  function InverseRoot(w: Complex, n: nat): Complex {
    if n == 0 then One else Pow(w, n - 1)
  }

  lemma InverseRootCancels(w: Complex, n: nat)
    requires n >= 1 && Pow(w, n) == One
    ensures Mul(w, InverseRoot(w, n)) == One
    ensures Pow(InverseRoot(w, n), n) == One
  {
    PowerOfRoot(w, n, n - 1);
  }

  /** w^t and v^t cancel when v is the inverse root of w. */
  lemma InversePowersCancel(w: Complex, n: nat, t: nat)
    requires n >= 1 && Pow(w, n) == One
    ensures Mul(Pow(w, t), Pow(InverseRoot(w, n), t)) == One
  {
    var v := InverseRoot(w, n);
    InverseRootCancels(w, n);
    PowDistrib(w, v, t);
    PowOfOne(t);
  }

  lemma SumOfPowersOfOne(n: nat)
    ensures Sum(n, Powers(One)) == FromReal(n as real)
  {
    forall k | 0 <= k < n
      ensures Powers(One)(k) == One
    {
      PowOfOne(k);
    }
    SumOfOnes(n, Powers(One));
  }

  /** The geometric kernel sum_k (w^s v^t)^k, v the inverse root of w. Summed over
      the frequency bins it decides which products of input samples reach output t. */
  function Kernel(w: Complex, n: nat, s: nat, t: nat): Complex {
    Sum(n, Powers(Mul(Pow(w, s), Pow(InverseRoot(w, n), t))))
  }

  /** Orthogonality of the Fourier basis: the kernel is n on the diagonal... */
  lemma KernelAligned(w: Complex, n: nat, t: nat)
    requires n >= 1 && Pow(w, n) == One
    ensures Kernel(w, n, t, t) == FromReal(n as real)
  {
    InversePowersCancel(w, n, t);
    SumOfPowersOfOne(n);
  }

  lemma KernelBaseIsRoot(w: Complex, n: nat, s: nat, t: nat)
    requires n >= 1 && Pow(w, n) == One
    ensures Pow(Mul(Pow(w, s), Pow(InverseRoot(w, n), t)), n) == One
  {
    var v := InverseRoot(w, n);
    InverseRootCancels(w, n);
    PowerOfRoot(w, n, s);
    PowerOfRoot(v, n, t);
    PowDistrib(Pow(w, s), Pow(v, t), n);
    MulUnit(One);
  }

  lemma KernelBaseNotOne(w: Complex, n: nat, s: nat, t: nat)
    requires PrimitiveRoot(w, n) && s < n && t < n && s != t
    ensures Mul(Pow(w, s), Pow(InverseRoot(w, n), t)) != One
  {
    var v := InverseRoot(w, n);
    var z := Mul(Pow(w, s), Pow(v, t));
    if z == One {
      InversePowersCancel(w, n, t);
      MulComm(Pow(w, t), Pow(v, t));
      calc {
        Pow(w, t);
        { MulUnit(Pow(w, t)); }
        Mul(z, Pow(w, t));
        { MulAssoc(Pow(w, s), Pow(v, t), Pow(w, t)); }
        Mul(Pow(w, s), Mul(Pow(v, t), Pow(w, t)));
        { MulUnit(Pow(w, s)); }
        Pow(w, s);
      }
      PowInjective(w, n, s, t);
    }
  }

  /** ... and zero off the diagonal. */
  lemma KernelMisaligned(w: Complex, n: nat, s: nat, t: nat)
    requires PrimitiveRoot(w, n) && s < n && t < n && s != t
    ensures Kernel(w, n, s, t) == Zero
  {
    KernelBaseIsRoot(w, n, s, t);
    KernelBaseNotOne(w, n, s, t);
    GeometricVanishes(Mul(Pow(w, s), Pow(InverseRoot(w, n), t)), n);
  }

  /** Term j of bin k of the DFT of x at root w: x[j] w^(jk). */
  function DftTerms(x: seq<Complex>, w: Complex, k: nat): nat -> Complex {
    (j: nat) => if j < |x| then Mul(x[j], Pow(w, j * k)) else Zero
  }

  /** The unnormalised discrete Fourier transform at root w:
      bin k is the sum over j of x[j] w^(jk). The forward plan of a length-n
      transform uses a primitive n-th root w; the inverse plan uses w^(n-1). */
  function Dft(x: seq<Complex>, w: Complex): (r: seq<Complex>)
    ensures |r| == |x|
  {
    seq(|x|, (k: nat) => Sum(|x|, DftTerms(x, w, k)))
  }

  /** Bin-by-bin product of two spectra of equal length. */
  function Pointwise(x: seq<Complex>, y: seq<Complex>): (r: seq<Complex>)
    requires |x| == |y|
    ensures |r| == |x|
    ensures forall k :: 0 <= k < |r| ==> r[k] == Mul(x[k], y[k])
  {
    seq(|x|, (k: nat) requires k < |x| => Mul(x[k], y[k]))
  }

  /** k => X[k] c(k), zero past the end of X. */
  function Weighted(x: seq<Complex>, c: nat -> Complex): nat -> Complex {
    (k: nat) => if k < |x| then Mul(x[k], c(k)) else Zero
  }

  /** k => w^(jk) c(k). */
  function Twisted(w: Complex, j: nat, c: nat -> Complex): nat -> Complex {
    (k: nat) => Mul(Pow(w, j * k), c(k))
  }

  /** j => x[j] (sum over k < n of w^(jk) c(k)), zero past the end of x. */
  function Transposed(x: seq<Complex>, w: Complex, c: nat -> Complex): nat -> Complex {
    (j: nat) => if j < |x| then Mul(x[j], Sum(|x|, Twisted(w, j, c))) else Zero
  }

  function DftGrid(x: seq<Complex>, w: Complex, c: nat -> Complex): (nat, nat) -> Complex {
    (k: nat, j: nat) => Mul(DftTerms(x, w, k)(j), c(k))
  }

  lemma DftGridRow(x: seq<Complex>, w: Complex, c: nat -> Complex, k: nat)
    requires k < |x|
    ensures Weighted(Dft(x, w), c)(k) == RowSums(DftGrid(x, w, c), |x|)(k)
  {
    SumScaleRight(|x|, c(k), DftTerms(x, w, k), Row(DftGrid(x, w, c), k));
  }

  lemma DftGridCol(x: seq<Complex>, w: Complex, c: nat -> Complex, j: nat)
    requires j < |x|
    ensures ColSums(DftGrid(x, w, c), |x|)(j) == Transposed(x, w, c)(j)
  {
    var F := DftGrid(x, w, c);
    forall k | 0 <= k < |x|
      ensures Col(F, j)(k) == Mul(x[j], Twisted(w, j, c)(k))
    {
      assert DftTerms(x, w, k)(j) == Mul(x[j], Pow(w, j * k));
      MulAssoc(x[j], Pow(w, j * k), c(k));
    }
    SumScaleLeft(|x|, x[j], Twisted(w, j, c), Col(F, j));
  }

  /** The DFT matrix is symmetric: pairing a spectrum with weights c equals
      pairing the signal with the transformed weights. */
  lemma DftTranspose(x: seq<Complex>, w: Complex, c: nat -> Complex)
    ensures Sum(|x|, Weighted(Dft(x, w), c)) == Sum(|x|, Transposed(x, w, c))
  {
    var n := |x|;
    var F := DftGrid(x, w, c);
    forall k | 0 <= k < n
      ensures Weighted(Dft(x, w), c)(k) == RowSums(F, n)(k)
    {
      DftGridRow(x, w, c, k);
    }
    SumExt(n, Weighted(Dft(x, w), c), RowSums(F, n));
    SumSwap(n, n, F);
    forall j | 0 <= j < n
      ensures ColSums(F, n)(j) == Transposed(x, w, c)(j)
    {
      DftGridCol(x, w, c, j);
    }
    SumExt(n, ColSums(F, n), Transposed(x, w, c));
  }

  /** Summing the twisted geometric weights over the bins yields a kernel. */
  lemma KernelTwist(w: Complex, n: nat, j: nat, l: nat, t: nat)
    ensures Sum(n, Twisted(w, l, Powers(Mul(Pow(w, j), Pow(InverseRoot(w, n), t))))) == Kernel(w, n, j + l, t)
  {
    var u := Pow(InverseRoot(w, n), t);
    var r := Mul(Pow(w, j), u);
    forall k | 0 <= k < n
      ensures Twisted(w, l, Powers(r))(k) == Powers(Mul(Pow(w, j + l), u))(k)
    {
      PowMul(w, l, k);
      PowDistrib(Pow(w, l), r, k);
      MulAssoc(Pow(w, l), Pow(w, j), u);
      PowAdd(w, l, j);
      assert l + j == j + l;
    }
    SumExt(n, Twisted(w, l, Powers(r)), Powers(Mul(Pow(w, j + l), u)));
  }

  /** l => b[l] Kernel(j + l, t): what sample j of the first signal meets in the second. */
  function KernelRow(b: seq<Complex>, w: Complex, j: nat, t: nat): nat -> Complex {
    (l: nat) => if l < |b| then Mul(b[l], Kernel(w, |b|, j + l, t)) else Zero
  }

  lemma TwistedWeightedTerm(y: seq<Complex>, w: Complex, j: nat, u: Complex, k: nat)
    requires k < |y|
    ensures Twisted(w, j, Weighted(y, Powers(u)))(k) == Weighted(y, Powers(Mul(Pow(w, j), u)))(k)
  {
    PowMul(w, j, k);
    PowDistrib(Pow(w, j), u, k);
    MulAssoc(Pow(w, j * k), y[k], Pow(u, k));
    MulComm(Pow(w, j * k), y[k]);
    MulAssoc(y[k], Pow(w, j * k), Pow(u, k));
  }

  lemma TwistedWeightedSum(y: seq<Complex>, w: Complex, j: nat, u: Complex)
    ensures Sum(|y|, Twisted(w, j, Weighted(y, Powers(u)))) == Sum(|y|, Weighted(y, Powers(Mul(Pow(w, j), u))))
  {
    forall k | 0 <= k < |y|
      ensures Twisted(w, j, Weighted(y, Powers(u)))(k) == Weighted(y, Powers(Mul(Pow(w, j), u)))(k)
    {
      TwistedWeightedTerm(y, w, j, u, k);
    }
    SumExt(|y|, Twisted(w, j, Weighted(y, Powers(u))), Weighted(y, Powers(Mul(Pow(w, j), u))));
  }

  lemma TransposedKernelSum(b: seq<Complex>, w: Complex, j: nat, t: nat)
    ensures Sum(|b|, Transposed(b, w, Powers(Mul(Pow(w, j), Pow(InverseRoot(w, |b|), t)))))
         == Sum(|b|, KernelRow(b, w, j, t))
  {
    var r := Mul(Pow(w, j), Pow(InverseRoot(w, |b|), t));
    forall l | 0 <= l < |b|
      ensures Transposed(b, w, Powers(r))(l) == KernelRow(b, w, j, t)(l)
    {
      KernelTwist(w, |b|, j, l, t);
    }
    SumExt(|b|, Transposed(b, w, Powers(r)), KernelRow(b, w, j, t));
  }

  /** The bins of the second spectrum, weighted for output t and input sample j,
      collapse to a kernel row. */
  lemma InnerSum(b: seq<Complex>, w: Complex, j: nat, t: nat)
    ensures Sum(|b|, Twisted(w, j, Weighted(Dft(b, w), Powers(Pow(InverseRoot(w, |b|), t)))))
         == Sum(|b|, KernelRow(b, w, j, t))
  {
    var u := Pow(InverseRoot(w, |b|), t);
    TwistedWeightedSum(Dft(b, w), w, j, u);
    DftTranspose(b, w, Powers(Mul(Pow(w, j), u)));
    TransposedKernelSum(b, w, j, t);
  }

  lemma KernelRowOff(b: seq<Complex>, w: Complex, j: nat, t: nat, q: nat, l: nat)
    requires PrimitiveRoot(w, |b|) && t < |b| && j + q <= |b|
    requires forall i :: q <= i < |b| ==> b[i] == Zero
    requires l < |b| && j + l != t
    ensures KernelRow(b, w, j, t)(l) == Zero
  {
    if l < q {
      KernelMisaligned(w, |b|, j + l, t);
      MulZero(b[l]);
    } else {
      MulZero(Kernel(w, |b|, j + l, t));
    }
  }

  lemma KernelRowOn(b: seq<Complex>, w: Complex, j: nat, t: nat)
    requires |b| >= 1 && Pow(w, |b|) == One
    requires j <= t < |b|
    ensures KernelRow(b, w, j, t)(t - j) == Mul(b[t - j], FromReal(|b| as real))
  {
    KernelAligned(w, |b|, t);
    assert j + (t - j) == t;
  }

  /** With the second signal supported on [0, q) and j + q <= n, no product wraps
      around: for j <= t only the term l = t - j survives... */
  lemma KernelRowSumOn(b: seq<Complex>, w: Complex, j: nat, t: nat, q: nat)
    requires PrimitiveRoot(w, |b|) && t < |b| && j + q <= |b|
    requires forall l :: q <= l < |b| ==> b[l] == Zero
    requires j <= t
    ensures Sum(|b|, KernelRow(b, w, j, t)) == KernelRow(b, w, j, t)(t - j)
  {
    var row := KernelRow(b, w, j, t);
    forall l | 0 <= l < |b| && l != t - j
      ensures row(l) == Zero
    {
      KernelRowOff(b, w, j, t, q, l);
    }
    SumDelta(|b|, row, t - j);
  }

  /** ... and for j > t nothing reaches output t. */
  lemma KernelRowSumOff(b: seq<Complex>, w: Complex, j: nat, t: nat, q: nat)
    requires PrimitiveRoot(w, |b|) && t < |b| && j + q <= |b|
    requires forall l :: q <= l < |b| ==> b[l] == Zero
    requires t < j
    ensures Sum(|b|, KernelRow(b, w, j, t)) == Zero
  {
    var row := KernelRow(b, w, j, t);
    forall l | 0 <= l < |b|
      ensures row(l) == Zero
    {
      KernelRowOff(b, w, j, t, q, l);
    }
    SumZero(|b|, row);
  }

  /** j => a[j] b[t - j] over the pairs that reach output t of a linear convolution. */
  function ConvolutionTerms(a: seq<Complex>, b: seq<Complex>, t: nat): nat -> Complex {
    (j: nat) => if j < |a| && j <= t && t - j < |b| then Mul(a[j], b[t - j]) else Zero
  }

  /** Input sample j at or before output t: the kernel row keeps b[t - j], n times. */
  lemma ConvolutionBinOn(a: seq<Complex>, b: seq<Complex>, w: Complex, q: nat, j: nat, t: nat)
    requires |a| == |b| && PrimitiveRoot(w, |b|) && j + q <= |b|
    requires forall l :: q <= l < |b| ==> b[l] == Zero
    requires j <= t < |a|
    ensures Mul(a[j], Sum(|b|, KernelRow(b, w, j, t))) == Mul(FromReal(|a| as real), ConvolutionTerms(a, b, t)(j))
  {
    KernelRowSumOn(b, w, j, t, q);
    KernelRowOn(b, w, j, t);
    MulRotate(a[j], b[t - j], FromReal(|a| as real));
  }

  /** Input sample j after output t: the kernel row vanishes. */
  lemma ConvolutionBinAfter(a: seq<Complex>, b: seq<Complex>, w: Complex, q: nat, j: nat, t: nat)
    requires |a| == |b| && PrimitiveRoot(w, |b|) && j + q <= |b|
    requires forall l :: q <= l < |b| ==> b[l] == Zero
    requires t < j < |a|
    ensures Mul(a[j], Sum(|b|, KernelRow(b, w, j, t))) == Mul(FromReal(|a| as real), ConvolutionTerms(a, b, t)(j))
  {
    KernelRowSumOff(b, w, j, t, q);
    MulZero(a[j]);
    MulZero(FromReal(|a| as real));
  }

  /** Input sample j in the zero tail of a: both sides vanish. */
  lemma ConvolutionBinTail(a: seq<Complex>, b: seq<Complex>, w: Complex, j: nat, t: nat)
    requires |a| == |b| && j < |a| && a[j] == Zero
    ensures Mul(a[j], Sum(|b|, KernelRow(b, w, j, t))) == Mul(FromReal(|a| as real), ConvolutionTerms(a, b, t)(j))
  {
    MulZero(Sum(|b|, KernelRow(b, w, j, t)));
    if j <= t && t - j < |b| {
      MulZero(b[t - j]);
    }
    MulZero(FromReal(|a| as real));
  }

  lemma ConvolutionBin(a: seq<Complex>, b: seq<Complex>, w: Complex, p: nat, q: nat, j: nat, t: nat)
    requires |a| == |b| && PrimitiveRoot(w, |b|) && p + q <= |a| + 1
    requires forall i :: p <= i < |a| ==> a[i] == Zero
    requires forall l :: q <= l < |b| ==> b[l] == Zero
    requires j < |a| && t < |a|
    ensures Mul(a[j], Sum(|b|, KernelRow(b, w, j, t))) == Mul(FromReal(|a| as real), ConvolutionTerms(a, b, t)(j))
  {
    if j < p && j <= t {
      ConvolutionBinOn(a, b, w, q, j, t);
    } else if j < p {
      ConvolutionBinAfter(a, b, w, q, j, t);
    } else {
      ConvolutionBinTail(a, b, w, j, t);
    }
  }

  lemma OutputTerm(x: seq<Complex>, y: seq<Complex>, v: Complex, t: nat, k: nat)
    requires |x| == |y| && k < |x|
    ensures DftTerms(Pointwise(x, y), v, t)(k) == Weighted(x, Weighted(y, Powers(Pow(v, t))))(k)
  {
    PowMul(v, t, k);
    assert k * t == t * k;
    MulAssoc(x[k], y[k], Pow(Pow(v, t), k));
  }

  lemma InputTerm(a: seq<Complex>, b: seq<Complex>, w: Complex, p: nat, q: nat, j: nat, t: nat)
    requires |a| == |b| && PrimitiveRoot(w, |a|) && p + q <= |a| + 1
    requires forall i :: p <= i < |a| ==> a[i] == Zero
    requires forall l :: q <= l < |b| ==> b[l] == Zero
    requires j < |a| && t < |a|
    ensures Transposed(a, w, Weighted(Dft(b, w), Powers(Pow(InverseRoot(w, |a|), t))))(j)
         == Mul(FromReal(|a| as real), ConvolutionTerms(a, b, t)(j))
  {
    InnerSum(b, w, j, t);
    ConvolutionBin(a, b, w, p, q, j, t);
  }

  /** The convolution theorem for zero-padded signals. Take two length-n buffers
      whose samples vanish from p and from q on, with p + q - 1 <= n, and a
      primitive n-th root w. The inverse transform (root w^(n-1)) of the product
      of their forward transforms is, at every t < n, n times the linear
      convolution sum over j of a[j] b[t - j]: no term wraps around. */
  lemma ConvolutionTheorem(a: seq<Complex>, b: seq<Complex>, w: Complex, p: nat, q: nat, t: nat)
    requires |a| == |b| && PrimitiveRoot(w, |a|) && p + q <= |a| + 1
    requires forall i :: p <= i < |a| ==> a[i] == Zero
    requires forall l :: q <= l < |b| ==> b[l] == Zero
    requires t < |a|
    ensures Dft(Pointwise(Dft(a, w), Dft(b, w)), InverseRoot(w, |a|))[t]
         == Mul(FromReal(|a| as real), Sum(|a|, ConvolutionTerms(a, b, t)))
  {
    var n := |a|;
    var x, y := Dft(a, w), Dft(b, w);
    var v := InverseRoot(w, n);
    var c := Weighted(y, Powers(Pow(v, t)));
    forall k | 0 <= k < n
      ensures DftTerms(Pointwise(x, y), v, t)(k) == Weighted(x, c)(k)
    {
      OutputTerm(x, y, v, t, k);
    }
    SumExt(n, DftTerms(Pointwise(x, y), v, t), Weighted(x, c));
    DftTranspose(a, w, c);
    forall j | 0 <= j < n
      ensures Transposed(a, w, c)(j) == Mul(FromReal(n as real), ConvolutionTerms(a, b, t)(j))
    {
      InputTerm(a, b, w, p, q, j, t);
    }
    SumScaleLeft(n, FromReal(n as real), ConvolutionTerms(a, b, t), Transposed(a, w, c));
  }

  /** A unit impulse: a buffer that is One at index 0 and Zero elsewhere. */
  predicate IsImpulse(e: seq<Complex>) {
    |e| >= 1 && e[0] == One && forall i :: 1 <= i < |e| ==> e[i] == Zero
  }

  lemma ImpulseTerm(e: seq<Complex>, w: Complex, k: nat, j: nat)
    requires IsImpulse(e) && j < |e|
    ensures DftTerms(e, w, k)(j) == if j == 0 then One else Zero
  {
    assert DftTerms(e, w, k)(j) == Mul(e[j], Pow(w, j * k));
    if j == 0 {
      assert j * k == 0;
      MulUnit(One);
    } else {
      MulZero(Pow(w, j * k));
    }
  }

  /** Every bin of the transform of a unit impulse is One, whatever the root. */
  lemma ImpulseSpectrum(e: seq<Complex>, w: Complex, k: nat)
    requires IsImpulse(e) && k < |e|
    ensures Dft(e, w)[k] == One
  {
    ImpulseSum(e, w, k);
  }

  lemma ImpulseSum(e: seq<Complex>, w: Complex, k: nat)
    requires IsImpulse(e)
    ensures Sum(|e|, DftTerms(e, w, k)) == One
  {
    ImpulseTermsVanish(e, w, k);
    ImpulseTerm(e, w, k, 0);
    SumDelta(|e|, DftTerms(e, w, k), 0);
  }

  lemma ImpulseTermsVanish(e: seq<Complex>, w: Complex, k: nat)
    requires IsImpulse(e)
    ensures forall j :: 0 <= j < |e| && j != 0 ==> DftTerms(e, w, k)(j) == Zero
  {
    forall j | 0 <= j < |e| && j != 0
      ensures DftTerms(e, w, k)(j) == Zero
    {
      ImpulseTerm(e, w, k, j);
    }
  }

  /** The inversion theorem: for a primitive n-th root w, transforming with w and then
      with the inverse root w^(n-1) gives n times the original buffer. */
  lemma InversionTheorem(a: seq<Complex>, w: Complex, t: nat)
    requires PrimitiveRoot(w, |a|) && t < |a|
    ensures Dft(Dft(a, w), InverseRoot(w, |a|))[t] == Mul(FromReal(|a| as real), a[t])
  {
    var n := |a|;
    var e := seq(n, (i: nat) => if i == 0 then One else Zero);
    assert IsImpulse(e);
    ConvolutionTheorem(a, e, w, n, 1, t);
    forall k | 0 <= k < n
      ensures Pointwise(Dft(a, w), Dft(e, w))[k] == Dft(a, w)[k]
    {
      ImpulseSpectrum(e, w, k);
      MulUnit(Dft(a, w)[k]);
    }
    assert Pointwise(Dft(a, w), Dft(e, w)) == Dft(a, w);
    forall j | 0 <= j < n && j != t
      ensures ConvolutionTerms(a, e, t)(j) == Zero
    {
      MulZero(a[j]);
    }
    SumDelta(n, ConvolutionTerms(a, e, t), t);
    MulUnit(a[t]);
  }
}
