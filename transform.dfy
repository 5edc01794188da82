/** The forward and inverse transform plans the convolution engine obtains from
    `rustfft`'s planner, and the in-place `process` call that runs them. The
    library itself is not part of this model: a plan is described by its length
    and the root of unity it uses, and `Process` computes the unnormalised
    discrete Fourier transform that a plan of that kind computes. */
module Transform {
  import opened ComplexArith
  import opened Spectral

  /** A transform of a fixed length whose bin k is the sum over j of x[j] root^(jk). */
  datatype Plan = Plan(len: nat, root: Complex)

  /** A source of roots: for every length n >= 1, a primitive n-th root of unity
      (the planner's twiddle factor, e^(-2 pi i / n) in the library). */
  ghost predicate ValidPlanner(planner: nat -> Complex) {
    forall n: nat :: n >= 1 ==> PrimitiveRoot(PlannedRoot(planner, n), n)
  }

  /** The root the planner hands out for length n; naming it keeps the planner's
      promise from being applied to every use of the planner. */
  ghost function PlannedRoot(planner: nat -> Complex, n: nat): Complex {
    planner(n)
  }

  lemma PlannerRoot(planner: nat -> Complex, n: nat)
    requires ValidPlanner(planner) && n >= 1
    ensures PrimitiveRoot(planner(n), n)
  {
    assert PrimitiveRoot(PlannedRoot(planner, n), n);
  }

  lemma InverseRootWhenRoot(w: Complex, n: nat)
    ensures n >= 1 && Pow(w, n) == One ==> Mul(w, InverseRoot(w, n)) == One && Pow(InverseRoot(w, n), n) == One
  {
    if n >= 1 && Pow(w, n) == One {
      InverseRootCancels(w, n);
    }
  }

  /** `plan_fft_forward(len)`: a plan of length len whose root is the planner's root
      for len. What that root does is stated by InverseUndoesForward. */
  function PlanForward(planner: nat -> Complex, len: nat): (r: Plan)
    ensures r.len == len
  {
    Plan(len, planner(len))
  }

  /** `plan_fft_inverse(len)`: a plan of the same length whose root is the inverse of
      the forward root w, namely w^(len-1), the complex conjugate of w. Like the
      library it does not divide by len. */
  function PlanInverse(planner: nat -> Complex, len: nat): (r: Plan)
    ensures r.len == len
    ensures len >= 1 && Pow(PlanForward(planner, len).root, len) == One
        ==> Mul(PlanForward(planner, len).root, r.root) == One && Pow(r.root, len) == One
  {
    InverseRootWhenRoot(planner(len), len);
    Plan(len, InverseRoot(planner(len), len))
  }

  /** Running the inverse plan after the forward plan of the same length gives the
      buffer back multiplied by that length, which is why the engine divides by it. */
  lemma InverseUndoesForward(planner: nat -> Complex, x: seq<Complex>, t: nat)
    requires ValidPlanner(planner) && t < |x|
    ensures Dft(Dft(x, PlanForward(planner, |x|).root), PlanInverse(planner, |x|).root)[t]
         == Mul(FromReal(|x| as real), x[t])
  {
    PlannerRoot(planner, |x|);
    InversionTheorem(x, planner(|x|), t);
  }

  /** `fft.process(&mut buffer)`: replaces the buffer by its transform under the plan. */
  method Process(plan: Plan, buffer: array<Complex>)
    requires buffer.Length == plan.len
    modifies buffer
    ensures buffer[..] == Dft(old(buffer[..]), plan.root)
  {
    var input := buffer[..];
    var n := buffer.Length;
    var output := new Complex[n](_ => Zero);
    for k := 0 to n
      invariant forall i :: 0 <= i < k ==> output[i] == Dft(input, plan.root)[i]
    {
      var acc := Zero;
      for j := 0 to n
        invariant acc == Sum(j, DftTerms(input, plan.root, k))
      {
        acc := Add(acc, Mul(input[j], Pow(plan.root, j * k)));
      }
      output[k] := acc;
    }
    forall i | 0 <= i < n {
      buffer[i] := output[i];
    }
  }
}
