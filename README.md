# Seismic FFT convolution and layered reflectivity, in Dafny

This project models the computational core of a small seismic forward-modelling
program written in Rust. The core has two parts:

- **The FFT convolution engine** (`fft_convolve`). It convolves a reflectivity
  series with a wavelet. The output length is `len1 + len2 - 1`. The engine
  chooses the next power of two at or above that length as the transform length.
  It zero-pads both real signals into complex buffers, runs the forward
  transform on each, and multiplies them bin by bin in place. It then runs the
  inverse transform and reads out the first `len1 + len2 - 1` real parts, each
  divided by the transform length.
- **The layered reflectivity builder** (`create_layered_reflectivity`). It
  writes reflection coefficients into a zero trace. The spacing between them is
  `n_samples / (k + 1)`, rounded down.

The model is split into five modules:

- `ComplexArith` (complex.dfy): complex numbers as pairs of reals, with the
  ring and field laws the proofs need.
- `Spectral` (spectral.dfy): finite sums, roots of unity and the discrete
  Fourier transform (DFT). It proves the convolution theorem for zero-padded
  buffers.
- `Transform` (transform.dfy): the planner and the forward and inverse plans.
  The `process` call is specified as the DFT under the plan's root of unity.
- `Convolution` (convolution.dfy): `next_power_of_2`, `to_complex_padded`, the
  bin product, the read-out and `fft_convolve`. They are proved against a
  reference linear convolution.
- `Models` (models.dfy): `create_layered_reflectivity`, proved against a
  closed form.

The main result is `Convolution.FftConvolve`. Give it any planner that hands
out a primitive n-th root of unity for every length n. Its result is then
exactly the linear convolution `(s1 * s2)[t] = sum_j s1[j] s2[t - j]`.

## Model

| member | source | states |
|---|---|---|
| Convolution.NextPowerOf2 | rust-seismic-inversion/src/convolution/mod.rs:71-80 | returns 1 for n <= 1; otherwise returns a power of two that is at least n and whose half is below n (loop invariant: `power` is a power of two and `power / 2 < n`) |
| Convolution.NextPowerOfTwoLeast | rust-seismic-inversion/src/convolution/mod.rs:71-80 | the planned length is the least power of two that is at least n |
| Convolution.NextPowerOfTwoUnique | rust-seismic-inversion/src/convolution/mod.rs:71-80 | at most one length meets the planning contract, so the loop's result is determined |
| Convolution.NextPowerOf2Examples | rust-seismic-inversion/src/convolution/mod.rs:88-93 | the lengths 1, 5, 16 and 17 are planned as 1, 8, 16 and 32 |
| Convolution.PaddedRoundTrip | rust-seismic-inversion/src/convolution/mod.rs:58-68 | the real parts of a padded buffer give back the signal: cut to the target length, or followed by zeros; every imaginary part is 0 |
| Convolution.PaddingKeepsInputs | rust-seismic-inversion/src/convolution/mod.rs:14-19 | when both signals are non-empty, the planned length holds each of them whole, so padding only appends zeros |
| Convolution.ToComplexPadded | rust-seismic-inversion/src/convolution/mod.rs:58-68 | returns a fresh buffer of exactly the target length holding the padded signal; samples at or past the target length are dropped |
| Convolution.MultiplyBins | rust-seismic-inversion/src/convolution/mod.rs:39-41 | every bin of the first buffer becomes the product of its old value and the matching bin of the second buffer; the second buffer is unchanged |
| Convolution.ExtractNormalised | rust-seismic-inversion/src/convolution/mod.rs:47-50 | the result is the first `output_len` real parts of the buffer, each divided by `fft_len` |
| Convolution.LinearConvolution | rust-seismic-inversion/src/convolution/mod.rs:9-16 | the reference convolution has `len1 + len2 - 1` samples |
| Convolution.LinearConvolutionCommutes | rust-seismic-inversion/src/convolution/mod.rs:9-16 | convolution does not depend on the order of the two signals |
| Convolution.LinearConvolutionScales | rust-seismic-inversion/src/convolution/mod.rs:9-16 | scaling the first signal by k scales every sample of the convolution by k |
| Convolution.LinearConvolutionAdds | rust-seismic-inversion/src/convolution/mod.rs:9-16 | the convolution of the sum of two signals of equal length is the sum of their convolutions |
| Convolution.ConvolveWithImpulse | rust-seismic-inversion/src/convolution/mod.rs:9-16 | convolving with the unit impulse `[1.0]` returns the signal |
| Convolution.ConvolutionExample | rust-seismic-inversion/src/convolution/mod.rs:96-101 | `[1, 2, 3] * [0.5, 1] = [0.5, 2, 3.5, 3]` |
| Convolution.ConvolutionExampleAsRecorded | rust-seismic-inversion/src/convolution/mod.rs:103 | the recorded expectation `[0.5, 1.5, 2.5, 3.0]` is not the convolution of those inputs |
| Convolution.EngineSample | rust-seismic-inversion/src/convolution/mod.rs:31-50 | for a transform length that covers the output, the normalised sample t of the pipeline is the linear convolution at t, and the imaginary part the read-out discards is exactly 0 |
| Convolution.EngineOutput | rust-seismic-inversion/src/convolution/mod.rs:31-50 | reading out the pipeline's first `len1 + len2 - 1` samples gives the whole linear convolution |
| Convolution.FftConvolve | rust-seismic-inversion/src/convolution/mod.rs:11-55 | given a planner that supplies primitive roots of unity, returns exactly the linear convolution of the two signals, `len1 + len2 - 1` samples long |
| Convolution.FftConvolveExample | rust-seismic-inversion/src/convolution/mod.rs:96-107 | the engine turns `[1, 2, 3]` and `[0.5, 1]` into `[0.5, 2, 3.5, 3]` |
| Convolution.FftConvolveScales | rust-seismic-inversion/src/convolution/mod.rs:11-55 | the engine is linear in the reflectivity: its trace for k times a signal is k times its trace for that signal |
| Transform.Process | rust-seismic-inversion/src/convolution/mod.rs:35-36 | `process` replaces the buffer, in place, by its unnormalised DFT under the plan's root |
| Transform.PlanForward | rust-seismic-inversion/src/convolution/mod.rs:27 | the forward plan has the requested length `fft_len` |
| Transform.PlanInverse | rust-seismic-inversion/src/convolution/mod.rs:28 | the inverse plan has the same length, and when the forward root w is an `fft_len`-th root of unity, the inverse root cancels it (`w * v = 1`) and is itself an `fft_len`-th root of unity |
| Transform.InverseUndoesForward | rust-seismic-inversion/src/convolution/mod.rs:27-28 | for a valid planner, running the inverse plan after the forward plan gives every sample back multiplied by the length, so dividing by `fft_len` (mod.rs:49) is the right normalisation |
| Spectral.ConvolutionTheorem | rust-seismic-inversion/src/convolution/mod.rs:35-44 | for buffers whose nonzero samples fit the transform length, the inverse transform of the product of the forward transforms is n times the linear convolution sum; nothing wraps around |
| Spectral.ImpulseSpectrum | rust-seismic-inversion/src/convolution/mod.rs:35-36 | every bin of the transform of a unit impulse is 1, whatever the root |
| Spectral.InversionTheorem | rust-seismic-inversion/src/convolution/mod.rs:35-44 | for a primitive n-th root w, the transform under w followed by the transform under w^(n-1) gives n times the original buffer |
| Spectral.KernelAligned | rust-seismic-inversion/src/convolution/mod.rs:44 | for an n-th root of unity w, the sum over n bins of (w^s v^s)^k is n, where v = w^(n-1) is the inverse plan's root |
| Spectral.KernelMisaligned | rust-seismic-inversion/src/convolution/mod.rs:44 | for a primitive n-th root w and s != t below n, the sum over n bins of (w^s v^t)^k vanishes, so the inverse plan undoes the forward plan up to the factor n |
| Spectral.DftTranspose | rust-seismic-inversion/src/convolution/mod.rs:35-36 | the DFT matrix is symmetric: pairing a spectrum with weights equals pairing the signal with the transformed weights |
| Models.LayerSpacing | rust-seismic-inversion/src/models/mod.rs:9 | the spacing is n_samples divided by `k + 1`, rounded down: `spacing * (k + 1) <= n_samples < (spacing + 1) * (k + 1)` |
| Models.CreateLayeredReflectivity | rust-seismic-inversion/src/models/mod.rs:5-22 | returns `n_samples` values, and sample p equals the closed form: coefficient i at `(i + 1) * spacing` (the last one wins where positions coincide), 0 elsewhere |
| Models.LayerValueStep | rust-seismic-inversion/src/models/mod.rs:11-16 | placing coefficient i changes exactly the sample at `(i + 1) * spacing` |
| Models.SpacingPositive | rust-seismic-inversion/src/models/mod.rs:9 | the spacing is at least 1 exactly when `n_samples >= k + 1` |
| Models.CoefficientPlaced | rust-seismic-inversion/src/models/mod.rs:11-16 | with spacing at least 1, every coefficient i lands inside the trace at `(i + 1) * spacing` and is not overwritten |
| Models.ZeroBetweenLayers | rust-seismic-inversion/src/models/mod.rs:6-16 | with spacing at least 1, a sample that is no coefficient's position stays 0 |
| Models.NoLayers | rust-seismic-inversion/src/models/mod.rs:6-16 | with no coefficients the trace is `n_samples` zeros |
| Models.LayersCollapse | rust-seismic-inversion/src/models/mod.rs:9-16 | when `1 <= n_samples <= k` the spacing is 0: every write hits sample 0, the last coefficient wins and every other sample is 0 |

## Left out

- The `rustfft` library is not part of this model. `Transform.Process` computes the DFT straight from its definition, not by a fast factorisation.
- The planner's roots come from a planner function given as a parameter. The roots in the library are `e^(-2 pi i / n)`; computing them needs trigonometry, which is not modelled. `FftConvolve` instead requires that the planner supply a primitive n-th root of unity for every n. Plan caching inside `FftPlanner` is not modelled.
- `f64` rounding is not modelled: samples are exact reals. The test's `1e-10` tolerance therefore becomes exact equality.
- The `println!` progress messages (convolution/mod.rs:21-23 and 52; models/mod.rs:18-19) are left out because they are output only.
- Convolution.FftConvolve: returns the sequence directly, not a `Result`. The source never builds an `Err` value.
- Convolution.FftConvolve: requires `len1 + len2 >= 1`. When both signals are empty, `len1 + len2 - 1` underflows `usize`. When exactly one signal is empty, the code runs and returns `len1 + len2 - 1` zeros, and the model follows the code here: the code has no emptiness check.
- Convolution.NextPowerOf2: integers are unbounded. The `usize` overflow of `power <<= 1` when n exceeds 2^63 is not modelled.
- `Array1` results are returned as Dafny sequences, each filled in place through a local array. The `Vec` of `to_complex_padded` is a fresh Dafny array.
- Transform.PlanForward: states only the plan's length. What the forward root does is stated by `Transform.InverseUndoesForward` and used by `FftConvolve`; stating it on the function as well makes the proof of `FftConvolve` exceed the verifier's resource limit.
- `create_random_reflectivity` (models/mod.rs:25-38) is left out because it draws from a random number generator.
- The wavelets, the forward-modelling statistics, the CSV and plot utilities, and `main.rs` are not part of this model. They are floating-point formulas, printing and file output.

## Findings

| source | as written | input that shows it | evidently intended | confidence | as-written member | corrected member |
|---|---|---|---|---|---|---|
| rust-seismic-inversion/src/convolution/mod.rs:103 | the test expects `[0.5, 1.5, 2.5, 3.0]` for `[1, 2, 3]` convolved with `[0.5, 1]` | `[1.0, 2.0, 3.0]` and `[0.5, 1.0]`: samples 1 and 2 are `1*1 + 2*0.5 = 2` and `2*1 + 3*0.5 = 3.5` | `[0.5, 2.0, 3.5, 3.0]`, which the engine computes | high (the arithmetic is proved; not executed) | Convolution.ConvolutionExampleAsRecorded | Convolution.ConvolutionExample |
