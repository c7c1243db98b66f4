# GCC-PHAT sound-source localisation, modelled in Dafny

The modelled package localises a sound source with two microphones. It has three parts:

- A synthesizer (`generate_two_mic_sine`) builds a two-channel recording from one mono source. The mono source is a tone plus a noise texture. The first channel is the source plus noise. The second channel is the source, fractionally delayed by the far-field delay `d * sin(angle) / c`, plus its own noise. Both noises are Gaussian with the deviation that gives the requested SNR.
- The GCC-PHAT estimator (`gcc_phat`) computes the cross-spectrum of the two channels and whitens it with the phase transform (each bin is divided by its modulus, floored at 1e-12). It transforms back at `interp` times the resolution and re-centres the circular correlation around lag zero. It then scans the re-centred window for the first largest peak and converts that peak to seconds. The window holds the lags within `max_shift` when `max_shift >= 1`, and the whole buffer plus one sample when `max_shift == 0`.
- The angle mapper (`estimate_angle_from_tdoa`) turns a delay back into an azimuth. It computes `arcsin(clip(tdoa * c / d, -1, 1))` and converts it to degrees.

The model has four modules:

- `Numerics`: results for the exceptions the code raises, Python's `int()` truncation and slice rules, complex bins, and the maths library as a value.
- `Ssl`: the estimator and the angle mapper.
  - The transform-size loop, the in-place PHAT division and the peak scan are methods with loop invariants.
  - The rest are functions and lemmas.
  - The forward and inverse FFT and `np.abs` are a `Fourier` value. Only its shapes are assumed, plus that `abs` is the modulus.
- `Signal`: the fractional delay and the synthesizer.
  - Linear interpolation on the sample grid with zero fill is stated exactly over `real`.
  - The seeded generator is a function from (seed, block, count) to standard-normal draws. Block 0 is the texture, and blocks 1 and 2 are the two channels' noise.
- `Pipeline`: the synthesizer's delay, fed to the angle mapper, gives back the angle.

Errors the Python code raises become `Err` results:

- `np.interp` on an empty grid becomes `EmptySamplePoints`.
- `irfft` with fewer than one point, which happens when `interp < 1`, becomes `InvalidTransformSize`.
- `argmax` of an empty window becomes `EmptyArgMax`.
- Division of a Python number by zero becomes `ZeroDivision`. This covers `fs == 0` in `gcc_phat` and `mic_distance_m == 0` in the angle mapper.

The sample count is `int(fs * duration_s)`, which truncates toward zero rather than rounding (`Signal.SampleCount`).

## Model

The definitions the rows below reason about map to the source as follows: `Ssl.Window` is the concatenation at labo_frontier_algorithms/ssl.py:39, `Ssl.LagSeconds` the division at labo_frontier_algorithms/ssl.py:41, `Numerics.Clip` the `np.clip` at labo_frontier_algorithms/ssl.py:47, `Signal.Interp` the `np.interp` at labo_frontier_algorithms/signal.py:15, and `Signal.MeanSquare` the `np.mean(mono**2)` at labo_frontier_algorithms/signal.py:43.

| member | source | states |
|---|---|---|
| Numerics.Trunc | labo_frontier_algorithms/signal.py:33 | `int()` of a float rounds toward zero: it is the floor for non-negative arguments and the ceiling for non-positive ones |
| Numerics.SliceBound | labo_frontier_algorithms/ssl.py:39 | A Python slice bound lands in `[0, n]`. A non-negative bound is kept, a negative one counts from the end, and one past either end is clamped. |
| Ssl.FftSize | labo_frontier_algorithms/ssl.py:22-25 | The doubling loop ends with a power of two that is at least `n`. It is minimal: it is 1 or its half is below `n`, and it is no larger than any power of two that holds `n`. |
| Ssl.FftSizeUnique | labo_frontier_algorithms/ssl.py:22-25 | At most one power of two is a valid transform size for a given `n`. |
| Ssl.PowerOfTwoOrder | labo_frontier_algorithms/ssl.py:23-25 | A power of two smaller than twice another power of two is at most that power, which is why the loop's result is minimal. |
| Ssl.PhatDivisor | labo_frontier_algorithms/ssl.py:31 | `np.maximum(abs(r), 1e-12)`: it is `abs(r)` once `abs(r)` reaches the floor and the floor below it, so it is never zero and never below `abs(r)`. |
| Ssl.PhatBinMagnitude | labo_frontier_algorithms/ssl.py:30-31 | A whitened bin has squared modulus at most 1, and exactly 1 when the bin's modulus reaches 1e-12. |
| Ssl.WhitenedBounds | labo_frontier_algorithms/ssl.py:29-31 | The same bound holds for every bin of the whitened cross-spectrum `sig_fft * conj(ref_fft) / max(abs(.), 1e-12)`. |
| Ssl.Whiten | labo_frontier_algorithms/ssl.py:31 | The in-place division replaces each bin with its whitened value and touches nothing else. |
| Ssl.WhitenCrossSpectrum | labo_frontier_algorithms/ssl.py:27-31 | Both forward transforms, the cross-spectrum and the in-place division give the PHAT spectrum, with `nfft/2 + 1` bins. |
| Ssl.CrossCorrelation | labo_frontier_algorithms/ssl.py:33 | The inverse transform of the whitened spectrum has `interp * nfft` samples. |
| Ssl.MaxShift | labo_frontier_algorithms/ssl.py:35-37 | The search bound is at most half the correlation length. Without `max_tau` it is exactly the half. With `max_tau` it is at most `int(interp * fs * max_tau)` and is one of the two candidates, and it is non-negative when `max_tau` and `fs` are. |
| Ssl.WindowLayout | labo_frontier_algorithms/ssl.py:39 | For `1 <= max_shift < len(cc)` the window has `2*max_shift + 1` samples. The first `max_shift` are the last `max_shift` of `cc` in order, and the rest are `cc[0..max_shift]`. |
| Ssl.WindowAtZero | labo_frontier_algorithms/ssl.py:39 | For `max_shift == 0`, `cc[-0:]` is the whole buffer, so the window is `cc` followed by `cc[0]`. |
| Ssl.FirstPeak | labo_frontier_algorithms/ssl.py:40 | `argmax(abs(.))`: an empty window is an error. Otherwise the result is the first index of largest magnitude (ties go to the lowest index). |
| Ssl.FirstPeakUnique | labo_frontier_algorithms/ssl.py:40 | The first largest-magnitude index is unique, so the scan's answer is determined by the window. |
| Ssl.LagWithinMaxTau | labo_frontier_algorithms/ssl.py:37-41 | A shift within `[-m, m]` with `m <= int(interp * fs * max_tau)` is, in seconds, within `[-max_tau, max_tau]`. |
| Ssl.WindowFacts | labo_frontier_algorithms/ssl.py:37-41 | For the computed bound and the first peak: with `max_shift >= 1` the shift lies in `[-max_shift, max_shift]` and `abs(tau) <= max_tau`. With `max_shift == 0` the whole buffer plus one sample is searched. |
| Ssl.GccPhat | labo_frontier_algorithms/ssl.py:11-42 | The estimator succeeds exactly when `interp >= 1`, `fs != 0` and the window is non-empty, with the matching error otherwise. On success the returned correlation is the re-centred window, `tau` is the first peak's shift divided by `interp * fs`, and with a bound `max_shift >= 1` the shift and `abs(tau) <= max_tau` hold. |
| Ssl.ZeroBoundEscapesMaxTau | labo_frontier_algorithms/ssl.py:35-41 | A concrete case: `sig = [0,1,0,0]`, `refsig = [1,0,0,0]`, `fs = 16000`, `interp = 16`, `max_tau = 1e-6` give `nfft = 8` and `max_shift == 0`. The window is then the whole 128-sample buffer plus one, and a correlation peaked at index 16 is reported as `6.25e-5` s, which exceeds `max_tau`. |
| Ssl.CenteredWindow | labo_frontier_algorithms/ssl.py:39 | The window with `m` negative lags, lag 0 and `m` positive lags has `2m + 1` samples laid out tail-then-head, also for `m == 0`. |
| Ssl.CenteredWindowAgrees | labo_frontier_algorithms/ssl.py:39 | For `m >= 1` the code's window and the centred window are equal. |
| Ssl.CenteredSearchRespectsMaxTau | labo_frontier_algorithms/ssl.py:35-41 | With the centred window, every bound, zero included, keeps the estimate within `max_tau`. |
| Ssl.AngleArgument | labo_frontier_algorithms/ssl.py:47 | The clipped arcsine argument is an error only for `d == 0`. Otherwise it lies in `[-1, 1]`: it is `tdoa*c/d` when that is inside the interval, and `+1` or `-1` beyond it. |
| Ssl.AngleArgumentMonotone | labo_frontier_algorithms/ssl.py:47 | For `c, d > 0` the clipped argument never decreases as the delay grows. |
| Ssl.EstimateAngle | labo_frontier_algorithms/ssl.py:45-48 | The angle is an error exactly when `d == 0`. Otherwise it lies in `[-90, 90]` degrees. |
| Ssl.AngleSaturates | labo_frontier_algorithms/ssl.py:47-48 | Beyond the physical range the angle is exactly +90 or -90 degrees. |
| Ssl.AngleMonotone | labo_frontier_algorithms/ssl.py:47-48 | For `c, d > 0` the angle never decreases as the delay grows. |
| Signal.InterpOnGrid | labo_frontier_algorithms/signal.py:15 | On a grid point the interpolant is the sample there. |
| Signal.InterpBetweenSamples | labo_frontier_algorithms/signal.py:15 | Inside the grid numpy's slope form equals the convex combination `(1-f)*s[j] + f*s[j+1]` with `0 <= f < 1`, so the value lies between the two neighbouring samples. |
| Signal.InterpBounded | labo_frontier_algorithms/signal.py:15 | The interpolant never exceeds the largest sample magnitude. |
| Signal.FractionalDelay | labo_frontier_algorithms/signal.py:11-16 | An empty input is an error (empty sample points). Otherwise the output has the input's length. |
| Signal.DelayAt | labo_frontier_algorithms/signal.py:13-15 | Output sample `i` at `x = i - delay` is 0 outside `[0, n-1]` and the last sample at `x = n-1`. In between it is the convex combination `(1-f)*s[j] + f*s[j+1]` with `j = floor(x)` and `0 <= f = x - j < 1`, derived from numpy's slope form. |
| Signal.ZeroDelayIdentity | labo_frontier_algorithms/signal.py:13-15 | A zero delay returns the input unchanged. |
| Signal.IntegerDelay | labo_frontier_algorithms/signal.py:13-15 | A whole-sample delay `k` gives `out[i] = s[i-k]` where that exists and 0 elsewhere, for either sign of `k`, with no wrap-around. |
| Signal.DelayBounded | labo_frontier_algorithms/signal.py:15 | No output sample is larger in magnitude than the largest input sample. |
| Signal.SampleCount | labo_frontier_algorithms/signal.py:33 | `len(arange(int(fs * duration)))` is 0 exactly when `fs * duration < 1`. Otherwise it is the truncation `n <= fs * duration < n + 1`. |
| Signal.Mono | labo_frontier_algorithms/signal.py:33-37 | The mono source has one sample per texture draw, and each has magnitude at most `0.8 + 0.2 * abs(texture)`. |
| Signal.TrueDelay | labo_frontier_algorithms/signal.py:39-40 | The true delay is at most `abs(d / c)` in magnitude. |
| Signal.NoiseStd | labo_frontier_algorithms/signal.py:43-45 | The noise deviation is non-negative, and its square times `10^(snr/10)` is the mean signal power, so the SNR is the requested one. |
| Signal.GenerateTwoMic | labo_frontier_algorithms/signal.py:19-49 | The synthesizer fails exactly when the sample count is 0. Otherwise both channels have that many samples and the true delay is `d*sin(angle)/c`, bounded by `abs(d/c)`. `x1` is the mono source plus block-1 noise, and `x2` is the source delayed by `true_delay * fs` samples plus block-2 noise, both at the SNR's deviation. |
| Signal.WholeSampleDelay | labo_frontier_algorithms/signal.py:41-48 | When the delay is a whole number `k` of samples, `x2[i]` is `mono[i-k]` (or 0 before the source starts) plus its noise. |
| Pipeline.DegreesRoundTrip | labo_frontier_algorithms/signal.py:39 | Degrees to radians and back is the identity. |
| Pipeline.ArgumentOfTrueDelay | labo_frontier_algorithms/ssl.py:47 | The synthesizer's delay, fed to the angle mapper, produces the unclipped argument `sin(angle)`. |
| Pipeline.AngleRoundTrip | labo_frontier_algorithms/ssl.py:45-48 | For any angle in `[-90, 90]` degrees and non-zero `d` and `c`, `estimate_angle_from_tdoa(d*sin(angle)/c, d, c)` gives back the angle exactly. |

## Left out

- The FFT, inverse FFT and `np.abs`: these are foreign numeric library calls. They are parameters with only their output lengths and the modulus property assumed, so the correlation's contents are not computed.
- Floating point: all arithmetic is over exact reals, so rounding, overflow, NaN and infinities are not modelled. `sin`, `arcsin`, `pi`, `sqrt` and `10**x` are parameters. The model assumes only that `|sin| <= 1`, that `arcsin` is monotone with `arcsin(+-1) = +-pi/2` and inverts `sin` on `[-pi/2, pi/2]`, that `sqrt` is the square root, and that `10**x > 0`.
- The seeded generator: the PCG64 stream and the normal sampler are a parameter giving, for each seed, three independent blocks of draws, so bit-reproducibility is not captured.
- Statistical accuracy (an estimate within 2.5e-5 s, an angle between 10 and 20 degrees in the tests) depends on real FFT numerics and noise and is not stated.
- Signal.GenerateTwoMic: requires `c != 0`. With `c == 0` numpy yields non-finite floats rather than raising, and the model has no non-finite values.
- Ssl.EstimateAngle: a zero distance raises `ZeroDivisionError` because the arguments are Python floats. With numpy scalar arguments numpy instead gives ±inf, which the clip turns into ±90 degrees, or NaN when `tdoa_s * c` is also 0. The model represents neither.
- Ssl.GccPhat: takes one-dimensional inputs, uses only the length of the first axis, and returns the transform size, the correlation buffer, the bound and the peak index as ghost outputs that the Python function does not return.
- The source's default arguments (`interp=16` at labo_frontier_algorithms/ssl.py:16, `c=343.0` at labo_frontier_algorithms/ssl.py:45 and labo_frontier_algorithms/signal.py:26, `seed=0` at labo_frontier_algorithms/signal.py:27) are not modelled: every call passes them explicitly.
- `Maths.Valid` also assumes `0 < pi`, which the degree conversions need.
- labo_frontier_algorithms/demo.py: plotting and file output, which are reporting only. Its lag axis divides by `fs` rather than `interp * fs`, and it writes only one figure while tests/test_cli.py expects more files. Neither point is modelled.
- labo_frontier_algorithms/__main__.py and experiments/run_ssl_demo.py: command-line parsing and launching, which are I/O plumbing.

## Findings

| source | as written | input that shows it | evidently intended | confidence | as-written member | corrected member |
|---|---|---|---|---|---|---|
| labo_frontier_algorithms/ssl.py:35-40 | When `int(interp * fs * max_tau)` is 0, `cc[-0:]` is the whole buffer. The window then has `len(cc) + 1` samples and the lag search is unrestricted, so `abs(tau)` can exceed `max_tau`. | `sig = [0,1,0,0]`, `refsig = [1,0,0,0]`, `fs = 16000`, `interp = 16`, `max_tau = 1e-6`: `nfft = 8` and `max_shift = 0`. The whitened spectrum is `exp(-2 pi i k / 8)`, so the first peak of the 128-sample correlation is at index 16 (derived by hand; the transform is not modelled). The estimate is `6.25e-5` s | A window of `2*max_shift + 1` lags centred on zero, which for a zero bound is lag 0 alone, so that `abs(tau) <= max_tau` always holds | not executed | Ssl.ZeroBoundEscapesMaxTau | Ssl.CenteredSearchRespectsMaxTau |
