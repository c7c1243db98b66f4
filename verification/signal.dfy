/** Synthetic two-microphone signals: the fractional delay (a shift and
    resample by linear interpolation, with zeros outside the sample grid) and
    the synthesizer that builds a delayed, noisy pair from one source. The
    sine, square root and power functions and the seeded normal generator are
    parameters. */
module Signal {
  import opened Numerics

  // ---------------------------------------------------------------------
  // Fractional delay
  // ---------------------------------------------------------------------

  /** np.interp(x, [0, 1, ..., n - 1], s, left=0.0, right=0.0) at one point,
      evaluated as numpy does: `left` before the grid, `right` after it, the
      last sample on the last grid point, and otherwise the slope form
      (s[j+1] - s[j]) * (x - j) + s[j] with j = floor(x). */
  function Interp(s: seq<real>, x: real): real
    requires 1 <= |s|
  {
    if x < 0.0 then 0.0
    else if (|s| - 1) as real < x then 0.0
    else
      var j := x.Floor;
      if j == |s| - 1 then s[j]
      else (s[j + 1] - s[j]) * (x - j as real) + s[j]
  }

  /** On a grid point the interpolant is the sample there. */
  lemma InterpOnGrid(s: seq<real>, k: int)
    requires 0 <= k < |s|
    ensures Interp(s, k as real) == s[k]
  {
    assert (k as real).Floor == k;
  }

  /** Inside the grid the interpolant is the convex combination of the two
      neighbouring samples, weighted by the distance to each, and so lies
      between them. */
  lemma InterpBetweenSamples(s: seq<real>, x: real)
    requires 0.0 <= x && x.Floor + 1 < |s|
    ensures var j := x.Floor;
      var f := x - j as real;
      && 0.0 <= f < 1.0
      && Interp(s, x) == (1.0 - f) * s[j] + f * s[j + 1]
      && (s[j] <= s[j + 1] ==> s[j] <= Interp(s, x) <= s[j + 1])
      && (s[j + 1] <= s[j] ==> s[j + 1] <= Interp(s, x) <= s[j])
  {
    var j := x.Floor;
    var f := x - j as real;
    var delta := s[j + 1] - s[j];
    assert 0.0 <= f < 1.0;
    assert Interp(s, x) == s[j] + f * delta;
    assert s[j] + f * delta == (1.0 - f) * s[j] + f * s[j + 1];
    if 0.0 <= delta {
      ScaleMonotone(0.0, f, delta);
      ScaleMonotone(f, 1.0, delta);
    } else {
      ScaleMonotone(0.0, f, -delta);
      ScaleMonotone(f, 1.0, -delta);
    }
  }

  /** Every value of the interpolant is bounded by the largest sample
      magnitude: it is zero or a convex combination of two samples. */
  lemma InterpBounded(s: seq<real>, x: real, bound: real)
    requires 1 <= |s|
    requires forall k :: 0 <= k < |s| ==> Abs(s[k]) <= bound
    ensures Abs(Interp(s, x)) <= bound
  {
    assert 0.0 <= bound by { assert Abs(s[0]) <= bound; }
    if 0.0 <= x && x.Floor + 1 < |s| {
      InterpBetweenSamples(s, x);
      var j := x.Floor;
      assert Abs(s[j]) <= bound && Abs(s[j + 1]) <= bound;
    }
  }

  /** fractional_delay: sample i of the result is the input read, by linear
      interpolation, at position i - delay. An empty input is an error. */
  function FractionalDelay(s: seq<real>, delay: real): (r: Result<seq<real>>)
    ensures r.Err? <==> |s| == 0
    ensures r.Err? ==> r.error == EmptySamplePoints
    ensures r.Ok? ==> |r.value| == |s|
  {
    if |s| == 0 then Err(EmptySamplePoints)
    else Ok(seq(|s|, i requires 0 <= i < |s| => Interp(s, i as real - delay)))
  }

  /** The general rule: each output sample is zero outside the input, the
      last sample at its end, and in between the convex combination
      (1 - f) * s[j] + f * s[j + 1] of the two input samples around i - delay,
      with j = floor(i - delay) and f its fractional part. */
  lemma DelayAt(s: seq<real>, delay: real, i: int)
    requires 0 <= i < |s|
    ensures var x := i as real - delay;
      && (x < 0.0 || (|s| - 1) as real < x ==> FractionalDelay(s, delay).value[i] == 0.0)
      && (x == (|s| - 1) as real ==> FractionalDelay(s, delay).value[i] == s[|s| - 1])
      && (0.0 <= x < (|s| - 1) as real ==>
            var j := x.Floor;
            var f := x - j as real;
            0.0 <= f < 1.0 && FractionalDelay(s, delay).value[i] == (1.0 - f) * s[j] + f * s[j + 1])
  {
    var x := i as real - delay;
    if x == (|s| - 1) as real {
      InterpOnGrid(s, |s| - 1);
    } else if 0.0 <= x < (|s| - 1) as real {
      assert x.Floor + 1 < |s|;
      InterpBetweenSamples(s, x);
    }
  }

  /** A zero delay returns the input unchanged. */
  lemma ZeroDelayIdentity(s: seq<real>)
    requires 1 <= |s|
    ensures FractionalDelay(s, 0.0) == Ok(s)
  {
    var out := FractionalDelay(s, 0.0).value;
    forall i | 0 <= i < |s|
      ensures out[i] == s[i]
    {
      assert i as real - 0.0 == i as real;
      InterpOnGrid(s, i);
    }
    assert out == s;
  }

  /** A whole-sample delay k moves every sample by k places, fills the
      vacated places with zeros (at the head for k >= 0, at the tail for
      k < 0) and wraps nothing around. */
  lemma IntegerDelay(s: seq<real>, k: int)
    requires 1 <= |s|
    ensures var out := FractionalDelay(s, k as real).value;
      forall i :: 0 <= i < |s| ==> out[i] == if 0 <= i - k < |s| then s[i - k] else 0.0
  {
    var out := FractionalDelay(s, k as real).value;
    forall i | 0 <= i < |s|
      ensures out[i] == if 0 <= i - k < |s| then s[i - k] else 0.0
    {
      assert i as real - k as real == (i - k) as real;
      if 0 <= i - k < |s| {
        InterpOnGrid(s, i - k);
      }
    }
  }

  /** No output sample is larger in magnitude than the largest input sample. */
  lemma DelayBounded(s: seq<real>, delay: real, bound: real)
    requires 1 <= |s|
    requires forall k :: 0 <= k < |s| ==> Abs(s[k]) <= bound
    ensures forall i :: 0 <= i < |s| ==> Abs(FractionalDelay(s, delay).value[i]) <= bound
  {
    forall i | 0 <= i < |s|
      ensures Abs(FractionalDelay(s, delay).value[i]) <= bound
    {
      InterpBounded(s, i as real - delay, bound);
    }
  }

  // ---------------------------------------------------------------------
  // Two-microphone synthesizer
  // ---------------------------------------------------------------------

  /** len(np.arange(int(fs * duration_s))): the product is truncated toward
      zero, not rounded, and a negative count gives no samples. */
  function SampleCount(fs: int, duration: real): (n: nat)
    ensures n == 0 <==> fs as real * duration < 1.0
    ensures 1 <= n ==> n as real <= fs as real * duration < n as real + 1.0
  {
    var k := Trunc(fs as real * duration);
    if k < 0 then 0 else k
  }

  /** One sample of the mono source at time i / fs. */
  function SourceSample(m: Maths, fs: int, freq: real, i: nat, texture: real): real
    requires fs != 0
  {
    0.8 * m.sin(2.0 * m.pi * freq * (i as real / fs as real)) + 0.2 * texture
  }

  /** The mono source 0.8 * sin(2 pi f t) + 0.2 * texture at t = i / fs. */
  function Mono(m: Maths, fs: int, freq: real, texture: seq<real>): (mono: seq<real>)
    requires m.Valid() && (fs != 0 || |texture| == 0)
    ensures |mono| == |texture|
    ensures forall i :: 0 <= i < |mono| ==> Abs(mono[i]) <= 0.8 + 0.2 * Abs(texture[i])
  {
    seq(|texture|, i requires 0 <= i < |texture| => SourceSample(m, fs, freq, i, texture[i]))
  }

  /** The far-field inter-microphone delay d * sin(angle) / c, in seconds. */
  function TrueDelay(m: Maths, d: real, angleDeg: real, c: real): (tau: real)
    requires m.Valid() && c != 0.0
    ensures Abs(tau) <= Abs(d / c)
  {
    var s := m.sin(Deg2Rad(m, angleDeg));
    assert d * s / c == (d / c) * s;
    ScaledSineBound(d / c, s);
    d * s / c
  }

  lemma ScaledSineBound(a: real, s: real)
    requires -1.0 <= s <= 1.0
    ensures Abs(a * s) <= Abs(a)
  {
    if 0.0 <= a {
      ScaleMonotone(s, 1.0, a);
      ScaleMonotone(-1.0, s, a);
    } else {
      ScaleMonotone(s, 1.0, -a);
      ScaleMonotone(-1.0, s, -a);
    }
  }

  function SumSquares(s: seq<real>): (r: real)
    ensures 0.0 <= r
  {
    if s == [] then 0.0 else s[0] * s[0] + SumSquares(s[1..])
  }

  /** np.mean(mono ** 2). */
  function MeanSquare(s: seq<real>): (r: real)
    requires 1 <= |s|
    ensures 0.0 <= r
  {
    SumSquares(s) / |s| as real
  }

  /** The noise standard deviation that gives the requested SNR in dB. */
  function NoiseStd(m: Maths, mono: seq<real>, snrDb: real): (sigma: real)
    requires m.Valid() && 1 <= |mono|
    ensures 0.0 <= sigma
    ensures sigma * sigma * m.pow10(snrDb / 10.0) == MeanSquare(mono)
  {
    var p := MeanSquare(mono) / m.pow10(snrDb / 10.0);
    assert 0.0 <= p;
    m.sqrt(p)
  }

  /** The seeded generator: Draws(seed, k, n) is the k-th block of n
      standard-normal samples drawn from the stream seeded with `seed`. */
  type NormalDraws = (int, nat, nat) -> seq<real>

  ghost predicate DrawsValid(draws: NormalDraws) {
    forall seed: int, k: nat, n: nat :: |draws(seed, k, n)| == n
  }

  /** x + rng.normal(0.0, sigma, size=x.shape), with the draws z given. */
  function AddNoise(x: seq<real>, sigma: real, z: seq<real>): (y: seq<real>)
    requires |z| == |x|
    ensures |y| == |x|
    ensures forall i :: 0 <= i < |x| ==> y[i] == x[i] + sigma * z[i]
  {
    seq(|x|, i requires 0 <= i < |x| => x[i] + sigma * z[i])
  }

  /** A delay in seconds expressed in samples at rate fs. */
  function DelayInSamples(tau: real, fs: int): real {
    tau * fs as real
  }

  /** The two channels and the exact delay between them. */
  datatype MicPair = MicPair(x1: seq<real>, x2: seq<real>, trueDelay: real)

  /** generate_two_mic_sine. The generator seeded with `seed` is consumed
      three times: the texture of the source, then the noise of each
      channel. */
  function GenerateTwoMic(m: Maths, draws: NormalDraws, fs: int, duration: real, freq: real,
                          d: real, angleDeg: real, snrDb: real, c: real, seed: int): (r: Result<MicPair>)
    requires m.Valid() && DrawsValid(draws) && c != 0.0
    ensures r.Err? <==> SampleCount(fs, duration) == 0
    ensures r.Err? ==> r.error == EmptySamplePoints
    ensures r.Ok? ==>
      var n := SampleCount(fs, duration);
      var mono := Mono(m, fs, freq, draws(seed, 0, n));
      var sigma := NoiseStd(m, mono, snrDb);
      && |r.value.x1| == n && |r.value.x2| == n
      && r.value.trueDelay == TrueDelay(m, d, angleDeg, c)
      && Abs(r.value.trueDelay) <= Abs(d / c)
      && r.value.x1 == AddNoise(mono, sigma, draws(seed, 1, n))
      && r.value.x2 == AddNoise(FractionalDelay(mono, DelayInSamples(r.value.trueDelay, fs)).value, sigma, draws(seed, 2, n))
  {
    var n := SampleCount(fs, duration);
    var mono := Mono(m, fs, freq, draws(seed, 0, n));
    var tau := TrueDelay(m, d, angleDeg, c);
    var delayed := FractionalDelay(mono, DelayInSamples(tau, fs));
    if delayed.Err? then Err(delayed.error)
    else
      var sigma := NoiseStd(m, mono, snrDb);
      var x1, x2 := AddNoise(mono, sigma, draws(seed, 1, n)), AddNoise(delayed.value, sigma, draws(seed, 2, n));
      Ok(MicPair(x1, x2, tau))
  }

  /** When the delay is a whole number k of samples, the second channel is
      the source moved k samples later (zeros where it has no sample yet),
      plus its own noise. */
  lemma WholeSampleDelay(m: Maths, draws: NormalDraws, fs: int, duration: real, freq: real,
                         d: real, angleDeg: real, snrDb: real, c: real, seed: int, k: int)
    requires m.Valid() && DrawsValid(draws) && c != 0.0
    requires DelayInSamples(TrueDelay(m, d, angleDeg, c), fs) == k as real
    requires GenerateTwoMic(m, draws, fs, duration, freq, d, angleDeg, snrDb, c, seed).Ok?
    ensures var n := SampleCount(fs, duration);
      var mono := Mono(m, fs, freq, draws(seed, 0, n));
      var sigma := NoiseStd(m, mono, snrDb);
      var x2 := GenerateTwoMic(m, draws, fs, duration, freq, d, angleDeg, snrDb, c, seed).value.x2;
      forall i :: 0 <= i < n ==>
        x2[i] == (if 0 <= i - k < n then mono[i - k] else 0.0) + sigma * draws(seed, 2, n)[i]
  {
    var n := SampleCount(fs, duration);
    var mono := Mono(m, fs, freq, draws(seed, 0, n));
    IntegerDelay(mono, k);
  }
}
