/** The GCC-PHAT time-difference-of-arrival estimator and the mapping from a
    delay to an azimuth angle. The Fourier transforms are parameters (a
    `Fourier` value); everything around them -- the transform size, the PHAT
    weighting, the lag-search bound, the re-centring of the circular
    correlation, the peak scan and the conversion to seconds -- is modelled
    exactly. */
module Ssl {
  import opened Numerics

  // ---------------------------------------------------------------------
  // Transform size
  // ---------------------------------------------------------------------

  predicate IsPowerOfTwo(k: int)
    decreases k
  {
    k == 1 || (k >= 2 && k % 2 == 0 && IsPowerOfTwo(k / 2))
  }

  /** Two powers of two less than a factor two apart are ordered. */
  lemma {:induction false} PowerOfTwoOrder(p: int, q: int)
    requires IsPowerOfTwo(p) && IsPowerOfTwo(q) && q < 2 * p
    ensures q <= p
    decreases q
  {
    if q >= 2 && p >= 2 {
      PowerOfTwoOrder(p / 2, q / 2);
    }
  }

  /** `nfft` is the transform size for `n` samples: a power of two that holds
      them all, with its half too small to do so. */
  ghost predicate IsFftSize(nfft: int, n: int) {
    IsPowerOfTwo(nfft) && n <= nfft && (nfft == 1 || nfft / 2 < n)
  }

  /** For every sample count there is at most one transform size. */
  lemma FftSizeUnique(a: int, b: int, n: int)
    requires IsFftSize(a, n) && IsFftSize(b, n)
    ensures a == b
  {
    if a != 1 { PowerOfTwoOrder(b, a); }
    if b != 1 { PowerOfTwoOrder(a, b); }
  }

  /** The doubling loop that picks the transform size. */
  method FftSize(n: int) returns (nfft: int)
    ensures IsFftSize(nfft, n)
    ensures forall p :: IsPowerOfTwo(p) && n <= p ==> nfft <= p
  {
    nfft := 1;
    while nfft < n
      invariant IsPowerOfTwo(nfft)
      invariant nfft == 1 || nfft / 2 < n
      decreases n - nfft
    {
      nfft := nfft * 2;
    }
    forall p | IsPowerOfTwo(p) && n <= p
      ensures nfft <= p
    {
      if nfft != 1 { PowerOfTwoOrder(p, nfft); }
    }
  }

  // ---------------------------------------------------------------------
  // Cross-spectrum and PHAT weighting
  // ---------------------------------------------------------------------

  /** `m` is the modulus |z| as np.abs computes it. */
  ghost predicate IsModulus(z: Complex, m: real) {
    0.0 <= m && m * m == NormSq(z)
  }

  /** The forward real transform (rfft), the inverse real transform (irfft)
      and the complex modulus (abs) of the numeric library, given as values. */
  datatype Fourier = Fourier(
    rfft: (seq<real>, int) -> seq<Complex>,
    irfft: (seq<Complex>, int) -> seq<real>,
    abs: Complex -> real)
  {
    /** The shapes the library promises, and abs is the modulus. */
    ghost predicate Valid() {
      && (forall x: seq<real>, n: int :: 1 <= n ==> |rfft(x, n)| == n / 2 + 1)
      && (forall bins: seq<Complex>, n: int :: 1 <= n ==> |irfft(bins, n)| == n)
      && (forall z: Complex :: IsModulus(z, abs(z)))
    }
  }

  /** The floor under the PHAT divisor. */
  const PhatFloor: real := 0.000000000001

  /** np.maximum(|r|, 1e-12) for one bin. */
  function PhatDivisor(m: real): (d: real)
    ensures PhatFloor <= d && m <= d
    ensures PhatFloor <= m ==> d == m
    ensures m < PhatFloor ==> d == PhatFloor
  {
    if m >= PhatFloor then m else PhatFloor
  }

  /** One bin of the whitened cross-spectrum. */
  function PhatBin(z: Complex, m: real): Complex {
    DivReal(z, PhatDivisor(m))
  }

  lemma FloorSquare(d: real)
    requires PhatFloor <= d
    ensures PhatFloor * PhatFloor <= d * d
  {
    ScaleMonotone(PhatFloor, d, PhatFloor);
    ScaleMonotone(PhatFloor, d, d);
  }

  /** PHAT whitening leaves each bin with modulus at most one, and exactly one
      wherever the bin's modulus reaches the floor. */
  lemma PhatBinMagnitude(z: Complex, m: real)
    requires IsModulus(z, m)
    ensures NormSq(PhatBin(z, m)) <= 1.0
    ensures PhatFloor <= m ==> NormSq(PhatBin(z, m)) == 1.0
  {
    var d := PhatDivisor(m);
    var u, v := z.re / d, z.im / d;
    assert PhatBin(z, m) == Complex(u, v);
    assert z.re == u * d && z.im == v * d;
    assert NormSq(z) == (u * u + v * v) * (d * d);
    FloorSquare(d);
    assert 0.0 <= m <= d;
    SquareMonotone(m, d);
    if u * u + v * v > 1.0 {
      ScaleStrict(1.0, u * u + v * v, d * d);
      assert false;
    }
    if PhatFloor <= m {
      Cancel(u * u + v * v, 1.0, d * d);
    }
  }

  function CrossSpectrum(a: seq<Complex>, b: seq<Complex>): (r: seq<Complex>)
    requires |a| == |b|
    ensures |r| == |a|
  {
    seq(|a|, k requires 0 <= k < |a| => Mul(a[k], Conj(b[k])))
  }

  function Moduli(f: Fourier, r: seq<Complex>): (m: seq<real>)
    ensures |m| == |r|
  {
    seq(|r|, k requires 0 <= k < |r| => f.abs(r[k]))
  }

  /** The whole cross-spectrum after PHAT weighting. */
  function Whitened(r: seq<Complex>, denom: seq<real>): (w: seq<Complex>)
    requires |denom| == |r|
    ensures |w| == |r|
  {
    seq(|r|, k requires 0 <= k < |r| => PhatBin(r[k], denom[k]))
  }

  /** Every bin of a whitened spectrum has modulus at most one, and exactly
      one where its modulus reaches the floor. */
  lemma WhitenedBounds(f: Fourier, r: seq<Complex>)
    requires f.Valid()
    ensures forall k :: 0 <= k < |r| ==>
      NormSq(Whitened(r, Moduli(f, r))[k]) <= 1.0 &&
      (PhatFloor <= f.abs(r[k]) ==> NormSq(Whitened(r, Moduli(f, r))[k]) == 1.0)
  {
    forall k | 0 <= k < |r|
      ensures NormSq(Whitened(r, Moduli(f, r))[k]) <= 1.0
      ensures PhatFloor <= f.abs(r[k]) ==> NormSq(Whitened(r, Moduli(f, r))[k]) == 1.0
    {
      PhatBinMagnitude(r[k], f.abs(r[k]));
    }
  }

  /** `r /= np.maximum(denom, 1e-12)`, in place. */
  method Whiten(r: array<Complex>, denom: seq<real>)
    requires |denom| == r.Length
    modifies r
    ensures r[..] == Whitened(old(r[..]), denom)
  {
    for k := 0 to r.Length
      invariant forall j :: 0 <= j < k ==> r[j] == PhatBin(old(r[j]), denom[j])
      invariant forall j :: k <= j < r.Length ==> r[j] == old(r[j])
    {
      r[k] := PhatBin(r[k], denom[k]);
    }
  }

  /** The cross-spectrum of `sig` against `refsig` at `nfft` points, PHAT
      weighted. */
  function PhatSpectrum(f: Fourier, sig: seq<real>, refsig: seq<real>, nfft: int): seq<Complex>
    requires f.Valid() && 1 <= nfft
  {
    var r := CrossSpectrum(f.rfft(sig, nfft), f.rfft(refsig, nfft));
    Whitened(r, Moduli(f, r))
  }

  /** Lines 27-31 of gcc_phat: both forward transforms, the cross-spectrum,
      and the PHAT division done in place on its buffer. */
  method WhitenCrossSpectrum(f: Fourier, sig: seq<real>, refsig: seq<real>, nfft: int)
    returns (bins: seq<Complex>)
    requires f.Valid() && 1 <= nfft
    ensures bins == PhatSpectrum(f, sig, refsig, nfft)
    ensures |bins| == nfft / 2 + 1
  {
    var spectrum := CrossSpectrum(f.rfft(sig, nfft), f.rfft(refsig, nfft));
    var denom := Moduli(f, spectrum);
    var r := new Complex[|spectrum|](k => if 0 <= k < |spectrum| then spectrum[k] else Complex(0.0, 0.0));
    assert r[..] == spectrum;
    Whiten(r, denom);
    bins := r[..];
  }

  /** The PHAT-weighted circular cross-correlation of `sig` against `refsig`,
      transformed back at `interp * nfft` points. */
  function CrossCorrelation(f: Fourier, sig: seq<real>, refsig: seq<real>, nfft: int, interp: int): (cc: seq<real>)
    requires f.Valid() && 1 <= nfft && 1 <= interp
    ensures |cc| == interp * nfft
  {
    assert 1 <= interp * nfft;
    f.irfft(PhatSpectrum(f, sig, refsig, nfft), interp * nfft)
  }

  // ---------------------------------------------------------------------
  // Lag search
  // ---------------------------------------------------------------------

  /** The largest lag searched, in upsampled samples. */
  function MaxShift(interp: int, nfft: int, fs: int, maxTau: Option<real>): (m: int)
    requires 1 <= interp && 1 <= nfft
    ensures 2 * m <= interp * nfft
    ensures maxTau.None? ==> m == interp * nfft / 2
    ensures maxTau.Some? ==> m <= Trunc((interp * fs) as real * maxTau.value)
    ensures maxTau.Some? ==> m == interp * nfft / 2 || m == Trunc((interp * fs) as real * maxTau.value)
    ensures maxTau.Some? && 0.0 <= maxTau.value && 0 <= fs ==> 0 <= m
  {
    var size := interp * nfft;
    var half := size / 2;
    match maxTau
    case None => half
    case Some(t) =>
      RateTimesBound(interp, fs, t);
      Min(Trunc((interp * fs) as real * t), half)
  }

  lemma RateTimesBound(interp: int, fs: int, t: real)
    requires 1 <= interp
    ensures 0 <= fs && 0.0 <= t ==> 0.0 <= (interp * fs) as real * t
  {
    if 0 <= fs && 0.0 <= t {
      assert 0 <= interp * fs;
      ScaleMonotone(0.0, (interp * fs) as real, t);
    }
  }

  /** The re-centred correlation as the code builds it:
      cc[-m:] followed by cc[:m + 1], under Python's slice rules. */
  function Window(cc: seq<real>, m: int): seq<real> {
    SliceFrom(cc, -m) + SliceTo(cc, m + 1)
  }

  /** For a positive bound the window is the last `m` lags of the circular
      buffer (the negative lags) followed by lags 0 to m. */
  lemma WindowLayout(cc: seq<real>, m: int)
    requires 1 <= m < |cc|
    ensures |Window(cc, m)| == 2 * m + 1
    ensures forall k :: 0 <= k < m ==> Window(cc, m)[k] == cc[|cc| - m + k]
    ensures forall k :: 0 <= k <= m ==> Window(cc, m)[m + k] == cc[k]
  {
    assert SliceFrom(cc, -m) == cc[|cc| - m..];
    assert SliceTo(cc, m + 1) == cc[..m + 1];
  }

  /** For a zero bound, cc[-0:] is the whole buffer: the window is every lag
      followed by lag 0 again, and the search is not restricted. */
  lemma WindowAtZero(cc: seq<real>)
    requires 1 <= |cc|
    ensures Window(cc, 0) == cc + [cc[0]]
    ensures |Window(cc, 0)| == |cc| + 1
  {
    assert SliceFrom(cc, 0) == cc;
    assert SliceTo(cc, 1) == [cc[0]];
  }

  /** `k` is the index np.argmax(np.abs(s)) returns: a maximum of |s|, and the
      first one. */
  ghost predicate IsFirstPeak(s: seq<real>, k: int) {
    && 0 <= k < |s|
    && (forall j :: 0 <= j < |s| ==> Abs(s[j]) <= Abs(s[k]))
    && (forall j :: 0 <= j < k ==> Abs(s[j]) < Abs(s[k]))
  }

  /** Ties are broken one way only: there is one first peak. */
  lemma FirstPeakUnique(s: seq<real>, a: int, b: int)
    requires IsFirstPeak(s, a) && IsFirstPeak(s, b)
    ensures a == b
  {
    assert Abs(s[a]) <= Abs(s[b]) && Abs(s[b]) <= Abs(s[a]);
    assert !(a < b);
    assert !(b < a);
  }

  /** np.argmax(np.abs(s)): a scan that keeps the first maximum. */
  method FirstPeak(s: seq<real>) returns (r: Result<int>)
    ensures r.Err? <==> |s| == 0
    ensures r.Err? ==> r.error == EmptyArgMax
    ensures r.Ok? ==> IsFirstPeak(s, r.value)
  {
    if |s| == 0 {
      return Err(EmptyArgMax);
    }
    var k := 0;
    for i := 1 to |s|
      invariant 0 <= k < i
      invariant forall j :: 0 <= j < i ==> Abs(s[j]) <= Abs(s[k])
      invariant forall j :: 0 <= j < k ==> Abs(s[j]) < Abs(s[k])
    {
      if Abs(s[i]) > Abs(s[k]) {
        k := i;
      }
    }
    r := Ok(k);
  }

  /** A lag of `shift` upsampled samples, in seconds. */
  function LagSeconds(shift: int, interp: int, fs: int): real
    requires interp * fs != 0
  {
    shift as real / (interp * fs) as real
  }

  lemma QuotientBound(x: real, bound: real, rate: real)
    requires 0.0 < rate && -bound * rate <= x <= bound * rate
    ensures -bound <= x / rate <= bound
  {
    var q := x / rate;
    assert q * rate == x;
    if q > bound {
      ScaleStrict(bound, q, rate);
      assert false;
    }
    if q < -bound {
      ScaleStrict(q, -bound, rate);
      assert false;
    }
  }

  /** A lag within the bound that `maxTau` sets is at most `maxTau` seconds. */
  lemma LagWithinMaxTau(shift: int, m: int, interp: int, fs: int, maxTau: real)
    requires 1 <= interp && 1 <= fs && 0.0 <= maxTau
    requires -m <= shift <= m && m <= Trunc((interp * fs) as real * maxTau)
    ensures -maxTau <= LagSeconds(shift, interp, fs) <= maxTau
  {
    var rate := (interp * fs) as real;
    assert 0.0 < rate;
    assert 0.0 <= maxTau * rate;
    QuotientBound(shift as real, maxTau, rate);
  }

  /** The estimate: the delay in seconds and the re-centred correlation. */
  datatype Estimate = Estimate(tau: real, cc: seq<real>)

  /** gcc_phat. The ghost outputs name the intermediate values: the transform
      size, the correlation buffer, the search bound and the peak index. */
  method GccPhat(sig: seq<real>, refsig: seq<real>, fs: int, maxTau: Option<real>, interp: int, f: Fourier)
    returns (r: Result<Estimate>, ghost nfft: int, ghost cc: seq<real>, ghost maxShift: int, ghost peak: int)
    requires f.Valid()
    ensures IsFftSize(nfft, |sig| + |refsig|)
    ensures interp < 1 ==> r == Err(InvalidTransformSize)
    ensures 1 <= interp ==> cc == CrossCorrelation(f, sig, refsig, nfft, interp)
    ensures 1 <= interp ==> maxShift == MaxShift(interp, nfft, fs, maxTau)
    ensures 1 <= interp && Window(cc, maxShift) == [] ==> r == Err(EmptyArgMax)
    ensures 1 <= interp && Window(cc, maxShift) != [] && fs == 0 ==> r == Err(ZeroDivision)
    ensures r.Ok? <==> 1 <= interp && fs != 0 && Window(cc, maxShift) != []
    ensures r.Ok? ==> r.value.cc == Window(cc, maxShift) && IsFirstPeak(r.value.cc, peak)
    ensures r.Ok? ==> r.value.tau == LagSeconds(peak - maxShift, interp, fs)
    // What the window and the peak mean for a positive bound ...
    ensures r.Ok? && 1 <= maxShift ==>
      |r.value.cc| == 2 * maxShift + 1 && -maxShift <= peak - maxShift <= maxShift
    ensures r.Ok? && 1 <= maxShift ==> |cc| == interp * nfft && 2 * maxShift <= |cc|
    // ... and for a zero one, where the whole buffer is searched.
    ensures r.Ok? && maxShift == 0 ==> |r.value.cc| == |cc| + 1 && 0 <= peak - maxShift <= |cc|
    ensures r.Ok? && maxTau.Some? && 0.0 <= maxTau.value && 0 < fs && 1 <= maxShift ==>
      -maxTau.value <= r.value.tau <= maxTau.value
  {
    var size := FftSize(|sig| + |refsig|);
    nfft := size;
    var bins := WhitenCrossSpectrum(f, sig, refsig, size);
    if interp < 1 {
      return Err(InvalidTransformSize), nfft, [], 0, 0;
    }
    assert 1 <= interp * size;
    var corr := f.irfft(bins, interp * size);
    cc := corr;
    var m := MaxShift(interp, size, fs, maxTau);
    maxShift := m;
    var shifted := Window(corr, m);
    var arg := FirstPeak(shifted);
    if arg.Err? {
      return Err(EmptyArgMax), nfft, cc, maxShift, 0;
    }
    peak := arg.value;
    if interp * fs == 0 {
      return Err(ZeroDivision), nfft, cc, maxShift, peak;
    }
    r := Ok(Estimate(LagSeconds(arg.value - m, interp, fs), shifted));
    WindowFacts(corr, m, peak, interp, fs, maxTau);
  }

  /** What the window and the first peak in it mean, for the bound the
      estimator computes. */
  lemma WindowFacts(cc: seq<real>, m: int, peak: int, interp: int, fs: int, maxTau: Option<real>)
    requires 1 <= interp && 2 * m <= |cc| && IsFirstPeak(Window(cc, m), peak)
    requires maxTau.Some? ==> m <= Trunc((interp * fs) as real * maxTau.value)
    ensures 1 <= m ==> |Window(cc, m)| == 2 * m + 1 && -m <= peak - m <= m
    ensures m == 0 ==> |Window(cc, 0)| == |cc| + 1 && 0 <= peak <= |cc|
    ensures 1 <= m && maxTau.Some? && 0.0 <= maxTau.value && 0 < fs ==>
      -maxTau.value <= LagSeconds(peak - m, interp, fs) <= maxTau.value
  {
    if 1 <= m {
      WindowLayout(cc, m);
      if maxTau.Some? && 0.0 <= maxTau.value && 0 < fs {
        LagWithinMaxTau(peak - m, m, interp, fs, maxTau.value);
      }
    } else if m == 0 {
      WindowAtZero(cc);
    }
  }

  // ---------------------------------------------------------------------
  // The bounded search with a zero bound
  // ---------------------------------------------------------------------

  /** With a bound below one upsampled sample the code searches the whole
      buffer. For sig = [0, 1, 0, 0] and refsig = [1, 0, 0, 0] at 16 kHz,
      upsampled 16 times with max_tau = 1e-6 s: the transform size is 8, the
      bound is 0, and the window is the whole 128-sample correlation plus one
      sample. The whitened spectrum of a one-sample delay peaks the
      correlation at index 16; a correlation peaked there is reported as
      16 / 256000 = 6.25e-5 s, far beyond the 1e-6 s allowed. */
  lemma ZeroBoundEscapesMaxTau()
    ensures IsFftSize(8, |[0.0, 1.0, 0.0, 0.0]| + |[1.0, 0.0, 0.0, 0.0]|)
    ensures MaxShift(16, 8, 16000, Some(0.000001)) == 0
    ensures var cc := seq(16 * 8, k => if k == 16 then 1.0 else 0.0);
      && |Window(cc, 0)| == |cc| + 1
      && IsFirstPeak(Window(cc, 0), 16)
      && LagSeconds(16 - 0, 16, 16000) == 0.0000625
      && LagSeconds(16 - 0, 16, 16000) > 0.000001
  {
    assert IsPowerOfTwo(8) by {
      assert IsPowerOfTwo(2) && IsPowerOfTwo(4);
    }
    var cc := seq(16 * 8, k => if k == 16 then 1.0 else 0.0);
    WindowAtZero(cc);
    assert Window(cc, 0)[16] == 1.0;
    assert forall j :: 0 <= j < |Window(cc, 0)| && j != 16 ==> Window(cc, 0)[j] == 0.0;
  }

  /** The window the search evidently means: `m` negative lags, lag 0 and `m`
      positive lags, also when `m` is 0. */
  function CenteredWindow(cc: seq<real>, m: int): (w: seq<real>)
    requires 0 <= m < |cc|
    ensures |w| == 2 * m + 1
    ensures forall k :: 0 <= k < m ==> w[k] == cc[|cc| - m + k]
    ensures forall k :: 0 <= k <= m ==> w[m + k] == cc[k]
  {
    cc[|cc| - m..] + cc[..m + 1]
  }

  /** The two windows differ only at a zero bound. */
  lemma CenteredWindowAgrees(cc: seq<real>, m: int)
    requires 1 <= m < |cc|
    ensures Window(cc, m) == CenteredWindow(cc, m)
  {
    WindowLayout(cc, m);
  }

  /** With the centred window every bound, zero included, keeps the estimate
      within `maxTau`. */
  lemma CenteredSearchRespectsMaxTau(cc: seq<real>, m: int, peak: int, interp: int, fs: int, maxTau: real)
    requires 0 <= m < |cc| && IsFirstPeak(CenteredWindow(cc, m), peak)
    requires 1 <= interp && 1 <= fs && 0.0 <= maxTau
    requires m <= Trunc((interp * fs) as real * maxTau)
    ensures -maxTau <= LagSeconds(peak - m, interp, fs) <= maxTau
  {
    LagWithinMaxTau(peak - m, m, interp, fs, maxTau);
  }

  // ---------------------------------------------------------------------
  // Angle mapping
  // ---------------------------------------------------------------------

  /** The arcsine argument tdoa * c / d, clipped to [-1, 1]. */
  function AngleArgument(tdoa: real, d: real, c: real): (r: Result<real>)
    ensures r.Err? <==> d == 0.0
    ensures r.Err? ==> r.error == ZeroDivision
    ensures r.Ok? ==> -1.0 <= r.value <= 1.0
    ensures d != 0.0 && -1.0 <= tdoa * c / d <= 1.0 ==> r == Ok(tdoa * c / d)
    ensures d != 0.0 && 1.0 < tdoa * c / d ==> r == Ok(1.0)
    ensures d != 0.0 && tdoa * c / d < -1.0 ==> r == Ok(-1.0)
  {
    if d == 0.0 then Err(ZeroDivision) else Ok(Clip(tdoa * c / d, -1.0, 1.0))
  }

  /** For positive c and d the clipped argument never decreases with the delay. */
  lemma AngleArgumentMonotone(t1: real, t2: real, d: real, c: real)
    requires 0.0 < c && 0.0 < d && t1 <= t2
    ensures AngleArgument(t1, d, c).value <= AngleArgument(t2, d, c).value
  {
    ScaleMonotone(t1, t2, c);
    assert t1 * c / d <= t2 * c / d by {
      ScaleMonotone(t1 * c, t2 * c, 1.0 / d);
    }
  }

  /** estimate_angle_from_tdoa: the azimuth in degrees. */
  function EstimateAngle(m: Maths, tdoa: real, d: real, c: real): (r: Result<real>)
    requires m.Valid()
    ensures r.Err? <==> d == 0.0
    ensures r.Ok? ==> -90.0 <= r.value <= 90.0
  {
    match AngleArgument(tdoa, d, c)
    case Err(e) => Err(e)
    case Ok(x) =>
      assert m.arcsin(-1.0) <= m.arcsin(x) <= m.arcsin(1.0);
      RightAngleDegrees(m);
      RadToDegMonotone(m, m.arcsin(-1.0), m.arcsin(x));
      RadToDegMonotone(m, m.arcsin(x), m.arcsin(1.0));
      Ok(Rad2Deg(m, m.arcsin(x)))
  }

  lemma RadToDegMonotone(m: Maths, a: real, b: real)
    requires 0.0 < m.pi && a <= b
    ensures Rad2Deg(m, a) <= Rad2Deg(m, b)
  {
    ScaleMonotone(a, b, 180.0);
    ScaleMonotone(a * 180.0, b * 180.0, 1.0 / m.pi);
  }

  /** Beyond the physical range the angle is exactly +90 or -90 degrees. */
  lemma AngleSaturates(m: Maths, tdoa: real, d: real, c: real)
    requires m.Valid() && d != 0.0
    ensures 1.0 <= tdoa * c / d ==> EstimateAngle(m, tdoa, d, c) == Ok(90.0)
    ensures tdoa * c / d <= -1.0 ==> EstimateAngle(m, tdoa, d, c) == Ok(-90.0)
  {
    RightAngleDegrees(m);
  }

  /** For positive c and d the angle never decreases with the delay. */
  lemma AngleMonotone(m: Maths, t1: real, t2: real, d: real, c: real)
    requires m.Valid() && 0.0 < c && 0.0 < d && t1 <= t2
    ensures EstimateAngle(m, t1, d, c).value <= EstimateAngle(m, t2, d, c).value
  {
    AngleArgumentMonotone(t1, t2, d, c);
    var x1, x2 := AngleArgument(t1, d, c).value, AngleArgument(t2, d, c).value;
    assert m.arcsin(x1) <= m.arcsin(x2);
    RadToDegMonotone(m, m.arcsin(x1), m.arcsin(x2));
  }
}
