/** Numeric building blocks shared by the signal model and the GCC-PHAT
    estimator: results for the exceptions the Python code can raise, Python's
    int() truncation and slice rules, complex spectrum bins, and the
    transcendental functions the code takes from its numeric library. */
module Numerics {

  /** The exceptions the core can raise. */
  datatype Error =
    | EmptySamplePoints     // linear interpolation over an empty sample grid
    | InvalidTransformSize  // inverse transform asked for fewer than one point
    | EmptyArgMax           // argmax of an empty sequence
    | ZeroDivision          // division by a zero Python int or float

  datatype Result<+T> = Ok(value: T) | Err(error: Error)

  datatype Option<+T> = None | Some(value: T)

  function Abs(x: real): real {
    if x < 0.0 then -x else x
  }

  function Min(a: int, b: int): int {
    if a <= b then a else b
  }

  /** np.clip on a scalar: min(max(x, lo), hi). */
  function Clip(x: real, lo: real, hi: real): real {
    var y := if x < lo then lo else x;
    if y > hi then hi else y
  }

  /** Python's int() applied to a float: it rounds toward zero, not down. */
  function Trunc(x: real): (r: int)
    ensures 0.0 <= x ==> 0 <= r && r as real <= x < r as real + 1.0
    ensures x <= 0.0 ==> r <= 0 && r as real - 1.0 < x <= r as real
  {
    if x >= 0.0 then x.Floor else -((-x).Floor)
  }

  /** Where Python puts a slice bound `i` on a sequence of length `n`:
      a negative bound counts from the end, and both kinds are clamped. */
  function SliceBound(i: int, n: nat): (k: nat)
    ensures k <= n
    ensures 0 <= i <= n ==> k == i
    ensures i < 0 && 0 <= i + n ==> k == i + n
    ensures n < i ==> k == n
    ensures i + n < 0 ==> k == 0
  {
    if i < 0 then (if i + n < 0 then 0 else i + n)
    else if i > n then n
    else i
  }

  /** s[i:] in Python. */
  function SliceFrom<T>(s: seq<T>, i: int): seq<T> {
    s[SliceBound(i, |s|)..]
  }

  /** s[:j] in Python. */
  function SliceTo<T>(s: seq<T>, j: int): seq<T> {
    s[..SliceBound(j, |s|)]
  }

  /** One bin of a discrete spectrum. */
  datatype Complex = Complex(re: real, im: real)

  function Mul(a: Complex, b: Complex): Complex {
    Complex(a.re * b.re - a.im * b.im, a.re * b.im + a.im * b.re)
  }

  function Conj(a: Complex): Complex {
    Complex(a.re, -a.im)
  }

  /** The squared modulus |a|^2. */
  function NormSq(a: Complex): real {
    a.re * a.re + a.im * a.im
  }

  /** A complex bin divided by a real number, as numpy divides an array of
      complex values by an array of floats. */
  function DivReal(a: Complex, d: real): Complex
    requires d != 0.0
  {
    Complex(a.re / d, a.im / d)
  }

  /** The floating-point library functions the core calls, given as values:
      pi, sine, arcsine, square root and x |-> 10^x. */
  datatype Maths = Maths(
    pi: real,
    sin: real -> real,
    arcsin: real -> real,
    sqrt: real -> real,
    pow10: real -> real)
  {
    /** The only facts about them the model relies on. */
    ghost predicate Valid() {
      && 0.0 < pi
      && (forall x :: -1.0 <= sin(x) <= 1.0)
      && (forall x, y :: -1.0 <= x <= y <= 1.0 ==> arcsin(x) <= arcsin(y))
      && arcsin(1.0) == pi / 2.0
      && arcsin(-1.0) == -pi / 2.0
      && (forall x :: -pi / 2.0 <= x <= pi / 2.0 ==> arcsin(sin(x)) == x)
      && (forall x :: 0.0 <= x ==> 0.0 <= sqrt(x) && sqrt(x) * sqrt(x) == x)
      && (forall x :: 0.0 < pow10(x))
    }
  }

  /** np.deg2rad. */
  function Deg2Rad(m: Maths, deg: real): real {
    deg * m.pi / 180.0
  }

  /** np.rad2deg. */
  function Rad2Deg(m: Maths, rad: real): real
    requires m.pi != 0.0
  {
    rad * 180.0 / m.pi
  }

  /** A right angle either way, converted to degrees. */
  lemma RightAngleDegrees(m: Maths)
    requires 0.0 < m.pi
    ensures Rad2Deg(m, m.pi / 2.0) == 90.0
    ensures Rad2Deg(m, -m.pi / 2.0) == -90.0
  {
    assert m.pi / 2.0 * 180.0 == 90.0 * m.pi;
    QuotientOfMultiple(90.0, m.pi);
    assert -m.pi / 2.0 * 180.0 == -90.0 * m.pi;
    QuotientOfMultiple(-90.0, m.pi);
  }

  lemma QuotientOfMultiple(a: real, k: real)
    requires k != 0.0
    ensures a * k / k == a
  {
    var q := a * k / k;
    assert q * k == a * k;
    Cancel(q, a, k);
  }

  lemma ScaleMonotone(a: real, b: real, k: real)
    requires a <= b && 0.0 <= k
    ensures a * k <= b * k
  {}

  lemma ScaleStrict(a: real, b: real, k: real)
    requires a < b && 0.0 < k
    ensures a * k < b * k
  {}

  lemma SquareMonotone(x: real, y: real)
    requires 0.0 <= x <= y
    ensures x * x <= y * y
  {
    ScaleMonotone(x, y, x);
    ScaleMonotone(x, y, y);
  }

  lemma Cancel(x: real, y: real, k: real)
    requires k != 0.0 && x * k == y * k
    ensures x == y
  {
    assert (x - y) * k == 0.0;
  }
}
