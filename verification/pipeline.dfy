/** How the synthesizer and the angle estimator fit together: the delay the
    synthesizer puts between the channels, fed back to the angle estimator,
    gives back the angle it was built from. */
module Pipeline {
  import opened Numerics
  import Ssl
  import Signal

  /** Degrees to radians and back is the identity. */
  lemma DegreesRoundTrip(m: Maths, deg: real)
    requires 0.0 < m.pi
    ensures Rad2Deg(m, Deg2Rad(m, deg)) == deg
  {
    assert Deg2Rad(m, deg) * 180.0 == deg * m.pi;
    QuotientOfMultiple(deg, m.pi);
  }

  /** Scaling by c / d undoes scaling by d / c. */
  lemma DelayToArgument(tau: real, d: real, s: real, c: real)
    requires d != 0.0 && c != 0.0 && tau == d * s / c
    ensures tau * c / d == s
  {
    assert tau * c == d * s by {
      var x := d * s;
      assert tau * c == x / c * c;
    }
    assert d * s == s * d;
    QuotientOfMultiple(s, d);
  }

  /** A delay d * s / c with s in [-1, 1] needs no clipping: the arcsine
      argument is s itself. */
  lemma ArgumentOfScaledSine(tau: real, d: real, s: real, c: real)
    requires d != 0.0 && c != 0.0 && -1.0 <= s <= 1.0 && tau == d * s / c
    ensures Ssl.AngleArgument(tau, d, c) == Ok(s)
  {
    DelayToArgument(tau, d, s, c);
  }

  /** An angle within [-90, 90] degrees lies within [-pi/2, pi/2] radians. */
  lemma RadiansInRange(m: Maths, deg: real)
    requires 0.0 < m.pi && -90.0 <= deg <= 90.0
    ensures -m.pi / 2.0 <= Deg2Rad(m, deg) <= m.pi / 2.0
  {
    var k := m.pi / 180.0;
    assert Deg2Rad(m, deg) == deg * k;
    assert -m.pi / 2.0 == -90.0 * k && m.pi / 2.0 == 90.0 * k;
    ScaleMonotone(-90.0, deg, k);
    ScaleMonotone(deg, 90.0, k);
  }

  /** The delay the synthesizer computes, fed to the estimator, gives back
      the sine of the angle as the arcsine argument. */
  lemma ArgumentOfTrueDelay(m: Maths, d: real, c: real, angleDeg: real)
    requires m.Valid() && d != 0.0 && c != 0.0
    ensures Ssl.AngleArgument(Signal.TrueDelay(m, d, angleDeg, c), d, c) == Ok(m.sin(Deg2Rad(m, angleDeg)))
  {
    var s := m.sin(Deg2Rad(m, angleDeg));
    var tau := Signal.TrueDelay(m, d, angleDeg, c);
    assert tau == d * s / c;
    ArgumentOfScaledSine(tau, d, s, c);
  }

  /** Inside [-90, 90] degrees the far-field delay d * sin(angle) / c is
      inverted exactly by estimate_angle_from_tdoa. */
  lemma AngleRoundTrip(m: Maths, d: real, c: real, angleDeg: real)
    requires m.Valid() && d != 0.0 && c != 0.0 && -90.0 <= angleDeg <= 90.0
    ensures Ssl.EstimateAngle(m, Signal.TrueDelay(m, d, angleDeg, c), d, c) == Ok(angleDeg)
  {
    var theta := Deg2Rad(m, angleDeg);
    ArgumentOfTrueDelay(m, d, c, angleDeg);
    RadiansInRange(m, angleDeg);
    assert m.arcsin(m.sin(theta)) == theta;
    DegreesRoundTrip(m, angleDeg);
  }
}
