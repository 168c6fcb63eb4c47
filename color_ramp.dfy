/**
 * The low-to-high force colour ramp of the simulator: Unity's RGBA `Color`
 * over the reals, `Mathf.Clamp01`, `Color.Lerp`, and the threshold rule of
 * `ForceSensorSimulator.GetArrowColor`.
 */
module ColorRamp {

  datatype Color = Color(r: real, g: real, b: real, a: real)

  /** `Color.green`, the default low force colour. */
  const Green := Color(0.0, 1.0, 0.0, 1.0)

  /** `Color.red`, the default high force colour. */
  const Red := Color(1.0, 0.0, 0.0, 1.0)

  /** The four channels of a colour, by number: red, green, blue, alpha. */
  function Channel(c: Color, k: nat): real
    requires k < 4
  {
    match k
    case 0 => c.r
    case 1 => c.g
    case 2 => c.b
    case 3 => c.a
  }

  /** `Mathf.Clamp01` */
  function Clamp01(t: real): real
  {
    if t < 0.0 then 0.0 else if t > 1.0 then 1.0 else t
  }

  /** `d * t`; kept behind a name so that the solver treats the product as an atom. */
  function Scale(d: real, t: real): real
  {
    d * t
  }

  /** One channel of a linear interpolation. */
  function Mix(x: real, y: real, t: real): real
  {
    x + Scale(y - x, t)
  }

  /** `Color.Lerp`: channel-wise interpolation, with `t` clamped to `[0, 1]`. */
  function Lerp(lo: Color, hi: Color, t: real): Color
  {
    var u := Clamp01(t);
    Color(Mix(lo.r, hi.r, u), Mix(lo.g, hi.g, u), Mix(lo.b, hi.b, u), Mix(lo.a, hi.a, u))
  }

  /** The colour with its alpha channel replaced (`arrowColor.a = colorTransparency`). */
  function WithAlpha(c: Color, alpha: real): Color
  {
    c.(a := alpha)
  }

  /**
   * `GetArrowColor`: the high colour at or above the threshold, otherwise the
   * interpolation at `Clamp01(m / threshold)`. Below the threshold the divisor is
   * zero only when `m` is negative; the float quotient is then minus infinity,
   * which `Clamp01` takes to `0`.
   */
  function ArrowColor(m: real, low: Color, high: Color, threshold: real): Color
  {
    if m >= threshold then high
    else Lerp(low, high, if threshold == 0.0 then 0.0 else Clamp01(m / threshold))
  }

  /** The interpolation factor `ArrowColor` uses for a magnitude below a positive threshold. */
  lemma RatioBelowThreshold(m: real, threshold: real)
    requires 0.0 <= m < threshold
    ensures 0.0 <= m / threshold < 1.0
    ensures Clamp01(m / threshold) == m / threshold
  {
  }

  lemma DivideMonotone(a: real, b: real, c: real)
    requires a <= b && 0.0 < c
    ensures a / c <= b / c
  {
  }

  lemma ScaleLe(d: real, t1: real, t2: real)
    requires t1 <= t2 && 0.0 <= d
    ensures Scale(d, t1) <= Scale(d, t2)
  {
  }

  lemma ScaleLt(d: real, t1: real, t2: real)
    requires t1 < t2 && 0.0 < d
    ensures Scale(d, t1) < Scale(d, t2)
  {
  }

  lemma ScaleFacts(d: real, t: real)
    ensures Scale(-d, t) == -Scale(d, t)
    ensures Scale(d, 0.0) == 0.0 && Scale(d, 1.0) == d
  {
  }

  /** Interpolating with a factor below one reaches the far end only when both ends agree. */
  lemma MixReachesEnd(x: real, y: real, t: real)
    requires 0.0 <= t < 1.0
    ensures Mix(x, y, t) == y <==> x == y
  {
    ScaleFacts(y - x, t);
    ScaleFacts(x - y, t);
    if x < y {
      ScaleLt(y - x, t, 1.0);
    } else if y < x {
      ScaleLt(x - y, t, 1.0);
    }
  }

  /** An interpolation with a factor in `[0, 1]` stays between its two ends. */
  lemma MixBetween(x: real, y: real, t: real)
    requires 0.0 <= t <= 1.0
    ensures x <= y ==> x <= Mix(x, y, t) <= y
    ensures y <= x ==> y <= Mix(x, y, t) <= x
  {
    ScaleFacts(y - x, t);
    ScaleFacts(x - y, t);
    if x <= y {
      ScaleLe(y - x, 0.0, t);
      ScaleLe(y - x, t, 1.0);
    } else {
      ScaleLe(x - y, 0.0, t);
      ScaleLe(x - y, t, 1.0);
    }
  }

  /** A larger factor moves an interpolation further from its start, towards its end. */
  lemma MixMonotone(x: real, y: real, t1: real, t2: real)
    requires t1 <= t2
    ensures x <= y ==> Mix(x, y, t1) <= Mix(x, y, t2)
    ensures y <= x ==> Mix(x, y, t2) <= Mix(x, y, t1)
  {
    ScaleFacts(y - x, t1);
    ScaleFacts(y - x, t2);
    if x <= y {
      ScaleLe(y - x, t1, t2);
    } else {
      ScaleLe(x - y, t1, t2);
      ScaleFacts(x - y, t1);
      ScaleFacts(x - y, t2);
    }
  }

  /**
   * For a non-negative magnitude, the arrow is given exactly the high colour when
   * the magnitude reaches the threshold, or when both ends of the ramp are equal.
   */
  lemma ArrowColorIsHighIff(m: real, low: Color, high: Color, threshold: real)
    requires 0.0 <= m
    ensures ArrowColor(m, low, high, threshold) == high <==> threshold <= m || low == high
  {
    if m < threshold {
      RatioBelowThreshold(m, threshold);
      var t := m / threshold;
      MixReachesEnd(low.r, high.r, t);
      MixReachesEnd(low.g, high.g, t);
      MixReachesEnd(low.b, high.b, t);
      MixReachesEnd(low.a, high.a, t);
    }
  }

  /** A zero magnitude under a positive threshold is given exactly the low colour. */
  lemma ArrowColorAtZero(low: Color, high: Color, threshold: real)
    requires 0.0 < threshold
    ensures ArrowColor(0.0, low, high, threshold) == low
  {
    assert 0.0 / threshold == 0.0;
  }

  /** Every channel of an arrow colour lies between that channel of the low and the high colour. */
  lemma ArrowColorBetween(m: real, low: Color, high: Color, threshold: real, k: nat)
    requires 0.0 <= m && k < 4
    ensures var c := Channel(ArrowColor(m, low, high, threshold), k);
      (Channel(low, k) <= Channel(high, k) ==> Channel(low, k) <= c <= Channel(high, k)) &&
      (Channel(high, k) <= Channel(low, k) ==> Channel(high, k) <= c <= Channel(low, k))
  {
    if m < threshold {
      RatioBelowThreshold(m, threshold);
      MixBetween(Channel(low, k), Channel(high, k), m / threshold);
    }
  }

  /**
   * The ramp is monotone: a larger non-negative magnitude moves every channel of
   * the colour no further from the high colour's channel.
   */
  lemma ArrowColorMonotone(m1: real, m2: real, low: Color, high: Color, threshold: real, k: nat)
    requires 0.0 <= m1 <= m2 && k < 4
    ensures var c1, c2 := Channel(ArrowColor(m1, low, high, threshold), k),
                          Channel(ArrowColor(m2, low, high, threshold), k);
      (Channel(low, k) <= Channel(high, k) ==> c1 <= c2) &&
      (Channel(high, k) <= Channel(low, k) ==> c2 <= c1)
  {
    ArrowColorBetween(m1, low, high, threshold, k);
    if m2 < threshold {
      RatioBelowThreshold(m1, threshold);
      RatioBelowThreshold(m2, threshold);
      var t1, t2 := m1 / threshold, m2 / threshold;
      DivideMonotone(m1, m2, threshold);
      assert Channel(ArrowColor(m1, low, high, threshold), k) == Mix(Channel(low, k), Channel(high, k), t1);
      assert Channel(ArrowColor(m2, low, high, threshold), k) == Mix(Channel(low, k), Channel(high, k), t2);
      MixMonotone(Channel(low, k), Channel(high, k), t1, t2);
    }
  }

  /** A magnitude at half the threshold is given the midpoint of the ramp. */
  lemma ArrowColorHalfway(m: real, low: Color, high: Color, threshold: real)
    requires 0.0 < threshold && m + m == threshold
    ensures ArrowColor(m, low, high, threshold) == Lerp(low, high, 0.5)
  {
    assert m / threshold == 0.5;
  }
}
