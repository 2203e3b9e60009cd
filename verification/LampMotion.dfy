/**
 How the lamp effect moves: at no time does a window drift away from the place
 it is drawn to.  The rows travel by a power of the translation channel whose
 exponent grows while the window still contracts, so that this is a race of two
 curves; the first of them always wins.
 */
module LampMotion {
  import opened Geometry
  import opened Lamp

  /** Laws of the real power function on bases in [0, 1] and positive exponents. */
  ghost predicate IsRealPower(pow: (real, real) -> real) {
    && IsPower(pow)
    && (forall b, e :: 0.0 <= b <= 1.0 && e > 0.0 ==> 0.0 <= pow(b, e) <= 1.0)
    && (forall b :: 0.0 <= b <= 1.0 ==> pow(b, 1.0) == b && pow(b, 2.0) == b * b)
    && (forall b, e, f :: 0.0 <= b <= 1.0 && e > 0.0 && f > 0.0 ==> pow(pow(b, e), f) == pow(b, e * f))
    && (forall b, c, e :: 0.0 <= b <= c <= 1.0 && e > 0.0 ==> pow(b, e) <= pow(c, e))
    && (forall b, e, f :: 0.0 <= b <= 1.0 && 0.0 < e <= f ==> pow(b, f) <= pow(b, e))
    && (forall b, e :: 0.0 <= b <= 1.0 && e >= 1.0 ==> pow(b, e) >= 1.0 + e * (b - 1.0))
  }

  lemma Composes(pow: (real, real) -> real, b: real, e: real, f: real)
    requires IsRealPower(pow) && 0.0 <= b <= 1.0 && e > 0.0 && f > 0.0
    ensures 0.0 <= pow(b, e) <= 1.0 && pow(pow(b, e), f) == pow(b, e * f)
  {
  }

  lemma Squares(pow: (real, real) -> real, b: real)
    requires IsRealPower(pow) && 0.0 <= b <= 1.0
    ensures pow(b, 1.0) == b && pow(b, 2.0) == b * b
  {
  }

  lemma RisesWithBase(pow: (real, real) -> real, b: real, c: real, e: real)
    requires IsRealPower(pow) && 0.0 <= b <= c <= 1.0 && e > 0.0
    ensures 0.0 <= pow(b, e) <= pow(c, e) <= 1.0
  {
  }

  lemma AboveTangent(pow: (real, real) -> real, b: real, e: real)
    requires IsRealPower(pow) && 0.0 <= b <= 1.0 && e >= 1.0
    ensures pow(b, e) >= 1.0 + e * (b - 1.0)
  {
  }

  // ----- the two curves -----

  function Contraction(temporal: real): real { Smoothstep(temporal / CONTRACTION_END) }

  lemma HermiteSlope(s: real, t: real)
    requires 0.0 <= s <= t <= 1.0
    ensures Hermite(t) - Hermite(s) <= 1.5 * (t - s)
  {
    HermiteDifference(s, t);
    var factor := 3.0 * (t + s) - 2.0 * (t * t + s * t + s * s);
    assert 1.5 - factor == 1.5 * ((1.0 - t - s) * (1.0 - t - s)) + 0.5 * ((t - s) * (t - s)) by {
      var ss, st, tt := s * s, s * t, t * t;
      assert (1.0 - t - s) * (1.0 - t - s) == 1.0 - 2.0 * t - 2.0 * s + tt + 2.0 * st + ss;
      assert (t - s) * (t - s) == tt - 2.0 * st + ss;
    }
    Square(1.0 - t - s);
    Square(t - s);
    hide Hermite;
    ProductSign(1.5 - factor, t - s);
    assert (1.5 - factor) * (t - s) == 1.5 * (t - s) - (t - s) * factor;
  }

  lemma Square(a: real)
    ensures a * a >= 0.0
  {
  }

  /** Contraction grows at most 25/7 times as fast as time. */
  lemma ContractionSlope(s: real, t: real)
    requires 0.0 <= s <= t
    ensures 0.0 <= Contraction(s) <= Contraction(t) <= 1.0
    ensures Contraction(t) - Contraction(s) <= 25.0 / 7.0 * (t - s)
  {
    SmoothstepMonotone(s / CONTRACTION_END, t / CONTRACTION_END);
    var a, b := Clamp01(s / CONTRACTION_END), Clamp01(t / CONTRACTION_END);
    assert a <= b <= a + (t - s) / CONTRACTION_END;
    HermiteSlope(a, b);
  }

  /** How much of the travel time has passed. */
  function Travelled(temporal: real): (n: real)
    ensures 0.0 <= n <= 1.0
  {
    Clamp01((Clamp01(temporal) - TRANSLATION_START) / (1.0 - TRANSLATION_START))
  }

  // ----- fourth roots -----

  /** In the quadratic part the square root of the translation grows at least 1.51 times as fast as the travel. */
  lemma RootsGrow(n: real, m: real, z: real, w: real)
    requires 0.0 <= n <= m && 0.0 <= z && 0.0 <= w
    requires z * z == 16.0 / 7.0 * (n * n) && w * w == 16.0 / 7.0 * (m * m)
    ensures z <= 1.512 * n && z <= w && w - z >= 1.51 * (m - n)
  {
    RootBelow(n, z);
    RootBelow(m, w);
    var a, b, c, d := w - z, w + z, m - n, m + n;
    assert a * b == 16.0 / 7.0 * (c * d) by {
      assert a * b == w * w - z * z;
      assert c * d == m * m - n * n;
    }
    assert c * b <= 1.512 * (c * d) by {
      ProductSign(c, 1.512 * d - b);
      assert c * (1.512 * d - b) == 1.512 * (c * d) - c * b;
    }
    ProductSign(c, d);
    assert (a - 1.51 * c) * b == a * b - 1.51 * (c * b);
    if b > 0.0 {
      Quotient(a - 1.51 * c, b);
    } else {
      RootAtZero(m, w);
    }
  }

  lemma Quotient(a: real, b: real)
    requires a * b >= 0.0 && b > 0.0
    ensures a >= 0.0
  {
    assert a == (a * b) / b;
  }

  lemma RootAtZero(m: real, w: real)
    requires 0.0 <= m && w == 0.0 && w * w == 16.0 / 7.0 * (m * m)
    ensures m == 0.0
  {
    if m > 0.0 { SquaresOrder(0.0, m); }
  }

  lemma PositiveProduct(a: real, b: real)
    requires a > 0.0 && b > 0.0
    ensures a * b > 0.0
  {
  }

  lemma SquaresOrder(a: real, b: real)
    requires 0.0 <= a <= b
    ensures a * a <= b * b && (a < b ==> a * a < b * b)
  {
    ProductMonotone(a, b, a, b);
    if a < b {
      PositiveProduct(b - a, b + a);
      assert b * b - a * a == (b - a) * (b + a);
    }
  }

  lemma RootBelow(n: real, z: real)
    requires 0.0 <= n && 0.0 <= z && z * z == 16.0 / 7.0 * (n * n)
    ensures z <= 1.512 * n
  {
    if z > 1.512 * n {
      SquaresOrder(1.512 * n, z);
      assert (1.512 * n) * (1.512 * n) == 2.286144 * (n * n);
      Square(n);
    }
  }

  function Fourth(y: real): real { (y * y) * (y * y) }

  lemma FourthRootsOrder(y: real, y': real)
    requires 0.0 <= y && 0.0 <= y' && Fourth(y) <= Fourth(y')
    ensures y <= y'
  {
    if y > y' {
      SquaresOrder(y', y);
      SquaresOrder(y' * y', y * y);
    }
  }

  /** A fourth root grows at least as its power does, over four cubes. */
  lemma FourthRootsGrow(y: real, y': real)
    requires 0.0 <= y <= y'
    ensures Fourth(y') - Fourth(y) <= (y' - y) * (4.0 * Cube(y'))
  {
    var a, b, d, e := y * y, y' * y', y' - y, y' + y;
    SquaresOrder(y, y');
    assert b - a == d * e;
    assert Fourth(y') - Fourth(y) == d * (e * (b + a)) by { Difference(a, b, d, e); }
    assert e * (b + a) <= 4.0 * Cube(y') by {
      ProductMonotone(e, 2.0 * y', b + a, 2.0 * b);
      assert 2.0 * y' * (2.0 * b) == 4.0 * Cube(y') by { assert y' * b == Cube(y'); }
    }
    ScaledOrder(d, e * (b + a), 4.0 * Cube(y'));
  }

  lemma Difference(a: real, b: real, d: real, e: real)
    requires b - a == d * e
    ensures b * b - a * a == d * (e * (b + a))
  {
    assert b * b - a * a == (b - a) * (b + a);
    assert d * e * (b + a) == d * (e * (b + a));
  }

  lemma ScaledOrder(d: real, a: real, b: real)
    requires d >= 0.0 && a <= b
    ensures d * a <= d * b
  {
    ProductSign(d, b - a);
    assert d * (b - a) == d * b - d * a;
  }

  // ----- the race -----

  /** With the full stretch, whatever is still to travel shrinks faster than the exponent grows. */
  predicate Wins(y: real, c: real, y': real, c': real) {
    (1.0 - y) * (1.0 + 2.0 * c) >= (1.0 - y') * (1.0 + 2.0 * c')
  }

  lemma WinsBySlope(y: real, c: real, y': real, c': real, slope: real)
    requires y <= y' <= 1.0 && c' - c <= slope * (y' - y)
    requires 2.0 * (slope * (1.0 - y')) <= 1.0 + 2.0 * c
    ensures Wins(y, c, y', c')
  {
    var d, rest, gain := y' - y, 1.0 - y', c' - c;
    ScaledOrder(rest, gain, slope * d);
    ScaledOrder(d, 2.0 * (slope * rest), 1.0 + 2.0 * c);
    assert rest * (slope * d) == d * (slope * rest);
    assert (1.0 - y) * (1.0 + 2.0 * c) - rest * (1.0 + 2.0 * c') == d * (1.0 + 2.0 * c) - 2.0 * (rest * gain) by {
      assert (1.0 - y) * (1.0 + 2.0 * c) == rest * (1.0 + 2.0 * c) + d * (1.0 + 2.0 * c);
      assert rest * (1.0 + 2.0 * c') == rest * (1.0 + 2.0 * c) + 2.0 * (rest * gain);
    }
  }

  /** By the time the root has come to `y`, the contraction has come so far. */
  predicate FarEnough(y: real, c: real) { 1.00525 * ((1.0 + y) * (1.0 + y)) <= 1.0 + 2.0 * c }

  lemma FarEnoughOn(low: real, high: real, share: real, y: real, n: real)
    requires 0.0 <= low <= y <= high && 0.0 <= share <= 1.0 && 0.0 <= n && y * y <= 1.512 * n
    requires share * CONTRACTION_END * 1.512 <= 0.15 * 1.512 + 0.85 * (low * low)
    requires FarEnough(high, Hermite(share))
    ensures FarEnough(y, Contraction(0.15 + 0.85 * n))
  {
    SquaresOrder(low, y);
    SquaresOrder(1.0 + y, 1.0 + high);
    var at := (0.15 + 0.85 * n) / CONTRACTION_END;
    assert share <= at;
    HermiteMonotone(share, Clamp01(at));
  }

  lemma FarEnoughAlways(y: real, n: real)
    requires 0.0 <= y && 0.0 <= n <= 0.25 && y * y <= 1.512 * n
    ensures FarEnough(y, Contraction(0.15 + 0.85 * n))
  {
    hide Contraction;
    if y <= 0.25 {
      FarEnoughOn(0.0, 0.25, 0.357, y, n);
    } else if y <= 0.345 {
      FarEnoughOn(0.25, 0.345, 0.44, y, n);
    } else if y <= 0.425 {
      FarEnoughOn(0.345, 0.425, 0.516, y, n);
    } else if y <= 0.505 {
      FarEnoughOn(0.425, 0.505, 0.598, y, n);
    } else if y <= 0.595 {
      FarEnoughOn(0.505, 0.595, 0.698, y, n);
    } else {
      if y > 0.62 { SquaresOrder(0.62, y); }
      FarEnoughOn(0.595, 0.62, 0.83, y, n);
    }
  }

  lemma MeanProduct(a: real, b: real)
    ensures 4.0 * (a * b) <= (a + b) * (a + b)
  {
    Square(a - b);
    assert (a + b) * (a + b) - 4.0 * (a * b) == (a - b) * (a - b);
  }

  lemma QuadraticSlope(n: real, n': real, y: real, y': real, gain: real)
    requires 0.0 <= n <= n' && 0.0 <= y && 0.0 <= y' && gain <= 25.0 / 7.0 * (0.85 * (n' - n))
    requires Fourth(y) == 16.0 / 7.0 * (n * n) && Fourth(y') == 16.0 / 7.0 * (n' * n')
    ensures y <= y' && y * y <= 1.512 * n && gain <= 2.0105 * (y' + y) * (y' - y)
  {
    hide Fourth;
    assert y <= y' by {
      SquaresOrder(n, n');
      FourthRootsOrder(y, y');
    }
    assert y * y <= 1.512 * n && y' * y' - y * y >= 1.51 * (n' - n) by {
      Roots(n, y);
      Roots(n', y');
      RootsGrow(n, n', y * y, y' * y');
    }
    SlopeOfSquares(n, n', y, y', gain);
  }

  lemma Roots(n: real, y: real)
    requires 0.0 <= n && 0.0 <= y && Fourth(y) == 16.0 / 7.0 * (n * n)
    ensures 0.0 <= y * y && (y * y) * (y * y) == 16.0 / 7.0 * (n * n)
  {
    Square(y);
  }

  lemma SlopeOfSquares(n: real, n': real, y: real, y': real, gain: real)
    requires gain <= 25.0 / 7.0 * (0.85 * (n' - n)) && y' * y' - y * y >= 1.51 * (n' - n) && n <= n'
    ensures gain <= 2.0105 * (y' + y) * (y' - y)
  {
    assert 2.0105 * (y' + y) * (y' - y) == 2.0105 * (y' * y' - y * y);
  }

  /** While the translation is quadratic. */
  lemma WinsAtFirst(n: real, n': real, y: real, y': real)
    requires 0.0 <= n <= n' <= 0.25 && 0.0 <= y && 0.0 <= y' <= 1.0
    requires Fourth(y) == 16.0 / 7.0 * (n * n) && Fourth(y') == 16.0 / 7.0 * (n' * n')
    ensures y <= y' && Wins(y, Contraction(0.15 + 0.85 * n), y', Contraction(0.15 + 0.85 * n'))
  {
    hide *;
    var c, c' := Contraction(0.15 + 0.85 * n), Contraction(0.15 + 0.85 * n');
    ContractionSlope(0.15 + 0.85 * n, 0.15 + 0.85 * n');
    QuadraticSlope(n, n', y, y', c' - c);
    FarEnoughAlways(y, n);
    EnoughForSlope(y, y', c);
    WinsBySlope(y, c, y', c', 2.0105 * (y' + y));
  }

  lemma EnoughForSlope(y: real, y': real, c: real)
    requires FarEnough(y, c)
    ensures 2.0 * (2.0105 * (y' + y) * (1.0 - y')) <= 1.0 + 2.0 * c
  {
    MeanProduct(y' + y, 1.0 - y');
    assert (y' + y) + (1.0 - y') == 1.0 + y;
    assert 2.0105 * (y' + y) * (1.0 - y') == 2.0105 * ((y' + y) * (1.0 - y'));
  }

  lemma CubeTimesRest(y: real)
    requires 0.0 <= y <= 1.0
    ensures Cube(y) * (1.0 - y) <= 27.0 / 256.0
  {
    var q := y * y;
    var a, b := (y - 0.75) * (y - 0.75), q + 0.5 * y + 0.1875;
    Square(y - 0.75);
    Square(y);
    ProductSign(a, b);
    assert a == q - 1.5 * y + 0.5625;
    assert a * b == 27.0 / 256.0 - Cube(y) * (1.0 - y) by {
      assert Cube(y) == q * y;
      assert a * b == q * q - q * y + 27.0 / 256.0 by {
        assert (q - 1.5 * y + 0.5625) * (q + 0.5 * y + 0.1875)
               == q * q + 0.5 * (q * y) + 0.1875 * q - 1.5 * (q * y) - 0.75 * (y * y) - 0.28125 * y + 0.5625 * q + 0.28125 * y + 0.10546875;
      }
      assert q * y * (1.0 - y) == q * y - q * q by { assert q * y * y == q * (y * y); }
    }
  }

  lemma LinearSlope(n: real, n': real, y: real, y': real, gain: real)
    requires 0.0 <= y && 0.0 <= y' && n <= n' && gain <= 25.0 / 7.0 * (0.85 * (n' - n))
    requires Fourth(y) == 8.0 / 7.0 * (n - 0.125) && Fourth(y') == 8.0 / 7.0 * (n' - 0.125)
    ensures y <= y' && gain <= 10.625 * Cube(y') * (y' - y)
  {
    hide *;
    FourthRootsOrder(y, y');
    FourthRootsGrow(y, y');
    Regroup(y' - y, Cube(y'));
  }

  lemma Regroup(d: real, c: real)
    ensures d * (4.0 * c) == 4.0 * (c * d) && 10.625 * c * d == 10.625 * (c * d)
  {
  }

  lemma ContractionIsLate(n: real)
    requires 0.25 <= n <= 1.0
    ensures Contraction(0.15 + 0.85 * n) >= 0.94
  {
    var share := Clamp01((0.15 + 0.85 * n) / CONTRACTION_END);
    assert share >= 0.86;
    HermiteMonotone(0.86, share);
    assert Hermite(0.86) >= 0.94;
  }

  /** Once the translation is linear. */
  lemma WinsLater(n: real, n': real, y: real, y': real)
    requires 0.25 <= n <= n' <= 1.0 && 0.0 <= y && 0.0 <= y' <= 1.0
    requires Fourth(y) == 8.0 / 7.0 * (n - 0.125) && Fourth(y') == 8.0 / 7.0 * (n' - 0.125)
    ensures y <= y' && Wins(y, Contraction(0.15 + 0.85 * n), y', Contraction(0.15 + 0.85 * n'))
  {
    hide *;
    var c, c' := Contraction(0.15 + 0.85 * n), Contraction(0.15 + 0.85 * n');
    ContractionIsLate(n);
    ContractionSlope(0.15 + 0.85 * n, 0.15 + 0.85 * n');
    LinearSlope(n, n', y, y', c' - c);
    CubeTimesRest(y');
    Regroup(1.0 - y', Cube(y'));
    WinsBySlope(y, c, y', c', 10.625 * Cube(y'));
  }

  /** The fourth root of the translation. */
  function Root(pow: (real, real) -> real, x: real): real { pow(x, 0.25) }

  lemma RootIsRoot(pow: (real, real) -> real, x: real)
    requires IsRealPower(pow) && 0.0 <= x <= 1.0
    ensures 0.0 <= Root(pow, x) <= 1.0 && Fourth(Root(pow, x)) == x
  {
    hide IsRealPower, Fourth;
    FourthPower(pow, x, 0.25);
    Squares(pow, x);
  }

  /** The fourth power of a power. */
  lemma FourthPower(pow: (real, real) -> real, x: real, e: real)
    requires IsRealPower(pow) && 0.0 <= x <= 1.0 && e > 0.0
    ensures 0.0 <= pow(x, e) <= 1.0 && Fourth(pow(x, e)) == pow(x, 4.0 * e)
  {
    hide IsRealPower;
    Composes(pow, x, e, 2.0);
    Squares(pow, pow(x, e));
    Composes(pow, x, e * 2.0, 2.0);
    Squares(pow, pow(x, e * 2.0));
    assert e * 2.0 * 2.0 == 4.0 * e;
  }

  lemma WinsThrough(a: real, c: real, a': real, c': real, b: real, d: real)
    requires Wins(a, c, a', c') && Wins(a', c', b, d)
    ensures Wins(a, c, b, d)
  {
  }

  /** `y` is the fourth root of the translation after the share `n` of the travel time. */
  predicate IsRootAt(n: real, y: real) {
    && 0.0 <= n <= 1.0 && 0.0 <= y <= 1.0
    && (n <= 0.25 ==> Fourth(y) == 16.0 / 7.0 * (n * n))
    && (n >= 0.25 ==> Fourth(y) == 8.0 / 7.0 * (n - 0.125))
  }

  lemma WinsOverTime(n: real, n': real, y: real, y': real, middle: real)
    requires n <= n' && IsRootAt(n, y) && IsRootAt(n', y') && IsRootAt(0.25, middle)
    ensures y <= y' && Wins(y, Contraction(0.15 + 0.85 * n), y', Contraction(0.15 + 0.85 * n'))
  {
    hide Contraction, Wins, Fourth;
    if n' <= 0.25 {
      WinsAtFirst(n, n', y, y');
    } else if n >= 0.25 {
      WinsLater(n, n', y, y');
    } else {
      WinsAtFirst(n, 0.25, y, middle);
      WinsLater(0.25, n', middle, y');
      WinsThrough(y, Contraction(0.15 + 0.85 * n), middle, Contraction(0.15 + 0.85 * 0.25), y', Contraction(0.15 + 0.85 * n'));
    }
  }

  /** The translation wins from the moment it starts. */
  lemma TranslationWins(pow: (real, real) -> real, s: real, t: real)
    requires IsRealPower(pow) && TRANSLATION_START <= s <= t <= 1.0
    ensures var y, y' := Root(pow, SoftStart(s)), Root(pow, SoftStart(t));
            y <= y' && Wins(y, Contraction(s), y', Contraction(t))
  {
    hide *;
    RootAt(pow, s);
    RootAt(pow, t);
    RootInTheMiddle(pow);
    WinsOverTime(Travelled(s), Travelled(t), Root(pow, SoftStart(s)), Root(pow, SoftStart(t)), Root(pow, 1.0 / 7.0));
  }

  lemma RootAt(pow: (real, real) -> real, s: real)
    requires IsRealPower(pow) && TRANSLATION_START <= s <= 1.0
    ensures s == 0.15 + 0.85 * Travelled(s) && IsRootAt(Travelled(s), Root(pow, SoftStart(s)))
  {
    TravelTime(s);
    hide SoftStart, Travelled, Fourth, Root, IsRealPower;
    RootIsRoot(pow, SoftStart(s));
  }

  lemma RootInTheMiddle(pow: (real, real) -> real)
    requires IsRealPower(pow)
    ensures IsRootAt(0.25, Root(pow, 1.0 / 7.0))
  {
    hide Fourth, Root, IsRealPower;
    RootIsRoot(pow, 1.0 / 7.0);
  }

  /** The translation channel: quadratic at first, then linear. */
  lemma TravelTime(temporal: real)
    requires TRANSLATION_START <= temporal <= 1.0
    ensures var n := Travelled(temporal);
            && temporal == 0.15 + 0.85 * n
            && (n <= 0.25 ==> SoftStart(temporal) == 16.0 / 7.0 * (n * n))
            && (n >= 0.25 ==> SoftStart(temporal) == 8.0 / 7.0 * (n - 0.125))
  {
    SoftStartMonotone(temporal, temporal);
    hide SoftStart;
  }

  /** A smaller stretch only helps. */
  lemma WinsStretched(y: real, c: real, y': real, c': real, stretch: real)
    requires Wins(y, c, y', c') && y <= y' && 0.0 <= stretch <= 2.0
    ensures (1.0 - y) * (1.0 + stretch * c) >= (1.0 - y') * (1.0 + stretch * c')
  {
    var k, full, full' := stretch / 2.0, (1.0 - y) * (1.0 + 2.0 * c), (1.0 - y') * (1.0 + 2.0 * c');
    assert (1.0 - y) * (1.0 + stretch * c) == (1.0 - k) * (1.0 - y) + k * full by {
      Blend(y, c, k);
      assert 2.0 * k * c == stretch * c;
    }
    assert (1.0 - y') * (1.0 + stretch * c') == (1.0 - k) * (1.0 - y') + k * full' by {
      Blend(y', c', k);
      assert 2.0 * k * c' == stretch * c';
    }
    ScaledOrder(k, full', full);
    ScaledOrder(1.0 - k, 1.0 - y', 1.0 - y);
    SumsOrder((1.0 - y) * (1.0 + stretch * c), (1.0 - y') * (1.0 + stretch * c'),
              (1.0 - k) * (1.0 - y), (1.0 - k) * (1.0 - y'), k * full, k * full');
  }

  lemma SumsOrder(a: real, a': real, b: real, b': real, c: real, c': real)
    requires a == b + c && a' == b' + c' && b >= b' && c >= c'
    ensures a >= a'
  {
  }

  lemma Blend(y: real, c: real, k: real)
    ensures (1.0 - y) * (1.0 + 2.0 * k * c) == (1.0 - k) * (1.0 - y) + k * ((1.0 - y) * (1.0 + 2.0 * c))
  {
    var r := 1.0 - y;
    assert r * (1.0 + 2.0 * k * c) == r + 2.0 * (k * (r * c)) by { assert r * (2.0 * k * c) == 2.0 * (k * (r * c)); }
    assert k * (r * (1.0 + 2.0 * c)) == k * r + 2.0 * (k * (r * c)) by { assert r * (1.0 + 2.0 * c) == r + 2.0 * (r * c); }
  }

  /** Powers with growing exponents still rise, if the roots of their bases rise fast enough. */
  lemma PowersRise(pow: (real, real) -> real, x: real, x': real, e: real, e': real)
    requires IsRealPower(pow) && 0.0 <= x <= 1.0 && 0.0 <= x' <= 1.0 && 1.0 <= e <= e'
    requires (1.0 - Root(pow, x)) * e >= (1.0 - Root(pow, x')) * e'
    ensures pow(x, e) <= pow(x', e')
  {
    hide IsRealPower, Root, Fourth;
    var y, y', ratio := Root(pow, x), Root(pow, x'), e' / e;
    assert ratio >= 1.0 && ratio * e == e';
    RootIsRoot(pow, x);
    RootIsRoot(pow, x');
    RatioOrder(1.0 - y, 1.0 - y', e, e', ratio);
    AboveTangent(pow, y', ratio);
    assert pow(y', ratio) >= y by { assert ratio * (y' - 1.0) == -(ratio * (1.0 - y')); }
    RootOfPower(pow, x', ratio);
    FourthsOrder(y, pow(y', ratio));
    Composes(pow, x', ratio, e);
    RisesWithBase(pow, x, pow(x', ratio), e);
  }

  lemma FourthsOrder(y: real, w: real)
    requires 0.0 <= y <= w
    ensures Fourth(y) <= Fourth(w)
  {
    SquaresOrder(y, w);
    Square(y);
    SquaresOrder(y * y, w * w);
  }

  lemma RatioOrder(a: real, b: real, e: real, e': real, ratio: real)
    requires a * e >= b * e' && e >= 1.0 && ratio * e == e'
    ensures a >= ratio * b
  {
    assert (a - ratio * b) * e == a * e - b * e' by { assert ratio * b * e == b * (ratio * e); }
    Quotient(a - ratio * b, e);
  }

  lemma RootOfPower(pow: (real, real) -> real, x: real, e: real)
    requires IsRealPower(pow) && 0.0 <= x <= 1.0 && e > 0.0
    ensures Fourth(pow(Root(pow, x), e)) == pow(x, e)
  {
    hide IsRealPower, Fourth;
    Composes(pow, x, 0.25, e);
    FourthPower(pow, x, 0.25 * e);
    assert 4.0 * (0.25 * e) == e;
  }

  // ----- the rows -----

  /** The row's share of the way, by the translation channel and the row's exponent. */
  function RowOf(pow: (real, real) -> real, translation: real, exponent: real): real {
    if translation >= 1.0 then 1.0 else pow(translation, exponent)
  }

  /** The exponent grows with the contraction, the more the further back the row is. */
  function Exponent(contraction: real, stretch: real): real { 1.0 + stretch * contraction }

  function StretchOf(movement: real): (r: real)
    ensures 0.0 <= r <= 2.0
  {
    STRETCH_POWER * (1.0 - Clamp01(movement))
  }

  lemma RowIs(pow: (real, real) -> real, channels: Channels, movement: real)
    requires 0.0 <= channels.contraction <= 1.0 && 0.0 <= channels.translation <= 1.0
    ensures RowTranslation(pow, channels, movement)
              == RowOf(pow, channels.translation, Exponent(channels.contraction, StretchOf(movement)))
  {
    ExponentIs(channels.contraction, movement);
    hide Exponent, StretchOf, RowExponent;
  }

  lemma ExponentIs(contraction: real, movement: real)
    requires 0.0 <= contraction <= 1.0
    ensures Exponent(contraction, StretchOf(movement)) == RowExponent(contraction, movement)
  {
    Reorder(STRETCH_POWER, contraction, 1.0 - Clamp01(movement));
  }

  lemma Reorder(a: real, c: real, m: real)
    ensures a * c * m == a * m * c
  {
  }

  lemma ExponentRises(c: real, c': real, stretch: real, stretch': real)
    requires 0.0 <= c <= c' && 0.0 <= stretch <= stretch'
    ensures 1.0 <= Exponent(c, stretch) <= Exponent(c', stretch')
  {
    ProductMonotone(stretch, stretch', c, c');
  }

  /** A row never goes back, although the exponent of its share grows. */
  lemma RowTranslationRises(pow: (real, real) -> real, p: real, q: real, bump: real, movement: real)
    requires IsRealPower(pow) && p <= q
    ensures var r, r' := RowTranslation(pow, MotionChannels(p, bump), movement), RowTranslation(pow, MotionChannels(q, bump), movement);
            0.0 <= r <= r' <= 1.0
  {
    hide *;
    ChannelsAre(p, bump);
    ChannelsAre(q, bump);
    ClampOrder(p, q);
    InOutCubicMonotone(Clamp01(p), Clamp01(q));
    RowIs(pow, MotionChannels(p, bump), movement);
    RowIs(pow, MotionChannels(q, bump), movement);
    RowsRise(pow, InOutCubic(Clamp01(p)), InOutCubic(Clamp01(q)), StretchOf(movement));
  }

  lemma ClampOrder(p: real, q: real)
    requires p <= q
    ensures Clamp01(p) <= Clamp01(q)
  {
  }

  lemma ChannelsAre(p: real, bump: real)
    ensures var t, c := InOutCubic(Clamp01(p)), MotionChannels(p, bump);
            && 0.0 <= t <= 1.0 && c.temporal == t && c.contraction == Contraction(t) && c.translation == SoftStart(t)
            && 0.0 <= Contraction(t) <= 1.0
  {
    InOutCubicMonotone(Clamp01(p), Clamp01(p));
    hide InOutCubic, SoftStart;
    ContractionSlope(InOutCubic(Clamp01(p)), InOutCubic(Clamp01(p)));
  }

  lemma RowsRise(pow: (real, real) -> real, s: real, t: real, stretch: real)
    requires IsRealPower(pow) && 0.0 <= s <= t <= 1.0 && 0.0 <= stretch <= 2.0
    ensures 0.0 <= RowOf(pow, SoftStart(s), Exponent(Contraction(s), stretch))
              <= RowOf(pow, SoftStart(t), Exponent(Contraction(t), stretch)) <= 1.0
  {
    hide IsRealPower, SoftStart, Contraction, Exponent;
    var e, e' := Exponent(Contraction(s), stretch), Exponent(Contraction(t), stretch);
    ContractionSlope(s, t);
    SoftStartMonotone(s, t);
    ExponentRises(Contraction(s), Contraction(t), stretch, stretch);
    PowerBounds(pow, SoftStart(s), e);
    PowerBounds(pow, SoftStart(t), e');
    PowersOrder(pow, s, t, stretch, e, e');
  }

  lemma PowersOrder(pow: (real, real) -> real, s: real, t: real, stretch: real, e: real, e': real)
    requires IsRealPower(pow) && 0.0 <= s <= t <= 1.0 && 0.0 <= stretch <= 2.0
    requires 1.0 <= e <= e' && e == Exponent(Contraction(s), stretch) && e' == Exponent(Contraction(t), stretch)
    ensures pow(SoftStart(s), e) <= pow(SoftStart(t), e')
  {
    hide IsRealPower, SoftStart, Contraction, Root, Wins;
    if s < TRANSLATION_START {
      NotYet(s);
      PowerBounds(pow, SoftStart(s), e);
      PowerBounds(pow, SoftStart(t), e');
    } else {
      TranslationWins(pow, s, t);
      WinsStretched(Root(pow, SoftStart(s)), Contraction(s), Root(pow, SoftStart(t)), Contraction(t), stretch);
      PowersRise(pow, SoftStart(s), SoftStart(t), e, e');
    }
  }

  lemma PowerBounds(pow: (real, real) -> real, b: real, e: real)
    requires IsRealPower(pow) && 0.0 <= b <= 1.0 && e >= 1.0
    ensures 0.0 <= pow(b, e) <= 1.0 && (b == 0.0 ==> pow(b, e) == 0.0)
  {
  }

  lemma NotYet(s: real)
    requires 0.0 <= s < TRANSLATION_START
    ensures SoftStart(s) == 0.0
  {
  }

  // ----- the warped point -----

  function AxisOf(direction: Direction, point: Point): real { if direction.Vertical() then point.y else point.x }

  function CrossOf(direction: Direction, point: Point): real { if direction.Vertical() then point.x else point.y }

  /** For points of the source the shortcuts at the ends are the general formula. */
  lemma WarpIsFormula(pow: (real, real) -> real, g: VisualGroup, point: Point, progress: Float)
    requires IsPower(pow) && ValidGroup(g) && ContainsPoint(g.sourceVisual, point)
    ensures WarpVisualPoint(pow, g, point, progress)
              == WarpToTarget(pow, g.sourceVisual, g.sink, g.direction, g.shapeFactor, g.bump,
                              MotionChannels(NormalizedProgress(progress), g.bump), point)
  {
    hide WarpToTarget, MotionChannels, SinkPoint;
    WarpEndsAgree(pow, g, point);
  }

  /** Where the point of the sink is, along the axis and across. */
  lemma HomeIs(g: VisualGroup, point: Point)
    requires ValidGroup(g)
    ensures AxisOf(g.direction, SinkPoint(g, point)) == AxisPosition(g.sink, g.direction, Movement(g.sourceVisual, g.direction, point))
    ensures CrossOf(g.direction, SinkPoint(g, point)) == CrossPosition(g.sink, g.direction, Crossing(g.sourceVisual, g.direction, point))
  {
    hide Part, U, V;
  }

  /** The way from `from` to `home` never leads back: `then` lies between `now` and `home`. */
  predicate Approaches(now: real, then': real, home: real) {
    now <= then' <= home || home <= then' <= now
  }

  lemma LerpsApproach(from: real, home: real, t: real, t': real)
    requires 0.0 <= t <= t' <= 1.0
    ensures Approaches(Lerp(from, home, t), Lerp(from, home, t'), home)
  {
    if from <= home {
      ScaledOrder(home - from, t, t');
      ScaledOrder(home - from, t', 1.0);
    } else {
      ScaledOrder(from - home, t, t');
      ScaledOrder(from - home, t', 1.0);
      assert (home - from) * t == -((from - home) * t) && (home - from) * t' == -((from - home) * t');
    }
  }

  /** How far a row has narrowed never shrinks either. */
  lemma CompletionRises(pow: (real, real) -> real, source: Rect, direction: Direction, shapeFactor: real, p: real,
                        q: real,
                        bump: real, point: Point)
    requires IsRealPower(pow) && ValidRect(source) && p <= q
    ensures 0.0 <= Completion(pow, source, direction, shapeFactor, MotionChannels(p, bump), point)
              <= Completion(pow, source, direction, shapeFactor, MotionChannels(q, bump), point) <= 1.0
  {
    hide *;
    var movement := Movement(source, direction, point);
    var c, c' := MotionChannels(p, bump).contraction, MotionChannels(q, bump).contraction;
    var funnel := FunnelProfile(movement, shapeFactor);
    ChannelsAdvance(p, q, bump);
    ProductMonotone(c, c', funnel, funnel);
    ProductIn(c', funnel);
    RowTranslationRises(pow, p, q, bump, movement);
    CompletionIs(pow, source, direction, shapeFactor, MotionChannels(p, bump), point, c * funnel);
    CompletionIs(pow, source, direction, shapeFactor, MotionChannels(q, bump), point, c' * funnel);
    RestShrinks(1.0 - c * funnel, 1.0 - c' * funnel, 1.0 - RowTranslation(pow, MotionChannels(p, bump), movement),
                1.0 - RowTranslation(pow, MotionChannels(q, bump), movement));
  }

  lemma CompletionIs(pow: (real, real) -> real, source: Rect, direction: Direction, shapeFactor: real,
                     channels: Channels,
                     point: Point, early: real)
    requires ValidRect(source) && 0.0 <= channels.contraction <= 1.0
    requires early == channels.contraction * FunnelProfile(Movement(source, direction, point), shapeFactor)
              && 0.0 <= early <= 1.0
    ensures Completion(pow, source, direction, shapeFactor, channels, point)
              == 1.0 - (1.0 - early) * (1.0 - RowTranslation(pow, channels, Movement(source, direction, point)))
  {
    hide FunnelProfile, RowTranslation, Movement;
  }

  lemma RestShrinks(u: real, u': real, v: real, v': real)
    requires 0.0 <= u' <= u <= 1.0 && 0.0 <= v' <= v <= 1.0
    ensures 0.0 <= 1.0 - u * v <= 1.0 - u' * v' <= 1.0
  {
    ProductMonotone(u', u, v', v);
    ProductIn(u, v);
  }

  lemma CrossApproaches(pow: (real, real) -> real, g: VisualGroup, point: Point, p: real, q: real)
    requires IsRealPower(pow) && ValidGroup(g) && p <= q
    ensures Approaches(
      WarpCross(pow, g.sourceVisual, g.sink, g.direction, g.shapeFactor, MotionChannels(p, g.bump), point),
      WarpCross(pow, g.sourceVisual, g.sink, g.direction, g.shapeFactor, MotionChannels(q, g.bump), point),
      CrossOf(g.direction, SinkPoint(g, point)))
  {
    hide IsRealPower, MotionChannels, Completion, CrossPosition, Crossing, Lerp, Approaches, SinkPoint, CrossOf;
    hide Clamp01, Clamp;
    hide Movement, AxisOf, AxisPosition;
    HomeIs(g, point);
    CompletionRises(pow, g.sourceVisual, g.direction, g.shapeFactor, p, q, g.bump, point);
    var crossing := Crossing(g.sourceVisual, g.direction, point);
    LerpsApproach(CrossPosition(g.sourceVisual, g.direction, crossing), CrossPosition(g.sink, g.direction, crossing),
                  Completion(pow, g.sourceVisual, g.direction, g.shapeFactor, MotionChannels(p, g.bump), point),
                  Completion(pow, g.sourceVisual, g.direction, g.shapeFactor, MotionChannels(q, g.bump), point));
  }

  /** Before the window retreats, or once it has done so, the retreat does not change. */
  predicate Retreated(bump: real, p: real) { bump <= EPSILON || p >= RETREAT_END }

  lemma RetreatIsOver(bump: real, p: real, q: real)
    requires Retreated(bump, p) && 0.0 <= p <= q <= 1.0
    ensures MotionChannels(p, bump).retreat == MotionChannels(q, bump).retreat
  {
    if bump > EPSILON {
      SmoothstepMonotone(p / RETREAT_END, p / RETREAT_END);
      SmoothstepMonotone(q / RETREAT_END, q / RETREAT_END);
    }
  }

  lemma AxisApproaches(pow: (real, real) -> real, g: VisualGroup, point: Point, p: real, q: real)
    requires IsRealPower(pow) && ValidGroup(g) && 0.0 <= p <= q <= 1.0 && Retreated(g.bump, p)
    ensures Approaches(
      WarpAxis(pow, g.sourceVisual, g.sink, g.direction, g.bump, MotionChannels(p, g.bump), point),
      WarpAxis(pow, g.sourceVisual, g.sink, g.direction, g.bump, MotionChannels(q, g.bump), point),
      AxisOf(g.direction, SinkPoint(g, point)))
  {
    hide IsRealPower, MotionChannels, RowTranslation, AxisPosition, Movement, Lerp, Approaches, SinkPoint, AxisOf;
    hide RetreatAxis;
    hide Retreated, CrossOf, CrossPosition, Crossing;
    HomeIs(g, point);
    var movement := Movement(g.sourceVisual, g.direction, point);
    RetreatIsOver(g.bump, p, q);
    RowTranslationRises(pow, p, q, g.bump, movement);
    var back := RetreatDistance(g.sourceVisual, g.direction, g.bump, MotionChannels(p, g.bump));
    LerpsApproach(RetreatAxis(AxisPosition(g.sourceVisual, g.direction, movement), g.direction, back),
                  AxisPosition(g.sink, g.direction, movement),
                  RowTranslation(pow, MotionChannels(p, g.bump), movement),
                  RowTranslation(pow, MotionChannels(q, g.bump), movement));
  }

  /**
   No point of the window ever drifts away from its place in the sink: across
   the axis always, and along it as soon as the window has not to retreat first.
   */
  lemma NeverDriftsAway(pow: (real, real) -> real, g: VisualGroup, point: Point, now: Float, later: Float)
    requires IsRealPower(pow) && ValidGroup(g) && ContainsPoint(g.sourceVisual, point)
    requires NormalizedProgress(now) <= NormalizedProgress(later)
    ensures var d, w, w', home := g.direction, WarpVisualPoint(pow, g, point, now), WarpVisualPoint(pow, g, point, later),
                                  SinkPoint(g, point);
            && Approaches(CrossOf(d, w), CrossOf(d, w'), CrossOf(d, home))
            && (Retreated(g.bump, NormalizedProgress(now)) ==> Approaches(AxisOf(d, w), AxisOf(d, w'), AxisOf(d, home)))
  {
    var p, q := NormalizedProgress(now), NormalizedProgress(later);
    WarpIsFormula(pow, g, point, now);
    WarpIsFormula(pow, g, point, later);
    CrossApproaches(pow, g, point, p, q);
    hide IsRealPower, WarpVisualPoint, WarpCross, WarpAxis, SinkPoint, MotionChannels, Approaches, Retreated;
    hide NormalizedProgress;
    if Retreated(g.bump, p) { AxisApproaches(pow, g, point, p, q); }
  }

  // ----- the leading row -----

  lemma LeadingRowIs(pow: (real, real) -> real, p: real, bump: real)
    requires IsRealPower(pow) && 0.0 <= p <= 1.0
    ensures RowTranslation(pow, MotionChannels(p, bump), 1.0) == SoftStart(InOutCubic(p))
  {
    hide IsRealPower, MotionChannels, RowTranslation, InOutCubic, SoftStart, Contraction;
    ChannelsAre(p, bump);
    RowIs(pow, MotionChannels(p, bump), 1.0);
    Squares(pow, SoftStart(InOutCubic(p)));
  }

  /** The row that leads is at the blend of its retreated place and its place in the sink, by the translation curve. */
  lemma LeadingRow(pow: (real, real) -> real, g: VisualGroup, point: Point, progress: Float)
    requires IsRealPower(pow) && ValidGroup(g) && ContainsPoint(g.sourceVisual, point)
    requires Movement(g.sourceVisual, g.direction, point) == 1.0
    ensures var d, p := g.direction, NormalizedProgress(progress);
            var back := RetreatDistance(g.sourceVisual, d, g.bump, MotionChannels(p, g.bump));
            && AxisOf(d, WarpVisualPoint(pow, g, point, progress))
               == Lerp(RetreatAxis(AxisOf(d, point), d, back), AxisOf(d, SinkPoint(g, point)), SoftStart(InOutCubic(p)))
            && (g.bump <= EPSILON ==> back == 0.0)
  {
    var p := NormalizedProgress(progress);
    WarpIsFormula(pow, g, point, progress);
    HomeIs(g, point);
    PositionsRecover(g.sourceVisual, g.direction, point);
    LeadingRowIs(pow, p, g.bump);
    assert g.bump <= EPSILON ==> MotionChannels(p, g.bump).retreat == 0.0;
    hide IsRealPower, WarpVisualPoint, WarpCross, SinkPoint, MotionChannels, NormalizedProgress, RowTranslation;
    hide AxisPosition;
    hide Movement, Lerp, RetreatAxis;
  }

  /** The leading row never jumps: without a bump its speed is bounded by a constant share of the way. */
  lemma LeadingRowIsContinuous(pow: (real, real) -> real, g: VisualGroup, point: Point, now: Float, later: Float)
    requires IsRealPower(pow) && ValidGroup(g) && ContainsPoint(g.sourceVisual, point) && g.bump <= EPSILON
    requires Movement(g.sourceVisual, g.direction, point) == 1.0
    requires NormalizedProgress(now) <= NormalizedProgress(later)
    ensures var d, w, w' := g.direction, WarpVisualPoint(pow, g, point, now), WarpVisualPoint(pow, g, point, later);
            var way := Abs(AxisOf(d, SinkPoint(g, point)) - AxisOf(d, point));
            (1.0 - TRANSLATION_START) * (1.0 - TRANSLATION_BLEND * 0.5) * Abs(AxisOf(d, w') - AxisOf(d, w))
              <= 3.0 * (NormalizedProgress(later) - NormalizedProgress(now)) * way
  {
    hide IsRealPower, WarpVisualPoint, MotionChannels, Lerp, SoftStart, InOutCubic, SinkPoint, AxisOf, RetreatAxis;
    hide RetreatDistance;
    hide Movement, NormalizedProgress, Abs, Clamp01;
    var d, p, q := g.direction, NormalizedProgress(now), NormalizedProgress(later);
    LeadingRow(pow, g, point, now);
    LeadingRow(pow, g, point, later);
    NoRetreat(AxisOf(d, point), d);
    InOutCubicMonotone(p, q);
    SoftStartMonotone(InOutCubic(p), InOutCubic(q));
    LerpsAreClose(AxisOf(d, point), AxisOf(d, SinkPoint(g, point)), SoftStart(InOutCubic(p)), SoftStart(InOutCubic(q)),
                  (1.0 - TRANSLATION_START) * (1.0 - TRANSLATION_BLEND * 0.5), 3.0 * (q - p));
  }

  lemma NoRetreat(axis: real, direction: Direction)
    ensures RetreatAxis(axis, direction, 0.0) == axis
  {
  }

  lemma LerpsAreClose(from: real, to: real, t: real, t': real, rate: real, time: real)
    requires t <= t' && rate * (t' - t) <= time
    ensures rate * Abs(Lerp(from, to, t') - Lerp(from, to, t)) <= time * Abs(to - from)
  {
    var way := Abs(to - from);
    assert Abs(Lerp(from, to, t') - Lerp(from, to, t)) == way * (t' - t) by {
      ProductSign(way, t' - t);
      assert Lerp(from, to, t') - Lerp(from, to, t) == (to - from) * (t' - t);
    }
    ScaledOrder(way, rate * (t' - t), time);
    assert rate * (way * (t' - t)) == way * (rate * (t' - t));
  }

  // ----- rows in order -----

  /** A position measured in the direction of travel. */
  function Along(direction: Direction, axis: real): real {
    if direction.Bottom? || direction.Right? then axis else -axis
  }

  /** The nearer a row is to the sink, the further it has come. */
  lemma RowsFollow(pow: (real, real) -> real, p: real, bump: real, m: real, m': real)
    requires IsRealPower(pow) && 0.0 <= m <= m' <= 1.0
    ensures RowTranslation(pow, MotionChannels(p, bump), m) <= RowTranslation(pow, MotionChannels(p, bump), m')
  {
    hide IsRealPower, MotionChannels, InOutCubic, SoftStart, Contraction, StretchOf, RowOf, Exponent, RowTranslation;
    var channels := MotionChannels(p, bump);
    ChannelsAre(p, bump);
    RowIs(pow, channels, m);
    RowIs(pow, channels, m');
    StretchFalls(m, m');
    ExponentRises(channels.contraction, channels.contraction, StretchOf(m'), StretchOf(m));
    FollowsByExponent(pow, channels.translation, Exponent(channels.contraction, StretchOf(m')),
                      Exponent(channels.contraction, StretchOf(m)));
  }

  lemma StretchFalls(m: real, m': real)
    requires m <= m'
    ensures StretchOf(m') <= StretchOf(m)
  {
  }

  lemma FollowsByExponent(pow: (real, real) -> real, x: real, e: real, e': real)
    requires IsRealPower(pow) && 0.0 <= x <= 1.0 && 1.0 <= e <= e'
    ensures RowOf(pow, x, e') <= RowOf(pow, x, e)
  {
  }

  /** The sink lies wholly beyond the source. */
  predicate Beyond(g: VisualGroup) {
    Along(g.direction, AxisPosition(g.sourceVisual, g.direction, 1.0)) <= Along(g.direction, AxisPosition(g.sink, g.direction, 0.0))
  }

  lemma PositionsRise(r: Rect, direction: Direction, m: real, m': real)
    requires ValidRect(r) && 0.0 <= m <= m' <= 1.0
    ensures Along(direction, AxisPosition(r, direction, m)) <= Along(direction, AxisPosition(r, direction, m'))
  {
    PartRises(r.height, m, m');
    PartRises(r.height, 1.0 - m', 1.0 - m);
    PartRises(r.width, m, m');
    PartRises(r.width, 1.0 - m', 1.0 - m);
    hide Part;
  }

  lemma PartRises(extent: real, t: real, t': real)
    requires extent > 0.0 && 0.0 <= t <= t' <= 1.0
    ensures Part(extent, t) <= Part(extent, t')
  {
    ScaledOrder(extent, t, t');
    var part, part' := extent * t, extent * t';
    assert part <= part' && Part(extent, t) == part && Part(extent, t') == part';
  }

  lemma AlongLerp(direction: Direction, from: real, to: real, t: real)
    ensures Along(direction, Lerp(from, to, t)) == Lerp(Along(direction, from), Along(direction, to), t)
  {
  }

  lemma LerpsKeepOrder(from: real, to: real, t: real, from': real, to': real, t': real)
    requires from <= from' && to <= to' && from' <= to' && 0.0 <= t <= t' <= 1.0
    ensures Lerp(from, to, t) <= Lerp(from', to', t')
  {
    ProductSign(from' - from, 1.0 - t);
    ProductSign(to' - to, t);
    ProductSign(to' - from', t' - t);
    assert Lerp(from', to', t) - Lerp(from, to, t) == (from' - from) * (1.0 - t) + (to' - to) * t;
    assert Lerp(from', to', t') - Lerp(from', to', t) == (to' - from') * (t' - t);
  }

  /** The window never folds over itself: when the sink lies beyond it, its rows keep their order all the way. */
  lemma RowsDoNotCross(pow: (real, real) -> real, g: VisualGroup, point: Point, ahead: Point, progress: Float)
    requires IsRealPower(pow) && ValidGroup(g) && Beyond(g)
    requires ContainsPoint(g.sourceVisual, point) && ContainsPoint(g.sourceVisual, ahead)
    requires Movement(g.sourceVisual, g.direction, point) <= Movement(g.sourceVisual, g.direction, ahead)
    ensures Along(g.direction, AxisOf(g.direction, WarpVisualPoint(pow, g, point, progress)))
              <= Along(g.direction, AxisOf(g.direction, WarpVisualPoint(pow, g, ahead, progress)))
  {
    WarpIsFormula(pow, g, point, progress);
    WarpIsFormula(pow, g, ahead, progress);
    hide IsRealPower, WarpVisualPoint, WarpCross, WarpAxis, MotionChannels, NormalizedProgress, Along, Movement;
    AxesKeepOrder(pow, g, point, ahead, NormalizedProgress(progress));
  }

  lemma AxesKeepOrder(pow: (real, real) -> real, g: VisualGroup, point: Point, ahead: Point, p: real)
    requires IsRealPower(pow) && ValidGroup(g) && Beyond(g)
    requires Movement(g.sourceVisual, g.direction, point) <= Movement(g.sourceVisual, g.direction, ahead)
    ensures Along(g.direction, WarpAxis(pow, g.sourceVisual, g.sink, g.direction, g.bump, MotionChannels(p, g.bump), point))
              <= Along(g.direction, WarpAxis(pow, g.sourceVisual, g.sink, g.direction, g.bump, MotionChannels(p, g.bump), ahead))
  {
    var source, sink, d, channels := g.sourceVisual, g.sink, g.direction, MotionChannels(p, g.bump);
    var m, m' := Movement(source, d, point), Movement(source, d, ahead);
    var back := RetreatDistance(source, d, g.bump, channels);
    RetreatDistanceBounds(source, d, g.bump, channels);
    RetreatGoesBack(d, AxisPosition(source, d, m), back);
    RetreatGoesBack(d, AxisPosition(source, d, m'), back);
    hide IsRealPower, MotionChannels, RowTranslation, AxisPosition, Movement, Lerp, Along, RetreatAxis, RetreatDistance;
    PositionsRise(source, d, m, m');
    PositionsRise(source, d, m', 1.0);
    PositionsRise(sink, d, m, m');
    PositionsRise(sink, d, 0.0, m');
    RowsFollow(pow, p, g.bump, m, m');
    RowShares(pow, p, g.bump, m);
    RowShares(pow, p, g.bump, m');
    var from, from' := RetreatAxis(AxisPosition(source, d, m), d, back), RetreatAxis(AxisPosition(source, d, m'), d, back);
    var to, to' := AxisPosition(sink, d, m), AxisPosition(sink, d, m');
    var r, r' := RowTranslation(pow, channels, m), RowTranslation(pow, channels, m');
    AlongLerp(d, from, to, r);
    AlongLerp(d, from', to', r');
    LerpsKeepOrder(Along(d, from), Along(d, to), r, Along(d, from'), Along(d, to'), r');
  }

  lemma RetreatGoesBack(direction: Direction, axis: real, distance: real)
    requires distance >= 0.0
    ensures Along(direction, RetreatAxis(axis, direction, distance)) == Along(direction, axis) - distance
  {
  }

  lemma RowShares(pow: (real, real) -> real, p: real, bump: real, movement: real)
    requires IsRealPower(pow)
    ensures 0.0 <= RowTranslation(pow, MotionChannels(p, bump), movement) <= 1.0
  {
    RowTranslationBounds(pow, MotionChannels(p, bump), movement);
  }
}
