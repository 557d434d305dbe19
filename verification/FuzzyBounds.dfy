/** Bounds on what a pair of temperature and humidity terms contributes to the score on one PM2.5 ramp. */
module FuzzyBounds {
  import opened FuzzyMembership
  import opened FuzzyRules
  import opened Tsukamoto
  import opened FuzzyRamp

  lemma PairForm(w: real, a: real, r: Ramp, s: Ramp, c: real, d: real, e: real, g: real, z: real)
    requires d == r.hi - r.lo && e == s.lo - r.lo && g == s.hi - s.lo && z == c - r.lo
    ensures PairExcess(w, a, r, s, c) == Parabola(Min(w, 1.0 - a), -z, d) + Parabola(Min(w, a), e - z, g)
  {
    ExcessForm(Min(w, 1.0 - a), r, c, -z, d);
    ExcessForm(Min(w, a), s, c, e - z, g);
    hide Min, Parabola, Excess;
  }

  /** A parabola that starts upwards stays nonnegative. */
  lemma RisingParabola(x: real, z: real, d: real)
    requires 0.0 <= x && 0.0 <= z && 0.0 <= d
    ensures 0.0 <= Parabola(x, z, d)
  {
    Nonnegative(d, x);
    Nonnegative(x, z + d * x);
  }

  lemma ParabolaGrows(x: real, y: real, z: real, d: real)
    requires 0.0 <= x <= y && 0.0 <= z && 0.0 <= d
    ensures Parabola(x, z, d) <= Parabola(y, z, d)
  {
    Nonnegative(d, x + y);
    Nonnegative(y - x, z + d * (x + y));
    assert Parabola(y, z, d) - Parabola(x, z, d) == (y - x) * (z + d * (x + y));
  }

  // ----- not too low -----

  /** The two ramps leave room for the floor that `Fair` asks of the score. */
  predicate Roomy(d: real, e: real, g: real) { 0.0 <= g && 0.0 <= d && 0.3 * d <= e && 1.05 * d <= g + 2.0 * e }

  lemma DipOfParabola(u: real, h: real, d: real, z: real, x: real)
    requires 0.0 <= d && z == 0.6 * h * d && x == 0.09 * (h * h * d)
    ensures Parabola(u, -z, d) >= -x
    ensures 0.0 <= h <= u ==> Parabola(u, -z, d) >= 4.0 * x
  {
    var y := u - 0.3 * h;
    SquareNonnegative(y);
    Nonnegative(d, y * y);
    assert Parabola(u, -z, d) + x == d * (y * y);
    if 0.0 <= h <= u {
      Nonnegative(u - h, u + 0.4 * h);
      var p := (u - h) * (u + 0.4 * h);
      Nonnegative(d, p);
      ShareNonnegative(h, d, x);
      assert 0.09 * Parabola(u, -z, d) - 0.4 * x == 0.09 * (d * p);
    }
  }

  lemma ShareNonnegative(h: real, d: real, x: real)
    requires 0.0 <= d && x == 0.09 * (h * h * d)
    ensures 0.0 <= x
  {
    SquareNonnegative(h);
    Nonnegative(h * h, d);
  }

  lemma LateStrength(v: real, h: real, d: real, e: real, g: real, z: real, x: real)
    requires Roomy(d, e, g) && z == 0.6 * h * d && 0.0 <= h <= 0.5 && x == 0.09 * (h * h * d)
    ensures 0.0 <= v ==> Parabola(v, e - z, g) >= 0.0
    ensures h <= v ==> Parabola(v, e - z, g) >= 5.0 * x
  {
    EarlyFloor(h, d, e, z);
    if 0.0 <= v { RisingParabola(v, e - z, g); }
    if h <= v {
      LateFloor(h, d, e, g, z, x);
      ParabolaGrows(h, v, e - z, g);
      hide Parabola;
    }
  }

  lemma EarlyFloor(h: real, d: real, e: real, z: real)
    requires 0.0 <= d && 0.3 * d <= e && z == 0.6 * h * d && h <= 0.5
    ensures 0.0 <= e - z
  {
    Nonnegative(d, 0.5 - h);
    var hd := h * d;
    assert d * (0.5 - h) == 0.5 * d - hd;
    assert z == 0.6 * hd;
  }

  lemma LateFloor(h: real, d: real, e: real, g: real, z: real, x: real)
    requires Roomy(d, e, g) && z == 0.6 * h * d && 0.0 <= h <= 0.5 && x == 0.09 * (h * h * d)
    ensures Parabola(h, e - z, g) >= 5.0 * x
  {
    var y, q := h * (1.0 - 2.0 * h), g + 2.0 * e - 1.05 * d;
    Nonnegative(h, 1.0 - 2.0 * h);
    Nonnegative(e, y);
    SquareNonnegative(h);
    Nonnegative(h * h, q);
    LateFloorIdentity(h, d, e, g, z, x, y, q);
  }

  lemma LateFloorIdentity(h: real, d: real, e: real, g: real, z: real, x: real, y: real, q: real)
    requires z == 0.6 * h * d && x == 0.09 * (h * h * d) && y == h * (1.0 - 2.0 * h) && q == g + 2.0 * e - 1.05 * d
    ensures Parabola(h, e - z, g) - 5.0 * x == e * y + (h * h) * q
  {
  }

  /** The floor of `Fair` lies `z` above the ramp's start; `x` is what a pair may owe against it. */
  predicate FloorShape(r: Ramp, h: real, z: real, x: real) {
    var d := r.hi - r.lo;
    0.0 <= h <= 0.5 && z == 0.6 * h * d && x == 0.09 * (h * h * d)
  }

  predicate RampsRoomy(r: Ramp, s: Ramp) { Roomy(r.hi - r.lo, s.lo - r.lo, s.hi - s.lo) }

  /** Against the floor of `Fair` a pair owes at most `x`, and one of weight `h` has `4x` to spare. */
  lemma PairFloor(w: real, a: real, r: Ramp, s: Ramp, h: real, z: real, c: real, x: real)
    requires RampsRoomy(r, s) && 0.0 <= w && 0.0 <= a <= 1.0
    requires FloorShape(r, h, z, x) && c == r.lo + z
    ensures PairExcess(w, a, r, s, c) >= -x
    ensures h <= w ==> PairExcess(w, a, r, s, c) >= 4.0 * x
  {
    PairFloorAt(w, a, r, s, h, r.hi - r.lo, z, c, x);
  }

  lemma PairFloorAt(w: real, a: real, r: Ramp, s: Ramp, h: real, d: real, z: real, c: real, x: real)
    requires d == r.hi - r.lo && Roomy(d, s.lo - r.lo, s.hi - s.lo) && 0.0 <= w && 0.0 <= a <= 1.0 && 0.0 <= h <= 0.5
    requires z == 0.6 * h * d && c == r.lo + z && x == 0.09 * (h * h * d)
    ensures PairExcess(w, a, r, s, c) >= -x
    ensures h <= w ==> PairExcess(w, a, r, s, c) >= 4.0 * x
  {
    var e, g := s.lo - r.lo, s.hi - s.lo;
    PairForm(w, a, r, s, c, d, e, g, z);
    DipOfParabola(Min(w, 1.0 - a), h, d, z, x);
    LateStrength(Min(w, a), h, d, e, g, z, x);
    ShareNonnegative(h, d, x);
    hide Parabola, PairExcess;
  }

  // ----- not too high -----

  /** `m` bounds the score, above the falling ramp's start, on the first half of the way. */
  predicate Capped(d: real, e: real, g: real, m: real) { 0.0 <= g && 0.0 <= d <= m && (d + g) / 2.0 + e <= 2.0 * m }

  predicate RampsCapped(r: Ramp, s: Ramp, m: real) { Capped(r.hi - r.lo, s.lo - r.lo, s.hi - s.lo, m) }

  lemma PairCeiling(w: real, a: real, r: Ramp, s: Ramp, m: real, c: real)
    requires RampsCapped(r, s, m) && 0.0 <= w && 0.0 <= a <= 0.5 && c == r.lo + m
    ensures PairExcess(w, a, r, s, c) <= 0.0
  {
    var d, e, g := r.hi - r.lo, s.lo - r.lo, s.hi - s.lo;
    var u, v := Min(w, 1.0 - a), Min(w, a);
    PairForm(w, a, r, s, c, d, e, g, m);
    ParabolaEnds(u, v, 1.0 - v, -m, d);
    CeilingEnds(v, d, e, g, m);
    hide Parabola, PairExcess;
  }

  lemma CeilingEnds(v: real, d: real, e: real, g: real, m: real)
    requires Capped(d, e, g, m) && 0.0 <= v <= 0.5
    ensures Parabola(v, -m, d) + Parabola(v, e - m, g) <= 0.0
    ensures Parabola(1.0 - v, -m, d) + Parabola(v, e - m, g) <= 0.0
  {
    Nonnegative(d + g, 0.5 - v);
    var x := 2.0 * m - e - (d + g) * v;
    assert (d + g) * (0.5 - v) == (d + g) / 2.0 - (d + g) * v;
    Nonnegative(v, x);
    Nonnegative(m - d, 1.0 - 2.0 * v);
    CeilingIdentity(v, d, e, g, m, x);
  }

  lemma CeilingIdentity(v: real, d: real, e: real, g: real, m: real, x: real)
    requires x == 2.0 * m - e - (d + g) * v
    ensures Parabola(v, -m, d) + Parabola(v, e - m, g) == -(v * x)
    ensures Parabola(1.0 - v, -m, d) + Parabola(v, e - m, g) == -(v * x) - (m - d) * (1.0 - 2.0 * v)
  {
  }

  /** On the second half the score has passed the middle of the two ramps' starts. */
  lemma PairMiddle(w: real, a: real, r: Ramp, s: Ramp, c: real)
    requires r.lo <= r.hi && s.lo <= s.hi && 0.0 <= w && 0.5 <= a <= 1.0 && r.lo <= c <= (r.lo + s.lo) / 2.0
    ensures PairExcess(w, a, r, s, c) >= 0.0
  {
    var d, e, g, z := r.hi - r.lo, s.lo - r.lo, s.hi - s.lo, c - r.lo;
    var u, v := Min(w, 1.0 - a), Min(w, a);
    PairForm(w, a, r, s, c, d, e, g, z);
    PastMiddle(u, v, d, e, g, z);
    hide Parabola, PairExcess;
  }

  lemma PastMiddle(u: real, v: real, d: real, e: real, g: real, z: real)
    requires 0.0 <= u <= v && 0.0 <= d && 0.0 <= g && 0.0 <= z && 2.0 * z <= e
    ensures Parabola(u, -z, d) + Parabola(v, e - z, g) >= 0.0
  {
    var x, y := e - 2.0 * z, v - u;
    SquareNonnegative(u);
    SquareNonnegative(v);
    Nonnegative(d, u * u);
    Nonnegative(g, v * v);
    Nonnegative(z, y);
    Nonnegative(v, x);
    PastMiddleIdentity(u, v, d, e, g, z, x, y);
  }

  lemma PastMiddleIdentity(u: real, v: real, d: real, e: real, g: real, z: real, x: real, y: real)
    requires x == e - 2.0 * z && y == v - u
    ensures Parabola(u, -z, d) + Parabola(v, e - z, g) == v * x + z * y + d * (u * u) + g * (v * v)
  {
  }

  /** A pair is above every score its ramps start above, the more so the heavier it is. */
  lemma PairAbove(w: real, a: real, r: Ramp, s: Ramp, c: real)
    requires c <= r.lo <= s.lo && r.lo <= r.hi && s.lo <= s.hi && 0.0 <= w && 0.0 <= a <= 1.0
    ensures PairExcess(w, a, r, s, c) >= 0.0
    ensures 0.5 <= w ==> PairExcess(w, a, r, s, c) >= 0.5 * (r.lo - c)
    ensures 0.5 <= w && 0.5 <= a ==> PairExcess(w, a, r, s, c) >= 0.5 * (s.lo - c)
  {
    var u, v := Min(w, 1.0 - a), Min(w, a);
    PairForm(w, a, r, s, c, r.hi - r.lo, s.lo - r.lo, s.hi - s.lo, c - r.lo);
    SteepParabola(u, r.lo - c, r.hi - r.lo);
    SteepParabola(v, s.lo - c, s.hi - s.lo);
    hide Parabola, PairExcess;
  }

  lemma SteepParabola(x: real, z: real, d: real)
    requires 0.0 <= x && 0.0 <= z && 0.0 <= d
    ensures 0.0 <= Parabola(x, z, d) && (0.5 <= x ==> 0.5 * z <= Parabola(x, z, d))
  {
    RisingParabola(x, z, d);
    if 0.5 <= x {
      Nonnegative(x - 0.5, z);
      Nonnegative(x, x);
      Nonnegative(d, x * x);
      assert Parabola(x, z, d) == x * z + d * (x * x);
    }
  }

  /** How far below zero a parabola can fall. */
  lemma ParabolaBottom(x: real, z: real, d: real, low: real)
    requires 0.0 < d && z * z <= 4.0 * d * low
    ensures Parabola(x, -z, d) >= -low
  {
    var y := 2.0 * d * x - z;
    SquareNonnegative(y);
    BottomIdentity(x, z, d, y);
    CompareScaled(-low, Parabola(x, -z, d), 4.0 * d);
  }

  lemma BottomIdentity(x: real, z: real, d: real, y: real)
    requires y == 2.0 * d * x - z
    ensures y * y == Parabola(x, -z, d) * (4.0 * d) + z * z
  {
  }

  // ----- the next plateau is never lower -----

  /** The ramps rise enough that the score at the end of the way is its greatest. */
  predicate Rises(d: real, e: real, g: real) {
    RisesEarly(d, e, g) && (d - e) * (d - e) <= 2.0 * (d + g)
  }

  predicate RisesEarly(d: real, e: real, g: real) {
    0.0 < g <= d && e <= d <= e + g && d <= 2.0 * e && 4.0 <= e - (d - g) / 2.0
  }

  predicate RampsRise(r: Ramp, s: Ramp) { Rises(r.hi - r.lo, s.lo - r.lo, s.hi - s.lo) }

  /** How far `a` is from both ends, but no more than `w`. */
  function Margin(w: real, a: real): real { Min(w, Min(a, 1.0 - a)) }

  /** Both strengths are at least `n`. */
  lemma StrongPair(u: real, v: real, n: real, d: real, e: real, g: real, z: real)
    requires RisesEarly(d, e, g) && 0.0 <= n <= u && n <= v && n <= 0.5 && z == d * n
    ensures Parabola(u, -z, d) + Parabola(v, e - z, g) >= 4.0 * n
  {
    FallingPart(u, n, d, z);
    StrongStart(n, d, e, g, z);
    StartIsPositive(n, d, e, z);
    ParabolaGrows(n, v, e - z, g);
    hide Parabola;
  }

  lemma FallingPart(u: real, n: real, d: real, z: real)
    requires 0.0 <= d && 0.0 <= n <= u && z == d * n
    ensures Parabola(u, -z, d) >= 0.0
  {
    Nonnegative(u, u - n);
    Nonnegative(d, u * (u - n));
    assert Parabola(u, -z, d) == d * (u * (u - n));
  }

  lemma StartIsPositive(n: real, d: real, e: real, z: real)
    requires 0.0 <= d <= 2.0 * e && 0.0 <= n <= 0.5 && z == d * n
    ensures 0.0 <= e - z
  {
    Nonnegative(d, 0.5 - n);
    assert d * (0.5 - n) == d / 2.0 - z;
  }

  lemma StrongStart(n: real, d: real, e: real, g: real, z: real)
    requires RisesEarly(d, e, g) && 0.0 <= n <= 0.5 && z == d * n
    ensures Parabola(n, e - z, g) >= 4.0 * n
  {
    var h := d - g;
    var p := h * n;
    Nonnegative(h, 0.5 - n);
    assert h * (0.5 - n) == h / 2.0 - p;
    var x := e - p - 4.0;
    Nonnegative(n, x);
    StrongStartIdentity(n, d, e, g, z, h, p, x);
  }

  lemma StrongStartIdentity(n: real, d: real, e: real, g: real, z: real, h: real, p: real, x: real)
    requires z == d * n && h == d - g && p == h * n && x == e - p - 4.0
    ensures Parabola(n, e - z, g) == 4.0 * n + n * x
  {
  }

  /** A pair weaker than `n`, with both strengths equal to its weight. */
  lemma WeakPair(w: real, n: real, d: real, e: real, g: real, z: real)
    requires Rises(d, e, g) && 0.0 <= w <= n <= 0.5 && z == d * n
    ensures Parabola(w, -z, d) + Parabola(w, e - z, g) >= -n
  {
    var k, x, y := d + g, 2.0 * z - e, d - e;
    var loss, q := w * (x - k * w), 2.0 * n * y;
    WeakIdentity(w, d, e, g, z, k, x, loss);
    SquareOfDifference(d, e, y);
    hide Parabola;
    if x <= 0.0 {
      NegativeParabola(x, k, w);
    } else {
      ParabolaTop(w, x, k, loss);
      WeakExcess(n, d, e, z, x, y, q);
      WeakScale(n, y, q, x, k, loss);
    }
  }

  lemma WeakIdentity(w: real, d: real, e: real, g: real, z: real, k: real, x: real, loss: real)
    requires k == d + g && x == 2.0 * z - e && loss == w * (x - k * w)
    ensures Parabola(w, -z, d) + Parabola(w, e - z, g) == -loss
  {
  }

  lemma SquareOfDifference(d: real, e: real, y: real)
    requires y == d - e
    ensures y * y == (d - e) * (d - e)
  {
  }

  lemma WeakExcess(n: real, d: real, e: real, z: real, x: real, y: real, q: real)
    requires 0.0 <= e && 0.0 <= n <= 0.5 && z == d * n && x == 2.0 * z - e && y == d - e && q == 2.0 * n * y
    ensures x <= q
  {
    Nonnegative(e, 1.0 - 2.0 * n);
    assert q - x == e * (1.0 - 2.0 * n);
  }

  lemma WeakScale(n: real, y: real, q: real, x: real, k: real, loss: real)
    requires 0.0 < k && 0.0 <= n <= 0.5 && y * y <= 2.0 * k && q == 2.0 * n * y
    requires 0.0 <= x <= q && 4.0 * k * loss <= x * x
    ensures loss <= n
  {
    SquareMonotone(x, q);
    var yy, nn := y * y, n * n;
    assert q * q == 4.0 * nn * yy;
    Nonnegative(n, 0.5 - n);
    assert n * (0.5 - n) == 0.5 * n - nn;
    SquareNonnegative(n);
    Nonnegative(nn, 2.0 * k - yy);
    Nonnegative(k, 0.5 * n - nn);
    var p, r, l := nn * yy, k * nn, k * loss;
    assert nn * (2.0 * k - yy) == 2.0 * r - p;
    assert k * (0.5 * n - nn) == 0.5 * (k * n) - r;
    assert l <= k * n;
    CompareScaled(loss, n, k);
  }

  /** A score that lies `n` of the falling ramp's height above its start. */
  predicate MarginShape(r: Ramp, n: real, c: real) { c == r.lo + (r.hi - r.lo) * n }

  /** Against `d` times the margin a pair is hardly negative, and the strongest one makes up for four others. */
  lemma PairMargin(w: real, most: real, a: real, r: Ramp, s: Ramp, c: real)
    requires RampsRise(r, s) && 0.0 <= w <= most && 0.0 <= a <= 1.0
    requires MarginShape(r, Margin(most, a), c)
    ensures PairExcess(w, a, r, s, c) >= -Margin(most, a)
    ensures w == most ==> PairExcess(w, a, r, s, c) >= 4.0 * Margin(most, a)
  {
    PairMarginAt(w, most, a, r, s, r.hi - r.lo, c);
  }

  lemma PairMarginAt(w: real, most: real, a: real, r: Ramp, s: Ramp, d: real, c: real)
    requires d == r.hi - r.lo && Rises(d, s.lo - r.lo, s.hi - s.lo) && 0.0 <= w <= most && 0.0 <= a <= 1.0
    requires c == r.lo + d * Margin(most, a)
    ensures PairExcess(w, a, r, s, c) >= -Margin(most, a)
    ensures w == most ==> PairExcess(w, a, r, s, c) >= 4.0 * Margin(most, a)
  {
    var e, g, n := s.lo - r.lo, s.hi - s.lo, Margin(most, a);
    var z := d * n;
    var u, v := Min(w, 1.0 - a), Min(w, a);
    PairForm(w, a, r, s, c, d, e, g, z);
    if n <= w {
      StrongPair(u, v, n, d, e, g, z);
    } else {
      assert u == w && v == w;
      WeakPair(w, n, d, e, g, z);
    }
    hide Parabola, PairExcess;
  }

  /** Against a score that high, the pair gains on the rest of the way to the next plateau. */
  lemma PairGains(w: real, most: real, a: real, r: Ramp, s: Ramp, floor: real, c: real)
    requires RampsRise(r, s) && MarginShape(r, Margin(most, a), floor) && floor <= c
    requires 0.0 <= w <= most && w <= 1.0 && 0.0 <= a <= 1.0
    ensures PairExcess(w, a, r, s, c) <= PairExcess(w, 1.0, r, s, c)
  {
    PairGainsAt(w, most, a, r, s, r.hi - r.lo, c);
    ExcessOfNothing(r, c);
    hide Excess;
  }

  lemma ExcessOfNothing(r: Ramp, c: real)
    ensures Excess(0.0, r, c) == 0.0
  {
  }

  lemma PairGainsAt(w: real, most: real, a: real, r: Ramp, s: Ramp, d: real, c: real)
    requires d == r.hi - r.lo && RisesEarly(d, s.lo - r.lo, s.hi - s.lo)
    requires 0.0 <= w <= most && w <= 1.0 && 0.0 <= a <= 1.0 && r.lo + d * Margin(most, a) <= c
    ensures PairExcess(w, a, r, s, c) <= Excess(w, s, c)
  {
    var e, g, z := s.lo - r.lo, s.hi - s.lo, c - r.lo;
    PairForm(w, a, r, s, c, d, e, g, z);
    ExcessForm(w, s, c, e - z, g);
    GainCases(w, most, a, Margin(most, a), d, e, g, z);
    hide Parabola, PairExcess, Excess;
  }

  lemma GainCases(w: real, most: real, a: real, n: real, d: real, e: real, g: real, z: real)
    requires RisesEarly(d, e, g) && 0.0 <= w <= most && w <= 1.0 && 0.0 <= a <= 1.0
    requires n == Margin(most, a) && d * n <= z
    ensures Parabola(Min(w, 1.0 - a), -z, d) + Parabola(Min(w, a), e - z, g) <= Parabola(w, e - z, g)
  {
    hide Parabola;
    if w <= a {
      FallingEnds(Min(w, 1.0 - a), n, d, z);
    } else if w <= 1.0 - a {
      assert n == a;
      EarlyGain(w, a, d, e, g, z);
    } else {
      assert n == Min(a, 1.0 - a);
      LateGain(w, a, n, d, e, g, z);
    }
  }

  lemma FallingEnds(u: real, n: real, d: real, z: real)
    requires 0.0 <= d && 0.0 <= u <= n && d * n <= z
    ensures Parabola(u, -z, d) <= 0.0
  {
    Nonnegative(d, n - u);
    assert d * (n - u) == d * n - d * u;
    Nonnegative(u, z - d * u);
    assert Parabola(u, -z, d) == -(u * (z - d * u));
  }

  lemma EarlyGain(w: real, a: real, d: real, e: real, g: real, z: real)
    requires 0.0 <= g <= d && d - g <= e && 0.0 <= a < w <= 1.0 - a && d * a <= z
    ensures Parabola(w, -z, d) + Parabola(a, e - z, g) <= Parabola(w, e - z, g)
  {
    var h, x := d - g, w - a;
    var y := e - h * (w + a);
    EarlySlope(w, a, e, h, y);
    var r, gain := z - d * a, Parabola(w, e - z, g) - Parabola(w, -z, d) - Parabola(a, e - z, g);
    Nonnegative(x, y);
    Nonnegative(a, r);
    EarlyGainIdentity(w, a, d, e, g, z, h, x, y, r, gain);
    hide Parabola;
  }

  lemma EarlySlope(w: real, a: real, e: real, h: real, y: real)
    requires 0.0 <= h <= e && w + a <= 1.0 && y == e - h * (w + a)
    ensures 0.0 <= y
  {
    Nonnegative(h, 1.0 - (w + a));
    assert h * (1.0 - (w + a)) == h - h * (w + a);
  }

  lemma EarlyGainIdentity(
    w: real, a: real, d: real, e: real, g: real, z: real, h: real, x: real, y: real, r: real, gain: real)
    requires h == d - g && x == w - a && y == e - h * (w + a) && r == z - d * a
    requires gain == Parabola(w, e - z, g) - Parabola(w, -z, d) - Parabola(a, e - z, g)
    ensures gain == x * y + a * r
  {
  }

  lemma LateGain(w: real, a: real, n: real, d: real, e: real, g: real, z: real)
    requires 0.0 <= g && 0.0 <= d <= e + g && 0.0 <= e && 0.0 <= a < w <= 1.0 && 1.0 - a < w && 0.0 <= n
    requires n == Min(a, 1.0 - a) && d * n <= z
    ensures Parabola(1.0 - a, -z, d) + Parabola(a, e - z, g) <= Parabola(w, e - z, g)
  {
    var b, x, rise, fall, floor := 1.0 - a, w - a, g * (w + a), d * (1.0 - a), d * n;
    var q, t, y, lag := z - floor, 1.0 - w, e - floor + rise, b * (fall - floor);
    var gain, p, r := Parabola(w, e - z, g) - Parabola(b, -z, d) - Parabola(a, e - z, g), x * y, q * t;
    hide Parabola, Min;
    Nonnegative(q, t);
    LateRise(w, a, g, rise);
    LateGainIdentity(w, a, d, e, g, z, b, x, rise, fall, gain);
    LateGainSplit(e, z, b, x, q, t, rise, fall, floor, y, lag, gain, p, r);
    LateGainBound(a, n, d, b, x, y, fall, floor, lag, p);
  }

  lemma LateRise(w: real, a: real, g: real, rise: real)
    requires 0.0 <= g && 1.0 <= w + a && rise == g * (w + a)
    ensures g <= rise
  {
    Nonnegative(g, w + a - 1.0);
    assert g * (w + a - 1.0) == rise - g;
  }

  lemma LateGainIdentity(
    w: real, a: real, d: real, e: real, g: real, z: real, b: real, x: real, rise: real, fall: real, gain: real)
    requires b == 1.0 - a && x == w - a && rise == g * (w + a) && fall == d * b
    requires gain == Parabola(w, e - z, g) - Parabola(b, -z, d) - Parabola(a, e - z, g)
    ensures gain == x * (e - z + rise) - b * (fall - z)
  {
  }

  lemma LateGainSplit(
    e: real, z: real, b: real, x: real, q: real, t: real, rise: real, fall: real, floor: real, y: real, lag: real,
    gain: real, p: real, r: real)
    requires q == z - floor && t == b - x && y == e - floor + rise && lag == b * (fall - floor)
    requires gain == x * (e - z + rise) - b * (fall - z) && p == x * y && r == q * t
    ensures gain == p + r - lag
  {
  }

  lemma LateGainBound(
    a: real, n: real, d: real, b: real, x: real, y: real, fall: real, floor: real, lag: real, p: real)
    requires 0.0 <= d && n == Min(a, b) && 0.0 <= a && 0.0 <= b && b == 1.0 - a
    requires 0.0 <= x && b - a <= x && d - floor <= y && fall == d * b && floor == d * n && lag == b * (fall - floor)
    requires p == x * y
    ensures lag <= p
  {
    if b <= a {
      Nonnegative(d, 1.0 - n);
      assert d * (1.0 - n) == d - floor;
      Nonnegative(x, y);
      assert lag == 0.0;
    } else {
      var m := b - a;
      Nonnegative(d, b);
      Nonnegative(x - m, fall);
      Nonnegative(x, y - fall);
      var q, r := x * fall, m * fall;
      assert (x - m) * fall == q - r;
      assert x * (y - fall) == p - q;
      LagIdentity(a, d, b, fall, floor, lag, r);
    }
  }

  lemma LagIdentity(a: real, d: real, b: real, fall: real, floor: real, lag: real, r: real)
    requires b == 1.0 - a && fall == d * b && floor == d * a && lag == b * (fall - floor) && r == (b - a) * fall
    ensures lag == r
  {
  }
}
