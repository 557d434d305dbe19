/**
 How one pair of temperature and humidity terms fares while PM2.5 moves from one term to the next:
 the scalar inequalities behind the dip of the score. A pair of weight `w` fires the falling term
 with strength min(w, 1 - a) and the rising one with min(w, a).
 */
module FuzzyRamp {
  import opened FuzzyMembership
  import opened FuzzyRules
  import opened Tsukamoto
  import opened FuzzyScore

  // ----- small facts -----

  function Parabola(x: real, a: real, g: real): real { x * (a + g * x) }

  /** A convex parabola is greatest at an end of its range. */
  lemma ParabolaEnds(x: real, lo: real, hi: real, a: real, g: real)
    requires 0.0 <= g && lo <= x <= hi
    ensures Parabola(x, a, g) <= Parabola(lo, a, g) || Parabola(x, a, g) <= Parabola(hi, a, g)
  {
    var p, q := a + g * (x + lo), a + g * (x + hi);
    assert p <= q by { Monotone(g, x + lo, x + hi); }
    if p <= 0.0 {
      var y := x - lo;
      assert y * p <= 0.0;
      assert y * p == x * (a + g * x) - lo * (a + g * lo);
    } else {
      var y := hi - x;
      assert y * q >= 0.0;
      assert y * q == hi * (a + g * hi) - x * (a + g * x);
    }
  }

  lemma Monotone(k: real, x: real, y: real)
    requires 0.0 <= k && x <= y
    ensures k * x <= k * y
  {
  }

  /** v * (x - k * v) is greatest at x / 2k. */
  lemma ParabolaTop(v: real, x: real, k: real, top: real)
    requires 0.0 < k && top == v * (x - k * v)
    ensures 4.0 * k * top <= x * x
  {
    var y := x - 2.0 * k * v;
    assert y * y >= 0.0;
    assert y * y == x * x - 4.0 * k * top;
  }

  lemma SquareMonotone(x: real, y: real)
    requires 0.0 <= x <= y
    ensures x * x <= y * y
  {
    Monotone(x, x, y);
    Monotone(y, x, y);
    var a, b, c := x * x, x * y, y * y;
    assert a <= b <= c;
  }

  // ----- the loss of one pair -----

  /**
   The falling ramp has slope `d`, the rising one starts `e` higher and has slope `g`; `k` bounds
   the loss per strength still fired.
   */
  predicate Fits(d: real, e: real, g: real, k: real) {
    && 0.0 < g <= d && 0.0 <= e <= 2.0 * d && 2.0 * (d - g) <= e
    && (2.0 * d - e) * (2.0 * d - e) <= 4.0 * (d + g) * k && 0.0 <= k
  }

  lemma Nonnegative(x: real, y: real)
    requires 0.0 <= x && 0.0 <= y
    ensures 0.0 <= x * y
  {
  }

  /** Both strengths move together, `v` being the rising one and `s` their sum afterwards. */
  lemma PeakLoss(d: real, e: real, g: real, k: real, s: real, v: real, x: real, m: real, loss: real)
    requires Fits(d, e, g, k) && 0.0 <= v <= s <= 1.0
    requires x == 2.0 * d * s - e && m == d + g && loss == v * (x - m * v)
    ensures loss <= k * s
  {
    TopAtOne(d, e, s);
    Peak(x, m, 2.0 * d - e, k, s, v, loss);
  }

  lemma Peak(x: real, m: real, top: real, k: real, s: real, v: real, loss: real)
    requires 0.0 < m && 0.0 <= k && 0.0 <= v && 0.0 <= s <= 1.0 && loss == v * (x - m * v)
    requires x <= top * s && top * top <= 4.0 * m * k
    ensures loss <= k * s
  {
    Nonnegative(k, s);
    if x <= 0.0 {
      NegativeParabola(x, m, v);
    } else {
      ParabolaTop(v, x, m, loss);
      SquareMonotone(x, top * s);
      ScaledPeak(loss, m, top, s, k);
    }
  }

  lemma NegativeParabola(x: real, m: real, v: real)
    requires x <= 0.0 && 0.0 <= m && 0.0 <= v
    ensures v * (x - m * v) <= 0.0
  {
    var y := m * v - x;
    Nonnegative(m, v);
    Nonnegative(v, y);
    assert v * (x - m * v) == -(v * y);
  }

  lemma TopAtOne(d: real, e: real, s: real)
    requires 0.0 <= e && s <= 1.0
    ensures 2.0 * d * s - e <= (2.0 * d - e) * s
  {
    var r := 1.0 - s;
    Nonnegative(e, r);
    assert (2.0 * d - e) * s - (2.0 * d * s - e) == e * r;
  }

  lemma ScaledPeak(loss: real, m: real, top: real, s: real, k: real)
    requires 0.0 < m && 0.0 <= s <= 1.0 && 4.0 * m * loss <= (top * s) * (top * s) && top * top <= 4.0 * m * k
    ensures loss <= k * s
  {
    var n, r, q, ks := 4.0 * m, 1.0 - s, 4.0 * m * k - top * top, k * s;
    Nonnegative(s, q);
    Nonnegative(s, r);
    var sr := s * r;
    SquareNonnegative(top);
    Nonnegative(top * top, sr);
    assert n * ks - (top * s) * (top * s) == s * q + (top * top) * sr;
    assert n * loss <= n * ks;
    CompareScaled(loss, ks, n);
  }

  lemma SquareNonnegative(x: real)
    ensures 0.0 <= x * x
  {
  }

  /**
   What a pair loses when the falling strength goes from `u` to `u - x` and the rising one from
   `v - y` to `v`, all measured against a score of `c` above the falling ramp's start.
   */
  function Loss(d: real, e: real, g: real, c: real, u: real, x: real, v: real, y: real): real {
    x * (2.0 * d * u - d * x - c) + y * (c - e - 2.0 * g * v + g * y)
  }

  /** Both strengths move by the same amount. */
  lemma EqualMoves(d: real, e: real, g: real, k: real, c: real, u: real, x: real, v: real, s: real)
    requires Fits(d, e, g, k) && 0.0 <= x <= v && x <= u && u - x + v == s <= 1.0
    ensures Loss(d, e, g, c, u, x, v, x) <= k * s
  {
    var a, m := 2.0 * d * s - e, d + g;
    var peak := v * (a - m * v);
    PeakLoss(d, e, g, k, s, v, a, m, peak);
    Nonnegative(k, s);
    EqualLoss(d, e, g, c, u, x, v, s, a, m);
    BelowPeak(a, m, v, x, peak, k * s, Loss(d, e, g, c, u, x, v, x));
  }

  lemma EqualLoss(d: real, e: real, g: real, c: real, u: real, x: real, v: real, s: real, a: real, m: real)
    requires u - x + v == s && a == 2.0 * d * s - e && m == d + g
    ensures Loss(d, e, g, c, u, x, v, x) == x * (a - 2.0 * m * v + m * x)
  {
  }

  lemma BelowPeak(a: real, m: real, v: real, x: real, peak: real, most: real, loss: real)
    requires 0.0 <= x <= v && 0.0 <= m && peak == v * (a - m * v) && peak <= most && 0.0 <= most
    requires loss == x * (a - 2.0 * m * v + m * x)
    ensures loss <= most
  {
    var y, z := a - m * v, v - x;
    Nonnegative(x, z);
    Nonnegative(m, x * z);
    assert x * (a - 2.0 * m * v + m * x) == x * y - m * (x * z);
    if y <= 0.0 { Nonnegative(x, -y); } else { Nonnegative(z, y); assert v * y - x * y == z * y; }
  }

  /** The rising strength has grown from nothing to `v`, on the ramps of `Fits`, against a score of `c`. */
  datatype Rising = Rising(d: real, e: real, g: real, k: real, c: real, s: real, v: real) {
    predicate Fitting() { Fits(d, e, g, k) && 0.0 <= v <= s <= 1.0 }

    /** The loss is Parabola(x, a, d) + rest when the falling strength has moved by `x`; `most` bounds it. */
    predicate Terms(a: real, rest: real, most: real) {
      a == 2.0 * d * s - 2.0 * d * v - c && rest == v * (c - e - g * v) && most == k * s
    }
  }

  /** The rising strength starts from nothing, and the falling one stays at least as strong. */
  lemma FullRise(d: real, e: real, g: real, k: real, c: real, u: real, x: real, v: real, s: real)
    requires Fits(d, e, g, k) && 0.0 <= x <= v <= u && u - x + v == s <= 1.0 && c <= e + 2.0 * k
    ensures Loss(d, e, g, c, u, x, v, v) <= k * s
  {
    var a, rest := 2.0 * d * s - 2.0 * d * v - c, v * (c - e - g * v);
    RiseLoss(d, e, g, c, u, x, v, s, a, rest);
    FullRiseAt(Rising(d, e, g, k, c, s, v), x, a, rest, k * s);
    hide Fits, Loss, Parabola;
  }

  lemma FullRiseAt(p: Rising, x: real, a: real, rest: real, most: real)
    requires p.Fitting() && p.Terms(a, rest, most) && 0.0 <= x <= p.v && p.c <= p.e + 2.0 * p.k
    requires 2.0 * p.v - p.s <= x
    ensures Parabola(x, a, p.d) + rest <= most
  {
    hide Fits, Parabola, Rising.Terms, Rising.Fitting;
    FittingSigns(p);
    RiseAtPeak(p, a, rest, most);
    if 2.0 * p.v <= p.s {
      NothingFalls(p, a, rest, most);
      RiseEnds(x, 0.0, p.v, a, p.d, rest, most);
    } else {
      EqualStrengths(p, a, rest, most);
      RiseEnds(x, 2.0 * p.v - p.s, p.v, a, p.d, rest, most);
    }
  }

  lemma RiseEnds(x: real, lo: real, hi: real, a: real, d: real, rest: real, most: real)
    requires 0.0 <= d && lo <= x <= hi && Parabola(lo, a, d) + rest <= most && Parabola(hi, a, d) + rest <= most
    ensures Parabola(x, a, d) + rest <= most
  {
    ParabolaEnds(x, lo, hi, a, d);
    hide Parabola;
  }

  lemma RiseLoss(d: real, e: real, g: real, c: real, u: real, x: real, v: real, s: real, a: real, rest: real)
    requires u - x + v == s && a == 2.0 * d * s - 2.0 * d * v - c && rest == v * (c - e - g * v)
    ensures Loss(d, e, g, c, u, x, v, v) == Parabola(x, a, d) + rest
  {
  }

  lemma RiseAtPeak(p: Rising, a: real, rest: real, most: real)
    requires p.Fitting() && p.Terms(a, rest, most)
    ensures Parabola(p.v, a, p.d) + rest <= most
  {
    var x, m := 2.0 * p.d * p.s - p.e, p.d + p.g;
    PeakIdentity(p, a, rest, most, x, m);
    PeakLoss(p.d, p.e, p.g, p.k, p.s, p.v, x, m, Parabola(p.v, a, p.d) + rest);
  }

  lemma PeakIdentity(p: Rising, a: real, rest: real, most: real, x: real, m: real)
    requires p.Terms(a, rest, most) && x == 2.0 * p.d * p.s - p.e && m == p.d + p.g
    ensures Parabola(p.v, a, p.d) + rest == p.v * (x - m * p.v)
  {
  }

  lemma FittingSigns(p: Rising)
    requires p.Fitting()
    ensures 0.0 <= p.v <= p.s <= 1.0 && 0.0 <= p.k && 0.0 < p.g <= p.d && 2.0 * (p.d - p.g) <= p.e
  {
  }

  lemma NothingFalls(p: Rising, a: real, rest: real, most: real)
    requires p.Fitting() && p.Terms(a, rest, most) && 2.0 * p.v <= p.s && p.c <= p.e + 2.0 * p.k
    ensures Parabola(0.0, a, p.d) + rest <= most
  {
    hide Fits, Parabola, Rising.Terms, Rising.Fitting;
    FittingSigns(p);
    var y, z := p.e + 2.0 * p.k - p.c, p.s - 2.0 * p.v;
    NothingFallsIdentity(p, a, rest, most, y, z);
    Nonnegative(p.v, y);
    Nonnegative(p.k, z);
    SquareNonnegative(p.v);
    Nonnegative(p.g, p.v * p.v);
  }

  lemma NothingFallsIdentity(p: Rising, a: real, rest: real, most: real, y: real, z: real)
    requires p.Terms(a, rest, most) && y == p.e + 2.0 * p.k - p.c && z == p.s - 2.0 * p.v
    ensures most - (Parabola(0.0, a, p.d) + rest) == p.v * y + p.k * z + p.g * (p.v * p.v)
  {
  }

  /** What the terms of a rise lack to their bounds when both strengths end up equal. */
  datatype Gaps = Gaps(t: real, z: real, q: real, h: real, w: real) {
    predicate Of(p: Rising) {
      && t == 2.0 * p.v - p.s && z == p.s - p.v && q == p.e + 2.0 * p.k - p.c && h == p.d - p.g
      && w == p.e - 2.0 * h * p.v
    }

    function Sum(p: Rising): real { p.k * t + q * z + t * w + h * (t * t) + p.g * (z * z) }
  }

  lemma EqualStrengths(p: Rising, a: real, rest: real, most: real)
    requires p.Fitting() && p.Terms(a, rest, most) && p.s <= 2.0 * p.v && p.c <= p.e + 2.0 * p.k
    ensures Parabola(2.0 * p.v - p.s, a, p.d) + rest <= most
  {
    hide Fits, Gaps.Sum, Parabola, Rising.Terms, Rising.Fitting;
    FittingSigns(p);
    var h := p.d - p.g;
    var x := Gaps(2.0 * p.v - p.s, p.s - p.v, p.e + 2.0 * p.k - p.c, h, p.e - 2.0 * h * p.v);
    StartsHigh(p.e, h, p.v, x.w);
    EqualStrengthsIdentity(p, x, a, rest, most);
    GapsAreNonnegative(p, x);
  }

  lemma StartsHigh(e: real, h: real, v: real, w: real)
    requires 0.0 <= h && 2.0 * h <= e && v <= 1.0 && w == e - 2.0 * h * v
    ensures 0.0 <= w
  {
    Nonnegative(h, 1.0 - v);
    assert h * (1.0 - v) == h - h * v;
  }

  lemma GapsAreNonnegative(p: Rising, x: Gaps)
    requires 0.0 <= p.k && 0.0 <= p.g && 0.0 <= x.t && 0.0 <= x.q && 0.0 <= x.z && 0.0 <= x.w && 0.0 <= x.h
    ensures 0.0 <= x.Sum(p)
  {
    Nonnegative(p.k, x.t);
    Nonnegative(x.q, x.z);
    Nonnegative(x.t, x.w);
    SquareNonnegative(x.t);
    Nonnegative(x.h, x.t * x.t);
    SquareNonnegative(x.z);
    Nonnegative(p.g, x.z * x.z);
  }

  lemma EqualStrengthsIdentity(p: Rising, x: Gaps, a: real, rest: real, most: real)
    requires p.Terms(a, rest, most) && x.Of(p)
    ensures most - (Parabola(x.t, a, p.d) + rest) == x.Sum(p)
  {
  }

  // ----- when the falling strength moves further than the rising one -----

  /**
   With the score at least `f` of the falling ramp's height above its start, a pair of weight up to
   `h` whose falling strength moves loses at most `q` of that height per strength still fired.
   */
  datatype Floor = Floor(h: real, f: real, q: real) {
    predicate Covers() {
      && 0.0 < h <= 0.5 && 0.0 <= f && 0.0 <= q && h - f <= q
      && (2.0 * h + f <= q || (2.0 * h + f - q) * (2.0 * h + f - q) <= 8.0 * (h * f))
    }

    /** A score `c` above the start of a ramp of slope `d` is on the floor, and the loss is within `k`. */
    predicate Bears(d: real, k: real, c: real) { Covers() && q * d <= k && f * d <= c }
  }

  /** The floor at six tenths of the weight. */
  function SixTenths(h: real): Floor { Floor(h, 0.6 * h, 0.2232) }

  lemma SixTenthsCovers(h: real)
    requires 0.0 < h <= 0.5
    ensures SixTenths(h).Covers()
  {
    var k, n := 2.6 * h - 0.2232, 2.16 * h;
    if 0.0 < k { SquareMonotone(k, n); }
    SquareNonnegative(h);
    SixTenthsIdentity(h, n, h * h);
  }

  lemma SixTenthsIdentity(h: real, n: real, hh: real)
    requires n == 2.16 * h && hh == h * h
    ensures n * n == 4.6656 * hh && 8.0 * (h * (0.6 * h)) == 4.8 * hh
  {
  }

  /** `x` is at most `y`, and `x + y` at most twice the weight. */
  lemma SmallShare(x: real, y: real, b: Floor, share: real, most: real)
    requires b.Covers() && 0.0 <= x <= y && x + y <= 2.0 * b.h && share == x * (y - b.f) && most == b.q * y
    ensures share <= most
  {
    var z := y - b.f;
    if y - b.f <= 0.0 {
      NegativeShare(x, y, z, b.q, share, most);
    } else if y <= b.h {
      ProductAtMost(x, y, z, b.q, share, most);
    } else {
      var w := 2.0 * b.h - y;
      ProductAtMost(x, w, z, z, share, w * z);
      LargeShare(y, b, w * z, most);
    }
  }

  lemma NegativeShare(x: real, y: real, z: real, q: real, share: real, most: real)
    requires 0.0 <= x && 0.0 <= y && z <= 0.0 && 0.0 <= q && share == x * z && most == q * y
    ensures share <= most
  {
    Nonnegative(q, y);
    Nonnegative(x, -z);
  }

  lemma ProductAtMost(x: real, y: real, z: real, q: real, less: real, more: real)
    requires 0.0 <= x <= y && 0.0 <= z <= q && less == x * z && more == q * y
    ensures less <= more
  {
    Nonnegative(y - x, z);
    Nonnegative(y, q - z);
    assert (y - x) * z + y * (q - z) == more - less;
  }

  lemma LargeShare(y: real, b: Floor, share: real, most: real)
    requires b.Covers() && 0.0 <= y && share == (2.0 * b.h - y) * (y - b.f) && most == b.q * y
    ensures share <= most
  {
    var k, hf := 2.0 * b.h + b.f - b.q, b.h * b.f;
    LargeShareIdentity(y, b, share, most, k, hf);
    if k <= 0.0 {
      SquareNonnegative(y);
      Nonnegative(b.h, b.f);
      Nonnegative(-k, y);
    } else {
      var z := y - k / 2.0;
      SquareNonnegative(z);
      assert z * z == y * y - k * y + k * k / 4.0;
    }
  }

  lemma LargeShareIdentity(y: real, b: Floor, share: real, most: real, k: real, hf: real)
    requires share == (2.0 * b.h - y) * (y - b.f) && most == b.q * y && k == 2.0 * b.h + b.f - b.q && hf == b.h * b.f
    ensures most - share == y * y - k * y + 2.0 * hf
  {
  }

  /** The rising strength does not move. */
  lemma FallAlone(d: real, k: real, b: Floor, c: real, u: real, x: real, v: real, s: real, loss: real)
    requires b.Bears(d, k, c) && 0.0 <= d
    requires 0.0 <= x <= u <= v && u <= b.h && u - x + v == s && loss == x * (2.0 * d * u - d * x - c)
    ensures loss <= k * s
  {
    var y := 2.0 * u - x;
    var share, slack, fd := x * (y - b.f), c - b.f * d, b.f * d;
    SmallShare(x, y, b, share, b.q * y);
    hide Floor.Covers;
    FallAloneIdentity(d, b.f, c, u, x, y, share, slack, loss);
    Nonnegative(x, slack);
    ShareLoss(d, k, b.q, y, s, share);
  }

  lemma FallAloneIdentity(d: real, f: real, c: real, u: real, x: real, y: real, share: real, slack: real, loss: real)
    requires y == 2.0 * u - x && share == x * (y - f) && slack == c - f * d && loss == x * (2.0 * d * u - d * x - c)
    ensures loss == d * share - x * slack
  {
  }

  lemma ShareLoss(d: real, k: real, q: real, y: real, s: real, share: real)
    requires 0.0 <= d && 0.0 <= q && q * d <= k && 0.0 <= y <= s && share <= q * y
    ensures d * share <= k * s
  {
    Nonnegative(q, d);
    Nonnegative(d, q * y - share);
    Nonnegative(k - q * d, y);
    Nonnegative(k, s - y);
    ShareIdentity(d, k, q, y, s, share, d * (q * y - share), (k - q * d) * y, k * (s - y));
  }

  lemma ShareIdentity(
    d: real, k: real, q: real, y: real, s: real, share: real, less: real, spare: real, rest: real)
    requires less == d * (q * y - share) && spare == (k - q * d) * y && rest == k * (s - y)
    ensures k * s - d * share == less + spare + rest
  {
  }

  /** The rising strength moves as little as the falling one lets it. */
  lemma FallFirst(
    d: real, e: real, g: real, k: real, b: Floor, c: real, u: real, x: real, v: real, s: real, y: real, loss: real)
    requires Fits(d, e, g, k) && 0.0 <= u <= v <= 1.0 && y == u + v - 1.0 && 0.0 <= y <= x <= u && u - x + v == s
    requires b.Bears(d, k, c) && b.h == 0.5 && loss == Loss(d, e, g, c, u, x, v, y)
    ensures loss <= k * s
  {
    var r := x - y;
    var both := y * (2.0 * d * u - d * y - e - 2.0 * g * v + g * y);
    var more := r * (2.0 * d * (1.0 - v) - c - d * r);
    FallFirstIdentity(d, e, g, c, u, x, v, y, r, both, more, loss);
    BothFall(d, e, g, u, v, y, both);
    MoreFalls(d, k, b, c, v, s, r, more);
  }

  lemma MoreFalls(d: real, k: real, b: Floor, c: real, v: real, s: real, r: real, more: real)
    requires b.Bears(d, k, c) && b.h == 0.5 && 0.0 <= d
    requires 0.5 <= v && 0.0 <= r <= s && s == 1.0 - r && more == r * (2.0 * d * (1.0 - v) - c - d * r)
    ensures more <= k * s
  {
    hide Floor.Bears, Floor.Covers;
    BearingFloor(b, d, k, c);
    var share, slack, w := r * (s - b.f), c - b.f * d, d * (2.0 * v - 1.0);
    SmallShare(r, s, b, share, b.q * s);
    ShareLoss(d, k, b.q, s, s, share);
    Nonnegative(d, 2.0 * v - 1.0);
    MoreIdentity(d, b.f, c, v, s, r, more, share, slack, w);
    Nonnegative(r, slack);
    Nonnegative(r, w);
  }

  lemma BearingFloor(b: Floor, d: real, k: real, c: real)
    requires b.Bears(d, k, c)
    ensures b.Covers() && 0.0 <= b.q && b.q * d <= k && 0.0 <= c - b.f * d
  {
  }

  lemma FallFirstIdentity(
    d: real, e: real, g: real, c: real, u: real, x: real, v: real, y: real, r: real, both: real, more: real,
    loss: real)
    requires y == u + v - 1.0 && r == x - y && loss == Loss(d, e, g, c, u, x, v, y)
    requires both == y * (2.0 * d * u - d * y - e - 2.0 * g * v + g * y)
    requires more == r * (2.0 * d * (1.0 - v) - c - d * r)
    ensures loss == both + more
  {
  }

  lemma MoreIdentity(
    d: real, f: real, c: real, v: real, s: real, r: real, more: real, share: real, slack: real, w: real)
    requires s == 1.0 - r && share == r * (s - f) && slack == c - f * d && w == d * (2.0 * v - 1.0)
    requires more == r * (2.0 * d * (1.0 - v) - c - d * r)
    ensures more == d * share - r * slack - r * w
  {
  }

  lemma BothFall(d: real, e: real, g: real, u: real, v: real, y: real, both: real)
    requires 0.0 <= g <= d && 2.0 * (d - g) <= e && 0.0 <= u <= v <= 1.0 && 0.0 <= y
    requires both == y * (2.0 * d * u - d * y - e - 2.0 * g * v + g * y)
    ensures both <= 0.0
  {
    var h := d - g;
    Nonnegative(h, 1.0 - u);
    Nonnegative(g, v - u);
    Nonnegative(h, y);
    var p, q, r := h * (1.0 - u), g * (v - u), h * y;
    var z := (e - 2.0 * h) + 2.0 * p + 2.0 * q + r;
    Nonnegative(y, z);
    assert both == -(y * z);
  }

  // ----- any move -----

  lemma LossIsParabola(
    d: real, e: real, g: real, c: real, u: real, x: real, v: real, y: real, a: real, rest: real)
    requires a == c - e - 2.0 * g * v && rest == x * (2.0 * d * u - d * x - c)
    ensures Loss(d, e, g, c, u, x, v, y) == Parabola(y, a, g) + rest
  {
  }

  /** The rising strength moves further: it takes over, so the falling one is still the stronger. */
  predicate Overtaking(e: real, k: real, c: real, u: real, x: real, v: real, y: real) {
    x < y ==> v <= u && c <= e + 2.0 * k
  }

  /** The falling strength moves further: it is the weaker one, and small unless `b.h` is one half. */
  predicate Fading(d: real, k: real, b: Floor, c: real, u: real, x: real, v: real, y: real) {
    y < x ==> u <= v && b.Bears(d, k, c) && (if u + v <= 1.0 then u <= b.h else b.h == 0.5)
  }

  lemma LossBound(
    d: real, e: real, g: real, k: real, b: Floor, c: real, u: real, x: real, v: real, y: real, s: real)
    requires Fits(d, e, g, k) && 0.0 <= x <= u && x <= v <= 1.0 && 0.0 <= y <= v && u + v - 1.0 <= y
    requires u - x + v == s <= 1.0
    requires Overtaking(e, k, c, u, x, v, y) && Fading(d, k, b, c, u, x, v, y)
    ensures Loss(d, e, g, c, u, x, v, y) <= k * s
  {
    hide Floor.Bears;
    var a, rest := c - e - 2.0 * g * v, x * (2.0 * d * u - d * x - c);
    EqualMoves(d, e, g, k, c, u, x, v, s);
    LossIsParabola(d, e, g, c, u, x, v, y, a, rest);
    LossIsParabola(d, e, g, c, u, x, v, x, a, rest);
    if x < y {
      FullRise(d, e, g, k, c, u, x, v, s);
      LossIsParabola(d, e, g, c, u, x, v, v, a, rest);
      hide Loss, Parabola;
      RiseEnds(y, x, v, a, g, rest, k * s);
    } else if y < x {
      LeastRise(d, e, g, k, b, c, u, x, v, y, s, a, rest);
    }
  }

  lemma LeastRise(
    d: real, e: real, g: real, k: real, b: Floor, c: real, u: real, x: real, v: real, y: real, s: real,
    a: real, rest: real)
    requires Fits(d, e, g, k) && 0.0 <= y < x <= u && x <= v <= 1.0 && u + v - 1.0 <= y && u - x + v == s <= 1.0
    requires Fading(d, k, b, c, u, x, v, y) && a == c - e - 2.0 * g * v && rest == x * (2.0 * d * u - d * x - c)
    requires Parabola(x, a, g) + rest <= k * s
    ensures Parabola(y, a, g) + rest <= k * s
  {
    hide Floor.Bears;
    if u + v <= 1.0 {
      FallAlone(d, k, b, c, u, x, v, s, rest);
      assert Parabola(0.0, a, g) == 0.0;
      RiseEnds(y, 0.0, x, a, g, rest, k * s);
    } else {
      var z := u + v - 1.0;
      FallFirst(d, e, g, k, b, c, u, x, v, s, z, Loss(d, e, g, c, u, x, v, z));
      LossIsParabola(d, e, g, c, u, x, v, z, a, rest);
      hide Loss, Parabola;
      RiseEnds(y, z, x, a, g, rest, k * s);
    }
  }

  // ----- a pair on one PM2.5 ramp -----

  /** A moment less `c` times the strength it comes from: nonnegative when their quotient is at least `c`. */
  function Surplus(moment: real, strength: real, c: real): real { moment - c * strength }

  lemma SurplusAdds(m: real, x: real, n: real, y: real, c: real)
    ensures Surplus(m + n, x + y, c) == Surplus(m, x, c) + Surplus(n, y, c)
  {
  }

  function Excess(alpha: real, r: Ramp, c: real): real { Surplus(Weighted(alpha, r), alpha, c) }

  lemma ExcessForm(alpha: real, r: Ramp, c: real, z: real, d: real)
    requires z == r.lo - c && d == r.hi - r.lo
    ensures Excess(alpha, r, c) == Parabola(alpha, z, d)
  {
  }

  lemma LossIsExcess(
    d: real, e: real, g: real, c: real, u: real, x: real, v: real, y: real, u': real, v': real)
    requires u' == u - x && v' == v - y
    ensures Loss(d, e, g, c, u, x, v, y)
         == Parabola(u, -c, d) - Parabola(u', -c, d) + Parabola(v', e - c, g) - Parabola(v, e - c, g)
  {
  }

  predicate RampsFit(r: Ramp, s: Ramp, k: real) { Fits(r.hi - r.lo, s.lo - r.lo, s.hi - s.lo, k) }

  function PairStrength(w: real, a: real): real { Min(w, 1.0 - a) + Min(w, a) }

  /**
   The score to measure a pair of weight `w` against that goes from `a` to `b`: not too high where
   it gets stronger, and not too low where it gets weaker.
   */
  predicate Fair(w: real, a: real, b: real, r: Ramp, s: Ramp, k: real, floor: Floor, c: real) {
    && (PairStrength(w, a) < PairStrength(w, b) ==> c <= s.lo + 2.0 * k)
    && (PairStrength(w, b) < PairStrength(w, a) ==>
          floor.Bears(r.hi - r.lo, k, c - r.lo) && (w <= floor.h || floor.h == 0.5))
  }

  /** A pair of weight `w` at position `a` between two terms, measured against a score of `c`. */
  function PairExcess(w: real, a: real, r: Ramp, s: Ramp, c: real): real {
    Excess(Min(w, 1.0 - a), r, c) + Excess(Min(w, a), s, c)
  }

  lemma PairLoss(
    w: real, a: real, b: real, r: Ramp, s: Ramp, k: real, floor: Floor, c: real, strength: real, most: real)
    requires 0.0 <= w <= 1.0 && 0.0 <= a <= b <= 1.0 && RampsFit(r, s, k) && Fair(w, a, b, r, s, k, floor, c)
    requires strength == PairStrength(w, b) && most == k * strength
    ensures PairExcess(w, a, r, s, c) <= PairExcess(w, b, r, s, c) + most
  {
    hide Fits, Loss, Parabola, Excess, Overtaking, Fading, Min, Floor.Bears;
    var d, e, g, z := r.hi - r.lo, s.lo - r.lo, s.hi - s.lo, c - r.lo;
    var u, v', u', v := Min(w, 1.0 - a), Min(w, a), Min(w, 1.0 - b), Min(w, b);
    MovesFit(w, a, b, u, u', v, v');
    MovesOvertake(w, a, b, e, k, z, u, u', v, v');
    MovesFade(w, a, b, d, k, floor, z, u, u', v, v');
    LossBound(d, e, g, k, floor, z, u, u - u', v, v - v', strength);
    LossIsExcess(d, e, g, z, u, u - u', v, v - v', u', v');
    ExcessForm(u, r, c, -z, d);
    ExcessForm(u', r, c, -z, d);
    ExcessForm(v, s, c, e - z, g);
    ExcessForm(v', s, c, e - z, g);
    var loss := Loss(d, e, g, z, u, u - u', v, v - v');
    assert loss <= most;
    assert loss == Excess(u, r, c) - Excess(u', r, c) + Excess(v', s, c) - Excess(v, s, c);
  }

  /** Above the cap of `Fair`, a pair that gets stronger loses at most as much more as its strength lies above it. */
  lemma PairOverrun(
    w: real, a: real, b: real, r: Ramp, s: Ramp, k: real, floor: Floor, c: real, most: real, over: real)
    requires 0.0 <= w <= 1.0 && 0.0 <= a <= b <= 1.0 && RampsFit(r, s, k) && s.lo + 2.0 * k <= c
    requires PairStrength(w, b) < PairStrength(w, a) ==> Fair(w, a, b, r, s, k, floor, c)
    requires most == k * PairStrength(w, b) && over == (c - (s.lo + 2.0 * k)) * PairStrength(w, a)
    ensures PairExcess(w, a, r, s, c) <= PairExcess(w, b, r, s, c) + most + over
  {
    hide RampsFit, PairExcess, Floor.Bears, PairStrength;
    var cap := s.lo + 2.0 * k;
    var x, y := PairStrength(w, a), PairStrength(w, b);
    StrengthMoves(w, a, b);
    StrengthMoves(w, b, b);
    Nonnegative(c - cap, x);
    if y <= x {
      PairLoss(w, a, b, r, s, k, floor, c, y, most);
    } else {
      PairLoss(w, a, b, r, s, k, floor, cap, y, most);
      PairExcessShift(w, a, r, s, c, cap);
      PairExcessShift(w, b, r, s, c, cap);
      Overrun(c - cap, x, y, over);
    }
  }

  lemma Overrun(t: real, x: real, y: real, over: real)
    requires 0.0 <= t && y <= 2.0 * x && over == t * x
    ensures t * y - t * x <= over
  {
    Nonnegative(t, 2.0 * x - y);
    assert t * (2.0 * x - y) == 2.0 * over - t * y;
  }

  lemma PairExcessShift(w: real, a: real, r: Ramp, s: Ramp, c: real, c': real)
    ensures PairExcess(w, a, r, s, c) == PairExcess(w, a, r, s, c') - (c - c') * PairStrength(w, a)
  {
    hide Min, Weighted;
  }

  predicate Moves(w: real, a: real, b: real, u: real, u': real, v: real, v': real) {
    && 0.0 <= w <= 1.0 && 0.0 <= a <= b <= 1.0
    && u == Min(w, 1.0 - a) && v' == Min(w, a) && u' == Min(w, 1.0 - b) && v == Min(w, b)
  }

  lemma MovesFit(w: real, a: real, b: real, u: real, u': real, v: real, v': real)
    requires Moves(w, a, b, u, u', v, v')
    ensures 0.0 <= u - u' <= u && u - u' <= v <= 1.0 && 0.0 <= v - v' <= v && u + v - 1.0 <= v - v' && u' + v <= 1.0
  {
  }

  lemma MovesOvertake(
    w: real, a: real, b: real, e: real, k: real, c: real, u: real, u': real, v: real, v': real)
    requires Moves(w, a, b, u, u', v, v') && (u + v' < u' + v ==> c <= e + 2.0 * k)
    ensures Overtaking(e, k, c, u, u - u', v, v - v')
  {
  }

  lemma MovesFade(
    w: real, a: real, b: real, d: real, k: real, floor: Floor, c: real, u: real, u': real, v: real, v': real)
    requires Moves(w, a, b, u, u', v, v')
    requires u' + v < u + v' ==> floor.Bears(d, k, c) && (w <= floor.h || floor.h == 0.5)
    ensures Fading(d, k, floor, c, u, u - u', v, v - v')
  {
  }

  /** How the strength of a pair moves with its position. */
  lemma StrengthMoves(w: real, a: real, b: real)
    requires 0.0 <= w <= 1.0 && 0.0 <= a <= b <= 1.0
    ensures PairStrength(w, a) < PairStrength(w, b) ==> a < 0.5 && a < w
    ensures PairStrength(w, b) < PairStrength(w, a) ==> 0.5 < b
    ensures w <= PairStrength(w, a) <= 2.0 * w && PairStrength(w, a) <= 1.0
  {
  }
}
