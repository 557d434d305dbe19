/** What the fuzzy score guarantees, over all real inputs. */
module FuzzyScore {
  import opened Common
  import opened FuzzyMembership
  import opened FuzzyRules
  import opened Tsukamoto

  // ----- sums cell by cell -----

  /** A strength times the output it gives on a ramp. */
  function Weighted(alpha: real, r: Ramp): real {
    alpha * Inverse(alpha, r)
  }

  function TermMoment(m: Memberships, c: Cell, p: Level): real {
    Weighted(Strength(m, c, p), RuleRamp(c.t, c.h, p))
  }

  function CellTotal(m: Memberships, c: Cell): real {
    Strength(m, c, Low) + Strength(m, c, Medium) + Strength(m, c, High)
  }

  function CellMoment(m: Memberships, c: Cell): real {
    TermMoment(m, c, Low) + TermMoment(m, c, Medium) + TermMoment(m, c, High)
  }

  function Total(m: Memberships, cells: seq<Cell>): real {
    if cells == [] then 0.0 else Total(m, cells[..|cells| - 1]) + CellTotal(m, cells[|cells| - 1])
  }

  function Moment(m: Memberships, cells: seq<Cell>): real {
    if cells == [] then 0.0 else Moment(m, cells[..|cells| - 1]) + CellMoment(m, cells[|cells| - 1])
  }

  lemma {:induction false} SumsAppend(a: seq<Fired>, b: seq<Fired>)
    ensures SumAlpha(a + b) == SumAlpha(a) + SumAlpha(b) && SumMoment(a + b) == SumMoment(a) + SumMoment(b)
  {
    if b == [] {
      assert a + b == a;
    } else {
      assert (a + b)[..|a + b| - 1] == a + b[..|b| - 1];
      SumsAppend(a, b[..|b| - 1]);
    }
  }

  lemma SumsOfRule(m: Memberships, c: Cell, p: Level)
    ensures SumAlpha(FireRule(m, c, p)) == Strength(m, c, p) && SumMoment(FireRule(m, c, p)) == TermMoment(m, c, p)
  {
  }

  lemma SumsOfTerms(m: Memberships, c: Cell, k: nat)
    requires k < 3
    ensures SumAlpha(FireTerms(m, c, k + 1)) == SumAlpha(FireTerms(m, c, k)) + Strength(m, c, LEVELS[k])
    ensures SumMoment(FireTerms(m, c, k + 1)) == SumMoment(FireTerms(m, c, k)) + TermMoment(m, c, LEVELS[k])
  {
    hide Strength, TermMoment, FireRule, SumAlpha, SumMoment;
    SumsOfRule(m, c, LEVELS[k]);
    SumsAppend(FireTerms(m, c, k), FireRule(m, c, LEVELS[k]));
  }

  lemma SumsOfCell(m: Memberships, c: Cell)
    ensures SumAlpha(FireTerms(m, c, 3)) == CellTotal(m, c) && SumMoment(FireTerms(m, c, 3)) == CellMoment(m, c)
  {
    SumsOfTerms(m, c, 0);
    SumsOfTerms(m, c, 1);
    SumsOfTerms(m, c, 2);
    assert SumAlpha(FireTerms(m, c, 0)) == 0.0 && SumMoment(FireTerms(m, c, 0)) == 0.0;
    hide Strength, TermMoment, FireTerms, SumAlpha, SumMoment;
  }

  lemma {:induction false} SumsOfCells(m: Memberships, cells: seq<Cell>)
    ensures SumAlpha(Fire(m, cells)) == Total(m, cells) && SumMoment(Fire(m, cells)) == Moment(m, cells)
  {
    if cells == [] {
    } else {
      var n := |cells| - 1;
      SumsOfCells(m, cells[..n]);
      SumsOfCell(m, cells[n]);
      SumsAppend(Fire(m, cells[..n]), FireTerms(m, cells[n], 3));
    }
  }

  // ----- how many rules fire -----

  function One(x: real): nat { if x == 0.0 then 0 else 1 }

  lemma FiredInCell(m: Memberships, c: Cell)
    requires m.Valid()
    ensures |FireTerms(m, c, 3)| == One(OfLevel(m.t, c.t)) * One(OfMoisture(m.h, c.h)) * m.p.Nonzero()
  {
    FiredTerms(m, c, 0);
    FiredTerms(m, c, 1);
    FiredTerms(m, c, 2);
  }

  lemma FiredTerms(m: Memberships, c: Cell, k: nat)
    requires m.Valid() && k < 3
    ensures |FireTerms(m, c, k + 1)|
         == |FireTerms(m, c, k)| + One(OfLevel(m.t, c.t)) * One(OfMoisture(m.h, c.h)) * One(OfLevel(m.p, LEVELS[k]))
  {
  }

  function HumCount(h: Three, j: nat): nat
    requires j <= 3
  {
    if j == 0 then 0 else HumCount(h, j - 1) + One(OfMoisture(h, MOISTURES[j - 1]))
  }

  lemma Grow(a: nat, b: nat, c: nat, n: nat)
    ensures a * b * n + a * c * n == a * (b + c) * n
  {
  }

  lemma {:induction false} FiredInRow(m: Memberships, t: Level, j: nat)
    requires m.Valid() && j <= 3
    ensures |Fire(m, Row(t, j))| == One(OfLevel(m.t, t)) * HumCount(m.h, j) * m.p.Nonzero()
  {
    hide Fire, OfLevel, OfMoisture, FireTerms, Three.Nonzero, Memberships.Valid, One;
    if j > 0 {
      var h := MOISTURES[j - 1];
      FiredInRow(m, t, j - 1);
      FiredInCell(m, Cell(t, h));
      RowNext(m, t, j - 1);
      Grow(One(OfLevel(m.t, t)), HumCount(m.h, j - 1), One(OfMoisture(m.h, h)), m.p.Nonzero());
    } else {
      EmptyRow(m, t);
      NoRules(One(OfLevel(m.t, t)), m.p.Nonzero());
    }
  }

  lemma NoRules(a: nat, n: nat)
    ensures a * 0 * n == 0
  {
  }

  lemma HumCountAll(h: Three)
    ensures HumCount(h, 3) == h.Nonzero()
  {
    assert HumCount(h, 1) == One(h.first);
    assert HumCount(h, 2) == One(h.first) + One(h.second);
  }

  /** The number of fired rules is the product of the three supports. */
  lemma FiredInGrid(m: Memberships)
    requires m.Valid()
    ensures |AllFired(m)| == m.t.Nonzero() * m.h.Nonzero() * m.p.Nonzero()
  {
    hide Fire, Row, Grid;
    EmptyGrid(m);
    GridNext(m, 0);
    GridNext(m, 1);
    GridNext(m, 2);
    FiredInRow(m, Low, 3);
    FiredInRow(m, Medium, 3);
    FiredInRow(m, High, 3);
    HumCountAll(m.h);
    assert m.t.Nonzero() == One(m.t.first) + One(m.t.second) + One(m.t.third);
    hide One, HumCount, Three.Nonzero, Memberships.Valid;
    Factor(One(m.t.first), One(m.t.second), One(m.t.third), m.h.Nonzero(), m.p.Nonzero());
  }

  lemma Factor(a: nat, b: nat, c: nat, h: nat, n: nat)
    ensures a * h * n + b * h * n + c * h * n == (a + b + c) * h * n
  {
  }

  // ----- range -----

  /** Every fired rule has a ramp within `lo`..`hi`. */
  predicate FiredWithin(m: Memberships, lo: real, hi: real) {
    forall t, h, p :: Strength(m, Cell(t, h), p) > 0.0 ==> lo <= RuleRamp(t, h, p).lo && RuleRamp(t, h, p).hi <= hi
  }

  /** An output lies on its ramp. */
  lemma OnRamp(alpha: real, r: Ramp)
    requires 0.0 <= alpha <= 1.0 && r.lo <= r.hi
    ensures r.lo <= Inverse(alpha, r) <= r.hi
  {
    var k := r.hi - r.lo;
    Proportion(alpha, k);
    assert Inverse(alpha, r) == r.lo + alpha * k;
  }

  lemma Proportion(a: real, k: real)
    requires 0.0 <= a <= 1.0 && 0.0 <= k
    ensures 0.0 <= a * k <= k
  {
  }

  lemma WeightedWithin(alpha: real, r: Ramp, lo: real, hi: real)
    requires 0.0 <= alpha <= 1.0 && r.lo <= r.hi && (alpha > 0.0 ==> lo <= r.lo && r.hi <= hi)
    ensures lo * alpha <= Weighted(alpha, r) <= hi * alpha
  {
    hide Inverse;
    OnRamp(alpha, r);
    ProductWithin(alpha, Inverse(alpha, r), lo, hi, Weighted(alpha, r));
    hide Weighted;
  }

  lemma ProductWithin(alpha: real, z: real, lo: real, hi: real, product: real)
    requires 0.0 <= alpha && (alpha > 0.0 ==> lo <= z <= hi) && product == alpha * z
    ensures lo * alpha <= product <= hi * alpha
  {
    if alpha > 0.0 {
      CompareScaled(lo, z, alpha);
      CompareScaled(z, hi, alpha);
    }
  }

  lemma RampWithin(m: Memberships, c: Cell, p: Level, lo: real, hi: real)
    requires m.Valid() && FiredWithin(m, lo, hi)
    ensures 0.0 <= Strength(m, c, p) <= 1.0
    ensures Strength(m, c, p) > 0.0 ==> lo <= RuleRamp(c.t, c.h, p).lo && RuleRamp(c.t, c.h, p).hi <= hi
  {
  }

  lemma TermWithin(m: Memberships, c: Cell, p: Level, lo: real, hi: real)
    requires m.Valid() && FiredWithin(m, lo, hi)
    ensures lo * Strength(m, c, p) <= TermMoment(m, c, p) <= hi * Strength(m, c, p)
  {
    hide Strength, Weighted, RuleRamp, FiredWithin, Memberships.Valid;
    RampWithin(m, c, p, lo, hi);
    WeightedWithin(Strength(m, c, p), RuleRamp(c.t, c.h, p), lo, hi);
  }

  lemma {:induction false} SumsWithin(m: Memberships, cells: seq<Cell>, lo: real, hi: real)
    requires m.Valid() && FiredWithin(m, lo, hi)
    ensures lo * Total(m, cells) <= Moment(m, cells) <= hi * Total(m, cells)
  {
    hide FiredWithin, Strength, TermMoment, Memberships.Valid;
    if cells == [] {
    } else {
      var c := cells[|cells| - 1];
      SumsWithin(m, cells[..|cells| - 1], lo, hi);
      TermWithin(m, c, Low, lo, hi);
      TermWithin(m, c, Medium, lo, hi);
      TermWithin(m, c, High, lo, hi);
      Spread(Total(m, cells[..|cells| - 1]), Strength(m, c, Low), Strength(m, c, Medium), Strength(m, c, High), lo);
      Spread(Total(m, cells[..|cells| - 1]), Strength(m, c, Low), Strength(m, c, Medium), Strength(m, c, High), hi);
    }
  }

  lemma Spread(a: real, b: real, c: real, d: real, k: real)
    ensures k * (a + (b + c + d)) == k * a + k * b + k * c + k * d
  {
  }

  lemma {:induction false} TotalNonnegative(m: Memberships, cells: seq<Cell>)
    requires m.Valid()
    ensures 0.0 <= Total(m, cells)
    ensures forall c, p :: c in cells ==> Strength(m, c, p) <= Total(m, cells)
  {
    if cells == [] {
    } else {
      var d, rest := cells[|cells| - 1], cells[..|cells| - 1];
      TotalNonnegative(m, rest);
      StrengthZero(m, d, Low);
      StrengthZero(m, d, Medium);
      StrengthZero(m, d, High);
      hide Strength;
      forall c, p | c in cells ensures Strength(m, c, p) <= Total(m, cells) {
        assert c == d || c in rest;
        match p case Low => {} case Medium => {} case High => {}
      }
    }
  }

  lemma GridHasEveryCell(c: Cell)
    ensures c in Grid(3)
  {
    var i := match c.t case Low => 0 case Medium => 1 case High => 2;
    var j := match c.h case Dry => 0 case Humid => 1 case Wet => 2;
    InGrid(c.t, c.h, i, j);
  }

  lemma InGrid(t: Level, h: Moisture, i: nat, j: nat)
    requires i < 3 && j < 3 && LEVELS[i] == t && MOISTURES[j] == h
    ensures Cell(t, h) in Grid(3)
  {
  }

  /** Some rule fires, so the total strength is positive and the fallback score is never used. */
  lemma FallbackUnreachable(m: Memberships)
    requires m.Valid()
    ensures SumAlpha(AllFired(m)) > 0.0 && 1 <= |AllFired(m)| <= 8
    ensures Score(m) * Total(m, Grid(3)) == Moment(m, Grid(3)) && Total(m, Grid(3)) > 0.0
  {
    hide Fire, Grid, Total, Moment, Strength, SumAlpha, SumMoment;
    FiredInGrid(m);
    OneOrTwoTerms(m.t);
    OneOrTwoTerms(m.h);
    OneOrTwoTerms(m.p);
    SmallProduct(m.t.Nonzero(), m.h.Nonzero(), m.p.Nonzero());
    var c := Cell(SomeLevel(m.t), SomeMoisture(m.h));
    GridHasEveryCell(c);
    StrengthZero(m, c, SomeLevel(m.p));
    TotalNonnegative(m, Grid(3));
    SumsOfCells(m, Grid(3));
    hide Three.Nonzero, Memberships.Valid, OfLevel, OfMoisture;
    Divide(Moment(m, Grid(3)), Total(m, Grid(3)));
  }

  lemma SmallProduct(a: nat, b: nat, c: nat)
    requires 1 <= a <= 2 && 1 <= b <= 2 && 1 <= c <= 2
    ensures 1 <= a * b * c <= 8
  {
  }

  lemma Divide(n: real, d: real)
    requires d > 0.0
    ensures n / d * d == n
  {
  }

  function SomeLevel(mu: Three): (l: Level)
    requires mu.Partition()
    ensures OfLevel(mu, l) > 0.0
  {
    if mu.first > 0.0 then Low else if mu.second > 0.0 then Medium else High
  }

  function SomeMoisture(mu: Three): (l: Moisture)
    requires mu.Partition()
    ensures OfMoisture(mu, l) > 0.0
  {
    if mu.first > 0.0 then Dry else if mu.second > 0.0 then Humid else Wet
  }

  /** The score lies between the smallest floor and the largest top of the fired ramps. */
  lemma ScoreWithinFiredRamps(m: Memberships, lo: real, hi: real)
    requires m.Valid() && FiredWithin(m, lo, hi)
    ensures lo <= Score(m) <= hi
  {
    hide Score, FiredWithin, Memberships.Valid, Total, Moment, Grid, AllFired, SumAlpha, Strength;
    FallbackUnreachable(m);
    SumsWithin(m, Grid(3), lo, hi);
    Squeeze(Score(m), Total(m, Grid(3)), Moment(m, Grid(3)), lo, hi);
  }

  lemma Squeeze(s: real, d: real, n: real, lo: real, hi: real)
    requires 0.0 < d && s * d == n && lo * d <= n <= hi * d
    ensures lo <= s <= hi
  {
  }

  lemma ScoreInRange(m: Memberships)
    requires m.Valid()
    ensures 0.0 <= Score(m) <= 100.0
  {
    hide RuleRamp, Score, Strength;
    ScoreWithinFiredRamps(m, 0.0, 100.0);
  }

  lemma RoundingKeepsOrder(x: real, y: real)
    ensures x <= y ==> RoundHalfEven(x) <= RoundHalfEven(y)
    ensures x - 0.5 <= RoundHalfEven(x) as real <= x + 0.5
  {
  }

  /** A tie goes to the even neighbour. */
  lemma TiesGoToEven(n: int)
    ensures RoundHalfEven(n as real + 0.5) == if n % 2 == 0 then n else n + 1
  {
    assert (n as real + 0.5).Floor == n;
  }

  lemma RoundingIsMonotone(x: real, y: real)
    ensures x <= y ==> Round2(x) <= Round2(y)
    ensures x - 0.005 <= Round2(x) <= x + 0.005
  {
    RoundingKeepsOrder(x * 100.0, y * 100.0);
    hide RoundHalfEven;
  }

  /** A fall by at most 2500/280 shows as one by at most 8.93. */
  lemma RoundedFall(x: real, y: real)
    requires x - 2500.0 / 280.0 <= y
    ensures Round2(x) - 8.93 <= Round2(y)
  {
    RoundingKeepsOrder(x * 100.0, x * 100.0);
    RoundingKeepsOrder(y * 100.0, y * 100.0);
    var m, n := RoundHalfEven(x * 100.0), RoundHalfEven(y * 100.0);
    hide RoundHalfEven;
    assert m as real - n as real < 894.0;
    assert m - n <= 893;
  }

  lemma RoundingInRange(x: real)
    requires 0.0 <= x <= 100.0
    ensures 0.0 <= Round2(x) <= 100.0
  {
  }

  /** Whatever the sensors report, an inference that is not rejected fires 1 to 8 rules and scores within 0..100. */
  lemma InferenceInRange(t: Measurement, h: Measurement, p: Measurement)
    ensures Infer(t, h, p).Inferred? <==> t.Value? && h.Value? && p.Value?
    ensures Infer(t, h, p).Inferred? ==>
              0.0 <= Infer(t, h, p).score <= 100.0 && 1 <= Infer(t, h, p).rulesFired <= 8
  {
    if Infer(t, h, p).Inferred? {
      var m := Graded(t.c, h.c, p.c);
      ValidGrades(t.c, h.c, p.c);
      FallbackUnreachable(m);
      ScoreInRange(m);
      RoundingInRange(Score(m));
      hide Memberships.Valid, Score, AllFired, Graded, Round2, Total, Moment, SumAlpha;
    }
  }
}
