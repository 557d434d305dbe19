/** Tsukamoto inference: the fired rules, their crisp outputs and the weighted average. */
module Tsukamoto {
  import opened Common
  import opened FuzzyMembership
  import opened FuzzyRules

  const LEVELS: seq<Level> := [Low, Medium, High]
  const MOISTURES: seq<Moisture> := [Dry, Humid, Wet]

  const DEFAULT_SCORE := 20.0

  datatype Memberships = Memberships(t: Three, h: Three, p: Three) {
    predicate Valid() { t.Partition() && h.Partition() && p.Partition() }
  }

  datatype Cell = Cell(t: Level, h: Moisture)

  /** A fired rule: its strength and its crisp output. */
  datatype Fired = Fired(alpha: real, z: real)

  function Min(a: real, b: real): real { if b < a then b else a }

  function Strength(m: Memberships, c: Cell, p: Level): real {
    Min(Min(OfLevel(m.t, c.t), OfMoisture(m.h, c.h)), OfLevel(m.p, p))
  }

  function Inverse(alpha: real, r: Ramp): real {
    r.lo + alpha * (r.hi - r.lo)
  }

  function FireRule(m: Memberships, c: Cell, p: Level): seq<Fired> {
    var alpha := Strength(m, c, p);
    if alpha == 0.0 then [] else [Fired(alpha, Inverse(alpha, RuleRamp(c.t, c.h, p)))]
  }

  /** The rules one temperature and humidity term fire with the first `k` PM2.5 terms. */
  function FireTerms(m: Memberships, c: Cell, k: nat): seq<Fired>
    requires k <= 3
  {
    if k == 0 then [] else FireTerms(m, c, k - 1) + FireRule(m, c, LEVELS[k - 1])
  }

  function Fire(m: Memberships, cells: seq<Cell>): seq<Fired> {
    if cells == [] then [] else Fire(m, cells[..|cells| - 1]) + FireTerms(m, cells[|cells| - 1], 3)
  }

  function Row(t: Level, j: nat): seq<Cell>
    requires j <= 3
  {
    if j == 0 then [] else Row(t, j - 1) + [Cell(t, MOISTURES[j - 1])]
  }

  function Grid(i: nat): seq<Cell>
    requires i <= 3
  {
    if i == 0 then [] else Grid(i - 1) + Row(LEVELS[i - 1], 3)
  }

  function SumAlpha(fired: seq<Fired>): real {
    if fired == [] then 0.0 else SumAlpha(fired[..|fired| - 1]) + fired[|fired| - 1].alpha
  }

  function SumMoment(fired: seq<Fired>): real {
    if fired == [] then 0.0
    else SumMoment(fired[..|fired| - 1]) + fired[|fired| - 1].alpha * fired[|fired| - 1].z
  }

  function Average(fired: seq<Fired>): real {
    if SumAlpha(fired) == 0.0 then DEFAULT_SCORE else SumMoment(fired) / SumAlpha(fired)
  }

  function AllFired(m: Memberships): seq<Fired> { Fire(m, Grid(3)) }

  /** The score before rounding. */
  function Score(m: Memberships): real { Average(AllFired(m)) }

  /** The nearest integer, a tie going to the even one. */
  function RoundHalfEven(x: real): int {
    var n := x.Floor;
    var rest := x - n as real;
    if rest < 0.5 || (rest == 0.5 && n % 2 == 0) then n else n + 1
  }

  function Round2(x: real): real {
    RoundHalfEven(x * 100.0) as real / 100.0
  }

  function Graded(t: real, h: real, p: real): Memberships {
    Memberships(Temperature(t), Humidity(h), Pm(p))
  }

  /** An inference: rejected with the name of the first unusable input, or a score and the number of rules. */
  datatype Outcome = Rejected(name: string) | Inferred(score: real, rulesFired: nat)

  function Infer(t: Measurement, h: Measurement, p: Measurement): Outcome {
    if !t.Value? then Rejected("temperature")
    else if !h.Value? then Rejected("humidity")
    else if !p.Value? then Rejected("pm25")
    else var m := Graded(t.c, h.c, p.c); Inferred(Round2(Score(m)), |AllFired(m)|)
  }

  // ----- the loops that collect the fired rules -----

  lemma {:induction false} FireAppend(m: Memberships, a: seq<Cell>, b: seq<Cell>)
    ensures Fire(m, a + b) == Fire(m, a) + Fire(m, b)
  {
    if b == [] {
      assert a + b == a;
    } else {
      var n := |b| - 1;
      assert (a + b)[..|a| + n] == a + b[..n];
      FireAppend(m, a, b[..n]);
    }
  }

  lemma RowNext(m: Memberships, t: Level, j: nat)
    requires j < 3
    ensures Fire(m, Row(t, j + 1)) == Fire(m, Row(t, j)) + FireTerms(m, Cell(t, MOISTURES[j]), 3)
  {
  }

  lemma GridNext(m: Memberships, i: nat)
    requires i < 3
    ensures Fire(m, Grid(i + 1)) == Fire(m, Grid(i)) + Fire(m, Row(LEVELS[i], 3))
  {
    FireAppend(m, Grid(i), Row(LEVELS[i], 3));
  }

  /** Every factor of a strength can make it zero; for nonzero factors it is not zero. */
  lemma StrengthZero(m: Memberships, c: Cell, p: Level)
    requires m.Valid()
    ensures Strength(m, c, p) >= 0.0
    ensures Strength(m, c, p) == 0.0 <==>
              OfLevel(m.t, c.t) == 0.0 || OfMoisture(m.h, c.h) == 0.0 || OfLevel(m.p, p) == 0.0
  {
  }

  lemma SkippedCell(m: Memberships, c: Cell)
    requires m.Valid() && (OfLevel(m.t, c.t) == 0.0 || OfMoisture(m.h, c.h) == 0.0)
    ensures FireTerms(m, c, 3) == []
  {
    StrengthZero(m, c, Low);
    StrengthZero(m, c, Medium);
    StrengthZero(m, c, High);
    assert FireTerms(m, c, 2) == FireTerms(m, c, 1) + FireRule(m, c, Medium);
  }

  lemma {:induction false} SkippedRow(m: Memberships, t: Level, j: nat)
    requires m.Valid() && OfLevel(m.t, t) == 0.0 && j <= 3
    ensures Fire(m, Row(t, j)) == []
  {
    if j == 0 {
    } else {
      SkippedRow(m, t, j - 1);
      SkippedCell(m, Cell(t, MOISTURES[j - 1]));
      RowNext(m, t, j - 1);
    }
  }

  lemma ValidGrades(t: real, h: real, p: real)
    ensures Graded(t, h, p).Valid()
  {
  }

  method FiredRules(m: Memberships) returns (fired: seq<Fired>)
    requires m.Valid()
    ensures fired == AllFired(m)
  {
    hide Fire, Row, Grid, Min, OfLevel, OfMoisture, Inverse, RuleRamp, Memberships.Valid;
    fired := [];
    EmptyGrid(m);
    for i := 0 to 3
      invariant fired == Fire(m, Grid(i))
    {
      var t := LEVELS[i];
      ghost var before := fired;
      GridNext(m, i);
      if OfLevel(m.t, t) == 0.0 {
        SkippedRow(m, t, 3);
        continue;
      }
      EmptyRow(m, t);
      for j := 0 to 3
        invariant fired == before + Fire(m, Row(t, j))
      {
        var h := MOISTURES[j];
        RowNext(m, t, j);
        if OfMoisture(m.h, h) == 0.0 {
          SkippedCell(m, Cell(t, h));
          continue;
        }
        ghost var start := fired;
        for k := 0 to 3
          invariant fired == start + FireTerms(m, Cell(t, h), k)
        {
          var p := LEVELS[k];
          if OfLevel(m.p, p) == 0.0 {
            StrengthZero(m, Cell(t, h), p);
            continue;
          }
          var alpha := Min(Min(OfLevel(m.t, t), OfMoisture(m.h, h)), OfLevel(m.p, p));
          if alpha == 0.0 {
            continue;
          }
          fired := fired + [Fired(alpha, Inverse(alpha, RuleRamp(t, h, p)))];
        }
        assert start + FireTerms(m, Cell(t, h), 3) == before + (Fire(m, Row(t, j)) + FireTerms(m, Cell(t, h), 3));
      }
    }
  }

  lemma EmptyGrid(m: Memberships)
    ensures Fire(m, Grid(0)) == []
  {
  }

  lemma EmptyRow(m: Memberships, t: Level)
    ensures Fire(m, Row(t, 0)) == []
  {
  }

  method WeightedAverage(fired: seq<Fired>) returns (r: real)
    ensures r == Average(fired)
    ensures SumAlpha(fired) == 0.0 ==> r == 20.0
    ensures SumAlpha(fired) != 0.0 ==> r == SumMoment(fired) / SumAlpha(fired)
  {
    var alphas, moments := 0.0, 0.0;
    for i := 0 to |fired|
      invariant alphas == SumAlpha(fired[..i]) && moments == SumMoment(fired[..i])
    {
      assert fired[..i + 1][..i] == fired[..i];
      alphas := alphas + fired[i].alpha;
      moments := moments + fired[i].alpha * fired[i].z;
    }
    assert fired[..|fired|] == fired;
    return if alphas == 0.0 then DEFAULT_SCORE else moments / alphas;
  }

  /** `infer`. */
  method InferScore(t: Measurement, h: Measurement, p: Measurement) returns (r: Outcome)
    ensures r == Infer(t, h, p)
    ensures !t.Value? ==> r == Rejected("temperature")
    ensures t.Value? && !h.Value? ==> r == Rejected("humidity")
    ensures t.Value? && h.Value? && !p.Value? ==> r == Rejected("pm25")
    ensures t.Value? && h.Value? && p.Value? ==>
              var m := Graded(t.c, h.c, p.c); r == Inferred(Round2(Score(m)), |AllFired(m)|)
  {
    if !t.Value? { return Rejected("temperature"); }
    if !h.Value? { return Rejected("humidity"); }
    if !p.Value? { return Rejected("pm25"); }
    var m := Graded(t.c, h.c, p.c);
    ValidGrades(t.c, h.c, p.c);
    var fired := FiredRules(m);
    var score := WeightedAverage(fired);
    return Inferred(Round2(score), |fired|);
  }
}
