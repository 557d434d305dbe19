/** How the fuzzy score follows PM2.5: ordered across plateaus, with a bounded dip on the ramps between them. */
module FuzzyOrder {
  import opened FuzzyMembership
  import opened FuzzyRules
  import opened Tsukamoto
  import opened FuzzyScore

  // ----- plateaus -----

  /** One PM2.5 term holds fully and the others not at all. */
  predicate OnPlateau(m: Memberships, q: Level) {
    m.Valid() && forall p :: OfLevel(m.p, p) == if p == q then 1.0 else 0.0
  }

  function Pair(m: Memberships, c: Cell): real {
    Min(OfLevel(m.t, c.t), OfMoisture(m.h, c.h))
  }

  lemma PlateauStrength(m: Memberships, c: Cell, q: Level, p: Level)
    requires OnPlateau(m, q)
    ensures 0.0 <= Pair(m, c) <= 1.0 && Strength(m, c, p) == if p == q then Pair(m, c) else 0.0
  {
  }

  lemma WeightedZero(r: Ramp)
    ensures Weighted(0.0, r) == 0.0
  {
  }

  lemma PlateauCell(m: Memberships, c: Cell, q: Level)
    requires OnPlateau(m, q)
    ensures CellTotal(m, c) == Pair(m, c) && CellMoment(m, c) == Weighted(Pair(m, c), RuleRamp(c.t, c.h, q))
    ensures 0.0 <= Pair(m, c) <= 1.0
  {
    hide OnPlateau, Strength, Pair, Weighted, RuleRamp;
    PlateauStrength(m, c, q, Low);
    PlateauStrength(m, c, q, Medium);
    PlateauStrength(m, c, q, High);
    WeightedZero(RuleRamp(c.t, c.h, Low));
    WeightedZero(RuleRamp(c.t, c.h, Medium));
    WeightedZero(RuleRamp(c.t, c.h, High));
    match q case Low => {} case Medium => {} case High => {}
  }

  /** A higher ramp gives a higher weighted output at the same strength. */
  lemma WeightedRises(alpha: real, r: Ramp, s: Ramp)
    requires 0.0 <= alpha <= 1.0 && Below(r, s)
    ensures Weighted(alpha, r) <= Weighted(alpha, s)
  {
    InverseRises(alpha, r, s);
    var x, y := Inverse(alpha, r), Inverse(alpha, s);
    assert Weighted(alpha, r) == alpha * x && Weighted(alpha, s) == alpha * y;
    hide Weighted, Inverse;
    if alpha > 0.0 { CompareScaled(x, y, alpha); }
  }

  lemma InverseRises(alpha: real, r: Ramp, s: Ramp)
    requires 0.0 <= alpha <= 1.0 && Below(r, s)
    ensures Inverse(alpha, r) <= Inverse(alpha, s)
  {
    var dlo, dhi := s.lo - r.lo, s.hi - r.hi;
    var beta := 1.0 - alpha;
    assert beta * dlo >= 0.0;
    assert alpha * dhi >= 0.0;
    assert Inverse(alpha, s) - Inverse(alpha, r) == beta * dlo + alpha * dhi;
  }

  /** Two inputs with the same climate, on plateaus whose ramps are ordered everywhere. */
  predicate Ordered(m: Memberships, q: Level, n: Memberships, r: Level) {
    && OnPlateau(m, q) && OnPlateau(n, r) && m.t == n.t && m.h == n.h
    && forall t, h :: Below(RuleRamp(t, h, q), RuleRamp(t, h, r))
  }

  lemma PlateauCells(m: Memberships, q: Level, n: Memberships, r: Level, c: Cell)
    requires Ordered(m, q, n, r)
    ensures CellTotal(m, c) == CellTotal(n, c) && CellMoment(m, c) <= CellMoment(n, c)
  {
    PlateauCell(m, c, q);
    PlateauCell(n, c, r);
    hide CellTotal, CellMoment, RuleRamp, OnPlateau;
    WeightedRises(Pair(m, c), RuleRamp(c.t, c.h, q), RuleRamp(c.t, c.h, r));
  }

  lemma {:induction false} PlateauSums(m: Memberships, q: Level, n: Memberships, r: Level, cells: seq<Cell>)
    requires Ordered(m, q, n, r)
    ensures Total(m, cells) == Total(n, cells) && Moment(m, cells) <= Moment(n, cells)
  {
    hide Ordered, CellTotal, CellMoment;
    if cells == [] {
    } else {
      PlateauSums(m, q, n, r, cells[..|cells| - 1]);
      PlateauCells(m, q, n, r, cells[|cells| - 1]);
    }
  }

  lemma OrderedInputsValid(m: Memberships, q: Level, n: Memberships, r: Level)
    requires Ordered(m, q, n, r)
    ensures m.Valid() && n.Valid()
  {
  }

  lemma PlateauScores(m: Memberships, q: Level, n: Memberships, r: Level)
    requires Ordered(m, q, n, r)
    ensures Score(m) <= Score(n)
  {
    hide Ordered, Score, Total, Moment, Grid, Memberships.Valid, AllFired, SumAlpha;
    OrderedInputsValid(m, q, n, r);
    PlateauSums(m, q, n, r, Grid(3));
    FallbackUnreachable(m);
    FallbackUnreachable(n);
    Quotients(Score(m), Score(n), Total(m, Grid(3)), Total(n, Grid(3)), Moment(m, Grid(3)), Moment(n, Grid(3)));
  }

  lemma Quotients(x: real, y: real, d: real, e: real, a: real, b: real)
    requires 0.0 < d == e && x * d == a && y * e == b && a <= b
    ensures x <= y
  {
  }

  lemma Plateaus(t: real, h: real, p: real)
    ensures p <= 50.0 ==> OnPlateau(Graded(t, h, p), Low)
    ensures 100.0 <= p <= 200.0 ==> OnPlateau(Graded(t, h, p), Medium)
    ensures 300.0 <= p ==> OnPlateau(Graded(t, h, p), High)
  {
  }

  lemma OrderedPlateaus(t: real, h: real, p: real, q: Level, p': real, q': Level)
    requires OnPlateau(Graded(t, h, p), q) && OnPlateau(Graded(t, h, p'), q')
    requires (q.Low? && q'.Medium?) || (q.Medium? && q'.High?)
    ensures Ordered(Graded(t, h, p), q, Graded(t, h, p'), q')
  {
  }

  /** At every temperature and humidity, the scores of the three PM2.5 plateaus are ordered. */
  lemma ScoreOrdering(t: real, h: real, p1: real, p2: real, p3: real)
    requires p1 <= 50.0 && 100.0 <= p2 <= 200.0 && 300.0 <= p3
    ensures Score(Graded(t, h, p1)) <= Score(Graded(t, h, p2)) <= Score(Graded(t, h, p3))
    ensures Round2(Score(Graded(t, h, p1))) <= Round2(Score(Graded(t, h, p2))) <= Round2(Score(Graded(t, h, p3)))
  {
    hide OnPlateau, Graded, Ordered, Score, Round2;
    Plateaus(t, h, p1);
    Plateaus(t, h, p2);
    Plateaus(t, h, p3);
    OrderedPlateaus(t, h, p1, Low, p2, Medium);
    OrderedPlateaus(t, h, p2, Medium, p3, High);
    PlateauScores(Graded(t, h, p1), Low, Graded(t, h, p2), Medium);
    PlateauScores(Graded(t, h, p2), Medium, Graded(t, h, p3), High);
    RoundingIsMonotone(Score(Graded(t, h, p1)), Score(Graded(t, h, p2)));
    RoundingIsMonotone(Score(Graded(t, h, p2)), Score(Graded(t, h, p3)));
  }

  // ----- between plateaus, where one temperature and one humidity term hold fully -----

  predicate Settled(m: Memberships, c: Cell) {
    m.Valid() && OfLevel(m.t, c.t) == 1.0 && OfMoisture(m.h, c.h) == 1.0
  }

  function Profile(p: Three, c: Cell): real {
    Weighted(p.first, RuleRamp(c.t, c.h, Low)) + Weighted(p.second, RuleRamp(c.t, c.h, Medium))
    + Weighted(p.third, RuleRamp(c.t, c.h, High))
  }

  lemma SettledStrength(m: Memberships, c: Cell, d: Cell, p: Level)
    requires Settled(m, c)
    ensures Strength(m, d, p) == if c == d then OfLevel(m.p, p) else 0.0
  {
    StrengthZero(m, d, p);
    if c.t != d.t { OtherLevel(m.t, c.t, d.t); }
    if c.h != d.h { OtherMoisture(m.h, c.h, d.h); }
    if c == d { StrengthOfOne(m, c, p); }
    hide Strength, OfLevel, OfMoisture;
  }

  lemma OtherLevel(mu: Three, l: Level, l': Level)
    requires mu.Partition() && OfLevel(mu, l) == 1.0 && l != l'
    ensures OfLevel(mu, l') == 0.0
  {
  }

  lemma OtherMoisture(mu: Three, l: Moisture, l': Moisture)
    requires mu.Partition() && OfMoisture(mu, l) == 1.0 && l != l'
    ensures OfMoisture(mu, l') == 0.0
  {
  }

  lemma StrengthOfOne(m: Memberships, c: Cell, p: Level)
    requires Settled(m, c)
    ensures Strength(m, c, p) == OfLevel(m.p, p)
  {
  }

  lemma SettledCell(m: Memberships, c: Cell, d: Cell)
    requires Settled(m, c)
    ensures CellTotal(m, d) == if c == d then 1.0 else 0.0
    ensures CellMoment(m, d) == if c == d then Profile(m.p, c) else 0.0
  {
    hide Strength, Weighted, RuleRamp;
    SettledStrength(m, c, d, Low);
    SettledStrength(m, c, d, Medium);
    SettledStrength(m, c, d, High);
    WeightedZero(RuleRamp(d.t, d.h, Low));
    WeightedZero(RuleRamp(d.t, d.h, Medium));
    WeightedZero(RuleRamp(d.t, d.h, High));
  }

  lemma {:induction false} TotalsAppend(m: Memberships, a: seq<Cell>, b: seq<Cell>)
    ensures Total(m, a + b) == Total(m, a) + Total(m, b) && Moment(m, a + b) == Moment(m, a) + Moment(m, b)
  {
    hide CellTotal, CellMoment;
    if b == [] {
      assert a + b == a;
    } else {
      assert (a + b)[..|a + b| - 1] == a + b[..|b| - 1];
      TotalsAppend(m, a, b[..|b| - 1]);
    }
  }

  lemma RowTotals(m: Memberships, t: Level, j: nat)
    requires j < 3
    ensures Total(m, Row(t, j + 1)) == Total(m, Row(t, j)) + CellTotal(m, Cell(t, MOISTURES[j]))
    ensures Moment(m, Row(t, j + 1)) == Moment(m, Row(t, j)) + CellMoment(m, Cell(t, MOISTURES[j]))
    ensures Total(m, Row(t, 0)) == 0.0 && Moment(m, Row(t, 0)) == 0.0
  {
  }

  /** Of a row, only the settled cell contributes. */
  lemma SettledRow(m: Memberships, c: Cell, t: Level)
    requires Settled(m, c)
    ensures Total(m, Row(t, 3)) == if t == c.t then 1.0 else 0.0
    ensures Moment(m, Row(t, 3)) == if t == c.t then Profile(m.p, c) else 0.0
  {
    hide Settled, Profile, Row, Total, Moment, CellTotal, CellMoment;
    RowTotals(m, t, 0);
    RowTotals(m, t, 1);
    RowTotals(m, t, 2);
    SettledCell(m, c, Cell(t, Dry));
    SettledCell(m, c, Cell(t, Humid));
    SettledCell(m, c, Cell(t, Wet));
    match c.h case Dry => {} case Humid => {} case Wet => {}
  }

  lemma SettledTotals(m: Memberships, c: Cell)
    requires Settled(m, c)
    ensures Total(m, Grid(3)) == 1.0 && Moment(m, Grid(3)) == Profile(m.p, c)
  {
    hide Settled, Profile, Row, Grid, Total, Moment;
    SettledRow(m, c, Low);
    SettledRow(m, c, Medium);
    SettledRow(m, c, High);
    EmptyTotals(m);
    GridTotals(m, 0);
    GridTotals(m, 1);
    GridTotals(m, 2);
    match c.t case Low => {} case Medium => {} case High => {}
  }

  lemma GridTotals(m: Memberships, i: nat)
    requires i < 3
    ensures Total(m, Grid(i + 1)) == Total(m, Grid(i)) + Total(m, Row(LEVELS[i], 3))
    ensures Moment(m, Grid(i + 1)) == Moment(m, Grid(i)) + Moment(m, Row(LEVELS[i], 3))
  {
    TotalsAppend(m, Grid(i), Row(LEVELS[i], 3));
  }

  /** Only the settled cell's three rules matter. */
  lemma SettledScore(m: Memberships, c: Cell)
    requires Settled(m, c)
    ensures Score(m) == Profile(m.p, c)
  {
    SettledTotals(m, c);
    hide Settled, Profile, Score, Total, Moment, Grid;
    ScoreOfUnitTotal(m);
  }

  lemma ScoreOfUnitTotal(m: Memberships)
    requires Total(m, Grid(3)) == 1.0
    ensures Score(m) == Moment(m, Grid(3))
  {
    hide Total, Moment, Grid, SumAlpha, SumMoment, Fire;
    SumsOfCells(m, Grid(3));
    Whole(SumMoment(AllFired(m)), SumAlpha(AllFired(m)));
  }

  lemma Whole(n: real, d: real)
    requires d == 1.0
    ensures n / d == n
  {
  }

  lemma EmptyTotals(m: Memberships)
    ensures Total(m, Grid(0)) == 0.0 && Moment(m, Grid(0)) == 0.0
  {
  }

  /** The score while one term gives way to the next. */
  function Mix(a: real, r: Ramp, s: Ramp): real {
    Weighted(1.0 - a, r) + Weighted(a, s)
  }

  function Curve(r: Ramp, s: Ramp): real { (r.hi - r.lo) + (s.hi - s.lo) }
  function Fall(r: Ramp, s: Ramp): real { r.hi + (r.hi - r.lo) - s.lo }

  /** Neighbouring consequents: the tops rise, and the second one starts low enough for the score to dip at first. */
  predicate Dips(r: Ramp, s: Ramp) {
    r.lo < r.hi <= s.hi && s.lo < s.hi && 0.0 <= Fall(r, s) <= 2.0 * Curve(r, s)
  }

  function Dip(r: Ramp, s: Ramp): real
    requires Dips(r, s)
  {
    Fall(r, s) * Fall(r, s) / (4.0 * Curve(r, s))
  }

  /** How far the score has moved from the first plateau. */
  function Bump(a: real, k: real, f: real): real { a * (k * a - f) }

  lemma MixForm(a: real, r: Ramp, s: Ramp)
    ensures Mix(a, r, s) == r.hi + Bump(a, Curve(r, s), Fall(r, s))
  {
  }

  lemma BumpAbove(a: real, k: real, f: real)
    requires k > 0.0
    ensures Bump(a, k, f) >= -(f * f / (4.0 * k)) && f * f / (4.0 * k) >= 0.0
  {
    var v := f / (2.0 * k);
    assert v * (2.0 * k) == f;
    var w := a - v;
    assert k * (w * w) >= 0.0 && k * (v * v) >= 0.0;
    assert k * (w * w) == a * (k * a - f) + k * (v * v);
    VertexSquare(f, k, v);
  }

  lemma VertexSquare(f: real, k: real, v: real)
    requires k > 0.0 && f == v * (2.0 * k)
    ensures f * f / (4.0 * k) == k * (v * v)
  {
  }

  lemma BumpBelow(a: real, k: real, f: real)
    requires 0.0 <= a <= 1.0 && 0.0 <= k && f <= k
    ensures Bump(a, k, f) <= k - f
  {
    var down := a * k;
    Proportion(a, k);
    ScaledBelow(a, down - f, k - f);
    assert Bump(a, k, f) == a * (down - f);
  }

  lemma ScaledBelow(a: real, x: real, y: real)
    requires 0.0 <= a <= 1.0 && x <= y && 0.0 <= y
    ensures a * x <= y
  {
    CompareScaledLeft(a, x, y);
    Proportion(a, y);
    var p, q := a * x, a * y;
    assert p <= q <= y;
  }

  lemma CompareScaledLeft(a: real, x: real, y: real)
    requires 0.0 <= a && x <= y
    ensures a * x <= a * y
  {
  }

  /** Once below its start the bump stays there or rises. */
  lemma BumpRises(a: real, b: real, k: real, f: real)
    requires 0.0 <= a <= b && 0.0 <= k
    ensures Bump(a, k, f) <= 0.0 || Bump(a, k, f) <= Bump(b, k, f)
  {
    var x, y := k * a - f, k * b - f;
    assert x <= y by { CompareScaledLeft(k, a, b); }
    assert Bump(a, k, f) == a * x && Bump(b, k, f) == b * y;
    hide Bump;
    if 0.0 < x {
      CompareScaledLeft(a, x, y);
      CompareScaledLeft(y, a, b);
    } else {
      CompareScaledLeft(a, x, 0.0);
    }
  }

  /** The score never falls further below the first plateau than the dip, nor rises above the next plateau. */
  lemma MixBounds(a: real, r: Ramp, s: Ramp)
    requires Dips(r, s)
    ensures Mix(a, r, s) >= r.hi - Dip(r, s) && Dip(r, s) >= 0.0
    ensures 0.0 <= a <= 1.0 ==> Mix(a, r, s) <= s.hi
    ensures Mix(0.0, r, s) == r.hi && Mix(1.0, r, s) == s.hi
  {
    hide Bump, Mix;
    MixForm(a, r, s);
    BumpAbove(a, Curve(r, s), Fall(r, s));
    MixEnds(r, s);
    if 0.0 <= a <= 1.0 { MixBelow(a, r, s); }
  }

  lemma MixEnds(r: Ramp, s: Ramp)
    ensures Mix(0.0, r, s) == r.hi && Mix(1.0, r, s) == s.hi
  {
  }

  lemma MixBelow(a: real, r: Ramp, s: Ramp)
    requires Dips(r, s) && 0.0 <= a <= 1.0
    ensures Mix(a, r, s) <= s.hi
  {
    hide Bump, Mix;
    MixForm(a, r, s);
    BumpBelow(a, Curve(r, s), Fall(r, s));
  }

  /** On one ramp the score falls by at most the dip. */
  lemma MixDip(a: real, b: real, r: Ramp, s: Ramp)
    requires Dips(r, s) && 0.0 <= a <= b
    ensures Mix(b, r, s) >= Mix(a, r, s) - Dip(r, s)
  {
    MixBounds(b, r, s);
    MixForm(a, r, s);
    MixForm(b, r, s);
    BumpRises(a, b, Curve(r, s), Fall(r, s));
    hide Bump, Mix, Dip;
  }

  /** The dip is reached where the curve turns. */
  lemma MixTurns(r: Ramp, s: Ramp)
    requires Dips(r, s)
    ensures 0.0 <= Turn(r, s) <= 1.0 && Mix(Turn(r, s), r, s) == r.hi - Dip(r, s)
  {
    hide Bump, Mix;
    MixForm(Turn(r, s), r, s);
    BumpTurns(Curve(r, s), Fall(r, s), Turn(r, s));
  }

  lemma BumpTurns(k: real, f: real, v: real)
    requires 0.0 < k && 0.0 <= f <= 2.0 * k && v == f / (2.0 * k)
    ensures 0.0 <= v <= 1.0 && Bump(v, k, f) == -(f * f / (4.0 * k))
  {
    var d := 2.0 * k;
    assert v * d == f;
    CompareScaled(0.0, v, d);
    CompareScaled(v, 1.0, d);
    BumpAtVertex(k, f, v);
  }

  lemma BumpAtVertex(k: real, f: real, v: real)
    requires 0.0 < k && v * (2.0 * k) == f
    ensures Bump(v, k, f) == -(f * f / (4.0 * k))
  {
    VertexSquare(f, k, v);
    assert k * v - f == -(k * v);
    assert v * (k * v - f) == -(k * (v * v));
  }

  function Turn(r: Ramp, s: Ramp): real
    requires Dips(r, s)
  {
    Fall(r, s) / (2.0 * Curve(r, s))
  }

  // ----- the worst dip of each climate -----

  lemma RulesDip(c: Cell)
    ensures Dips(RuleRamp(c.t, c.h, Low), RuleRamp(c.t, c.h, Medium))
    ensures Dips(RuleRamp(c.t, c.h, Medium), RuleRamp(c.t, c.h, High))
  {
  }

  function LowDip(c: Cell): real {
    RulesDip(c);
    Dip(RuleRamp(c.t, c.h, Low), RuleRamp(c.t, c.h, Medium))
  }

  function HighDip(c: Cell): real {
    RulesDip(c);
    Dip(RuleRamp(c.t, c.h, Medium), RuleRamp(c.t, c.h, High))
  }

  function WorstDip(c: Cell): real {
    if LowDip(c) < HighDip(c) then HighDip(c) else LowDip(c)
  }

  /** The worst dip over all climates is on the good-to-moderate ramp; dry or hot air has a smaller one. */
  lemma WorstDipValue(c: Cell)
    ensures WorstDip(c) == if !c.h.Dry? && !c.t.High? then 2500.0 / 280.0 else 1600.0 / 220.0
  {
  }

  /** The score of a settled climate on the three plateaus and half-way between them. */
  lemma SettledScores(t: real, h: real, c: Cell)
    requires OfLevel(Temperature(t), c.t) == 1.0 && OfMoisture(Humidity(h), c.h) == 1.0
    ensures var harsh, worst := c.h.Dry? || c.t.High?, c.h.Dry? && c.t.High?;
            && Score(Graded(t, h, 0.0)) == (if harsh then 60.0 else 40.0)
            && Score(Graded(t, h, 75.0)) == (if harsh then 53.75 else 32.5)
            && Score(Graded(t, h, 150.0)) == (if harsh then 75.0 else 60.0)
            && Score(Graded(t, h, 250.0)) == (if worst then 77.5 else if harsh then 70.0 else 61.25)
            && Score(Graded(t, h, 400.0)) == (if worst then 100.0 else 90.0)
  {
    ProfileValues(c);
    hide Temperature, Humidity, Pm, Score, Profile, OfLevel, OfMoisture;
    SettledInput(t, h, c, 0.0);
    SettledInput(t, h, c, 75.0);
    SettledInput(t, h, c, 150.0);
    SettledInput(t, h, c, 250.0);
    SettledInput(t, h, c, 400.0);
  }

  lemma ProfileValues(c: Cell)
    ensures var harsh, worst := c.h.Dry? || c.t.High?, c.h.Dry? && c.t.High?;
            && Profile(Pm(0.0), c) == (if harsh then 60.0 else 40.0)
            && Profile(Pm(75.0), c) == (if harsh then 53.75 else 32.5)
            && Profile(Pm(150.0), c) == (if harsh then 75.0 else 60.0)
            && Profile(Pm(250.0), c) == (if worst then 77.5 else if harsh then 70.0 else 61.25)
            && Profile(Pm(400.0), c) == (if worst then 100.0 else 90.0)
  {
    PmValues();
    hide Pm, OfLevel;
    AssignmentRules(c.t, c.h);
  }

  lemma PmValues()
    ensures Pm(0.0) == Three(1.0, 0.0, 0.0) && Pm(75.0) == Three(0.5, 0.5, 0.0) && Pm(150.0) == Three(0.0, 1.0, 0.0)
    ensures Pm(250.0) == Three(0.0, 0.5, 0.5) && Pm(400.0) == Three(0.0, 0.0, 1.0)
  {
  }

  function LowAt(p: real): real { Rise(p, 50.0, 100.0) }
  function HighAt(p: real): real { Rise(p, 200.0, 300.0) }

  lemma ProfileIsMix(p: real, c: Cell)
    ensures LowAt(p) == 1.0 || HighAt(p) == 0.0
    ensures HighAt(p) == 0.0 ==> Profile(Pm(p), c) == Mix(LowAt(p), RuleRamp(c.t, c.h, Low), RuleRamp(c.t, c.h, Medium))
    ensures LowAt(p) == 1.0 ==>
              Profile(Pm(p), c) == Mix(HighAt(p), RuleRamp(c.t, c.h, Medium), RuleRamp(c.t, c.h, High))
  {
  }

  lemma ProfileDip(p1: real, p2: real, c: Cell)
    requires p1 <= p2
    ensures Profile(Pm(p2), c) >= Profile(Pm(p1), c) - WorstDip(c)
  {
    var r, s, u := RuleRamp(c.t, c.h, Low), RuleRamp(c.t, c.h, Medium), RuleRamp(c.t, c.h, High);
    RulesDip(c);
    ProfileIsMix(p1, c);
    ProfileIsMix(p2, c);
    RiseIsMonotone(p1, p2, 50.0, 100.0);
    RiseIsMonotone(p1, p2, 200.0, 300.0);
    var a1, a2, b1, b2 := LowAt(p1), LowAt(p2), HighAt(p1), HighAt(p2);
    MixBounds(a1, r, s);
    MixBounds(b2, s, u);
    hide RuleRamp, Profile, Mix, Dip, Dips, Pm, Rise;
    if b2 == 0.0 {
      MixDip(a1, a2, r, s);
    } else if b1 == 0.0 {
      assert Profile(Pm(p1), c) <= s.hi;
    } else {
      MixDip(b1, b2, s, u);
    }
  }

  /** Where one term of each holds fully, more PM2.5 lowers the score by at most the climate's worst dip. */
  lemma BoundedDip(t: real, h: real, c: Cell, p1: real, p2: real)
    requires OfLevel(Temperature(t), c.t) == 1.0 && OfMoisture(Humidity(h), c.h) == 1.0 && p1 <= p2
    ensures Score(Graded(t, h, p2)) >= Score(Graded(t, h, p1)) - WorstDip(c)
    ensures Round2(Score(Graded(t, h, p2))) >= Round2(Score(Graded(t, h, p1))) - 8.93
  {
    hide Graded, Temperature, Humidity, Pm, Score, Profile, Round2, WorstDip;
    SettledInput(t, h, c, p1);
    SettledInput(t, h, c, p2);
    ProfileDip(p1, p2, c);
    WorstDipValue(c);
    RoundedFall(Score(Graded(t, h, p1)), Score(Graded(t, h, p2)));
  }

  /**
   Exactly when the score falls: on one ramp, while both positions together are short of twice the
   turning point; across the medium plateau, when what is missing to it is less than the second dip.
   */
  predicate Falls(c: Cell, p1: real, p2: real) {
    var r, s, u := RuleRamp(c.t, c.h, Low), RuleRamp(c.t, c.h, Medium), RuleRamp(c.t, c.h, High);
    if HighAt(p2) == 0.0 then FallsOnRamp(LowAt(p1), LowAt(p2), r, s)
    else if LowAt(p1) == 1.0 then FallsOnRamp(HighAt(p1), HighAt(p2), s, u)
    else FallsAcross(LowAt(p1), HighAt(p2), r, s, u)
  }

  predicate FallsOnRamp(a: real, b: real, r: Ramp, s: Ramp) { a < b && Curve(r, s) * (a + b) < Fall(r, s) }

  predicate FallsAcross(a: real, b: real, r: Ramp, s: Ramp, u: Ramp) {
    (1.0 - a) * (Curve(r, s) * (1.0 + a) - Fall(r, s)) < b * (Fall(s, u) - Curve(s, u) * b)
  }

  lemma FallOnRamp(a: real, b: real, r: Ramp, s: Ramp)
    requires a <= b
    ensures Mix(b, r, s) < Mix(a, r, s) <==> FallsOnRamp(a, b, r, s)
  {
    hide Mix, Bump, Curve, Fall;
    MixForm(a, r, s);
    MixForm(b, r, s);
    BumpFalls(a, b, Curve(r, s), Fall(r, s), b - a, Curve(r, s) * (a + b));
  }

  lemma BumpFalls(a: real, b: real, k: real, f: real, x: real, slope: real)
    requires a <= b && x == b - a && slope == k * (a + b)
    ensures Bump(b, k, f) < Bump(a, k, f) <==> a < b && slope < f
  {
    var y := slope - f;
    BumpDifference(a, b, k, f, x, y);
    if y < 0.0 {
      if a < b { Product(-y, x); }
    } else {
      ProductOf(x, y);
    }
    hide Bump;
  }

  lemma BumpDifference(a: real, b: real, k: real, f: real, x: real, y: real)
    requires x == b - a && y == k * (a + b) - f
    ensures Bump(b, k, f) - Bump(a, k, f) == x * y
  {
  }

  lemma Product(x: real, y: real)
    requires 0.0 < x && 0.0 < y
    ensures -x * y < 0.0 && y * -x < 0.0
  {
  }

  lemma ProductOf(x: real, y: real)
    requires 0.0 <= x && 0.0 <= y
    ensures 0.0 <= x * y
  {
  }

  lemma FallAcross(a: real, b: real, r: Ramp, s: Ramp, u: Ramp)
    ensures Mix(b, s, u) < Mix(a, r, s) <==> FallsAcross(a, b, r, s, u)
  {
    hide Mix, Bump, Curve, Fall;
    MixForm(a, r, s);
    MixForm(b, s, u);
    MixEnds(r, s);
    MixForm(1.0, r, s);
    BumpLag(a, Curve(r, s), Fall(r, s), (1.0 - a) * (Curve(r, s) * (1.0 + a) - Fall(r, s)));
    BumpIs(b, Curve(s, u), Fall(s, u), b * (Fall(s, u) - Curve(s, u) * b));
  }

  lemma BumpLag(a: real, k: real, f: real, lag: real)
    requires lag == (1.0 - a) * (k * (1.0 + a) - f)
    ensures Bump(a, k, f) == Bump(1.0, k, f) - lag
  {
  }

  lemma BumpIs(b: real, k: real, f: real, dip: real)
    requires dip == b * (f - k * b)
    ensures Bump(b, k, f) == -dip
  {
  }

  /** The exact condition for a fall where one temperature and one humidity term hold fully. */
  lemma FallsExactly(t: real, h: real, c: Cell, p1: real, p2: real)
    requires OfLevel(Temperature(t), c.t) == 1.0 && OfMoisture(Humidity(h), c.h) == 1.0 && p1 <= p2
    ensures Score(Graded(t, h, p2)) < Score(Graded(t, h, p1)) <==> Falls(c, p1, p2)
  {
    hide Temperature, Humidity, Pm, Score, Profile, Mix, FallsOnRamp, FallsAcross, RuleRamp, Rise;
    SettledInput(t, h, c, p1);
    SettledInput(t, h, c, p2);
    ProfileIsMix(p1, c);
    ProfileIsMix(p2, c);
    RiseIsMonotone(p1, p2, 50.0, 100.0);
    RiseIsMonotone(p1, p2, 200.0, 300.0);
    var r, s, u := RuleRamp(c.t, c.h, Low), RuleRamp(c.t, c.h, Medium), RuleRamp(c.t, c.h, High);
    if HighAt(p2) == 0.0 {
      FallOnRamp(LowAt(p1), LowAt(p2), r, s);
    } else if LowAt(p1) == 1.0 {
      FallOnRamp(HighAt(p1), HighAt(p2), s, u);
    } else {
      FallAcross(LowAt(p1), HighAt(p2), r, s, u);
    }
  }

  lemma RiseAt(v: real, a: real, b: real)
    requires a < b && 0.0 <= v <= 1.0
    ensures Rise(a + v * (b - a), a, b) == v
  {
    var d := b - a;
    Proportion(v, d);
    var x := a + v * d;
    if a < x < b {
      var q := Rise(x, a, b);
      assert q * d == v * d;
      CompareScaled(q, v, d);
      CompareScaled(v, q, d);
    } else if x <= a {
      CompareScaled(v, 0.0, d);
    } else {
      CompareScaled(1.0, v, d);
    }
  }

  /** The worst dip of every such climate is reached: no smaller bound holds. */
  lemma DipIsReached(t: real, h: real, c: Cell)
    requires OfLevel(Temperature(t), c.t) == 1.0 && OfMoisture(Humidity(h), c.h) == 1.0
    ensures exists p1, p2 :: p1 <= p2 && Score(Graded(t, h, p2)) == Score(Graded(t, h, p1)) - WorstDip(c)
  {
    RulesDip(c);
    var p := 50.0 + Turn(RuleRamp(c.t, c.h, Low), RuleRamp(c.t, c.h, Medium)) * 50.0;
    ProfileReached(c, p);
    hide Score, Profile, WorstDip, Turn, RuleRamp, Pm;
    SettledInput(t, h, c, 50.0);
    SettledInput(t, h, c, p);
  }

  lemma SettledInput(t: real, h: real, c: Cell, p: real)
    requires OfLevel(Temperature(t), c.t) == 1.0 && OfMoisture(Humidity(h), c.h) == 1.0
    ensures Score(Graded(t, h, p)) == Profile(Pm(p), c)
  {
    ValidGrades(t, h, p);
    hide Temperature, Humidity, Pm, Score, Profile, Memberships.Valid;
    SettledScore(Graded(t, h, p), c);
  }

  lemma ProfileReached(c: Cell, p: real)
    requires Dips(RuleRamp(c.t, c.h, Low), RuleRamp(c.t, c.h, Medium))
    requires p == 50.0 + Turn(RuleRamp(c.t, c.h, Low), RuleRamp(c.t, c.h, Medium)) * 50.0
    ensures 50.0 <= p && Profile(Pm(p), c) == Profile(Pm(50.0), c) - WorstDip(c)
  {
    var r, s := RuleRamp(c.t, c.h, Low), RuleRamp(c.t, c.h, Medium);
    var v := Turn(r, s);
    MixTurns(r, s);
    MixBounds(0.0, r, s);
    assert WorstDip(c) == Dip(r, s) by { LowDipIsWorst(c); }
    RiseAt(v, 50.0, 100.0);
    assert p <= 100.0;
    assert LowAt(p) == v && LowAt(50.0) == 0.0 && HighAt(p) == 0.0 && HighAt(50.0) == 0.0;
    hide RuleRamp, Turn, Dip, Mix, Pm, Profile, WorstDip, Dips;
    ProfileIsMix(p, c);
    ProfileIsMix(50.0, c);
  }

  lemma LowDipIsWorst(c: Cell)
    ensures WorstDip(c) == LowDip(c)
  {
  }
}
