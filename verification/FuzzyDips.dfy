/**
 How far the fuzzy score can fall as PM2.5 rises, whatever weights its terms have. Pairs of terms
 fall into two kinds with the same falling ramp; each kind on its own has the dip of its plateau.
 */
module FuzzyDips {
  import opened FuzzyMembership
  import opened FuzzyRules
  import opened Tsukamoto
  import opened FuzzyScore
  import opened FuzzyOrder
  import opened FuzzyRamp
  import opened FuzzyBounds

  // ----- the two kinds of pairs -----

  /** Neither dry nor hot; dry or hot. */
  datatype Kind = Mild | Harsh

  function CellsOf(kind: Kind): (cells: seq<Cell>)
    ensures 0 < |cells| <= 5
  {
    match kind
    case Mild => [Cell(Low, Humid), Cell(Low, Wet), Cell(Medium, Humid), Cell(Medium, Wet)]
    case Harsh => [Cell(Low, Dry), Cell(Medium, Dry), Cell(High, Dry), Cell(High, Humid), Cell(High, Wet)]
  }

  /** The term that takes over from `q`. */
  function Next(q: Level): Level { if q.Low? then Medium else High }

  /** The ramp all pairs of a kind share while `q` gives way. */
  function Base(kind: Kind, q: Level): Ramp {
    match kind
    case Mild => if q.Low? then RampOf(Good) else RampOf(Moderate)
    case Harsh => if q.Low? then RampOf(Moderate) else RampOf(Usg)
  }

  /** The worst dip of a kind. */
  function Slack(kind: Kind): real {
    match kind case Mild => 2500.0 / 280.0 case Harsh => 1600.0 / 220.0
  }

  /** A cap on a kind's score, above the base ramp's start, on the first half of the way. */
  function Cap(kind: Kind, q: Level): real {
    match kind
    case Mild => if q.Low? then 40.0 else 35.0
    case Harsh => if q.Low? then 30.0 else 29.0
  }

  predicate Suits(kind: Kind, q: Level, s: Ramp) {
    var r := Base(kind, q);
    && RampsFit(r, s, Slack(kind)) && RampsRoomy(r, s) && RampsCapped(r, s, Cap(kind, q))
    && r.lo + Cap(kind, q) <= s.lo + 2.0 * Slack(kind) && 0.2232 * (r.hi - r.lo) <= Slack(kind)
    && (q.Low? ==> RampsRise(r, s))
  }

  lemma MildSuits()
    ensures Suits(Mild, Low, RampOf(Moderate)) && Suits(Mild, Medium, RampOf(Unhealthy))
  {
  }

  lemma HarshSuits()
    ensures Suits(Harsh, Low, RampOf(Usg))
    ensures Suits(Harsh, Medium, RampOf(Unhealthy)) && Suits(Harsh, Medium, RampOf(VeryUnhealthy))
  {
  }

  lemma KindRamps(kind: Kind, q: Level, c: Cell)
    requires c in CellsOf(kind) && !q.High?
    ensures RuleRamp(c.t, c.h, q) == Base(kind, q) && Suits(kind, q, RuleRamp(c.t, c.h, Next(q)))
  {
    hide Suits, RampOf;
    AssignmentRules(c.t, c.h);
    MildSuits();
    HarshSuits();
  }

  // ----- sums over a kind -----

  function CellExcess(m: Memberships, c: Cell, score: real): real {
    Surplus(CellMoment(m, c), CellTotal(m, c), score)
  }

  /** The moment of some pairs less `score` times their strength. */
  function GroupExcess(m: Memberships, cells: seq<Cell>, score: real): real {
    if cells == [] then 0.0
    else GroupExcess(m, cells[..|cells| - 1], score) + CellExcess(m, cells[|cells| - 1], score)
  }

  lemma {:induction false} ExcessIsMoment(m: Memberships, cells: seq<Cell>, score: real)
    ensures GroupExcess(m, cells, score) == Surplus(Moment(m, cells), Total(m, cells), score)
  {
    if cells == [] {
    } else {
      var c, front := cells[|cells| - 1], cells[..|cells| - 1];
      ExcessIsMoment(m, front, score);
      SurplusAdds(Moment(m, front), Total(m, front), CellMoment(m, c), CellTotal(m, c), score);
      hide CellMoment, CellTotal, Surplus;
    }
  }

  /** PM2.5 is at position `a` between term `q` and the next one. */
  predicate InPhase(m: Memberships, q: Level, a: real) {
    && m.Valid() && !q.High? && 0.0 <= a <= 1.0
    && m.p == if q.Low? then Three(1.0 - a, a, 0.0) else Three(0.0, 1.0 - a, a)
  }

  lemma PairInUnit(m: Memberships, c: Cell)
    requires m.Valid()
    ensures 0.0 <= Pair(m, c) <= 1.0
  {
  }

  lemma PhaseStrength(m: Memberships, c: Cell, q: Level, a: real, p: Level)
    requires InPhase(m, q, a)
    ensures Strength(m, c, p) == if p == q then Min(Pair(m, c), 1.0 - a)
                                 else if p == Next(q) then Min(Pair(m, c), a) else 0.0
  {
    PairInUnit(m, c);
  }

  lemma PhaseCell(m: Memberships, c: Cell, q: Level, a: real, score: real)
    requires InPhase(m, q, a)
    ensures CellTotal(m, c) == PairStrength(Pair(m, c), a)
    ensures CellExcess(m, c, score)
         == PairExcess(Pair(m, c), a, RuleRamp(c.t, c.h, q), RuleRamp(c.t, c.h, Next(q)), score)
  {
    hide Strength, Pair, RuleRamp, Weighted, Min, Surplus;
    PhaseStrength(m, c, q, a, Low);
    PhaseStrength(m, c, q, a, Medium);
    PhaseStrength(m, c, q, a, High);
    WeightedZero(RuleRamp(c.t, c.h, Low));
    WeightedZero(RuleRamp(c.t, c.h, High));
    var x, y, r, s := Min(Pair(m, c), 1.0 - a), Min(Pair(m, c), a), RuleRamp(c.t, c.h, q), RuleRamp(c.t, c.h, Next(q));
    SurplusAdds(Weighted(x, r), x, Weighted(y, s), y, score);
  }

  /** The weight of the heaviest pair. */
  function Heaviest(m: Memberships, cells: seq<Cell>): real
    requires cells != []
  {
    var w, front := Pair(m, cells[|cells| - 1]), cells[..|cells| - 1];
    if front == [] then w else if Heaviest(m, front) < w then w else Heaviest(m, front)
  }

  lemma {:induction false} HeaviestIs(m: Memberships, cells: seq<Cell>)
    requires m.Valid() && cells != []
    ensures 0.0 <= Heaviest(m, cells) <= 1.0
    ensures forall c :: c in cells ==> 0.0 <= Pair(m, c) <= Heaviest(m, cells)
    ensures exists c :: c in cells && Pair(m, c) == Heaviest(m, cells)
  {
    hide Pair, Memberships.Valid;
    var d, front := cells[|cells| - 1], cells[..|cells| - 1];
    PairInUnit(m, d);
    if front == [] {
    } else {
      HeaviestIs(m, front);
    }
    assert forall c :: c in cells <==> c == d || c in front;
  }

  function Debt(n: nat, x: real): real { if n == 0 then 0.0 else Debt(n - 1, x) + x }

  /** Five pairs' debts of `x` are covered by one pair that owes nothing and has `4x` to spare. */
  lemma {:induction false} GroupAtLeast(m: Memberships, cells: seq<Cell>, score: real, x: real, w: real)
    requires 0.0 <= x && forall c :: c in cells ==> CellExcess(m, c, score) >= -x
    requires forall c :: c in cells && Pair(m, c) == w ==> CellExcess(m, c, score) >= 4.0 * x
    ensures GroupExcess(m, cells, score) >= -Debt(|cells|, x)
    ensures (exists c :: c in cells && Pair(m, c) == w) ==> GroupExcess(m, cells, score) >= 5.0 * x - Debt(|cells|, x)
  {
    hide CellExcess, Pair;
    if cells == [] {
    } else {
      var d, front := cells[|cells| - 1], cells[..|cells| - 1];
      GroupAtLeast(m, front, score, x, w);
      assert forall c :: c in cells <==> c == d || c in front;
    }
  }

  lemma FewPairs(n: nat, x: real)
    requires n <= 5 && 0.0 <= x
    ensures Debt(n, x) <= 5.0 * x
  {
    assert Debt(1, x) == x && Debt(2, x) == 2.0 * x;
    assert Debt(3, x) == 3.0 * x && Debt(4, x) == 4.0 * x;
  }

  lemma {:induction false} GroupNonnegative(m: Memberships, cells: seq<Cell>, score: real)
    requires forall c :: c in cells ==> CellExcess(m, c, score) >= 0.0
    ensures GroupExcess(m, cells, score) >= 0.0
  {
    hide CellExcess;
    if cells == [] {
    } else {
      GroupNonnegative(m, cells[..|cells| - 1], score);
    }
  }

  lemma {:induction false} GroupNonpositive(m: Memberships, cells: seq<Cell>, score: real)
    requires forall c :: c in cells ==> CellExcess(m, c, score) <= 0.0
    ensures GroupExcess(m, cells, score) <= 0.0
  {
    hide CellExcess;
    if cells == [] {
    } else {
      GroupNonpositive(m, cells[..|cells| - 1], score);
    }
  }

  // ----- bounds on the score of a kind -----

  function FloorStep(kind: Kind, q: Level, h: real): real { 0.6 * h * (Base(kind, q).hi - Base(kind, q).lo) }

  function FloorOf(kind: Kind, q: Level, h: real): real { Base(kind, q).lo + FloorStep(kind, q, h) }

  /** At least the floor that `Fair` asks for. */
  lemma KindFloor(kind: Kind, q: Level, m: Memberships, a: real, h: real)
    requires InPhase(m, q, a) && h == Min(Heaviest(m, CellsOf(kind)), 0.5)
    ensures GroupExcess(m, CellsOf(kind), FloorOf(kind, q, h)) >= 0.0
  {
    var cells, score, w := CellsOf(kind), FloorOf(kind, q, h), Heaviest(m, CellsOf(kind));
    HeaviestIs(m, cells);
    var x := Share(kind, q, h);
    forall c | c in cells
      ensures CellExcess(m, c, score) >= -x && (Pair(m, c) == w ==> CellExcess(m, c, score) >= 4.0 * x)
    {
      KindCellFloor(kind, q, m, a, h, c, score);
    }
    hide CellExcess, Pair, Heaviest, Share, FloorOf;
    GroupAtLeast(m, cells, score, x, w);
    FewPairs(|cells|, x);
  }

  /** What one pair may owe against the floor. */
  function Share(kind: Kind, q: Level, h: real): (x: real)
    ensures 0.0 <= x
  {
    var d := Base(kind, q).hi - Base(kind, q).lo;
    ShareNonnegative(h, d, 0.09 * (h * h * d));
    0.09 * (h * h * d)
  }

  lemma KindCellFloor(kind: Kind, q: Level, m: Memberships, a: real, h: real, c: Cell, score: real)
    requires InPhase(m, q, a) && 0.0 <= h <= 0.5 && c in CellsOf(kind) && score == FloorOf(kind, q, h)
    ensures CellExcess(m, c, score) >= -Share(kind, q, h)
    ensures h <= Pair(m, c) ==> CellExcess(m, c, score) >= 4.0 * Share(kind, q, h)
  {
    hide Pair, CellExcess, PairExcess, Base, Cap, Slack, RampsFit, RampsRoomy, RampsCapped, RampsRise, FloorStep, Share,
      FloorShape;
    KindRamps(kind, q, c);
    PairInUnit(m, c);
    PhaseCell(m, c, q, a, score);
    FloorStepIs(kind, q, h);
    PairFloor(Pair(m, c), a, Base(kind, q), RuleRamp(c.t, c.h, Next(q)), h, FloorStep(kind, q, h), score,
              Share(kind, q, h));
  }

  lemma FloorStepIs(kind: Kind, q: Level, h: real)
    requires 0.0 <= h <= 0.5
    ensures FloorShape(Base(kind, q), h, FloorStep(kind, q, h), Share(kind, q, h))
  {
    hide Base;
  }

  lemma KindCeiling(kind: Kind, q: Level, m: Memberships, a: real)
    requires InPhase(m, q, a) && a <= 0.5
    ensures GroupExcess(m, CellsOf(kind), Base(kind, q).lo + Cap(kind, q)) <= 0.0
  {
    var score := Base(kind, q).lo + Cap(kind, q);
    forall c | c in CellsOf(kind) ensures CellExcess(m, c, score) <= 0.0 {
      hide Pair, CellExcess, PairExcess, Base, Cap, Slack, RampsFit, RampsRoomy, RampsCapped, RampsRise;
      KindRamps(kind, q, c);
      PairInUnit(m, c);
      PhaseCell(m, c, q, a, score);
      PairCeiling(Pair(m, c), a, Base(kind, q), RuleRamp(c.t, c.h, Next(q)), Cap(kind, q), score);
    }
    GroupNonpositive(m, CellsOf(kind), score);
  }

  // ----- some pairs on one ramp -----

  /** What some pairs may lose: `k` per strength fired. */
  function Allowance(k: real, n: Memberships, cells: seq<Cell>): real { k * Total(n, cells) }

  /** The score is fair to this pair. */
  predicate FairCell(
    c: Cell, q: Level, m: Memberships, a: real, b: real, k: real, floor: Floor, score: real)
  {
    var r, s := RuleRamp(c.t, c.h, q), RuleRamp(c.t, c.h, Next(q));
    RampsFit(r, s, k) && Fair(Pair(m, c), a, b, r, s, k, floor, score)
  }

  /** Measured against a fair score, pairs lose at most `k` per strength still fired. */
  lemma {:induction false} GroupLoss(
    q: Level, m: Memberships, a: real, n: Memberships, b: real, k: real, floor: Floor, score: real, cells: seq<Cell>)
    requires InPhase(m, q, a) && InPhase(n, q, b) && a <= b && m.t == n.t && m.h == n.h
    requires forall c :: c in cells ==> FairCell(c, q, m, a, b, k, floor, score)
    ensures GroupExcess(m, cells, score) <= GroupExcess(n, cells, score) + Allowance(k, n, cells)
  {
    hide CellExcess, InPhase, FairCell;
    if cells == [] {
      assert Allowance(k, n, cells) == 0.0;
    } else {
      var c, front := cells[|cells| - 1], cells[..|cells| - 1];
      GroupLoss(q, m, a, n, b, k, floor, score, front);
      CellLoss(q, m, a, n, b, k, floor, score, c);
      AllowanceAdds(k, n, cells);
      hide Allowance, CellAllowance;
    }
  }

  function CellAllowance(k: real, n: Memberships, c: Cell): real { k * CellTotal(n, c) }

  lemma AllowanceAdds(k: real, n: Memberships, cells: seq<Cell>)
    requires cells != []
    ensures Allowance(k, n, cells)
         == Allowance(k, n, cells[..|cells| - 1]) + CellAllowance(k, n, cells[|cells| - 1])
  {
    hide CellTotal;
    Distribute(k, Total(n, cells[..|cells| - 1]), CellTotal(n, cells[|cells| - 1]));
  }

  lemma Distribute(k: real, x: real, y: real)
    ensures k * (x + y) == k * x + k * y
  {
  }

  lemma CellLoss(
    q: Level, m: Memberships, a: real, n: Memberships, b: real, k: real, floor: Floor, score: real, c: Cell)
    requires InPhase(m, q, a) && InPhase(n, q, b) && a <= b && m.t == n.t && m.h == n.h
    requires FairCell(c, q, m, a, b, k, floor, score)
    ensures CellExcess(m, c, score) <= CellExcess(n, c, score) + CellAllowance(k, n, c)
  {
    hide Pair, CellExcess, CellTotal, PairExcess, PairStrength, RampsFit, RuleRamp, Fair;
    SamePair(m, n, c);
    PairInUnit(m, c);
    PhaseCell(m, c, q, a, score);
    PhaseCell(n, c, q, b, score);
    PairLoss(Pair(m, c), a, b, RuleRamp(c.t, c.h, q), RuleRamp(c.t, c.h, Next(q)), k, floor, score,
             CellTotal(n, c), CellAllowance(k, n, c));
  }

  // ----- one kind on one ramp -----

  /** A score between the floor and the cap is fair to every pair of a kind. */
  lemma KindIsFair(kind: Kind, q: Level, c: Cell, m: Memberships, a: real, b: real, h: real, score: real)
    requires InPhase(m, q, a) && a <= b <= 1.0 && c in CellsOf(kind) && 0.0 < h <= 0.5 && (Pair(m, c) <= h || h == 0.5)
    requires FloorOf(kind, q, h) <= score && (a < 0.5 ==> score <= Base(kind, q).lo + Cap(kind, q))
    ensures FairCell(c, q, m, a, b, Slack(kind), SixTenths(h), score)
  {
    hide Pair, Base, Cap, Slack, RampsFit, RampsRoomy, RampsCapped, RampsRise, PairStrength, FloorOf, RuleRamp;
    KindRamps(kind, q, c);
    PairInUnit(m, c);
    StrengthMoves(Pair(m, c), a, b);
    KindFloorBears(kind, q, h, score);
  }

  lemma KindFloorBears(kind: Kind, q: Level, h: real, score: real)
    requires 0.0 < h <= 0.5 && FloorOf(kind, q, h) <= score && !q.High?
    ensures SixTenths(h).Bears(Base(kind, q).hi - Base(kind, q).lo, Slack(kind), score - Base(kind, q).lo)
  {
    SixTenthsCovers(h);
  }

  lemma SamePair(m: Memberships, n: Memberships, c: Cell)
    requires m.t == n.t && m.h == n.h
    ensures Pair(m, c) == Pair(n, c)
  {
  }

  // ----- the next plateau -----

  function MarginFloor(kind: Kind, n: real): real { Base(kind, Low).lo + (Base(kind, Low).hi - Base(kind, Low).lo) * n }

  lemma MarginFloorIs(kind: Kind, n: real)
    ensures MarginShape(Base(kind, Low), n, MarginFloor(kind, n))
  {
    hide Base;
  }

  lemma KindMargin(kind: Kind, m: Memberships, a: real)
    requires InPhase(m, Low, a)
    ensures var n := Margin(Heaviest(m, CellsOf(kind)), a);
            GroupExcess(m, CellsOf(kind), MarginFloor(kind, n)) >= 0.0
  {
    var cells, w := CellsOf(kind), Heaviest(m, CellsOf(kind));
    var n := Margin(w, a);
    var score := MarginFloor(kind, n);
    HeaviestIs(m, cells);
    forall c | c in cells
      ensures CellExcess(m, c, score) >= -n && (Pair(m, c) == w ==> CellExcess(m, c, score) >= 4.0 * n)
    {
      KindCellMargin(kind, m, a, w, c, score);
    }
    hide CellExcess, Pair, Heaviest, MarginFloor;
    GroupAtLeast(m, cells, score, n, w);
    FewPairs(|cells|, n);
  }

  lemma KindCellMargin(kind: Kind, m: Memberships, a: real, w: real, c: Cell, score: real)
    requires InPhase(m, Low, a) && c in CellsOf(kind) && Pair(m, c) <= w && score == MarginFloor(kind, Margin(w, a))
    ensures CellExcess(m, c, score) >= -Margin(w, a)
    ensures Pair(m, c) == w ==> CellExcess(m, c, score) >= 4.0 * Margin(w, a)
  {
    hide Pair, CellExcess, PairExcess, Base, Cap, Slack, RampsFit, RampsRoomy, RampsCapped, RampsRise, MarginFloor,
      MarginShape, Margin;
    KindRamps(kind, Low, c);
    MarginFloorIs(kind, Margin(w, a));
    PairInUnit(m, c);
    PhaseCell(m, c, Low, a, score);
    PairMargin(Pair(m, c), w, a, Base(kind, Low), RuleRamp(c.t, c.h, Medium), score);
  }

  lemma {:induction false} KindGains(
    kind: Kind, m: Memberships, a: real, n: Memberships, w: real, score: real, cells: seq<Cell>)
    requires InPhase(m, Low, a) && InPhase(n, Low, 1.0) && m.t == n.t && m.h == n.h
    requires forall c :: c in cells ==> c in CellsOf(kind) && Pair(m, c) <= w
    requires MarginFloor(kind, Margin(w, a)) <= score
    ensures GroupExcess(m, cells, score) <= GroupExcess(n, cells, score)
  {
    if cells == [] {
    } else {
      KindGains(kind, m, a, n, w, score, cells[..|cells| - 1]);
      KindCellGains(kind, m, a, n, w, score, cells[|cells| - 1]);
      hide CellExcess, InPhase, Pair, MarginFloor;
    }
  }

  lemma KindCellGains(kind: Kind, m: Memberships, a: real, n: Memberships, w: real, score: real, c: Cell)
    requires InPhase(m, Low, a) && InPhase(n, Low, 1.0) && m.t == n.t && m.h == n.h
    requires c in CellsOf(kind) && Pair(m, c) <= w && MarginFloor(kind, Margin(w, a)) <= score
    ensures CellExcess(m, c, score) <= CellExcess(n, c, score)
  {
    SamePair(m, n, c);
    hide Pair, CellExcess, PairExcess, Base, Cap, Slack, RampsFit, RampsRoomy, RampsCapped, RampsRise, MarginFloor,
      MarginShape, Margin;
    KindRamps(kind, Low, c);
    MarginFloorIs(kind, Margin(w, a));
    PairInUnit(m, c);
    PhaseCell(m, c, Low, a, score);
    PhaseCell(n, c, Low, 1.0, score);
    PairGains(Pair(m, c), w, a, Base(kind, Low), RuleRamp(c.t, c.h, Medium), MarginFloor(kind, Margin(w, a)), score);
  }

  // ----- the score of a kind -----

  lemma QuotientSurplus(moment: real, total: real, c: real)
    requires 0.0 < total
    ensures Surplus(moment, total, moment / total) == 0.0
    ensures 0.0 <= Surplus(moment, total, c) <==> c <= moment / total
    ensures Surplus(moment, total, c) <= 0.0 <==> moment / total <= c
  {
    var s := moment / total;
    assert s * total == moment;
    CompareScaled(c, s, total);
    CompareScaled(s, c, total);
  }

  lemma LowerScore(moment: real, total: real, c: real, k: real, lower: real, extra: real)
    requires lower == c - k && extra == k * total
    ensures Surplus(moment, total, lower) == Surplus(moment, total, c) + extra
  {
  }

  function KindScore(m: Memberships, kind: Kind): real
    requires 0.0 < Total(m, CellsOf(kind))
  {
    Moment(m, CellsOf(kind)) / Total(m, CellsOf(kind))
  }

  lemma KindScoreIs(m: Memberships, kind: Kind, c: real)
    requires 0.0 < Total(m, CellsOf(kind))
    ensures GroupExcess(m, CellsOf(kind), KindScore(m, kind)) == 0.0
    ensures 0.0 <= GroupExcess(m, CellsOf(kind), c) <==> c <= KindScore(m, kind)
    ensures GroupExcess(m, CellsOf(kind), c) <= 0.0 <==> KindScore(m, kind) <= c
  {
    ExcessIsMoment(m, CellsOf(kind), KindScore(m, kind));
    ExcessIsMoment(m, CellsOf(kind), c);
    QuotientSurplus(Moment(m, CellsOf(kind)), Total(m, CellsOf(kind)), c);
    hide Surplus, Moment, Total, GroupExcess;
  }

  /** A pair fires with at least its weight, wherever PM2.5 is. */
  lemma {:induction false} TotalAtLeast(m: Memberships, q: Level, a: real, cells: seq<Cell>)
    requires InPhase(m, q, a)
    ensures 0.0 <= Total(m, cells) && forall c :: c in cells ==> Pair(m, c) <= Total(m, cells)
    ensures 0.0 < Total(m, cells) ==> exists c :: c in cells && 0.0 < Pair(m, c)
  {
    if cells == [] {
    } else {
      var d, front := cells[|cells| - 1], cells[..|cells| - 1];
      TotalAtLeast(m, q, a, front);
      PairInUnit(m, d);
      PhaseCell(m, d, q, a, 0.0);
      assert forall c :: c in cells <==> c == d || c in front;
      hide Pair, CellTotal, CellExcess, PairExcess;
    }
  }

  lemma KindAlive(m: Memberships, q: Level, a: real, kind: Kind)
    requires InPhase(m, q, a)
    ensures 0.0 < Total(m, CellsOf(kind)) <==> 0.0 < Heaviest(m, CellsOf(kind))
  {
    HeaviestIs(m, CellsOf(kind));
    TotalAtLeast(m, q, a, CellsOf(kind));
    hide Pair, Heaviest, Total;
  }

  // ----- the dip of a kind -----

  lemma PhaseIsValid(m: Memberships, q: Level, a: real)
    requires InPhase(m, q, a)
    ensures m.Valid() && 0.0 <= a <= 1.0 && !q.High?
  {
  }

  /** The dip of one kind while one term gives way to the next. */
  lemma KindDipOnRamp(kind: Kind, q: Level, m: Memberships, a: real, n: Memberships, b: real)
    requires InPhase(m, q, a) && InPhase(n, q, b) && a <= b && m.t == n.t && m.h == n.h
    requires 0.0 < Total(m, CellsOf(kind))
    ensures GroupExcess(n, CellsOf(kind), KindScore(m, kind) - Slack(kind)) >= 0.0
  {
    hide InPhase, Pair, Heaviest, GroupExcess, FloorOf, Base, Cap, Slack, KindScore, Total, Allowance, CellsOf,
      FairCell, SixTenths;
    var cells, score, w := CellsOf(kind), KindScore(m, kind), Heaviest(m, CellsOf(kind));
    var h := Min(w, 0.5);
    PhaseIsValid(m, q, a);
    PhaseIsValid(n, q, b);
    KindAlive(m, q, a, kind);
    HeaviestIs(m, cells);
    KindFloor(kind, q, m, a, h);
    KindScoreIs(m, kind, FloorOf(kind, q, h));
    if a <= 0.5 {
      KindCeiling(kind, q, m, a);
      KindScoreIs(m, kind, Base(kind, q).lo + Cap(kind, q));
    }
    forall c | c in cells ensures FairCell(c, q, m, a, b, Slack(kind), SixTenths(h), score) {
      KindIsFair(kind, q, c, m, a, b, h, score);
    }
    GroupLoss(q, m, a, n, b, Slack(kind), SixTenths(h), score, cells);
    LowerGroupScore(Slack(kind), n, cells, score, score - Slack(kind));
  }

  lemma LowerGroupScore(k: real, m: Memberships, cells: seq<Cell>, score: real, lower: real)
    requires lower == score - k
    ensures GroupExcess(m, cells, lower) == GroupExcess(m, cells, score) + Allowance(k, m, cells)
  {
    hide Total, Moment, GroupExcess;
    ExcessIsMoment(m, cells, score);
    ExcessIsMoment(m, cells, lower);
    LowerScore(Moment(m, cells), Total(m, cells), score, k, lower, Allowance(k, m, cells));
    hide Surplus, Allowance;
  }

  /** A kind's score is nowhere higher than on the next plateau. */
  lemma KindBelowPlateau(kind: Kind, m: Memberships, a: real, n: Memberships)
    requires InPhase(m, Low, a) && InPhase(n, Low, 1.0) && m.t == n.t && m.h == n.h
    requires 0.0 < Total(m, CellsOf(kind)) && 0.0 < Total(n, CellsOf(kind))
    ensures KindScore(m, kind) <= KindScore(n, kind)
  {
    var cells, score, w := CellsOf(kind), KindScore(m, kind), Heaviest(m, CellsOf(kind));
    HeaviestIs(m, cells);
    KindMargin(kind, m, a);
    KindScoreIs(m, kind, MarginFloor(kind, Margin(w, a)));
    KindGains(kind, m, a, n, w, score, cells);
    KindScoreIs(n, kind, score);
    hide InPhase, Pair, Heaviest, GroupExcess, MarginFloor, KindScore, Total;
  }

  lemma GradedPhase(t: real, h: real, p: real)
    ensures p <= 100.0 ==> InPhase(Graded(t, h, p), Low, LowAt(p))
    ensures 100.0 <= p ==> InPhase(Graded(t, h, p), Medium, HighAt(p))
    ensures p == 100.0 ==> LowAt(p) == 1.0 && HighAt(p) == 0.0
  {
    ValidGrades(t, h, p);
    PmPartition(p);
    hide Pm, Temperature, Humidity, Memberships.Valid;
  }

  lemma Aliveness(t: real, h: real, p: real, kind: Kind)
    ensures 0.0 < Total(Graded(t, h, p), CellsOf(kind)) <==> 0.0 < Heaviest(Graded(t, h, 0.0), CellsOf(kind))
  {
    GradedPhase(t, h, p);
    if p <= 100.0 {
      KindAlive(Graded(t, h, p), Low, LowAt(p), kind);
    } else {
      KindAlive(Graded(t, h, p), Medium, HighAt(p), kind);
    }
    SameHeaviest(Graded(t, h, p), Graded(t, h, 0.0), CellsOf(kind));
    hide InPhase, Graded, Heaviest, Total;
  }

  lemma {:induction false} SameHeaviest(m: Memberships, n: Memberships, cells: seq<Cell>)
    requires cells != [] && m.t == n.t && m.h == n.h
    ensures Heaviest(m, cells) == Heaviest(n, cells)
  {
    SamePair(m, n, cells[|cells| - 1]);
    if |cells| == 1 {
    } else {
      SameHeaviest(m, n, cells[..|cells| - 1]);
    }
    hide Pair;
  }

  lemma PositionsRise(p1: real, p2: real)
    requires p1 <= p2
    ensures LowAt(p1) <= LowAt(p2) && 0.0 <= HighAt(p1) <= HighAt(p2)
  {
    RiseIsMonotone(p1, p2, 50.0, 100.0);
    RiseIsMonotone(p1, p2, 200.0, 300.0);
  }

  lemma SameClimate(t: real, h: real, p: real, p': real)
    ensures Graded(t, h, p).t == Graded(t, h, p').t && Graded(t, h, p).h == Graded(t, h, p').h
  {
  }

  /** As PM2.5 rises a kind's score falls by at most its slack. */
  lemma KindDip(kind: Kind, t: real, h: real, p1: real, p2: real)
    requires p1 <= p2 && 0.0 < Total(Graded(t, h, p1), CellsOf(kind))
    ensures GroupExcess(Graded(t, h, p2), CellsOf(kind), KindScore(Graded(t, h, p1), kind) - Slack(kind)) >= 0.0
    ensures 0.0 < Total(Graded(t, h, p2), CellsOf(kind))
  {
    hide InPhase, Graded, GroupExcess, Slack, KindScore, Total, LowAt, HighAt, Heaviest, CellsOf;
    var m, n, mid := Graded(t, h, p1), Graded(t, h, p2), Graded(t, h, 100.0);
    GradedPhase(t, h, p1);
    GradedPhase(t, h, p2);
    GradedPhase(t, h, 100.0);
    Aliveness(t, h, p1, kind);
    Aliveness(t, h, p2, kind);
    Aliveness(t, h, 100.0, kind);
    PositionsRise(p1, p2);
    SameClimate(t, h, p1, p2);
    SameClimate(t, h, p1, 100.0);
    if p2 <= 100.0 {
      KindDipOnRamp(kind, Low, m, LowAt(p1), n, LowAt(p2));
    } else if 100.0 <= p1 {
      KindDipOnRamp(kind, Medium, m, HighAt(p1), n, HighAt(p2));
    } else {
      KindDipAcross(kind, m, LowAt(p1), mid, n, HighAt(p2));
    }
  }

  lemma KindDipAcross(kind: Kind, m: Memberships, a: real, mid: Memberships, n: Memberships, b: real)
    requires InPhase(m, Low, a) && InPhase(mid, Low, 1.0) && InPhase(mid, Medium, 0.0) && InPhase(n, Medium, b)
    requires m.t == n.t == mid.t && m.h == n.h == mid.h && 0.0 <= b
    requires 0.0 < Total(m, CellsOf(kind)) && 0.0 < Total(mid, CellsOf(kind)) && 0.0 < Total(n, CellsOf(kind))
    ensures GroupExcess(n, CellsOf(kind), KindScore(m, kind) - Slack(kind)) >= 0.0
  {
    hide InPhase, GroupExcess, Slack, KindScore, Total;
    KindBelowPlateau(kind, m, a, mid);
    KindDipOnRamp(kind, Medium, mid, 0.0, n, b);
    KindScoreIs(n, kind, KindScore(mid, kind) - Slack(kind));
    KindScoreIs(n, kind, KindScore(m, kind) - Slack(kind));
  }

  // ----- both kinds together -----

  lemma SumsOfMild(m: Memberships)
    ensures Total(m, CellsOf(Mild)) == CellTotal(m, Cell(Low, Humid)) + CellTotal(m, Cell(Low, Wet))
                                     + CellTotal(m, Cell(Medium, Humid)) + CellTotal(m, Cell(Medium, Wet))
    ensures Moment(m, CellsOf(Mild)) == CellMoment(m, Cell(Low, Humid)) + CellMoment(m, Cell(Low, Wet))
                                      + CellMoment(m, Cell(Medium, Humid)) + CellMoment(m, Cell(Medium, Wet))
  {
    var s := CellsOf(Mild);
    hide Total, Moment, CellTotal, CellMoment;
    SumsOfNone(m, s);
    SumsOfPrefix(m, s, 1);
    SumsOfPrefix(m, s, 2);
    SumsOfPrefix(m, s, 3);
    SumsOfPrefix(m, s, 4);
    assert s[..4] == s;
  }

  lemma SumsOfHarsh(m: Memberships)
    ensures Total(m, CellsOf(Harsh)) == CellTotal(m, Cell(Low, Dry)) + CellTotal(m, Cell(Medium, Dry))
                                      + CellTotal(m, Cell(High, Dry)) + CellTotal(m, Cell(High, Humid))
                                      + CellTotal(m, Cell(High, Wet))
    ensures Moment(m, CellsOf(Harsh)) == CellMoment(m, Cell(Low, Dry)) + CellMoment(m, Cell(Medium, Dry))
                                       + CellMoment(m, Cell(High, Dry)) + CellMoment(m, Cell(High, Humid))
                                       + CellMoment(m, Cell(High, Wet))
  {
    var s := CellsOf(Harsh);
    hide Total, Moment, CellTotal, CellMoment;
    SumsOfNone(m, s);
    SumsOfPrefix(m, s, 1);
    SumsOfPrefix(m, s, 2);
    SumsOfPrefix(m, s, 3);
    SumsOfPrefix(m, s, 4);
    SumsOfPrefix(m, s, 5);
    assert s[..5] == s;
  }

  lemma SumsOfNone(m: Memberships, s: seq<Cell>)
    ensures Total(m, s[..0]) == 0.0 && Moment(m, s[..0]) == 0.0
  {
  }

  lemma SumsOfPrefix(m: Memberships, s: seq<Cell>, i: nat)
    requires 0 < i <= |s|
    ensures Total(m, s[..i]) == Total(m, s[..i - 1]) + CellTotal(m, s[i - 1])
    ensures Moment(m, s[..i]) == Moment(m, s[..i - 1]) + CellMoment(m, s[i - 1])
  {
    assert s[..i][..i - 1] == s[..i - 1];
  }

  lemma SumsOfRow(m: Memberships, t: Level)
    ensures Total(m, Row(t, 3))
         == CellTotal(m, Cell(t, Dry)) + CellTotal(m, Cell(t, Humid)) + CellTotal(m, Cell(t, Wet))
    ensures Moment(m, Row(t, 3))
         == CellMoment(m, Cell(t, Dry)) + CellMoment(m, Cell(t, Humid)) + CellMoment(m, Cell(t, Wet))
  {
    RowTotals(m, t, 0);
    RowTotals(m, t, 1);
    RowTotals(m, t, 2);
    hide Row, Total, Moment, CellTotal, CellMoment;
  }

  /** The nine pairs are the mild and the harsh ones. */
  lemma KindsMakeGrid(m: Memberships)
    ensures Total(m, Grid(3)) == Total(m, CellsOf(Mild)) + Total(m, CellsOf(Harsh))
    ensures Moment(m, Grid(3)) == Moment(m, CellsOf(Mild)) + Moment(m, CellsOf(Harsh))
  {
    hide Row, Grid, Total, Moment, CellTotal, CellMoment, CellsOf;
    SumsOfMild(m);
    SumsOfHarsh(m);
    SumsOfRow(m, Low);
    SumsOfRow(m, Medium);
    SumsOfRow(m, High);
    EmptyTotals(m);
    GridTotals(m, 0);
    GridTotals(m, 1);
    GridTotals(m, 2);
  }

  function Other(kind: Kind): Kind { if kind.Mild? then Harsh else Mild }

  /** A kind none of whose pairs hold contributes nothing. */
  lemma {:induction false} SilentPairs(m: Memberships, q: Level, a: real, cells: seq<Cell>)
    requires InPhase(m, q, a) && forall c :: c in cells ==> Pair(m, c) == 0.0
    ensures Total(m, cells) == 0.0 && Moment(m, cells) == 0.0
  {
    if cells == [] {
    } else {
      SilentPairs(m, q, a, cells[..|cells| - 1]);
      SilentPair(m, q, a, cells[|cells| - 1]);
      hide CellTotal, CellMoment, Pair;
    }
  }

  lemma SilentPair(m: Memberships, q: Level, a: real, c: Cell)
    requires InPhase(m, q, a) && Pair(m, c) == 0.0
    ensures CellTotal(m, c) == 0.0 && CellMoment(m, c) == 0.0
  {
    hide Strength, Weighted, RuleRamp, Pair;
    PhaseStrength(m, c, q, a, Low);
    PhaseStrength(m, c, q, a, Medium);
    PhaseStrength(m, c, q, a, High);
    WeightedZero(RuleRamp(c.t, c.h, Low));
    WeightedZero(RuleRamp(c.t, c.h, Medium));
    WeightedZero(RuleRamp(c.t, c.h, High));
  }

  lemma SilentKind(t: real, h: real, p: real, kind: Kind)
    requires Total(Graded(t, h, p), CellsOf(kind)) <= 0.0
    ensures Total(Graded(t, h, p), CellsOf(kind)) == 0.0 && Moment(Graded(t, h, p), CellsOf(kind)) == 0.0
  {
    var m := Graded(t, h, p);
    GradedPhase(t, h, p);
    hide Graded, Total, Moment, LowAt, HighAt;
    if p <= 100.0 {
      TotalAtLeast(m, Low, LowAt(p), CellsOf(kind));
      NoPairs(m, CellsOf(kind));
      SilentPairs(m, Low, LowAt(p), CellsOf(kind));
    } else {
      TotalAtLeast(m, Medium, HighAt(p), CellsOf(kind));
      NoPairs(m, CellsOf(kind));
      SilentPairs(m, Medium, HighAt(p), CellsOf(kind));
    }
  }

  lemma NoPairs(m: Memberships, cells: seq<Cell>)
    requires m.Valid() && forall c :: c in cells ==> Pair(m, c) <= 0.0
    ensures forall c :: c in cells ==> Pair(m, c) == 0.0
  {
    forall c | c in cells ensures Pair(m, c) == 0.0 {
      PairInUnit(m, c);
    }
  }

  // ----- climates of one kind -----

  /** Only pairs of this kind hold to any degree. */
  predicate Pure(t: real, h: real, kind: Kind) {
    match kind
    case Mild => t <= 40.0 && 70.0 <= h
    case Harsh => 50.0 <= t || h <= 30.0
  }

  lemma PureTerms(t: real, h: real)
    ensures t <= 40.0 ==> Temperature(t).third == 0.0
    ensures 50.0 <= t ==> Temperature(t).first == 0.0 && Temperature(t).second == 0.0
    ensures h <= 30.0 ==> Humidity(h).second == 0.0 && Humidity(h).third == 0.0
    ensures 70.0 <= h ==> Humidity(h).first == 0.0
  {
    TemperaturePartition(t);
    HumidityPartition(h);
    RiseEnds(t, 15.0, 35.0);
    RiseEnds(t, 40.0, 50.0);
    RiseEnds(h, 30.0, 70.0);
    RiseEnds(h, 80.0, 100.0);
    hide Temperature, Humidity, Rise;
  }

  lemma RiseEnds(x: real, a: real, b: real)
    requires a < b
    ensures (x <= a ==> Rise(x, a, b) == 0.0) && (b <= x ==> Rise(x, a, b) == 1.0)
  {
  }

  lemma PureClimate(t: real, h: real, p: real, kind: Kind, c: Cell)
    requires Pure(t, h, kind) && c in CellsOf(Other(kind))
    ensures Pair(Graded(t, h, p), c) == 0.0
  {
    hide Temperature, Humidity, Pm, Memberships.Valid, Pair;
    PureTerms(t, h);
    ValidGrades(t, h, p);
    PairOfZero(Graded(t, h, p), c);
  }

  lemma PairOfZero(m: Memberships, c: Cell)
    requires m.Valid() && (OfLevel(m.t, c.t) == 0.0 || OfMoisture(m.h, c.h) == 0.0)
    ensures Pair(m, c) == 0.0
  {
  }

  lemma PureIsSilent(t: real, h: real, p: real, kind: Kind)
    requires Pure(t, h, kind)
    ensures Total(Graded(t, h, p), CellsOf(Other(kind))) == 0.0
  {
    hide Graded, Total, LowAt, HighAt, CellsOf, Pair, Pure;
    var m := Graded(t, h, p);
    forall c | c in CellsOf(Other(kind)) ensures Pair(m, c) == 0.0 {
      PureClimate(t, h, p, kind, c);
    }
    GradedPhase(t, h, p);
    if p <= 100.0 {
      SilentPairs(m, Low, LowAt(p), CellsOf(Other(kind)));
    } else {
      SilentPairs(m, Medium, HighAt(p), CellsOf(Other(kind)));
    }
  }

  /** Where the other kind is silent, the score is that of this kind. */
  lemma ScoreOfOneKind(t: real, h: real, p: real, kind: Kind)
    requires Total(Graded(t, h, p), CellsOf(Other(kind))) <= 0.0
    ensures var m := Graded(t, h, p); 0.0 < Total(m, CellsOf(kind)) && Score(m) == KindScore(m, kind)
  {
    hide Graded, Total, Moment, Score, AllFired, Grid, CellsOf, SumAlpha;
    var m := Graded(t, h, p);
    ValidGrades(t, h, p);
    SilentKind(t, h, p, Other(kind));
    KindsMakeGrid(m);
    FallbackUnreachable(m);
    IsQuotient(Score(m), Total(m, Grid(3)), Moment(m, Grid(3)), Total(m, CellsOf(kind)), Moment(m, CellsOf(kind)));
  }

  lemma DipOfOneKind(t: real, h: real, p1: real, p2: real, kind: Kind)
    requires p1 <= p2 && Total(Graded(t, h, p1), CellsOf(Other(kind))) <= 0.0
    ensures Score(Graded(t, h, p2)) >= Score(Graded(t, h, p1)) - Slack(kind)
  {
    hide Graded, Total, Moment, Score, KindScore, Slack, CellsOf, Heaviest;
    Aliveness(t, h, p1, Other(kind));
    Aliveness(t, h, p2, Other(kind));
    ScoreOfOneKind(t, h, p1, kind);
    ScoreOfOneKind(t, h, p2, kind);
    KindDip(kind, t, h, p1, p2);
    KindScoreIs(Graded(t, h, p2), kind, KindScore(Graded(t, h, p1), kind) - Slack(kind));
  }

  lemma IsQuotient(s: real, whole: real, sum: real, d: real, n: real)
    requires 0.0 < whole && s * whole == sum && d == whole && n == sum
    ensures s == n / d
  {
    CompareScaled(s, n / d, d);
    CompareScaled(n / d, s, d);
  }

  /**
   Up to 40 degrees and from 70 % humidity on, whatever terms share the weight, more PM2.5 lowers the
   score by at most 2500/280; from 50 degrees on, or up to 30 %, by at most 1600/220.
   */
  lemma PureDip(t: real, h: real, p1: real, p2: real, kind: Kind)
    requires Pure(t, h, kind) && p1 <= p2
    ensures Score(Graded(t, h, p2)) >= Score(Graded(t, h, p1)) - Slack(kind)
  {
    hide Graded, Total, Score, Slack, Pure;
    PureIsSilent(t, h, p1, kind);
    DipOfOneKind(t, h, p1, p2, kind);
  }
}
