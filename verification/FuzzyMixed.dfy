/**
 The dip of the fuzzy score at any temperature and humidity: where pairs of both kinds share the
 weight, it still falls by at most what mild pairs can lose on their own.
 */
module FuzzyMixed {
  import opened FuzzyMembership
  import opened FuzzyRules
  import opened Tsukamoto
  import opened FuzzyScore
  import opened FuzzyOrder
  import opened FuzzyRamp
  import opened FuzzyBounds
  import opened FuzzyDips

  // ----- single pairs -----

  /** On the second half of the first way, mild pairs hardly fall short of 27.4, and a heavy one exceeds it. */
  lemma MildPastHalf(w: real, a: real)
    requires 0.0 <= w && 0.5 <= a <= 1.0
    ensures PairExcess(w, a, RampOf(Good), RampOf(Moderate), 27.4) >= -2.2
    ensures 0.5 <= w ==> PairExcess(w, a, RampOf(Good), RampOf(Moderate), 27.4) >= 2.2
  {
    var u, v := Min(w, 1.0 - a), Min(w, a);
    PairForm(w, a, RampOf(Good), RampOf(Moderate), 27.4, 40.0, 30.0, 30.0, 27.4);
    ParabolaGrows(u, v, 2.6, 30.0);
    assert Parabola(u, -27.4, 40.0) + Parabola(u, 2.6, 30.0) == Parabola(u, -24.8, 70.0);
    ParabolaBottom(u, 24.8, 70.0, 2.2);
    if 0.5 <= w {
      ParabolaBottom(u, 27.4, 40.0, 4.7);
      ParabolaGrows(0.5, v, 2.6, 30.0);
    }
    hide PairExcess;
  }

  /** On the second way mild pairs hardly fall short of 36.1, and a heavy one exceeds it. */
  lemma MildOnSecondWay(w: real, a: real)
    requires 0.0 <= w && 0.0 <= a <= 1.0
    ensures PairExcess(w, a, RampOf(Moderate), RampOf(Unhealthy), 36.1) >= -0.32
    ensures 0.5 <= w ==> PairExcess(w, a, RampOf(Moderate), RampOf(Unhealthy), 36.1) >= 0.32
  {
    var u, v := Min(w, 1.0 - a), Min(w, a);
    PairForm(w, a, RampOf(Moderate), RampOf(Unhealthy), 36.1, 30.0, 35.0, 25.0, 6.1);
    ParabolaBottom(u, 6.1, 30.0, 0.32);
    SteepParabola(v, 28.9, 25.0);
    if 0.5 <= u {
      Nonnegative(u - 0.5, 30.0 * u + 8.9);
      assert Parabola(u, -6.1, 30.0) - 4.45 == (u - 0.5) * (30.0 * u + 8.9);
    }
    hide PairExcess, Parabola;
  }

  /** On the first half of the first way a harsh pair of weight up to 3/4 stays below 53.75. */
  lemma HarshBeforeHalf(w: real, a: real)
    requires 0.0 <= w <= 0.75 && 0.0 <= a <= 0.5
    ensures PairExcess(w, a, RampOf(Moderate), RampOf(Usg), 53.75) <= 0.0
  {
    var u, v := Min(w, 1.0 - a), Min(w, a);
    PairForm(w, a, RampOf(Moderate), RampOf(Usg), 53.75, 30.0, 20.0, 25.0, 23.75);
    ParabolaEnds(u, v, Min(0.75, 1.0 - v), -23.75, 30.0);
    HarshEnds(v);
    hide PairExcess, Parabola;
  }

  lemma HarshEnds(v: real)
    requires 0.0 <= v <= 0.5
    ensures Parabola(v, -23.75, 30.0) + Parabola(v, -3.75, 25.0) <= 0.0
    ensures Parabola(Min(0.75, 1.0 - v), -23.75, 30.0) + Parabola(v, -3.75, 25.0) <= 0.0
  {
    Nonnegative(v, 27.5 - 55.0 * v);
    if v <= 0.25 {
      Nonnegative(v, 2.5 - 25.0 * v + 3.75);
    } else {
      Nonnegative(55.0 * v - 12.5, 0.5 - v);
    }
  }

  /** Light pairs stay far below what heavy harsh ones reach. */
  lemma LightMild(w: real, a: real)
    requires 0.0 <= w <= 0.25 && 0.0 <= a <= 0.5
    ensures PairExcess(w, a, RampOf(Good), RampOf(Moderate), 23.75) <= 0.0
  {
    var u, v := Min(w, 1.0 - a), Min(w, a);
    PairForm(w, a, RampOf(Good), RampOf(Moderate), 23.75, 40.0, 30.0, 30.0, 23.75);
    ParabolaGrows(v, u, 6.25, 30.0);
    Nonnegative(u, 17.5 - 70.0 * u);
    assert Parabola(u, -23.75, 40.0) + Parabola(u, 6.25, 30.0) == -(u * (17.5 - 70.0 * u));
    hide PairExcess, Parabola;
  }

  lemma LightHarsh(w: real, a: real)
    requires 0.0 <= w <= 0.25 && 0.0 <= a <= 0.5
    ensures PairExcess(w, a, RampOf(Moderate), RampOf(Usg), 47.5) <= 0.0
  {
    var u, v := Min(w, 1.0 - a), Min(w, a);
    PairForm(w, a, RampOf(Moderate), RampOf(Usg), 47.5, 30.0, 20.0, 25.0, 17.5);
    ParabolaGrows(v, u, 2.5, 25.0);
    Nonnegative(u, 15.0 - 55.0 * u);
    assert Parabola(u, -17.5, 30.0) + Parabola(u, 2.5, 25.0) == -(u * (15.0 - 55.0 * u));
    hide PairExcess, Parabola;
  }

  // ----- both kinds together -----

  /** The surplus of all nine pairs over a score. */
  function Both(m: Memberships, score: real): real {
    GroupExcess(m, CellsOf(Mild), score) + GroupExcess(m, CellsOf(Harsh), score)
  }

  lemma BothIsMoment(m: Memberships, score: real)
    ensures Both(m, score) == Surplus(Moment(m, Grid(3)), Total(m, Grid(3)), score)
  {
    hide GroupExcess, Moment, Total, CellsOf, Grid, Surplus;
    ExcessIsMoment(m, CellsOf(Mild), score);
    ExcessIsMoment(m, CellsOf(Harsh), score);
    KindsMakeGrid(m);
    SurplusAdds(Moment(m, CellsOf(Mild)), Total(m, CellsOf(Mild)), Moment(m, CellsOf(Harsh)),
                Total(m, CellsOf(Harsh)), score);
  }

  lemma BothIsScore(m: Memberships, c: real)
    requires m.Valid()
    ensures Both(m, Score(m)) == 0.0
    ensures 0.0 <= Both(m, c) <==> c <= Score(m)
    ensures Both(m, c) <= 0.0 <==> Score(m) <= c
  {
    hide Both, Moment, Total, Grid, Score, AllFired, SumAlpha, Memberships.Valid;
    BothIsMoment(m, c);
    BothIsMoment(m, Score(m));
    FallbackUnreachable(m);
    CompareScaled(c, Score(m), Total(m, Grid(3)));
    CompareScaled(Score(m), c, Total(m, Grid(3)));
  }

  /** Against a higher score some pairs have less. */
  lemma GroupFalls(q: Level, m: Memberships, a: real, cells: seq<Cell>, c: real, c': real)
    requires InPhase(m, q, a) && c <= c'
    ensures GroupExcess(m, cells, c') <= GroupExcess(m, cells, c)
  {
    hide InPhase, GroupExcess, Total;
    TotalAtLeast(m, q, a, cells);
    LowerGroupScore(c' - c, m, cells, c', c);
    Nonnegative(c' - c, Total(m, cells));
  }

  // ----- where the score is fair to all pairs -----

  /** What harsh pairs ask of the score where they share the weight. */
  function FloorFor(kind: Kind): Floor {
    match kind case Mild => SixTenths(0.5) case Harsh => Floor(0.5, 0.21, 0.2976)
  }

  /** The floor of all pairs, and the cap of each kind. */
  function LeastFair(q: Level): real { if q.Low? then 36.3 else 55.25 }

  function MostFair(kind: Kind, q: Level): real {
    if !q.Low? then 79.0 else match kind case Mild => 30.0 + 2.0 * Slack(Mild) case Harsh => 60.0
  }

  lemma FairToKind(kind: Kind, q: Level, c: Cell, score: real)
    requires c in CellsOf(kind) && !q.High?
    ensures var r, s := RuleRamp(c.t, c.h, q), RuleRamp(c.t, c.h, Next(q));
            && RampsFit(r, s, Slack(Mild)) && MostFair(kind, q) <= s.lo + 2.0 * Slack(Mild)
            && (LeastFair(q) <= score ==> FloorFor(kind).Bears(r.hi - r.lo, Slack(Mild), score - r.lo))
  {
    assert SixTenths(0.5).Covers() by { SixTenthsCovers(0.5); }
    AssignmentRules(c.t, c.h);
  }

  lemma FairToAll(kind: Kind, q: Level, c: Cell, m: Memberships, a: real, b: real, score: real)
    requires InPhase(m, q, a) && a <= b <= 1.0 && c in CellsOf(kind)
    requires 0.5 < b ==> LeastFair(q) <= score
    requires a < 0.5 && a < Pair(m, c) ==> score <= MostFair(kind, q)
    ensures FairCell(c, q, m, a, b, Slack(Mild), FloorFor(kind), score)
  {
    hide Pair, RampsFit, PairStrength, RuleRamp, Floor.Bears, Slack, MostFair, LeastFair;
    FairToKind(kind, q, c, score);
    PairInUnit(m, c);
    StrengthMoves(Pair(m, c), a, b);
  }

  /** Measured against a score fair to all pairs, the fall is within the mild slack. */
  lemma FairDip(q: Level, m: Memberships, a: real, n: Memberships, b: real, score: real)
    requires InPhase(m, q, a) && InPhase(n, q, b) && a <= b && m.t == n.t && m.h == n.h && 0.0 <= Both(m, score)
    requires 0.5 < b ==> LeastFair(q) <= score
    requires forall kind, c ::
               c in CellsOf(kind) && a < 0.5 && a < Pair(m, c) ==> score <= MostFair(kind, q)
    ensures 0.0 <= Both(n, score - Slack(Mild))
  {
    hide InPhase, GroupExcess, Slack, Total, Allowance, CellsOf, FairCell, FloorFor, MostFair, LeastFair, Pair;
    PhaseIsValid(n, q, b);
    forall kind, c | c in CellsOf(kind) ensures FairCell(c, q, m, a, b, Slack(Mild), FloorFor(kind), score) {
      FairToAll(kind, q, c, m, a, b, score);
    }
    GroupLoss(q, m, a, n, b, Slack(Mild), FloorFor(Mild), score, CellsOf(Mild));
    GroupLoss(q, m, a, n, b, Slack(Mild), FloorFor(Harsh), score, CellsOf(Harsh));
    LowerGroupScore(Slack(Mild), n, CellsOf(Mild), score, score - Slack(Mild));
    LowerGroupScore(Slack(Mild), n, CellsOf(Harsh), score, score - Slack(Mild));
  }

  // ----- below the floor: the score is not that low later on -----

  predicate HarshHolds(m: Memberships) { exists c :: c in CellsOf(Harsh) && 0.0 < Pair(m, c) }

  lemma HeavyPair(m: Memberships) returns (kind: Kind, c: Cell)
    requires m.Valid()
    ensures c in CellsOf(kind) && 0.5 <= Pair(m, c)
  {
    var t := if 0.5 <= m.t.first then Low else if 0.5 <= m.t.second then Medium else High;
    var h := if 0.5 <= m.h.first then Dry else if 0.5 <= m.h.second then Humid else Wet;
    c := Cell(t, h);
    kind := if h.Dry? || t.High? then Harsh else Mild;
  }

  /** Where a harsh pair holds, at most two mild ones do. */
  lemma FewMild(m: Memberships)
    requires m.Valid() && HarshHolds(m)
    ensures Pair(m, Cell(Low, Wet)) == 0.0 && (Pair(m, Cell(Low, Humid)) == 0.0 || Pair(m, Cell(Medium, Wet)) == 0.0)
  {
    var c :| c in CellsOf(Harsh) && 0.0 < Pair(m, c);
    assert c.h.Dry? || c.t.High?;
  }

  lemma SilentExcess(q: Level, m: Memberships, a: real, c: Cell, score: real)
    requires InPhase(m, q, a) && Pair(m, c) == 0.0
    ensures CellExcess(m, c, score) == 0.0
  {
    SilentPair(m, q, a, c);
    hide CellTotal, CellMoment;
  }

  lemma MildExcess(m: Memberships, score: real)
    ensures GroupExcess(m, CellsOf(Mild), score)
         == CellExcess(m, Cell(Low, Humid), score) + CellExcess(m, Cell(Low, Wet), score)
          + CellExcess(m, Cell(Medium, Humid), score) + CellExcess(m, Cell(Medium, Wet), score)
  {
    hide CellExcess;
    var s := CellsOf(Mild);
    assert s[..4] == s;
    ExcessOfPrefix(m, s, score, 1);
    ExcessOfPrefix(m, s, score, 2);
    ExcessOfPrefix(m, s, score, 3);
    ExcessOfPrefix(m, s, score, 4);
    assert GroupExcess(m, s[..0], score) == 0.0;
    hide GroupExcess;
  }

  lemma ExcessOfPrefix(m: Memberships, s: seq<Cell>, score: real, i: nat)
    requires 0 < i <= |s|
    ensures GroupExcess(m, s[..i], score) == GroupExcess(m, s[..i - 1], score) + CellExcess(m, s[i - 1], score)
  {
    assert s[..i][..i - 1] == s[..i - 1];
  }

  lemma {:induction false} GroupAtLeastOne(m: Memberships, cells: seq<Cell>, score: real, c: Cell, y: real)
    requires forall d :: d in cells ==> CellExcess(m, d, score) >= 0.0
    requires c in cells && CellExcess(m, c, score) >= y
    ensures GroupExcess(m, cells, score) >= y
  {
    hide CellExcess;
    var front := cells[..|cells| - 1];
    if cells[|cells| - 1] == c {
      GroupNonnegative(m, front, score);
    } else {
      GroupAtLeastOne(m, front, score, c, y);
    }
  }

  /** What a pair of this kind may owe, or has to have to spare, for all pairs to reach the score. */
  predicate Spares(kind: Kind, m: Memberships, c: Cell, score: real, x: real) {
    match kind
    case Mild => CellExcess(m, c, score) >= -x && (0.5 <= Pair(m, c) ==> CellExcess(m, c, score) >= x)
    case Harsh => CellExcess(m, c, score) >= 0.0 && (0.5 <= Pair(m, c) ==> CellExcess(m, c, score) >= 2.0 * x)
  }

  lemma BothAtLeast(q: Level, m: Memberships, a: real, score: real, x: real)
    requires InPhase(m, q, a) && HarshHolds(m) && 0.0 <= x
    requires forall kind, c :: c in CellsOf(kind) ==> Spares(kind, m, c, score, x)
    ensures 0.0 <= Both(m, score)
  {
    hide CellExcess, Pair, HarshHolds, InPhase, GroupExcess;
    PhaseIsValid(m, q, a);
    FewMild(m);
    SilentExcess(q, m, a, Cell(Low, Wet), score);
    var idle := if Pair(m, Cell(Low, Humid)) == 0.0 then Cell(Low, Humid) else Cell(Medium, Wet);
    SilentExcess(q, m, a, idle, score);
    MildExcess(m, score);
    MildAllSpare(m, score, x);
    var kind, c := HeavyPair(m);
    assert Spares(kind, m, c, score, x);
    forall d | d in CellsOf(Harsh) ensures CellExcess(m, d, score) >= 0.0 {
      assert Spares(Harsh, m, d, score, x);
    }
    GroupNonnegative(m, CellsOf(Harsh), score);
    if kind.Harsh? {
      GroupAtLeastOne(m, CellsOf(Harsh), score, c, 2.0 * x);
    }
  }

  lemma MildAllSpare(m: Memberships, score: real, x: real)
    requires forall kind, c :: c in CellsOf(kind) ==> Spares(kind, m, c, score, x)
    ensures forall c :: c in CellsOf(Mild) ==> CellExcess(m, c, score) >= -x
  {
    forall c | c in CellsOf(Mild) ensures CellExcess(m, c, score) >= -x {
      assert Spares(Mild, m, c, score, x);
    }
  }

  /** On the second half of the first way. */
  lemma FirstWayLate(m: Memberships, a: real)
    requires InPhase(m, Low, a) && 0.5 <= a && HarshHolds(m)
    ensures 0.0 <= Both(m, 27.4)
  {
    forall kind, c | c in CellsOf(kind) ensures Spares(kind, m, c, 27.4, 2.2) {
      hide Pair, CellExcess, PairExcess, HarshHolds;
      PairInUnit(m, c);
      PhaseCell(m, c, Low, a, 27.4);
      AssignmentRules(c.t, c.h);
      MildPastHalf(Pair(m, c), a);
      PairAbove(Pair(m, c), a, RampOf(Moderate), RampOf(Usg), 27.4);
    }
    BothAtLeast(Low, m, a, 27.4, 2.2);
  }

  /** On the second way, and on its second half. */
  lemma SecondWay(m: Memberships, a: real)
    requires InPhase(m, Medium, a) && HarshHolds(m)
    ensures 0.0 <= Both(m, 36.1)
  {
    forall kind, c | c in CellsOf(kind) ensures Spares(kind, m, c, 36.1, 0.32) {
      hide Pair, CellExcess, PairExcess, HarshHolds;
      PairInUnit(m, c);
      PhaseCell(m, c, Medium, a, 36.1);
      AssignmentRules(c.t, c.h);
      MildOnSecondWay(Pair(m, c), a);
      PairAbove(Pair(m, c), a, RampOf(Usg), RampOf(Unhealthy), 36.1);
      PairAbove(Pair(m, c), a, RampOf(Usg), RampOf(VeryUnhealthy), 36.1);
    }
    BothAtLeast(Medium, m, a, 36.1, 0.32);
  }

  lemma SecondWayLate(m: Memberships, a: real)
    requires InPhase(m, Medium, a) && 0.5 <= a
    ensures 0.0 <= Both(m, 47.5)
  {
    forall kind, c | c in CellsOf(kind) ensures CellExcess(m, c, 47.5) >= 0.0 {
      hide Pair, CellExcess, PairExcess;
      PairInUnit(m, c);
      PhaseCell(m, c, Medium, a, 47.5);
      AssignmentRules(c.t, c.h);
      PairMiddle(Pair(m, c), a, RampOf(Moderate), RampOf(Unhealthy), 47.5);
      PairAbove(Pair(m, c), a, RampOf(Usg), RampOf(Unhealthy), 47.5);
      PairAbove(Pair(m, c), a, RampOf(Usg), RampOf(VeryUnhealthy), 47.5);
    }
    GroupNonnegative(m, CellsOf(Mild), 47.5);
    GroupNonnegative(m, CellsOf(Harsh), 47.5);
  }

  // ----- above the cap of the mild pairs: what they lose more, the harsh ones have to spare -----

  /** How far a score lies above the cap of the mild pairs on the first way. */
  function Over(score: real): real { score - MostFair(Mild, Low) }

  /** What harsh pairs lose less than mild ones, per strength. */
  function Spare(): (s: real)
    ensures 0.0 < s
  {
    Slack(Mild) - Slack(Harsh)
  }

  lemma CellOverrun(m: Memberships, a: real, n: Memberships, b: real, score: real, c: Cell)
    requires InPhase(m, Low, a) && InPhase(n, Low, b) && a <= b && m.t == n.t && m.h == n.h
    requires c in CellsOf(Mild) && 0.0 <= Over(score) && LeastFair(Low) <= score
    ensures CellExcess(m, c, score)
         <= CellExcess(n, c, score) + CellAllowance(Slack(Mild), n, c) + CellAllowance(Over(score), m, c)
  {
    hide Pair, CellExcess, CellTotal, PairExcess, PairStrength, RampsFit, RuleRamp, Floor.Bears, Slack;
    SamePair(m, n, c);
    PairInUnit(m, c);
    PhaseCell(m, c, Low, a, score);
    PhaseCell(n, c, Low, b, score);
    FairToKind(Mild, Low, c, score);
    MildCap(c);
    PairOverrun(Pair(m, c), a, b, RuleRamp(c.t, c.h, Low), RuleRamp(c.t, c.h, Medium), Slack(Mild), FloorFor(Mild),
                score, CellAllowance(Slack(Mild), n, c), CellAllowance(Over(score), m, c));
  }

  lemma MildCap(c: Cell)
    requires c in CellsOf(Mild)
    ensures RuleRamp(c.t, c.h, Medium).lo + 2.0 * Slack(Mild) == MostFair(Mild, Low)
  {
  }

  lemma {:induction false} GroupOverrun(
    m: Memberships, a: real, n: Memberships, b: real, score: real, cells: seq<Cell>)
    requires InPhase(m, Low, a) && InPhase(n, Low, b) && a <= b && m.t == n.t && m.h == n.h
    requires (forall c :: c in cells ==> c in CellsOf(Mild)) && 0.0 <= Over(score) && LeastFair(Low) <= score
    ensures GroupExcess(m, cells, score)
         <= GroupExcess(n, cells, score) + Allowance(Slack(Mild), n, cells) + Allowance(Over(score), m, cells)
  {
    hide CellExcess, InPhase, Slack, Over, CellsOf;
    if cells == [] {
      assert Allowance(Slack(Mild), n, cells) == 0.0 && Allowance(Over(score), m, cells) == 0.0;
    } else {
      var c, front := cells[|cells| - 1], cells[..|cells| - 1];
      GroupOverrun(m, a, n, b, score, front);
      CellOverrun(m, a, n, b, score, c);
      AllowanceAdds(Slack(Mild), n, cells);
      AllowanceAdds(Over(score), m, cells);
      hide Allowance, CellAllowance;
    }
  }

  /** Harsh pairs lose at most their own slack there. */
  lemma HarshLoss(m: Memberships, a: real, n: Memberships, b: real, score: real)
    requires InPhase(m, Low, a) && InPhase(n, Low, b) && a <= b && m.t == n.t && m.h == n.h && 40.0 <= score <= 60.0
    ensures GroupExcess(m, CellsOf(Harsh), score)
         <= GroupExcess(n, CellsOf(Harsh), score) + Allowance(Slack(Harsh), n, CellsOf(Harsh))
  {
    hide InPhase, GroupExcess, Slack, Allowance, CellsOf, FairCell, SixTenths, Pair;
    PhaseIsValid(n, Low, b);
    assert FloorOf(Harsh, Low, 0.5) <= score <= Base(Harsh, Low).lo + Cap(Harsh, Low);
    forall c | c in CellsOf(Harsh) ensures FairCell(c, Low, m, a, b, Slack(Harsh), SixTenths(0.5), score) {
      KindIsFair(Harsh, Low, c, m, a, b, 0.5, score);
    }
    GroupLoss(Low, m, a, n, b, Slack(Harsh), SixTenths(0.5), score, CellsOf(Harsh));
  }

  /** The extra loss is covered. */
  predicate Covered(m: Memberships, n: Memberships, score: real) {
    Allowance(Over(score), m, CellsOf(Mild)) <= Allowance(Spare(), n, CellsOf(Harsh))
  }

  lemma CoveredDip(m: Memberships, a: real, n: Memberships, b: real, score: real)
    requires InPhase(m, Low, a) && InPhase(n, Low, b) && a <= b && m.t == n.t && m.h == n.h
    requires 0.0 <= Over(score) && score <= 60.0 && 0.0 <= Both(m, score) && Covered(m, n, score)
    ensures 0.0 <= Both(n, score - Slack(Mild))
  {
    assert 40.0 <= score && LeastFair(Low) <= score;
    var k := Slack(Mild);
    Distribute(Total(n, CellsOf(Harsh)), Slack(Harsh), Spare());
    assert Allowance(k, n, CellsOf(Harsh))
        == Allowance(Slack(Harsh), n, CellsOf(Harsh)) + Allowance(Spare(), n, CellsOf(Harsh));
    hide InPhase, GroupExcess, Slack, Allowance, CellsOf, Over, Spare;
    GroupOverrun(m, a, n, b, score, CellsOf(Mild));
    HarshLoss(m, a, n, b, score);
    LowerGroupScore(k, n, CellsOf(Mild), score, score - k);
    LowerGroupScore(k, n, CellsOf(Harsh), score, score - k);
  }

  /** If the mild strength is small enough against the harsh one, so is what it loses more. */
  lemma CoverScaled(x: real, y: real, e: real, p: real, q: real, s: real)
    requires 0.0 < p && 0.0 <= e && 0.0 <= y && p * x <= q * y && e * q <= s * p
    ensures e * x <= s * y
  {
    Nonnegative(e, q * y - p * x);
    Nonnegative(s * p - e * q, y);
    CoverIdentity(x, y, e, p, q, s);
    CompareScaled(e * x, s * y, p);
  }

  lemma CoverIdentity(x: real, y: real, e: real, p: real, q: real, s: real)
    ensures (s * y) * p - (e * x) * p == e * (q * y - p * x) + (s * p - e * q) * y
  {
  }

  /** No harsh pair is heavy: their score stays below 53.75. */
  lemma CoveredByMany(m: Memberships, a: real, n: Memberships, b: real, score: real)
    requires InPhase(m, Low, a) && InPhase(n, Low, b) && a <= 0.5 && m.t == n.t && m.h == n.h
    requires 0.0 <= Over(score) && Both(m, score) == 0.0
    requires forall c :: c in CellsOf(Harsh) ==> Pair(m, c) <= 0.75
    ensures Covered(m, n, score)
  {
    hide InPhase, GroupExcess, CellsOf, Pair, Total, Allowance, Covered;
    TotalAtLeast(m, Low, a, CellsOf(Mild));
    TotalAtLeast(m, Low, a, CellsOf(Harsh));
    TotalsDouble(m, a, n, b, CellsOf(Harsh));
    KindCeiling(Mild, Low, m, a);
    HarshStayBelow(m, a);
    LowerGroupScore(40.0 - score, m, CellsOf(Mild), 40.0, score);
    LowerGroupScore(53.75 - score, m, CellsOf(Harsh), 53.75, score);
    ManyCover(m, n, score);
  }

  lemma ManyCover(m: Memberships, n: Memberships, score: real)
    requires 0.0 <= Over(score) && 0.0 <= Total(m, CellsOf(Mild))
    requires 0.0 <= Total(m, CellsOf(Harsh)) <= 2.0 * Total(n, CellsOf(Harsh))
    requires 0.0 <= Allowance(40.0 - score, m, CellsOf(Mild)) + Allowance(53.75 - score, m, CellsOf(Harsh))
    ensures Covered(m, n, score)
  {
    hide CellsOf, Total;
    var x, z, y := Total(m, CellsOf(Mild)), Total(m, CellsOf(Harsh)), Total(n, CellsOf(Harsh));
    var e, s, p, r := Over(score), Spare(), score - 40.0, 53.75 - score;
    ManyAreEnough(score, e);
    assert 0.0 < p;
    hide Over, Spare;
    if r < 0.0 {
      Nonnegative(-r, z);
      NothingLeft(p, x);
      Nonnegative(s, y);
    } else {
      Nonnegative(r, 2.0 * y - z);
      assert r * (2.0 * y - z) == 2.0 * r * y - r * z;
      CoverScaled(x, y, e, p, 2.0 * r, s);
    }
  }

  lemma NothingLeft(p: real, x: real)
    requires 0.0 < p && 0.0 <= x && p * x <= 0.0
    ensures x == 0.0
  {
  }

  lemma ManyAreEnough(score: real, e: real)
    requires e == Over(score)
    ensures e * (2.0 * (53.75 - score)) <= Spare() * (score - 40.0)
  {
    SquareNonnegative(e - 2.53);
  }

  lemma {:induction false} TotalsDouble(m: Memberships, a: real, n: Memberships, b: real, cells: seq<Cell>)
    requires InPhase(m, Low, a) && InPhase(n, Low, b) && m.t == n.t && m.h == n.h
    ensures Total(m, cells) <= 2.0 * Total(n, cells)
  {
    if cells == [] {
    } else {
      var c := cells[|cells| - 1];
      TotalsDouble(m, a, n, b, cells[..|cells| - 1]);
      hide CellExcess, PairExcess, Pair, PairStrength, CellTotal;
      SamePair(m, n, c);
      PairInUnit(m, c);
      PhaseCell(m, c, Low, a, 0.0);
      PhaseCell(n, c, Low, b, 0.0);
      StrengthMoves(Pair(m, c), a, a);
      StrengthMoves(Pair(m, c), b, b);
    }
  }

  lemma HarshStayBelow(m: Memberships, a: real)
    requires InPhase(m, Low, a) && a <= 0.5
    requires forall c :: c in CellsOf(Harsh) ==> Pair(m, c) <= 0.75
    ensures GroupExcess(m, CellsOf(Harsh), 53.75) <= 0.0
  {
    forall c | c in CellsOf(Harsh) ensures CellExcess(m, c, 53.75) <= 0.0 {
      hide Pair, CellExcess, PairExcess;
      PairInUnit(m, c);
      PhaseCell(m, c, Low, a, 53.75);
      AssignmentRules(c.t, c.h);
      HarshBeforeHalf(Pair(m, c), a);
    }
    GroupNonpositive(m, CellsOf(Harsh), 53.75);
  }

  /** One harsh pair is heavy: all others are light. */
  lemma OtherPairs(m: Memberships, c: Cell, d: Cell)
    requires m.Valid() && c != d
    ensures Pair(m, c) + Pair(m, d) <= 1.0
  {
  }

  lemma HarshShare(w: real, a: real, b: real, score: real, k: real, most: real)
    requires 0.0 <= w <= 0.25 || 0.75 <= w <= 1.0
    requires 0.0 <= a <= 0.5 && 0.0 <= b <= 1.0 && 47.5 <= score <= 60.0
    requires k == (60.0 - score) * 4.0 / 3.0 && most == k * PairStrength(w, b)
    ensures PairExcess(w, a, RampOf(Moderate), RampOf(Usg), score) <= most
  {
    StrengthMoves(w, a, a);
    StrengthMoves(w, b, b);
    if w <= 0.25 {
      LightShare(w, a, score, PairStrength(w, a), k, PairStrength(w, b));
    } else {
      HeavyShare(w, a, 60.0 - score, PairStrength(w, a), k, PairStrength(w, b));
    }
  }

  lemma LightShare(w: real, a: real, score: real, x: real, k: real, y: real)
    requires 0.0 <= w <= 0.25 && 0.0 <= a <= 0.5 && 47.5 <= score && x == PairStrength(w, a)
    requires 0.0 <= x && 0.0 <= k && 0.0 <= y
    ensures PairExcess(w, a, RampOf(Moderate), RampOf(Usg), score) <= k * y
  {
    hide PairExcess, PairStrength;
    LightHarsh(w, a);
    PairExcessShift(w, a, RampOf(Moderate), RampOf(Usg), score, 47.5);
    Nonnegative(score - 47.5, x);
    Nonnegative(k, y);
  }

  lemma HeavyShare(w: real, a: real, t: real, x: real, k: real, y: real)
    requires 0.0 <= w && 0.0 <= a <= 0.5 && 0.0 <= t && x == PairStrength(w, a)
    requires k == t * 4.0 / 3.0 && x <= 1.0 && 0.75 <= y
    ensures PairExcess(w, a, RampOf(Moderate), RampOf(Usg), 60.0 - t) <= k * y
  {
    hide PairExcess, PairStrength;
    PairCeiling(w, a, RampOf(Moderate), RampOf(Usg), 30.0, 60.0);
    PairExcessShift(w, a, RampOf(Moderate), RampOf(Usg), 60.0 - t, 60.0);
    Nonnegative(t, 1.0 - x);
    Nonnegative(k, y - 0.75);
    assert t * (1.0 - x) == t - t * x;
    assert k * (y - 0.75) == k * y - 0.75 * k;
  }

  lemma {:induction false} HarshShares(
    m: Memberships, a: real, n: Memberships, b: real, score: real, k: real, cells: seq<Cell>)
    requires InPhase(m, Low, a) && InPhase(n, Low, b) && a <= 0.5 && m.t == n.t && m.h == n.h
    requires 47.5 <= score <= 60.0 && k == (60.0 - score) * 4.0 / 3.0
    requires forall c :: c in cells ==> c in CellsOf(Harsh) && (Pair(m, c) <= 0.25 || 0.75 <= Pair(m, c))
    ensures GroupExcess(m, cells, score) <= Allowance(k, n, cells)
  {
    hide CellExcess, InPhase, Pair, CellsOf;
    if cells == [] {
      assert Allowance(k, n, cells) == 0.0;
    } else {
      var c, front := cells[|cells| - 1], cells[..|cells| - 1];
      HarshShares(m, a, n, b, score, k, front);
      HarshCellShare(m, a, n, b, score, k, c);
      AllowanceAdds(k, n, cells);
      hide Allowance, CellAllowance;
    }
  }

  lemma HarshCellShare(m: Memberships, a: real, n: Memberships, b: real, score: real, k: real, c: Cell)
    requires InPhase(m, Low, a) && InPhase(n, Low, b) && a <= 0.5 && m.t == n.t && m.h == n.h
    requires 47.5 <= score <= 60.0 && k == (60.0 - score) * 4.0 / 3.0
    requires c in CellsOf(Harsh) && (Pair(m, c) <= 0.25 || 0.75 <= Pair(m, c))
    ensures CellExcess(m, c, score) <= CellAllowance(k, n, c)
  {
    hide Pair, CellExcess, PairExcess, PairStrength, CellTotal;
    SamePair(m, n, c);
    PairInUnit(m, c);
    PhaseCell(m, c, Low, a, score);
    PhaseCell(n, c, Low, b, score);
    AssignmentRules(c.t, c.h);
    HarshShare(Pair(m, c), a, b, score, k, CellAllowance(k, n, c));
  }

  lemma LightMildStayBelow(m: Memberships, a: real)
    requires InPhase(m, Low, a) && a <= 0.5
    requires forall c :: c in CellsOf(Mild) ==> Pair(m, c) <= 0.25
    ensures GroupExcess(m, CellsOf(Mild), 23.75) <= 0.0
  {
    forall c | c in CellsOf(Mild) ensures CellExcess(m, c, 23.75) <= 0.0 {
      hide Pair, CellExcess, PairExcess;
      PairInUnit(m, c);
      PhaseCell(m, c, Low, a, 23.75);
      AssignmentRules(c.t, c.h);
      LightMild(Pair(m, c), a);
    }
    GroupNonpositive(m, CellsOf(Mild), 23.75);
  }

  lemma OthersAreLight(m: Memberships, d: Cell)
    requires m.Valid() && d in CellsOf(Harsh) && 0.75 <= Pair(m, d)
    ensures forall c :: c in CellsOf(Mild) ==> Pair(m, c) <= 0.25
    ensures forall c :: c in CellsOf(Harsh) ==> Pair(m, c) <= 0.25 || 0.75 <= Pair(m, c)
  {
    hide Pair, Memberships.Valid;
    assert d !in CellsOf(Mild);
    hide CellsOf;
    forall kind, c | c in CellsOf(kind) && c != d ensures Pair(m, c) <= 0.25 {
      OtherPairs(m, c, d);
    }
  }

  lemma CoveredByOne(m: Memberships, a: real, n: Memberships, b: real, score: real, d: Cell)
    requires InPhase(m, Low, a) && InPhase(n, Low, b) && a <= 0.5 && m.t == n.t && m.h == n.h
    requires 0.0 <= Over(score) && score <= 60.0 && Both(m, score) == 0.0
    requires d in CellsOf(Harsh) && 0.75 <= Pair(m, d)
    ensures Covered(m, n, score)
  {
    assert 47.5 <= score;
    var k := (60.0 - score) * 4.0 / 3.0;
    hide InPhase, GroupExcess, Pair, Total, CellsOf, Allowance, Covered, Over;
    PhaseIsValid(m, Low, a);
    OthersAreLight(m, d);
    TotalAtLeast(n, Low, b, CellsOf(Harsh));
    LightMildStayBelow(m, a);
    LowerGroupScore(23.75 - score, m, CellsOf(Mild), 23.75, score);
    HarshShares(m, a, n, b, score, k, CellsOf(Harsh));
    OneCovers(m, n, score, k);
  }

  lemma OneCovers(m: Memberships, n: Memberships, score: real, k: real)
    requires 0.0 <= Over(score) && k == (60.0 - score) * 4.0 / 3.0 && 0.0 <= Total(n, CellsOf(Harsh))
    requires 0.0 <= Allowance(23.75 - score, m, CellsOf(Mild)) + Allowance(k, n, CellsOf(Harsh))
    ensures Covered(m, n, score)
  {
    hide CellsOf, Total;
    var x, y := Total(m, CellsOf(Mild)), Total(n, CellsOf(Harsh));
    OneIsEnough(score, Over(score));
    assert 0.0 < score - 23.75;
    hide Over, Spare;
    CoverScaled(x, y, Over(score), score - 23.75, k, Spare());
  }

  lemma OneIsEnough(score: real, e: real)
    requires e == Over(score)
    ensures e * ((60.0 - score) * 4.0 / 3.0) <= Spare() * (score - 23.75)
  {
    SquareNonnegative(e - 5.45);
  }

  // ----- the dip on each way, and across the plateau between them -----

  lemma FirstWayCap(m: Memberships, a: real)
    requires InPhase(m, Low, a) && a <= 0.5
    ensures Both(m, 60.0) <= 0.0
  {
    hide InPhase, GroupExcess, CellsOf;
    KindCeiling(Mild, Low, m, a);
    KindCeiling(Harsh, Low, m, a);
    GroupFalls(Low, m, a, CellsOf(Mild), 40.0, 60.0);
  }

  lemma SecondWayCap(m: Memberships, a: real)
    requires InPhase(m, Medium, a) && a <= 0.5
    ensures Both(m, 79.0) <= 0.0
  {
    hide InPhase, GroupExcess, CellsOf;
    KindCeiling(Mild, Medium, m, a);
    KindCeiling(Harsh, Medium, m, a);
    GroupFalls(Medium, m, a, CellsOf(Mild), 65.0, 79.0);
  }

  lemma FirstWayDip(m: Memberships, a: real, n: Memberships, b: real)
    requires InPhase(m, Low, a) && InPhase(n, Low, b) && a <= b && m.t == n.t && m.h == n.h && HarshHolds(n)
    ensures Score(n) >= Score(m) - Slack(Mild)
  {
    var score := Score(m);
    hide InPhase, Both, Score, Pair, HarshHolds, CellsOf, Covered;
    PhaseIsValid(m, Low, a);
    PhaseIsValid(n, Low, b);
    BothIsScore(m, 60.0);
    BothIsScore(n, 27.4);
    BothIsScore(n, score - Slack(Mild));
    if a <= 0.5 { FirstWayCap(m, a); }
    if 0.5 < b && score < LeastFair(Low) {
      FirstWayLate(n, b);
    } else if 0.5 <= a || Over(score) <= 0.0 || (forall c :: c in CellsOf(Mild) ==> Pair(m, c) <= a) {
      FairDip(Low, m, a, n, b, score);
    } else {
      if d :| d in CellsOf(Harsh) && 0.75 < Pair(m, d) {
        CoveredByOne(m, a, n, b, score, d);
      } else {
        CoveredByMany(m, a, n, b, score);
      }
      CoveredDip(m, a, n, b, score);
    }
  }

  lemma SecondWayDip(m: Memberships, a: real, n: Memberships, b: real)
    requires InPhase(m, Medium, a) && InPhase(n, Medium, b) && a <= b && m.t == n.t && m.h == n.h
    ensures Score(n) >= Score(m) - Slack(Mild)
  {
    var score := Score(m);
    hide InPhase, Both, Score, Pair, CellsOf;
    PhaseIsValid(m, Medium, a);
    PhaseIsValid(n, Medium, b);
    BothIsScore(m, 79.0);
    BothIsScore(n, 47.5);
    BothIsScore(n, score - Slack(Mild));
    if a <= 0.5 { SecondWayCap(m, a); }
    if 0.5 < b && score < LeastFair(Medium) {
      SecondWayLate(n, b);
    } else {
      FairDip(Medium, m, a, n, b, score);
    }
  }

  /** A score of 45 is not lost on the way to the plateau. */
  lemma PlateauKeeps(m: Memberships, a: real, n: Memberships)
    requires InPhase(m, Low, a) && InPhase(n, Low, 1.0) && m.t == n.t && m.h == n.h && 45.0 <= Score(m)
    ensures Score(m) <= Score(n)
  {
    var score := Score(m);
    hide InPhase, Score, Heaviest, CellsOf, GroupExcess, Pair, MarginFloor;
    PhaseIsValid(m, Low, a);
    PhaseIsValid(n, Low, 1.0);
    BothIsScore(m, score);
    BothIsScore(n, score);
    forall kind ensures GroupExcess(m, CellsOf(kind), score) <= GroupExcess(n, CellsOf(kind), score) {
      var w := Heaviest(m, CellsOf(kind));
      HeaviestIs(m, CellsOf(kind));
      MarginBelow(kind, w, a);
      KindGains(kind, m, a, n, w, score, CellsOf(kind));
    }
  }

  lemma MarginBelow(kind: Kind, w: real, a: real)
    requires 0.0 <= w && 0.0 <= a <= 1.0
    ensures MarginFloor(kind, Margin(w, a)) <= 45.0
  {
  }

  lemma DipAcross(m: Memberships, a: real, mid: Memberships, n: Memberships, b: real)
    requires InPhase(m, Low, a) && InPhase(mid, Low, 1.0) && InPhase(mid, Medium, 0.0) && InPhase(n, Medium, b)
    requires m.t == n.t == mid.t && m.h == n.h == mid.h && 0.0 <= b && HarshHolds(n)
    ensures Score(n) >= Score(m) - Slack(Mild)
  {
    hide InPhase, Score, HarshHolds, Both;
    if Score(m) <= 45.0 {
      PhaseIsValid(n, Medium, b);
      SecondWay(n, b);
      BothIsScore(n, 36.1);
    } else {
      PlateauKeeps(m, a, mid);
      SecondWayDip(mid, 0.0, n, b);
    }
  }

  lemma HarshStaysHeld(t: real, h: real, p1: real, p2: real)
    requires 0.0 < Total(Graded(t, h, p1), CellsOf(Harsh))
    ensures HarshHolds(Graded(t, h, p2))
  {
    var m, n := Graded(t, h, p1), Graded(t, h, p2);
    hide Graded, Total, LowAt, HighAt, InPhase;
    GradedPhase(t, h, p1);
    if p1 <= 100.0 {
      TotalAtLeast(m, Low, LowAt(p1), CellsOf(Harsh));
    } else {
      TotalAtLeast(m, Medium, HighAt(p1), CellsOf(Harsh));
    }
    var c :| c in CellsOf(Harsh) && 0.0 < Pair(m, c);
    SameClimate(t, h, p1, p2);
    SamePair(m, n, c);
  }

  lemma MixedDip(t: real, h: real, p1: real, p2: real)
    requires p1 <= p2 && 0.0 < Total(Graded(t, h, p1), CellsOf(Harsh))
    ensures Score(Graded(t, h, p2)) >= Score(Graded(t, h, p1)) - Slack(Mild)
  {
    hide InPhase, Graded, Slack, Score, Total, LowAt, HighAt, CellsOf, HarshHolds;
    var m, n, mid := Graded(t, h, p1), Graded(t, h, p2), Graded(t, h, 100.0);
    GradedPhase(t, h, p1);
    GradedPhase(t, h, p2);
    GradedPhase(t, h, 100.0);
    PositionsRise(p1, p2);
    SameClimate(t, h, p1, p2);
    SameClimate(t, h, p1, 100.0);
    HarshStaysHeld(t, h, p1, p2);
    if p2 <= 100.0 {
      FirstWayDip(m, LowAt(p1), n, LowAt(p2));
    } else if 100.0 <= p1 {
      SecondWayDip(m, HighAt(p1), n, HighAt(p2));
    } else {
      DipAcross(m, LowAt(p1), mid, n, HighAt(p2));
    }
  }

  /**
   At every temperature and humidity more PM2.5 lowers the score by at most 2500/280, the dip that
   mild climates reach, and by at most 8.93 after rounding.
   */
  lemma DipAnywhere(t: real, h: real, p1: real, p2: real)
    requires p1 <= p2
    ensures Score(Graded(t, h, p2)) >= Score(Graded(t, h, p1)) - 2500.0 / 280.0
    ensures Round2(Score(Graded(t, h, p2))) >= Round2(Score(Graded(t, h, p1))) - 8.93
  {
    var m, n := Graded(t, h, p1), Graded(t, h, p2);
    assert Slack(Mild) == 2500.0 / 280.0;
    hide Graded, Total, Score, CellsOf, Round2, Slack;
    if 0.0 < Total(m, CellsOf(Harsh)) {
      MixedDip(t, h, p1, p2);
    } else {
      DipOfOneKind(t, h, p1, p2, Mild);
    }
    RoundedFall(Score(m), Score(n));
  }

  lemma MildAir()
    ensures OfLevel(Temperature(10.0), Low) == 1.0 && OfMoisture(Humidity(75.0), Humid) == 1.0
  {
  }

  lemma CleanProfile()
    ensures Profile(Pm(50.0), Cell(Low, Humid)) == 40.0
  {
  }

  /** Reached in mild air, from the clean plateau's score of 40. */
  lemma WorstDipReached() returns (p: real)
    ensures 50.0 <= p && Score(Graded(10.0, 75.0, 50.0)) == 40.0
    ensures Score(Graded(10.0, 75.0, p)) == 40.0 - 2500.0 / 280.0
  {
    hide Score, Profile, Turn, Pm, Temperature, Humidity, RampOf, OfLevel, OfMoisture, Graded;
    var c := Cell(Low, Humid);
    MildAir();
    CleanProfile();
    RulesDip(c);
    p := 50.0 + Turn(RuleRamp(c.t, c.h, Low), RuleRamp(c.t, c.h, Medium)) * 50.0;
    ProfileReached(c, p);
    WorstDipValue(c);
    SettledInput(10.0, 75.0, c, 50.0);
    SettledInput(10.0, 75.0, c, p);
  }

  ghost predicate FallsAtMost(dip: real) {
    forall t, h, p1, p2 :: p1 <= p2 ==> Score(Graded(t, h, p2)) >= Score(Graded(t, h, p1)) - dip
  }

  ghost predicate RoundedFallsAtMost(dip: real) {
    forall t, h, p1, p2 :: p1 <= p2 ==> Round2(Score(Graded(t, h, p2))) >= Round2(Score(Graded(t, h, p1))) - dip
  }

  /** No smaller bounds hold. */
  lemma DipIsExact(dip: real)
    ensures FallsAtMost(dip) <==> 2500.0 / 280.0 <= dip
    ensures RoundedFallsAtMost(dip) <==> 8.93 <= dip
  {
    hide Graded, Score;
    var p := WorstDipReached();
    assert Round2(40.0) == 40.0 && Round2(40.0 - 2500.0 / 280.0) == 31.07;
    hide Round2;
    forall t, h, p1, p2 | p1 <= p2
      ensures Score(Graded(t, h, p2)) >= Score(Graded(t, h, p1)) - 2500.0 / 280.0
      ensures Round2(Score(Graded(t, h, p2))) >= Round2(Score(Graded(t, h, p1))) - 8.93
    {
      DipAnywhere(t, h, p1, p2);
    }
  }
}
