/** EPA AQI from PM2.5 and PM10 by linear interpolation in breakpoint bands, over exact reals. */
module Aqi {
  import opened Common

  /** Measurements lo..hi map to indices ilo..ihi. */
  datatype Band = Band(lo: real, hi: real, ilo: int, ihi: int)

  const PM25: seq<Band> := [
    Band(0.0, 12.0, 0, 50), Band(12.0, 35.4, 51, 100), Band(35.5, 55.4, 101, 150), Band(55.5, 150.4, 151, 200),
    Band(150.5, 250.4, 201, 300), Band(250.5, 350.4, 301, 400), Band(350.5, 500.4, 401, 500)]

  const PM10: seq<Band> := [
    Band(0.0, 54.0, 0, 50), Band(55.0, 154.0, 51, 100), Band(155.0, 254.0, 101, 150), Band(255.0, 354.0, 151, 200),
    Band(355.0, 424.0, 201, 300), Band(425.0, 504.0, 301, 400), Band(505.0, 604.0, 401, 500)]

  const CATEGORIES: seq<string> := [
    "Good", "Moderate", "Unhealthy for Sensitive Groups", "Unhealthy", "Very Unhealthy", "Hazardous", "Hazardous"]

  // ----- one pollutant -----

  function First(c: real, bands: seq<Band>, i: nat): (k: nat)
    requires i < |bands|
    ensures i <= k < |bands|
    ensures forall j :: i <= j < k ==> bands[j].hi < c
    ensures k < |bands| - 1 ==> c <= bands[k].hi
    decreases |bands| - i
  {
    if i == |bands| - 1 || c <= bands[i].hi then i else First(c, bands, i + 1)
  }

  /** `_subindex`: the band that contains `c`, or the last one. */
  function Subindex(c: real, bands: seq<Band>): (k: nat)
    requires bands != []
    ensures k < |bands|
  {
    First(c, bands, 0)
  }

  function Clamped(c: real, bands: seq<Band>): real
    requires bands != []
  {
    var top := bands[|bands| - 1].hi;
    var below := if top < c then top else c;
    if below < 0.0 then 0.0 else below
  }

  function Slope(b: Band): real
    requires b.lo < b.hi
  {
    (b.ihi - b.ilo) as real / (b.hi - b.lo)
  }

  function Scaled(c: real, b: Band): real
    requires b.lo < b.hi
  {
    Slope(b) * (c - b.lo) + b.ilo as real
  }

  /** Bands rise, and each starts at an index one above the end of the previous one. */
  predicate Table(bands: seq<Band>) {
    && bands != [] && bands[0].lo == 0.0 && bands[0].ilo == 0
    && (forall i :: 0 <= i < |bands| ==> bands[i].lo < bands[i].hi && bands[i].ilo < bands[i].ihi)
    && (forall i :: 0 < i < |bands| ==> bands[i - 1].hi <= bands[i].lo && bands[i].ilo == bands[i - 1].ihi + 1)
  }

  function BandOf(c: real, bands: seq<Band>): Band
    requires Table(bands)
  {
    bands[Subindex(Clamped(c, bands), bands)]
  }

  /** `_aqi_for` on a finite concentration. */
  function Index(c: real, bands: seq<Band>): int
    requires Table(bands)
  {
    Scaled(Clamped(c, bands), BandOf(c, bands)).Floor
  }

  // ----- interpolation -----

  lemma SlopePositive(b: Band)
    requires b.lo < b.hi && b.ilo < b.ihi
    ensures Slope(b) > 0.0
  {
  }

  lemma Product(k: real, a: real, b: real)
    requires k > 0.0
    ensures a <= b ==> k * a <= k * b
    ensures a < b ==> k * a < k * b
    ensures k * 0.0 == 0.0 && k * -a == -(k * a)
  {
  }

  lemma ScaledRises(b: Band, c: real, d: real)
    requires b.lo < b.hi && b.ilo < b.ihi
    ensures c <= d ==> Scaled(c, b) <= Scaled(d, b)
    ensures c < d ==> Scaled(c, b) < Scaled(d, b)
  {
  }

  lemma ScaledEnds(b: Band)
    requires b.lo < b.hi
    ensures Scaled(b.lo, b) == b.ilo as real && Scaled(b.hi, b) == b.ihi as real
  {
  }

  lemma {:induction false} TableOrder(bands: seq<Band>, i: nat, j: nat)
    requires Table(bands) && i < j < |bands|
    ensures bands[i].hi <= bands[j - 1].hi <= bands[j].lo && bands[i].ihi <= bands[j - 1].ihi < bands[j].ilo
  {
    if i == j - 1 {
    } else {
      TableOrder(bands, i, j - 1);
    }
  }

  lemma SubindexRises(bands: seq<Band>, c: real, d: real)
    requires Table(bands) && c <= d
    ensures Clamped(c, bands) <= Clamped(d, bands)
    ensures Subindex(Clamped(c, bands), bands) <= Subindex(Clamped(d, bands), bands)
  {
  }

  /** A concentration below the start of its band lies in the gap to the previous band. */
  predicate InGap(c: real, bands: seq<Band>)
    requires Table(bands)
  {
    Clamped(c, bands) < BandOf(c, bands).lo
  }

  lemma ClampedInBand(c: real, bands: seq<Band>)
    requires Table(bands)
    ensures var i := Subindex(Clamped(c, bands), bands);
            && 0.0 <= Clamped(c, bands) <= bands[i].hi && (i > 0 ==> bands[i - 1].hi < Clamped(c, bands))
  {
  }

  /** The index lies in the range of its band, except in a gap, where it lies below it. */
  lemma IndexInBand(c: real, bands: seq<Band>)
    requires Table(bands)
    ensures var b := BandOf(c, bands);
            Index(c, bands) <= b.ihi && (b.ilo <= Index(c, bands) <==> !InGap(c, bands))
  {
    var b, x := BandOf(c, bands), Clamped(c, bands);
    ClampedInBand(c, bands);
    ScaledEnds(b);
    ScaledRises(b, x, b.hi);
    ScaledRises(b, b.lo, x);
    ScaledRises(b, x, b.lo);
    hide Scaled, First, Subindex, Clamped;
  }

  /** No gap of the table loses more than `d` index points. */
  predicate GapsLoseAtMost(bands: seq<Band>, d: nat)
    requires Table(bands)
  {
    forall i :: 0 < i < |bands| ==> Slope(bands[i]) * (bands[i].lo - bands[i - 1].hi) <= 1.0 + d as real
  }

  lemma GapLoss(c: real, bands: seq<Band>, d: nat)
    requires Table(bands) && GapsLoseAtMost(bands, d)
    ensures BandOf(c, bands).ilo - 1 - d <= Index(c, bands)
  {
    hide First, Subindex, Slope, Clamped;
    var i, b, x := Subindex(Clamped(c, bands), bands), BandOf(c, bands), Clamped(c, bands);
    IndexInBand(c, bands);
    if InGap(c, bands) {
      ClampedInBand(c, bands);
      SlopePositive(b);
      Product(Slope(b), b.lo - x, b.lo - bands[i - 1].hi);
      assert x - b.lo == -(b.lo - x);
      assert Scaled(x, b) >= (b.ilo - 1 - d) as real;
    }
  }

  /** As the concentration rises the index never falls by more than the table's gaps lose. */
  lemma NeverFallsByMoreThan(bands: seq<Band>, d: nat, c1: real, c2: real)
    requires Table(bands) && GapsLoseAtMost(bands, d) && c1 <= c2
    ensures Index(c1, bands) - d <= Index(c2, bands)
    ensures !InGap(c2, bands) ==> Index(c1, bands) <= Index(c2, bands)
  {
    SubindexRises(bands, c1, c2);
    var i, j := Subindex(Clamped(c1, bands), bands), Subindex(Clamped(c2, bands), bands);
    if i == j {
      ScaledRises(bands[i], Clamped(c1, bands), Clamped(c2, bands));
    } else {
      TableOrder(bands, i, j);
      IndexInBand(c1, bands);
      IndexInBand(c2, bands);
      GapLoss(c2, bands, d);
    }
  }

  lemma WithinRange(c: real, bands: seq<Band>)
    requires Table(bands) && GapsLoseAtMost(bands, 1)
    ensures 0 <= Index(c, bands) <= bands[|bands| - 1].ihi
  {
    var i := Subindex(Clamped(c, bands), bands);
    ClampedInBand(c, bands);
    IndexInBand(c, bands);
    GapLoss(c, bands, 1);
    if i < |bands| - 1 { TableOrder(bands, i, |bands| - 1); }
    if i > 0 { TableOrder(bands, 0, i); }
  }

  // ----- the two tables -----

  lemma Pm25Table()
    ensures Table(PM25) && GapsLoseAtMost(PM25, 0) && |PM25| == |CATEGORIES| == 7
  {
    Steps(PM25, 0);
  }

  lemma Pm10Table()
    ensures Table(PM10) && GapsLoseAtMost(PM10, 1) && |PM10| == |CATEGORIES| == 7
  {
    Steps(PM10, 1);
  }

  /** The table conditions, band by band. */
  predicate Step(a: Band, b: Band, d: nat) {
    && b.lo < b.hi && b.ilo < b.ihi && a.hi <= b.lo && b.ilo == a.ihi + 1
    && Slope(b) * (b.lo - a.hi) <= 1.0 + d as real
  }

  lemma Steps(bands: seq<Band>, d: nat)
    requires |bands| == 7 && bands[0].lo == 0.0 < bands[0].hi && bands[0].ilo == 0 < bands[0].ihi
    requires Step(bands[0], bands[1], d) && Step(bands[1], bands[2], d) && Step(bands[2], bands[3], d)
    requires Step(bands[3], bands[4], d) && Step(bands[4], bands[5], d) && Step(bands[5], bands[6], d)
    ensures Table(bands) && GapsLoseAtMost(bands, d)
  {
    forall i | 0 < i < |bands| ensures Step(bands[i - 1], bands[i], d) {
      if i == 1 {} else if i == 2 {} else if i == 3 {} else if i == 4 {} else if i == 5 {} else {}
    }
  }

  /** PM2.5: monotone, within 0..500. */
  lemma Pm25Shape(c1: real, c2: real)
    ensures Table(PM25) && 0 <= Index(c1, PM25) <= 500
    ensures c1 <= c2 ==> Index(c1, PM25) <= Index(c2, PM25)
  {
    Pm25Table();
    WithinRange(c1, PM25);
    if c1 <= c2 { NeverFallsByMoreThan(PM25, 0, c1, c2); }
  }

  /** PM10: within 0..500, never falls by more than one, and does not fall at whole concentrations. */
  lemma Pm10Shape(c1: real, c2: real)
    ensures Table(PM10) && 0 <= Index(c1, PM10) <= 500
    ensures c1 <= c2 ==> Index(c1, PM10) - 1 <= Index(c2, PM10)
    ensures c1 <= c2 && c2 == c2.Floor as real ==> Index(c1, PM10) <= Index(c2, PM10)
  {
    Pm10Table();
    WithinRange(c1, PM10);
    hide First, Subindex, Index, Clamped, Table, InGap, GapsLoseAtMost, UnitGaps;
    if c1 <= c2 {
      NeverFallsByMoreThan(PM10, 1, c1, c2);
      if c2 == c2.Floor as real {
        Pm10UnitGaps();
        Pm10TopIsWhole(c2);
        WholeNumbersAreOutsideGaps(c2, PM10);
      }
    }
  }

  /** Neighbouring bands of the PM10 table are one whole unit apart. */
  predicate UnitGaps(bands: seq<Band>) {
    forall i :: 0 < i < |bands| ==> bands[i].lo == bands[i - 1].hi + 1.0 && bands[i].lo == bands[i].lo.Floor as real
  }

  lemma Pm10UnitGaps()
    ensures UnitGaps(PM10)
  {
    forall i | 0 < i < |PM10|
      ensures PM10[i].lo == PM10[i - 1].hi + 1.0 && PM10[i].lo == PM10[i].lo.Floor as real
    {
      if i == 1 {} else if i == 2 {} else if i == 3 {} else if i == 4 {} else if i == 5 {} else {}
    }
  }

  lemma WholeStep(x: real, lo: real)
    requires x == x.Floor as real && lo == lo.Floor as real && lo - 1.0 < x
    ensures lo <= x
  {
    WholeGap(x.Floor, lo.Floor);
  }

  lemma WholeGap(n: int, m: int)
    requires m as real - 1.0 < n as real
    ensures m <= n
  {
  }

  lemma WholeNumbersAreOutsideGaps(c: real, bands: seq<Band>)
    requires Table(bands) && UnitGaps(bands)
    requires Clamped(c, bands) == Clamped(c, bands).Floor as real
    ensures !InGap(c, bands)
  {
    hide First, Subindex, Clamped;
    ClampedInBand(c, bands);
    var k := Subindex(Clamped(c, bands), bands);
    if k > 0 { WholeStep(Clamped(c, bands), bands[k].lo); }
  }

  lemma Pm10TopIsWhole(c: real)
    requires c == c.Floor as real
    ensures Clamped(c, PM10) == Clamped(c, PM10).Floor as real
  {
  }

  /** A fall: one concentration ends a band, and the other is in the gap above, well below its own band. */
  predicate FallsAcross(c1: real, c2: real, bands: seq<Band>)
    requires Table(bands)
  {
    var j := Subindex(Clamped(c2, bands), bands);
    j > 0 && Clamped(c1, bands) == bands[j - 1].hi && Slope(bands[j]) * (Clamped(c2, bands) - bands[j].lo) < -1.0
  }

  /** The index reaches the end of its band only at the upper breakpoint. */
  lemma TopOfBand(c: real, bands: seq<Band>)
    requires Table(bands)
    ensures Index(c, bands) == BandOf(c, bands).ihi <==> Clamped(c, bands) == BandOf(c, bands).hi
  {
    var b, x := BandOf(c, bands), Clamped(c, bands);
    ClampedInBand(c, bands);
    ScaledEnds(b);
    ScaledRises(b, x, b.hi);
    hide Scaled, First, Subindex, Clamped;
  }

  lemma EndsItsBand(c: real, bands: seq<Band>, j: nat)
    requires Table(bands) && 0 < j < |bands| && Clamped(c, bands) == bands[j - 1].hi
    ensures Subindex(Clamped(c, bands), bands) == j - 1
  {
    var i := Subindex(Clamped(c, bands), bands);
    ClampedInBand(c, bands);
    if i == j - 1 {
    } else {
      TableOrder(bands, i, j - 1);
    }
  }

  lemma EndsRise(bands: seq<Band>, i: nat, j: nat)
    requires Table(bands) && i <= j < |bands|
    ensures bands[i].hi <= bands[j].hi
  {
    if i < j { TableOrder(bands, i, j); }
  }

  lemma FallsExactly(c1: real, c2: real, bands: seq<Band>)
    requires Table(bands) && GapsLoseAtMost(bands, 1) && c1 <= c2
    ensures Index(c1, bands) > Index(c2, bands) <==> FallsAcross(c1, c2, bands)
  {
    hide First;
    SubindexRises(bands, c1, c2);
    var i, j := Subindex(Clamped(c1, bands), bands), Subindex(Clamped(c2, bands), bands);
    if j > 0 && Clamped(c1, bands) == bands[j - 1].hi { EndsItsBand(c1, bands, j); }
    if i == j {
      ScaledRises(bands[i], Clamped(c1, bands), Clamped(c2, bands));
    } else {
      FallsBetween(c1, c2, bands);
    }
  }

  lemma FallsBetween(c1: real, c2: real, bands: seq<Band>)
    requires Table(bands) && GapsLoseAtMost(bands, 1)
    requires Subindex(Clamped(c1, bands), bands) < Subindex(Clamped(c2, bands), bands)
    ensures Index(c1, bands) > Index(c2, bands) <==> FallsAcross(c1, c2, bands)
  {
    hide First, Subindex, Slope, Clamped, Index, Table, GapsLoseAtMost, InGap;
    var i, j := Subindex(Clamped(c1, bands), bands), Subindex(Clamped(c2, bands), bands);
    Neighbours(bands, i, j);
    IndexInBand(c1, bands);
    TopOfBand(c1, bands);
    GapLoss(c2, bands, 1);
    BelowPreviousBand(c2, bands);
    if Clamped(c1, bands) == bands[j - 1].hi { EndsItsBand(c1, bands, j); }
  }

  lemma Neighbours(bands: seq<Band>, i: nat, j: nat)
    requires Table(bands) && i < j < |bands|
    ensures bands[i].ihi <= bands[j - 1].ihi == bands[j].ilo - 1
    ensures i < j - 1 ==> bands[i].ihi < bands[j - 1].ihi
  {
    TableOrder(bands, i, j);
    if i == j - 1 {
    } else {
      TableOrder(bands, i, j - 1);
    }
  }

  lemma BelowPreviousBand(c: real, bands: seq<Band>)
    requires Table(bands)
    ensures var b := BandOf(c, bands);
            Index(c, bands) < b.ilo - 1 <==> Slope(b) * (Clamped(c, bands) - b.lo) < -1.0
  {
  }

  /** The two places where the PM10 index falls: just above 354 and just above 424. */
  predicate FallsAt(c1: real, c2: real) {
    || (c1 == 354.0 && 354.0 < c2 && (c2 - 355.0) * 99.0 < -69.0)
    || (c1 == 424.0 && 424.0 < c2 && (c2 - 425.0) * 99.0 < -79.0)
  }

  /** The PM10 index falls between two rising concentrations at exactly these pairs. */
  lemma Pm10FallsExactly(c1: real, c2: real)
    requires c1 <= c2
    ensures Table(PM10) && (Index(c1, PM10) > Index(c2, PM10) <==> FallsAt(c1, c2))
  {
    Pm10Table();
    hide First, Index, Subindex, Table, Slope, FallsAcross, GapsLoseAtMost, Clamped, FallsAt;
    FallsExactly(c1, c2, PM10);
    if FallsAt(c1, c2) { FallsThere(c1, c2); }
    if FallsAcross(c1, c2, PM10) { FallsOnlyThere(c1, c2); }
  }

  lemma FallsThere(c1: real, c2: real)
    requires Table(PM10) && FallsAt(c1, c2)
    ensures FallsAcross(c1, c2, PM10)
  {
    hide First, Subindex;
    Pm10Clamp(c1);
    Pm10Clamp(c2);
    EndsBelow(c2, if c1 == 354.0 then 4 else 5);
  }

  lemma FallsOnlyThere(c1: real, c2: real)
    requires Table(PM10) && FallsAcross(c1, c2, PM10)
    ensures FallsAt(c1, c2)
  {
    hide First, Subindex, Clamped;
    Pm10Clamp(c1);
    Pm10Clamp(c2);
    ClampedInBand(c2, PM10);
    FallsOnlyInSteepGaps(c1, c2, Subindex(Clamped(c2, PM10), PM10), Clamped(c1, PM10), Clamped(c2, PM10));
  }

  lemma FallsOnlyInSteepGaps(c1: real, c2: real, j: nat, x1: real, x2: real)
    requires 0 < j < 7 && PM10[j - 1].hi < x2 <= PM10[j].hi && PM10[j].lo < PM10[j].hi
    requires x1 == PM10[j - 1].hi && Slope(PM10[j]) * (x2 - PM10[j].lo) < -1.0
    requires (0.0 < x1 < 604.0 ==> x1 == c1) && (0.0 < x2 < 604.0 ==> x2 == c2)
    ensures FallsAt(c1, c2)
  {
  }

  lemma Pm10Clamp(c: real)
    ensures 0.0 <= c <= 604.0 ==> Clamped(c, PM10) == c
    ensures 0.0 < Clamped(c, PM10) < 604.0 ==> Clamped(c, PM10) == c
  {
  }

  /** A concentration in the gap below band `j` is looked up in band `j`. */
  lemma EndsBelow(c: real, j: nat)
    requires Table(PM10) && 0 < j < 6 && PM10[j - 1].hi < c < PM10[j].lo && Clamped(c, PM10) == c
    ensures Subindex(Clamped(c, PM10), PM10) == j
  {
    FoundIn(c, PM10, j);
  }

  // ----- both pollutants -----

  datatype Result = Result(aqi: int, category: string)

  function Single(c: real, bands: seq<Band>): Result
    requires Table(bands) && |bands| == |CATEGORIES|
  {
    Result(Index(c, bands), CATEGORIES[Subindex(Clamped(c, bands), bands)])
  }

  /** `compute_aqi`: the worse of the two, PM2.5 first on a tie. */
  function Compute(pm25: Measurement, pm10: Measurement): Option<Result> {
    Pm25Table(); Pm10Table();
    match (pm25, pm10)
    case (Value(a), Value(b)) =>
      var x, y := Single(a, PM25), Single(b, PM10);
      Some(if x.aqi < y.aqi then y else x)
    case (Value(a), _) => Some(Single(a, PM25))
    case (_, Value(b)) => Some(Single(b, PM10))
    case _ => None
  }

  // ----- the tables at their breakpoints -----

  lemma ClampedAlone(c: real, bands: seq<Band>, i: nat)
    requires Table(bands) && i < |bands| && 0.0 <= c <= bands[i].hi
    ensures Clamped(c, bands) == c
  {
    if i < |bands| - 1 { TableOrder(bands, i, |bands| - 1); }
  }

  /** A concentration above the end of the previous band, up to its own end, is looked up in its band. */
  lemma FoundIn(c: real, bands: seq<Band>, i: nat)
    requires Table(bands) && i < |bands| && (i > 0 ==> bands[i - 1].hi < c) && 0.0 <= c <= bands[i].hi
    ensures Clamped(c, bands) == c && Subindex(Clamped(c, bands), bands) == i
  {
    hide First, Subindex, Clamped;
    ClampedAlone(c, bands, i);
    ClampedInBand(c, bands);
    var k := Subindex(c, bands);
    if k < i { EndsRise(bands, k, i - 1); }
    if i < k { EndsRise(bands, i, k - 1); }
  }

  /** At the ends of a band the index is that of the table; a band that starts where another ends gives way to it. */
  lemma BandEnds(bands: seq<Band>, i: nat)
    requires Table(bands) && i < |bands| && |bands| == |CATEGORIES|
    ensures Single(bands[i].hi, bands) == Result(bands[i].ihi, CATEGORIES[i])
    ensures (i > 0 ==> bands[i - 1].hi < bands[i].lo) ==> Index(bands[i].lo, bands) == bands[i].ilo
  {
    hide First, Subindex, Clamped;
    ScaledEnds(bands[i]);
    if i > 0 { TableOrder(bands, i - 1, i); }
    if i > 0 { TableOrder(bands, 0, i); }
    FoundIn(bands[i].hi, bands, i);
    if i > 0 ==> bands[i - 1].hi < bands[i].lo { FoundIn(bands[i].lo, bands, i); }
  }

  /** The PM2.5 index and its category at the breakpoints; 12.0 itself belongs to the band it ends. */
  lemma Pm25Breakpoints(i: nat)
    requires i < 7
    ensures Table(PM25) && |PM25| == |CATEGORIES|
    ensures var hi := [12.0, 35.4, 55.4, 150.4, 250.4, 350.4, 500.4][i];
            var category :=
              ["Good", "Moderate", "Unhealthy for Sensitive Groups", "Unhealthy", "Very Unhealthy", "Hazardous",
              "Hazardous"][i];
            Single(hi, PM25) == Result([50, 100, 150, 200, 300, 400, 500][i], category)
    ensures var lo := [0.0, 12.0, 35.5, 55.5, 150.5, 250.5, 350.5][i];
            i != 1 ==> Index(lo, PM25) == [0, 51, 101, 151, 201, 301, 401][i]
  {
    Pm25Table();
    BandEnds(PM25, i);
    Pm25Literals(i);
    hide First, Subindex, Index, Clamped, Table;
  }

  lemma Pm25Literals(i: nat)
    requires i < 7
    ensures PM25[i].hi == [12.0, 35.4, 55.4, 150.4, 250.4, 350.4, 500.4][i]
    ensures PM25[i].lo == [0.0, 12.0, 35.5, 55.5, 150.5, 250.5, 350.5][i]
    ensures PM25[i].ihi == [50, 100, 150, 200, 300, 400, 500][i]
    ensures PM25[i].ilo == [0, 51, 101, 151, 201, 301, 401][i]
    ensures 0 < i ==> PM25[i - 1].hi == [12.0, 35.4, 55.4, 150.4, 250.4, 350.4, 500.4][i - 1]
    ensures CATEGORIES[i] ==
             ["Good", "Moderate", "Unhealthy for Sensitive Groups", "Unhealthy", "Very Unhealthy", "Hazardous",
              "Hazardous"][i]
  {
  }

  /** The same for PM10. */
  lemma Pm10Breakpoints(i: nat)
    requires i < 7
    ensures Table(PM10) && |PM10| == |CATEGORIES|
    ensures var hi := [54.0, 154.0, 254.0, 354.0, 424.0, 504.0, 604.0][i];
            var category :=
              ["Good", "Moderate", "Unhealthy for Sensitive Groups", "Unhealthy", "Very Unhealthy", "Hazardous",
              "Hazardous"][i];
            Single(hi, PM10) == Result([50, 100, 150, 200, 300, 400, 500][i], category)
    ensures var lo := [0.0, 55.0, 155.0, 255.0, 355.0, 425.0, 505.0][i];
            Index(lo, PM10) == [0, 51, 101, 151, 201, 301, 401][i]
  {
    Pm10Table();
    BandEnds(PM10, i);
    Pm10Literals(i);
    hide First, Subindex, Index, Clamped, Table;
  }

  lemma Pm10Literals(i: nat)
    requires i < 7
    ensures PM10[i].hi == [54.0, 154.0, 254.0, 354.0, 424.0, 504.0, 604.0][i]
    ensures PM10[i].lo == [0.0, 55.0, 155.0, 255.0, 355.0, 425.0, 505.0][i]
    ensures PM10[i].ihi == [50, 100, 150, 200, 300, 400, 500][i]
    ensures PM10[i].ilo == [0, 51, 101, 151, 201, 301, 401][i]
    ensures 0 < i ==> PM10[i - 1].hi == [54.0, 154.0, 254.0, 354.0, 424.0, 504.0, 604.0][i - 1]
    ensures CATEGORIES[i] ==
             ["Good", "Moderate", "Unhealthy for Sensitive Groups", "Unhealthy", "Very Unhealthy", "Hazardous",
              "Hazardous"][i]
  {
  }

  /** Between the breakpoints the index is interpolated and rounded down. */
  lemma Interpolated()
    ensures Table(PM25) && Index(23.7, PM25) == 75 && Index(12.1, PM25) == 51
    ensures Table(PM10) && Index(27.0, PM10) == 25
  {
    Pm25Table();
    Pm10Table();
    FoundIn(23.7, PM25, 1);
    FoundIn(12.1, PM25, 1);
    FoundIn(27.0, PM10, 0);
    hide First, Subindex, Clamped, Table;
  }

  /** Beyond the table it stays at its ends. */
  lemma BeyondTheTable(c: real, bands: seq<Band>)
    requires Table(bands) && |bands| == |CATEGORIES|
    ensures c <= 0.0 ==> Single(c, bands) == Result(0, "Good")
    ensures bands[6].hi <= c ==> Single(c, bands) == Result(bands[6].ihi, "Hazardous")
  {
    BandEnds(bands, 0);
    BandEnds(bands, 6);
    if c <= 0.0 { FoundIn(0.0, bands, 0); }
    TableOrder(bands, 0, 6);
    assert c <= 0.0 ==> Clamped(c, bands) == Clamped(0.0, bands);
    assert bands[6].hi <= c ==> Clamped(c, bands) == Clamped(bands[6].hi, bands);
    hide First, Subindex, Clamped, Table;
  }

  /** The composite index rises with PM2.5, falls by at most one point as PM10 rises, and not at all to a whole PM10. */
  lemma CompositeShape(a: Measurement, b: Measurement, a': Measurement, b': Measurement)
    requires a' == a || (a.Value? && a'.Value? && a.c <= a'.c)
    requires b' == b || (b.Value? && b'.Value? && b.c <= b'.c)
    ensures Compute(a, b).Some? <==> a.Value? || b.Value?
    ensures Compute(a, b).Some? ==>
              && Compute(a', b').Some? && 0 <= Compute(a, b).value.aqi <= 500
              && Compute(a, b).value.aqi - 1 <= Compute(a', b').value.aqi
              && ((b' == b || b'.c == b'.c.Floor as real) ==> Compute(a, b).value.aqi <= Compute(a', b').value.aqi)
  {
    var x, y := if a.Value? then a.c else 0.0, if b.Value? then b.c else 0.0;
    var x', y' := if a'.Value? then a'.c else 0.0, if b'.Value? then b'.c else 0.0;
    Pm25Shape(x, x');
    Pm10Shape(y, y');
    hide First, Subindex, Index, Clamped, Table;
    ComputeIsMaximum(a, b);
    ComputeIsMaximum(a', b');
  }

  /** The composite is the greatest of the usable pollutants' own, with its category; PM2.5's on a tie. */
  lemma ComputeIsMaximum(a: Measurement, b: Measurement)
    ensures Table(PM25) && Table(PM10)
    ensures Compute(a, b).Some? <==> a.Value? || b.Value?
    ensures Compute(a, b).Some? ==>
              var aqi := Compute(a, b).value.aqi;
              && (a.Value? ==> Index(a.c, PM25) <= aqi) && (b.Value? ==> Index(b.c, PM10) <= aqi)
              && ((a.Value? && aqi == Index(a.c, PM25)) || (b.Value? && aqi == Index(b.c, PM10)))
              && |PM25| == |PM10| == |CATEGORIES|
              && Compute(a, b).value.category ==
                   (if a.Value? && aqi == Index(a.c, PM25) then Single(a.c, PM25) else Single(b.c, PM10)).category
  {
    hide First, Subindex, Index, Clamped, Table;
    Pm25Table();
    Pm10Table();
  }

  /** `_subindex` as the scan it is. */
  method ScanBands(c: real, bands: seq<Band>) returns (k: nat)
    requires bands != []
    ensures k == Subindex(c, bands)
  {
    for i := 0 to |bands|
      invariant forall j :: 0 <= j < i ==> bands[j].hi < c
    {
      if c <= bands[i].hi {
        return i;
      }
    }
    return |bands| - 1;
  }

  method AqiFor(c: real, bands: seq<Band>) returns (r: Result)
    requires Table(bands) && |bands| == |CATEGORIES|
    ensures r == Single(c, bands)
  {
    var x := Clamped(c, bands);
    var i := ScanBands(x, bands);
    var b := bands[i];
    r := Result(((b.ihi - b.ilo) as real / (b.hi - b.lo) * (x - b.lo) + b.ilo as real).Floor, CATEGORIES[i]);
  }

  /** `compute_aqi`: collects a candidate per usable pollutant and takes the first greatest. */
  method ComputeAqi(pm25: Measurement, pm10: Measurement) returns (r: Option<Result>)
    ensures r == Compute(pm25, pm10)
  {
    Pm25Table();
    Pm10Table();
    var candidates: seq<Result> := [];
    if pm25.Value? {
      var x := AqiFor(pm25.c, PM25);
      candidates := candidates + [x];
    }
    if pm10.Value? {
      var y := AqiFor(pm10.c, PM10);
      candidates := candidates + [y];
    }
    if candidates == [] {
      return None;
    }
    var best := candidates[0];
    for i := 1 to |candidates|
      invariant best == if i == 2 && candidates[0].aqi < candidates[1].aqi then candidates[1] else candidates[0]
    {
      if best.aqi < candidates[i].aqi {
        best := candidates[i];
      }
    }
    return Some(best);
  }
}
