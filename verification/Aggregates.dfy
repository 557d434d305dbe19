/**
 The GROUP BY of the hourly roll-up: readings, the aggregate columns of one group and their
 SQL meaning (nulls are skipped by AVG, MAX and MIN; AVG of no value is null).
 Averages are exact reals.
 */
module Aggregates {
  import opened Common

  /** Microseconds since the epoch, the resolution of a timestamptz. */
  type Instant = int

  const HOUR: int := 3_600_000_000
  const DAY: int := 24 * HOUR

  /** On the hour. */
  predicate Aligned(t: Instant) { t % HOUR == 0 }

  /** date_trunc('hour', t) in UTC. */
  function HourOf(t: Instant): (h: Instant)
    ensures h <= t < h + HOUR && Aligned(h)
  {
    t - t % HOUR
  }

  lemma AlignedGap(a: Instant, b: Instant)
    requires Aligned(a) && Aligned(b) && a < b
    ensures a <= b - HOUR
  {
  }

  lemma HourOfIsGreatest(g: Instant, t: Instant)
    requires Aligned(g) && g <= t
    ensures g <= HourOf(t)
  {
  }

  lemma AlignedMinusDay(t: Instant)
    requires Aligned(t)
    ensures Aligned(t - DAY) && Aligned(t - HOUR - DAY)
  {
  }

  datatype Measures = Measures(
    temperature: Option<real>, humidity: Option<real>, pm25: Option<real>, pm10: Option<real>,
    aqi: Option<int>, anomaly: bool)

  datatype Reading = Reading(time: Instant, node: string, measures: Measures)

  /** Primary key of hourly_agg. */
  datatype Bucket = Bucket(hour: Instant, node: string)

  function BucketOf(r: Reading): (k: Bucket)
    ensures k.node == r.node && Aligned(k.hour) && k.hour <= r.time < k.hour + HOUR
  {
    Bucket(HourOf(r.time), r.node)
  }

  // ----- one group -----

  function Temperature(r: Reading): Option<real> { r.measures.temperature }
  function Humidity(r: Reading): Option<real> { r.measures.humidity }
  function Pm25(r: Reading): Option<real> { r.measures.pm25 }
  function Pm10(r: Reading): Option<real> { r.measures.pm10 }
  function Aqi(r: Reading): Option<int> { r.measures.aqi }
  function Anomaly(r: Reading): Option<Reading> { if r.measures.anomaly then Some(r) else None }

  /** The non-null values of one column, which are all an SQL aggregate looks at. */
  function Present<T(!new)>(column: Reading -> Option<T>, rs: seq<Reading>): (vs: seq<T>)
    ensures |vs| <= |rs|
    ensures forall v :: v in vs <==> exists r :: r in rs && column(r) == Some(v)
  {
    if rs == [] then []
    else (if column(rs[0]).Some? then [column(rs[0]).value] else []) + Present(column, rs[1..])
  }

  function Sum(vs: seq<real>): real {
    if vs == [] then 0.0 else vs[0] + Sum(vs[1..])
  }

  function AsReals(vs: seq<int>): (rs: seq<real>)
    ensures |rs| == |vs|
  {
    seq(|vs|, i requires 0 <= i < |vs| => vs[i] as real)
  }

  /** AVG: null for a group without values. */
  function Average(vs: seq<real>): Option<real> {
    if vs == [] then None else Some(Sum(vs) / |vs| as real)
  }

  predicate IsHighest(m: int, vs: seq<int>) { m in vs && forall v :: v in vs ==> v <= m }

  predicate IsLowest(m: int, vs: seq<int>) { m in vs && forall v :: v in vs ==> m <= v }

  /** MAX and MIN. */
  function Highest(vs: seq<int>): (m: Option<int>)
    ensures if vs == [] then m.None? else m.Some? && IsHighest(m.value, vs)
  {
    if vs == [] then None
    else assert forall v :: v in vs ==> v == vs[0] || v in vs[1..];
         var rest := Highest(vs[1..]);
         if rest.None? || rest.value < vs[0] then Some(vs[0]) else rest
  }

  function Lowest(vs: seq<int>): (m: Option<int>)
    ensures if vs == [] then m.None? else m.Some? && IsLowest(m.value, vs)
  {
    if vs == [] then None
    else assert forall v :: v in vs ==> v == vs[0] || v in vs[1..];
         var rest := Lowest(vs[1..]);
         if rest.None? || vs[0] < rest.value then Some(vs[0]) else rest
  }

  /** One row of hourly_agg, without its key. */
  datatype Summary = Summary(
    avgTemperature: Option<real>, avgHumidity: Option<real>,
    avgPm25: Option<real>, avgPm10: Option<real>,
    maxAqi: Option<int>, minAqi: Option<int>, avgAqi: Option<real>,
    anomalyCount: nat, readingCount: nat)

  function Summarise(rs: seq<Reading>): Summary {
    var aqi := Present(Aqi, rs);
    Summary(Average(Present(Temperature, rs)), Average(Present(Humidity, rs)),
            Average(Present(Pm25, rs)), Average(Present(Pm10, rs)),
            Highest(aqi), Lowest(aqi), Average(AsReals(aqi)),
            |Present(Anomaly, rs)|, |rs|)
  }

  // ----- the whole statement -----

  function InBucket(k: Bucket): Reading -> bool { (r: Reading) => BucketOf(r) == k }

  function InWindow(start: Instant, end: Instant): Reading -> bool {
    (r: Reading) => start <= r.time < end
  }

  function BucketsOf(rs: seq<Reading>): set<Bucket> { set r | r in rs :: BucketOf(r) }

  /** SELECT bucket, node_id, aggregates FROM rs GROUP BY bucket, node_id. */
  function GroupBy(rs: seq<Reading>): map<Bucket, Summary> {
    map k | k in BucketsOf(rs) :: Summarise(Filter(InBucket(k), rs))
  }

  /** The rows of a table whose hour lies in [from, to); no lower bound when `from` is None. */
  function Hours(t: map<Bucket, Summary>, from: Option<Instant>, to: Instant): map<Bucket, Summary> {
    map k | k in t && (from.Some? ==> from.value <= k.hour) && k.hour < to :: t[k]
  }

  // ----- what a summary means -----

  /** The sum of a field over some readings, nulls skipped. */
  function TotalOf(field: Reading -> Option<real>, rs: seq<Reading>): real {
    if rs == [] then 0.0
    else TotalOf(field, rs[..|rs| - 1]) + match field(rs[|rs| - 1]) case None => 0.0 case Some(v) => v
  }

  /** How many readings have a value in a field. */
  function ValuesOf(field: Reading -> Option<real>, rs: seq<Reading>): nat {
    if rs == [] then 0
    else ValuesOf(field, rs[..|rs| - 1]) + if field(rs[|rs| - 1]).None? then 0 else 1
  }

  predicate IsMean(mean: real, n: nat, total: real) { mean * n as real == total }

  /** Null without values; else total over number of values, between two of the values. */
  predicate IsAverage(average: Option<real>, field: Reading -> Option<real>, rs: seq<Reading>) {
    && (average.None? <==> forall r :: r in rs ==> field(r).None?)
    && (average.Some? ==>
          && IsMean(average.value, ValuesOf(field, rs), TotalOf(field, rs))
          && (exists r :: r in rs && field(r).Some? && field(r).value <= average.value)
          && (exists r :: r in rs && field(r).Some? && average.value <= field(r).value))
  }

  /** Null without values; else the AQI of a reading that `before` puts before no other. */
  predicate IsExtreme(extreme: Option<int>, before: (int, int) -> bool, rs: seq<Reading>) {
    && (extreme.None? <==> forall r :: r in rs ==> r.measures.aqi.None?)
    && (extreme.Some? ==>
          && (exists r :: r in rs && r.measures.aqi == extreme)
          && (forall r :: r in rs && r.measures.aqi.Some? ==> !before(extreme.value, r.measures.aqi.value)))
  }

  function AsReal(v: Option<int>): Option<real> { if v.None? then None else Some(v.value as real) }

  /** A row of hourly_agg, column by column, for the readings `rs` of its group. */
  predicate Describes(s: Summary, rs: seq<Reading>) {
    && IsAverage(s.avgTemperature, (r: Reading) => r.measures.temperature, rs)
    && IsAverage(s.avgHumidity, (r: Reading) => r.measures.humidity, rs)
    && IsAverage(s.avgPm25, (r: Reading) => r.measures.pm25, rs)
    && IsAverage(s.avgPm10, (r: Reading) => r.measures.pm10, rs)
    && IsAverage(s.avgAqi, (r: Reading) => AsReal(r.measures.aqi), rs)
    && IsExtreme(s.maxAqi, (m, v) => m < v, rs) && IsExtreme(s.minAqi, (m, v) => v < m, rs)
    && s.anomalyCount == |set i | 0 <= i < |rs| && rs[i].measures.anomaly|
    && s.readingCount == |rs|
  }

  /** `group` holds the readings of a node in an hour, every copy of them, and nothing else. */
  ghost predicate IsGroup(group: seq<Reading>, k: Bucket, rs: seq<Reading>) {
    forall r :: multiset(group)[r] ==
      if r.node == k.node && Aligned(k.hour) && k.hour <= r.time < k.hour + HOUR then multiset(rs)[r] else 0
  }

  lemma GroupMeaning(rs: seq<Reading>, k: Bucket)
    ensures IsGroup(Filter(InBucket(k), rs), k, rs)
    ensures k in BucketsOf(rs) <==> Filter(InBucket(k), rs) != []
  {
    var group := Filter(InBucket(k), rs);
    forall r ensures multiset(group)[r] == if InBucket(k)(r) then multiset(rs)[r] else 0 {
      FilterCounts(InBucket(k), rs, r);
    }
    forall r ensures BucketOf(r) == k <==> r.node == k.node && Aligned(k.hour) && k.hour <= r.time < k.hour + HOUR {
      if Aligned(k.hour) && k.hour <= r.time < k.hour + HOUR { OneHour(HourOf(r.time), k.hour, r.time); }
    }
    if k in BucketsOf(rs) {
      var r :| r in rs && BucketOf(r) == k;
      assert r in group;
    }
  }

  lemma OneHour(a: Instant, b: Instant, t: Instant)
    requires Aligned(a) && Aligned(b) && a <= t < a + HOUR && b <= t < b + HOUR
    ensures a == b
  {
  }

  lemma {:induction false} PresentTotals(column: Reading -> Option<real>, rs: seq<Reading>)
    ensures Sum(Present(column, rs)) == TotalOf(column, rs) && |Present(column, rs)| == ValuesOf(column, rs)
  {
    if rs == [] {
    } else {
      var front, last := rs[..|rs| - 1], rs[|rs| - 1];
      PresentTotals(column, front);
      assert rs == front + [last];
      PresentAppend(column, front, [last]);
      SumAppend(Present(column, front), Present(column, [last]));
      assert [last][1..] == [];
    }
  }

  lemma AverageMeaning(column: Reading -> Option<real>, rs: seq<Reading>)
    ensures IsAverage(Average(Present(column, rs)), column, rs)
  {
    hide Average, Sum, IsMean, Present, TotalOf, ValuesOf;
    var vs := Present(column, rs);
    PresentTotals(column, rs);
    NullWithoutValues(column, rs);
    if vs != [] {
      AverageWithin(vs);
      var lo :| lo in vs && lo <= Average(vs).value;
      var hi :| hi in vs && Average(vs).value <= hi;
      var a := OwnerOf(column, rs, lo);
      var b := OwnerOf(column, rs, hi);
    }
  }

  lemma NullWithoutValues(column: Reading -> Option<real>, rs: seq<Reading>)
    ensures Average(Present(column, rs)).None? <==> Present(column, rs) == []
    ensures Present(column, rs) == [] <==> forall r :: r in rs ==> column(r).None?
  {
    assert forall r :: r in rs && column(r).Some? ==> column(r) == Some(column(r).value);
  }

  lemma OwnerOf(column: Reading -> Option<real>, rs: seq<Reading>, v: real) returns (r: Reading)
    requires v in Present(column, rs)
    ensures r in rs && column(r) == Some(v)
  {
    r :| r in rs && column(r) == Some(v);
  }

  lemma {:induction false} SameTotals(column: Reading -> Option<real>, field: Reading -> Option<real>, rs: seq<Reading>)
    requires forall r :: r in rs ==> column(r) == field(r)
    ensures TotalOf(column, rs) == TotalOf(field, rs) && ValuesOf(column, rs) == ValuesOf(field, rs)
  {
    if rs == [] {
    } else {
      assert rs[|rs| - 1] in rs;
      SameTotals(column, field, rs[..|rs| - 1]);
    }
  }

  lemma AverageOfField(column: Reading -> Option<real>, field: Reading -> Option<real>, rs: seq<Reading>)
    requires forall r :: r in rs ==> column(r) == field(r)
    ensures IsAverage(Average(Present(column, rs)), field, rs)
  {
    AverageMeaning(column, rs);
    SameTotals(column, field, rs);
    hide Average, Present, IsMean, TotalOf, ValuesOf;
  }

  lemma AverageWithin(vs: seq<real>)
    requires vs != []
    ensures Average(vs).Some? && IsMean(Average(vs).value, |vs|, Sum(vs))
    ensures exists lo :: lo in vs && lo <= Average(vs).value
    ensures exists hi :: hi in vs && Average(vs).value <= hi
  {
    var lo := LeastOf(vs);
    var hi := GreatestOf(vs);
    hide Average, IsMean, Sum;
    MeanWithin(vs, lo, hi);
  }

  lemma MeanWithin(vs: seq<real>, lo: real, hi: real)
    requires vs != [] && forall i :: 0 <= i < |vs| ==> lo <= vs[i] <= hi
    ensures Average(vs).Some? && IsMean(Average(vs).value, |vs|, Sum(vs)) && lo <= Average(vs).value <= hi
  {
    SumBetween(vs, lo, hi);
    QuotientBetween(Sum(vs), |vs| as real, lo, hi);
    Divided(Sum(vs), |vs| as real);
    hide Sum;
  }

  lemma Divided(total: real, n: real)
    requires n > 0.0
    ensures total / n * n == total
  {
  }

  lemma {:induction false} LeastOf(vs: seq<real>) returns (m: real)
    requires vs != []
    ensures m in vs && forall i :: 0 <= i < |vs| ==> m <= vs[i]
  {
    if |vs| == 1 {
      m := vs[0];
    } else {
      m := LeastOf(vs[1..]);
      assert forall i :: 0 < i < |vs| ==> vs[i] == vs[1..][i - 1];
      if vs[0] < m { m := vs[0]; }
    }
  }

  lemma {:induction false} GreatestOf(vs: seq<real>) returns (m: real)
    requires vs != []
    ensures m in vs && forall i :: 0 <= i < |vs| ==> vs[i] <= m
  {
    if |vs| == 1 {
      m := vs[0];
    } else {
      m := GreatestOf(vs[1..]);
      assert forall i :: 0 < i < |vs| ==> vs[i] == vs[1..][i - 1];
      if m < vs[0] { m := vs[0]; }
    }
  }

  /** The average of the AQI is that of its values as reals. */
  lemma {:induction false} RealsOfPresent(rs: seq<Reading>)
    ensures AsReals(Present(Aqi, rs)) == Present((r: Reading) => AsReal(r.measures.aqi), rs)
  {
    if rs == [] {
    } else {
      RealsOfPresent(rs[1..]);
    }
  }

  lemma {:induction false} AnomaliesCounted(rs: seq<Reading>)
    ensures |Present(Anomaly, rs)| == |set i | 0 <= i < |rs| && rs[i].measures.anomaly|
  {
    if rs == [] {
    } else {
      var n := |rs| - 1;
      var front := rs[..n];
      AnomaliesCounted(front);
      assert rs == front + [rs[n]];
      PresentAppend(Anomaly, front, [rs[n]]);
      assert [rs[n]][1..] == [];
      AnomaliesGrow(rs, front, n);
    }
  }

  lemma AnomaliesGrow(rs: seq<Reading>, front: seq<Reading>, n: nat)
    requires |rs| == n + 1 && front == rs[..n]
    ensures |set i | 0 <= i < |rs| && rs[i].measures.anomaly|
         == |set i | 0 <= i < |front| && front[i].measures.anomaly| + if rs[n].measures.anomaly then 1 else 0
  {
    var all := set i | 0 <= i < |rs| && rs[i].measures.anomaly;
    var some := set i | 0 <= i < |front| && front[i].measures.anomaly;
    assert all == some + if rs[n].measures.anomaly then {n} else {};
  }

  lemma ExtremesMeaning(rs: seq<Reading>)
    ensures IsExtreme(Highest(Present(Aqi, rs)), (m, v) => m < v, rs)
    ensures IsExtreme(Lowest(Present(Aqi, rs)), (m, v) => v < m, rs)
  {
    var vs := Present(Aqi, rs);
    assert forall r :: r in rs && Aqi(r).Some? ==> Aqi(r) == Some(Aqi(r).value) && Aqi(r).value in vs;
    if vs != [] {
      var a := ReadingWith(rs, Highest(vs).value);
      var b := ReadingWith(rs, Lowest(vs).value);
    }
  }

  /** Every column of a group's summary is the SQL aggregate of its own field. */
  lemma SummaryMeaning(rs: seq<Reading>)
    ensures Describes(Summarise(rs), rs)
  {
    AverageOfField(Temperature, (r: Reading) => r.measures.temperature, rs);
    AverageOfField(Humidity, (r: Reading) => r.measures.humidity, rs);
    AverageOfField(Pm25, (r: Reading) => r.measures.pm25, rs);
    AverageOfField(Pm10, (r: Reading) => r.measures.pm10, rs);
    RealsOfPresent(rs);
    AverageMeaning((r: Reading) => AsReal(r.measures.aqi), rs);
    ExtremesMeaning(rs);
    AnomaliesCounted(rs);
    hide IsAverage, IsExtreme, Present, Average, Highest, Lowest;
  }

  /** The average of a group's AQI values lies between their extremes, which both occur. */
  lemma AverageLiesBetweenExtremes(rs: seq<Reading>)
    ensures var s := Summarise(rs);
            if forall r :: r in rs ==> r.measures.aqi.None? then
              s.minAqi.None? && s.avgAqi.None? && s.maxAqi.None?
            else
              && s.minAqi.Some? && s.avgAqi.Some? && s.maxAqi.Some?
              && s.minAqi.value as real <= s.avgAqi.value <= s.maxAqi.value as real
              && (exists r :: r in rs && r.measures.aqi == s.minAqi)
              && (exists r :: r in rs && r.measures.aqi == s.maxAqi)
  {
    var vs := Present(Aqi, rs);
    assert forall r :: r in rs && Aqi(r).Some? ==> Aqi(r) == Some(Aqi(r).value);
    if vs != [] {
      AverageBetween(vs);
      var lo := ReadingWith(rs, Lowest(vs).value);
      var hi := ReadingWith(rs, Highest(vs).value);
    }
  }

  lemma ReadingWith(rs: seq<Reading>, v: int) returns (r: Reading)
    requires v in Present(Aqi, rs)
    ensures r in rs && r.measures.aqi == Some(v)
  {
    r :| r in rs && Aqi(r) == Some(v);
  }

  lemma AverageBetween(vs: seq<int>)
    requires vs != []
    ensures Lowest(vs).value as real <= Average(AsReals(vs)).value <= Highest(vs).value as real
  {
    var rs, lo, hi := AsReals(vs), Lowest(vs).value as real, Highest(vs).value as real;
    forall i | 0 <= i < |rs| ensures lo <= rs[i] <= hi {
      assert vs[i] in vs;
    }
    MeanWithin(rs, lo, hi);
  }

  lemma {:induction false} SumBetween(vs: seq<real>, lo: real, hi: real)
    requires forall i :: 0 <= i < |vs| ==> lo <= vs[i] <= hi
    ensures lo * |vs| as real <= Sum(vs) <= hi * |vs| as real
  {
    if vs == [] {
    } else {
      SumBetween(vs[1..], lo, hi);
      var n := |vs[1..]| as real;
      assert |vs| as real == n + 1.0;
      assert lo * (n + 1.0) == lo * n + lo && hi * (n + 1.0) == hi * n + hi;
    }
  }

  lemma QuotientBetween(total: real, n: real, lo: real, hi: real)
    requires n > 0.0 && lo * n <= total <= hi * n
    ensures lo <= total / n <= hi
  {
  }

  /** SQL tables are unordered: the order rows are stored in is not observable in a roll-up. */
  lemma SummaryIgnoresRowOrder(a: seq<Reading>, b: seq<Reading>)
    requires multiset(a) == multiset(b)
    ensures Summarise(a) == Summarise(b)
  {
    assert |a| == |multiset(a)| == |multiset(b)| == |b|;
    AverageIgnoresOrder(Temperature, a, b);
    AverageIgnoresOrder(Humidity, a, b);
    AverageIgnoresOrder(Pm25, a, b);
    AverageIgnoresOrder(Pm10, a, b);
    PresentIgnoresOrder(Anomaly, a, b);
    assert |Present(Anomaly, a)| == |multiset(Present(Anomaly, a))|;
    PresentIgnoresOrder(Aqi, a, b);
    var x, y := Present(Aqi, a), Present(Aqi, b);
    assert |x| == |multiset(x)| == |multiset(y)| == |y|;
    assert forall v :: v in x <==> v in multiset(x);
    assert forall v :: v in y <==> v in multiset(y);
    AsRealsIgnoresOrder(x, y);
    SumIgnoresOrder(AsReals(x), AsReals(y));
  }

  lemma AverageIgnoresOrder(column: Reading -> Option<real>, a: seq<Reading>, b: seq<Reading>)
    requires multiset(a) == multiset(b)
    ensures Average(Present(column, a)) == Average(Present(column, b))
  {
    PresentIgnoresOrder(column, a, b);
    var x, y := Present(column, a), Present(column, b);
    assert |x| == |multiset(x)| == |multiset(y)| == |y|;
    SumIgnoresOrder(x, y);
  }

  lemma WithoutElement<T>(s: seq<T>, i: nat)
    requires i < |s|
    ensures s == s[..i] + [s[i]] + s[i + 1..]
    ensures multiset(s[..i] + s[i + 1..]) == multiset(s) - multiset{s[i]}
  {
    assert s == s[..i] + [s[i]] + s[i + 1..];
  }

  /** `b` is `a` with its first element moved: the step every order argument below takes. */
  lemma Uncons<T>(a: seq<T>, b: seq<T>) returns (front: seq<T>, back: seq<T>)
    requires a != [] && multiset(a) == multiset(b)
    ensures b == front + [a[0]] + back && multiset(a[1..]) == multiset(front + back)
  {
    assert a[0] in multiset(b);
    var i :| 0 <= i < |b| && b[i] == a[0];
    front, back := b[..i], b[i + 1..];
    WithoutElement(b, i);
    WithoutElement(a, 0);
    assert a[..0] + a[1..] == a[1..];
  }

  lemma {:induction false} PresentAppend<T(!new)>(column: Reading -> Option<T>, a: seq<Reading>, b: seq<Reading>)
    ensures Present(column, a + b) == Present(column, a) + Present(column, b)
  {
    if a == [] {
      assert a + b == b;
    } else {
      assert (a + b)[1..] == a[1..] + b;
      PresentAppend(column, a[1..], b);
    }
  }

  lemma {:induction false} PresentIgnoresOrder<T(!new)>(column: Reading -> Option<T>, a: seq<Reading>, b: seq<Reading>)
    requires multiset(a) == multiset(b)
    ensures multiset(Present(column, a)) == multiset(Present(column, b))
  {
    if a == [] {
      assert |b| == |multiset(b)| == 0;
    } else {
      var front, back := Uncons(a, b);
      PresentIgnoresOrder(column, a[1..], front + back);
      PresentAppend(column, front, back);
      PresentAppend(column, front + [a[0]], back);
      PresentAppend(column, front, [a[0]]);
      PresentAppend(column, [a[0]], a[1..]);
      assert [a[0]] + a[1..] == a;
    }
  }

  lemma {:induction false} SumAppend(a: seq<real>, b: seq<real>)
    ensures Sum(a + b) == Sum(a) + Sum(b)
  {
    if a == [] {
      assert a + b == b;
    } else {
      assert (a + b)[1..] == a[1..] + b;
      SumAppend(a[1..], b);
    }
  }

  lemma {:induction false} SumIgnoresOrder(a: seq<real>, b: seq<real>)
    requires multiset(a) == multiset(b)
    ensures Sum(a) == Sum(b)
  {
    if a == [] {
      assert |b| == |multiset(b)| == 0;
    } else {
      var front, back := Uncons(a, b);
      SumIgnoresOrder(a[1..], front + back);
      SumAppend(front, back);
      SumAppend(front + [a[0]], back);
      SumAppend(front, [a[0]]);
    }
  }

  lemma {:induction false} AsRealsIgnoresOrder(a: seq<int>, b: seq<int>)
    requires multiset(a) == multiset(b)
    ensures multiset(AsReals(a)) == multiset(AsReals(b))
  {
    if a == [] {
      assert |b| == |multiset(b)| == 0;
    } else {
      var front, back := Uncons(a, b);
      AsRealsIgnoresOrder(a[1..], front + back);
      var x := [a[0] as real];
      assert AsReals(a) == x + AsReals(a[1..]);
      assert AsReals(b) == AsReals(front) + x + AsReals(back);
      assert AsReals(front + back) == AsReals(front) + AsReals(back);
    }
  }
}
