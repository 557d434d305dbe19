/**
 The incremental hourly roll-up: readings arrive late, early or twice, each aggregation run
 re-computes only the hours from 24 h behind the newest rolled-up one, and retention deletes from
 both tables. The main result is that hourly_agg nevertheless equals a full GROUP BY.
 */
module HourlyRollup {
  import opened Common
  import opened Aggregates

  /** Timestamps further than this from the server's clock are replaced by it. */
  const SKEW_LIMIT: int := 24 * HOUR

  /** How far behind the newest rolled-up hour a run starts. */
  const LOOK_BACK: int := 24 * HOUR

  /** The longest delay between parsing a reading's time and committing it under which the roll-up is exact. */
  const SLACK: int := HOUR

  /** The two tables. */
  datatype Tables = Tables(readings: seq<Reading>, hourly: map<Bucket, Summary>)

  /**
   The tables with what the environment remembers about them: the clock, the exclusive end of the
   last run, and the highest retention cut-off so far.
   */
  datatype World = World(tables: Tables, clock: Instant, lastEnd: Option<Instant>, cutoff: Option<Instant>)

  /** `system_settings.data_retention_days`, as `int(float(raw))` reads it. */
  datatype Setting = Absent | NotNumeric | Days(days: real)

  datatype Event =
    | Deliver(now: Instant, parsedAt: Instant, device: Option<Instant>, node: string,
              nodeActive: bool, measures: Measures)
    | Aggregate(now: Instant)
    | Cleanup(now: Instant, setting: Setting, configDays: int)

  // ----- the operations on values -----

  /** `_parse_time`: the device's timestamp if it is within 24 h of the server's, else the server's. */
  function ParseTime(device: Option<Instant>, now: Instant): (t: Instant)
    ensures now - SKEW_LIMIT <= t <= now + SKEW_LIMIT
    ensures t == now || Some(t) == device
    ensures device.Some? && now - SKEW_LIMIT <= device.value <= now + SKEW_LIMIT ==> t == device.value
  {
    if device.Some? && now - SKEW_LIMIT <= device.value <= now + SKEW_LIMIT then device.value else now
  }

  /** A row with this primary key (time, node_id) exists. */
  predicate HasRow(rs: seq<Reading>, time: Instant, node: string) {
    exists r :: r in rs && r.time == time && r.node == node
  }

  function Insert(rs: seq<Reading>, r: Reading): seq<Reading> {
    if HasRow(rs, r.time, r.node) then rs else rs + [r]
  }

  /** MAX(bucket) of hourly_agg. */
  function Watermark(hourly: map<Bucket, Summary>): (w: Option<Instant>)
    ensures w.None? <==> hourly == map[]
    ensures w.Some? ==> exists k :: k in hourly && k.hour == w.value
    ensures w.Some? ==> forall k :: k in hourly ==> k.hour <= w.value
  {
    var hours := set k | k in hourly :: k.hour;
    assert forall k :: k in hourly ==> k.hour in hours;
    if hours == {} then None else Some(SetMax(hours))
  }

  /** The earliest hour holding a reading before `end`. */
  function Earliest(rs: seq<Reading>, end: Instant): (e: Option<Instant>)
    ensures e.None? <==> forall r :: r in rs ==> end <= r.time
    ensures e.Some? ==> exists r :: r in rs && r.time < end && HourOf(r.time) == e.value
    ensures e.Some? ==> forall r :: r in rs && r.time < end ==> e.value <= HourOf(r.time)
  {
    var hours := set r | r in rs && r.time < end :: HourOf(r.time);
    assert forall r :: r in rs && r.time < end ==> HourOf(r.time) in hours;
    if hours == {} then None else Some(SetMin(hours))
  }

  /** The first hour a run ending at `end` re-computes, if it computes any. */
  function StartOf(t: Tables, end: Instant): Option<Instant> {
    var earliest, watermark := Earliest(t.readings, end), Watermark(t.hourly);
    if earliest.None? then None
    else if watermark.None? then earliest
    else Some(if earliest.value < watermark.value - LOOK_BACK then watermark.value - LOOK_BACK
              else earliest.value)
  }

  /** The grouped SELECT over the readings in [start, end). */
  function WindowRows(rs: seq<Reading>, start: Instant, end: Instant): map<Bucket, Summary> {
    GroupBy(Filter(InWindow(start, end), rs))
  }

  /** INSERT ... SELECT ... GROUP BY ... ON CONFLICT DO UPDATE over the readings in [start, end). */
  function Upserted(t: Tables, start: Instant, end: Instant): map<Bucket, Summary> {
    t.hourly + WindowRows(t.readings, start, end)
  }

  function RollUp(t: Tables, end: Instant): Tables {
    var start := StartOf(t, end);
    if start.None? || start.value >= end then t
    else t.(hourly := Upserted(t, start.value, end))
  }

  /** Truncation toward zero, as Python's int() does. */
  function Truncate(x: real): int {
    if x < 0.0 then -((-x).Floor) else x.Floor
  }

  /** `_retention_days`: the setting when it is numeric, else the configuration. */
  function RetentionDays(setting: Setting, configDays: int): int {
    if setting.Days? then Truncate(setting.days) else configDays
  }

  /** The whole days kept: those of the setting when it is numeric, else the configuration's. */
  predicate Retains(setting: Setting, configDays: int, days: int) {
    if setting.Days? then days as real <= setting.days < days as real + 1.0 else days == configDays
  }

  /** The task refuses to purge. */
  predicate Refuses(setting: Setting, configDays: int) {
    configDays <= 0 || (setting.Days? && setting.days < 1.0)
  }

  lemma RetainedDays(setting: Setting, configDays: int, days: int)
    requires !Refuses(setting, configDays)
    ensures Retains(setting, configDays, days) <==> days == RetentionDays(setting, configDays)
    ensures 1 <= RetentionDays(setting, configDays)
  {
  }

  /** The cut-off of a cleanup at `now`; None when the task refuses to purge. */
  function CutoffOf(now: Instant, setting: Setting, configDays: int): (c: Option<Instant>)
    ensures c.None? <==> Refuses(setting, configDays)
    ensures c.Some? ==> exists days :: 1 <= days && Retains(setting, configDays, days) && c.value == now - days * DAY
  {
    var days := RetentionDays(setting, configDays);
    if configDays <= 0 || days <= 0 then None
    else assert Retains(setting, configDays, days); Some(now - days * DAY)
  }

  function AtOrAfter(cutoff: Instant): Reading -> bool { (r: Reading) => cutoff <= r.time }

  function Purged(t: Tables, cutoff: Instant): Tables {
    Tables(Filter(AtOrAfter(cutoff), t.readings),
           map k | k in t.hourly && cutoff <= k.hour :: t.hourly[k])
  }

  function Later(a: Option<Instant>, b: Option<Instant>): Option<Instant> {
    if a.None? || (b.Some? && a.value < b.value) then b else a
  }

  function Step(w: World, e: Event): World {
    match e
    case Deliver(now, parsedAt, device, node, nodeActive, measures) =>
      var r := Reading(ParseTime(device, parsedAt), node, measures);
      if node == "" || !nodeActive then w.(clock := now)
      else w.(clock := now, tables := w.tables.(readings := Insert(w.tables.readings, r)))
    case Aggregate(now) =>
      World(RollUp(w.tables, HourOf(now)), now, Some(HourOf(now)), w.cutoff)
    case Cleanup(now, setting, configDays) =>
      var c := CutoffOf(now, setting, configDays);
      if c.None? then w.(clock := now)
      else w.(clock := now, tables := Purged(w.tables, c.value), cutoff := Later(w.cutoff, c))
  }

  function Run(w: World, es: seq<Event>): World
    decreases |es|
  {
    if es == [] then w else Run(Step(w, es[0]), es[1..])
  }

  /** The clock never goes back, and a reading commits at most `slack` after its time was parsed. */
  predicate Feasible(w: World, es: seq<Event>, slack: int)
    decreases |es|
  {
    es != [] ==>
      && w.clock <= es[0].now
      && (es[0].Deliver? ==> es[0].parsedAt <= es[0].now <= es[0].parsedAt + slack)
      && Feasible(Step(w, es[0]), es[1..], slack)
  }

  /** Before any run or purge: nothing rolled up yet, whatever readings there are. */
  predicate Fresh(w: World) {
    w.tables.hourly == map[] && w.lastEnd.None? && w.cutoff.None?
  }

  // ----- the invariant -----

  /** The hour is not older than anything retention ever deleted. */
  predicate Kept(w: World, hour: Instant) {
    w.cutoff.Some? ==> w.cutoff.value <= hour
  }

  /** hourly_agg holds for `k` exactly what a full GROUP BY of the readings would. */
  predicate Agrees(t: Tables, k: Bucket) {
    && (k in t.hourly <==> k in BucketsOf(t.readings))
    && (k in t.hourly ==> t.hourly[k] == Summarise(Filter(InBucket(k), t.readings)))
  }

  /** Rolled-up rows lie before the last run's end, and a kept one still has its readings. */
  ghost predicate RowsBeforeLastEnd(w: World) {
    forall k :: k in w.tables.hourly ==>
      && Aligned(k.hour) && w.lastEnd.Some? && k.hour < w.lastEnd.value
      && (Kept(w, k.hour) ==> k in BucketsOf(w.tables.readings))
  }

  /** Neither a run's end nor a cut-off lies in the future. */
  predicate MarksBehindClock(w: World) {
    && (w.lastEnd.Some? ==> Aligned(w.lastEnd.value) && w.lastEnd.value <= w.clock)
    && (w.cutoff.Some? ==> w.cutoff.value <= w.clock - DAY)
  }

  ghost predicate Inv(w: World) {
    && RowsBeforeLastEnd(w) && MarksBehindClock(w)
    && (w.lastEnd.Some? ==> Exact(w, w.lastEnd.value - HOUR - LOOK_BACK))
  }

  /** Every kept hour before `end` is exact. */
  ghost predicate Exact(w: World, end: Instant) {
    forall k: Bucket :: Kept(w, k.hour) && k.hour < end ==> Agrees(w.tables, k)
  }

  // ----- one run -----

  lemma GroupOfWindow(rs: seq<Reading>, start: Instant, end: Instant, k: Bucket)
    requires Aligned(start) && Aligned(end) && start <= k.hour < end
    ensures Filter(InBucket(k), Filter(InWindow(start, end), rs)) == Filter(InBucket(k), rs)
    ensures k in BucketsOf(Filter(InWindow(start, end), rs)) <==> k in BucketsOf(rs)
  {
    forall r | r in rs && BucketOf(r) == k ensures InWindow(start, end)(r) {
      AlignedGap(k.hour, end);
    }
    FilterFilter(InBucket(k), InWindow(start, end), rs);
    var window := Filter(InWindow(start, end), rs);
    assert forall r :: r in rs && BucketOf(r) == k ==> r in window;
  }

  /** The groups of a window that starts and ends on the hour are whole groups. */
  lemma GroupInWindow(rs: seq<Reading>, start: Instant, end: Instant, k: Bucket)
    requires Aligned(start) && Aligned(end)
    ensures k in WindowRows(rs, start, end) <==> start <= k.hour < end && k in BucketsOf(rs)
    ensures k in WindowRows(rs, start, end) ==>
              WindowRows(rs, start, end)[k] == Summarise(Filter(InBucket(k), rs))
  {
    hide Summarise;
    if start <= k.hour < end {
      GroupOfWindow(rs, start, end, k);
    } else if k in WindowRows(rs, start, end) {
      var r :| r in Filter(InWindow(start, end), rs) && BucketOf(r) == k;
      assert InWindow(start, end)(r);
      HourOfIsGreatest(start, r.time);
    }
  }

  /** The newest rolled-up hour ended by the end of the last run. */
  lemma WatermarkBehindLastEnd(w: World)
    requires RowsBeforeLastEnd(w) && MarksBehindClock(w) && Watermark(w.tables.hourly).Some?
    ensures w.lastEnd.Some? && Watermark(w.tables.hourly).value <= w.lastEnd.value - HOUR
    ensures Aligned(Watermark(w.tables.hourly).value)
  {
    var k :| k in w.tables.hourly && k.hour == Watermark(w.tables.hourly).value;
    AlignedGap(k.hour, w.lastEnd.value);
  }

  /** The early return on `start >= end` is dead code as long as the clock does not go back. */
  lemma StartBeforeEnd(w: World, now: Instant)
    requires RowsBeforeLastEnd(w) && MarksBehindClock(w) && w.clock <= now
    ensures var start := StartOf(w.tables, HourOf(now));
            start.Some? ==> start.value < HourOf(now) && Aligned(start.value)
  {
    if Watermark(w.tables.hourly).Some? {
      WatermarkBehindLastEnd(w);
      AlignedMinusDay(Watermark(w.tables.hourly).value);
      HourOfIsGreatest(w.lastEnd.value, now);
    }
  }

  /** A run makes every kept hour below its end exact. */
  lemma RunIsExact(w: World, now: Instant)
    requires Inv(w) && w.clock <= now
    ensures Exact(Step(w, Aggregate(now)), HourOf(now))
  {
    hide HourOf, StartOf, RollUp, Agrees, Aligned, Inv;
    forall k: Bucket | Kept(w, k.hour) && k.hour < HourOf(now) ensures Agrees(RollUp(w.tables, HourOf(now)), k) {
      RunIsExactAt(w, now, k);
    }
  }

  lemma RunIsExactAt(w: World, now: Instant, k: Bucket)
    requires Inv(w) && w.clock <= now && Kept(w, k.hour) && k.hour < HourOf(now)
    ensures Agrees(RollUp(w.tables, HourOf(now)), k)
  {
    hide HourOf, StartOf, RollUp, Agrees, Aligned, Kept;
    var t, end := w.tables, HourOf(now);
    StartBeforeEnd(w, now);
    var start := StartOf(t, end);
    if start.None? {
      RunWithoutWindow(w, end, k);
    } else if start.value <= k.hour {
      RunInsideWindow(w, end, k);
    } else {
      BelowStart(w, now, k);
      RunBelowWindow(t, end, k);
    }
  }

  lemma RunWithoutWindow(w: World, end: Instant, k: Bucket)
    requires RowsBeforeLastEnd(w) && Kept(w, k.hour) && Aligned(end) && k.hour < end && StartOf(w.tables, end).None?
    ensures Agrees(RollUp(w.tables, end), k)
  {
    NothingBefore(w.tables.readings, end, k);
  }

  lemma RunInsideWindow(w: World, end: Instant, k: Bucket)
    requires var start := StartOf(w.tables, end);
             start.Some? && Aligned(start.value) && start.value <= k.hour < end
    requires RowsBeforeLastEnd(w) && Kept(w, k.hour) && Aligned(end)
    ensures Agrees(RollUp(w.tables, end), k)
  {
    hide StartOf, Summarise;
    GroupOfWindow(w.tables.readings, StartOf(w.tables, end).value, end, k);
  }

  lemma RunBelowWindow(t: Tables, end: Instant, k: Bucket)
    requires var start := StartOf(t, end); start.Some? && Aligned(start.value) && k.hour < start.value < end
    requires Agrees(t, k)
    ensures Agrees(RollUp(t, end), k)
  {
    hide StartOf, Summarise;
    WindowStartsAt(t.readings, StartOf(t, end).value, end, k);
  }

  lemma NothingBefore(rs: seq<Reading>, end: Instant, k: Bucket)
    requires Earliest(rs, end).None? || k.hour < Earliest(rs, end).value
    requires k.hour < end && Aligned(end)
    ensures k !in BucketsOf(rs)
  {
  }

  lemma WindowStartsAt(rs: seq<Reading>, start: Instant, end: Instant, k: Bucket)
    requires Aligned(start) && k.hour < start
    ensures k !in BucketsOf(Filter(InWindow(start, end), rs))
  {
  }

  /** Hours below the start of a run were exact already, or hold no reading at all. */
  lemma BelowStart(w: World, now: Instant, k: Bucket)
    requires Inv(w) && w.clock <= now && Kept(w, k.hour) && k.hour < HourOf(now)
    requires StartOf(w.tables, HourOf(now)).Some? && k.hour < StartOf(w.tables, HourOf(now)).value
    ensures Agrees(w.tables, k)
  {
    var earliest, watermark := Earliest(w.tables.readings, HourOf(now)), Watermark(w.tables.hourly);
    if k.hour < earliest.value {
      NothingBefore(w.tables.readings, HourOf(now), k);
      assert k !in w.tables.hourly;
    } else {
      WatermarkBehindLastEnd(w);
      assert k.hour < watermark.value - LOOK_BACK;
    }
  }

  // ----- every step keeps the invariant -----

  lemma InsertKeepsOtherGroups(t: Tables, r: Reading, k: Bucket)
    requires BucketOf(r) != k
    ensures Agrees(t.(readings := Insert(t.readings, r)), k) <==> Agrees(t, k)
  {
    var rs := t.readings + [r];
    FilterAppend(InBucket(k), t.readings, [r]);
    OtherBucket(r, k);
    assert Filter(InBucket(k), rs) == Filter(InBucket(k), t.readings);
    assert forall x :: x in rs <==> x in t.readings || x == r;
    assert k in BucketsOf(rs) <==> k in BucketsOf(t.readings);
  }

  lemma OtherBucket(r: Reading, k: Bucket)
    requires BucketOf(r) != k
    ensures Filter(InBucket(k), [r]) == []
  {
  }

  lemma DeliverKeepsInv(w: World, e: Event)
    requires Inv(w) && e.Deliver? && Feasible(w, [e], SLACK)
    ensures Inv(Step(w, e))
  {
    var w' := Step(w, e);
    var r := Reading(ParseTime(e.device, e.parsedAt), e.node, e.measures);
    assert forall x :: x in w.tables.readings ==> x in Insert(w.tables.readings, r);
    if w.lastEnd.Some? {
      var frontier := w.lastEnd.value - HOUR - LOOK_BACK;
      AlignedMinusDay(w.lastEnd.value);
      assert frontier <= r.time;
      if HourOf(r.time) < frontier { AlignedGap(HourOf(r.time), frontier); }
      forall k: Bucket | Kept(w', k.hour) && k.hour < frontier ensures Agrees(w'.tables, k) {
        InsertKeepsOtherGroups(w.tables, r, k);
      }
    }
  }

  lemma PurgeKeepsGroups(t: Tables, cutoff: Instant, k: Bucket)
    requires cutoff <= k.hour
    ensures Agrees(Purged(t, cutoff), k) <==> Agrees(t, k)
    ensures k in BucketsOf(Purged(t, cutoff).readings) <==> k in BucketsOf(t.readings)
  {
    var rs := Filter(AtOrAfter(cutoff), t.readings);
    FilterFilter(InBucket(k), AtOrAfter(cutoff), t.readings);
    assert forall r :: r in t.readings && BucketOf(r) == k ==> r in rs;
  }

  lemma CleanupKeepsInv(w: World, e: Event)
    requires Inv(w) && e.Cleanup? && w.clock <= e.now
    ensures Inv(Step(w, e))
  {
    var w', c := Step(w, e), CutoffOf(e.now, e.setting, e.configDays);
    if c.Some? {
      forall k: Bucket | Kept(w', k.hour)
        ensures Agrees(w'.tables, k) <==> Agrees(w.tables, k)
        ensures k in BucketsOf(w'.tables.readings) <==> k in BucketsOf(w.tables.readings)
      {
        PurgeKeepsGroups(w.tables, c.value, k);
      }
    }
  }

  lemma WindowRow(rs: seq<Reading>, start: Instant, end: Instant, k: Bucket)
    requires Aligned(end) && k in WindowRows(rs, start, end)
    ensures Aligned(k.hour) && k.hour < end && k in BucketsOf(rs)
  {
    var r :| r in Filter(InWindow(start, end), rs) && BucketOf(r) == k;
    assert InWindow(start, end)(r);
  }

  lemma RowStaysBeforeEnd(w: World, now: Instant, k: Bucket)
    requires RowsBeforeLastEnd(w) && k in RollUp(w.tables, HourOf(now)).hourly
    requires w.lastEnd.Some? ==> w.lastEnd.value <= HourOf(now)
    ensures Aligned(k.hour) && k.hour < HourOf(now)
    ensures Kept(w, k.hour) ==> k in BucketsOf(w.tables.readings)
  {
    hide WindowRows, HourOf, Aligned, BucketsOf, StartOf;
    if k !in w.tables.hourly {
      WindowRow(w.tables.readings, StartOf(w.tables, HourOf(now)).value, HourOf(now), k);
    }
  }

  lemma EndsGrow(w: World, now: Instant)
    requires MarksBehindClock(w) && w.clock <= now && w.lastEnd.Some?
    ensures w.lastEnd.value <= HourOf(now)
  {
    HourOfIsGreatest(w.lastEnd.value, now);
  }

  lemma RowsStayBeforeEnd(w: World, now: Instant)
    requires RowsBeforeLastEnd(w) && MarksBehindClock(w) && w.clock <= now
    ensures RowsBeforeLastEnd(Step(w, Aggregate(now)))
  {
    hide RollUp, HourOf, Aligned, BucketsOf, BucketOf, MarksBehindClock;
    if w.lastEnd.Some? { EndsGrow(w, now); }
    var w' := Step(w, Aggregate(now));
    assert w'.tables.readings == w.tables.readings by { RollUpKeepsReadings(w.tables, HourOf(now)); }
    forall k | k in w'.tables.hourly
      ensures Aligned(k.hour) && k.hour < HourOf(now) && (Kept(w, k.hour) ==> k in BucketsOf(w.tables.readings))
    {
      RowStaysBeforeEnd(w, now, k);
    }
  }

  lemma RollUpKeepsReadings(t: Tables, end: Instant)
    ensures RollUp(t, end).readings == t.readings
  {
  }

  lemma AggregateKeepsInv(w: World, now: Instant)
    requires Inv(w) && w.clock <= now
    ensures Inv(Step(w, Aggregate(now)))
  {
    RunIsExact(w, now);
    RowsStayBeforeEnd(w, now);
  }

  lemma StepKeepsInv(w: World, e: Event)
    requires Inv(w) && Feasible(w, [e], SLACK)
    ensures Inv(Step(w, e))
  {
    match e
    case Deliver(_, _, _, _, _, _) => DeliverKeepsInv(w, e);
    case Aggregate(now) => AggregateKeepsInv(w, now);
    case Cleanup(_, _, _) => CleanupKeepsInv(w, e);
  }

  lemma {:induction false} RunKeepsInv(w: World, es: seq<Event>)
    requires Inv(w) && Feasible(w, es, SLACK)
    ensures Inv(Run(w, es))
    decreases |es|
  {
    if es == [] {
    } else {
      StepKeepsInv(w, es[0]);
      RunKeepsInv(Step(w, es[0]), es[1..]);
    }
  }

  // ----- main results -----

  /**
   After any run, in every interleaving of deliveries, runs and purges, hourly_agg is the full
   GROUP BY of the readings on every hour before the run's end that retention has left alone,
   and holds no later hour.
   */
  lemma IncrementalEqualsGroupBy(w: World, es: seq<Event>, now: Instant)
    requires Fresh(w) && Feasible(w, es, SLACK) && Run(w, es).clock <= now
    ensures var w' := Step(Run(w, es), Aggregate(now));
            && Hours(w'.tables.hourly, w'.cutoff, HourOf(now))
               == Hours(GroupBy(w'.tables.readings), w'.cutoff, HourOf(now))
            && Described(w'.tables, w'.cutoff, HourOf(now))
            && forall k :: k in w'.tables.hourly ==> k.hour < HourOf(now)
  {
    RunKeepsInv(w, es);
    hide Described;
    RunOutcome(Run(w, es), now);
  }

  /** The bucket has a row exactly if it has readings, and the row describes just those. */
  ghost predicate DescribedAt(t: Tables, k: Bucket) {
    var group := Filter(InBucket(k), t.readings);
    && IsGroup(group, k, t.readings)
    && (k in t.hourly <==> group != []) && (k in t.hourly ==> Describes(t.hourly[k], group))
  }

  /** So it is with every bucket before `end` that retention has left alone. */
  ghost predicate Described(t: Tables, cutoff: Option<Instant>, end: Instant) {
    forall k: Bucket :: (cutoff.Some? ==> cutoff.value <= k.hour) && k.hour < end ==> DescribedAt(t, k)
  }

  lemma ExactIsDescribed(w: World, end: Instant)
    requires Exact(w, end)
    ensures Described(w.tables, w.cutoff, end)
  {
    hide Summarise, Filter, BucketsOf;
    forall k: Bucket | Kept(w, k.hour) && k.hour < end ensures DescribedAt(w.tables, k) {
      assert Agrees(w.tables, k);
      GroupMeaning(w.tables.readings, k);
      SummaryMeaning(Filter(InBucket(k), w.tables.readings));
    }
  }

  lemma ExactAsMaps(w: World, end: Instant)
    requires Exact(w, end)
    ensures Hours(w.tables.hourly, w.cutoff, end) == Hours(GroupBy(w.tables.readings), w.cutoff, end)
  {
    hide Summarise, BucketsOf, Filter, HourOf;
    var a, b := Hours(w.tables.hourly, w.cutoff, end), Hours(GroupBy(w.tables.readings), w.cutoff, end);
    forall k: Bucket ensures (k in a <==> k in b) && (k in a ==> a[k] == b[k]) {
      if Kept(w, k.hour) && k.hour < end { assert Agrees(w.tables, k); }
    }
  }

  /** What one run guarantees, in one place. */
  lemma RunOutcome(w: World, now: Instant)
    requires Inv(w) && w.clock <= now
    ensures var w' := Step(w, Aggregate(now));
            && Inv(w')
            && Hours(w'.tables.hourly, w'.cutoff, HourOf(now))
               == Hours(GroupBy(w'.tables.readings), w'.cutoff, HourOf(now))
            && Described(w'.tables, w'.cutoff, HourOf(now))
  {
    RunIsExact(w, now);
    AggregateKeepsInv(w, now);
    hide Step, HourOf, Inv;
    ExactAsMaps(Step(w, Aggregate(now)), HourOf(now));
    ExactIsDescribed(Step(w, Aggregate(now)), HourOf(now));
  }

  function NotARun(): Event -> bool { (e: Event) => !e.Aggregate? }

  /** Runs touch neither the readings nor the retention horizon. */
  lemma {:induction false} ReadingsIgnoreRuns(w: World, v: World, es: seq<Event>)
    requires w.tables.readings == v.tables.readings && w.cutoff == v.cutoff
    ensures Run(w, es).tables.readings == Run(v, Filter(NotARun(), es)).tables.readings
    ensures Run(w, es).cutoff == Run(v, Filter(NotARun(), es)).cutoff
    decreases |es|
  {
    if es == [] {
    } else {
      var rest := Filter(NotARun(), es[1..]);
      if es[0].Aggregate? {
        ReadingsIgnoreRuns(Step(w, es[0]), v, es[1..]);
      } else {
        assert ([es[0]] + rest)[1..] == rest;
        ReadingsIgnoreRuns(Step(w, es[0]), Step(v, es[0]), es[1..]);
      }
    }
  }

  /** When the runs happened (missed hours, repeats, retries) does not show after the next one. */
  lemma ScheduleIndependence(w: World, es: seq<Event>, fs: seq<Event>, now: Instant)
    requires Fresh(w) && Feasible(w, es, SLACK) && Feasible(w, fs, SLACK)
    requires Filter(NotARun(), es) == Filter(NotARun(), fs)
    requires Run(w, es).clock <= now && Run(w, fs).clock <= now
    ensures var a, b := Step(Run(w, es), Aggregate(now)), Step(Run(w, fs), Aggregate(now));
            && a.tables.readings == b.tables.readings && a.cutoff == b.cutoff
            && Hours(a.tables.hourly, a.cutoff, HourOf(now)) == Hours(b.tables.hourly, b.cutoff, HourOf(now))
  {
    hide Described, Hours, GroupBy, HourOf, RollUp, Feasible;
    IncrementalEqualsGroupBy(w, es, now);
    IncrementalEqualsGroupBy(w, fs, now);
    ReadingsIgnoreRuns(w, w, es);
    ReadingsIgnoreRuns(w, w, fs);
    RollUpKeepsReadings(Run(w, es).tables, HourOf(now));
    RollUpKeepsReadings(Run(w, fs).tables, HourOf(now));
  }

  // ----- redelivery -----

  lemma {:induction false} RowSurvives(w: World, es: seq<Event>, time: Instant, node: string)
    requires HasRow(w.tables.readings, time, node)
    requires Run(w, es).cutoff.Some? ==> Run(w, es).cutoff.value <= time
    ensures HasRow(Run(w, es).tables.readings, time, node)
    ensures w.cutoff.Some? ==> w.cutoff.value <= time
    decreases |es|
  {
    if es == [] {
    } else {
      var v := Step(w, es[0]);
      CutoffIsGreatest(v, es[1..]);
      var r :| r in w.tables.readings && r.time == time && r.node == node;
      assert r in v.tables.readings;
      RowSurvives(v, es[1..], time, node);
    }
  }

  /** The retention horizon of a run is the greatest cut-off of its purges. */
  lemma {:induction false} CutoffIsGreatest(w: World, es: seq<Event>)
    ensures var c := Run(w, es).cutoff;
            && (w.cutoff.Some? ==> c.Some? && w.cutoff.value <= c.value)
            && (forall e :: e in es && PurgesAt(e).Some? ==> c.Some? && PurgesAt(e).value <= c.value)
            && (c.Some? ==> c == w.cutoff || exists e :: e in es && PurgesAt(e) == c)
    decreases |es|
  {
    if es == [] {
    } else {
      CutoffIsGreatest(Step(w, es[0]), es[1..]);
      StepCutoff(w, es[0]);
      hide Step, PurgesAt;
      assert forall e :: e in es <==> e == es[0] || e in es[1..];
    }
  }

  lemma StepCutoff(w: World, e: Event)
    ensures Step(w, e).cutoff == w.cutoff || Step(w, e).cutoff == PurgesAt(e)
    ensures w.cutoff.Some? ==> Step(w, e).cutoff.Some? && w.cutoff.value <= Step(w, e).cutoff.value
    ensures PurgesAt(e).Some? ==> Step(w, e).cutoff.Some? && PurgesAt(e).value <= Step(w, e).cutoff.value
  {
  }

  function PurgesAt(e: Event): Option<Instant> {
    if e.Cleanup? then CutoffOf(e.now, e.setting, e.configDays) else None
  }

  /** A device timestamp that `_parse_time` keeps at this instant. */
  predicate WithinSkew(device: Option<Instant>, now: Instant) {
    device.Some? && now - SKEW_LIMIT <= device.value <= now + SKEW_LIMIT
  }

  /** Two arrivals of one reading are stored at the same time only if both keep its timestamp, or at one instant. */
  lemma SameStoredTime(device: Option<Instant>, first: Instant, again: Instant)
    ensures ParseTime(device, first) == ParseTime(device, again) <==>
              (WithinSkew(device, first) && WithinSkew(device, again)) || first == again
  {
  }

  /**
   A reading that arrives twice, with anything at all in between. The second arrival changes
   nothing exactly when its node is inactive by then, or both arrivals keep the device's timestamp
   and retention has not reached it since, or some reading already has the second arrival's key.
   Retention cannot reach it if the second arrival was parsed after everything in between.
   */
  lemma RedeliveryChangesNothing(w: World, first: Event, es: seq<Event>, again: Event)
    requires Inv(w) && Feasible(w, [first], SLACK) && Feasible(Step(w, first), es, SLACK)
    requires Feasible(Run(Step(w, first), es), [again], SLACK)
    requires first.Deliver? && again.Deliver? && first.node != "" && first.nodeActive
    requires again.device == first.device && again.node == first.node
    ensures var v := Run(Step(w, first), es);
            var same := ParseTime(first.device, first.parsedAt) == ParseTime(again.device, again.parsedAt);
            var time := ParseTime(again.device, again.parsedAt);
            && (Step(v, again).tables == v.tables <==>
                  !again.nodeActive || (same && Kept(v, time)) || HasRow(v.tables.readings, time, again.node))
            && (v.clock <= again.parsedAt && (WithinSkew(again.device, again.parsedAt) || same) ==> Kept(v, time))
  {
    var w1 := Step(w, first);
    StepKeepsInv(w, first);
    RunKeepsInv(w1, es);
    var v, time := Run(w1, es), ParseTime(again.device, again.parsedAt);
    if ParseTime(first.device, first.parsedAt) == time && Kept(v, time) {
      FirstIsStored(w, first);
      RowSurvives(w1, es, time, again.node);
    }
  }

  lemma FirstIsStored(w: World, first: Event)
    requires first.Deliver? && first.node != "" && first.nodeActive
    ensures HasRow(Step(w, first).tables.readings, ParseTime(first.device, first.parsedAt), first.node)
  {
    var r := Reading(ParseTime(first.device, first.parsedAt), first.node, first.measures);
    if !HasRow(w.tables.readings, r.time, r.node) { assert r in Step(w, first).tables.readings; }
  }

  /** No other delivery of this node is stored at this time. */
  predicate NoOther(es: seq<Event>, time: Instant, node: string) {
    forall e :: e in es && e.Deliver? && e.node == node && e.nodeActive ==> ParseTime(e.device, e.parsedAt) != time
  }

  /** No purge deletes what is stored at this time. */
  predicate Untouched(es: seq<Event>, time: Instant) {
    forall e :: e in es && PurgesAt(e).Some? ==> PurgesAt(e).value <= time
  }

  lemma StepRow(w: World, e: Event, time: Instant, node: string)
    requires NoOther([e], time, node) && node != ""
    ensures HasRow(Step(w, e).tables.readings, time, node)
       <==> HasRow(w.tables.readings, time, node) && Untouched([e], time)
  {
    assert e in [e];
    var rs, rs' := w.tables.readings, Step(w, e).tables.readings;
    assert forall r :: r in rs' && r.time == time && r.node == node ==> r in rs;
    if r :| r in rs && r.time == time && r.node == node && Untouched([e], time) { assert r in rs'; }
  }

  lemma {:induction false} RowExactly(w: World, es: seq<Event>, time: Instant, node: string)
    requires NoOther(es, time, node) && node != ""
    ensures HasRow(Run(w, es).tables.readings, time, node)
       <==> HasRow(w.tables.readings, time, node) && Untouched(es, time)
    decreases |es|
  {
    if es == [] {
    } else {
      assert forall e :: e in es <==> e in [es[0]] || e in es[1..];
      StepRow(w, es[0], time, node);
      RowExactly(Step(w, es[0]), es[1..], time, node);
    }
  }

  /**
   Where no third reading has the second arrival's key, the two arrivals and the purges between
   them decide: an active node's second arrival changes nothing exactly when both are stored at
   the same time and no purge has deleted the first.
   */
  lemma RedeliveryExactly(w: World, first: Event, es: seq<Event>, again: Event)
    requires first.Deliver? && again.Deliver? && first.node != "" && first.nodeActive
    requires again.device == first.device && again.node == first.node
    requires var time := ParseTime(again.device, again.parsedAt);
             !HasRow(w.tables.readings, time, again.node) && NoOther(es, time, again.node)
    ensures var v := Run(Step(w, first), es);
            var time := ParseTime(again.device, again.parsedAt);
            Step(v, again).tables == v.tables <==>
              !again.nodeActive || (ParseTime(first.device, first.parsedAt) == time && Untouched(es, time))
  {
    var time := ParseTime(again.device, again.parsedAt);
    if ParseTime(first.device, first.parsedAt) == time {
      FirstIsStored(w, first);
    } else {
      StepRow(w, first, time, again.node);
    }
    RowExactly(Step(w, first), es, time, again.node);
  }

  /** A device 25 h ahead: its reading is clamped at first, kept two hours later, and stored twice. */
  lemma RedeliveryOfFastClock()
    ensures var first := Deliver(0, 0, Some(25 * HOUR), "n", true, Blank());
            var again := Deliver(2 * HOUR, 2 * HOUR, Some(25 * HOUR), "n", true, Blank());
            && Fresh(W0()) && Feasible(W0(), [first, again], SLACK)
            && WithinSkew(again.device, again.parsedAt)
            && |Step(Step(W0(), first), again).tables.readings| == 2
  {
    var first := Deliver(0, 0, Some(25 * HOUR), "n", true, Blank());
    var again := Deliver(2 * HOUR, 2 * HOUR, Some(25 * HOUR), "n", true, Blank());
    assert [first, again][1..] == [again] && [again][1..] == [];
    assert Step(W0(), first).tables.readings == [Reading(0, "n", Blank())];
  }

  // ----- the slack is exact -----

  /** Whatever happens, a run leaves every kept hour exact, if commits lag by at most `slack`. */
  ghost predicate AlwaysExact(slack: int) {
    forall w, es, now: Instant ::
      Fresh(w) && Feasible(w, es, slack) && Run(w, es).clock <= now ==>
        Exact(Step(Run(w, es), Aggregate(now)), HourOf(now))
  }

  lemma {:induction false} FeasibleWithLessSlack(w: World, es: seq<Event>, slack: int)
    requires Feasible(w, es, slack) && slack <= SLACK
    ensures Feasible(w, es, SLACK)
    decreases |es|
  {
    if es == [] {
    } else {
      FeasibleWithLessSlack(Step(w, es[0]), es[1..], slack);
    }
  }

  /** The 24 h look-back covers the 24 h clamp for commit delays up to one hour, and no longer. */
  lemma SlackIsExact(slack: int)
    ensures AlwaysExact(slack) <==> slack <= SLACK
  {
    if slack <= SLACK {
      forall w, es, now: Instant | Fresh(w) && Feasible(w, es, slack) && Run(w, es).clock <= now
        ensures Exact(Step(Run(w, es), Aggregate(now)), HourOf(now))
      {
        FeasibleWithLessSlack(w, es, slack);
        RunKeepsInv(w, es);
        RunIsExact(Run(w, es), now);
      }
    } else {
      var w, es, now := LostReading(slack);
    }
  }

  // A commit one microsecond too late: the reading's hour is never rolled up.

  function Blank(): Measures { Measures(None, None, None, None, None, false) }

  /** Noon of this example: the run's time, on the hour. */
  const AT: Instant := 100 * HOUR

  const ON_TIME := Deliver(AT - HOUR, AT - HOUR, None, "n", true, Blank())
  const LATE := Deliver(AT, AT - HOUR - 1, Some(AT - 25 * HOUR - 1), "n", true, Blank())
  const FIRST := Reading(AT - HOUR, "n", Blank())
  const SECOND := Reading(AT - 25 * HOUR - 1, "n", Blank())

  function W0(): World { World(Tables([], map[]), 0, None, None) }
  function W1(): World { World(Tables([FIRST], map[]), AT - HOUR, None, None) }

  lemma LostReading(slack: int) returns (w: World, es: seq<Event>, now: Instant)
    requires slack > SLACK
    ensures Fresh(w) && Feasible(w, es, slack) && Run(w, es).clock <= now
    ensures !Exact(Step(Run(w, es), Aggregate(now)), HourOf(now))
  {
    hide Step, Feasible, Run, Exact, HourOf;
    w, es, now := W0(), [ON_TIME, Aggregate(AT), LATE], AT;
    FirstArrives(slack);
    var w2 := FirstIsRolledUp(slack);
    LateArrives(w2, slack);
    RunOfThree(w, ON_TIME, Aggregate(AT), LATE, slack);
    LateIsMissed(Step(w2, LATE));
  }

  lemma FirstIsRolledUp(slack: int) returns (w: World)
    requires slack > SLACK
    ensures Feasible(W1(), [Aggregate(AT)], slack) && w == Step(W1(), Aggregate(AT))
    ensures w.tables.readings == [FIRST] && w.tables.hourly.Keys == {Bucket(AT - HOUR, "n")}
    ensures w.clock == AT && w.cutoff.None?
  {
    w := Step(W1(), Aggregate(AT));
    FirstRun();
  }

  lemma FirstArrives(slack: int)
    requires slack > SLACK
    ensures Feasible(W0(), [ON_TIME], slack) && Step(W0(), ON_TIME) == W1()
  {
  }

  lemma RunOfThree(w: World, a: Event, b: Event, c: Event, slack: int)
    requires Feasible(w, [a], slack) && Feasible(Step(w, a), [b], slack)
    requires Feasible(Step(Step(w, a), b), [c], slack)
    ensures Run(w, [a, b, c]) == Step(Step(Step(w, a), b), c)
    ensures Feasible(w, [a, b, c], slack)
  {
    var w1, w2 := Step(w, a), Step(Step(w, a), b);
    assert [a, b, c][1..] == [b, c] && [b, c][1..] == [c] && [c][1..] == [];
    assert Run(w2, [c]) == Run(Step(w2, c), []) == Step(w2, c);
    assert Run(w1, [b, c]) == Run(w2, [c]);
  }

  lemma HourOfAt()
    ensures HourOf(AT) == AT && HourOf(AT - HOUR) == AT - HOUR
    ensures HourOf(AT - 25 * HOUR - 1) == AT - 26 * HOUR
  {
  }

  lemma FirstRun()
    ensures RollUp(Tables([FIRST], map[]), HourOf(AT)).hourly.Keys == {Bucket(AT - HOUR, "n")}
    ensures RollUp(Tables([FIRST], map[]), HourOf(AT)).readings == [FIRST]
  {
    var t := Tables([FIRST], map[]);
    HourOfAt();
    assert FIRST in t.readings;
    assert Earliest(t.readings, AT) == Some(AT - HOUR);
    assert InWindow(AT - HOUR, AT)(FIRST);
    assert Filter(InWindow(AT - HOUR, AT), [FIRST]) == [FIRST];
    assert BucketsOf([FIRST]) == {Bucket(AT - HOUR, "n")};
  }

  lemma LateArrives(w: World, slack: int)
    requires slack > SLACK && w.tables.readings == [FIRST] && w.clock == AT
    ensures Feasible(w, [LATE], slack)
    ensures Step(w, LATE) == w.(tables := w.tables.(readings := [FIRST, SECOND]))
  {
  }

  lemma LateIsMissed(w: World)
    requires w.tables.readings == [FIRST, SECOND] && w.cutoff.None?
    requires w.tables.hourly.Keys == {Bucket(AT - HOUR, "n")}
    ensures !Exact(Step(w, Aggregate(AT)), HourOf(AT))
  {
    HourOfAt();
    SecondRun(w.tables);
    var w', k := Step(w, Aggregate(AT)), Bucket(AT - 26 * HOUR, "n");
    assert Kept(w', k.hour) && k.hour < AT && !Agrees(w'.tables, k);
  }

  lemma SecondWindow(t: Tables)
    requires t.readings == [FIRST, SECOND] && t.hourly.Keys == {Bucket(AT - HOUR, "n")}
    ensures StartOf(t, AT) == Some(AT - 25 * HOUR)
  {
    HourOfAt();
    hide HourOf;
    assert t.readings[0] == FIRST && t.readings[1] == SECOND;
    assert Bucket(AT - HOUR, "n") in t.hourly;
  }

  lemma WindowMissesSecond(k: Bucket)
    requires k in WindowRows([FIRST, SECOND], AT - 25 * HOUR, AT)
    ensures k.hour == AT - HOUR
  {
    HourOfAt();
    hide HourOf, Summarise;
    var r :| r in Filter(InWindow(AT - 25 * HOUR, AT), [FIRST, SECOND]) && BucketOf(r) == k;
    assert !InWindow(AT - 25 * HOUR, AT)(SECOND);
    assert r == FIRST;
  }

  lemma SecondRun(t: Tables)
    requires t.readings == [FIRST, SECOND] && t.hourly.Keys == {Bucket(AT - HOUR, "n")}
    ensures Bucket(AT - 26 * HOUR, "n") !in RollUp(t, HourOf(AT)).hourly
    ensures Bucket(AT - 26 * HOUR, "n") in BucketsOf(t.readings)
  {
    HourOfAt();
    SecondWindow(t);
    assert t.readings[1] == SECOND && BucketOf(SECOND) == Bucket(AT - 26 * HOUR, "n");
    hide HourOf, StartOf, WindowRows;
    forall k | k in WindowRows(t.readings, AT - 25 * HOUR, AT) ensures k.hour == AT - HOUR {
      WindowMissesSecond(k);
    }
  }
}
