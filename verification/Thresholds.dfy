/**
 The two AQI thresholds under concurrent PATCHes. A request pre-checks its patch on a snapshot,
 then selects the threshold rows FOR UPDATE, re-checks and writes. A blocked SELECT returns, when
 it gets its locks, the newest values of the rows that existed when it started: a row inserted
 meanwhile is not among them.
 */
module Thresholds {
  import opened Common

  type RequestId = nat

  /** A stored setting as int() and float() read it. */
  datatype Text = IntText(n: int) | FractionText(r: real) | BlankText | OtherText(text: string)

  /** The rows of system_settings for the two keys. */
  datatype Settings = Settings(warning: Option<Text>, critical: Option<Text>)

  /** The configured fallbacks; startup refuses an unordered pair. */
  datatype Config = Config(warning: int, critical: int) {
    predicate Accepted() { warning < critical }
  }

  /** The threshold part of a PATCH body; other keys do not take part in the check. */
  datatype Patch = Patch(warning: Option<int>, critical: Option<int>)

  /** `_merged_int` */
  function MergedInt(update: Option<int>, stored: Option<Text>, fallback: int): int {
    if update.Some? then update.value
    else if stored.None? then fallback
    else match stored.value
         case IntText(n) => n
         case FractionText(_) => fallback
         case BlankText => fallback
         case OtherText(_) => fallback
  }

  function Warning(p: Patch, s: Settings, c: Config): int { MergedInt(p.warning, s.warning, c.warning) }

  function Critical(p: Patch, s: Settings, c: Config): int { MergedInt(p.critical, s.critical, c.critical) }

  predicate Valid(p: Patch, s: Settings, c: Config) { Warning(p, s, c) < Critical(p, s, c) }

  const NO_PATCH := Patch(None, None)

  /** Thresholds a PATCH may set. */
  const MAX_AQI: int := 500

  predicate InRange(p: Patch) {
    (p.warning.Some? ==> 0 <= p.warning.value <= MAX_AQI) && (p.critical.Some? ==> 0 <= p.critical.value <= MAX_AQI)
  }

  /** The effective pair is ordered. */
  predicate Ordered(s: Settings, c: Config) { Valid(NO_PATCH, s, c) }

  function Written(update: Option<int>, stored: Option<Text>): Option<Text> {
    if update.Some? then Some(IntText(update.value)) else stored
  }

  /** The upserts of a patch. */
  function Patched(p: Patch, s: Settings): Settings {
    Settings(Written(p.warning, s.warning), Written(p.critical, s.critical))
  }

  /** What a SELECT sees of the newest values: only the rows that existed when it started. */
  function Seen(s: Settings, warningRow: bool, criticalRow: bool): Settings {
    Settings(if warningRow then s.warning else None, if criticalRow then s.critical else None)
  }

  // ----- the interleaved system -----

  /** `PreChecked`: the pre-check passed. `Waiting`: SELECT ... FOR UPDATE started. `Holding`: re-check passed. */
  datatype Phase =
    | PreChecked(patch: Patch)
    | Waiting(patch: Patch, warningRow: bool, criticalRow: bool)
    | Holding(patch: Patch, warningRow: bool, criticalRow: bool)

  datatype World = World(settings: Settings, requests: map<RequestId, Phase>)

  datatype Event =
    | PreCheck(request: RequestId, patch: Patch)
    | Select(request: RequestId)
    | Lock(request: RequestId)
    | Commit(request: RequestId)
    | Rollback(request: RequestId)

  /** Another request holds a lock on one of these rows. */
  predicate Locked(w: World, request: RequestId, warningRow: bool, criticalRow: bool) {
    exists r :: r in w.requests && r != request && w.requests[r].Holding?
                && ((w.requests[r].warningRow && warningRow) || (w.requests[r].criticalRow && criticalRow))
  }

  function Step(w: World, e: Event, c: Config): World {
    match e
    case PreCheck(r, p) =>
      if r in w.requests || !InRange(p) || !Valid(p, w.settings, c) then w
      else w.(requests := w.requests[r := PreChecked(p)])
    case Select(r) =>
      if r !in w.requests || !w.requests[r].PreChecked? then w
      else
        var rows := Waiting(w.requests[r].patch, w.settings.warning.Some?, w.settings.critical.Some?);
        w.(requests := w.requests[r := rows])
    case Lock(r) =>
      if r !in w.requests || !w.requests[r].Waiting? then w
      else
        var q := w.requests[r];
        if Locked(w, r, q.warningRow, q.criticalRow) then w
        else if !Valid(q.patch, Seen(w.settings, q.warningRow, q.criticalRow), c) then
          w.(requests := w.requests - {r})
        else w.(requests := w.requests[r := Holding(q.patch, q.warningRow, q.criticalRow)])
    case Commit(r) =>
      if r !in w.requests || !w.requests[r].Holding? then w
      else World(Patched(w.requests[r].patch, w.settings), w.requests - {r})
    case Rollback(r) => w.(requests := w.requests - {r})
  }

  function Run(w: World, es: seq<Event>, c: Config): World
    decreases |es|
  {
    if es == [] then w else Run(Step(w, es[0], c), es[1..], c)
  }

  // ----- when the pair stays ordered -----

  predicate BothRows(s: Settings) { s.warning.Some? && s.critical.Some? }

  /** The critical row may be missing, but its fallback leaves no warning that a later critical could undercut. */
  predicate NoRoomBelow(s: Settings, c: Config) {
    s.warning.Some? && (c.critical <= 0 || (c.critical == 1 && Warning(NO_PATCH, s, c) >= 0))
  }

  /** The warning row may be missing, but its fallback leaves no critical that a later warning could exceed. */
  predicate NoRoomAbove(s: Settings, c: Config) {
    s.critical.Some? && (c.warning >= MAX_AQI || (c.warning == MAX_AQI - 1 && Critical(NO_PATCH, s, c) <= MAX_AQI))
  }

  predicate Safe(s: Settings, c: Config) { BothRows(s) || NoRoomBelow(s, c) || NoRoomAbove(s, c) }

  /** What the lock holder's SELECT saw is enough for its re-check. */
  predicate SawEnough(s: Settings, c: Config, warningRow: bool, criticalRow: bool) {
    || (warningRow && criticalRow)
    || (warningRow && NoRoomBelow(s, c))
    || (criticalRow && NoRoomAbove(s, c))
  }

  /** Every request in its write transaction saw enough, and a lock holder's patch fits the committed pair. */
  ghost predicate Inv(w: World, c: Config) {
    && c.Accepted() && Safe(w.settings, c) && Ordered(w.settings, c)
    && (forall r :: r in w.requests ==> InRange(w.requests[r].patch))
    && (forall r :: r in w.requests && !w.requests[r].PreChecked? ==>
          SawEnough(w.settings, c, w.requests[r].warningRow, w.requests[r].criticalRow))
    && (forall r :: r in w.requests && w.requests[r].Holding? ==> Valid(w.requests[r].patch, w.settings, c))
    && (forall r, q :: r in w.requests && q in w.requests && w.requests[r].Holding? && w.requests[q].Holding? ==>
          r == q)
  }

  lemma ReCheckSuffices(p: Patch, s: Settings, c: Config, warningRow: bool, criticalRow: bool)
    requires Ordered(s, c) && InRange(p) && SawEnough(s, c, warningRow, criticalRow)
    requires Valid(p, Seen(s, warningRow, criticalRow), c)
    ensures Valid(p, s, c)
  {
  }

  lemma CommitKeepsSafe(p: Patch, s: Settings, c: Config, warningRow: bool, criticalRow: bool)
    requires InRange(p) && Valid(p, s, c)
    ensures Ordered(Patched(p, s), c)
    ensures Safe(s, c) ==> Safe(Patched(p, s), c)
    ensures SawEnough(s, c, warningRow, criticalRow) ==> SawEnough(Patched(p, s), c, warningRow, criticalRow)
  {
  }

  lemma StepKeepsInv(w: World, e: Event, c: Config)
    requires Inv(w, c)
    ensures Inv(Step(w, e, c), c)
  {
    var r := e.request;
    if e.Lock? && r in w.requests && w.requests[r].Waiting? {
      var q := w.requests[r];
      if Valid(q.patch, Seen(w.settings, q.warningRow, q.criticalRow), c) {
        ReCheckSuffices(q.patch, w.settings, c, q.warningRow, q.criticalRow);
      }
    } else if e.Commit? && r in w.requests && w.requests[r].Holding? {
      forall a: bool, b: bool
        ensures SawEnough(w.settings, c, a, b) ==> SawEnough(Patched(w.requests[r].patch, w.settings), c, a, b)
      {
        CommitKeepsSafe(w.requests[r].patch, w.settings, c, a, b);
      }
      CommitKeepsSafe(w.requests[r].patch, w.settings, c, true, true);
    }
  }

  lemma {:induction false} RunKeepsInv(w: World, es: seq<Event>, c: Config)
    requires Inv(w, c)
    ensures Inv(Run(w, es, c), c)
    decreases |es|
  {
    if es == [] {
    } else {
      StepKeepsInv(w, es[0], c);
      RunKeepsInv(Step(w, es[0], c), es[1..], c);
    }
  }

  /** Whatever concurrent PATCHes do, the effective pair stays ordered. */
  ghost predicate AlwaysOrdered(s: Settings, c: Config) {
    forall es: seq<Event> :: Ordered(Run(World(s, map[]), es, c).settings, c)
  }

  /**
   From an ordered pair, every interleaving of PATCHes keeps it ordered if and only if both rows
   already exist, or the fallback of the missing one is at the very edge of the range. Otherwise
   FOR UPDATE has nothing to lock for the missing row, and two requests can each be checked
   against the other's old value.
   */
  lemma OrderedExactlyWhenSafe(s: Settings, c: Config)
    requires Ordered(s, c) && c.Accepted()
    ensures AlwaysOrdered(s, c) <==> Safe(s, c)
  {
    if Safe(s, c) {
      forall es: seq<Event> ensures Ordered(Run(World(s, map[]), es, c).settings, c) {
        RunKeepsInv(World(s, map[]), es, c);
      }
    } else {
      var es := Race(s, c);
      assert !Ordered(Run(World(s, map[]), es, c).settings, c);
    }
  }

  /** Away from the edges, as with the default 100 and 150, both rows have to exist. */
  lemma OrderedExactlyWithBothRows(s: Settings, c: Config)
    requires Ordered(s, c) && c.Accepted() && c.warning < MAX_AQI - 1 && 1 < c.critical
    ensures AlwaysOrdered(s, c) <==> BothRows(s)
  {
    OrderedExactlyWhenSafe(s, c);
  }

  // ----- the race -----

  /** One request from start to end. */
  function Alone(r: RequestId, p: Patch): seq<Event> { [PreCheck(r, p), Select(r), Lock(r), Commit(r)] }

  /** Two requests that both start their SELECT before either commits. */
  function Together(p: Patch, q: Patch): seq<Event> {
    [PreCheck(1, p), PreCheck(2, q), Select(1), Select(2), Lock(1), Commit(1), Lock(2), Commit(2)]
  }

  lemma {:induction false} RunAppend(w: World, es: seq<Event>, fs: seq<Event>, c: Config)
    ensures Run(w, es + fs, c) == Run(Run(w, es, c), fs, c)
    decreases |es|
  {
    if es == [] {
      assert es + fs == fs;
    } else {
      assert (es + fs)[1..] == es[1..] + fs;
      RunAppend(Step(w, es[0], c), es[1..], fs, c);
    }
  }

  lemma RunFour(w: World, a: Event, b: Event, d: Event, e: Event, c: Config)
    ensures Run(w, [a, b, d, e], c) == Step(Step(Step(Step(w, a, c), b, c), d, c), e, c)
  {
    var w1 := Step(w, a, c);
    var w2 := Step(w1, b, c);
    var w3 := Step(w2, d, c);
    assert [a, b, d, e][1..] == [b, d, e] && [b, d, e][1..] == [d, e] && [d, e][1..] == [e] && [e][1..] == [];
    assert Run(w3, [e], c) == Run(Step(w3, e, c), [], c);
    assert Run(w2, [d, e], c) == Run(w3, [e], c);
    assert Run(w1, [b, d, e], c) == Run(w2, [d, e], c);
  }

  lemma AloneWorks(s: Settings, p: Patch, c: Config)
    requires InRange(p) && Valid(p, s, c)
    ensures Run(World(s, map[]), Alone(0, p), c) == World(Patched(p, s), map[])
  {
    var w := World(s, map[]);
    RunFour(w, PreCheck(0, p), Select(0), Lock(0), Commit(0), c);
    var w1 := World(s, map[0 := PreChecked(p)]);
    assert Step(w, PreCheck(0, p), c) == w1;
    var w2 := World(s, map[0 := Waiting(p, s.warning.Some?, s.critical.Some?)]);
    assert Step(w1, Select(0), c) == w2;
    assert Seen(s, s.warning.Some?, s.critical.Some?) == s;
    var w3 := World(s, map[0 := Holding(p, s.warning.Some?, s.critical.Some?)]);
    assert Step(w2, Lock(0), c) == w3;
    assert Step(w3, Commit(0), c).requests == map[];
  }

  /** The second request is re-checked against what its SELECT could see of the first one's commit. */
  lemma TogetherWorks(s: Settings, p: Patch, q: Patch, c: Config)
    requires InRange(p) && InRange(q) && Valid(p, s, c) && Valid(q, s, c)
    requires Valid(q, Seen(Patched(p, s), s.warning.Some?, s.critical.Some?), c)
    ensures Run(World(s, map[]), Together(p, q), c) == World(Patched(q, Patched(p, s)), map[])
  {
    var w, a, b := World(s, map[]), s.warning.Some?, s.critical.Some?;
    var first := [PreCheck(1, p), PreCheck(2, q), Select(1), Select(2)];
    var second := [Lock(1), Commit(1), Lock(2), Commit(2)];
    assert Together(p, q) == first + second;
    RunAppend(w, first, second, c);
    RunFour(w, PreCheck(1, p), PreCheck(2, q), Select(1), Select(2), c);
    var w4 := World(s, map[1 := Waiting(p, a, b), 2 := Waiting(q, a, b)]);
    BothSelected(s, p, q, c);
    assert Run(w, first, c) == w4;
    RunFour(w4, Lock(1), Commit(1), Lock(2), Commit(2), c);
    BothCommitted(s, p, q, c);
  }

  lemma BothCommitted(s: Settings, p: Patch, q: Patch, c: Config)
    requires Valid(p, s, c) && Valid(q, Seen(Patched(p, s), s.warning.Some?, s.critical.Some?), c)
    ensures var a, b := s.warning.Some?, s.critical.Some?;
            var w := World(s, map[1 := Waiting(p, a, b), 2 := Waiting(q, a, b)]);
            Step(Step(Step(Step(w, Lock(1), c), Commit(1), c), Lock(2), c), Commit(2), c)
              == World(Patched(q, Patched(p, s)), map[])
  {
  }

  lemma BothSelected(s: Settings, p: Patch, q: Patch, c: Config)
    requires InRange(p) && InRange(q) && Valid(p, s, c) && Valid(q, s, c)
    ensures var a, b := s.warning.Some?, s.critical.Some?;
            Step(Step(Step(Step(World(s, map[]), PreCheck(1, p), c), PreCheck(2, q), c), Select(1), c), Select(2), c)
              == World(s, map[1 := Waiting(p, a, b), 2 := Waiting(q, a, b)])
  {
  }

  /** A patch that widens the pair on the row that may exist, and two that invert it when sent at once. */
  lemma RacingPatches(s: Settings, c: Config) returns (widen: Patch, p: Patch, q: Patch)
    requires Ordered(s, c) && c.Accepted() && !Safe(s, c)
    ensures InRange(widen) && InRange(p) && InRange(q) && Valid(widen, s, c)
    ensures var t := Patched(widen, s);
            && Valid(p, t, c) && Valid(q, t, c) && Valid(q, Seen(Patched(p, t), t.warning.Some?, t.critical.Some?), c)
            && !Ordered(Patched(q, Patched(p, t)), c)
            && Patched(q, Patched(p, t)).warning.Some? && Patched(q, Patched(p, t)).warning.value.IntText?
            && Patched(q, Patched(p, t)).critical.Some? && Patched(q, Patched(p, t)).critical.value.IntText?
  {
    widen, p, q := NO_PATCH, NO_PATCH, NO_PATCH;
    if s.critical.None? && 2 <= c.critical {
      var top := if c.critical <= MAX_AQI then c.critical - 1 else MAX_AQI;
      widen, p, q := Patch(Some(0), None), Patch(None, Some(1)), Patch(Some(top), None);
    } else if s.critical.None? && s.warning.Some? {
      p, q := Patch(None, Some(0)), Patch(Some(0), None);
    } else if c.warning < MAX_AQI - 1 {
      var bottom := if 0 <= c.warning then c.warning + 1 else 0;
      widen, p, q := Patch(None, Some(MAX_AQI)), Patch(Some(MAX_AQI - 1), None), Patch(None, Some(bottom));
    } else {
      p, q := Patch(Some(MAX_AQI), None), Patch(None, Some(MAX_AQI));
    }
  }

  lemma Race(s: Settings, c: Config) returns (es: seq<Event>)
    requires Ordered(s, c) && c.Accepted() && !Safe(s, c)
    ensures !Ordered(Run(World(s, map[]), es, c).settings, c)
    ensures !AlertsOrdered(Run(World(s, map[]), es, c).settings, c)
  {
    var widen, p, q := RacingPatches(s, c);
    hide Safe, Valid, Ordered, Patched, Seen, InRange, Run, Alone, Together;
    es := Alone(0, widen) + Together(p, q);
    AloneWorks(s, widen, c);
    TogetherWorks(Patched(widen, s), p, q, c);
    RunAppend(World(s, map[]), Alone(0, widen), Together(p, q), c);
    IntegersReadAlike(Patched(q, Patched(p, Patched(widen, s))), c);
  }

  /** Where both rows hold integers, PATCH and the alerts read the same pair. */
  lemma IntegersReadAlike(s: Settings, c: Config)
    requires s.warning.Some? && s.warning.value.IntText? && s.critical.Some? && s.critical.value.IntText?
    ensures AlertsOrdered(s, c) <==> Ordered(s, c)
  {
  }

  // ----- what check_thresholds reads -----

  /** `_threshold`: float(), where PATCH validates with int(). */
  function Threshold(stored: Option<Text>, fallback: int): real {
    if stored.None? then fallback as real
    else match stored.value
         case IntText(n) => n as real
         case FractionText(r) => r
         case BlankText => fallback as real
         case OtherText(_) => fallback as real
  }

  predicate AlertsOrdered(s: Settings, c: Config) {
    Threshold(s.warning, c.warning) < Threshold(s.critical, c.critical)
  }

  predicate NoFractions(s: Settings) {
    (s.warning.Some? ==> !s.warning.value.FractionText?) && (s.critical.Some? ==> !s.critical.value.FractionText?)
  }

  /** Whatever concurrent PATCHes do, every alert run reads an ordered pair. */
  ghost predicate AlertsAlwaysOrdered(s: Settings, c: Config) {
    forall es: seq<Event> :: AlertsOrdered(Run(World(s, map[]), es, c).settings, c)
  }

  /** The least critical, and the greatest warning, that a PATCH accepts next to the fallback of the other. */
  function LeastCritical(c: Config): int { if c.warning < 0 then 0 else c.warning + 1 }
  function GreatestWarning(c: Config): int { if c.critical > MAX_AQI then MAX_AQI else c.critical - 1 }

  /**
   A stored fraction, which PATCH reads as the fallback and alerts as it is, is still on its own
   side of everything a PATCH may put on the other side.
   */
  predicate FractionsFit(s: Settings, c: Config) {
    && AlertsOrdered(s, c)
    && (s.warning.Some? && s.warning.value.FractionText? && LeastCritical(c) <= MAX_AQI ==>
          s.warning.value.r < LeastCritical(c) as real)
    && (s.critical.Some? && s.critical.value.FractionText? && 0 <= GreatestWarning(c) ==>
          GreatestWarning(c) as real < s.critical.value.r)
  }

  lemma FractionsStillFit(p: Patch, s: Settings, c: Config)
    requires FractionsFit(s, c) && InRange(p) && Valid(p, s, c)
    ensures FractionsFit(Patched(p, s), c)
  {
  }

  lemma {:induction false} FractionsFitForever(w: World, es: seq<Event>, c: Config)
    requires Inv(w, c) && FractionsFit(w.settings, c)
    ensures FractionsFit(Run(w, es, c).settings, c)
    decreases |es|
  {
    if es == [] {
    } else {
      var e := es[0];
      StepKeepsInv(w, e, c);
      if e.Commit? && e.request in w.requests && w.requests[e.request].Holding? {
        FractionsStillFit(w.requests[e.request].patch, w.settings, c);
      }
      FractionsFitForever(Step(w, e, c), es[1..], c);
    }
  }

  /**
   From an ordered pair, every alert run reads an ordered pair, in every interleaving, if and only
   if concurrent PATCHes keep the pair ordered and the stored fractions fit; integers and unreadable
   texts always do.
   */
  lemma AlertsSeeOrderedPair(s: Settings, c: Config)
    requires Ordered(s, c) && c.Accepted()
    ensures AlertsAlwaysOrdered(s, c) <==> Safe(s, c) && FractionsFit(s, c)
    ensures NoFractions(s) ==> FractionsFit(s, c)
  {
    if Safe(s, c) && FractionsFit(s, c) {
      forall es: seq<Event> ensures AlertsOrdered(Run(World(s, map[]), es, c).settings, c) {
        FractionsFitForever(World(s, map[]), es, c);
      }
    } else if !Safe(s, c) {
      var es := Race(s, c);
      assert !AlertsOrdered(Run(World(s, map[]), es, c).settings, c);
    } else {
      var es := Inversion(s, c);
      assert !AlertsOrdered(Run(World(s, map[]), es, c).settings, c);
    }
  }

  /** One PATCH next to a fraction that does not fit. */
  lemma Inversion(s: Settings, c: Config) returns (es: seq<Event>)
    requires Ordered(s, c) && c.Accepted() && !FractionsFit(s, c)
    ensures !AlertsOrdered(Run(World(s, map[]), es, c).settings, c)
  {
    if !AlertsOrdered(s, c) {
      es := [];
    } else {
      var p := if s.warning.Some? && s.warning.value.FractionText? && LeastCritical(c) <= MAX_AQI
                  && s.warning.value.r >= LeastCritical(c) as real
               then Patch(None, Some(LeastCritical(c)))
               else Patch(Some(GreatestWarning(c)), None);
      es := Alone(0, p);
      AloneWorks(s, p, c);
    }
  }


  // ----- the handler -----

  /** A PATCH that passed its pre-check runs to its end while nobody else holds the locks. */
  lemma HandlerIsRun(w: World, r: RequestId, p: Patch, c: Config)
    requires r in w.requests && w.requests[r] == PreChecked(p)
    requires forall q :: q in w.requests ==> !w.requests[q].Holding?
    ensures Run(w, [Select(r), Lock(r), Commit(r)], c)
         == World(if Valid(p, w.settings, c) then Patched(p, w.settings) else w.settings, w.requests - {r})
  {
    var a, b := w.settings.warning.Some?, w.settings.critical.Some?;
    var w1, w2 := Step(w, Select(r), c), Step(Step(w, Select(r), c), Lock(r), c);
    assert w1.requests[r] == Waiting(p, a, b);
    assert Seen(w.settings, a, b) == w.settings;
    assert !Locked(w1, r, a, b);
    var w3 := Step(w2, Commit(r), c);
    assert [Select(r), Lock(r), Commit(r)][1..] == [Lock(r), Commit(r)] && [Lock(r), Commit(r)][1..] == [Commit(r)];
    assert Run(w2, [Commit(r)], c) == Run(w3, [], c);
    assert Run(w1, [Lock(r), Commit(r)], c) == Run(w2, [Commit(r)], c);
    assert w3.requests == w.requests - {r};
  }

  datatype Key = WarningKey | CriticalKey | RetentionKey | EnabledKey | EmailKey

  datatype Value = Null | Number(n: int) | Flag(on: bool) | Word(text: string)

  datatype Update = Update(key: Key, value: Value)

  /** A row of audit_logs. */
  datatype Audit = Audit(key: Key, before: Option<Text>, after: Text)

  /** The body's schema. */
  predicate Accepts(u: Update) {
    match u.value
    case Null => true
    case Number(n) =>
      (u.key in {WarningKey, CriticalKey} && 0 <= n <= MAX_AQI) || (u.key == RetentionKey && 1 <= n <= 3650)
    case Flag(_) => u.key == EnabledKey
    case Word(text) => u.key == EmailKey && |text| <= 255
  }

  /** A body the handler does not reject outright: the schema accepts it, and no value is null. */
  predicate Acceptable(updates: seq<Update>) {
    forall u :: u in updates ==> Accepts(u) && u.value != Null
  }

  /** `_normalise` */
  function Normalise(v: Value): Text {
    match v
    case Null => BlankText
    case Number(n) => IntText(n)
    case Flag(on) => OtherText(if on then "true" else "false")
    case Word(text) => OtherText(text)
  }

  /** The thresholds in the body; a JSON object has each key once. */
  function PatchOf(updates: seq<Update>): Patch {
    if updates == [] then NO_PATCH
    else var rest, u := PatchOf(updates[..|updates| - 1]), updates[|updates| - 1];
         if !u.value.Number? then rest
         else match u.key
              case WarningKey => rest.(warning := Some(u.value.n))
              case CriticalKey => rest.(critical := Some(u.value.n))
              case _ => rest
  }

  /** The rows of the other settings. */
  type Others = map<Key, Text>

  function OthersAfter(updates: seq<Update>, others: Others): Others {
    if updates == [] then others
    else var rest, u := OthersAfter(updates[..|updates| - 1], others), updates[|updates| - 1];
         if u.key in {WarningKey, CriticalKey} then rest else rest[u.key := Normalise(u.value)]
  }

  function Stored(s: Settings, others: Others, key: Key): Option<Text> {
    match key
    case WarningKey => s.warning
    case CriticalKey => s.critical
    case _ => if key in others then Some(others[key]) else None
  }

  /** What the audit trail gains: every key with its text before the request and after it. */
  function Audits(updates: seq<Update>, s: Settings, others: Others): seq<Audit> {
    seq(|updates|, i requires 0 <= i < |updates| =>
      Audit(updates[i].key, Stored(s, others, updates[i].key), Normalise(updates[i].value)))
  }

  /** The text a value is stored as. */
  predicate WritesText(v: Value, text: Text) {
    match v
    case Null => false
    case Number(n) => text == IntText(n)
    case Flag(on) => text == OtherText(if on then "true" else "false")
    case Word(word) => text == OtherText(word)
  }

  /** The row of a key holds this text. */
  predicate Holds(s: Settings, others: Others, key: Key, text: Text) {
    match key
    case WarningKey => s.warning == Some(text)
    case CriticalKey => s.critical == Some(text)
    case _ => key in others && others[key] == text
  }

  /** The row of a key is the same, or as absent as before. */
  predicate SameRow(s: Settings, others: Others, s': Settings, others': Others, key: Key) {
    match key
    case WarningKey => s'.warning == s.warning
    case CriticalKey => s'.critical == s.critical
    case _ => (key in others' <==> key in others) && (key in others ==> others'[key] == others[key])
  }

  /** No later update of the body has the same key. */
  predicate IsLast(updates: seq<Update>, i: nat)
    requires i < |updates|
  {
    forall j :: i < j < |updates| ==> updates[j].key != updates[i].key
  }

  /** The row of the update's key holds the text of its value. */
  ghost predicate HoldsValue(s: Settings, others: Others, u: Update) {
    exists text :: WritesText(u.value, text) && Holds(s, others, u.key, text)
  }

  /** Each key of the body holds the text of its last value, and every other key what it held. */
  ghost predicate Wrote(updates: seq<Update>, s: Settings, others: Others, s': Settings, others': Others) {
    && (forall i :: 0 <= i < |updates| && IsLast(updates, i) ==> HoldsValue(s', others', updates[i]))
    && (forall key: Key :: (forall u :: u in updates ==> u.key != key) ==> SameRow(s, others, s', others', key))
  }

  /** One audit row per update: the text its key held before the request, and the one it was given. */
  ghost predicate Audited(updates: seq<Update>, s: Settings, others: Others, audit: seq<Audit>) {
    && |audit| == |updates|
    && forall i :: 0 <= i < |updates| ==>
         && audit[i].key == updates[i].key && WritesText(updates[i].value, audit[i].after)
         && (audit[i].before.Some? ==> Holds(s, others, updates[i].key, audit[i].before.value))
         && (audit[i].before.None? ==> forall text :: !Holds(s, others, updates[i].key, text))
  }

  lemma NormaliseWrites(v: Value)
    requires v != Null
    ensures WritesText(v, Normalise(v))
  {
  }

  lemma {:induction false} WritesRows(updates: seq<Update>, s: Settings, others: Others)
    requires Acceptable(updates)
    ensures Wrote(updates, s, others, Patched(PatchOf(updates), s), OthersAfter(updates, others))
    decreases |updates|
  {
    if updates == [] {
      assert Patched(PatchOf([]), s) == s && OthersAfter([], others) == others;
    } else {
      var front, u := updates[..|updates| - 1], updates[|updates| - 1];
      assert updates == front + [u] && u in updates && forall x :: x in front ==> x in updates;
      WritesRows(front, s, others);
      LastWrites(u, front, s, others);
      hide PatchOf, OthersAfter, Patched, HoldsValue, SameRow, Accepts;
      OneMoreRow(updates, front, u, s, others, Patched(PatchOf(front), s), OthersAfter(front, others),
                 Patched(PatchOf(updates), s), OthersAfter(updates, others));
    }
  }

  /** What the last update of a body does. */
  lemma LastWrites(u: Update, front: seq<Update>, s: Settings, others: Others)
    requires Accepts(u) && u.value != Null
    ensures var s', others' := Patched(PatchOf(front), s), OthersAfter(front, others);
            var s'', others'' := Patched(PatchOf(front + [u]), s), OthersAfter(front + [u], others);
            && HoldsValue(s'', others'', u)
            && forall key: Key :: key != u.key ==> SameRow(s', others', s'', others'', key)
  {
    assert (front + [u])[..|front|] == front;
    NormaliseWrites(u.value);
    assert Holds(Patched(PatchOf(front + [u]), s), OthersAfter(front + [u], others), u.key, Normalise(u.value));
    hide WritesText;
  }

  lemma OneMoreRow(
    updates: seq<Update>, front: seq<Update>, u: Update, s: Settings, others: Others, s': Settings, others': Others,
    s'': Settings, others'': Others)
    requires updates == front + [u] && Wrote(front, s, others, s', others') && HoldsValue(s'', others'', u)
    requires forall key: Key :: key != u.key ==> SameRow(s', others', s'', others'', key)
    ensures Wrote(updates, s, others, s'', others'')
  {
    hide HoldsValue, SameRow, IsLast;
    forall i | 0 <= i < |updates| && IsLast(updates, i) ensures HoldsValue(s'', others'', updates[i]) {
      if i < |front| {
        LastBefore(front, u, i);
        ValueStays(s', others', s'', others'', updates[i]);
      }
    }
    forall key: Key | forall x :: x in updates ==> x.key != key ensures SameRow(s, others, s'', others'', key) {
      assert u in updates && forall x :: x in front ==> x in updates;
      RowStays(s, others, s', others', s'', others'', key);
    }
  }

  lemma LastBefore(front: seq<Update>, u: Update, i: nat)
    requires i < |front| && IsLast(front + [u], i)
    ensures IsLast(front, i) && front[i].key != u.key
  {
    var updates := front + [u];
    assert updates[|front|] == u && updates[i] == front[i];
    forall j | i < j < |front| ensures front[j].key != front[i].key {
      assert updates[j] == front[j];
    }
  }

  lemma ValueStays(s: Settings, others: Others, s': Settings, others': Others, u: Update)
    requires HoldsValue(s, others, u) && SameRow(s, others, s', others', u.key)
    ensures HoldsValue(s', others', u)
  {
    hide WritesText;
    var text :| WritesText(u.value, text) && Holds(s, others, u.key, text);
    assert Holds(s', others', u.key, text);
  }

  lemma RowStays(s: Settings, others: Others, s': Settings, others': Others, s'': Settings, others'': Others, key: Key)
    requires SameRow(s, others, s', others', key) && SameRow(s', others', s'', others'', key)
    ensures SameRow(s, others, s'', others'', key)
  {
  }

  lemma AuditsTell(updates: seq<Update>, s: Settings, others: Others)
    requires Acceptable(updates)
    ensures Audited(updates, s, others, Audits(updates, s, others))
  {
    forall i | 0 <= i < |updates| ensures WritesText(updates[i].value, Normalise(updates[i].value)) {
      assert updates[i] in updates;
      NormaliseWrites(updates[i].value);
    }
    hide WritesText, Normalise;
  }

  lemma {:induction false} AcceptableInRange(updates: seq<Update>)
    requires Acceptable(updates)
    ensures InRange(PatchOf(updates))
  {
    if updates == [] {
    } else {
      assert updates[|updates| - 1] in updates;
      AcceptableInRange(updates[..|updates| - 1]);
    }
  }

  class SettingsStore {
    const config: Config
    var stored: Settings
    var others: Others
    var audit: seq<Audit>

    constructor (config: Config)
      ensures this.config == config && stored == Settings(None, None) && others == map[] && audit == []
    {
      this.config := config;
      stored, others, audit := Settings(None, None), map[], [];
    }

    /**
     `update_settings` with both rows locked: `snapshot` is what the pre-check read, at any earlier
     time; False is a 422, from the schema, a null, or one of the two order checks. The thresholds
     change as in a run of the interleaved system from where this request had passed its pre-check.
     */
    method UpdateSettings(updates: seq<Update>, snapshot: Settings) returns (ok: bool)
      modifies this
      ensures var p := PatchOf(updates);
              ok <==> updates == [] ||
                      (Acceptable(updates) && Valid(p, snapshot, config) && Valid(p, old(stored), config))
      ensures Acceptable(updates) <==>
                forall u :: u in updates ==>
                  match u.key
                  case WarningKey => u.value.Number? && 0 <= u.value.n <= 500
                  case CriticalKey => u.value.Number? && 0 <= u.value.n <= 500
                  case RetentionKey => u.value.Number? && 1 <= u.value.n <= 3650
                  case EnabledKey => u.value.Flag?
                  case EmailKey => u.value.Word? && |u.value.text| <= 255
      ensures ok ==> Wrote(updates, old(stored), old(others), stored, others)
      ensures ok ==> |old(audit)| <= |audit| && audit[..|old(audit)|] == old(audit)
                     && Audited(updates, old(stored), old(others), audit[|old(audit)|..])
      ensures ok ==>
                && stored == Patched(PatchOf(updates), old(stored)) && others == OthersAfter(updates, old(others))
                && audit == old(audit) + Audits(updates, old(stored), old(others))
      ensures !ok ==> stored == old(stored) && others == old(others) && audit == old(audit)
      ensures Ordered(old(stored), config) ==> Ordered(stored, config)
      ensures updates != [] && Acceptable(updates) && Valid(PatchOf(updates), snapshot, config) ==>
                && InRange(PatchOf(updates))
                && forall w: World, r ::
                     (&& w.settings == old(stored) && r in w.requests
                      && w.requests[r] == PreChecked(PatchOf(updates))
                      && (forall q :: q in w.requests ==> !w.requests[q].Holding?)) ==>
                     Run(w, [Select(r), Lock(r), Commit(r)], config).settings == stored
    {
      if Acceptable(updates) {
        WritesRows(updates, stored, others);
        AuditsTell(updates, stored, others);
      }
      hide Wrote, Audited;
      if updates == [] {
        return true;
      }
      if exists u :: u in updates && !Accepts(u) {
        return false;
      }
      if exists u :: u in updates && u.value == Null {
        return false;
      }
      AcceptableInRange(updates);
      var p := PatchOf(updates);
      if Warning(p, snapshot, config) >= Critical(p, snapshot, config) {
        return false;
      }
      var locked := stored;
      forall w: World, r | (&& w.settings == locked && r in w.requests && w.requests[r] == PreChecked(p)
                            && (forall q :: q in w.requests ==> !w.requests[q].Holding?))
        ensures Run(w, [Select(r), Lock(r), Commit(r)], config).settings
             == if Valid(p, locked, config) then Patched(p, locked) else locked
      {
        HandlerIsRun(w, r, p, config);
      }
      hide Run;
      if Warning(p, locked, config) >= Critical(p, locked, config) {
        return false;
      }
      Write(updates);
      return true;
    }

    /** The loop of upserts, each with its audit row. */
    method Write(updates: seq<Update>)
      requires Acceptable(updates)
      modifies this
      ensures stored == Patched(PatchOf(updates), old(stored)) && others == OthersAfter(updates, old(others))
      ensures audit == old(audit) + Audits(updates, old(stored), old(others))
    {
      var locked, before := stored, others;
      for i := 0 to |updates|
        invariant stored == Patched(PatchOf(updates[..i]), locked)
        invariant others == OthersAfter(updates[..i], before)
        invariant audit == old(audit) + Audits(updates[..i], locked, before)
      {
        var u := updates[i];
        assert Accepts(u);
        assert updates[..i + 1][..i] == updates[..i];
        assert Audits(updates[..i + 1], locked, before)
            == Audits(updates[..i], locked, before)
               + [Audit(u.key, Stored(locked, before, u.key), Normalise(u.value))];
        match u.key {
          case WarningKey => stored := stored.(warning := Some(Normalise(u.value)));
          case CriticalKey => stored := stored.(critical := Some(Normalise(u.value)));
          case _ => others := others[u.key := Normalise(u.value)];
        }
        audit := audit + [Audit(u.key, Stored(locked, before, u.key), Normalise(u.value))];
      }
      assert updates[..|updates|] == updates;
    }
  }
}
