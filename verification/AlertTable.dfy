/**
 The escalating alert upsert, its acknowledgement, and the classification that feeds it. The
 table is compared with a fold over the history of breaches and acknowledgements.
 */
module AlertTable {
  import opened Common

  type AlertId = nat
  type Instant = int

  datatype Severity = Critical | Warning | OtherSeverity(name: string)

  /** CASE severity WHEN 'critical' THEN 2 WHEN 'warning' THEN 1 ELSE 0 END */
  function Rank(s: Severity): nat {
    match s case Critical => 2 case Warning => 1 case OtherSeverity(_) => 0
  }

  datatype Breach = Breach(node: string, value: real, threshold: real, severity: Severity, at: Instant)

  datatype Acknowledgement = Acknowledgement(user: nat, at: Instant)

  /** A row for parameter 'aqi'; `breach` holds the columns the upsert writes. */
  datatype Row = Row(breach: Breach, acknowledged: Option<Acknowledgement>)

  /** `nextId` is the id sequence. */
  datatype Table = Table(rows: map<AlertId, Row>, nextId: AlertId)

  predicate Open(r: Row, node: string) { r.breach.node == node && r.acknowledged.None? }

  function OpenRows(t: Table, node: string): set<AlertId> {
    set id | id in t.rows && Open(t.rows[id], node)
  }

  /** `_upsert_alert` returns True. */
  predicate Rises(t: Table, b: Breach) {
    forall id :: id in t.rows && Open(t.rows[id], b.node) ==> Rank(t.rows[id].breach.severity) < Rank(b.severity)
  }

  /** INSERT ... ON CONFLICT (node_id, parameter) WHERE acknowledged_at IS NULL DO UPDATE ... WHERE outranked */
  function Upserted(t: Table, b: Breach): Table {
    if OpenRows(t, b.node) == {} then Table(t.rows[t.nextId := Row(b, None)], t.nextId + 1)
    else t.(nextId := t.nextId + 1,
            rows := map id | id in t.rows ::
                      if Open(t.rows[id], b.node) && Rank(t.rows[id].breach.severity) < Rank(b.severity)
                      then t.rows[id].(breach := b) else t.rows[id])
  }

  /** `acknowledge_alert`: idempotent, and no effect on an unknown id. */
  function Acknowledged(t: Table, id: AlertId, user: nat, at: Instant): Table {
    if id in t.rows && t.rows[id].acknowledged.None? then
      t.(rows := t.rows[id := t.rows[id].(acknowledged := Some(Acknowledgement(user, at)))])
    else t
  }

  // ----- history -----

  datatype Entry = Raised(breach: Breach) | Closed(closed: string)

  /** The breach a node's open alert should show: the first of the highest severity since the last close. */
  function Current(h: seq<Entry>, node: string): Option<Breach> {
    if h == [] then None
    else
      var c, e := Current(h[..|h| - 1], node), h[|h| - 1];
      if e.Raised? && e.breach.node == node then
        if c.None? || Rank(c.value.severity) < Rank(e.breach.severity) then Some(e.breach) else c
      else if e.Closed? && e.closed == node then None
      else c
  }

  /** How often the node's alert was created or upgraded since the last close. */
  function Notifications(h: seq<Entry>, node: string): nat {
    if h == [] then 0
    else
      var front, e := h[..|h| - 1], h[|h| - 1];
      if e.Raised? && e.breach.node == node then
        Notifications(front, node) + (if Current(h, node) != Current(front, node) then 1 else 0)
      else if e.Closed? && e.closed == node then 0
      else Notifications(front, node)
  }

  /** The table as a function of history: one open row per node, showing the current breach. */
  ghost predicate Matches(t: Table, h: seq<Entry>) {
    && (forall id :: id in t.rows ==> id < t.nextId)
    && (forall node: string :: OpenMatches(t, node, Current(h, node)))
  }

  ghost predicate OpenMatches(t: Table, node: string, c: Option<Breach>) {
    if c.None? then OpenRows(t, node) == {}
    else exists id :: OpenRows(t, node) == {id} && t.rows[id].breach == c.value
  }

  datatype Event = Upsert(breach: Breach) | Acknowledge(id: AlertId, user: nat, at: Instant)

  datatype World = World(table: Table, history: seq<Entry>)

  function Step(w: World, e: Event): World {
    match e
    case Upsert(b) => World(Upserted(w.table, b), w.history + [Raised(b)])
    case Acknowledge(id, user, at) =>
      World(Acknowledged(w.table, id, user, at),
            if id in w.table.rows && w.table.rows[id].acknowledged.None?
            then w.history + [Closed(w.table.rows[id].breach.node)] else w.history)
  }

  function Run(w: World, es: seq<Event>): World
    decreases |es|
  {
    if es == [] then w else Run(Step(w, es[0]), es[1..])
  }

  lemma CurrentAfter(h: seq<Entry>, e: Entry, node: string)
    ensures var c := Current(h, node);
            Current(h + [e], node) ==
              if e.Raised? && e.breach.node == node then
                if c.None? || Rank(c.value.severity) < Rank(e.breach.severity) then Some(e.breach) else c
              else if e.Closed? && e.closed == node then None else c
  {
  }

  lemma UpsertKeeps(t: Table, h: seq<Entry>, b: Breach)
    requires Matches(t, h)
    ensures Matches(Upserted(t, b), h + [Raised(b)])
    ensures Rises(t, b) <==> Current(h, b.node).None? || Rank(Current(h, b.node).value.severity) < Rank(b.severity)
  {
    var t' := Upserted(t, b);
    forall node: string ensures OpenMatches(t', node, Current(h + [Raised(b)], node)) {
      CurrentAfter(h, Raised(b), node);
      assert OpenMatches(t, node, Current(h, node));
      UpsertOne(t, b, node, Current(h, node), Current(h + [Raised(b)], node));
    }
    assert OpenMatches(t, b.node, Current(h, b.node));
    if Current(h, b.node).Some? {
      var id :| OpenRows(t, b.node) == {id} && t.rows[id].breach == Current(h, b.node).value;
      assert id in OpenRows(t, b.node);
    }
    assert forall id :: id in t.rows && Open(t.rows[id], b.node) ==> id in OpenRows(t, b.node);
  }

  lemma UpsertOne(t: Table, b: Breach, node: string, before: Option<Breach>, after: Option<Breach>)
    requires OpenMatches(t, node, before) && forall id :: id in t.rows ==> id < t.nextId
    requires after == if b.node == node && (before.None? || Rank(before.value.severity) < Rank(b.severity))
                      then Some(b) else before
    ensures OpenMatches(Upserted(t, b), node, after)
  {
    var t' := Upserted(t, b);
    if before.None? {
      if b.node == node {
        assert OpenRows(t', node) == {t.nextId};
      } else {
        assert OpenRows(t', node) == {};
      }
    } else {
      var id :| OpenRows(t, node) == {id} && t.rows[id].breach == before.value;
      assert id in OpenRows(t, node);
      assert OpenRows(t', node) == {id};
    }
  }

  lemma AcknowledgeKeeps(w: World, e: Event)
    requires Matches(w.table, w.history) && e.Acknowledge?
    ensures Matches(Step(w, e).table, Step(w, e).history)
  {
    var t, t', h := w.table, Step(w, e).table, w.history;
    if e.id in t.rows && t.rows[e.id].acknowledged.None? {
      var closed := t.rows[e.id].breach.node;
      forall node: string ensures OpenMatches(t', node, Current(h + [Closed(closed)], node)) {
        CurrentAfter(h, Closed(closed), node);
        assert OpenMatches(t, node, Current(h, node));
        if node == closed {
          assert e.id in OpenRows(t, node);
          assert OpenRows(t, node) == {e.id};
          assert forall id :: id in OpenRows(t', node) ==> id != e.id && id in OpenRows(t, node);
        } else {
          assert OpenRows(t', node) == OpenRows(t, node);
        }
      }
    }
  }

  /** In every interleaving of upserts and acknowledgements the table is the fold of its history. */
  lemma {:induction false} TableIsFold(w: World, es: seq<Event>)
    requires Matches(w.table, w.history)
    ensures Matches(Run(w, es).table, Run(w, es).history)
    decreases |es|
  {
    if es == [] {
    } else {
      match es[0] {
        case Upsert(b) => UpsertKeeps(w.table, w.history, b);
        case Acknowledge(_, _, _) => AcknowledgeKeeps(w, es[0]);
      }
      TableIsFold(Step(w, es[0]), es[1..]);
    }
  }

  /** At most one unacknowledged alert per node, after any run from an empty table. */
  lemma OneOpenAlert(es: seq<Event>, node: string)
    ensures |OpenRows(Run(World(Table(map[], 0), []), es).table, node)| <= 1
  {
    var w := World(Table(map[], 0), []);
    assert forall n: string :: OpenRows(w.table, n) == {};
    TableIsFold(w, es);
    var v := Run(w, es);
    assert OpenMatches(v.table, node, Current(v.history, node));
  }

  // ----- what the fold says -----

  /** `h[k]` raised a breach of this node. */
  predicate RaisedAt(h: seq<Entry>, k: nat, node: string)
    requires k < |h|
  {
    h[k].Raised? && h[k].breach.node == node
  }

  /** Since entry `k`, nothing closed the node's alert. */
  predicate OpenSince(h: seq<Entry>, k: nat, node: string)
    requires k <= |h|
  {
    forall j :: k <= j < |h| ==> h[j] != Closed(node)
  }

  /** `start` begins the node's present epoch: just after its last close, or at the very beginning. */
  predicate EpochStart(h: seq<Entry>, start: nat, node: string) {
    start <= |h| && OpenSince(h, start, node) && (start > 0 ==> h[start - 1] == Closed(node))
  }

  /**
   The open alert is the first breach at the highest severity of the epoch; there is none exactly
   when the epoch has seen no breach.
   */
  lemma {:induction false} CurrentIsFirstMaximum(h: seq<Entry>, start: nat, node: string)
    requires EpochStart(h, start, node)
    ensures var c := Current(h, node);
            if c.None? then forall j :: start <= j < |h| ==> !RaisedAt(h, j, node)
            else exists k :: start <= k < |h| && RaisedAt(h, k, node) && h[k].breach == c.value
                             && FirstMaximum(h, start, k, node)
  {
    if start < |h| {
      var front, last := h[..|h| - 1], |h| - 1;
      assert h == front + [h[last]];
      CurrentAfter(front, h[last], node);
      CurrentIsFirstMaximum(front, start, node);
      hide Current;
      FirstMaximumNext(h, front, start, node, Current(front, node));
    } else if start > 0 {
      assert h == h[..|h| - 1] + [h[|h| - 1]];
      CurrentAfter(h[..|h| - 1], h[|h| - 1], node);
    }
  }

  /** What one more entry does to the first maximum `c` of the epoch. */
  lemma FirstMaximumNext(h: seq<Entry>, front: seq<Entry>, start: nat, node: string, c: Option<Breach>)
    requires start < |h| && front == h[..|h| - 1] && h[|h| - 1] != Closed(node)
    requires if c.None? then forall j :: start <= j < |front| ==> !RaisedAt(front, j, node)
             else exists k :: start <= k < |front| && RaisedAt(front, k, node) && front[k].breach == c.value
                              && FirstMaximum(front, start, k, node)
    ensures var last := |h| - 1;
            if RaisedAt(h, last, node) && (c.None? || Rank(c.value.severity) < Rank(h[last].breach.severity)) then
              FirstMaximum(h, start, last, node)
            else if c.None? then forall j :: start <= j < |h| ==> !RaisedAt(h, j, node)
            else exists k :: start <= k < |h| && RaisedAt(h, k, node) && h[k].breach == c.value
                             && FirstMaximum(h, start, k, node)
  {
    hide Rank, FirstMaximum;
    var last := |h| - 1;
    if RaisedAt(h, last, node) && (c.None? || Rank(c.value.severity) < Rank(h[last].breach.severity)) {
      FirstMaximumAtEnd(h, front, start, node, c);
    } else if c.Some? {
      var k :| start <= k < |front| && RaisedAt(front, k, node) && front[k].breach == c.value
               && FirstMaximum(front, start, k, node);
      FirstMaximumStays(h, front, start, k, node);
      assert RaisedAt(h, k, node) && FirstMaximum(h, start, k, node);
    } else {
      forall j | start <= j < |h| ensures !RaisedAt(h, j, node) {
        if j < last { assert RaisedAt(front, j, node) <==> RaisedAt(h, j, node); }
      }
    }
  }

  /** Breaches of the epoch before `k` are lower than it, and none after is higher. */
  predicate FirstMaximum(h: seq<Entry>, start: nat, k: nat, node: string)
    requires start <= k < |h| && h[k].Raised?
  {
    && (forall j :: start <= j < k && RaisedAt(h, j, node) ==> Rank(h[j].breach.severity) < Rank(h[k].breach.severity))
    && (forall j :: k <= j < |h| && RaisedAt(h, j, node) ==> Rank(h[j].breach.severity) <= Rank(h[k].breach.severity))
  }

  /** A breach that is not higher than the maximum leaves it where it is. */
  lemma FirstMaximumStays(h: seq<Entry>, front: seq<Entry>, start: nat, k: nat, node: string)
    requires start <= k < |front| && |h| == |front| + 1 && front == h[..|front|] && front[k].Raised?
    requires FirstMaximum(front, start, k, node)
    requires RaisedAt(h, |front|, node) ==> Rank(h[|front|].breach.severity) <= Rank(h[k].breach.severity)
    ensures FirstMaximum(h, start, k, node)
  {
    assert forall j :: 0 <= j < |front| ==> (RaisedAt(front, j, node) <==> RaisedAt(h, j, node));
  }

  lemma FirstMaximumAtEnd(h: seq<Entry>, front: seq<Entry>, start: nat, node: string, c: Option<Breach>)
    requires start < |h| && front == h[..|h| - 1] && RaisedAt(h, |h| - 1, node)
    requires if c.None? then forall j :: start <= j < |front| ==> !RaisedAt(front, j, node)
             else Rank(c.value.severity) < Rank(h[|h| - 1].breach.severity)
                  && exists k :: start <= k < |front| && RaisedAt(front, k, node) && front[k].breach == c.value
                                 && FirstMaximum(front, start, k, node)
    ensures FirstMaximum(h, start, |h| - 1, node)
  {
    assert forall j :: 0 <= j < |front| ==> (RaisedAt(front, j, node) <==> RaisedAt(h, j, node));
  }

  // ----- notifications -----

  /** A higher severity each time: at most one notification per rank reached. */
  lemma {:induction false} NotificationsBounded(h: seq<Entry>, node: string)
    ensures var c := Current(h, node);
            if c.None? then Notifications(h, node) == 0
            else Notifications(h, node) <= Rank(c.value.severity) + 1 <= 3
  {
    if h == [] {
    } else {
      NotificationsBounded(h[..|h| - 1], node);
    }
  }

  /** A True of `_upsert_alert` is a notification of the history, and nothing else is. */
  lemma RiseIsNotification(t: Table, h: seq<Entry>, b: Breach)
    requires Matches(t, h)
    ensures Notifications(h + [Raised(b)], b.node) == Notifications(h, b.node) + (if Rises(t, b) then 1 else 0)
  {
    UpsertKeeps(t, h, b);
    CurrentAfter(h, Raised(b), b.node);
    assert (h + [Raised(b)])[..|h|] == h;
  }

  /** With the two severities `check_thresholds` uses, at most two per node and epoch. */
  lemma {:induction false} AtMostTwoNotifications(h: seq<Entry>, node: string)
    requires forall e :: e in h && e.Raised? ==> Rank(e.breach.severity) > 0
    ensures Notifications(h, node) <= 2
    ensures var c := Current(h, node);
            if c.None? then Notifications(h, node) == 0 else 0 < Notifications(h, node) <= Rank(c.value.severity)
  {
    if h == [] {
    } else {
      var front := h[..|h| - 1];
      assert forall e :: e in front ==> e in h;
      assert h[|h| - 1] in h;
      AtMostTwoNotifications(front, node);
    }
  }

  // ----- check_thresholds -----

  /** The severity and the threshold a fresh AQI breaches, if any. */
  function Classify(aqi: real, warning: real, critical: real): Option<(Severity, real)> {
    if critical <= aqi then Some((Critical, critical))
    else if warning <= aqi then Some((Warning, warning))
    else None
  }

  function RankOf(c: Option<(Severity, real)>): nat { if c.None? then 0 else Rank(c.value.0) }

  /** A worse reading never classifies lower; some reading is a mere warning exactly when the pair is ordered. */
  lemma ClassificationIsMonotone(warning: real, critical: real, lower: real, higher: real)
    ensures lower <= higher ==>
              RankOf(Classify(lower, warning, critical)) <= RankOf(Classify(higher, warning, critical))
    ensures (exists aqi: real :: RankOf(Classify(aqi, warning, critical)) == 1) <==> warning < critical
  {
    if warning < critical {
      assert RankOf(Classify(warning, warning, critical)) == 1;
    }
  }

  /** One row of the latest-reading query. */
  datatype Latest = Latest(node: string, aqi: Option<real>)

  function BreachOf(r: Latest, warning: real, critical: real, at: Instant): Option<Breach> {
    if r.aqi.None? then None
    else var c := Classify(r.aqi.value, warning, critical);
         if c.None? then None else Some(Breach(r.node, r.aqi.value, c.value.1, c.value.0, at))
  }

  /** The breaches of a run, in row order. */
  function Breaches(rows: seq<Latest>, warning: real, critical: real, at: Instant): seq<Breach> {
    if rows == [] then []
    else (match BreachOf(rows[0], warning, critical, at) case None => [] case Some(b) => [b])
         + Breaches(rows[1..], warning, critical, at)
  }

  function UpsertAll(t: Table, bs: seq<Breach>): Table
    decreases |bs|
  {
    if bs == [] then t else UpsertAll(Upserted(t, bs[0]), bs[1..])
  }

  /** The breaches that created or upgraded an alert. */
  function Risen(t: Table, bs: seq<Breach>): seq<Breach>
    decreases |bs|
  {
    if bs == [] then []
    else (if Rises(t, bs[0]) then [bs[0]] else []) + Risen(Upserted(t, bs[0]), bs[1..])
  }

  /** The breach of one of the rows: its node and value, the highest threshold it reaches and that one's severity. */
  predicate StemsFrom(b: Breach, rows: seq<Latest>, warning: real, critical: real, at: Instant) {
    && b.at == at
    && (exists r :: r in rows && r.node == b.node && r.aqi == Some(b.value))
    && (if critical <= b.value then b.severity == Critical && b.threshold == critical
        else warning <= b.value && b.severity == Warning && b.threshold == warning)
  }

  lemma {:induction false} BreachesStem(rows: seq<Latest>, warning: real, critical: real, at: Instant, b: Breach)
    ensures b in Breaches(rows, warning, critical, at) <==> StemsFrom(b, rows, warning, critical, at)
  {
    if rows == [] {
    } else {
      BreachesStem(rows[1..], warning, critical, at, b);
      assert forall r :: r in rows <==> r == rows[0] || r in rows[1..];
    }
  }

  /** An alert of at least this rank is open for the node. */
  predicate Shows(t: Table, node: string, rank: nat) {
    exists id :: id in t.rows && Open(t.rows[id], node) && rank <= Rank(t.rows[id].breach.severity)
  }

  predicate IdsBelow(t: Table) { forall id :: id in t.rows ==> id < t.nextId }

  lemma UpsertShows(t: Table, b: Breach, node: string, rank: nat)
    ensures Shows(Upserted(t, b), b.node, Rank(b.severity))
    ensures Shows(t, node, rank) && IdsBelow(t) ==> Shows(Upserted(t, b), node, rank)
  {
    var t' := Upserted(t, b);
    if OpenRows(t, b.node) == {} {
      assert Open(t'.rows[t.nextId], b.node);
    } else {
      var id :| id in OpenRows(t, b.node);
      assert Open(t'.rows[id], b.node) && Rank(b.severity) <= Rank(t'.rows[id].breach.severity);
    }
    if Shows(t, node, rank) && IdsBelow(t) {
      var id :| id in t.rows && Open(t.rows[id], node) && rank <= Rank(t.rows[id].breach.severity);
      assert Open(t'.rows[id], node) && rank <= Rank(t'.rows[id].breach.severity);
    }
  }

  lemma UpsertKeepsIds(t: Table, b: Breach)
    requires IdsBelow(t)
    ensures IdsBelow(Upserted(t, b))
  {
  }

  lemma {:induction false} StillShows(t: Table, bs: seq<Breach>, node: string, rank: nat)
    requires IdsBelow(t) && Shows(t, node, rank)
    ensures Shows(UpsertAll(t, bs), node, rank)
    decreases |bs|
  {
    hide Upserted, Shows, IdsBelow;
    if bs == [] {
    } else {
      UpsertShows(t, bs[0], node, rank);
      UpsertKeepsIds(t, bs[0]);
      StillShows(Upserted(t, bs[0]), bs[1..], node, rank);
    }
  }

  /** Afterwards every breach of a run shows, in its own alert or a higher one. */
  lemma {:induction false} AllShown(t: Table, bs: seq<Breach>, b: Breach)
    requires IdsBelow(t) && b in bs
    ensures Shows(UpsertAll(t, bs), b.node, Rank(b.severity))
    decreases |bs|
  {
    UpsertKeepsIds(t, bs[0]);
    UpsertShows(t, bs[0], b.node, 0);
    hide Upserted, Shows, IdsBelow;
    if b == bs[0] {
      StillShows(Upserted(t, b), bs[1..], b.node, Rank(b.severity));
    } else {
      AllShown(Upserted(t, bs[0]), bs[1..], b);
    }
  }

  /** Each row of the table is as it was, or an open one showing a breach of the run. */
  predicate OnlyBreaches(t: Table, t': Table, bs: seq<Breach>) {
    && t.rows.Keys <= t'.rows.Keys
    && forall id :: id in t'.rows ==>
         (id in t.rows && t'.rows[id] == t.rows[id])
         || (&& t'.rows[id].acknowledged.None? && t'.rows[id].breach in bs
             && (id in t.rows ==> Open(t.rows[id], t'.rows[id].breach.node)))
  }

  lemma UpsertChanges(t: Table, b: Breach)
    requires IdsBelow(t)
    ensures OnlyBreaches(t, Upserted(t, b), [b])
  {
  }

  lemma {:induction false} RunChanges(t: Table, bs: seq<Breach>)
    requires IdsBelow(t)
    ensures OnlyBreaches(t, UpsertAll(t, bs), bs)
    decreases |bs|
  {
    if bs == [] {
    } else {
      var u := Upserted(t, bs[0]);
      UpsertKeepsIds(t, bs[0]);
      UpsertChanges(t, bs[0]);
      hide Upserted, IdsBelow;
      RunChanges(u, bs[1..]);
      assert forall b :: b in bs <==> b in [bs[0]] || b in bs[1..];
      Changes(t, u, UpsertAll(u, bs[1..]), [bs[0]], bs[1..], bs);
    }
  }

  lemma Changes(t: Table, u: Table, v: Table, bs: seq<Breach>, cs: seq<Breach>, all: seq<Breach>)
    requires OnlyBreaches(t, u, bs) && OnlyBreaches(u, v, cs) && forall b :: b in all <==> b in bs || b in cs
    ensures OnlyBreaches(t, v, all)
  {
  }

  lemma {:induction false} RisenAreBreaches(t: Table, bs: seq<Breach>)
    ensures forall b :: b in Risen(t, bs) ==> b in bs
    decreases |bs|
  {
    if bs == [] {
    } else {
      RisenAreBreaches(Upserted(t, bs[0]), bs[1..]);
    }
  }

  /** A breach rises exactly if nothing of its rank is open yet. */
  lemma RisesAbove(t: Table, b: Breach)
    ensures Rises(t, b) <==> !Shows(t, b.node, Rank(b.severity))
  {
  }

  lemma ShownByUpsert(t: Table, b: Breach, node: string, rank: nat)
    requires Shows(Upserted(t, b), node, rank) && !Shows(t, node, rank)
    ensures Rises(t, b) && b.node == node && rank <= Rank(b.severity)
  {
  }

  /** What is published was not shown before, and what is newly shown was published. */
  lemma {:induction false} PublishesWhatIsNew(t: Table, bs: seq<Breach>, node: string, rank: nat)
    requires IdsBelow(t)
    ensures forall b :: b in Risen(t, bs) ==> !Shows(t, b.node, Rank(b.severity))
    ensures Shows(UpsertAll(t, bs), node, rank) && !Shows(t, node, rank) ==>
              exists b :: b in Risen(t, bs) && b.node == node && rank <= Rank(b.severity)
    decreases |bs|
  {
    if bs == [] {
    } else {
      var u, rest := Upserted(t, bs[0]), Risen(Upserted(t, bs[0]), bs[1..]);
      UpsertKeepsIds(t, bs[0]);
      PublishesWhatIsNew(u, bs[1..], node, rank);
      RisesAbove(t, bs[0]);
      forall b | b in rest ensures !Shows(t, b.node, Rank(b.severity)) {
        UpsertShows(t, bs[0], b.node, Rank(b.severity));
      }
      if Shows(u, node, rank) && !Shows(t, node, rank) {
        ShownByUpsert(t, bs[0], node, rank);
        assert bs[0] in Risen(t, bs);
      }
      hide Upserted, Shows, Rises, IdsBelow;
      assert forall b :: b in rest ==> b in Risen(t, bs);
    }
  }

  /** What a run of `check_thresholds` guarantees about the table and the messages it sends. */
  ghost predicate Alerted(t: Table, t': Table, publishes: seq<Breach>, rows: seq<Latest>, warning: real, critical: real,
                          at: Instant) {
    && (forall r :: r in rows && r.aqi.Some? && critical <= r.aqi.value ==> Shows(t', r.node, Rank(Critical)))
    && (forall r :: r in rows && r.aqi.Some? && warning <= r.aqi.value ==> Shows(t', r.node, Rank(Warning)))
    && (forall b :: b in publishes ==>
          StemsFrom(b, rows, warning, critical, at) && !Shows(t, b.node, Rank(b.severity)))
    && (forall node, rank: nat :: Shows(t', node, rank) && !Shows(t, node, rank) ==>
          exists b :: b in publishes && b.node == node && rank <= Rank(b.severity))
    && t.rows.Keys <= t'.rows.Keys
    && (forall id :: id in t'.rows && (id !in t.rows || t'.rows[id] != t.rows[id]) ==>
          && t'.rows[id].acknowledged.None? && StemsFrom(t'.rows[id].breach, rows, warning, critical, at)
          && (id in t.rows ==> Open(t.rows[id], t'.rows[id].breach.node)))
  }

  lemma RunAlerts(t: Table, rows: seq<Latest>, warning: real, critical: real, at: Instant)
    requires IdsBelow(t)
    ensures var bs := Breaches(rows, warning, critical, at);
            Alerted(t, UpsertAll(t, bs), Risen(t, bs), rows, warning, critical, at)
  {
    var bs := Breaches(rows, warning, critical, at);
    hide UpsertAll, Breaches, Risen, StemsFrom, Shows, IdsBelow, Open;
    forall b ensures b in bs <==> StemsFrom(b, rows, warning, critical, at) {
      BreachesStem(rows, warning, critical, at, b);
    }
    RunChanges(t, bs);
    RisenAreBreaches(t, bs);
    forall node, rank: nat
      ensures forall b :: b in Risen(t, bs) ==> !Shows(t, b.node, Rank(b.severity))
      ensures Shows(UpsertAll(t, bs), node, rank) && !Shows(t, node, rank) ==>
                exists b :: b in Risen(t, bs) && b.node == node && rank <= Rank(b.severity)
    {
      PublishesWhatIsNew(t, bs, node, rank);
    }
    PublishesWhatIsNew(t, bs, "", 0);
    forall r | r in rows && r.aqi.Some?
      ensures critical <= r.aqi.value ==> Shows(UpsertAll(t, bs), r.node, Rank(Critical))
      ensures warning <= r.aqi.value ==> Shows(UpsertAll(t, bs), r.node, Rank(Warning))
    {
      RowShows(t, rows, warning, critical, at, r);
    }
  }

  lemma RowShows(t: Table, rows: seq<Latest>, warning: real, critical: real, at: Instant, r: Latest)
    requires IdsBelow(t) && r in rows && r.aqi.Some?
    ensures var t' := UpsertAll(t, Breaches(rows, warning, critical, at));
            && (critical <= r.aqi.value ==> Shows(t', r.node, Rank(Critical)))
            && (warning <= r.aqi.value ==> Shows(t', r.node, Rank(Warning)))
  {
    hide UpsertAll, Breaches, IdsBelow;
    if critical <= r.aqi.value {
      var b := Breach(r.node, r.aqi.value, critical, Critical, at);
      BreachesStem(rows, warning, critical, at, b);
      AllShown(t, Breaches(rows, warning, critical, at), b);
    } else if warning <= r.aqi.value {
      var b := Breach(r.node, r.aqi.value, warning, Warning, at);
      BreachesStem(rows, warning, critical, at, b);
      AllShown(t, Breaches(rows, warning, critical, at), b);
    }
  }

  function IsCritical(): Breach -> bool { (b: Breach) => b.severity == Critical }

  class Alerts {
    var table: Table
    ghost var history: seq<Entry>

    ghost function State(): World
      reads this
    {
      World(table, history)
    }

    constructor ()
      ensures table == Table(map[], 0) && history == []
      ensures Matches(table, history)
    {
      table, history := Table(map[], 0), [];
      new;
      assert forall n: string :: OpenRows(table, n) == {};
    }

    /** `_upsert_alert`: True exactly when the breach outranks what is open. */
    method UpsertAlert(b: Breach) returns (risen: bool)
      requires Matches(table, history)
      modifies this
      ensures State() == Step(old(State()), Upsert(b)) && Matches(table, history)
      ensures table == Upserted(old(table), b)
      ensures risen == Rises(old(table), b)
      ensures forall id :: id in table.rows <==>
                id in old(table).rows || (OpenRows(old(table), b.node) == {} && id == old(table).nextId)
      ensures table.nextId == old(table).nextId + 1
      ensures OpenRows(old(table), b.node) == {} ==> table.rows[old(table).nextId] == Row(b, None)
      ensures forall id :: id in old(table).rows ==>
                table.rows[id] == if Open(old(table).rows[id], b.node)
                                     && Rank(old(table).rows[id].breach.severity) < Rank(b.severity)
                                  then Row(b, None) else old(table).rows[id]
      ensures risen <==> Current(old(history), b.node).None?
                         || Rank(Current(old(history), b.node).value.severity) < Rank(b.severity)
    {
      UpsertKeeps(table, history, b);
      assert forall id :: id in table.rows && Open(table.rows[id], b.node) ==> id in OpenRows(table, b.node);
      risen := Rises(table, b);
      table := Upserted(table, b);
      history := history + [Raised(b)];
    }

    /** `acknowledge_alert`; False is the 404. */
    method AcknowledgeAlert(id: AlertId, user: nat, at: Instant) returns (found: bool)
      requires Matches(table, history)
      modifies this
      ensures State() == Step(old(State()), Acknowledge(id, user, at)) && Matches(table, history)
      ensures found <==> id in old(table).rows
      ensures found && old(table).rows[id].acknowledged.None? ==>
                table.rows == old(table).rows[id := Row(old(table).rows[id].breach, Some(Acknowledgement(user, at)))]
      ensures !found || old(table).rows[id].acknowledged.Some? ==> table == old(table)
    {
      AcknowledgeKeeps(State(), Acknowledge(id, user, at));
      if id !in table.rows {
        return false;
      }
      if table.rows[id].acknowledged.None? {
        var row := table.rows[id];
        history := history + [Closed(row.breach.node)];
        table := table.(rows := table.rows[id := row.(acknowledged := Some(Acknowledgement(user, at)))]);
      }
      return true;
    }

    /** `check_thresholds`: publishes what rose, and emails what rose to critical. */
    method CheckThresholds(enabled: bool, rows: seq<Latest>, warning: real, critical: real, at: Instant)
      returns (created: nat, publishes: seq<Breach>, emails: seq<Breach>)
      requires Matches(table, history)
      modifies this
      ensures Matches(table, history)
      ensures !enabled ==> State() == old(State()) && publishes == []
      ensures enabled ==>
                && table == UpsertAll(old(table), Breaches(rows, warning, critical, at))
                && publishes == Risen(old(table), Breaches(rows, warning, critical, at))
      ensures enabled ==> Alerted(old(table), table, publishes, rows, warning, critical, at)
      ensures forall b :: b in emails <==> b in publishes && b.severity == Critical
      ensures created == |publishes| && emails == Filter(IsCritical(), publishes)
    {
      if !enabled {
        return 0, [], [];
      }
      RunAlerts(table, rows, warning, critical, at);
      hide Alerted;
      created, publishes, emails := EvaluateRows(rows, warning, critical, at);
    }

    /** The loop over the latest readings. */
    method EvaluateRows(rows: seq<Latest>, warning: real, critical: real, at: Instant)
      returns (created: nat, publishes: seq<Breach>, emails: seq<Breach>)
      requires Matches(table, history)
      modifies this
      ensures Matches(table, history)
      ensures table == UpsertAll(old(table), Breaches(rows, warning, critical, at))
      ensures publishes == Risen(old(table), Breaches(rows, warning, critical, at))
      ensures created == |publishes| && emails == Filter(IsCritical(), publishes)
    {
      created, publishes, emails := 0, [], [];
      EndOfRows(rows, warning, critical, at);
      ghost var before, all := table, Breaches(rows, warning, critical, at);
      for i := 0 to |rows|
        invariant Matches(table, history)
        invariant StillToDo(before, all, table, publishes, Breaches(rows[i..], warning, critical, at))
        invariant created == |publishes| && emails == Filter(IsCritical(), publishes)
      {
        hide *;
        ghost var left := Breaches(rows[i..], warning, critical, at);
        ghost var was := table;
        var b := BreachOf(rows[i], warning, critical, at);
        BreachesStep(rows, i, warning, critical, at);
        if b.None? {
          continue;
        }
        var risen := UpsertAlert(b.value);
        ToDoStep(before, all, was, publishes, b.value, left[1..]);
        if risen {
          created := created + 1;
          EmailStep(publishes, b.value);
          publishes := publishes + [b.value];
          if b.value.severity == Critical {
            emails := emails + [b.value];
          }
        }
      }
    }
  }

  /** Upserting `left` from `t` finishes upserting `all` from `before`, of which `publishes` have risen. */
  ghost predicate StillToDo(before: Table, all: seq<Breach>, t: Table, publishes: seq<Breach>, left: seq<Breach>) {
    && UpsertAll(before, all) == UpsertAll(t, left)
    && Risen(before, all) == publishes + Risen(t, left)
  }

  lemma ToDoStep(before: Table, all: seq<Breach>, t: Table, publishes: seq<Breach>, b: Breach, left: seq<Breach>)
    requires StillToDo(before, all, t, publishes, [b] + left)
    ensures StillToDo(before, all, Upserted(t, b), publishes + (if Rises(t, b) then [b] else []), left)
    ensures !Rises(t, b) ==> StillToDo(before, all, Upserted(t, b), publishes, left)
  {
    hide Upserted, Rises;
    assert ([b] + left)[1..] == left;
    assert publishes + ([b] + Risen(Upserted(t, b), left)) == (publishes + [b]) + Risen(Upserted(t, b), left);
  }

  lemma EndOfRows(rows: seq<Latest>, warning: real, critical: real, at: Instant)
    ensures rows[0..] == rows && rows[|rows|..] == []
    ensures Breaches([], warning, critical, at) == [] && Filter(IsCritical(), []) == []
    ensures forall t :: UpsertAll(t, []) == t && Risen(t, []) == []
  {
  }

  lemma EmailStep(publishes: seq<Breach>, b: Breach)
    ensures Filter(IsCritical(), publishes + [b]) ==
            Filter(IsCritical(), publishes) + if b.severity == Critical then [b] else []
  {
    FilterAppend(IsCritical(), publishes, [b]);
  }

  lemma BreachesStep(rows: seq<Latest>, i: nat, warning: real, critical: real, at: Instant)
    requires i < |rows|
    ensures var b, rest := BreachOf(rows[i], warning, critical, at), Breaches(rows[i + 1..], warning, critical, at);
            var left := Breaches(rows[i..], warning, critical, at);
            if b.None? then left == rest else left == [b.value] + rest && left[1..] == rest
  {
  }
}
