/** The tasks of the roll-up as methods that change the two tables in place. */
module RollupDatabase {
  import opened Common
  import opened Aggregates
  import opened HourlyRollup

  // ----- accounts, which the retention cleanup also scrubs -----

  datatype Account = Account(username: string, email: string, password: string, prefs: string,
                             lastLogin: Option<Instant>, active: bool, updatedAt: Instant)

  const DELETED_DOMAIN := "@deleted.invalid"

  /** `id::text` */
  function Digits(n: nat): string {
    (if n < 10 then "" else Digits(n / 10)) + [(n % 10) as char + '0']
  }

  predicate EndsWith(s: string, end: string) { |end| <= |s| && s[|s| - |end|..] == end }

  /** Inactive, untouched since the limit, and not scrubbed before. */
  predicate Stale(a: Account, limit: Instant) {
    !a.active && a.updatedAt < limit && !EndsWith(a.email, DELETED_DOMAIN)
  }

  function Scrubbed(id: nat, a: Account): Account {
    var name := "deleted-user-" + Digits(id);
    a.(username := name, email := name + DELETED_DOMAIN, password := "!", prefs := "{}", lastLogin := None)
  }

  /** `Digits` read back. */
  function NumberOf(s: string): int {
    if s == "" then 0 else 10 * NumberOf(s[..|s| - 1]) + (s[|s| - 1] as int - '0' as int)
  }

  lemma {:induction false} DigitsReadBack(n: nat)
    ensures NumberOf(Digits(n)) == n
  {
    if n < 10 {
    } else {
      DigitsReadBack(n / 10);
    }
  }

  /** The columns are unique: no two scrubbed accounts get the same name or address. */
  lemma ScrubbedApart(i: nat, j: nat, a: Account, b: Account)
    requires i != j
    ensures Scrubbed(i, a).username != Scrubbed(j, b).username && Scrubbed(i, a).email != Scrubbed(j, b).email
  {
    DigitsReadBack(i);
    DigitsReadBack(j);
    SamePrefix("deleted-user-", Digits(i), Digits(j));
    SameEnd(Scrubbed(i, a).username, Scrubbed(j, b).username, DELETED_DOMAIN);
  }

  lemma SamePrefix(p: string, s: string, t: string)
    ensures p + s == p + t ==> s == t
  {
    assert (p + s)[|p|..] == s && (p + t)[|p|..] == t;
  }

  lemma SameEnd(s: string, t: string, end: string)
    ensures s + end == t + end ==> s == t
  {
    assert (s + end)[..|s + end| - |end|] == s && (t + end)[..|t + end| - |end|] == t;
  }

  /** Exactly what is at or after `limit` is left, every copy of it. */
  ghost predicate LeftFrom(before: Tables, after: Tables, limit: Instant) {
    && (forall r :: multiset(after.readings)[r] == if limit <= r.time then multiset(before.readings)[r] else 0)
    && (forall k: Bucket :: k in after.hourly <==> k in before.hourly && limit <= k.hour)
    && (forall k :: k in after.hourly ==> after.hourly[k] == before.hourly[k])
  }

  /** What a scrubbed account still says. */
  predicate Anonymous(id: nat, a: Account, was: Account) {
    && a.username == "deleted-user-" + Digits(id) && a.email == a.username + "@deleted.invalid"
    && a.password == "!" && a.prefs == "{}" && a.lastLogin.None?
    && a.active == was.active && a.updatedAt == was.updatedAt
  }

  /** The rows a run writes: one per group of the window, with the summary of all its readings. */
  lemma WholeGroups(rs: seq<Reading>, start: Instant, end: Instant)
    requires Aligned(start) && Aligned(end)
    ensures forall k: Bucket ::
              k in WindowRows(rs, start, end) <==> start <= k.hour < end && k in BucketsOf(rs)
    ensures forall k: Bucket :: k in WindowRows(rs, start, end) ==>
              WindowRows(rs, start, end)[k] == Summarise(Filter(InBucket(k), rs))
    ensures |WindowRows(rs, start, end)| == |set k | k in BucketsOf(rs) && start <= k.hour < end|
  {
    hide WindowRows, Summarise, BucketsOf, Aligned;
    forall k: Bucket
      ensures k in WindowRows(rs, start, end) <==> start <= k.hour < end && k in BucketsOf(rs)
      ensures k in WindowRows(rs, start, end) ==>
                WindowRows(rs, start, end)[k] == Summarise(Filter(InBucket(k), rs))
    {
      GroupInWindow(rs, start, end, k);
    }
    var rows := WindowRows(rs, start, end);
    assert rows.Keys == set k | k in BucketsOf(rs) && start <= k.hour < end;
    assert |rows| == |rows.Keys|;
  }

  class Database {
    var readings: seq<Reading>
    var hourly: map<Bucket, Summary>
    var accounts: map<nat, Account>
    ghost var clock: Instant
    ghost var lastEnd: Option<Instant>
    ghost var cutoff: Option<Instant>

    ghost function State(): World
      reads this
    {
      World(Tables(readings, hourly), clock, lastEnd, cutoff)
    }

    constructor (ghost now: Instant)
      ensures State() == World(Tables([], map[]), now, None, None)
      ensures Inv(State()) && accounts == map[]
    {
      readings, hourly, clock, lastEnd, cutoff := [], map[], now, None, None;
      accounts := map[];
    }

    /** `process_reading`: a redelivery hits the primary key and is rolled back. */
    method ProcessReading(ghost now: Instant, parsedAt: Instant, device: Option<Instant>, node: string,
                          nodeActive: bool, measures: Measures)
      returns (stored: bool)
      requires Inv(State())
      requires Feasible(State(), [Deliver(now, parsedAt, device, node, nodeActive, measures)], SLACK)
      modifies this
      ensures State() == Step(old(State()), Deliver(now, parsedAt, device, node, nodeActive, measures))
      ensures Inv(State()) && accounts == old(accounts)
      ensures stored <==>
                node != "" && nodeActive &&
                forall r :: r in old(readings) ==> r.time != ParseTime(device, parsedAt) || r.node != node
      ensures readings == old(readings) + if stored then [Reading(ParseTime(device, parsedAt), node, measures)] else []
      ensures hourly == old(hourly)
    {
      DeliverKeepsInv(State(), Deliver(now, parsedAt, device, node, nodeActive, measures));
      clock := now;
      stored := false;
      if node == "" {
        return;
      }
      if !nodeActive {
        return;
      }
      var reading := Reading(ParseTime(device, parsedAt), node, measures);
      if !HasRow(readings, reading.time, reading.node) {
        readings := readings + [reading];
        stored := true;
      }
    }

    /**
     `hourly_aggregate`: afterwards hourly_agg is the full GROUP BY on every kept hour before the
     end of the run, where its rows are exactly the groups of readings, described column by column.
     */
    method HourlyAggregate(now: Instant) returns (buckets: nat)
      requires Inv(State()) && clock <= now
      modifies this
      ensures State() == Step(old(State()), Aggregate(now))
      ensures Inv(State()) && readings == old(readings) && accounts == old(accounts)
      ensures Hours(hourly, cutoff, HourOf(now)) == Hours(GroupBy(readings), cutoff, HourOf(now))
      ensures Described(Tables(readings, hourly), cutoff, HourOf(now))
      ensures var start := StartOf(old(State()).tables, HourOf(now));
              buckets == if start.None? then 0
                         else |set k | k in BucketsOf(readings) && start.value <= k.hour < HourOf(now)|
    {
      hide Described, RollUp, HourOf, StartOf, BucketsOf, Hours, GroupBy, Aligned, Kept;
      RunOutcome(State(), now);
      StartBeforeEnd(State(), now);
      buckets := AggregateUntil(HourOf(now));
      clock, lastEnd := now, Some(HourOf(now));
    }

    /** The body of the task once `end` is known. */
    method AggregateUntil(end: Instant) returns (buckets: nat)
      requires Aligned(end) && forall k :: k in hourly ==> Aligned(k.hour)
      modifies this`hourly
      ensures Tables(readings, hourly) == RollUp(old(Tables(readings, hourly)), end)
      ensures var start := StartOf(old(Tables(readings, hourly)), end);
              buckets == if start.None? || start.value >= end then 0
                         else |set k | k in BucketsOf(readings) && start.value <= k.hour < end|
    {
      var start := WindowStart(end);
      if start.None? || start.value >= end {
        return 0;
      }
      buckets := Upsert(start.value, end);
    }

    /**
     The lower bound of the window: on the hour, not before the earliest hour that holds a reading,
     at most 24 h behind any rolled-up hour, and no later than these two demand. None when there is
     nothing to roll up.
     */
    method WindowStart(end: Instant) returns (start: Option<Instant>)
      requires forall k :: k in hourly ==> Aligned(k.hour)
      ensures start == StartOf(Tables(readings, hourly), end)
      ensures start.None? <==> forall r :: r in readings ==> end <= r.time
      ensures start.Some? ==>
                && Aligned(start.value)
                && (exists r :: r in readings && r.time < end && HourOf(r.time) <= start.value)
                && (forall k :: k in hourly ==> k.hour - LOOK_BACK <= start.value)
      ensures start.Some? && (exists r :: r in readings && r.time < end && HourOf(r.time) < start.value) ==>
                exists k :: k in hourly && k.hour - LOOK_BACK == start.value
    {
      start := Earliest(readings, end);
      if start.None? {
        return;
      }
      var watermark := Watermark(hourly);
      if watermark.Some? && start.value < watermark.value - LOOK_BACK {
        AlignedMinusDay(watermark.value);
        start := Some(watermark.value - LOOK_BACK);
      }
    }

    /**
     The one INSERT ... ON CONFLICT statement of a run. Afterwards every group of the window has the
     summary of all its readings, every other row is as before, and the count is that of the groups.
     */
    method Upsert(start: Instant, end: Instant) returns (count: nat)
      requires Aligned(start) && Aligned(end)
      modifies this`hourly
      ensures hourly == Upserted(Tables(readings, old(hourly)), start, end)
      ensures forall k: Bucket :: start <= k.hour < end && k in BucketsOf(readings) ==>
                k in hourly && hourly[k] == Summarise(Filter(InBucket(k), readings))
      ensures forall k: Bucket :: !(start <= k.hour < end && k in BucketsOf(readings)) ==>
                (k in hourly <==> k in old(hourly)) && (k in hourly ==> hourly[k] == old(hourly)[k])
      ensures count == |WindowRows(readings, start, end)|
      ensures count == |set k | k in BucketsOf(readings) && start <= k.hour < end|
    {
      hide Summarise, BucketsOf, Aligned, WindowRows;
      WholeGroups(readings, start, end);
      var rows := WindowRows(readings, start, end);
      hourly := hourly + rows;
      count := |rows|;
    }

    /** The accounts part of the cleanup: scrubs the stale ones, once, and nobody else. */
    method AnonymiseAccounts(limit: Instant) returns (anonymised: nat)
      modifies this`accounts
      ensures accounts.Keys == old(accounts).Keys
      ensures forall id :: id in accounts ==>
                var was := old(accounts)[id];
                if !was.active && was.updatedAt < limit && !EndsWith(was.email, "@deleted.invalid")
                then accounts[id] == Scrubbed(id, was) && Anonymous(id, accounts[id], was)
                else accounts[id] == was
      ensures forall id :: id in accounts ==> !Stale(accounts[id], limit)
      ensures anonymised == |set id | id in old(accounts) && Stale(old(accounts)[id], limit)|
    {
      var stale := set id | id in accounts && Stale(accounts[id], limit);
      accounts := map id | id in accounts :: if id in stale then Scrubbed(id, accounts[id]) else accounts[id];
      anonymised := |stale|;
    }

    /** The two DELETE statements, with their row counts. */
    method Purge(limit: Instant) returns (deleted: nat, buckets: nat)
      modifies this`readings, this`hourly
      ensures Tables(readings, hourly) == Purged(old(Tables(readings, hourly)), limit)
      ensures LeftFrom(old(Tables(readings, hourly)), Tables(readings, hourly), limit)
      ensures deleted == |old(readings)| - |readings| && buckets == |old(hourly)| - |hourly|
    {
      forall r ensures multiset(Filter(AtOrAfter(limit), readings))[r] ==
                       if limit <= r.time then multiset(readings)[r] else 0
      {
        FilterCounts(AtOrAfter(limit), readings, r);
      }
      var kept := Filter(AtOrAfter(limit), readings);
      deleted := |readings| - |kept|;
      readings := kept;
      var rows := map k | k in hourly && limit <= k.hour :: hourly[k];
      buckets := |hourly.Keys - rows.Keys|;
      hourly := rows;
    }

    /**
     `data_retention_cleanup`: one cut-off, the retained days before now, for readings, roll-ups and
     accounts; nothing at all when the configuration or the effective setting is not positive.
     */
    method DataRetentionCleanup(now: Instant, setting: Setting, configDays: int)
      returns (deleted: nat, buckets: nat, anonymised: nat)
      requires Inv(State()) && clock <= now
      modifies this
      ensures State() == Step(old(State()), Cleanup(now, setting, configDays))
      ensures Inv(State())
      ensures deleted == |old(readings)| - |readings| && buckets == |old(hourly)| - |hourly|
      ensures configDays <= 0 || (setting.Days? && setting.days < 1.0) ==>
                && readings == old(readings) && hourly == old(hourly) && accounts == old(accounts)
                && deleted == buckets == anonymised == 0
      ensures !(configDays <= 0 || (setting.Days? && setting.days < 1.0)) ==>
                forall days :: Retains(setting, configDays, days) ==>
                  var limit := now - days * DAY;
                  && 1 <= days && LeftFrom(old(Tables(readings, hourly)), Tables(readings, hourly), limit)
                  && accounts.Keys == old(accounts).Keys
                  && (forall id :: id in accounts ==>
                        accounts[id] == if Stale(old(accounts)[id], limit) then Scrubbed(id, old(accounts)[id])
                                        else old(accounts)[id])
                  && anonymised == |set id | id in old(accounts) && Stale(old(accounts)[id], limit)|
    {
      hide Inv, Purged, Scrubbed, Filter, LeftFrom, Anonymous, EndsWith;
      CleanupKeepsInv(State(), Cleanup(now, setting, configDays));
      assert Refuses(setting, configDays) <==> configDays <= 0 || (setting.Days? && setting.days < 1.0);
      if !Refuses(setting, configDays) {
        forall days ensures Retains(setting, configDays, days) <==> days == RetentionDays(setting, configDays) {
          RetainedDays(setting, configDays, days);
        }
      }
      hide Retains, Refuses;
      clock := now;
      deleted, buckets, anonymised := 0, 0, 0;
      if configDays <= 0 {
        return;
      }
      var days := RetentionDays(setting, configDays);
      if days <= 0 {
        return;
      }
      var limit := now - days * DAY;
      deleted, buckets := Purge(limit);
      cutoff := Later(cutoff, Some(limit));
      anonymised := AnonymiseAccounts(limit);
    }
  }
}
