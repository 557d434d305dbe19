/**
 The fixed-window request limiter: one Redis counter per endpoint, client address and UTC minute,
 whose TTL is set by its first increment.
 */
module RateLimit {
  /** Milliseconds. */
  const MINUTE: int := 60_000

  /** `ratelimit:{endpoint}:{ip}:{minute}` */
  datatype Key = Key(endpoint: string, ip: string, minute: int)

  datatype Counter = Counter(count: nat, expireAt: int)

  type Counters = map<Key, Counter>

  /** The arguments of an endpoint's `@rate_limit`. */
  datatype Policy = Policy(limit: nat, windowSeconds: nat)

  /** `redis`: the counter could be incremented. */
  datatype Request = Request(t: int, endpoint: string, ip: string, redis: bool)

  function MinuteOf(t: int): int { t / MINUTE }

  function KeyOf(r: Request): Key { Key(r.endpoint, r.ip, MinuteOf(r.t)) }

  /** `_reset_epoch`, in milliseconds: when this minute's bucket is over. */
  function ResetAt(t: int): int {
    t / 1000 * 1000 + (60 - t / 1000 % 60) * 1000
  }

  /** INCR, and PEXPIRE when the counter is new; an expired counter is gone. */
  function Increment(c: Counters, k: Key, t: int, windowSeconds: nat): Counter {
    if k in c && t < c[k].expireAt then Counter(c[k].count + 1, c[k].expireAt)
    else Counter(1, t + windowSeconds * 1000)
  }

  /** The counters after the first `m` requests of a trace. */
  function CountersAt(policy: Policy, trace: seq<Request>, m: nat): Counters
    requires m <= |trace|
  {
    if m == 0 then map[]
    else var c, r := CountersAt(policy, trace, m - 1), trace[m - 1];
         if r.redis then c[KeyOf(r) := Increment(c, KeyOf(r), r.t, policy.windowSeconds)] else c
  }

  /** The request is served: under the limit, or Redis is down and the limiter fails open. */
  predicate Served(policy: Policy, trace: seq<Request>, i: nat)
    requires i < |trace|
  {
    var r := trace[i];
    r.redis ==> Increment(CountersAt(policy, trace, i), KeyOf(r), r.t, policy.windowSeconds).count <= policy.limit
  }

  predicate Monotone(trace: seq<Request>) {
    forall i, j :: 0 <= i < j < |trace| ==> trace[i].t <= trace[j].t
  }

  predicate Counted(trace: seq<Request>, i: nat, k: Key)
    requires i < |trace|
  {
    trace[i].redis && KeyOf(trace[i]) == k
  }

  /** Requests of one bucket that Redis answered. */
  function Requests(trace: seq<Request>, m: nat, k: Key): nat
    requires m <= |trace|
  {
    if m == 0 then 0 else Requests(trace, m - 1, k) + (if Counted(trace, m - 1, k) then 1 else 0)
  }

  /** Those among them that were served. */
  function Passes(policy: Policy, trace: seq<Request>, m: nat, k: Key): nat
    requires m <= |trace|
  {
    if m == 0 then 0
    else Passes(policy, trace, m - 1, k)
         + (if Counted(trace, m - 1, k) && Served(policy, trace, m - 1) then 1 else 0)
  }

  function Min(a: nat, b: nat): nat { if a < b then a else b }

  // ----- one bucket -----

  /** While its minute lasts, a bucket's counter is the number of its requests. */
  lemma {:induction false} CounterCounts(policy: Policy, trace: seq<Request>, m: nat, k: Key)
    requires m <= |trace| && Monotone(trace) && policy.windowSeconds * 1000 >= MINUTE
    ensures var c := CountersAt(policy, trace, m);
            if Requests(trace, m, k) == 0 then k !in c
            else k in c && c[k].count == Requests(trace, m, k) && (k.minute + 1) * MINUTE <= c[k].expireAt
  {
    if m == 0 {
    } else {
      CounterCounts(policy, trace, m - 1, k);
      var r := trace[m - 1];
      if r.redis && KeyOf(r) == k {
        InsideMinute(r.t);
      }
    }
  }

  lemma InsideMinute(t: int)
    ensures MinuteOf(t) * MINUTE <= t < (MinuteOf(t) + 1) * MINUTE
  {
  }

  /** Exactly min(requests, limit) requests pass per endpoint, address and minute. */
  lemma {:induction false} PassesExactly(policy: Policy, trace: seq<Request>, m: nat, k: Key)
    requires m <= |trace| && Monotone(trace) && policy.windowSeconds * 1000 >= MINUTE
    ensures Passes(policy, trace, m, k) == Min(Requests(trace, m, k), policy.limit)
  {
    if m == 0 {
    } else {
      PassesExactly(policy, trace, m - 1, k);
      CounterCounts(policy, trace, m - 1, k);
      InsideMinute(trace[m - 1].t);
    }
  }

  // ----- any sixty seconds -----

  predicate Within(r: Request, endpoint: string, ip: string, from: int) {
    r.redis && r.endpoint == endpoint && r.ip == ip && from <= r.t < from + MINUTE
  }

  /** Served requests of one client and endpoint in the 60 s from `from`. */
  function PassesWithin(policy: Policy, trace: seq<Request>, m: nat, endpoint: string, ip: string, from: int): nat
    requires m <= |trace|
  {
    if m == 0 then 0
    else PassesWithin(policy, trace, m - 1, endpoint, ip, from)
         + (if Within(trace[m - 1], endpoint, ip, from) && Served(policy, trace, m - 1) then 1 else 0)
  }

  /** Sixty seconds touch two buckets at most. */
  lemma {:induction false} TwoBuckets(
    policy: Policy, trace: seq<Request>, m: nat, endpoint: string, ip: string, from: int)
    requires m <= |trace|
    ensures PassesWithin(policy, trace, m, endpoint, ip, from)
            <= Passes(policy, trace, m, Key(endpoint, ip, MinuteOf(from)))
             + Passes(policy, trace, m, Key(endpoint, ip, MinuteOf(from) + 1))
  {
    if m == 0 {
    } else {
      TwoBuckets(policy, trace, m - 1, endpoint, ip, from);
      var r := trace[m - 1];
      if Within(r, endpoint, ip, from) {
        assert MinuteOf(r.t) == MinuteOf(from) || MinuteOf(r.t) == MinuteOf(from) + 1;
      }
    }
  }

  /** So no interval of 60 s serves more than twice the limit. */
  lemma SlidingBound(policy: Policy, trace: seq<Request>, endpoint: string, ip: string, from: int)
    requires Monotone(trace) && policy.windowSeconds * 1000 >= MINUTE
    ensures PassesWithin(policy, trace, |trace|, endpoint, ip, from) <= 2 * policy.limit
  {
    TwoBuckets(policy, trace, |trace|, endpoint, ip, from);
    PassesExactly(policy, trace, |trace|, Key(endpoint, ip, MinuteOf(from)));
    PassesExactly(policy, trace, |trace|, Key(endpoint, ip, MinuteOf(from) + 1));
  }

  // ----- why the window must last the minute -----

  ghost predicate AlwaysExact(policy: Policy) {
    forall trace, k :: Monotone(trace) ==>
      Passes(policy, trace, |trace|, k) == Min(Requests(trace, |trace|, k), policy.limit)
  }

  /** `limit` requests at once, and one more when the counter has expired. */
  function Burst(policy: Policy): seq<Request> {
    seq(policy.limit + 1, i requires 0 <= i < policy.limit + 1 =>
      Request(if i < policy.limit then 0 else policy.windowSeconds * 1000, "e", "ip", true))
  }

  lemma {:induction false} BurstPasses(policy: Policy, m: nat)
    requires policy.windowSeconds * 1000 < MINUTE && 0 < policy.limit && m <= policy.limit
    ensures var k := Key("e", "ip", 0);
            && Passes(policy, Burst(policy), m, k) == m == Requests(Burst(policy), m, k)
            && var c := CountersAt(policy, Burst(policy), m);
               && (m == 0 ==> k !in c)
               && (m > 0 ==> k in c && c[k].expireAt == policy.windowSeconds * 1000)
               && (policy.windowSeconds > 0 && m > 0 ==> c[k].count == m)
  {
    if m == 0 {
    } else {
      BurstPasses(policy, m - 1);
      assert KeyOf(Burst(policy)[m - 1]) == Key("e", "ip", 0);
    }
  }

  /** The per-minute count is exact for every trace if and only if the window lasts the minute. */
  lemma ExactForFullWindows(policy: Policy)
    requires policy.limit > 0
    ensures AlwaysExact(policy) <==> policy.windowSeconds >= 60
  {
    if policy.windowSeconds >= 60 {
      forall trace, k | Monotone(trace)
        ensures Passes(policy, trace, |trace|, k) == Min(Requests(trace, |trace|, k), policy.limit)
      {
        PassesExactly(policy, trace, |trace|, k);
      }
    } else {
      var trace, k := Burst(policy), Key("e", "ip", 0);
      BurstPasses(policy, policy.limit);
      assert KeyOf(trace[policy.limit]) == k;
      assert Passes(policy, trace, |trace|, k) == policy.limit + 1;
      assert Requests(trace, |trace|, k) == policy.limit + 1;
      assert Monotone(trace);
    }
  }

  /** The advertised reset is the end of the bucket's minute. */
  lemma ResetIsEndOfMinute(t: int)
    ensures ResetAt(t) == (MinuteOf(t) + 1) * MINUTE
  {
  }

  // ----- the decorator -----

  lemma {:induction false} PrefixCounters(policy: Policy, trace: seq<Request>, more: seq<Request>, m: nat)
    requires m <= |trace|
    ensures CountersAt(policy, trace + more, m) == CountersAt(policy, trace, m)
  {
    if m == 0 {
    } else {
      PrefixCounters(policy, trace, more, m - 1);
    }
  }

  class Limiter {
    const policy: Policy
    var counters: Counters
    /** `_bypass_events` */
    var bypasses: nat
    ghost var trace: seq<Request>

    /** The counters are those of all requests so far. */
    ghost predicate Valid()
      reads this
    {
      counters == CountersAt(policy, trace, |trace|)
    }

    constructor (policy: Policy)
      ensures this.policy == policy && counters == map[] && bypasses == 0 && trace == [] && Valid()
    {
      this.policy := policy;
      counters, bypasses, trace := map[], 0, [];
    }

    /**
     One request through the decorator: the next of the trace, served as the trace says.
     `remaining` is the advertised allowance.
     */
    method Handle(r: Request) returns (served: bool, remaining: nat)
      requires Valid()
      modifies this
      ensures Valid() && trace == old(trace) + [r]
      ensures served <==> Served(policy, trace, |old(trace)|)
      ensures r.redis ==> var c := Increment(old(counters), KeyOf(r), r.t, policy.windowSeconds);
                          && counters == old(counters)[KeyOf(r) := c] && bypasses == old(bypasses)
                          && (served <==> c.count <= policy.limit)
                          && remaining == if served then policy.limit - c.count else 0
      ensures !r.redis ==> served && counters == old(counters) && bypasses == old(bypasses) + 1
                           && remaining == policy.limit
    {
      PrefixCounters(policy, trace, [r], |trace|);
      trace := trace + [r];
      if r.redis {
        var c := Increment(counters, KeyOf(r), r.t, policy.windowSeconds);
        counters := counters[KeyOf(r) := c];
        if c.count > policy.limit {
          return false, 0;
        }
        return true, policy.limit - c.count;
      }
      bypasses := bypasses + 1;
      return true, policy.limit;
    }
  }
}
