/** The ingestion client's callbacks and its limiter, over the fields they change in place. */
module MqttClient {
  import opened Common
  import opened Subscriptions
  import NL = NodeLimiter

  const MAX_PAYLOAD_BYTES: nat := 64 * 1024

  /** Where a message's topic leads; `validId`: the node id also matches the strict pattern. */
  datatype Route = ToAlerts | ToNode(node: string, validId: bool) | Unknown

  /** `stale`: the payload's device timestamp is at least 60 s old. */
  datatype Message = Message(size: nat, decodable: bool, route: Route, stale: bool)

  class SubscriptionState {
    var pending: map<Mid, Topic>
    var granted: set<Topic>
    var ready: bool
    var failed: bool
    var nextRetry: int

    ghost function Fields(): Client
      reads this
    {
      Client(pending, granted, ready, failed, nextRetry)
    }

    constructor ()
      ensures Fields() == Start().client
    {
      pending, granted, ready, failed, nextRetry := map[], {}, false, false, 0;
    }

    /** `_on_connect`: (re)subscribes to every topic and flags a failed subscribe() for the worker. */
    method OnConnect(rc: int, answers: seq<Answer>)
      requires |answers| == |TOPICS|
      modifies this
      ensures Fields() == Subscriptions.OnConnect(old(Fields()), rc, answers)
      ensures rc != 0 ==> Fields() == old(Fields())
      ensures granted == old(granted) && ready == old(ready) && nextRetry == old(nextRetry)
      ensures rc == 0 ==> (failed <==> exists i :: 0 <= i < 3 && answers[i].None?)
      ensures rc == 0 && DistinctIds(answers) ==> RegistersJust(old(pending), pending, answers, {})
    {
      if DistinctIds(answers) { ConnectRegisters(Fields(), answers); }
      hide RegistersJust, DistinctIds;
      if rc != 0 {
        return;
      }
      var subscribeFailed := false;
      for i := 0 to |TOPICS|
        invariant granted == old(granted) && ready == old(ready) && failed == old(failed) && nextRetry == old(nextRetry)
        invariant subscribeFailed <==> AnyFailed(answers[..i])
        invariant Registered(pending, TOPICS[i..], answers[i..]) == Registered(old(pending), TOPICS, answers)
      {
        assert answers[..i + 1] == answers[..i] + [answers[i]];
        assert TOPICS[i..][1..] == TOPICS[i + 1..] && answers[i..][1..] == answers[i + 1..];
        if answers[i].None? {
          assert answers[i] in answers[..i + 1];
          subscribeFailed := true;
        } else {
          pending := pending[answers[i].value := TOPICS[i]];
        }
      }
      assert answers[..|TOPICS|] == answers;
      failed := subscribeFailed;
    }

    /** `_on_subscribe`: the SUBACK, not the SUBSCRIBE, decides whether a topic is granted. */
    method OnSubscribe(mid: Mid, qos: Option<nat>)
      modifies this
      ensures Fields() == Subscriptions.OnSubscribe(old(Fields()), mid, qos)
      ensures old(ready <==> REQUIRED <= granted) ==> (ready <==> REQUIRED <= granted)
      ensures pending == old(pending) - {mid} && nextRetry == old(nextRetry)
      ensures mid !in old(pending) ==> Fields() == old(Fields())
      ensures mid in old(pending) && (qos.None? || qos.value >= 128) ==>
                granted == old(granted) && ready == old(ready) && failed
      ensures mid in old(pending) && qos.Some? && qos.value < 128 ==>
                && granted == old(granted) + {old(pending)[mid]}
                && (ready <==> old(ready) || {Reading, Status} <= granted)
                && (failed <==> old(failed) && !({Reading, Status, Alerts} <= granted))
    {
      if mid !in pending {
        return;
      }
      var topic := pending[mid];
      pending := pending - {mid};
      if qos.None? || qos.value >= SUBACK_FAILURE {
        failed := true;
        return;
      }
      granted := granted + {topic};
      if AllTopics() <= granted {
        failed := false;
      }
      if REQUIRED <= granted {
        ready := true;
      }
    }

    /** `_on_disconnect`: nothing of the lost session survives. */
    method OnDisconnect()
      modifies this
      ensures Fields() == Subscriptions.OnDisconnect(old(Fields()))
      ensures !ready && !failed && granted == {} && pending == map[]
    {
      ready := false;
      granted := {};
      pending := map[];
      failed := false;
    }

    /** `_maybe_retry_subscribes`, when no callback interrupts it. */
    method MaybeRetrySubscribes(now: int, connected: bool, answers: seq<Answer>)
      requires |answers| == |TOPICS|
      modifies this
      ensures Fields() == RetryPass(old(Fields()), now, connected, answers)
      ensures granted == old(granted) && ready == old(ready) && failed == old(failed)
      ensures !(failed && old(nextRetry) <= now) ==> Fields() == old(Fields())
      ensures failed && old(nextRetry) <= now ==>
                && nextRetry == now + 5000
                && (!connected ==> pending == old(pending))
                && (connected && DistinctIds(answers) ==> RegistersJust(old(pending), pending, answers, granted))
    {
      if !failed {
        return;
      }
      if now < nextRetry {
        return;
      }
      nextRetry := now + RETRY_INTERVAL;
      if !connected {
        return;
      }
      ghost var c := Fields();
      if DistinctIds(answers) { PassRegisters(c, answers); }
      hide RegistersJust, DistinctIds;
      for i := 0 to |TOPICS|
        invariant granted == old(granted) && ready == old(ready) && failed == old(failed)
        invariant RegisteredMissing(Fields(), TOPICS[i..], answers[i..]) == RegisteredMissing(c, TOPICS, answers)
      {
        assert TOPICS[i..][1..] == TOPICS[i + 1..] && answers[i..][1..] == answers[i + 1..];
        if TOPICS[i] !in granted && answers[i].Some? {
          pending := pending[answers[i].value := TOPICS[i]];
        }
      }
    }
  }

  /** What the size cap, the decoder, the topic and id patterns and the limiter let through. */
  predicate Wanted(m: Message, lastSeen: NL.Table, now: real) {
    && m.size <= MAX_PAYLOAD_BYTES && m.decodable
    && (m.route.ToAlerts? ||
        (m.route.ToNode? && m.route.validId && (m.stale || !NL.Limited(lastSeen, m.route.node, now))))
  }

  /** The worker takes something during one of the attempts to enqueue. */
  predicate Drains(taken: seq<nat>) { exists i :: 0 <= i < |taken| && taken[i] > 0 }

  class Limiter {
    /** `_node_last_seen` */
    var lastSeen: NL.Table

    /** The worker queue with its bound, the attempts to enqueue, and the count of messages that found it full. */
    var queue: seq<Message>
    const queueMax: nat
    const attempts: nat
    var overflow: nat

    predicate Valid()
      reads this
    {
      0 < queueMax && |queue| <= queueMax
    }

    constructor (queueMax: nat, attempts: nat)
      requires 0 < queueMax
      ensures lastSeen == [] && queue == [] && overflow == 0 && Valid()
      ensures this.queueMax == queueMax && this.attempts == attempts
    {
      lastSeen, queue, overflow := [], [], 0;
      this.queueMax, this.attempts := queueMax, attempts;
    }

    /** `_node_rate_limited`: may evict the longest-silent nodes when it records a new one. */
    method NodeRateLimited(node: string, now: real) returns (limited: bool)
      modifies this`lastSeen
      ensures limited <==> NL.Limited(old(lastSeen), node, now)
      ensures lastSeen == NL.After(old(lastSeen), node, now)
      ensures NL.DistinctNodes(old(lastSeen)) ==>
                (limited <==> exists s :: s in old(lastSeen) && s.node == node && now - s.time < 0.5)
      ensures limited ==> lastSeen == old(lastSeen)
      ensures !limited && |NL.Put(old(lastSeen), node, now)| <= 10_000 ==> lastSeen == NL.Put(old(lastSeen), node, now)
    {
      if NL.DistinctNodes(lastSeen) { NL.LimitedMeaning(lastSeen, node, now); }
      var last := NL.Lookup(lastSeen, node);
      if last.Some? && now - last.value < NL.MIN_INTERVAL {
        return true;
      }
      lastSeen := NL.Put(lastSeen, node, now);
      if |lastSeen| > NL.CAP {
        Evict();
      }
      return false;
    }

    /** Back under the cap, oldest first. */
    method Evict()
      requires |lastSeen| > NL.CAP
      modifies this`lastSeen
      ensures lastSeen == NL.Pruned(old(lastSeen))
    {
      NL.SortKeeps(lastSeen);
      DeleteKeys(NL.OldestFirst(lastSeen)[..|lastSeen| - NL.PRUNE_TO]);
    }

    /** The loop that deletes the oldest keys one by one. */
    method DeleteKeys(evicted: NL.Table)
      modifies this`lastSeen
      ensures lastSeen == Filter(NL.Outside(NL.NodesOf(evicted)), old(lastSeen))
    {
      var gone: set<string> := {};
      NoNodes();
      NothingOutside(lastSeen);
      hide NL.NodesOf, Filter;
      for i := 0 to |evicted|
        invariant gone == NL.NodesOf(evicted[..i])
        invariant lastSeen == Filter(NL.Outside(gone), old(lastSeen))
      {
        OneMoreNode(evicted, i);
        var key := evicted[i].node;
        RemoveOneMore(old(lastSeen), gone, key);
        gone := gone + {key};
        lastSeen := Filter(NL.Outside({key}), lastSeen);
      }
      assert evicted[..|evicted|] == evicted;
    }

    /**
     `_enqueue`: a full queue is tried again while the worker takes `taken[i]` messages during the
     i-th attempt; one that stays full costs this message, never an older one.
     */
    method Enqueue(m: Message, taken: seq<nat>) returns (queued: bool)
      requires Valid() && |taken| == attempts
      modifies this`queue, this`overflow
      ensures Valid()
      ensures queued <==> 0 < attempts && (|old(queue)| < queueMax || Drains(taken))
      ensures queued ==> exists k :: 0 <= k <= |old(queue)| && queue == old(queue)[k..] + [m]
      ensures queued && !Drains(taken) ==> queue == old(queue) + [m]
      ensures !queued ==> queue == old(queue) && overflow == old(overflow) + 1
      ensures !queued && 0 < attempts ==> |queue| == queueMax
      ensures queued ==> overflow == old(overflow)
    {
      for i := 0 to attempts
        invariant queue == old(queue) && overflow == old(overflow)
        invariant 0 < i ==> |queue| == queueMax
        invariant forall j :: 0 <= j < i ==> taken[j] == 0
      {
        var n := if taken[i] < |queue| then taken[i] else |queue|;
        if |queue| - n < queueMax {
          assert taken[i] > 0 ==> Drains(taken);
          queue := queue[n..] + [m];
          return true;
        }
        queue := queue[n..];
      }
      overflow := overflow + 1;
      return false;
    }

    /**
     `_on_message`. Backlog is never dropped by the limiter, though it counts as the node's last
     message when the limiter lets it through. What is wanted is dropped only by a full queue.
     */
    method OnMessage(m: Message, now: real, taken: seq<nat>) returns (queued: bool)
      requires Valid() && |taken| == attempts
      modifies this
      ensures Valid()
      ensures Wanted(m, old(lastSeen), now) <==>
                && m.size <= 65_536 && m.decodable && !m.route.Unknown?
                && (m.route.ToNode? ==> m.route.validId && (m.stale || !NL.Limited(old(lastSeen), m.route.node, now)))
      ensures queued <==>
                Wanted(m, old(lastSeen), now) && 0 < attempts && (|old(queue)| < queueMax || Drains(taken))
      ensures queued ==> exists k :: 0 <= k <= |old(queue)| && queue == old(queue)[k..] + [m]
      ensures !queued ==> queue == old(queue)
      ensures overflow == old(overflow) + if Wanted(m, old(lastSeen), now) && !queued then 1 else 0
      ensures lastSeen == if m.size <= MAX_PAYLOAD_BYTES && m.decodable && m.route.ToNode? && m.route.validId
                          then NL.After(old(lastSeen), m.route.node, now) else old(lastSeen)
    {
      hide NL.After, NL.Limited, Drains;
      if m.size > MAX_PAYLOAD_BYTES {
        return false;
      }
      if !m.decodable {
        return false;
      }
      if m.route.ToAlerts? {
        queued := Enqueue(m, taken);
        return;
      }
      if m.route.Unknown? || !m.route.validId {
        return false;
      }
      var limited := NodeRateLimited(m.route.node, now);
      if limited && !m.stale {
        return false;
      }
      queued := Enqueue(m, taken);
    }
  }

  lemma NoNodes()
    ensures NL.NodesOf([]) == {}
  {
  }

  lemma OneMoreNode(t: NL.Table, i: nat)
    requires i < |t|
    ensures NL.NodesOf(t[..i + 1]) == NL.NodesOf(t[..i]) + {t[i].node}
  {
  }

  lemma {:induction false} NothingOutside(t: NL.Table)
    ensures Filter(NL.Outside({}), t) == t
  {
    if t == [] {
    } else {
      NothingOutside(t[1..]);
    }
  }

  lemma {:induction false} RemoveOneMore(t: NL.Table, gone: set<string>, key: string)
    ensures Filter(NL.Outside({key}), Filter(NL.Outside(gone), t)) == Filter(NL.Outside(gone + {key}), t)
  {
    if t == [] {
    } else {
      RemoveOneMore(t[1..], gone, key);
      if t[0].node !in gone {
        assert ([t[0]] + Filter(NL.Outside(gone), t[1..]))[1..] == Filter(NL.Outside(gone), t[1..]);
      }
    }
  }
}
