/**
 The bounded retry queue of the alert publisher: what one retry call does to the queue, and what
 becomes of every alert over a whole run of publishes.
 */
module RetryQueue {
  import opened Common

  const MAX_RETRY_ATTEMPTS: nat := 5
  const RETRY_BATCH_SIZE: nat := 10
  const MAX_FAILED_QUEUE_SIZE: nat := 100

  /** `id` names the `publish_alert` call that created the payload. */
  datatype Payload = Payload(id: nat, node: string, content: string, serialisable: bool)

  datatype Entry = Entry(payload: Payload, attempt: nat)

  type Queue = q: seq<Entry> | |q| <= MAX_FAILED_QUEUE_SIZE

  /** What `client.publish` does. */
  datatype Answer = Accepted | BadCode | Raises

  /** The answers to the successive publishes of one retry call. */
  type Broker = nat -> Answer

  // ----- the deque -----

  /** `deque.append` with a maximal length discards from the other end. */
  function Append(q: Queue, e: Entry): Queue {
    if |q| == MAX_FAILED_QUEUE_SIZE then q[1..] + [e] else q + [e]
  }

  /** `deque.extendleft(reversed(es))` with a maximal length discards from the right. */
  function ExtendLeft(q: Queue, es: seq<Entry>): Queue {
    var all := es + q;
    if |all| <= MAX_FAILED_QUEUE_SIZE then all else all[..MAX_FAILED_QUEUE_SIZE]
  }

  /** `_queue_failed_message`: makes room by dropping the oldest. */
  function Enqueued(q: Queue, p: Payload): Queue {
    Append(if |q| >= MAX_FAILED_QUEUE_SIZE then q[1..] else q, Entry(p, 0))
  }

  // ----- one retry call -----

  /**
   The fate of a batch, each part in batch order: published, dropped, failed (with one more
   attempt), and untouched because a publish raised before them.
   */
  datatype Fate = Fate(published: seq<Entry>, dropped: seq<Entry>, failed: seq<Entry>,
                       untouched: seq<Entry>, raised: bool)

  function Again(e: Entry): Entry { Entry(e.payload, e.attempt + 1) }

  /** Never handed to the broker again: out of attempts, or not encodable. */
  predicate Hopeless(e: Entry) { e.attempt >= MAX_RETRY_ATTEMPTS || !e.payload.serialisable }

  /** `i` publishes have been made before this part of the batch. */
  function Process(batch: seq<Entry>, broker: Broker, i: nat): Fate {
    if batch == [] then Fate([], [], [], [], false)
    else if Hopeless(batch[0]) then
      var f := Process(batch[1..], broker, i);
      f.(dropped := [batch[0]] + f.dropped)
    else match broker(i)
         case Accepted =>
           var f := Process(batch[1..], broker, i + 1);
           f.(published := [batch[0]] + f.published)
         case BadCode =>
           var f := Process(batch[1..], broker, i + 1);
           f.(failed := [Again(batch[0])] + f.failed)
         case Raises => Fate([], [], [Again(batch[0])], batch[1..], true)
  }

  function BatchSize(q: Queue): nat { if |q| < RETRY_BATCH_SIZE then |q| else RETRY_BATCH_SIZE }

  function FateOf(q: Queue, broker: Broker): Fate { Process(q[..BatchSize(q)], broker, 0) }

  /** The queue after a retry call with a client. */
  function Retried(q: Queue, broker: Broker): (r: Queue)
    ensures |r| <= |q|
  {
    ProcessSizes(q[..BatchSize(q)], broker, 0);
    FateOf(q, broker).untouched + q[BatchSize(q)..] + FateOf(q, broker).failed
  }

  lemma {:induction false} ProcessSizes(batch: seq<Entry>, broker: Broker, i: nat)
    ensures var f := Process(batch, broker, i);
            |f.published| + |f.dropped| + |f.failed| + |f.untouched| == |batch|
  {
    if batch == [] {
    } else {
      ProcessSizes(batch[1..], broker, i);
      ProcessSizes(batch[1..], broker, i + 1);
    }
  }

  lemma EndOfRest(batch: seq<Entry>, n: nat)
    requires n < |batch|
    ensures batch[1..][|batch| - 1 - n..] == batch[|batch| - n..]
  {
  }

  /** The untouched part is the end of the batch, and is empty unless a publish raised. */
  lemma {:induction false} UntouchedIsSuffix(batch: seq<Entry>, broker: Broker, i: nat)
    ensures var f := Process(batch, broker, i);
            && |f.untouched| <= |batch| && batch[|batch| - |f.untouched|..] == f.untouched
            && (!f.raised ==> f.untouched == [])
            && (f.raised ==> f.failed != [])
  {
    if batch == [] {
    } else {
      var n := if Hopeless(batch[0]) then i else i + 1;
      UntouchedIsSuffix(batch[1..], broker, n);
      EndOfRest(batch, |Process(batch[1..], broker, n).untouched|);
      EndOfRest(batch, |batch| - 1);
      hide Hopeless;
    }
  }

  /** `fs` are some of the entries, in their order and with one more attempt each. */
  predicate SomeAgain(fs: seq<Entry>, es: seq<Entry>) {
    fs == [] || (es != [] && (SomeAgain(fs, es[1..]) || (fs[0] == Again(es[0]) && SomeAgain(fs[1..], es[1..]))))
  }

  lemma SomeAgainMore(fs: seq<Entry>, e: Entry, es: seq<Entry>)
    requires SomeAgain(fs, es)
    ensures SomeAgain(fs, [e] + es) && SomeAgain([Again(e)] + fs, [e] + es)
  {
    assert ([e] + es)[1..] == es && ([Again(e)] + fs)[1..] == fs;
  }

  /** What a batch's processing reached. */
  function Reached(batch: seq<Entry>, broker: Broker, i: nat): seq<Entry> {
    UntouchedIsSuffix(batch, broker, i);
    batch[..|batch| - |Process(batch, broker, i).untouched|]
  }

  lemma {:induction false} FailedInOrder(batch: seq<Entry>, broker: Broker, i: nat)
    ensures SomeAgain(Process(batch, broker, i).failed, Reached(batch, broker, i))
  {
    if batch == [] {
    } else {
      var e, rest := batch[0], batch[1..];
      var n := if Hopeless(e) then i else i + 1;
      FailedInOrder(rest, broker, n);
      SomeAgainMore(Process(rest, broker, n).failed, e, Reached(rest, broker, n));
      SomeAgainMore([], e, []);
      ReachedStep(batch, broker, i);
      hide SomeAgain, Reached;
    }
  }

  lemma ReachedStep(batch: seq<Entry>, broker: Broker, i: nat)
    requires batch != []
    ensures var n := if Hopeless(batch[0]) then i else i + 1;
            Reached(batch, broker, i) ==
              [batch[0]] + if !Hopeless(batch[0]) && broker(i) == Raises then [] else Reached(batch[1..], broker, n)
  {
    var n := if Hopeless(batch[0]) then i else i + 1;
    UntouchedIsSuffix(batch[1..], broker, n);
    assert batch == [batch[0]] + batch[1..];
  }

  /**
   The new queue, entry by entry: what the call did not reach keeps its order at the front, the
   failed entries follow in order with one more attempt, and nothing else is in it, so the bound of
   the deque never discards anything.
   */
  lemma RetriedInOrder(q: Queue, broker: Broker)
    ensures var f, r := FateOf(q, broker), Retried(q, broker);
            var n := |f.published| + |f.dropped| + |f.failed|;
            && n <= |q| && |r| == |q| - |f.published| - |f.dropped|
            && r[..|q| - n] == q[n..] && r[|q| - n..] == f.failed
            && SomeAgain(f.failed, q[..n])
  {
    hide Process, SomeAgain, Reached;
    var k, f := BatchSize(q), FateOf(q, broker);
    BatchInOrder(q[..k], broker);
    SplitQueue(q, k, k - |f.untouched|, f.untouched, f.failed);
  }

  lemma BatchInOrder(batch: seq<Entry>, broker: Broker)
    ensures var f := Process(batch, broker, 0);
            var n := |f.published| + |f.dropped| + |f.failed|;
            && n == |batch| - |f.untouched| && f.untouched == batch[n..] && SomeAgain(f.failed, batch[..n])
  {
    ProcessSizes(batch, broker, 0);
    UntouchedIsSuffix(batch, broker, 0);
    FailedInOrder(batch, broker, 0);
    hide Process, SomeAgain;
  }

  lemma SplitQueue(q: seq<Entry>, k: nat, n: nat, untouched: seq<Entry>, failed: seq<Entry>)
    requires n <= k <= |q| && |untouched| == k - n && untouched == q[..k][n..]
    ensures var r := untouched + q[k..] + failed;
            r[..|q| - n] == q[n..] && r[|q| - n..] == failed && q[..k][..n] == q[..n]
  {
    assert q[n..] == untouched + q[k..];
  }

  // ----- what the answers decide -----

  /** Still worth a publish: fewer than five attempts, and encodable. */
  function WorthTrying(): Entry -> bool { (e: Entry) => e.attempt < 5 && e.payload.serialisable }

  function Spent(): Entry -> bool { (e: Entry) => e.attempt >= 5 || !e.payload.serialisable }

  /** The entries handed to the broker, in order: the j-th gets the j-th answer. */
  function Tried(batch: seq<Entry>, broker: Broker, i: nat): seq<Entry> {
    Filter(WorthTrying(), Reached(batch, broker, i))
  }

  /**
   Each entry in turn gets its answer: accepted ones are published, in order, the others fail with
   one more attempt, in order, and a raise is the last answer asked for.
   */
  predicate Answered(tried: seq<Entry>, broker: Broker, i: nat, published: seq<Entry>, failed: seq<Entry>, raised: bool)
    decreases |tried|
  {
    if tried == [] then published == [] && failed == [] && !raised
    else
      var again := Entry(tried[0].payload, tried[0].attempt + 1);
      match broker(i)
      case Accepted =>
        && published != [] && published[0] == tried[0]
        && Answered(tried[1..], broker, i + 1, published[1..], failed, raised)
      case BadCode =>
        failed != [] && failed[0] == again && Answered(tried[1..], broker, i + 1, published, failed[1..], raised)
      case Raises => |tried| == 1 && published == [] && failed == [again] && raised
  }

  /** What becomes of a batch follows from the broker's answers alone. */
  lemma {:induction false} FateFollowsAnswers(batch: seq<Entry>, broker: Broker, i: nat)
    ensures var f := Process(batch, broker, i);
            && Answered(Tried(batch, broker, i), broker, i, f.published, f.failed, f.raised)
            && f.dropped == Filter(Spent(), Reached(batch, broker, i))
  {
    if batch == [] {
    } else {
      var e, rest := batch[0], batch[1..];
      ReachedStep(batch, broker, i);
      hide Reached;
      var n := if Hopeless(e) then i else i + 1;
      FateFollowsAnswers(rest, broker, n);
      var f := Process(rest, broker, n);
      assert ([e] + f.published)[1..] == f.published && ([Again(e)] + f.failed)[1..] == f.failed;
      assert ([e] + Reached(rest, broker, n))[1..] == Reached(rest, broker, n) && [e][1..] == [];
      assert ([e] + Tried(rest, broker, n))[1..] == Tried(rest, broker, n);
    }
  }

  // ----- conservation -----

  /** How many entries carry this payload. */
  function Count(es: seq<Entry>, p: Payload): nat {
    if es == [] then 0 else (if es[0].payload == p then 1 else 0) + Count(es[1..], p)
  }

  lemma {:induction false} CountAppend(a: seq<Entry>, b: seq<Entry>, p: Payload)
    ensures Count(a + b, p) == Count(a, p) + Count(b, p)
  {
    if a == [] {
      assert a + b == b;
    } else {
      assert (a + b)[1..] == a[1..] + b;
      CountAppend(a[1..], b, p);
    }
  }

  lemma {:induction false} CountMember(es: seq<Entry>, e: Entry)
    requires e in es
    ensures Count(es, e.payload) > 0
  {
    if e == es[0] {
    } else {
      CountMember(es[1..], e);
    }
  }

  lemma {:induction false} MemberOfCount(es: seq<Entry>, p: Payload) returns (e: Entry)
    requires Count(es, p) > 0
    ensures e in es && e.payload == p
  {
    if es[0].payload == p { e := es[0]; } else { e := MemberOfCount(es[1..], p); }
  }

  lemma {:induction false} ProcessConserves(batch: seq<Entry>, broker: Broker, i: nat, p: Payload)
    ensures var f := Process(batch, broker, i);
            Count(batch, p) == Count(f.published, p) + Count(f.dropped, p) + Count(f.failed, p) + Count(f.untouched, p)
  {
    if batch == [] {
    } else {
      if Hopeless(batch[0]) {
        ProcessConserves(batch[1..], broker, i, p);
        CountAppend([batch[0]], Process(batch[1..], broker, i).dropped, p);
      } else {
        ProcessConserves(batch[1..], broker, i + 1, p);
        CountAppend([batch[0]], Process(batch[1..], broker, i + 1).published, p);
        CountAppend([Again(batch[0])], Process(batch[1..], broker, i + 1).failed, p);
      }
    }
  }

  /** One retry call loses nothing and invents nothing: old queue = published + dropped + new queue. */
  lemma RetryConserves(q: Queue, broker: Broker, p: Payload)
    ensures var f := FateOf(q, broker);
            Count(q, p) == Count(f.published, p) + Count(f.dropped, p) + Count(Retried(q, broker), p)
  {
    var k, f := BatchSize(q), FateOf(q, broker);
    assert q == q[..k] + q[k..];
    CountAppend(q[..k], q[k..], p);
    ProcessConserves(q[..k], broker, 0, p);
    CountAppend(f.untouched + q[k..], f.failed, p);
    CountAppend(f.untouched, q[k..], p);
  }

  /** A failed entry as it was before this attempt. */
  function Before(e: Entry): Entry
    requires e.attempt > 0
  {
    Entry(e.payload, e.attempt - 1)
  }

  /** Where each part of a batch's fate comes from. */
  lemma {:induction false} FateMembers(batch: seq<Entry>, broker: Broker, i: nat)
    ensures var f := Process(batch, broker, i);
            && (forall e :: e in f.published ==> e in batch && !Hopeless(e))
            && (forall e :: e in f.dropped ==> e in batch && Hopeless(e))
            && (forall e :: e in f.untouched ==> e in batch)
            && (forall e :: e in f.failed ==> e.attempt > 0 && Before(e) in batch && !Hopeless(Before(e)))
  {
    if batch == [] {
    } else {
      FateMembers(batch[1..], broker, if Hopeless(batch[0]) then i else i + 1);
      assert Before(Again(batch[0])) == batch[0];
      hide Hopeless, Again;
    }
  }

  // ----- termination -----

  predicate AttemptsBounded(es: seq<Entry>) { forall e :: e in es ==> e.attempt <= MAX_RETRY_ATTEMPTS }

  /** How many more retry calls the entries can survive, added up. */
  function Potential(es: seq<Entry>): nat
    requires AttemptsBounded(es)
  {
    if es == [] then 0
    else assert es[0] in es; MAX_RETRY_ATTEMPTS + 1 - es[0].attempt + Potential(es[1..])
  }

  lemma {:induction false} PotentialAppend(a: seq<Entry>, b: seq<Entry>)
    requires AttemptsBounded(a) && AttemptsBounded(b)
    ensures AttemptsBounded(a + b) && Potential(a + b) == Potential(a) + Potential(b)
  {
    if a == [] {
      assert a + b == b;
    } else {
      assert (a + b)[1..] == a[1..] + b;
      PotentialAppend(a[1..], b);
    }
  }

  lemma {:induction false} ProcessSpends(batch: seq<Entry>, broker: Broker, i: nat)
    requires AttemptsBounded(batch)
    ensures var f := Process(batch, broker, i);
            && AttemptsBounded(f.failed) && AttemptsBounded(f.untouched)
            && Potential(f.failed) + Potential(f.untouched) + (if batch == [] then 0 else 1) <= Potential(batch)
  {
    FateMembers(batch, broker, i);
    if batch == [] {
    } else {
      assert batch[0] in batch;
      ProcessSpends(batch[1..], broker, i);
      ProcessSpends(batch[1..], broker, i + 1);
      var f := Process(batch, broker, i);
      if !Hopeless(batch[0]) && broker(i) == BadCode {
        assert f.failed[1..] == Process(batch[1..], broker, i + 1).failed;
      }
    }
  }

  /** Every retry call with something queued spends some of the potential, whatever the broker does. */
  lemma RetrySpends(q: Queue, broker: Broker)
    requires AttemptsBounded(q)
    ensures AttemptsBounded(Retried(q, broker))
    ensures q != [] ==> Potential(Retried(q, broker)) < Potential(q)
    ensures q == [] ==> Retried(q, broker) == []
  {
    var k, f := BatchSize(q), FateOf(q, broker);
    assert q == q[..k] + q[k..];
    ProcessSpends(q[..k], broker, 0);
    PotentialAppend(q[..k], q[k..]);
    PotentialAppend(f.untouched, q[k..]);
    PotentialAppend(f.untouched + q[k..], f.failed);
  }

  function RetryTimes(q: Queue, brokers: nat -> Broker, n: nat): Queue
    decreases n
  {
    if n == 0 then q else RetryTimes(Retried(q, brokers(n)), brokers, n - 1)
  }

  lemma {:induction false} RetriesDrain(q: Queue, brokers: nat -> Broker, n: nat)
    requires AttemptsBounded(q) && Potential(q) <= n
    ensures RetryTimes(q, brokers, n) == []
    decreases n
  {
    if n == 0 {
    } else {
      RetrySpends(q, brokers(n));
      RetriesDrain(Retried(q, brokers(n)), brokers, n - 1);
    }
  }

  // ----- whole runs -----

  /** One `publish_alert` call, with what its environment answers. */
  datatype Call = Call(payload: Payload, client: bool, connected: bool, direct: Answer, broker: Broker)

  /**
   The queue, with what has become of one alert: how often it was handed over, delivered, dropped
   by the code's own decision, evicted by a full queue, lost because the direct publish raised,
   and passed to the broker.
   */
  datatype Ledger = Ledger(queue: Queue, handed: nat, delivered: nat, dropped: nat, evicted: nat, lost: nat,
                           attempts: nat)

  function AfterRetry(l: Ledger, broker: Broker, p: Payload): Ledger {
    var f := FateOf(l.queue, broker);
    l.(queue := Retried(l.queue, broker), delivered := l.delivered + Count(f.published, p),
       dropped := l.dropped + Count(f.dropped, p),
       attempts := l.attempts + Count(f.published, p) + Count(f.failed, p))
  }

  /** The entry a full queue gives up to take a new one. */
  function Evicted(q: Queue): seq<Entry> { if |q| >= MAX_FAILED_QUEUE_SIZE then q[..1] else [] }

  function Queued(l: Ledger, new_: Payload, p: Payload): Ledger {
    l.(queue := Enqueued(l.queue, new_), evicted := l.evicted + Count(Evicted(l.queue), p))
  }

  /** `publish_alert`, recorded for the alert `p`. */
  function Publish(l: Ledger, c: Call, p: Payload): Ledger {
    var one := if c.payload == p then 1 else 0;
    var l := l.(handed := l.handed + one);
    if !c.client || !c.connected then Queued(l, c.payload, p)
    else if !c.payload.serialisable then l.(dropped := l.dropped + one)
    else var l := l.(attempts := l.attempts + one);
         match c.direct
         case Raises => l.(lost := l.lost + one)
         case BadCode => Queued(l, c.payload, p)
         case Accepted => AfterRetry(l.(delivered := l.delivered + one), c.broker, p)
  }

  /** Which call moves which account of the ledger. */
  lemma LedgerMoves(l: Ledger, c: Call, p: Payload)
    ensures var m, f := Publish(l, c, p), FateOf(l.queue, c.broker);
            var mine, up := if c.payload == p then 1 else 0, c.client && c.connected;
            var sent := up && c.payload.serialisable;
            var accepted, refused := sent && c.direct == Accepted, !up || (sent && c.direct == BadCode);
            && m.handed == l.handed + mine
            && m.delivered == l.delivered + (if accepted then mine + Count(f.published, p) else 0)
            && m.dropped == l.dropped + (if accepted then Count(f.dropped, p)
                                         else if up && !c.payload.serialisable then mine else 0)
            && m.lost == l.lost + (if sent && c.direct == Raises then mine else 0)
            && m.evicted == l.evicted + (if refused && |l.queue| == 100 && l.queue[0].payload == p then 1 else 0)
            && m.attempts == l.attempts + (if sent then mine else 0)
                           + (if accepted then Count(f.published, p) + Count(f.failed, p) else 0)
  {
    hide FateOf, Enqueued, Retried;
    if |l.queue| == 100 {
      assert l.queue[..1][1..] == [];
      assert Count(l.queue[..1], p) == if l.queue[0].payload == p then 1 else 0;
    }
    assert Count([], p) == 0;
  }

  function PublishAll(l: Ledger, cs: seq<Call>, p: Payload): Ledger
    decreases |cs|
  {
    if cs == [] then l else PublishAll(Publish(l, cs[0], p), cs[1..], p)
  }

  /** A publish that gets through, and so retries what is queued. */
  predicate GetsThrough(c: Call) { c.client && c.connected && c.payload.serialisable && c.direct == Accepted }

  /** As many such publishes as the total of the attempts left empty the queue, whatever the retries meet. */
  lemma {:induction false} PublishesDrain(l: Ledger, cs: seq<Call>, p: Payload)
    requires AttemptsBounded(l.queue) && Potential(l.queue) <= |cs| && forall c :: c in cs ==> GetsThrough(c)
    ensures PublishAll(l, cs, p).queue == []
    decreases |cs|
  {
    if cs == [] {
    } else {
      assert cs[0] in cs;
      assert Publish(l, cs[0], p).queue == Retried(l.queue, cs[0].broker);
      RetrySpends(l.queue, cs[0].broker);
      PublishesDrain(Publish(l, cs[0], p), cs[1..], p);
    }
  }

  /** The alert is handed over by one call at most. */
  predicate HandedOnce(l: Ledger, cs: seq<Call>, p: Payload)
    decreases |cs|
  {
    cs != [] ==> (cs[0].payload == p ==> l.handed == 0) && HandedOnce(Publish(l, cs[0], p), cs[1..], p)
  }

  function NoAlerts(): Ledger { Ledger([], 0, 0, 0, 0, 0, 0) }

  /** Handed over once at most, and then in exactly one place. */
  predicate Balanced(l: Ledger, p: Payload) {
    1 >= l.handed == Count(l.queue, p) + l.delivered + l.dropped + l.evicted + l.lost
  }

  /** While queued, an alert was passed to the broker once per attempt, and perhaps once directly. */
  predicate AttemptsCounted(l: Ledger, p: Payload) {
    && AttemptsBounded(l.queue)
    && (l.handed == 0 ==> l.attempts == 0)
    && (forall e :: e in l.queue && e.payload == p ==> l.attempts <= e.attempt + 1)
    && l.attempts <= MAX_RETRY_ATTEMPTS + 1
  }

  lemma EnqueueConserves(q: Queue, new_: Payload, p: Payload)
    ensures Count(Enqueued(q, new_), p) + Count(Evicted(q), p) == Count(q, p) + (if new_ == p then 1 else 0)
    ensures forall e :: e in Enqueued(q, new_) ==> e in q || e == Entry(new_, 0)
  {
    var shorter := if |q| >= MAX_FAILED_QUEUE_SIZE then q[1..] else q;
    CountAppend(shorter, [Entry(new_, 0)], p);
    assert Enqueued(q, new_) == shorter + [Entry(new_, 0)];
    assert q == Evicted(q) + shorter;
    CountAppend(Evicted(q), shorter, p);
  }

  lemma PublishKeepsBalance(l: Ledger, c: Call, p: Payload)
    requires Balanced(l, p) && (c.payload == p ==> l.handed == 0)
    ensures Balanced(Publish(l, c, p), p)
  {
    hide Enqueued, Evicted, Retried, FateOf, Count;
    EnqueueConserves(l.queue, c.payload, p);
    RetryConserves(l.queue, c.broker, p);
  }

  /** An entry still queued was not published in this call, or was and has one more attempt. */
  lemma RetriedMember(l: Ledger, broker: Broker, p: Payload, e: Entry)
    requires AttemptsCounted(l, p) && Count(l.queue, p) <= 1
    requires e in Retried(l.queue, broker) && e.payload == p
    ensures AfterRetry(l, broker, p).attempts <= e.attempt + 1
  {
    var q := l.queue;
    var k, f := BatchSize(q), FateOf(q, broker);
    assert q == q[..k] + q[k..];
    FateMembers(q[..k], broker, 0);
    ProcessConserves(q[..k], broker, 0, p);
    CountAppend(q[..k], q[k..], p);
    if e in f.failed {
      assert Before(e) in q;
    } else if e in f.untouched {
      assert e in q;
      CountMember(f.untouched, e);
    } else {
      assert e in q;
      CountMember(q[k..], e);
    }
  }

  lemma RetryCounts(l: Ledger, broker: Broker, p: Payload)
    requires AttemptsCounted(l, p) && Count(l.queue, p) <= 1
    requires l.handed == 0 ==> Count(l.queue, p) == 0
    ensures AttemptsCounted(AfterRetry(l, broker, p), p)
  {
    var q := l.queue;
    var k, f := BatchSize(q), FateOf(q, broker);
    assert q == q[..k] + q[k..];
    FateMembers(q[..k], broker, 0);
    ProcessConserves(q[..k], broker, 0, p);
    CountAppend(q[..k], q[k..], p);
    RetrySpends(q, broker);
    if Count(f.published, p) > 0 {
      var e := MemberOfCount(f.published, p);
      assert e in q;
    } else if Count(f.failed, p) > 0 {
      var e := MemberOfCount(f.failed, p);
      assert Before(e) in q;
    }
    forall e | e in Retried(q, broker) && e.payload == p
      ensures AfterRetry(l, broker, p).attempts <= e.attempt + 1
    {
      RetriedMember(l, broker, p, e);
    }
  }

  lemma PublishCounts(l: Ledger, c: Call, p: Payload)
    requires Balanced(l, p) && AttemptsCounted(l, p) && (c.payload == p ==> l.handed == 0)
    ensures AttemptsCounted(Publish(l, c, p), p)
  {
    EnqueueConserves(l.queue, c.payload, p);
    forall e | e in l.queue && e.payload == p ensures l.handed == 1 {
      CountMember(l.queue, e);
    }
    var one := if c.payload == p then 1 else 0;
    var direct := l.(handed := l.handed + one, attempts := l.attempts + one, delivered := l.delivered + one);
    RetryCounts(direct, c.broker, p);
    hide Enqueued, Evicted, Count, AfterRetry;
  }

  lemma {:induction false} RunKeepsLedger(l: Ledger, cs: seq<Call>, p: Payload)
    requires Balanced(l, p) && AttemptsCounted(l, p) && HandedOnce(l, cs, p)
    ensures Balanced(PublishAll(l, cs, p), p) && AttemptsCounted(PublishAll(l, cs, p), p)
    decreases |cs|
  {
    if cs == [] {
    } else {
      PublishKeepsBalance(l, cs[0], p);
      PublishCounts(l, cs[0], p);
      RunKeepsLedger(Publish(l, cs[0], p), cs[1..], p);
    }
  }

  /**
   After any run, every alert handed to the publisher is in exactly one place: delivered, dropped,
   evicted, lost to a raising direct publish, or still queued. It reached the broker at most six times.
   */
  lemma EveryAlertAccounted(cs: seq<Call>, p: Payload)
    requires HandedOnce(NoAlerts(), cs, p)
    ensures var l := PublishAll(NoAlerts(), cs, p);
            && l.attempts <= 6
            && Count(l.queue, p) + l.delivered + l.dropped + l.evicted + l.lost == l.handed <= 1
  {
    RunKeepsLedger(NoAlerts(), cs, p);
  }
}
