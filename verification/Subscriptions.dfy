/**
 Subscription and readiness state of the ingestion client, shared by paho's network thread (whose
 callbacks run one at a time) and the worker thread, which re-subscribes topic by topic. A SUBACK
 can arrive between the worker's subscribe() and its registration of the message id.
 */
module Subscriptions {
  import opened Common

  datatype Topic = Reading | Status | Alerts

  const TOPICS: seq<Topic> := [Reading, Status, Alerts]
  const REQUIRED: set<Topic> := {Reading, Status}

  /** Return code of a SUBACK for a refused subscription (section 3.9.3 of MQTT Version 3.1.1). */
  const SUBACK_FAILURE: nat := 0x80

  /** Milliseconds between two re-subscribe passes. */
  const RETRY_INTERVAL: int := 5000

  type Mid = nat

  /** The client's fields. */
  datatype Client = Client(pending: map<Mid, Topic>, granted: set<Topic>, ready: bool, failed: bool, nextRetry: int)

  /** Where the worker is inside a re-subscribe pass. */
  datatype Worker =
    | Idle
    | Checking(topics: seq<Topic>)
    | Subscribing(topic: Topic, topics: seq<Topic>)
    | Registering(mid: Mid, topic: Topic, topics: seq<Topic>)

  /** The client and its environment: `inflight` are the ids whose SUBACK is still to come in this session. */
  datatype World = World(client: Client, connected: bool, inflight: set<Mid>, used: set<Mid>, worker: Worker)

  /** `Some(mid)`: subscribe() returned MQTT_ERR_SUCCESS. */
  type Answer = Option<Mid>

  datatype Event =
    | Connect(rc: int, answers: seq<Answer>)
    | Suback(mid: Mid, qos: Option<nat>)
    | Disconnect
    | Tick(now: int)
    | Check
    | Subscribe(answer: Answer)
    | Register

  // ----- the callbacks on values -----

  /** The ids registered for the topics whose subscribe() succeeded. */
  function Registered(pending: map<Mid, Topic>, topics: seq<Topic>, answers: seq<Answer>): map<Mid, Topic>
    requires |topics| == |answers|
    decreases |topics|
  {
    if topics == [] then pending
    else Registered(if answers[0].Some? then pending[answers[0].value := topics[0]] else pending,
                    topics[1..], answers[1..])
  }

  function Mids(answers: seq<Answer>): set<Mid> { set a | a in answers && a.Some? :: a.value }

  predicate AnyFailed(answers: seq<Answer>) { exists a :: a in answers && a.None? }

  function OnConnect(c: Client, rc: int, answers: seq<Answer>): Client
    requires |answers| == |TOPICS|
  {
    if rc != 0 then c
    else c.(pending := Registered(c.pending, TOPICS, answers), failed := AnyFailed(answers))
  }

  predicate Denied(qos: Option<nat>) { qos.None? || qos.value >= SUBACK_FAILURE }

  function AllTopics(): set<Topic> { {Reading, Status, Alerts} }

  function OnSubscribe(c: Client, mid: Mid, qos: Option<nat>): Client {
    if mid !in c.pending then c
    else
      var topic, c := c.pending[mid], c.(pending := c.pending - {mid});
      if Denied(qos) then c.(failed := true)
      else
        var c := c.(granted := c.granted + {topic});
        c.(failed := c.failed && !(AllTopics() <= c.granted), ready := c.ready || REQUIRED <= c.granted)
  }

  function OnDisconnect(c: Client): Client {
    c.(ready := false, granted := {}, pending := map[], failed := false)
  }

  // ----- the interleaved system -----

  predicate Enabled(w: World, e: Event) {
    match e
    case Connect(rc, answers) =>
      && !w.connected && |answers| == |TOPICS| && Mids(answers) !! w.used
      && forall i, j :: 0 <= i < j < |answers| && answers[i].Some? ==> answers[i] != answers[j]
    case Suback(mid, qos) => w.connected && mid in w.inflight
    case Disconnect => w.connected
    case Tick(now) => w.worker.Idle?
    case Check => w.worker.Checking?
    case Subscribe(answer) =>
      && w.worker.Subscribing? && (answer.Some? ==> w.connected && answer.value !in w.used)
    case Register => w.worker.Registering?
  }

  function Step(w: World, e: Event): World
    requires Enabled(w, e)
  {
    match e
    case Connect(rc, answers) =>
      if rc != 0 then w
      else w.(client := OnConnect(w.client, rc, answers), connected := true,
              inflight := Mids(answers), used := w.used + Mids(answers))
    case Suback(mid, qos) =>
      w.(client := OnSubscribe(w.client, mid, qos), inflight := w.inflight - {mid})
    case Disconnect => w.(client := OnDisconnect(w.client), connected := false, inflight := {})
    case Tick(now) =>
      if !w.client.failed || now < w.client.nextRetry then w
      else w.(client := w.client.(nextRetry := now + RETRY_INTERVAL),
              worker := if w.connected then Checking(TOPICS) else Idle)
    case Check =>
      var topics := w.worker.topics;
      w.(worker := if topics == [] then Idle
                   else if topics[0] in w.client.granted then Checking(topics[1..])
                   else Subscribing(topics[0], topics[1..]))
    case Subscribe(answer) =>
      if answer.None? then w.(worker := Checking(w.worker.topics))
      else w.(worker := Registering(answer.value, w.worker.topic, w.worker.topics),
              inflight := w.inflight + {answer.value}, used := w.used + {answer.value})
    case Register =>
      w.(client := w.client.(pending := w.client.pending[w.worker.mid := w.worker.topic]),
         worker := Checking(w.worker.topics))
  }

  predicate Feasible(w: World, es: seq<Event>)
    decreases |es|
  {
    es != [] ==> Enabled(w, es[0]) && Feasible(Step(w, es[0]), es[1..])
  }

  function Run(w: World, es: seq<Event>): World
    requires Feasible(w, es)
    decreases |es|
  {
    if es == [] then w else Run(Step(w, es[0]), es[1..])
  }

  // ----- never silently deaf -----

  /** A registered id for the topic whose SUBACK is still to come. */
  predicate Awaiting(w: World, t: Topic) {
    exists mid :: mid in w.client.pending && w.client.pending[mid] == t && mid in w.inflight
  }

  /** The topic is subscribed, or an answer is on its way, or the worker knows it has to retry. */
  predicate Heard(w: World, t: Topic) {
    t in w.client.granted || Awaiting(w, t) || w.client.failed
  }

  ghost predicate Inv(w: World) {
    && (w.connected ==> forall t: Topic :: Heard(w, t))
    && (w.client.ready <==> REQUIRED <= w.client.granted)
    && w.client.pending.Keys <= w.used && w.inflight <= w.used
    && (w.worker.Registering? ==> w.worker.mid in w.used && w.worker.mid !in w.client.pending)
  }

  function Start(): World {
    World(Client(map[], {}, false, false, 0), false, {}, {}, Idle)
  }

  lemma RegisteredKeys(pending: map<Mid, Topic>, topics: seq<Topic>, answers: seq<Answer>, used: set<Mid>)
    requires |topics| == |answers| && pending.Keys <= used && Mids(answers) <= used
    ensures Registered(pending, topics, answers).Keys <= used
    decreases |topics|
  {
    if topics != [] {
      assert answers[0] in answers && forall a :: a in answers[1..] ==> a in answers;
      RegisteredKeys(if answers[0].Some? then pending[answers[0].value := topics[0]] else pending,
                     topics[1..], answers[1..], used);
    }
  }

  /** The three subscribes of a connect, unrolled. */
  lemma RegisteredOnConnect(c: Client, answers: seq<Answer>, i: nat)
    requires |answers| == |TOPICS| && i < |TOPICS| && answers[i].Some?
    requires forall i, j :: 0 <= i < j < |answers| && answers[i].Some? ==> answers[i] != answers[j]
    ensures var p := OnConnect(c, 0, answers).pending;
            answers[i].value in p && p[answers[i].value] == TOPICS[i]
  {
  }

  /** The ids of accepted subscribes are different. */
  predicate DistinctIds(answers: seq<Answer>) {
    forall i, j :: 0 <= i < j < |answers| && answers[i].Some? ==> answers[i] != answers[j]
  }

  /** `after` is `before` with the id of every accepted and wanted topic, and nothing else. */
  ghost predicate RegistersJust(
    before: map<Mid, Topic>, after: map<Mid, Topic>, answers: seq<Answer>, unwanted: set<Topic>)
    requires |answers| == 3
  {
    && (forall i :: 0 <= i < 3 && answers[i].Some? && TOPICS[i] !in unwanted ==>
          answers[i].value in after && after[answers[i].value] == TOPICS[i])
    && (forall mid: Mid :: (forall i :: 0 <= i < 3 && TOPICS[i] !in unwanted ==> answers[i] != Some(mid)) ==>
          (mid in after <==> mid in before) && (mid in after ==> after[mid] == before[mid]))
  }

  lemma ConnectRegisters(c: Client, answers: seq<Answer>)
    requires |answers| == |TOPICS| && DistinctIds(answers)
    ensures RegistersJust(c.pending, OnConnect(c, 0, answers).pending, answers, {})
  {
  }

  lemma PassRegisters(c: Client, answers: seq<Answer>)
    requires |answers| == |TOPICS| && DistinctIds(answers)
    ensures RegistersJust(c.pending, RegisteredMissing(c, TOPICS, answers).pending, answers, c.granted)
  {
    var missing := Missing(c.granted, TOPICS, answers);
    MissingAlone(c, TOPICS, answers);
    ConnectRegisters(c, missing);
    hide Registered, RegisteredMissing, Missing;
    JustMissing(c.pending, RegisteredMissing(c, TOPICS, answers).pending, answers, c.granted, missing);
  }

  lemma JustMissing(
    before: map<Mid, Topic>, after: map<Mid, Topic>, answers: seq<Answer>, granted: set<Topic>, missing: seq<Answer>)
    requires |answers| == |missing| == 3 && RegistersJust(before, after, missing, {})
    requires forall i :: 0 <= i < 3 ==> missing[i] == if TOPICS[i] in granted then None else answers[i]
    ensures RegistersJust(before, after, answers, granted)
  {
  }

  /** The answers that count in a pass. */
  function Missing(granted: set<Topic>, topics: seq<Topic>, answers: seq<Answer>): (missing: seq<Answer>)
    requires |topics| == |answers|
    ensures |missing| == |topics|
    ensures forall i :: 0 <= i < |topics| ==> missing[i] == if topics[i] in granted then None else answers[i]
  {
    if topics == [] then []
    else [if topics[0] in granted then None else answers[0]] + Missing(granted, topics[1..], answers[1..])
  }

  /** A pass registers as a connect would if only the missing topics were accepted. */
  lemma {:induction false} MissingAlone(c: Client, topics: seq<Topic>, answers: seq<Answer>)
    requires |topics| == |answers|
    ensures RegisteredMissing(c, topics, answers).pending
         == Registered(c.pending, topics, Missing(c.granted, topics, answers))
    decreases |topics|
  {
    if topics == [] {
    } else {
      var rest := Missing(c.granted, topics[1..], answers[1..]);
      assert Missing(c.granted, topics, answers)[1..] == rest;
      var d := if topics[0] in c.granted || answers[0].None? then c
               else c.(pending := c.pending[answers[0].value := topics[0]]);
      MissingAlone(d, topics[1..], answers[1..]);
    }
  }

  lemma ConnectKeepsInv(w: World, e: Event)
    requires Inv(w) && Enabled(w, e) && e.Connect? && e.rc == 0
    ensures Inv(Step(w, e))
  {
    var w' := Step(w, e);
    RegisteredKeys(w.client.pending, TOPICS, e.answers, w'.used);
    if w.worker.Registering? { RegisteredStays(w, e); }
    forall t: Topic ensures Heard(w', t) {
      var i := match t case Reading => 0 case Status => 1 case Alerts => 2;
      assert TOPICS[i] == t && e.answers[i] in e.answers;
      if e.answers[i].Some? {
        RegisteredOnConnect(w.client, e.answers, i);
        assert e.answers[i].value in w'.inflight;
      }
    }
  }

  /** A connect does not register the id the worker is about to register. */
  lemma RegisteredStays(w: World, e: Event)
    requires Inv(w) && Enabled(w, e) && e.Connect? && e.rc == 0 && w.worker.Registering?
    ensures w.worker.mid !in Step(w, e).client.pending
  {
  }

  lemma SubackKeepsInv(w: World, e: Event)
    requires Inv(w) && Enabled(w, e) && e.Suback?
    ensures Inv(Step(w, e))
  {
    var w' := Step(w, e);
    forall t: Topic ensures Heard(w', t) {
      assert Heard(w, t);
      if Awaiting(w, t) {
        var mid :| mid in w.client.pending && w.client.pending[mid] == t && mid in w.inflight;
        if mid != e.mid { assert mid in w'.client.pending && w'.client.pending[mid] == t && mid in w'.inflight; }
      }
    }
  }

  lemma WorkerKeepsInv(w: World, e: Event)
    requires Inv(w) && Enabled(w, e) && !e.Connect? && !e.Suback?
    ensures Inv(Step(w, e))
  {
    var w' := Step(w, e);
    if w'.connected {
      forall t: Topic ensures Heard(w', t) {
        assert Heard(w, t);
        if Awaiting(w, t) {
          var mid :| mid in w.client.pending && w.client.pending[mid] == t && mid in w.inflight;
          assert mid in w'.client.pending && w'.client.pending[mid] == t && mid in w'.inflight;
        }
      }
    }
  }

  lemma StepKeepsInv(w: World, e: Event)
    requires Inv(w) && Enabled(w, e)
    ensures Inv(Step(w, e))
  {
    if e.Connect? {
      if e.rc == 0 { ConnectKeepsInv(w, e); }
    } else if e.Suback? {
      SubackKeepsInv(w, e);
    } else {
      WorkerKeepsInv(w, e);
    }
  }

  lemma {:induction false} RunKeepsInv(w: World, es: seq<Event>)
    requires Inv(w) && Feasible(w, es)
    ensures Inv(Run(w, es))
    decreases |es|
  {
    if es == [] {
    } else {
      StepKeepsInv(w, es[0]);
      RunKeepsInv(Step(w, es[0]), es[1..]);
    }
  }

  /**
   In every interleaving of the two threads with the broker: a connected client that is missing a
   topic has an answer coming or will retry, and it is ready exactly when both required topics
   are granted.
   */
  lemma NeverSilentlyDeaf(es: seq<Event>, t: Topic)
    requires Feasible(Start(), es)
    ensures var w := Run(Start(), es);
            && (w.connected ==> t in w.client.granted || Awaiting(w, t) || w.client.failed)
            && (w.client.ready <==> REQUIRED <= w.client.granted)
            && (!w.connected ==> !w.client.ready)
  {
    RunKeepsInv(Start(), es);
    DisconnectedMeansReset(Start(), es);
    assert Run(Start(), es).connected ==> Heard(Run(Start(), es), t);
  }

  lemma {:induction false} DisconnectedMeansReset(w: World, es: seq<Event>)
    requires Feasible(w, es) && (!w.connected ==> w.client.granted == {})
    ensures !Run(w, es).connected ==> Run(w, es).client.granted == {}
    decreases |es|
  {
    if es == [] {
    } else {
      DisconnectedMeansReset(Step(w, es[0]), es[1..]);
    }
  }

  /** The event is a grant by the broker for this topic: a code below 128 for an id pending for it. */
  predicate Grants(w: World, e: Event, t: Topic) {
    && e.Suback? && e.qos.Some? && e.qos.value < 128
    && e.mid in w.client.pending && w.client.pending[e.mid] == t
  }

  lemma {:induction false} RunLast(w: World, es: seq<Event>, e: Event)
    requires Feasible(w, es + [e])
    ensures Feasible(w, es) && Enabled(Run(w, es), e) && Run(w, es + [e]) == Step(Run(w, es), e)
    decreases |es|
  {
    if es == [] {
      assert ([] + [e])[1..] == [];
      assert [] + [e] == [e];
      assert Run(w, [e]) == Run(Step(w, e), []);
    } else {
      assert (es + [e])[1..] == es[1..] + [e];
      RunLast(Step(w, es[0]), es[1..], e);
    }
  }

  /** The run up to an event granted the topic, and no disconnect has followed. */
  ghost predicate GrantedSince(es: seq<Event>, i: nat, t: Topic)
    requires i < |es|
  {
    && Feasible(Start(), es[..i]) && Grants(Run(Start(), es[..i]), es[i], t)
    && forall j :: i < j < |es| ==> !es[j].Disconnect?
  }

  /**
   A topic counts as granted exactly if, since the last disconnect, the broker answered an id pending
   for it with a grant: a refusal is never taken for one, and no grant is forgotten.
   */
  lemma {:induction false} GrantedByBroker(es: seq<Event>, t: Topic)
    requires Feasible(Start(), es)
    ensures t in Run(Start(), es).client.granted <==> exists i :: 0 <= i < |es| && GrantedSince(es, i, t)
    decreases |es|
  {
    if es == [] {
    } else {
      var front, e := es[..|es| - 1], es[|es| - 1];
      assert es == front + [e];
      RunLast(Start(), front, e);
      GrantedByBroker(front, t);
      var w := Run(Start(), front);
      StepGrants(w, e, t);
      hide Step, Run, Feasible, Enabled, Grants;
      forall i | 0 <= i < |front| ensures GrantedSince(es, i, t) <==> GrantedSince(front, i, t) && !e.Disconnect? {
        assert es[..i] == front[..i];
      }
      if t in w.client.granted {
        var i :| 0 <= i < |front| && GrantedSince(front, i, t);
        assert GrantedSince(es, i, t) <==> !e.Disconnect?;
      }
      assert GrantedSince(es, |es| - 1, t) <==> Grants(w, e, t);
    }
  }

  lemma StepGrants(w: World, e: Event, t: Topic)
    requires Enabled(w, e)
    ensures t in Step(w, e).client.granted <==> !e.Disconnect? && (t in w.client.granted || Grants(w, e, t))
    ensures Grants(w, e, t) ==> !e.Disconnect?
  {
  }

  // ----- and it recovers -----

  /** The session lasts, subscribe() succeeds, the SUBACK is a grant. */
  predicate Favourable(e: Event) {
    match e
    case Connect(_, _) => false
    case Disconnect => false
    case Subscribe(answer) => answer.Some?
    case Suback(_, qos) => !Denied(qos)
    case _ => true
  }

  /** All is favourable, and every SUBACK finds its id registered. */
  predicate Undisturbed(w: World, es: seq<Event>)
    requires Feasible(w, es)
    decreases |es|
  {
    es != [] ==>
      && Favourable(es[0]) && (es[0].Suback? ==> es[0].mid in w.client.pending)
      && Undisturbed(Step(w, es[0]), es[1..])
  }

  /** All is favourable, and no further pass starts. */
  predicate OnePass(w: World, es: seq<Event>)
    requires Feasible(w, es)
    decreases |es|
  {
    es != [] ==>
      && Favourable(es[0]) && (es[0].Tick? ==> Step(w, es[0]).worker.Idle?)
      && OnePass(Step(w, es[0]), es[1..])
  }

  /** The worker's pass has still to come to this topic, or is just subscribing to it. */
  predicate ToDo(w: World, t: Topic) {
    match w.worker
    case Idle => false
    case Checking(topics) => t in topics
    case Subscribing(topic, topics) => t == topic || t in topics
    case Registering(mid, topic, topics) => (t == topic && mid in w.inflight) || t in topics
  }

  predicate Pursued(w: World, t: Topic) { t in w.client.granted || Awaiting(w, t) || ToDo(w, t) }

  /** While the session lasts, how the answers still to come change. */
  lemma AwaitingNext(w: World, e: Event, t: Topic)
    requires Inv(w) && w.connected && Enabled(w, e) && Favourable(e)
    ensures Awaiting(w, t) ==> Awaiting(Step(w, e), t) || t in Step(w, e).client.granted
    ensures !Awaiting(w, t) ==>
              (Awaiting(Step(w, e), t) <==> e.Register? && t == w.worker.topic && w.worker.mid in w.inflight)
  {
    var w' := Step(w, e);
    if Awaiting(w, t) {
      var mid :| mid in w.client.pending && w.client.pending[mid] == t && mid in w.inflight;
      if e.Suback? && e.mid == mid {
        assert t in w'.client.granted;
      } else {
        assert mid in w'.client.pending && w'.client.pending[mid] == t && mid in w'.inflight;
      }
    }
    if e.Register? && t == w.worker.topic && w.worker.mid in w.inflight {
      assert w'.client.pending[w.worker.mid] == t && w.worker.mid in w'.inflight;
    }
    if Awaiting(w', t) {
      var mid :| mid in w'.client.pending && w'.client.pending[mid] == t && mid in w'.inflight;
      assert mid in w.inflight && (Awaiting(w, t) || (e.Register? && w.worker.mid == mid));
    }
  }

  lemma StepKeepsPursued(w: World, e: Event, t: Topic)
    requires Inv(w) && w.connected && Enabled(w, e) && Favourable(e) && Pursued(w, t)
    requires e.Suback? ==> e.mid in w.client.pending
    ensures Pursued(Step(w, e), t)
  {
    AwaitingNext(w, e, t);
    hide Awaiting;
  }

  lemma {:induction false} RunKeepsPursued(w: World, es: seq<Event>, t: Topic)
    requires Inv(w) && w.connected && Feasible(w, es) && Undisturbed(w, es) && Pursued(w, t)
    ensures Run(w, es).connected && Pursued(Run(w, es), t)
    decreases |es|
  {
    if es == [] {
    } else {
      StepKeepsInv(w, es[0]);
      StepKeepsPursued(w, es[0], t);
      RunKeepsPursued(Step(w, es[0]), es[1..], t);
    }
  }

  /** The flag is only ever lowered then, at the latest by the grant that completes the topics. */
  lemma {:induction false} FlagFalls(w: World, es: seq<Event>)
    requires Feasible(w, es) && (Undisturbed(w, es) || OnePass(w, es))
    requires AllTopics() <= w.client.granted ==> !w.client.failed
    ensures AllTopics() <= Run(w, es).client.granted ==> !Run(w, es).client.failed
    decreases |es|
  {
    if es == [] {
    } else {
      FlagFalls(Step(w, es[0]), es[1..]);
    }
  }

  lemma EveryTopicListed(t: Topic)
    ensures t in TOPICS
  {
    assert TOPICS[match t case Reading => 0 case Status => 1 case Alerts => 2] == t;
  }

  /**
   From every reachable connected state whose flag is up and whose retry is due, every undisturbed
   schedule that finishes the pass and answers everything in flight ends with all topics granted
   and the client ready; and with the flag down, unless it was up with nothing missing.
   */
  lemma RetryRecovers(w: World, now: int, es: seq<Event>)
    requires Inv(w) && w.connected && w.client.failed && w.client.nextRetry <= now
    requires Feasible(w, [Tick(now)] + es) && Undisturbed(w, [Tick(now)] + es)
    requires var v := Run(w, [Tick(now)] + es); v.worker.Idle? && v.inflight == {}
    ensures var v := Run(w, [Tick(now)] + es);
            && v.client.ready && v.client.granted == AllTopics()
            && (!(AllTopics() <= w.client.granted) ==> !v.client.failed)
  {
    var w', all := Step(w, Tick(now)), [Tick(now)] + es;
    assert all[1..] == es;
    StepKeepsInv(w, Tick(now));
    RunKeepsInv(w', es);
    var v := Run(w', es);
    forall t: Topic ensures t in v.client.granted {
      EveryTopicListed(t);
      RunKeepsPursued(w', es, t);
    }
    if !(AllTopics() <= w.client.granted) { FlagFalls(w', es); }
    forall t: Topic ensures t in AllTopics() {
      match t case Reading => case Status => case Alerts =>
    }
  }

  /** Whenever nothing is in flight, a connected client that misses a topic has its flag up for the next pass. */
  lemma MissingMeansFlagged(es: seq<Event>, t: Topic)
    requires Feasible(Start(), es)
    ensures var w := Run(Start(), es);
            w.connected && w.inflight == {} && t !in w.client.granted ==> w.client.failed
  {
    NeverSilentlyDeaf(es, t);
  }

  // ----- one pass, topic by topic -----

  /** The worker has subscribed to `t` and is about to register the id, when its SUBACK arrives. */
  predicate Overtakes(w: World, e: Event, t: Topic) {
    e.Suback? && w.worker.Registering? && w.worker.mid == e.mid && w.worker.topic == t
  }

  predicate Overtaken(w: World, es: seq<Event>, t: Topic)
    requires Feasible(w, es)
    decreases |es|
  {
    es != [] && (Overtakes(w, es[0], t) || Overtaken(Step(w, es[0]), es[1..], t))
  }

  /** The topics the pass has still to deal with, the current one first. */
  function Ahead(w: World): seq<Topic> {
    match w.worker
    case Idle => []
    case Checking(topics) => topics
    case Subscribing(topic, topics) => [topic] + topics
    case Registering(_, topic, topics) => [topic] + topics
  }

  predicate Distinct(topics: seq<Topic>) { forall i, j :: 0 <= i < j < |topics| ==> topics[i] != topics[j] }

  /** A topic the pass has still to deal with is awaited nowhere, and not granted while it is the current one. */
  predicate AskedOnce(w: World, t: Topic) {
    && Distinct(Ahead(w)) && (t in Ahead(w) ==> !Awaiting(w, t))
    && (!w.worker.Checking? && Ahead(w) != [] && Ahead(w)[0] == t ==> t !in w.client.granted)
  }

  lemma AheadShrinks(w: World, e: Event)
    requires Enabled(w, e) && (e.Tick? ==> Step(w, e).worker.Idle?)
    ensures Ahead(Step(w, e)) == Ahead(w)
         || (Ahead(w) != [] && Ahead(Step(w, e)) == Ahead(w)[1..] && Step(w, e).worker.Checking?)
  {
    if e.Check? && w.worker.topics != [] { assert [w.worker.topics[0]] + w.worker.topics[1..] == w.worker.topics; }
  }

  lemma StepKeepsAskedOnce(w: World, e: Event, t: Topic)
    requires Inv(w) && w.connected && AskedOnce(w, t)
    requires Enabled(w, e) && Favourable(e) && (e.Tick? ==> Step(w, e).worker.Idle?)
    ensures Step(w, e).connected && AskedOnce(Step(w, e), t)
  {
    AwaitingNext(w, e, t);
    AheadShrinks(w, e);
    if Ahead(w) != [] { HeadOnly(Ahead(w)); }
    hide Awaiting, Distinct, Inv;
  }

  lemma HeadOnly(topics: seq<Topic>)
    requires Distinct(topics) && topics != []
    ensures topics[0] !in topics[1..] && Distinct(topics[1..])
    ensures forall t :: t in topics <==> t == topics[0] || t in topics[1..]
  {
  }

  /** Only its own SUBACK overtaking the registration gives a topic up, and then for good. */
  lemma StepDecides(w: World, e: Event, t: Topic)
    requires Inv(w) && w.connected && AskedOnce(w, t)
    requires Enabled(w, e) && Favourable(e) && (e.Tick? ==> Step(w, e).worker.Idle?)
    ensures Pursued(Step(w, e), t) <==> Pursued(w, t) && !Overtakes(w, e, t)
  {
    AwaitingNext(w, e, t);
    if Ahead(w) != [] { HeadOnly(Ahead(w)); }
    hide Awaiting, Distinct, Inv, Favourable;
    match e
    case Suback(mid, qos) =>
    case Check =>
    case Register =>
    case _ =>
  }

  lemma {:induction false} RunDecides(w: World, es: seq<Event>, t: Topic)
    requires Inv(w) && w.connected && AskedOnce(w, t) && Feasible(w, es) && OnePass(w, es)
    ensures Run(w, es).connected && (Pursued(Run(w, es), t) <==> Pursued(w, t) && !Overtaken(w, es, t))
    decreases |es|
  {
    if es == [] {
    } else {
      StepKeepsInv(w, es[0]);
      StepKeepsAskedOnce(w, es[0], t);
      StepDecides(w, es[0], t);
      RunDecides(Step(w, es[0]), es[1..], t);
    }
  }

  /** A topic awaited before the pass is granted whatever the pass does. */
  lemma {:induction false} AnswerComes(w: World, es: seq<Event>, t: Topic)
    requires Inv(w) && w.connected && Feasible(w, es) && OnePass(w, es)
    requires t in w.client.granted || Awaiting(w, t)
    ensures Run(w, es).connected && (t in Run(w, es).client.granted || Awaiting(Run(w, es), t))
    decreases |es|
  {
    if es == [] {
    } else {
      StepKeepsInv(w, es[0]);
      AwaitingNext(w, es[0], t);
      AnswerComes(Step(w, es[0]), es[1..], t);
    }
  }

  /** A pass from its start to its end, in the course of which everything in flight is answered. */
  predicate WholePass(w: World, es: seq<Event>) {
    && w.connected && w.worker == Checking(TOPICS)
    && Feasible(w, es) && OnePass(w, es) && Run(w, es).worker.Idle? && Run(w, es).inflight == {}
  }

  /** Such a pass ends with a topic granted exactly when it was awaited before or its SUBACK was not overtaken. */
  lemma GrantedUnlessOvertaken(w: World, es: seq<Event>, t: Topic)
    requires Inv(w) && WholePass(w, es)
    ensures t in Run(w, es).client.granted <==> Awaiting(w, t) || !Overtaken(w, es, t)
    ensures Run(w, es).connected
  {
    EveryTopicListed(t);
    if Awaiting(w, t) {
      AnswerComes(w, es, t);
    } else {
      RunDecides(w, es, t);
    }
  }

  /**
   Hence the client is ready exactly when neither required topic was lost, and the flag, up for a
   topic that was missing, stays up exactly when some topic was.
   */
  lemma PassOutcome(w: World, es: seq<Event>)
    requires Inv(w) && WholePass(w, es)
    ensures var v := Run(w, es);
            && (v.client.ready <==> forall t :: t in REQUIRED ==> Awaiting(w, t) || !Overtaken(w, es, t))
            && (w.client.failed && !(AllTopics() <= w.client.granted) ==>
                  (v.client.failed <==> exists t :: !Awaiting(w, t) && Overtaken(w, es, t)))
  {
    var v := Run(w, es);
    RunKeepsInv(w, es);
    forall t: Topic
      ensures v.connected && (t in v.client.granted <==> Awaiting(w, t) || !Overtaken(w, es, t)) && Heard(v, t)
    {
      GrantedUnlessOvertaken(w, es, t);
    }
    if AllTopics() <= v.client.granted {
      if !(AllTopics() <= w.client.granted) { FlagFalls(w, es); }
    }
  }

  /** A connect whose first subscribe() fails, and a pass whose one SUBACK overtakes the registration of its id. */
  const PARTIAL_CONNECT: seq<Event> :=
    [Connect(0, [None, Some(1), Some(2)]), Suback(1, Some(1)), Suback(2, Some(1)), Tick(0)]
  const OVERTAKEN_PASS: seq<Event> :=
    [Check, Subscribe(Some(3)), Suback(3, Some(1)), Register, Check, Check, Check]

  /** Its grant is lost: the pass ends with the topic missing, and the flag stays up. */
  lemma OvertakenGrantIsLost()
    ensures Feasible(Start(), PARTIAL_CONNECT + OVERTAKEN_PASS)
    ensures var v := Run(Start(), PARTIAL_CONNECT + OVERTAKEN_PASS);
            && v.connected && v.worker.Idle? && v.inflight == {}
            && v.client.granted == {Status, Alerts} && !v.client.ready && v.client.failed
  {
    var w := AfterPartialConnect();
    var es := OVERTAKEN_PASS;
    hide Step, Enabled, Feasible, Run, Overtaken, OnePass;
    RunKeepsInv(Start(), PARTIAL_CONNECT);
    OvertakenPass(w, Reading);
    RunAppend(Start(), PARTIAL_CONNECT, es);
    GrantedUnlessOvertaken(w, es, Reading);
    forall t: Topic ensures t in Run(w, es).client.granted <==> t in {Status, Alerts} {
      OvertakenPass(w, t);
      GrantedUnlessOvertaken(w, es, t);
    }
    PassOutcome(w, es);
  }

  lemma AfterConnect(answers: seq<Answer>)
    requires answers == [None, Some(1), Some(2)]
    ensures Enabled(Start(), Connect(0, answers))
    ensures Step(Start(), Connect(0, answers))
         == World(Client(map[1 := Status, 2 := Alerts], {}, false, true, 0), true, {1, 2}, {1, 2}, Idle)
  {
    assert answers[0] in answers && answers[1] in answers && answers[2] in answers;
    assert Mids(answers) == {1, 2};
    assert AnyFailed(answers);
    assert answers[1..] == [Some(1), Some(2)] && [Some(1), Some(2)][1..] == [Some(2)];
    assert TOPICS[1..] == [Status, Alerts] && [Status, Alerts][1..] == [Alerts];
    assert Registered(map[], TOPICS, answers) == map[1 := Status, 2 := Alerts];
  }

  lemma AfterPartialConnect() returns (w: World)
    ensures Feasible(Start(), PARTIAL_CONNECT) && w == Run(Start(), PARTIAL_CONNECT)
    ensures w == World(Client(map[], {Status, Alerts}, false, true, RETRY_INTERVAL), true, {}, {1, 2}, Checking(TOPICS))
  {
    AfterConnect([None, Some(1), Some(2)]);
    var es := PARTIAL_CONNECT;
    var w1 := World(Client(map[1 := Status, 2 := Alerts], {}, false, true, 0), true, {1, 2}, {1, 2}, Idle);
    assert Step(Start(), es[0]) == w1;
    hide OnConnect, Registered, Mids, AnyFailed;
    var w2 := Step(w1, es[1]);
    assert w2 == World(Client(map[2 := Alerts], {Status}, false, true, 0), true, {2}, {1, 2}, Idle);
    var w3 := Step(w2, es[2]);
    assert w3.client.granted == {Status, Alerts};
    w := Step(w3, es[3]);
    assert es[3..][1..] == [] && es[2..][1..] == es[3..] && es[1..][1..] == es[2..];
    assert Feasible(w, []) && Run(w, []) == w;
    assert Feasible(w3, es[3..]) && Run(w3, es[3..]) == w;
    assert Feasible(w2, es[2..]) && Run(w2, es[2..]) == w;
    assert Feasible(w1, es[1..]) && Run(w1, es[1..]) == w;
  }

  lemma OvertakenPass(w: World, t: Topic)
    requires w.connected && w.inflight == {} && w.used == {1, 2} && w.worker == Checking(TOPICS)
    requires w.client.granted == {Status, Alerts} && w.client.pending == map[]
    ensures WholePass(w, OVERTAKEN_PASS) && (Overtaken(w, OVERTAKEN_PASS, t) <==> t == Reading)
  {
    var es, rest := OVERTAKEN_PASS, [Status, Alerts];
    assert TOPICS[1..] == rest;
    var w1 := w.(worker := Subscribing(Reading, rest));
    var w2 := w.(worker := Registering(3, Reading, rest), inflight := {3}, used := {1, 2, 3});
    assert Leads(w, es[0], w1) && Leads(w1, es[1], w2);
    RegisteredTooLate(w2, t);
    hide Leads, Feasible, Run, OnePass, Overtaken;
    RunNext(w1, es, 1, w2, t);
    RunNext(w, es, 0, w1, t);
    assert es[0..] == es;
  }

  lemma RegisteredTooLate(w: World, t: Topic)
    requires w.connected && w.inflight == {3} && w.worker == Registering(3, Reading, [Status, Alerts])
    requires w.client.granted == {Status, Alerts} && w.client.pending == map[]
    ensures var es := OVERTAKEN_PASS[2..];
            && Feasible(w, es) && OnePass(w, es) && Run(w, es).worker.Idle? && Run(w, es).inflight == {}
            && (Overtaken(w, es, t) <==> t == Reading)
  {
    var es := OVERTAKEN_PASS;
    var w1 := w.(inflight := {});
    var w2 := w1.(client := w.client.(pending := map[3 := Reading]), worker := Checking([Status, Alerts]));
    assert Leads(w, es[2], w1) && Leads(w1, es[3], w2);
    assert es[4..] == [Check, Check, Check];
    GrantedAreSkipped(w2, t);
    hide Leads, Feasible, Run, OnePass, Overtaken;
    RunNext(w1, es, 3, w2, t);
    RunNext(w, es, 2, w1, t);
  }

  lemma GrantedAreSkipped(w: World, t: Topic)
    requires w.worker == Checking([Status, Alerts]) && w.client.granted == {Status, Alerts}
    ensures var es := [Check, Check, Check];
            Feasible(w, es) && OnePass(w, es) && Run(w, es) == w.(worker := Idle) && !Overtaken(w, es, t)
  {
    var es := [Check, Check, Check];
    assert [Status, Alerts][1..] == [Alerts] && [Alerts][1..] == [];
    var w1, w2, v := w.(worker := Checking([Alerts])), w.(worker := Checking([])), w.(worker := Idle);
    assert Leads(w, Check, w1) && Leads(w1, Check, w2) && Leads(w2, Check, v);
    assert Feasible(v, []) && OnePass(v, []) && Run(v, []) == v && !Overtaken(v, [], t);
    hide Leads, Feasible, Run, OnePass, Overtaken;
    RunNext(w2, es, 2, v, t);
    RunNext(w1, es, 1, w2, t);
    RunNext(w, es, 0, w1, t);
    assert es[0..] == es;
  }

  predicate Leads(w: World, e: Event, w': World) {
    Enabled(w, e) && Step(w, e) == w' && Favourable(e) && (e.Tick? ==> w'.worker.Idle?)
  }

  lemma RunNext(w: World, es: seq<Event>, i: nat, w': World, t: Topic)
    requires i < |es| && Leads(w, es[i], w') && Feasible(w', es[i + 1..]) && OnePass(w', es[i + 1..])
    ensures Feasible(w, es[i..]) && Run(w, es[i..]) == Run(w', es[i + 1..]) && OnePass(w, es[i..])
    ensures Overtaken(w, es[i..], t) <==> Overtakes(w, es[i], t) || Overtaken(w', es[i + 1..], t)
  {
    assert es[i..][1..] == es[i + 1..];
  }

  /** One topic of a re-subscribe pass, answered with a grant. */
  function GrantTopic(w: World, mid: Mid): (es: seq<Event>)
    requires w.worker.Checking? && w.worker.topics != []
  {
    if w.worker.topics[0] in w.client.granted then [Check]
    else [Check, Subscribe(Some(mid)), Register, Suback(mid, Some(1))]
  }

  lemma GrantTopicWorks(w: World, mid: Mid)
    requires Inv(w) && w.connected && w.worker.Checking? && w.worker.topics != [] && mid !in w.used
    ensures Feasible(w, GrantTopic(w, mid)) && Undisturbed(w, GrantTopic(w, mid))
    ensures var v := Run(w, GrantTopic(w, mid));
            && Inv(v) && v.connected && v.worker == Checking(w.worker.topics[1..])
            && v.client.granted == w.client.granted + {w.worker.topics[0]}
            && v.used <= w.used + {mid}
            && (w.worker.topics[0] in w.client.granted ==> v.client == w.client)
            && (AllTopics() <= v.client.granted && w.worker.topics[0] !in w.client.granted ==> !v.client.failed)
  {
    var t, es := w.worker.topics[0], GrantTopic(w, mid);
    if t !in w.client.granted {
      var w1 := Step(w, Check);
      var w2 := Step(w1, Subscribe(Some(mid)));
      var w3 := Step(w2, Register);
      var w4 := Step(w3, Suback(mid, Some(1)));
      assert es[1..] == [Subscribe(Some(mid)), Register, Suback(mid, Some(1))];
      assert es[1..][1..] == [Register, Suback(mid, Some(1))] && es[1..][1..][1..] == [Suback(mid, Some(1))];
      assert Feasible(w4, []) && Run(w4, []) == w4;
      assert es[1..][1..][1..][1..] == [];
      var es3, es2, es1 := es[1..][1..][1..], es[1..][1..], es[1..];
      assert Feasible(w3, es3) && Run(w3, es3) == w4 && Undisturbed(w3, es3);
      assert Feasible(w2, es2) && Run(w2, es2) == w4 && Undisturbed(w2, es2);
      assert Feasible(w1, es1) && Run(w1, es1) == w4 && Undisturbed(w1, es1);
      assert w4.client.granted == w.client.granted + {t};
    } else {
      assert es[1..] == [];
    }
    RunKeepsInv(w, es);
  }

  function SetOf(topics: seq<Topic>): set<Topic> { set t | t in topics }

  lemma {:induction false} RunAppend(w: World, es: seq<Event>, fs: seq<Event>)
    requires Feasible(w, es) && Feasible(Run(w, es), fs)
    ensures Feasible(w, es + fs) && Run(w, es + fs) == Run(Run(w, es), fs)
    ensures Undisturbed(w, es) && Undisturbed(Run(w, es), fs) ==> Undisturbed(w, es + fs)
    decreases |es|
  {
    if es == [] {
      assert es + fs == fs;
    } else {
      assert (es + fs)[1..] == es[1..] + fs;
      RunAppend(Step(w, es[0]), es[1..], fs);
    }
  }

  /** The rest of a pass, every topic of it answered with a grant. */
  lemma {:induction false} PassRecovers(w: World, mids: seq<Mid>) returns (es: seq<Event>)
    requires Inv(w) && w.connected && w.worker.Checking? && |mids| == |w.worker.topics|
    requires forall i :: 0 <= i < |mids| ==> mids[i] !in w.used
    requires forall i, j :: 0 <= i < j < |mids| ==> mids[i] != mids[j]
    ensures Feasible(w, es) && Undisturbed(w, es)
    ensures var v := Run(w, es);
            && Inv(v) && v.connected && v.worker == Idle
            && v.client.granted == w.client.granted + SetOf(w.worker.topics)
            && (if AllTopics() <= w.client.granted then v.client == w.client
                else AllTopics() <= v.client.granted ==> !v.client.failed)
    decreases |mids|
  {
    if w.worker.topics == [] {
      es := [Check];
      assert es[1..] == [] && SetOf(w.worker.topics) == {};
      RunKeepsInv(w, es);
    } else {
      var first := GrantTopic(w, mids[0]);
      GrantTopicWorks(w, mids[0]);
      var v := Run(w, first);
      var rest := PassRecovers(v, mids[1..]);
      RunAppend(w, first, rest);
      es := first + rest;
      var topics := w.worker.topics;
      assert forall t :: t in topics <==> t == topics[0] || t in topics[1..];
      var later := SetOf(topics[1..]);
      assert SetOf(topics) == {topics[0]} + later;
      assert (w.client.granted + {topics[0]}) + later == w.client.granted + ({topics[0]} + later);
    }
  }

  /**
   Such a schedule exists whenever a topic is missing and the worker is between two passes, where
   alone it ticks: the whole pass, each SUBACK right after its registration.
   */
  lemma RecoveryIsPossible(w: World, now: int, mids: seq<Mid>) returns (es: seq<Event>)
    requires Inv(w) && w.connected && w.worker.Idle? && w.client.failed && w.client.nextRetry <= now
    requires !(AllTopics() <= w.client.granted) && |mids| == |TOPICS|
    requires forall i :: 0 <= i < |mids| ==> mids[i] !in w.used
    requires forall i, j :: 0 <= i < j < |mids| ==> mids[i] != mids[j]
    ensures Feasible(w, [Tick(now)] + es) && Undisturbed(w, [Tick(now)] + es)
    ensures var v := Run(w, [Tick(now)] + es);
            v.client.ready && v.client.granted == AllTopics() && !v.client.failed && v.worker.Idle?
  {
    var w' := Step(w, Tick(now));
    assert forall t: Topic :: Heard(w, t) ==> Heard(w', t);
    assert Inv(w');
    es := PassRecovers(w', mids);
    assert ([Tick(now)] + es)[1..] == es;
    assert Reading == TOPICS[0] && Status == TOPICS[1] && Alerts == TOPICS[2];
    assert SetOf(TOPICS) == AllTopics();
    forall t: Topic ensures t in AllTopics() {
      match t case Reading => case Status => case Alerts =>
    }
  }

  // ----- a pass nobody interrupts -----

  /** The ids registered by a pass for the topics still missing. */
  function RegisteredMissing(c: Client, topics: seq<Topic>, answers: seq<Answer>): (d: Client)
    requires |topics| == |answers|
    decreases |topics|
  {
    if topics == [] then c
    else if topics[0] in c.granted || answers[0].None? then RegisteredMissing(c, topics[1..], answers[1..])
    else RegisteredMissing(c.(pending := c.pending[answers[0].value := topics[0]]), topics[1..], answers[1..])
  }

  /** `_maybe_retry_subscribes` run from start to end. */
  function RetryPass(c: Client, now: int, connected: bool, answers: seq<Answer>): Client
    requires |answers| == |TOPICS|
  {
    if !c.failed || now < c.nextRetry then c
    else var c := c.(nextRetry := now + RETRY_INTERVAL);
         if connected then RegisteredMissing(c, TOPICS, answers) else c
  }

  /** The worker's statements for one topic of a pass. */
  function TopicEvents(granted: set<Topic>, t: Topic, answer: Answer): seq<Event> {
    if t in granted then [Check]
    else if answer.None? then [Check, Subscribe(answer)]
    else [Check, Subscribe(answer), Register]
  }

  /** The worker's statements for these topics, in order. */
  function PassEvents(granted: set<Topic>, topics: seq<Topic>, answers: seq<Answer>): seq<Event>
    requires |topics| == |answers|
    decreases |topics|
  {
    if topics == [] then [Check]
    else TopicEvents(granted, topics[0], answers[0]) + PassEvents(granted, topics[1..], answers[1..])
  }

  lemma TopicPass(w: World, answer: Answer)
    requires w.connected && w.worker.Checking? && w.worker.topics != []
    requires answer.Some? ==> answer.value !in w.used
    ensures var t := w.worker.topics[0];
            var es := TopicEvents(w.client.granted, t, answer);
            && Feasible(w, es)
            && var v := Run(w, es);
               && v.connected && v.worker == Checking(w.worker.topics[1..]) && v.used <= w.used + Mids([answer])
               && v.client == if t in w.client.granted || answer.None? then w.client
                              else w.client.(pending := w.client.pending[answer.value := t])
  {
    var es, w1 := TopicEvents(w.client.granted, w.worker.topics[0], answer), Step(w, Check);
    assert answer in [answer];
    if w.worker.topics[0] in w.client.granted {
      assert es[1..] == [];
    } else {
      var w2 := Step(w1, Subscribe(answer));
      if answer.None? {
        assert es[1..] == [Subscribe(answer)] && es[1..][1..] == [];
        assert Run(w1, es[1..]) == Run(w2, []);
      } else {
        assert es[1..] == [Subscribe(answer), Register] && es[1..][1..] == [Register] && es[1..][1..][1..] == [];
        assert Run(w2, [Register]) == Run(Step(w2, Register), []);
        assert Run(w1, es[1..]) == Run(w2, [Register]);
      }
    }
  }

  /** With no callback in between, the worker's tick and statements are the whole method, throttle included. */
  lemma UninterruptedRetry(w: World, now: int, answers: seq<Answer>)
    requires w.connected && w.worker.Idle? && |answers| == |TOPICS| && Mids(answers) !! w.used
    requires forall i, j :: 0 <= i < j < |answers| && answers[i].Some? ==> answers[i] != answers[j]
    ensures var due := w.client.failed && w.client.nextRetry <= now;
            var es := [Tick(now)] + if due then PassEvents(w.client.granted, TOPICS, answers) else [];
            Feasible(w, es) && Run(w, es).client == RetryPass(w.client, now, true, answers)
  {
    hide PassEvents, RegisteredMissing, Mids;
    var due, w' := w.client.failed && w.client.nextRetry <= now, Step(w, Tick(now));
    if due {
      var rest := PassEvents(w.client.granted, TOPICS, answers);
      assert ([Tick(now)] + rest)[1..] == rest;
      UninterruptedPass(w', answers);
    } else {
      assert [Tick(now)] + [] == [Tick(now)] && [Tick(now)][1..] == [];
      assert w' == w && Run(w, [Tick(now)]) == Run(w, []);
    }
  }

  /** With no callback in between, the worker's statements add up to the whole pass. */
  lemma {:induction false} UninterruptedPass(w: World, answers: seq<Answer>)
    requires w.connected && w.worker.Checking? && |answers| == |w.worker.topics| && Mids(answers) !! w.used
    requires forall i, j :: 0 <= i < j < |answers| && answers[i].Some? ==> answers[i] != answers[j]
    ensures var es := PassEvents(w.client.granted, w.worker.topics, answers);
            && Feasible(w, es)
            && Run(w, es).client == RegisteredMissing(w.client, w.worker.topics, answers)
    decreases |answers|
  {
    var topics := w.worker.topics;
    if topics == [] {
      assert [Check][1..] == [];
      assert Run(w, [Check]) == Run(Step(w, Check), []);
    } else {
      assert answers[0] in answers && forall a :: a in answers[1..] ==> a in answers;
      TopicPass(w, answers[0]);
      var first := TopicEvents(w.client.granted, topics[0], answers[0]);
      var v := Run(w, first);
      assert Mids(answers[1..]) !! v.used by {
        forall m | m in Mids(answers[1..]) ensures m !in v.used {
          var j :| 0 <= j < |answers[1..]| && answers[1..][j] == Some(m);
          assert answers[j + 1] == Some(m);
        }
      }
      UninterruptedPass(v, answers[1..]);
      RunAppend(w, first, PassEvents(v.client.granted, topics[1..], answers[1..]));
    }
  }
}
