/**
 The rolling-window circuit breaker: per task, a Redis sorted set of recent failures with a TTL,
 pruned whenever it is read or written, against the plain log of all failures since the last reset.
 */
module CircuitBreaker {
  import opened Common

  const MAX_FAILED_ATTEMPTS: nat := 10

  /** Seconds. */
  const WINDOW: int := 300

  /** Milliseconds a key outlives its last failure. */
  const TTL: int := (WINDOW + 60) * 1000

  type Task = string
  type FailureId = nat

  /** Scores are unix seconds; a key from the old implementation has the wrong type and no TTL. */
  datatype Key = Window(members: map<FailureId, int>, expireAt: int) | Legacy

  type Keys = map<Task, Key>

  function Seconds(t: int): int { t / 1000 }

  /** The members Redis shows at `t` milliseconds; a legacy key is deleted when first touched. */
  function Members(keys: Keys, task: Task, t: int): map<FailureId, int> {
    if task in keys && keys[task].Window? && t < keys[task].expireAt then keys[task].members else map[]
  }

  /** ZREMRANGEBYSCORE key -inf cutoff */
  function Pruned(members: map<FailureId, int>, cutoff: int): map<FailureId, int> {
    map u | u in members && cutoff < members[u] :: members[u]
  }

  /** The script that records a failure. */
  function Recorded(keys: Keys, task: Task, t: int, u: FailureId): Keys {
    var now := Seconds(t);
    keys[task := Window(Pruned(Members(keys, task, t), now - WINDOW)[u := now], t + TTL)]
  }

  /** The live failures the checking script counts. */
  function Live(keys: Keys, task: Task, t: int): map<FailureId, int> {
    Pruned(Members(keys, task, t), Seconds(t) - WINDOW)
  }

  /** The script that checks: prunes, and deletes the key when nothing is left. */
  function Checked(keys: Keys, task: Task, t: int): Keys {
    var live := Live(keys, task, t);
    if live == map[] then keys - {task} else keys[task := keys[task].(members := live)]
  }

  predicate Allowed(keys: Keys, enabled: bool, task: Task, t: int, redis: bool) {
    !enabled || !redis || |Live(keys, task, t)| < MAX_FAILED_ATTEMPTS
  }

  // ----- the breaker next to a full log -----

  /** `log`: every failure recorded since its task was last reset, with its time in seconds. */
  datatype World = World(keys: Keys, enabled: bool, clock: int, log: map<Task, map<FailureId, int>>)

  datatype Event =
    | Record(t: int, task: Task, failure: FailureId, redis: bool)
    | Check(t: int, task: Task, redis: bool)
    | Reset(t: int, one: Option<Task>, redis: bool)
    | Toggle(t: int, on: bool)

  function Log(w: World, task: Task): map<FailureId, int> {
    if task in w.log then w.log[task] else map[]
  }

  function Step(w: World, e: Event): World {
    var v := w.(clock := e.t);
    match e
    case Record(t, task, u, redis) =>
      if !w.enabled || !redis then v
      else v.(keys := Recorded(w.keys, task, t, u), log := w.log[task := Log(w, task)[u := Seconds(t)]])
    case Check(t, task, redis) =>
      if !w.enabled || !redis then v else v.(keys := Checked(w.keys, task, t))
    case Reset(_, task, redis) =>
      if !redis then v
      else if task.None? then v.(keys := map[], log := map[])
      else v.(keys := w.keys - {task.value}, log := w.log - {task.value})
    case Toggle(_, on) => v.(enabled := on)
  }

  function Run(w: World, es: seq<Event>): World
    decreases |es|
  {
    if es == [] then w else Run(Step(w, es[0]), es[1..])
  }

  /** The clock never goes back, and every failure has its own identity. */
  predicate Feasible(w: World, es: seq<Event>)
    decreases |es|
  {
    es != [] ==>
      && w.clock <= es[0].t
      && (es[0].Record? ==> es[0].failure !in Log(w, es[0].task))
      && Feasible(Step(w, es[0]), es[1..])
  }

  function FailuresAfter(log: map<FailureId, int>, cutoff: int): (us: set<FailureId>)
    ensures forall u :: u in us <==> u in log && cutoff < log[u]
  {
    set u | u in log && cutoff < log[u]
  }

  /**
   The set misses no failure of the window and has none but logged ones; a key cannot expire
   before its failures have left the window.
   */
  ghost predicate Faithful(keys: Keys, log: map<FailureId, int>, task: Task, clock: int) {
    && (forall u :: u in log ==> log[u] <= Seconds(clock))
    && (forall u :: u in log && Seconds(clock) - WINDOW < log[u] ==> u in Members(keys, task, clock))
    && (task in keys && keys[task].Window? ==>
          forall u :: u in keys[task].members ==>
            u in log && log[u] == keys[task].members[u] && 1000 * log[u] + TTL <= keys[task].expireAt)
  }

  ghost predicate Inv(w: World) {
    forall task: Task :: Faithful(w.keys, Log(w, task), task, w.clock)
  }

  lemma TimePasses(keys: Keys, log: map<FailureId, int>, task: Task, clock: int, t: int)
    requires Faithful(keys, log, task, clock) && clock <= t
    ensures Faithful(keys, log, task, t)
  {
  }

  lemma SameKey(keys: Keys, keys': Keys, log: map<FailureId, int>, task: Task, t: int)
    requires Faithful(keys, log, task, t)
    ensures (task in keys <==> task in keys') && (task in keys ==> keys[task] == keys'[task]) ==>
              Faithful(keys', log, task, t)
    ensures task !in keys' ==> Faithful(keys', map[], task, t)
  {
  }

  lemma RecordedIsFaithful(keys: Keys, log: map<FailureId, int>, task: Task, t: int, u: FailureId)
    requires Faithful(keys, log, task, t) && u !in log
    ensures Faithful(Recorded(keys, task, t, u), log[u := Seconds(t)], task, t)
  {
  }

  lemma CheckedIsFaithful(keys: Keys, log: map<FailureId, int>, task: Task, t: int)
    requires Faithful(keys, log, task, t)
    ensures Faithful(Checked(keys, task, t), log, task, t)
  {
  }

  lemma StepKeepsInv(w: World, e: Event)
    requires Inv(w) && Feasible(w, [e])
    ensures Inv(Step(w, e))
  {
    hide Pruned, Members, Seconds;
    var w' := Step(w, e);
    forall task: Task ensures Faithful(w'.keys, Log(w', task), task, w'.clock) {
      assert Faithful(w.keys, Log(w, task), task, w.clock);
      TimePasses(w.keys, Log(w, task), task, w.clock, e.t);
      if e.Record? && e.task == task {
        RecordedIsFaithful(w.keys, Log(w, task), task, e.t, e.failure);
      } else if e.Check? && e.task == task {
        CheckedIsFaithful(w.keys, Log(w, task), task, e.t);
      } else {
        SameKey(w.keys, w'.keys, Log(w, task), task, e.t);
      }
    }
  }

  lemma {:induction false} RunKeepsInv(w: World, es: seq<Event>)
    requires Inv(w) && Feasible(w, es)
    ensures Inv(Run(w, es)) && w.clock <= Run(w, es).clock
    decreases |es|
  {
    if es == [] {
    } else {
      StepKeepsInv(w, es[0]);
      RunKeepsInv(Step(w, es[0]), es[1..]);
    }
  }

  lemma SameSize(m: map<FailureId, int>, s: set<FailureId>)
    requires m.Keys == s
    ensures |m| == |s|
  {
  }

  /**
   After any run, a check counts exactly the failures logged in the last 300 s since the last
   reset: neither the TTL nor the deletion of empty keys can be observed. A dispatch is refused
   exactly when there are ten of them.
   */
  lemma CountsTheWindow(w: World, es: seq<Event>, task: Task, t: int)
    requires Inv(w) && Feasible(w, es) && Run(w, es).clock <= t
    ensures var v := Run(w, es);
            var recent := FailuresAfter(Log(v, task), Seconds(t) - WINDOW);
            && Live(v.keys, task, t).Keys == recent
            && (!Allowed(v.keys, v.enabled, task, t, true) <==> v.enabled && |recent| >= MAX_FAILED_ATTEMPTS)
  {
    RunKeepsInv(w, es);
    var v := Run(w, es);
    assert Faithful(v.keys, Log(v, task), task, v.clock);
    TimePasses(v.keys, Log(v, task), task, v.clock, t);
    SameSize(Live(v.keys, task, t), FailuresAfter(Log(v, task), Seconds(t) - WINDOW));
  }

  lemma CheckCounts(w: World, task: Task, t: int, redis: bool)
    requires Inv(w) && w.clock <= t
    ensures Inv(Step(w, Check(t, task, redis)))
    ensures |Live(w.keys, task, t)| == |FailuresAfter(Log(w, task), t / 1000 - 300)|
  {
    StepKeepsInv(w, Check(t, task, redis));
    CountsTheWindow(w, [], task, t);
    SameSize(Live(w.keys, task, t), FailuresAfter(Log(w, task), Seconds(t) - WINDOW));
  }

  /** The i-th event recorded this failure at second `s`, and its task has not been reset since. */
  ghost predicate RecordedAt(w: World, es: seq<Event>, i: nat, task: Task, u: FailureId, s: int)
    requires i < |es|
  {
    && es[i].Record? && es[i].task == task && es[i].failure == u && es[i].redis && es[i].t / 1000 == s
    && Run(w, es[..i]).enabled
    && forall j :: i < j < |es| ==> !Resets(es[j], task)
  }

  predicate Resets(e: Event, task: Task) { e.Reset? && e.redis && (e.one.None? || e.one.value == task) }

  lemma {:induction false} RunLast(w: World, es: seq<Event>, e: Event)
    requires Feasible(w, es + [e])
    ensures Feasible(w, es) && Feasible(Run(w, es), [e]) && Run(w, es + [e]) == Step(Run(w, es), e)
    decreases |es|
  {
    if es == [] {
      assert es + [e] == [e] && [e][1..] == [];
      assert Run(w, [e]) == Run(Step(w, e), []);
    } else {
      assert (es + [e])[1..] == es[1..] + [e];
      RunLast(Step(w, es[0]), es[1..], e);
    }
  }

  lemma StepLog(w: World, e: Event, task: Task, u: FailureId, s: int)
    ensures var log, log' := Log(w, task), Log(Step(w, e), task);
            (u in log' && log'[u] == s) <==>
              if e.Record? && e.redis && w.enabled && e.task == task && e.failure == u then e.t / 1000 == s
              else !Resets(e, task) && u in log && log[u] == s
  {
  }

  /** The log holds the failures recorded while the breaker was on and Redis up, since their task's last reset. */
  lemma {:induction false} LogIsHistory(w: World, es: seq<Event>, task: Task, u: FailureId, s: int)
    requires Feasible(w, es) && Log(w, task) == map[]
    ensures var log := Log(Run(w, es), task);
            u in log && log[u] == s <==> exists i :: 0 <= i < |es| && RecordedAt(w, es, i, task, u, s)
    decreases |es|
  {
    if es == [] {
    } else {
      var front, e := es[..|es| - 1], es[|es| - 1];
      assert es == front + [e];
      RunLast(w, front, e);
      LogIsHistory(w, front, task, u, s);
      var v := Run(w, front);
      StepLog(v, e, task, u, s);
      assert e.Record? && e.task == task ==> e.failure !in Log(v, task);
      hide Step, Run, Feasible, Log;
      forall i | 0 <= i < |front| ensures RecordedAt(w, es, i, task, u, s) <==>
                                          RecordedAt(w, front, i, task, u, s) && !Resets(e, task)
      {
        assert es[..i] == front[..i];
        assert forall j :: i < j < |es| ==> es[j] == if j < |front| then front[j] else e;
      }
      if i :| 0 <= i < |front| && RecordedAt(w, front, i, task, u, s) {
        assert RecordedAt(w, es, i, task, u, s) <==> !Resets(e, task);
      }
      assert RecordedAt(w, es, |es| - 1, task, u, s) <==>
             e.Record? && e.task == task && e.failure == u && e.redis && e.t / 1000 == s && v.enabled;
    }
  }

  /** An open circuit closes by itself once its task has not failed for 300 s. */
  lemma Recloses(w: World, es: seq<Event>, task: Task, t: int)
    requires Inv(w) && Feasible(w, es) && Run(w, es).clock <= t
    requires forall u :: u in Log(Run(w, es), task) ==> Log(Run(w, es), task)[u] + WINDOW <= Seconds(t)
    ensures Allowed(Run(w, es).keys, Run(w, es).enabled, task, t, true)
  {
    CountsTheWindow(w, es, task, t);
    assert FailuresAfter(Log(Run(w, es), task), Seconds(t) - WINDOW) == {};
  }

  /** A fresh deployment, possibly over keys of the old type, starts every window clean. */
  lemma LegacyStartsClean(keys: Keys, clock: int)
    requires forall task :: task in keys ==> keys[task].Legacy?
    ensures Inv(World(keys, true, clock, map[]))
  {
  }

  // ----- the module's functions -----

  class Breaker {
    var keys: Keys
    var enabled: bool
    ghost var clock: int
    ghost var log: map<Task, map<FailureId, int>>

    ghost function State(): World
      reads this
    {
      World(keys, enabled, clock, log)
    }

    constructor (ghost now: int)
      ensures State() == World(map[], true, now, map[]) && Inv(State())
    {
      keys, enabled, clock, log := map[], true, now, map[];
    }

    /** `_circuit_for_task`: fails open when Redis does. */
    method CircuitForTask(task: Task, t: int, redis: bool) returns (closed: bool)
      requires Inv(State()) && clock <= t
      modifies this
      ensures State() == Step(old(State()), Check(t, task, redis)) && Inv(State())
      ensures closed <==> !enabled || !redis ||
                          |FailuresAfter(Log(State(), task), t / 1000 - 300)| < 10
      ensures enabled == old(enabled) && log == old(log)
    {
      hide Inv, Live, Checked, FailuresAfter;
      CheckCounts(State(), task, t, redis);
      clock := t;
      if !enabled {
        return true;
      }
      if !redis {
        return true;
      }
      var live := Live(keys, task, t);
      keys := Checked(keys, task, t);
      return |live| < MAX_FAILED_ATTEMPTS;
    }

    /** `_record_task_failure` */
    method RecordTaskFailure(task: Task, t: int, failure: FailureId, redis: bool)
      requires Inv(State()) && clock <= t && failure !in Log(State(), task)
      modifies this
      ensures State() == Step(old(State()), Record(t, task, failure, redis)) && Inv(State())
      ensures enabled == old(enabled) && (!enabled || !redis ==> keys == old(keys) && log == old(log))
      ensures enabled && redis ==>
                && Log(State(), task) == old(Log(State(), task))[failure := t / 1000]
                && forall other :: other != task ==> Log(State(), other) == old(Log(State(), other))
    {
      StepKeepsInv(State(), Record(t, task, failure, redis));
      clock := t;
      if enabled && redis {
        log := log[task := Log(State(), task)[failure := Seconds(t)]];
        keys := Recorded(keys, task, t, failure);
      }
    }

    /** `reset_circuit_breaker`: one task, or every key the scan finds. */
    method ResetCircuitBreaker(task: Option<Task>, t: int, redis: bool)
      requires Inv(State()) && clock <= t
      modifies this
      ensures State() == Step(old(State()), Reset(t, task, redis)) && Inv(State())
      ensures enabled == old(enabled)
      ensures keys == if !redis then old(keys) else if task.None? then map[] else old(keys) - {task.value}
      ensures log == if !redis then old(log) else if task.None? then map[] else old(log) - {task.value}
    {
      StepKeepsInv(State(), Reset(t, task, redis));
      clock := t;
      if !redis {
        return;
      }
      if task.Some? {
        log := log - {task.value};
        keys := keys - {task.value};
        return;
      }
      var found := keys.Keys;
      while found != {}
        invariant keys.Keys == found && log == old(log) && enabled == old(enabled) && clock == t
        decreases found
      {
        var key :| key in found;
        keys := keys - {key};
        found := found - {key};
      }
      log := map[];
    }

    /** `toggle_circuit_breaker` */
    method ToggleCircuitBreaker(on: bool, t: int)
      requires Inv(State()) && clock <= t
      modifies this
      ensures State() == Step(old(State()), Toggle(t, on)) && Inv(State())
      ensures enabled == on && keys == old(keys) && log == old(log)
    {
      StepKeepsInv(State(), Toggle(t, on));
      enabled, clock := on, t;
    }
  }
}
