/**
 The per-node inbound limiter. Its table remembers when each node was last let through, in the
 insertion order of a Python dict, and evicts the longest-silent nodes when it outgrows its cap.
 */
module NodeLimiter {
  import opened Common

  /** Seconds of a monotonic clock. */
  const MIN_INTERVAL: real := 0.5
  const CAP: nat := 10_000
  const PRUNE_TO: nat := 9_000

  datatype Seen = Seen(node: string, time: real)

  type Table = seq<Seen>

  function NodesOf(t: Table): set<string> { set s | s in t :: s.node }

  predicate DistinctNodes(t: Table) { forall i, j :: 0 <= i < j < |t| ==> t[i].node != t[j].node }

  function Lookup(t: Table, node: string): Option<real> {
    if t == [] then None else if t[0].node == node then Some(t[0].time) else Lookup(t[1..], node)
  }

  function Retimed(t: Table, node: string, now: real): Table {
    if t == [] then []
    else [if t[0].node == node then Seen(node, now) else t[0]] + Retimed(t[1..], node, now)
  }

  /** Assignment to a dict key: in place if the key is there, at the end otherwise. */
  function Put(t: Table, node: string, now: real): Table {
    if Lookup(t, node).Some? then Retimed(t, node, now) else t + [Seen(node, now)]
  }

  /** Behind every entry that is not newer. */
  function InsertSorted(s: Table, x: Seen): Table {
    if s == [] || s[|s| - 1].time <= x.time then s + [x]
    else InsertSorted(s[..|s| - 1], x) + [s[|s| - 1]]
  }

  /** Python's stable `sorted(..., key=time)`. */
  function OldestFirst(t: Table): Table {
    if t == [] then [] else InsertSorted(OldestFirst(t[..|t| - 1]), t[|t| - 1])
  }

  function Outside(nodes: set<string>): Seen -> bool { (s: Seen) => s.node !in nodes }

  /** The entries deleted when the table has outgrown its cap. */
  function Evicted(t: Table): Table
    requires |t| >= PRUNE_TO
  {
    SortKeeps(t);
    OldestFirst(t)[..|t| - PRUNE_TO]
  }

  function Pruned(t: Table): Table {
    if |t| <= CAP then t else Filter(Outside(NodesOf(Evicted(t))), t)
  }

  predicate Limited(t: Table, node: string, now: real) {
    Lookup(t, node).Some? && now - Lookup(t, node).value < MIN_INTERVAL
  }

  /** `_node_rate_limited`: the table after a message of `node` at `now`. */
  function After(t: Table, node: string, now: real): Table {
    if Limited(t, node, now) then t else Pruned(Put(t, node, now))
  }

  // ----- sorting -----

  predicate Sorted(s: Table) { forall i, j :: 0 <= i < j < |s| ==> s[i].time <= s[j].time }

  lemma {:induction false} InsertKeeps(s: Table, x: Seen)
    ensures |InsertSorted(s, x)| == |s| + 1
    ensures forall y :: y in InsertSorted(s, x) <==> y in s || y == x
    ensures Sorted(s) ==> Sorted(InsertSorted(s, x))
  {
    if s != [] && x.time < s[|s| - 1].time {
      var front, last := s[..|s| - 1], s[|s| - 1];
      InsertKeeps(front, x);
      assert forall y :: y in s <==> y in front || y == last;
      if Sorted(s) {
        forall i | 0 <= i < |s| ensures InsertSorted(front, x)[i].time <= last.time {
          assert InsertSorted(front, x)[i] in InsertSorted(front, x);
        }
      }
    }
  }

  lemma {:induction false} SortKeeps(t: Table)
    ensures |OldestFirst(t)| == |t| && Sorted(OldestFirst(t))
    ensures forall s :: s in OldestFirst(t) <==> s in t
  {
    if t == [] {
    } else {
      SortKeeps(t[..|t| - 1]);
      InsertKeeps(OldestFirst(t[..|t| - 1]), t[|t| - 1]);
      assert t == t[..|t| - 1] + [t[|t| - 1]];
    }
  }

  lemma {:induction false} DistinctSize(t: Table)
    ensures |NodesOf(t)| <= |t|
    ensures DistinctNodes(t) ==> |NodesOf(t)| == |t|
  {
    if t == [] {
    } else {
      DistinctSize(t[1..]);
      assert NodesOf(t) == {t[0].node} + NodesOf(t[1..]);
      if DistinctNodes(t) {
        assert forall s :: s in t[1..] ==> s.node != t[0].node;
      }
    }
  }

  lemma {:induction false} FilterKeepsDistinct(p: Seen -> bool, t: Table)
    requires DistinctNodes(t)
    ensures DistinctNodes(Filter(p, t))
  {
    if t == [] {
    } else {
      FilterKeepsDistinct(p, t[1..]);
      assert forall s :: s in t[1..] ==> s.node != t[0].node;
    }
  }

  lemma NodesOfSplit(s: Table, k: nat)
    requires k <= |s|
    ensures NodesOf(s) == NodesOf(s[..k]) + NodesOf(s[k..])
  {
  }

  lemma PrefixSize(s: Table, k: nat)
    requires k <= |s| && |NodesOf(s)| == |s|
    ensures |NodesOf(s[..k])| == k
  {
    DistinctSize(s[..k]);
    DistinctSize(s[k..]);
    NodesOfSplit(s, k);
    UnionSize(NodesOf(s[..k]), NodesOf(s[k..]));
  }

  /** Sorting does not make nodes coincide, so the evicted entries are distinct nodes. */
  lemma EvictedSize(t: Table)
    requires DistinctNodes(t) && |t| >= PRUNE_TO
    ensures |NodesOf(Evicted(t))| == |t| - PRUNE_TO
    ensures forall s :: s in Evicted(t) ==> s in t
  {
    SortKeeps(t);
    var sorted := OldestFirst(t);
    DistinctSize(t);
    assert NodesOf(sorted) == NodesOf(t);
    PrefixSize(sorted, |t| - PRUNE_TO);
    assert forall s :: s in Evicted(t) ==> s in sorted;
  }

  /** Pruning leaves exactly 9,000 nodes. */
  lemma PrunedSize(t: Table)
    requires DistinctNodes(t) && |t| > CAP
    ensures DistinctNodes(Pruned(t)) && |Pruned(t)| == |NodesOf(Pruned(t))| == PRUNE_TO
  {
    var gone := NodesOf(Evicted(t));
    EvictedSize(t);
    FilterKeepsDistinct(Outside(gone), t);
    DistinctSize(t);
    DistinctSize(Pruned(t));
    assert gone <= NodesOf(t);
    assert NodesOf(Pruned(t)) == NodesOf(t) - gone by {
      forall n | n in NodesOf(t) - gone ensures n in NodesOf(Pruned(t)) {
        var s :| s in t && s.node == n;
        assert Outside(gone)(s);
      }
    }
  }

  /** And they are the most recently seen ones. */
  lemma PruneKeepsNewest(t: Table, gone: Seen, kept: Seen)
    requires DistinctNodes(t) && |t| > CAP && gone in t && gone !in Pruned(t) && kept in Pruned(t)
    ensures gone.time <= kept.time
  {
    SortKeeps(t);
    EvictedSize(t);
    var sorted, k := OldestFirst(t), |t| - PRUNE_TO;
    assert Outside(NodesOf(Evicted(t)))(gone) ==> gone in Pruned(t);
    SameNodeSameEntry(t, Evicted(t), gone);
    assert Outside(NodesOf(Evicted(t)))(kept);
    forall h | 0 <= h < k ensures sorted[h] in Evicted(t) {
      assert sorted[..k][h] == sorted[h];
    }
    var i :| 0 <= i < k && sorted[i] == gone;
    var j :| 0 <= j < |sorted| && sorted[j] == kept;
  }

  lemma SameNodeSameEntry(t: Table, part: Table, a: Seen)
    requires DistinctNodes(t) && a in t && a.node in NodesOf(part) && forall s :: s in part ==> s in t
    ensures a in part
  {
  }

  lemma UnionSize<T>(a: set<T>, b: set<T>)
    ensures |a + b| <= |a| + |b|
  {
  }

  // ----- whole traces -----

  /** A message that reaches the limiter; `stale`: its device timestamp is at least 60 s old. */
  datatype Arrival = Arrival(node: string, now: real, stale: bool)

  /** The table after the first `m` arrivals of a trace. */
  function TableAt(trace: seq<Arrival>, m: nat): Table
    requires m <= |trace|
  {
    if m == 0 then []
    else After(TableAt(trace, m - 1), trace[m - 1].node, trace[m - 1].now)
  }

  /** The limiter let the i-th arrival through. */
  predicate Passed(trace: seq<Arrival>, i: nat)
    requires i < |trace|
  {
    !Limited(TableAt(trace, i), trace[i].node, trace[i].now)
  }

  /** `_on_message` queues it: backlog is queued whatever the limiter says. */
  predicate Queued(trace: seq<Arrival>, i: nat)
    requires i < |trace|
  {
    Passed(trace, i) || trace[i].stale
  }

  predicate Monotone(trace: seq<Arrival>) {
    forall i, j :: 0 <= i < j < |trace| ==> trace[i].now <= trace[j].now
  }

  /** The nodes let through among the first `m` arrivals, at `since` or later. */
  function AdmittedSince(trace: seq<Arrival>, m: nat, since: real): set<string>
    requires m <= |trace|
  {
    if m == 0 then {}
    else AdmittedSince(trace, m - 1, since) +
         (if Passed(trace, m - 1) && since <= trace[m - 1].now then {trace[m - 1].node} else {})
  }

  lemma {:induction false} AdmittedMeaning(trace: seq<Arrival>, m: nat, since: real, node: string)
    requires m <= |trace|
    ensures node in AdmittedSince(trace, m, since) <==>
            exists k :: 0 <= k < m && Passed(trace, k) && since <= trace[k].now && trace[k].node == node
  {
    hide After;
    if m == 0 {
    } else {
      AdmittedMeaning(trace, m - 1, since, node);
    }
  }

  /** At least 9,000 other nodes were let through since then. */
  predicate Crowded(trace: seq<Arrival>, m: nat, since: real, node: string)
    requires m <= |trace|
  {
    |AdmittedSince(trace, m, since) - {node}| >= PRUNE_TO
  }

  lemma {:induction false} LookupFinds(t: Table, node: string)
    ensures Lookup(t, node).Some? ==> Seen(node, Lookup(t, node).value) in t
    ensures Lookup(t, node).None? <==> node !in NodesOf(t)
  {
    if t == [] {
    } else {
      LookupFinds(t[1..], node);
      assert NodesOf(t) == {t[0].node} + NodesOf(t[1..]);
    }
  }

  lemma {:induction false} RetimedKeeps(t: Table, node: string, now: real)
    ensures |Retimed(t, node, now)| == |t|
    ensures forall i :: 0 <= i < |t| ==>
              Retimed(t, node, now)[i] == if t[i].node == node then Seen(node, now) else t[i]
  {
    if t == [] {
    } else {
      RetimedKeeps(t[1..], node, now);
    }
  }

  lemma PutKeeps(t: Table, node: string, now: real)
    requires DistinctNodes(t)
    ensures DistinctNodes(Put(t, node, now))
    ensures |Put(t, node, now)| == |t| + (if Lookup(t, node).Some? then 0 else 1)
    ensures Seen(node, now) in Put(t, node, now)
    ensures forall s :: s in t && s.node != node ==> s in Put(t, node, now)
    ensures forall s :: s in Put(t, node, now) ==> s in t || s == Seen(node, now)
  {
    var put := Put(t, node, now);
    LookupFinds(t, node);
    if Lookup(t, node).Some? {
      RetimedKeeps(t, node, now);
      var i :| 0 <= i < |t| && t[i] == Seen(node, Lookup(t, node).value);
      assert put[i] == Seen(node, now);
      forall s | s in t && s.node != node ensures s in put {
        var j :| 0 <= j < |t| && t[j] == s;
        assert put[j] == s;
      }
    } else {
      assert put[|t|] == Seen(node, now);
    }
  }

  lemma {:induction false} LookupIsUnique(t: Table, s: Seen)
    requires DistinctNodes(t) && s in t
    ensures Lookup(t, s.node) == Some(s.time)
  {
    if t[0] != s {
      assert s in t[1..];
      LookupIsUnique(t[1..], s);
    }
  }

  /** What one message does to the table. */
  lemma AfterKeeps(t: Table, node: string, now: real)
    requires DistinctNodes(t) && |t| <= CAP
    ensures DistinctNodes(After(t, node, now)) && |After(t, node, now)| <= CAP
    ensures forall s :: s in After(t, node, now) ==>
              s in t || (s == Seen(node, now) && !Limited(t, node, now))
  {
    PutKeeps(t, node, now);
    if |Put(t, node, now)| > CAP { PrunedSize(Put(t, node, now)); }
  }

  /** The table always has distinct nodes, respects its cap, and holds no time after the last arrival. */
  lemma {:induction false} TableIsSound(trace: seq<Arrival>, m: nat)
    requires m <= |trace| && Monotone(trace)
    ensures DistinctNodes(TableAt(trace, m)) && |TableAt(trace, m)| <= CAP
    ensures forall s :: s in TableAt(trace, m) ==> m > 0 && s.time <= trace[m - 1].now
  {
    hide After;
    if m == 0 {
    } else {
      TableIsSound(trace, m - 1);
      AfterKeeps(TableAt(trace, m - 1), trace[m - 1].node, trace[m - 1].now);
    }
  }

  // ----- spacing -----

  /** Its node is still on record as seen at `since` or later, or 9,000 other nodes have been since. */
  predicate Remembered(t: Table, admitted: set<string>, since: real, node: string) {
    || (Lookup(t, node).Some? && since <= Lookup(t, node).value)
    || |admitted - {node}| >= PRUNE_TO
  }

  /** The entries no older than `since` are among the admitted. */
  ghost predicate Covers(admitted: set<string>, t: Table, since: real) {
    DistinctNodes(t) && |t| <= CAP && forall s :: s in t && since <= s.time ==> s.node in admitted
  }

  /** If pruning drops an entry, 9,000 admissions no older than it have taken its place. */
  lemma EvictionIsACrowd(put: Table, admitted: set<string>, gone: Seen)
    requires DistinctNodes(put) && |put| > CAP && gone in put && gone !in Pruned(put)
    requires forall s :: s in put && gone.time <= s.time ==> s.node in admitted
    ensures |admitted - {gone.node}| >= PRUNE_TO
  {
    PrunedSize(put);
    var kept, others := Pruned(put), admitted - {gone.node};
    forall s | s in kept ensures s.node in others {
      PruneKeepsNewest(put, gone, s);
      LookupIsUnique(put, s);
      LookupIsUnique(put, gone);
    }
    assert NodesOf(kept) <= others;
    assert others == NodesOf(kept) + (others - NodesOf(kept));
  }

  lemma GrownCrowd(admitted: set<string>, grown: set<string>, node: string)
    requires admitted <= grown && |admitted - {node}| >= PRUNE_TO
    ensures |grown - {node}| >= PRUNE_TO
  {
    var a, b := admitted - {node}, grown - {node};
    assert b == a + (b - a);
  }

  /** Written by this message, or still there from before. */
  lemma EntryStays(t: Table, admitted: set<string>, since: real, a: Arrival, mine: Seen)
    requires Covers(admitted, t, since) && since <= mine.time && a.node in admitted
    requires !Limited(t, a.node, a.now) && mine in Put(t, a.node, a.now)
    ensures Remembered(After(t, a.node, a.now), admitted, since, mine.node)
  {
    var put := Put(t, a.node, a.now);
    AfterKeeps(t, a.node, a.now);
    PutKeeps(t, a.node, a.now);
    if mine in Pruned(put) {
      LookupIsUnique(Pruned(put), mine);
    } else {
      EvictionIsACrowd(put, admitted, mine);
    }
  }

  lemma RememberedStep(
      t: Table, admitted: set<string>, grown: set<string>, since: real, node: string, a: Arrival)
    requires Covers(admitted, t, since) && Remembered(t, admitted, since, node) && since <= a.now
    requires admitted <= grown && (!Limited(t, a.node, a.now) ==> a.node in grown)
    ensures Remembered(After(t, a.node, a.now), grown, since, node)
  {
    if |admitted - {node}| >= PRUNE_TO {
      GrownCrowd(admitted, grown, node);
    } else if !Limited(t, a.node, a.now) {
      PutKeeps(t, a.node, a.now);
      LookupFinds(t, node);
      EntryStays(t, grown, since, a, if a.node == node then Seen(node, a.now) else Seen(node, Lookup(t, node).value));
    }
  }

  lemma AdmittedGrows(trace: seq<Arrival>, m: nat, since: real)
    requires m < |trace|
    ensures AdmittedSince(trace, m, since) <= AdmittedSince(trace, m + 1, since)
    ensures Passed(trace, m) && since <= trace[m].now ==> trace[m].node in AdmittedSince(trace, m + 1, since)
  {
  }

  lemma {:induction false} AdmittedCovers(trace: seq<Arrival>, m: nat, since: real)
    requires m <= |trace|
    ensures Covers(AdmittedSince(trace, m, since), TableAt(trace, m), since)
  {
    hide After;
    if m == 0 {
    } else {
      AdmittedCovers(trace, m - 1, since);
      AfterKeeps(TableAt(trace, m - 1), trace[m - 1].node, trace[m - 1].now);
    }
  }

  /** What is known of `node` after the first `m` arrivals, if it passed at `since`. */
  predicate RememberedAt(trace: seq<Arrival>, m: nat, since: real, node: string)
    requires m <= |trace|
  {
    Remembered(TableAt(trace, m), AdmittedSince(trace, m, since), since, node)
  }

  lemma RememberedAtOnce(trace: seq<Arrival>, i: nat)
    requires i < |trace| && Passed(trace, i)
    ensures RememberedAt(trace, i + 1, trace[i].now, trace[i].node)
  {
    var since, a, t := trace[i].now, trace[i], TableAt(trace, i);
    var grown := AdmittedSince(trace, i + 1, since);
    AdmittedGrows(trace, i, since);
    AdmittedCovers(trace, i, since);
    PutKeeps(t, a.node, a.now);
    EntryStays(t, grown, since, a, Seen(a.node, a.now));
  }

  lemma RememberedNext(trace: seq<Arrival>, m: nat, since: real, node: string)
    requires m < |trace| && since <= trace[m].now && RememberedAt(trace, m, since, node)
    ensures RememberedAt(trace, m + 1, since, node)
  {
    AdmittedGrows(trace, m, since);
    AdmittedCovers(trace, m, since);
    RememberedStep(TableAt(trace, m), AdmittedSince(trace, m, since), AdmittedSince(trace, m + 1, since),
                   since, node, trace[m]);
  }

  lemma {:induction false} RememberedUntil(trace: seq<Arrival>, i: nat, k: nat, m: nat)
    requires Monotone(trace) && i < k <= m <= |trace|
    requires RememberedAt(trace, k, trace[i].now, trace[i].node)
    ensures RememberedAt(trace, m, trace[i].now, trace[i].node)
    decreases m - k
  {
    hide After;
    if k == m {
    } else {
      RememberedNext(trace, k, trace[i].now, trace[i].node);
      RememberedUntil(trace, i, k + 1, m);
    }
  }

  lemma SpacedAt(trace: seq<Arrival>, j: nat, since: real, node: string)
    requires j < |trace| && RememberedAt(trace, j, since, node) && trace[j].node == node && Passed(trace, j)
    ensures trace[j].now - since >= MIN_INTERVAL || Crowded(trace, j, since, node)
  {
  }

  /**
   Two messages of one node that the limiter lets through are at least half a second apart, unless
   at least 9,000 other nodes were let through in between, no earlier than the first.
   */
  lemma PassesAreSpaced(trace: seq<Arrival>, i: nat, j: nat)
    requires Monotone(trace) && i < j < |trace| && trace[i].node == trace[j].node
    requires Passed(trace, i) && Passed(trace, j)
    ensures trace[j].now - trace[i].now >= MIN_INTERVAL || Crowded(trace, j, trace[i].now, trace[i].node)
  {
    hide After;
    RememberedAtOnce(trace, i);
    RememberedUntil(trace, i, i + 1, j);
    SpacedAt(trace, j, trace[i].now, trace[i].node);
  }

  /** Every entry of the table stems from an arrival that was let through. */
  lemma {:induction false} EntriesArePasses(trace: seq<Arrival>, m: nat, s: Seen)
    requires m <= |trace| && s in TableAt(trace, m)
    ensures exists i :: 0 <= i < m && Passed(trace, i) && trace[i].node == s.node && trace[i].now == s.time
  {
    hide After;
    if m == 0 {
    } else {
      var t, a := TableAt(trace, m - 1), trace[m - 1];
      AdmittedCovers(trace, m - 1, a.now);
      AfterKeeps(t, a.node, a.now);
      if s in t {
        EntriesArePasses(trace, m - 1, s);
      } else {
        assert Passed(trace, m - 1);
      }
    }
  }

  /** Nothing is held back without cause: an earlier message of the node passed less than half a second before. */
  lemma LimitedForCause(trace: seq<Arrival>, j: nat)
    requires j < |trace| && !Passed(trace, j)
    ensures exists i :: 0 <= i < j && Passed(trace, i) && trace[i].node == trace[j].node
                        && trace[j].now - trace[i].now < 0.5
  {
    var t := TableAt(trace, j);
    LookupFinds(t, trace[j].node);
    EntriesArePasses(trace, j, Seen(trace[j].node, Lookup(t, trace[j].node).value));
  }

  /** What a table says of one node, entry by entry. */
  lemma LimitedMeaning(t: Table, node: string, now: real)
    requires DistinctNodes(t)
    ensures Limited(t, node, now) <==> exists s :: s in t && s.node == node && now - s.time < 0.5
  {
    LookupFinds(t, node);
    if s :| s in t && s.node == node { LookupIsUnique(t, s); }
  }

  /** Fresh messages of one node are queued at most every half second, up to the same crowd. */
  lemma FreshAreSpaced(trace: seq<Arrival>, i: nat, j: nat)
    requires Monotone(trace) && i < j < |trace| && trace[i].node == trace[j].node
    requires Queued(trace, i) && !trace[i].stale && Queued(trace, j) && !trace[j].stale
    ensures trace[j].now - trace[i].now >= MIN_INTERVAL || Crowded(trace, j, trace[i].now, trace[i].node)
  {
    PassesAreSpaced(trace, i, j);
  }

  /** The table stays within its cap, and the message just let through is never the one evicted. */
  lemma NewestSurvives(trace: seq<Arrival>, m: nat)
    requires Monotone(trace) && m < |trace|
    ensures |TableAt(trace, m + 1)| <= CAP
    ensures Passed(trace, m) ==> Lookup(TableAt(trace, m + 1), trace[m].node) == Some(trace[m].now)
  {
    TableIsSound(trace, m);
    TableIsSound(trace, m + 1);
    if Passed(trace, m) {
      var t, a := TableAt(trace, m), trace[m];
      var put, newest := Put(t, a.node, a.now), Seen(a.node, a.now);
      PutKeeps(t, a.node, a.now);
      if |put| > CAP { LastSurvives(put); }
      LookupIsUnique(Pruned(put), newest);
    }
  }

  /** A newest last entry stays last when sorted, so it is not among the evicted. */
  lemma LastSurvives(t: Table)
    requires DistinctNodes(t) && |t| > CAP && forall s :: s in t ==> s.time <= t[|t| - 1].time
    ensures t[|t| - 1] in Pruned(t)
  {
    var front, last := t[..|t| - 1], t[|t| - 1];
    SortKeeps(front);
    SortKeeps(t);
    EvictedSize(t);
    var sorted := OldestFirst(front);
    assert sorted != [] ==> sorted[|sorted| - 1] in front && front[..] <= t;
    assert OldestFirst(t) == sorted + [last];
    assert forall s :: s in Evicted(t) ==> s in front;
    assert Outside(NodesOf(Evicted(t)))(last);
  }
}
