/** Trace finalisation: the critical path as a longest-path recurrence over the recorded start
  * order, and what a finished trace guarantees. */
module Tracing {
  import opened Wrappers
  import opened Graph
  import opened Kahn
  import opened Observer

  datatype TraceNodeKind = SourceNode | TaskNode

  datatype NodeTrace<K> = NodeTrace(id: nat, key: K, kind: TraceNodeKind, deps: seq<nat>, readyAt: nat, startedAt: nat,
                                    finishedAt: nat, runDuration: nat, workerId: Option<nat>)

  datatype ExecutionTrace<K> = ExecutionTrace(nodes: seq<NodeTrace<K>>, wallTime: nat, criticalPathTime: nat,
                                              maxFrontierWidth: nat, executedNodes: nat)

  /** The record of a run that completed the dependency-closed set nd. */
  ghost predicate FullRecord<K, V, E>(g: Dag<K, V, E>, nd: set<nat>, parallel: bool, o: Record) {
    && Sized(o, |g.nodes|)
    && (forall a, b :: 0 <= a < b < |o.order| ==> o.order[a] != o.order[b])
    && (forall i: nat :: i in o.order <==> i in nd)
    && (forall i :: i in nd ==> i < |g.nodes| && o.readyAt[i].Some? && o.startedAt[i].Some? && o.finishedAt[i].Some?
                                && o.readyAt[i].value <= o.startedAt[i].value <= o.finishedAt[i].value <= o.now)
    && (forall i :: i in nd ==> (o.workerId[i].Some? <==> parallel && g.nodes[i].kind.Task?))
    && OrderTopological(g, o)
    && AntichainOfSize(g, nd, o.width)
  }

  lemma CompleteRunRecords<K, V, E>(g: Dag<K, V, E>, needed: seq<bool>, vals: seq<Option<V>>, indeg: seq<nat>,
                                    waiting: multiset<nat>, parallel: bool, o: Record)
    requires TraceInv(g, needed, vals, indeg, waiting, {}, parallel, o)
    requires DoneSet(vals) == MaskSet(needed) && waiting == multiset{}
    requires forall i :: 0 <= i < |needed| && needed[i] ==> indeg[i] == 0
    ensures FullRecord(g, MaskSet(needed), parallel, o)
  {
    forall i: nat
      ensures i in o.order <==> i in MaskSet(needed)
    {
    }
  }

  function OrElse(x: Option<nat>, default: nat): nat {
    if x.Some? then x.value else default
  }

  function SaturatingSub(a: nat, b: nat): nat {
    if a < b then 0 else a - b
  }

  /** The entry the record yields for a node, with the report's defaults for missing marks. */
  function Entry<K, V, E>(g: Dag<K, V, E>, o: Record, i: nat): NodeTrace<K>
    requires i < |g.nodes| && Sized(o, |g.nodes|)
  {
    var startedAt := OrElse(o.startedAt[i], 0);
    var finishedAt := OrElse(o.finishedAt[i], startedAt);
    NodeTrace(i, g.nodes[i].key, if g.nodes[i].kind.Source? then SourceNode else TaskNode, g.nodes[i].deps,
              OrElse(o.readyAt[i], 0), startedAt, finishedAt, SaturatingSub(finishedAt, startedAt), o.workerId[i])
  }

  /** Run durations by node id. */
  ghost function Durations<K, V, E>(g: Dag<K, V, E>, o: Record): (d: seq<nat>)
    requires Sized(o, |g.nodes|)
    ensures |d| == |g.nodes|
  {
    seq(|g.nodes|, i requires 0 <= i < |g.nodes| => Entry(g, o, i).runDuration)
  }

  /** Total duration along a path. */
  ghost function Total(dur: seq<nat>, p: seq<nat>): nat {
    if p == [] then 0 else (if p[0] < |dur| then dur[p[0]] else 0) + Total(dur, p[1..])
  }

  lemma {:induction false} TotalConcat(dur: seq<nat>, p: seq<nat>, q: seq<nat>)
    ensures Total(dur, p + q) == Total(dur, p) + Total(dur, q)
    ensures forall i :: 0 <= i < |dur| ==> Total(dur, [i]) == dur[i]
  {
    if p == [] {
      assert p + q == q;
    } else {
      TotalConcat(dur, p[1..], q);
      assert (p + q)[1..] == p[1..] + q;
    }
  }

  /** `best` is the largest total over the dependency chains that end in node i, that is, over
    * the paths that start there. */
  ghost predicate LongestFrom<K, V, E>(g: Dag<K, V, E>, dur: seq<nat>, i: nat, best: nat) {
    && (exists p :: IsPath(g, p) && p[0] == i && Total(dur, p) == best)
    && (forall p :: IsPath(g, p) && p[0] == i ==> Total(dur, p) <= best)
  }

  /** `best` is the largest total over all dependency chains inside nd. */
  ghost predicate LongestIn<K, V, E>(g: Dag<K, V, E>, dur: seq<nat>, nd: set<nat>, best: nat) {
    && (exists p :: IsPath(g, p) && p[0] in nd && Total(dur, p) == best)
    && (forall p :: IsPath(g, p) && p[0] in nd ==> Total(dur, p) <= best)
  }

  /** One step of the recurrence: the longest chain ending in i extends the longest chain
    * ending in one of its dependencies. */
  lemma LongestExtends<K, V, E>(g: Dag<K, V, E>, dur: seq<nat>, i: nat, best: seq<nat>, parent: nat)
    requires i < |g.nodes| == |dur| == |best| && g.Valid()
    requires forall q :: 0 <= q < |g.nodes[i].deps| ==>
               LongestFrom(g, dur, g.nodes[i].deps[q], best[g.nodes[i].deps[q]])
               && best[g.nodes[i].deps[q]] <= parent
    requires if g.nodes[i].deps == [] then parent == 0
             else exists q :: 0 <= q < |g.nodes[i].deps| && parent == best[g.nodes[i].deps[q]]
    ensures LongestFrom(g, dur, i, parent + dur[i])
  {
    hide Dag.Valid;
    var deps := g.nodes[i].deps;
    if deps == [] {
      assert IsPath(g, [i]) && Total(dur, [i]) == dur[i] + Total(dur, []);
    } else {
      var q :| 0 <= q < |deps| && parent == best[deps[q]];
      var t :| IsPath(g, t) && t[0] == deps[q] && Total(dur, t) == parent;
      PathExtends(g, dur, i, t);
    }
    forall p | IsPath(g, p) && p[0] == i
      ensures Total(dur, p) <= parent + dur[i]
    {
      if |p| > 1 {
        PathTail(g, p);
        var q :| 0 <= q < |deps| && deps[q] == p[1];
        assert Total(dur, p[1..]) <= best[deps[q]];
      } else {
        assert p == [i] && p[1..] == [];
      }
    }
  }

  lemma PathExtends<K, V, E>(g: Dag<K, V, E>, dur: seq<nat>, i: nat, t: seq<nat>)
    requires i < |g.nodes| == |dur| && IsPath(g, t) && t[0] in g.nodes[i].deps
    ensures IsPath(g, [i] + t) && ([i] + t)[0] == i && Total(dur, [i] + t) == dur[i] + Total(dur, t)
  {
    var p := [i] + t;
    assert p[1..] == t;
    forall j | 0 < j < |p|
      ensures p[j] in g.nodes[p[j - 1]].deps
    {
      if j > 1 { assert t[j - 1] in g.nodes[t[j - 1 - 1]].deps; }
    }
  }

  lemma PathTail<K, V, E>(g: Dag<K, V, E>, p: seq<nat>)
    requires IsPath(g, p) && |p| > 1
    ensures IsPath(g, p[1..]) && p[1..][0] == p[1] && p[1] in g.nodes[p[0]].deps
  {
    assert p[1] in g.nodes[p[1 - 1]].deps;
    forall j | 0 < j < |p[1..]|
      ensures p[1..][j] in g.nodes[p[1..][j - 1]].deps
    {
      assert p[j + 1] in g.nodes[p[j + 1 - 1]].deps;
    }
  }

  /** What a finished trace reports about a run over nd: one entry per needed node, consistent
    * with the graph and ordered in time; the critical path is the longest dependency chain by
    * run duration and fits into the wall time; the frontier width is that of an antichain. */
  ghost predicate TraceSpec<K, V, E>(g: Dag<K, V, E>, nd: set<nat>, parallel: bool, t: ExecutionTrace<K>) {
    && |t.nodes| == t.executedNodes == |nd|
    && (forall a :: 0 <= a < |t.nodes| ==> EntryFits(g, parallel, t.nodes[a]) && t.nodes[a].id in nd)
    && (forall a, b :: 0 <= a < b < |t.nodes| ==> t.nodes[a].id != t.nodes[b].id)
    && (forall b, d :: 0 <= b < |t.nodes| && d in t.nodes[b].deps ==> FinishedEarlier(t, d, b))
    && (exists dur :: IsDurations(g, t, dur) && LongestIn(g, dur, nd, t.criticalPathTime))
    && t.criticalPathTime <= t.wallTime
    && AntichainOfSize(g, nd, t.maxFrontierWidth)
  }

  /** The trace reports what was recorded: the nodes in start order with their recorded marks,
    * the recorded frontier width, and a wall time not before the last mark. */
  ghost predicate ReportsRecord<K>(o: Record, t: ExecutionTrace<K>) {
    && |t.nodes| == |o.order| && t.maxFrontierWidth == o.width && t.wallTime >= o.now
    && forall a :: 0 <= a < |t.nodes| ==> t.nodes[a].id == o.order[a] && NodeReported(o, t.nodes[a])
  }

  ghost predicate NodeReported<K>(o: Record, n: NodeTrace<K>) {
    && Sized(o, |o.readyAt|) && n.id < |o.readyAt|
    && o.readyAt[n.id] == Some(n.readyAt) && o.startedAt[n.id] == Some(n.startedAt)
    && o.finishedAt[n.id] == Some(n.finishedAt) && o.workerId[n.id] == n.workerId
  }

  ghost predicate EntryFits<K, V, E>(g: Dag<K, V, E>, parallel: bool, n: NodeTrace<K>) {
    && n.id < |g.nodes|
    && n.key == g.nodes[n.id].key && n.deps == g.nodes[n.id].deps
    && (n.kind == TaskNode <==> g.nodes[n.id].kind.Task?)
    && n.readyAt <= n.startedAt <= n.finishedAt && n.runDuration == n.finishedAt - n.startedAt
    && (n.workerId.Some? <==> parallel && g.nodes[n.id].kind.Task?)
  }

  ghost predicate FinishedEarlier<K>(t: ExecutionTrace<K>, d: nat, b: nat)
    requires b < |t.nodes|
  {
    exists a :: 0 <= a < b && t.nodes[a].id == d && t.nodes[a].finishedAt <= t.nodes[b].startedAt
  }

  ghost predicate IsDurations<K, V, E>(g: Dag<K, V, E>, t: ExecutionTrace<K>, dur: seq<nat>) {
    |dur| == |g.nodes| &&
    forall a :: 0 <= a < |t.nodes| ==> t.nodes[a].id < |dur| && dur[t.nodes[a].id] == t.nodes[a].runDuration
  }

  function Max(a: nat, b: nat): nat {
    if a < b then b else a
  }

  /** Largest chain value among the needed dependencies of a node, zero if there are none. */
  method ParentPath<K, V, E>(g: Dag<K, V, E>, needed: seq<bool>, id: nat, longest: seq<nat>) returns (best: nat)
    requires g.Valid() && |needed| == |longest| == |g.nodes| && id < |g.nodes|
    ensures forall q :: 0 <= q < |g.nodes[id].deps| && needed[g.nodes[id].deps[q]] ==>
        longest[g.nodes[id].deps[q]] <= best
    ensures best == 0 ||
            (exists q :: 0 <= q < |g.nodes[id].deps| && needed[g.nodes[id].deps[q]]
                         && best == longest[g.nodes[id].deps[q]])
  {
    best := 0;
    var deps := g.nodes[id].deps;
    for p := 0 to |deps|
      invariant forall q :: 0 <= q < p && needed[deps[q]] ==> longest[deps[q]] <= best
      invariant best == 0 || exists q :: 0 <= q < p && needed[deps[q]] && best == longest[deps[q]]
    {
      if needed[deps[p]] {
        best := Max(best, longest[deps[p]]);
      }
    }
  }

  /** Chain values after the first k entries of the order: exact for those nodes, bounded by
    * their finish times, and `critical` is the largest of them. */
  ghost predicate PathsTo<K, V, E>(g: Dag<K, V, E>, o: Record, k: nat, longest: seq<nat>, critical: nat)
    requires k <= |o.order| && Sized(o, |g.nodes|)
  {
    && |longest| == |g.nodes|
    && (forall a :: 0 <= a < k ==>
          var i := o.order[a];
          && i < |g.nodes| && LongestFrom(g, Durations(g, o), i, longest[i])
          && o.finishedAt[i].Some? && longest[i] <= o.finishedAt[i].value && longest[i] <= critical)
    && (k == 0 ==> critical == 0)
    && (k > 0 ==> exists a :: 0 <= a < k && o.order[a] < |g.nodes| && longest[o.order[a]] == critical)
  }

  /** The recurrence at the k-th started node: its dependencies started before it, so their
    * chain values are final, and they had finished by then, so the new value still fits. */
  lemma PathsNode<K, V, E>(g: Dag<K, V, E>, nd: set<nat>, parallel: bool, o: Record, k: nat, longest: seq<nat>,
                           critical: nat, parent: nat, i: nat)
    requires g.Valid() && FullRecord(g, nd, parallel, o) && k < |o.order| && i == o.order[k] < |g.nodes|
    requires PathsTo(g, o, k, longest, critical)
    requires forall q :: 0 <= q < |g.nodes[i].deps| ==> longest[g.nodes[i].deps[q]] <= parent
    requires parent == 0 || exists q :: 0 <= q < |g.nodes[i].deps| && parent == longest[g.nodes[i].deps[q]]
    ensures LongestFrom(g, Durations(g, o), i, parent + Durations(g, o)[i])
    ensures o.finishedAt[i].Some? && parent + Durations(g, o)[i] <= o.finishedAt[i].value
  {
    var deps, dur := g.nodes[i].deps, Durations(g, o);
    hide LongestFrom;
    assert i in nd;
    forall q | 0 <= q < |deps|
      ensures LongestFrom(g, dur, deps[q], longest[deps[q]]) && longest[deps[q]] <= o.startedAt[i].value
    {
      assert RanBefore(o, deps[q], k);
      var a :| 0 <= a < k && o.order[a] == deps[q];
    }
    if deps != [] && parent == 0 { assert longest[deps[0]] == parent; }
    LongestExtends(g, dur, i, longest, parent);
  }

  lemma PathsStep<K, V, E>(g: Dag<K, V, E>, nd: set<nat>, parallel: bool, o: Record, k: nat, longest: seq<nat>,
                           critical: nat, i: nat, value: nat)
    requires Sized(o, |g.nodes|) && k < |o.order| && i == o.order[k] < |g.nodes| && FullRecord(g, nd, parallel, o)
    requires PathsTo(g, o, k, longest, critical)
    requires LongestFrom(g, Durations(g, o), i, value) && o.finishedAt[i].Some? && value <= o.finishedAt[i].value
    ensures PathsTo(g, o, k + 1, longest[i := value], Max(critical, value))
  {
    hide LongestFrom, Durations, OrderTopological, AntichainOfSize;
    var after := longest[i := value];
    assert forall a :: 0 <= a < k ==> o.order[a] != i;
    if critical <= value {
      assert after[o.order[k]] == value;
    } else {
      var a :| 0 <= a < k && o.order[a] < |g.nodes| && longest[o.order[a]] == critical;
      assert after[o.order[a]] == critical;
    }
  }

  /** Every chain inside nd starts at some ordered node, so the largest chain value is the
    * longest chain of all. */
  lemma CriticalIsLongest<K, V, E>(g: Dag<K, V, E>, nd: set<nat>, o: Record, longest: seq<nat>, critical: nat)
    requires Sized(o, |g.nodes|) && nd != {} && forall i: nat :: i in o.order <==> i in nd
    requires PathsTo(g, o, |o.order|, longest, critical)
    ensures LongestIn(g, Durations(g, o), nd, critical)
    ensures exists a :: 0 <= a < |o.order| && o.order[a] < |g.nodes| && longest[o.order[a]] == critical
  {
    var dur := Durations(g, o);
    var r :| r in nd;
    assert r in o.order;
    var a :| 0 <= a < |o.order| && o.order[a] < |g.nodes| && longest[o.order[a]] == critical;
    assert LongestFrom(g, dur, o.order[a], critical);
    assert o.order[a] in nd;
    forall p | IsPath(g, p) && p[0] in nd
      ensures Total(dur, p) <= critical
    {
      assert p[0] in o.order;
      var b :| 0 <= b < |o.order| && o.order[b] == p[0];
      assert LongestFrom(g, dur, p[0], longest[p[0]]);
    }
  }

  ghost predicate EntriesTo<K, V, E>(g: Dag<K, V, E>, nd: set<nat>, o: Record, k: nat, nodes: seq<NodeTrace<K>>)
    requires k <= |o.order| && Sized(o, |g.nodes|)
  {
    |nodes| == k && forall a :: 0 <= a < k ==>
        o.order[a] in nd && o.order[a] < |g.nodes| && nodes[a] == Entry(g, o, o.order[a])
  }

  lemma EntriesInOrder<K, V, E>(g: Dag<K, V, E>, nd: set<nat>, parallel: bool, o: Record, t: ExecutionTrace<K>)
    requires FullRecord(g, nd, parallel, o) && EntriesTo(g, nd, o, |o.order|, t.nodes)
    ensures forall b, d :: 0 <= b < |t.nodes| && d in t.nodes[b].deps ==> FinishedEarlier(t, d, b)
  {
    forall b, d | 0 <= b < |t.nodes| && d in t.nodes[b].deps
      ensures FinishedEarlier(t, d, b)
    {
      var i := o.order[b];
      var q :| 0 <= q < |g.nodes[i].deps| && g.nodes[i].deps[q] == d;
      assert RanBefore(o, d, b);
      var a :| 0 <= a < b && o.order[a] == d;
      assert t.nodes[a].id == d;
    }
  }

  lemma EntriesFit<K, V, E>(g: Dag<K, V, E>, nd: set<nat>, parallel: bool, o: Record, t: ExecutionTrace<K>)
    requires FullRecord(g, nd, parallel, o) && EntriesTo(g, nd, o, |o.order|, t.nodes)
    ensures |t.nodes| == |nd| && IsDurations(g, t, Durations(g, o))
    ensures forall a :: 0 <= a < |t.nodes| ==> EntryFits(g, parallel, t.nodes[a]) && t.nodes[a].id in nd
    ensures forall a, b :: 0 <= a < b < |t.nodes| ==> t.nodes[a].id != t.nodes[b].id
  {
    hide AntichainOfSize, OrderTopological;
    DistinctCount(o.order);
    assert nd == set j | 0 <= j < |o.order| :: o.order[j];
  }

  lemma FinishedTrace<K, V, E>(g: Dag<K, V, E>, nd: set<nat>, parallel: bool, o: Record, longest: seq<nat>,
                               t: ExecutionTrace<K>)
    requires nd != {} && FullRecord(g, nd, parallel, o)
    requires EntriesTo(g, nd, o, |o.order|, t.nodes) && PathsTo(g, o, |o.order|, longest, t.criticalPathTime)
    requires t.executedNodes == |t.nodes| && t.maxFrontierWidth == o.width && t.wallTime >= o.now
    ensures TraceSpec(g, nd, parallel, t) && ReportsRecord(o, t)
  {
    EntriesReport(g, nd, parallel, o, t);
    CriticalIsLongest(g, nd, o, longest, t.criticalPathTime);
    EntriesInOrder(g, nd, parallel, o, t);
    EntriesFit(g, nd, parallel, o, t);
    FitsWallTime(g, nd, parallel, o, longest, t.criticalPathTime);
    hide LongestIn, AntichainOfSize, EntryFits, FinishedEarlier, IsDurations, EntriesTo, PathsTo, OrderTopological,
      NodeReported;
  }

  lemma EntriesReport<K, V, E>(g: Dag<K, V, E>, nd: set<nat>, parallel: bool, o: Record, t: ExecutionTrace<K>)
    requires FullRecord(g, nd, parallel, o) && EntriesTo(g, nd, o, |o.order|, t.nodes)
    ensures |t.nodes| == |o.order|
    ensures forall a :: 0 <= a < |t.nodes| ==> t.nodes[a].id == o.order[a] && NodeReported(o, t.nodes[a])
  {
    hide AntichainOfSize, OrderTopological;
  }

  /** The longest chain ends by the finish time of the node it ends in. */
  lemma FitsWallTime<K, V, E>(g: Dag<K, V, E>, nd: set<nat>, parallel: bool, o: Record, longest: seq<nat>,
                              critical: nat)
    requires nd != {} && FullRecord(g, nd, parallel, o) && PathsTo(g, o, |o.order|, longest, critical)
    ensures critical <= o.now
  {
    hide LongestFrom, AntichainOfSize, OrderTopological, Durations;
    var r :| r in nd;
    assert r in o.order;
    var a :| 0 <= a < |o.order| && o.order[a] < |g.nodes| && longest[o.order[a]] == critical;
    assert o.order[a] in nd;
  }

  /** Turn the record into a report. The recurrence visits nodes in start order; missing marks
    * fall back to defaults, which never happens for the record of a completed run. */
  method Finalize<K, V, E>(g: Dag<K, V, E>, needed: seq<bool>, observer: TraceObserver, ghost parallel: bool)
    returns (t: ExecutionTrace<K>)
    requires g.Valid() && |needed| == |g.nodes| && Sized(observer.View(), |g.nodes|)
    requires forall a :: 0 <= a < |observer.executionOrder| ==> observer.executionOrder[a] < |g.nodes|
    modifies observer
    ensures MaskSet(needed) != {} && ClosedUnderDeps(g, MaskSet(needed)) &&
            FullRecord(g, MaskSet(needed), parallel, old(observer.View())) ==>
              TraceSpec(g, MaskSet(needed), parallel, t) && ReportsRecord(old(observer.View()), t)
    ensures t.wallTime == observer.now >= old(observer.now)
  {
    var o := observer.View();
    var wallTime := observer.Elapsed();
    ghost var nd := MaskSet(needed);
    ghost var full := nd != {} && ClosedUnderDeps(g, nd) && FullRecord(g, nd, parallel, o);
    var nodes: seq<NodeTrace<K>> := [];
    var longest: seq<nat> := seq(|g.nodes|, _ => 0);
    var critical := 0;
    for k := 0 to |o.order|
      invariant observer.now == wallTime
      invariant |longest| == |g.nodes| && (full ==> PathsTo(g, o, k, longest, critical))
      invariant full ==> EntriesTo(g, nd, o, k, nodes)
    {
      hide FullRecord, EntriesTo, PathsTo, ClosedUnderDeps, Durations;
      var id := o.order[k];
      if full { OrderIsNeeded(g, nd, parallel, o, k); }
      if needed[id] {
        var entry := Entry(g, o, id);
        var parent := ParentPath(g, needed, id, longest);
        if full {
          EntriesStep(g, nd, parallel, o, k, nodes, entry);
          PathsAdvance(g, needed, parallel, o, k, longest, critical, parent, entry);
        }
        longest := longest[id := parent + entry.runDuration];
        critical := Max(critical, longest[id]);
        nodes := nodes + [entry];
      }
    }
    t := ExecutionTrace(nodes, wallTime, critical, o.width, |nodes|);
    if full { FinishedTrace(g, nd, parallel, o, longest, t); }
  }

  lemma NeededDeps<K, V, E>(g: Dag<K, V, E>, nd: set<nat>, parallel: bool, o: Record, k: nat)
    requires g.Valid() && k < |o.order| && o.order[k] < |g.nodes|
    requires FullRecord(g, nd, parallel, o) && ClosedUnderDeps(g, nd)
    ensures o.order[k] in nd
    ensures forall q :: 0 <= q < |g.nodes[o.order[k]].deps| ==> g.nodes[o.order[k]].deps[q] in nd
  {
    OrderIsNeeded(g, nd, parallel, o, k);
  }

  lemma OrderIsNeeded<K, V, E>(g: Dag<K, V, E>, nd: set<nat>, parallel: bool, o: Record, k: nat)
    requires FullRecord(g, nd, parallel, o) && k < |o.order|
    ensures o.order[k] in nd
  {
    assert o.order[k] in o.order;
  }

  lemma EntriesStep<K, V, E>(g: Dag<K, V, E>, nd: set<nat>, parallel: bool, o: Record, k: nat,
                             nodes: seq<NodeTrace<K>>, entry: NodeTrace<K>)
    requires Sized(o, |g.nodes|) && k < |o.order| && o.order[k] < |g.nodes| && entry == Entry(g, o, o.order[k])
    requires FullRecord(g, nd, parallel, o) && EntriesTo(g, nd, o, k, nodes)
    ensures EntriesTo(g, nd, o, k + 1, nodes + [entry])
  {
    OrderIsNeeded(g, nd, parallel, o, k);
    hide FullRecord;
  }

  lemma PathsAdvance<K, V, E>(g: Dag<K, V, E>, needed: seq<bool>, parallel: bool, o: Record, k: nat,
                              longest: seq<nat>, critical: nat, parent: nat, entry: NodeTrace<K>)
    requires Sized(o, |g.nodes|) && |needed| == |longest| == |g.nodes| && g.Valid()
    requires k < |o.order| && o.order[k] < |g.nodes| && entry == Entry(g, o, o.order[k])
    requires forall q :: 0 <= q < |entry.deps| && needed[entry.deps[q]] ==> longest[entry.deps[q]] <= parent
    requires parent == 0 ||
             (exists q :: 0 <= q < |entry.deps| && needed[entry.deps[q]] && parent == longest[entry.deps[q]])
    requires ClosedUnderDeps(g, MaskSet(needed)) && FullRecord(g, MaskSet(needed), parallel, o)
    requires PathsTo(g, o, k, longest, critical)
    ensures PathsTo(g, o, k + 1, longest[entry.id := parent + entry.runDuration],
                    Max(critical, parent + entry.runDuration))
  {
    var nd := MaskSet(needed);
    assert Durations(g, o)[entry.id] == entry.runDuration;
    NeededDeps(g, nd, parallel, o, k);
    hide FullRecord, PathsTo, ClosedUnderDeps, Durations, LongestFrom;
    PathsNode(g, nd, parallel, o, k, longest, critical, parent, entry.id);
    PathsStep(g, nd, parallel, o, k, longest, critical, entry.id, parent + entry.runDuration);
  }
}
