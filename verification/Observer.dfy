/** What the trace observer records while an executor runs, and the invariant that makes its
  * record a faithful account: start order is topological, times are ordered, and the widest
  * frontier seen was an antichain. */
module Observer {
  import opened Wrappers
  import opened Graph
  import opened Kahn

  /** A snapshot of the observer's fields. Times are durations since the observer started. */
  datatype Record = Record(readyAt: seq<Option<nat>>, startedAt: seq<Option<nat>>, finishedAt: seq<Option<nat>>,
                           workerId: seq<Option<nat>>, order: seq<nat>, width: nat, now: nat)

  /** First write wins. */
  function SetOnce(s: seq<Option<nat>>, id: nat, v: Option<nat>): seq<Option<nat>>
    requires id < |s|
  {
    if s[id].None? then s[id := v] else s
  }

  function OnReady(o: Record, id: nat, width: nat, t: nat): Record
    requires id < |o.readyAt|
  {
    o.(readyAt := SetOnce(o.readyAt, id, Some(t)), width := if width > o.width then width else o.width, now := t)
  }

  function OnStart(o: Record, id: nat, worker: Option<nat>, t: nat): Record
    requires id < |o.startedAt| && id < |o.workerId|
  {
    o.(startedAt := SetOnce(o.startedAt, id, Some(t)),
       order := if o.startedAt[id].None? then o.order + [id] else o.order,
       workerId := SetOnce(o.workerId, id, worker), now := t)
  }

  function OnFinish(o: Record, id: nat, t: nat): Record
    requires id < |o.finishedAt|
  {
    o.(finishedAt := SetOnce(o.finishedAt, id, Some(t)), now := t)
  }

  class TraceObserver {
    var now: nat
    var readyAt: seq<Option<nat>>
    var startedAt: seq<Option<nat>>
    var finishedAt: seq<Option<nat>>
    var workerId: seq<Option<nat>>
    var executionOrder: seq<nat>
    var maxFrontierWidth: nat

    function View(): Record
      reads this
    {
      Record(readyAt, startedAt, finishedAt, workerId, executionOrder, maxFrontierWidth, now)
    }

    constructor (nodeCount: nat)
      ensures View() == Blank(nodeCount)
    {
      now := 0;
      readyAt := seq(nodeCount, _ => None);
      startedAt := seq(nodeCount, _ => None);
      finishedAt := seq(nodeCount, _ => None);
      workerId := seq(nodeCount, _ => None);
      executionOrder := [];
      maxFrontierWidth := 0;
    }

    /** The clock only moves forward, by any amount, whenever it is read. */
    method Elapsed() returns (t: nat)
      modifies this`now
      ensures t == now >= old(now)
    {
      var passed: nat :| 0 <= passed;
      now := now + passed;
      t := now;
    }

    method MarkReady(id: nat, frontierWidth: nat)
      requires id < |readyAt|
      modifies this
      ensures now >= old(now) && View() == OnReady(old(View()), id, frontierWidth, now)
      ensures readyAt == if old(readyAt[id]).None? then old(readyAt)[id := Some(now)] else old(readyAt)
      ensures maxFrontierWidth >= old(maxFrontierWidth) && maxFrontierWidth >= frontierWidth
      ensures maxFrontierWidth == old(maxFrontierWidth) || maxFrontierWidth == frontierWidth
      ensures startedAt == old(startedAt) && finishedAt == old(finishedAt) && workerId == old(workerId)
      ensures executionOrder == old(executionOrder)
    {
      var t := Elapsed();
      if readyAt[id].None? {
        readyAt := readyAt[id := Some(t)];
      }
      maxFrontierWidth := if frontierWidth > maxFrontierWidth then frontierWidth else maxFrontierWidth;
    }

    method MarkStart(id: nat, worker: Option<nat>)
      requires id < |startedAt| && id < |workerId|
      modifies this
      ensures now >= old(now) && View() == OnStart(old(View()), id, worker, now)
      ensures startedAt == if old(startedAt[id]).None? then old(startedAt)[id := Some(now)] else old(startedAt)
      ensures executionOrder
           == if old(startedAt[id]).None? then old(executionOrder) + [id] else old(executionOrder)
      ensures workerId == if old(workerId[id]).None? then old(workerId)[id := worker] else old(workerId)
      ensures readyAt == old(readyAt) && finishedAt == old(finishedAt) && maxFrontierWidth == old(maxFrontierWidth)
    {
      var t := Elapsed();
      if startedAt[id].None? {
        startedAt := startedAt[id := Some(t)];
        executionOrder := executionOrder + [id];
      }
      if workerId[id].None? {
        workerId := workerId[id := worker];
      }
    }

    method MarkFinish(id: nat)
      requires id < |finishedAt|
      modifies this
      ensures now >= old(now) && View() == OnFinish(old(View()), id, now)
      ensures finishedAt == if old(finishedAt[id]).None? then old(finishedAt)[id := Some(now)] else old(finishedAt)
      ensures readyAt == old(readyAt) && startedAt == old(startedAt) && workerId == old(workerId)
      ensures executionOrder == old(executionOrder) && maxFrontierWidth == old(maxFrontierWidth)
    {
      var t := Elapsed();
      if finishedAt[id].None? {
        finishedAt := finishedAt[id := Some(t)];
      }
    }
  }

  ghost function Blank(n: nat): Record {
    Record(seq(n, _ => None), seq(n, _ => None), seq(n, _ => None), seq(n, _ => None), [], 0, 0)
  }

  // ---------------------------------------------------------------------------------------
  // Invariant
  // ---------------------------------------------------------------------------------------

  ghost predicate Sized(o: Record, n: nat) {
    |o.readyAt| == |o.startedAt| == |o.finishedAt| == |o.workerId| == n
  }

  /** Started are exactly the released nodes that are not waiting to be started, each listed
    * once in the order. */
  ghost predicate StartedExact(o: Record, needed: seq<bool>, indeg: seq<nat>, waiting: multiset<nat>) {
    && (forall i :: 0 <= i < |o.startedAt| ==> (o.startedAt[i].Some? <==> i in o.order))
    && (forall a, b :: 0 <= a < b < |o.order| ==> o.order[a] != o.order[b])
    && (forall i: nat :: i in o.order <==> i < |needed| == |indeg| && needed[i] && indeg[i] == 0 && waiting[i] == 0)
  }

  /** Released nodes have a ready time; ready <= started <= finished <= now. */
  ghost predicate TimesOrdered(o: Record, needed: seq<bool>, indeg: seq<nat>)
    requires Sized(o, |needed|) && |indeg| == |needed|
  {
    forall i :: 0 <= i < |needed| ==>
      && (needed[i] && indeg[i] == 0 ==> o.readyAt[i].Some?)
      && (o.readyAt[i].Some? ==> o.readyAt[i].value <= o.now)
      && (o.startedAt[i].Some? ==> o.readyAt[i].Some? && o.readyAt[i].value <= o.startedAt[i].value <= o.now)
      && (o.finishedAt[i].Some? ==> o.startedAt[i].Some? && o.startedAt[i].value <= o.finishedAt[i].value <= o.now)
  }

  ghost predicate DoneFinished<V>(o: Record, vals: seq<Option<V>>, unfinished: set<nat>) {
    forall i: nat :: i in DoneSet(vals) && i !in unfinished ==> i < |o.finishedAt| && o.finishedAt[i].Some?
  }

  /** d was listed before position b and had finished when the node at b started. */
  ghost predicate RanBefore(o: Record, d: nat, b: nat)
    requires b < |o.order|
  {
    && d in o.order[..b]
    && d < |o.finishedAt| && o.order[b] < |o.startedAt|
    && o.finishedAt[d].Some? && o.startedAt[o.order[b]].Some?
    && o.finishedAt[d].value <= o.startedAt[o.order[b]].value
  }

  /** The start order is topological, in positions and in time. */
  ghost predicate OrderTopological<K, V, E>(g: Dag<K, V, E>, o: Record) {
    forall b, p :: 0 <= b < |o.order| && o.order[b] < |g.nodes| && 0 <= p < |g.nodes[o.order[b]].deps| ==>
                     RanBefore(o, g.nodes[o.order[b]].deps[p], b)
  }

  /** Worker ids are recorded for started tasks of a parallel run and for nothing else. */
  ghost predicate WorkersRecorded<K, V, E>(g: Dag<K, V, E>, o: Record, parallel: bool)
    requires Sized(o, |g.nodes|)
  {
    forall i :: 0 <= i < |g.nodes| ==>
                  (o.workerId[i].Some? <==> o.startedAt[i].Some? && parallel && g.nodes[i].kind.Task?)
  }

  /** w nodes of s none of which depends on another. */
  ghost predicate AntichainOfSize<K, V, E>(g: Dag<K, V, E>, s: set<nat>, w: nat) {
    exists a: set<nat> :: a <= s && Incomparable(g, a) && |a| == w
  }

  ghost predicate TraceInv<K, V, E>(g: Dag<K, V, E>, needed: seq<bool>, vals: seq<Option<V>>, indeg: seq<nat>,
                                    waiting: multiset<nat>, unfinished: set<nat>, parallel: bool, o: Record)
  {
    && |needed| == |indeg| == |g.nodes|
    && Sized(o, |g.nodes|)
    && StartedExact(o, needed, indeg, waiting)
    && TimesOrdered(o, needed, indeg)
    && DoneFinished(o, vals, unfinished)
    && OrderTopological(g, o)
    && WorkersRecorded(g, o, parallel)
    && AntichainOfSize(g, MaskSet(needed), o.width)
  }

  /** The ready nodes are an antichain of needed nodes as wide as the queue is long. */
  lemma ReadyIsAntichain<K, V, E>(g: Dag<K, V, E>, needed: seq<bool>, vals: seq<Option<V>>, indeg: seq<nat>,
                                  frontier: multiset<nat>, owed: multiset<nat>, ready: seq<nat>)
    requires KahnInv(g, needed, vals, indeg, frontier, owed) && multiset(ready) <= frontier
    ensures AntichainOfSize(g, MaskSet(needed), |ready|)
  {
    var a := set j | 0 <= j < |ready| :: ready[j];
    FrontierOnce(g, needed, vals, indeg, frontier, owed);
    OnceMeansDistinct(ready);
    DistinctCount(ready);
    hide KahnInv;
    forall i | i in a
      ensures frontier[i] > 0
    {
      assert multiset(ready)[i] > 0;
    }
    forall i, j | i in a && j in a
      ensures !DependsOn(g, i, j)
    {
      FrontierIncomparable(g, needed, vals, indeg, frontier, owed, i, j);
    }
  }

  lemma FrontierOnce<K, V, E>(g: Dag<K, V, E>, needed: seq<bool>, vals: seq<Option<V>>, indeg: seq<nat>,
                              frontier: multiset<nat>, owed: multiset<nat>)
    requires KahnInv(g, needed, vals, indeg, frontier, owed)
    ensures forall i: nat :: frontier[i] <= 1 && (frontier[i] > 0 ==> i in MaskSet(needed))
  {
  }

  lemma {:induction false} OnceMeansDistinct(s: seq<nat>)
    requires forall i: nat :: multiset(s)[i] <= 1
    ensures forall x, y :: 0 <= x < y < |s| ==> s[x] != s[y]
  {
    if s != [] {
      var q, last := s[..|s| - 1], s[|s| - 1];
      assert s == q + [last];
      assert forall i: nat :: multiset(s)[i] == multiset(q)[i] + (if i == last then 1 else 0);
      OnceMeansDistinct(q);
      assert forall x :: 0 <= x < |q| ==> q[x] in multiset(q) && s[x] == q[x];
    }
  }

  /** A node whose last dependency has just been released joins the ready queue. */
  lemma ReadyKeeps<K, V, E>(g: Dag<K, V, E>, needed: seq<bool>, vals: seq<Option<V>>, indeg: seq<nat>, indeg': seq<nat>,
                            waiting: multiset<nat>, unfinished: set<nat>, parallel: bool, o: Record,
                            id: nat, width: nat, t: nat)
    requires TraceInv(g, needed, vals, indeg, waiting, unfinished, parallel, o)
    requires id < |indeg| && needed[id] && indeg[id] > 0 && indeg' == indeg[id := 0] && t >= o.now
    requires AntichainOfSize(g, MaskSet(needed), width)
    ensures TraceInv(g, needed, vals, indeg', waiting + multiset{id}, unfinished, parallel, OnReady(o, id, width, t))
  {
    var o' := OnReady(o, id, width, t);
    assert id !in o.order && o.startedAt[id].None?;
    assert StartedExact(o', needed, indeg', waiting + multiset{id});
    assert OrderTopological(g, o') by {
      forall b, p | 0 <= b < |o'.order| && o'.order[b] < |g.nodes| && 0 <= p < |g.nodes[o'.order[b]].deps|
        ensures RanBefore(o', g.nodes[o'.order[b]].deps[p], b)
      {
        assert RanBefore(o, g.nodes[o.order[b]].deps[p], b);
      }
    }
  }

  /** A decrement that does not reach zero leaves the record alone. */
  lemma DecrementKeeps<K, V, E>(g: Dag<K, V, E>, needed: seq<bool>, vals: seq<Option<V>>, indeg: seq<nat>,
                                indeg': seq<nat>,
                                waiting: multiset<nat>, unfinished: set<nat>, parallel: bool, o: Record, id: nat)
    requires TraceInv(g, needed, vals, indeg, waiting, unfinished, parallel, o)
    requires id < |indeg| && indeg[id] > 1 && indeg' == indeg[id := indeg[id] - 1]
    ensures TraceInv(g, needed, vals, indeg', waiting, unfinished, parallel, o)
  {
  }

  /** d is listed and has finished. */
  ghost predicate HasRun(o: Record, d: nat) {
    d in o.order && d < |o.finishedAt| && o.finishedAt[d].Some? && o.finishedAt[d].value <= o.now
  }

  lemma StartKeepsListing(o: Record, needed: seq<bool>, indeg: seq<nat>, waiting: multiset<nat>, id: nat,
                          worker: Option<nat>, t: nat)
    requires Sized(o, |needed|) && |indeg| == |needed| && StartedExact(o, needed, indeg, waiting)
    requires id < |needed| && needed[id] && indeg[id] == 0 && waiting[id] == 1
    ensures id !in o.order && o.startedAt[id].None?
    ensures StartedExact(OnStart(o, id, worker, t), needed, indeg, waiting - multiset{id})
  {
  }

  lemma DoneHasRun<K, V, E>(g: Dag<K, V, E>, needed: seq<bool>, vals: seq<Option<V>>, indeg: seq<nat>,
                            waiting: multiset<nat>, parallel: bool, o: Record, d: nat)
    requires d in DoneSet(vals) && d < |g.nodes| == |needed| == |indeg| && needed[d] && indeg[d] == 0 && waiting[d] == 0
    requires TraceInv(g, needed, vals, indeg, waiting, {}, parallel, o)
    ensures HasRun(o, d)
  {
    hide OrderTopological, AntichainOfSize, WorkersRecorded;
  }

  lemma StartKeepsOrder<K, V, E>(g: Dag<K, V, E>, o: Record, id: nat, worker: Option<nat>, t: nat)
    requires id < |g.nodes| && Sized(o, |g.nodes|) && id !in o.order && o.startedAt[id].None? && t >= o.now
    requires forall p :: 0 <= p < |g.nodes[id].deps| ==> HasRun(o, g.nodes[id].deps[p])
    requires OrderTopological(g, o)
    ensures OrderTopological(g, OnStart(o, id, worker, t))
  {
    var o' := OnStart(o, id, worker, t);
    forall b, p | 0 <= b < |o'.order| && o'.order[b] < |g.nodes| && 0 <= p < |g.nodes[o'.order[b]].deps|
      ensures RanBefore(o', g.nodes[o'.order[b]].deps[p], b)
    {
      if b < |o.order| {
        assert RanBefore(o, g.nodes[o.order[b]].deps[p], b);
        assert o'.order[..b] == o.order[..b];
      } else {
        assert HasRun(o, g.nodes[id].deps[p]);
        assert o'.order[..b] == o.order;
      }
    }
  }

  /** Starting a waiting node appends it to the order after all its dependencies. */
  lemma StartKeeps<K, V, E>(g: Dag<K, V, E>, needed: seq<bool>, vals: seq<Option<V>>, indeg: seq<nat>,
                            waiting: multiset<nat>, parallel: bool, o: Record, id: nat, worker: Option<nat>, t: nat)
    requires TraceInv(g, needed, vals, indeg, waiting, {}, parallel, o)
    requires id < |g.nodes| && needed[id] && indeg[id] == 0 && waiting[id] == 1 && t >= o.now
    requires |vals| == |g.nodes| && forall d :: d in DoneSet(vals) ==> indeg[d] == 0 && waiting[d] == 0 && needed[d]
    requires forall p :: 0 <= p < |g.nodes[id].deps| ==> g.nodes[id].deps[p] in DoneSet(vals)
    requires worker.Some? <==> parallel && g.nodes[id].kind.Task?
    ensures TraceInv(g, needed, vals, indeg, waiting - multiset{id}, {}, parallel, OnStart(o, id, worker, t))
  {
    hide OrderTopological, AntichainOfSize, StartedExact, DoneSet;
    StartKeepsListing(o, needed, indeg, waiting, id, worker, t);
    forall p | 0 <= p < |g.nodes[id].deps|
      ensures HasRun(o, g.nodes[id].deps[p])
    {
      DoneHasRun(g, needed, vals, indeg, waiting, parallel, o, g.nodes[id].deps[p]);
    }
    StartKeepsOrder(g, o, id, worker, t);
  }

  /** Finishing a started node. */
  lemma FinishKeeps<K, V, E>(g: Dag<K, V, E>, needed: seq<bool>, vals: seq<Option<V>>, indeg: seq<nat>,
                             waiting: multiset<nat>, unfinished: set<nat>, parallel: bool, o: Record, id: nat, t: nat)
    requires TraceInv(g, needed, vals, indeg, waiting, unfinished, parallel, o)
    requires id < |g.nodes| && needed[id] && indeg[id] == 0 && waiting[id] == 0 && t >= o.now
    ensures TraceInv(g, needed, vals, indeg, waiting, unfinished - {id}, parallel, OnFinish(o, id, t))
    ensures OnFinish(o, id, t).finishedAt[id].Some?
  {
    var o' := OnFinish(o, id, t);
    assert id in o.order;
    forall b, p | 0 <= b < |o'.order| && o'.order[b] < |g.nodes| && 0 <= p < |g.nodes[o'.order[b]].deps|
      ensures RanBefore(o', g.nodes[o'.order[b]].deps[p], b)
    {
      assert RanBefore(o, g.nodes[o.order[b]].deps[p], b);
    }
  }

  /** Writing a value obliges the observer to a finish mark, unless it already has one. */
  lemma StoreKeepsTrace<K, V, E>(g: Dag<K, V, E>, needed: seq<bool>, vals: seq<Option<V>>, indeg: seq<nat>,
                                 waiting: multiset<nat>, parallel: bool, o: Record, id: nat, v: V, unfinished: set<nat>)
    requires TraceInv(g, needed, vals, indeg, waiting, {}, parallel, o) && id < |vals| == |g.nodes|
    requires unfinished == {id} || (unfinished == {} && o.finishedAt[id].Some?)
    ensures TraceInv(g, needed, vals[id := Some(v)], indeg, waiting, unfinished, parallel, o)
  {
    hide StartedExact, TimesOrdered, OrderTopological, WorkersRecorded, AntichainOfSize;
    assert DoneSet(vals[id := Some(v)]) == DoneSet(vals) + {id};
  }
}
