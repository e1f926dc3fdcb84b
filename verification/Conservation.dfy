/** Where every needed node is. At each scheduler step a needed node is in exactly one of
  * seven places, and the tasks in flight are those queued, running, or finished and unread. */
module Conservation {
  import opened Graph
  import opened Kahn
  import opened Observer
  import opened ExecState
  import opened Calls
  import opened Pool
  import opened Schedule
  import opened Parallel

  ghost function Queues<V, E>(ks: seq<Worker<V, E>>): (r: seq<seq<Task<V, E>>>)
    ensures |r| == |ks|
  {
    seq(|ks|, w requires 0 <= w < |ks| => ks[w].queue)
  }

  ghost function RunningSlots<V, E>(ks: seq<Worker<V, E>>): (r: seq<seq<Task<V, E>>>)
    ensures |r| == |ks|
  {
    seq(|ks|, w requires 0 <= w < |ks| => Opt(ks[w].running))
  }

  /** Calls whose results were not read yet, by worker. */
  ghost function Unread<V, E>(lanes: seq<Lane<V, E>>): (r: seq<seq<Task<V, E>>>)
    requires forall w :: 0 <= w < |lanes| ==> |lanes[w].got| <= |lanes[w].called|
    ensures |r| == |lanes|
  {
    seq(|lanes|, w requires 0 <= w < |lanes| => lanes[w].called[|lanes[w].got|..])
  }

  ghost function LinesOf<V, E>(lanes: seq<Lane<V, E>>): (r: seq<seq<Task<V, E>>>)
    ensures |r| == |lanes|
  {
    seq(|lanes|, w requires 0 <= w < |lanes| => lanes[w].line)
  }

  ghost function ResultIds<V, E>(rs: seq<TaskResult<V, E>>): multiset<nat> {
    if rs == [] then multiset{} else ResultIds(rs[..|rs| - 1]) + multiset{rs[|rs| - 1].id}
  }

  lemma {:induction false} ResultIdsSize<V, E>(rs: seq<TaskResult<V, E>>)
    ensures |ResultIds(rs)| == |rs|
  {
    if rs != [] { ResultIdsSize(rs[..|rs| - 1]); }
  }

  /** The unread results of workers 0 .. n - 1. */
  ghost function ResultsBelow<V, E>(rs: seq<TaskResult<V, E>>, n: nat): multiset<nat> {
    if n == 0 then multiset{} else ResultsBelow(rs, n - 1) + ResultIds(From(rs, n - 1))
  }

  lemma FromIds<V, E>(rs: seq<TaskResult<V, E>>, r: TaskResult<V, E>, w: nat, i: nat)
    ensures ResultIds(From(rs + [r], w))[i] == ResultIds(From(rs, w))[i] + (if r.worker == w && r.id == i then 1 else 0)
  {
    FromAppend(rs, r, w);
    ResultIdsAppend(From(rs, w), r);
    hide From, ResultIds;
    assert From(rs, w) + [] == From(rs, w);
  }

  lemma {:induction false} ResultsBelowAppend<V, E>(rs: seq<TaskResult<V, E>>, r: TaskResult<V, E>, n: nat, i: nat)
    ensures ResultsBelow(rs + [r], n)[i] == ResultsBelow(rs, n)[i] + (if r.worker < n && r.id == i then 1 else 0)
  {
    hide From, ResultIds;
    if n > 0 {
      ResultsBelowAppend(rs, r, n - 1, i);
      FromIds(rs, r, n - 1, i);
    }
  }

  lemma ResultIdsAppend<V, E>(rs: seq<TaskResult<V, E>>, r: TaskResult<V, E>)
    ensures ResultIds(rs + [r]) == ResultIds(rs) + multiset{r.id}
  {
    assert (rs + [r])[..|rs|] == rs;
  }

  /** Splitting the result channel by sender loses nothing. */
  lemma {:induction false} ResultsBelowAll<V, E>(rs: seq<TaskResult<V, E>>, n: nat, i: nat)
    requires forall j :: 0 <= j < |rs| ==> rs[j].worker < n
    ensures ResultsBelow(rs, n)[i] == ResultIds(rs)[i]
  {
    if rs == [] {
      ResultsBelowNone<V, E>(n);
    } else {
      var q := rs[..|rs| - 1];
      assert rs == q + [rs[|rs| - 1]];
      ResultsBelowAll(q, n, i);
      ResultsBelowAppend(q, rs[|rs| - 1], n, i);
    }
  }

  lemma {:induction false} ResultsBelowNone<V, E>(n: nat)
    ensures ResultsBelow<V, E>([], n) == multiset{}
  {
    if n > 0 { ResultsBelowNone<V, E>(n - 1); }
  }

  lemma {:induction false} MatchIds<V, E>(w: nat, rs: seq<TaskResult<V, E>>, ts: seq<Task<V, E>>)
    requires ResultsMatch(w, rs, ts)
    ensures ResultIds(rs) == TaskIds(ts)
  {
    if rs != [] { MatchIds(w, rs[..|rs| - 1], ts[..|ts| - 1]); }
  }

  lemma {:induction false} UnreadIds<V, E>(rs: seq<TaskResult<V, E>>, unread: seq<seq<Task<V, E>>>, i: nat)
    requires forall w :: 0 <= w < |unread| ==> ResultsMatch(w, From(rs, w), unread[w])
    ensures AllIds(unread)[i] == ResultsBelow(rs, |unread|)[i]
  {
    hide ResultsMatch, From, ResultIds, TaskIds;
    if unread != [] {
      var n := |unread| - 1;
      UnreadIds(rs, unread[..n], i);
      MatchIds(n, From(rs, n), unread[n]);
    }
  }

  lemma {:induction false} AllIdsSplit<V, E>(lists: seq<seq<Task<V, E>>>, a: seq<seq<Task<V, E>>>,
                                             b: seq<seq<Task<V, E>>>,
                                             c: seq<seq<Task<V, E>>>, i: nat)
    requires |lists| == |a| == |b| == |c| && forall w :: 0 <= w < |lists| ==> lists[w] == a[w] + b[w] + c[w]
    ensures AllIds(lists)[i] == AllIds(a)[i] + AllIds(b)[i] + AllIds(c)[i]
  {
    if lists != [] {
      var n := |lists| - 1;
      AllIdsSplit(lists[..n], a[..n], b[..n], c[..n], i);
      TaskIdsConcat(a[n] + b[n], c[n]);
      TaskIdsConcat(a[n], b[n]);
    }
  }

  lemma LineSplits<V, E>(w: nat, k: Worker<V, E>, results: seq<TaskResult<V, E>>, l: Lane<V, E>, cap: nat)
    requires LaneInv(w, k, results, l, cap)
    ensures l.line == l.called[|l.got|..] + Opt(k.running) + k.queue
    ensures ResultsMatch(w, From(results, w), l.called[|l.got|..])
  {
    assert l.line == (l.got + l.line)[|l.got|..];
  }

  /** The tasks outstanding at the workers are the unread results, the running calls and the
    * queued tasks. */
  lemma OutstandingSplits<V, E>(ks: seq<Worker<V, E>>, results: seq<TaskResult<V, E>>, lanes: seq<Lane<V, E>>, cap: nat)
    requires |ks| == |lanes| && forall w :: 0 <= w < |ks| ==> LaneInv(w, ks[w], results, lanes[w], cap)
    requires forall j :: 0 <= j < |results| ==> results[j].worker < |ks|
    ensures AllIds(LinesOf(lanes)) == ResultIds(results) + AllIds(RunningSlots(ks)) + AllIds(Queues(ks))
  {
    var unread := Unread(lanes);
    forall w | 0 <= w < |ks|
      ensures LinesOf(lanes)[w] == unread[w] + RunningSlots(ks)[w] + Queues(ks)[w]
      ensures ResultsMatch(w, From(results, w), unread[w])
    {
      LineSplits(w, ks[w], results, lanes[w], cap);
    }
    hide LaneInv, ResultsMatch;
    forall i: nat
      ensures AllIds(LinesOf(lanes))[i] == (ResultIds(results) + AllIds(RunningSlots(ks)) + AllIds(Queues(ks)))[i]
    {
      AllIdsSplit(LinesOf(lanes), unread, RunningSlots(ks), Queues(ks), i);
      UnreadIds(results, unread, i);
      ResultsBelowAll(results, |ks|, i);
    }
  }

  ghost function One(b: bool): nat {
    if b then 1 else 0
  }

  /** In every state between two scheduler actions, a needed node is in exactly one place:
    * unreleased, in the ready queue, pending, in some worker's queue, running, in an unread
    * result, or done. Other nodes are nowhere. */
  lemma ExactlyOnePlace<K, V, E>(s: Scheduler<K, V, E>, i: nat)
    requires s.Valid()
    ensures var core, ks := s.st.View(), s.pool.workers;
            One(i in MaskSet(s.st.needed) && i < |core.indeg| && core.indeg[i] > 0)
            + multiset(s.st.ready)[i] + PendingIds(s.pending)[i]
            + AllIds(Queues(ks))[i] + AllIds(RunningSlots(ks))[i] + ResultIds(s.pool.results)[i]
            + One(i in DoneSet(core.vals))
            == One(i in MaskSet(s.st.needed))
  {
    hide Scheduler.Rotating, SchedInv, LaneInv, KahnState.Valid;
    OutstandingSplits(s.pool.workers, s.pool.results, s.pool.lanes, s.pool.cap);
    assert LinesOf(s.pool.lanes) == s.pool.Lines();
    NodePlace(s.st.dag, s.st.needed, s.cfg, s.View(), i);
  }

  lemma NodePlace<K, V, E>(g: Dag<K, V, E>, needed: seq<bool>, cfg: ExecutorConfig, s: Sched<V, E>, i: nat)
    requires SchedInv(g, needed, cfg, s)
    ensures One(i in MaskSet(needed) && i < |s.core.indeg| && s.core.indeg[i] > 0)
            + multiset(s.core.ready)[i] + PendingIds(s.pending)[i] + AllIds(s.lines)[i] + One(i in DoneSet(s.core.vals))
            == One(i in MaskSet(needed))
  {
    FrontierIndicator(g, needed, s.core, i);
    hide CoreInv, FlightInv, EarlyInv, EffectiveCap;
  }

  lemma FrontierIndicator<K, V, E>(g: Dag<K, V, E>, needed: seq<bool>, c: Core<V>, i: nat)
    requires CoreInv(g, needed, true, c)
    ensures One(i in MaskSet(needed) && i < |c.indeg| && c.indeg[i] > 0) + c.Frontier()[i] + One(i in DoneSet(c.vals))
            == One(i in MaskSet(needed))
  {
    hide TraceInv, SeedOrder, Dag.Valid;
    assert c.Frontier()[i] == if Open(needed, c.indeg, DoneSet(c.vals), i) then 1 else 0;
  }

  /** `in_flight` counts the queued, running and unread tasks, `processed` the finished nodes. */
  lemma CountersExact<K, V, E>(s: Scheduler<K, V, E>)
    requires s.Valid()
    ensures s.inFlight == |AllIds(Queues(s.pool.workers))| + |AllIds(RunningSlots(s.pool.workers))| + |s.pool.results|
    ensures s.processed == |DoneSet(s.st.vals[..])|
  {
    hide CoreInv, FlightInv, EarlyInv, EffectiveCap, LaneInv, OwedTable, Dag.Valid;
    OutstandingSplits(s.pool.workers, s.pool.results, s.pool.lanes, s.pool.cap);
    assert LinesOf(s.pool.lanes) == s.pool.Lines();
    ResultIdsSize(s.pool.results);
    SumOfThree(ResultIds(s.pool.results), AllIds(RunningSlots(s.pool.workers)), AllIds(Queues(s.pool.workers)));
  }

  lemma SumOfThree(a: multiset<nat>, b: multiset<nat>, c: multiset<nat>)
    ensures |a + b + c| == |a| + |b| + |c|
  {
  }

  /** What is in flight never exceeds the global cap, nor the physical room of the workers. */
  lemma InFlightBound<K, V, E>(g: Dag<K, V, E>, needed: seq<bool>, cfg: ExecutorConfig, s: Sched<V, E>)
    requires SchedInv(g, needed, cfg, s)
    ensures s.inFlight <= cfg.maxInFlight && s.inFlight <= cfg.maxWorkers * (cfg.workerQueueCap + 1)
    ensures EffectiveCap(cfg) >= 1
  {
    EffectiveCapExact(cfg);
  }

  /** No two nodes that are ready, pending or in flight depend on one another. */
  lemma UnderWayIncomparable<K, V, E>(s: Scheduler<K, V, E>, i: nat, j: nat)
    requires s.Valid()
    requires s.st.View().Frontier()[i] > 0 && s.st.View().Frontier()[j] > 0
    ensures !DependsOn(s.st.dag, i, j)
    ensures s.st.View().Frontier() == multiset(s.st.ready) + PendingIds(s.pending) + AllIds(s.pool.Lines())
  {
    var c := s.st.View();
    FrontierIncomparable(s.st.dag, s.st.needed, c.vals, c.indeg, c.Frontier(), c.owed, i, j);
    hide CoreInv, FlightInv, EarlyInv, EffectiveCap, LaneInv;
  }
}
