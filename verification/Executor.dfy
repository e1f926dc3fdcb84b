/** The public entry points, plain and traced, and how the two executors' answers relate. */
module Executors {
  import opened Wrappers
  import opened Graph
  import opened Kahn
  import opened Outcomes
  import opened Common
  import opened Calls
  import opened Observer
  import opened Tracing
  import opened Fifo
  import opened Schedule
  import opened Rotation
  import opened Sequential
  import opened Parallel

  datatype TracedExecution<K(==), V> = TracedExecution(outputs: map<K, V>, trace: ExecutionTrace<K>)

  /** Exactly the requested keys, each with the meaning of its node. */
  ghost predicate IsAnswer<K, V, E>(g: Dag<K, V, E>, keys: seq<K>, outputs: map<K, V>) {
    && outputs.Keys == KeySet(keys)
    && (forall j :: 0 <= j < |keys| ==>
          && keys[j] in g.index && g.index[keys[j]] < |g.nodes|
          && Meaning(g, g.index[keys[j]]) == Defined(outputs[keys[j]]))
  }

  /** The answer handed to the caller for a scheduler outcome. */
  ghost predicate Delivers<K, V, E>(g: Dag<K, V, E>, keys: seq<K>, run: Result<Artifacts<V>, ExecError<K, E>>,
                                    r: Result<map<K, V>, ExecError<K, E>>)
  {
    if run.Failure? then r == Failure(run.error) else r.Success? && IsAnswer(g, keys, r.value)
  }

  ghost predicate DeliversTraced<K, V, E>(g: Dag<K, V, E>, keys: seq<K>, parallel: bool,
                                          run: Result<Artifacts<V>, ExecError<K, E>>,
                                          r: Result<TracedExecution<K, V>, ExecError<K, E>>)
  {
    if run.Failure? then r == Failure(run.error)
    else r.Success? && IsAnswer(g, keys, r.value.outputs) && TraceSpec(g, Requested(g, keys), parallel, r.value.trace)
  }

  /** A completed value table has a value for every requested key, so the lookup succeeds. */
  lemma TableAnswers<K, V, E>(g: Dag<K, V, E>, keys: seq<K>, vals: seq<Option<V>>)
    requires g.Valid() && FirstUnknown(g, keys).None? && vals == ValueTable(g, Requested(g, keys))
    requires !SomeTaskFails(g, Requested(g, keys)) && !SomeCycle(g, Requested(g, keys))
    ensures forall j :: 0 <= j < |keys| ==>
              && keys[j] in g.index && g.index[keys[j]] in Requested(g, keys) && vals[g.index[keys[j]]].Some?
              && Meaning(g, g.index[keys[j]]) == Defined(vals[g.index[keys[j]]].value)
  {
    var nd := Requested(g, keys);
    NeededIsClosed(g, Roots(g, keys));
    forall j | 0 <= j < |keys|
      ensures keys[j] in g.index && g.index[keys[j]] in nd && Meaning(g, g.index[keys[j]]).Defined?
    {
      var i := g.index[keys[j]];
      ReachesSelf(g, i);
      assert i in Roots(g, keys) && NeededFrom(g, Roots(g, keys)) == nd;
      UndefinedIffReachesCycle(g, nd, i);
    }
  }

  lemma RequestNonEmpty<K, V, E>(g: Dag<K, V, E>, keys: seq<K>)
    requires g.Valid() && keys != [] && FirstUnknown(g, keys).None?
    ensures Requested(g, keys) != {}
  {
    var i := g.index[keys[0]];
    ReachesSelf(g, i);
    assert i in Roots(g, keys);
    assert i in Requested(g, keys);
  }

  lemma AnswerFromTable<K, V, E>(g: Dag<K, V, E>, keys: seq<K>, vals: seq<Option<V>>, outputs: map<K, V>)
    requires g.Valid() && FirstUnknown(g, keys).None? && vals == ValueTable(g, Requested(g, keys))
    requires !SomeTaskFails(g, Requested(g, keys)) && !SomeCycle(g, Requested(g, keys))
    requires outputs.Keys == KeySet(keys)
    requires forall j :: 0 <= j < |keys| ==> keys[j] in outputs && HasValue(g, vals, keys[j])
                                             && outputs[keys[j]] == vals[g.index[keys[j]]].value
    ensures IsAnswer(g, keys, outputs)
  {
    TableAnswers(g, keys, vals);
    hide Requested, SomeTaskFails, SomeCycle, ValueTable, KeySet;
  }

  /** The lookup after a completed run. */
  method Lookup<K(==), V, E>(g: Dag<K, V, E>, keys: seq<K>, vals: seq<Option<V>>)
    returns (r: Result<map<K, V>, ExecError<K, E>>)
    requires g.Valid() && FirstUnknown(g, keys).None? && vals == ValueTable(g, Requested(g, keys))
    requires !SomeTaskFails(g, Requested(g, keys)) && !SomeCycle(g, Requested(g, keys))
    ensures r.Success? && IsAnswer(g, keys, r.value)
  {
    TableAnswers(g, keys, vals);
    assert forall j :: 0 <= j < |keys| ==> HasValue(g, vals, keys[j]);
    hide *;
    r := CollectOutputs(g, keys, vals);
    AnswerFromTable(g, keys, vals, r.value);
  }

  lemma SuccessMeans<K, V, E>(g: Dag<K, V, E>, nd: set<nat>, early: bool, r: Result<Artifacts<V>, ExecError<K, E>>)
    requires KahnOutcome(g, nd, early, r) && r.Success?
    ensures !SomeTaskFails(g, nd) && !SomeCycle(g, nd) && !early
    ensures r.value.0 == ValueTable(g, nd) && |r.value.1| == |g.nodes| && MaskSet(r.value.1) == nd
  {
  }

  method RunSequential<K(==), V, E>(g: Dag<K, V, E>, keys: seq<K>)
    returns (r: Result<map<K, V>, ExecError<K, E>>, ghost calls: seq<Task<V, E>>)
    requires g.Valid()
    ensures exists run :: SequentialOutcome(g, keys, run) && Delivers(g, keys, run, r)
    ensures keys != [] && FirstUnknown(g, keys).None? ==> CallsSpec(g, Requested(g, keys), [calls], !IsTaskFailure(r))
    ensures if keys != [] && FirstUnknown(g, keys).None? then CallsInTurn(g, Requested(g, keys), calls) else calls == []
  {
    hide KahnOutcome, Dag.Valid, IsAnswer, CallsSpec, FullRecord, Sequenced;
    var observer := new TraceObserver(|g.nodes|);
    var run;
    run, calls := Execute(g, keys, observer);
    if run.Failure? {
      return Failure(run.error), calls;
    }
    SuccessMeans(g, Requested(g, keys), false, run);
    r := Lookup(g, keys, run.value.0);
  }

  method RunParallel<K(==), V, E>(g: Dag<K, V, E>, cfg: ExecutorConfig, keys: seq<K>)
    returns (r: Result<map<K, V>, ExecError<K, E>>, ghost calls: seq<seq<Task<V, E>>>)
    requires g.Valid()
    ensures exists run :: ParallelOutcome(g, cfg, keys, run) && Delivers(g, keys, run, r)
    ensures keys != [] && Accepted(cfg) && FirstUnknown(g, keys).None? ==>
              CallsSpec(g, Requested(g, keys), calls, !IsTaskFailure(r))
  {
    hide KahnOutcome, EarlyExit, Dag.Valid, IsAnswer, CallsSpec, FullRecord;
    var observer := new TraceObserver(|g.nodes|);
    var run;
    run, calls := RunWithObserver(g, cfg, keys, observer);
    if run.Failure? {
      return Failure(run.error), calls;
    }
    SuccessMeans(g, Requested(g, keys), EarlyExit(g, Requested(g, keys), cfg.maxInFlight), run);
    r := Lookup(g, keys, run.value.0);
  }

  /** The nodes of a trace, in the order of its entries. */
  ghost function NodeIds<K>(t: ExecutionTrace<K>): (ids: seq<nat>)
    ensures |ids| == |t.nodes| && forall a :: 0 <= a < |ids| ==> ids[a] == t.nodes[a].id
  {
    seq(|t.nodes|, a requires 0 <= a < |t.nodes| => t.nodes[a].id)
  }

  lemma ReportedInOrder<K>(o: Record, t: ExecutionTrace<K>)
    requires ReportsRecord(o, t)
    ensures NodeIds(t) == o.order && t.maxFrontierWidth == o.width
  {
    hide NodeReported;
  }

  method RunSequentialTraced<K(==), V, E>(g: Dag<K, V, E>, keys: seq<K>)
    returns (r: Result<TracedExecution<K, V>, ExecError<K, E>>, ghost calls: seq<Task<V, E>>)
    requires g.Valid()
    ensures exists run :: SequentialOutcome(g, keys, run) && DeliversTraced(g, keys, false, run, r)
    ensures keys != [] && FirstUnknown(g, keys).None? ==> CallsSpec(g, Requested(g, keys), [calls], !IsTaskFailure(r))
    ensures if keys != [] && FirstUnknown(g, keys).None? then CallsInTurn(g, Requested(g, keys), calls) else calls == []
    ensures r.Success? ==> Sequenced(g, Requested(g, keys), NodeIds(r.value.trace), calls)
                           && PeakWidth(g, Requested(g, keys), r.value.trace.maxFrontierWidth)
  {
    hide KahnOutcome, FullRecord, TraceSpec, CallsSpec, Sequenced, PeakWidth, ReportsRecord;
    var observer := new TraceObserver(|g.nodes|);
    var run;
    run, calls := Execute(g, keys, observer);
    if run.Failure? {
      return Failure(run.error), calls;
    }
    SuccessMeans(g, Requested(g, keys), false, run);
    ghost var o := observer.View();
    r := Report(g, keys, run.value, observer, false);
    ReportedInOrder(o, r.value.trace);
  }

  method RunParallelTraced<K(==), V, E>(g: Dag<K, V, E>, cfg: ExecutorConfig, keys: seq<K>)
    returns (r: Result<TracedExecution<K, V>, ExecError<K, E>>, ghost calls: seq<seq<Task<V, E>>>)
    requires g.Valid()
    ensures exists run :: ParallelOutcome(g, cfg, keys, run) && DeliversTraced(g, keys, true, run, r)
    ensures keys != [] && Accepted(cfg) && FirstUnknown(g, keys).None? ==>
              CallsSpec(g, Requested(g, keys), calls, !IsTaskFailure(r))
    ensures r.Success? ==> CallersReported(r.value.trace, calls)
    ensures r.Success? ==> |calls| == cfg.maxWorkers
                           && RoundRobin(g, cfg.workerQueueCap, NodeIds(r.value.trace), calls)
  {
    hide KahnOutcome, FullRecord, TraceSpec, EarlyExit, CallsSpec, CalledAsRecorded, ReportsRecord, CallersReported,
      RoundRobin;
    var observer := new TraceObserver(|g.nodes|);
    var run;
    run, calls := RunWithObserver(g, cfg, keys, observer);
    if run.Failure? {
      return Failure(run.error), calls;
    }
    SuccessMeans(g, Requested(g, keys), EarlyExit(g, Requested(g, keys), cfg.maxInFlight), run);
    ghost var o := observer.View();
    r := Report(g, keys, run.value, observer, true);
    CallersFromRecord(g, Requested(g, keys), o, r.value.trace, calls);
    ReportedInOrder(o, r.value.trace);
  }

  /** Every call appears in the trace with the worker that made it. */
  ghost predicate CallersReported<K, V, E>(t: ExecutionTrace<K>, calls: seq<seq<Task<V, E>>>) {
    forall w, j :: 0 <= w < |calls| && 0 <= j < |calls[w]| ==> CallReported(t, calls[w][j].id, w)
  }

  ghost predicate CallReported<K>(t: ExecutionTrace<K>, id: nat, w: nat) {
    exists a :: 0 <= a < |t.nodes| && t.nodes[a].id == id && t.nodes[a].workerId == Some(w)
  }

  lemma CallersFromRecord<K, V, E>(g: Dag<K, V, E>, nd: set<nat>, o: Record, t: ExecutionTrace<K>,
                                   calls: seq<seq<Task<V, E>>>)
    requires FullRecord(g, nd, true, o) && CalledAsRecorded(o, calls) && ReportsRecord(o, t)
    requires CallsSpec(g, nd, calls, true)
    ensures CallersReported(t, calls)
  {
    hide OrderTopological, AntichainOfSize, GoodTask;
    forall w, j | 0 <= w < |calls| && 0 <= j < |calls[w]|
      ensures CallReported(t, calls[w][j].id, w)
    {
      var id := calls[w][j].id;
      assert CalledBy(calls, w, id);
      assert id in o.order;
      var a :| 0 <= a < |o.order| && o.order[a] == id;
      assert t.nodes[a].id == id && NodeReported(o, t.nodes[a]);
    }
  }

  /** Among the first max_workers * worker_queue_cap tasks of a parallel trace the j-th has
    * worker j modulo max_workers, under every interleaving. */
  lemma WorkersInTurn<K, V, E>(g: Dag<K, V, E>, cap: nat, t: ExecutionTrace<K>, calls: seq<seq<Task<V, E>>>, j: nat)
    requires RoundRobin(g, cap, NodeIds(t), calls) && CallersReported(t, calls)
    requires j < |TasksOf(g, NodeIds(t))| && j < |calls| * cap
    ensures CallReported(t, TasksOf(g, NodeIds(t))[j], j % |calls|)
  {
    hide TasksOf, RoundRobin, CallReported;
    FirstTasksInTurn(g, cap, NodeIds(t), calls, j);
    var w := j % |calls|;
    var p :| 0 <= p < |calls[w]| && calls[w][p].id == TasksOf(g, NodeIds(t))[j];
  }

  /** Look up the outputs of a completed run and finalise its trace. */
  method Report<K(==), V, E>(g: Dag<K, V, E>, keys: seq<K>, run: Artifacts<V>, observer: TraceObserver,
                                 ghost parallel: bool)
    returns (r: Result<TracedExecution<K, V>, ExecError<K, E>>)
    requires g.Valid() && keys != [] && FirstUnknown(g, keys).None?
    requires run.0 == ValueTable(g, Requested(g, keys)) && |run.1| == |g.nodes| && MaskSet(run.1) == Requested(g, keys)
    requires !SomeTaskFails(g, Requested(g, keys)) && !SomeCycle(g, Requested(g, keys))
    requires FullRecord(g, Requested(g, keys), parallel, observer.View())
    modifies observer
    ensures r.Success? && IsAnswer(g, keys, r.value.outputs)
    ensures TraceSpec(g, Requested(g, keys), parallel, r.value.trace)
    ensures ReportsRecord(old(observer.View()), r.value.trace)
    ensures r.value.trace.wallTime == observer.now >= old(observer.now)
  {
    RequestNonEmpty(g, keys);
    NeededIsClosed(g, Roots(g, keys));
    RecordShape(g, Requested(g, keys), parallel, observer.View());
    hide TraceSpec, FullRecord, ReportsRecord, ClosedUnderDeps, Dag.Valid, IsAnswer;
    var outputs := Lookup(g, keys, run.0);
    var trace := Finalize(g, run.1, observer, parallel);
    r := Success(TracedExecution(outputs.value, trace));
  }

  lemma RecordShape<K, V, E>(g: Dag<K, V, E>, nd: set<nat>, parallel: bool, o: Record)
    requires FullRecord(g, nd, parallel, o)
    ensures Sized(o, |g.nodes|) && forall a :: 0 <= a < |o.order| ==> o.order[a] < |g.nodes|
  {
    assert forall a :: 0 <= a < |o.order| ==> o.order[a] in o.order;
  }

  // ---------------------------------------------------------------------------------------
  // Agreement
  // ---------------------------------------------------------------------------------------

  /** For an accepted configuration, any parallel run and the sequential run of the same
    * request agree: on unknown keys, on whether a task failure is reported, on the cycle
    * report, and on the value table. The only exception is the early exit, where every
    * parallel run reports an empty cycle although the sequential run succeeds. */
  lemma ExecutorsAgree<K, V, E>(g: Dag<K, V, E>, cfg: ExecutorConfig, keys: seq<K>,
                                rs: Result<Artifacts<V>, ExecError<K, E>>, rp: Result<Artifacts<V>, ExecError<K, E>>)
    requires g.Valid() && Accepted(cfg) && keys != []
    requires SequentialOutcome(g, keys, rs) && ParallelOutcome(g, cfg, keys, rp)
    ensures FirstUnknown(g, keys).Some? ==> rp == rs
    ensures IsTaskFailure(rp) <==> IsTaskFailure(rs)
    ensures rs.Failure? && rs.error.Cycle? ==> rp == rs && rs.error.remaining != []
    ensures rp.Success? ==> rs.Success? && rp.value.0 == rs.value.0 && MaskSet(rp.value.1) == MaskSet(rs.value.1)
    ensures rs.Success? ==> (rp.Success? <==> !EarlyExit(g, Requested(g, keys), cfg.maxInFlight))
    ensures rs.Success? && !rp.Success? ==> rp == Failure(Cycle([]))
  {
    var nd := Requested(g, keys);
    if FirstUnknown(g, keys).None? && !SomeTaskFails(g, nd) {
      if SomeCycle(g, nd) {
        var i :| i in nd && ReachesCycle(g, i);
        ReportIsExact(g, nd, i);
      }
    }
  }

  /** A task failure is reported exactly when some needed task has all its dependency values
    * and errs on them, by every run of either executor; the report names such a task. */
  lemma FailureIsGenuine<K, V, E>(g: Dag<K, V, E>, nd: set<nat>, early: bool, r: Result<Artifacts<V>, ExecError<K, E>>)
    requires KahnOutcome(g, nd, early, r)
    ensures IsTaskFailure(r) <==> SomeTaskFails(g, nd)
    ensures IsTaskFailure(r) ==> exists i :: i in nd && g.HasTask(i) && AllDefined(Meanings(g), g.nodes[i].deps)
                                   && r.error == TaskFailed(g.nodes[i].key, r.error.error)
                                   && g.nodes[i].kind.func(Gather(Meanings(g), g.nodes[i].deps))
                                       == Failure(r.error.error)
  {
    if IsTaskFailure(r) {
      var i :| i in nd && i < |g.nodes| && Meaning(g, i).Fails?
          && r.error == TaskFailed(g.nodes[i].key, Meaning(g, i).error);
      MeaningFixedPoint(g, i);
    }
  }

  /** Every cycle report, of either executor, lists the keys of exactly the needed nodes that
    * reach a cycle, in id order and without repeats; on the early exit there are none. */
  lemma ReportInOrder<K, V, E>(g: Dag<K, V, E>, nd: set<nat>, early: bool, r: Result<Artifacts<V>, ExecError<K, E>>)
    requires KahnOutcome(g, nd, early, r) && r.Failure? && r.error.Cycle?
    ensures ReportsCycles(g, nd, r.error.remaining)
  {
    var ids := KeysInOrder(g, CyclicNodes(g, nd), |g.nodes|);
    if !SomeCycle(g, nd) {
      assert CyclicNodes(g, nd) == {};
      assert ListsInOrder(g, CyclicNodes(g, nd), |g.nodes|, [], r.error.remaining);
    }
  }

  /** The cycle report lists a needed node exactly if the node reaches a cycle. */
  lemma ReportIsExact<K, V, E>(g: Dag<K, V, E>, nd: set<nat>, i: nat)
    requires g.Valid() && i in nd && i < |g.nodes|
    ensures g.nodes[i].key in CycleReport(g, nd) <==> ReachesCycle(g, i)
  {
    var s := CyclicNodes(g, nd);
    if i in s {
      KeysOfMember(g, s, |g.nodes|, i);
    } else if g.nodes[i].key in KeysOf(g, s, |g.nodes|) {
      KeysOfOnly(g, s, |g.nodes|, g.nodes[i].key);
    }
  }

  lemma {:induction false} KeysOfOnly<K, V, E>(g: Dag<K, V, E>, s: set<nat>, n: nat, k: K)
    requires n <= |g.nodes| && k in KeysOf(g, s, n)
    ensures exists i :: i in s && i < n && g.nodes[i].key == k
  {
    if n > 0 && k in KeysOf(g, s, n - 1) {
      KeysOfOnly(g, s, n - 1, k);
    }
  }

  /** Nodes without dependencies reach no cycle. */
  lemma EarlyExitIsAcyclic<K, V, E>(g: Dag<K, V, E>, nd: set<nat>, maxInFlight: nat)
    requires EarlyExit(g, nd, maxInFlight)
    ensures !SomeCycle(g, nd)
  {
    forall i, x | i in nd && Reaches(g, i, x)
      ensures !DependsOn(g, x, x)
    {
      var p :| PathBetween(g, p, i, x);
      if |p| >= 2 {
        var d := FirstEdge(g, i, x);
      } else if DependsOn(g, x, x) {
        var d := FirstEdge(g, x, x);
      }
    }
  }

  /** The early exit can be told from the requested nodes alone: without dependencies nothing
    * else is needed. */
  lemma EarlyExitOnRequest<K, V, E>(g: Dag<K, V, E>, keys: seq<K>, maxInFlight: nat)
    requires g.Valid() && FirstUnknown(g, keys).None?
    ensures EarlyExit(g, Requested(g, keys), maxInFlight) <==> EarlyExit(g, Roots(g, keys), maxInFlight)
  {
    var roots, nd := Roots(g, keys), Requested(g, keys);
    forall r | r in roots
      ensures r in nd
    {
      ReachesSelf(g, r);
    }
    if forall r :: r in roots ==> g.nodes[r].deps == [] {
      forall i | i in nd
        ensures i in roots
      {
        var r :| r in roots && Reaches(g, r, i);
        ReachStaysInside(g, roots, r, i);
      }
      assert nd == roots;
    }
  }

  /** If every needed source has a needed dependent, there is no early exit and the parallel
    * run succeeds whenever the sequential one does. */
  lemma DependentsPreventEarlyExit<K, V, E>(g: Dag<K, V, E>, nd: set<nat>, maxInFlight: nat)
    requires forall i :: i in nd && i < |g.nodes| && g.nodes[i].kind.Source? ==>
               exists j :: j in nd && j < |g.nodes| && i in g.nodes[j].deps
    ensures !EarlyExit(g, nd, maxInFlight)
  {
  }

  /** The early exit does happen: requesting a single source. */
  lemma LoneSourceExitsEarly(value: int, cfg: ExecutorConfig, rs: Result<Artifacts<int>, ExecError<string, string>>,
                             rp: Result<Artifacts<int>, ExecError<string, string>>)
    requires Accepted(cfg)
    requires SequentialOutcome(LoneSource(value), ["a"], rs) && ParallelOutcome(LoneSource(value), cfg, ["a"], rp)
    ensures rs.Success? && rs.value.0 == [Some(value)]
    ensures rp == Failure(Cycle([]))
  {
    var g, nd := LoneSource(value), Requested(LoneSource(value), ["a"]);
    assert g.index[["a"][0]] == 0;
    ReachesSelf(g, 0);
    assert 0 in Roots(g, ["a"]);
    assert nd == {0};
    MeaningFixedPoint(g, 0);
    assert LastNeeded(nd, 0);
    assert EarlyExit(g, nd, cfg.maxInFlight);
    EarlyExitIsAcyclic(g, nd, cfg.maxInFlight);
    assert ValueTable(g, nd) == [Some(value)];
  }

  function LoneSource(value: int): Dag<string, int, string> {
    Dag([Node("a", [], Source(value))], map["a" := 0])
  }
}
