/** The sequential executor: a FIFO loop over the ready queue. */
module Sequential {
  import opened Wrappers
  import opened Graph
  import opened Kahn
  import opened Fifo
  import opened Outcomes
  import opened Common
  import opened Observer
  import opened ExecState
  import opened Calls
  import opened Tracing

  /** What `execute` returns for a request. */
  ghost predicate SequentialOutcome<K, V, E>(g: Dag<K, V, E>, keys: seq<K>, r: Result<Artifacts<V>, ExecError<K, E>>) {
    if keys == [] then r == Failure(InternalInvariant("outputs must be non-empty"))
    else if FirstUnknown(g, keys).Some? then r == Failure(OutputMissing(FirstUnknown(g, keys).value))
    else
      && KahnOutcome(g, Requested(g, keys), false, r)
      && (IsTaskFailure(r) ==> FirstFailure(g, Requested(g, keys), r.error))
  }

  /** A request has one sequential result: of several failing tasks, the first in start order
    * is reported. */
  lemma SequentialDeterministic<K, V, E>(g: Dag<K, V, E>, keys: seq<K>, r: Result<Artifacts<V>, ExecError<K, E>>,
                                         r': Result<Artifacts<V>, ExecError<K, E>>)
    requires SequentialOutcome(g, keys, r) && SequentialOutcome(g, keys, r')
    ensures r == r'
  {
    if keys != [] && FirstUnknown(g, keys).None? {
      if IsTaskFailure(r) {
        FirstFailureUnique(g, Requested(g, keys), r.error, r'.error);
      } else if r.Success? {
        SameMask(r.value.1, r'.value.1);
      }
    }
  }

  /** Calls so far: one per finished task. */
  ghost predicate CalledDone<K, V, E>(g: Dag<K, V, E>, vals: seq<Option<V>>, calls: seq<Task<V, E>>) {
    && (forall j :: 0 <= j < |calls| ==> GoodTask(g, calls[j]) && calls[j].id in DoneSet(vals))
    && (forall i: nat :: TaskIds(calls)[i] == if i in DoneSet(vals) && g.HasTask(i) then 1 else 0)
  }

  lemma GoodTaskFits<K, V, E>(g: Dag<K, V, E>, t: Task<V, E>)
    requires GoodTask(g, t)
    ensures g.HasTask(t.id)
  {
  }

  lemma NotDone<V>(vals: seq<Option<V>>, id: nat)
    requires id < |vals| && vals[id].None?
    ensures id !in DoneSet(vals)
  {
  }

  lemma CallRecorded<K, V, E>(g: Dag<K, V, E>, vals: seq<Option<V>>, calls: seq<Task<V, E>>, t: Task<V, E>, v: V)
    requires CalledDone(g, vals, calls) && GoodTask(g, t) && t.id < |vals| && vals[t.id].None?
    ensures CalledDone(g, vals[t.id := Some(v)], calls + [t])
  {
    hide GoodTask, DoneSet, TaskIds;
    GoodTaskFits(g, t);
    TaskIdsAppend(calls, t);
    DoneAdds(vals, t.id, v);
    NotDone(vals, t.id);
  }

  lemma SourceRecorded<K, V, E>(g: Dag<K, V, E>, vals: seq<Option<V>>, calls: seq<Task<V, E>>, id: nat, v: V)
    requires CalledDone(g, vals, calls) && id < |vals| && !g.HasTask(id)
    ensures CalledDone(g, vals[id := Some(v)], calls)
  {
    hide GoodTask, DoneSet, TaskIds;
    DoneAdds(vals, id, v);
  }

  lemma OneLog<V, E>(calls: seq<Task<V, E>>)
    ensures AllIds([calls]) == TaskIds(calls)
  {
    assert [calls][..0] == [];
  }

  /** The log of a run that stops at a failing call. */
  lemma FailedCalls<K, V, E>(g: Dag<K, V, E>, nd: set<nat>, vals: seq<Option<V>>, calls: seq<Task<V, E>>, t: Task<V, E>)
    requires DoneSet(vals) <= nd && t.id in nd && t.id !in DoneSet(vals)
    requires CalledDone(g, vals, calls) && GoodTask(g, t)
    ensures CallsSpec(g, nd, [calls + [t]], false)
  {
    hide GoodTask;
    TaskIdsAppend(calls, t);
    OneLog(calls + [t]);
  }

  /** The log of a run that went on until nothing was ready. */
  lemma FinishedCalls<K, V, E>(g: Dag<K, V, E>, nd: set<nat>, vals: seq<Option<V>>, calls: seq<Task<V, E>>)
    requires DoneSet(vals) <= nd
    requires forall i :: i in nd && i < |g.nodes| && Meaning(g, i) != Undefined ==> i in DoneSet(vals)
    requires CalledDone(g, vals, calls)
    ensures CallsSpec(g, nd, [calls], true)
  {
    hide GoodTask;
    OneLog(calls);
  }

  /** The calls are those of the tasks of `order`, in that order. */
  ghost predicate CalledInTurn<K, V, E>(g: Dag<K, V, E>, order: seq<nat>, calls: seq<Task<V, E>>) {
    CallIds(calls) == TasksOf(g, order)
  }

  lemma CallInTurn<K, V, E>(g: Dag<K, V, E>, order: seq<nat>, id: nat, calls: seq<Task<V, E>>, calls': seq<Task<V, E>>)
    requires CalledInTurn(g, order, calls)
    requires CallIds(calls') == CallIds(calls) + (if g.HasTask(id) then [id] else [])
    ensures CalledInTurn(g, order + [id], calls')
  {
    hide TasksOf, CallIds;
    TasksOfNext(g, order, id);
  }

  /** The start order and the log of a sequential run: both are fixed by the request. */
  ghost predicate Sequenced<K, V, E>(g: Dag<K, V, E>, nd: set<nat>, order: seq<nat>, calls: seq<Task<V, E>>) {
    StartOrder(g, nd, order) && CalledInTurn(g, order, calls)
  }

  /** A log of calls that a sequential run over nd makes. */
  ghost predicate CallsInTurn<K, V, E>(g: Dag<K, V, E>, nd: set<nat>, calls: seq<Task<V, E>>) {
    exists order: seq<nat> :: Sequenced(g, nd, order, calls)
  }

  lemma SameCall<K, V, E>(g: Dag<K, V, E>, t: Task<V, E>, t': Task<V, E>)
    requires GoodTask(g, t) && GoodTask(g, t') && t.id == t'.id
    ensures t == t'
  {
  }

  /** Two sequential runs of a request start the same nodes and make the same calls, arguments
    * included, in the same order; also when they fail or stop at a cycle. */
  lemma SequencedUnique<K, V, E>(g: Dag<K, V, E>, nd: set<nat>, order: seq<nat>, calls: seq<Task<V, E>>,
                                 order': seq<nat>, calls': seq<Task<V, E>>)
    requires Sequenced(g, nd, order, calls) && Sequenced(g, nd, order', calls')
    requires forall t :: t in calls || t in calls' ==> GoodTask(g, t)
    ensures order == order' && calls == calls'
  {
    hide GoodTask, StartOrder, TasksOf;
    StartOrderUnique(g, nd, order, order');
    assert |calls| == |CallIds(calls)| == |CallIds(calls')| == |calls'|;
    forall j | 0 <= j < |calls|
      ensures calls[j] == calls'[j]
    {
      assert calls[j] in calls && calls'[j] in calls' && CallIds(calls)[j] == CallIds(calls')[j];
      SameCall(g, calls[j], calls'[j]);
    }
  }

  /** Between two iterations of the evaluation loop: nothing is half done, and the calls made
    * are those of the finished tasks. */
  ghost predicate LoopInv<K, V, E>(st: KahnState<K, V, E>, calls: seq<Task<V, E>>)
    reads st, st.vals, st.indeg, st.observer
  {
    && st.Valid() && st.View().Settled() && !st.parallel
    && st.held == multiset{} && st.running == multiset{}
    && CalledDone(st.dag, st.vals[..], calls) && FinishedAreDone(st.observer.finishedAt, st.vals[..])
  }

  /** The queue is where the start order says it is after k nodes, all of which have values;
    * these nodes have been started, and their tasks called, in that order. */
  ghost predicate OnTrack<K, V, E>(st: KahnState<K, V, E>, o: Opening, k: nat, calls: seq<Task<V, E>>)
    reads st, st.indeg, st.observer
  {
    && o.dependents == st.dependents && st.Line() == o.After(k)
    && (forall a: nat :: a < k ==> TakesValue(st.dag, o.After(a)))
    && Ordered(st.dag, o, k, st.observer.executionOrder, calls)
    && PeakAt(o, k, st.observer.maxFrontierWidth)
  }

  /** The k nodes taken so far, and their calls. */
  ghost predicate Ordered<K, V, E>(g: Dag<K, V, E>, o: Opening, k: nat, order: seq<nat>, calls: seq<Task<V, E>>) {
    order == o.Heads(k) && CalledInTurn(g, order, calls)
  }

  /** Evaluate a node that is marked started and not yet finished: a source yields its value, a
    * task is called on the values of its dependencies. */
  method Compute<K(==), V, E>(st: KahnState<K, V, E>, id: nat, ghost calls: seq<Task<V, E>>)
    returns (r: Result<V, ExecError<K, E>>, ghost calls': seq<Task<V, E>>)
    requires st.Valid() && st.View().Frontier()[id] > 0 && CalledDone(st.dag, st.vals[..], calls)
    requires id < |st.observer.startedAt| && st.observer.startedAt[id].Some?
    requires id < |st.observer.finishedAt| && st.observer.finishedAt[id].None?
    ensures id < |st.vals[..]| && st.vals[id].None? && id < |st.dag.nodes|
    ensures r.Success? ==> Meaning(st.dag, id) == Defined(r.value)
    ensures r.Success? ==> CalledDone(st.dag, st.vals[..][id := Some(r.value)], calls')
    ensures CallIds(calls') == CallIds(calls) + (if st.dag.HasTask(id) then [id] else [])
    ensures r.Failure? ==> GenuineFailure(st.dag, MaskSet(st.needed), r.error)
    ensures r.Failure? ==>
        Meaning(st.dag, id).Fails? && r.error == TaskFailed(st.dag.nodes[id].key, Meaning(st.dag, id).error)
    ensures r.Failure? ==> CallsSpec(st.dag, MaskSet(st.needed), [calls'], false)
  {
    hide CoreInv, CalledDone, CallsSpec, OwedTable, Dag.Valid;
    OpenNode(st.dag, st.needed, st.parallel, st.View(), id);
    DoneIsNeeded(st.dag, st.needed, st.parallel, st.View());
    calls' := calls;
    match st.dag.nodes[id].kind {
      case Source(v) =>
        MeaningFixedPoint(st.dag, id);
        SourceRecorded(st.dag, st.vals[..], calls, id, v);
        r := Success(v);
      case Task(f) =>
        var args := st.Arguments(id);
        var out := f(args);
        ghost var call := Task.Task(id, f, args);
        calls' := calls + [call];
        IdsAppend(calls, call);
        if out.Failure? {
          FailedCalls(st.dag, MaskSet(st.needed), st.vals[..], calls, call);
          r := Failure(TaskFailed(st.dag.nodes[id].key, out.error));
          assert GenuineFailure(st.dag, MaskSet(st.needed), r.error);
        } else {
          CallRecorded(st.dag, st.vals[..], calls, call, out.value);
          r := Success(out.value);
        }
    }
  }

  lemma NextOnTrack(o: Opening, k: nat, q: Queue, q': Queue)
    requires q == o.After(k) && q.ready != [] && q.ready[0] < |o.dependents|
    requires q' == Release(q.(ready := q.ready[1..]), o.dependents[q.ready[0]])
    ensures q' == o.After(k + 1)
  {
  }

  lemma NextPeak(o: Opening, k: nat, width: nat, width': nat)
    requires PeakAt(o, k, width) && WiderOf(width', width, |o.After(k + 1).ready|)
    ensures PeakAt(o, k + 1, width')
  {
    hide Opening.After;
    var a: nat :| a <= k && |o.After(a).ready| == width;
    assert |o.After(if width' == width then a else k + 1).ready| == width';
  }

  lemma NextOrdered<K, V, E>(g: Dag<K, V, E>, o: Opening, k: nat, order: seq<nat>, id: nat, calls: seq<Task<V, E>>,
                             calls': seq<Task<V, E>>)
    requires Ordered(g, o, k, order, calls) && o.After(k).ready != [] && id == o.After(k).ready[0]
    requires CallIds(calls') == CallIds(calls) + (if g.HasTask(id) then [id] else [])
    ensures Ordered(g, o, k + 1, order + [id], calls')
  {
    hide CallIds, TasksOf, Opening.After;
    CallInTurn(g, order, id, calls, calls');
  }

  /** Take the oldest ready node, start it and evaluate it. */
  method StartNext<K(==), V, E>(st: KahnState<K, V, E>, ghost calls: seq<Task<V, E>>, ghost o: Opening, ghost k: nat)
    returns (id: nat, out: Result<V, ExecError<K, E>>, ghost calls': seq<Task<V, E>>)
    requires LoopInv(st, calls) && OnTrack(st, o, k, calls) && st.ready != []
    modifies st, st.observer
    ensures st.Valid() && st.View().Settled() && st.held == multiset{} && st.running == multiset{id}
    ensures id == old(st.ready[0]) && st.ready == old(st.ready[1..])
    ensures id < |st.dag.nodes| == st.vals.Length == |st.dependents|
    ensures Ordered(st.dag, o, k + 1, st.observer.executionOrder, calls')
    ensures st.observer.maxFrontierWidth == old(st.observer.maxFrontierWidth)
    ensures st.observer.finishedAt == old(st.observer.finishedAt)
    ensures FinishedAreDone(st.observer.finishedAt, st.vals[..]) && st.observer.finishedAt[id].None?
    ensures out.Success? ==> Meaning(st.dag, id) == Defined(out.value)
    ensures out.Success? ==> CalledDone(st.dag, st.vals[..][id := Some(out.value)], calls')
    ensures out.Failure? ==> FailsNext(st.dag, o.After(k), out.error)
    ensures out.Failure? ==> GenuineFailure(st.dag, MaskSet(st.needed), out.error)
    ensures out.Failure? ==> CallsSpec(st.dag, MaskSet(st.needed), [calls'], false)
  {
    hide CoreInv, CalledDone, CallsSpec, OwedTable, Dag.Valid, Opening.After, Ordered, CallIds, GenuineFailure, SetOnce,
      PeakAt;
    ghost var order := st.observer.executionOrder;
    id := st.PopFront();
    assert st.View().Frontier()[id] > 0;
    OpenNode(st.dag, st.needed, false, st.View(), id);
    PutBack(multiset{}, multiset{}, id);
    st.Start(id, None);
    out, calls' := Compute(st, id, calls);
    NextOrdered(st.dag, o, k, order, id, calls, calls');
  }

  /** One iteration: take the oldest ready node, evaluate it, release its dependents. */
  method EvaluateNext<K(==), V, E>(st: KahnState<K, V, E>, ghost calls: seq<Task<V, E>>, ghost o: Opening, ghost k: nat)
    returns (r: Result<nat, ExecError<K, E>>, ghost calls': seq<Task<V, E>>)
    requires LoopInv(st, calls) && OnTrack(st, o, k, calls) && st.ready != []
    modifies st, st.vals, st.indeg, st.observer
    ensures r.Success? ==> LoopInv(st, calls') && |DoneSet(st.vals[..])| == |DoneSet(old(st.vals[..]))| + 1
    ensures r.Success? ==> OnTrack(st, o, k + 1, calls')
    ensures r.Failure? ==> FailsAt(st.dag, o, k, r.error)
    ensures r.Failure? ==> Ordered(st.dag, o, k + 1, st.observer.executionOrder, calls')
    ensures r.Failure? ==> st.observer.maxFrontierWidth == old(st.observer.maxFrontierWidth)
    ensures r.Failure? ==> GenuineFailure(st.dag, MaskSet(st.needed), r.error)
    ensures r.Failure? ==> CallsSpec(st.dag, MaskSet(st.needed), [calls'], false)
  {
    hide CoreInv, CalledDone, CallsSpec, OwedTable, Dag.Valid, Release, Opening.After, Ordered, GenuineFailure,
      FailsNext, Extends, PeakAt, WiderOf, FinishedAreDone, FinishMark, KahnState.Valid, KahnState.View,
      Core.Settled, MaskSet, DoneSet;
    ghost var q, width := st.Line(), st.observer.maxFrontierWidth;
    var id, out;
    id, out, calls' := StartNext(st, calls, o, k);
    if out.Failure? {
      return Failure(out.error), calls';
    }
    PutBack(multiset{}, multiset{}, id);
    DoneAdds(st.vals[..], id, out.value);
    ghost var finished, vals, t := st.observer.finishedAt, st.vals[..], st.observer.now;
    st.Complete(id, out.value, false);
    FinishedWithValue(finished, st.observer.finishedAt, vals, id, out.value, t);
    NextOnTrack(o, k, q, st.Line());
    NextPeak(o, k, width, st.observer.maxFrontierWidth);
    r := Success(id);
  }

  /** Evaluate the needed subgraph once. `calls` is the log of task calls, in order. */
  method Execute<K(==), V, E>(g: Dag<K, V, E>, keys: seq<K>, observer: TraceObserver)
    returns (r: Result<Artifacts<V>, ExecError<K, E>>, ghost calls: seq<Task<V, E>>)
    requires g.Valid() && observer.View() == Blank(|g.nodes|)
    modifies observer
    ensures SequentialOutcome(g, keys, r)
    ensures keys != [] && FirstUnknown(g, keys).None? ==> CallsSpec(g, Requested(g, keys), [calls], !IsTaskFailure(r))
    ensures r.Success? ==> FullRecord(g, Requested(g, keys), false, observer.View())
    ensures keys != [] && FirstUnknown(g, keys).None? ==>
              Sequenced(g, Requested(g, keys), observer.executionOrder, calls)
              && PeakWidth(g, Requested(g, keys), observer.maxFrontierWidth)
    ensures keys == [] || FirstUnknown(g, keys).Some? ==> calls == [] && observer.View() == old(observer.View())
  {
    calls := [];
    if keys == [] {
      return Failure(InternalInvariant("outputs must be non-empty")), [];
    }
    var marked := MarkNeeded(g, keys);
    if marked.Failure? {
      return Failure(marked.error), [];
    }
    NeededIsClosed(g, Roots(g, keys));
    r, calls := ExecuteNeeded(g, marked.value, observer);
  }

  lemma TrackStart<K, V, E>(st: KahnState<K, V, E>, o: Opening)
    requires o == Opening(st.needed, st.dependents, st.Line()) && st.observer.executionOrder == []
    requires st.observer.maxFrontierWidth == |st.ready|
    ensures OnTrack(st, o, 0, [])
  {
  }

  lemma FirstFailing<K, V, E>(g: Dag<K, V, E>, o: Opening, k: nat, e: ExecError<K, E>)
    requires o.For(g) && FailsAt(g, o, k, e)
    ensures FirstFailure(g, MaskSet(o.needed), e) && Halts(g, o, k + 1)
    ensures Errs(g, o.After(k)) && forall a: nat :: a < k ==> TakesValue(g, o.After(a))
  {
    assert Halts(g, o, k + 1);
    hide Opening.For, FailsAt, Halts;
  }

  lemma PeakSoFar<K, V, E>(st: KahnState<K, V, E>, o: Opening, k: nat, calls: seq<Task<V, E>>)
    requires OnTrack(st, o, k, calls)
    ensures PeakAt(o, k, st.observer.maxFrontierWidth)
  {
  }

  lemma NoneReady<K, V, E>(st: KahnState<K, V, E>, o: Opening, k: nat, calls: seq<Task<V, E>>)
    requires OnTrack(st, o, k, calls) && st.ready == []
    ensures Halts(st.dag, o, k) && Ordered(st.dag, o, k, st.observer.executionOrder, calls)
    ensures o.After(k).ready == [] && forall a: nat :: a < k ==> TakesValue(st.dag, o.After(a))
    ensures PeakAt(o, k, st.observer.maxFrontierWidth)
  {
    hide Opening.After, Ordered;
  }

  lemma PeakIsWidth<K, V, E>(g: Dag<K, V, E>, o: Opening, k: nat, width: nat)
    requires o.For(g) && PeakAt(o, k, width) && forall a: nat :: a < k ==> TakesValue(g, o.After(a))
    requires o.After(k).ready == [] || Errs(g, o.After(k))
    ensures PeakWidth(g, MaskSet(o.needed), width)
  {
    assert Ends(g, o, k);
    hide Opening.For, Ends, MaskSet, PeakAt;
  }

  lemma SequencedAt<K, V, E>(g: Dag<K, V, E>, o: Opening, k: nat, order: seq<nat>, calls: seq<Task<V, E>>)
    requires o.For(g) && Halts(g, o, k) && Ordered(g, o, k, order, calls)
    ensures Sequenced(g, MaskSet(o.needed), order, calls)
  {
    hide Opening.For, Halts, MaskSet;
  }

  /** The evaluation loop: until nothing is ready or a task fails. */
  method EvaluateAll<K(==), V, E>(st: KahnState<K, V, E>)
    returns (r: Result<nat, ExecError<K, E>>, ghost calls: seq<Task<V, E>>)
    requires LoopInv(st, []) && DoneSet(st.vals[..]) == {}
    requires Opening(st.needed, st.dependents, st.Line()).For(st.dag) && st.observer.executionOrder == []
    requires st.observer.maxFrontierWidth == |st.ready|
    modifies st, st.vals, st.indeg, st.observer
    ensures r.Success? ==> LoopInv(st, calls) && st.ready == [] && r.value == |DoneSet(st.vals[..])|
    ensures r.Failure? ==> GenuineFailure(st.dag, MaskSet(st.needed), r.error)
    ensures r.Failure? ==> FirstFailure(st.dag, MaskSet(st.needed), r.error)
    ensures r.Failure? ==> CallsSpec(st.dag, MaskSet(st.needed), [calls], false)
    ensures Sequenced(st.dag, MaskSet(st.needed), st.observer.executionOrder, calls)
    ensures PeakWidth(st.dag, MaskSet(st.needed), st.observer.maxFrontierWidth)
  {
    hide *;
    ghost var o := Opening(st.needed, st.dependents, st.Line());
    TrackStart(st, o);
    var processed := 0;
    calls := [];
    while st.ready != []
      invariant LoopInv(st, calls) && OnTrack(st, o, processed, calls) && processed == |DoneSet(st.vals[..])|
      decreases |MaskSet(st.needed)| - processed
    {
      LoopBound(st, calls);
      PeakSoFar(st, o, processed, calls);
      var step;
      step, calls := EvaluateNext(st, calls, o, processed);
      if step.Failure? {
        FirstFailing(st.dag, o, processed, step.error);
        SequencedAt(st.dag, o, processed + 1, st.observer.executionOrder, calls);
        PeakIsWidth(st.dag, o, processed, st.observer.maxFrontierWidth);
        return Failure(step.error), calls;
      }
      processed := processed + 1;
    }
    NoneReady(st, o, processed, calls);
    SequencedAt(st.dag, o, processed, st.observer.executionOrder, calls);
    PeakIsWidth(st.dag, o, processed, st.observer.maxFrontierWidth);
    return Success(processed), calls;
  }

  /** The part of `execute` after marking. */
  method ExecuteNeeded<K(==), V, E>(g: Dag<K, V, E>, needed: seq<bool>, observer: TraceObserver)
    returns (r: Result<Artifacts<V>, ExecError<K, E>>, ghost calls: seq<Task<V, E>>)
    requires g.Valid() && |needed| == |g.nodes| && ClosedUnderDeps(g, MaskSet(needed))
    requires observer.View() == Blank(|g.nodes|)
    modifies observer
    ensures KahnOutcome(g, MaskSet(needed), false, r)
    ensures IsTaskFailure(r) ==> FirstFailure(g, MaskSet(needed), r.error)
    ensures CallsSpec(g, MaskSet(needed), [calls], !IsTaskFailure(r))
    ensures r.Success? ==> FullRecord(g, MaskSet(needed), false, observer.View())
    ensures Sequenced(g, MaskSet(needed), observer.executionOrder, calls)
    ensures PeakWidth(g, MaskSet(needed), observer.maxFrontierWidth)
  {
    hide Sequenced, PeakWidth, CoreInv, KahnOutcome, GenuineFailure, CallsSpec, FullRecord, OwedTable, Dag.Valid,
      ClosedUnderDeps;
    var st, neededCount := Prepare(g, needed, observer, false);
    assert LoopInv(st, []);
    hide LoopInv;
    var run;
    run, calls := EvaluateAll(st);
    if run.Failure? {
      FailureExit(g, MaskSet(needed), false, run.error);
      return Failure(run.error), calls;
    }
    LoopExit(st, calls);
    if run.value != neededCount {
      var remaining, ids := Remaining(g, needed, st.indeg);
      return Failure(Cycle(remaining)), calls;
    }
    return Success((st.vals[..], needed)), calls;
  }

  lemma LoopBound<K, V, E>(st: KahnState<K, V, E>, calls: seq<Task<V, E>>)
    requires LoopInv(st, calls) && st.ready != []
    ensures |DoneSet(st.vals[..])| < |MaskSet(st.needed)|
  {
    hide CoreInv, CalledDone;
    CoreFits(st.dag, st.needed, false, st.View());
  }

  /** Out of ready nodes: either everything has its value, or what is left reaches a cycle. */
  lemma LoopExit<K, V, E>(st: KahnState<K, V, E>, calls: seq<Task<V, E>>)
    requires LoopInv(st, calls) && st.ready == []
    ensures var g, s, vals := st.dag, MaskSet(st.needed), st.vals[..];
            && CallsSpec(g, s, [calls], true)
            && (|DoneSet(vals)| != |s| ==>
                  KahnOutcome(g, s, false, Failure(Cycle(KeysOf(g, Unreleased(st.needed, st.indeg[..]), |g.nodes|)))))
            && (|DoneSet(vals)| == |s| ==>
                  KahnOutcome(g, s, false, Success((vals, st.needed))) && FullRecord(g, s, false, st.observer.View()))
  {
    var g, needed, c := st.dag, st.needed, st.View();
    assert c.Frontier() == multiset{};
    NothingLeft(g, needed, false, c);
    FinishedCalls(g, MaskSet(needed), c.vals, calls);
    CoreFits(g, needed, false, c);
    if |DoneSet(c.vals)| < |MaskSet(needed)| {
      var remaining := KeysOf(g, Unreleased(needed, c.indeg), |g.nodes|);
      StuckExit(g, needed, c.vals, c.indeg, false, remaining, Failure(Cycle(remaining)));
    } else {
      CoreComplete(g, needed, false, c);
    }
  }
}
