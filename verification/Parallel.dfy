/** The parallel executor: one scheduler thread that dispatches to a bounded worker pool and
  * waits for results. Workers interfere at every send and receive. */
module Parallel {
  import opened Wrappers
  import opened Graph
  import opened Kahn
  import opened Outcomes
  import opened Common
  import opened Observer
  import opened Tracing
  import opened ExecState
  import opened Calls
  import opened Pool
  import opened Schedule
  import opened Rotation

  datatype DispatchOutcome = Queued(worker: nat) | AllFull

  /** Position k of a round-robin scan over n workers that starts at worker `first`. */
  function ScanAt(first: nat, k: nat, n: nat): nat
    requires first < n && k < n
  {
    if first + k < n then first + k else first + k - n
  }

  /** The scan goes round: position 0 is `first`, the next position is the next worker. */
  lemma ScanGoesRound(first: nat, k: nat, n: nat)
    requires first < n && k < n
    ensures ScanAt(first, 0, n) == first && ScanAt(first, k, n) == (first + k) % n
    ensures k + 1 < n ==> ScanAt(first, k + 1, n) == (ScanAt(first, k, n) + 1) % n
  {
    if first + k < n { Remainder(first + k, n, 0, first + k); } else { Remainder(first + k, n, 1, first + k - n); }
    SmallMod(ScanAt(first, k, n) + 1, n);
  }

  /** Worker w comes first in the scan among the workers that were not seen full. */
  ghost predicate FirstNotFull<T>(lines: seq<seq<T>>, cap: nat, first: nat, w: nat) {
    && first < |lines|
    && exists k :: 0 <= k < |lines| && ScanAt(first, k, |lines|) == w && FullBefore(lines, cap, first, k)
  }

  /** With the cursor at `next`, the task went to the first worker in turn that was not seen full,
    * and the cursor stands behind that worker. */
  ghost predicate SentInTurn<T>(lines: seq<seq<T>>, cap: nat, next: nat, next': nat) {
    next' >= 1 && |lines| > 0 && FirstNotFull(lines, cap, next % |lines|, next' - 1)
  }

  ghost predicate FullBefore<T>(lines: seq<seq<T>>, cap: nat, first: nat, k: nat)
    requires first < |lines| && k <= |lines|
  {
    forall a :: 0 <= a < k ==> |lines[ScanAt(first, a, |lines|)]| >= cap
  }

  lemma ScanCovers(first: nat, n: nat, w: nat) returns (k: nat)
    requires first < n && w < n
    ensures k < n && ScanAt(first, k, n) == w
  {
    k := if first <= w then w - first else w + n - first;
  }

  /** Advance the cursor and try the worker it points at. */
  method TryNext<V, E>(pool: WorkerPool<V, E>, nextWorker: nat, t: Task<V, E>)
    returns (idx: nat, sent: SendOutcome, next: nat)
    requires pool.Valid() && pool.open && CursorAt(nextWorker, pool.tries, |pool.workers|)
    requires Turns(pool.tries, pool.cap, pool.SentTo()) && Waits(pool.tries, Some(t.id))
    modifies pool`workers, pool`results, pool`lanes, pool`tries
    ensures pool.Valid() && |pool.workers| == |old(pool.workers)|
    ensures idx == nextWorker % |pool.workers| && next == idx + 1
    ensures sent == Sent ==> pool.Lines() == old(pool.Lines())[idx := old(pool.Lines())[idx] + [t]]
                             && pool.SentTo() == old(pool.SentTo())[idx := old(pool.SentTo())[idx] + [t]]
    ensures sent == Full ==> pool.Lines() == old(pool.Lines()) && pool.SentTo() == old(pool.SentTo())
                             && |pool.Lines()[idx]| >= pool.cap
    ensures Turns(pool.tries, pool.cap, pool.SentTo()) && CursorAt(next, pool.tries, |pool.workers|)
    ensures pool.tries == old(pool.tries) + [Try(t.id, idx, sent == Sent)]
    ensures Waits(pool.tries, if sent == Sent then None else Some(t.id))
    ensures Taken(pool.tries) == Taken(old(pool.tries)) + (if sent == Sent then [t.id] else [])
  {
    hide LaneInv, Turns, Waits, Taken;
    idx := nextWorker % |pool.workers|;
    next := idx + 1;
    ghost var tries, lists := pool.tries, pool.SentTo();
    NextTurn(|tries|, |pool.workers|);
    sent := pool.TrySend(idx, t);
    if sent == Sent {
      AcceptedTurn(tries, pool.cap, lists, t, idx);
    } else {
      RefusedTurn(tries, pool.cap, lists, t.id, idx);
    }
    LastTry(tries, Try(t.id, idx, sent == Sent));
  }

  /** Offer a task to the workers in turn, starting after the last one used. Either some worker
    * accepts it, or every worker was seen with a full queue; whatever the workers do between
    * the attempts, each then still has `cap` tasks outstanding. */
  method DispatchTaskTry<V, E>(pool: WorkerPool<V, E>, nextWorker: nat, t: Task<V, E>)
    returns (o: DispatchOutcome, next: nat)
    requires pool.Valid() && pool.open && CursorAt(nextWorker, pool.tries, |pool.workers|)
    requires Turns(pool.tries, pool.cap, pool.SentTo()) && Waits(pool.tries, Some(t.id))
    modifies pool`workers, pool`results, pool`lanes, pool`tries
    ensures pool.Valid() && |pool.workers| == |old(pool.workers)|
    ensures o.Queued? ==> o.worker < |pool.workers| && next == o.worker + 1
                          && pool.Lines() == old(pool.Lines())[o.worker := old(pool.Lines())[o.worker] + [t]]
                          && pool.SentTo() == old(pool.SentTo())[o.worker := old(pool.SentTo())[o.worker] + [t]]
    ensures o.Queued? ==> SentInTurn(old(pool.Lines()), pool.cap, nextWorker, next)
    ensures o.AllFull? ==> pool.Lines() == old(pool.Lines()) && pool.SentTo() == old(pool.SentTo())
                           && forall w :: 0 <= w < |pool.Lines()| ==> |pool.Lines()[w]| >= pool.cap
    ensures o.AllFull? ==> SameTurn(nextWorker, next, |pool.workers|)
                           && |pool.tries| == |old(pool.tries)| + |pool.workers|
    ensures Turns(pool.tries, pool.cap, pool.SentTo()) && CursorAt(next, pool.tries, |pool.workers|)
    ensures Waits(pool.tries, if o.Queued? then None else Some(t.id))
    ensures Taken(pool.tries) == Taken(old(pool.tries)) + (if o.Queued? then [t.id] else [])
  {
    hide LaneInv, Turns, Waits, Taken, WorkerPool.Lines, WorkerPool.SentTo;
    var n := |pool.workers|;
    SmallMod(nextWorker, n);
    ghost var first := nextWorker % n;
    next := nextWorker;
    for k := 0 to n
      invariant pool.Valid() && |pool.workers| == n
      invariant k < n ==> (if next == n then 0 else next) == ScanAt(first, k, n)
      invariant pool.Lines() == old(pool.Lines()) && pool.SentTo() == old(pool.SentTo())
      invariant FullBefore(pool.Lines(), pool.cap, first, k)
      invariant Turns(pool.tries, pool.cap, pool.SentTo()) && Waits(pool.tries, Some(t.id))
      invariant CursorAt(next, pool.tries, n) && |pool.tries| == |old(pool.tries)| + k
      invariant Taken(pool.tries) == Taken(old(pool.tries))
    {
      SmallMod(next, n);
      var idx, sent;
      idx, sent, next := TryNext(pool, next, t);
      if sent == Sent {
        assert FullBefore(old(pool.Lines()), pool.cap, first, k) && ScanAt(first, k, n) == idx;
        return Queued(idx), next;
      }
    }
    forall w | 0 <= w < n
      ensures |pool.Lines()[w]| >= pool.cap
    {
      var k := ScanCovers(first, n, w);
    }
    FullRound(|old(pool.tries)|, n);
    o := AllFull;
  }

  lemma SmallMod(x: nat, n: nat)
    requires n > 0 && x <= n
    ensures x % n == if x == n then 0 else x
  {
  }

  class Scheduler<K(==), !V, E> {
    const st: KahnState<K, V, E>
    const pool: WorkerPool<V, E>
    const cfg: ExecutorConfig
    const effectiveCap: usize
    const neededCount: nat
    var pending: Option<Task<V, E>>
    var inFlight: nat
    var nextWorker: nat
    var processed: nat

    ghost function View(): Sched<V, E>
      reads this, st, st.vals, st.indeg, st.observer, pool
    {
      Sched(st.View(), pending, pool.Lines(), pool.SentTo(), inFlight, processed)
    }

    ghost predicate Wired()
      reads this, st, st.vals, st.indeg, st.observer, pool
    {
      && st.Valid() && st.parallel
      && pool.Valid() && pool.open && pool.receiving
      && pool.cap == cfg.workerQueueCap && |pool.workers| == cfg.maxWorkers
      && effectiveCap == EffectiveCap(cfg) && neededCount == |MaskSet(st.needed)|
    }

    /** The attempts so far went round the workers, the cursor is where they left it, tasks were
      * started as they were accepted, and a refused task is the one at hand. */
    ghost predicate Rotating(next: Option<Task<V, E>>)
      reads this, st, st.observer, pool
    {
      && CursorAt(nextWorker, pool.tries, |pool.workers|)
      && Rotates(st.dag, pool.tries, pool.cap, st.observer.executionOrder, pool.SentTo())
      && Waits(pool.tries, if next.Some? then Some(next.value.id) else None)
    }

    ghost predicate Valid()
      reads this, st, st.vals, st.indeg, st.observer, pool
    {
      Wired() && SchedInv(st.dag, st.needed, cfg, View()) && Rotating(pending)
    }

    /** The scheduler has task t in hand: neither queued nor kept as pending. */
    ghost predicate Holding(t: Task<V, E>)
      reads this, st, st.vals, st.indeg, st.observer, pool
    {
      Wired() && pending.None? && SchedInv(st.dag, st.needed, cfg, View().(pending := Some(t))) && Rotating(Some(t))
    }

    constructor (st: KahnState<K, V, E>, pool: WorkerPool<V, E>, cfg: ExecutorConfig, neededCount: nat)
      requires st.Valid() && st.parallel && st.View().Settled() && st.held == multiset{} && st.running == multiset{}
      requires DoneSet(st.vals[..]) == {} && neededCount == |MaskSet(st.needed)| && Accepted(cfg)
      requires pool.Valid() && pool.open && pool.receiving && pool.cap == cfg.workerQueueCap
      requires |pool.workers| == cfg.maxWorkers
      requires pool.Lines() == seq(cfg.maxWorkers, _ => []) && pool.SentTo() == seq(cfg.maxWorkers, _ => [])
      requires pool.tries == [] && st.observer.executionOrder == []
      ensures nextWorker == 0
      ensures Valid() && this.st == st && this.pool == pool && this.cfg == cfg && processed == 0
    {
      this.st, this.pool, this.cfg, this.neededCount := st, pool, cfg, neededCount;
      effectiveCap := EffectiveCap(cfg);
      pending, inFlight, nextWorker, processed := None, 0, 0, 0;
      new;
      StartInv(st.dag, st.needed, cfg, View());
      NoTurns(st.dag, pool.cap, pool.SentTo());
    }

    /** Put the dispatch of t to worker w on record and count it. `s` is the state before, with t
      * in hand; `tries` are the attempts before. */
    method MarkQueued(t: Task<V, E>, w: nat, ghost s: Sched<V, E>, ghost tries: seq<Try>)
      requires Wired() && pending.None? && s.inFlight < effectiveCap && w < |s.lines| == |s.sent|
      requires SchedInv(st.dag, st.needed, cfg, s) && s.pending == Some(t)
      requires View() == s.(pending := None, lines := s.lines[w := s.lines[w] + [t]],
                            sent := s.sent[w := s.sent[w] + [t]])
      requires Rotates(st.dag, tries, pool.cap, st.observer.executionOrder, s.sent)
      requires Turns(pool.tries, pool.cap, pool.SentTo()) && Taken(pool.tries) == Taken(tries) + [t.id]
      requires CursorAt(nextWorker, pool.tries, |pool.workers|) && Waits(pool.tries, None)
      modifies this`inFlight, st, st.observer
      ensures Valid() && inFlight == old(inFlight) + 1
      ensures t.id < |st.observer.workerId| && st.observer.workerId[t.id] == Some(w)
    {
      hide SchedInv, CoreInv, LaneInv, EffectiveCap, OwedTable, Dag.Valid, MaskSet, DoneSet, SetOnce, SentByRecord,
        TraceObserver.View, Rotates, Turns, Waits, Taken, CursorAt, WorkerPool.Valid, KahnState.Shaped;
      LogOf(st.observer);
      InHand(st.dag, st.needed, cfg, s, t);
      ghost var order := st.observer.executionOrder;
      st.Start(t.id, Some(w));
      TaskStarted(st.dag, tries, pool.tries, pool.cap, order, s.sent, pool.SentTo(), t.id);
      inFlight := inFlight + 1;
      LogOf(st.observer);
      SentKeeps(st.dag, st.needed, cfg, s, View(), w, t);
    }

    /** Offer the task in hand to the workers, from the cursor on; keep it as pending if all
      * queues are full. The first worker not seen full gets it and is put on record. */
    method Offer(t: Task<V, E>) returns (queued: bool)
      requires Holding(t) && inFlight < effectiveCap
      modifies this`pending, this`inFlight, this`nextWorker, st, st.observer
      modifies pool`workers, pool`results, pool`lanes, pool`tries
      ensures Valid() && processed == old(processed)
      ensures queued ==> inFlight == old(inFlight) + 1
      ensures queued ==>
                && SentInTurn(old(pool.Lines()), pool.cap, old(nextWorker), nextWorker) && nextWorker >= 1
                && t.id < |st.observer.workerId| && st.observer.workerId[t.id] == Some(nextWorker - 1)
      ensures !queued ==> pending.Some? && inFlight == old(inFlight) >= cfg.maxWorkers * cfg.workerQueueCap >= 1
      ensures !queued ==> SameTurn(old(nextWorker), nextWorker, |pool.workers|)
    {
      hide SchedInv, CoreInv, LaneInv, EffectiveCap, OwedTable, Dag.Valid, MaskSet, DoneSet, SetOnce, SentByRecord,
        TraceObserver.View, SentInTurn, SameTurn, Rotates, Turns, Waits, Taken, CursorAt, WorkerPool.Valid,
        KahnState.Shaped;
      ghost var s, order := View().(pending := Some(t)), st.observer.executionOrder;
      ghost var tries, sent := pool.tries, pool.SentTo();
      HasTurns(st.dag, tries, pool.cap, order, sent);
      InHand(st.dag, st.needed, cfg, s, t);
      var outcome;
      outcome, nextWorker := DispatchTaskTry(pool, nextWorker, t);
      match outcome {
        case Queued(w) =>
          MarkQueued(t, w, s, tries);
          queued := true;
        case AllFull =>
          pending := Some(t);
          NothingStarted(st.dag, tries, pool.tries, pool.cap, order, sent);
          FullMeansBusy(st.dag, st.needed, cfg, View());
          queued := false;
      }
    }

    /** Finish a popped source on the scheduler thread. `s` is the state before the pop. */
    method FinishSource(id: nat, v: V, ghost s: Sched<V, E>)
      requires Wired() && pending.None? && inFlight < effectiveCap && Rotating(None)
      requires SchedInv(st.dag, st.needed, cfg, s) && s.pending.None? && s.core.ready != [] && id == s.core.ready[0]
      requires id < |st.dag.nodes| && st.dag.nodes[id].kind == NodeKind.Source(v)
      requires View() == s.(core := s.core.(ready := s.core.ready[1..], held := s.core.held + multiset{id}))
      modifies this`processed, st, st.vals, st.indeg, st.observer
      ensures Valid() && processed == old(processed) + 1 && EmptyMeansEarly(st.dag, st.needed, cfg, View())
    {
      hide SchedInv, CoreInv, EffectiveCap, OwedTable, EmptyMeansEarly, Extends, LaneInv, Dag.Valid;
      hide WorkerPool.Valid, WorkerPool.Lines, WorkerPool.SentTo, MaskSet, DoneSet, SentByRecord, KahnState.Line;
      hide Rotates, Waits, CursorAt;
      SourceStarted(st.dag, pool.tries, pool.cap, st.observer.executionOrder, pool.SentTo(), id);
      ReadySource(st.dag, st.needed, cfg, s, id, v);
      PutBack(s.core.held, s.core.running, id);
      st.CompleteSource(id, v);
      processed := processed + 1;
      SourceKeeps(st.dag, st.needed, cfg, s, View(), id, v);
    }

    /** Take the oldest ready node: finish a source, offer a task. */
    method StepReady() returns (queued: bool)
      requires Valid() && pending.None? && st.ready != [] && inFlight < effectiveCap
      modifies this`pending, this`inFlight, this`nextWorker, this`processed
      modifies st, st.vals, st.indeg, st.observer, pool`workers, pool`results, pool`lanes, pool`tries
      ensures Valid() && EmptyMeansEarly(st.dag, st.needed, cfg, View())
      ensures queued ==> processed + inFlight == old(processed + inFlight) + 1
      ensures !queued ==> pending.Some? && inFlight >= 1
      ensures processed >= old(processed)
    {
      hide SchedInv, CoreInv, EffectiveCap, OwedTable, LaneInv, Dag.Valid, Rotates, Waits, CursorAt;
      ghost var s := View();
      BeforePop(st.dag, st.needed, cfg, s);
      var id := st.PopFront();
      match st.dag.nodes[id].kind {
        case Source(v) =>
          FinishSource(id, v, s);
          queued := true;
        case Task(f) =>
          assert st.View().Frontier()[id] > 0;
          var args := st.Arguments(id);
          var t := Task.Task(id, f, args);
          PickKeeps(st.dag, st.needed, cfg, s, View().(pending := Some(t)), t);
          NoneWaits(pool.tries, id);
          queued := Offer(t);
      }
    }

    /** Offer the pending task again before anything else. */
    method RetryPending() returns (queued: bool)
      requires Valid() && pending.Some? && inFlight < effectiveCap
      modifies this`pending, this`inFlight, this`nextWorker, st, st.observer
      modifies pool`workers, pool`results, pool`lanes, pool`tries
      ensures Valid() && EmptyMeansEarly(st.dag, st.needed, cfg, View())
      ensures queued ==> processed + inFlight == old(processed + inFlight) + 1
      ensures !queued ==> pending.Some? && inFlight >= 1
      ensures processed == old(processed)
    {
      hide SchedInv, CoreInv, EffectiveCap, OwedTable, LaneInv, EarlyExit, Rotates, Waits,
        CursorAt;
      var t := pending.value;
      pending := None;
      assert Holding(t);
      queued := Offer(t);
    }

    /** The dispatch loop: pending task first, then the ready queue, until the cap is reached,
      * every queue is full, or nothing is ready. */
    method Dispatch()
      requires Valid() && processed < neededCount
      modifies this`pending, this`inFlight, this`nextWorker, this`processed
      modifies st, st.vals, st.indeg, st.observer, pool`workers, pool`results, pool`lanes, pool`tries
      ensures Valid() && DispatchDone(cfg, View()) && EmptyMeansEarly(st.dag, st.needed, cfg, View())
      ensures processed >= old(processed)
    {
      EffectiveCapExact(cfg);
      assert EmptyMeansEarly(st.dag, st.needed, cfg, View());
      hide SchedInv, CoreInv, OwedTable, LaneInv, EmptyMeansEarly, EffectiveCap, Dag.Valid, Scheduler.Rotating;
      while inFlight < effectiveCap
        invariant Valid() && EmptyMeansEarly(st.dag, st.needed, cfg, View()) && processed >= old(processed)
        decreases neededCount - processed - inFlight
      {
        CountersFit(st.dag, st.needed, cfg, View());
        var queued;
        if pending.Some? {
          queued := RetryPending();
        } else if st.ready == [] {
          break;
        } else {
          queued := StepReady();
        }
        if !queued {
          break;
        }
      }
    }

    /** Wait for one result, then record it or report the failure. */
    method AwaitResult() returns (failed: Option<ExecError<K, E>>)
      requires Valid() && DispatchDone(cfg, View()) && inFlight >= 1
      modifies this`inFlight, this`processed, st, st.vals, st.indeg, st.observer, pool`workers, pool`results, pool`lanes
      ensures failed.None? ==>
                Valid() && processed == old(processed) + 1
                && (EarlyExit(st.dag, MaskSet(st.needed), cfg.maxInFlight) ==>
                    DoneSet(st.vals[..]) != MaskSet(st.needed))
      ensures failed.Some? ==>
                && pool.Valid() && pool.open && pool.receiving && pool.SentTo() == old(pool.SentTo())
                && |pool.workers| == |old(pool.workers)|
                && GenuineFailure(st.dag, MaskSet(st.needed), failed.value)
                && st.observer.workerId == old(st.observer.workerId)
                && st.observer.executionOrder == old(st.observer.executionOrder)
    {
      hide SchedInv, CoreInv, EffectiveCap, OwedTable, LaneInv, EarlyExit, DispatchDone, Extends, GoodTask, Dag.Valid,
        Rotates, Waits, CursorAt, MaskSet, DoneSet, SentByRecord, WorkerPool.Valid, SetOnce, KahnState.Shaped;
      ghost var s := View();
      Outstanding(st.dag, st.needed, cfg, s);
      var result := pool.Recv();
      LineHead(st.dag, st.needed, cfg, s, result.worker);
      GoodTaskMeaning(st.dag, s.lines[result.worker][0]);
      inFlight := inFlight - 1;
      st.Finish(result.id);
      if result.out.Failure? {
        failed := Some(TaskFailed(st.dag.nodes[result.id].key, result.out.error));
        return;
      }
      Record(result.worker, result.id, result.out.value, s);
      failed := None;
    }

    /** Record a received value and release its dependents. `s` is the state before receiving. */
    method Record(ghost w: nat, id: nat, v: V, ghost s: Sched<V, E>)
      requires Wired() && st.View().Settled() && SchedInv(st.dag, st.needed, cfg, s) && DispatchDone(cfg, s)
      requires w < |s.lines| && s.lines[w] != [] && id == s.lines[w][0].id && s.inFlight >= 1
      requires id < |st.dag.nodes| && st.running[id] > 0 && Meaning(st.dag, id) == Defined(v)
      requires id < |st.observer.finishedAt| && st.observer.finishedAt[id].Some?
      requires View() == s.(core := s.core.(log := st.observer.View()), lines := s.lines[w := s.lines[w][1..]],
                            inFlight := s.inFlight - 1)
      requires st.observer.workerId == s.core.log.workerId && Rotating(pending)
      modifies this`processed, st, st.vals, st.indeg, st.observer
      ensures Valid() && processed == old(processed) + 1
      ensures EarlyExit(st.dag, MaskSet(st.needed), cfg.maxInFlight) ==> DoneSet(st.vals[..]) != MaskSet(st.needed)
    {
      hide SchedInv, CoreInv, EffectiveCap, OwedTable, LaneInv, EarlyExit, DispatchDone, Extends, SentByRecord,
        Dag.Valid, Rotates, Waits, CursorAt;
      st.Complete(id, v, true);
      processed := processed + 1;
      RecvKeepsSched(st.dag, st.needed, cfg, s, View(), w, id, v);
    }

    /** Leave with the cycle report: nothing in flight and nothing to dispatch. */
    method ReportIdle() returns (r: Result<nat, ExecError<K, E>>)
      requires Valid() && DispatchDone(cfg, View()) && EmptyMeansEarly(st.dag, st.needed, cfg, View()) && inFlight == 0
      ensures r.Failure? && r.error.Cycle?
      ensures KahnOutcome(st.dag, MaskSet(st.needed), EarlyExit(st.dag, MaskSet(st.needed), cfg.maxInFlight),
                          Failure(r.error))
      ensures CallsSpec(st.dag, MaskSet(st.needed), pool.SentTo(), true)
    {
      hide SchedInv, CoreInv, EffectiveCap, OwedTable, LaneInv, EarlyExit, KahnOutcome, CallsSpec;
      IdleExit(st.dag, st.needed, cfg, View());
      IdleMeansStuck(st.dag, st.needed, cfg, View());
      FinalCalls(st.dag, st.needed, cfg, View());
      var remaining, ids := Remaining(st.dag, st.needed, st.indeg);
      r := Failure(Cycle(remaining));
    }

    /** The scheduler loop. */
    method Loop() returns (r: Result<nat, ExecError<K, E>>)
      requires Valid() && DoneSet(st.vals[..]) == {}
      modifies this, st, st.vals, st.indeg, st.observer, pool
      ensures pool.Valid() && pool.open && pool.receiving && |pool.workers| == cfg.maxWorkers
      ensures CallsSpec(st.dag, MaskSet(st.needed), pool.SentTo(), !IsTaskFailure(r))
      ensures CalledAsRecorded(st.observer.View(), pool.SentTo())
      ensures Rotates(st.dag, pool.tries, pool.cap, st.observer.executionOrder, pool.SentTo())
      ensures var g, nd := st.dag, MaskSet(st.needed);
              var early := EarlyExit(g, nd, cfg.maxInFlight);
              if r.Success? then
                && KahnOutcome(g, nd, early, Success((st.vals[..], st.needed)))
                && FullRecord(g, nd, true, st.observer.View())
              else
                KahnOutcome(g, nd, early, Failure(r.error))
    {
      hide SchedInv, CoreInv, EffectiveCap, OwedTable, LaneInv, KahnOutcome, GenuineFailure, CallsSpec, FullRecord,
        SentByRecord, CalledBy, Dag.Valid, Rotates, Waits, CursorAt, WorkerPool.Valid, KahnState.Shaped;
      ghost var g, nd := st.dag, MaskSet(st.needed);
      ghost var early := EarlyExit(g, nd, cfg.maxInFlight);
      assert early ==> nd != {};
      hide EarlyExit;
      while processed < neededCount
        invariant Valid() && (early ==> DoneSet(st.vals[..]) != nd)
        decreases neededCount - processed
      {
        Dispatch();
        if inFlight == 0 {
          RecordMatchesCalls(g, st.needed, cfg, View());
          r := ReportIdle();
          return;
        }
        FinalCalls(g, st.needed, cfg, View());
        RecordMatchesCalls(g, st.needed, cfg, View());
        var failed := AwaitResult();
        if failed.Some? {
          FailureExit(g, nd, early, failed.value);
          return Failure(failed.value);
        }
      }
      CompleteRun(g, st.needed, cfg, View());
      RecordMatchesCalls(g, st.needed, cfg, View());
      FinalCalls(g, st.needed, cfg, View());
      r := Success(processed);
    }
  }

  /** What `run_with_observer` returns for a request. The configuration checks come first, in
    * the order of the code; after that the outcome is that of the sequential executor except
    * on the early exit. */
  ghost predicate ParallelOutcome<K, V, E>(g: Dag<K, V, E>, cfg: ExecutorConfig, keys: seq<K>,
                                           r: Result<Artifacts<V>, ExecError<K, E>>)
  {
    if keys == [] then r == Failure(InternalInvariant("outputs must be non-empty"))
    else if cfg.maxWorkers == 0 then r == Failure(InternalInvariant("max_workers must be > 0"))
    else if cfg.maxInFlight == 0 then r == Failure(InternalInvariant("max_in_flight must be > 0"))
    else if cfg.workerQueueCap == 0 then r == Failure(InternalInvariant("worker_queue_cap must be > 0"))
    else if FirstUnknown(g, keys).Some? then r == Failure(OutputMissing(FirstUnknown(g, keys).value))
    else KahnOutcome(g, Requested(g, keys), EarlyExit(g, Requested(g, keys), cfg.maxInFlight), r)
  }

  /** Run the scheduler against a fresh pool. On every way out the pool is dropped before the
    * result receiver, so `calls`, the calls each worker has made by then, are exactly the
    * tasks sent to it. */
  method RunWithObserver<K(==), V, E>(g: Dag<K, V, E>, cfg: ExecutorConfig, keys: seq<K>, observer: TraceObserver)
    returns (r: Result<Artifacts<V>, ExecError<K, E>>, ghost calls: seq<seq<Task<V, E>>>)
    requires g.Valid() && observer.View() == Blank(|g.nodes|)
    modifies observer
    ensures ParallelOutcome(g, cfg, keys, r)
    ensures keys != [] && Accepted(cfg) && FirstUnknown(g, keys).None? ==>
              CallsSpec(g, Requested(g, keys), calls, !IsTaskFailure(r))
    ensures CalledAsRecorded(observer.View(), calls)
    ensures keys != [] && Accepted(cfg) && FirstUnknown(g, keys).None? ==>
              |calls| == cfg.maxWorkers && RoundRobin(g, cfg.workerQueueCap, observer.executionOrder, calls)
    ensures r.Success? ==> FullRecord(g, Requested(g, keys), true, observer.View())
  {
    if keys == [] {
      return Failure(InternalInvariant("outputs must be non-empty")), [];
    }
    if cfg.maxWorkers == 0 {
      return Failure(InternalInvariant("max_workers must be > 0")), [];
    }
    if cfg.maxInFlight == 0 {
      return Failure(InternalInvariant("max_in_flight must be > 0")), [];
    }
    if cfg.workerQueueCap == 0 {
      return Failure(InternalInvariant("worker_queue_cap must be > 0")), [];
    }
    var marked := MarkNeeded(g, keys);
    if marked.Failure? {
      return Failure(marked.error), [];
    }
    NeededIsClosed(g, Roots(g, keys));
    r, calls := RunNeeded(g, cfg, marked.value, observer);
  }

  /** The part of `run_with_observer` after marking. */
  method RunNeeded<K(==), V, E>(g: Dag<K, V, E>, cfg: ExecutorConfig, needed: seq<bool>, observer: TraceObserver)
    returns (r: Result<Artifacts<V>, ExecError<K, E>>, ghost calls: seq<seq<Task<V, E>>>)
    requires g.Valid() && |needed| == |g.nodes| && ClosedUnderDeps(g, MaskSet(needed)) && Accepted(cfg)
    requires observer.View() == Blank(|g.nodes|)
    modifies observer
    ensures KahnOutcome(g, MaskSet(needed), EarlyExit(g, MaskSet(needed), cfg.maxInFlight), r)
    ensures CallsSpec(g, MaskSet(needed), calls, !IsTaskFailure(r))
    ensures CalledAsRecorded(observer.View(), calls)
    ensures |calls| == cfg.maxWorkers && RoundRobin(g, cfg.workerQueueCap, observer.executionOrder, calls)
    ensures r.Success? ==> FullRecord(g, MaskSet(needed), true, observer.View())
  {
    hide SchedInv, CoreInv, EffectiveCap, OwedTable, LaneInv, EarlyExit, KahnOutcome, CallsSpec, FullRecord,
      SentByRecord, CalledBy, Dag.Valid, Rotates, RoundRobin;
    var st, neededCount := Prepare(g, needed, observer, true);
    var pool := new WorkerPool(cfg.maxWorkers, cfg.workerQueueCap);
    var scheduler := new Scheduler(st, pool, cfg, neededCount);
    var run := scheduler.Loop();
    pool.Drop();
    calls := pool.Called();
    IsRoundRobin(g, pool.tries, pool.cap, observer.executionOrder, calls);
    pool.DropReceiver();
    r := if run.Failure? then Failure(run.error) else Success((st.vals[..], needed));
  }
}
