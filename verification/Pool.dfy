/** The worker pool: per-worker bounded FIFO queues, a running slot per worker and one
  * unbounded result channel.
  *
  * Channels are atomic FIFO sequences. Worker threads are modelled by `Interfere`, which lets
  * any workers take any number of steps in any order; it runs before every operation by which
  * the scheduler can observe the workers (`TrySend`, `Recv`) and during shutdown.
  */
module Pool {
  import opened Wrappers
  import opened Calls

  /** A finished call on its way to the scheduler. `worker` is the sender. */
  datatype TaskResult<V, E> = TaskResult(worker: nat, id: nat, out: Result<V, E>)

  datatype Worker<!V, E> = Worker(queue: seq<Task<V, E>>, running: Option<Task<V, E>>, exited: bool)

  datatype SendOutcome = Sent | Full

  /** One attempt to send a task to a worker. */
  datatype Try = Try(id: nat, worker: nat, accepted: bool)

  ghost function ResultOf<V, E>(w: nat, t: Task<V, E>): TaskResult<V, E> {
    TaskResult(w, t.id, t.Run())
  }

  /** The results of worker w among the unread ones, in order. */
  ghost function From<V, E>(results: seq<TaskResult<V, E>>, w: nat): seq<TaskResult<V, E>> {
    if results == [] then []
    else
      var last := results[|results| - 1];
      From(results[..|results| - 1], w) + (if last.worker == w then [last] else [])
  }

  ghost function Opt<T>(x: Option<T>): seq<T> {
    if x.Some? then [x.value] else []
  }

  /** The history of one worker. `got` are the tasks whose results the scheduler has read,
    * `line` those it sent and has no result for, both oldest first; `called` are the tasks
    * the worker has called so far. */
  datatype Lane<!V, E> = Lane(got: seq<Task<V, E>>, line: seq<Task<V, E>>, called: seq<Task<V, E>>)

  /** Everything sent to a worker is either called, running or queued, in that order; the
    * unread results are those of the calls whose results were not read yet. */
  ghost predicate LaneInv<V, E>(w: nat, k: Worker<V, E>, results: seq<TaskResult<V, E>>, l: Lane<V, E>, cap: nat) {
    && |k.queue| <= cap
    && l.got + l.line == l.called + Opt(k.running) + k.queue
    && |l.got| <= |l.called|
    && ResultsMatch(w, From(results, w), l.called[|l.got|..])
    && (k.exited ==> k.running.None? && k.queue == [])
  }

  ghost predicate ResultsMatch<V, E>(w: nat, rs: seq<TaskResult<V, E>>, ts: seq<Task<V, E>>) {
    |rs| == |ts| && forall j :: 0 <= j < |rs| ==> rs[j] == ResultOf(w, ts[j])
  }

  predicate CanStep<V, E>(k: Worker<V, E>, open: bool) {
    !k.exited && (k.running.Some? || k.queue != [] || !open)
  }

  /** Steps the worker can still take on its own before it has to wait or is gone. */
  function Steps<V, E>(k: Worker<V, E>): nat {
    2 * |k.queue| + (if k.running.Some? then 1 else 0) + (if k.exited then 0 else 1)
  }

  function Work<V, E>(ks: seq<Worker<V, E>>): nat {
    if ks == [] then 0 else Work(ks[..|ks| - 1]) + Steps(ks[|ks| - 1])
  }

  lemma {:induction false} WorkUpdate<V, E>(ks: seq<Worker<V, E>>, w: nat, k: Worker<V, E>)
    requires w < |ks|
    ensures Work(ks[w := k]) + Steps(ks[w]) == Work(ks) + Steps(k)
  {
    var n, after := |ks| - 1, ks[w := k];
    if w == n {
      assert after[..n] == ks[..n];
    } else {
      WorkUpdate(ks[..n], w, k);
      assert after[..n] == ks[..n][w := k];
    }
  }

  lemma FromAppend<V, E>(results: seq<TaskResult<V, E>>, r: TaskResult<V, E>, w: nat)
    ensures From(results + [r], w) == From(results, w) + (if r.worker == w then [r] else [])
  {
    assert (results + [r])[..|results|] == results;
  }

  lemma {:induction false} FromDropFirst<V, E>(results: seq<TaskResult<V, E>>, w: nat)
    requires results != []
    ensures From(results, w) == (if results[0].worker == w then [results[0]] else []) + From(results[1..], w)
  {
    var n := |results| - 1;
    if n == 0 {
      assert results[..0] == [] && results[1..] == [];
    } else {
      FromDropFirst(results[..n], w);
      assert results[..n][1..] == results[1..][..n - 1];
    }
  }

  lemma TakeKeeps<V, E>(w: nat, k: Worker<V, E>, k': Worker<V, E>, results: seq<TaskResult<V, E>>, l: Lane<V, E>,
                        cap: nat)
    requires k.running.None? && k.queue != [] && k' == k.(queue := k.queue[1..], running := Some(k.queue[0]))
    requires LaneInv(w, k, results, l, cap)
    ensures LaneInv(w, k', results, l, cap)
  {
    assert k.queue == [k.queue[0]] + k.queue[1..];
  }

  lemma ExitKeeps<V, E>(w: nat, k: Worker<V, E>, k': Worker<V, E>, results: seq<TaskResult<V, E>>, l: Lane<V, E>,
                        cap: nat)
    requires k.running.None? && k.queue == [] && k' == k.(exited := true)
    requires LaneInv(w, k, results, l, cap)
    ensures LaneInv(w, k', results, l, cap)
  {
  }

  lemma SendKeeps<V, E>(w: nat, k: Worker<V, E>, k': Worker<V, E>, results: seq<TaskResult<V, E>>, l: Lane<V, E>,
                        cap: nat)
    requires k.running.Some? && k' == k.(running := None)
    requires LaneInv(w, k, results, l, cap)
    ensures LaneInv(w, k', results + [ResultOf(w, k.running.value)], l.(called := l.called + [k.running.value]), cap)
  {
    FromAppend(results, ResultOf(w, k.running.value), w);
    var called := l.called + [k.running.value];
    assert called[|l.got|..] == l.called[|l.got|..] + [k.running.value];
  }

  lemma OthersKeep<V, E>(w: nat, k: Worker<V, E>, results: seq<TaskResult<V, E>>, r: TaskResult<V, E>, l: Lane<V, E>,
                         cap: nat)
    requires LaneInv(w, k, results, l, cap) && r.worker != w
    ensures LaneInv(w, k, results + [r], l, cap)
  {
    FromAppend(results, r, w);
  }

  lemma EnqueueKeeps<V, E>(w: nat, k: Worker<V, E>, k': Worker<V, E>, results: seq<TaskResult<V, E>>, l: Lane<V, E>,
                           l': Lane<V, E>, t: Task<V, E>, cap: nat)
    requires |k.queue| < cap && !k.exited && k' == k.(queue := k.queue + [t]) && l' == l.(line := l.line + [t])
    requires LaneInv(w, k, results, l, cap)
    ensures LaneInv(w, k', results, l', cap)
  {
    assert l.got + (l.line + [t]) == (l.got + l.line) + [t];
  }

  /** Reading the oldest result moves the oldest task of its sender from `line` to `got`. */
  lemma RecvKeeps<V, E>(w: nat, k: Worker<V, E>, results: seq<TaskResult<V, E>>, l: Lane<V, E>, cap: nat)
    requires results != [] && LaneInv(w, k, results, l, cap)
    ensures results[0].worker == w ==>
              && l.line != [] && results[0] == ResultOf(w, l.line[0])
              && LaneInv(w, k, results[1..], l.(got := l.got + [l.line[0]], line := l.line[1..]), cap)
    ensures results[0].worker != w ==> LaneInv(w, k, results[1..], l, cap)
  {
    FromDropFirst(results, w);
    if results[0].worker == w {
      var rs, n := From(results, w), |l.got|;
      assert rs[0] == results[0] && rs[1..] == From(results[1..], w);
      assert (l.got + l.line)[n] == l.called[n];
      assert l.line[0] == l.called[n];
      var l' := l.(got := l.got + [l.line[0]], line := l.line[1..]);
      assert l'.got + l'.line == l.got + l.line by { assert l.line == [l.line[0]] + l.line[1..]; }
      assert l.called[n..][1..] == l.called[n + 1..];
    } else {
      assert From(results, w) == From(results[1..], w);
    }
  }

  /** With no unread result, a worker that still owes one can move. */
  lemma OwesMeansCanStep<V, E>(w: nat, k: Worker<V, E>, l: Lane<V, E>, cap: nat, open: bool)
    requires LaneInv(w, k, [], l, cap) && l.line != []
    ensures CanStep(k, open)
  {
    assert |l.called| == |l.got|;
  }

  // ---------------------------------------------------------------------------------------
  // The pool in memory
  // ---------------------------------------------------------------------------------------

  class WorkerPool<!V, E> {
    const cap: nat
    var workers: seq<Worker<V, E>>
    var results: seq<TaskResult<V, E>>
    var open: bool        // the task senders exist
    var receiving: bool   // the result receiver exists
    ghost var lanes: seq<Lane<V, E>>
    ghost var tries: seq<Try>   // all attempts to send, in order

    ghost predicate Valid()
      reads this
    {
      && |lanes| == |workers|
      && (forall w :: 0 <= w < |workers| ==> LaneInv(w, workers[w], results, lanes[w], cap))
      && (forall j :: 0 <= j < |results| ==> results[j].worker < |workers|)
      && (open ==> forall w :: 0 <= w < |workers| ==> !workers[w].exited)
      && (receiving || forall w :: 0 <= w < |workers| ==> workers[w].exited)
    }

    /** Tasks sent to each worker whose results were not read yet, oldest first. */
    ghost function Lines(): (r: seq<seq<Task<V, E>>>)
      reads this
      ensures |r| == |lanes|
    {
      seq(|lanes|, w requires 0 <= w < |lanes| reads this => lanes[w].line)
    }

    /** All tasks ever sent to each worker, in order. */
    ghost function SentTo(): (r: seq<seq<Task<V, E>>>)
      reads this
      ensures |r| == |lanes|
    {
      seq(|lanes|, w requires 0 <= w < |lanes| reads this => lanes[w].got + lanes[w].line)
    }

    /** Tasks each worker has called, in order. */
    ghost function Called(): (r: seq<seq<Task<V, E>>>)
      reads this
      ensures |r| == |lanes|
    {
      seq(|lanes|, w requires 0 <= w < |lanes| reads this => lanes[w].called)
    }

    constructor (workerCount: nat, perWorkerCap: nat)
      ensures Valid() && open && receiving && cap == perWorkerCap && |workers| == workerCount
      ensures Lines() == seq(workerCount, _ => []) && SentTo() == seq(workerCount, _ => []) && tries == []
    {
      cap := perWorkerCap;
      workers := seq(workerCount, _ => Worker([], None, false));
      lanes := seq(workerCount, _ => Lane([], [], []));
      results, tries := [], [];
      open, receiving := true, true;
    }

    /** Take the oldest queued task. */
    method Take(w: nat)
      requires Valid() && w < |workers| && workers[w].running.None? && workers[w].queue != []
      modifies this`workers
      ensures Valid() && Work(workers) < Work(old(workers))
      ensures |workers| == |old(workers)| && workers == old(workers)[w := workers[w]]
    {
      hide LaneInv;
      ghost var k := workers[w];
      workers := workers[w := workers[w].(queue := workers[w].queue[1..], running := Some(workers[w].queue[0]))];
      TakeKeeps(w, k, workers[w], results, lanes[w], cap);
      WorkUpdate(old(workers), w, workers[w]);
    }

    /** Call the running task and send its result. A worker would leave if the result could not
      * be sent; the receiver outlives the workers. */
    method Call(w: nat)
      requires Valid() && w < |workers| && workers[w].running.Some?
      modifies this`workers, this`results, this`lanes
      ensures Valid() && Work(workers) < Work(old(workers))
      ensures |workers| == |old(workers)| && workers == old(workers)[w := workers[w]] && old(results) <= results
      ensures Lines() == old(Lines()) && SentTo() == old(SentTo())
    {
      hide LaneInv;
      ghost var k, rs := workers[w], results;
      var t := workers[w].running.value;
      var r := TaskResult(w, t.id, t.Run());
      SendKeeps(w, k, k.(running := None), rs, lanes[w], cap);
      forall v | 0 <= v < |workers| && v != w {
        OthersKeep(v, workers[v], rs, r, lanes[v], cap);
      }
      workers := workers[w := workers[w].(running := None)];
      results := results + [r];
      lanes := lanes[w := lanes[w].(called := lanes[w].called + [t])];
      WorkUpdate(old(workers), w, workers[w]);
    }

    /** Leave: the senders are gone and the queue is drained. */
    method Exit(w: nat)
      requires Valid() && w < |workers| && !open && !workers[w].exited
      requires workers[w].running.None? && workers[w].queue == []
      modifies this`workers
      ensures Valid() && Work(workers) < Work(old(workers))
      ensures |workers| == |old(workers)| && workers == old(workers)[w := workers[w]]
    {
      hide LaneInv;
      ghost var k := workers[w];
      workers := workers[w := workers[w].(exited := true)];
      ExitKeeps(w, k, workers[w], results, lanes[w], cap);
      WorkUpdate(old(workers), w, workers[w]);
    }

    /** One step of one worker. */
    method Step(w: nat)
      requires Valid() && w < |workers| && CanStep(workers[w], open)
      modifies this`workers, this`results, this`lanes
      ensures Valid() && |workers| == |old(workers)| && Work(workers) < Work(old(workers))
      ensures workers == old(workers)[w := workers[w]] && old(results) <= results
      ensures Lines() == old(Lines()) && SentTo() == old(SentTo())
    {
      hide LaneInv;
      if workers[w].running.Some? {
        Call(w);
      } else if workers[w].queue != [] {
        Take(w);
      } else {
        Exit(w);
      }
    }

    /** Any number of steps of any workers, in any order. */
    method Interfere()
      requires Valid()
      modifies this`workers, this`results, this`lanes
      ensures Valid() && |workers| == |old(workers)| && old(results) <= results
      ensures Lines() == old(Lines()) && SentTo() == old(SentTo())
    {
      hide LaneInv;
      while *
        invariant Valid() && |workers| == |old(workers)| && old(results) <= results
        invariant Lines() == old(Lines()) && SentTo() == old(SentTo())
        decreases Work(workers)
      {
        var w :| 0 <= w <= |workers|;
        if w == |workers| || !CanStep(workers[w], open) {
          break;
        }
        Step(w);
      }
    }

    /** Non-blocking send. It fails only if the worker's queue is full, and then the worker has
      * at least `cap` tasks outstanding. */
    method TrySend(w: nat, t: Task<V, E>) returns (o: SendOutcome)
      requires Valid() && open && w < |workers|
      modifies this`workers, this`results, this`lanes, this`tries
      ensures Valid() && |workers| == |old(workers)| && tries == old(tries) + [Try(t.id, w, o == Sent)]
      ensures o == Sent ==> Lines() == old(Lines())[w := old(Lines())[w] + [t]]
      ensures o == Sent ==> SentTo() == old(SentTo())[w := old(SentTo())[w] + [t]]
      ensures o == Full ==> Lines() == old(Lines()) && SentTo() == old(SentTo())
      ensures o == Full ==> |SentTo()[w]| >= |Lines()[w]| >= |workers[w].queue| == cap
    {
      hide LaneInv;
      Interfere();
      assert !workers[w].exited;
      if |workers[w].queue| < cap {
        EnqueueKeeps(w, workers[w], workers[w].(queue := workers[w].queue + [t]), results, lanes[w],
                     lanes[w].(line := lanes[w].line + [t]), t, cap);
        workers := workers[w := workers[w].(queue := workers[w].queue + [t])];
        ghost var l := lanes[w];
        assert l.got + (l.line + [t]) == (l.got + l.line) + [t];
        lanes := lanes[w := l.(line := l.line + [t])];
        o := Sent;
      } else {
        QueueInLine(w, workers[w], results, lanes[w], cap);
        o := Full;
      }
      tries := tries + [Try(t.id, w, o == Sent)];
    }

    /** Blocking receive. Something is outstanding, so as long as no result is there some worker
      * can move, and the wait ends whichever worker does. */
    method Recv() returns (r: TaskResult<V, E>)
      requires Valid() && receiving && exists w :: 0 <= w < |Lines()| && Lines()[w] != []
      modifies this`workers, this`results, this`lanes
      ensures Valid() && |workers| == |old(workers)|
      ensures var w, before := r.worker, old(Lines());
              && w < |before| && before[w] != [] && r == ResultOf(w, before[w][0])
              && Lines() == before[w := before[w][1..]]
              && SentTo() == old(SentTo())
      ensures old(results) != [] ==> r == old(results)[0]
    {
      hide LaneInv, ResultOf, CanStep;
      while results == []
        invariant Valid() && |workers| == |old(workers)| && old(results) <= results
        invariant Lines() == old(Lines()) && SentTo() == old(SentTo())
        decreases Work(workers)
      {
        ghost var v :| 0 <= v < |Lines()| && Lines()[v] != [];
        OwesMeansCanStep(v, workers[v], lanes[v], cap, open);
        var w :| 0 <= w < |workers| && CanStep(workers[w], open);
        Step(w);
      }
      Interfere();
      r := results[0];
      forall v | 0 <= v < |workers| {
        RecvKeeps(v, workers[v], results, lanes[v], cap);
      }
      ghost var l := lanes[r.worker];
      assert l.line == [l.line[0]] + l.line[1..];
      assert (l.got + [l.line[0]]) + l.line[1..] == l.got + l.line;
      lanes := lanes[r.worker := l.(got := l.got + [l.line[0]], line := l.line[1..])];
      results := results[1..];
    }

    /** Close the task channels and join the workers. Every queued task is still called, exactly
      * once, and every worker is gone on return. */
    method Drop()
      requires Valid() && receiving
      modifies this`workers, this`results, this`lanes, this`open
      ensures Valid() && !open && |workers| == |old(workers)|
      ensures forall w :: 0 <= w < |workers| ==> workers[w].exited
      ensures Lines() == old(Lines()) && SentTo() == old(SentTo())
      ensures Called() == SentTo()
    {
      hide LaneInv;
      open := false;
      for h := 0 to |workers|
        invariant Valid() && !open && receiving && |workers| == |old(workers)|
        invariant forall w :: 0 <= w < h ==> workers[w].exited
        invariant Lines() == old(Lines()) && SentTo() == old(SentTo())
      {
        while !workers[h].exited
          invariant Valid() && !open && receiving && |workers| == |old(workers)|
          invariant forall w :: 0 <= w < h ==> workers[w].exited
          invariant Lines() == old(Lines()) && SentTo() == old(SentTo())
          decreases Work(workers)
        {
          assert CanStep(workers[h], open);
          var w :| 0 <= w < |workers| && CanStep(workers[w], open);
          Step(w);
        }
      }
      forall w | 0 <= w < |lanes| {
        ExitedCalledAll(w, workers[w], results, lanes[w], cap);
      }
    }

    /** The result receiver goes last. */
    method DropReceiver()
      requires Valid() && forall w :: 0 <= w < |workers| ==> workers[w].exited
      modifies this`receiving
      ensures Valid() && !receiving
    {
      receiving := false;
    }
  }

  lemma QueueInLine<V, E>(w: nat, k: Worker<V, E>, results: seq<TaskResult<V, E>>, l: Lane<V, E>, cap: nat)
    requires LaneInv(w, k, results, l, cap)
    ensures |l.line| >= |k.queue| && |k.queue| <= cap
  {
  }

  lemma ExitedCalledAll<V, E>(w: nat, k: Worker<V, E>, results: seq<TaskResult<V, E>>, l: Lane<V, E>, cap: nat)
    requires LaneInv(w, k, results, l, cap) && k.exited
    ensures l.called == l.got + l.line
  {
  }
}
