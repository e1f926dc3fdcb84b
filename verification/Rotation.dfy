/** The round-robin order in which the scheduler tries the workers, over a whole run. */
module Rotation {
  import opened Wrappers
  import opened Graph
  import opened Fifo
  import opened Calls
  import opened Pool

  /** Ids of the tasks accepted, in order. */
  ghost function Taken(tries: seq<Try>): seq<nat> {
    if tries == [] then []
    else Taken(tries[..|tries| - 1]) + (if tries[|tries| - 1].accepted then [tries[|tries| - 1].id] else [])
  }

  /** Ids of the tasks accepted by worker w, in order. */
  ghost function TakenBy(tries: seq<Try>, w: nat): seq<nat> {
    if tries == [] then []
    else
      var last := tries[|tries| - 1];
      TakenBy(tries[..|tries| - 1], w) + (if last.accepted && last.worker == w then [last.id] else [])
  }

  lemma TakenNext(tries: seq<Try>, t: Try)
    ensures Taken(tries + [t]) == Taken(tries) + (if t.accepted then [t.id] else [])
    ensures forall w :: TakenBy(tries + [t], w)
                     == TakenBy(tries, w) + (if t.accepted && t.worker == w then [t.id] else [])
  {
    assert (tries + [t])[..|tries|] == tries;
  }

  /** The k-th send attempt of a run goes to worker k modulo their number. */
  ghost predicate InTurn(tries: seq<Try>, n: nat)
    requires n > 0
  {
    forall k :: 0 <= k < |tries| ==> tries[k].worker == k % n
  }

  /** An attempt fails only at a worker that has accepted at least `cap` tasks before. */
  ghost predicate RefusedFull(tries: seq<Try>, cap: nat) {
    forall k :: 0 <= k < |tries| && !tries[k].accepted ==> |TakenBy(tries[..k], tries[k].worker)| >= cap
  }

  /** A refused task is the next one tried. */
  ghost predicate Retried(tries: seq<Try>) {
    forall k, l :: 0 <= k < |tries| && l == k + 1 < |tries| && !tries[k].accepted ==> tries[l].id == tries[k].id
  }

  /** If the last attempt failed, its task is id. */
  ghost predicate Waits(tries: seq<Try>, id: Option<nat>) {
    tries != [] && !tries[|tries| - 1].accepted ==> id == Some(tries[|tries| - 1].id)
  }

  /** With no refused task waiting, any task may be tried next. */
  lemma NoneWaits(tries: seq<Try>, id: nat)
    requires Waits(tries, None)
    ensures Waits(tries, Some(id))
  {
  }

  /** The cursor stands at the worker whose turn it is. */
  ghost predicate CursorAt(next: nat, tries: seq<Try>, n: nat) {
    n > 0 && next <= n && next % n == |tries| % n
  }

  /** The cursor has gone round and stands where it was. */
  ghost predicate SameTurn(next: nat, next': nat, n: nat) {
    n > 0 && next' % n == next % n
  }

  /** The attempts so far and what was sent. */
  ghost predicate Turns<V, E>(tries: seq<Try>, cap: nat, sent: seq<seq<Task<V, E>>>) {
    && |sent| > 0 && InTurn(tries, |sent|) && RefusedFull(tries, cap) && Retried(tries)
    && forall w :: 0 <= w < |sent| ==> CallIds(sent[w]) == TakenBy(tries, w)
  }

  /** The attempts of a run, the tasks started and the calls of each worker: worker k % n is the
    * k-th to be tried, tasks start in the order in which they are accepted, and each worker
    * calls what it accepted, in that order. */
  ghost predicate Rotates<K, V, E>(g: Dag<K, V, E>, tries: seq<Try>, cap: nat, order: seq<nat>,
                                   calls: seq<seq<Task<V, E>>>)
  {
    Turns(tries, cap, calls) && TasksOf(g, order) == Taken(tries)
  }

  ghost predicate RoundRobin<K, V, E>(g: Dag<K, V, E>, cap: nat, order: seq<nat>, calls: seq<seq<Task<V, E>>>) {
    exists tries: seq<Try> :: Rotates(g, tries, cap, order, calls)
  }

  lemma IsRoundRobin<K, V, E>(g: Dag<K, V, E>, tries: seq<Try>, cap: nat, order: seq<nat>, calls: seq<seq<Task<V, E>>>)
    requires Rotates(g, tries, cap, order, calls)
    ensures RoundRobin(g, cap, order, calls)
  {
  }

  /** Counting one further wraps around after n. */
  lemma NextTurn(k: nat, n: nat)
    requires n > 0
    ensures (k + 1) % n == (k % n + 1) % n
    ensures if k % n + 1 < n then (k + 1) % n == k % n + 1 && (k + 1) / n == k / n
            else (k + 1) % n == 0 && (k + 1) / n == k / n + 1
  {
    var q, r := k / n, k % n;
    assert k == n * q + r;
    if r + 1 < n {
      Remainder(k + 1, n, q, r + 1);
      Remainder(r + 1, n, 0, r + 1);
    } else {
      Remainder(k + 1, n, q + 1, 0);
      Remainder(n, n, 1, 0);
    }
  }

  lemma FullRound(k: nat, n: nat)
    requires n > 0
    ensures (k + n) % n == k % n
  {
    assert k == n * (k / n) + k % n;
    Remainder(k + n, n, k / n + 1, k % n);
  }

  lemma Remainder(k: nat, n: nat, q: nat, r: nat)
    requires n > 0 && k == n * q + r && r < n
    ensures k % n == r && k / n == q
  {
    var q', r' := k / n, k % n;
    assert k == n * q' + r';
    if q < q' { Scaled(n, q + 1, q'); } else if q > q' { Scaled(n, q' + 1, q); }
  }

  lemma Scaled(n: nat, a: nat, b: nat)
    requires a <= b
    ensures n * a <= n * b
  {
    assert n * b == n * a + n * (b - a);
  }

  lemma NoTurns<K, V, E>(g: Dag<K, V, E>, cap: nat, sent: seq<seq<Task<V, E>>>)
    requires |sent| > 0 && forall w :: 0 <= w < |sent| ==> sent[w] == []
    ensures Rotates(g, [], cap, [], sent)
  {
  }

  lemma TryExtends(tries: seq<Try>, n: nat, cap: nat, t: Try)
    requires n > 0 && InTurn(tries, n) && RefusedFull(tries, cap) && Retried(tries)
    requires t.worker == |tries| % n && Waits(tries, Some(t.id))
    requires !t.accepted ==> |TakenBy(tries, t.worker)| >= cap
    ensures InTurn(tries + [t], n) && RefusedFull(tries + [t], cap) && Retried(tries + [t])
  {
    var after := tries + [t];
    forall k | 0 <= k < |after| && !after[k].accepted
      ensures |TakenBy(after[..k], after[k].worker)| >= cap
    {
      assert after[..k] == tries[..k];
    }
    assert tries[..|tries|] == tries;
  }

  lemma LastTry(tries: seq<Try>, t: Try)
    ensures Waits(tries + [t], if t.accepted then None else Some(t.id))
    ensures !t.accepted ==> Taken(tries + [t]) == Taken(tries)
  {
    TakenNext(tries, t);
  }

  /** A worker whose turn it is refuses the task. */
  lemma RefusedTurn<V, E>(tries: seq<Try>, cap: nat, sent: seq<seq<Task<V, E>>>, id: nat, w: nat)
    requires Turns(tries, cap, sent) && w == |tries| % |sent| && Waits(tries, Some(id)) && |sent[w]| >= cap
    ensures Turns(tries + [Try(id, w, false)], cap, sent)
  {
    TryExtends(tries, |sent|, cap, Try(id, w, false));
    TakenNext(tries, Try(id, w, false));
  }

  /** A worker whose turn it is accepts the task. */
  lemma AcceptedTurn<V, E>(tries: seq<Try>, cap: nat, sent: seq<seq<Task<V, E>>>, t: Task<V, E>, w: nat)
    requires Turns(tries, cap, sent) && w == |tries| % |sent| && Waits(tries, Some(t.id))
    ensures Turns(tries + [Try(t.id, w, true)], cap, sent[w := sent[w] + [t]])
    ensures Taken(tries + [Try(t.id, w, true)]) == Taken(tries) + [t.id]
  {
    TryExtends(tries, |sent|, cap, Try(t.id, w, true));
    TakenNext(tries, Try(t.id, w, true));
    IdsAppend(sent[w], t);
  }

  /** Starting a source on the scheduler thread takes no turn. */
  lemma SourceStarted<K, V, E>(g: Dag<K, V, E>, tries: seq<Try>, cap: nat, order: seq<nat>, sent: seq<seq<Task<V, E>>>,
                               id: nat)
    requires Rotates(g, tries, cap, order, sent) && !g.HasTask(id)
    ensures Rotates(g, tries, cap, order + [id], sent)
  {
    TasksOfNext(g, order, id);
  }

  /** Starting the task that was accepted. */
  lemma TaskStarted<K, V, E>(g: Dag<K, V, E>, tries: seq<Try>, tries': seq<Try>, cap: nat, order: seq<nat>,
                             sent: seq<seq<Task<V, E>>>, sent': seq<seq<Task<V, E>>>, id: nat)
    requires Rotates(g, tries, cap, order, sent) && g.HasTask(id)
    requires Turns(tries', cap, sent') && Taken(tries') == Taken(tries) + [id]
    ensures Rotates(g, tries', cap, order + [id], sent')
  {
    hide Turns;
    TasksOfNext(g, order, id);
  }

  /** A full round of refusals starts nothing. */
  lemma NothingStarted<K, V, E>(g: Dag<K, V, E>, tries: seq<Try>, tries': seq<Try>, cap: nat, order: seq<nat>,
                                sent: seq<seq<Task<V, E>>>)
    requires Rotates(g, tries, cap, order, sent)
    requires Turns(tries', cap, sent) && Taken(tries') == Taken(tries)
    ensures Rotates(g, tries', cap, order, sent)
  {
    hide Turns;
  }

  lemma HasTurns<K, V, E>(g: Dag<K, V, E>, tries: seq<Try>, cap: nat, order: seq<nat>, sent: seq<seq<Task<V, E>>>)
    requires Rotates(g, tries, cap, order, sent)
    ensures Turns(tries, cap, sent)
  {
  }

  // ---------------------------------------------------------------------------------------
  // Which worker gets which task
  // ---------------------------------------------------------------------------------------

  /** After k attempts in turn worker w has accepted at most one task per round. */
  lemma {:induction false} OnePerRound(tries: seq<Try>, n: nat, k: nat, w: nat)
    requires n > 0 && InTurn(tries, n) && k <= |tries| && w < n
    ensures |TakenBy(tries[..k], w)| <= k / n + (if w < k % n then 1 else 0)
  {
    if k == 0 {
      assert tries[..0] == [];
    } else {
      OnePerRound(tries, n, k - 1, w);
      assert tries[..k] == tries[..k - 1] + [tries[k - 1]];
      TakenNext(tries[..k - 1], tries[k - 1]);
      assert tries[k - 1].worker == (k - 1) % n;
      NextTurn(k - 1, n);
    }
  }

  /** The first n * cap attempts cannot fail. */
  lemma EarlyAccepted(tries: seq<Try>, n: nat, cap: nat, k: nat)
    requires n > 0 && InTurn(tries, n) && RefusedFull(tries, cap) && k < |tries| && k < n * cap
    ensures tries[k].accepted
  {
    OnePerRound(tries, n, k, k % n);
    BelowRounds(k, n, cap);
  }

  lemma BelowRounds(k: nat, n: nat, cap: nat)
    requires n > 0 && k < n * cap
    ensures k / n < cap
  {
    var q := k / n;
    assert k == n * q + k % n;
    if q >= cap { Scaled(n, cap, q); }
  }

  lemma {:induction false} TakenSoFar(tries: seq<Try>, k: nat)
    requires k <= |tries| && forall a :: 0 <= a < k ==> tries[a].accepted
    ensures |Taken(tries[..k])| == k && forall a :: 0 <= a < k ==> Taken(tries[..k])[a] == tries[a].id
  {
    if k > 0 {
      TakenSoFar(tries, k - 1);
      assert tries[..k] == tries[..k - 1] + [tries[k - 1]];
      TakenNext(tries[..k - 1], tries[k - 1]);
    }
  }

  lemma {:induction false} TakenPrefix(tries: seq<Try>, k: nat)
    requires k <= |tries|
    ensures Taken(tries[..k]) <= Taken(tries) && |Taken(tries)| <= |Taken(tries[..k])| + |tries| - k
    decreases |tries| - k
  {
    if k < |tries| {
      assert tries[..k + 1] == tries[..k] + [tries[k]];
      TakenNext(tries[..k], tries[k]);
      TakenPrefix(tries, k + 1);
    } else {
      assert tries[..k] == tries;
    }
  }

  lemma {:induction false} TakenWhere(tries: seq<Try>, k: nat)
    requires k < |tries| && tries[k].accepted
    ensures tries[k].id in TakenBy(tries, tries[k].worker)
  {
    var n := |tries| - 1;
    if k < n {
      assert tries[..n][k] == tries[k];
      TakenWhere(tries[..n], k);
    }
  }

  /** As long as no attempt has failed, the j-th task started is called by worker j modulo n. */
  lemma TaskOfTurn<K, V, E>(g: Dag<K, V, E>, tries: seq<Try>, cap: nat, order: seq<nat>, calls: seq<seq<Task<V, E>>>,
                            j: nat)
    requires Rotates(g, tries, cap, order, calls) && j < |TasksOf(g, order)|
    requires forall a :: 0 <= a <= j && a < |tries| ==> tries[a].accepted
    ensures CalledBy(calls, j % |calls|, TasksOf(g, order)[j])
  {
    hide TasksOf, RefusedFull, Retried;
    TakenPrefix(tries, 0);
    assert tries[..0] == [];
    TakenSoFar(tries, j + 1);
    TakenPrefix(tries, j + 1);
    TakenWhere(tries, j);
    var w := j % |calls|;
    assert tries[j].id == TasksOf(g, order)[j] && tries[j].worker == w;
    var p :| 0 <= p < |CallIds(calls[w])| && CallIds(calls[w])[p] == tries[j].id;
    assert calls[w][p].id == tries[j].id;
  }

  /** The first n * cap tasks started go to the workers in turn: the j-th to worker j modulo n,
    * whatever the workers do. */
  lemma FirstTasksInTurn<K, V, E>(g: Dag<K, V, E>, cap: nat, order: seq<nat>, calls: seq<seq<Task<V, E>>>, j: nat)
    requires RoundRobin(g, cap, order, calls) && j < |TasksOf(g, order)| && j < |calls| * cap
    ensures CalledBy(calls, j % |calls|, TasksOf(g, order)[j])
  {
    hide TasksOf, Taken, CalledBy;
    var tries: seq<Try> :| Rotates(g, tries, cap, order, calls);
    forall a | 0 <= a <= j && a < |tries|
      ensures tries[a].accepted
    {
      EarlyAccepted(tries, |calls|, cap, a);
    }
    TaskOfTurn(g, tries, cap, order, calls, j);
  }
}
