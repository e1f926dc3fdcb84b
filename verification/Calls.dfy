/** Task calls: what is sent to a worker, what counts as a call with the right arguments, and
  * what a whole run may and must call. */
module Calls {
  import opened Wrappers
  import opened Graph

  /** One call of a task function: the node, its function and the argument vector. */
  datatype Task<!V, E> = Task(id: nat, func: seq<V> -> Result<V, E>, args: seq<V>) {
    function Run(): Result<V, E> {
      func(args)
    }
  }

  /** The call is for a task node and passes the meanings of its dependencies in order. */
  ghost predicate GoodTask<K, V, E>(g: Dag<K, V, E>, t: Task<V, E>) {
    && t.id < |g.nodes|
    && g.nodes[t.id].kind == NodeKind.Task(t.func)
    && AllDefined(Meanings(g), g.nodes[t.id].deps)
    && t.args == Gather(Meanings(g), g.nodes[t.id].deps)
  }

  lemma GoodTaskMeaning<K, V, E>(g: Dag<K, V, E>, t: Task<V, E>)
    requires GoodTask(g, t)
    ensures Meaning(g, t.id) == FromResult(t.Run())
  {
    MeaningFixedPoint(g, t.id);
  }

  ghost function CallIds<V, E>(calls: seq<Task<V, E>>): (ids: seq<nat>)
    ensures |ids| == |calls| && forall j :: 0 <= j < |calls| ==> ids[j] == calls[j].id
  {
    seq(|calls|, j requires 0 <= j < |calls| => calls[j].id)
  }

  lemma IdsAppend<V, E>(calls: seq<Task<V, E>>, call: Task<V, E>)
    ensures CallIds(calls + [call]) == CallIds(calls) + [call.id]
  {
  }

  ghost function TaskIds<V, E>(ts: seq<Task<V, E>>): multiset<nat> {
    if ts == [] then multiset{} else TaskIds(ts[..|ts| - 1]) + multiset{ts[|ts| - 1].id}
  }

  /** Ids over several logs or queues, one per thread. */
  ghost function AllIds<V, E>(lists: seq<seq<Task<V, E>>>): multiset<nat> {
    if lists == [] then multiset{} else AllIds(lists[..|lists| - 1]) + TaskIds(lists[|lists| - 1])
  }

  lemma TaskIdsAppend<V, E>(ts: seq<Task<V, E>>, t: Task<V, E>)
    ensures TaskIds(ts + [t]) == TaskIds(ts) + multiset{t.id}
  {
    assert (ts + [t])[..|ts|] == ts;
  }

  lemma {:induction false} TaskIdsConcat<V, E>(a: seq<Task<V, E>>, b: seq<Task<V, E>>)
    ensures TaskIds(a + b) == TaskIds(a) + TaskIds(b)
  {
    if b == [] {
      assert a + b == a;
    } else {
      hide TaskIds;
      var front, last := b[..|b| - 1], b[|b| - 1];
      assert b == front + [last];
      assert a + b == (a + front) + [last];
      TaskIdsConcat(a, front);
      TaskIdsAppend(a + front, last);
      TaskIdsAppend(front, last);
    }
  }

  lemma {:induction false} TaskIdsMember<V, E>(ts: seq<Task<V, E>>, j: nat)
    requires j < |ts|
    ensures TaskIds(ts)[ts[j].id] > 0
  {
    if j < |ts| - 1 { TaskIdsMember(ts[..|ts| - 1], j); }
  }

  lemma {:induction false} TaskIdsSize<V, E>(ts: seq<Task<V, E>>)
    ensures |TaskIds(ts)| == |ts|
  {
    if ts != [] { TaskIdsSize(ts[..|ts| - 1]); }
  }

  /** Replacing one thread's list changes the total by that list only. */
  lemma {:induction false} AllIdsUpdate<V, E>(lists: seq<seq<Task<V, E>>>, w: nat, ts: seq<Task<V, E>>, i: nat)
    requires w < |lists|
    ensures AllIds(lists[w := ts])[i] + TaskIds(lists[w])[i] == AllIds(lists)[i] + TaskIds(ts)[i]
  {
    var n, after := |lists| - 1, lists[w := ts];
    if w == n {
      assert after[..n] == lists[..n];
    } else {
      AllIdsUpdate(lists[..n], w, ts, i);
      assert after[..n] == lists[..n][w := ts];
    }
  }

  /** Adding a task to one thread's list. */
  lemma AllIdsAppend<V, E>(lists: seq<seq<Task<V, E>>>, w: nat, t: Task<V, E>)
    requires w < |lists|
    ensures AllIds(lists[w := lists[w] + [t]]) == AllIds(lists) + multiset{t.id}
  {
    TaskIdsAppend(lists[w], t);
    forall i: nat
      ensures AllIds(lists[w := lists[w] + [t]])[i] == (AllIds(lists) + multiset{t.id})[i]
    {
      AllIdsUpdate(lists, w, lists[w] + [t], i);
    }
  }

  /** Removing the oldest task of one thread's list. */
  lemma AllIdsDropFirst<V, E>(lists: seq<seq<Task<V, E>>>, w: nat)
    requires w < |lists| && lists[w] != []
    ensures AllIds(lists[w := lists[w][1..]]) == AllIds(lists) - multiset{lists[w][0].id}
    ensures AllIds(lists)[lists[w][0].id] > 0
  {
    var t, rest := lists[w][0], lists[w][1..];
    assert lists[w] == [t] + rest;
    assert [t][..0] == [];
    assert TaskIds([t]) == multiset{t.id};
    AllIdsMember(lists, w, 0);
    forall i: nat
      ensures AllIds(lists[w := rest])[i] == (AllIds(lists) - multiset{t.id})[i]
    {
      TaskIdsConcat([t], rest);
      AllIdsUpdate(lists, w, rest, i);
    }
  }

  lemma {:induction false} AllIdsMember<V, E>(lists: seq<seq<Task<V, E>>>, w: nat, j: nat)
    requires w < |lists| && j < |lists[w]|
    ensures AllIds(lists)[lists[w][j].id] > 0
  {
    var n := |lists| - 1;
    if w == n { TaskIdsMember(lists[n], j); } else { AllIdsMember(lists[..n], w, j); }
  }

  lemma {:induction false} CalledTaskIsLogged<V, E>(log: seq<seq<Task<V, E>>>, i: nat)
    requires AllIds(log)[i] > 0
    ensures exists w, j :: 0 <= w < |log| && 0 <= j < |log[w]| && log[w][j].id == i
  {
    var n := |log| - 1;
    if TaskIds(log[n])[i] > 0 {
      var j := LoggedAt(log[n], i);
      assert log[n][j].id == i;
    } else {
      CalledTaskIsLogged(log[..n], i);
      var w, j :| 0 <= w < n && 0 <= j < |log[..n][w]| && log[..n][w][j].id == i;
      assert log[w][j].id == i;
    }
  }

  lemma {:induction false} LoggedAt<V, E>(ts: seq<Task<V, E>>, i: nat) returns (j: nat)
    requires TaskIds(ts)[i] > 0
    ensures j < |ts| && ts[j].id == i
  {
    var n := |ts| - 1;
    if ts[n].id == i { j := n; } else { j := LoggedAt(ts[..n], i); }
  }

  /** At least `floor` in every list makes at least |lists| * floor in all. */
  lemma {:induction false} AllIdsAtLeast<V, E>(lists: seq<seq<Task<V, E>>>, floor: nat)
    requires forall w :: 0 <= w < |lists| ==> |lists[w]| >= floor
    ensures |AllIds(lists)| >= |lists| * floor
  {
    if lists != [] {
      var n := |lists| - 1;
      var rest, last := AllIds(lists[..n]), TaskIds(lists[n]);
      AllIdsAtLeast(lists[..n], floor);
      TaskIdsSize(lists[n]);
      assert |rest + last| == |rest| + |last|;
      Distribute(n, floor);
    }
  }

  lemma Distribute(n: nat, floor: nat)
    ensures (n + 1) * floor == n * floor + floor
  {
  }

  /** Nothing in any list means every list is empty. */
  lemma {:induction false} AllIdsEmpty<V, E>(lists: seq<seq<Task<V, E>>>)
    ensures AllIds(lists) == multiset{} <==> forall w :: 0 <= w < |lists| ==> lists[w] == []
  {
    if lists != [] {
      var n := |lists| - 1;
      var rest, last := AllIds(lists[..n]), TaskIds(lists[n]);
      AllIdsEmpty(lists[..n]);
      TaskIdsSize(lists[n]);
      assert |rest + last| == |rest| + |last|;
      assert forall w :: 0 <= w < n ==> lists[..n][w] == lists[w];
    }
  }

  /** What a run over the needed set nd may call: needed tasks only, each at most once, each
    * with the meanings of its dependencies. A run that is not cut short by a failure calls
    * every needed task whose dependencies all have values. */
  ghost predicate CallsSpec<K, V, E>(g: Dag<K, V, E>, nd: set<nat>, log: seq<seq<Task<V, E>>>, complete: bool) {
    && (forall w, j :: 0 <= w < |log| && 0 <= j < |log[w]| ==> GoodTask(g, log[w][j]) && log[w][j].id in nd)
    && (forall i: nat :: AllIds(log)[i] <= 1)
    && (complete ==> forall i :: i in nd && g.HasTask(i) && Meaning(g, i) != Undefined ==> AllIds(log)[i] == 1)
  }

  lemma {:induction false} TwiceInLog<V, E>(ts: seq<Task<V, E>>, a: nat, b: nat)
    requires a < b < |ts| && ts[a].id == ts[b].id
    ensures TaskIds(ts)[ts[a].id] >= 2
  {
    var n := |ts| - 1;
    if b < n { TwiceInLog(ts[..n], a, b); } else { TaskIdsMember(ts[..n], a); }
  }

  lemma {:induction false} AllIdsCover<V, E>(log: seq<seq<Task<V, E>>>, w: nat, i: nat)
    requires w < |log|
    ensures AllIds(log)[i] >= TaskIds(log[w])[i]
  {
    var n := |log| - 1;
    if w < n { AllIdsCover(log[..n], w, i); }
  }

  lemma {:induction false} AllIdsCoverTwo<V, E>(log: seq<seq<Task<V, E>>>, w: nat, v: nat, i: nat)
    requires w < v < |log|
    ensures AllIds(log)[i] >= TaskIds(log[w])[i] + TaskIds(log[v])[i]
  {
    hide TaskIds;
    var rest, last := log[..|log| - 1], log[|log| - 1];
    assert AllIds(log)[i] == AllIds(rest)[i] + TaskIds(last)[i];
    assert rest[w] == log[w];
    hide AllIds;
    if v < |rest| { AllIdsCoverTwo(rest, w, v, i); } else { AllIdsCover(rest, w, i); }
  }

  /** No two entries of the logs are calls of the same node. */
  lemma CallsDiffer<K, V, E>(g: Dag<K, V, E>, nd: set<nat>, log: seq<seq<Task<V, E>>>, complete: bool, w: nat, a: nat,
                             v: nat, b: nat)
    requires CallsSpec(g, nd, log, complete) && w < |log| && a < |log[w]| && v < |log| && b < |log[v]|
    requires w != v || a != b
    ensures log[w][a].id != log[v][b].id
  {
    var i := log[w][a].id;
    if log[v][b].id == i {
      TaskIdsMember(log[w], a);
      TaskIdsMember(log[v], b);
      AllIdsCover(log, w, i);
      if w == v {
        if a < b { TwiceInLog(log[w], a, b); } else { TwiceInLog(log[w], b, a); }
      } else {
        AllIdsCoverTwo(log, if w < v then w else v, if w < v then v else w, i);
      }
      assert false;
    }
  }

  /** Worker w called node i. */
  ghost predicate CalledBy<V, E>(calls: seq<seq<Task<V, E>>>, w: nat, i: nat) {
    w < |calls| && exists j :: 0 <= j < |calls[w]| && calls[w][j].id == i
  }

  predicate IsTaskFailure<T, K, E>(r: Result<T, ExecError<K, E>>) {
    r.Failure? && r.error.TaskFailed?
  }
}
