/** What a run of an executor may return, stated on the graph alone. */
module Outcomes {
  import opened Wrappers
  import opened Graph
  import opened Kahn

  /** Value table and needed mask, as the executors hand them on. */
  type Artifacts<V> = (seq<Option<V>>, seq<bool>)

  ghost predicate SomeTaskFails<K, V, E>(g: Dag<K, V, E>, nd: set<nat>) {
    exists i :: i in nd && i < |g.nodes| && Meaning(g, i).Fails?
  }

  /** The error names a needed task all of whose dependencies have values and whose function
    * errs on them, and carries that function's error. */
  ghost predicate GenuineFailure<K, V, E>(g: Dag<K, V, E>, nd: set<nat>, e: ExecError<K, E>) {
    exists i :: i in nd && i < |g.nodes| && Meaning(g, i).Fails? && e == TaskFailed(g.nodes[i].key, Meaning(g, i).error)
  }

  ghost function CyclicNodes<K, V, E>(g: Dag<K, V, E>, nd: set<nat>): set<nat> {
    set i | i in nd && ReachesCycle(g, i)
  }

  ghost predicate SomeCycle<K, V, E>(g: Dag<K, V, E>, nd: set<nat>) {
    exists i :: i in nd && ReachesCycle(g, i)
  }

  /** Keys of the members of s among the first n nodes, in id order. */
  ghost function KeysOf<K, V, E>(g: Dag<K, V, E>, s: set<nat>, n: nat): seq<K>
    requires n <= |g.nodes|
  {
    if n == 0 then []
    else KeysOf(g, s, n - 1) + (if n - 1 in s then [g.nodes[n - 1].key] else [])
  }

  /** `keys` are the keys of exactly the members of s among the first n nodes, in id order and
    * without repeats: those of the strictly ascending ids. */
  ghost predicate ListsInOrder<K, V, E>(g: Dag<K, V, E>, s: set<nat>, n: nat, ids: seq<nat>, keys: seq<K>) {
    && |keys| == |ids|
    && (forall a, b :: 0 <= a < b < |ids| ==> ids[a] < ids[b])
    && (forall a :: 0 <= a < |ids| ==> ids[a] < |g.nodes| && keys[a] == g.nodes[ids[a]].key)
    && (forall i: nat :: i in ids <==> i in s && i < n)
  }

  lemma {:induction false} KeysInOrder<K, V, E>(g: Dag<K, V, E>, s: set<nat>, n: nat) returns (ids: seq<nat>)
    requires n <= |g.nodes|
    ensures ListsInOrder(g, s, n, ids, KeysOf(g, s, n))
  {
    ids := [];
    if n > 0 {
      var before := KeysInOrder(g, s, n - 1);
      assert forall a :: 0 <= a < |before| ==> before[a] in before;
      ids := before + (if n - 1 in s then [n - 1] else []);
    }
  }

  /** The report names exactly the nodes of nd that reach a cycle, in id order. */
  ghost predicate ReportsCycles<K, V, E>(g: Dag<K, V, E>, nd: set<nat>, keys: seq<K>) {
    exists ids: seq<nat> :: ListsInOrder(g, CyclicNodes(g, nd), |g.nodes|, ids, keys)
  }

  /** The needed nodes that reach a cycle, as the cycle report must list them. */
  ghost function CycleReport<K, V, E>(g: Dag<K, V, E>, nd: set<nat>): seq<K> {
    KeysOf(g, CyclicNodes(g, nd), |g.nodes|)
  }

  /** Value table of a completed run: the meaning of every needed node and nothing else. */
  ghost function ValueTable<K, V, E>(g: Dag<K, V, E>, nd: set<nat>): (vals: seq<Option<V>>)
    ensures |vals| == |g.nodes|
  {
    seq(|g.nodes|, i requires 0 <= i < |g.nodes| =>
      if i in nd && Meaning(g, i).Defined? then Some(Meaning(g, i).value) else None)
  }

  /** The four ways a scheduler run over the needed set nd can end. Which of them applies is
    * decided by the graph, the needed set and `early`, never by the schedule; only the choice
    * among several failing tasks is left open. */
  ghost predicate KahnOutcome<K, V, E>(g: Dag<K, V, E>, nd: set<nat>, early: bool,
                                       r: Result<Artifacts<V>, ExecError<K, E>>)
  {
    if SomeTaskFails(g, nd) then
      r.Failure? && GenuineFailure(g, nd, r.error)
    else if SomeCycle(g, nd) then
      r == Failure(Cycle(CycleReport(g, nd)))
    else if early then
      r == Failure(Cycle([]))
    else
      r.Success? && r.value.0 == ValueTable(g, nd) && |r.value.1| == |g.nodes| && MaskSet(r.value.1) == nd
  }

  ghost function Roots<K, V, E>(g: Dag<K, V, E>, keys: seq<K>): set<nat> {
    set j | 0 <= j < |keys| && keys[j] in g.index :: g.index[keys[j]]
  }

  /** The first requested key the graph does not know, if any. */
  ghost function FirstUnknown<K, V, E>(g: Dag<K, V, E>, keys: seq<K>): (k: Option<K>)
    ensures k.None? <==> forall j :: 0 <= j < |keys| ==> keys[j] in g.index
  {
    if keys == [] then None
    else if keys[0] !in g.index then Some(keys[0])
    else FirstUnknown(g, keys[1..])
  }

  /** It is a requested key that the graph does not know, and all keys before it are known. */
  lemma {:induction false} FirstUnknownNamed<K, V, E>(g: Dag<K, V, E>, keys: seq<K>) returns (j: nat)
    requires FirstUnknown(g, keys).Some?
    ensures j < |keys| && FirstUnknown(g, keys) == Some(keys[j]) && keys[j] !in g.index
    ensures forall a :: 0 <= a < j ==> keys[a] in g.index
  {
    if keys[0] !in g.index {
      j := 0;
    } else {
      j := FirstUnknownNamed(g, keys[1..]);
      j := j + 1;
      assert forall a :: 1 <= a < j ==> keys[a] == keys[1..][a - 1];
    }
  }

  ghost function Requested<K, V, E>(g: Dag<K, V, E>, keys: seq<K>): set<nat> {
    NeededFrom(g, Roots(g, keys))
  }

  // ---------------------------------------------------------------------------------------
  // From the invariant at an exit to the outcome
  // ---------------------------------------------------------------------------------------

  lemma {:induction false} KeysOfAgree<K, V, E>(g: Dag<K, V, E>, s: set<nat>, t: set<nat>, n: nat)
    requires n <= |g.nodes| && forall i :: 0 <= i < n ==> (i in s <==> i in t)
    ensures KeysOf(g, s, n) == KeysOf(g, t, n)
  {
    if n > 0 { KeysOfAgree(g, s, t, n - 1); }
  }

  /** A genuine failure is a possible outcome, whatever else the graph contains. */
  lemma FailureExit<K, V, E>(g: Dag<K, V, E>, nd: set<nat>, early: bool, e: ExecError<K, E>)
    requires GenuineFailure(g, nd, e)
    ensures KahnOutcome(g, nd, early, Failure(e)) && e.TaskFailed?
  {
  }

  lemma StuckCycles<K, V, E>(g: Dag<K, V, E>, needed: seq<bool>, vals: seq<Option<V>>, indeg: seq<nat>)
    requires KahnInv(g, needed, vals, indeg, multiset{}, multiset{})
    ensures !SomeTaskFails(g, MaskSet(needed))
    ensures forall i :: 0 <= i < |g.nodes| && needed[i] ==>
              && (indeg[i] > 0 <==> ReachesCycle(g, i))
              && (vals[i].Some? <==> !ReachesCycle(g, i))
              && (vals[i].Some? <==> Meaning(g, i).Defined?)
  {
    StuckTable(g, needed, vals, indeg);
    var s := MaskSet(needed);
    forall i | i in s && i < |g.nodes|
      ensures Meaning(g, i).Undefined? <==> ReachesCycle(g, i)
    {
      UndefinedIffReachesCycle(g, s, i);
    }
  }

  /** Out of work with needed nodes left over: the graph has a cycle, and the nodes with a
    * positive in-degree are exactly those that reach one. */
  lemma StuckExit<K, V, E>(g: Dag<K, V, E>, needed: seq<bool>, vals: seq<Option<V>>, indeg: seq<nat>,
                           early: bool, remaining: seq<K>, r: Result<Artifacts<V>, ExecError<K, E>>)
    requires KahnInv(g, needed, vals, indeg, multiset{}, multiset{})
    requires |DoneSet(vals)| < |MaskSet(needed)|
    requires remaining == KeysOf(g, set i | i in MaskSet(needed) && i < |indeg| && indeg[i] > 0, |g.nodes|)
    requires r == Failure(Cycle(remaining))
    ensures SomeCycle(g, MaskSet(needed)) && remaining != []
    ensures KahnOutcome(g, MaskSet(needed), early, r) && ReportsCycles(g, MaskSet(needed), remaining)
  {
    StuckCycles(g, needed, vals, indeg);
    var s := MaskSet(needed);
    var ids := KeysInOrder(g, CyclicNodes(g, s), |g.nodes|);
    KeysOfAgree(g, set i | i in s && i < |indeg| && indeg[i] > 0, set i | i in s && ReachesCycle(g, i), |g.nodes|);
    if forall i :: i in s ==> i in DoneSet(vals) {
      SubsetSize(s, DoneSet(vals));
      assert false;
    }
    var i :| i in s && i !in DoneSet(vals);
    assert ReachesCycle(g, i);
    KeysOfMember(g, set i | i in s && i < |indeg| && indeg[i] > 0, |g.nodes|, i);
  }

  lemma {:induction false} KeysOfMember<K, V, E>(g: Dag<K, V, E>, s: set<nat>, n: nat, i: nat)
    requires i < n <= |g.nodes| && i in s
    ensures g.nodes[i].key in KeysOf(g, s, n)
  {
    if i < n - 1 { KeysOfMember(g, s, n - 1, i); }
  }

  /** Every needed node has its value: no failure, no cycle, and the table is the meaning. */
  lemma CompleteExit<K, V, E>(g: Dag<K, V, E>, needed: seq<bool>, vals: seq<Option<V>>, indeg: seq<nat>,
                              frontier: multiset<nat>)
    requires KahnInv(g, needed, vals, indeg, frontier, multiset{})
    requires |DoneSet(vals)| == |MaskSet(needed)|
    ensures !SomeTaskFails(g, MaskSet(needed)) && !SomeCycle(g, MaskSet(needed))
    ensures vals == ValueTable(g, MaskSet(needed)) && frontier == multiset{}
    ensures forall i :: 0 <= i < |g.nodes| && needed[i] ==> indeg[i] == 0
  {
    FrontierFits(g, needed, vals, indeg, frontier, multiset{});
    StuckCycles(g, needed, vals, indeg);
    var s := MaskSet(needed);
    assert forall i :: i in s ==> i < |g.nodes| && i in DoneSet(vals);
  }
}
