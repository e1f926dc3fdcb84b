/** The order in which the sequential executor takes nodes. It depends on the graph and the
  * needed set alone: the queue and the in-degrees evolve by the same steps whatever the task
  * functions return. */
module Fifo {
  import opened Graph
  import opened Kahn

  datatype Queue = Queue(indeg: seq<nat>, ready: seq<nat>)

  /** The queue after seeding from the first i nodes. */
  ghost predicate SeededTo(needed: seq<bool>, indeg: seq<nat>, i: nat, ready: seq<nat>)
    requires |needed| == |indeg|
  {
    && (forall x: nat :: multiset(ready)[x] == if x < i && x < |needed| && needed[x] && indeg[x] == 0 then 1 else 0)
    && (forall a :: 0 <= a < |ready| ==> ready[a] < i)
    && (forall a, b :: 0 <= a < b < |ready| ==> ready[a] < ready[b])
  }

  /** One decrement; a node whose last position is released goes to the end of the queue. */
  ghost function ReleaseTo(q: Queue, dst: nat): Queue {
    if dst < |q.indeg| && q.indeg[dst] > 0 then
      Queue(q.indeg[dst := q.indeg[dst] - 1], if q.indeg[dst] == 1 then q.ready + [dst] else q.ready)
    else q
  }

  ghost function Release(q: Queue, list: seq<nat>): Queue {
    if list == [] then q else ReleaseTo(Release(q, list[..|list| - 1]), list[|list| - 1])
  }

  /** Take the oldest ready node and release its dependents. */
  ghost function Advance(q: Queue, dependents: seq<seq<nat>>): Queue {
    if q.ready == [] || q.ready[0] >= |dependents| then q
    else Release(q.(ready := q.ready[1..]), dependents[q.ready[0]])
  }

  /** The state of a run before its first node, and after k of them. */
  datatype Opening = Opening(needed: seq<bool>, dependents: seq<seq<nat>>, queue: Queue) {
    ghost predicate For<K, V, E>(g: Dag<K, V, E>) {
      && IsMetadata(g, needed, dependents, queue.indeg)
      && SeededTo(needed, queue.indeg, |needed|, queue.ready)
    }

    ghost function After(k: nat): Queue {
      if k == 0 then queue else Advance(After(k - 1), dependents)
    }

    /** The first k nodes taken: the heads of the queues so far. */
    ghost function Heads(k: nat): seq<nat> {
      if k == 0 then []
      else Heads(k - 1) + (if After(k - 1).ready == [] then [] else [After(k - 1).ready[0]])
    }
  }

  ghost predicate TakesValue<K, V, E>(g: Dag<K, V, E>, q: Queue) {
    q.ready != [] && q.ready[0] < |g.nodes| && Meaning(g, q.ready[0]).Defined?
  }

  ghost predicate Errs<K, V, E>(g: Dag<K, V, E>, q: Queue) {
    q.ready != [] && q.ready[0] < |g.nodes| && Meaning(g, q.ready[0]).Fails?
  }

  /** The first k nodes in start order have values, the next one fails with e. */
  ghost predicate FailsAt<K, V, E>(g: Dag<K, V, E>, o: Opening, k: nat, e: ExecError<K, E>) {
    && (forall a: nat :: a < k ==> TakesValue(g, o.After(a)))
    && FailsNext(g, o.After(k), e)
  }

  ghost predicate FailsNext<K, V, E>(g: Dag<K, V, E>, q: Queue, e: ExecError<K, E>) {
    && Errs(g, q)
    && e == TaskFailed(g.nodes[q.ready[0]].key, Meaning(g, q.ready[0]).error)
  }

  /** e reports the first failing needed task in start order. */
  ghost predicate FirstFailure<K, V, E>(g: Dag<K, V, E>, nd: set<nat>, e: ExecError<K, E>) {
    exists o: Opening, k: nat :: o.For(g) && MaskSet(o.needed) == nd && FailsAt(g, o, k, e)
  }

  /** The run takes n nodes: all have values and none is ready then, or the last one fails. */
  ghost predicate Halts<K, V, E>(g: Dag<K, V, E>, o: Opening, n: nat) {
    || ((forall a: nat :: a < n ==> TakesValue(g, o.After(a))) && o.After(n).ready == [])
    || (n > 0 && (forall a: nat :: a < n - 1 ==> TakesValue(g, o.After(a))) && Errs(g, o.After(n - 1)))
  }

  /** The nodes a sequential run over nd starts, in order. */
  ghost predicate StartOrder<K, V, E>(g: Dag<K, V, E>, nd: set<nat>, order: seq<nat>) {
    exists o: Opening, n: nat :: o.For(g) && MaskSet(o.needed) == nd && Halts(g, o, n) && order == o.Heads(n)
  }

  /** The first m nodes have values; after them none is ready, or the next one fails. */
  ghost predicate Ends<K, V, E>(g: Dag<K, V, E>, o: Opening, m: nat) {
    && (forall a: nat :: a < m ==> TakesValue(g, o.After(a)))
    && (o.After(m).ready == [] || Errs(g, o.After(m)))
  }

  /** The queue was at most `width` long up to the m-th node, and at some point exactly. */
  ghost predicate PeakAt(o: Opening, m: nat, width: nat) {
    && (forall a: nat :: a <= m ==> |o.After(a).ready| <= width)
    && (exists a: nat :: a <= m && |o.After(a).ready| == width)
  }

  /** The largest queue length in a sequential run over nd. */
  ghost predicate PeakWidth<K, V, E>(g: Dag<K, V, E>, nd: set<nat>, width: nat) {
    exists o: Opening, m: nat :: o.For(g) && MaskSet(o.needed) == nd && Ends(g, o, m) && PeakAt(o, m, width)
  }

  /** The tasks among the nodes of an order. */
  ghost function TasksOf<K, V, E>(g: Dag<K, V, E>, order: seq<nat>): seq<nat> {
    if order == [] then []
    else TasksOf(g, order[..|order| - 1]) + (if g.HasTask(order[|order| - 1]) then [order[|order| - 1]] else [])
  }

  lemma {:induction false} TasksOfConcat<K, V, E>(g: Dag<K, V, E>, a: seq<nat>, b: seq<nat>)
    ensures TasksOf(g, a + b) == TasksOf(g, a) + TasksOf(g, b)
  {
    if b == [] {
      assert a + b == a;
    } else {
      var n := |b| - 1;
      TasksOfConcat(g, a, b[..n]);
      assert a + b == (a + b[..n]) + [b[n]] && b == b[..n] + [b[n]];
      TasksOfNext(g, a + b[..n], b[n]);
    }
  }

  lemma TasksOfNext<K, V, E>(g: Dag<K, V, E>, order: seq<nat>, id: nat)
    ensures TasksOf(g, order + [id]) == TasksOf(g, order) + (if g.HasTask(id) then [id] else [])
  {
    assert (order + [id])[..|order|] == order;
  }

  // ---------------------------------------------------------------------------------------
  // Uniqueness
  // ---------------------------------------------------------------------------------------

  lemma LastIsLargest(a: seq<nat>, x: nat)
    requires Ascending(a) && x in multiset(a)
    ensures a != [] && x <= a[|a| - 1]
  {
  }

  lemma DropLast(a: seq<nat>)
    requires a != []
    ensures multiset(a[..|a| - 1]) == multiset(a) - multiset{a[|a| - 1]} && a[|a| - 1] in multiset(a)
    ensures Ascending(a) ==> Ascending(a[..|a| - 1])
  {
    assert a == a[..|a| - 1] + [a[|a| - 1]];
  }

  lemma EqualByLast(a: seq<nat>, b: seq<nat>)
    requires a != [] && b != [] && a[|a| - 1] == b[|b| - 1] && a[..|a| - 1] == b[..|b| - 1]
    ensures a == b
  {
    assert a == a[..|a| - 1] + [a[|a| - 1]];
  }

  lemma {:induction false} SortedUnique(a: seq<nat>, b: seq<nat>)
    requires Ascending(a) && Ascending(b) && multiset(a) == multiset(b)
    ensures a == b
  {
    hide Ascending;
    assert |multiset(a)| == |a| && |multiset(b)| == |b|;
    if a == [] {
      assert b == [];
    } else {
      DropLast(a);
      DropLast(b);
      LastIsLargest(a, b[|b| - 1]);
      LastIsLargest(b, a[|a| - 1]);
      SortedUnique(a[..|a| - 1], b[..|b| - 1]);
      EqualByLast(a, b);
    }
  }

  lemma SameMask(a: seq<bool>, b: seq<bool>)
    requires |a| == |b| && MaskSet(a) == MaskSet(b)
    ensures a == b
  {
    forall i | 0 <= i < |a|
      ensures a[i] == b[i]
    {
      assert i in MaskSet(a) <==> i in MaskSet(b);
    }
  }

  lemma SameDependents<K, V, E>(g: Dag<K, V, E>, needed: seq<bool>, a: seq<seq<nat>>, b: seq<seq<nat>>, indeg: seq<nat>,
                                indeg': seq<nat>)
    requires IsMetadata(g, needed, a, indeg) && IsMetadata(g, needed, b, indeg')
    ensures a == b && indeg == indeg'
  {
    forall d | 0 <= d < |g.nodes|
      ensures a[d] == b[d]
    {
      OwedAt(g, needed, a, d);
      OwedAt(g, needed, b, d);
      SortedUnique(a[d], b[d]);
    }
  }

  /** A graph and a needed set determine the start of a run. */
  lemma SameOpening<K, V, E>(g: Dag<K, V, E>, a: Opening, b: Opening)
    requires a.For(g) && b.For(g) && MaskSet(a.needed) == MaskSet(b.needed)
    ensures a == b
  {
    SameMask(a.needed, b.needed);
    SameDependents(g, a.needed, a.dependents, b.dependents, a.queue.indeg, b.queue.indeg);
    hide IsMetadata, MaskSet;
    SortedUnique(a.queue.ready, b.queue.ready);
  }

  lemma FailsOnce<K, V, E>(g: Dag<K, V, E>, o: Opening, k: nat, l: nat, e: ExecError<K, E>, e': ExecError<K, E>)
    requires FailsAt(g, o, k, e) && FailsAt(g, o, l, e') && k <= l
    ensures e == e'
  {
    hide Opening.After;
    assert k < l ==> TakesValue(g, o.After(k));
  }

  /** There is at most one first failure. */
  lemma FirstFailureUnique<K, V, E>(g: Dag<K, V, E>, nd: set<nat>, e: ExecError<K, E>, e': ExecError<K, E>)
    requires FirstFailure(g, nd, e) && FirstFailure(g, nd, e')
    ensures e == e'
  {
    hide Opening.For, FailsAt, MaskSet;
    var a: Opening, k: nat :| a.For(g) && MaskSet(a.needed) == nd && FailsAt(g, a, k, e);
    var b: Opening, l: nat :| b.For(g) && MaskSet(b.needed) == nd && FailsAt(g, b, l, e');
    SameOpening(g, a, b);
    if k <= l { FailsOnce(g, a, k, l, e, e'); } else { FailsOnce(g, a, l, k, e', e); }
  }

  lemma HaltsOnce<K, V, E>(g: Dag<K, V, E>, o: Opening, n: nat, m: nat)
    requires Halts(g, o, n) && Halts(g, o, m) && n <= m
    ensures n == m
  {
    hide Opening.After;
    assert n < m - 1 ==> TakesValue(g, o.After(n));
    assert 0 < n < m ==> TakesValue(g, o.After(n - 1));
  }

  /** Graph and needed set determine which nodes a sequential run starts, and in which order. */
  lemma StartOrderUnique<K, V, E>(g: Dag<K, V, E>, nd: set<nat>, order: seq<nat>, order': seq<nat>)
    requires StartOrder(g, nd, order) && StartOrder(g, nd, order')
    ensures order == order'
  {
    hide Opening.For, Halts, MaskSet, Opening.Heads;
    var a: Opening, n: nat :| a.For(g) && MaskSet(a.needed) == nd && Halts(g, a, n) && order == a.Heads(n);
    var b: Opening, m: nat :| b.For(g) && MaskSet(b.needed) == nd && Halts(g, b, m) && order' == b.Heads(m);
    SameOpening(g, a, b);
    if n <= m { HaltsOnce(g, a, n, m); } else { HaltsOnce(g, a, m, n); }
  }

  lemma EndsOnce<K, V, E>(g: Dag<K, V, E>, o: Opening, n: nat, m: nat)
    requires Ends(g, o, n) && Ends(g, o, m) && n <= m
    ensures n == m
  {
    hide Opening.After;
    assert n < m ==> TakesValue(g, o.After(n));
  }

  /** Graph and needed set determine the frontier width that a sequential run reports. */
  lemma PeakWidthUnique<K, V, E>(g: Dag<K, V, E>, nd: set<nat>, width: nat, width': nat)
    requires PeakWidth(g, nd, width) && PeakWidth(g, nd, width')
    ensures width == width'
  {
    hide Opening.For, Ends, MaskSet, Opening.After;
    var a: Opening, n: nat :| a.For(g) && MaskSet(a.needed) == nd && Ends(g, a, n) && PeakAt(a, n, width);
    var b: Opening, m: nat :| b.For(g) && MaskSet(b.needed) == nd && Ends(g, b, m) && PeakAt(b, m, width');
    SameOpening(g, a, b);
    if n <= m { EndsOnce(g, a, n, m); } else { EndsOnce(g, a, m, n); }
  }

  /** q' is q with one decrement per entry of the list and `released` appended: the nodes of the
    * list whose in-degree became zero, in id order and without repeats. */
  ghost predicate ReleasedAs(q: Queue, q': Queue, list: seq<nat>, released: seq<nat>) {
    && q'.ready == q.ready + released && |q'.indeg| == |q.indeg|
    && (forall x :: 0 <= x < |q.indeg| ==> q'.indeg[x] + multiset(list)[x] == q.indeg[x])
    && (forall x: nat :: x in released <==> x in list && x < |q'.indeg| && q'.indeg[x] == 0)
    && (forall a, b :: 0 <= a < b < |released| ==> released[a] < released[b])
  }

  lemma ReleasedNext(q: Queue, q': Queue, list: seq<nat>, released: seq<nat>, d: nat)
    requires ReleasedAs(q, q', list, released) && d < |q.indeg| && multiset(list)[d] < q.indeg[d]
    requires forall x :: x in list ==> x <= d
    ensures ReleasedAs(q, ReleaseTo(q', d), list + [d], if q'.indeg[d] == 1 then released + [d] else released)
  {
    var after, next := ReleaseTo(q', d), if q'.indeg[d] == 1 then released + [d] else released;
    assert forall x: nat :: multiset(list + [d])[x] == multiset(list)[x] + (if x == d then 1 else 0);
    assert forall a :: 0 <= a < |released| ==> released[a] in released;
    assert d !in released;
    forall x: nat
      ensures x in next <==> x in list + [d] && x < |after.indeg| && after.indeg[x] == 0
    {
      assert x in next <==> x in released || (x == d && q'.indeg[d] == 1);
      assert x in list + [d] <==> x in list || x == d;
    }
  }

  /** Releasing a sorted list appends what becomes ready in id order, at the end of the queue. */
  lemma {:induction false} ReleasedInOrder(q: Queue, list: seq<nat>) returns (released: seq<nat>)
    requires Ascending(list) && forall x :: x in list ==> x < |q.indeg| && multiset(list)[x] <= q.indeg[x]
    ensures ReleasedAs(q, Release(q, list), list, released)
  {
    hide ReleasedAs, ReleaseTo;
    if list == [] {
      released := [];
      NothingReleased(q);
    } else {
      var before, d := list[..|list| - 1], list[|list| - 1];
      assert list == before + [d];
      forall x | x in before
        ensures x < |q.indeg| && multiset(before)[x] <= q.indeg[x] && x <= d
      {
        assert x in list;
      }
      assert d in list && multiset(list)[d] == multiset(before)[d] + 1;
      released := ReleasedInOrder(q, before);
      SameLength(q, before, released);
      ReleasedNext(q, Release(q, before), before, released, d);
      released := if Release(q, before).indeg[d] == 1 then released + [d] else released;
    }
  }

  lemma NothingReleased(q: Queue)
    ensures ReleasedAs(q, q, [], [])
  {
  }

  lemma SameLength(q: Queue, list: seq<nat>, released: seq<nat>)
    requires ReleasedAs(q, Release(q, list), list, released)
    ensures |Release(q, list).indeg| == |q.indeg|
  {
  }

  lemma ReleaseSnoc(q: Queue, list: seq<nat>, k: nat)
    requires k < |list|
    ensures Release(q, list[..k + 1]) == ReleaseTo(Release(q, list[..k]), list[k])
  {
    assert list[..k + 1][..k] == list[..k];
  }
}
