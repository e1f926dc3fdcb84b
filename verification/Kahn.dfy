/** The invariant both executors keep while they evaluate a needed subgraph in Kahn order,
  * and what it implies when nothing is left to do.
  *
  * A state is described by the value table, the in-degree table, the frontier (nodes whose
  * dependencies all have values but which have none themselves: ready, pending or in
  * flight), and the decrements still owed by the release loop that is under way.
  */
module Kahn {
  import opened Wrappers
  import opened Graph

  ghost function MaskSet(needed: seq<bool>): (s: set<nat>)
    ensures forall i: nat :: i in s <==> i < |needed| && needed[i]
  {
    set i | i in UpTo(|needed|) && needed[i]
  }

  ghost function DoneSet<V>(vals: seq<Option<V>>): (s: set<nat>)
    ensures forall i: nat :: i in s <==> i < |vals| && vals[i].Some?
  {
    set i | i in UpTo(|vals|) && vals[i].Some?
  }

  /** Number of dependency positions whose node has no value yet; a repeated key counts
    * once per position. */
  ghost function Missing<V>(deps: seq<nat>, vals: seq<Option<V>>): nat {
    if deps == [] then 0
    else
      var d := deps[|deps| - 1];
      Missing(deps[..|deps| - 1], vals) + (if d < |vals| && vals[d].Some? then 0 else 1)
  }

  lemma {:induction false} MissingAll<V>(deps: seq<nat>, vals: seq<Option<V>>)
    requires forall i :: 0 <= i < |vals| ==> vals[i].None?
    ensures Missing(deps, vals) == |deps|
  {
    if deps != [] { MissingAll(deps[..|deps| - 1], vals); }
  }

  lemma {:induction false} MissingNone<V>(deps: seq<nat>, vals: seq<Option<V>>)
    ensures Missing(deps, vals) == 0 <==>
            forall p :: 0 <= p < |deps| ==> deps[p] < |vals| && vals[deps[p]].Some?
  {
    if deps != [] {
      var q := deps[..|deps| - 1];
      MissingNone(q, vals);
      if Missing(deps, vals) == 0 {
        forall p | 0 <= p < |deps| ensures deps[p] < |vals| && vals[deps[p]].Some? {
          if p < |q| { assert q[p] == deps[p]; }
        }
      } else if Missing(q, vals) > 0 {
        var p :| 0 <= p < |q| && !(q[p] < |vals| && vals[q[p]].Some?);
        assert deps[p] == q[p];
      }
    }
  }

  /** Giving a node its value settles exactly the positions that name it. */
  lemma {:induction false} MissingAfter<V>(deps: seq<nat>, vals: seq<Option<V>>, id: nat, v: V)
    requires id < |vals| && vals[id].None?
    ensures Missing(deps, vals) == Missing(deps, vals[id := Some(v)]) + multiset(deps)[id]
  {
    if deps != [] {
      var q := deps[..|deps| - 1];
      MissingAfter(q, vals, id, v);
      assert deps == q + [deps[|deps| - 1]];
    }
  }

  /** `owed` is one decrement per dependency position on `from`, for every needed node. */
  ghost predicate OwedFrom<K, V, E>(g: Dag<K, V, E>, needed: seq<bool>, owed: multiset<nat>, from: nat)
    requires |needed| == |g.nodes|
  {
    forall i: nat :: owed[i] == if i < |g.nodes| && needed[i] then multiset(g.nodes[i].deps)[from] else 0
  }

  /** `dependents[d]` names every needed node once per dependency position on d. */
  ghost predicate OwedTable<K, V, E>(g: Dag<K, V, E>, needed: seq<bool>, dependents: seq<seq<nat>>) {
    |needed| == |dependents| == |g.nodes| &&
    forall d :: 0 <= d < |dependents| ==> OwedFrom(g, needed, multiset(dependents[d]), d)
  }

  lemma OwedAt<K, V, E>(g: Dag<K, V, E>, needed: seq<bool>, dependents: seq<seq<nat>>, d: nat)
    requires OwedTable(g, needed, dependents) && d < |g.nodes|
    ensures |needed| == |dependents| == |g.nodes| && OwedFrom(g, needed, multiset(dependents[d]), d)
  {
  }

  ghost predicate Ascending(s: seq<nat>) {
    forall a, b :: 0 <= a < b < |s| ==> s[a] <= s[b]
  }

  /** What `build_kahn_metadata` computes: `dependents[d]` names every needed node once per
    * dependency position on d, in id order; the in-degree of a needed node is the length of
    * its dependency list. */
  ghost predicate IsMetadata<K, V, E>(g: Dag<K, V, E>, needed: seq<bool>, dependents: seq<seq<nat>>, indeg: seq<nat>) {
    && |needed| == |dependents| == |indeg| == |g.nodes|
    && OwedTable(g, needed, dependents)
    && (forall d :: 0 <= d < |g.nodes| ==> Ascending(dependents[d]))
    && (forall i :: 0 <= i < |g.nodes| ==> indeg[i] == if needed[i] then |g.nodes[i].deps| else 0)
  }

  /** Every value written so far is the meaning of a needed node. */
  ghost predicate ValuesSound<K, V, E>(g: Dag<K, V, E>, needed: seq<bool>, vals: seq<Option<V>>, indeg: seq<nat>)
    requires |needed| == |vals| == |indeg| == |g.nodes|
  {
    forall i :: 0 <= i < |vals| && vals[i].Some? ==>
                  needed[i] && indeg[i] == 0 && Meaning(g, i) == Defined(vals[i].value)
  }

  /** `indeg[i]` of a needed node is the number of its dependency positions not yet released;
    * `owed[i]` of those belong to the release loop under way. */
  ghost predicate DegreesCount<K, V, E>(g: Dag<K, V, E>, needed: seq<bool>, vals: seq<Option<V>>, indeg: seq<nat>,
                                        owed: multiset<nat>)
    requires |needed| == |vals| == |indeg| == |g.nodes|
  {
    && (forall i :: 0 <= i < |g.nodes| ==>
          indeg[i] == if needed[i] then Missing(g.nodes[i].deps, vals) + owed[i] else 0)
    && (forall i :: 0 <= i < |g.nodes| ==> indeg[i] <= |g.nodes[i].deps|)
    && (forall i: nat :: owed[i] > 0 ==> i < |g.nodes| && needed[i])
  }

  ghost predicate Open(needed: seq<bool>, released: seq<nat>, done: set<nat>, i: nat) {
    i < |needed| && i < |released| && needed[i] && released[i] == 0 && i !in done
  }

  /** The frontier holds each released node without a value exactly once, and nothing else. */
  ghost predicate FrontierExact<V>(needed: seq<bool>, vals: seq<Option<V>>, indeg: seq<nat>, frontier: multiset<nat>) {
    forall i: nat :: frontier[i] == if Open(needed, indeg, DoneSet(vals), i) then 1 else 0
  }

  ghost predicate KahnInv<K, V, E>(g: Dag<K, V, E>, needed: seq<bool>, vals: seq<Option<V>>, indeg: seq<nat>,
                                   frontier: multiset<nat>, owed: multiset<nat>)
  {
    && g.Valid()
    && |needed| == |vals| == |indeg| == |g.nodes|
    && ClosedUnderDeps(g, MaskSet(needed))
    && ValuesSound(g, needed, vals, indeg)
    && DegreesCount(g, needed, vals, indeg, owed)
    && FrontierExact(needed, vals, indeg, frontier)
  }

  /** Before anything runs the frontier is the set of needed nodes without dependencies. */
  lemma SeedKeeps<K, V, E>(g: Dag<K, V, E>, needed: seq<bool>, dependents: seq<seq<nat>>, vals: seq<Option<V>>,
                           indeg: seq<nat>, frontier: multiset<nat>)
    requires g.Valid() && IsMetadata(g, needed, dependents, indeg) && ClosedUnderDeps(g, MaskSet(needed))
    requires |vals| == |g.nodes| && forall i :: 0 <= i < |vals| ==> vals[i].None?
    requires forall i: nat :: frontier[i] == if i < |g.nodes| && needed[i] && indeg[i] == 0 then 1 else 0
    ensures KahnInv(g, needed, vals, indeg, frontier, multiset{})
  {
    forall i | 0 <= i < |g.nodes|
      ensures needed[i] ==> indeg[i] == Missing(g.nodes[i].deps, vals)
    {
      MissingAll(g.nodes[i].deps, vals);
    }
  }

  /** A frontier node finds every argument, and its meaning is what its function returns on
    * them: "dep missing during exec" cannot happen. */
  lemma FrontierHasArguments<K, V, E>(g: Dag<K, V, E>, needed: seq<bool>, vals: seq<Option<V>>, indeg: seq<nat>,
                                      frontier: multiset<nat>, owed: multiset<nat>, id: nat)
    requires KahnInv(g, needed, vals, indeg, frontier, owed) && frontier[id] > 0
    ensures id < |g.nodes| && needed[id] && vals[id].None?
    ensures forall p :: 0 <= p < |g.nodes[id].deps| ==>
              var d := g.nodes[id].deps[p];
              d < |vals| && vals[d].Some? && Meaning(g, d) == Defined(vals[d].value)
    ensures AllDefined(Meanings(g), g.nodes[id].deps)
    ensures Meaning(g, id) ==
            match g.nodes[id].kind
            case Source(v) => Defined(v)
            case Task(f) => FromResult(f(Gather(Meanings(g), g.nodes[id].deps)))
  {
    MissingNone(g.nodes[id].deps, vals);
    MeaningFixedPoint(g, id);
  }

  lemma StoreDegrees<K, V, E>(g: Dag<K, V, E>, needed: seq<bool>, vals: seq<Option<V>>, indeg: seq<nat>,
                              owed: multiset<nat>, id: nat, v: V)
    requires |needed| == |vals| == |indeg| == |g.nodes| && id < |vals| && vals[id].None?
    requires DegreesCount(g, needed, vals, indeg, multiset{}) && OwedFrom(g, needed, owed, id)
    ensures DegreesCount(g, needed, vals[id := Some(v)], indeg, owed)
  {
    forall i | 0 <= i < |g.nodes|
      ensures indeg[i] == if needed[i] then Missing(g.nodes[i].deps, vals[id := Some(v)]) + owed[i] else 0
    {
      MissingAfter(g.nodes[i].deps, vals, id, v);
    }
  }

  lemma StoreFrontier<V>(needed: seq<bool>, vals: seq<Option<V>>, indeg: seq<nat>, frontier: multiset<nat>, id: nat,
                         v: V)
    requires id < |vals| && FrontierExact(needed, vals, indeg, frontier) && frontier[id] > 0
    ensures FrontierExact(needed, vals[id := Some(v)], indeg, frontier - multiset{id})
  {
    var done := DoneSet(vals);
    assert DoneSet(vals[id := Some(v)]) == done + {id};
    assert forall i: nat :: Open(needed, indeg, done + {id}, i) <==> Open(needed, indeg, done, i) && i != id;
  }

  /** Writing the value of a frontier node takes it out of the frontier and puts one
    * decrement per dependent position on the release loop's account. */
  lemma StoreKeeps<K, V, E>(g: Dag<K, V, E>, needed: seq<bool>, vals: seq<Option<V>>, indeg: seq<nat>,
                            frontier: multiset<nat>, owed: multiset<nat>, id: nat, v: V)
    requires KahnInv(g, needed, vals, indeg, frontier, multiset{}) && OwedFrom(g, needed, owed, id)
    requires frontier[id] > 0 && Meaning(g, id) == Defined(v)
    ensures KahnInv(g, needed, vals[id := Some(v)], indeg, frontier - multiset{id}, owed)
  {
    assert Open(needed, indeg, DoneSet(vals), id);
    StoreDegrees(g, needed, vals, indeg, owed, id, v);
    StoreFrontier(needed, vals, indeg, frontier, id, v);
  }

  lemma ReleaseDegrees<K, V, E>(g: Dag<K, V, E>, needed: seq<bool>, vals: seq<Option<V>>, indeg: seq<nat>,
                                owed: multiset<nat>, dst: nat)
    requires |needed| == |vals| == |indeg| == |g.nodes|
    requires DegreesCount(g, needed, vals, indeg, owed) && owed[dst] > 0
    ensures dst < |g.nodes| && needed[dst] && indeg[dst] > 0 && g.nodes[dst].deps != []
    ensures DegreesCount(g, needed, vals, indeg[dst := indeg[dst] - 1], owed - multiset{dst})
  {
  }

  lemma ReleaseFrontier<V>(needed: seq<bool>, vals: seq<Option<V>>, indeg: seq<nat>, frontier: multiset<nat>, dst: nat)
    requires dst < |indeg| == |needed| && needed[dst] && dst !in DoneSet(vals) && indeg[dst] > 0
    requires FrontierExact(needed, vals, indeg, frontier)
    ensures FrontierExact(needed, vals, indeg[dst := indeg[dst] - 1],
                          if indeg[dst] == 1 then frontier + multiset{dst} else frontier)
  {
    var done, indeg' := DoneSet(vals), indeg[dst := indeg[dst] - 1];
    assert !Open(needed, indeg, done, dst);
    assert forall i: nat :: i != dst ==> (Open(needed, indeg', done, i) <==> Open(needed, indeg, done, i));
    assert Open(needed, indeg', done, dst) <==> indeg[dst] == 1;
  }

  /** One pass of the release loop: the decrement cannot underflow, and the dependent joins
    * the frontier exactly when its last position is released. */
  lemma ReleaseKeeps<K, V, E>(g: Dag<K, V, E>, needed: seq<bool>, vals: seq<Option<V>>, indeg: seq<nat>,
                              frontier: multiset<nat>, owed: multiset<nat>, dst: nat)
    requires KahnInv(g, needed, vals, indeg, frontier, owed) && owed[dst] > 0
    ensures dst < |g.nodes| && needed[dst] && indeg[dst] > 0 && g.nodes[dst].deps != []
    ensures KahnInv(g, needed, vals, indeg[dst := indeg[dst] - 1],
                    if indeg[dst] == 1 then frontier + multiset{dst} else frontier, owed - multiset{dst})
  {
    hide DegreesCount, FrontierExact;
    ReleaseDegrees(g, needed, vals, indeg, owed, dst);
    assert dst !in DoneSet(vals);
    ReleaseFrontier(needed, vals, indeg, frontier, dst);
  }

  /** The frontier never outgrows what is left: values and frontier together fit in the
    * needed set. */
  lemma FrontierFits<K, V, E>(g: Dag<K, V, E>, needed: seq<bool>, vals: seq<Option<V>>, indeg: seq<nat>,
                              frontier: multiset<nat>, owed: multiset<nat>)
    requires KahnInv(g, needed, vals, indeg, frontier, owed)
    ensures |DoneSet(vals)| + |frontier| <= |MaskSet(needed)|
    ensures |DoneSet(vals)| == |MaskSet(needed)| ==> DoneSet(vals) == MaskSet(needed) && frontier == multiset{}
  {
    var open := set i | i in MaskSet(needed) && indeg[i] == 0 && vals[i].None?;
    assert frontier == multiset(open);
    assert |DoneSet(vals) + open| == |DoneSet(vals)| + |open|;
    SubsetSize(DoneSet(vals) + open, MaskSet(needed));
    SubsetSize(DoneSet(vals), MaskSet(needed));
  }

  /** No frontier node depends on another, directly or through any chain. */
  lemma FrontierIncomparable<K, V, E>(g: Dag<K, V, E>, needed: seq<bool>, vals: seq<Option<V>>, indeg: seq<nat>,
                                      frontier: multiset<nat>, owed: multiset<nat>, i: nat, j: nat)
    requires KahnInv(g, needed, vals, indeg, frontier, owed) && frontier[i] > 0 && frontier[j] > 0
    ensures !DependsOn(g, i, j)
  {
    if DependsOn(g, i, j) {
      var d := FirstEdge(g, i, j);
      FrontierHasArguments(g, needed, vals, indeg, frontier, owed, i);
      forall x, p | x in DoneSet(vals) && x < |g.nodes| && 0 <= p < |g.nodes[x].deps|
        ensures g.nodes[x].deps[p] in DoneSet(vals)
      {
        MissingNone(g.nodes[x].deps, vals);
      }
      ReachStaysInside(g, DoneSet(vals), d, j);
    }
  }

  ghost predicate DepsDone<K, V, E>(g: Dag<K, V, E>, done: set<nat>, i: nat)
    requires i < |g.nodes|
  {
    forall p :: 0 <= p < |g.nodes[i].deps| ==> g.nodes[i].deps[p] in done
  }

  /** If evaluation always goes on where the dependencies are done, then every node of a
    * dependency-closed set that has an outcome is done. */
  lemma {:induction false} KnownMeansDone<K, V, E>(g: Dag<K, V, E>, s: set<nat>, done: set<nat>, i: nat, k: nat)
    requires g.Valid() && ClosedUnderDeps(g, s)
    requires forall x :: x in s && x < |g.nodes| && DepsDone(g, done, x) ==> x in done
    requires i in s && i < |g.nodes| && KnownBy(g, i, k)
    ensures i in done
    decreases k
  {
    forall p | 0 <= p < |g.nodes[i].deps|
      ensures g.nodes[i].deps[p] in done
    {
      assert AllDefined(Table(g, k - 1), g.nodes[i].deps);
      KnownMeansDone(g, s, done, g.nodes[i].deps[p], k - 1);
    }
    assert DepsDone(g, done, i);
  }

  /** With an empty frontier every needed node that has an outcome at all has its value:
    * nothing evaluable was left behind, and no needed task can have failed. */
  lemma StuckTable<K, V, E>(g: Dag<K, V, E>, needed: seq<bool>, vals: seq<Option<V>>, indeg: seq<nat>)
    requires KahnInv(g, needed, vals, indeg, multiset{}, multiset{})
    ensures forall i :: 0 <= i < |g.nodes| && needed[i] ==>
              && !Meaning(g, i).Fails?
              && (vals[i].Some? <==> Meaning(g, i).Defined?)
              && (indeg[i] > 0 <==> Meaning(g, i).Undefined?)
  {
    var s, done := MaskSet(needed), DoneSet(vals);
    var nobody: multiset<nat> := multiset{};
    forall x | x in s && DepsDone(g, done, x)
      ensures x in done
    {
      MissingNone(g.nodes[x].deps, vals);
      assert nobody[x] == 0;
    }
    forall i | 0 <= i < |g.nodes| && needed[i] && Meaning(g, i) != Undefined
      ensures i in done
    {
      var k: nat :| KnownBy(g, i, k);
      KnownMeansDone(g, s, done, i, k);
    }
    forall i | 0 <= i < |g.nodes| && needed[i] && vals[i].None?
      ensures indeg[i] > 0
    {
      assert nobody[i] == 0;
    }
  }
}
