/** Pruning, in-degree tables and result lookup: the helpers both executors share. */
module Common {
  import opened Wrappers
  import opened Graph
  import opened Kahn
  import opened Outcomes

  /** The walk starts from the ids of the requested keys. */
  method PushOutputs<K(==), V, E>(g: Dag<K, V, E>, outputs: seq<K>) returns (r: Result<seq<nat>, ExecError<K, E>>)
    ensures FirstUnknown(g, outputs).Some? ==> r == Failure(OutputMissing(FirstUnknown(g, outputs).value))
    ensures r.Failure? ==> exists j :: 0 <= j < |outputs| && r == Failure(OutputMissing(outputs[j]))
                                       && outputs[j] !in g.index && forall a :: 0 <= a < j ==> outputs[a] in g.index
    ensures FirstUnknown(g, outputs).None? ==>
              r.Success? && |r.value| == |outputs|
              && forall a :: 0 <= a < |outputs| ==> r.value[a] == g.index[outputs[a]]
  {
    var stack: seq<nat> := [];
    for j := 0 to |outputs|
      invariant FirstUnknown(g, outputs) == FirstUnknown(g, outputs[j..])
      invariant |stack| == j && forall a :: 0 <= a < j ==> outputs[a] in g.index && stack[a] == g.index[outputs[a]]
    {
      if outputs[j] !in g.index {
        return Failure(OutputMissing(outputs[j]));
      }
      assert outputs[j..][1..] == outputs[j + 1..];
      stack := stack + [g.index[outputs[j]]];
    }
    return Success(stack);
  }

  /** Stack walk from the requested nodes through their dependencies. Already marked nodes
    * are skipped, so it also ends on cyclic graphs. */
  method MarkNeeded<K(==), V, E>(g: Dag<K, V, E>, outputs: seq<K>) returns (r: Result<seq<bool>, ExecError<K, E>>)
    requires g.Valid()
    ensures FirstUnknown(g, outputs).Some? ==> r == Failure(OutputMissing(FirstUnknown(g, outputs).value))
    ensures FirstUnknown(g, outputs).None? ==>
              r.Success? && |r.value| == |g.nodes| && MaskSet(r.value) == Requested(g, outputs)
  {
    var n := |g.nodes|;
    var needed := new bool[n](_ => false);
    var stack :- PushOutputs(g, outputs);

    ghost var roots := Roots(g, outputs);
    StartWalk(g, outputs, needed[..], stack);
    hide WalkInv, Unmarked, Dag.Valid;
    while stack != []
      invariant WalkInv(g, roots, needed[..], stack)
      decreases Unmarked(needed[..]), |stack|
    {
      var id := stack[|stack| - 1];
      PopVisit(g, roots, needed[..], stack);
      if needed[id] {
        PopMarked(g, roots, needed[..], stack);
        stack := stack[..|stack| - 1];
        continue;
      }
      ghost var marked := needed[..][id := true];
      stack := stack[..|stack| - 1];
      needed[id] := true;
      assert needed[..] == marked;
      stack := PushAll(stack, g.nodes[id].deps);
    }
    MarkedIsReachable(g, roots, needed[..]);
    return Success(needed[..]);
  }

  /** The walk: everything marked or stacked is reachable, and whatever a marked node or the
    * request itself leads to is marked or stacked. */
  ghost predicate WalkInv<K, V, E>(g: Dag<K, V, E>, roots: set<nat>, needed: seq<bool>, stack: seq<nat>) {
    && |needed| == |g.nodes|
    && (forall a :: 0 <= a < |stack| ==> stack[a] < |g.nodes| && NeededBy(g, roots, stack[a]))
    && (forall i :: 0 <= i < |needed| && needed[i] ==> NeededBy(g, roots, i))
    && roots <= Covered(needed, stack)
    && (forall i, p :: 0 <= i < |g.nodes| && needed[i] && 0 <= p < |g.nodes[i].deps| ==>
          g.nodes[i].deps[p] in Covered(needed, stack))
  }

  ghost function Covered(needed: seq<bool>, stack: seq<nat>): (s: set<nat>)
    ensures forall i: nat :: i in s <==> i in stack || (i < |needed| && needed[i])
  {
    MaskSet(needed) + (set a | 0 <= a < |stack| :: stack[a])
  }

  lemma StartWalk<K, V, E>(g: Dag<K, V, E>, outputs: seq<K>, needed: seq<bool>, stack: seq<nat>)
    requires g.Valid() && |needed| == |g.nodes| && |stack| == |outputs|
    requires forall i :: 0 <= i < |needed| ==> !needed[i]
    requires forall a :: 0 <= a < |outputs| ==> outputs[a] in g.index && stack[a] == g.index[outputs[a]]
    ensures WalkInv(g, Roots(g, outputs), needed, stack)
  {
    forall a | 0 <= a < |stack|
      ensures stack[a] < |g.nodes| && NeededBy(g, Roots(g, outputs), stack[a])
    {
      ReachesSelf(g, stack[a]);
    }
  }

  ghost function Unmarked(needed: seq<bool>): set<nat> {
    UpTo(|needed|) - MaskSet(needed)
  }

  /** Popping a node that is marked already keeps the walk. */
  lemma PopMarked<K, V, E>(g: Dag<K, V, E>, roots: set<nat>, needed: seq<bool>, stack: seq<nat>)
    requires WalkInv(g, roots, needed, stack) && stack != [] && needed[stack[|stack| - 1]]
    ensures WalkInv(g, roots, needed, stack[..|stack| - 1])
  {
    var rest := stack[..|stack| - 1];
    assert stack == rest + [stack[|stack| - 1]];
    assert Covered(needed, stack) == Covered(needed, rest);
  }

  lemma PushedReachable<K, V, E>(g: Dag<K, V, E>, roots: set<nat>, rest: seq<nat>, id: nat)
    requires g.Valid() && id < |g.nodes| && NeededBy(g, roots, id)
    requires forall a :: 0 <= a < |rest| ==> rest[a] < |g.nodes| && NeededBy(g, roots, rest[a])
    ensures forall a :: 0 <= a < |rest + g.nodes[id].deps| ==>
              (rest + g.nodes[id].deps)[a] < |g.nodes| && NeededBy(g, roots, (rest + g.nodes[id].deps)[a])
  {
    var deps := g.nodes[id].deps;
    var r :| r in roots && Reaches(g, r, id);
    forall p | 0 <= p < |deps|
      ensures NeededBy(g, roots, deps[p])
    {
      ReachesStep(g, r, id, deps[p]);
    }
  }

  lemma CoverGrows(needed: seq<bool>, rest: seq<nat>, id: nat, deps: seq<nat>)
    requires id < |needed|
    ensures Covered(needed, rest + [id]) <= Covered(needed[id := true], rest + deps)
    ensures forall p :: 0 <= p < |deps| ==> deps[p] in Covered(needed[id := true], rest + deps)
    ensures !needed[id] ==> Unmarked(needed[id := true]) < Unmarked(needed)
  {
    assert forall p :: 0 <= p < |deps| ==> (rest + deps)[|rest| + p] == deps[p];
    assert id in MaskSet(needed[id := true]);
  }

  lemma CoverClosed<K, V, E>(g: Dag<K, V, E>, needed: seq<bool>, rest: seq<nat>, id: nat)
    requires id < |needed| == |g.nodes|
    requires forall i, p :: 0 <= i < |g.nodes| && needed[i] && 0 <= p < |g.nodes[i].deps| ==>
               g.nodes[i].deps[p] in Covered(needed, rest + [id])
    ensures forall i, p :: 0 <= i < |g.nodes| && needed[id := true][i] && 0 <= p < |g.nodes[i].deps| ==>
              g.nodes[i].deps[p] in Covered(needed[id := true], rest + g.nodes[id].deps)
  {
    hide Covered, Unmarked;
    CoverGrows(needed, rest, id, g.nodes[id].deps);
  }

  /** Popping a new node keeps the walk once it is marked and its dependencies are pushed. */
  lemma PopVisit<K, V, E>(g: Dag<K, V, E>, roots: set<nat>, needed: seq<bool>, stack: seq<nat>)
    requires g.Valid() && WalkInv(g, roots, needed, stack) && stack != []
    ensures var id := stack[|stack| - 1];
            && id < |needed| == |g.nodes|
            && WalkInv(g, roots, needed[id := true], stack[..|stack| - 1] + g.nodes[id].deps)
            && (!needed[id] ==> Unmarked(needed[id := true]) < Unmarked(needed))
  {
    var rest, id := stack[..|stack| - 1], stack[|stack| - 1];
    assert stack == rest + [id];
    hide Covered, NeededBy, Unmarked, Dag.Valid;
    PushedReachable(g, roots, rest, id);
    CoverGrows(needed, rest, id, g.nodes[id].deps);
    CoverClosed(g, needed, rest, id);
    assert forall i :: 0 <= i < |needed| && needed[id := true][i] ==> i == id || needed[i];
  }

  method PushAll(stack: seq<nat>, deps: seq<nat>) returns (r: seq<nat>)
    ensures r == stack + deps
  {
    r := stack;
    for p := 0 to |deps|
      invariant r == stack + deps[..p]
    {
      r := r + [deps[p]];
    }
  }

  /** A mask that holds the roots, is closed under dependencies and contains only reachable
    * nodes is the needed set. */
  lemma MarkedIsReachable<K, V, E>(g: Dag<K, V, E>, roots: set<nat>, needed: seq<bool>)
    requires WalkInv(g, roots, needed, [])
    ensures MaskSet(needed) == NeededFrom(g, roots)
  {
    assert Covered(needed, []) == MaskSet(needed);
    forall i | i in NeededFrom(g, roots)
      ensures i in MaskSet(needed)
    {
      var r :| r in roots && Reaches(g, r, i);
      ReachStaysInside(g, MaskSet(needed), r, i);
    }
  }

  /** Dependents, in-degrees and the size of the needed subgraph. */
  method BuildKahnMetadata<K, V, E>(g: Dag<K, V, E>, needed: seq<bool>)
    returns (dependents: seq<seq<nat>>, indeg: array<nat>, neededCount: nat)
    requires g.Valid() && |needed| == |g.nodes|
    ensures fresh(indeg) && IsMetadata(g, needed, dependents, indeg[..])
    ensures neededCount == |MaskSet(needed)|
  {
    var n := |g.nodes|;
    dependents := seq(n, _ => []);
    indeg := new nat[n](_ => 0);
    neededCount := 0;
    assert Filled(g, needed, dependents, 0, 0);
    assert indeg[..] == Degrees(g, needed, 0);
    hide Filled, IsMetadata, Degrees, Dag.Valid;
    for i := 0 to n
      invariant |dependents| == n && Filled(g, needed, dependents, i, 0)
      invariant indeg[..] == Degrees(g, needed, i)
      invariant neededCount == |MaskSet(needed[..i])|
    {
      CountStep(needed, i);
      DegreesStep(g, needed, i);
      if needed[i] {
        neededCount := neededCount + 1;
        indeg[i] := |g.nodes[i].deps|;
        assert indeg[..] == Degrees(g, needed, i + 1);
        dependents := EnterPositions(g, needed, dependents, i);
      }
      NextNode(g, needed, dependents, i);
    }
    assert needed[..n] == needed;
    FilledIsMetadata(g, needed, dependents, indeg[..]);
  }

  /** In-degrees after the first i nodes. */
  ghost function Degrees<K, V, E>(g: Dag<K, V, E>, needed: seq<bool>, i: nat): (d: seq<nat>)
    requires |needed| == |g.nodes|
    ensures |d| == |g.nodes|
  {
    seq(|g.nodes|, x requires 0 <= x < |g.nodes| => if x < i && needed[x] then |g.nodes[x].deps| else 0)
  }

  lemma DegreesStep<K, V, E>(g: Dag<K, V, E>, needed: seq<bool>, i: nat)
    requires |needed| == |g.nodes| && i < |g.nodes|
    ensures Degrees(g, needed, i + 1) ==
            if needed[i] then Degrees(g, needed, i)[i := |g.nodes[i].deps|] else Degrees(g, needed, i)
  {
  }

  lemma CountStep(needed: seq<bool>, i: nat)
    requires i < |needed|
    ensures |MaskSet(needed[..i + 1])| == |MaskSet(needed[..i])| + (if needed[i] then 1 else 0)
  {
    assert MaskSet(needed[..i + 1]) == MaskSet(needed[..i]) + (if needed[i] then {i} else {});
  }

  /** Enter node i once per dependency position. */
  method EnterPositions<K, V, E>(g: Dag<K, V, E>, needed: seq<bool>, dependents: seq<seq<nat>>, i: nat)
    returns (r: seq<seq<nat>>)
    requires g.Valid() && |needed| == |g.nodes| == |dependents| && i < |g.nodes| && needed[i]
    requires Filled(g, needed, dependents, i, 0)
    ensures |r| == |g.nodes| && Filled(g, needed, r, i, |g.nodes[i].deps|)
  {
    hide Filled;
    r := dependents;
    var deps := g.nodes[i].deps;
    for p := 0 to |deps|
      invariant |r| == |g.nodes| && Filled(g, needed, r, i, p)
    {
      FillOne(g, needed, r, i, p);
      r := r[deps[p] := r[deps[p]] + [i]];
    }
  }

  /** Positions entered so far: all those of needed nodes before i, and the first p of i. */
  ghost function Entered<K, V, E>(g: Dag<K, V, E>, needed: seq<bool>, x: nat, i: nat, p: nat): seq<nat>
    requires |needed| == |g.nodes| && (i < |g.nodes| ==> p <= |g.nodes[i].deps|)
  {
    if x < |g.nodes| && needed[x] then
      if x < i then g.nodes[x].deps else if x == i then g.nodes[x].deps[..p] else []
    else []
  }

  ghost predicate Filled<K, V, E>(g: Dag<K, V, E>, needed: seq<bool>, dependents: seq<seq<nat>>, i: nat, p: nat)
    requires |needed| == |g.nodes| == |dependents| && (i < |g.nodes| ==> p <= |g.nodes[i].deps|)
  {
    forall d :: 0 <= d < |g.nodes| ==> Listed(g, needed, dependents[d], d, i, p)
  }

  /** One dependents list: each entered position once, in id order. */
  ghost predicate Listed<K, V, E>(g: Dag<K, V, E>, needed: seq<bool>, list: seq<nat>, d: nat, i: nat, p: nat)
    requires |needed| == |g.nodes| && (i < |g.nodes| ==> p <= |g.nodes[i].deps|)
  {
    && (forall x: nat :: multiset(list)[x] == multiset(Entered(g, needed, x, i, p))[d])
    && Ascending(list)
    && (forall a :: 0 <= a < |list| ==> list[a] <= i)
  }

  /** Position p of node i is entered next. */
  lemma EnteredNext<K, V, E>(g: Dag<K, V, E>, needed: seq<bool>, x: nat, d: nat, i: nat, p: nat)
    requires |needed| == |g.nodes| && i < |g.nodes| && needed[i] && p < |g.nodes[i].deps|
    ensures multiset(Entered(g, needed, x, i, p + 1))[d]
         == multiset(Entered(g, needed, x, i, p))[d] + (if x == i && d == g.nodes[i].deps[p] then 1 else 0)
  {
    var deps := g.nodes[i].deps;
    assert deps[..p + 1] == deps[..p] + [deps[p]];
  }

  lemma ListOne<K, V, E>(g: Dag<K, V, E>, needed: seq<bool>, list: seq<nat>, d: nat, i: nat, p: nat)
    requires |needed| == |g.nodes| && i < |g.nodes| && needed[i] && p < |g.nodes[i].deps|
    requires Listed(g, needed, list, d, i, p)
    ensures Listed(g, needed, if d == g.nodes[i].deps[p] then list + [i] else list, d, i, p + 1)
  {
    hide Entered;
    var list': seq<nat> := if d == g.nodes[i].deps[p] then list + [i] else list;
    forall x: nat
      ensures multiset(list')[x] == multiset(Entered(g, needed, x, i, p + 1))[d]
    {
      assert multiset(list)[x] == multiset(Entered(g, needed, x, i, p))[d];
      EnteredNext(g, needed, x, d, i, p);
    }
  }

  lemma FillOne<K, V, E>(g: Dag<K, V, E>, needed: seq<bool>, dependents: seq<seq<nat>>, i: nat, p: nat)
    requires g.Valid() && |needed| == |g.nodes| == |dependents| && i < |g.nodes| && needed[i]
    requires p < |g.nodes[i].deps| && Filled(g, needed, dependents, i, p)
    ensures var d := g.nodes[i].deps[p];
            Filled(g, needed, dependents[d := dependents[d] + [i]], i, p + 1)
  {
    forall d | 0 <= d < |g.nodes| {
      ListOne(g, needed, dependents[d], d, i, p);
    }
  }

  lemma NextNode<K, V, E>(g: Dag<K, V, E>, needed: seq<bool>, dependents: seq<seq<nat>>, i: nat)
    requires |needed| == |g.nodes| == |dependents| && i < |g.nodes|
    requires Filled(g, needed, dependents, i, if needed[i] then |g.nodes[i].deps| else 0)
    ensures Filled(g, needed, dependents, i + 1, 0)
  {
    var p := if needed[i] then |g.nodes[i].deps| else 0;
    assert g.nodes[i].deps[..|g.nodes[i].deps|] == g.nodes[i].deps;
    forall d | 0 <= d < |g.nodes|
      ensures Listed(g, needed, dependents[d], d, i + 1, 0)
    {
      assert Listed(g, needed, dependents[d], d, i, p);
      assert forall x: nat :: multiset(Entered(g, needed, x, i + 1, 0)) == multiset(Entered(g, needed, x, i, p));
    }
  }

  lemma FilledIsMetadata<K, V, E>(g: Dag<K, V, E>, needed: seq<bool>, dependents: seq<seq<nat>>, indeg: seq<nat>)
    requires |needed| == |g.nodes| == |dependents| == |indeg|
    requires Filled(g, needed, dependents, |g.nodes|, 0)
    requires indeg == Degrees(g, needed, |g.nodes|)
    ensures IsMetadata(g, needed, dependents, indeg)
  {
    forall d | 0 <= d < |g.nodes|
      ensures OwedFrom(g, needed, multiset(dependents[d]), d)
    {
      assert Listed(g, needed, dependents[d], d, |g.nodes|, 0);
      forall x: nat
        ensures multiset(dependents[d])[x] == if x < |g.nodes| && needed[x] then multiset(g.nodes[x].deps)[d] else 0
      {
        assert multiset(dependents[d])[x] == multiset(Entered(g, needed, x, |g.nodes|, 0))[d];
      }
    }
    forall d | 0 <= d < |g.nodes|
      ensures Ascending(dependents[d])
    {
      assert Listed(g, needed, dependents[d], d, |g.nodes|, 0);
    }
  }

  ghost predicate HasValue<K, V, E>(g: Dag<K, V, E>, vals: seq<Option<V>>, k: K) {
    k in g.index && g.index[k] < |vals| && vals[g.index[k]].Some?
  }

  ghost function KeySet<K>(keys: seq<K>): set<K> {
    set j | 0 <= j < |keys| :: keys[j]
  }

  /** Look up the requested keys in the value table: all of them, or the first that has no
    * value. */
  method CollectOutputs<K(==), V, E>(g: Dag<K, V, E>, outKeys: seq<K>, vals: seq<Option<V>>)
    returns (r: Result<map<K, V>, ExecError<K, E>>)
    requires g.Valid() && |vals| == |g.nodes|
    ensures r.Success? ==>
              && r.value.Keys == KeySet(outKeys)
              && forall j :: 0 <= j < |outKeys| ==>
                   HasValue(g, vals, outKeys[j]) && r.value[outKeys[j]] == vals[g.index[outKeys[j]]].value
    ensures r.Failure? ==> exists j :: 0 <= j < |outKeys| && r == Failure(OutputMissing(outKeys[j]))
                                       && !HasValue(g, vals, outKeys[j])
                                       && forall a :: 0 <= a < j ==> HasValue(g, vals, outKeys[a])
  {
    var out: map<K, V> := map[];
    for j := 0 to |outKeys|
      invariant forall a :: 0 <= a < j ==> HasValue(g, vals, outKeys[a])
      invariant out.Keys == KeySet(outKeys[..j])
      invariant forall a :: 0 <= a < j ==> out[outKeys[a]] == vals[g.index[outKeys[a]]].value
    {
      var k := outKeys[j];
      if k !in g.index || vals[g.index[k]].None? {
        return Failure(OutputMissing(k));
      }
      KeySetStep(outKeys, j);
      out := out[k := vals[g.index[k]].value];
    }
    assert outKeys[..|outKeys|] == outKeys;
    return Success(out);
  }

  lemma KeySetStep<K>(keys: seq<K>, j: nat)
    requires j < |keys|
    ensures KeySet(keys[..j + 1]) == KeySet(keys[..j]) + {keys[j]}
    ensures forall a :: 0 <= a < j ==> keys[a] in KeySet(keys[..j])
  {
    forall a | 0 <= a < j
      ensures keys[a] in KeySet(keys[..j]) && keys[a] in KeySet(keys[..j + 1])
    {
      assert keys[..j][a] == keys[..j + 1][a] == keys[a];
    }
    assert keys[..j + 1][j] == keys[j];
  }

  /** Needed nodes whose in-degree is still positive. */
  ghost function Unreleased(needed: seq<bool>, indeg: seq<nat>): set<nat> {
    set i | i in MaskSet(needed) && i < |indeg| && indeg[i] > 0
  }

  /** Keys of the needed nodes that were never released, in id order: the cycle report. */
  method Remaining<K, V, E>(g: Dag<K, V, E>, needed: seq<bool>, indeg: array<nat>)
    returns (remaining: seq<K>, ghost ids: seq<nat>)
    requires |needed| == indeg.Length == |g.nodes|
    ensures remaining == KeysOf(g, Unreleased(needed, indeg[..]), |g.nodes|)
    ensures ListsInOrder(g, set i | 0 <= i < |needed| && needed[i] && indeg[i] > 0, |g.nodes|, ids, remaining)
  {
    remaining := [];
    for i := 0 to |g.nodes|
      invariant remaining == KeysOf(g, Unreleased(needed, indeg[..]), i)
    {
      if needed[i] && indeg[i] > 0 {
        remaining := remaining + [g.nodes[i].key];
      }
    }
    ids := KeysInOrder(g, Unreleased(needed, indeg[..]), |g.nodes|);
    assert Unreleased(needed, indeg[..]) == set i | 0 <= i < |needed| && needed[i] && indeg[i] > 0;
  }
}
