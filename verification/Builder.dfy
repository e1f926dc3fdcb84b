/** Construction of a graph from keyed nodes: key uniqueness, dependency resolution, and the
  * well-formedness every executor relies on. Cycles are not looked for here. */
module Builder {
  import opened Wrappers
  import opened Graph

  datatype BuildError<K> =
    | DuplicateKey(key: K)
    | MissingDependency(task: K, missing: K)
    | EmptyGraph

  /** A node as added: its dependencies are still keys. */
  datatype StagedNode<K, !V, E> = StagedNode(key: K, deps: seq<K>, kind: NodeKind<V, E>)

  ghost predicate Known<K, V, E>(staged: seq<StagedNode<K, V, E>>, k: K) {
    exists i :: 0 <= i < |staged| && staged[i].key == k
  }

  /** A dependency list entry that names no staged node. */
  ghost predicate Dangling<K, V, E>(staged: seq<StagedNode<K, V, E>>, i: nat, p: nat) {
    i < |staged| && p < |staged[i].deps| && !Known(staged, staged[i].deps[p])
  }

  /** The first dangling entry in insertion order. */
  ghost predicate FirstDangling<K, V, E>(staged: seq<StagedNode<K, V, E>>, i: nat, p: nat) {
    && Dangling(staged, i, p)
    && (forall j, q :: 0 <= j < i && 0 <= q ==> !Dangling(staged, j, q))
    && (forall q :: 0 <= q < p ==> !Dangling(staged, i, q))
  }

  /** Node i of a graph is the staged node i with its dependencies resolved. */
  ghost predicate NodeMatches<K, V, E>(staged: seq<StagedNode<K, V, E>>, i: nat, node: Node<K, V, E>) {
    && i < |staged|
    && node.key == staged[i].key && node.kind == staged[i].kind && |node.deps| == |staged[i].deps|
    && forall p :: 0 <= p < |node.deps| ==> node.deps[p] < |staged| && staged[node.deps[p]].key == staged[i].deps[p]
  }

  ghost predicate IndexExact<K, V, E>(staged: seq<StagedNode<K, V, E>>, index: map<K, nat>) {
    && (forall k :: k in index ==> index[k] < |staged| && staged[index[k]].key == k)
    && (forall i :: 0 <= i < |staged| ==> staged[i].key in index && index[staged[i].key] == i)
  }

  /** The graph a staged list compiles to: same nodes in the same order, each dependency key
    * replaced by the position of its node. */
  ghost predicate Compiled<K, V, E>(staged: seq<StagedNode<K, V, E>>, g: Dag<K, V, E>) {
    && |g.nodes| == |staged| && IndexExact(staged, g.index)
    && forall i :: 0 <= i < |staged| ==> NodeMatches(staged, i, g.nodes[i])
  }

  ghost predicate SourcesFree<K, V, E>(staged: seq<StagedNode<K, V, E>>) {
    forall i :: 0 <= i < |staged| && staged[i].kind.Source? ==> staged[i].deps == []
  }

  lemma CompiledIsValid<K, V, E>(staged: seq<StagedNode<K, V, E>>, g: Dag<K, V, E>)
    requires Compiled(staged, g) && SourcesFree(staged)
    ensures g.Valid()
  {
    forall i | 0 <= i < |g.nodes|
      ensures NodeMatches(staged, i, g.nodes[i])
    {
    }
  }

  class DagBuilder<K(==), !V, E> {
    var index: map<K, nat>
    var staging: seq<StagedNode<K, V, E>>

    ghost predicate Valid()
      reads this
    {
      IndexExact(staging, index) && SourcesFree(staging)
    }

    constructor ()
      ensures Valid() && staging == []
    {
      index := map[];
      staging := [];
    }

    method AddSource(key: K, value: V) returns (r: Result<(), BuildError<K>>)
      requires Valid()
      modifies this
      ensures Valid()
      ensures Known(old(staging), key) ==> r == Failure(DuplicateKey(key)) && staging == old(staging)
      ensures !Known(old(staging), key) ==>
                r.Success? && staging == old(staging) + [StagedNode(key, [], Source(value))]
    {
      r := InsertNode(key, [], Source(value));
    }

    method AddTask(key: K, deps: seq<K>, func: seq<V> -> Result<V, E>) returns (r: Result<(), BuildError<K>>)
      requires Valid()
      modifies this
      ensures Valid()
      ensures Known(old(staging), key) ==> r == Failure(DuplicateKey(key)) && staging == old(staging)
      ensures !Known(old(staging), key) ==>
                r.Success? && staging == old(staging) + [StagedNode(key, deps, NodeKind.Task(func))]
    {
      r := InsertNode(key, deps, NodeKind.Task(func));
    }

    method InsertNode(key: K, deps: seq<K>, kind: NodeKind<V, E>) returns (r: Result<(), BuildError<K>>)
      requires Valid() && (kind.Source? ==> deps == [])
      modifies this
      ensures Valid()
      ensures Known(old(staging), key) ==> r == Failure(DuplicateKey(key)) && staging == old(staging)
      ensures !Known(old(staging), key) ==> r.Success? && staging == old(staging) + [StagedNode(key, deps, kind)]
    {
      assert Known(staging, key) <==> key in index;
      if key in index {
        return Failure(DuplicateKey(key));
      }
      index := index[key := |staging|];
      staging := staging + [StagedNode(key, deps, kind)];
      r := Success(());
    }

    /** A graph, unless nothing was added or some dependency names no node; then the error
      * names the first such dependency. */
    method Build() returns (r: Result<Dag<K, V, E>, BuildError<K>>)
      requires Valid()
      ensures staging == [] ==> r == Failure(EmptyGraph)
      ensures staging != [] && r.Failure? ==>
                exists i: nat, p: nat :: FirstDangling(staging, i, p)
                               && r == Failure(MissingDependency(staging[i].key, staging[i].deps[p]))
      ensures r.Success? <==> staging != [] && forall i: nat, p: nat :: !Dangling(staging, i, p)
      ensures r.Success? ==> r.value.Valid() && Compiled(staging, r.value)
    {
      if staging == [] {
        return Failure(EmptyGraph);
      }
      var keyToId: map<K, nat> := map[];
      for i := 0 to |staging|
        invariant IndexExact(staging[..i], keyToId)
      {
        assert staging[..i + 1] == staging[..i] + [staging[i]];
        keyToId := keyToId[staging[i].key := i];
      }
      assert staging[..|staging|] == staging;
      var nodes: seq<Node<K, V, E>> := [];
      for i := 0 to |staging|
        invariant |nodes| == i
        invariant forall j :: 0 <= j < i ==> NodeMatches(staging, j, nodes[j])
        invariant forall j, q :: 0 <= j < i && 0 <= q ==> !Dangling(staging, j, q)
      {
        var depIds, missing := Resolve(staging[i].deps, keyToId);
        if missing.Some? {
          var dep := staging[i].deps[missing.value];
          assert FirstDangling(staging, i, missing.value);
          return Failure(MissingDependency(staging[i].key, dep));
        }
        nodes := nodes + [Node(staging[i].key, depIds, staging[i].kind)];
      }
      var g := Dag(nodes, keyToId);
      CompiledIsValid(staging, g);
      r := Success(g);
    }

    /** Positions of the dependency keys, or the index of the first key without one. */
    method Resolve(deps: seq<K>, keyToId: map<K, nat>) returns (depIds: seq<nat>, missing: Option<nat>)
      requires IndexExact(staging, keyToId)
      ensures missing.None? ==>
                && |depIds| == |deps|
                && forall p :: 0 <= p < |deps| ==> depIds[p] < |staging| && staging[depIds[p]].key == deps[p]
      ensures missing.Some? ==>
                && missing.value < |deps| && !Known(staging, deps[missing.value])
                && forall p :: 0 <= p < missing.value ==> Known(staging, deps[p])
    {
      depIds := [];
      for p := 0 to |deps|
        invariant |depIds| == p
        invariant forall q :: 0 <= q < p ==> depIds[q] < |staging| && staging[depIds[q]].key == deps[q]
      {
        if deps[p] !in keyToId {
          return depIds, Some(p);
        }
        depIds := depIds + [keyToId[deps[p]]];
      }
      missing := None;
    }
  }
}
