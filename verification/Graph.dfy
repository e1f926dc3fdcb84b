/** The compiled dependency graph, what its nodes mean, and the paths through it.
  *
  * A node is a source or a task over its dependencies. Nothing forbids cycles: the
  * executors find them at run time, so the meaning below has to be defined on cyclic
  * graphs too. It is the least fixed point of one evaluation round, reached by iterating
  * that round from "nothing is defined yet".
  */
module Graph {
  import opened Wrappers

  datatype NodeKind<!V, E> = Source(value: V) | Task(func: seq<V> -> Result<V, E>)

  datatype Node<K, !V, E> = Node(key: K, deps: seq<nat>, kind: NodeKind<V, E>)

  datatype Dag<K, !V, E> = Dag(nodes: seq<Node<K, V, E>>, index: map<K, nat>) {

    /** What the builder establishes and every executor relies on. */
    ghost predicate Valid() {
      && (forall i, p :: 0 <= i < |nodes| && 0 <= p < |nodes[i].deps| ==> nodes[i].deps[p] < |nodes|)
      && (forall i :: 0 <= i < |nodes| && nodes[i].kind.Source? ==> nodes[i].deps == [])
      && (forall k :: k in index ==> index[k] < |nodes| && nodes[index[k]].key == k)
      && (forall i :: 0 <= i < |nodes| ==> nodes[i].key in index && index[nodes[i].key] == i)
    }

    ghost predicate HasTask(i: nat) {
      i < |nodes| && nodes[i].kind.Task?
    }
  }

  datatype ExecError<K, E> =
    | Cycle(remaining: seq<K>)
    | TaskFailed(task: K, error: E)
    | OutputMissing(key: K)
    | InternalInvariant(message: string)

  // ---------------------------------------------------------------------------------------
  // Meaning
  // ---------------------------------------------------------------------------------------

  /** What evaluating a node comes to. `Undefined` covers both nodes on or behind a cycle
    * and nodes behind a failing task. */
  datatype Outcome<V, E> = Undefined | Defined(value: V) | Fails(error: E)

  function FromResult<V, E>(r: Result<V, E>): Outcome<V, E> {
    match r
    case Success(v) => Defined(v)
    case Failure(e) => Fails(e)
  }

  ghost predicate AllDefined<V, E>(m: seq<Outcome<V, E>>, deps: seq<nat>) {
    forall p :: 0 <= p < |deps| ==> deps[p] < |m| && m[deps[p]].Defined?
  }

  /** Argument vector of a task: the values of its dependencies, in order, repeats included. */
  ghost function Gather<V, E>(m: seq<Outcome<V, E>>, deps: seq<nat>): (args: seq<V>)
    requires AllDefined(m, deps)
    ensures |args| == |deps| && forall p :: 0 <= p < |deps| ==> args[p] == m[deps[p]].value
  {
    seq(|deps|, p requires 0 <= p < |deps| => m[deps[p]].value)
  }

  /** One evaluation of node i when m says what is known about the other nodes. */
  ghost function Step<K, V, E>(g: Dag<K, V, E>, m: seq<Outcome<V, E>>, i: nat): Outcome<V, E>
    requires i < |g.nodes|
  {
    match g.nodes[i].kind
    case Source(v) => Defined(v)
    case Task(f) =>
      if AllDefined(m, g.nodes[i].deps) then FromResult(f(Gather(m, g.nodes[i].deps))) else Undefined
  }

  /** What is known after k rounds of evaluating every node. */
  ghost function Table<K, V, E>(g: Dag<K, V, E>, k: nat): (m: seq<Outcome<V, E>>)
    ensures |m| == |g.nodes|
  {
    if k == 0 then seq(|g.nodes|, _ => Undefined)
    else seq(|g.nodes|, i requires 0 <= i < |g.nodes| => Step(g, Table(g, k - 1), i))
  }

  ghost predicate KnownBy<K, V, E>(g: Dag<K, V, E>, i: nat, k: nat)
    requires i < |g.nodes|
  {
    Table(g, k)[i] != Undefined
  }

  ghost function Meaning<K, V, E>(g: Dag<K, V, E>, i: nat): Outcome<V, E>
    requires i < |g.nodes|
  {
    if exists k: nat :: KnownBy(g, i, k) then
      var k: nat :| KnownBy(g, i, k);
      Table(g, k)[i]
    else
      Undefined
  }

  ghost function Meanings<K, V, E>(g: Dag<K, V, E>): (m: seq<Outcome<V, E>>)
    ensures |m| == |g.nodes|
  {
    seq(|g.nodes|, i requires 0 <= i < |g.nodes| => Meaning(g, i))
  }

  ghost predicate Below<V, E>(m: seq<Outcome<V, E>>, m': seq<Outcome<V, E>>) {
    |m| == |m'| && forall i :: 0 <= i < |m| && m[i] != Undefined ==> m'[i] == m[i]
  }

  lemma StepMonotone<K, V, E>(g: Dag<K, V, E>, m: seq<Outcome<V, E>>, m': seq<Outcome<V, E>>, i: nat)
    requires i < |g.nodes| && Below(m, m')
    ensures Step(g, m, i) != Undefined ==> Step(g, m', i) == Step(g, m, i)
  {
    var deps := g.nodes[i].deps;
    if AllDefined(m, deps) {
      assert forall p :: 0 <= p < |deps| ==> m'[deps[p]] == m[deps[p]];
      assert Gather(m, deps) == Gather(m', deps);
    }
  }

  lemma {:induction false} TableGrows<K, V, E>(g: Dag<K, V, E>, k: nat)
    ensures Below(Table(g, k), Table(g, k + 1))
  {
    if k > 0 {
      TableGrows(g, k - 1);
      forall i | 0 <= i < |g.nodes| && Table(g, k)[i] != Undefined
        ensures Table(g, k + 1)[i] == Table(g, k)[i]
      {
        StepMonotone(g, Table(g, k - 1), Table(g, k), i);
      }
    }
  }

  lemma {:induction false} TableMonotone<K, V, E>(g: Dag<K, V, E>, k: nat, k': nat)
    requires k <= k'
    ensures Below(Table(g, k), Table(g, k'))
    decreases k' - k
  {
    if k < k' {
      TableGrows(g, k);
      TableMonotone(g, k + 1, k');
    }
  }

  /** Every round agrees with the meaning on what it knows. */
  lemma TableBelowMeaning<K, V, E>(g: Dag<K, V, E>, k: nat)
    ensures Below(Table(g, k), Meanings(g))
  {
    forall i | 0 <= i < |g.nodes| && Table(g, k)[i] != Undefined
      ensures Meaning(g, i) == Table(g, k)[i]
    {
      assert KnownBy(g, i, k);
      var k': nat :| KnownBy(g, i, k') && Meaning(g, i) == Table(g, k')[i];
      if k <= k' { TableMonotone(g, k, k'); } else { TableMonotone(g, k', k); }
    }
  }

  /** One round number at which every dependency that has a value already shows it. */
  lemma {:induction false} CommonRound<K, V, E>(g: Dag<K, V, E>, deps: seq<nat>) returns (k: nat)
    requires AllDefined(Meanings(g), deps)
    ensures AllDefined(Table(g, k), deps)
    ensures forall p :: 0 <= p < |deps| ==> Table(g, k)[deps[p]] == Meanings(g)[deps[p]]
  {
    if deps == [] {
      k := 0;
    } else {
      var last := deps[|deps| - 1];
      assert AllDefined(Meanings(g), deps[..|deps| - 1]);
      var k0 := CommonRound(g, deps[..|deps| - 1]);
      assert Meanings(g)[last].Defined?;
      var k1: nat :| KnownBy(g, last, k1) && Meaning(g, last) == Table(g, k1)[last];
      k := if k0 <= k1 then k1 else k0;
      TableMonotone(g, k0, k);
      TableMonotone(g, k1, k);
      forall p | 0 <= p < |deps|
        ensures Table(g, k)[deps[p]] == Meanings(g)[deps[p]]
      {
        if p < |deps| - 1 { assert deps[p] == deps[..|deps| - 1][p]; }
      }
    }
  }

  /** The meaning is a fixed point of evaluation: a source means its value, a task means
    * whatever its function makes of the meanings of its dependencies. */
  lemma MeaningFixedPoint<K, V, E>(g: Dag<K, V, E>, i: nat)
    requires i < |g.nodes|
    ensures Meaning(g, i) == Step(g, Meanings(g), i)
  {
    if Meaning(g, i) != Undefined {
      var k: nat :| KnownBy(g, i, k) && Meaning(g, i) == Table(g, k)[i];
      TableBelowMeaning(g, k - 1);
      StepMonotone(g, Table(g, k - 1), Meanings(g), i);
    } else if Step(g, Meanings(g), i) != Undefined {
      if g.nodes[i].kind.Task? {
        var k := CommonRound(g, g.nodes[i].deps);
        assert Gather(Table(g, k), g.nodes[i].deps) == Gather(Meanings(g), g.nodes[i].deps);
        assert KnownBy(g, i, k + 1);
      } else {
        assert KnownBy(g, i, 1);
      }
      assert false;
    }
  }

  /** The same without the evaluation step: with an argument for each dependency position, in
    * order, a task means what its function returns. */
  lemma MeaningApplies<K, V, E>(g: Dag<K, V, E>, i: nat, args: seq<V>)
    requires g.HasTask(i) && |args| == |g.nodes[i].deps|
    requires forall p :: 0 <= p < |args| ==>
               g.nodes[i].deps[p] < |g.nodes| && Meaning(g, g.nodes[i].deps[p]) == Defined(args[p])
    ensures match g.nodes[i].kind.func(args)
            case Success(v) => Meaning(g, i) == Defined(v)
            case Failure(e) => Meaning(g, i) == Fails(e)
  {
    MeaningFixedPoint(g, i);
    assert Gather(Meanings(g), g.nodes[i].deps) == args;
  }

  lemma SourceHasNoDeps<K, V, E>(g: Dag<K, V, E>, i: nat)
    requires g.Valid() && i < |g.nodes| && g.nodes[i].kind.Source?
    ensures g.nodes[i].deps == []
  {
  }

  // ---------------------------------------------------------------------------------------
  // Paths, needed nodes, cycles
  // ---------------------------------------------------------------------------------------

  /** A path follows dependencies: each node after the first is a dependency of the one
    * before it. */
  ghost predicate IsPath<K, V, E>(g: Dag<K, V, E>, p: seq<nat>) {
    && |p| > 0
    && (forall j :: 0 <= j < |p| ==> p[j] < |g.nodes|)
    && (forall j :: 0 < j < |p| ==> p[j] in g.nodes[p[j - 1]].deps)
  }

  ghost predicate PathBetween<K, V, E>(g: Dag<K, V, E>, p: seq<nat>, i: nat, j: nat) {
    IsPath(g, p) && p[0] == i && p[|p| - 1] == j
  }

  ghost predicate Reaches<K, V, E>(g: Dag<K, V, E>, i: nat, j: nat) {
    exists p :: PathBetween(g, p, i, j)
  }

  /** i depends on j through at least one dependency edge. */
  ghost predicate DependsOn<K, V, E>(g: Dag<K, V, E>, i: nat, j: nat) {
    exists p :: PathBetween(g, p, i, j) && |p| >= 2
  }

  ghost predicate ReachesCycle<K, V, E>(g: Dag<K, V, E>, i: nat) {
    exists x :: Reaches(g, i, x) && DependsOn(g, x, x)
  }

  ghost predicate Incomparable<K, V, E>(g: Dag<K, V, E>, s: set<nat>) {
    forall i, j :: i in s && j in s ==> !DependsOn(g, i, j)
  }

  ghost predicate ClosedUnderDeps<K, V, E>(g: Dag<K, V, E>, s: set<nat>) {
    forall i, p :: i in s && i < |g.nodes| && 0 <= p < |g.nodes[i].deps| ==> g.nodes[i].deps[p] in s
  }

  /** The nodes a request for `roots` needs: everything reachable through dependencies. */
  ghost function NeededFrom<K, V, E>(g: Dag<K, V, E>, roots: set<nat>): set<nat> {
    set i | i in UpTo(|g.nodes|) && NeededBy(g, roots, i)
  }

  ghost predicate NeededBy<K, V, E>(g: Dag<K, V, E>, roots: set<nat>, i: nat) {
    exists r :: r in roots && Reaches(g, r, i)
  }

  /** All node ids of a graph with n nodes. */
  ghost function UpTo(n: nat): (s: set<nat>)
    ensures forall i: nat :: i in s <==> i < n
    ensures |s| == n
  {
    if n == 0 then {} else UpTo(n - 1) + {n - 1}
  }

  lemma {:induction false} PathStaysInside<K, V, E>(g: Dag<K, V, E>, s: set<nat>, p: seq<nat>)
    requires IsPath(g, p) && p[0] in s && ClosedUnderDeps(g, s)
    ensures forall j :: 0 <= j < |p| ==> p[j] in s
  {
    if |p| > 1 {
      var q := p[..|p| - 1];
      PathStaysInside(g, s, q);
      var i, d := p[|p| - 2], p[|p| - 1];
      assert i == q[|q| - 1];
      assert d in g.nodes[i].deps;
      var x :| 0 <= x < |g.nodes[i].deps| && g.nodes[i].deps[x] == d;
    }
  }

  /** Nothing outside a dependency-closed set is reached from inside it. */
  lemma ReachStaysInside<K, V, E>(g: Dag<K, V, E>, s: set<nat>, i: nat, j: nat)
    requires Reaches(g, i, j) && i in s && ClosedUnderDeps(g, s)
    ensures j in s
  {
    var p :| PathBetween(g, p, i, j);
    PathStaysInside(g, s, p);
  }

  /** A strict dependency starts with one of the node's own dependency edges. */
  lemma FirstEdge<K, V, E>(g: Dag<K, V, E>, i: nat, j: nat) returns (d: nat)
    requires DependsOn(g, i, j)
    ensures i < |g.nodes| && d in g.nodes[i].deps && Reaches(g, d, j)
  {
    var p :| PathBetween(g, p, i, j) && |p| >= 2;
    d := p[1];
    assert p[1] in g.nodes[p[1 - 1]].deps;
    assert PathBetween(g, p[1..], d, j);
  }

  lemma ReachesSelf<K, V, E>(g: Dag<K, V, E>, i: nat)
    requires i < |g.nodes|
    ensures Reaches(g, i, i)
  {
    assert PathBetween(g, [i], i, i);
  }

  lemma ReachesStep<K, V, E>(g: Dag<K, V, E>, i: nat, j: nat, d: nat)
    requires Reaches(g, i, j) && j < |g.nodes| && d in g.nodes[j].deps && d < |g.nodes|
    ensures Reaches(g, i, d)
  {
    var p :| PathBetween(g, p, i, j);
    assert PathBetween(g, p + [d], i, d);
  }

  /** A node that has an outcome cannot reach a cycle: outcomes appear strictly later than
    * those of the dependencies, so a cycle would have to be known before it is known. */
  lemma {:induction false} KnownNotBehindCycle<K, V, E>(g: Dag<K, V, E>, i: nat, x: nat, k: nat)
    requires g.Valid() && i < |g.nodes| && KnownBy(g, i, k)
    requires Reaches(g, i, x) && DependsOn(g, x, x)
    ensures false
    decreases k
  {
    var p :| PathBetween(g, p, i, x);
    var d: nat;
    if |p| == 1 {
      d := FirstEdge(g, x, x);
    } else {
      assert PathBetween(g, p, i, x) && |p| >= 2;
      d := FirstEdge(g, i, x);
    }
    var at :| 0 <= at < |g.nodes[i].deps| && g.nodes[i].deps[at] == d;
    assert Table(g, k - 1)[g.nodes[i].deps[at]].Defined?;
    KnownNotBehindCycle(g, d, x, k - 1);
  }

  /** From a node without outcome, when no task in sight fails, walk to a dependency without
    * outcome. The walk never leaves a finite graph, so it closes a cycle. */
  lemma {:induction false} WalkToCycle<K, V, E>(g: Dag<K, V, E>, s: set<nat>, walk: seq<nat>)
    requires g.Valid() && IsPath(g, walk) && ClosedUnderDeps(g, s)
    requires forall j :: 0 <= j < |walk| ==> walk[j] in s && Meaning(g, walk[j]).Undefined?
    requires forall a, b :: 0 <= a < b < |walk| ==> walk[a] != walk[b]
    requires forall i :: i in s ==> i < |g.nodes| && !Meaning(g, i).Fails?
    ensures ReachesCycle(g, walk[0])
    decreases |g.nodes| - |walk|
  {
    DistinctBelow(walk, |g.nodes|);
    var i := walk[|walk| - 1];
    MeaningFixedPoint(g, i);
    var at :| 0 <= at < |g.nodes[i].deps| && !Meanings(g)[g.nodes[i].deps[at]].Defined?;
    var d := g.nodes[i].deps[at];
    if d in walk {
      var a :| 0 <= a < |walk| && walk[a] == d;
      BackEdgeClosesCycle(g, walk, a);
    } else {
      assert d in s && Meaning(g, d).Undefined?;
      assert IsPath(g, walk + [d]);
      DistinctBelow(walk + [d], |g.nodes|);
      WalkToCycle(g, s, walk + [d]);
    }
  }

  lemma BackEdgeClosesCycle<K, V, E>(g: Dag<K, V, E>, walk: seq<nat>, a: nat)
    requires IsPath(g, walk) && a < |walk| && walk[a] in g.nodes[walk[|walk| - 1]].deps
    ensures ReachesCycle(g, walk[0])
  {
    var d, loop := walk[a], walk[a..] + [walk[a]];
    assert PathBetween(g, walk[..a + 1], walk[0], d);
    assert PathBetween(g, loop, d, d) && |loop| >= 2;
    assert Reaches(g, walk[0], d) && DependsOn(g, d, d);
  }

  lemma {:induction false} DistinctBelow(s: seq<nat>, n: nat)
    requires forall j :: 0 <= j < |s| ==> s[j] < n
    requires forall a, b :: 0 <= a < b < |s| ==> s[a] != s[b]
    ensures |s| <= n
  {
    var values := set j | 0 <= j < |s| :: s[j];
    DistinctCount(s);
    SubsetSize(values, UpTo(n));
  }

  lemma {:induction false} DistinctCount(s: seq<nat>)
    requires forall a, b :: 0 <= a < b < |s| ==> s[a] != s[b]
    ensures |set j | 0 <= j < |s| :: s[j]| == |s|
  {
    if s != [] {
      var q := s[..|s| - 1];
      DistinctCount(q);
      var small, all := set j | 0 <= j < |q| :: q[j], set j | 0 <= j < |s| :: s[j];
      assert all == small + {s[|s| - 1]} by {
        forall x | x in small ensures x in all {
          var j :| 0 <= j < |q| && q[j] == x;
          assert s[j] == x;
        }
        forall x | x in all ensures x in small + {s[|s| - 1]} {
          var j :| 0 <= j < |s| && s[j] == x;
          if j < |q| { assert q[j] == x; }
        }
      }
    }
  }

  lemma {:induction false} SubsetSize<T>(a: set<T>, b: set<T>)
    requires a <= b
    ensures |a| <= |b|
    ensures |a| == |b| ==> a == b
  {
    if a != {} {
      var x :| x in a;
      SubsetSize(a - {x}, b - {x});
    }
  }

  /** Where no task fails, the nodes without a value are exactly those that reach a cycle
    * through their dependencies. */
  lemma UndefinedIffReachesCycle<K, V, E>(g: Dag<K, V, E>, s: set<nat>, i: nat)
    requires g.Valid() && i in s && ClosedUnderDeps(g, s)
    requires forall j :: j in s ==> j < |g.nodes| && !Meaning(g, j).Fails?
    ensures Meaning(g, i).Undefined? <==> ReachesCycle(g, i)
  {
    if Meaning(g, i).Undefined? {
      WalkToCycle(g, s, [i]);
    } else if ReachesCycle(g, i) {
      var x :| Reaches(g, i, x) && DependsOn(g, x, x);
      var k: nat :| KnownBy(g, i, k);
      KnownNotBehindCycle(g, i, x, k);
    }
  }

  /** Whatever a needed node depends on is needed too. */
  lemma NeededIsClosed<K, V, E>(g: Dag<K, V, E>, roots: set<nat>)
    requires g.Valid()
    ensures ClosedUnderDeps(g, NeededFrom(g, roots))
  {
    var s := NeededFrom(g, roots);
    forall i, p | i in s && 0 <= p < |g.nodes[i].deps|
      ensures g.nodes[i].deps[p] in s
    {
      var r :| r in roots && Reaches(g, r, i);
      ReachesStep(g, r, i, g.nodes[i].deps[p]);
    }
  }
}
