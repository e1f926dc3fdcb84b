/** Graphs described key by key: what a build leaves behind, what a keyed node means, which
  * keys a request needs, and how many calls its run makes. */
module KeyedGraph {
  import opened Wrappers
  import opened Graph
  import opened Builder
  import opened Outcomes
  import opened Calls
  import opened Common
  import opened Schedule
  import opened Sequential
  import opened Parallel
  import opened Executors

  /** The node each key stands for. */
  type Plan<!K, !V, !E> = K -> StagedNode<K, V, E>

  /** Exactly the keys of `keys` have been added, each with its planned node. */
  ghost predicate Staged<K, V, E>(staging: seq<StagedNode<K, V, E>>, keys: set<K>, plan: Plan<K, V, E>) {
    && (forall a :: 0 <= a < |staging| ==> staging[a].key in keys && staging[a] == plan(staging[a].key))
    && (forall k :: k in keys ==> Known(staging, k))
  }

  lemma StagedAdd<K, V, E>(staging: seq<StagedNode<K, V, E>>, keys: set<K>, plan: Plan<K, V, E>, k: K)
    requires Staged(staging, keys, plan) && k !in keys && plan(k).key == k
    ensures !Known(staging, k)
    ensures Staged(staging + [plan(k)], keys + {k}, plan)
  {
    var after := staging + [plan(k)];
    assert after[|staging|].key == k;
    forall k' | k' in keys
      ensures Known(after, k')
    {
      var i :| 0 <= i < |staging| && staging[i].key == k';
      assert after[i].key == k';
    }
  }

  ghost predicate ClosedKeys<K, V, E>(plan: Plan<K, V, E>, keys: set<K>) {
    forall k, p :: k in keys && 0 <= p < |plan(k).deps| ==> plan(k).deps[p] in keys
  }

  /** The graph holds exactly the planned nodes of `keys`. */
  ghost predicate Planned<K, V, E>(g: Dag<K, V, E>, keys: set<K>, plan: Plan<K, V, E>) {
    && g.Valid() && g.index.Keys == keys
    && forall i :: 0 <= i < |g.nodes| ==> PlannedNode(g, plan, i)
  }

  ghost predicate PlannedNode<K, V, E>(g: Dag<K, V, E>, plan: Plan<K, V, E>, i: nat) {
    && i < |g.nodes|
    && var node, want := g.nodes[i], plan(g.nodes[i].key);
    && node.kind == want.kind && |node.deps| == |want.deps|
    && forall p :: 0 <= p < |node.deps| ==> node.deps[p] < |g.nodes| && g.nodes[node.deps[p]].key == want.deps[p]
  }

  lemma NothingDangles<K, V, E>(staging: seq<StagedNode<K, V, E>>, keys: set<K>, plan: Plan<K, V, E>)
    requires Staged(staging, keys, plan) && ClosedKeys(plan, keys)
    ensures forall i: nat, p: nat :: !Dangling(staging, i, p)
  {
    forall i: nat, p: nat | i < |staging| && p < |staging[i].deps|
      ensures Known(staging, staging[i].deps[p])
    {
      assert plan(staging[i].key).deps[p] in keys;
    }
  }

  lemma MissingDangles<K, V, E>(staging: seq<StagedNode<K, V, E>>, keys: set<K>, plan: Plan<K, V, E>, k: K, p: nat)
    requires Staged(staging, keys, plan) && k in keys && p < |plan(k).deps| && plan(k).deps[p] !in keys
    ensures exists i: nat :: Dangling(staging, i, p)
  {
    var i :| 0 <= i < |staging| && staging[i].key == k;
    assert Dangling(staging, i, p);
  }

  lemma CompiledAsPlanned<K, V, E>(staging: seq<StagedNode<K, V, E>>, g: Dag<K, V, E>, keys: set<K>,
                                   plan: Plan<K, V, E>)
    requires Staged(staging, keys, plan) && Compiled(staging, g) && g.Valid()
    ensures Planned(g, keys, plan)
  {
    forall k | k in keys
      ensures k in g.index
    {
      var i :| 0 <= i < |staging| && staging[i].key == k;
    }
    forall i | 0 <= i < |g.nodes|
      ensures PlannedNode(g, plan, i)
    {
      assert NodeMatches(staging, i, g.nodes[i]);
      forall p | 0 <= p < |g.nodes[i].deps|
        ensures g.nodes[g.nodes[i].deps[p]].key == plan(g.nodes[i].key).deps[p]
      {
        assert NodeMatches(staging, g.nodes[i].deps[p], g.nodes[g.nodes[i].deps[p]]);
      }
    }
  }

  /** The position of a key, and of each of its dependencies. */
  lemma KeyedNode<K, V, E>(g: Dag<K, V, E>, keys: set<K>, plan: Plan<K, V, E>, k: K)
    requires Planned(g, keys, plan) && k in keys
    ensures k in g.index && g.index[k] < |g.nodes|
    ensures var node := g.nodes[g.index[k]];
            && node.key == k && node.kind == plan(k).kind && |node.deps| == |plan(k).deps|
            && forall p :: 0 <= p < |node.deps| ==>
                 plan(k).deps[p] in keys && plan(k).deps[p] in g.index && node.deps[p] == g.index[plan(k).deps[p]]
  {
    assert PlannedNode(g, plan, g.index[k]);
  }

  ghost predicate Means<K, V, E>(g: Dag<K, V, E>, k: K, v: V) {
    k in g.index && g.index[k] < |g.nodes| && Meaning(g, g.index[k]) == Defined(v)
  }

  lemma SourceMeans<K, V, E>(g: Dag<K, V, E>, keys: set<K>, plan: Plan<K, V, E>, k: K, v: V)
    requires Planned(g, keys, plan) && k in keys && plan(k).kind == Source(v)
    ensures Means(g, k, v)
  {
    KeyedNode(g, keys, plan, k);
    MeaningFixedPoint(g, g.index[k]);
  }

  lemma TaskMeans<K, V, E>(g: Dag<K, V, E>, keys: set<K>, plan: Plan<K, V, E>, k: K, args: seq<V>, v: V)
    requires Planned(g, keys, plan) && k in keys && |args| == |plan(k).deps|
    requires forall p :: 0 <= p < |args| ==> Means(g, plan(k).deps[p], args[p])
    requires plan(k).kind.Task? && plan(k).kind.func(args) == Success(v)
    ensures Means(g, k, v)
  {
    KeyedNode(g, keys, plan, k);
    MeaningFixedPoint(g, g.index[k]);
    var deps := g.nodes[g.index[k]].deps;
    forall p | 0 <= p < |deps|
      ensures deps[p] < |g.nodes| && Meanings(g)[deps[p]] == Defined(args[p])
    {
      assert Means(g, plan(k).deps[p], args[p]);
    }
    assert AllDefined(Meanings(g), deps);
    assert Gather(Meanings(g), deps) == args;
  }

  // ---------------------------------------------------------------------------------------
  // Needed keys
  // ---------------------------------------------------------------------------------------

  ghost function IdsOf<K, V, E>(g: Dag<K, V, E>, s: set<K>): set<nat> {
    set k | k in s && k in g.index :: g.index[k]
  }

  lemma {:induction false} IdsOfSize<K, V, E>(g: Dag<K, V, E>, s: set<K>)
    requires g.Valid() && s <= g.index.Keys
    ensures |IdsOf(g, s)| == |s|
  {
    if s != {} {
      var k :| k in s;
      IdsOfSize(g, s - {k});
      assert IdsOf(g, s) == IdsOf(g, s - {k}) + {g.index[k]};
    } else {
      assert IdsOf(g, s) == {};
    }
  }

  /** Node k is reached from some requested key. */
  ghost predicate KeyNeeded<K, V, E>(g: Dag<K, V, E>, roots: seq<K>, k: K) {
    k in g.index && g.index[k] in Requested(g, roots)
  }

  lemma RootNeeded<K, V, E>(g: Dag<K, V, E>, keys: set<K>, plan: Plan<K, V, E>, roots: seq<K>, j: nat)
    requires Planned(g, keys, plan) && j < |roots| && roots[j] in keys
    ensures KeyNeeded(g, roots, roots[j])
  {
    var i := g.index[roots[j]];
    assert i in Roots(g, roots);
    ReachesSelf(g, i);
  }

  lemma DepNeeded<K, V, E>(g: Dag<K, V, E>, keys: set<K>, plan: Plan<K, V, E>, roots: seq<K>, k: K, p: nat)
    requires Planned(g, keys, plan) && KeyNeeded(g, roots, k) && p < |plan(k).deps|
    ensures KeyNeeded(g, roots, plan(k).deps[p])
  {
    KeyedNode(g, keys, plan, k);
    NeededIsClosed(g, Roots(g, roots));
  }

  /** Only keys of the graph are needed. */
  lemma NeededAreKeys<K, V, E>(g: Dag<K, V, E>, keys: set<K>, plan: Plan<K, V, E>, roots: seq<K>, s: set<K>)
    requires Planned(g, keys, plan) && forall k :: k in s ==> KeyNeeded(g, roots, k)
    ensures s <= keys
  {
  }

  /** A dependency-closed set of keys that contains the request and is needed throughout is
    * the needed set. */
  lemma NeededKeys<K, V, E>(g: Dag<K, V, E>, keys: set<K>, plan: Plan<K, V, E>, roots: seq<K>, s: set<K>)
    requires Planned(g, keys, plan) && s <= keys && ClosedKeys(plan, s)
    requires forall j :: 0 <= j < |roots| ==> roots[j] in s
    requires forall k :: k in s ==> KeyNeeded(g, roots, k)
    ensures Requested(g, roots) == IdsOf(g, s)
  {
    var ids := IdsOf(g, s);
    forall i, p | i in ids && i < |g.nodes| && 0 <= p < |g.nodes[i].deps|
      ensures g.nodes[i].deps[p] in ids
    {
      var k := g.nodes[i].key;
      KeyedNode(g, keys, plan, k);
      assert plan(k).deps[p] in s;
    }
    assert ClosedUnderDeps(g, ids);
    forall i | i in Requested(g, roots)
      ensures i in ids
    {
      var r :| r in Roots(g, roots) && Reaches(g, r, i);
      ReachStaysInside(g, ids, r, i);
    }
  }

  // ---------------------------------------------------------------------------------------
  // Runs
  // ---------------------------------------------------------------------------------------

  /** Every node of the graph has a value. */
  ghost predicate AllMean<K, V, E>(g: Dag<K, V, E>) {
    forall i: nat :: i < |g.nodes| ==> Meaning(g, i).Defined?
  }

  lemma EveryKeyMeans<K, V, E>(g: Dag<K, V, E>, keys: set<K>, plan: Plan<K, V, E>)
    requires Planned(g, keys, plan) && forall k :: k in keys ==> exists v :: Means(g, k, v)
    ensures AllMean(g)
  {
    forall i: nat | i < |g.nodes|
      ensures Meaning(g, i).Defined?
    {
      var k := g.nodes[i].key;
      assert k in keys;
      var v :| Means(g, k, v);
    }
  }

  lemma AllMeanIsQuiet<K, V, E>(g: Dag<K, V, E>, roots: seq<K>)
    requires g.Valid() && AllMean(g)
    ensures !SomeTaskFails(g, Requested(g, roots)) && !SomeCycle(g, Requested(g, roots))
  {
    var nd := Requested(g, roots);
    NeededIsClosed(g, Roots(g, roots));
    forall j | j in nd
      ensures !ReachesCycle(g, j)
    {
      UndefinedIffReachesCycle(g, nd, j);
    }
  }

  /** Where every node has a value, a parallel run answers every requested key, unless it ends
    * with the early exit. */
  lemma RequestAnswered<K, V, E>(g: Dag<K, V, E>, cfg: ExecutorConfig, roots: seq<K>,
                                 run: Result<Artifacts<V>, ExecError<K, E>>, r: Result<map<K, V>, ExecError<K, E>>)
    requires g.Valid() && AllMean(g) && Accepted(cfg) && roots != [] && FirstUnknown(g, roots).None?
    requires ParallelOutcome(g, cfg, roots, run) && Delivers(g, roots, run, r)
    ensures r.Success? <==> !EarlyExit(g, Requested(g, roots), cfg.maxInFlight)
    ensures if r.Success? then IsAnswer(g, roots, r.value) else r == Failure(Cycle([]))
  {
    hide AllMean, IsAnswer, EarlyExit, Requested;
    AllMeanIsQuiet(g, roots);
  }

  /** ... and the sequential run answers them always. */
  lemma SequentialAnswered<K, V, E>(g: Dag<K, V, E>, roots: seq<K>, run: Result<Artifacts<V>, ExecError<K, E>>,
                                    r: Result<map<K, V>, ExecError<K, E>>)
    requires g.Valid() && AllMean(g) && roots != [] && FirstUnknown(g, roots).None?
    requires SequentialOutcome(g, roots, run) && Delivers(g, roots, run, r)
    ensures r.Success? && IsAnswer(g, roots, r.value)
  {
    hide AllMean, IsAnswer, Requested;
    AllMeanIsQuiet(g, roots);
  }

  /** A requested key with dependencies rules the early exit out. */
  lemma DepsPreventEarlyExit<K, V, E>(g: Dag<K, V, E>, keys: set<K>, plan: Plan<K, V, E>, roots: seq<K>, j: nat,
                                      maxInFlight: nat)
    requires Planned(g, keys, plan) && j < |roots| && roots[j] in keys && plan(roots[j]).deps != []
    ensures !EarlyExit(g, Requested(g, roots), maxInFlight)
  {
    RootNeeded(g, keys, plan, roots, j);
    KeyedNode(g, keys, plan, roots[j]);
  }

  lemma AnswerOf<K, V, E>(g: Dag<K, V, E>, roots: seq<K>, outputs: map<K, V>, j: nat, v: V)
    requires IsAnswer(g, roots, outputs) && j < |roots| && Means(g, roots[j], v)
    ensures roots[j] in outputs && outputs[roots[j]] == v
  {
    assert roots[j] in KeySet(roots);
  }

  lemma SingleAnswer<K, V, E>(g: Dag<K, V, E>, key: K, v: V, outputs: map<K, V>)
    requires IsAnswer(g, [key], outputs) && Means(g, key, v)
    ensures outputs == map[key := v]
  {
    var keys := [key];
    assert keys[0] == key && KeySet(keys) == {key};
  }

  /** Calls in one thread's log that evaluate a node of `ids`. */
  ghost function CallCount<V, E>(ts: seq<Task<V, E>>, ids: set<nat>): nat {
    if ts == [] then 0
    else CallCount(ts[..|ts| - 1], ids) + (if ts[|ts| - 1].id in ids then 1 else 0)
  }

  ghost function TotalCalls<V, E>(log: seq<seq<Task<V, E>>>, ids: set<nat>): nat {
    if log == [] then 0
    else TotalCalls(log[..|log| - 1], ids) + CallCount(log[|log| - 1], ids)
  }

  /** Where log w holds calls of nodes of `ids`, up to entry n. */
  ghost function Positions<V, E>(ts: seq<Task<V, E>>, ids: set<nat>, w: nat, n: nat): set<(nat, nat)>
    requires n <= |ts|
  {
    set j: nat | j < n && ts[j].id in ids :: (w, j)
  }

  ghost function AllPositions<V, E>(log: seq<seq<Task<V, E>>>, ids: set<nat>, n: nat): set<(nat, nat)>
    requires n <= |log|
  {
    set w: nat, j: nat | w < n && j < |log[w]| && log[w][j].id in ids :: (w, j)
  }

  lemma {:induction false} CallCountIsPositions<V, E>(ts: seq<Task<V, E>>, ids: set<nat>, w: nat, n: nat)
    requires n <= |ts|
    ensures CallCount(ts[..n], ids) == |Positions(ts, ids, w, n)|
  {
    if n == 0 {
      assert Positions(ts, ids, w, 0) == {};
    } else {
      CallCountIsPositions(ts, ids, w, n - 1);
      assert ts[..n][..n - 1] == ts[..n - 1];
      if ts[n - 1].id in ids {
        assert Positions(ts, ids, w, n) == Positions(ts, ids, w, n - 1) + {(w, n - 1)};
      } else {
        assert Positions(ts, ids, w, n) == Positions(ts, ids, w, n - 1);
      }
    }
  }

  /** The total is the number of log entries that are calls of nodes of `ids`. */
  lemma {:induction false} TotalIsPositions<V, E>(log: seq<seq<Task<V, E>>>, ids: set<nat>, n: nat)
    requires n <= |log|
    ensures TotalCalls(log[..n], ids) == |AllPositions(log, ids, n)|
  {
    if n == 0 {
      assert AllPositions(log, ids, 0) == {};
    } else {
      var last := log[n - 1];
      TotalIsPositions(log, ids, n - 1);
      CallCountIsPositions(last, ids, n - 1, |last|);
      assert log[..n][..n - 1] == log[..n - 1] && last[..|last|] == last;
      assert AllPositions(log, ids, n) == AllPositions(log, ids, n - 1) + Positions(last, ids, n - 1, |last|);
    }
  }

  lemma {:induction false} CallCountSplit<V, E>(ts: seq<Task<V, E>>, ids: set<nat>, i: nat)
    requires i in ids
    ensures CallCount(ts, ids) == CallCount(ts, ids - {i}) + TaskIds(ts)[i]
  {
    if ts != [] { CallCountSplit(ts[..|ts| - 1], ids, i); }
  }

  lemma {:induction false} TotalCallsSplit<V, E>(log: seq<seq<Task<V, E>>>, ids: set<nat>, i: nat)
    requires i in ids
    ensures TotalCalls(log, ids) == TotalCalls(log, ids - {i}) + AllIds(log)[i]
  {
    if log != [] {
      TotalCallsSplit(log[..|log| - 1], ids, i);
      CallCountSplit(log[|log| - 1], ids, i);
    }
  }

  lemma {:induction false} CallCountNone<V, E>(ts: seq<Task<V, E>>)
    ensures CallCount(ts, {}) == 0
  {
    if ts != [] { CallCountNone(ts[..|ts| - 1]); }
  }

  lemma {:induction false} TotalCallsNone<V, E>(log: seq<seq<Task<V, E>>>)
    ensures TotalCalls(log, {}) == 0
  {
    if log != [] {
      TotalCallsNone(log[..|log| - 1]);
      CallCountNone(log[|log| - 1]);
    }
  }

  /** A complete run makes one call for every needed task among `ids` and none for the rest. */
  lemma {:induction false} CallsOfNeeded<K, V, E>(g: Dag<K, V, E>, nd: set<nat>, log: seq<seq<Task<V, E>>>,
                                                  ids: set<nat>)
    requires CallsSpec(g, nd, log, true)
    requires forall i :: i in ids ==> g.HasTask(i) && Meaning(g, i) != Undefined
    ensures TotalCalls(log, ids) == |ids * nd|
  {
    if ids == {} {
      TotalCallsNone(log);
    } else {
      var i :| i in ids;
      CallsOfNeeded(g, nd, log, ids - {i});
      TotalCallsSplit(log, ids, i);
      if AllIds(log)[i] > 0 { CalledTaskIsLogged(log, i); }
      if i in nd {
        assert ids * nd == (ids - {i}) * nd + {i};
      } else {
        assert ids * nd == (ids - {i}) * nd;
      }
    }
  }

  lemma IdsOfMeet<K, V, E>(g: Dag<K, V, E>, a: set<K>, b: set<K>)
    requires g.Valid()
    ensures IdsOf(g, a) * IdsOf(g, b) == IdsOf(g, a * b)
  {
  }

  /** The same count by keys: the tasks of `a` that the request needs are called once each,
    * the other tasks of `a` are not called. */
  lemma CallsOfKeys<K, V, E>(g: Dag<K, V, E>, keys: set<K>, plan: Plan<K, V, E>, nd: set<nat>, s: set<K>,
                             log: seq<seq<Task<V, E>>>, a: set<K>)
    requires Planned(g, keys, plan) && AllMean(g) && nd == IdsOf(g, s) && a <= keys && s <= keys
    requires CallsSpec(g, nd, log, true) && forall k :: k in a ==> plan(k).kind.Task?
    ensures TotalCalls(log, IdsOf(g, a)) == |a * s|
  {
    hide CallsSpec, Planned;
    forall i | i in IdsOf(g, a)
      ensures g.HasTask(i) && Meaning(g, i) != Undefined
    {
      var k :| k in a && k in g.index && g.index[k] == i;
      KeyedNode(g, keys, plan, k);
    }
    CallsOfNeeded(g, nd, log, IdsOf(g, a));
    KeysIndexed(g, keys, plan);
    IdsOfMeet(g, a, s);
    IdsOfSize(g, a * s);
  }

  lemma KeysIndexed<K, V, E>(g: Dag<K, V, E>, keys: set<K>, plan: Plan<K, V, E>)
    requires Planned(g, keys, plan)
    ensures g.Valid() && g.index.Keys == keys
  {
  }
}
