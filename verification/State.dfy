/** The working state both executors keep in local variables: value table, in-degrees and the
  * FIFO of ready nodes, together with the observer they report to. */
module ExecState {
  import opened Wrappers
  import opened Graph
  import opened Kahn
  import opened Fifo
  import opened Outcomes
  import opened Common
  import opened Observer
  import opened Tracing

  /** j is no dependency-free node, or i is an earlier one. Nodes leave the ready queue in
    * this order: first the dependency-free ones by id, then the rest. */
  ghost predicate SeedBefore<K, V, E>(g: Dag<K, V, E>, i: nat, j: nat) {
    i < |g.nodes| && j < |g.nodes| && (g.nodes[j].deps == [] ==> g.nodes[i].deps == [] && i < j)
  }

  ghost predicate SeedOrder<K, V, E>(g: Dag<K, V, E>, needed: seq<bool>, indeg: seq<nat>, ready: seq<nat>) {
    && (forall a :: 0 <= a < |ready| ==> ready[a] < |g.nodes|)
    && (forall a, b :: 0 <= a < b < |ready| ==> SeedBefore(g, ready[a], ready[b]))
    && (forall i, b :: 0 <= i < |needed| == |indeg| && needed[i] && indeg[i] == 0 && i !in ready && 0 <= b < |ready| ==>
          SeedBefore(g, i, ready[b]))
  }

  /** In-degrees as far as the seeding loop has looked: 0 for the seeds among the first i
    * nodes, 1 elsewhere. */
  ghost function SeenSeeds(needed: seq<bool>, indeg: seq<nat>, i: nat): (m: seq<nat>)
    requires |needed| == |indeg|
    ensures |m| == |indeg|
  {
    seq(|indeg|, x requires 0 <= x < |indeg| => if x < i && needed[x] && indeg[x] == 0 then 0 else 1)
  }

  lemma SeedNext(needed: seq<bool>, indeg: seq<nat>, i: nat, ready: seq<nat>)
    requires i < |needed| == |indeg| && SeededTo(needed, indeg, i, ready)
    ensures SeededTo(needed, indeg, i + 1, if needed[i] && indeg[i] == 0 then ready + [i] else ready)
    ensures SeenSeeds(needed, indeg, i + 1) ==
            if needed[i] && indeg[i] == 0 then SeenSeeds(needed, indeg, i)[i := 0] else SeenSeeds(needed, indeg, i)
  {
  }

  /** Nodes without dependencies depend on nothing, so seeds are pairwise incomparable. */
  lemma SeedsAreAntichain<K, V, E>(g: Dag<K, V, E>, needed: seq<bool>, dependents: seq<seq<nat>>, indeg: seq<nat>,
                                   i: nat, ready: seq<nat>)
    requires IsMetadata(g, needed, dependents, indeg) && i <= |needed| && SeededTo(needed, indeg, i, ready)
    ensures forall a :: 0 <= a < |ready| ==> ready[a] < |g.nodes| && needed[ready[a]] && g.nodes[ready[a]].deps == []
    ensures AntichainOfSize(g, MaskSet(needed), |ready|)
  {
    var s := set j | 0 <= j < |ready| :: ready[j];
    DistinctCount(ready);
    forall a | 0 <= a < |ready|
      ensures ready[a] < |g.nodes| && needed[ready[a]] && g.nodes[ready[a]].deps == []
    {
      assert multiset(ready)[ready[a]] > 0;
    }
    forall x, y | x in s && y in s
      ensures !DependsOn(g, x, y)
    {
      if DependsOn(g, x, y) { var d := FirstEdge(g, x, y); assert false; }
    }
  }

  /** The observer only looks at which in-degrees are zero. */
  lemma SameZeros<K, V, E>(g: Dag<K, V, E>, needed: seq<bool>, vals: seq<Option<V>>, indeg: seq<nat>, indeg': seq<nat>,
                           waiting: multiset<nat>, parallel: bool, o: Record)
    requires TraceInv(g, needed, vals, indeg, waiting, {}, parallel, o) && |indeg'| == |indeg|
    requires forall i :: 0 <= i < |indeg| && needed[i] ==> (indeg[i] == 0 <==> indeg'[i] == 0)
    ensures TraceInv(g, needed, vals, indeg', waiting, {}, parallel, o)
  {
  }

  lemma BlankTrace<K, V, E>(g: Dag<K, V, E>, needed: seq<bool>, vals: seq<Option<V>>, indeg: seq<nat>, parallel: bool)
    requires |needed| == |indeg| == |g.nodes| && DoneSet(vals) == {}
    requires forall i :: 0 <= i < |indeg| ==> indeg[i] > 0
    ensures TraceInv(g, needed, vals, indeg, multiset{}, {}, parallel, Blank(|g.nodes|))
  {
    var none: set<nat> := {};
    assert none <= MaskSet(needed) && Incomparable(g, none) && |none| == 0;
  }

  lemma SeedsReady<K, V, E>(g: Dag<K, V, E>, needed: seq<bool>, dependents: seq<seq<nat>>, vals: seq<Option<V>>,
                            indeg: seq<nat>, ready: seq<nat>)
    requires g.Valid() && IsMetadata(g, needed, dependents, indeg) && ClosedUnderDeps(g, MaskSet(needed))
    requires |vals| == |g.nodes| && forall i :: 0 <= i < |vals| ==> vals[i].None?
    requires SeededTo(needed, indeg, |needed|, ready)
    ensures KahnInv(g, needed, vals, indeg, multiset(ready), multiset{})
    ensures SeedOrder(g, needed, indeg, ready)
  {
    SeedKeeps(g, needed, dependents, vals, indeg, multiset(ready));
    SeedsAreAntichain(g, needed, dependents, indeg, |needed|, ready);
    forall i | 0 <= i < |needed| && needed[i] && indeg[i] == 0
      ensures i in ready
    {
      assert multiset(ready)[i] == 1;
    }
  }

  // ---------------------------------------------------------------------------------------
  // The state as a value, and one lemma per scheduler action
  // ---------------------------------------------------------------------------------------

  /** `held` are nodes popped from the queue and not started, `running` those started and
    * without value; `owed` are decrements the release loop still has to apply; `unfinished`
    * are nodes whose value is written and whose finish mark is outstanding. */
  datatype Core<V> = Core(vals: seq<Option<V>>, indeg: seq<nat>, ready: seq<nat>, held: multiset<nat>,
                          running: multiset<nat>, owed: multiset<nat>, unfinished: set<nat>, log: Record)
  {
    ghost function Frontier(): multiset<nat> {
      multiset(ready) + held + running
    }

    /** No release loop under way, no finish mark outstanding. */
    ghost predicate Settled() {
      owed == multiset{} && unfinished == {}
    }
  }

  /** The invariant of the core state. The recorded frontier width is at least the length of the
    * queue at all times, and by the trace invariant it is the size of an antichain. */
  ghost predicate CoreInv<K, V, E>(g: Dag<K, V, E>, needed: seq<bool>, parallel: bool, c: Core<V>) {
    && KahnInv(g, needed, c.vals, c.indeg, c.Frontier(), c.owed)
    && TraceInv(g, needed, c.vals, c.indeg, multiset(c.ready) + c.held, c.unfinished, parallel, c.log)
    && SeedOrder(g, needed, c.indeg, c.ready)
    && |c.ready| <= c.log.width
  }

  lemma CoreShape<K, V, E>(g: Dag<K, V, E>, needed: seq<bool>, parallel: bool, c: Core<V>)
    requires CoreInv(g, needed, parallel, c)
    ensures g.Valid() && |needed| == |c.vals| == |c.indeg| == |g.nodes| && Sized(c.log, |g.nodes|)
  {
  }

  lemma CoreOpen<K, V, E>(g: Dag<K, V, E>, needed: seq<bool>, parallel: bool, c: Core<V>)
    requires CoreInv(g, needed, parallel, c)
    ensures forall i: nat :: c.Frontier()[i] <= 1
    ensures forall i: nat :: c.Frontier()[i] > 0 ==>
              i < |g.nodes| == |needed| == |c.indeg| == |c.vals| && needed[i] && c.indeg[i] == 0 && c.vals[i].None?
    ensures forall d :: d in DoneSet(c.vals) ==> d < |g.nodes| && c.Frontier()[d] == 0
  {
    WaitingIsOpen(g, needed, c);
  }

  lemma OpenNode<K, V, E>(g: Dag<K, V, E>, needed: seq<bool>, parallel: bool, c: Core<V>, id: nat)
    requires CoreInv(g, needed, parallel, c) && c.Frontier()[id] > 0
    ensures id < |c.vals| == |g.nodes| == |needed| && c.vals[id].None? && needed[id] && id !in DoneSet(c.vals)
  {
    CoreOpen(g, needed, parallel, c);
  }

  lemma DoneIsNeeded<K, V, E>(g: Dag<K, V, E>, needed: seq<bool>, parallel: bool, c: Core<V>)
    requires CoreInv(g, needed, parallel, c)
    ensures DoneSet(c.vals) <= MaskSet(needed)
  {
    FrontierFits(g, needed, c.vals, c.indeg, c.Frontier(), c.owed);
  }

  /** Values and frontier fit in the needed set; when the values alone fill it, all is done. */
  lemma CoreFits<K, V, E>(g: Dag<K, V, E>, needed: seq<bool>, parallel: bool, c: Core<V>)
    requires CoreInv(g, needed, parallel, c)
    ensures |DoneSet(c.vals)| + |c.Frontier()| <= |MaskSet(needed)|
    ensures |DoneSet(c.vals)| + |c.ready| + |c.held| + |c.running| <= |MaskSet(needed)|
  {
    FrontierFits(g, needed, c.vals, c.indeg, c.Frontier(), c.owed);
    hide KahnInv, TraceInv, SeedOrder, Dag.Valid;
    assert |c.Frontier()| == |multiset(c.ready)| + |c.held| + |c.running|;
  }

  /** The record of a run whose values fill the needed set. */
  lemma CoreComplete<K, V, E>(g: Dag<K, V, E>, needed: seq<bool>, parallel: bool, c: Core<V>)
    requires CoreInv(g, needed, parallel, c) && c.Settled() && |DoneSet(c.vals)| == |MaskSet(needed)|
    ensures c.vals == ValueTable(g, MaskSet(needed)) && c.Frontier() == multiset{}
    ensures !SomeTaskFails(g, MaskSet(needed)) && !SomeCycle(g, MaskSet(needed))
    ensures forall i :: 0 <= i < |needed| == |c.indeg| && needed[i] ==> c.indeg[i] == 0
    ensures FullRecord(g, MaskSet(needed), parallel, c.log)
  {
    CompleteExit(g, needed, c.vals, c.indeg, c.Frontier());
    FrontierFits(g, needed, c.vals, c.indeg, c.Frontier(), c.owed);
    assert multiset(c.ready) + c.held <= c.Frontier();
    hide KahnInv;
    CompleteRunRecords(g, needed, c.vals, c.indeg, multiset(c.ready) + c.held, parallel, c.log);
  }

  /** With nothing under way, every needed node that has an outcome is done. */
  lemma NothingLeft<K, V, E>(g: Dag<K, V, E>, needed: seq<bool>, parallel: bool, c: Core<V>)
    requires CoreInv(g, needed, parallel, c) && c.Settled() && c.Frontier() == multiset{}
    ensures DoneSet(c.vals) <= MaskSet(needed)
    ensures forall i :: i in MaskSet(needed) && i < |g.nodes| && Meaning(g, i) != Undefined ==> i in DoneSet(c.vals)
  {
    StuckTable(g, needed, c.vals, c.indeg);
    DoneIsNeeded(g, needed, parallel, c);
  }

  lemma CoreArguments<K, V, E>(g: Dag<K, V, E>, needed: seq<bool>, parallel: bool, c: Core<V>, id: nat)
    requires CoreInv(g, needed, parallel, c) && c.Frontier()[id] > 0
    ensures id < |g.nodes| && AllDefined(Meanings(g), g.nodes[id].deps)
    ensures forall p :: 0 <= p < |g.nodes[id].deps| ==>
              var d := g.nodes[id].deps[p];
              d < |c.vals| && d < |g.nodes| && c.vals[d].Some? && Meaning(g, d) == Defined(c.vals[d].value)
  {
    FrontierHasArguments(g, needed, c.vals, c.indeg, c.Frontier(), c.owed, id);
  }

  lemma PopOrder<K, V, E>(g: Dag<K, V, E>, needed: seq<bool>, indeg: seq<nat>, ready: seq<nat>)
    requires SeedOrder(g, needed, indeg, ready) && ready != []
    ensures SeedOrder(g, needed, indeg, ready[1..])
  {
    var rest := ready[1..];
    forall i, b | 0 <= i < |needed| == |indeg| && needed[i] && indeg[i] == 0 && i !in rest && 0 <= b < |rest|
      ensures SeedBefore(g, i, rest[b])
    {
      assert ready == [ready[0]] + rest;
      assert rest[b] == ready[b + 1];
      if i == ready[0] { assert SeedBefore(g, ready[0], ready[b + 1]); }
    }
  }

  lemma PopMoves<V>(c: Core<V>, c': Core<V>)
    requires c.ready != [] && c' == c.(ready := c.ready[1..], held := c.held + multiset{c.ready[0]})
    ensures c'.Frontier() == c.Frontier()
    ensures multiset(c'.ready) + c'.held == multiset(c.ready) + c.held
  {
    assert c.ready == [c.ready[0]] + c.ready[1..];
    assert multiset(c.ready) == multiset(c'.ready) + multiset{c.ready[0]};
  }

  lemma PopKeeps<K, V, E>(g: Dag<K, V, E>, needed: seq<bool>, parallel: bool, c: Core<V>, c': Core<V>)
    requires c.ready != [] && c' == c.(ready := c.ready[1..], held := c.held + multiset{c.ready[0]})
    requires CoreInv(g, needed, parallel, c)
    ensures CoreInv(g, needed, parallel, c')
  {
    hide KahnInv, TraceInv, SeedOrder, Dag.Valid;
    PopMoves(c, c');
    PopOrder(g, needed, c.indeg, c.ready);
  }

  lemma StartMoves<V>(c: Core<V>, c': Core<V>, id: nat)
    requires c.held[id] > 0 && c'.ready == c.ready
    requires c'.held == c.held - multiset{id} && c'.running == c.running + multiset{id}
    ensures c'.Frontier() == c.Frontier()
    ensures multiset(c'.ready) + c'.held == multiset(c.ready) + c.held - multiset{id}
  {
  }

  lemma StartKeepsWidth(o: Record, id: nat, worker: Option<nat>, t: nat)
    requires id < |o.startedAt| && id < |o.workerId|
    ensures OnStart(o, id, worker, t).width == o.width
  {
  }

  lemma StartKeepsCore<K, V, E>(g: Dag<K, V, E>, needed: seq<bool>, parallel: bool, c: Core<V>, c': Core<V>,
                                id: nat, worker: Option<nat>, t: nat)
    requires id < |c.log.startedAt| && id < |c.log.workerId| && id < |g.nodes| && t >= c.log.now
    requires c' == c.(held := c.held - multiset{id}, running := c.running + multiset{id},
                      log := OnStart(c.log, id, worker, t))
    requires CoreInv(g, needed, parallel, c) && c.Settled() && c.held[id] > 0
    requires worker.Some? <==> parallel && g.nodes[id].kind.Task?
    ensures CoreInv(g, needed, parallel, c')
  {
    hide KahnInv, TraceInv, SeedOrder, OnStart, Dag.Valid, DoneSet, MaskSet;
    CoreShape(g, needed, parallel, c);
    var waiting := multiset(c.ready) + c.held;
    StartMoves(c, c', id);
    StartKeepsWidth(c.log, id, worker, t);
    WaitingIsOpen(g, needed, c);
    FrontierHasArguments(g, needed, c.vals, c.indeg, c.Frontier(), c.owed, id);
    StartKeeps(g, needed, c.vals, c.indeg, waiting, parallel, c.log, id, worker, t);
  }

  /** Waiting nodes are released, valueless and unrepeated; done nodes do not wait. */
  lemma WaitingIsOpen<K, V, E>(g: Dag<K, V, E>, needed: seq<bool>, c: Core<V>)
    requires KahnInv(g, needed, c.vals, c.indeg, c.Frontier(), c.owed)
    ensures forall i: nat :: c.Frontier()[i] <= 1
    ensures forall i: nat :: c.Frontier()[i] > 0 ==> i < |g.nodes| && needed[i] && c.indeg[i] == 0 && c.vals[i].None?
    ensures forall d :: d in DoneSet(c.vals) ==> needed[d] && c.indeg[d] == 0 && c.Frontier()[d] == 0
  {
  }

  /** A node that waits to be started has neither start nor worker recorded. */
  lemma HeldHasNoWorker<K, V, E>(g: Dag<K, V, E>, needed: seq<bool>, parallel: bool, c: Core<V>, id: nat)
    requires CoreInv(g, needed, parallel, c) && c.held[id] > 0
    ensures id < |c.log.workerId| && c.log.workerId[id].None?
    ensures id < |c.log.startedAt| && c.log.startedAt[id].None?
  {
    CoreOpen(g, needed, parallel, c);
    assert c.Frontier()[id] > 0;
  }

  /** A node with a recorded worker is a task that runs or is done. */
  lemma RecordedIsPlaced<K, V, E>(g: Dag<K, V, E>, needed: seq<bool>, parallel: bool, c: Core<V>, i: nat)
    requires i < |c.log.workerId| && c.log.workerId[i].Some? && CoreInv(g, needed, parallel, c)
    ensures g.HasTask(i) && (i in DoneSet(c.vals) || c.running[i] > 0)
  {
    assert i in c.log.order;
    assert c.Frontier()[i] == if Open(needed, c.indeg, DoneSet(c.vals), i) then 1 else 0;
  }

  lemma StoreKeepsCore<K, V, E>(g: Dag<K, V, E>, needed: seq<bool>, parallel: bool, c: Core<V>, c': Core<V>,
                                id: nat, v: V)
    requires id < |c.vals| == |needed| == |g.nodes| && c.Settled() && c.running[id] > 0
    requires c'.vals == c.vals[id := Some(v)] && c'.running == c.running - multiset{id}
    requires c'.indeg == c.indeg && c'.ready == c.ready && c'.held == c.held && c'.log == c.log
    requires c'.unfinished == {id} ||
             (c'.unfinished == {} && id < |c.log.finishedAt| && c.log.finishedAt[id].Some?)
    requires Meaning(g, id) == Defined(v) && OwedFrom(g, needed, c'.owed, id)
    requires CoreInv(g, needed, parallel, c)
    ensures CoreInv(g, needed, parallel, c')
  {
    hide KahnInv, TraceInv, SeedOrder, OwedFrom, Dag.Valid;
    assert c'.Frontier() == c.Frontier() - multiset{id};
    StoreKeeps(g, needed, c.vals, c.indeg, c.Frontier(), c'.owed, id, v);
    StoreKeepsTrace(g, needed, c.vals, c.indeg, multiset(c.ready) + c.held, parallel, c.log, id, v, c'.unfinished);
  }

  lemma FinishKeepsCore<K, V, E>(g: Dag<K, V, E>, needed: seq<bool>, parallel: bool, c: Core<V>, c': Core<V>,
                                 id: nat, t: nat)
    requires id < |c.log.finishedAt| && t >= c.log.now
    requires c' == c.(unfinished := c.unfinished - {id}, log := OnFinish(c.log, id, t))
    requires CoreInv(g, needed, parallel, c)
    requires c.running[id] > 0 || id in DoneSet(c.vals)
    ensures CoreInv(g, needed, parallel, c')
    ensures c'.log.finishedAt[id].Some?
  {
    WaitingIsOpen(g, needed, c);
    hide KahnInv, SeedOrder;
    FinishKeeps(g, needed, c.vals, c.indeg, multiset(c.ready) + c.held, c.unfinished, parallel, c.log, id, t);
  }

  lemma OwedNode<K, V, E>(g: Dag<K, V, E>, needed: seq<bool>, parallel: bool, c: Core<V>, dst: nat)
    requires CoreInv(g, needed, parallel, c) && c.owed[dst] > 0
    ensures dst < |g.nodes| == |c.indeg| == |needed| && needed[dst] && c.indeg[dst] > 0 && dst < |c.log.readyAt|
    ensures g.nodes[dst].deps != []
  {
    ReleaseKeeps(g, needed, c.vals, c.indeg, c.Frontier(), c.owed, dst);
  }

  lemma ReleaseMoves<V>(c: Core<V>, c': Core<V>, dst: nat, t: nat)
    requires dst < |c.indeg| && c.indeg[dst] > 0 && dst < |c.log.readyAt| && c' == Released(c, dst, t)
    ensures c'.vals == c.vals && c'.indeg == c.indeg[dst := c.indeg[dst] - 1] && c'.owed == c.owed - multiset{dst}
    ensures c'.Frontier() == if c.indeg[dst] == 1 then c.Frontier() + multiset{dst} else c.Frontier()
    ensures c'.ready == if c.indeg[dst] == 1 then c.ready + [dst] else c.ready
    ensures |c.ready| <= c.log.width ==> |c'.ready| <= c'.log.width
  {
  }

  /** One pass of the release loop, with the ready mark when the count reaches zero. */
  lemma ReleaseKeepsCore<K, V, E>(g: Dag<K, V, E>, needed: seq<bool>, parallel: bool, c: Core<V>, c': Core<V>,
                                  dst: nat, t: nat)
    requires dst < |c.indeg| && c.indeg[dst] > 0 && dst < |c.log.readyAt| && t >= c.log.now
    requires c' == Released(c, dst, t) && c.owed[dst] > 0
    requires CoreInv(g, needed, parallel, c)
    ensures CoreInv(g, needed, parallel, c')
  {
    CoreShape(g, needed, parallel, c);
    OwedNode(g, needed, parallel, c, dst);
    hide KahnInv, TraceInv, SeedOrder, Released;
    ReleaseKeeps(g, needed, c.vals, c.indeg, c.Frontier(), c.owed, dst);
    ReleaseOrder(g, needed, c.indeg, c.ready, dst);
    ReleaseMoves(c, c', dst, t);
    ReleaseTrace(g, needed, parallel, c, c', dst, t);
  }

  /** The finish time of id is noted, at or after time t, unless it was noted before; that of the
    * other nodes is left alone. */
  ghost predicate FinishMark(before: seq<Option<nat>>, after: seq<Option<nat>>, id: nat, t: nat) {
    && id < |before| == |after| && after == before[id := after[id]] && after[id].Some?
    && if before[id].Some? then after[id] == before[id] else after[id].value >= t
  }

  /** The larger of the recorded width and the length of the queue. */
  ghost predicate WiderOf(width: nat, before: nat, length: nat) {
    width >= before && width >= length && (width == before || width == length)
  }

  lemma ReadyKeepsWorkers(o: Record, id: nat, width: nat, t: nat)
    requires id < |o.readyAt|
    ensures OnReady(o, id, width, t).workerId == o.workerId && OnReady(o, id, width, t).order == o.order
    ensures OnReady(o, id, width, t).finishedAt == o.finishedAt
    ensures WiderOf(OnReady(o, id, width, t).width, o.width, width)
  {
  }

  lemma ReleaseTrace<K, V, E>(g: Dag<K, V, E>, needed: seq<bool>, parallel: bool, c: Core<V>, c': Core<V>,
                              dst: nat, t: nat)
    requires dst < |c.indeg| == |needed| && c.indeg[dst] > 0 && dst < |c.log.readyAt| && t >= c.log.now
    requires c' == Released(c, dst, t) && needed[dst]
    requires TraceInv(g, needed, c.vals, c.indeg, multiset(c.ready) + c.held, c.unfinished, parallel, c.log)
    requires KahnInv(g, needed, c'.vals, c'.indeg, c'.Frontier(), c'.owed)
    ensures TraceInv(g, needed, c'.vals, c'.indeg, multiset(c'.ready) + c'.held, c'.unfinished, parallel, c'.log)
  {
    hide KahnInv, TraceInv;
    var waiting := multiset(c.ready) + c.held;
    if c.indeg[dst] == 1 {
      assert multiset(c'.ready) + c'.held == waiting + multiset{dst};
      ReadyIsAntichain(g, needed, c'.vals, c'.indeg, c'.Frontier(), c'.owed, c'.ready);
      ReadyKeeps(g, needed, c.vals, c.indeg, c'.indeg, waiting, c.unfinished, parallel, c.log, dst, |c'.ready|, t);
    } else {
      DecrementKeeps(g, needed, c.vals, c.indeg, c'.indeg, waiting, c.unfinished, parallel, c.log, dst);
    }
  }

  function Released<V>(c: Core<V>, dst: nat, t: nat): Core<V>
    requires dst < |c.indeg| && c.indeg[dst] > 0 && dst < |c.log.readyAt|
  {
    var c0 := c.(indeg := c.indeg[dst := c.indeg[dst] - 1], owed := c.owed - multiset{dst});
    if c.indeg[dst] == 1 then c0.(ready := c.ready + [dst], log := OnReady(c.log, dst, |c.ready| + 1, t)) else c0
  }

  lemma ReleaseOrder<K, V, E>(g: Dag<K, V, E>, needed: seq<bool>, indeg: seq<nat>, ready: seq<nat>, dst: nat)
    requires SeedOrder(g, needed, indeg, ready) && |needed| == |indeg| == |g.nodes|
    requires dst < |indeg| && indeg[dst] > 0 && g.nodes[dst].deps != []
    ensures SeedOrder(g, needed, indeg[dst := indeg[dst] - 1], if indeg[dst] == 1 then ready + [dst] else ready)
  {
  }

  lemma SeedOne<K, V, E>(g: Dag<K, V, E>, needed: seq<bool>, dependents: seq<seq<nat>>, vals: seq<Option<V>>,
                         indeg: seq<nat>, parallel: bool, i: nat, queue: seq<nat>, log: Record, log': Record)
    requires i < |needed| == |indeg| && i < |log.readyAt| && needed[i] && indeg[i] == 0 && log'.now >= log.now
    requires log' == OnReady(log, i, |queue| + 1, log'.now)
    requires SeededTo(needed, indeg, i + 1, queue + [i])
    requires IsMetadata(g, needed, dependents, indeg)
    requires TraceInv(g, needed, vals, SeenSeeds(needed, indeg, i), multiset(queue), {}, parallel, log)
    ensures TraceInv(g, needed, vals, SeenSeeds(needed, indeg, i + 1), multiset(queue + [i]), {}, parallel, log')
  {
    hide TraceInv, OnReady, IsMetadata, SeededTo;
    var m, m' := SeenSeeds(needed, indeg, i), SeenSeeds(needed, indeg, i + 1);
    assert m' == m[i := 0];
    assert multiset(queue + [i]) == multiset(queue) + multiset{i};
    SeedsAreAntichain(g, needed, dependents, indeg, i + 1, queue + [i]);
    ReadyKeeps(g, needed, vals, m, m', multiset(queue), {}, parallel, log, i, |queue| + 1, log'.now);
  }

  lemma SeedStart<K, V, E>(g: Dag<K, V, E>, needed: seq<bool>, vals: seq<Option<V>>, indeg: seq<nat>, parallel: bool)
    requires |needed| == |indeg| == |g.nodes| == |vals| && forall i :: 0 <= i < |vals| ==> vals[i].None?
    ensures SeededTo(needed, indeg, 0, [])
    ensures TraceInv(g, needed, vals, SeenSeeds(needed, indeg, 0), multiset([]), {}, parallel, Blank(|g.nodes|))
  {
    BlankTrace(g, needed, vals, SeenSeeds(needed, indeg, 0), parallel);
    var none: seq<nat> := [];
    assert multiset(none) == multiset{};
  }

  lemma BlankOrder(n: nat)
    ensures Blank(n).order == [] && Blank(n).width == 0
  {
  }

  lemma MetadataShape<K, V, E>(g: Dag<K, V, E>, needed: seq<bool>, dependents: seq<seq<nat>>, indeg: seq<nat>)
    requires IsMetadata(g, needed, dependents, indeg)
    ensures |needed| == |dependents| == |indeg| == |g.nodes|
  {
  }

  lemma TraceShape<K, V, E>(g: Dag<K, V, E>, needed: seq<bool>, vals: seq<Option<V>>, indeg: seq<nat>,
                            waiting: multiset<nat>, parallel: bool, o: Record)
    requires TraceInv(g, needed, vals, indeg, waiting, {}, parallel, o)
    ensures Sized(o, |g.nodes|)
  {
  }

  lemma SeedCore<K, V, E>(g: Dag<K, V, E>, needed: seq<bool>, dependents: seq<seq<nat>>, parallel: bool, c: Core<V>)
    requires g.Valid() && IsMetadata(g, needed, dependents, c.indeg) && ClosedUnderDeps(g, MaskSet(needed))
    requires |c.vals| == |g.nodes| && forall i :: 0 <= i < |c.vals| ==> c.vals[i].None?
    requires SeededTo(needed, c.indeg, |needed|, c.ready) && |c.ready| <= c.log.width
    requires c.held == c.running == c.owed == multiset{} && c.unfinished == {}
    requires TraceInv(g, needed, c.vals, SeenSeeds(needed, c.indeg, |needed|), multiset(c.ready), {}, parallel, c.log)
    ensures CoreInv(g, needed, parallel, c)
    ensures forall a :: 0 <= a < |c.ready| ==> c.ready[a] < |g.nodes| && g.nodes[c.ready[a]].deps == []
  {
    hide KahnInv, TraceInv, SeedOrder, Dag.Valid, IsMetadata, SeededTo, ClosedUnderDeps;
    SeedsReady(g, needed, dependents, c.vals, c.indeg, c.ready);
    SeedsAreAntichain(g, needed, dependents, c.indeg, |needed|, c.ready);
    SameZeros(g, needed, c.vals, SeenSeeds(needed, c.indeg, |needed|), c.indeg, multiset(c.ready), parallel, c.log);
    assert c.Frontier() == multiset(c.ready);
    assert multiset(c.ready) + c.held == multiset(c.ready);
  }

  /** `after` is `before` with nodes appended that have dependencies. */
  ghost predicate Extends<K, V, E>(g: Dag<K, V, E>, before: seq<nat>, after: seq<nat>) {
    && before <= after
    && forall a :: |before| <= a < |after| ==> after[a] < |g.nodes| && g.nodes[after[a]].deps != []
  }

  lemma ExtendsSelf<K, V, E>(g: Dag<K, V, E>, a: seq<nat>)
    ensures Extends(g, a, a)
  {
  }

  lemma ExtendsOne<K, V, E>(g: Dag<K, V, E>, a: seq<nat>, id: nat)
    requires id < |g.nodes| && g.nodes[id].deps != []
    ensures Extends(g, a, a + [id])
  {
  }

  lemma ExtendsTransitive<K, V, E>(g: Dag<K, V, E>, a: seq<nat>, b: seq<nat>, c: seq<nat>)
    requires Extends(g, a, b) && Extends(g, b, c)
    ensures Extends(g, a, c)
  {
  }

  // ---------------------------------------------------------------------------------------
  // The state in memory
  // ---------------------------------------------------------------------------------------

  /** Recording no worker changes nothing. */
  lemma NoWorkerRecorded(s: seq<Option<nat>>, id: nat)
    requires id < |s|
    ensures SetOnce(s, id, None) == s
  {
  }

  lemma OneOwedLess(list: seq<nat>, k: nat)
    requires k < |list|
    ensures multiset(list[k..])[list[k]] > 0 && multiset(list[k..]) - multiset{list[k]} == multiset(list[k + 1..])
  {
    assert list[k..] == [list[k]] + list[k + 1..];
  }

  lemma StepIsRelease(q: Queue, q': Queue, dst: nat)
    requires dst < |q.indeg| && q.indeg[dst] > 0 && q'.indeg == q.indeg[dst := q.indeg[dst] - 1]
    requires q'.ready == if q.indeg[dst] == 1 then q.ready + [dst] else q.ready
    ensures q' == ReleaseTo(q, dst)
  {
  }

  lemma PutBack(held: multiset<nat>, running: multiset<nat>, id: nat)
    ensures held + multiset{id} - multiset{id} == held
    ensures running + multiset{id} - multiset{id} == running
  {
  }

  lemma LogOf(observer: TraceObserver)
    ensures observer.View().finishedAt == observer.finishedAt && observer.View().workerId == observer.workerId
  {
  }

  /** The queue is never longer than the recorded width. */
  lemma WidthCovers<K, V, E>(g: Dag<K, V, E>, needed: seq<bool>, parallel: bool, c: Core<V>)
    requires CoreInv(g, needed, parallel, c)
    ensures |c.ready| <= c.log.width && WiderOf(c.log.width, c.log.width, |c.ready|)
  {
  }

  class KahnState<K(==), V, E> {
    const dag: Dag<K, V, E>
    const needed: seq<bool>
    const dependents: seq<seq<nat>>
    const vals: array<Option<V>>
    const indeg: array<nat>
    const observer: TraceObserver
    var ready: seq<nat>

    ghost const parallel: bool
    ghost var held: multiset<nat>
    ghost var running: multiset<nat>
    ghost var owed: multiset<nat>
    ghost var unfinished: set<nat>

    ghost function View(): Core<V>
      reads this, vals, indeg, observer
    {
      Core(vals[..], indeg[..], ready, held, running, owed, unfinished, observer.View())
    }

    /** In-degrees and queue alone. */
    ghost function Line(): Queue
      reads this, indeg
    {
      Queue(indeg[..], ready)
    }

    ghost predicate Shaped() {
      && dag.Valid()
      && vals.Length == indeg.Length == |dag.nodes| == |dependents| == |needed|
      && OwedTable(dag, needed, dependents)
    }

    ghost predicate Valid()
      reads this, vals, indeg, observer
    {
      Shaped() && CoreInv(dag, needed, parallel, View())
    }

    constructor (dag: Dag<K, V, E>, needed: seq<bool>, dependents: seq<seq<nat>>, indeg: array<nat>,
                 observer: TraceObserver, ghost parallel: bool)
      requires dag.Valid() && |needed| == |dag.nodes| && IsMetadata(dag, needed, dependents, indeg[..])
      ensures Shaped() && fresh(vals)
      ensures this.dag == dag && this.needed == needed && this.dependents == dependents
      ensures this.indeg == indeg && this.observer == observer && this.parallel == parallel
      ensures ready == [] && held == running == owed == multiset{} && unfinished == {}
      ensures forall i :: 0 <= i < vals.Length ==> vals[i].None?
    {
      this.dag, this.needed, this.dependents, this.indeg, this.observer := dag, needed, dependents, indeg, observer;
      this.parallel := parallel;
      var table := new Option<V>[|dag.nodes|](_ => None);
      vals := table;
      ready := [];
      held, running, owed, unfinished := multiset{}, multiset{}, multiset{}, {};
    }

    /** Seed the queue with the needed nodes that have no dependencies, in id order. */
    method Seed()
      requires Shaped() && IsMetadata(dag, needed, dependents, indeg[..]) && ClosedUnderDeps(dag, MaskSet(needed))
      requires ready == [] && held == running == owed == multiset{} && unfinished == {}
      requires forall i :: 0 <= i < vals.Length ==> vals[i].None?
      requires observer.View() == Blank(|dag.nodes|)
      modifies this`ready, observer
      ensures Valid() && View().Settled() && Opening(needed, dependents, Line()).For(dag)
      ensures forall a :: 0 <= a < |ready| ==> ready[a] < |dag.nodes| && dag.nodes[ready[a]].deps == []
      ensures observer.executionOrder == [] && observer.maxFrontierWidth == |ready|
      ensures observer.finishedAt == old(observer.finishedAt)
    {
      hide SeededTo, TraceInv, IsMetadata, ClosedUnderDeps, CoreInv, Blank;
      MetadataShape(dag, needed, dependents, indeg[..]);
      SeedStart(dag, needed, vals[..], indeg[..], parallel);
      BlankOrder(|dag.nodes|);
      for i := 0 to |dag.nodes|
        invariant SeededTo(needed, indeg[..], i, ready) && |ready| == observer.maxFrontierWidth
        invariant observer.executionOrder == [] && observer.finishedAt == old(observer.finishedAt)
        invariant TraceInv(dag, needed, vals[..], SeenSeeds(needed, indeg[..], i), multiset(ready), {}, parallel,
                           observer.View())
      {
        SeedNext(needed, indeg[..], i, ready);
        if needed[i] && indeg[i] == 0 {
          ghost var log, queue := observer.View(), ready;
          TraceShape(dag, needed, vals[..], SeenSeeds(needed, indeg[..], i), multiset(ready), parallel, log);
          ready := ready + [i];
          observer.MarkReady(i, |ready|);
          SeedOne(dag, needed, dependents, vals[..], indeg[..], parallel, i, queue, log, observer.View());
        }
      }
      SeedCore(dag, needed, dependents, parallel, View());
    }

    /** Take the oldest ready node. */
    method PopFront() returns (id: nat)
      requires Valid() && ready != []
      modifies this`ready, this`held
      ensures Valid() && id == old(ready[0])
      ensures ready == old(ready[1..]) && held == old(held) + multiset{id}
    {
      hide CoreInv, OwedTable, Dag.Valid;
      id := ready[0];
      ghost var before := View();
      ready := ready[1..];
      held := held + multiset{id};
      PopKeeps(dag, needed, parallel, before, View());
    }

    /** Collect the dependency values of a popped node, in order. The error the executors
      * would return for a missing value is unreachable: every lookup finds one. */
    method Arguments(id: nat) returns (args: seq<V>)
      requires Valid() && View().Frontier()[id] > 0
      ensures id < |dag.nodes| && AllDefined(Meanings(dag), dag.nodes[id].deps)
      ensures args == Gather(Meanings(dag), dag.nodes[id].deps)
      ensures Meaning(dag, id) == Step(dag, Meanings(dag), id)
    {
      hide CoreInv, OwedTable, Dag.Valid;
      CoreArguments(dag, needed, parallel, View(), id);
      MeaningFixedPoint(dag, id);
      var deps := dag.nodes[id].deps;
      args := [];
      for p := 0 to |deps|
        invariant |args| == p && forall q :: 0 <= q < p ==> args[q] == Meaning(dag, deps[q]).value
      {
        assert vals[deps[p]].Some?;
        args := args + [vals[deps[p]].value];
      }
    }

    method Start(id: nat, worker: Option<nat>)
      requires Valid() && View().Settled() && held[id] > 0
      requires id < |dag.nodes| && (worker.Some? <==> parallel && dag.nodes[id].kind.Task?)
      modifies this`held, this`running, observer
      ensures Valid()
      ensures held == old(held) - multiset{id} && running == old(running) + multiset{id}
      ensures id < |old(observer.workerId)| && observer.workerId == SetOnce(old(observer.workerId), id, worker)
      ensures observer.workerId == old(observer.workerId)[id := worker]
      ensures observer.executionOrder == old(observer.executionOrder) + [id]
      ensures observer.maxFrontierWidth == old(observer.maxFrontierWidth)
      ensures observer.finishedAt == old(observer.finishedAt)
      ensures id < |observer.startedAt| && observer.startedAt[id].Some?
    {
      hide CoreInv, OwedTable, Dag.Valid;
      ghost var before := View();
      CoreShape(dag, needed, parallel, before);
      HeldHasNoWorker(dag, needed, parallel, before, id);
      observer.MarkStart(id, worker);
      held, running := held - multiset{id}, running + multiset{id};
      StartKeepsCore(dag, needed, parallel, before, View(), id, worker, observer.now);
    }

    /** Write the value of a started node. `finished` says that its finish mark was made. */
    method Store(id: nat, v: V, ghost finished: bool)
      requires Valid() && View().Settled() && running[id] > 0
      requires id < |dag.nodes| && Meaning(dag, id) == Defined(v)
      requires finished ==> id < |observer.finishedAt| && observer.finishedAt[id].Some?
      modifies this`running, this`owed, this`unfinished, vals
      ensures Valid() && vals[..] == old(vals[..])[id := Some(v)] && old(vals[id]).None?
      ensures running == old(running) - multiset{id}
      ensures owed == multiset(dependents[id]) && unfinished == if finished then {} else {id}
    {
      hide CoreInv, OwedTable, OwedFrom, Dag.Valid, MaskSet, DoneSet, TraceObserver.View;
      ghost var before := View();
      LogOf(observer);
      CoreShape(dag, needed, parallel, before);
      OpenNode(dag, needed, parallel, before, id);
      OwedAt(dag, needed, dependents, id);
      vals[id] := Some(v);
      assert vals[..] == before.vals[id := Some(v)] && indeg[..] == before.indeg;
      running, owed, unfinished := running - multiset{id}, multiset(dependents[id]), if finished then {} else {id};
      StoreKeepsCore(dag, needed, parallel, before, View(), id, v);
    }

    method Finish(id: nat)
      requires Valid() && (View().Frontier()[id] > 0 || id in DoneSet(vals[..]))
      requires running[id] > 0 || id in DoneSet(vals[..])
      modifies this`unfinished, observer
      ensures Valid() && unfinished == old(unfinished) - {id} && observer.workerId == old(observer.workerId)
      ensures observer.executionOrder == old(observer.executionOrder)
      ensures observer.maxFrontierWidth == old(observer.maxFrontierWidth)
      ensures FinishMark(old(observer.finishedAt), observer.finishedAt, id, old(observer.now))
      ensures id < |observer.finishedAt| && observer.finishedAt[id].Some?
    {
      hide CoreInv, OwedTable, Dag.Valid;
      ghost var before := View();
      CoreShape(dag, needed, parallel, before);
      CoreOpen(dag, needed, parallel, before);
      observer.MarkFinish(id);
      unfinished := unfinished - {id};
      FinishKeepsCore(dag, needed, parallel, before, View(), id, observer.now);
    }

    /** One dependency position released. */
    method ReleaseOne(dst: nat)
      requires Valid() && owed[dst] > 0
      modifies this`ready, this`owed, indeg, observer
      ensures Valid() && owed == old(owed) - multiset{dst} && observer.workerId == old(observer.workerId)
      ensures observer.executionOrder == old(observer.executionOrder)
      ensures observer.finishedAt == old(observer.finishedAt) && observer.now >= old(observer.now)
      ensures WiderOf(observer.maxFrontierWidth, old(observer.maxFrontierWidth), |ready|)
      ensures Line() == ReleaseTo(old(Line()), dst)
      ensures Extends(dag, old(ready), ready)
    {
      hide CoreInv, OwedTable, OwedFrom, Dag.Valid, MaskSet, DoneSet, OnReady, WiderOf, SetOnce, ReleaseTo,
        KahnState.Shaped, Extends;
      ghost var before, line := View(), Line();
      CoreShape(dag, needed, parallel, before);
      OwedNode(dag, needed, parallel, before, dst);
      WidthCovers(dag, needed, parallel, before);
      ExtendsSelf(dag, ready);
      ExtendsOne(dag, ready, dst);
      indeg[dst] := indeg[dst] - 1;
      assert indeg[..] == before.indeg[dst := before.indeg[dst] - 1] && vals[..] == before.vals;
      owed := owed - multiset{dst};
      if indeg[dst] == 0 {
        ready := ready + [dst];
        observer.MarkReady(dst, |ready|);
        ReadyKeepsWorkers(before.log, dst, |ready|, observer.now);
      }
      StepIsRelease(line, Line(), dst);
      ReleaseKeepsCore(dag, needed, parallel, before, View(), dst, observer.now);
    }

    /** Release the dependents of a node that has just got its value: one decrement per
      * dependency position, and onto the queue when the last one is gone. */
    method ReleaseDependents(from: nat)
      requires Valid() && from < |dependents| && owed == multiset(dependents[from])
      modifies this`ready, this`owed, indeg, observer
      ensures Valid() && owed == multiset{} && observer.workerId == old(observer.workerId)
      ensures observer.executionOrder == old(observer.executionOrder)
      ensures observer.finishedAt == old(observer.finishedAt) && observer.now >= old(observer.now)
      ensures WiderOf(observer.maxFrontierWidth, old(observer.maxFrontierWidth), |ready|)
      ensures Line() == Release(old(Line()), dependents[from])
      ensures Extends(dag, old(ready), ready)
      ensures dependents[from] == [] ==> ready == old(ready)
    {
      hide CoreInv, Extends, OwedTable, Dag.Valid, MaskSet, DoneSet;
      var list := dependents[from];
      assert list[0..] == list;
      ExtendsSelf(dag, ready);
      WidthCovers(dag, needed, parallel, View());
      for k := 0 to |list|
        invariant Valid() && owed == multiset(list[k..]) && observer.workerId == old(observer.workerId)
        invariant observer.executionOrder == old(observer.executionOrder)
        invariant observer.finishedAt == old(observer.finishedAt) && observer.now >= old(observer.now)
        invariant WiderOf(observer.maxFrontierWidth, old(observer.maxFrontierWidth), |ready|)
        invariant Line() == Release(old(Line()), list[..k])
        invariant Extends(dag, old(ready), ready) && (k == 0 ==> ready == old(ready))
      {
        ghost var queue := ready;
        OneOwedLess(list, k);
        ReleaseSnoc(old(Line()), list, k);
        ReleaseOne(list[k]);
        ExtendsTransitive(dag, old(ready), queue, ready);
      }
      assert list[..|list|] == list;
    }

    /** Write the value of a started node, mark it finished unless that was done on receipt of
      * its result, and release its dependents. */
    method Complete(id: nat, v: V, finished: bool)
      requires Valid() && View().Settled() && running[id] > 0
      requires id < |dag.nodes| && Meaning(dag, id) == Defined(v)
      requires finished ==> id < |observer.finishedAt| && observer.finishedAt[id].Some?
      modifies this`ready, this`running, this`owed, this`unfinished, vals, indeg, observer
      ensures Valid() && View().Settled() && running == old(running) - multiset{id}
      ensures observer.workerId == old(observer.workerId) && observer.executionOrder == old(observer.executionOrder)
      ensures if finished then observer.finishedAt == old(observer.finishedAt)
              else FinishMark(old(observer.finishedAt), observer.finishedAt, id, old(observer.now))
      ensures WiderOf(observer.maxFrontierWidth, old(observer.maxFrontierWidth), |ready|)
      ensures Line() == Release(old(Line()), dependents[id])
      ensures old(vals[id]).None? && vals[..] == old(vals[..])[id := Some(v)]
      ensures Extends(dag, old(ready), ready)
      ensures dependents[id] == [] ==> ready == old(ready)
    {
      hide CoreInv, OwedTable, OwedFrom, Dag.Valid, Extends, MaskSet, DoneSet;
      Store(id, v, finished);
      if !finished {
        Finish(id);
      }
      ReleaseDependents(id);
    }

    /** Start a popped source and complete it on the spot. No worker is recorded. */
    method CompleteSource(id: nat, v: V)
      requires Valid() && View().Settled() && held[id] > 0
      requires id < |dag.nodes| && dag.nodes[id].kind == NodeKind.Source(v) && Meaning(dag, id) == Defined(v)
      modifies this, vals, indeg, observer
      ensures Valid() && View().Settled() && held == old(held) - multiset{id} && running == old(running)
      ensures observer.workerId == old(observer.workerId)
      ensures observer.executionOrder == old(observer.executionOrder) + [id]
      ensures WiderOf(observer.maxFrontierWidth, old(observer.maxFrontierWidth), |ready|)
      ensures old(vals[id]).None? && vals[..] == old(vals[..])[id := Some(v)]
      ensures Extends(dag, old(ready), ready)
    {
      hide CoreInv, OwedTable, Dag.Valid, Extends, MaskSet, DoneSet, SetOnce;
      PutBack(held, running, id);
      Start(id, None);
      NoWorkerRecorded(old(observer.workerId), id);
      Complete(id, v, false);
    }
  }

  /** Only nodes that have a value are marked finished. */
  ghost predicate FinishedAreDone<V>(finishedAt: seq<Option<nat>>, vals: seq<Option<V>>) {
    |finishedAt| == |vals| && forall i :: 0 <= i < |vals| && finishedAt[i].Some? ==> vals[i].Some?
  }

  lemma NothingFinished<V>(n: nat, vals: seq<Option<V>>)
    requires |vals| == n
    ensures FinishedAreDone(Blank(n).finishedAt, vals)
  {
  }

  lemma FinishedWithValue<V>(before: seq<Option<nat>>, after: seq<Option<nat>>, vals: seq<Option<V>>, id: nat, v: V,
                             t: nat)
    requires FinishedAreDone(before, vals) && FinishMark(before, after, id, t)
    ensures FinishedAreDone(after, vals[id := Some(v)])
  {
  }

  /** The opening both executors share: metadata, empty tables, seeded queue. */
  method Prepare<K(==), V, E>(g: Dag<K, V, E>, needed: seq<bool>, observer: TraceObserver, ghost parallel: bool)
    returns (st: KahnState<K, V, E>, neededCount: nat)
    requires g.Valid() && |needed| == |g.nodes| && ClosedUnderDeps(g, MaskSet(needed))
    requires observer.View() == Blank(|g.nodes|)
    modifies observer
    ensures fresh(st) && fresh(st.vals) && fresh(st.indeg) && st.observer == observer
    ensures st.dag == g && st.needed == needed && st.parallel == parallel
    ensures st.Valid() && st.View().Settled() && st.held == multiset{} && st.running == multiset{}
    ensures DoneSet(st.vals[..]) == {} && neededCount == |MaskSet(needed)|
    ensures Opening(needed, st.dependents, st.Line()).For(g) && observer.executionOrder == []
    ensures observer.maxFrontierWidth == |st.ready|
    ensures FinishedAreDone(observer.finishedAt, st.vals[..])
    ensures forall a :: 0 <= a < |st.ready| ==> st.ready[a] < |g.nodes| && g.nodes[st.ready[a]].deps == []
  {
    hide IsMetadata, CoreInv, OwedTable;
    var dependents, indeg;
    dependents, indeg, neededCount := BuildKahnMetadata(g, needed);
    st := new KahnState(g, needed, dependents, indeg, observer, parallel);
    NothingFinished(|g.nodes|, st.vals[..]);
    st.Seed();
  }

  lemma DoneAdds<V>(vals: seq<Option<V>>, id: nat, v: V)
    requires id < |vals|
    ensures DoneSet(vals[id := Some(v)]) == DoneSet(vals) + {id}
    ensures vals[id].None? ==> |DoneSet(vals[id := Some(v)])| == |DoneSet(vals)| + 1
  {
  }
}
