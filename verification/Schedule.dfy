/** The parallel scheduler's state as a value: its invariant, one lemma per scheduler action,
  * and what the invariant says at the exits. */
module Schedule {
  import opened Wrappers
  import opened Graph
  import opened Kahn
  import opened Outcomes
  import opened Common
  import opened Observer
  import opened Tracing
  import opened ExecState
  import opened Calls

  // ---------------------------------------------------------------------------------------
  // Configuration
  // ---------------------------------------------------------------------------------------

  const USIZE_MAX: nat := 0xFFFF_FFFF_FFFF_FFFF

  type usize = n: nat | n <= USIZE_MAX witness 0

  datatype ExecutorConfig = ExecutorConfig(maxWorkers: usize, maxInFlight: usize, workerQueueCap: usize)

  function SaturatingAdd(a: usize, b: usize): usize {
    if a + b <= USIZE_MAX then a + b else USIZE_MAX
  }

  function SaturatingMul(a: usize, b: usize): usize {
    if a * b <= USIZE_MAX then a * b else USIZE_MAX
  }

  function Min(a: nat, b: nat): nat {
    if a < b then a else b
  }

  function EffectiveCap(cfg: ExecutorConfig): usize {
    Min(cfg.maxInFlight, SaturatingMul(cfg.maxWorkers, SaturatingAdd(cfg.workerQueueCap, 1)))
  }

  ghost predicate Accepted(cfg: ExecutorConfig) {
    cfg.maxWorkers > 0 && cfg.maxInFlight > 0 && cfg.workerQueueCap > 0
  }

  /** Saturation never shows: the cap is the exact minimum, at least 1, and 1 only when the
    * configuration asks for it. */
  lemma EffectiveCapExact(cfg: ExecutorConfig)
    requires Accepted(cfg)
    ensures EffectiveCap(cfg) <= cfg.maxInFlight
    ensures EffectiveCap(cfg) <= cfg.maxWorkers * (cfg.workerQueueCap + 1)
    ensures EffectiveCap(cfg) == cfg.maxInFlight || EffectiveCap(cfg) == cfg.maxWorkers * (cfg.workerQueueCap + 1)
    ensures EffectiveCap(cfg) >= 1
    ensures EffectiveCap(cfg) == 1 <==> cfg.maxInFlight == 1
  {
    var n: nat, q: nat := cfg.maxWorkers, cfg.workerQueueCap;
    Product(n, q + 1);
    Product(n, SaturatingAdd(q, 1));
  }

  lemma Product(n: nat, m: nat)
    requires n >= 1
    ensures n * m >= m
  {
  }

  // ---------------------------------------------------------------------------------------
  // The early exit
  // ---------------------------------------------------------------------------------------

  ghost predicate LastNeeded(nd: set<nat>, last: nat) {
    last in nd && forall i :: i in nd ==> i <= last
  }

  /** The requests that end in an empty cycle report although nothing is wrong: every needed
    * node is free of dependencies, the last one in id order is a source, and there is no
    * needed task or only one task may be in flight. The dispatch loop then finishes the last
    * needed node itself with nothing in flight, and the exit test takes that for a cycle. */
  ghost predicate EarlyExit<K, V, E>(g: Dag<K, V, E>, nd: set<nat>, maxInFlight: nat) {
    && (forall i :: i in nd ==> i < |g.nodes| && g.nodes[i].deps == [])
    && (exists last: nat :: LastNeeded(nd, last) && last < |g.nodes| && g.nodes[last].kind.Source?)
    && (maxInFlight == 1 || forall i :: i in nd ==> !g.HasTask(i))
  }

  // ---------------------------------------------------------------------------------------
  // State and invariant
  // ---------------------------------------------------------------------------------------

  /** `pending` is the task kept after a full round of full queues; `lines` are the tasks sent
    * to each worker without result yet, `sent` all tasks ever sent to it. */
  datatype Sched<!V, E> = Sched(core: Core<V>, pending: Option<Task<V, E>>, lines: seq<seq<Task<V, E>>>,
                                sent: seq<seq<Task<V, E>>>, inFlight: nat, processed: nat)

  ghost function PendingIds<V, E>(p: Option<Task<V, E>>): multiset<nat> {
    if p.Some? then multiset{p.value.id} else multiset{}
  }

  ghost predicate AllGood<K, V, E>(g: Dag<K, V, E>, needed: seq<bool>, lists: seq<seq<Task<V, E>>>) {
    forall w, j :: 0 <= w < |lists| && 0 <= j < |lists[w]| ==>
        GoodTask(g, lists[w][j]) && lists[w][j].id in MaskSet(needed)
  }

  /** A task was sent once if it is done or in flight, and never otherwise. */
  ghost predicate SentOnce<K, V, E>(g: Dag<K, V, E>, done: set<nat>, lines: seq<seq<Task<V, E>>>,
                                    sent: seq<seq<Task<V, E>>>) {
    forall i: nat :: AllIds(sent)[i] == (if i in done && g.HasTask(i) then 1 else 0) + AllIds(lines)[i]
  }

  /** What keeps track of the early exit. Once a task is done, a dependency-free node can only
    * be left in the queue with nothing in flight if the cap is 1; and where the early exit
    * applies, the last needed node is finished only with nothing in flight or waiting. */
  ghost predicate EarlyInv<K, V, E>(g: Dag<K, V, E>, needed: seq<bool>, maxInFlight: nat, s: Sched<V, E>) {
    && (forall i, b :: i in DoneSet(s.core.vals) && g.HasTask(i) && s.inFlight == 0 && s.pending.None?
                       && 0 <= b < |s.core.ready| && s.core.ready[b] < |g.nodes| && g.nodes[s.core.ready[b]].deps == []
                       ==> maxInFlight == 1)
    && (EarlyExit(g, MaskSet(needed), maxInFlight) ==>
          forall last :: LastNeeded(MaskSet(needed), last) && last in DoneSet(s.core.vals) ==>
            s.inFlight == 0 && s.core.ready == [] && s.pending.None?)
  }

  /** The tasks on their way: well-formed calls for needed nodes, each sent once. */
  ghost predicate FlightInv<K, V, E>(g: Dag<K, V, E>, needed: seq<bool>, workers: nat, done: set<nat>, s: Sched<V, E>) {
    && |s.lines| == |s.sent| == workers
    && (s.pending.Some? ==> GoodTask(g, s.pending.value) && s.pending.value.id in MaskSet(needed))
    && AllGood(g, needed, s.lines) && AllGood(g, needed, s.sent)
    && SentOnce(g, done, s.lines, s.sent)
  }

  /** The worker recorded for a task is the one it was sent to. */
  ghost predicate SentByRecord<V, E>(o: Record, sent: seq<seq<Task<V, E>>>) {
    forall w, j :: 0 <= w < |sent| && 0 <= j < |sent[w]| ==>
                     sent[w][j].id < |o.workerId| && o.workerId[sent[w][j].id] == Some(w)
  }

  /** The record shows exactly the calls: worker w is recorded for node i if and only if it
    * called that node. */
  ghost predicate CalledAsRecorded<V, E>(o: Record, calls: seq<seq<Task<V, E>>>) {
    forall w: nat, i: nat :: CalledBy(calls, w, i) <==> i < |o.workerId| && o.workerId[i] == Some(w)
  }

  ghost predicate SchedInv<K, V, E>(g: Dag<K, V, E>, needed: seq<bool>, cfg: ExecutorConfig, s: Sched<V, E>) {
    && Accepted(cfg)
    && CoreInv(g, needed, true, s.core) && s.core.Settled()
    && s.core.held == PendingIds(s.pending) && s.core.running == AllIds(s.lines)
    && s.inFlight == |AllIds(s.lines)| <= EffectiveCap(cfg)
    && s.processed == |DoneSet(s.core.vals)|
    && FlightInv(g, needed, cfg.maxWorkers, DoneSet(s.core.vals), s)
    && EarlyInv(g, needed, cfg.maxInFlight, s)
    && SentByRecord(s.core.log, s.sent)
  }

  /** Conditions under which the dispatch loop stops. */
  ghost predicate DispatchDone<V, E>(cfg: ExecutorConfig, s: Sched<V, E>) {
    (s.inFlight >= EffectiveCap(cfg) || s.pending.Some? || s.core.ready == [])
    && (s.pending.Some? ==> s.inFlight >= 1)
  }

  /** All needed nodes done with nothing in flight happens inside the dispatch loop only on the
    * early exit. */
  ghost predicate EmptyMeansEarly<K, V, E>(g: Dag<K, V, E>, needed: seq<bool>, cfg: ExecutorConfig, s: Sched<V, E>) {
    s.processed == |MaskSet(needed)| && s.inFlight == 0 ==> EarlyExit(g, MaskSet(needed), cfg.maxInFlight)
  }

  // ---------------------------------------------------------------------------------------
  // Scheduler actions
  // ---------------------------------------------------------------------------------------

  /** The counters are the sizes of their classes, and all classes fit in the needed set. */
  lemma CountersFit<K, V, E>(g: Dag<K, V, E>, needed: seq<bool>, cfg: ExecutorConfig, s: Sched<V, E>)
    requires SchedInv(g, needed, cfg, s)
    ensures s.processed + s.inFlight + |s.core.ready| + (if s.pending.Some? then 1 else 0) <= |MaskSet(needed)|
  {
    hide CoreInv, FlightInv, EarlyInv, EffectiveCap;
    CoreFits(g, needed, true, s.core);
  }

  /** What the core invariant says about the queue and the finished nodes. */
  lemma QueueFacts<K, V, E>(g: Dag<K, V, E>, needed: seq<bool>, c: Core<V>)
    requires CoreInv(g, needed, true, c)
    ensures forall a :: 0 <= a < |c.ready| ==> c.ready[a] in MaskSet(needed) && c.ready[a] !in DoneSet(c.vals)
    ensures forall a, b :: 0 <= a < b < |c.ready| ==> SeedBefore(g, c.ready[a], c.ready[b])
    ensures forall i, b :: i in DoneSet(c.vals) && 0 <= b < |c.ready| ==> SeedBefore(g, i, c.ready[b])
    ensures DoneSet(c.vals) <= MaskSet(needed)
  {
    DoneIsNeeded(g, needed, true, c);
    CoreOpen(g, needed, true, c);
    CoreShape(g, needed, true, c);
    forall a | 0 <= a < |c.ready|
      ensures c.ready[a] in MaskSet(needed) && c.ready[a] !in DoneSet(c.vals)
    {
      assert c.ready[a] in multiset(c.ready);
      assert c.Frontier()[c.ready[a]] > 0;
    }
    forall i, b | i in DoneSet(c.vals) && 0 <= b < |c.ready|
      ensures SeedBefore(g, i, c.ready[b])
    {
      DoneReleased(g, needed, c, i);
      assert i !in c.ready;
    }
  }

  lemma DoneReleased<K, V, E>(g: Dag<K, V, E>, needed: seq<bool>, c: Core<V>, i: nat)
    requires CoreInv(g, needed, true, c) && i in DoneSet(c.vals)
    ensures i < |needed| == |c.indeg| && needed[i] && c.indeg[i] == 0
  {
    WaitingIsOpen(g, needed, c);
  }

  lemma GoodAppend<K, V, E>(g: Dag<K, V, E>, needed: seq<bool>, lists: seq<seq<Task<V, E>>>,
                            lists': seq<seq<Task<V, E>>>,
                            w: nat, t: Task<V, E>)
    requires w < |lists| && lists' == lists[w := lists[w] + [t]] && GoodTask(g, t) && t.id in MaskSet(needed)
    requires AllGood(g, needed, lists)
    ensures AllGood(g, needed, lists')
  {
    hide GoodTask;
    forall v, j | 0 <= v < |lists'| && 0 <= j < |lists'[v]|
      ensures GoodTask(g, lists'[v][j]) && lists'[v][j].id in MaskSet(needed)
    {
      if v != w || j < |lists[w]| { assert lists'[v][j] == lists[v][j]; }
    }
  }

  lemma FlightSent<K, V, E>(g: Dag<K, V, E>, needed: seq<bool>, workers: nat, done: set<nat>, s: Sched<V, E>,
                            s': Sched<V, E>, w: nat, t: Task<V, E>)
    requires w < |s.lines| == |s.sent| && s.pending == Some(t) && s'.pending == None
    requires s'.lines == s.lines[w := s.lines[w] + [t]] && s'.sent == s.sent[w := s.sent[w] + [t]]
    requires FlightInv(g, needed, workers, done, s)
    ensures FlightInv(g, needed, workers, done, s')
  {
    GoodAppend(g, needed, s.lines, s'.lines, w, t);
    GoodAppend(g, needed, s.sent, s'.sent, w, t);
    hide GoodTask, AllGood;
    AllIdsAppend(s.lines, w, t);
    AllIdsAppend(s.sent, w, t);
  }

  lemma FlightSource<K, V, E>(g: Dag<K, V, E>, needed: seq<bool>, workers: nat, done: set<nat>, s: Sched<V, E>,
                              s': Sched<V, E>, id: nat)
    requires s'.lines == s.lines && s'.sent == s.sent && s'.pending == s.pending && !g.HasTask(id)
    requires FlightInv(g, needed, workers, done, s)
    ensures FlightInv(g, needed, workers, done + {id}, s')
  {
    hide GoodTask, AllGood;
  }

  lemma EarlySent<K, V, E>(g: Dag<K, V, E>, needed: seq<bool>, maxInFlight: nat, s: Sched<V, E>, s': Sched<V, E>)
    requires s.pending.Some? && s'.inFlight > 0 && s'.core.vals == s.core.vals
    requires EarlyInv(g, needed, maxInFlight, s)
    ensures EarlyInv(g, needed, maxInFlight, s')
  {
    hide EarlyExit;
  }

  lemma EarlyPick<K, V, E>(g: Dag<K, V, E>, needed: seq<bool>, maxInFlight: nat, s: Sched<V, E>, s': Sched<V, E>)
    requires s.core.ready != [] && s'.pending.Some? && s'.core.vals == s.core.vals
    requires EarlyInv(g, needed, maxInFlight, s)
    ensures EarlyInv(g, needed, maxInFlight, s')
  {
    hide EarlyExit;
  }

  lemma RecordSent<V, E>(o: Record, o': Record, sent: seq<seq<Task<V, E>>>, sent': seq<seq<Task<V, E>>>, w: nat,
                         t: Task<V, E>)
    requires t.id < |o.workerId| && o.workerId[t.id].None? && o'.workerId == SetOnce(o.workerId, t.id, Some(w))
    requires w < |sent| && sent' == sent[w := sent[w] + [t]]
    requires SentByRecord(o, sent)
    ensures SentByRecord(o', sent')
  {
    forall v, j | 0 <= v < |sent'| && 0 <= j < |sent'[v]|
      ensures sent'[v][j].id < |o'.workerId| && o'.workerId[sent'[v][j].id] == Some(v)
    {
      if v != w || j < |sent[w]| {
        assert sent'[v][j] == sent[v][j];
      }
    }
  }

  lemma RecordKept<V, E>(o: Record, o': Record, sent: seq<seq<Task<V, E>>>)
    requires o'.workerId == o.workerId && SentByRecord(o, sent)
    ensures SentByRecord(o', sent)
  {
  }

  /** A pending task was accepted by worker w. */
  lemma SentKeeps<K, V, E>(g: Dag<K, V, E>, needed: seq<bool>, cfg: ExecutorConfig, s: Sched<V, E>, s': Sched<V, E>,
                           w: nat, t: Task<V, E>)
    requires w < |s.lines| == |s.sent| && s.pending == Some(t)
    requires s' == s.(core := s'.core, pending := None, lines := s.lines[w := s.lines[w] + [t]],
                      sent := s.sent[w := s.sent[w] + [t]], inFlight := s.inFlight + 1)
    requires s'.core == s.core.(held := s.core.held - multiset{t.id}, running := s.core.running + multiset{t.id},
                                log := s'.core.log)
    requires t.id < |s.core.log.workerId| && s'.core.log.workerId == SetOnce(s.core.log.workerId, t.id, Some(w))
    requires s.inFlight < EffectiveCap(cfg)
    requires SchedInv(g, needed, cfg, s) && CoreInv(g, needed, true, s'.core)
    ensures SchedInv(g, needed, cfg, s')
  {
    hide CoreInv, FlightInv, EarlyInv, EffectiveCap, AllIds, TaskIds, SentByRecord, SetOnce;
    HeldHasNoWorker(g, needed, true, s.core, t.id);
    RecordSent(s.core.log, s'.core.log, s.sent, s'.sent, w, t);
    AllIdsAppend(s.lines, w, t);
    FlightSent(g, needed, cfg.maxWorkers, DoneSet(s.core.vals), s, s', w, t);
    EarlySent(g, needed, cfg.maxInFlight, s, s');
    assert |AllIds(s.lines) + multiset{t.id}| == |AllIds(s.lines)| + 1;
    assert s'.core.held == multiset{};
  }

  /** What the scheduler knows about the task it is about to offer. */
  lemma InHand<K, V, E>(g: Dag<K, V, E>, needed: seq<bool>, cfg: ExecutorConfig, s: Sched<V, E>, t: Task<V, E>)
    requires SchedInv(g, needed, cfg, s) && s.pending == Some(t)
    ensures t.id < |g.nodes| && g.nodes[t.id].kind.Task? && s.core.Settled() && s.core.held == multiset{t.id}
    ensures cfg.maxWorkers > 0 && |s.lines| == |s.sent| == cfg.maxWorkers
  {
  }

  /** What the scheduler knows before it takes the oldest ready node. */
  lemma BeforePop<K, V, E>(g: Dag<K, V, E>, needed: seq<bool>, cfg: ExecutorConfig, s: Sched<V, E>)
    requires SchedInv(g, needed, cfg, s) && s.core.ready != []
    ensures g.Valid() && s.core.ready[0] < |g.nodes| == |s.core.vals| == |needed| && s.core.Settled()
    ensures s.core.vals[s.core.ready[0]].None? && s.core.ready[0] in MaskSet(needed)
    ensures s.pending.None? ==> s.core.held == multiset{}
  {
    CoreShape(g, needed, true, s.core);
    QueueFacts(g, needed, s.core);
  }

  /** The oldest ready node is a source: it means its value and has no dependencies. */
  lemma ReadySource<K, V, E>(g: Dag<K, V, E>, needed: seq<bool>, cfg: ExecutorConfig, s: Sched<V, E>, id: nat, v: V)
    requires SchedInv(g, needed, cfg, s) && s.core.ready != [] && id == s.core.ready[0]
    requires id < |g.nodes| && g.nodes[id].kind == NodeKind.Source(v)
    ensures Meaning(g, id) == Defined(v) && g.nodes[id].deps == [] && s.core.Settled()
    ensures id < |s.core.vals| && id < |s.core.log.workerId| && (s.pending.None? ==> s.core.held == multiset{})
  {
    BeforePop(g, needed, cfg, s);
    CoreShape(g, needed, true, s.core);
    SourceHasNoDeps(g, id);
    MeaningFixedPoint(g, id);
  }

  /** Something in flight means some worker owes a result. */
  lemma Outstanding<K, V, E>(g: Dag<K, V, E>, needed: seq<bool>, cfg: ExecutorConfig, s: Sched<V, E>)
    requires SchedInv(g, needed, cfg, s) && s.inFlight >= 1
    ensures exists w :: 0 <= w < |s.lines| && s.lines[w] != []
  {
    AllIdsEmpty(s.lines);
    hide CoreInv, FlightInv, EarlyInv, EffectiveCap;
    if forall w :: 0 <= w < |s.lines| ==> s.lines[w] == [] { assert false; }
  }

  /** Before anything was dispatched. */
  lemma StartInv<K, V, E>(g: Dag<K, V, E>, needed: seq<bool>, cfg: ExecutorConfig, s: Sched<V, E>)
    requires Accepted(cfg) && CoreInv(g, needed, true, s.core) && s.core.Settled() && DoneSet(s.core.vals) == {}
    requires s.core.held == s.core.running == multiset{} && s.pending.None? && s.inFlight == s.processed == 0
    requires s.lines == seq(cfg.maxWorkers, _ => []) && s.sent == seq(cfg.maxWorkers, _ => [])
    ensures SchedInv(g, needed, cfg, s)
  {
    hide CoreInv, EffectiveCap, EarlyExit, FlightInv;
    AllIdsEmpty(s.lines);
    EffectiveCapExact(cfg);
    FlightStart(g, needed, cfg.maxWorkers, DoneSet(s.core.vals), s);
  }

  lemma FlightStart<K, V, E>(g: Dag<K, V, E>, needed: seq<bool>, workers: nat, done: set<nat>, s: Sched<V, E>)
    requires done == {} && s.pending.None? && s.lines == seq(workers, _ => []) && s.sent == seq(workers, _ => [])
    ensures FlightInv(g, needed, workers, done, s)
  {
    AllIdsEmpty(s.lines);
    AllIdsEmpty(s.sent);
  }

  /** Every queue was found full: the tasks in flight fill all queues, so there is at least
    * one, and backpressure is never taken for a cycle. */
  lemma FullMeansBusy<K, V, E>(g: Dag<K, V, E>, needed: seq<bool>, cfg: ExecutorConfig, s: Sched<V, E>)
    requires SchedInv(g, needed, cfg, s)
    requires forall w :: 0 <= w < |s.lines| ==> |s.lines[w]| >= cfg.workerQueueCap
    ensures s.inFlight >= cfg.maxWorkers * cfg.workerQueueCap >= 1
  {
    AllIdsAtLeast(s.lines, cfg.workerQueueCap);
    Product(cfg.maxWorkers, cfg.workerQueueCap);
  }

  /** A ready task node was popped and its call assembled. */
  lemma PickKeeps<K, V, E>(g: Dag<K, V, E>, needed: seq<bool>, cfg: ExecutorConfig, s: Sched<V, E>, s': Sched<V, E>,
                           t: Task<V, E>)
    requires s.pending.None? && s.core.ready != [] && t.id == s.core.ready[0] && GoodTask(g, t)
    requires s' == s.(core := s'.core, pending := Some(t))
    requires s'.core == s.core.(ready := s.core.ready[1..], held := s.core.held + multiset{t.id})
    requires SchedInv(g, needed, cfg, s)
    ensures SchedInv(g, needed, cfg, s')
  {
    hide CoreInv, AllGood, SentOnce, GoodTask, EarlyInv, EffectiveCap;
    PopKeeps(g, needed, true, s.core, s'.core);
    QueueFacts(g, needed, s.core);
    EarlyPick(g, needed, cfg.maxInFlight, s, s');
    assert s'.core.held == multiset{t.id};
  }

  /** The early-exit bookkeeping when a source is finished: where the early exit applies and
    * this is the last needed node, the queue is empty and nothing is in flight. */
  lemma EarlySource<K, V, E>(g: Dag<K, V, E>, needed: seq<bool>, maxInFlight: nat, s: Sched<V, E>, s': Sched<V, E>,
                             id: nat, v: V)
    requires s.pending.None? && s'.pending.None? && s.core.ready != [] && id == s.core.ready[0] && id < |s.core.vals|
    requires s'.inFlight == s.inFlight && id < |g.nodes| && !g.HasTask(id)
    requires s'.core.vals == s.core.vals[id := Some(v)] && Extends(g, s.core.ready[1..], s'.core.ready)
    requires forall a :: 0 <= a < |s'.core.ready| ==> s'.core.ready[a] in MaskSet(needed)
    requires forall a, b :: 0 <= a < b < |s.core.ready| ==> SeedBefore(g, s.core.ready[a], s.core.ready[b])
    requires forall a :: 0 <= a < |s.core.ready| ==> s.core.ready[a] in MaskSet(needed)
    requires EarlyExit(g, MaskSet(needed), maxInFlight) ==> s.inFlight == 0
    requires EarlyInv(g, needed, maxInFlight, s)
    ensures EarlyInv(g, needed, maxInFlight, s')
  {
    DoneAdds(s.core.vals, id, v);
    var r, r' := s.core.ready, s'.core.ready;
    forall i, b | i in DoneSet(s'.core.vals) && g.HasTask(i) && s'.inFlight == 0
                  && 0 <= b < |r'| && r'[b] < |g.nodes| && g.nodes[r'[b]].deps == []
      ensures maxInFlight == 1
    {
      assert i in DoneSet(s.core.vals);
      assert b < |r| - 1 && r'[b] == r[1..][b] == r[b + 1];
      assert g.nodes[r[b + 1]].deps == [];
    }
    if EarlyExit(g, MaskSet(needed), maxInFlight) {
      assert r' != [] ==> r'[0] in MaskSet(needed) && |r| > 1 && r'[0] == r[1..][0] == r[1];
      assert r' != [] ==> SeedBefore(g, r[0], r[1]);
      assert r' != [] ==> id < r'[0];
    }
  }

  /** With the early exit in force nothing can be in flight while a source is being finished. */
  lemma EarlyMeansIdle<K, V, E>(g: Dag<K, V, E>, needed: seq<bool>, cfg: ExecutorConfig, s: Sched<V, E>)
    requires SchedInv(g, needed, cfg, s) && EarlyExit(g, MaskSet(needed), cfg.maxInFlight)
    requires s.inFlight < EffectiveCap(cfg)
    ensures s.inFlight == 0
  {
    hide CoreInv, EarlyInv, SentOnce, AllGood, EffectiveCap;
    EffectiveCapExact(cfg);
    if cfg.maxInFlight != 1 { NoTasksNoLines(g, needed, s.lines); }
  }

  lemma NoTasksNoLines<K, V, E>(g: Dag<K, V, E>, needed: seq<bool>, lines: seq<seq<Task<V, E>>>)
    requires AllGood(g, needed, lines) && forall i :: i in MaskSet(needed) ==> !g.HasTask(i)
    ensures AllIds(lines) == multiset{}
  {
    AllIdsEmpty(lines);
    assert forall w :: 0 <= w < |lines| && lines[w] != [] ==>
      g.HasTask(lines[w][0].id) && lines[w][0].id in MaskSet(needed);
  }

  /** A ready source was popped and finished on the spot. */
  lemma SourceKeeps<K, V, E>(g: Dag<K, V, E>, needed: seq<bool>, cfg: ExecutorConfig, s: Sched<V, E>, s': Sched<V, E>,
                             id: nat, v: V)
    requires s.pending.None? && s.core.ready != [] && id == s.core.ready[0] && id < |s.core.vals|
    requires !g.HasTask(id) && id < |g.nodes| && g.nodes[id].deps == [] && s.inFlight < EffectiveCap(cfg)
    requires s' == s.(core := s'.core, processed := s.processed + 1)
    requires s'.core.vals == s.core.vals[id := Some(v)] && Extends(g, s.core.ready[1..], s'.core.ready)
    requires s'.core.held == s.core.held && s'.core.running == s.core.running && s'.core.Settled()
    requires s'.core.log.workerId == s.core.log.workerId
    requires SchedInv(g, needed, cfg, s) && CoreInv(g, needed, true, s'.core)
    ensures SchedInv(g, needed, cfg, s') && EmptyMeansEarly(g, needed, cfg, s')
  {
    hide CoreInv, FlightInv, EarlyInv, EffectiveCap, EarlyExit, Extends, SentByRecord, SeedBefore, Dag.Valid;
    RecordKept(s.core.log, s'.core.log, s.sent);
    QueueFacts(g, needed, s.core);
    QueueFacts(g, needed, s'.core);
    assert id !in DoneSet(s.core.vals);
    DoneAdds(s.core.vals, id, v);
    if EarlyExit(g, MaskSet(needed), cfg.maxInFlight) { EarlyMeansIdle(g, needed, cfg, s); }
    FlightSource(g, needed, cfg.maxWorkers, DoneSet(s.core.vals), s, s', id);
    EarlySource(g, needed, cfg.maxInFlight, s, s', id, v);
    if s'.processed == |MaskSet(needed)| {
      SubsetSize(DoneSet(s'.core.vals), MaskSet(needed));
      LastSource(g, needed, cfg.maxInFlight, DoneSet(s.core.vals), s, id);
    }
  }

  /** The popped source is the last needed node to finish: all others are done, so by the queue
    * order none of them has dependencies and all have smaller ids. */
  lemma LastSource<K, V, E>(g: Dag<K, V, E>, needed: seq<bool>, maxInFlight: nat, done: set<nat>, s: Sched<V, E>,
                            id: nat)
    requires s.pending.None? && s.core.ready != [] && id == s.core.ready[0] < |g.nodes|
    requires !g.HasTask(id) && g.nodes[id].deps == [] && done == DoneSet(s.core.vals)
    requires done + {id} == MaskSet(needed)
    requires forall i, b :: i in done && 0 <= b < |s.core.ready| ==> SeedBefore(g, i, s.core.ready[b])
    requires EarlyInv(g, needed, maxInFlight, s)
    ensures s.inFlight == 0 ==> EarlyExit(g, MaskSet(needed), maxInFlight)
  {
    var nd := MaskSet(needed);
    forall i | i in nd
      ensures i < |g.nodes| && g.nodes[i].deps == [] && i <= id
    {
      if i != id { assert SeedBefore(g, i, s.core.ready[0]); }
    }
    assert LastNeeded(nd, id);
    if s.inFlight == 0 && !(forall i :: i in nd ==> !g.HasTask(i)) {
      var i :| i in nd && g.HasTask(i);
      assert i in DoneSet(s.core.vals) && g.nodes[s.core.ready[0]].deps == [];
    }
  }

  // ---------------------------------------------------------------------------------------
  // Receiving
  // ---------------------------------------------------------------------------------------

  /** The oldest task of a line is a good call of a started, unfinished needed node. */
  lemma LineHead<K, V, E>(g: Dag<K, V, E>, needed: seq<bool>, cfg: ExecutorConfig, s: Sched<V, E>, w: nat)
    requires SchedInv(g, needed, cfg, s) && w < |s.lines| && s.lines[w] != []
    ensures var t := s.lines[w][0];
            && GoodTask(g, t) && t.id in MaskSet(needed) && s.core.running[t.id] > 0 && t.id !in DoneSet(s.core.vals)
            && g.HasTask(t.id) && t.id < |s.core.vals| == |g.nodes| && s.inFlight >= 1 && s.core.Settled()
  {
    AllIdsMember(s.lines, w, 0);
    var t := s.lines[w][0];
    assert GoodTask(g, t) && t.id in MaskSet(needed);
    assert s.core.Frontier()[t.id] > 0;
    CoreShape(g, needed, true, s.core);
    hide CoreInv, EarlyInv, GoodTask, SentOnce, AllGood;
    OpenNode(g, needed, true, s.core, t.id);
    assert AllIds(s.lines) != multiset{};
  }

  lemma GoodDrop<K, V, E>(g: Dag<K, V, E>, needed: seq<bool>, lists: seq<seq<Task<V, E>>>, lists': seq<seq<Task<V, E>>>,
                          w: nat)
    requires w < |lists| && lists[w] != [] && lists' == lists[w := lists[w][1..]]
    requires AllGood(g, needed, lists)
    ensures AllGood(g, needed, lists')
  {
    hide GoodTask;
    forall v, j | 0 <= v < |lists'| && 0 <= j < |lists'[v]|
      ensures GoodTask(g, lists'[v][j]) && lists'[v][j].id in MaskSet(needed)
    {
      if v == w { assert lists'[v][j] == lists[w][j + 1]; } else { assert lists'[v][j] == lists[v][j]; }
    }
  }

  lemma FlightRecv<K, V, E>(g: Dag<K, V, E>, needed: seq<bool>, workers: nat, done: set<nat>, s: Sched<V, E>,
                            s': Sched<V, E>, w: nat, id: nat)
    requires w < |s.lines| && s.lines[w] != [] && id == s.lines[w][0].id && id !in done && g.HasTask(id)
    requires s'.pending == s.pending && s'.lines == s.lines[w := s.lines[w][1..]] && s'.sent == s.sent
    requires FlightInv(g, needed, workers, done, s)
    ensures FlightInv(g, needed, workers, done + {id}, s')
  {
    GoodDrop(g, needed, s.lines, s'.lines, w);
    hide GoodTask, AllGood, AllIds, TaskIds;
    AllIdsDropFirst(s.lines, w);
    forall i: nat
      ensures AllIds(s'.sent)[i] == (if i in done + {id} && g.HasTask(i) then 1 else 0) + AllIds(s'.lines)[i]
    {
      assert AllIds(s.sent)[i] == (if i in done && g.HasTask(i) then 1 else 0) + AllIds(s.lines)[i];
    }
  }

  lemma EarlyRecv<K, V, E>(g: Dag<K, V, E>, needed: seq<bool>, cfg: ExecutorConfig, s: Sched<V, E>, s': Sched<V, E>,
                           id: nat, v: V)
    requires Accepted(cfg) && s.inFlight >= 1 && s'.inFlight == s.inFlight - 1 && s'.pending == s.pending
    requires id < |s.core.vals| && g.HasTask(id) && s'.core.vals == s.core.vals[id := Some(v)]
    requires Extends(g, s.core.ready, s'.core.ready) && DispatchDone(cfg, s)
    requires EarlyInv(g, needed, cfg.maxInFlight, s)
    ensures EarlyInv(g, needed, cfg.maxInFlight, s')
    ensures EarlyExit(g, MaskSet(needed), cfg.maxInFlight) ==> DoneSet(s'.core.vals) != MaskSet(needed)
  {
    DoneAdds(s.core.vals, id, v);
    EffectiveCapExact(cfg);
    hide EffectiveCap;
    var r, r' := s.core.ready, s'.core.ready;
    assert forall b :: 0 <= b < |r'| && r'[b] < |g.nodes| && g.nodes[r'[b]].deps == [] ==> b < |r| && r'[b] == r[b];
    if EarlyExit(g, MaskSet(needed), cfg.maxInFlight) {
      var last: nat :| LastNeeded(MaskSet(needed), last) && last < |g.nodes| && g.nodes[last].kind.Source?;
      forall x | LastNeeded(MaskSet(needed), x)
        ensures x !in DoneSet(s'.core.vals)
      {
        assert x == last && x != id;
      }
    }
  }

  /** A result was read and was a value. */
  lemma RecvKeepsSched<K, V, E>(g: Dag<K, V, E>, needed: seq<bool>, cfg: ExecutorConfig, s: Sched<V, E>,
                                s': Sched<V, E>,
                                w: nat, id: nat, v: V)
    requires w < |s.lines| && s.lines[w] != [] && id == s.lines[w][0].id && id < |s.core.vals| && s.inFlight >= 1
    requires s' == s.(core := s'.core, lines := s.lines[w := s.lines[w][1..]], inFlight := s.inFlight - 1,
                      processed := s.processed + 1)
    requires s'.core.vals == s.core.vals[id := Some(v)] && Extends(g, s.core.ready, s'.core.ready)
    requires s'.core.held == s.core.held && s'.core.running == s.core.running - multiset{id} && s'.core.Settled()
    requires s'.core.log.workerId == s.core.log.workerId
    requires DispatchDone(cfg, s)
    requires SchedInv(g, needed, cfg, s) && CoreInv(g, needed, true, s'.core)
    ensures SchedInv(g, needed, cfg, s')
    ensures EarlyExit(g, MaskSet(needed), cfg.maxInFlight) ==> DoneSet(s'.core.vals) != MaskSet(needed)
  {
    hide CoreInv, FlightInv, EarlyInv, EffectiveCap, EarlyExit, Extends, DispatchDone, GoodTask, AllIds, TaskIds,
      SentByRecord, Dag.Valid;
    RecordKept(s.core.log, s'.core.log, s.sent);
    LineHead(g, needed, cfg, s, w);
    DoneAdds(s.core.vals, id, v);
    LineDrop(s.lines, w);
    FlightRecv(g, needed, cfg.maxWorkers, DoneSet(s.core.vals), s, s', w, id);
    EarlyRecv(g, needed, cfg, s, s', id, v);
  }

  lemma LineDrop<V, E>(lines: seq<seq<Task<V, E>>>, w: nat)
    requires w < |lines| && lines[w] != []
    ensures AllIds(lines[w := lines[w][1..]]) == AllIds(lines) - multiset{lines[w][0].id}
    ensures |AllIds(lines[w := lines[w][1..]])| == |AllIds(lines)| - 1
  {
    AllIdsDropFirst(lines, w);
  }

  // ---------------------------------------------------------------------------------------
  // Exits
  // ---------------------------------------------------------------------------------------

  /** Dispatching stopped with nothing in flight: nothing is ready or pending either. */
  lemma IdleMeansStuck<K, V, E>(g: Dag<K, V, E>, needed: seq<bool>, cfg: ExecutorConfig, s: Sched<V, E>)
    requires SchedInv(g, needed, cfg, s) && DispatchDone(cfg, s) && s.inFlight == 0
    ensures s.core.ready == [] && s.pending.None? && s.core.Frontier() == multiset{}
  {
    EffectiveCapExact(cfg);
    hide CoreInv, FlightInv, EarlyInv, EffectiveCap;
    assert AllIds(s.lines) == multiset{};
  }

  /** The exit with nothing in flight: a genuine cycle, or the early exit. */
  lemma IdleExit<K, V, E>(g: Dag<K, V, E>, needed: seq<bool>, cfg: ExecutorConfig, s: Sched<V, E>)
    requires SchedInv(g, needed, cfg, s) && DispatchDone(cfg, s) && s.inFlight == 0
    requires EmptyMeansEarly(g, needed, cfg, s)
    ensures var nd := MaskSet(needed);
            KahnOutcome(g, nd, EarlyExit(g, nd, cfg.maxInFlight),
                        Failure(Cycle(KeysOf(g, Unreleased(needed, s.core.indeg), |g.nodes|))))
  {
    IdleMeansStuck(g, needed, cfg, s);
    CoreFits(g, needed, true, s.core);
    hide FlightInv, EarlyInv, EffectiveCap, EarlyExit, TraceInv, SeedOrder;
    var nd := MaskSet(needed);
    var early := EarlyExit(g, nd, cfg.maxInFlight);
    var remaining := KeysOf(g, Unreleased(needed, s.core.indeg), |g.nodes|);
    if |DoneSet(s.core.vals)| < |nd| {
      StuckExit(g, needed, s.core.vals, s.core.indeg, early, remaining, Failure(Cycle(remaining)));
    } else {
      CoreComplete(g, needed, true, s.core);
      NothingUnreleased(g, needed, s.core.indeg, |g.nodes|);
    }
  }

  lemma {:induction false} NothingUnreleased<K, V, E>(g: Dag<K, V, E>, needed: seq<bool>, indeg: seq<nat>, n: nat)
    requires n <= |g.nodes| && |indeg| == |needed| && forall i :: 0 <= i < |needed| && needed[i] ==> indeg[i] == 0
    ensures KeysOf(g, Unreleased(needed, indeg), n) == []
  {
    if n > 0 { NothingUnreleased(g, needed, indeg, n - 1); }
  }

  /** The regular exit: everything needed is done, nothing is under way. */
  lemma CompleteRun<K, V, E>(g: Dag<K, V, E>, needed: seq<bool>, cfg: ExecutorConfig, s: Sched<V, E>)
    requires SchedInv(g, needed, cfg, s) && s.processed >= |MaskSet(needed)|
    requires EarlyExit(g, MaskSet(needed), cfg.maxInFlight) ==> DoneSet(s.core.vals) != MaskSet(needed)
    ensures KahnOutcome(g, MaskSet(needed), EarlyExit(g, MaskSet(needed), cfg.maxInFlight),
                        Success((s.core.vals, needed)))
    ensures FullRecord(g, MaskSet(needed), true, s.core.log) && s.core.Frontier() == multiset{}
  {
    CoreFits(g, needed, true, s.core);
    DoneIsNeeded(g, needed, true, s.core);
    SubsetSize(DoneSet(s.core.vals), MaskSet(needed));
    hide FlightInv, EarlyInv, EffectiveCap, EarlyExit, TraceInv, SeedOrder;
    CoreComplete(g, needed, true, s.core);
    CoreShape(g, needed, true, s.core);
  }

  /** A task recorded as started was sent, whatever became of it since. */
  lemma RecordedIsSent<K, V, E>(g: Dag<K, V, E>, needed: seq<bool>, cfg: ExecutorConfig, s: Sched<V, E>, i: nat)
    requires i < |s.core.log.workerId| && s.core.log.workerId[i].Some? && SchedInv(g, needed, cfg, s)
    ensures AllIds(s.sent)[i] > 0
  {
    hide CoreInv, EarlyInv, AllGood, EffectiveCap, SentByRecord;
    RecordedIsPlaced(g, needed, true, s.core, i);
  }

  /** Once everything sent has been called, the record and the calls match both ways. */
  lemma RecordMatchesCalls<K, V, E>(g: Dag<K, V, E>, needed: seq<bool>, cfg: ExecutorConfig, s: Sched<V, E>)
    requires SchedInv(g, needed, cfg, s)
    ensures CalledAsRecorded(s.core.log, s.sent)
  {
    hide CoreInv, EarlyInv, FlightInv, EffectiveCap;
    var recorded := s.core.log.workerId;
    forall w: nat, i: nat | i < |recorded| && recorded[i] == Some(w)
      ensures CalledBy(s.sent, w, i)
    {
      RecordedIsSent(g, needed, cfg, s, i);
      CalledTaskIsLogged(s.sent, i);
      var v, j :| 0 <= v < |s.sent| && 0 <= j < |s.sent[v]| && s.sent[v][j].id == i;
    }
  }

  lemma CallsFromFlight<K, V, E>(g: Dag<K, V, E>, needed: seq<bool>, workers: nat, done: set<nat>, s: Sched<V, E>,
                                 complete: bool)
    requires FlightInv(g, needed, workers, done, s)
    requires forall i: nat :: AllIds(s.lines)[i] <= 1 && (AllIds(s.lines)[i] > 0 ==> i !in done)
    requires complete ==> forall i :: i in MaskSet(needed) && i < |g.nodes| && Meaning(g, i) != Undefined ==> i in done
    ensures CallsSpec(g, MaskSet(needed), s.sent, complete)
  {
    hide GoodTask;
  }

  /** Calls after shutdown, when everything sent has been called. */
  lemma FinalCalls<K, V, E>(g: Dag<K, V, E>, needed: seq<bool>, cfg: ExecutorConfig, s: Sched<V, E>)
    requires SchedInv(g, needed, cfg, s)
    ensures CallsSpec(g, MaskSet(needed), s.sent, false)
    ensures s.core.Frontier() == multiset{} ==> CallsSpec(g, MaskSet(needed), s.sent, true)
  {
    hide CoreInv, EarlyInv, FlightInv, EffectiveCap, CallsSpec;
    CoreOpen(g, needed, true, s.core);
    if s.core.Frontier() == multiset{} { NothingLeft(g, needed, true, s.core); }
    forall i: nat
      ensures AllIds(s.lines)[i] <= 1 && (AllIds(s.lines)[i] > 0 ==> i !in DoneSet(s.core.vals))
    {
      assert AllIds(s.lines)[i] <= s.core.Frontier()[i];
    }
    CallsFromFlight(g, needed, cfg.maxWorkers, DoneSet(s.core.vals), s, false);
    if s.core.Frontier() == multiset{} {
      CallsFromFlight(g, needed, cfg.maxWorkers, DoneSet(s.core.vals), s, true);
    }
  }
}
