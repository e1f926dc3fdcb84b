/** The two plain requests of the rollup example: the batch root, sequentially and in parallel,
  * and the root of one chunk. */
module RollupRoots {
  import opened Wrappers
  import opened Graph
  import opened Outcomes
  import opened Calls
  import opened Schedule
  import opened Sequential
  import opened Parallel
  import opened Executors
  import opened KeyedGraph
  import opened Merkle
  import opened TreeGraph
  import opened RollupDag
  import opened RollupRequest

  // ---------------------------------------------------------------------------------------
  // What the requests need
  // ---------------------------------------------------------------------------------------

  /** Everything but the proof node. */
  ghost function BatchKeys(s: Setup): set<Key>
    requires s.Shaped()
  {
    set k | k in RollupKeys(s) && !k.ChunkProof?
  }

  lemma DepIsNoProof(s: Setup, k: Key, p: nat)
    requires !k.ChunkProof? && p < |PlanOf(s)(k).deps|
    ensures !PlanOf(s)(k).deps[p].ChunkProof?
  {
  }

  lemma BatchKeysClosed(s: Setup)
    requires s.Fits()
    ensures ClosedKeys(PlanOf(s), BatchKeys(s))
  {
    hide Setup.Shaped, Setup.Fits, PlanOf, RollupKeys;
    FitsBounds(s);
    RollupKeysClosed(s);
    forall k, p | k in BatchKeys(s) && 0 <= p < |PlanOf(s)(k).deps|
      ensures PlanOf(s)(k).deps[p] in BatchKeys(s)
    {
      DepIsNoProof(s, k, p);
    }
  }

  lemma BatchNodeNeeded(s: Setup, g: RollupGraph, m: nat, j: nat)
    requires Built(s, g) && KeyNeeded(g, [BatchRoot], BatchRoot)
    requires m <= s.spec.batchHeight && j < Pow2(s.spec.batchHeight - m)
    ensures KeyNeeded(g, [BatchRoot], BatchChildKey(m, j))
  {
    hide Setup.Shaped, Setup.Fits, Planned, PlanOf, RollupKeys, KeyNeeded, PlansTree, HasTree, Pow2;
    FitsBounds(s);
    var keys, plan, h := RollupKeys(s), PlanOf(s), s.spec.batchHeight;
    BatchShape(s);
    BatchHasTree(s);
    AliasPlans(s, 0);
    DepNeeded(g, keys, plan, [BatchRoot], BatchRoot, 0);
    UnderTop(h, m, j);
    TopFits(h);
    SubtreeNeeded(g, keys, plan, BatchChildKey, s.hash, h, [BatchRoot], h, 0, m, j);
  }

  lemma ChunkNodeNeeded(s: Setup, g: RollupGraph, c: nat, m: nat, j: nat)
    requires Built(s, g) && c < s.Chunks() && KeyNeeded(g, [BatchRoot], ChunkRoot(c))
    requires m <= s.spec.chunkHeight && j < Pow2(s.spec.chunkHeight - m)
    ensures KeyNeeded(g, [BatchRoot], ChunkChildKey(c, m, j, s.spec.chunkSize))
  {
    hide Setup.Shaped, Setup.Fits, Planned, PlanOf, RollupKeys, KeyNeeded, PlansTree, PlansBase, HasTree, Pow2;
    FitsBounds(s);
    SpecBounds(s);
    var keys, plan, h := RollupKeys(s), PlanOf(s), s.spec.chunkHeight;
    var key := ChunkTree(c, s.spec.chunkSize);
    ChunkShape(s, c);
    ChunkHasTree(s, c);
    AliasPlans(s, c);
    DepNeeded(g, keys, plan, [BatchRoot], ChunkRoot(c), 0);
    assert key(h, 0) == ChunkNode(c, h, 0);
    UnderTop(h, m, j);
    TopFits(h);
    SubtreeNeeded(g, keys, plan, key, s.hash, h, [BatchRoot], h, 0, m, j);
  }

  /** Where a transaction lies. */
  lemma ChunkOfTx(s: Setup, i: nat)
    requires s.Shaped() && i < |s.txs|
    ensures var c, j := i / s.spec.chunkSize, i % s.spec.chunkSize;
            c < s.Chunks() && j < Pow2(s.spec.chunkHeight) && c * s.spec.chunkSize + j == i
  {
    hide Pow2, Setup.Chunks;
    SpecBounds(s);
    var c, cs := i / s.spec.chunkSize, s.spec.chunkSize;
    assert i == cs * c + i % cs;
    if c >= s.Chunks() { ScaledLe(s.Chunks(), c, cs); }
  }

  /** Every key but the proof node is needed for the batch root. */
  lemma NeededForBatch(s: Setup, g: RollupGraph, k: Key)
    requires Built(s, g) && KeyNeeded(g, [BatchRoot], BatchRoot) && Present(s, k) && !k.ChunkProof?
    ensures KeyNeeded(g, [BatchRoot], k)
    decreases match k case Tx(_) => 1 case _ => 0
  {
    hide Setup.Shaped, Setup.Fits, Setup.Chunks, Planned, PlanOf, RollupKeys, KeyNeeded, Pow2, ShiftRight;
    FitsBounds(s);
    SpecBounds(s);
    TopFits(s.spec.batchHeight);
    match k
    case Tx(i) =>
      NeededForBatch(s, g, Leaf(i));
      LeafPlan(s, i);
      DepNeeded(g, RollupKeys(s), PlanOf(s), [BatchRoot], Leaf(i), 0);
    case Leaf(i) =>
      ChunkOfTx(s, i);
      BatchNodeNeeded(s, g, 0, i / s.spec.chunkSize);
      ChunkNodeNeeded(s, g, i / s.spec.chunkSize, 0, i % s.spec.chunkSize);
    case ChunkNode(c, l, j) =>
      WidthFits(s.spec.chunkHeight, l);
      BatchNodeNeeded(s, g, 0, c);
      ChunkNodeNeeded(s, g, c, l, j);
    case ChunkRoot(c) => BatchNodeNeeded(s, g, 0, c);
    case BatchNode(l, j) =>
      WidthFits(s.spec.batchHeight, l);
      BatchNodeNeeded(s, g, l, j);
    case BatchRoot =>
  }

  lemma BatchNeeds(s: Setup, g: RollupGraph)
    requires Built(s, g)
    ensures BatchKeys(s) <= RollupKeys(s) && FirstUnknown(g, [BatchRoot]).None?
    ensures Requested(g, [BatchRoot]) == IdsOf(g, BatchKeys(s))
  {
    hide Setup.Shaped, Setup.Fits, Planned, PlanOf, RollupKeys, KeyNeeded, Present, IdsOf, Requested, ClosedKeys;
    FitsBounds(s);
    SpecBounds(s);
    var keys, plan, roots := RollupKeys(s), PlanOf(s), [BatchRoot];
    RootPresent(s);
    RollupMember(s, roots[0]);
    KeysIndexed(g, keys, plan);
    RootNeeded(g, keys, plan, roots, 0);
    forall k | k in BatchKeys(s)
      ensures KeyNeeded(g, roots, k)
    {
      RollupMember(s, k);
      NeededForBatch(s, g, k);
    }
    BatchKeysClosed(s);
    NeededKeys(g, keys, plan, roots, BatchKeys(s));
  }

  lemma RootPresent(s: Setup)
    requires s.spec.chunkSize > 0
    ensures Present(s, BatchRoot)
  {
  }

  /** One chunk tree and its alias. */
  ghost function ChunkKeys(s: Setup): set<Key>
    requires s.Fits()
  {
    TargetTree(s) + {ChunkRoot(s.TargetChunk())}
  }

  lemma ChunkKeysClosed(s: Setup)
    requires s.Fits()
    ensures ClosedKeys(PlanOf(s), ChunkKeys(s))
  {
    hide Setup.Shaped, Setup.Fits, Setup.TargetChunk, PlanOf, TargetTree;
    FitsBounds(s);
    SpecBounds(s);
    TreeClosed(s);
    AliasPlans(s, s.TargetChunk());
    TopFits(s.spec.chunkHeight);
    TreeHasNode(s, s.spec.chunkHeight, 0);
  }

  lemma ChunkNeeds(s: Setup, g: RollupGraph)
    requires Built(s, g)
    ensures ChunkKeys(s) <= RollupKeys(s) && FirstUnknown(g, [ChunkRoot(s.TargetChunk())]).None?
    ensures Requested(g, [ChunkRoot(s.TargetChunk())]) == IdsOf(g, ChunkKeys(s))
  {
    hide Setup.Shaped, Setup.Fits, Setup.TargetChunk, Setup.TargetPos, Planned, PlanOf, RollupKeys, TargetTree,
      KeyNeeded, Present, IdsOf, Requested, ClosedKeys;
    FitsBounds(s);
    SpecBounds(s);
    var keys, plan, roots := RollupKeys(s), PlanOf(s), [ChunkRoot(s.TargetChunk())];
    RequestPresent(s);
    RollupMember(s, roots[0]);
    KeysIndexed(g, keys, plan);
    RootNeeded(g, keys, plan, roots, 0);
    TreeNeeded(s, g, roots);
    ChunkKeysClosed(s);
    NeededAreKeys(g, keys, plan, roots, ChunkKeys(s));
    NeededKeys(g, keys, plan, roots, ChunkKeys(s));
  }

  // ---------------------------------------------------------------------------------------
  // What the requests cost
  // ---------------------------------------------------------------------------------------

  lemma ChunkInnerSize(s: Setup, c: nat)
    requires s.Shaped()
    ensures |ChunkInner(s, c)| == s.spec.chunkSize - 1
  {
    hide Setup.Shaped, Pow2, LevelKeys, PlansTree, PlansBase, InnerInjective, ChunkTree;
    SpecBounds(s);
    ChunkShape(s, c);
    PerfectLevels(ChunkTree(c, s.spec.chunkSize), s.spec.chunkHeight);
  }

  lemma NextPartSize(s: Setup, n: nat)
    ensures |ChunkPart(s, n + 1)| == |ChunkPart(s, n)| + |ChunkInner(s, n)| + 1
  {
    NextChunk(s, n);
    hide LeafPart, ChunkInner, LevelKeys;
    var before, inner := ChunkPart(s, n), ChunkInner(s, n);
    assert before !! inner && ChunkRoot(n) !in before + inner;
    assert |before + inner| == |before| + |inner|;
  }

  lemma NoChunkPart(s: Setup)
    ensures |ChunkPart(s, 0)| == 0
  {
  }

  /** With its alias, a chunk has as many keys above the leaves as it has transactions. */
  lemma {:induction false} ChunkPartSize(s: Setup, n: nat)
    requires s.Shaped()
    ensures |ChunkPart(s, n)| == n * s.spec.chunkSize
  {
    hide *;
    if n == 0 {
      NoChunkPart(s);
    } else {
      ChunkPartSize(s, n - 1);
      NextPartSize(s, n - 1);
      ChunkInnerSize(s, n - 1);
      assert (n - 1) * s.spec.chunkSize + s.spec.chunkSize == n * s.spec.chunkSize;
    }
  }

  lemma BatchInnerSize(s: Setup)
    requires s.Fits()
    ensures |BatchInner(s)| == s.Chunks() - 1
  {
    hide Setup.Shaped, Setup.Fits, Setup.Chunks, Pow2, LevelKeys, PlansTree, InnerInjective;
    FitsBounds(s);
    SpecBounds(s);
    BatchShape(s);
    hide PlanOf;
    PerfectLevels(BatchChildKey, s.spec.batchHeight);
  }

  /** All chunk trees and the batch tree together. */
  lemma InnerTotal(s: Setup)
    requires s.Fits()
    ensures |AllInner(s)| == |s.txs| - 1
  {
    FitsBounds(s);
    BranchBounds(s);
    hide *;
    SpecBounds(s);
    var n := s.Chunks();
    var aliases := KeyRange(RootKey, 0, n);
    RootsDiffer();
    KeyRangeSize(RootKey, 0, n);
    ChunkPartSize(s, n);
    BatchInnerSize(s);
    InnerParts(s);
    LeavesEnough(s);
    assert |ChunkPart(s, n) - aliases| == |ChunkPart(s, n)| - |aliases|;
  }

  lemma RootsDiffer()
    ensures forall a: nat, b: nat :: a < b ==> RootKey(a) != RootKey(b)
  {
  }

  function RootKey(c: nat): Key {
    ChunkRoot(c)
  }

  lemma InnerParts(s: Setup)
    requires s.Fits()
    ensures var n, aliases := s.Chunks(), KeyRange(RootKey, 0, s.Chunks());
            && aliases <= ChunkPart(s, n) && ChunkPart(s, n) !! BatchInner(s)
            && AllInner(s) == (ChunkPart(s, n) - aliases) + BatchInner(s)
  {
    hide Setup.Shaped, Setup.Fits, Setup.Chunks, ChunkPart, ChunkInner, BatchInner, RollupKeys, ShiftRight;
    FitsBounds(s);
    SpecBounds(s);
    var n := s.Chunks();
    forall k: Key
      ensures k in AllInner(s) <==> (k in ChunkPart(s, n) && k.ChunkNode?) || k in BatchInner(s)
      ensures k in ChunkPart(s, n) ==> k.ChunkNode? || (k.ChunkRoot? && k.chunk < n)
      ensures k.ChunkRoot? && k.chunk < n ==> k in ChunkPart(s, n)
      ensures k in BatchInner(s) ==> k.BatchNode?
      ensures k in KeyRange(RootKey, 0, n) <==> k.ChunkRoot? && k.chunk < n
    {
      RollupMember(s, k);
      ChunkPartMember(s, n, k);
      if k.ChunkNode? { ChunkInnerMember(s, k.chunk, k); }
      BatchInnerMember(s, k);
      if k.ChunkRoot? { assert RootKey(k.chunk) == k; }
    }
  }

  lemma BatchCounts(s: Setup)
    requires s.Fits()
    ensures |AllLeaves(s) * BatchKeys(s)| == |s.txs| && |AllInner(s) * BatchKeys(s)| == |s.txs| - 1
    ensures |AllProofs(s) * BatchKeys(s)| == 0
  {
    hide Setup.Shaped, Setup.Fits, RollupKeys, PlanOf;
    FitsBounds(s);
    SpecBounds(s);
    InnerTotal(s);
    CountedAreTasks(s);
    KeyRangeSize(LeafKey, 0, |s.txs|);
    assert AllLeaves(s) * BatchKeys(s) == AllLeaves(s);
    assert AllInner(s) * BatchKeys(s) == AllInner(s);
    assert AllProofs(s) * BatchKeys(s) == {};
  }

  lemma ChunkCounts(s: Setup)
    requires s.Fits()
    ensures |AllLeaves(s) * ChunkKeys(s)| == s.spec.chunkSize && |AllInner(s) * ChunkKeys(s)| == s.spec.chunkSize - 1
    ensures |AllProofs(s) * ChunkKeys(s)| == 0
  {
    hide Setup.Shaped, Setup.Fits, Setup.TargetChunk, Setup.TargetPos, TargetTree, RollupKeys;
    FitsBounds(s);
    SpecBounds(s);
    LeafCount(s);
    InnerCount(s);
    forall k | k in TargetTree(s)
      ensures !k.ChunkProof?
    {
      TreeShape(s, k);
    }
    assert AllLeaves(s) * ChunkKeys(s) == AllLeaves(s) * ProofKeys(s);
    assert AllInner(s) * ChunkKeys(s) == AllInner(s) * ProofKeys(s);
    assert AllProofs(s) * ChunkKeys(s) == {};
  }

  // ---------------------------------------------------------------------------------------
  // The requests
  // ---------------------------------------------------------------------------------------

  /** Calls of each kind of task: leaf hashes, inner hashes, proof assemblies. */
  ghost predicate Costs(s: Setup, g: RollupGraph, calls: seq<seq<Task<Bytes, string>>>, leaf: nat, inner: nat,
                        proofs: nat)
    requires s.Shaped()
  {
    && TotalCalls(calls, IdsOf(g, AllLeaves(s))) == leaf
    && TotalCalls(calls, IdsOf(g, AllInner(s))) == inner
    && TotalCalls(calls, IdsOf(g, AllProofs(s))) == proofs
  }

  lemma BatchCalls(s: Setup, g: RollupGraph, calls: seq<seq<Task<Bytes, string>>>)
    requires Built(s, g) && CallsSpec(g, Requested(g, [BatchRoot]), calls, true)
    ensures Costs(s, g, calls, |s.txs|, |s.txs| - 1, 0)
  {
    BuiltParts(s, g);
    FitsBounds(s);
    hide Setup.Shaped, Setup.Fits, Built, CallsSpec, TotalCalls, IdsOf, Requested, BatchKeys, AllLeaves, AllInner,
      AllProofs, RollupKeys, PlanOf, Planned;
    BatchNeeds(s, g);
    KindsCalled(s, g, [BatchRoot], BatchKeys(s), calls);
    BatchCounts(s);
  }

  lemma ChunkCalls(s: Setup, g: RollupGraph, calls: seq<seq<Task<Bytes, string>>>)
    requires Built(s, g) && CallsSpec(g, Requested(g, [ChunkRoot(s.TargetChunk())]), calls, true)
    ensures Costs(s, g, calls, s.spec.chunkSize, s.spec.chunkSize - 1, 0)
  {
    BuiltParts(s, g);
    FitsBounds(s);
    SpecBounds(s);
    hide Setup.Shaped, Setup.Fits, Setup.TargetChunk, Built, CallsSpec, TotalCalls, IdsOf, Requested, ChunkKeys,
      AllLeaves, AllInner, AllProofs, RollupKeys, PlanOf, Planned;
    ChunkNeeds(s, g);
    KindsCalled(s, g, [ChunkRoot(s.TargetChunk())], ChunkKeys(s), calls);
    ChunkCounts(s);
  }

  /** An alias has a dependency, so its request has no early exit. */
  lemma AliasAnswered(s: Setup, g: RollupGraph, cfg: ExecutorConfig, k: Key, v: Bytes,
                      run: Result<Artifacts<Bytes>, ExecError<Key, string>>,
                      r: Result<map<Key, Bytes>, ExecError<Key, string>>)
    requires Built(s, g) && Accepted(cfg) && Present(s, k) && PlanOf(s)(k).deps != [] && Means(g, k, v)
    requires ParallelOutcome(g, cfg, [k], run) && Delivers(g, [k], run, r)
    ensures r == Success(map[k := v])
  {
    BuiltParts(s, g);
    FitsBounds(s);
    hide Setup.Shaped, Setup.Fits, Planned, PlanOf, RollupKeys, ParallelOutcome, Delivers, AllMean, IsAnswer, Present,
      EarlyExit, Means;
    RollupAllMean(s, g);
    RollupMember(s, k);
    KeysIndexed(g, RollupKeys(s), PlanOf(s));
    DepsPreventEarlyExit(g, RollupKeys(s), PlanOf(s), [k], 0, cfg.maxInFlight);
    RequestAnswered(g, cfg, [k], run, r);
    SingleAnswer(g, k, v, r.value);
  }

  lemma AliasAnsweredInTurn(s: Setup, g: RollupGraph, k: Key, v: Bytes,
                            run: Result<Artifacts<Bytes>, ExecError<Key, string>>,
                            r: Result<map<Key, Bytes>, ExecError<Key, string>>)
    requires Built(s, g) && Present(s, k) && Means(g, k, v)
    requires SequentialOutcome(g, [k], run) && Delivers(g, [k], run, r)
    ensures r == Success(map[k := v])
  {
    BuiltParts(s, g);
    FitsBounds(s);
    hide Setup.Shaped, Setup.Fits, Planned, PlanOf, RollupKeys, SequentialOutcome, Delivers, AllMean, IsAnswer, Present,
      Means;
    RollupAllMean(s, g);
    RollupMember(s, k);
    KeysIndexed(g, RollupKeys(s), PlanOf(s));
    SequentialAnswered(g, [k], run, r);
    SingleAnswer(g, k, v, r.value);
  }

  /** The batch-root request, end to end, sequentially and under every interleaving of the
    * parallel run: the root over the chunk roots, with one leaf hash per transaction, one inner
    * hash less, and no proof. */
  method RequestBatchRoot(s: Setup, cfg: ExecutorConfig)
    returns (seqOut: Result<map<Key, Bytes>, ExecError<Key, string>>,
             parOut: Result<map<Key, Bytes>, ExecError<Key, string>>, ghost g: RollupGraph,
             ghost seqCalls: seq<Task<Bytes, string>>, ghost parCalls: seq<seq<Task<Bytes, string>>>)
    requires s.Fits() && Accepted(cfg)
    ensures seqOut == parOut == Success(map[BatchRoot := BatchRootOf(s)])
    ensures Costs(s, g, [seqCalls], |s.txs|, |s.txs| - 1, 0) && Costs(s, g, parCalls, |s.txs|, |s.txs| - 1, 0)
  {
    hide *;
    FitsBounds(s);
    SpecBounds(s);
    BuildsExactly(s);
    var built := BuildRollupCommitmentDag(s);
    var dag := built.value.0;
    g := dag;
    IsBuilt(s, dag);
    BuiltParts(s, dag);
    BatchNeeds(s, dag);
    BatchRootMeans(s, dag);
    RootPresent(s);
    AliasPlans(s, 0);
    seqOut, seqCalls := RunSequential(dag, [BatchRoot]);
    ghost var run :| SequentialOutcome(dag, [BatchRoot], run) && Delivers(dag, [BatchRoot], run, seqOut);
    AliasAnsweredInTurn(s, dag, BatchRoot, BatchRootOf(s), run, seqOut);
    SucceededIsNoFailure(seqOut);
    BatchCalls(s, dag, [seqCalls]);
    parOut, parCalls := RunParallel(dag, cfg, [BatchRoot]);
    ghost var prun :| ParallelOutcome(dag, cfg, [BatchRoot], prun) && Delivers(dag, [BatchRoot], prun, parOut);
    AliasAnswered(s, dag, cfg, BatchRoot, BatchRootOf(s), prun, parOut);
    SucceededIsNoFailure(parOut);
    BatchCalls(s, dag, parCalls);
  }

  /** The chunk-root request, end to end, under every interleaving of the parallel run: only
    * that chunk is hashed. */
  method RequestChunkRoot(s: Setup, cfg: ExecutorConfig)
    returns (out: Result<map<Key, Bytes>, ExecError<Key, string>>, ghost g: RollupGraph,
             ghost calls: seq<seq<Task<Bytes, string>>>)
    requires s.Fits() && Accepted(cfg)
    ensures s.TargetChunk() < s.Chunks()
    ensures out == Success(map[ChunkRoot(s.TargetChunk()) := ChunkRootOf(s, s.TargetChunk())])
    ensures Costs(s, g, calls, s.spec.chunkSize, s.spec.chunkSize - 1, 0)
  {
    hide *;
    FitsBounds(s);
    SpecBounds(s);
    TargetFits(s);
    BuildsExactly(s);
    var built := BuildRollupCommitmentDag(s);
    var dag, rootKey := built.value.0, built.value.1;
    g := dag;
    IsBuilt(s, dag);
    BuiltParts(s, dag);
    ChunkNeeds(s, dag);
    ChunkRootMeans(s, dag, s.TargetChunk());
    RequestPresent(s);
    AliasPlans(s, s.TargetChunk());
    out, calls := RunParallel(dag, cfg, [rootKey]);
    ghost var run :| ParallelOutcome(dag, cfg, [rootKey], run) && Delivers(dag, [rootKey], run, out);
    AliasAnswered(s, dag, cfg, rootKey, ChunkRootOf(s, s.TargetChunk()), run, out);
    SucceededIsNoFailure(out);
    ChunkCalls(s, dag, calls);
  }
}
