/** The Merkle tree example: a perfect binary tree built as a graph, and the cost and value of
  * a request for one of its subtrees. */
module MerkleDag {
  import opened Wrappers
  import opened Graph
  import opened Builder
  import opened Outcomes
  import opened Calls
  import opened Schedule
  import opened Parallel
  import opened Executors
  import opened KeyedGraph
  import opened Merkle
  import opened TreeGraph

  datatype Key = Tx(i: nat) | Leaf(i: nat) | Inner(level: nat, idx: nat)

  function MerkleKey(level: nat, idx: nat): Key {
    if level == 0 then Leaf(idx) else Inner(level, idx)
  }

  function TxKey(i: nat): Key {
    Tx(i)
  }

  function LeafKey(i: nat): Key {
    Leaf(i)
  }

  ghost function MerklePlan(txs: seq<Bytes>, leafHash: Bytes -> Digest, hash: NodeHash): Plan<Key, Bytes, string> {
    (k: Key) =>
      match k
      case Tx(i) => StagedNode(k, [], Source(if i < |txs| then txs[i] else []))
      case Leaf(i) => StagedNode(k, [Tx(i)], NodeKind.Task(LeafTask(leafHash)))
      case Inner(l, j) => if l > 0 then PairNode(MerkleKey, hash, l, j) else StagedNode(k, [], Source([]))
  }

  ghost function LeafPart(h: nat): set<Key> {
    KeyRange(TxKey, 0, Pow2(h)) + KeyRange(LeafKey, 0, Pow2(h))
  }

  ghost function InnerPart(h: nat): set<Key> {
    set m: nat, j: nat | 1 <= m <= h && j < Pow2(h - m) :: MerkleKey(m, j)
  }

  ghost function MerkleKeys(h: nat): set<Key> {
    LeafPart(h) + InnerPart(h)
  }

  /** The plan has the shape of a tree of height h over the transactions. */
  lemma PlanShape(txs: seq<Bytes>, leafHash: Bytes -> Digest, hash: NodeHash, h: nat)
    requires |txs| == Pow2(h)
    ensures LeavesDistinct(TxKey, LeafKey)
    ensures PlansLeaves(MerklePlan(txs, leafHash, hash), TxKey, LeafKey, leafHash, txs)
    ensures InnerInjective(MerkleKey) && PlansTree(MerklePlan(txs, leafHash, hash), MerkleKey, hash)
    ensures PlansBase(MerklePlan(txs, leafHash, hash), MerkleKey, TxKey, Pow2(h))
    ensures LeafPart(h) !! InnerPart(h) && HasTree(MerkleKeys(h), MerkleKey, h)
  {
    forall l: nat, j: nat | l <= h && j < Pow2(h - l)
      ensures MerkleKey(l, j) in MerkleKeys(h)
    {
      if l == 0 { assert LeafKey(j) in KeyRange(LeafKey, 0, Pow2(h)); }
    }
  }

  lemma AllKeysClosed(txs: seq<Bytes>, leafHash: Bytes -> Digest, hash: NodeHash, h: nat)
    requires |txs| == Pow2(h)
    ensures ClosedKeys(MerklePlan(txs, leafHash, hash), MerkleKeys(h))
  {
    var plan := MerklePlan(txs, leafHash, hash);
    forall k, p | k in MerkleKeys(h) && 0 <= p < |plan(k).deps|
      ensures plan(k).deps[p] in MerkleKeys(h)
    {
      match k
      case Tx(i) => NoDeps(txs, leafHash, hash, i);
      case Leaf(i) => assert TxKey(i) in KeyRange(TxKey, 0, Pow2(h));
      case Inner(l, j) => InnerChild(txs, leafHash, hash, h, l, j, p);
    }
  }

  lemma NoDeps(txs: seq<Bytes>, leafHash: Bytes -> Digest, hash: NodeHash, i: nat)
    ensures MerklePlan(txs, leafHash, hash)(Tx(i)).deps == []
  {
  }

  lemma InnerPlan(txs: seq<Bytes>, leafHash: Bytes -> Digest, hash: NodeHash, l: nat, j: nat)
    requires l >= 1
    ensures MerklePlan(txs, leafHash, hash)(Inner(l, j)).deps == [MerkleKey(l - 1, 2 * j), MerkleKey(l - 1, 2 * j + 1)]
  {
  }

  lemma InnerChild(txs: seq<Bytes>, leafHash: Bytes -> Digest, hash: NodeHash, h: nat, l: nat, j: nat, p: nat)
    requires |txs| == Pow2(h) && 1 <= l <= h && j < Pow2(h - l)
    requires p < |MerklePlan(txs, leafHash, hash)(Inner(l, j)).deps|
    ensures MerklePlan(txs, leafHash, hash)(Inner(l, j)).deps[p] in MerkleKeys(h)
  {
    hide MerklePlan, PlansTree, PlansBase, PlansLeaves, MerkleKeys, HasTree, LeavesDistinct, LeafPart, InnerPart;
    PlanShape(txs, leafHash, hash, h);
    InnerPlan(txs, leafHash, hash, l, j);
    assert Pow2(h - l + 1) == 2 * Pow2(h - l);
    TreeNodeKnown(MerkleKeys(h), h, l - 1, 2 * j + p);
  }

  /** Build the tree: sources and leaves first, then the levels bottom up. The build cannot
    * fail, and the graph has the planned nodes and no others. */
  method BuildMerkleDag(txs: seq<Bytes>, height: nat, subtreeLevel: nat, subtreeIndex: nat,
                        leafHash: Bytes -> Digest, hash: NodeHash)
    returns (r: Result<(Dag<Key, Bytes, string>, Key, Key), BuildError<Key>>)
    requires |txs| == Pow2(height) && height < USIZE_BITS
    ensures r.Success? && Planned(r.value.0, MerkleKeys(height), MerklePlan(txs, leafHash, hash))
    ensures r.value.1 == MerkleKey(height, 0) && r.value.2 == MerkleKey(subtreeLevel, subtreeIndex)
  {
    hide *;
    ghost var plan := MerklePlan(txs, leafHash, hash);
    PlanShape(txs, leafHash, hash, height);
    AllKeysClosed(txs, leafHash, hash, height);
    var b := new DagBuilder<Key, Bytes, string>();
    var added := AddLeaves(b, txs, TxKey, LeafKey, leafHash, plan);
    PartsAre(height);
    added := AddLevels(b, |txs|, height, MerkleKey, hash, LeafPart(height), plan);
    SomethingStaged(b.staging, plan, height);
    NothingDangles(b.staging, MerkleKeys(height), plan);
    var g := b.Build();
    CompiledAsPlanned(b.staging, g.value, MerkleKeys(height), plan);
    r := Success((g.value, MerkleKey(height, 0), MerkleKey(subtreeLevel, subtreeIndex)));
  }

  lemma PartsAre(h: nat)
    requires h < USIZE_BITS
    ensures LeafPart(h) == KeyRange(TxKey, 0, Pow2(h)) + KeyRange(LeafKey, 0, Pow2(h))
    ensures InnerPart(h) == LevelKeys(MerkleKey, Pow2(h), h, h + 1, 0)
    ensures MerkleKeys(h) == LeafPart(h) + InnerPart(h)
  {
    forall m: nat | 1 <= m <= h
      ensures ShiftRight(Pow2(h), m) == Pow2(h - m)
    {
      WidthFits(h, m);
    }
  }

  lemma SomethingStaged(staging: seq<StagedNode<Key, Bytes, string>>, plan: Plan<Key, Bytes, string>, h: nat)
    requires Staged(staging, MerkleKeys(h), plan)
    ensures staging != []
  {
    assert TxKey(0) in KeyRange(TxKey, 0, Pow2(h));
    assert Known(staging, Tx(0));
  }

  // ---------------------------------------------------------------------------------------
  // Subtree requests
  // ---------------------------------------------------------------------------------------

  lemma LeavesAreMeant(g: Dag<Key, Bytes, string>, txs: seq<Bytes>, h: nat, leafHash: Bytes -> Digest, hash: NodeHash)
    requires |txs| == Pow2(h) && Planned(g, MerkleKeys(h), MerklePlan(txs, leafHash, hash))
    ensures LeavesMean(g, MerkleKey, LeafHashes(leafHash, txs))
    ensures forall j: nat :: j < |txs| ==> Means(g, TxKey(j), txs[j])
  {
    hide Planned, Means, PlansTree, PlansLeaves, PlansBase, HasTree, LeavesDistinct, MerklePlan;
    PlanShape(txs, leafHash, hash, h);
    forall j: nat | j < |txs|
      ensures Means(g, TxKey(j), txs[j]) && Means(g, MerkleKey(0, j), leafHash(txs[j]))
    {
      assert TxKey(j) in KeyRange(TxKey, 0, Pow2(h)) && LeafKey(j) in KeyRange(LeafKey, 0, Pow2(h));
      LeafKeyMeans(g, MerkleKeys(h), MerklePlan(txs, leafHash, hash), TxKey, LeafKey, leafHash, txs, j);
    }
  }

  /** A tree key means the Merkle root of the slice of leaves below it. */
  lemma TreeKeyMeans(g: Dag<Key, Bytes, string>, txs: seq<Bytes>, h: nat, leafHash: Bytes -> Digest, hash: NodeHash,
                     l: nat, j: nat)
    requires |txs| == Pow2(h) && Planned(g, MerkleKeys(h), MerklePlan(txs, leafHash, hash)) && l <= h && j < Pow2(h - l)
    ensures Shl(j + 1, l) <= |txs|
    ensures Means(g, MerkleKey(l, j), TreeRoot(hash, Slice(LeafHashes(leafHash, txs), l, j), l))
  {
    hide Planned, Means, PlansTree, PlansLeaves, PlansBase, HasTree, LeavesMean, MerklePlan, TreeRoot, Slice, NodeAt,
      Shl;
    PlanShape(txs, leafHash, hash, h);
    LeavesAreMeant(g, txs, h, leafHash, hash);
    var leaves := LeafHashes(leafHash, txs);
    TreeMeans(g, MerkleKeys(h), MerklePlan(txs, leafHash, hash), MerkleKey, hash, h, leaves, l, j);
    NodeIsSliceRoot(hash, leaves, l, j);
  }

  lemma MerkleAllMean(g: Dag<Key, Bytes, string>, txs: seq<Bytes>, h: nat, leafHash: Bytes -> Digest, hash: NodeHash)
    requires |txs| == Pow2(h) && Planned(g, MerkleKeys(h), MerklePlan(txs, leafHash, hash))
    ensures AllMean(g)
  {
    hide Planned, Means, MerklePlan, TreeRoot, Slice, Shl, Pow2;
    LeavesAreMeant(g, txs, h, leafHash, hash);
    forall k | k in MerkleKeys(h)
      ensures exists v :: Means(g, k, v)
    {
      match k
      case Tx(i) => assert Means(g, TxKey(i), txs[i]);
      case Leaf(i) => TreeKeyMeans(g, txs, h, leafHash, hash, 0, i);
      case Inner(l, j) => TreeKeyMeans(g, txs, h, leafHash, hash, l, j);
    }
    EveryKeyMeans(g, MerkleKeys(h), MerklePlan(txs, leafHash, hash));
  }

  /** A request for a tree node needs exactly its subtree. */
  lemma SubtreeIsNeeded(g: Dag<Key, Bytes, string>, txs: seq<Bytes>, h: nat, leafHash: Bytes -> Digest, hash: NodeHash,
                        l: nat, idx: nat)
    requires |txs| == Pow2(h) && Planned(g, MerkleKeys(h), MerklePlan(txs, leafHash, hash))
    requires l <= h && idx < Pow2(h - l)
    ensures SubtreeKeys(MerkleKey, TxKey, l, idx) <= MerkleKeys(h)
    ensures Requested(g, [MerkleKey(l, idx)]) == IdsOf(g, SubtreeKeys(MerkleKey, TxKey, l, idx))
  {
    hide Planned, PlansTree, PlansBase, PlansLeaves, HasTree, LeavesDistinct, InnerInjective, SubtreeKeys, MerklePlan;
    var keys, plan, roots := MerkleKeys(h), MerklePlan(txs, leafHash, hash), [MerkleKey(l, idx)];
    var s := SubtreeKeys(MerkleKey, TxKey, l, idx);
    PlanShape(txs, leafHash, hash, h);
    TreeNodeKnown(keys, h, l, idx);
    RootNeeded(g, keys, plan, roots, 0);
    SubtreeAllNeeded(g, keys, plan, MerkleKey, TxKey, hash, h, roots, l, idx);
    SubtreeClosed(plan, MerkleKey, TxKey, hash, h, l, idx);
    assert Under(l, idx, l, idx);
    SubtreeMember(MerkleKey, TxKey, l, idx, l, idx);
    NeededAreKeys(g, keys, plan, roots, s);
    NeededKeys(g, keys, plan, roots, s);
  }

  lemma TreeNodeKnown(keys: set<Key>, h: nat, l: nat, idx: nat)
    requires HasTree(keys, MerkleKey, h) && l <= h && idx < Pow2(h - l)
    ensures MerkleKey(l, idx) in keys
  {
  }

  lemma SubtreeLeaves(h: nat, l: nat, idx: nat)
    requires l <= h && idx < Pow2(h - l)
    ensures |KeyRange(LeafKey, 0, Pow2(h)) * SubtreeKeys(MerkleKey, TxKey, l, idx)| == Pow2(l)
  {
    hide SubtreeKeys, Shl, Pow2;
    var s, lo, hi := SubtreeKeys(MerkleKey, TxKey, l, idx), Shl(idx, l), Shl(idx + 1, l);
    ShlNext(idx, l);
    NodeFits(idx, l, h);
    KeyRangeSize(LeafKey, lo, hi);
    var leaves, below := KeyRange(LeafKey, 0, Pow2(h)) * s, KeyRange(LeafKey, lo, hi);
    forall k | k in below
      ensures k in leaves
    {
      assert Under(l, idx, 0, k.i);
      SubtreeMember(MerkleKey, TxKey, l, idx, 0, k.i);
    }
    forall k | k in leaves
      ensures k in below
    {
      SubtreeShape(MerkleKey, TxKey, l, idx, k);
    }
    assert leaves == below;
  }

  lemma SubtreeInner(h: nat, l: nat, idx: nat)
    requires l <= h && idx < Pow2(h - l)
    ensures |InnerPart(h) * SubtreeKeys(MerkleKey, TxKey, l, idx)| == Pow2(l) - 1
  {
    hide SubtreeKeys, Shl, Pow2;
    var s, inner := SubtreeKeys(MerkleKey, TxKey, l, idx), InnerKeys(MerkleKey, l, idx, l);
    InnerKeysSize(MerkleKey, l, idx, l);
    assert Pow2(0) == 1 by { PowerOfNone(); }
    forall k | k in inner
      ensures k in InnerPart(h) * s
    {
      assert Under(l, idx, k.level, k.idx);
      UnderFits(h, l, idx, k.level, k.idx);
      SubtreeMember(MerkleKey, TxKey, l, idx, k.level, k.idx);
      assert MerkleKey(k.level, k.idx) == k;
    }
    forall k | k in InnerPart(h) * s
      ensures k in inner
    {
      SubtreeShape(MerkleKey, TxKey, l, idx, k);
      assert MerkleKey(k.level, k.idx) == k;
    }
    assert InnerPart(h) * s == inner;
  }

  /** Any parallel run of the request answers with the root of the slice. */
  lemma SubtreeAnswer(g: Dag<Key, Bytes, string>, txs: seq<Bytes>, h: nat, l: nat, idx: nat, leafHash: Bytes -> Digest,
                      hash: NodeHash, cfg: ExecutorConfig, run: Result<Artifacts<Bytes>, ExecError<Key, string>>,
                      r: Result<map<Key, Bytes>, ExecError<Key, string>>)
    requires |txs| == Pow2(h) && Planned(g, MerkleKeys(h), MerklePlan(txs, leafHash, hash))
    requires l <= h && idx < Pow2(h - l)
    requires Accepted(cfg) && ParallelOutcome(g, cfg, [MerkleKey(l, idx)], run)
    requires Delivers(g, [MerkleKey(l, idx)], run, r)
    ensures Shl(idx + 1, l) <= |txs| && FirstUnknown(g, [MerkleKey(l, idx)]).None?
    ensures r == Success(map[MerkleKey(l, idx) := TreeRoot(hash, Slice(LeafHashes(leafHash, txs), l, idx), l)])
  {
    hide Planned, MerklePlan, ParallelOutcome, Delivers, TreeRoot, Slice, Shl, MerkleKeys, PlansTree, PlansBase,
      EarlyExit;
    var roots, key := [MerkleKey(l, idx)], MerkleKey(l, idx);
    MerkleAllMean(g, txs, h, leafHash, hash);
    TreeKeyMeans(g, txs, h, leafHash, hash, l, idx);
    PlanShape(txs, leafHash, hash, h);
    TreeNodeKnown(MerkleKeys(h), h, l, idx);
    KeysIndexed(g, MerkleKeys(h), MerklePlan(txs, leafHash, hash));
    HasDeps(txs, leafHash, hash, l, idx);
    DepsPreventEarlyExit(g, MerkleKeys(h), MerklePlan(txs, leafHash, hash), roots, 0, cfg.maxInFlight);
    RequestAnswered(g, cfg, roots, run, r);
    SingleAnswer(g, key, TreeRoot(hash, Slice(LeafHashes(leafHash, txs), l, idx), l), r.value);
  }

  lemma HasDeps(txs: seq<Bytes>, leafHash: Bytes -> Digest, hash: NodeHash, l: nat, idx: nat)
    ensures MerklePlan(txs, leafHash, hash)(MerkleKey(l, idx)).deps != []
    ensures MerklePlan(txs, leafHash, hash)(MerkleKey(l, idx)).kind.Task?
  {
  }

  lemma PartsAreTasks(txs: seq<Bytes>, leafHash: Bytes -> Digest, hash: NodeHash, h: nat)
    ensures KeyRange(LeafKey, 0, Pow2(h)) <= MerkleKeys(h) && InnerPart(h) <= MerkleKeys(h)
    ensures forall k :: k in KeyRange(LeafKey, 0, Pow2(h)) ==> MerklePlan(txs, leafHash, hash)(k).kind.Task?
    ensures forall k :: k in InnerPart(h) ==> MerklePlan(txs, leafHash, hash)(k).kind.Task?
  {
  }

  /** ... with exactly one call per leaf and per inner node of the subtree. */
  lemma SubtreeCalls(g: Dag<Key, Bytes, string>, txs: seq<Bytes>, h: nat, l: nat, idx: nat, leafHash: Bytes -> Digest,
                     hash: NodeHash, calls: seq<seq<Task<Bytes, string>>>)
    requires |txs| == Pow2(h) && Planned(g, MerkleKeys(h), MerklePlan(txs, leafHash, hash))
    requires l <= h && idx < Pow2(h - l)
    requires CallsSpec(g, Requested(g, [MerkleKey(l, idx)]), calls, true)
    ensures TotalCalls(calls, IdsOf(g, KeyRange(LeafKey, 0, |txs|))) == Pow2(l)
    ensures TotalCalls(calls, IdsOf(g, InnerPart(h))) == Pow2(l) - 1
  {
    hide *;
    var keys, plan, s := MerkleKeys(h), MerklePlan(txs, leafHash, hash), SubtreeKeys(MerkleKey, TxKey, l, idx);
    var leaves, inner, nd := KeyRange(LeafKey, 0, Pow2(h)), InnerPart(h), Requested(g, [MerkleKey(l, idx)]);
    MerkleAllMean(g, txs, h, leafHash, hash);
    SubtreeIsNeeded(g, txs, h, leafHash, hash, l, idx);
    SubtreeLeaves(h, l, idx);
    SubtreeInner(h, l, idx);
    PartsAreTasks(txs, leafHash, hash, h);
    CallsOfKeys(g, keys, plan, nd, s, calls, leaves);
    CallsOfKeys(g, keys, plan, nd, s, calls, inner);
  }

  /** The pruned request, end to end: for every perfect tree, level and index, and under every
    * interleaving of the parallel run, the answer is the Merkle root of the requested slice of
    * leaves, computed with exactly 2^level leaf hashes and 2^level - 1 inner hashes. */
  method RequestSubtree(txs: seq<Bytes>, height: nat, level: nat, index: nat, leafHash: Bytes -> Digest, hash: NodeHash,
                        cfg: ExecutorConfig)
    returns (r: Result<map<Key, Bytes>, ExecError<Key, string>>, ghost g: Dag<Key, Bytes, string>,
             ghost calls: seq<seq<Task<Bytes, string>>>)
    requires |txs| == Pow2(height) && height < USIZE_BITS && level <= height && index < Pow2(height - level)
    requires Accepted(cfg)
    ensures Shl(index + 1, level) <= |txs|
    ensures var slice := Slice(LeafHashes(leafHash, txs), level, index);
            r == Success(map[MerkleKey(level, index) := TreeRoot(hash, slice, level)])
    ensures TotalCalls(calls, IdsOf(g, KeyRange(LeafKey, 0, |txs|))) == Pow2(level)
    ensures TotalCalls(calls, IdsOf(g, InnerPart(height))) == Pow2(level) - 1
  {
    var built := BuildMerkleDag(txs, height, level, index, leafHash, hash);
    var dag, root, subtree := built.value.0, built.value.1, built.value.2;
    g := dag;
    r, calls := RunParallel(dag, cfg, [subtree]);
    ghost var run :| ParallelOutcome(dag, cfg, [subtree], run) && Delivers(dag, [subtree], run, r);
    SubtreeAnswer(dag, txs, height, level, index, leafHash, hash, cfg, run, r);
    SubtreeCalls(dag, txs, height, level, index, leafHash, hash, calls);
  }
}
