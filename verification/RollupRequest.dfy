/** What the rollup graph computes: chunk roots, the batch root, and an inclusion proof that
  * the verifier accepts; and what the proof request costs. */
module RollupRequest {
  import opened Wrappers
  import opened Graph
  import opened Builder
  import opened Outcomes
  import opened Calls
  import opened Common
  import opened Schedule
  import opened Parallel
  import opened Executors
  import opened KeyedGraph
  import opened Merkle
  import opened MerkleProofs
  import opened TreeGraph
  import opened RollupDag

  type RollupGraph = Dag<Key, Bytes, string>

  ghost predicate Built(s: Setup, g: RollupGraph) {
    s.Fits() && Planned(g, RollupKeys(s), PlanOf(s))
  }

  // ---------------------------------------------------------------------------------------
  // Meaning
  // ---------------------------------------------------------------------------------------

  /** Leaf hashes of one chunk. */
  ghost function ChunkLeaves(s: Setup, c: nat): (leaves: seq<Digest>)
    requires s.Shaped() && c < s.Chunks()
    ensures |leaves| == Pow2(s.spec.chunkHeight)
  {
    ChunkBounds(s, c);
    Slice(LeafHashes(s.leafHash, s.txs), s.spec.chunkHeight, c)
  }

  ghost function ChunkRootOf(s: Setup, c: nat): Digest
    requires s.Shaped() && c < s.Chunks()
  {
    TreeRoot(s.hash, ChunkLeaves(s, c), s.spec.chunkHeight)
  }

  ghost function ChunkRoots(s: Setup): (roots: seq<Digest>)
    requires s.Shaped()
    ensures |roots| == Pow2(s.spec.batchHeight)
  {
    SpecBounds(s);
    seq(s.Chunks(), c requires 0 <= c < s.Chunks() => ChunkRootOf(s, c))
  }

  ghost function BatchRootOf(s: Setup): Digest
    requires s.Shaped()
  {
    TreeRoot(s.hash, ChunkRoots(s), s.spec.batchHeight)
  }

  lemma LeafMeans(s: Setup, g: RollupGraph, i: nat)
    requires Built(s, g) && i < |s.txs|
    ensures Means(g, Tx(i), s.txs[i]) && Means(g, Leaf(i), s.leafHash(s.txs[i]))
  {
    hide Setup.Shaped, Setup.Fits, Planned, PlanOf, PlansLeaves, RollupKeys, Means;
    FitsBounds(s);
    LeafShape(s);
    RollupMember(s, Tx(i));
    RollupMember(s, Leaf(i));
    LeafKeyMeans(g, RollupKeys(s), PlanOf(s), TxKey, LeafKey, s.leafHash, s.txs, i);
  }

  lemma ChunkLeavesMean(s: Setup, g: RollupGraph, c: nat)
    requires Built(s, g) && c < s.Chunks()
    ensures LeavesMean(g, ChunkTree(c, s.spec.chunkSize), ChunkLeaves(s, c))
  {
    hide Planned, PlanOf, RollupKeys, Means, Shl, Pow2;
    ChunkBounds(s, c);
    var leaves := ChunkLeaves(s, c);
    forall j: nat | j < |leaves|
      ensures Means(g, ChunkTree(c, s.spec.chunkSize)(0, j), leaves[j])
    {
      LeafMeans(s, g, c * s.spec.chunkSize + j);
    }
  }

  /** A node of a chunk tree. */
  lemma ChunkNodeMeans(s: Setup, g: RollupGraph, c: nat, l: nat, j: nat)
    requires Built(s, g) && c < s.Chunks() && l <= s.spec.chunkHeight && j < Pow2(s.spec.chunkHeight - l)
    ensures Shl(j + 1, l) <= |ChunkLeaves(s, c)|
    ensures Means(g, ChunkChildKey(c, l, j, s.spec.chunkSize), NodeAt(s.hash, ChunkLeaves(s, c), l, j))
  {
    hide Setup.Shaped, Setup.Fits, Planned, PlanOf, RollupKeys, Means, Shl, Pow2, ChunkLeaves, NodeAt, PlansTree,
      PlansBase, HasTree;
    FitsBounds(s);
    ChunkShape(s, c);
    ChunkHasTree(s, c);
    ChunkLeavesMean(s, g, c);
    TreeMeans(g, RollupKeys(s), PlanOf(s), ChunkTree(c, s.spec.chunkSize), s.hash, s.spec.chunkHeight,
              ChunkLeaves(s, c), l, j);
  }

  lemma AliasMeans(s: Setup, g: RollupGraph, k: Key, of: Key, v: Bytes)
    requires Built(s, g) && Present(s, k) && Means(g, of, v)
    requires PlanOf(s)(k) == StagedNode(k, [of], NodeKind.Task(CopyTask()))
    ensures Means(g, k, v)
  {
    hide Setup.Shaped, Setup.Fits, Planned, PlanOf, RollupKeys, Means, Present;
    FitsBounds(s);
    RollupMember(s, k);
    TaskMeans(g, RollupKeys(s), PlanOf(s), k, [v], v);
  }

  lemma ChunkRootMeans(s: Setup, g: RollupGraph, c: nat)
    requires Built(s, g) && c < s.Chunks()
    ensures Means(g, ChunkRoot(c), ChunkRootOf(s, c))
  {
    hide Setup.Shaped, Setup.Fits, Planned, PlanOf, Means, Shl, ChunkLeaves, NodeAt, TreeRoot;
    FitsBounds(s);
    SpecBounds(s);
    ChunkNodeMeans(s, g, c, s.spec.chunkHeight, 0);
    TopIsRoot(s.hash, ChunkLeaves(s, c), s.spec.chunkHeight);
    AliasPlans(s, c);
    AliasMeans(s, g, ChunkRoot(c), ChunkNode(c, s.spec.chunkHeight, 0), ChunkRootOf(s, c));
  }

  lemma BatchNodeMeans(s: Setup, g: RollupGraph, l: nat, j: nat)
    requires Built(s, g) && l <= s.spec.batchHeight && j < Pow2(s.spec.batchHeight - l)
    ensures Shl(j + 1, l) <= |ChunkRoots(s)| && Means(g, BatchChildKey(l, j), NodeAt(s.hash, ChunkRoots(s), l, j))
  {
    hide Setup.Shaped, Setup.Fits, Planned, PlanOf, RollupKeys, Means, Shl, Pow2, ChunkRootOf, NodeAt, PlansTree,
      PlansBase, HasTree;
    FitsBounds(s);
    BatchShape(s);
    BatchHasTree(s);
    SpecBounds(s);
    var roots := ChunkRoots(s);
    forall c: nat | c < |roots|
      ensures Means(g, BatchChildKey(0, c), roots[c])
    {
      ChunkRootMeans(s, g, c);
    }
    TreeMeans(g, RollupKeys(s), PlanOf(s), BatchChildKey, s.hash, s.spec.batchHeight, roots, l, j);
  }

  /** The batch root is the root over the chunk roots. */
  lemma BatchRootMeans(s: Setup, g: RollupGraph)
    requires Built(s, g)
    ensures Means(g, BatchRoot, BatchRootOf(s))
  {
    hide Setup.Shaped, Setup.Fits, Planned, PlanOf, Means, Shl, ChunkRoots, NodeAt, TreeRoot;
    FitsBounds(s);
    SpecBounds(s);
    BatchNodeMeans(s, g, s.spec.batchHeight, 0);
    TopIsRoot(s.hash, ChunkRoots(s), s.spec.batchHeight);
    AliasPlans(s, 0);
    AliasMeans(s, g, BatchRoot, BatchNode(s.spec.batchHeight, 0), BatchRootOf(s));
  }

  /** Siblings of the target leaf, one per level of its chunk. */
  ghost function TargetSiblings(s: Setup): (siblings: seq<Digest>)
    requires s.Fits()
    ensures |siblings| == s.spec.chunkHeight
  {
    TargetFits(s);
    seq(s.spec.chunkHeight, l requires 0 <= l < s.spec.chunkHeight =>
      PathSibling(s.hash, ChunkLeaves(s, s.TargetChunk()), s.spec.chunkHeight, s.TargetPos(), l))
  }

  ghost function TargetLeaf(s: Setup): Digest
    requires s.Fits()
  {
    s.leafHash(s.txs[s.spec.targetTx])
  }

  ghost function TargetProof(s: Setup): Bytes
    requires s.Fits()
  {
    SpecBounds(s);
    ProofBytes(s.TargetPos() % 0x1_0000_0000, s.spec.chunkHeight, TargetLeaf(s), TargetSiblings(s), s.spec.chunkHeight)
  }

  lemma SiblingMeans(s: Setup, g: RollupGraph, l: nat)
    requires Built(s, g) && l < s.spec.chunkHeight
    ensures Means(g, ChunkSiblingKey(s.TargetChunk(), s.TargetPos(), l, s.spec.chunkSize), TargetSiblings(s)[l])
  {
    hide Setup.Shaped, Setup.Fits, Planned, PlanOf, RollupKeys, Means, Shl, Pow2, ChunkLeaves, NodeAt, Shr, FlipLowBit,
      ChunkSiblingKey;
    FitsBounds(s);
    SpecBounds(s);
    TargetFits(s);
    SiblingIsTreeKey(s, l);
    ChunkNodeMeans(s, g, s.TargetChunk(), l, FlipLowBit(Shr(s.TargetPos(), l)));
    PathFits(s.TargetPos(), l, s.spec.chunkHeight);
  }

  lemma ProofArgMeans(s: Setup, g: RollupGraph, p: nat)
    requires Built(s, g) && p <= s.spec.chunkHeight
    ensures Means(g, ProofDeps(s.spec, s.TargetChunk(), s.TargetPos())[p],
                  if p == 0 then TargetLeaf(s) else TargetSiblings(s)[p - 1])
  {
    hide Setup.Shaped, Setup.Fits, Planned, PlanOf, RollupKeys, Means, TargetSiblings, ChunkSiblingKey;
    FitsBounds(s);
    if p == 0 { LeafMeans(s, g, s.spec.targetTx); } else { SiblingMeans(s, g, p - 1); }
  }

  lemma ProofMeans(s: Setup, g: RollupGraph)
    requires Built(s, g)
    ensures Means(g, ChunkProof(s.TargetChunk(), s.TargetPos()), TargetProof(s))
  {
    hide Setup.Shaped, Setup.Fits, Setup.TargetChunk, Setup.TargetPos, Planned, PlanOf, RollupKeys, Means,
      TargetSiblings, ChunkSiblingKey, ProofBytes, ProofTask, TargetLeaf, Present;
    FitsBounds(s);
    SpecBounds(s);
    RequestPresent(s);
    var c, pos := s.TargetChunk(), s.TargetPos();
    var k, siblings := ChunkProof(c, pos), TargetSiblings(s);
    var args: seq<Bytes> := [TargetLeaf(s)] + siblings;
    RollupMember(s, k);
    ProofPlan(s, c, pos);
    forall p | 0 <= p < |args|
      ensures Means(g, ProofDeps(s.spec, c, pos)[p], args[p])
    {
      ProofArgMeans(s, g, p);
    }
    hide ProofDeps;
    ProofRuns(pos % 0x1_0000_0000, s.spec.chunkHeight, TargetLeaf(s), siblings);
    TaskMeans(g, RollupKeys(s), PlanOf(s), k, args, TargetProof(s));
  }

  lemma ProofRuns(index: u32, height: byte, leaf: Digest, siblings: seq<Digest>)
    requires |siblings| == height
    ensures ProofTask(index, height)([leaf] + siblings) == Success(ProofBytes(index, height, leaf, siblings, height))
  {
    hide ProofBytes;
    var xs: seq<Bytes> := [leaf] + siblings;
    assert xs[0] == leaf && xs[1..] == siblings;
  }

  /** The index the proof carries: the position, cut to the 32 bits of the format. */
  ghost function CutPos(s: Setup): u32
    requires s.Fits()
  {
    SpecBounds(s);
    s.TargetPos() % 0x1_0000_0000
  }

  /** Leaf and path siblings of the target are those of the cut position. */
  ghost predicate SameAtCut(s: Setup)
    requires s.Fits() && s.TargetChunk() < s.Chunks() && CutPos(s) < |ChunkLeaves(s, s.TargetChunk())|
  {
    var leaves, h := ChunkLeaves(s, s.TargetChunk()), s.spec.chunkHeight;
    && TargetLeaf(s) == leaves[CutPos(s)]
    && forall l :: 0 <= l < h ==> TargetSiblings(s)[l] == PathSibling(s.hash, leaves, h, CutPos(s), l)
  }

  /** The proof node is accepted against the chunk root without collision exactly if leaf and
    * siblings are those at the position cut to 32 bits; positions that fit are not cut. */
  lemma TargetProofAccepted(s: Setup)
    requires s.Fits()
    ensures s.TargetChunk() < s.Chunks() && CutPos(s) < |ChunkLeaves(s, s.TargetChunk())|
    ensures WellFormed(TargetProof(s))
    ensures var leaves, root := ChunkLeaves(s, s.TargetChunk()), ChunkRootOf(s, s.TargetChunk());
            SameAtCut(s) <==>
              Accepts(s.hash, root, TargetProof(s)) && !Collides(s.hash, leaves, s.spec.chunkHeight, TargetProof(s))
    ensures s.TargetPos() < 0x1_0000_0000 ==>
              SameAtCut(s) && Accepts(s.hash, ChunkRootOf(s, s.TargetChunk()), TargetProof(s))
  {
    hide Setup.Shaped, Setup.Fits, Setup.TargetChunk, Setup.TargetPos, Shl, Pow2, ProofBytes, ChunkLeaves, PathSibling,
      Accepts, Collides, Sibling, Index, Merkle.Leaf, FullLevels, SidesMatch, TargetSiblings, TargetLeaf, FollowsTree;
    FitsBounds(s);
    SpecBounds(s);
    TargetFits(s);
    var leaves, h, cut := ChunkLeaves(s, s.TargetChunk()), s.spec.chunkHeight, CutPos(s);
    TargetInChunk(s);
    ProofReadsBack(cut, h, TargetLeaf(s), TargetSiblings(s), h);
    AcceptedExactly(s.hash, leaves, h, TargetProof(s));
    FollowsAtHeight(s.hash, leaves, h, TargetProof(s));
    if s.TargetPos() < 0x1_0000_0000 { assert cut == s.TargetPos(); }
  }

  lemma TargetInChunk(s: Setup)
    requires s.Fits()
    ensures s.TargetChunk() < s.Chunks() && s.TargetPos() < |ChunkLeaves(s, s.TargetChunk())|
    ensures ChunkLeaves(s, s.TargetChunk())[s.TargetPos()] == TargetLeaf(s)
    ensures forall l :: 0 <= l < s.spec.chunkHeight ==>
              TargetSiblings(s)[l]
              == PathSibling(s.hash, ChunkLeaves(s, s.TargetChunk()), s.spec.chunkHeight, s.TargetPos(), l)
  {
    hide Shl, Pow2;
    SpecBounds(s);
    TargetFits(s);
    ChunkBounds(s, s.TargetChunk());
  }

  /** Every node of the graph has a value. */
  lemma RollupAllMean(s: Setup, g: RollupGraph)
    requires Built(s, g)
    ensures AllMean(g)
  {
    hide Setup.Shaped, Setup.Fits, Planned, PlanOf, RollupKeys, Means, Shl, Pow2, ChunkLeaves, NodeAt, ChunkRootOf,
      BatchRootOf, TargetProof;
    FitsBounds(s);
    forall k | k in RollupKeys(s)
      ensures exists v :: Means(g, k, v)
    {
      RollupMember(s, k);
      KeyMeans(s, g, k);
    }
    EveryKeyMeans(g, RollupKeys(s), PlanOf(s));
  }

  lemma KeyMeans(s: Setup, g: RollupGraph, k: Key)
    requires Built(s, g) && Present(s, k)
    ensures exists v :: Means(g, k, v)
  {
    hide Setup.Shaped, Setup.Fits, Setup.Chunks, Planned, PlanOf, RollupKeys, Means, Shl, Pow2, ChunkLeaves, NodeAt,
      ChunkRootOf, BatchRootOf, TargetProof, ShiftRight;
    FitsBounds(s);
    SpecBounds(s);
    match k
    case Tx(i) => LeafMeans(s, g, i);
    case Leaf(i) => LeafMeans(s, g, i);
    case ChunkNode(c, l, j) =>
      WidthFits(s.spec.chunkHeight, l);
      ChunkNodeMeans(s, g, c, l, j);
    case ChunkRoot(c) => ChunkRootMeans(s, g, c);
    case BatchNode(l, j) =>
      WidthFits(s.spec.batchHeight, l);
      BatchNodeMeans(s, g, l, j);
    case BatchRoot => BatchRootMeans(s, g);
    case ChunkProof(c, pos) => ProofMeans(s, g);
  }

  // ---------------------------------------------------------------------------------------
  // The proof request
  // ---------------------------------------------------------------------------------------

  ghost function ProofRequest(s: Setup): seq<Key>
    requires s.Fits()
  {
    [ChunkRoot(s.TargetChunk()), ChunkProof(s.TargetChunk(), s.TargetPos())]
  }

  /** One chunk tree with its leaves and transactions. */
  ghost function TargetTree(s: Setup): set<Key>
    requires s.Fits()
  {
    SubtreeKeys(ChunkTree(s.TargetChunk(), s.spec.chunkSize), ChunkTx(s.TargetChunk(), s.spec.chunkSize),
                s.spec.chunkHeight, 0)
  }

  ghost function ProofKeys(s: Setup): set<Key>
    requires s.Fits()
  {
    TargetTree(s) + {ChunkRoot(s.TargetChunk()), ChunkProof(s.TargetChunk(), s.TargetPos())}
  }

  lemma TreeHasNode(s: Setup, l: nat, j: nat)
    requires s.Fits() && l <= s.spec.chunkHeight && j < Pow2(s.spec.chunkHeight - l)
    ensures ChunkChildKey(s.TargetChunk(), l, j, s.spec.chunkSize) in TargetTree(s)
  {
    hide Setup.Shaped, Setup.Fits, Setup.TargetChunk, Setup.TargetPos, SubtreeKeys, Pow2;
    FitsBounds(s);
    SpecBounds(s);
    UnderTop(s.spec.chunkHeight, l, j);
    SubtreeMember(ChunkTree(s.TargetChunk(), s.spec.chunkSize), ChunkTx(s.TargetChunk(), s.spec.chunkSize),
                  s.spec.chunkHeight, 0, l, j);
  }

  lemma UnderTop(h: nat, l: nat, j: nat)
    requires l <= h && j < Pow2(h - l)
    ensures Under(h, 0, l, j)
  {
    ShlOfOne(h - l);
  }

  lemma ProofKeysClosed(s: Setup)
    requires s.Fits()
    ensures ClosedKeys(PlanOf(s), ProofKeys(s))
  {
    hide Setup.Shaped, Setup.Fits, Setup.TargetChunk, Setup.TargetPos, PlanOf, TargetTree, ProofDeps, PlansTree,
      PlansBase;
    FitsBounds(s);
    SpecBounds(s);
    var c, pos, h := s.TargetChunk(), s.TargetPos(), s.spec.chunkHeight;
    TreeClosed(s);
    AliasPlans(s, c);
    ProofPlan(s, c, pos);
    TreeHasNode(s, h, 0);
    forall k, p | k in ProofKeys(s) && 0 <= p < |PlanOf(s)(k).deps|
      ensures PlanOf(s)(k).deps[p] in ProofKeys(s)
    {
      if k == ChunkProof(c, pos) { ProofDepInTree(s, p); }
    }
  }

  lemma TreeClosed(s: Setup)
    requires s.Fits()
    ensures ClosedKeys(PlanOf(s), TargetTree(s))
  {
    hide Setup.Shaped, Setup.Fits, Setup.TargetChunk, Setup.TargetPos, PlanOf, SubtreeKeys, PlansTree, PlansBase;
    FitsBounds(s);
    SpecBounds(s);
    ChunkShape(s, s.TargetChunk());
    SubtreeClosed(PlanOf(s), ChunkTree(s.TargetChunk(), s.spec.chunkSize), ChunkTx(s.TargetChunk(), s.spec.chunkSize),
                  s.hash,
                  s.spec.chunkHeight, s.spec.chunkHeight, 0);
  }

  lemma ProofDepInTree(s: Setup, p: nat)
    requires s.Fits() && p < |ProofDeps(s.spec, s.TargetChunk(), s.TargetPos())|
    ensures ProofDeps(s.spec, s.TargetChunk(), s.TargetPos())[p] in TargetTree(s)
  {
    hide Setup.Shaped, Setup.Fits, Setup.TargetChunk, Setup.TargetPos, TargetTree, ChunkSiblingKey, Shr, FlipLowBit,
      Pow2;
    FitsBounds(s);
    SpecBounds(s);
    TargetFits(s);
    if p == 0 {
      TreeHasNode(s, 0, s.TargetPos());
    } else {
      SiblingIsTreeKey(s, p - 1);
      TreeHasNode(s, p - 1, FlipLowBit(Shr(s.TargetPos(), p - 1)));
    }
  }

  /** Chunk root and proof together need one chunk, its alias and the proof node. */
  lemma ProofNeeds(s: Setup, g: RollupGraph)
    requires Built(s, g)
    ensures ProofKeys(s) <= RollupKeys(s) && FirstUnknown(g, ProofRequest(s)).None?
    ensures Requested(g, ProofRequest(s)) == IdsOf(g, ProofKeys(s))
  {
    hide Setup.Shaped, Setup.Fits, Setup.TargetChunk, Setup.TargetPos, Planned, PlanOf, RollupKeys, TargetTree,
      KeyNeeded, Present, IdsOf, Requested, ClosedKeys;
    FitsBounds(s);
    SpecBounds(s);
    TargetFits(s);
    var keys, plan, roots := RollupKeys(s), PlanOf(s), ProofRequest(s);
    RequestPresent(s);
    RollupMember(s, roots[0]);
    RollupMember(s, roots[1]);
    KeysIndexed(g, keys, plan);
    RootNeeded(g, keys, plan, roots, 0);
    RootNeeded(g, keys, plan, roots, 1);
    TreeNeeded(s, g, roots);
    ProofKeysClosed(s);
    NeededAreKeys(g, keys, plan, roots, ProofKeys(s));
    NeededKeys(g, keys, plan, roots, ProofKeys(s));
  }

  lemma RequestPresent(s: Setup)
    requires s.Fits()
    ensures Present(s, ChunkRoot(s.TargetChunk())) && Present(s, ChunkProof(s.TargetChunk(), s.TargetPos()))
  {
    TargetFits(s);
  }

  /** Whoever needs the chunk root needs the whole chunk tree. */
  lemma TreeNeeded(s: Setup, g: RollupGraph, roots: seq<Key>)
    requires Built(s, g) && KeyNeeded(g, roots, ChunkRoot(s.TargetChunk()))
    ensures forall k :: k in TargetTree(s) ==> KeyNeeded(g, roots, k)
  {
    hide Setup.Shaped, Setup.Fits, Setup.TargetChunk, Setup.TargetPos, Planned, PlanOf, RollupKeys, KeyNeeded,
      PlansTree, PlansBase, HasTree, SubtreeKeys;
    FitsBounds(s);
    SpecBounds(s);
    TargetFits(s);
    var c, keys, plan := s.TargetChunk(), RollupKeys(s), PlanOf(s);
    var key := ChunkTree(c, s.spec.chunkSize);
    ChunkShape(s, c);
    ChunkHasTree(s, c);
    AliasPlans(s, c);
    DepNeeded(g, keys, plan, roots, ChunkRoot(c), 0);
    assert key(s.spec.chunkHeight, 0) == ChunkNode(c, s.spec.chunkHeight, 0);
    SubtreeAllNeeded(g, keys, plan, key, ChunkTx(c, s.spec.chunkSize), s.hash, s.spec.chunkHeight, roots,
                     s.spec.chunkHeight, 0);
  }

  // ---------------------------------------------------------------------------------------
  // Cost of the proof request
  // ---------------------------------------------------------------------------------------

  ghost function AllLeaves(s: Setup): set<Key> {
    KeyRange(LeafKey, 0, |s.txs|)
  }

  /** All inner hash nodes of the graph, of chunk trees and of the batch tree. */
  ghost function AllInner(s: Setup): set<Key>
    requires s.Shaped()
  {
    set k | k in RollupKeys(s) && (k.ChunkNode? || k.BatchNode?)
  }

  ghost function AllProofs(s: Setup): set<Key>
    requires s.Shaped()
  {
    set k | k in RollupKeys(s) && k.ChunkProof?
  }

  lemma TreeShape(s: Setup, k: Key)
    requires s.Fits() && k in TargetTree(s)
    ensures k.Tx? || (k.Leaf? && 0 <= k.i - s.TargetChunk() * s.spec.chunkSize < s.spec.chunkSize)
            || (k.ChunkNode? && k.chunk == s.TargetChunk())
  {
    hide Setup.Shaped, Setup.Fits, Setup.TargetChunk, SubtreeKeys, Under, Pow2;
    FitsBounds(s);
    SpecBounds(s);
    var c, h := s.TargetChunk(), s.spec.chunkHeight;
    var key, base := ChunkTree(c, s.spec.chunkSize), ChunkTx(c, s.spec.chunkSize);
    SubtreeShape(key, base, h, 0, k);
    var m: nat, j: nat :| Under(h, 0, m, j) && (k == key(m, j) || (m == 0 && k == base(j)));
    TopFits(h);
    UnderFits(h, h, 0, m, j);
  }

  lemma TopFits(h: nat)
    ensures 0 < Pow2(h - h)
  {
  }

  lemma LeafCount(s: Setup)
    requires s.Fits()
    ensures |AllLeaves(s) * ProofKeys(s)| == s.spec.chunkSize
  {
    hide Setup.Shaped, Setup.Fits, Setup.TargetChunk, Setup.TargetPos, TargetTree, Pow2;
    FitsBounds(s);
    SpecBounds(s);
    TargetFits(s);
    var c, cs := s.TargetChunk(), s.spec.chunkSize;
    ChunkBounds(s, c);
    var mine := KeyRange(LeafKey, c * cs, c * cs + cs);
    KeyRangeSize(LeafKey, c * cs, c * cs + cs);
    forall k | k in mine
      ensures k in AllLeaves(s) * ProofKeys(s)
    {
      assert LeafKey(k.i) == k;
      TreeHasNode(s, 0, k.i - c * cs);
    }
    forall k | k in AllLeaves(s) * ProofKeys(s)
      ensures k in mine
    {
      TreeShape(s, k);
      assert LeafKey(k.i) == k;
    }
    assert mine == AllLeaves(s) * ProofKeys(s);
  }

  lemma InnerCount(s: Setup)
    requires s.Fits()
    ensures |AllInner(s) * ProofKeys(s)| == s.spec.chunkSize - 1
  {
    hide Setup.Shaped, Setup.Fits, Setup.TargetChunk, Setup.TargetPos, SubtreeKeys, RollupKeys, Shl, Pow2, PlansTree,
      PlansBase;
    FitsBounds(s);
    SpecBounds(s);
    TargetFits(s);
    var c, h := s.TargetChunk(), s.spec.chunkHeight;
    var key, base := ChunkTree(c, s.spec.chunkSize), ChunkTx(c, s.spec.chunkSize);
    ChunkShape(s, c);
    var mine := InnerKeys(key, h, 0, h);
    InnerKeysSize(key, h, 0, h);
    TopFits(h);
    PowerOfNone();
    forall k | k in mine
      ensures k in AllInner(s) * ProofKeys(s)
    {
      assert Under(h, 0, k.lvl, k.idx);
      UnderFits(h, h, 0, k.lvl, k.idx);
      TreeHasNode(s, k.lvl, k.idx);
      ChunkChildPresent(s, c, k.lvl, k.idx);
      RollupMember(s, k);
    }
    forall k | k in AllInner(s) * ProofKeys(s)
      ensures k in mine
    {
      TreeShape(s, k);
      SubtreeShape(key, base, h, 0, k);
      assert key(k.lvl, k.idx) == k;
    }
    assert mine == AllInner(s) * ProofKeys(s);
  }

  lemma ProofCount(s: Setup)
    requires s.Fits()
    ensures |AllProofs(s) * ProofKeys(s)| == 1
  {
    hide Setup.Shaped, Setup.Fits, Setup.TargetChunk, Setup.TargetPos, TargetTree, RollupKeys;
    FitsBounds(s);
    SpecBounds(s);
    var k0 := ChunkProof(s.TargetChunk(), s.TargetPos());
    RequestPresent(s);
    RollupMember(s, k0);
    forall k | k in AllProofs(s) * ProofKeys(s)
      ensures k == k0
    {
      RollupMember(s, k);
    }
    assert AllProofs(s) * ProofKeys(s) == {k0};
  }

  lemma CountedAreTasks(s: Setup)
    requires s.Fits()
    ensures AllLeaves(s) <= RollupKeys(s) && AllInner(s) <= RollupKeys(s) && AllProofs(s) <= RollupKeys(s)
    ensures forall k :: k in AllLeaves(s) + AllInner(s) + AllProofs(s) ==> PlanOf(s)(k).kind.Task?
  {
    forall k | k in AllLeaves(s) + AllInner(s) + AllProofs(s)
      ensures k in RollupKeys(s) && PlanOf(s)(k).kind.Task?
    {
      RollupMember(s, k);
    }
  }

  /** A complete run calls exactly the needed tasks of each kind. */
  lemma KindsCalled(s: Setup, g: RollupGraph, roots: seq<Key>, need: set<Key>, calls: seq<seq<Task<Bytes, string>>>)
    requires Built(s, g) && need <= RollupKeys(s) && Requested(g, roots) == IdsOf(g, need)
    requires CallsSpec(g, Requested(g, roots), calls, true)
    ensures TotalCalls(calls, IdsOf(g, AllLeaves(s))) == |AllLeaves(s) * need|
    ensures TotalCalls(calls, IdsOf(g, AllInner(s))) == |AllInner(s) * need|
    ensures TotalCalls(calls, IdsOf(g, AllProofs(s))) == |AllProofs(s) * need|
  {
    BuiltParts(s, g);
    hide *;
    var keys, plan, nd := RollupKeys(s), PlanOf(s), Requested(g, roots);
    RollupAllMean(s, g);
    CountedAreTasks(s);
    CallsOfKeys(g, keys, plan, nd, need, calls, AllLeaves(s));
    CallsOfKeys(g, keys, plan, nd, need, calls, AllInner(s));
    CallsOfKeys(g, keys, plan, nd, need, calls, AllProofs(s));
  }

  /** One leaf hash per transaction of the chunk, one inner hash per inner node of its tree,
    * one proof assembly, and nothing else of these kinds. */
  lemma ProofRequestCalls(s: Setup, g: RollupGraph, calls: seq<seq<Task<Bytes, string>>>)
    requires Built(s, g) && CallsSpec(g, Requested(g, ProofRequest(s)), calls, true)
    ensures TotalCalls(calls, IdsOf(g, AllLeaves(s))) == s.spec.chunkSize
    ensures TotalCalls(calls, IdsOf(g, AllInner(s))) == s.spec.chunkSize - 1
    ensures TotalCalls(calls, IdsOf(g, AllProofs(s))) == 1
  {
    BuiltParts(s, g);
    hide *;
    ProofNeeds(s, g);
    KindsCalled(s, g, ProofRequest(s), ProofKeys(s), calls);
    LeafCount(s);
    InnerCount(s);
    ProofCount(s);
  }

  lemma BuiltParts(s: Setup, g: RollupGraph)
    requires Built(s, g)
    ensures s.Fits() && Planned(g, RollupKeys(s), PlanOf(s)) && g.Valid()
  {
  }

  /** Any parallel run of the request answers with the chunk root and the proof bytes. */
  lemma ProofRequestAnswer(s: Setup, g: RollupGraph, cfg: ExecutorConfig,
                           run: Result<Artifacts<Bytes>, ExecError<Key, string>>,
                           r: Result<map<Key, Bytes>, ExecError<Key, string>>)
    requires Built(s, g) && Accepted(cfg)
    requires ParallelOutcome(g, cfg, ProofRequest(s), run) && Delivers(g, ProofRequest(s), run, r)
    ensures r.Success? && IsAnswer(g, ProofRequest(s), r.value)
  {
    BuiltParts(s, g);
    hide Setup.Shaped, Setup.Fits, Setup.TargetChunk, Setup.TargetPos, Planned, PlanOf, RollupKeys, ParallelOutcome,
      Delivers, AllMean, IsAnswer, Present, EarlyExit;
    FitsBounds(s);
    var root := ChunkRoot(s.TargetChunk());
    RollupAllMean(s, g);
    ProofNeeds(s, g);
    RequestPresent(s);
    RollupMember(s, root);
    AliasPlans(s, s.TargetChunk());
    DepsPreventEarlyExit(g, RollupKeys(s), PlanOf(s), ProofRequest(s), 0, cfg.maxInFlight);
    RequestAnswered(g, cfg, ProofRequest(s), run, r);
  }

  /** The proof request, end to end: build the graph, run it in parallel, verify the returned
    * proof against the returned chunk root. Under every interleaving the verifier accepts,
    * and the run made one call per leaf and inner node of that chunk and one for the proof. */
  method ProveInclusion(s: Setup, cfg: ExecutorConfig)
    returns (verdict: Result<bool, string>, outputs: map<Key, Bytes>, ghost g: RollupGraph,
             ghost calls: seq<seq<Task<Bytes, string>>>)
    requires s.Fits() && Accepted(cfg)
    ensures s.TargetChunk() < s.Chunks() && CutPos(s) < |ChunkLeaves(s, s.TargetChunk())|
    ensures WellFormed(TargetProof(s)) && verdict.Success?
    ensures s.TargetPos() < 0x1_0000_0000 ==> verdict == Success(true)
    ensures !Collides(s.hash, ChunkLeaves(s, s.TargetChunk()), s.spec.chunkHeight, TargetProof(s)) ==>
              (verdict == Success(true) <==> SameAtCut(s))
    ensures outputs == map[ChunkRoot(s.TargetChunk()) := ChunkRootOf(s, s.TargetChunk()),
                           ChunkProof(s.TargetChunk(), s.TargetPos()) := TargetProof(s)]
    ensures TotalCalls(calls, IdsOf(g, AllLeaves(s))) == s.spec.chunkSize
    ensures TotalCalls(calls, IdsOf(g, AllInner(s))) == s.spec.chunkSize - 1
    ensures TotalCalls(calls, IdsOf(g, AllProofs(s))) == 1
  {
    hide *;
    FitsBounds(s);
    SpecBounds(s);
    BuildsExactly(s);
    var built := BuildRollupCommitmentDag(s);
    var dag, rootKey, proofKey := built.value.0, built.value.1, built.value.2;
    g := dag;
    IsBuilt(s, dag);
    BuiltParts(s, dag);
    var r;
    r, calls := RunParallel(dag, cfg, [rootKey, proofKey]);
    RequestIs(s);
    ghost var run :| ParallelOutcome(dag, cfg, [rootKey, proofKey], run) && Delivers(dag, [rootKey, proofKey], run, r);
    ProofRequestAnswer(s, dag, cfg, run, r);
    ProofNeeds(s, dag);
    SucceededIsNoFailure(r);
    ProofRequestCalls(s, dag, calls);
    TargetProofAccepted(s);
    outputs := r.value;
    BothAnswers(s, dag, outputs);
    Unfold(TargetProof(s));
    verdict := VerifyMerkleProof(s.hash, outputs[rootKey], outputs[proofKey]);
  }

  lemma Unfold(proof: Bytes)
    requires WellFormed(proof)
    ensures HasHeader(proof) && FullLevels(proof) == Height(proof) && SidesMatch(proof, FullLevels(proof))
  {
  }

  lemma IsBuilt(s: Setup, g: RollupGraph)
    requires s.Fits() && Planned(g, RollupKeys(s), PlanOf(s))
    ensures Built(s, g)
  {
  }

  lemma RequestIs(s: Setup)
    requires s.Fits()
    ensures ProofRequest(s) == [ChunkRoot(s.TargetChunk()), ChunkProof(s.TargetChunk(), s.TargetPos())]
  {
  }

  lemma SucceededIsNoFailure<T, K, E>(r: Result<T, ExecError<K, E>>)
    requires r.Success?
    ensures !IsTaskFailure(r)
  {
  }

  lemma BothAnswers(s: Setup, g: RollupGraph, outputs: map<Key, Bytes>)
    requires Built(s, g) && IsAnswer(g, ProofRequest(s), outputs)
    ensures s.TargetChunk() < s.Chunks()
    ensures outputs == map[ChunkRoot(s.TargetChunk()) := ChunkRootOf(s, s.TargetChunk()),
                           ChunkProof(s.TargetChunk(), s.TargetPos()) := TargetProof(s)]
  {
    hide Setup.Shaped, Setup.Fits, Setup.TargetChunk, Setup.TargetPos, Planned, PlanOf, RollupKeys, Means, ChunkRootOf,
      TargetProof;
    FitsBounds(s);
    SpecBounds(s);
    TargetFits(s);
    var roots := ProofRequest(s);
    ChunkRootMeans(s, g, s.TargetChunk());
    ProofMeans(s, g);
    AnswerOf(g, roots, outputs, 0, ChunkRootOf(s, s.TargetChunk()));
    AnswerOf(g, roots, outputs, 1, TargetProof(s));
    assert KeySet(roots) == {roots[0], roots[1]};
  }

  // ---------------------------------------------------------------------------------------
  // The naive baseline
  // ---------------------------------------------------------------------------------------

  /** Hash everything chunk by chunk, without a graph: the same batch root, at the price of
    * every leaf and every inner node. */
  method NaiveFullBatchCommitment(s: Setup) returns (batchRoot: Digest, countLeaf: nat, countInternal: nat)
    requires s.Branches()
    ensures batchRoot == BatchRootOf(s)
    ensures countLeaf == |s.txs| && countInternal == |s.txs| - 1
  {
    hide *;
    BranchBounds(s);
    SpecBounds(s);
    LeavesEnough(s);
    var nChunks := |s.txs| / s.spec.chunkSize;
    var leafHashes: seq<Digest> := [];
    countLeaf := 0;
    for i := 0 to |s.txs|
      invariant countLeaf == i && leafHashes == LeafHashes(s.leafHash, s.txs)[..i]
    {
      countLeaf := countLeaf + 1;
      leafHashes := leafHashes + [s.leafHash(s.txs[i])];
    }
    var chunkRoots: seq<Digest> := [];
    countInternal := 0;
    for c := 0 to nChunks
      invariant |chunkRoots| == c && forall d: nat :: d < c ==> chunkRoots[d] == ChunkRootOf(s, d)
      invariant countInternal + c == c * s.spec.chunkSize
    {
      ChunkIsSlice(s, c, leafHashes);
      var start := c * s.spec.chunkSize;
      var end := start + s.spec.chunkSize;
      var root, internal := NaiveMerkleRoot(s.hash, leafHashes[start..end], s.spec.chunkHeight);
      countInternal := countInternal + internal;
      chunkRoots := chunkRoots + [root];
    }
    RootsCollected(s, chunkRoots);
    var root, internal := NaiveMerkleRoot(s.hash, chunkRoots, s.spec.batchHeight);
    countInternal := countInternal + internal;
    batchRoot := root;
  }

  lemma RootsCollected(s: Setup, chunkRoots: seq<Digest>)
    requires s.Shaped() && |chunkRoots| == s.Chunks()
    requires forall d: nat :: d < s.Chunks() ==> chunkRoots[d] == ChunkRootOf(s, d)
    ensures |ChunkRoots(s)| == |chunkRoots| && chunkRoots == ChunkRoots(s)
    ensures BatchRootOf(s) == TreeRoot(s.hash, chunkRoots, s.spec.batchHeight)
  {
    hide Setup.Shaped, ChunkRootOf, TreeRoot;
    assert chunkRoots == ChunkRoots(s);
  }

  lemma ChunkIsSlice(s: Setup, c: nat, leafHashes: seq<Digest>)
    requires s.Shaped() && c < s.Chunks() && leafHashes == LeafHashes(s.leafHash, s.txs)
    ensures c * s.spec.chunkSize + s.spec.chunkSize <= |leafHashes|
    ensures (c + 1) * s.spec.chunkSize == c * s.spec.chunkSize + s.spec.chunkSize
    ensures leafHashes[c * s.spec.chunkSize..c * s.spec.chunkSize + s.spec.chunkSize] == ChunkLeaves(s, c)
    ensures ChunkRootOf(s, c) == TreeRoot(s.hash, ChunkLeaves(s, c), s.spec.chunkHeight)
  {
    hide Setup.Shaped, Pow2, Shl, TreeRoot;
    ChunkBounds(s, c);
    ChunkBounds(s, c + 1);
  }

  lemma LeavesEnough(s: Setup)
    requires s.Branches()
    ensures s.spec.chunkSize >= 2 && s.Chunks() >= 2 && |s.txs| == s.Chunks() * s.spec.chunkSize
  {
    BranchBounds(s);
    hide Setup.Branches, Setup.Shaped, Setup.Chunks, Pow2;
    SpecBounds(s);
    PowerGrows(s.spec.chunkHeight);
    PowerGrows(s.spec.batchHeight);
  }
}
