/** The rollup commitment example: chunk trees under a batch tree, and an inclusion proof that
  * is itself a node of the graph. */
module RollupDag {
  import opened Wrappers
  import opened Graph
  import opened Builder
  import opened KeyedGraph
  import opened Merkle
  import opened TreeGraph

  datatype Key =
    | Tx(i: nat)
    | Leaf(i: nat)
    | ChunkNode(chunk: nat, lvl: nat, idx: nat)
    | ChunkRoot(chunk: nat)
    | BatchNode(lvl: nat, idx: nat)
    | BatchRoot
    | ChunkProof(chunk: nat, pos: nat)

  function TxKey(i: nat): Key {
    Tx(i)
  }

  function LeafKey(i: nat): Key {
    Leaf(i)
  }

  function ChunkChildKey(chunk: nat, lvl: nat, idx: nat, chunkSize: nat): Key {
    if lvl == 0 then Leaf(chunk * chunkSize + idx) else ChunkNode(chunk, lvl, idx)
  }

  /** The sibling on the path from a leaf of the chunk to the chunk root. */
  function ChunkSiblingKey(chunk: nat, posInChunk: nat, level: nat, chunkSize: nat): Key {
    var idxAtLevel := ShiftRight(posInChunk, level);
    var sibIdx := FlipLowBit(idxAtLevel);
    if level == 0 then Leaf(chunk * chunkSize + sibIdx) else ChunkNode(chunk, level, sibIdx)
  }

  function BatchChildKey(lvl: nat, idx: nat): Key {
    if lvl == 0 then ChunkRoot(idx) else BatchNode(lvl, idx)
  }

  function ChunkTree(chunk: nat, chunkSize: nat): TreeKey<Key> {
    (lvl: nat, idx: nat) => ChunkChildKey(chunk, lvl, idx, chunkSize)
  }

  function ChunkTx(chunk: nat, chunkSize: nat): nat -> Key {
    (idx: nat) => Tx(chunk * chunkSize + idx)
  }

  datatype RollupSpec = RollupSpec(chunkSize: nat, chunkHeight: nat, batchHeight: nat, targetTx: nat)

  /** Transactions, shape and the two hash functions. */
  datatype Setup = Setup(txs: seq<Bytes>, spec: RollupSpec, leafHash: Bytes -> Digest, hash: NodeHash) {

    /** A power of two of chunks, each with a power of two of transactions. */
    ghost predicate Shaped() {
      && spec.chunkSize == Pow2(spec.chunkHeight) && spec.batchHeight + spec.chunkHeight < USIZE_BITS
      && |txs| == Pow2(spec.batchHeight) * spec.chunkSize
    }

    /** At least two transactions in a chunk and two chunks in the batch. */
    ghost predicate Branches() {
      Shaped() && 1 <= spec.chunkHeight && 1 <= spec.batchHeight
    }

    /** In addition, a target transaction inside the batch. */
    ghost predicate Fits() {
      Branches() && spec.targetTx < |txs|
    }

    /** Whole chunks of the batch; a rest of transactions belongs to none. */
    ghost function Chunks(): nat
      requires spec.chunkSize > 0
    {
      |txs| / spec.chunkSize
    }

    ghost function TargetChunk(): nat
      requires spec.chunkSize > 0
    {
      spec.targetTx / spec.chunkSize
    }

    ghost function TargetPos(): nat
      requires spec.chunkSize > 0
    {
      spec.targetTx % spec.chunkSize
    }
  }

  /** The closure of an alias node. */
  function CopyTask(): seq<Bytes> -> Result<Bytes, string> {
    (xs: seq<Bytes>) => if |xs| < 1 then Failure(OUT_OF_BOUNDS) else Success(xs[0])
  }

  /** The closure of the proof node: all arguments must be digests, the first is the leaf. */
  function ProofTask(index: u32, height: byte): seq<Bytes> -> Result<Bytes, string> {
    (xs: seq<Bytes>) =>
      if |xs| < 1 then Failure(OUT_OF_BOUNDS)
      else if !(forall p :: 0 <= p < |xs| ==> |xs[p]| == 32) then Failure("expected 32-byte hash")
      else Success(ProofBytes(index, height, xs[0], xs[1..], |xs| - 1))
  }

  function ProofDeps(spec: RollupSpec, chunk: nat, pos: nat): seq<Key> {
    [Leaf(spec.targetTx)] + seq(spec.chunkHeight, (lvl: nat) => ChunkSiblingKey(chunk, pos, lvl, spec.chunkSize))
  }

  ghost function PlanOf(s: Setup): Plan<Key, Bytes, string> {
    (k: Key) =>
      match k
      case Tx(i) => StagedNode(k, [], Source(if i < |s.txs| then s.txs[i] else []))
      case Leaf(i) => StagedNode(k, [Tx(i)], NodeKind.Task(LeafTask(s.leafHash)))
      case ChunkNode(c, l, j) =>
        if l > 0 then PairNode(ChunkTree(c, s.spec.chunkSize), s.hash, l, j) else StagedNode(k, [], Source([]))
      case ChunkRoot(c) => StagedNode(k, [ChunkNode(c, s.spec.chunkHeight, 0)], NodeKind.Task(CopyTask()))
      case BatchNode(l, j) => if l > 0 then PairNode(BatchChildKey, s.hash, l, j) else StagedNode(k, [], Source([]))
      case BatchRoot => StagedNode(k, [BatchNode(s.spec.batchHeight, 0)], NodeKind.Task(CopyTask()))
      case ChunkProof(c, pos) =>
        StagedNode(k, ProofDeps(s.spec, c, pos),
                   NodeKind.Task(ProofTask(pos % 0x1_0000_0000, s.spec.chunkHeight % 256)))
  }

  // ---------------------------------------------------------------------------------------
  // Keys
  // ---------------------------------------------------------------------------------------

  ghost function LeafPart(s: Setup): set<Key> {
    KeyRange(TxKey, 0, |s.txs|) + KeyRange(LeafKey, 0, |s.txs|)
  }

  ghost function ChunkInner(s: Setup, c: nat): set<Key> {
    LevelKeys(ChunkTree(c, s.spec.chunkSize), s.spec.chunkSize, s.spec.chunkHeight, s.spec.chunkHeight + 1, 0)
  }

  ghost function ChunkPart(s: Setup, n: nat): set<Key> {
    if n == 0 then {} else ChunkPart(s, n - 1) + ChunkInner(s, n - 1) + {ChunkRoot(n - 1)}
  }

  ghost function BatchInner(s: Setup): set<Key>
    requires s.spec.chunkSize > 0
  {
    LevelKeys(BatchChildKey, s.Chunks(), s.spec.batchHeight, s.spec.batchHeight + 1, 0)
  }

  ghost function RollupKeys(s: Setup): set<Key>
    requires s.spec.chunkSize > 0
  {
    LeafPart(s) + ChunkPart(s, s.Chunks()) + BatchInner(s) + {BatchRoot} + {ChunkProof(s.TargetChunk(), s.TargetPos())}
  }

  lemma ChunkInnerMember(s: Setup, c: nat, k: Key)
    ensures k in ChunkInner(s, c) <==>
              k.ChunkNode? && k.chunk == c && 1 <= k.lvl <= s.spec.chunkHeight
                  && k.idx < ShiftRight(s.spec.chunkSize, k.lvl)
  {
    hide ShiftRight;
    var key := ChunkTree(c, s.spec.chunkSize);
    if k.ChunkNode? && k.chunk == c { assert key(k.lvl, k.idx) == k || k.lvl == 0; }
  }

  lemma {:induction false} ChunkPartMember(s: Setup, n: nat, k: Key)
    ensures k in ChunkPart(s, n) <==>
              (k.ChunkRoot? && k.chunk < n) || (k.ChunkNode? && k.chunk < n && k in ChunkInner(s, k.chunk))
  {
    if n > 0 {
      ChunkPartMember(s, n - 1, k);
      ChunkInnerMember(s, n - 1, k);
    }
  }

  /** The keys of the graph, kind by kind. */
  ghost predicate Present(s: Setup, k: Key)
    requires s.spec.chunkSize > 0
  {
    match k
    case Tx(i) => i < |s.txs|
    case Leaf(i) => i < |s.txs|
    case ChunkNode(c, l, j) => c < s.Chunks() && 1 <= l <= s.spec.chunkHeight && j < ShiftRight(s.spec.chunkSize, l)
    case ChunkRoot(c) => c < s.Chunks()
    case BatchNode(l, j) => 1 <= l <= s.spec.batchHeight && j < ShiftRight(s.Chunks(), l)
    case BatchRoot => true
    case ChunkProof(c, pos) => c == s.TargetChunk() && pos == s.TargetPos()
  }

  lemma BatchInnerMember(s: Setup, k: Key)
    requires s.spec.chunkSize > 0
    ensures k in BatchInner(s) <==>
              k.BatchNode? && 1 <= k.lvl <= s.spec.batchHeight && k.idx < ShiftRight(s.Chunks(), k.lvl)
  {
    hide ShiftRight, Setup.Chunks;
    if k.BatchNode? { assert BatchChildKey(k.lvl, k.idx) == k || k.lvl == 0; }
  }

  lemma LeafPartMember(s: Setup, k: Key)
    ensures k in LeafPart(s) <==> (k.Tx? || k.Leaf?) && k.i < |s.txs|
  {
    match k
    case Tx(i) => assert TxKey(i) == k;
    case Leaf(i) => assert LeafKey(i) == k;
    case _ =>
  }

  lemma RollupMember(s: Setup, k: Key)
    requires s.spec.chunkSize > 0
    ensures k in RollupKeys(s) <==> Present(s, k)
  {
    hide Setup.Chunks, LeafPart, ChunkPart, ChunkInner, BatchInner, ShiftRight;
    LeafPartMember(s, k);
    ChunkPartMember(s, s.Chunks(), k);
    if k.ChunkNode? { ChunkInnerMember(s, k.chunk, k); }
    BatchInnerMember(s, k);
  }

  /** Where the chunks lie, in shifts instead of products. */
  lemma ChunkBounds(s: Setup, c: nat)
    requires s.Shaped()
    ensures c * s.spec.chunkSize == Shl(c, s.spec.chunkHeight)
    ensures Shl(c + 1, s.spec.chunkHeight) == Shl(c, s.spec.chunkHeight) + s.spec.chunkSize
    ensures |s.txs| == Shl(s.Chunks(), s.spec.chunkHeight)
    ensures c < s.Chunks() ==> Shl(c + 1, s.spec.chunkHeight) <= |s.txs|
  {
    hide Pow2, Shl, Setup.Chunks;
    SpecBounds(s);
    ShlIsMul(c, s.spec.chunkHeight);
    ShlIsMul(s.Chunks(), s.spec.chunkHeight);
    ShlNext(c, s.spec.chunkHeight);
    if c < s.Chunks() { ShlMonotone(c + 1, s.Chunks(), s.spec.chunkHeight); }
  }

  lemma TargetFits(s: Setup)
    requires s.Fits()
    ensures s.TargetChunk() < s.Chunks() && s.TargetPos() < s.spec.chunkSize
    ensures s.TargetChunk() * s.spec.chunkSize + s.TargetPos() == s.spec.targetTx
  {
    hide Pow2, Setup.Chunks;
    SpecBounds(s);
    var q, cs := s.TargetChunk(), s.spec.chunkSize;
    assert s.spec.targetTx == cs * q + s.TargetPos();
    if q >= s.Chunks() { ScaledLe(s.Chunks(), q, cs); }
  }

  // ---------------------------------------------------------------------------------------
  // Shape of the plan
  // ---------------------------------------------------------------------------------------

  lemma LeafShape(s: Setup)
    ensures LeavesDistinct(TxKey, LeafKey) && PlansLeaves(PlanOf(s), TxKey, LeafKey, s.leafHash, s.txs)
  {
  }

  lemma ChunkShape(s: Setup, c: nat)
    ensures InnerInjective(ChunkTree(c, s.spec.chunkSize))
    ensures PlansTree(PlanOf(s), ChunkTree(c, s.spec.chunkSize), s.hash)
    ensures PlansBase(PlanOf(s), ChunkTree(c, s.spec.chunkSize), ChunkTx(c, s.spec.chunkSize), Pow2(s.spec.chunkHeight))
  {
    ChunkInjective(c, s.spec.chunkSize);
    hide PlanOf, ChunkTree, PairNode, InnerInjective;
    var key := ChunkTree(c, s.spec.chunkSize);
    forall l: nat, j: nat | 1 <= l
      ensures PlanOf(s)(key(l, j)) == PairNode(key, s.hash, l, j)
    {
      ChunkPlan(s, c, l, j);
    }
    hide PlansTree;
    forall j: nat
      ensures PlanOf(s)(key(0, j)).deps == [ChunkTx(c, s.spec.chunkSize)(j)]
      ensures PlanOf(s)(ChunkTx(c, s.spec.chunkSize)(j)).deps == []
    {
      ChunkBase(s, c, j);
    }
  }

  lemma ChunkInjective(c: nat, chunkSize: nat)
    ensures InnerInjective(ChunkTree(c, chunkSize))
  {
  }

  lemma ChunkBase(s: Setup, c: nat, j: nat)
    ensures PlanOf(s)(ChunkTree(c, s.spec.chunkSize)(0, j)).deps == [ChunkTx(c, s.spec.chunkSize)(j)]
    ensures PlanOf(s)(ChunkTx(c, s.spec.chunkSize)(j)).deps == []
  {
    hide PlanOf;
    LeafPlan(s, c * s.spec.chunkSize + j);
  }

  lemma ChunkPlan(s: Setup, c: nat, l: nat, j: nat)
    requires l >= 1
    ensures PlanOf(s)(ChunkTree(c, s.spec.chunkSize)(l, j)) == PairNode(ChunkTree(c, s.spec.chunkSize), s.hash, l, j)
  {
  }

  lemma LeafPlan(s: Setup, i: nat)
    ensures PlanOf(s)(Leaf(i)).deps == [Tx(i)] && PlanOf(s)(Tx(i)).deps == []
  {
  }

  lemma BatchShape(s: Setup)
    ensures InnerInjective(BatchChildKey) && PlansTree(PlanOf(s), BatchChildKey, s.hash)
  {
    hide PlanOf;
    forall l: nat, j: nat | 1 <= l
      ensures PlanOf(s)(BatchChildKey(l, j)) == PairNode(BatchChildKey, s.hash, l, j)
    {
      BatchPlan(s, l, j);
    }
  }

  lemma BatchPlan(s: Setup, l: nat, j: nat)
    requires l >= 1
    ensures PlanOf(s)(BatchChildKey(l, j)) == PairNode(BatchChildKey, s.hash, l, j)
  {
  }

  lemma ChunkChildPresent(s: Setup, c: nat, l: nat, j: nat)
    requires s.Shaped() && c < s.Chunks() && l <= s.spec.chunkHeight && j < Pow2(s.spec.chunkHeight - l)
    ensures Present(s, ChunkChildKey(c, l, j, s.spec.chunkSize))
    ensures l == 0 ==> Present(s, Tx(c * s.spec.chunkSize + j))
  {
    hide ShiftRight, Shl, Setup.Chunks;
    SpecBounds(s);
    WidthFits(s.spec.chunkHeight, l);
    ChunkBounds(s, c);
  }

  lemma BatchChildPresent(s: Setup, l: nat, j: nat)
    requires s.Shaped() && l <= s.spec.batchHeight && j < Pow2(s.spec.batchHeight - l)
    ensures Present(s, BatchChildKey(l, j))
  {
    hide ShiftRight, Pow2, Setup.Chunks;
    SpecBounds(s);
    WidthFits(s.spec.batchHeight, l);
    PowerOfNone();
  }

  /** The named sibling is the tree node next to the path, and it exists. */
  lemma SiblingIsTreeKey(s: Setup, l: nat)
    requires s.Fits() && l < s.spec.chunkHeight
    ensures var c, pos, sib := s.TargetChunk(), s.TargetPos(), FlipLowBit(Shr(s.TargetPos(), l));
            && sib < Pow2(s.spec.chunkHeight - l)
            && ChunkSiblingKey(c, pos, l, s.spec.chunkSize) == ChunkChildKey(c, l, sib, s.spec.chunkSize)
  {
    hide Setup.Shaped, Setup.Fits, Setup.TargetChunk, Setup.TargetPos, Shr, Pow2, FlipLowBit;
    FitsBounds(s);
    SpecBounds(s);
    TargetFits(s);
    PathFits(s.TargetPos(), l, s.spec.chunkHeight);
    ShortShift(s.TargetPos(), l);
  }

  lemma ShortShift(x: nat, l: nat)
    requires l < USIZE_BITS
    ensures ShiftRight(x, l) == Shr(x, l)
  {
    hide Shr;
    assert l % USIZE_BITS == l;
  }

  lemma ProofDepPresent(s: Setup, p: nat)
    requires s.Fits() && p <= s.spec.chunkHeight
    ensures Present(s, ProofDeps(s.spec, s.TargetChunk(), s.TargetPos())[p])
  {
    TargetFits(s);
    if p > 0 {
      SiblingIsTreeKey(s, p - 1);
      ChunkChildPresent(s, s.TargetChunk(), p - 1, FlipLowBit(Shr(s.TargetPos(), p - 1)));
    }
  }

  lemma DepPresent(s: Setup, k: Key, p: nat)
    requires s.Fits() && Present(s, k) && p < |PlanOf(s)(k).deps|
    ensures Present(s, PlanOf(s)(k).deps[p])
  {
    hide Setup.Shaped, Setup.Fits, Setup.TargetChunk, Setup.TargetPos, Setup.Chunks, Shr, ChunkSiblingKey;
    FitsBounds(s);
    SpecBounds(s);
    TopsExist(s);
    match k
    case ChunkNode(c, l, j) => ChunkNodeDeps(s, c, l, j, p);
    case BatchNode(l, j) => BatchNodeDeps(s, l, j, p);
    case ChunkProof(c, pos) => ProofDepPresent(s, p);
    case _ =>
  }

  lemma TopsExist(s: Setup)
    requires s.Shaped()
    ensures ShiftRight(s.spec.chunkSize, s.spec.chunkHeight) == 1 && ShiftRight(s.Chunks(), s.spec.batchHeight) == 1
  {
    hide ShiftRight, Setup.Chunks;
    SpecBounds(s);
    WidthFits(s.spec.chunkHeight, s.spec.chunkHeight);
    WidthFits(s.spec.batchHeight, s.spec.batchHeight);
    PowerOfNone();
  }

  lemma ChunkNodeDeps(s: Setup, c: nat, l: nat, j: nat, p: nat)
    requires s.Shaped() && Present(s, ChunkNode(c, l, j)) && p < |PlanOf(s)(ChunkNode(c, l, j)).deps|
    ensures Present(s, PlanOf(s)(ChunkNode(c, l, j)).deps[p])
  {
    hide Setup.Shaped, Setup.Fits, ShiftRight, Setup.Chunks;
    SpecBounds(s);
    WidthFits(s.spec.chunkHeight, l);
    assert Pow2(s.spec.chunkHeight - l + 1) == 2 * Pow2(s.spec.chunkHeight - l);
    hide Pow2;
    ChunkChildPresent(s, c, l - 1, 2 * j + p);
  }

  lemma BatchNodeDeps(s: Setup, l: nat, j: nat, p: nat)
    requires s.Shaped() && Present(s, BatchNode(l, j)) && p < |PlanOf(s)(BatchNode(l, j)).deps|
    ensures Present(s, PlanOf(s)(BatchNode(l, j)).deps[p])
  {
    hide Setup.Shaped, Setup.Fits, ShiftRight, Setup.Chunks;
    SpecBounds(s);
    WidthFits(s.spec.batchHeight, l);
    assert Pow2(s.spec.batchHeight - l + 1) == 2 * Pow2(s.spec.batchHeight - l);
    hide Pow2;
    BatchChildPresent(s, l - 1, 2 * j + p);
  }

  lemma RollupKeysClosed(s: Setup)
    requires s.Fits()
    ensures ClosedKeys(PlanOf(s), RollupKeys(s))
  {
    hide Setup.Shaped, Setup.Fits, Present, PlanOf, RollupKeys;
    FitsBounds(s);
    forall k, p | k in RollupKeys(s) && 0 <= p < |PlanOf(s)(k).deps|
      ensures PlanOf(s)(k).deps[p] in RollupKeys(s)
    {
      RollupMember(s, k);
      DepPresent(s, k, p);
      RollupMember(s, PlanOf(s)(k).deps[p]);
    }
  }

  lemma ChunkHasTree(s: Setup, c: nat)
    requires s.Shaped() && c < s.Chunks()
    ensures HasTree(RollupKeys(s), ChunkTree(c, s.spec.chunkSize), s.spec.chunkHeight)
  {
    hide Setup.Shaped, Setup.Fits, Setup.Chunks, Present, RollupKeys;
    SpecBounds(s);
    forall l: nat, j: nat | l <= s.spec.chunkHeight && j < Pow2(s.spec.chunkHeight - l)
      ensures ChunkTree(c, s.spec.chunkSize)(l, j) in RollupKeys(s)
    {
      ChunkChildPresent(s, c, l, j);
      RollupMember(s, ChunkChildKey(c, l, j, s.spec.chunkSize));
    }
  }

  lemma BatchHasTree(s: Setup)
    requires s.Shaped()
    ensures HasTree(RollupKeys(s), BatchChildKey, s.spec.batchHeight)
  {
    hide Setup.Shaped, Setup.Fits, Setup.Chunks, Present, RollupKeys;
    SpecBounds(s);
    forall l: nat, j: nat | l <= s.spec.batchHeight && j < Pow2(s.spec.batchHeight - l)
      ensures BatchChildKey(l, j) in RollupKeys(s)
    {
      BatchChildPresent(s, l, j);
      RollupMember(s, BatchChildKey(l, j));
    }
  }

  // ---------------------------------------------------------------------------------------
  // Building
  // ---------------------------------------------------------------------------------------

  ghost function UpToChunks(s: Setup, n: nat): set<Key> {
    LeafPart(s) + ChunkPart(s, n)
  }

  ghost function UpToBatch(s: Setup): set<Key>
    requires s.spec.chunkSize > 0
  {
    UpToChunks(s, s.Chunks()) + BatchInner(s)
  }

  lemma NextChunk(s: Setup, n: nat)
    ensures UpToChunks(s, 0) == LeafPart(s)
    ensures LeafPart(s) == KeyRange(TxKey, 0, |s.txs|) + KeyRange(LeafKey, 0, |s.txs|)
    ensures ChunkInner(s, n) !! UpToChunks(s, n)
    ensures ChunkInner(s, n)
         == LevelKeys(ChunkTree(n, s.spec.chunkSize), s.spec.chunkSize, s.spec.chunkHeight, s.spec.chunkHeight + 1, 0)
    ensures UpToChunks(s, n + 1) == UpToChunks(s, n) + ChunkInner(s, n) + {ChunkRoot(n)}
    ensures ChunkRoot(n) !in UpToChunks(s, n) + ChunkInner(s, n)
  {
    hide LevelKeys;
    forall k | k in ChunkInner(s, n) || k == ChunkRoot(n)
      ensures k !in UpToChunks(s, n)
    {
      ChunkInnerMember(s, n, k);
      ChunkPartMember(s, n, k);
    }
    ChunkInnerMember(s, n, ChunkRoot(n));
  }

  lemma LastParts(s: Setup)
    requires s.spec.chunkSize > 0
    ensures BatchInner(s) !! UpToChunks(s, s.Chunks())
    ensures BatchInner(s) == LevelKeys(BatchChildKey, s.Chunks(), s.spec.batchHeight, s.spec.batchHeight + 1, 0)
    ensures UpToBatch(s) == UpToChunks(s, s.Chunks()) + BatchInner(s)
    ensures BatchRoot !in UpToBatch(s)
    ensures ChunkProof(s.TargetChunk(), s.TargetPos()) !in UpToBatch(s) + {BatchRoot}
    ensures RollupKeys(s) == UpToBatch(s) + {BatchRoot} + {ChunkProof(s.TargetChunk(), s.TargetPos())}
  {
    hide ChunkInner, Setup.Chunks, ShiftRight;
    forall k: Key | k.BatchNode? || k.BatchRoot? || k.ChunkProof?
      ensures k !in UpToChunks(s, s.Chunks())
    {
      ChunkPartMember(s, s.Chunks(), k);
    }
  }

  /** Add one chunk tree and the alias of its root. */
  method AddChunk(b: DagBuilder<Key, Bytes, string>, s: Setup, c: nat) returns (r: Result<(), BuildError<Key>>)
    requires b.Valid() && Staged(b.staging, UpToChunks(s, c), PlanOf(s))
    modifies b
    ensures b.Valid() && r.Success? && Staged(b.staging, UpToChunks(s, c + 1), PlanOf(s))
  {
    hide *;
    ghost var plan := PlanOf(s);
    NextChunk(s, c);
    ChunkShape(s, c);
    r := AddLevels(b, s.spec.chunkSize, s.spec.chunkHeight, ChunkTree(c, s.spec.chunkSize), s.hash, UpToChunks(s, c),
                   plan);
    if r.Failure? {
      return;
    }
    AliasPlans(s, c);
    StagedAdd(b.staging, UpToChunks(s, c) + ChunkInner(s, c), plan, ChunkRoot(c));
    r := b.AddTask(ChunkRoot(c), [ChunkNode(c, s.spec.chunkHeight, 0)], CopyTask());
  }

  lemma AliasPlans(s: Setup, c: nat)
    ensures PlanOf(s)(ChunkRoot(c))
        == StagedNode(ChunkRoot(c), [ChunkNode(c, s.spec.chunkHeight, 0)], NodeKind.Task(CopyTask()))
    ensures PlanOf(s)(BatchRoot) == StagedNode(BatchRoot, [BatchNode(s.spec.batchHeight, 0)], NodeKind.Task(CopyTask()))
  {
  }

  lemma ProofPlan(s: Setup, c: nat, pos: nat)
    ensures PlanOf(s)(ChunkProof(c, pos)) ==
            StagedNode(ChunkProof(c, pos), ProofDeps(s.spec, c, pos),
                       NodeKind.Task(ProofTask(pos % 0x1_0000_0000, s.spec.chunkHeight % 256)))
  {
    hide ProofDeps, ProofTask, PairNode, LeafTask, CopyTask, ChunkTree;
  }

  /** The dependencies of the proof node: the leaf, then one sibling per level. */
  method CollectProofDeps(spec: RollupSpec, chunk: nat, pos: nat) returns (deps: seq<Key>)
    ensures deps == ProofDeps(spec, chunk, pos)
  {
    deps := [Leaf(spec.targetTx)];
    for lvl := 0 to spec.chunkHeight
      invariant |deps| == lvl + 1 && deps[0] == Leaf(spec.targetTx)
      invariant forall l: nat :: l < lvl ==> deps[l + 1] == ChunkSiblingKey(chunk, pos, l, spec.chunkSize)
    {
      deps := deps + [ChunkSiblingKey(chunk, pos, lvl, spec.chunkSize)];
    }
    assert forall p :: 1 <= p < |deps| ==> deps[p] == deps[(p - 1) + 1];
  }

  /** Without branches or target some planned dependency is missing. */
  lemma MissingDep(s: Setup) returns (k: Key, p: nat)
    requires s.Shaped() && !s.Fits()
    ensures k in RollupKeys(s) && p < |PlanOf(s)(k).deps| && PlanOf(s)(k).deps[p] !in RollupKeys(s)
  {
    hide Setup.Shaped, Setup.Fits, Setup.Chunks, PlanOf, RollupKeys, ShiftRight, ChunkSiblingKey;
    SpecBounds(s);
    hide Pow2;
    AliasPlans(s, 0);
    ProofPlan(s, s.TargetChunk(), s.TargetPos());
    WhyNot(s);
    p := 0;
    k := if s.spec.chunkHeight == 0 then ChunkRoot(0) else if s.spec.batchHeight == 0 then BatchRoot
         else ChunkProof(s.TargetChunk(), s.TargetPos());
    RollupMember(s, k);
    RollupMember(s, PlanOf(s)(k).deps[p]);
  }

  lemma WhyNot(s: Setup)
    requires s.Shaped() && !s.Fits()
    ensures s.spec.chunkHeight == 0 || s.spec.batchHeight == 0 || s.spec.targetTx >= |s.txs|
  {
  }

  /** The error names a planned dependency that is no key of the graph. */
  ghost predicate NamesMissing(s: Setup, e: BuildError<Key>)
    requires s.spec.chunkSize > 0
  {
    && e.MissingDependency? && e.task in RollupKeys(s)
    && e.missing in PlanOf(s)(e.task).deps && e.missing !in RollupKeys(s)
  }

  lemma DanglingIsNamed(s: Setup, staging: seq<StagedNode<Key, Bytes, string>>, i: nat, p: nat)
    requires s.spec.chunkSize > 0 && Staged(staging, RollupKeys(s), PlanOf(s)) && Dangling(staging, i, p)
    ensures NamesMissing(s, MissingDependency(staging[i].key, staging[i].deps[p]))
  {
    hide RollupKeys, PlanOf;
  }

  /** Build the whole commitment graph, for batches and heights of any shape. The build
    * succeeds exactly when every planned dependency is planned itself; then the graph has the
    * planned nodes and no others. Otherwise the error names a dependency that is not there. */
  method BuildRollupCommitmentDag(s: Setup)
    returns (r: Result<(Dag<Key, Bytes, string>, Key, Key), BuildError<Key>>)
    requires s.spec.chunkSize > 0
    ensures r.Success? <==> ClosedKeys(PlanOf(s), RollupKeys(s))
    ensures r.Failure? ==> NamesMissing(s, r.error)
    ensures r.Success? ==> Planned(r.value.0, RollupKeys(s), PlanOf(s))
    ensures r.Success? ==>
              r.value.1 == ChunkRoot(s.TargetChunk()) && r.value.2 == ChunkProof(s.TargetChunk(), s.TargetPos())
  {
    hide *;
    ghost var plan := PlanOf(s);
    Quotients(s);
    var nChunks := |s.txs| / s.spec.chunkSize;
    var b := new DagBuilder<Key, Bytes, string>();
    LeafShape(s);
    var added := AddLeaves(b, s.txs, TxKey, LeafKey, s.leafHash, plan);
    NextChunk(s, 0);
    for c := 0 to nChunks
      invariant b.Valid() && Staged(b.staging, UpToChunks(s, c), plan)
    {
      added := AddChunk(b, s, c);
    }
    LastParts(s);
    BatchShape(s);
    added := AddLevels(b, nChunks, s.spec.batchHeight, BatchChildKey, s.hash, UpToChunks(s, nChunks), plan);
    AliasPlans(s, 0);
    StagedAdd(b.staging, UpToBatch(s), plan, BatchRoot);
    added := b.AddTask(BatchRoot, [BatchNode(s.spec.batchHeight, 0)], CopyTask());
    var targetChunk, pos := s.spec.targetTx / s.spec.chunkSize, s.spec.targetTx % s.spec.chunkSize;
    var deps := CollectProofDeps(s.spec, targetChunk, pos);
    ProofPlan(s, targetChunk, pos);
    StagedAdd(b.staging, UpToBatch(s) + {BatchRoot}, plan, ChunkProof(targetChunk, pos));
    added := b.AddTask(ChunkProof(targetChunk, pos), deps, ProofTask(pos % 0x1_0000_0000, s.spec.chunkHeight % 256));
    var g := b.Build();
    BuildOutcome(s, b.staging, g);
    if g.Failure? {
      return Failure(g.error);
    }
    CompiledAsPlanned(b.staging, g.value, RollupKeys(s), plan);
    r := Success((g.value, ChunkRoot(targetChunk), ChunkProof(targetChunk, pos)));
  }

  lemma BuildOutcome(s: Setup, staging: seq<StagedNode<Key, Bytes, string>>,
                     g: Result<Dag<Key, Bytes, string>, BuildError<Key>>)
    requires s.spec.chunkSize > 0 && Staged(staging, RollupKeys(s), PlanOf(s))
    requires g.Success? <==> staging != [] && forall i: nat, p: nat :: !Dangling(staging, i, p)
    requires staging != [] && g.Failure? ==>
               exists i: nat, p: nat :: FirstDangling(staging, i, p)
                                        && g == Failure(MissingDependency(staging[i].key, staging[i].deps[p]))
    ensures g.Success? <==> ClosedKeys(PlanOf(s), RollupKeys(s))
    ensures g.Failure? ==> NamesMissing(s, g.error)
  {
    hide RollupKeys, PlanOf, Staged, Known, NamesMissing;
    SomethingStaged(s, staging);
    if ClosedKeys(PlanOf(s), RollupKeys(s)) {
      NothingDangles(staging, RollupKeys(s), PlanOf(s));
    } else {
      var k, q :| k in RollupKeys(s) && 0 <= q < |PlanOf(s)(k).deps| && PlanOf(s)(k).deps[q] !in RollupKeys(s);
      MissingDangles(staging, RollupKeys(s), PlanOf(s), k, q);
      var i: nat, p: nat :| FirstDangling(staging, i, p)
                            && g == Failure(MissingDependency(staging[i].key, staging[i].deps[p]));
      DanglingIsNamed(s, staging, i, p);
    }
  }

  /** Where the batch is a power of two of chunks, each a power of two of transactions, the
    * build succeeds exactly when both trees branch and the target is in the batch. */
  lemma BuildsExactly(s: Setup)
    requires s.Shaped()
    ensures ClosedKeys(PlanOf(s), RollupKeys(s)) <==> s.Fits()
  {
    hide Setup.Fits, PlanOf, RollupKeys;
    if s.Fits() {
      RollupKeysClosed(s);
    } else {
      var k, p := MissingDep(s);
    }
  }

  lemma SomethingStaged(s: Setup, staging: seq<StagedNode<Key, Bytes, string>>)
    requires s.spec.chunkSize > 0 && Staged(staging, RollupKeys(s), PlanOf(s))
    ensures staging != []
  {
    assert Known(staging, BatchRoot);
  }

  lemma Quotients(s: Setup)
    requires s.spec.chunkSize > 0
    ensures s.Chunks() == |s.txs| / s.spec.chunkSize
    ensures s.TargetChunk() == s.spec.targetTx / s.spec.chunkSize && s.TargetPos() == s.spec.targetTx % s.spec.chunkSize
  {
  }

  lemma SpecBounds(s: Setup)
    requires s.Shaped()
    ensures s.spec.chunkSize == Pow2(s.spec.chunkHeight) && s.spec.chunkSize > 0
    ensures s.spec.chunkHeight < USIZE_BITS && s.spec.batchHeight < USIZE_BITS && s.Chunks() == Pow2(s.spec.batchHeight)
    ensures s.TargetChunk() == s.spec.targetTx / s.spec.chunkSize && s.TargetPos() == s.spec.targetTx % s.spec.chunkSize
    ensures |s.txs| / s.spec.chunkSize == s.Chunks()
  {
    hide Pow2;
    DivisionUnique(|s.txs|, s.spec.chunkSize, Pow2(s.spec.batchHeight), 0);
  }

  lemma BranchBounds(s: Setup)
    requires s.Branches()
    ensures s.Shaped() && 1 <= s.spec.chunkHeight && 1 <= s.spec.batchHeight
    ensures s.Fits() <==> s.spec.targetTx < |s.txs|
  {
  }

  lemma FitsBounds(s: Setup)
    requires s.Fits()
    ensures s.Branches() && s.Shaped() && s.spec.targetTx < |s.txs|
    ensures 1 <= s.spec.chunkHeight && 1 <= s.spec.batchHeight
  {
  }
}
