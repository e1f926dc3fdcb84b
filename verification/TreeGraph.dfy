/** A perfect hash tree inside a keyed graph: how its levels are added, what its nodes mean,
  * what a request for a subtree needs. */
module TreeGraph {
  import opened Wrappers
  import opened Graph
  import opened Builder
  import opened KeyedGraph
  import opened Merkle

  /** Key of the tree node of a level at an index; level 0 holds the leaves. */
  type TreeKey<!K> = (nat, nat) -> K

  const OUT_OF_BOUNDS := "index out of bounds"

  /** The closure of an inner tree node: check both children, hash them left before right.
    * Fewer than two arguments, which no run passes, would be a panic. */
  function NodeTask(hash: NodeHash): seq<Bytes> -> Result<Bytes, string> {
    (xs: seq<Bytes>) =>
      if |xs| < 2 then Failure(OUT_OF_BOUNDS)
      else if |xs[0]| != 32 || |xs[1]| != 32 then Failure("expected 32-byte hash")
      else Success(hash(xs[0], xs[1]))
  }

  /** The closure of a leaf: hash the transaction bytes. */
  function LeafTask(leafHash: Bytes -> Digest): seq<Bytes> -> Result<Bytes, string> {
    (xs: seq<Bytes>) => if |xs| < 1 then Failure(OUT_OF_BOUNDS) else Success(leafHash(xs[0]))
  }

  function PairNode<K>(key: TreeKey<K>, hash: NodeHash, l: nat, j: nat): StagedNode<K, Bytes, string>
    requires l > 0
  {
    StagedNode(key(l, j), [key(l - 1, 2 * j), key(l - 1, 2 * j + 1)], NodeKind.Task(NodeTask(hash)))
  }

  /** Every inner node is planned over its two children. */
  ghost predicate PlansTree<K>(plan: Plan<K, Bytes, string>, key: TreeKey<K>, hash: NodeHash) {
    forall l: nat, j: nat :: 1 <= l ==> plan(key(l, j)) == PairNode(key, hash, l, j)
  }

  lemma PairPlanned<K>(plan: Plan<K, Bytes, string>, key: TreeKey<K>, hash: NodeHash, l: nat, j: nat)
    requires PlansTree(plan, key, hash) && 1 <= l
    ensures plan(key(l, j)) == PairNode(key, hash, l, j)
  {
  }

  ghost predicate HasTree<K>(keys: set<K>, key: TreeKey<K>, h: nat) {
    forall l: nat, j: nat :: l <= h && j < Pow2(h - l) ==> key(l, j) in keys
  }

  ghost predicate InnerInjective<K>(key: TreeKey<K>) {
    forall l: nat, j: nat, l': nat, j': nat :: l >= 1 && l' >= 1 && key(l, j) == key(l', j') ==> l == l' && j == j'
  }

  // ---------------------------------------------------------------------------------------
  // Adding the levels
  // ---------------------------------------------------------------------------------------

  /** Keys of the levels 1 to l - 1 and of the first i nodes of level l, over n leaves. */
  ghost function LevelKeys<K>(key: TreeKey<K>, n: nat, h: nat, l: nat, i: nat): set<K> {
    set m: nat, j: nat | 1 <= m <= h && j < ShiftRight(n, m) && (m < l || (m == l && j < i)) :: key(m, j)
  }

  lemma NextInLevel<K>(key: TreeKey<K>, n: nat, h: nat, l: nat, i: nat)
    requires 1 <= l <= h && i < ShiftRight(n, l)
    ensures LevelKeys(key, n, h, l, i + 1) == LevelKeys(key, n, h, l, i) + {key(l, i)}
    ensures InnerInjective(key) ==> key(l, i) !in LevelKeys(key, n, h, l, i)
  {
    forall k | k in LevelKeys(key, n, h, l, i)
      ensures k in LevelKeys(key, n, h, l, i + 1)
    {
      var m: nat, j: nat :| 1 <= m <= h && j < ShiftRight(n, m) && (m < l || (m == l && j < i)) && key(m, j) == k;
    }
  }

  lemma LevelDone<K>(key: TreeKey<K>, n: nat, h: nat, l: nat)
    requires 1 <= l <= h
    ensures LevelKeys(key, n, h, l + 1, 0) == LevelKeys(key, n, h, l, ShiftRight(n, l))
  {
    var done := LevelKeys(key, n, h, l + 1, 0);
    forall k | k in done
      ensures k in LevelKeys(key, n, h, l, ShiftRight(n, l))
    {
      var m: nat, j: nat :| 1 <= m <= h && j < ShiftRight(n, m) && m < l + 1 && key(m, j) == k;
    }
  }

  lemma {:induction false} WidthAt(h: nat, l: nat)
    requires l <= h
    ensures Shr(Pow2(h), l) == Pow2(h - l)
  {
    if l > 0 {
      WidthAt(h, l - 1);
      assert Pow2(h - l + 1) == 2 * Pow2(h - l);
    }
  }

  lemma WidthFits(h: nat, l: nat)
    requires l <= h < USIZE_BITS
    ensures ShiftRight(Pow2(h), l) == Pow2(h - l)
  {
    WidthAt(h, l);
  }

  /** Add the inner nodes level by level, left to right. */
  method AddLevels<K(==)>(b: DagBuilder<K, Bytes, string>, nLeaves: nat, height: nat, key: TreeKey<K>, hash: NodeHash,
                          ghost before: set<K>, ghost plan: Plan<K, Bytes, string>)
    returns (r: Result<(), BuildError<K>>)
    requires b.Valid() && Staged(b.staging, before, plan)
    requires InnerInjective(key) && PlansTree(plan, key, hash)
    requires LevelKeys(key, nLeaves, height, height + 1, 0) !! before
    modifies b
    ensures b.Valid() && r.Success?
    ensures Staged(b.staging, before + LevelKeys(key, nLeaves, height, height + 1, 0), plan)
  {
    hide *;
    NoLevel(key, nLeaves, height, before);
    for level := 1 to height + 1
      invariant b.Valid() && Staged(b.staging, before + LevelKeys(key, nLeaves, height, level, 0), plan)
    {
      var width := ShiftRight(nLeaves, level);
      for idx := 0 to width
        invariant b.Valid() && Staged(b.staging, before + LevelKeys(key, nLeaves, height, level, idx), plan)
      {
        NextPair(b.staging, nLeaves, height, key, hash, before, plan, level, idx);
        r := b.AddTask(key(level, idx), [key(level - 1, idx * 2), key(level - 1, idx * 2 + 1)], NodeTask(hash));
        if r.Failure? {
          return;
        }
      }
      LevelDone(key, nLeaves, height, level);
    }
    r := Success(());
  }

  lemma NoLevel<K>(key: TreeKey<K>, n: nat, h: nat, before: set<K>)
    ensures before + LevelKeys(key, n, h, 1, 0) == before
  {
  }

  /** The next node is new, and adding it keeps the builder on plan. */
  lemma NextPair<K>(staging: seq<StagedNode<K, Bytes, string>>, n: nat, h: nat, key: TreeKey<K>, hash: NodeHash,
                    before: set<K>, plan: Plan<K, Bytes, string>, l: nat, i: nat)
    requires 1 <= l <= h && i < ShiftRight(n, l)
    requires Staged(staging, before + LevelKeys(key, n, h, l, i), plan)
    requires InnerInjective(key) && PlansTree(plan, key, hash) && LevelKeys(key, n, h, h + 1, 0) !! before
    ensures !Known(staging, key(l, i))
    ensures Staged(staging + [StagedNode(key(l, i), [key(l - 1, i * 2), key(l - 1, i * 2 + 1)],
                                         NodeKind.Task(NodeTask(hash)))],
                   before + LevelKeys(key, n, h, l, i + 1), plan)
  {
    hide Staged, Known, ShiftRight, PlansTree;
    NextInLevel(key, n, h, l, i);
    assert key(l, i) in LevelKeys(key, n, h, h + 1, 0);
    hide LevelKeys;
    var added := before + LevelKeys(key, n, h, l, i);
    assert added + {key(l, i)} == before + LevelKeys(key, n, h, l, i + 1);
    PairPlanned(plan, key, hash, l, i);
    StagedAdd(staging, added, plan, key(l, i));
  }

  // ---------------------------------------------------------------------------------------
  // Adding the leaves
  // ---------------------------------------------------------------------------------------

  ghost predicate PlansLeaves<K>(plan: Plan<K, Bytes, string>, tx: nat -> K, leaf: nat -> K, leafHash: Bytes -> Digest,
                                 txs: seq<Bytes>)
  {
    forall i: nat :: i < |txs| ==>
      && plan(tx(i)) == StagedNode(tx(i), [], Source(txs[i]))
      && plan(leaf(i)) == StagedNode(leaf(i), [tx(i)], NodeKind.Task(LeafTask(leafHash)))
  }

  ghost predicate LeavesDistinct<K>(tx: nat -> K, leaf: nat -> K) {
    && (forall i, j :: tx(i) == tx(j) ==> i == j)
    && (forall i, j :: leaf(i) == leaf(j) ==> i == j)
    && (forall i, j :: tx(i) != leaf(j))
  }

  ghost function KeyRange<K>(f: nat -> K, lo: nat, hi: nat): set<K> {
    set j: nat | lo <= j < hi :: f(j)
  }

  /** Add the transaction sources, each followed by its leaf hash. */
  method AddLeaves<K(==)>(b: DagBuilder<K, Bytes, string>, txs: seq<Bytes>, tx: nat -> K, leaf: nat -> K,
                          leafHash: Bytes -> Digest, ghost plan: Plan<K, Bytes, string>)
    returns (r: Result<(), BuildError<K>>)
    requires b.Valid() && b.staging == []
    requires LeavesDistinct(tx, leaf) && PlansLeaves(plan, tx, leaf, leafHash, txs)
    modifies b
    ensures b.Valid() && r.Success?
    ensures Staged(b.staging, KeyRange(tx, 0, |txs|) + KeyRange(leaf, 0, |txs|), plan)
  {
    for i := 0 to |txs|
      invariant b.Valid() && Staged(b.staging, KeyRange(tx, 0, i) + KeyRange(leaf, 0, i), plan)
    {
      hide *;
      NextLeaf(b.staging, txs, tx, leaf, leafHash, plan, i);
      r := b.AddSource(tx(i), txs[i]);
      if r.Failure? {
        return;
      }
      r := b.AddTask(leaf(i), [tx(i)], LeafTask(leafHash));
      if r.Failure? {
        return;
      }
    }
    r := Success(());
  }

  lemma NextLeaf<K>(staging: seq<StagedNode<K, Bytes, string>>, txs: seq<Bytes>, tx: nat -> K, leaf: nat -> K,
                    leafHash: Bytes -> Digest, plan: Plan<K, Bytes, string>, i: nat)
    requires i < |txs| && LeavesDistinct(tx, leaf) && PlansLeaves(plan, tx, leaf, leafHash, txs)
    requires Staged(staging, KeyRange(tx, 0, i) + KeyRange(leaf, 0, i), plan)
    ensures var after := staging + [StagedNode(tx(i), [], Source(txs[i]))];
            && !Known(staging, tx(i)) && !Known(after, leaf(i))
            && Staged(after + [StagedNode(leaf(i), [tx(i)], NodeKind.Task(LeafTask(leafHash)))],
                      KeyRange(tx, 0, i + 1) + KeyRange(leaf, 0, i + 1), plan)
  {
    hide Staged, Known;
    var keys := KeyRange(tx, 0, i) + KeyRange(leaf, 0, i);
    StagedAdd(staging, keys, plan, tx(i));
    StagedAdd(staging + [plan(tx(i))], keys + {tx(i)}, plan, leaf(i));
    assert keys + {tx(i)} + {leaf(i)} == KeyRange(tx, 0, i + 1) + KeyRange(leaf, 0, i + 1);
  }

  ghost function LeafHashes(leafHash: Bytes -> Digest, txs: seq<Bytes>): (leaves: seq<Digest>)
    ensures |leaves| == |txs| && forall i :: 0 <= i < |txs| ==> leaves[i] == leafHash(txs[i])
  {
    seq(|txs|, i requires 0 <= i < |txs| => leafHash(txs[i]))
  }

  lemma LeafKeyMeans<K>(g: Dag<K, Bytes, string>, keys: set<K>, plan: Plan<K, Bytes, string>, tx: nat -> K,
                        leaf: nat -> K,
                        leafHash: Bytes -> Digest, txs: seq<Bytes>, i: nat)
    requires Planned(g, keys, plan) && PlansLeaves(plan, tx, leaf, leafHash, txs)
    requires i < |txs| && tx(i) in keys && leaf(i) in keys
    ensures Means(g, tx(i), txs[i]) && Means(g, leaf(i), leafHash(txs[i]))
  {
    SourceMeans(g, keys, plan, tx(i), txs[i]);
    hide Planned, Means;
    TaskMeans(g, keys, plan, leaf(i), [txs[i]], leafHash(txs[i]));
  }

  // ---------------------------------------------------------------------------------------
  // Meaning
  // ---------------------------------------------------------------------------------------

  ghost predicate LeavesMean<K>(g: Dag<K, Bytes, string>, key: TreeKey<K>, leaves: seq<Digest>) {
    forall j: nat :: j < |leaves| ==> Means(g, key(0, j), leaves[j])
  }

  lemma LeafMeans<K>(g: Dag<K, Bytes, string>, key: TreeKey<K>, leaves: seq<Digest>, j: nat)
    requires LeavesMean(g, key, leaves) && j < |leaves|
    ensures Shl(j + 1, 0) <= |leaves| && Means(g, key(0, j), leaves[j])
  {
  }

  lemma TreeNode<K>(keys: set<K>, plan: Plan<K, Bytes, string>, key: TreeKey<K>, hash: NodeHash, h: nat, l: nat, j: nat)
    requires PlansTree(plan, key, hash) && HasTree(keys, key, h) && 1 <= l <= h && j < Pow2(h - l)
    ensures key(l, j) in keys && plan(key(l, j)) == PairNode(key, hash, l, j)
  {
  }

  /** Every tree key means the hash of the subtree below it. */
  lemma {:induction false} TreeMeans<K>(g: Dag<K, Bytes, string>, keys: set<K>, plan: Plan<K, Bytes, string>,
                                        key: TreeKey<K>, hash: NodeHash, h: nat, leaves: seq<Digest>, l: nat, j: nat)
    requires Planned(g, keys, plan) && PlansTree(plan, key, hash) && HasTree(keys, key, h)
    requires |leaves| == Pow2(h) && LeavesMean(g, key, leaves) && l <= h && j < Pow2(h - l)
    ensures Shl(j + 1, l) <= |leaves| && Means(g, key(l, j), NodeAt(hash, leaves, l, j))
    decreases l
  {
    hide Planned, Means, HasTree, LeavesMean, PlansTree, Shl;
    NodeFits(j, l, h);
    if l == 0 {
      LeafMeans(g, key, leaves, j);
    } else {
      assert Pow2(h - l + 1) == 2 * Pow2(h - l);
      TreeMeans(g, keys, plan, key, hash, h, leaves, l - 1, 2 * j);
      TreeMeans(g, keys, plan, key, hash, h, leaves, l - 1, 2 * j + 1);
      TreeNode(keys, plan, key, hash, h, l, j);
      var args: seq<Bytes> := [NodeAt(hash, leaves, l - 1, 2 * j), NodeAt(hash, leaves, l - 1, 2 * j + 1)];
      TaskMeans(g, keys, plan, key(l, j), args, NodeAt(hash, leaves, l, j));
    }
  }

  // ---------------------------------------------------------------------------------------
  // Subtrees
  // ---------------------------------------------------------------------------------------

  /** Node (m, j) lies in the subtree of node (l, idx). */
  ghost predicate Under(l: nat, idx: nat, m: nat, j: nat) {
    m <= l && Shl(idx, l - m) <= j < Shl(idx + 1, l - m)
  }

  lemma {:induction false} ShlDouble(x: nat, n: nat)
    ensures Shl(2 * x, n) == 2 * Shl(x, n)
    decreases n
  {
    if n > 0 { ShlDouble(2 * x, n - 1); }
  }

  lemma UnderFits(h: nat, l: nat, idx: nat, m: nat, j: nat)
    requires l <= h && idx < Pow2(h - l) && Under(l, idx, m, j)
    ensures j < Pow2(h - m)
  {
    ShlPow2(l - m, h - m);
    ShlMonotone(idx + 1, Pow2(h - l), l - m);
  }

  lemma UnderParent(l: nat, idx: nat, m: nat, j: nat)
    requires m < l
    ensures Under(l, idx, m, j) <==> Under(l, idx, m + 1, j / 2)
  {
    ShlDouble(idx, l - m - 1);
    ShlDouble(idx + 1, l - m - 1);
  }

  lemma UnderSelf(l: nat, idx: nat, j: nat)
    requires Under(l, idx, l, j)
    ensures j == idx
  {
  }

  /** The whole subtree of a needed node is needed. */
  lemma {:induction false} SubtreeNeeded<K>(g: Dag<K, Bytes, string>, keys: set<K>, plan: Plan<K, Bytes, string>,
                                            key: TreeKey<K>, hash: NodeHash, h: nat, roots: seq<K>,
                                            l: nat, idx: nat, m: nat, j: nat)
    requires m <= l && Planned(g, keys, plan) && PlansTree(plan, key, hash) && HasTree(keys, key, h)
    requires l <= h && idx < Pow2(h - l) && Under(l, idx, m, j) && KeyNeeded(g, roots, key(l, idx))
    ensures KeyNeeded(g, roots, key(m, j))
    decreases l - m
  {
    hide Planned, KeyNeeded, PlansTree, HasTree, Under, Shl, Pow2;
    if m == l {
      UnderSelf(l, idx, j);
    } else {
      UnderParent(l, idx, m, j);
      SubtreeNeeded(g, keys, plan, key, hash, h, roots, l, idx, m + 1, j / 2);
      UnderFits(h, l, idx, m + 1, j / 2);
      var parent := key(m + 1, j / 2);
      TreeNode(keys, plan, key, hash, h, m + 1, j / 2);
      DepNeeded(g, keys, plan, roots, parent, j % 2);
      assert 2 * (j / 2) + j % 2 == j;
    }
  }

  /** Keys of the subtree's nodes on levels 1 to n. */
  ghost function InnerKeys<K>(key: TreeKey<K>, l: nat, idx: nat, n: nat): set<K>
    requires n <= l
  {
    set m: nat, j: nat | 1 <= m <= n && Shl(idx, l - m) <= j < Shl(idx + 1, l - m) :: key(m, j)
  }

  lemma {:induction false} KeyRangeSize<K>(f: nat -> K, lo: nat, hi: nat)
    requires lo <= hi
    requires forall a, b :: lo <= a < b < hi ==> f(a) != f(b)
    ensures |KeyRange(f, lo, hi)| == hi - lo
    decreases hi - lo
  {
    if lo < hi {
      KeyRangeSize(f, lo, hi - 1);
      assert KeyRange(f, lo, hi) == KeyRange(f, lo, hi - 1) + {f(hi - 1)};
    } else {
      assert KeyRange(f, lo, hi) == {};
    }
  }

  /** The subtree of a node on level l has 2^l - 1 inner nodes. */
  lemma {:induction false} InnerKeysSize<K>(key: TreeKey<K>, l: nat, idx: nat, n: nat)
    requires n <= l && InnerInjective(key)
    ensures |InnerKeys(key, l, idx, n)| == Pow2(l) - Pow2(l - n)
    decreases n
  {
    hide Shl;
    if n == 0 {
      assert InnerKeys(key, l, idx, 0) == {};
    } else {
      InnerKeysSize(key, l, idx, n - 1);
      var row := InnerRow(key, l, idx, n);
      assert Pow2(l - (n - 1)) == 2 * Pow2(l - n);
    }
  }

  /** The nodes lo to hi - 1 of level n. */
  ghost function RowKeys<K>(key: TreeKey<K>, n: nat, lo: nat, hi: nat): set<K> {
    set j: nat | lo <= j < hi :: key(n, j)
  }

  lemma {:induction false} RowKeysSize<K>(key: TreeKey<K>, n: nat, lo: nat, hi: nat)
    requires n >= 1 && InnerInjective(key) && lo <= hi
    ensures |RowKeys(key, n, lo, hi)| == hi - lo
    decreases hi - lo
  {
    if lo < hi {
      RowKeysSize(key, n, lo, hi - 1);
      assert RowKeys(key, n, lo, hi) == RowKeys(key, n, lo, hi - 1) + {key(n, hi - 1)};
    } else {
      assert RowKeys(key, n, lo, hi) == {};
    }
  }

  lemma RowAdded<K>(key: TreeKey<K>, l: nat, idx: nat, n: nat)
    requires 1 <= n <= l
    ensures InnerKeys(key, l, idx, n)
         == InnerKeys(key, l, idx, n - 1) + RowKeys(key, n, Shl(idx, l - n), Shl(idx + 1, l - n))
  {
    hide Shl;
    var row := RowKeys(key, n, Shl(idx, l - n), Shl(idx + 1, l - n));
    var before, all := InnerKeys(key, l, idx, n - 1), InnerKeys(key, l, idx, n);
    forall k | k in all
      ensures k in before + row
    {
      var m: nat, j: nat :| 1 <= m <= n && Shl(idx, l - m) <= j < Shl(idx + 1, l - m) && key(m, j) == k;
      if m == n { assert k in row; } else { assert k in before; }
    }
    forall k | k in row
      ensures k in all
    {
      var j: nat :| Shl(idx, l - n) <= j < Shl(idx + 1, l - n) && key(n, j) == k;
    }
    forall k | k in before
      ensures k in all
    {
      var m: nat, j: nat :| 1 <= m <= n - 1 && Shl(idx, l - m) <= j < Shl(idx + 1, l - m) && key(m, j) == k;
    }
  }

  lemma RowApart<K>(key: TreeKey<K>, l: nat, idx: nat, n: nat, lo: nat, hi: nat)
    requires 1 <= n <= l && InnerInjective(key)
    ensures InnerKeys(key, l, idx, n - 1) !! RowKeys(key, n, lo, hi)
  {
    hide Shl;
    forall k | k in InnerKeys(key, l, idx, n - 1)
      ensures k !in RowKeys(key, n, lo, hi)
    {
      var m: nat, j: nat :| 1 <= m <= n - 1 && Shl(idx, l - m) <= j < Shl(idx + 1, l - m) && key(m, j) == k;
    }
  }

  lemma InnerRow<K>(key: TreeKey<K>, l: nat, idx: nat, n: nat) returns (row: set<K>)
    requires 1 <= n <= l && InnerInjective(key)
    ensures InnerKeys(key, l, idx, n) == InnerKeys(key, l, idx, n - 1) + row
    ensures InnerKeys(key, l, idx, n - 1) !! row && |row| == Pow2(l - n)
  {
    hide *;
    var lo, hi := Shl(idx, l - n), Shl(idx + 1, l - n);
    ShlNext(idx, l - n);
    row := RowKeys(key, n, lo, hi);
    RowAdded(key, l, idx, n);
    RowApart(key, l, idx, n, lo, hi);
    RowKeysSize(key, n, lo, hi);
  }

  /** Over a power of two of leaves the levels make up the whole tree. */
  lemma PerfectLevels<K>(key: TreeKey<K>, h: nat)
    requires h < USIZE_BITS && InnerInjective(key)
    ensures LevelKeys(key, Pow2(h), h, h + 1, 0) == InnerKeys(key, h, 0, h)
    ensures |LevelKeys(key, Pow2(h), h, h + 1, 0)| == Pow2(h) - 1
  {
    hide InnerInjective, ShiftRight;
    InnerKeysSize(key, h, 0, h);
    PowerOfNone();
    hide Pow2;
    var levels, inner := LevelKeys(key, Pow2(h), h, h + 1, 0), InnerKeys(key, h, 0, h);
    forall m: nat | 1 <= m <= h
      ensures ShiftRight(Pow2(h), m) == Pow2(h - m) && Shl(0, h - m) == 0 && Shl(1, h - m) == Pow2(h - m)
    {
      WidthFits(h, m);
      ShlOfOne(h - m);
    }
    hide Shl;
    forall k | k in inner
      ensures k in levels
    {
      var m: nat, j: nat :| 1 <= m <= h && Shl(0, h - m) <= j < Shl(1, h - m) && key(m, j) == k;
      assert j < ShiftRight(Pow2(h), m);
    }
    assert levels == inner;
  }

  lemma {:induction false} ShlOfOne(n: nat)
    ensures Shl(0, n) == 0 && Shl(1, n) == Pow2(n)
    decreases n
  {
    if n > 0 {
      ShlOfOne(n - 1);
      ShlDouble(1, n - 1);
    }
  }

  /** The keys of a subtree: its inner nodes, its leaves, and what the leaves are made from. */
  ghost function SubtreeKeys<K>(key: TreeKey<K>, base: nat -> K, l: nat, idx: nat): set<K> {
    var lo, hi := Shl(idx, l), Shl(idx + 1, l);
    InnerKeys(key, l, idx, l) + KeyRange(j => key(0, j), lo, hi) + KeyRange(base, lo, hi)
  }

  /** Membership in a subtree, node by node. */
  lemma SubtreeMember<K>(key: TreeKey<K>, base: nat -> K, l: nat, idx: nat, m: nat, j: nat)
    requires Under(l, idx, m, j)
    ensures key(m, j) in SubtreeKeys(key, base, l, idx)
    ensures m == 0 ==> base(j) in SubtreeKeys(key, base, l, idx)
  {
    assert m == 0 ==> (j => key(0, j))(j) in KeyRange(j => key(0, j), Shl(idx, l), Shl(idx + 1, l));
  }

  lemma SubtreeShape<K>(key: TreeKey<K>, base: nat -> K, l: nat, idx: nat, k: K)
    requires k in SubtreeKeys(key, base, l, idx)
    ensures exists m: nat, j: nat :: Under(l, idx, m, j) && (k == key(m, j) || (m == 0 && k == base(j)))
  {
    if k in InnerKeys(key, l, idx, l) {
      var m: nat, j: nat :| 1 <= m <= l && Shl(idx, l - m) <= j < Shl(idx + 1, l - m) && key(m, j) == k;
      assert Under(l, idx, m, j);
    } else if k in KeyRange(base, Shl(idx, l), Shl(idx + 1, l)) {
      var j: nat :| Shl(idx, l) <= j < Shl(idx + 1, l) && base(j) == k;
      assert Under(l, idx, 0, j);
    } else {
      var j: nat :| Shl(idx, l) <= j < Shl(idx + 1, l) && (j => key(0, j))(j) == k;
      assert Under(l, idx, 0, j);
    }
  }

  /** Leaves are planned over their base node, and base nodes over nothing. */
  ghost predicate PlansBase<K>(plan: Plan<K, Bytes, string>, key: TreeKey<K>, base: nat -> K, n: nat) {
    forall j: nat :: j < n ==> plan(key(0, j)).deps == [base(j)] && plan(base(j)).deps == []
  }

  lemma SubtreeClosed<K>(plan: Plan<K, Bytes, string>, key: TreeKey<K>, base: nat -> K, hash: NodeHash, h: nat, l: nat,
                         idx: nat)
    requires l <= h && idx < Pow2(h - l) && PlansTree(plan, key, hash) && PlansBase(plan, key, base, Pow2(h))
    ensures ClosedKeys(plan, SubtreeKeys(key, base, l, idx))
  {
    hide SubtreeKeys, Under, Shl, Pow2, PlansTree, PlansBase;
    var s := SubtreeKeys(key, base, l, idx);
    forall k, p | k in s && 0 <= p < |plan(k).deps|
      ensures plan(k).deps[p] in s
    {
      SubtreeShape(key, base, l, idx, k);
      var m: nat, j: nat :| Under(l, idx, m, j) && (k == key(m, j) || (m == 0 && k == base(j)));
      UnderFits(h, l, idx, m, j);
      UnderBelow(h, l, idx, m, j);
      if m == 0 {
        BaseDeps(plan, key, base, Pow2(h), j);
        SubtreeMember(key, base, l, idx, 0, j);
      } else {
        ChildrenUnder(plan, key, base, hash, h, l, idx, m, j);
      }
    }
  }

  lemma BaseDeps<K>(plan: Plan<K, Bytes, string>, key: TreeKey<K>, base: nat -> K, n: nat, j: nat)
    requires PlansBase(plan, key, base, n) && j < n
    ensures plan(key(0, j)).deps == [base(j)] && plan(base(j)).deps == []
  {
  }

  lemma ChildrenUnder<K>(plan: Plan<K, Bytes, string>, key: TreeKey<K>, base: nat -> K, hash: NodeHash, h: nat, l: nat,
                         idx: nat,
                         m: nat, j: nat)
    requires 1 <= m <= l <= h && j < Pow2(h - m) && Under(l, idx, m, j) && PlansTree(plan, key, hash)
    ensures forall p :: 0 <= p < |plan(key(m, j)).deps| ==> plan(key(m, j)).deps[p] in SubtreeKeys(key, base, l, idx)
  {
    hide SubtreeKeys, Under, Shl, Pow2, PlansTree;
    PairPlanned(plan, key, hash, m, j);
    UnderParent(l, idx, m - 1, 2 * j);
    UnderParent(l, idx, m - 1, 2 * j + 1);
    SubtreeMember(key, base, l, idx, m - 1, 2 * j);
    SubtreeMember(key, base, l, idx, m - 1, 2 * j + 1);
  }

  lemma UnderBelow(h: nat, l: nat, idx: nat, m: nat, j: nat)
    requires l <= h && Under(l, idx, m, j)
    ensures m <= l && (m == 0 ==> Pow2(h - m) == Pow2(h))
  {
  }

  lemma SubtreeAllNeeded<K>(g: Dag<K, Bytes, string>, keys: set<K>, plan: Plan<K, Bytes, string>, key: TreeKey<K>,
                            base: nat -> K, hash: NodeHash, h: nat, roots: seq<K>, l: nat, idx: nat)
    requires Planned(g, keys, plan) && PlansTree(plan, key, hash) && HasTree(keys, key, h)
    requires PlansBase(plan, key, base, Pow2(h))
    requires l <= h && idx < Pow2(h - l) && KeyNeeded(g, roots, key(l, idx))
    ensures forall k :: k in SubtreeKeys(key, base, l, idx) ==> KeyNeeded(g, roots, k)
  {
    hide SubtreeKeys, Under, Shl, Pow2, Planned, KeyNeeded, HasTree, PlansTree;
    forall k | k in SubtreeKeys(key, base, l, idx)
      ensures KeyNeeded(g, roots, k)
    {
      SubtreeShape(key, base, l, idx, k);
      var m: nat, j: nat :| Under(l, idx, m, j) && (k == key(m, j) || (m == 0 && k == base(j)));
      UnderFits(h, l, idx, m, j);
      UnderBelow(h, l, idx, m, j);
      SubtreeNeeded(g, keys, plan, key, hash, h, roots, l, idx, m, j);
      if m == 0 {
        DepNeeded(g, keys, plan, roots, key(0, j), 0);
      }
    }
  }
}
