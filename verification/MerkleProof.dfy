/** What the proof verifier accepts, for every proof and tree height. Nothing is assumed about
  * the node hash: where soundness fails, proof and tree exhibit a collision. */
module MerkleProofs {
  import opened Merkle

  // ---------------------------------------------------------------------------------------
  // Positions
  // ---------------------------------------------------------------------------------------

  /** The position that the side bits of the levels s to s + m - 1 spell out. */
  ghost function PathBits(idx: nat, s: nat, m: nat): (pos: nat)
    ensures pos < Pow2(m)
    decreases m
  {
    if m == 0 then 0 else Bit(idx, s) + 2 * PathBits(idx, s + 1, m - 1)
  }

  lemma {:induction false} PathBitsBit(idx: nat, s: nat, m: nat, l: nat)
    requires l < m
    ensures Shr(PathBits(idx, s, m), l) % 2 == Bit(idx, s + l)
    decreases l
  {
    hide Bit;
    if l > 0 {
      assert PathBits(idx, s, m) / 2 == PathBits(idx, s + 1, m - 1);
      ShrHalf(PathBits(idx, s, m), l - 1);
      PathBitsBit(idx, s + 1, m - 1, l - 1);
    }
  }

  /** Within a word these bits are a quotient of the index, reduced modulo a power of two. */
  lemma PathBitsIsIndex(idx: nat, s: nat, m: nat)
    requires s + m <= USIZE_BITS
    ensures PathBits(idx, s, m) == (idx / Pow2(s)) % Pow2(m)
  {
    PathBitsIsLow(idx, s, m);
    ShrIsDiv(idx, s);
    LowIsMod(Shr(idx, s), m);
  }

  lemma PathBitsIsMod(idx: nat, m: nat)
    requires m <= USIZE_BITS
    ensures PathBits(idx, 0, m) == idx % Pow2(m)
  {
    PathBitsIsIndex(idx, 0, m);
  }

  lemma {:induction false} PathBitsIsLow(idx: nat, s: nat, m: nat)
    requires s + m <= USIZE_BITS
    ensures PathBits(idx, s, m) == Low(Shr(idx, s), m)
    decreases m
  {
    if m > 0 {
      PathBitsIsLow(idx, s + 1, m - 1);
      assert s % USIZE_BITS == s;
      assert Bit(idx, s) == Shr(idx, s) % 2 && Shr(idx, s + 1) == Shr(idx, s) / 2;
    }
  }

  // ---------------------------------------------------------------------------------------
  // Following the tree
  // ---------------------------------------------------------------------------------------

  function Smaller(a: nat, b: nat): nat {
    if a <= b then a else b
  }

  /** From level s on, the proof goes through the node at pos and carries its path siblings. */
  ghost predicate FollowsFrom(hash: NodeHash, nodes: seq<Digest>, m: nat, pos: nat, proof: Bytes, s: nat)
    requires |nodes| == Pow2(m) && pos < Pow2(m) && HasHeader(proof) && |proof| >= Entry(s + m)
  {
    && Climb(hash, proof, s) == nodes[pos]
    && forall l :: 0 <= l < m ==> Sibling(proof, s + l) == PathSibling(hash, nodes, m, pos, l)
  }

  /** Proof and tree agree on all levels they share, counted from the root: a proof that is not
    * taller than the tree starts from a tree node, a taller one reaches a leaf of the tree, at
    * the position its side bits spell, and the siblings from there on are those of the tree. */
  ghost predicate FollowsTree(hash: NodeHash, leaves: seq<Digest>, h: nat, proof: Bytes)
    requires |leaves| == Pow2(h) && WellFormed(proof)
  {
    var k := Height(proof);
    var m := Smaller(k, h);
    FollowsFrom(hash, LevelNodes(hash, leaves, h, h - m), m, PathBits(Index(proof), k - m, m), proof, k - m)
  }

  /** Level s + l of the proof and level l of the tree hash different pairs to the same digest. */
  ghost predicate CollisionAt(hash: NodeHash, nodes: seq<Digest>, m: nat, pos: nat, proof: Bytes, s: nat, l: nat)
    requires |nodes| == Pow2(m) && pos < Pow2(m) && l < m
    requires HasHeader(proof) && |proof| >= Entry(s + m)
  {
    var (a, b) := ProofInputs(hash, proof, s + l);
    var (c, d) := TreeInputs(hash, nodes, m, pos, l);
    (a, b) != (c, d) && hash(a, b) == hash(c, d)
  }

  ghost predicate CollidesFrom(hash: NodeHash, nodes: seq<Digest>, m: nat, pos: nat, proof: Bytes, s: nat)
    requires |nodes| == Pow2(m) && pos < Pow2(m) && HasHeader(proof) && |proof| >= Entry(s + m)
  {
    exists l :: 0 <= l < m && CollisionAt(hash, nodes, m, pos, proof, s, l)
  }

  /** Proof and tree exhibit a collision on the levels they share. */
  ghost predicate Collides(hash: NodeHash, leaves: seq<Digest>, h: nat, proof: Bytes)
    requires |leaves| == Pow2(h) && WellFormed(proof)
  {
    var k := Height(proof);
    var m := Smaller(k, h);
    CollidesFrom(hash, LevelNodes(hash, leaves, h, h - m), m, PathBits(Index(proof), k - m, m), proof, k - m)
  }

  lemma {:induction false} ClimbsThePath(hash: NodeHash, nodes: seq<Digest>, m: nat, pos: nat, proof: Bytes, s: nat,
                                         n: nat)
    requires |nodes| == Pow2(m) && n <= m && HasHeader(proof) && |proof| >= Entry(s + m)
    requires pos == PathBits(Index(proof), s, m) && SidesMatch(proof, s + m)
    requires FollowsFrom(hash, nodes, m, pos, proof, s)
    ensures Climb(hash, proof, s + n) == PathNode(hash, nodes, m, pos, n)
    decreases n
  {
    hide Index, Leaf, Sibling, PathBits, Bit, Shr, Pow2, PathNode, PathSibling;
    if n == 0 {
      LeafOnPath(hash, nodes, m, pos);
    } else {
      ClimbsThePath(hash, nodes, m, pos, proof, s, n - 1);
      PathStep(hash, nodes, m, pos, n - 1);
      PathBitsBit(Index(proof), s, m, n - 1);
      assert Side(proof, s + n - 1) == Bit(Index(proof), s + n - 1) == Shr(pos, n - 1) % 2;
      assert Sibling(proof, s + (n - 1)) == PathSibling(hash, nodes, m, pos, n - 1);
    }
  }

  /** A proof that follows the tree hashes the same pairs as the tree. */
  lemma SamePairs(hash: NodeHash, nodes: seq<Digest>, m: nat, pos: nat, proof: Bytes, s: nat)
    requires |nodes| == Pow2(m) && HasHeader(proof) && |proof| >= Entry(s + m)
    requires pos == PathBits(Index(proof), s, m) && SidesMatch(proof, s + m)
    requires FollowsFrom(hash, nodes, m, pos, proof, s)
    ensures !CollidesFrom(hash, nodes, m, pos, proof, s)
  {
    hide Index, Leaf, Sibling, PathBits, Bit, Shr, Pow2, PathNode, PathSibling;
    forall l | 0 <= l < m
      ensures !CollisionAt(hash, nodes, m, pos, proof, s, l)
    {
      ClimbsThePath(hash, nodes, m, pos, proof, s, l);
      PathBitsBit(Index(proof), s, m, l);
      assert Side(proof, s + l) == Bit(Index(proof), s + l) == Shr(pos, l) % 2;
    }
  }

  lemma {:induction false} DescendsThePath(hash: NodeHash, nodes: seq<Digest>, m: nat, pos: nat, proof: Bytes, s: nat,
                                           l: nat)
    requires |nodes| == Pow2(m) && l <= m && HasHeader(proof) && |proof| >= Entry(s + m)
    requires pos == PathBits(Index(proof), s, m) && SidesMatch(proof, s + m)
    requires Climb(hash, proof, s + m) == PathNode(hash, nodes, m, pos, m)
    requires !CollidesFrom(hash, nodes, m, pos, proof, s)
    ensures Climb(hash, proof, s + l) == PathNode(hash, nodes, m, pos, l)
    ensures l < m ==> Sibling(proof, s + l) == PathSibling(hash, nodes, m, pos, l)
    decreases m - l
  {
    hide Index, Leaf, Sibling, PathBits, Bit, Shr, Pow2, PathNode, PathSibling;
    if l < m {
      DescendsThePath(hash, nodes, m, pos, proof, s, l + 1);
      PathStep(hash, nodes, m, pos, l);
      PathBitsBit(Index(proof), s, m, l);
      assert Side(proof, s + l) == Bit(Index(proof), s + l) == Shr(pos, l) % 2;
      assert !CollisionAt(hash, nodes, m, pos, proof, s, l);
    }
  }

  lemma DescentFollows(hash: NodeHash, nodes: seq<Digest>, m: nat, pos: nat, proof: Bytes, s: nat)
    requires |nodes| == Pow2(m) && HasHeader(proof) && |proof| >= Entry(s + m)
    requires pos == PathBits(Index(proof), s, m) && SidesMatch(proof, s + m)
    requires Climb(hash, proof, s + m) == PathNode(hash, nodes, m, pos, m)
    requires !CollidesFrom(hash, nodes, m, pos, proof, s)
    ensures FollowsFrom(hash, nodes, m, pos, proof, s)
  {
    hide Index, Leaf, Sibling, PathBits, Pow2, PathNode, PathSibling, CollidesFrom;
    DescendsThePath(hash, nodes, m, pos, proof, s, 0);
    LeafOnPath(hash, nodes, m, pos);
    forall l | 0 <= l < m
      ensures Sibling(proof, s + l) == PathSibling(hash, nodes, m, pos, l)
    {
      DescendsThePath(hash, nodes, m, pos, proof, s, l);
    }
  }

  /** Soundness and completeness in one, for every proof height: a well-formed proof follows
    * the tree exactly if it is accepted against its root and the two exhibit no collision. */
  lemma AcceptedExactly(hash: NodeHash, leaves: seq<Digest>, h: nat, proof: Bytes)
    requires |leaves| == Pow2(h) && WellFormed(proof)
    ensures FollowsTree(hash, leaves, h, proof)
            <==> Accepts(hash, TreeRoot(hash, leaves, h), proof) && !Collides(hash, leaves, h, proof)
  {
    hide Index, SidesMatch, PathBits, LevelNodes, TreeRoot, Climb, Pow2, FollowsFrom, CollidesFrom, PathNode;
    var k := Height(proof);
    var m := Smaller(k, h);
    var nodes, pos := LevelNodes(hash, leaves, h, h - m), PathBits(Index(proof), k - m, m);
    LevelHasSameRoot(hash, leaves, h, h - m);
    TopOnPath(hash, nodes, m, pos);
    if FollowsTree(hash, leaves, h, proof) {
      ClimbsThePath(hash, nodes, m, pos, proof, k - m, m);
      SamePairs(hash, nodes, m, pos, proof, k - m);
    } else if Accepts(hash, TreeRoot(hash, leaves, h), proof) && !Collides(hash, leaves, h, proof) {
      DescentFollows(hash, nodes, m, pos, proof, k - m);
    }
  }

  /** Following a tree of the proof's own height. */
  lemma FollowsAtHeight(hash: NodeHash, leaves: seq<Digest>, h: nat, proof: Bytes)
    requires |leaves| == Pow2(h) && WellFormed(proof) && Height(proof) == h <= USIZE_BITS && Index(proof) < Pow2(h)
    ensures FollowsTree(hash, leaves, h, proof) <==>
              && Leaf(proof) == leaves[Index(proof)]
              && forall l :: 0 <= l < h ==> Sibling(proof, l) == PathSibling(hash, leaves, h, Index(proof), l)
  {
    hide Index, Leaf, Sibling, SidesMatch, PathBits, PathSibling, NodeAt, Pow2;
    PathBitsIsMod(Index(proof), h);
    SmallMod(Index(proof), Pow2(h));
    LevelIsLeaves(hash, leaves, h);
  }

  /** What following the tree says about the leaf field. A proof that is not taller than the
    * tree carries a tree node there. In a taller proof the leaf of the tree is a node hash
    * that the proof computes on its way up. */
  lemma AcceptedProofOrCollision(hash: NodeHash, leaves: seq<Digest>, h: nat, proof: Bytes)
    requires |leaves| == Pow2(h) && Accepts(hash, TreeRoot(hash, leaves, h), proof)
    ensures var k := Height(proof);
            || Collides(hash, leaves, h, proof)
            || (k <= h && Leaf(proof) == NodeOf(hash, leaves, h, h - k, PathBits(Index(proof), 0, k)))
            || (k > h && var (left, right) := ProofInputs(hash, proof, k - h - 1);
                         leaves[PathBits(Index(proof), k - h, h)] == hash(left, right))
  {
    hide Index, Leaf, SidesMatch, PathBits, LevelNodes, TreeRoot, NodeAt, ProofInputs, Pow2, Collides;
    AcceptedExactly(hash, leaves, h, proof);
    if Height(proof) > h { LevelZero(hash, leaves, h, PathBits(Index(proof), Height(proof) - h, h)); }
  }

  /** For the height of the tree: an accepted proof carries the leaf at its index modulo 2^h, or
    * proof and tree contain two different input pairs with the same hash. */
  lemma AcceptedLeafOrCollision(hash: NodeHash, leaves: seq<Digest>, h: nat, proof: Bytes)
    requires |leaves| == Pow2(h) && h <= USIZE_BITS
    requires Accepts(hash, TreeRoot(hash, leaves, h), proof) && Height(proof) == h
    ensures Leaf(proof) == leaves[Index(proof) % Pow2(h)] || Collides(hash, leaves, h, proof)
  {
    hide Index, Leaf, SidesMatch, PathBits, Collides, LevelNodes, TreeRoot, NodeAt, ProofInputs, Climb, Pow2;
    AcceptedProofOrCollision(hash, leaves, h, proof);
    PathBitsIsMod(Index(proof), h);
    LevelZero(hash, leaves, h, PathBits(Index(proof), 0, h));
  }

  // ---------------------------------------------------------------------------------------
  // Honest proofs
  // ---------------------------------------------------------------------------------------

  /** The siblings of the path from a node to the root. */
  ghost function PathSiblings(hash: NodeHash, nodes: seq<Digest>, m: nat, pos: nat): (siblings: seq<Digest>)
    requires |nodes| == Pow2(m) && pos < Pow2(m)
    ensures |siblings| == m
    ensures forall l :: 0 <= l < m ==> siblings[l] == PathSibling(hash, nodes, m, pos, l)
  {
    seq(m, l requires 0 <= l < m => PathSibling(hash, nodes, m, pos, l))
  }

  /** The proof for the tree node on level h - k at the position the index spells. */
  ghost function NodeProof(hash: NodeHash, leaves: seq<Digest>, h: nat, k: byte, idx: u32): Bytes
    requires |leaves| == Pow2(h) && k <= h
  {
    var nodes, pos := LevelNodes(hash, leaves, h, h - k), PathBits(idx, 0, k);
    ProofBytes(idx, k, nodes[pos], PathSiblings(hash, nodes, k, pos), k)
  }

  /** Every tree node has a proof that is accepted, with any index that spells its position. */
  lemma NodeProofAccepted(hash: NodeHash, leaves: seq<Digest>, h: nat, k: byte, idx: u32)
    requires |leaves| == Pow2(h) && k <= h
    ensures var proof := NodeProof(hash, leaves, h, k, idx);
            && WellFormed(proof) && Height(proof) == k && Index(proof) == idx
            && Leaf(proof) == NodeOf(hash, leaves, h, h - k, PathBits(idx, 0, k))
            && Accepts(hash, TreeRoot(hash, leaves, h), proof) && !Collides(hash, leaves, h, proof)
  {
    hide Index, Leaf, Sibling, SidesMatch, PathBits, TreeRoot, PathSibling, NodeAt, ProofBytes, Pow2, Accepts, Collides;
    var nodes, pos := LevelNodes(hash, leaves, h, h - k), PathBits(idx, 0, k);
    ProofReadsBack(idx, k, nodes[pos], PathSiblings(hash, nodes, k, pos), k);
    AcceptedExactly(hash, leaves, h, NodeProof(hash, leaves, h, k, idx));
  }

  /** Completeness: the proof that carries the leaf at pos and its path siblings is accepted. */
  lemma HonestProofAccepted(hash: NodeHash, leaves: seq<Digest>, h: nat, pos: nat, proof: Bytes)
    requires |leaves| == Pow2(h) && pos < Pow2(h) && h <= USIZE_BITS
    requires WellFormed(proof) && Height(proof) == h
    requires Index(proof) == pos && Leaf(proof) == leaves[pos]
    requires forall l :: 0 <= l < h ==> Sibling(proof, l) == PathSibling(hash, leaves, h, pos, l)
    ensures Accepts(hash, TreeRoot(hash, leaves, h), proof)
  {
    hide Index, Leaf, Sibling, SidesMatch, PathBits, TreeRoot, PathSibling, NodeAt, Pow2, Accepts, Collides;
    FollowsAtHeight(hash, leaves, h, proof);
    AcceptedExactly(hash, leaves, h, proof);
  }

  lemma SmallMod(x: nat, m: nat)
    requires x < m
    ensures x % m == x
  {
    DivisionUnique(x, m, 0, x);
  }

  lemma LevelIsLeaves(hash: NodeHash, leaves: seq<Digest>, h: nat)
    requires |leaves| == Pow2(h)
    ensures LevelNodes(hash, leaves, h, 0) == leaves
  {
    hide NodeAt;
    forall i | 0 <= i < |leaves|
      ensures LevelNodes(hash, leaves, h, 0)[i] == leaves[i]
    {
      LevelZero(hash, leaves, h, i);
    }
  }

  // ---------------------------------------------------------------------------------------
  // What a caller has to check
  // ---------------------------------------------------------------------------------------

  ghost predicate NamesLeaf(leaves: seq<Digest>, proof: Bytes)
    requires HasHeader(proof)
  {
    Index(proof) < |leaves| && Leaf(proof) == leaves[Index(proof)]
  }

  /** An accepted proof of height k and index idx against a tree of height h, free of collisions. */
  ghost predicate Instance(hash: NodeHash, leaves: seq<Digest>, h: nat, k: byte, idx: u32, proof: Bytes) {
    && |leaves| == Pow2(h) && Accepts(hash, TreeRoot(hash, leaves, h), proof) && !Collides(hash, leaves, h, proof)
    && Height(proof) == k && Index(proof) == idx
  }

  ghost predicate AlwaysNamesLeaf(h: nat, k: byte, idx: u32) {
    forall hash: NodeHash, leaves: seq<Digest>, proof: Bytes :: Instance(hash, leaves, h, k, idx, proof) ==>
      NamesLeaf(leaves, proof)
  }

  /** Acceptance shows that the leaf field is the tree leaf at the index exactly for proofs whose
    * height is that of the tree and whose index is a position in it. For every other height or
    * index some tree and some accepted proof have it otherwise, without any collision. */
  lemma CallerCheckIsExact(h: nat, k: byte, idx: u32)
    requires h <= USIZE_BITS
    ensures AlwaysNamesLeaf(h, k, idx) <==> k == h && idx < Pow2(h)
  {
    if k == h && idx < Pow2(h) {
      forall hash: NodeHash, leaves: seq<Digest>, proof: Bytes | Instance(hash, leaves, h, k, idx, proof)
        ensures NamesLeaf(leaves, proof)
      {
        AcceptedLeafOrCollision(hash, leaves, h, proof);
        SmallMod(idx, Pow2(h));
      }
    } else {
      var hash, leaves, proof := Misnamed(h, k, idx);
      assert Instance(hash, leaves, h, k, idx, proof);
    }
  }

  function Ones(): Digest {
    seq(32, _ => 1)
  }

  function Zeros(): Digest {
    seq(32, _ => 0)
  }

  function ConstantHash(): NodeHash {
    (a: Bytes, b: Bytes) => Ones()
  }

  function Copies(d: Digest, n: nat): (ds: seq<Digest>)
    ensures |ds| == n && forall i :: 0 <= i < n ==> ds[i] == d
  {
    seq(n, _ => d)
  }

  /** An accepted proof that does not name a leaf, for any other height or index. */
  lemma Misnamed(h: nat, k: byte, idx: u32) returns (hash: NodeHash, leaves: seq<Digest>, proof: Bytes)
    requires !(k == h && idx < Pow2(h))
    ensures Instance(hash, leaves, h, k, idx, proof) && !NamesLeaf(leaves, proof)
  {
    hash := ConstantHash();
    if k <= h {
      leaves := Copies(Zeros(), Pow2(h));
      proof := NodeProof(hash, leaves, h, k, idx);
      NodeProofAccepted(hash, leaves, h, k, idx);
      ShortMisnames(h, k, idx);
    } else {
      leaves := Copies(Ones(), Pow2(h));
      proof := ProofBytes(idx, k, Zeros(), Copies(Ones(), k), k);
      TallMisnames(h, k, idx);
    }
  }

  lemma ShortMisnames(h: nat, k: byte, idx: u32)
    requires k <= h && !(k == h && idx < Pow2(h))
    ensures var leaves := Copies(Zeros(), Pow2(h));
            idx >= |leaves| || leaves[idx] != NodeOf(ConstantHash(), leaves, h, h - k, PathBits(idx, 0, k))
  {
    OnesDiffer();
  }

  lemma TallMisnames(h: nat, k: byte, idx: u32)
    requires k > h
    ensures var leaves, proof := Copies(Ones(), Pow2(h)), ProofBytes(idx, k, Zeros(), Copies(Ones(), k), k);
            Instance(ConstantHash(), leaves, h, k, idx, proof) && !NamesLeaf(leaves, proof)
  {
    hide Index, Leaf, Sibling, SidesMatch, PathBits, TreeRoot, ProofBytes, Pow2, Accepts, Collides, PathSibling, Climb,
      LevelNodes, ConstantHash, Ones, Zeros;
    var hash, leaves := ConstantHash(), Copies(Ones(), Pow2(h));
    var proof := ProofBytes(idx, k, Zeros(), Copies(Ones(), k), k);
    ProofReadsBack(idx, k, Zeros(), Copies(Ones(), k), k);
    LevelIsLeaves(hash, leaves, h);
    OnesDiffer();
    ClimbIsOnes(proof, k - h);
    var pos := PathBits(idx, k - h, h);
    forall l | 0 <= l < h
      ensures Sibling(proof, k - h + l) == PathSibling(hash, leaves, h, pos, l)
    {
      OnesOnPath(h, pos, l);
    }
    assert FollowsFrom(hash, leaves, h, pos, proof, k - h);
    hide FollowsFrom;
    AcceptedExactly(hash, leaves, h, proof);
  }

  lemma OnesDiffer()
    ensures Ones() != Zeros()
  {
    assert Zeros()[0] != Ones()[0];
  }

  lemma ClimbIsOnes(proof: Bytes, n: nat)
    requires HasHeader(proof) && |proof| >= Entry(n) && n >= 1
    ensures Climb(ConstantHash(), proof, n) == Ones()
  {
    hide Ones, Leaf, Sibling, Side;
  }

  lemma OnesInside(n: nat, l: nat, i: nat)
    requires Shl(i + 1, l) <= n
    ensures NodeAt(ConstantHash(), Copies(Ones(), n), l, i) == Ones()
  {
    hide Ones;
  }

  lemma OnesOnPath(h: nat, pos: nat, l: nat)
    requires pos < Pow2(h) && l < h
    ensures PathSibling(ConstantHash(), Copies(Ones(), Pow2(h)), h, pos, l) == Ones()
  {
    hide Shr, FlipLowBit, Shl, Pow2, NodeAt, Ones, ConstantHash;
    PathFits(pos, l, h);
    OnesInside(Pow2(h), l, FlipLowBit(Shr(pos, l)));
  }

  /** The verifier is not told the height of the tree, and the format does not separate leaves
    * from inner nodes: the root itself passes as the leaf of a proof without levels. */
  lemma RootPassesAsLeaf(hash: NodeHash, leaves: seq<Digest>, h: nat)
    requires |leaves| == Pow2(h)
    ensures var root := TreeRoot(hash, leaves, h);
            Accepts(hash, root, ProofBytes(0, 0, root, [], 0))
  {
    ProofReadsBack(0, 0, TreeRoot(hash, leaves, h), [], 0);
  }

  /** Concretely: over two zero leaves and a hash whose value is not zero, a proof is accepted
    * whose leaf field is no leaf of the tree. */
  lemma AcceptedWithoutLeaf()
    ensures var hash, leaves := ConstantHash(), [Zeros(), Zeros()];
            var proof := ProofBytes(0, 0, Ones(), [], 0);
            && |leaves| == Pow2(1) && HasHeader(proof) && Leaf(proof) !in leaves
            && Accepts(hash, TreeRoot(hash, leaves, 1), proof)
  {
    hide Ones, Zeros, ProofBytes, Leaf;
    OnesDiffer();
    PairRoot([Zeros(), Zeros()]);
    RootPassesAsLeaf(ConstantHash(), [Zeros(), Zeros()], 1);
    ProofReadsBack(0, 0, Ones(), [], 0);
  }

  lemma PairRoot(leaves: seq<Digest>)
    requires |leaves| == 2
    ensures Pow2(1) == 2 && TreeRoot(ConstantHash(), leaves, 1) == Ones()
  {
    hide Ones;
    assert Pow2(0) == 1;
  }

  /** A second index is accepted for the leaf at pos, as long as it fits the format. */
  lemma IndexBeyondTree(hash: NodeHash, leaves: seq<Digest>, h: byte, pos: nat)
    requires |leaves| == Pow2(h) && h < 32 && pos < Pow2(h) && pos + Pow2(h) < 0x1_0000_0000
    ensures var proof := ProofBytes(pos + Pow2(h), h, leaves[pos], PathSiblings(hash, leaves, h, pos), h);
            HasHeader(proof) && Index(proof) >= |leaves| && Accepts(hash, TreeRoot(hash, leaves, h), proof)
  {
    hide Index, Leaf, SidesMatch, PathBits, Pow2, TreeRoot, NodeAt, PathSiblings, ProofBytes, LevelNodes, Collides,
      Climb;
    PathBitsIsMod(pos + Pow2(h), h);
    DivisionUnique(pos + Pow2(h), Pow2(h), 1, pos);
    LevelIsLeaves(hash, leaves, h);
    NodeProofAccepted(hash, leaves, h, h, pos + Pow2(h));
  }

  // ---------------------------------------------------------------------------------------
  // Canonical form
  // ---------------------------------------------------------------------------------------

  ghost function Siblings(proof: Bytes, n: nat): (siblings: seq<Digest>)
    requires |proof| >= Entry(n)
    ensures |siblings| == n
  {
    seq(n, l requires 0 <= l < n => Sibling(proof, l))
  }

  /** A well-formed proof is, up to trailing bytes, what the encoder makes of its fields: no
    * two encodings of the same proof are accepted. */
  lemma {:induction false} WellFormedIsEncoded(proof: Bytes, k: nat, n: nat)
    requires HasHeader(proof) && n <= k && |proof| >= Entry(k) && SidesMatch(proof, k)
    ensures proof[..Entry(n)] == ProofBytes(Index(proof), Height(proof), Leaf(proof), Siblings(proof, k), n)
  {
    if n == 0 {
      LeValueRoundTrip(proof[2..6]);
      assert proof[..HEADER] == [proof[0], proof[1]] + proof[2..6] + proof[6..38];
    } else {
      WellFormedIsEncoded(proof, k, n - 1);
      assert proof[..Entry(n)] == proof[..Entry(n - 1)] + [Side(proof, n - 1)] + Sibling(proof, n - 1);
    }
  }
}
