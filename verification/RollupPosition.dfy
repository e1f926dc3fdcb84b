/** The proof node stores the position in 32 bits. Which positions survive that is decided by
  * the position alone. */
module RollupPositions {
  import opened Merkle
  import opened MerkleProofs
  import opened TreeGraph
  import opened RollupDag
  import opened RollupRequest

  /** The bytes of the proof node are accepted against the root of the target's chunk. */
  ghost predicate AcceptedAtHome(s: Setup)
    requires s.Fits()
  {
    TargetFits(s);
    Accepts(s.hash, ChunkRootOf(s, s.TargetChunk()), TargetProof(s))
  }

  ghost predicate TargetAt(s: Setup, chunkHeight: nat, pos: nat) {
    s.Fits() && s.spec.chunkHeight == chunkHeight && s.TargetPos() == pos
  }

  ghost predicate AlwaysAccepted(chunkHeight: nat, pos: nat) {
    forall s: Setup :: TargetAt(s, chunkHeight, pos) ==> AcceptedAtHome(s)
  }

  /** Whatever the transactions and hashes: the target's proof is accepted at a position of its
    * chunk exactly if the position fits 32 bits. */
  lemma PositionLimitIsExact(chunkHeight: nat, pos: nat)
    requires 1 <= chunkHeight < USIZE_BITS - 1 && pos < Pow2(chunkHeight)
    ensures AlwaysAccepted(chunkHeight, pos) <==> pos < 0x1_0000_0000
  {
    hide Setup.Fits, Setup.TargetPos, AcceptedAtHome, FarSetup;
    if pos < 0x1_0000_0000 {
      forall s: Setup | TargetAt(s, chunkHeight, pos)
        ensures AcceptedAtHome(s)
      {
        NearTargetAccepted(s);
      }
    } else {
      FarShape(chunkHeight, pos);
      FarTargetRejected(chunkHeight, pos);
      assert TargetAt(FarSetup(chunkHeight, pos), chunkHeight, pos);
    }
  }

  lemma NearTargetAccepted(s: Setup)
    requires s.Fits() && s.TargetPos() < 0x1_0000_0000
    ensures AcceptedAtHome(s)
  {
    hide Setup.Fits, Setup.TargetPos, Setup.TargetChunk, Accepts, TargetProof, ChunkRootOf;
    FitsBounds(s);
    TargetProofAccepted(s);
  }

  // ---------------------------------------------------------------------------------------
  // A setup that rejects
  // ---------------------------------------------------------------------------------------

  /** A node hash that keeps its left input. */
  function LeftHash(): NodeHash {
    (a: Bytes, b: Bytes) => if |a| == 32 then a else Zeros()
  }

  /** Two chunks; the leaf hash of the first transaction is zero, all others are not. */
  function FarSetup(h: nat, pos: nat): Setup {
    Setup(seq(Pow2(1) * Pow2(h), i => if i == 0 then [] else [1]), RollupSpec(Pow2(h), h, 1, pos),
          (tx: Bytes) => if tx == [1] then Ones() else Zeros(), LeftHash())
  }

  /** The target's proof is rejected: the root of its chunk is the first leaf hash, and with the
    * cut index the verifier never reaches that leaf. */
  lemma FarTargetRejected(h: nat, pos: nat)
    requires h < USIZE_BITS - 1 && 0x1_0000_0000 <= pos < Pow2(h)
    ensures FarSetup(h, pos).Fits() && !AcceptedAtHome(FarSetup(h, pos))
  {
    var s := FarSetup(h, pos);
    FarShape(h, pos);
    hide FarSetup, Setup.Fits, Setup.Shaped, Setup.TargetChunk, Setup.TargetPos, ChunkLeaves, TargetSiblings,
      TargetLeaf, ProofBytes, Merkle.Leaf, Index, Sibling, TreeRoot, Ones, Zeros, LeftHash, Pow2;
    FarLeaves(h, pos);
    FitsBounds(s);
    SpecBounds(s);
    LeftRoot(ChunkLeaves(s, 0), h);
    var cut := pos % 0x1_0000_0000;
    ProofReadsBack(cut, h, TargetLeaf(s), TargetSiblings(s), h);
    forall l | 0 <= l < h && l < 32
      ensures Sibling(TargetProof(s), l) == Ones()
    {
      FarSibling(h, pos, l);
    }
    LeftClimb(TargetProof(s), h);
    OnesDiffer();
  }

  lemma FarShape(h: nat, pos: nat)
    requires 1 <= h < USIZE_BITS - 1 && pos < Pow2(h)
    ensures var s := FarSetup(h, pos);
            && s.Fits() && s.TargetPos() == pos && s.TargetChunk() == 0 && s.Chunks() == 2
            && s.spec.chunkHeight == h && s.hash == LeftHash()
  {
    var s := FarSetup(h, pos);
    PowerOfNone();
    assert Pow2(1) == 2;
    hide Pow2;
    DivisionUnique(pos, Pow2(h), 0, pos);
    SpecBounds(s);
  }

  lemma FarLeaves(h: nat, pos: nat)
    requires 1 <= h < USIZE_BITS - 1 && 0 < pos < Pow2(h)
    ensures var s := FarSetup(h, pos);
            && s.Fits() && s.Chunks() == 2 && TargetLeaf(s) == Ones()
            && forall i :: 0 <= i < Pow2(h) ==> ChunkLeaves(s, 0)[i] == if i == 0 then Zeros() else Ones()
  {
    FarShape(h, pos);
    var s := FarSetup(h, pos);
    hide Pow2, Shl, Ones, Zeros, Slice;
    ChunkBounds(s, 0);
  }

  lemma {:induction false} LeftRoot(leaves: seq<Digest>, h: nat)
    requires |leaves| == Pow2(h)
    ensures TreeRoot(LeftHash(), leaves, h) == leaves[0]
  {
    if h > 0 {
      LeftRoot(leaves[..Pow2(h - 1)], h - 1);
    }
  }

  lemma {:induction false} LeftNode(leaves: seq<Digest>, l: nat, i: nat)
    requires Shl(i + 1, l) <= |leaves|
    ensures Shl(i, l) < |leaves| && NodeAt(LeftHash(), leaves, l, i) == leaves[Shl(i, l)]
    decreases l
  {
    ShlMonotone(2 * i + 1, 2 * i + 2, if l == 0 then 0 else l - 1);
    if l > 0 { LeftNode(leaves, l - 1, 2 * i); }
  }

  /** Below level 32 the path of a far position stays away from the first leaf. */
  lemma FarSibling(h: nat, pos: nat, l: nat)
    requires h < USIZE_BITS - 1 && 0x1_0000_0000 <= pos < Pow2(h) && l < 32
    ensures var s := FarSetup(h, pos);
            l < h && s.Fits() && TargetSiblings(s)[l] == Ones()
  {
    var s := FarSetup(h, pos);
    HighEnough(h, pos);
    FarShape(h, pos);
    FarLeaves(h, pos);
    hide FarSetup, Setup.Fits, Setup.Shaped, Setup.TargetChunk, Setup.TargetPos, ChunkLeaves, TargetSiblings, Ones,
      Zeros, LeftHash, Pow2, Shl, Shr, NodeAt;
    FitsBounds(s);
    TargetInChunk(s);
    var i := FlipLowBit(Shr(pos, l));
    PathFits(pos, l, h);
    AwayFromEdge(pos, l);
    LeftNode(ChunkLeaves(s, 0), l, i);
  }

  lemma HighEnough(h: nat, pos: nat)
    requires 0x1_0000_0000 <= pos < Pow2(h)
    ensures h > 32
  {
    PowerOfWord();
    if h <= 32 { PowerMonotone(h, 32); }
  }

  lemma {:induction false} PowerMonotone(a: nat, b: nat)
    requires a <= b
    ensures Pow2(a) <= Pow2(b)
  {
    if a < b { PowerMonotone(a, b - 1); }
  }

  lemma AwayFromEdge(pos: nat, l: nat)
    requires 0x1_0000_0000 <= pos && l < 32
    ensures Shl(FlipLowBit(Shr(pos, l)), l) > 0
  {
    PowerOfWord();
    WidthAt(32, l);
    ShrMonotone(Pow2(32), pos, l);
    assert Pow2(32 - l) == 2 * Pow2(31 - l);
    var i := FlipLowBit(Shr(pos, l));
    hide Pow2, Shl, Shr;
    ShlIsMul(i, l);
    ScaledLe(1, i, Pow2(l));
  }

  lemma {:induction false} ShrMonotone(a: nat, b: nat, n: nat)
    requires a <= b
    ensures Shr(a, n) <= Shr(b, n)
  {
    if n > 0 { ShrMonotone(a, b, n - 1); }
  }

  /** An index of 32 bits has no further bits. */
  lemma NoHighBit(idx: u32, l: nat)
    requires 32 <= l < USIZE_BITS
    ensures Bit(idx, l) == 0
  {
    PowerOfWord();
    ShrBelow(idx, 32, 32);
    NoBits(idx, 32, l);
  }

  lemma {:induction false} NoBits(x: nat, n: nat, m: nat)
    requires Shr(x, n) == 0 && n <= m
    ensures Shr(x, m) == 0
  {
    if n < m { NoBits(x, n, m - 1); }
  }

  lemma {:induction false} LeftClimb(proof: Bytes, n: nat)
    requires HasHeader(proof) && |proof| >= Entry(n) && SidesMatch(proof, n) && n <= USIZE_BITS
    requires Merkle.Leaf(proof) == Ones() && forall l :: 0 <= l < n && l < 32 ==> Sibling(proof, l) == Ones()
    ensures Climb(LeftHash(), proof, n) == Ones()
  {
    hide Index, Merkle.Leaf, Sibling, Zeros, Ones;
    if n > 0 {
      LeftClimb(proof, n - 1);
      if n - 1 >= 32 { NoHighBit(Index(proof), n - 1); }
    }
  }

  lemma PowerOfWord()
    ensures Pow2(32) == 0x1_0000_0000
  {
    EightMore(0);
    EightMore(8);
    EightMore(16);
    EightMore(24);
  }

  lemma EightMore(n: nat)
    ensures Pow2(n + 8) == 256 * Pow2(n)
  {
    assert Pow2(n + 8) == 2 * Pow2(n + 7) == 4 * Pow2(n + 6) == 8 * Pow2(n + 5) == 16 * Pow2(n + 4);
    assert Pow2(n + 4) == 2 * Pow2(n + 3) == 4 * Pow2(n + 2) == 8 * Pow2(n + 1) == 16 * Pow2(n);
  }
}
