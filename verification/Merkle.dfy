/** Perfect hash trees over an abstract 32-byte node hash, and the binary inclusion proof with
  * its encoder and verifier. */
module Merkle {
  import opened Wrappers

  type byte = n: nat | n < 256 witness 0

  type Bytes = seq<byte>

  type Digest = d: Bytes | |d| == 32 witness seq(32, _ => 0)

  type NodeHash = (Bytes, Bytes) -> Digest

  type u32 = n: nat | n < 0x1_0000_0000 witness 0

  const USIZE_BITS: nat := 64

  // ---------------------------------------------------------------------------------------
  // Bits
  // ---------------------------------------------------------------------------------------

  function Pow2(n: nat): (p: nat)
    ensures p >= 1
  {
    if n == 0 then 1 else 2 * Pow2(n - 1)
  }

  /** x >> n, one bit at a time. */
  function Shr(x: nat, n: nat): nat {
    if n == 0 then x else Shr(x, n - 1) / 2
  }

  /** `>>` on a usize: the shift amount is taken modulo the word size, as in a release build.
    * (A debug build stops instead when the amount reaches the word size.) */
  function ShiftRight(x: nat, n: nat): nat {
    Shr(x, n % USIZE_BITS)
  }

  function Bit(x: nat, n: nat): (b: nat)
    ensures b < 2
  {
    ShiftRight(x, n) % 2
  }

  /** x ^ 1 */
  function FlipLowBit(x: nat): nat {
    if x % 2 == 0 then x + 1 else x - 1
  }

  /** The lowest n bits of x. */
  function Low(x: nat, n: nat): nat {
    if n == 0 then 0 else 2 * Low(x / 2, n - 1) + x % 2
  }

  lemma {:induction false} LowIsMod(x: nat, n: nat)
    ensures Low(x, n) == x % Pow2(n)
  {
    if n > 0 {
      LowIsMod(x / 2, n - 1);
      ModDouble(x, Pow2(n - 1));
    }
  }

  lemma ScaledLe(a: nat, b: nat, m: nat)
    requires a <= b
    ensures a * m <= b * m
  {
    assert b * m == a * m + (b - a) * m;
  }

  lemma DivisionUnique(x: nat, d: nat, q: nat, r: nat)
    requires d >= 1 && x == d * q + r && r < d
    ensures x % d == r && x / d == q
  {
    var q', r' := x / d, x % d;
    assert x == d * q' + r';
    if q > q' { ScaledLe(q' + 1, q, d); } else if q < q' { ScaledLe(q + 1, q', d); }
  }

  lemma ModDouble(x: nat, m: nat)
    requires m >= 1
    ensures x % (2 * m) == 2 * ((x / 2) % m) + x % 2
  {
    var half := x / 2;
    var q, r := half / m, half % m;
    assert half == m * q + r;
    assert (2 * m) * q == 2 * (m * q);
    DivisionUnique(x, 2 * m, q, 2 * r + x % 2);
  }

  lemma {:induction false} ShrIsDiv(x: nat, n: nat)
    ensures Shr(x, n) == x / Pow2(n)
  {
    if n > 0 {
      ShrIsDiv(x, n - 1);
      DivDiv(x, Pow2(n - 1));
    }
  }

  /** Within a word, bit n is the quotient by 2^n, modulo 2. */
  lemma BitIsQuotient(x: nat, n: nat)
    requires n < USIZE_BITS
    ensures ShiftRight(x, n) == x / Pow2(n) && Bit(x, n) == x / Pow2(n) % 2
  {
    hide Shr, Pow2;
    ShrIsDiv(x, n);
    assert n % USIZE_BITS == n;
  }

  lemma DivDiv(x: nat, m: nat)
    requires m >= 1
    ensures (x / m) / 2 == x / (2 * m)
  {
    var q, r := x / m, x % m;
    assert x == m * q + r;
    assert m * q == m * (2 * (q / 2) + q % 2) == (2 * m) * (q / 2) + m * (q % 2);
    assert m * (q % 2) <= m;
    DivisionUnique(x, 2 * m, q / 2, m * (q % 2) + r);
  }

  lemma {:induction false} ShrHalf(x: nat, n: nat)
    ensures Shr(x / 2, n) == Shr(x, n + 1)
  {
    if n > 0 { ShrHalf(x, n - 1); }
  }

  lemma {:induction false} ShrBelow(x: nat, n: nat, h: nat)
    requires x < Pow2(h) && n <= h
    ensures Shr(x, n) < Pow2(h - n)
  {
    if n > 0 { ShrBelow(x, n - 1, h); }
  }

  /** x << n without loss of bits. */
  function Shl(x: nat, n: nat): nat
    decreases n
  {
    if n == 0 then x else Shl(2 * x, n - 1)
  }

  lemma {:induction false} ShlIsMul(x: nat, n: nat)
    ensures Shl(x, n) == x * Pow2(n)
    decreases n
  {
    if n > 0 {
      ShlIsMul(2 * x, n - 1);
      var p := Pow2(n - 1);
      assert (2 * x) * p == x * (2 * p);
    }
  }

  lemma {:induction false} ShlMonotone(a: nat, b: nat, n: nat)
    requires a <= b
    ensures Shl(a, n) <= Shl(b, n)
    decreases n
  {
    if n > 0 { ShlMonotone(2 * a, 2 * b, n - 1); }
  }

  lemma {:induction false} ShlNext(x: nat, n: nat)
    ensures Shl(x + 1, n) == Shl(x, n) + Pow2(n)
    decreases n
  {
    if n > 0 {
      ShlNext(2 * x, n - 1);
      ShlNext(2 * x + 1, n - 1);
    }
  }

  lemma {:induction false} ShlPow2(n: nat, h: nat)
    requires n <= h
    ensures Shl(Pow2(h - n), n) == Pow2(h)
  {
    if n > 0 { ShlPow2(n - 1, h); }
  }

  // ---------------------------------------------------------------------------------------
  // Trees
  // ---------------------------------------------------------------------------------------

  /** The node of level `lvl` at index `idx` of the tree over `leaves`. */
  ghost function NodeAt(hash: NodeHash, leaves: seq<Digest>, lvl: nat, idx: nat): Digest
    requires Shl(idx + 1, lvl) <= |leaves|
    decreases lvl
  {
    if lvl == 0 then leaves[idx]
    else
      ShlMonotone(2 * idx + 1, 2 * idx + 2, lvl - 1);
      hash(NodeAt(hash, leaves, lvl - 1, 2 * idx), NodeAt(hash, leaves, lvl - 1, 2 * idx + 1))
  }

  lemma NodeFits(idx: nat, lvl: nat, h: nat)
    requires lvl <= h && idx < Pow2(h - lvl)
    ensures Shl(idx + 1, lvl) <= Pow2(h)
  {
    ShlPow2(lvl, h);
    ShlMonotone(idx + 1, Pow2(h - lvl), lvl);
  }

  /** The reference definition of a Merkle root: split in the middle and hash the two roots. */
  ghost function TreeRoot(hash: NodeHash, leaves: seq<Digest>, h: nat): Digest
    requires |leaves| == Pow2(h)
  {
    if h == 0 then leaves[0]
    else
      var half := Pow2(h - 1);
      hash(TreeRoot(hash, leaves[..half], h - 1), TreeRoot(hash, leaves[half..], h - 1))
  }

  /** The left half of the leaves makes the left input of the root. */
  lemma RootOfHalves(hash: NodeHash, left: seq<Digest>, right: seq<Digest>, h: nat)
    requires |left| == |right| == Pow2(h)
    ensures |left + right| == Pow2(h + 1)
    ensures TreeRoot(hash, left + right, h + 1) == hash(TreeRoot(hash, left, h), TreeRoot(hash, right, h))
    ensures h == 0 ==> TreeRoot(hash, left + right, 1) == hash(left[0], right[0])
  {
    assert (left + right)[..Pow2(h)] == left && (left + right)[Pow2(h)..] == right;
  }

  /** The leaves below the node of level `lvl` at index `idx`. */
  ghost function Slice(leaves: seq<Digest>, lvl: nat, idx: nat): (s: seq<Digest>)
    requires Shl(idx + 1, lvl) <= |leaves|
    ensures |s| == Pow2(lvl) && Shl(idx, lvl) + Pow2(lvl) <= |leaves|
    ensures forall j :: 0 <= j < |s| ==> s[j] == leaves[Shl(idx, lvl) + j]
  {
    ShlNext(idx, lvl);
    leaves[Shl(idx, lvl)..Shl(idx + 1, lvl)]
  }

  /** A tree node is the root of the slice of leaves below it. */
  lemma {:induction false} NodeIsSliceRoot(hash: NodeHash, leaves: seq<Digest>, lvl: nat, idx: nat)
    requires Shl(idx + 1, lvl) <= |leaves|
    ensures NodeAt(hash, leaves, lvl, idx) == TreeRoot(hash, Slice(leaves, lvl, idx), lvl)
    decreases lvl
  {
    hide Slice;
    var slice := Slice(leaves, lvl, idx);
    if lvl > 0 {
      var half := Pow2(lvl - 1);
      ShlMonotone(2 * idx + 1, 2 * idx + 2, lvl - 1);
      NodeIsSliceRoot(hash, leaves, lvl - 1, 2 * idx);
      NodeIsSliceRoot(hash, leaves, lvl - 1, 2 * idx + 1);
      ShlNext(2 * idx, lvl - 1);
      assert slice[..half] == Slice(leaves, lvl - 1, 2 * idx);
      assert slice[half..] == Slice(leaves, lvl - 1, 2 * idx + 1);
    }
  }

  /** The node at the top of a perfect tree is its root. */
  lemma TopIsRoot(hash: NodeHash, leaves: seq<Digest>, h: nat)
    requires |leaves| == Pow2(h)
    ensures Shl(1, h) == |leaves|
    ensures NodeAt(hash, leaves, h, 0) == TreeRoot(hash, leaves, h)
  {
    NodeFits(0, h, h);
    NodeIsSliceRoot(hash, leaves, h, 0);
    ShlNext(0, h);
    ShlPow2(h, h);
    assert Slice(leaves, h, 0) == leaves;
  }

  ghost predicate LevelIs(hash: NodeHash, leaves: seq<Digest>, h: nat, k: nat, level: seq<Digest>)
    requires |leaves| == Pow2(h) && k <= h
  {
    && |level| == Pow2(h - k)
    && forall i :: 0 <= i < |level| ==> NodeIs(hash, leaves, k, i, level[i])
  }

  ghost predicate NodeIs(hash: NodeHash, leaves: seq<Digest>, lvl: nat, idx: nat, d: Digest) {
    Shl(idx + 1, lvl) <= |leaves| && NodeAt(hash, leaves, lvl, idx) == d
  }

  /** Level-by-level root computation with the number of node hashes. */
  method NaiveMerkleRoot(hash: NodeHash, leaves: seq<Digest>, ghost h: nat) returns (root: Digest, internal: nat)
    requires |leaves| == Pow2(h) && |leaves| >= 2
    ensures root == TreeRoot(hash, leaves, h)
    ensures internal == |leaves| - 1
  {
    var level := leaves;
    internal := 0;
    ghost var k := 0;
    forall i | 0 <= i < |leaves|
      ensures NodeIs(hash, leaves, 0, i, leaves[i])
    {
      NodeFits(i, 0, h);
    }
    while |level| > 1
      invariant k <= h && LevelIs(hash, leaves, h, k, level)
      invariant internal == |leaves| - |level|
      decreases |level|
    {
      assert h - k > 0;
      var next: seq<Digest> := [];
      var before := internal;
      for i := 0 to |level| / 2
        invariant |next| == i && internal == before + i
        invariant forall j :: 0 <= j < i ==> NodeIs(hash, leaves, k + 1, j, next[j])
      {
        assert NodeIs(hash, leaves, k, 2 * i, level[2 * i]) && NodeIs(hash, leaves, k, 2 * i + 1, level[2 * i + 1]);
        NodeFits(i, k + 1, h);
        internal := internal + 1;
        next := next + [hash(level[2 * i], level[2 * i + 1])];
      }
      level := next;
      k := k + 1;
    }
    PowerGrows(h - k);
    root := level[0];
    assert NodeIs(hash, leaves, h, 0, root);
    TopIsRoot(hash, leaves, h);
  }

  lemma PowerOfNone()
    ensures Pow2(0) == 1
  {
  }

  lemma PowerGrows(n: nat)
    ensures n > 0 ==> Pow2(n) >= 2
  {
    if n > 0 { assert Pow2(n) == 2 * Pow2(n - 1); }
  }

  // ---------------------------------------------------------------------------------------
  // Proof bytes
  // ---------------------------------------------------------------------------------------

  /** u32::to_le_bytes */
  function ToLeBytes(x: u32): (b: Bytes)
    ensures |b| == 4
  {
    [x % 256, x / 256 % 256, x / 256 / 256 % 256, x / 256 / 256 / 256]
  }

  function Horner(b0: nat, b1: nat, b2: nat, b3: nat): nat {
    b0 + 256 * (b1 + 256 * (b2 + 256 * b3))
  }

  /** u32::from_le_bytes */
  function FromLeBytes(b: Bytes): u32
    requires |b| == 4
  {
    Horner(b[0], b[1], b[2], b[3])
  }

  lemma DigitSplit(d: nat, rest: nat)
    requires d < 256
    ensures (d + 256 * rest) % 256 == d && (d + 256 * rest) / 256 == rest
  {
  }

  /** The least significant byte comes first. */
  lemma LittleEndian(b: Bytes)
    requires |b| == 4
    ensures var d: seq<nat> := b; FromLeBytes(b) == d[0] + 0x100 * d[1] + 0x1_0000 * d[2] + 0x100_0000 * d[3]
  {
  }

  lemma BytesOf(x: u32)
    ensures var b := ToLeBytes(x);
            && b[0] == x % 0x100 && b[1] == x / 0x100 % 0x100
            && b[2] == x / 0x1_0000 % 0x100 && b[3] == x / 0x100_0000 % 0x100
  {
    assert x / 0x100 / 0x100 == x / 0x1_0000;
    assert x / 0x1_0000 / 0x100 == x / 0x100_0000 < 0x100;
  }

  lemma LeBytesRoundTrip(x: u32)
    ensures FromLeBytes(ToLeBytes(x)) == x
  {
    var y, z := x / 256, x / 256 / 256;
    assert x == x % 256 + 256 * y && y == y % 256 + 256 * z && z == z % 256 + 256 * (z / 256);
  }

  lemma LeValueRoundTrip(b: Bytes)
    requires |b| == 4
    ensures ToLeBytes(FromLeBytes(b)) == b
  {
    DigitSplit(b[0], Horner(b[1], b[2], b[3], 0));
    DigitSplit(b[1], Horner(b[2], b[3], 0, 0));
    DigitSplit(b[2], b[3]);
  }

  const HEADER := 38

  /** Where the entry of level l starts: one side byte, then 32 bytes of sibling. */
  function Entry(l: nat): nat {
    HEADER + 33 * l
  }

  ghost predicate HasHeader(proof: Bytes) {
    |proof| >= HEADER && proof[0] == 1
  }

  ghost function Height(proof: Bytes): byte
    requires HasHeader(proof)
  {
    proof[1]
  }

  ghost function Index(proof: Bytes): u32
    requires HasHeader(proof)
  {
    FromLeBytes(proof[2..6])
  }

  /** The index, least significant byte first. */
  lemma IndexBytes(proof: Bytes)
    requires HasHeader(proof)
    ensures var b: seq<nat> := proof; Index(proof) == b[2] + 0x100 * b[3] + 0x1_0000 * b[4] + 0x100_0000 * b[5]
  {
    LittleEndian(proof[2..6]);
  }

  ghost function Leaf(proof: Bytes): Digest
    requires HasHeader(proof)
  {
    proof[6..38]
  }

  ghost function Side(proof: Bytes, l: nat): byte
    requires |proof| >= Entry(l + 1)
  {
    proof[Entry(l)]
  }

  ghost function Sibling(proof: Bytes, l: nat): Digest
    requires |proof| >= Entry(l + 1)
  {
    proof[Entry(l) + 1..Entry(l + 1)]
  }

  /** How many level entries are there in full, up to the announced height. */
  ghost function FullLevels(proof: Bytes): (n: nat)
    requires HasHeader(proof)
    ensures n <= Height(proof) && Entry(n) <= |proof|
    ensures n < Height(proof) ==> |proof| < Entry(n + 1)
  {
    var complete := (|proof| - HEADER) / 33;
    if complete < Height(proof) then complete else Height(proof)
  }

  ghost predicate SidesMatch(proof: Bytes, n: nat)
    requires HasHeader(proof) && |proof| >= Entry(n)
  {
    forall l :: 0 <= l < n ==> Side(proof, l) == Bit(Index(proof), l)
  }

  /** The two inputs hashed at one level, left before right. */
  ghost function Inputs(side: nat, cur: Digest, sibling: Digest): (Digest, Digest) {
    if side == 0 then (cur, sibling) else (sibling, cur)
  }

  /** The digest the proof claims for the ancestor n levels above its leaf. */
  ghost function Climb(hash: NodeHash, proof: Bytes, n: nat): Digest
    requires HasHeader(proof) && |proof| >= Entry(n)
    decreases n, 0
  {
    if n == 0 then Leaf(proof)
    else
      var (left, right) := ProofInputs(hash, proof, n - 1);
      hash(left, right)
  }

  ghost function ProofInputs(hash: NodeHash, proof: Bytes, l: nat): (Digest, Digest)
    requires HasHeader(proof) && |proof| >= Entry(l + 1)
    decreases l, 1
  {
    Inputs(Side(proof, l), Climb(hash, proof, l), Sibling(proof, l))
  }

  /** Complete, with the index bits as side bits. */
  ghost predicate WellFormed(proof: Bytes) {
    HasHeader(proof) && FullLevels(proof) == Height(proof) && SidesMatch(proof, Height(proof))
  }

  ghost predicate Accepts(hash: NodeHash, root: Bytes, proof: Bytes) {
    |root| == 32 && WellFormed(proof) && Climb(hash, proof, Height(proof)) == root
  }

  /** The climb in terms of the bytes: from the leaf upwards, with the sibling to the right of
    * the current digest where the side byte is 0 and to its left elsewhere. */
  lemma ClimbBytes(hash: NodeHash, proof: Bytes, n: nat)
    requires HasHeader(proof) && |proof| >= 38 + 33 * (n + 1)
    ensures Climb(hash, proof, 0) == proof[6..38]
    ensures var cur, sibling := Climb(hash, proof, n), proof[39 + 33 * n..71 + 33 * n];
            Climb(hash, proof, n + 1) == if proof[38 + 33 * n] == 0 then hash(cur, sibling) else hash(sibling, cur)
  {
  }

  /** Well-formedness in terms of the bytes: version 1, as many levels as the height byte says,
    * and the bits of the index as side bytes. */
  lemma WellFormedBytes(proof: Bytes)
    ensures var b: seq<nat> := proof;
            WellFormed(proof) <==>
              && |b| >= 38 && b[0] == 1 && |b| >= 38 + 33 * b[1]
              && var idx := b[2] + 0x100 * b[3] + 0x1_0000 * b[4] + 0x100_0000 * b[5];
                 forall l: nat :: l < b[1] ==> b[38 + 33 * l] == Bit(idx, l)
  {
    hide Bit;
    if HasHeader(proof) {
      IndexBytes(proof);
      hide Index;
      if WellFormed(proof) {
        forall l: nat | l < proof[1]
          ensures proof[38 + 33 * l] == Bit(Index(proof), l)
        {
          assert Side(proof, l) == Bit(Index(proof), l);
        }
      }
    }
  }

  /** The bytes of a proof after its first n levels. */
  function ProofBytes(index: u32, height: byte, leaf: Digest, siblings: seq<Digest>, n: nat): Bytes
    requires n <= |siblings|
  {
    if n == 0 then [1, height] + ToLeBytes(index) + leaf
    else ProofBytes(index, height, leaf, siblings, n - 1) + [Bit(index, n - 1)] + siblings[n - 1]
  }

  lemma HeaderReadsBack(proof: Bytes, index: u32, height: byte, leaf: Digest)
    requires proof == [1, height] + ToLeBytes(index) + leaf
    ensures |proof| == Entry(0) && HasHeader(proof) && FullLevels(proof) == 0
    ensures Height(proof) == height && Index(proof) == index && Leaf(proof) == leaf
  {
    hide ToLeBytes, FromLeBytes;
    LeBytesRoundTrip(index);
    assert proof[2..6] == ToLeBytes(index) && proof[6..38] == leaf;
  }

  /** A proof can be read back field by field, and every side byte is the index bit. */
  lemma {:induction false} ProofReadsBack(index: u32, height: byte, leaf: Digest, siblings: seq<Digest>, n: nat)
    requires n <= |siblings| && n <= height
    ensures var proof := ProofBytes(index, height, leaf, siblings, n);
            && |proof| == Entry(n) && HasHeader(proof) && FullLevels(proof) == n
            && Height(proof) == height && Index(proof) == index && Leaf(proof) == leaf
            && SidesMatch(proof, n) && forall l :: 0 <= l < n ==> Sibling(proof, l) == siblings[l]
  {
    hide Index, Leaf, Sibling, Side, Bit;
    var proof := ProofBytes(index, height, leaf, siblings, n);
    if n == 0 {
      HeaderReadsBack(proof, index, height, leaf);
    } else {
      ProofReadsBack(index, height, leaf, siblings, n - 1);
      EntryAppended(ProofBytes(index, height, leaf, siblings, n - 1), proof, n - 1, Bit(index, n - 1), siblings[n - 1]);
    }
  }

  /** The layout, byte by byte. */
  lemma {:induction false} ProofLayout(index: u32, height: byte, leaf: Digest, siblings: seq<Digest>, n: nat)
    requires n <= |siblings|
    ensures var proof := ProofBytes(index, height, leaf, siblings, n);
            && |proof| == 38 + 33 * n && proof[0] == 1 && proof[1] == height && proof[6..38] == leaf
            && proof[2] == index % 0x100 && proof[3] == index / 0x100 % 0x100
            && proof[4] == index / 0x1_0000 % 0x100 && proof[5] == index / 0x100_0000 % 0x100
            && forall l :: 0 <= l < n ==>
                 proof[38 + 33 * l] == Bit(index, l) && proof[39 + 33 * l..71 + 33 * l] == siblings[l]
  {
    hide Bit;
    if n == 0 {
      BytesOf(index);
      assert ([1, height] + ToLeBytes(index) + leaf)[6..38] == leaf;
    } else {
      ProofLayout(index, height, leaf, siblings, n - 1);
      var before := ProofBytes(index, height, leaf, siblings, n - 1);
      var proof := ProofBytes(index, height, leaf, siblings, n);
      assert proof[6..38] == before[6..38];
      forall l | 0 <= l < n
        ensures proof[38 + 33 * l] == Bit(index, l) && proof[39 + 33 * l..71 + 33 * l] == siblings[l]
      {
        if l < n - 1 { assert proof[39 + 33 * l..71 + 33 * l] == before[39 + 33 * l..71 + 33 * l]; }
      }
    }
  }

  method EncodeMerkleProofV1(index: u32, height: byte, leaf: Digest, siblings: seq<Digest>) returns (proof: Bytes)
    requires |siblings| == height
    ensures proof == ProofBytes(index, height, leaf, siblings, height)
    ensures |proof| == 38 + 33 * height && proof[0] == 1 && proof[1] == height && proof[6..38] == leaf
    ensures proof[2] == index % 0x100 && proof[3] == index / 0x100 % 0x100
    ensures proof[4] == index / 0x1_0000 % 0x100 && proof[5] == index / 0x100_0000 % 0x100
    ensures forall l :: 0 <= l < height ==>
              proof[38 + 33 * l] == Bit(index, l) && proof[39 + 33 * l..71 + 33 * l] == siblings[l]
  {
    ProofLayout(index, height, leaf, siblings, height);
    hide Bit;
    proof := [1];
    proof := proof + [height];
    proof := proof + ToLeBytes(index);
    proof := proof + leaf;
    assert proof == ProofBytes(index, height, leaf, siblings, 0);
    for lvl := 0 to |siblings|
      invariant proof == ProofBytes(index, height, leaf, siblings, lvl)
    {
      proof := proof + [Bit(index, lvl)];
      proof := proof + siblings[lvl];
    }
  }

  /** Appending an entry keeps everything before it. */
  lemma EntryAppended(before: Bytes, proof: Bytes, lvl: nat, side: byte, sibling: Digest)
    requires |before| == Entry(lvl) && HasHeader(before) && proof == before + [side] + sibling
    ensures |proof| == Entry(lvl + 1) && HasHeader(proof)
    ensures Height(proof) == Height(before) && Index(proof) == Index(before) && Leaf(proof) == Leaf(before)
    ensures forall l :: 0 <= l < lvl ==> Side(proof, l) == Side(before, l) && Sibling(proof, l) == Sibling(before, l)
    ensures Side(proof, lvl) == side && Sibling(proof, lvl) == sibling
  {
    assert proof[2..6] == before[2..6] && proof[6..38] == before[6..38];
    forall l | 0 <= l < lvl
      ensures Side(proof, l) == Side(before, l) && Sibling(proof, l) == Sibling(before, l)
    {
      assert proof[Entry(l) + 1..Entry(l + 1)] == before[Entry(l) + 1..Entry(l + 1)];
    }
    assert proof[Entry(lvl) + 1..Entry(lvl + 1)] == sibling;
  }

  /** Level l is complete and its side byte is not that bit of the index, in terms of the bytes. */
  ghost predicate WrongSide(proof: Bytes, l: nat)
    requires |proof| >= 38
  {
    var b: seq<nat> := proof;
    var idx := b[2] + 0x100 * b[3] + 0x1_0000 * b[4] + 0x100_0000 * b[5];
    l < b[1] && |b| >= 38 + 33 * (l + 1) && b[38 + 33 * l] != Bit(idx, l)
  }

  lemma WrongSides(proof: Bytes)
    requires HasHeader(proof)
    ensures !SidesMatch(proof, FullLevels(proof)) <==> exists l: nat :: WrongSide(proof, l)
  {
    hide Bit;
    IndexBytes(proof);
    hide Index;
    forall l: nat
      ensures WrongSide(proof, l) <==> l < FullLevels(proof) && Side(proof, l) != Bit(Index(proof), l)
    {
    }
  }

  method VerifyMerkleProof(hash: NodeHash, root: Bytes, proof: Bytes) returns (r: Result<bool, string>)
    ensures r == Success(true) <==> Accepts(hash, root, proof)
    ensures |root| != 32 ==> r == Failure("root must be 32 bytes")
    ensures |root| == 32 && |proof| < HEADER ==> r == Failure("proof too short")
    ensures |root| == 32 && |proof| >= HEADER && proof[0] != 1 ==> r == Failure("unsupported proof version")
    ensures |root| == 32 && HasHeader(proof) ==>
              r == if !SidesMatch(proof, FullLevels(proof)) then Failure("side bit does not match index bit")
                   else if FullLevels(proof) < Height(proof) then Failure("proof truncated")
                   else Success(Climb(hash, proof, Height(proof)) == root)
    ensures |root| == 32 && |proof| >= 38 && proof[0] == 1 ==>
              (r == Failure("side bit does not match index bit") <==> exists l: nat :: WrongSide(proof, l))
  {
    if HasHeader(proof) { WrongSides(proof); }
    hide WrongSide;
    if |root| != 32 {
      return Failure("root must be 32 bytes");
    }
    if |proof| < 1 + 1 + 4 + 32 {
      return Failure("proof too short");
    }
    if proof[0] != 1 {
      return Failure("unsupported proof version");
    }
    var height := proof[1];
    var idx := FromLeBytes([proof[2], proof[3], proof[4], proof[5]]);
    assert proof[2..6] == [proof[2], proof[3], proof[4], proof[5]];
    var offset := 6;
    var cur: Digest := proof[offset..offset + 32];
    offset := offset + 32;
    for lvl := 0 to height
      invariant offset == Entry(lvl) && lvl <= FullLevels(proof) && SidesMatch(proof, lvl)
      invariant cur == Climb(hash, proof, lvl)
    {
      if offset + 1 + 32 > |proof| {
        return Failure("proof truncated");
      }
      var side := proof[offset];
      offset := offset + 1;
      var sibling: Digest := proof[offset..offset + 32];
      offset := offset + 32;
      assert side == Side(proof, lvl) && sibling == Sibling(proof, lvl);
      if side != Bit(idx, lvl) {
        return Failure("side bit does not match index bit");
      }
      cur := if side == 0 then hash(cur, sibling) else hash(sibling, cur);
    }
    r := Success(cur == root);
  }

  // ---------------------------------------------------------------------------------------
  // Paths and levels
  // ---------------------------------------------------------------------------------------

  /** The ancestor at level l of the leaf at pos, and the sibling that `pos >> l ^ 1` names. */
  lemma PathFits(pos: nat, l: nat, h: nat)
    requires pos < Pow2(h) && l <= h
    ensures Shr(pos, l) < Pow2(h - l) && Shl(Shr(pos, l) + 1, l) <= Pow2(h)
    ensures l < h ==> FlipLowBit(Shr(pos, l)) < Pow2(h - l) && Shl(FlipLowBit(Shr(pos, l)) + 1, l) <= Pow2(h)
  {
    ShrBelow(pos, l, h);
    NodeFits(Shr(pos, l), l, h);
    if l < h {
      assert Pow2(h - l) == 2 * Pow2(h - l - 1);
      NodeFits(FlipLowBit(Shr(pos, l)), l, h);
    }
  }

  ghost function PathNode(hash: NodeHash, leaves: seq<Digest>, h: nat, pos: nat, l: nat): Digest
    requires |leaves| == Pow2(h) && pos < Pow2(h) && l <= h
  {
    PathFits(pos, l, h);
    NodeAt(hash, leaves, l, Shr(pos, l))
  }

  ghost function PathSibling(hash: NodeHash, leaves: seq<Digest>, h: nat, pos: nat, l: nat): Digest
    requires |leaves| == Pow2(h) && pos < Pow2(h) && l < h
  {
    PathFits(pos, l, h);
    NodeAt(hash, leaves, l, FlipLowBit(Shr(pos, l)))
  }

  ghost function TreeInputs(hash: NodeHash, leaves: seq<Digest>, h: nat, pos: nat, l: nat): (Digest, Digest)
    requires |leaves| == Pow2(h) && pos < Pow2(h) && l < h
  {
    Inputs(Shr(pos, l) % 2, PathNode(hash, leaves, h, pos, l), PathSibling(hash, leaves, h, pos, l))
  }

  /** An ancestor is the hash of the ancestor below it and that one's sibling, on the sides
    * the position bit says. */
  lemma PathStep(hash: NodeHash, leaves: seq<Digest>, h: nat, pos: nat, l: nat)
    requires |leaves| == Pow2(h) && pos < Pow2(h) && l < h
    ensures var (left, right) := TreeInputs(hash, leaves, h, pos, l);
            PathNode(hash, leaves, h, pos, l + 1) == hash(left, right)
  {
    PathFits(pos, l, h);
    PathFits(pos, l + 1, h);
    var i := Shr(pos, l + 1);
    ShlMonotone(2 * i + 1, 2 * i + 2, l);
    assert Shr(pos, l) == 2 * i + Shr(pos, l) % 2;
  }

  lemma LeafOnPath(hash: NodeHash, leaves: seq<Digest>, h: nat, pos: nat)
    requires |leaves| == Pow2(h) && pos < Pow2(h)
    ensures PathNode(hash, leaves, h, pos, 0) == leaves[pos]
  {
  }

  lemma TopOnPath(hash: NodeHash, leaves: seq<Digest>, h: nat, pos: nat)
    requires |leaves| == Pow2(h) && pos < Pow2(h)
    ensures PathNode(hash, leaves, h, pos, h) == TreeRoot(hash, leaves, h)
  {
    ShrBelow(pos, h, h);
    TopIsRoot(hash, leaves, h);
  }

  /** The nodes of one level of a tree. */
  ghost function LevelNodes(hash: NodeHash, leaves: seq<Digest>, h: nat, n: nat): (nodes: seq<Digest>)
    requires |leaves| == Pow2(h) && n <= h
    ensures |nodes| == Pow2(h - n)
    ensures forall i :: 0 <= i < |nodes| ==> nodes[i] == NodeOf(hash, leaves, h, n, i)
  {
    seq(Pow2(h - n), i requires 0 <= i < Pow2(h - n) => NodeOf(hash, leaves, h, n, i))
  }

  ghost function NodeOf(hash: NodeHash, leaves: seq<Digest>, h: nat, n: nat, i: nat): Digest
    requires |leaves| == Pow2(h) && n <= h && i < Pow2(h - n)
  {
    NodeFits(i, n, h);
    NodeAt(hash, leaves, n, i)
  }

  /** The tree over a level is the part of the tree above that level. */
  lemma {:induction false} TreeOverLevel(hash: NodeHash, leaves: seq<Digest>, h: nat, n: nat, l: nat, i: nat)
    requires |leaves| == Pow2(h) && n + l <= h && i < Pow2(h - n - l)
    ensures NodeOf(hash, LevelNodes(hash, leaves, h, n), h - n, l, i) == NodeOf(hash, leaves, h, n + l, i)
    decreases l
  {
    if l > 0 {
      assert Pow2(h - n - l + 1) == 2 * Pow2(h - n - l);
      TreeOverLevel(hash, leaves, h, n, l - 1, 2 * i);
      TreeOverLevel(hash, leaves, h, n, l - 1, 2 * i + 1);
    }
  }

  lemma LevelHasSameRoot(hash: NodeHash, leaves: seq<Digest>, h: nat, n: nat)
    requires |leaves| == Pow2(h) && n <= h
    ensures TreeRoot(hash, LevelNodes(hash, leaves, h, n), h - n) == TreeRoot(hash, leaves, h)
  {
    hide LevelNodes, TreeRoot, NodeAt;
    TopIsRoot(hash, leaves, h);
    TopIsRoot(hash, LevelNodes(hash, leaves, h, n), h - n);
    TreeOverLevel(hash, leaves, h, n, h - n, 0);
  }

  lemma LevelZero(hash: NodeHash, leaves: seq<Digest>, h: nat, i: nat)
    requires |leaves| == Pow2(h) && i < Pow2(h)
    ensures NodeOf(hash, leaves, h, 0, i) == leaves[i]
  {
  }
}
