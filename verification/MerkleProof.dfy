/**
 Inclusion proofs as the proof page draws them.

 The log builds its tree hash and its audit paths as sections 2.1 and 2.1.1 of RFC 6962 define
 them. The page receives only the path and decides on which side each sibling stands by looking at
 one bit of the entry's index. This module says for exactly which proofs that decision is right.

 Hashes are values of an arbitrary type; the interior-node hash is an arbitrary function of two of
 them, injective where a theorem says so.
 */
module MerkleProof {

  datatype Side = Left | Right

  /** One rung of the drawn path: the sibling's hash and side, and the side of the path itself. */
  datatype ProofStep<H> = ProofStep(level: nat, siblingHash: H, siblingSide: Side, pathSide: Side)

  // ----- powers of two and index bits -----

  function Pow2(k: nat): (p: nat)
    ensures p > 0
  {
    if k == 0 then 1 else 2 * Pow2(k - 1)
  }

  /** Number of levels of a tree with `n` leaves. */
  function CeilLog2(n: nat): nat {
    if n <= 1 then 0 else 1 + CeilLog2((n + 1) / 2)
  }

  /** Sign-propagating right shift: halving rounded down, `k` times. */
  function ShiftRight(x: int, k: nat): int
    decreases k
  {
    if k == 0 then x else ShiftRight(x / 2, k - 1)
  }

  function Bit(x: int, k: nat): nat {
    ShiftRight(x, k) % 2
  }

  /** JavaScript's `ToInt32`: the low 32 bits read as a signed number. */
  function ToInt32(x: nat): int {
    var low := x % 0x1_0000_0000;
    if low < 0x8000_0000 then low else low - 0x1_0000_0000
  }

  /** `(x >> level) & 1` as JavaScript evaluates it: 32-bit operand, shift count taken modulo 32. */
  function JsBit(x: nat, level: nat): nat {
    Bit(ToInt32(x), level % 32)
  }

  /** `Pow2(CeilLog2(n) - 1)` is the largest power of two smaller than `n`. */
  lemma {:induction false} CeilLog2Bounds(n: nat)
    requires n > 1
    ensures CeilLog2(n) > 0
    ensures Pow2(CeilLog2(n) - 1) < n <= Pow2(CeilLog2(n))
  {
    if n > 2 {
      CeilLog2Bounds((n + 1) / 2);
    }
  }

  lemma {:induction false} CeilLog2OfPow2(k: nat)
    ensures CeilLog2(Pow2(k)) == k
  {
    if k > 0 {
      CeilLog2OfPow2(k - 1);
    }
  }

  lemma {:induction false} CeilLog2Monotone(a: nat, b: nat)
    requires a <= b
    ensures CeilLog2(a) <= CeilLog2(b)
  {
    if a > 1 {
      CeilLog2Monotone((a + 1) / 2, (b + 1) / 2);
    }
  }

  lemma {:induction false} HighBitsAreZero(x: nat, k: nat)
    requires x < Pow2(k)
    ensures Bit(x, k) == 0
  {
    if k > 0 {
      HighBitsAreZero(x / 2, k - 1);
    }
  }

  /** Adding `2^k` to a number below it sets bit `k` and leaves the lower bits alone. */
  lemma {:induction false} AddPow2Bits(x: nat, k: nat, j: nat)
    requires x < Pow2(k) && j <= k
    ensures Bit(x + Pow2(k), j) == if j == k then 1 else Bit(x, j)
  {
    if k > 0 {
      assert (x + Pow2(k)) / 2 == x / 2 + Pow2(k - 1);
      if j > 0 {
        AddPow2Bits(x / 2, k - 1, j - 1);
      }
    }
  }

  /** Multiples of `2^j`, of either sign, do not reach the bits below `j`. */
  lemma {:induction false} LowBits(x: int, j: nat, k: nat, q: int)
    requires k < j
    ensures Bit(x - Pow2(j) * q, k) == Bit(x, k)
    decreases k
  {
    var half := Pow2(j - 1) * q;
    assert Pow2(j) * q == 2 * half;
    if k > 0 {
      assert (x - 2 * half) / 2 == x / 2 - half;
      LowBits(x / 2, j - 1, k - 1, q);
    }
  }

  /** For the levels a 32-bit shift can reach, JavaScript's bit test reads the true index bit. */
  lemma JsBitIsBit(x: nat, level: nat)
    requires level < 32
    ensures JsBit(x, level) == Bit(x, level)
  {
    Pow2Of32();
    var q := x / 0x1_0000_0000;
    if x % 0x1_0000_0000 < 0x8000_0000 {
      assert ToInt32(x) == x - Pow2(32) * q;
      LowBits(x, 32, level, q);
    } else {
      assert ToInt32(x) == x - Pow2(32) * (q + 1);
      LowBits(x, 32, level, q + 1);
    }
  }

  lemma Pow2Of32()
    ensures Pow2(32) == 0x1_0000_0000
  {
    assert Pow2(8) == 256;
    assert Pow2(16) == 256 * Pow2(8);
    assert Pow2(24) == 256 * Pow2(16);
  }

  // ----- tree hash and audit path, RFC 6962 -----

  /** The largest power of two smaller than `n`. */
  function SplitPoint(n: nat): (k: nat)
    requires n > 1
    ensures 0 < k < n
  {
    CeilLog2Bounds(n);
    Pow2(CeilLog2(n) - 1)
  }

  /** A hash tree over leaf hashes. */
  datatype Tree<H> = Leaf(hash: H) | Fork(left: Tree<H>, right: Tree<H>)

  function Size<H>(t: Tree<H>): (n: nat)
    ensures n > 0
  {
    if t.Leaf? then 1 else Size(t.left) + Size(t.right)
  }

  /** Section 2.1: the left subtree takes the largest power of two smaller than the number of leaves. */
  function BuildTree<H>(leaves: seq<H>): (t: Tree<H>)
    requires leaves != []
    ensures Size(t) == |leaves|
    decreases |leaves|
  {
    if |leaves| == 1 then Leaf(leaves[0])
    else Fork(BuildTree(leaves[..SplitPoint(|leaves|)]), BuildTree(leaves[SplitPoint(|leaves|)..]))
  }

  function RootHash<H>(node: (H, H) -> H, t: Tree<H>): H {
    if t.Leaf? then t.hash else node(RootHash(node, t.left), RootHash(node, t.right))
  }

  function LeafAt<H>(t: Tree<H>, m: nat): H
    requires m < Size(t)
    decreases t
  {
    if t.Leaf? then t.hash
    else if m < Size(t.left) then LeafAt(t.left, m)
    else LeafAt(t.right, m - Size(t.left))
  }

  /** Section 2.1.1: the audit path of leaf `m`, lowest sibling first. */
  function PathIn<H>(node: (H, H) -> H, m: nat, t: Tree<H>): seq<H>
    requires m < Size(t)
    decreases t
  {
    if t.Leaf? then []
    else if m < Size(t.left) then PathIn(node, m, t.left) + [RootHash(node, t.right)]
    else PathIn(node, m - Size(t.left), t.right) + [RootHash(node, t.left)]
  }

  /** On which side each sibling of that path really stands. */
  function SidesIn<H>(m: nat, t: Tree<H>): seq<Side>
    requires m < Size(t)
    decreases t
  {
    if t.Leaf? then []
    else if m < Size(t.left) then SidesIn(m, t.left) + [Right]
    else SidesIn(m - Size(t.left), t.right) + [Left]
  }

  function TreeHash<H>(node: (H, H) -> H, leaves: seq<H>): H
    requires leaves != []
  {
    RootHash(node, BuildTree(leaves))
  }

  function AuditPath<H>(node: (H, H) -> H, m: nat, leaves: seq<H>): seq<H>
    requires m < |leaves|
  {
    PathIn(node, m, BuildTree(leaves))
  }

  /** The same sides, from the index and the size of the log alone. */
  function TrueSides(m: nat, n: nat): seq<Side>
    requires m < n
    decreases n
  {
    if n == 1 then []
    else if m < SplitPoint(n) then TrueSides(m, SplitPoint(n)) + [Right]
    else TrueSides(m - SplitPoint(n), n - SplitPoint(n)) + [Left]
  }

  /** Hashing upwards from a leaf through `n` levels, each sibling placed on its side. */
  function FoldTo<H>(node: (H, H) -> H, leaf: H, path: seq<H>, sides: seq<Side>, n: nat): H
    requires n <= |path| == |sides|
  {
    if n == 0 then leaf
    else
      var below := FoldTo(node, leaf, path, sides, n - 1);
      if sides[n - 1] == Left then node(path[n - 1], below) else node(below, path[n - 1])
  }

  function Fold<H>(node: (H, H) -> H, leaf: H, path: seq<H>, sides: seq<Side>): H
    requires |path| == |sides|
  {
    FoldTo(node, leaf, path, sides, |path|)
  }

  // ----- what the page computes -----

  /** The steps the page draws for a proof. */
  function ProofSteps<H>(index: nat, proof: seq<H>): (steps: seq<ProofStep<H>>)
    ensures |steps| == |proof|
    ensures forall i :: 0 <= i < |proof| ==>
      steps[i].level == i && steps[i].siblingHash == proof[i] && steps[i].pathSide != steps[i].siblingSide
  {
    seq(|proof|, level requires 0 <= level < |proof| =>
      var pathIsRight := JsBit(index, level) == 1;
      ProofStep(level, proof[level],
                if pathIsRight then Left else Right,
                if pathIsRight then Right else Left))
  }

  function DrawnSides<H>(index: nat, proof: seq<H>): seq<Side> {
    var steps := ProofSteps(index, proof);
    seq(|proof|, level requires 0 <= level < |proof| => steps[level].siblingSide)
  }

  function BitSides(index: nat, len: nat): seq<Side> {
    seq(len, level requires 0 <= level < len => if Bit(index, level) == 1 then Left else Right)
  }

  // ----- theorems -----

  lemma {:induction false} FoldPrefix<H>(
    node: (H, H) -> H, leaf: H, path: seq<H>, sibling: H, sides: seq<Side>, side: Side, n: nat)
    requires n <= |path| == |sides|
    ensures FoldTo(node, leaf, path + [sibling], sides + [side], n) == FoldTo(node, leaf, path, sides, n)
  {
    if n > 0 {
      FoldPrefix(node, leaf, path, sibling, sides, side, n - 1);
    }
  }

  lemma FoldSnoc<H>(node: (H, H) -> H, leaf: H, path: seq<H>, sibling: H, sides: seq<Side>, side: Side)
    requires |path| == |sides|
    ensures var below := Fold(node, leaf, path, sides);
      Fold(node, leaf, path + [sibling], sides + [side])
      == if side == Left then node(sibling, below) else node(below, sibling)
  {
    FoldPrefix(node, leaf, path, sibling, sides, side, |path|);
  }

  lemma {:induction false} PathLength<H>(node: (H, H) -> H, m: nat, t: Tree<H>)
    requires m < Size(t)
    ensures |PathIn(node, m, t)| == |SidesIn(m, t)|
    decreases t
  {
    if t.Fork? {
      if m < Size(t.left) {
        PathLength(node, m, t.left);
      } else {
        PathLength(node, m - Size(t.left), t.right);
      }
    }
  }

  lemma {:induction false} PathInFolds<H>(node: (H, H) -> H, m: nat, t: Tree<H>)
    requires m < Size(t) && |PathIn(node, m, t)| == |SidesIn(m, t)|
    ensures Fold(node, LeafAt(t, m), PathIn(node, m, t), SidesIn(m, t)) == RootHash(node, t)
    decreases t
  {
    if t.Fork? {
      var leaf := LeafAt(t, m);
      if m < Size(t.left) {
        PathLength(node, m, t.left);
        PathInFolds(node, m, t.left);
        FoldSnoc(node, leaf, PathIn(node, m, t.left), RootHash(node, t.right), SidesIn(m, t.left), Right);
      } else {
        var m' := m - Size(t.left);
        PathLength(node, m', t.right);
        PathInFolds(node, m', t.right);
        FoldSnoc(node, leaf, PathIn(node, m', t.right), RootHash(node, t.left), SidesIn(m', t.right), Left);
      }
    }
  }

  lemma BuiltFork<H>(leaves: seq<H>, k: nat)
    requires |leaves| > 1 && k == SplitPoint(|leaves|)
    ensures var left, right := BuildTree(leaves[..k]), BuildTree(leaves[k..]);
      BuildTree(leaves) == Fork(left, right) && Size(left) == k && Size(right) == |leaves| - k
  {
  }

  /** The built tree holds the leaves in order. */
  lemma {:induction false} BuildTreeLeaves<H>(leaves: seq<H>, m: nat)
    requires m < |leaves|
    ensures LeafAt(BuildTree(leaves), m) == leaves[m]
    ensures SidesIn(m, BuildTree(leaves)) == TrueSides(m, |leaves|)
    decreases |leaves|
  {
    if |leaves| > 1 {
      var k := SplitPoint(|leaves|);
      var left, right := leaves[..k], leaves[k..];
      BuiltFork(leaves, k);
      if m < k {
        BuildTreeLeaves(left, m);
      } else {
        BuildTreeLeaves(right, m - k);
      }
    }
  }

  /** For a log of any size the audit path, folded with the true sides, gives the tree hash. */
  lemma AuditPathFolds<H>(node: (H, H) -> H, m: nat, leaves: seq<H>)
    requires m < |leaves|
    ensures |AuditPath(node, m, leaves)| == |TrueSides(m, |leaves|)|
    ensures Fold(node, leaves[m], AuditPath(node, m, leaves), TrueSides(m, |leaves|))
         == TreeHash(node, leaves)
  {
    var t := BuildTree(leaves);
    BuildTreeLeaves(leaves, m);
    PathLength(node, m, t);
    PathInFolds(node, m, t);
  }

  /** In a full binary tree every leaf has the same depth. */
  lemma {:induction false} PerfectDepth(m: nat, c: nat)
    requires m < Pow2(c)
    ensures |TrueSides(m, Pow2(c))| == c
  {
    if c > 0 {
      CeilLog2OfPow2(c);
      var k := Pow2(c - 1);
      PerfectDepth(if m < k then m else m - k, c - 1);
    }
  }

  /**
   The index bits give the true sides exactly when the leaf sits at the full depth of the tree.
   */
  lemma {:induction false} BitSidesExact(m: nat, n: nat)
    requires m < n
    ensures |TrueSides(m, n)| <= CeilLog2(n)
    ensures BitSides(m, |TrueSides(m, n)|) == TrueSides(m, n) <==> |TrueSides(m, n)| == CeilLog2(n)
    decreases n
  {
    if n > 1 {
      CeilLog2Bounds(n);
      var c := CeilLog2(n) - 1;
      var k := SplitPoint(n);
      if m < k {
        LeftHalfBits(m, n, c);
      } else {
        BitSidesExact(m - k, n - k);
        RightHalfBits(m, n, c);
      }
    }
  }

  lemma {:induction false} LeftHalfBits(m: nat, n: nat, c: nat)
    requires n > 1 && CeilLog2(n) == c + 1 && m < SplitPoint(n) == Pow2(c)
    ensures |TrueSides(m, n)| == c + 1
    ensures BitSides(m, c + 1) == TrueSides(m, n)
    decreases n, 0
  {
    PerfectDepth(m, c);
    HighBitsAreZero(m, c);
    CeilLog2OfPow2(c);
    PerfectBits(m, c);
    assert BitSides(m, c + 1) == BitSides(m, c) + [Right];
  }

  /** The sides in a full tree: those in its half, and one more at the top. */
  lemma PerfectSides(m: nat, c: nat, inner: nat)
    requires c > 0 && m < Pow2(c) && inner == if m < Pow2(c - 1) then m else m - Pow2(c - 1)
    ensures TrueSides(m, Pow2(c)) == TrueSides(inner, Pow2(c - 1)) + [if m < Pow2(c - 1) then Right else Left]
  {
    CeilLog2OfPow2(c);
    assert SplitPoint(Pow2(c)) == Pow2(c - 1);
  }

  /** The bits of an index: those of its lower part, and one more at the top. */
  lemma TopBitSide(m: nat, c: nat, inner: nat)
    requires c > 0 && m < Pow2(c) && inner == if m < Pow2(c - 1) then m else m - Pow2(c - 1)
    ensures BitSides(m, c) == BitSides(inner, c - 1) + [if m < Pow2(c - 1) then Right else Left]
  {
    forall level | 0 <= level < c
      ensures Bit(m, level) == if level < c - 1 then Bit(inner, level) else if m < Pow2(c - 1) then 0 else 1
    {
      if m >= Pow2(c - 1) {
        AddPow2Bits(inner, c - 1, level);
      } else {
        HighBitsAreZero(m, c - 1);
      }
    }
  }

  lemma {:induction false} PerfectBits(m: nat, c: nat)
    requires m < Pow2(c)
    ensures BitSides(m, c) == TrueSides(m, Pow2(c))
  {
    if c > 0 {
      var inner := if m < Pow2(c - 1) then m else m - Pow2(c - 1);
      PerfectBits(inner, c - 1);
      PerfectSides(m, c, inner);
      TopBitSide(m, c, inner);
    }
  }

  lemma {:induction false} RightHalfBits(m: nat, n: nat, c: nat)
    requires n > 1 && CeilLog2(n) == c + 1 && SplitPoint(n) == Pow2(c) <= m < n
    requires var m', n' := m - Pow2(c), n - Pow2(c);
      && |TrueSides(m', n')| <= CeilLog2(n')
      && (BitSides(m', |TrueSides(m', n')|) == TrueSides(m', n') <==> |TrueSides(m', n')| == CeilLog2(n'))
    ensures |TrueSides(m, n)| <= c + 1
    ensures BitSides(m, |TrueSides(m, n)|) == TrueSides(m, n) <==> |TrueSides(m, n)| == c + 1
  {
    CeilLog2Bounds(n);
    var m', n' := m - Pow2(c), n - Pow2(c);
    var inner := TrueSides(m', n');
    var len := |inner|;
    assert n' <= Pow2(c);
    CeilLog2Monotone(n', Pow2(c));
    CeilLog2OfPow2(c);
    assert m' < Pow2(c);
    forall level | 0 <= level < len
      ensures Bit(m, level) == Bit(m', level)
    {
      AddPow2Bits(m', c, level);
    }
    AddPow2Bits(m', c, len);
    assert BitSides(m, len) == BitSides(m', len);
    var top := if Bit(m, len) == 1 then Left else Right;
    assert BitSides(m, len + 1) == BitSides(m, len) + [top];
    assert TrueSides(m, n) == inner + [Left];
    if len < c && len == CeilLog2(n') {
      if n' > 1 {
        CeilLog2Bounds(n');
      }
      HighBitsAreZero(m', len);
      assert (inner + [Left])[len] != (BitSides(m, len) + [top])[len];
    } else if len < c {
      assert (inner + [Left])[..len] == inner;
      assert (BitSides(m, len) + [top])[..len] == BitSides(m, len);
    }
  }

  /** The sides the page draws are the index bits while the path has at most 32 levels. */
  lemma DrawnSidesAreBits<H>(index: nat, proof: seq<H>)
    requires |proof| <= 32
    ensures DrawnSides(index, proof) == BitSides(index, |proof|)
  {
    forall level | 0 <= level < |proof|
      ensures DrawnSides(index, proof)[level] == BitSides(index, |proof|)[level]
    {
      JsBitIsBit(index, level);
    }
  }

  /**
   For a log of any size: the page draws every sibling on its true side if and only if the proof has
   as many elements as the tree has levels, which the page could read off the response.
   */
  lemma DrawnSidesExact<H>(node: (H, H) -> H, m: nat, leaves: seq<H>)
    requires m < |leaves|
    requires |AuditPath(node, m, leaves)| <= 32
    ensures var proof := AuditPath(node, m, leaves);
      DrawnSides(m, proof) == TrueSides(m, |leaves|) <==> |proof| == CeilLog2(|leaves|)
  {
    AuditPathFolds(node, m, leaves);
    DrawnSidesAreBits(m, AuditPath(node, m, leaves));
    BitSidesExact(m, |leaves|);
  }

  /** On a log of power-of-two size the drawn path always leads from the leaf to the tree hash. */
  lemma PowerOfTwoProofsFold<H>(node: (H, H) -> H, m: nat, leaves: seq<H>, c: nat)
    requires |leaves| == Pow2(c) && c <= 32 && m < |leaves|
    ensures var proof := AuditPath(node, m, leaves);
      && |proof| == c
      && Fold(node, leaves[m], proof, DrawnSides(m, proof)) == TreeHash(node, leaves)
  {
    AuditPathFolds(node, m, leaves);
    PerfectDepth(m, c);
    CeilLog2OfPow2(c);
    DrawnSidesExact(node, m, leaves);
  }

  ghost predicate Injective<H(!new)>(node: (H, H) -> H) {
    forall a, b, a', b' :: node(a, b) == node(a', b') ==> a == a' && b == b'
  }

  /** With a collision-free node hash, equal folds over the same sides have the same ingredients. */
  lemma {:induction false} FoldInjective<H(!new)>(
    node: (H, H) -> H, leaf: H, path: seq<H>, leaf': H, path': seq<H>, sides: seq<Side>, n: nat)
    requires Injective(node)
    requires n <= |path| == |path'| == |sides|
    requires FoldTo(node, leaf, path, sides, n) == FoldTo(node, leaf', path', sides, n)
    ensures leaf == leaf' && path[..n] == path'[..n]
  {
    if n > 0 {
      FoldInjective(node, leaf, path, leaf', path', sides, n - 1);
      assert path[..n] == path[..n - 1] + [path[n - 1]];
      assert path'[..n] == path'[..n - 1] + [path'[n - 1]];
    }
  }

  /**
   On a log of power-of-two size, an offered leaf and proof of the right length reach the tree hash
   along the drawn sides if and only if they are the logged leaf and its audit path.
   */
  lemma OnlyTheLoggedLeafFolds<H(!new)>(
    node: (H, H) -> H, m: nat, leaves: seq<H>, c: nat, leaf: H, proof: seq<H>)
    requires Injective(node)
    requires |leaves| == Pow2(c) && c <= 32 && m < |leaves| && |proof| == c
    ensures Fold(node, leaf, proof, DrawnSides(m, proof)) == TreeHash(node, leaves)
       <==> leaf == leaves[m] && proof == AuditPath(node, m, leaves)
  {
    PowerOfTwoProofsFold(node, m, leaves, c);
    var path := AuditPath(node, m, leaves);
    DrawnSidesAreBits(m, proof);
    DrawnSidesAreBits(m, path);
    if Fold(node, leaf, proof, DrawnSides(m, proof)) == TreeHash(node, leaves) {
      FoldInjective(node, leaf, proof, leaves[m], path, DrawnSides(m, path), c);
      assert proof[..c] == proof && path[..c] == path;
    }
  }

  /** Logs of one, two and three entries: the left subtree is the larger one, and the left hash comes first. */
  lemma SmallTrees<H>(node: (H, H) -> H, a: H, b: H, c: H)
    ensures TreeHash(node, [a]) == a && TreeHash(node, [a, b]) == node(a, b)
    ensures TreeHash(node, [a, b, c]) == node(node(a, b), c)
  {
    var one, two, three := [a], [a, b], [a, b, c];
    assert CeilLog2(2) == 1 && CeilLog2(3) == 2 && Pow2(0) == 1 && Pow2(1) == 2;
    assert SplitPoint(2) == 1 && SplitPoint(3) == 2;
    assert two[..1] == one && two[1..] == [b];
    assert three[..2] == two && three[2..] == [c];
    assert BuildTree(one) == Leaf(a) && BuildTree([b]) == Leaf(b) && BuildTree([c]) == Leaf(c);
    var pair := Fork(Leaf(a), Leaf(b));
    assert BuildTree(two) == pair && BuildTree(three) == Fork(pair, Leaf(c));
    assert RootHash(node, Leaf(a)) == a && RootHash(node, Leaf(b)) == b && RootHash(node, Leaf(c)) == c;
    assert RootHash(node, pair) == node(a, b);
  }

  lemma ThreeEntrySides()
    ensures TrueSides(2, 3) == [Left]
  {
    assert CeilLog2(3) == 2 && Pow2(1) == 2;
    assert SplitPoint(3) == 2;
    assert TrueSides(2, 3) == [] + [Left];
  }

  /** The smallest failure: in a log of three entries the last leaf's only sibling is drawn right, but stands left. */
  lemma ThreeEntryCounterexample<H>(node: (H, H) -> H, a: H, b: H, c: H)
    ensures DrawnSides(2, AuditPath(node, 2, [a, b, c])) == [Right]
    ensures TrueSides(2, 3) == [Left]
  {
    ThreeEntrySides();
    AuditPathFolds(node, 2, [a, b, c]);
    JsBitIsBit(2, 0);
    assert Bit(2, 0) == 0;
  }

  lemma {:induction false} HighPowersVanish(k: nat)
    requires k >= 32
    ensures Pow2(k) % 0x1_0000_0000 == 0
  {
    if k == 32 {
      Pow2Of32();
    } else {
      HighPowersVanish(k - 1);
    }
  }

  /** From level 32 on the shift count wraps: at every such level some entry is drawn on the wrong side. */
  lemma ShiftCountWraps(level: nat)
    requires level >= 32
    ensures Bit(Pow2(level), level) == 1 && JsBit(Pow2(level), level) == 0
  {
    HighBitsAreZero(0, level);
    AddPow2Bits(0, level, level);
    HighPowersVanish(level);
    HighBitsAreZero(0, level % 32);
  }

  /** The page reads the bit of every index at exactly the levels below 32. */
  lemma LevelIsReadIff(level: nat)
    ensures (forall x: nat :: JsBit(x, level) == Bit(x, level)) <==> level < 32
  {
    if level < 32 {
      forall x: nat ensures JsBit(x, level) == Bit(x, level) {
        JsBitIsBit(x, level);
      }
    } else {
      ShiftCountWraps(level);
    }
  }
}
