/** Inclusion proofs: the folding loop accepts a receipt at an index of the tree exactly
    when the receipt is that leaf and the proof is its audit path. */
module MerkleInclusion {
  import opened Common
  import opened Merkle
  import opened MerkleCounters

  /** Rebuilds the digest reached by walking `turns` down to `node` past `proof`. */
  function Climb(node: Digest, turns: seq<bool>, proof: seq<Digest>): Digest
    requires |turns| == |proof|
  {
    if turns == [] then node
    else
      var last := |proof| - 1;
      Join(Climb(node, turns[1..], proof[..last]), proof[last], turns[0])
  }

  lemma {:induction false} ClimbBottom(node: Digest, turns: seq<bool>, proof: seq<Digest>, side: bool, sib: Digest)
    requires |turns| == |proof|
    ensures Climb(node, turns + [side], [sib] + proof) == Climb(Join(node, sib, side), turns, proof)
  {
    var all, path := turns + [side], [sib] + proof;
    if turns == [] {
      assert path[..0] == [] && all[1..] == [];
    } else {
      var last := |proof| - 1;
      assert all[1..] == turns[1..] + [side];
      assert path[..last + 1] == [sib] + proof[..last];
      ClimbBottom(node, turns[1..], proof[..last], side, sib);
    }
  }

  lemma {:induction false} FoldIsClimb(fn: int, sn: int, node: Digest, proof: seq<Digest>)
    ensures |Sides(fn, sn, |proof|)| == |proof|
    ensures Fold(fn, sn, node, proof)
         == (Climb(node, Sides(fn, sn, |proof|), proof), Counters(fn, sn, |proof|).1)
    decreases |proof|
  {
    SidesLength(fn, sn, |proof|);
    if proof != [] {
      var (f, s) := Next(fn, sn);
      var side := SiblingOnLeft(fn, sn);
      FoldIsClimb(f, s, Join(node, proof[0], side), proof[1..]);
      ClimbBottom(node, Sides(f, s, |proof| - 1), proof[1..], side, proof[0]);
      assert proof == [proof[0]] + proof[1..];
    }
  }

  /** Hashing is injective, so climbing and walking undo each other. */
  lemma {:induction false} ClimbIffWalk(root: Digest, node: Digest, turns: seq<bool>, proof: seq<Digest>)
    requires |turns| == |proof|
    ensures Climb(node, turns, proof) == root <==> Walk(root, turns) == Some((node, proof))
  {
    if turns != [] {
      var last := |proof| - 1;
      assert proof == proof[..last] + [proof[last]];
      if root.NodeHash? {
        var child := if turns[0] then root.right else root.left;
        ClimbIffWalk(child, node, turns[1..], proof[..last]);
        var w := Walk(child, turns[1..]);
        if w.Some? && Walk(root, turns) == Some((node, proof)) {
          assert (w.value.1 + [if turns[0] then root.left else root.right])[..last] == w.value.1;
        }
      }
    }
  }

  lemma {:induction false} AcceptsIffWalk(receipt: Bytes, index: int, size: int, proof: seq<Digest>, root: Digest)
    ensures Accepts(receipt, index, size, proof, root)
       <==> && Walk(root, Sides(index, size - 1, |proof|)) == Some((LeafHash(receipt), proof))
            && SizeAfter(index, size - 1, |proof|) == 0
  {
    FoldIsClimb(index, size - 1, LeafHash(receipt), proof);
    ClimbIffWalk(root, LeafHash(receipt), Sides(index, size - 1, |proof|), proof);
  }

  function SizeAfter(fn: int, sn: int, steps: nat): int {
    Counters(fn, sn, steps).1
  }

  ghost predicate NotZeroBefore(fn: int, sn: int, len: nat) {
    forall steps: nat :: steps < len ==> SizeAfter(fn, sn, steps) != 0
  }

  /** From the index of a leaf and the last index, the fold walks that leaf's turns
      backwards and arrives at zero exactly at the root. */
  lemma {:induction false} CountersReachRoot(n: nat, m: nat)
    requires m < n
    ensures Sides(m, n - 1, |Turns(n, m)|) == Turns(n, m)
    ensures Counters(m, n - 1, |Turns(n, m)|) == (0, 0)
    ensures NotZeroBefore(m, n - 1, |Turns(n, m)|)
  {
    var turns := Turns(n, m);
    var j := BitLength(n);
    ShlZero(j);
    LastSubtree(n, m, 0, j, m, n - 1, turns);
    var (f, s) := Counters(m, n - 1, |turns|);
    StripIsZero(f);
    var last := n - 1;
    forall steps: nat | steps < |turns|
      ensures SizeAfter(m, last, steps) != 0
    {
      var (f', s') := Counters(m, last, steps);
      SidesSplit(m, last, steps, |turns| - 1 - steps);
      SizeStaysZero(f', |turns| - 1 - steps);
    }
  }

  /** The least `j` with `n <= Pow2(j)`: the ceiling of log2. */
  function BitLength(n: nat): (j: nat)
    ensures n <= Pow2(j)
  {
    if n <= 1 then 0 else SplitLog(n) + 1
  }

  lemma {:induction false} ShlZero(j: nat)
    ensures Shl(0, j) == 0
  {
    if j > 0 {
      ShlZero(j - 1);
    }
  }

  lemma {:induction false} StripIsZero(f: nat)
    requires Strip(f, f) == (0, 0)
    ensures f == 0
  {
    if f > 0 && f % 2 == 0 {
      StripIsZero(f / 2);
    }
  }

  // ---------------------------------------------------------------- main results

  /** Completeness and soundness together, for every tree and every index inside it:
      the receipt, and every digest of the proof, are forced. */
  lemma {:induction false} InclusionExact(leaves: seq<Bytes>, m: nat, receipt: Bytes, proof: seq<Digest>)
    requires m < |leaves|
    ensures Accepts(receipt, m, |leaves|, proof, Root(leaves))
       <==> receipt == leaves[m] && proof == AuditPath(leaves, m)
  {
    var n, root, turns := |leaves|, Root(leaves), Turns(|leaves|, m);
    AcceptsIffWalk(receipt, m, n, proof, root);
    CountersReachRoot(n, m);
    WalkRoot(leaves, m);
    PathLength(leaves, m);
    if |proof| > |turns| {
      var e := |proof| - |turns|;
      SidesSplit(m, n - 1, |turns|, e);
      AllRightsAtZero(e);
      Overshoot(leaves, m, e);
    }
  }

  /** An accepted proof is never longer than the ceiling of log2 of the tree size. */
  lemma {:induction false} PathLength(leaves: seq<Bytes>, m: nat)
    requires m < |leaves|
    ensures |AuditPath(leaves, m)| == |Turns(|leaves|, m)| <= BitLength(|leaves|)
  {
    var turns := Turns(|leaves|, m);
    WalkRoot(leaves, m);
    WalkDepth(leaves, turns, BitLength(|leaves|));
    ClimbLength(Root(leaves), turns);
  }

  lemma {:induction false} ClimbLength(d: Digest, turns: seq<bool>)
    ensures Walk(d, turns).Some? ==> |Walk(d, turns).value.1| == |turns|
  {
    if turns != [] && d.NodeHash? {
      ClimbLength(if turns[0] then d.right else d.left, turns[1..]);
    }
  }

  /** The server's own verifier, which also refuses an index past the end. */
  predicate VerifyInclusion(leaf: Bytes, leafIndex: int, treeSize: int, proof: seq<Digest>, root: Digest) {
    leafIndex < treeSize && Accepts(leaf, leafIndex, treeSize, proof, root)
  }

  /** Whatever index and tree size are claimed, acceptance against a tree's root still means
      the receipt is one of its leaves. */
  lemma {:induction false} AcceptedIsMember(
      leaves: seq<Bytes>, index: int, size: int, receipt: Bytes, proof: seq<Digest>)
    requires Accepts(receipt, index, size, proof, Root(leaves))
    ensures receipt in leaves
  {
    AcceptsIffWalk(receipt, index, size, proof, Root(leaves));
    WalkFindsLeaf(leaves, Sides(index, size - 1, |proof|));
  }
}
