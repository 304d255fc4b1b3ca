/** Consistency proofs: one checkpoint's tree is a prefix of another's. The verifier
    climbs two trees at once from the last complete block of the old one. */
module MerkleConsistency {
  import opened Common
  import opened Merkle
  import opened MerkleCounters
  import opened MerkleInclusion

  function Subproof(m: nat, leaves: seq<Bytes>, whole: bool): seq<Digest>
    requires 0 < m <= |leaves|
    decreases |leaves|
  {
    if m == |leaves| then (if whole then [] else [Root(leaves)])
    else
      var k := Split(|leaves|);
      if m <= k then Subproof(m, leaves[..k], whole) + [Root(leaves[k..])]
      else Subproof(m - k, leaves[k..], false) + [Root(leaves[..k])]
  }

  function ConsistencyProof(leaves: seq<Bytes>, m: nat): seq<Digest>
    requires 0 < m <= |leaves|
  {
    if m == |leaves| then [] else Subproof(m, leaves, true)
  }

  predicate IsPow2(m: nat) {
    m == 1 || (m > 0 && m % 2 == 0 && IsPow2(m / 2))
  }

  function StripOnes(fn: nat, sn: nat): (nat, nat) {
    if fn % 2 == 1 then StripOnes(fn / 2, sn / 2) else (fn, sn)
  }

  /** Both climbs, or None when the size counter ran out before the proof did. */
  function FoldBoth(fn: int, sn: int, fr: Digest, sr: Digest, proof: seq<Digest>)
    : Option<(Digest, Digest, int)>
    decreases |proof|
  {
    if proof == [] then Some((fr, sr, sn))
    else if sn == 0 then None
    else
      var (f, s) := Next(fn, sn);
      var side := SiblingOnLeft(fn, sn);
      FoldBoth(f, s, if side then NodeHash(proof[0], fr) else fr, Join(sr, proof[0], side), proof[1..])
  }

  predicate Consistent(oldSize: nat, newSize: nat, oldRoot: Digest, newRoot: Digest, proof: seq<Digest>) {
    if oldSize > newSize then false
    else if oldSize == newSize then proof == [] && oldRoot == newRoot
    else if oldSize == 0 then proof == []
    else
      var nodes := if IsPow2(oldSize) then [oldRoot] + proof else proof;
      nodes != [] &&
      var (fn, sn) := StripOnes(oldSize - 1, newSize - 1);
      FoldBoth(fn, sn, nodes[0], nodes[0], nodes[1..]) == Some((oldRoot, newRoot, 0))
  }

  method VerifyConsistency(
      oldSize: nat, newSize: nat, oldRoot: Digest, newRoot: Digest, proof: seq<Digest>)
    returns (ok: bool)
    ensures ok <==> Consistent(oldSize, newSize, oldRoot, newRoot, proof)
  {
    if oldSize > newSize {
      return false;
    }
    if oldSize == newSize {
      return proof == [] && oldRoot == newRoot;
    }
    if oldSize == 0 {
      return proof == [];
    }
    var nodes := proof;
    if IsPow2(oldSize) {
      nodes := [oldRoot] + nodes;
    }
    if nodes == [] {
      return false;
    }
    var fn, sn: int := oldSize - 1, newSize - 1;
    while fn % 2 == 1
      invariant fn >= 0 && sn >= 0
      invariant StripOnes(fn, sn) == StripOnes(oldSize - 1, newSize - 1)
      decreases fn
    {
      fn := fn / 2;
      sn := sn / 2;
    }
    var fr, sr := nodes[0], nodes[0];
    ghost var want := FoldBoth(fn, sn, fr, sr, nodes[1..]);
    for i := 1 to |nodes|
      invariant want == FoldBoth(fn, sn, fr, sr, nodes[i..])
    {
      var c := nodes[i];
      assert nodes[i..][1..] == nodes[i + 1..];
      if sn == 0 {
        return false;
      }
      ghost var fn0, sn0 := fn, sn;
      if fn % 2 == 1 || fn == sn {
        fr := NodeHash(c, fr);
        sr := NodeHash(c, sr);
        while fn != 0 && fn % 2 == 0
          invariant Strip(fn, sn) == Strip(fn0, sn0)
          decreases if fn < 0 then -fn else fn
        {
          fn := fn / 2;
          sn := sn / 2;
        }
      } else {
        sr := NodeHash(sr, c);
      }
      fn := fn / 2;
      sn := sn / 2;
      assert (fn, sn) == Next(fn0, sn0);
    }
    ok := fr == oldRoot && sr == newRoot && sn == 0;
  }

  // ---------------------------------------------------------------- the two climbs

  /** The old tree's half of the climb: only siblings on the left belong to it. */
  function OldClimb(node: Digest, turns: seq<bool>, proof: seq<Digest>): Digest
    requires |turns| == |proof|
  {
    if turns == [] then node
    else
      var last := |proof| - 1;
      var below := OldClimb(node, turns[1..], proof[..last]);
      if turns[0] then NodeHash(proof[last], below) else below
  }

  lemma {:induction false} OldClimbBottom(node: Digest, turns: seq<bool>, proof: seq<Digest>, side: bool, sib: Digest)
    requires |turns| == |proof|
    ensures OldClimb(node, turns + [side], [sib] + proof)
         == OldClimb(if side then NodeHash(sib, node) else node, turns, proof)
  {
    var all, path := turns + [side], [sib] + proof;
    if turns == [] {
      assert path[..0] == [] && all[1..] == [];
    } else {
      var last := |proof| - 1;
      assert all[1..] == turns[1..] + [side];
      assert path[..last + 1] == [sib] + proof[..last];
      OldClimbBottom(node, turns[1..], proof[..last], side, sib);
    }
  }

  lemma {:induction false} FoldBothIsClimbs(fn: int, sn: int, fr: Digest, sr: Digest, proof: seq<Digest>)
    requires NotZeroBefore(fn, sn, |proof|)
    ensures |Sides(fn, sn, |proof|)| == |proof|
    ensures FoldBoth(fn, sn, fr, sr, proof)
         == Some((OldClimb(fr, Sides(fn, sn, |proof|), proof),
                  Climb(sr, Sides(fn, sn, |proof|), proof),
                  SizeAfter(fn, sn, |proof|)))
    decreases |proof|
  {
    SidesLength(fn, sn, |proof|);
    if proof != [] {
      assert SizeAfter(fn, sn, 0) != 0;
      var (f, s) := Next(fn, sn);
      var side := SiblingOnLeft(fn, sn);
      NotZeroLater(fn, sn, |proof|);
      FoldBothIsClimbs(f, s, if side then NodeHash(proof[0], fr) else fr, Join(sr, proof[0], side), proof[1..]);
      var above := Sides(f, s, |proof| - 1);
      ClimbBottom(sr, above, proof[1..], side, proof[0]);
      OldClimbBottom(fr, above, proof[1..], side, proof[0]);
      assert proof == [proof[0]] + proof[1..];
    }
  }

  lemma {:induction false} NotZeroLater(fn: int, sn: int, len: nat)
    requires len > 0 && NotZeroBefore(fn, sn, len)
    ensures var (f, s) := Next(fn, sn); NotZeroBefore(f, s, len - 1)
  {
    var (f, s) := Next(fn, sn);
    forall steps: nat | steps < len - 1
      ensures SizeAfter(f, s, steps) != 0
    {
      assert SizeAfter(fn, sn, steps + 1) != 0;
    }
  }

  /** A proof longer than the climb is refused: the counter is zero mid-way. */
  lemma {:induction false} FoldBothStops(fn: int, sn: int, fr: Digest, sr: Digest, proof: seq<Digest>, at: nat)
    requires at < |proof| && SizeAfter(fn, sn, at) == 0
    ensures FoldBoth(fn, sn, fr, sr, proof) == None
    decreases at
  {
    if sn != 0 {
      var (f, s) := Next(fn, sn);
      var side := SiblingOnLeft(fn, sn);
      FoldBothStops(f, s, if side then NodeHash(proof[0], fr) else fr, Join(sr, proof[0], side), proof[1..], at - 1);
    }
  }

  // ---------------------------------------------------------------- the shared block

  /** The turns from the new root down to the last complete block of the old tree. */
  function BlockTurns(n: nat, m: nat): seq<bool>
    requires 0 < m <= n
  {
    if m == n then []
    else
      var k := Split(n);
      if m <= k then [false] + BlockTurns(k, m) else [true] + BlockTurns(n - k, m - k)
  }

  /** `m` leaves inside `n`: either strictly fewer, or all of a complete tree. */
  ghost predicate Inside(m: nat, n: nat, j: nat) {
    0 < m <= n <= Pow2(j) && (m == n ==> n == Pow2(j))
  }

  lemma {:induction false} BitTurnsOfOnes(j: nat)
    ensures BitTurns(j, Pow2(j) - 1) == Rights(j)
  {
    if j > 0 {
      BitTurnsOfOnes(j - 1);
      assert (Pow2(j) - 1) / 2 == Pow2(j - 1) - 1 && (Pow2(j) - 1) % 2 == 1;
      assert Rights(j) == Rights(j - 1) + [true];
    }
  }

  /** The trailing zero bits of `m`: its last complete block has `Pow2(BlockHeight(m))` leaves. */
  function BlockHeight(m: nat): nat
    requires m > 0
  {
    if m % 2 == 1 then 0 else 1 + BlockHeight(m / 2)
  }

  lemma {:induction false} BlockHeightPow2(j: nat)
    ensures BlockHeight(Pow2(j)) == j
  {
    if j > 0 {
      BlockHeightPow2(j - 1);
    }
  }

  lemma {:induction false} BlockHeightLowBits(r: nat, i: nat)
    requires 0 < r < Pow2(i)
    ensures BlockHeight(Pow2(i) + r) == BlockHeight(r)
    decreases i
  {
    if r % 2 == 0 {
      assert (Pow2(i) + r) / 2 == Pow2(i - 1) + r / 2;
      BlockHeightLowBits(r / 2, i - 1);
    }
  }

  lemma {:induction false} BlockHeightBelow(n: nat, m: nat, m': nat, i: nat, t: nat)
    requires 0 < m < n && i == SplitLog(n) && t == BlockHeight(m)
    requires m' == if m > Split(n) then m - Split(n) else m
    ensures t == BlockHeight(m')
  {
    if m > Split(n) {
      BlockHeightLowBits(m', i);
    }
  }

  lemma {:induction false} WholeShape(j: nat, n: nat)
    requires n == Pow2(j)
    ensures Turns(n, n - 1) == Rights(BlockHeight(n))
  {
    TurnsAreBits(j, n - 1);
    BitTurnsOfOnes(j);
    BlockHeightPow2(j);
  }

  /** Leaf `m - 1` lies at the far right of the block. */
  lemma {:induction false} BlockShape(n: nat, m: nat, j: nat, turns: seq<bool>, top: seq<bool>, t: nat)
    requires Inside(m, n, j)
    requires turns == Turns(n, m - 1) && top == BlockTurns(n, m) && t == BlockHeight(m)
    ensures turns == top + Rights(t)
    decreases n
  {
    if m == n {
      WholeShape(j, n);
    } else {
      var k, i := Split(n), SplitLog(n);
      var right := m > k;
      var n', m' := if right then n - k else k, if right then m - k else m;
      var turns', top' := Turns(n', m' - 1), BlockTurns(n', m');
      assert turns == [right] + turns';
      BlockTurnsStep(n, m, right, n', m');
      BlockHeightBelow(n, m, m', i, t);
      BlockShape(n', m', i, turns', top', t);
      assert [right] + (top' + Rights(t)) == [right] + top' + Rights(t);
    }
  }

  lemma {:induction false} OnesRounds(m: nat, sn: nat)
    requires m > 0
    ensures StripOnes(m - 1, sn) == Counters(m - 1, sn, BlockHeight(m))
    ensures Sides(m - 1, sn, BlockHeight(m)) == Rights(BlockHeight(m))
    decreases m
  {
    if m % 2 == 0 {
      OnesRounds(m / 2, sn / 2);
      assert Next(m - 1, sn) == (m / 2 - 1, sn / 2);
      assert Rights(BlockHeight(m)) == Rights(BlockHeight(m / 2)) + [true];
    } else {
      assert Sides(m - 1, sn, 0) == [];
    }
  }

  /** After the leading shift the counters walk exactly the block's turns to the root. */
  lemma {:induction false} BlockCounters(n: nat, m: nat, fn: int, sn: int)
    requires 0 < m < n && (fn, sn) == StripOnes(m - 1, n - 1)
    ensures Sides(fn, sn, |BlockTurns(n, m)|) == BlockTurns(n, m)
    ensures SizeAfter(fn, sn, |BlockTurns(n, m)|) == 0
    ensures NotZeroBefore(fn, sn, |BlockTurns(n, m)|)
  {
    var t := BlockHeight(m);
    BlockShape(n, m, BitLength(n), Turns(n, m - 1), BlockTurns(n, m), t);
    CountersReachRoot(n, m - 1);
    OnesRounds(m, n - 1);
    LaterRounds(m - 1, n - 1, t, fn, sn, BlockTurns(n, m), Turns(n, m - 1));
  }

  /** What holds of a whole climb holds of what is left of it after `t` rounds. */
  lemma {:induction false} LaterRounds(
      fn0: int, sn0: int, t: nat, fn: int, sn: int, turns: seq<bool>, all: seq<bool>)
    requires Counters(fn0, sn0, t) == (fn, sn) && Sides(fn0, sn0, t) == Rights(t)
    requires all == turns + Rights(t) && Sides(fn0, sn0, |all|) == all
    requires SizeAfter(fn0, sn0, |all|) == 0 && NotZeroBefore(fn0, sn0, |all|)
    ensures Sides(fn, sn, |turns|) == turns
    ensures SizeAfter(fn, sn, |turns|) == 0 && NotZeroBefore(fn, sn, |turns|)
  {
    SidesSplit(fn0, sn0, t, |turns|);
    SidesLength(fn, sn, |turns|);
    assert |all| == t + |turns|;
    assert turns == all[..|turns|] == Sides(fn, sn, |turns|);
    forall steps: nat | steps < |turns|
      ensures SizeAfter(fn, sn, steps) != 0
    {
      SidesSplit(fn0, sn0, t, steps);
      assert SizeAfter(fn0, sn0, t + steps) != 0;
    }
  }

  // ---------------------------------------------------------------- the proof, structurally

  lemma {:induction false} Pow2IsPow2(j: nat)
    ensures IsPow2(Pow2(j))
  {
    if j > 0 {
      Pow2IsPow2(j - 1);
    }
  }

  lemma {:induction false} Pow2Exponent(m: nat) returns (j: nat)
    requires IsPow2(m)
    ensures m == Pow2(j)
  {
    if m == 1 {
      j := 0;
    } else {
      j := Pow2Exponent(m / 2);
      j := j + 1;
    }
  }

  /** A power of two below `n` is at most its split, and nothing above the split is one. */
  lemma {:induction false} Pow2AgainstSplit(m: nat, n: nat)
    requires 0 < m < n
    ensures IsPow2(m) ==> m <= Split(n)
  {
    if IsPow2(m) && m > Split(n) {
      var j := Pow2Exponent(m);
      if j <= SplitLog(n) {
        Pow2Monotone(j, SplitLog(n));
      } else {
        Pow2Monotone(SplitLog(n), j);
      }
    }
  }

  lemma {:induction false} WalkUp(d: Digest, right: bool, below: seq<bool>, end: Digest, siblings: seq<Digest>)
    requires d.NodeHash? && Walk(if right then d.right else d.left, below) == Some((end, siblings))
    ensures Walk(d, [right] + below) == Some((end, siblings + [if right then d.left else d.right]))
  {
    assert ([right] + below)[1..] == below;
  }

  lemma {:induction false} WalkDown(d: Digest, right: bool, below: seq<bool>, end: Digest, siblings: seq<Digest>)
    requires d.NodeHash? && Walk(d, [right] + below) == Some((end, siblings))
    ensures siblings != [] && siblings[|siblings| - 1] == if right then d.left else d.right
    ensures Walk(if right then d.right else d.left, below) == Some((end, siblings[..|siblings| - 1]))
  {
    assert ([right] + below)[1..] == below;
    var w := Walk(if right then d.right else d.left, below);
    assert siblings[..|siblings| - 1] == w.value.1;
  }

  lemma {:induction false} OldClimbUp(node: Digest, right: bool, below: seq<bool>, siblings: seq<Digest>, sib: Digest)
    requires |below| == |siblings|
    ensures var lower := OldClimb(node, below, siblings);
            OldClimb(node, [right] + below, siblings + [sib]) == if right then NodeHash(sib, lower) else lower
  {
    assert ([right] + below)[1..] == below;
    assert (siblings + [sib])[..|siblings|] == siblings;
  }

  /** One turn from the new root towards the block. */
  lemma {:induction false} BlockTurnsStep(n: nat, m: nat, right: bool, n': nat, m': nat)
    requires 0 < m < n && right == (m > Split(n))
    requires n' == (if right then n - Split(n) else Split(n)) && m' == if right then m - Split(n) else m
    ensures BlockTurns(n, m) == [right] + BlockTurns(n', m')
  {
  }

  /** The old root inside the half that holds its border. */
  lemma {:induction false} OldRootStep(leaves: seq<Bytes>, m: nat, k: nat, right: bool)
    requires 0 < m < |leaves| && k == Split(|leaves|) && right == (m > k)
    ensures Root(leaves[..m])
         == if right then NodeHash(Root(leaves[..k]), Root(leaves[k..][..m - k])) else Root(leaves[..k][..m])
  {
    if right {
      SplitUnique(m, SplitLog(|leaves|));
      assert leaves[..m][..k] == leaves[..k] && leaves[..m][k..] == leaves[k..][..m - k];
    } else {
      assert leaves[..k][..m] == leaves[..m];
    }
  }

  /** Where the block hangs in the new tree, what hangs beside it, and how the same
      siblings rebuild the old root. */
  lemma {:induction false} BlockInTrees(leaves: seq<Bytes>, m: nat, j: nat) returns (block: Digest, siblings: seq<Digest>)
    requires Inside(m, |leaves|, j)
    ensures Walk(Root(leaves), BlockTurns(|leaves|, m)) == Some((block, siblings))
    ensures |siblings| == |BlockTurns(|leaves|, m)|
    ensures OldClimb(block, BlockTurns(|leaves|, m), siblings) == Root(leaves[..m])
    decreases |leaves|
  {
    if m == |leaves| {
      block, siblings := Root(leaves), [];
      assert leaves[..m] == leaves;
    } else {
      var k, i := Split(|leaves|), SplitLog(|leaves|);
      var right := m > k;
      var part, m' := if right then leaves[k..] else leaves[..k], if right then m - k else m;
      var sib := Root(if right then leaves[..k] else leaves[k..]);
      var below := BlockTurns(|part|, m');
      block, siblings := BlockInTrees(part, m', i);
      BlockTurnsStep(|leaves|, m, right, |part|, m');
      WalkUp(Root(leaves), right, below, block, siblings);
      OldClimbUp(block, right, below, siblings, sib);
      OldRootStep(leaves, m, k, right);
      siblings := siblings + [sib];
    }
  }

  /** The proof lists the block and its siblings; the block itself is left out exactly
      when it is the whole old tree. */
  lemma {:induction false} SubproofShape(
      leaves: seq<Bytes>, m: nat, j: nat, whole: bool, block: Digest, siblings: seq<Digest>)
    requires Inside(m, |leaves|, j)
    requires Walk(Root(leaves), BlockTurns(|leaves|, m)) == Some((block, siblings))
    ensures Subproof(m, leaves, whole) == if whole && IsPow2(m) then siblings else [block] + siblings
    decreases |leaves|
  {
    if m == |leaves| {
      Pow2IsPow2(j);
    } else {
      var k, i := Split(|leaves|), SplitLog(|leaves|);
      Pow2AgainstSplit(m, |leaves|);
      var right := m > k;
      var part, m' := if right then leaves[k..] else leaves[..k], if right then m - k else m;
      var last := |siblings| - 1;
      BlockTurnsStep(|leaves|, m, right, |part|, m');
      WalkDown(Root(leaves), right, BlockTurns(|part|, m'), block, siblings);
      SubproofShape(part, m', i, whole && !right, block, siblings[..last]);
      SubproofSplits(leaves, m, whole, part, m', right);
      assert siblings == siblings[..last] + [siblings[last]];
      ListedWithLast(whole && !right && IsPow2(m'), block, siblings[..last], siblings[last]);
    }
  }

  /** The last digest of a proof is the half the old tree's border does not cross. */
  lemma {:induction false} SubproofSplits(
      leaves: seq<Bytes>, m: nat, whole: bool, part: seq<Bytes>, m': nat, right: bool)
    requires 0 < m < |leaves| && right == (m > Split(|leaves|))
    requires part == if right then leaves[Split(|leaves|)..] else leaves[..Split(|leaves|)]
    requires m' == if right then m - Split(|leaves|) else m
    ensures Subproof(m, leaves, whole)
         == Subproof(m', part, whole && !right) + [if right then Root(leaves).left else Root(leaves).right]
  {
  }

  lemma {:induction false} ListedWithLast(bare: bool, block: Digest, siblings: seq<Digest>, last: Digest)
    ensures (if bare then siblings else [block] + siblings) + [last]
         == if bare then siblings + [last] else [block] + (siblings + [last])
  {
  }

  lemma {:induction false} WholeBlock(n: nat, m: nat, j: nat, block: Digest, siblings: seq<Digest>)
    requires Inside(m, n, j) && IsPow2(m) && |siblings| == |BlockTurns(n, m)|
    ensures OldClimb(block, BlockTurns(n, m), siblings) == block
    decreases n
  {
    if m < n {
      Pow2AgainstSplit(m, n);
      var k := Split(n);
      assert BlockTurns(n, m) == [false] + BlockTurns(k, m);
      assert BlockTurns(n, m)[1..] == BlockTurns(k, m);
      WholeBlock(k, m, SplitLog(n), block, siblings[..|siblings| - 1]);
    }
  }

  // ---------------------------------------------------------------- main results

  /** Between a checkpoint and a later, larger tree, the verifier accepts exactly one root
      and one proof: those of the first `m` leaves. */
  lemma {:induction false} ConsistencyExact(leaves: seq<Bytes>, m: nat, oldRoot: Digest, proof: seq<Digest>)
    requires m <= |leaves|
    ensures Consistent(m, |leaves|, oldRoot, Root(leaves), proof) <==>
              if m == 0 then proof == [] && (leaves == [] ==> oldRoot == Root(leaves))
              else oldRoot == Root(leaves[..m]) && proof == ConsistencyProof(leaves, m)
  {
    var n := |leaves|;
    if m == n {
      assert leaves[..m] == leaves;
    } else if m > 0 {
      var block, siblings := BlockInTrees(leaves, m, BitLength(n));
      SubproofShape(leaves, m, BitLength(n), true, block, siblings);
      if IsPow2(m) {
        WholeBlock(n, m, BitLength(n), block, siblings);
        BareProofExact(leaves, m, oldRoot, proof, block, siblings);
      } else {
        FullProofExact(leaves, m, oldRoot, proof, block, siblings);
      }
    }
  }

  ghost predicate Hangs(leaves: seq<Bytes>, m: nat, block: Digest, siblings: seq<Digest>)
    requires 0 < m < |leaves|
  {
    var turns := BlockTurns(|leaves|, m);
    && |siblings| == |turns|
    && Walk(Root(leaves), turns) == Some((block, siblings))
    && OldClimb(block, turns, siblings) == Root(leaves[..m])
  }

  /** When the block is the whole old tree, the old root stands for it. */
  lemma {:induction false} BareProofExact(
      leaves: seq<Bytes>, m: nat, oldRoot: Digest, proof: seq<Digest>, block: Digest, siblings: seq<Digest>)
    requires 0 < m < |leaves| && IsPow2(m) && Hangs(leaves, m, block, siblings) && block == Root(leaves[..m])
    ensures Consistent(m, |leaves|, oldRoot, Root(leaves), proof) <==> oldRoot == block && proof == siblings
  {
    var (fn, sn) := StripOnes(m - 1, |leaves| - 1);
    ClimbsExact(leaves, m, oldRoot, oldRoot, proof, block, siblings, fn, sn);
    assert ([oldRoot] + proof)[1..] == proof;
  }

  /** Otherwise the proof begins with the block. */
  lemma {:induction false} FullProofExact(
      leaves: seq<Bytes>, m: nat, oldRoot: Digest, proof: seq<Digest>, block: Digest, siblings: seq<Digest>)
    requires 0 < m < |leaves| && !IsPow2(m) && Hangs(leaves, m, block, siblings)
    ensures Consistent(m, |leaves|, oldRoot, Root(leaves), proof)
       <==> oldRoot == Root(leaves[..m]) && proof == [block] + siblings
  {
    if proof != [] {
      var (fn, sn) := StripOnes(m - 1, |leaves| - 1);
      ClimbsExact(leaves, m, oldRoot, proof[0], proof[1..], block, siblings, fn, sn);
      assert proof == [block] + siblings <==> proof[0] == block && proof[1..] == siblings;
    }
  }

  /** The two folds from counters that walk exactly `turns`, against a walk down the new root. */
  lemma {:induction false} ClimbsFrom(
      fn: int, sn: int, turns: seq<bool>, newRoot: Digest, oldRoot: Digest, first: Digest, rest: seq<Digest>,
      block: Digest, siblings: seq<Digest>)
    requires Sides(fn, sn, |turns|) == turns && SizeAfter(fn, sn, |turns|) == 0 && NotZeroBefore(fn, sn, |turns|)
    requires |siblings| == |turns| && Walk(newRoot, turns) == Some((block, siblings))
    ensures FoldBoth(fn, sn, first, first, rest) == Some((oldRoot, newRoot, 0))
       <==> first == block && rest == siblings && oldRoot == OldClimb(block, turns, siblings)
  {
    if |rest| > |turns| {
      FoldBothStops(fn, sn, first, first, rest, |turns|);
    } else {
      FoldBothIsClimbs(fn, sn, first, first, rest);
      if |rest| == |turns| {
        ClimbIffWalk(newRoot, first, turns, rest);
      } else {
        assert SizeAfter(fn, sn, |rest|) != 0;
      }
    }
  }

  lemma {:induction false} ClimbsExact(
      leaves: seq<Bytes>, m: nat, oldRoot: Digest, first: Digest, rest: seq<Digest>,
      block: Digest, siblings: seq<Digest>, fn: int, sn: int)
    requires 0 < m < |leaves| && Hangs(leaves, m, block, siblings)
    requires (fn, sn) == StripOnes(m - 1, |leaves| - 1)
    ensures FoldBoth(fn, sn, first, first, rest) == Some((oldRoot, Root(leaves), 0))
       <==> first == block && rest == siblings && oldRoot == Root(leaves[..m])
  {
    BlockCounters(|leaves|, m, fn, sn);
    ClimbsFrom(fn, sn, BlockTurns(|leaves|, m), Root(leaves), oldRoot, first, rest, block, siblings);
  }

  /** Trees of one size with one root have the same leaves. */
  lemma {:induction false} RootInjective(a: seq<Bytes>, b: seq<Bytes>)
    requires |a| == |b| && Root(a) == Root(b)
    ensures a == b
    decreases |a|
  {
    if |a| > 1 {
      var k := Split(|a|);
      RootInjective(a[..k], b[..k]);
      RootInjective(a[k..], b[k..]);
      assert a == a[..k] + a[k..] && b == b[..k] + b[k..];
    }
  }

  lemma {:induction false} AcceptedExtends(older: seq<Bytes>, newer: seq<Bytes>, proof: seq<Digest>)
    requires Consistent(|older|, |newer|, Root(older), Root(newer), proof)
    ensures older <= newer
  {
    var m := |older|;
    ConsistencyExact(newer, m, Root(older), proof);
    if m > 0 {
      RootInjective(older, newer[..m]);
    }
    assert older == newer[..m];
  }

  lemma {:induction false} ExtensionIsAccepted(older: seq<Bytes>, newer: seq<Bytes>) returns (proof: seq<Digest>)
    requires older <= newer
    ensures Consistent(|older|, |newer|, Root(older), Root(newer), proof)
  {
    var m := |older|;
    assert older == newer[..m];
    proof := if m == 0 then [] else ConsistencyProof(newer, m);
    ConsistencyExact(newer, m, Root(older), proof);
  }

  ghost predicate Provable(older: seq<Bytes>, newer: seq<Bytes>) {
    exists proof :: Consistent(|older|, |newer|, Root(older), Root(newer), proof)
  }

  /** Append-only: for any two logs, an accepted consistency proof means the newer extends the
      older, entry by entry, and every extension has one. */
  lemma {:induction false} ConsistentIffExtends(older: seq<Bytes>, newer: seq<Bytes>)
    ensures Provable(older, newer) <==> older <= newer
  {
    if Provable(older, newer) {
      var proof :| Consistent(|older|, |newer|, Root(older), Root(newer), proof);
      AcceptedExtends(older, newer, proof);
    }
    if older <= newer {
      var proof := ExtensionIsAccepted(older, newer);
      assert Provable(older, newer);
    }
  }
}
