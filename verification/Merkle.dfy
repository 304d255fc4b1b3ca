/** RFC 6962 Merkle trees over receipts, and the loop that folds an inclusion proof.

    SHA-256 is a free datatype: one constructor per domain-separation tag, so two
    digests are equal exactly when they were made from the same parts. */
module Merkle {
  import opened Common

  type Bytes = seq<bv8>

  /** `Opaque` is a digest nobody in the model computed: a proof may carry any bytes. */
  datatype Digest =
    | EmptyHash
    | LeafHash(data: Bytes)
    | NodeHash(left: Digest, right: Digest)
    | Opaque(bytes: Bytes)

  // ---------------------------------------------------------------- powers of two

  function Pow2(j: nat): (p: nat)
    ensures p > 0
  {
    if j == 0 then 1 else 2 * Pow2(j - 1)
  }

  lemma {:induction false} Pow2Add(a: nat, b: nat)
    ensures Pow2(a + b) == Pow2(a) * Pow2(b)
  {
    if b > 0 {
      Pow2Add(a, b - 1);
      assert Pow2(a) * (2 * Pow2(b - 1)) == 2 * (Pow2(a) * Pow2(b - 1));
    }
  }

  lemma {:induction false} Pow2Monotone(a: nat, b: nat)
    requires a <= b
    ensures Pow2(a) <= Pow2(b)
    ensures a < b ==> 2 * Pow2(a) <= Pow2(b)
  {
    if a < b {
      Pow2Monotone(a, b - 1);
    }
  }

  /** The exponent of the largest power of two strictly below `n`. */
  function SplitLog(n: nat): (j: nat)
    requires n > 1
    ensures Pow2(j) < n <= 2 * Pow2(j)
  {
    if n == 2 then 0 else 1 + SplitLog((n + 1) / 2)
  }

  function Split(n: nat): (k: nat)
    requires n > 1
    ensures 0 < k < n <= 2 * k
  {
    Pow2(SplitLog(n))
  }

  lemma {:induction false} SplitUnique(n: nat, j: nat)
    requires n > 1 && Pow2(j) < n <= 2 * Pow2(j)
    ensures SplitLog(n) == j
  {
    var i := SplitLog(n);
    if i < j {
      Pow2Monotone(i, j);
    } else {
      Pow2Monotone(j, i);
    }
  }

  method LargestPow2Lt(n: nat) returns (k: nat)
    requires n > 1
    ensures k == Split(n)
  {
    k := 1;
    ghost var j := 0;
    while k * 2 < n
      invariant k == Pow2(j) && k < n
      decreases n - k
    {
      k := k * 2;
      j := j + 1;
    }
    SplitUnique(n, j);
  }

  // ---------------------------------------------------------------- trees and audit paths

  function Root(leaves: seq<Bytes>): Digest {
    if |leaves| == 0 then EmptyHash
    else if |leaves| == 1 then LeafHash(leaves[0])
    else
      var k := Split(|leaves|);
      NodeHash(Root(leaves[..k]), Root(leaves[k..]))
  }

  function AuditPath(leaves: seq<Bytes>, m: nat): seq<Digest>
    requires m < |leaves|
  {
    if |leaves| == 1 then []
    else
      var k := Split(|leaves|);
      if m < k then AuditPath(leaves[..k], m) + [Root(leaves[k..])]
      else AuditPath(leaves[k..], m - k) + [Root(leaves[..k])]
  }

  // ---------------------------------------------------------------- the folding loop

  /** The inner loop: shift both counters until the first is odd or zero. */
  function Strip(fn: int, sn: int): (int, int)
    decreases if fn < 0 then -fn else fn
  {
    if fn != 0 && fn % 2 == 0 then Strip(fn / 2, sn / 2) else (fn, sn)
  }

  predicate SiblingOnLeft(fn: int, sn: int) {
    fn % 2 == 1 || fn == sn
  }

  function Next(fn: int, sn: int): (int, int) {
    var (f, s) := if SiblingOnLeft(fn, sn) then Strip(fn, sn) else (fn, sn);
    (f / 2, s / 2)
  }

  function Join(node: Digest, sibling: Digest, siblingOnLeft: bool): Digest {
    if siblingOnLeft then NodeHash(sibling, node) else NodeHash(node, sibling)
  }

  function Fold(fn: int, sn: int, node: Digest, proof: seq<Digest>): (Digest, int)
    decreases |proof|
  {
    if proof == [] then (node, sn)
    else
      var (f, s) := Next(fn, sn);
      Fold(f, s, Join(node, proof[0], SiblingOnLeft(fn, sn)), proof[1..])
  }

  predicate Accepts(receipt: Bytes, leafIndex: int, treeSize: int, proof: seq<Digest>, root: Digest) {
    Fold(leafIndex, treeSize - 1, LeafHash(receipt), proof) == (root, 0)
  }

  method FoldsTo(receipt: Bytes, leafIndex: int, treeSize: int, proof: seq<Digest>, root: Digest)
    returns (ok: bool)
    ensures ok <==> Accepts(receipt, leafIndex, treeSize, proof, root)
  {
    var node := LeafHash(receipt);
    var fn, sn := leafIndex, treeSize - 1;
    for i := 0 to |proof|
      invariant Fold(fn, sn, node, proof[i..])
             == Fold(leafIndex, treeSize - 1, LeafHash(receipt), proof)
    {
      var sib := proof[i];
      ghost var fn0, sn0 := fn, sn;
      assert proof[i..][1..] == proof[i + 1..];
      if fn % 2 == 1 || fn == sn {
        node := NodeHash(sib, node);
        while fn != 0 && fn % 2 == 0
          invariant Strip(fn, sn) == Strip(fn0, sn0)
          decreases if fn < 0 then -fn else fn
        {
          fn := fn / 2;
          sn := sn / 2;
        }
      } else {
        node := NodeHash(node, sib);
      }
      fn := fn / 2;
      sn := sn / 2;
      assert (fn, sn) == Next(fn0, sn0);
    }
    ok := node == root && sn == 0;
  }

  // ---------------------------------------------------------------- a reference walk from the root

  /** The turns from the root of an `n`-leaf tree down to leaf `m`; true is right. */
  function Turns(n: nat, m: nat): seq<bool>
    requires m < n
  {
    if n == 1 then []
    else
      var k := Split(n);
      if m < k then [false] + Turns(k, m) else [true] + Turns(n - k, m - k)
  }

  /** Follows `turns` down a digest: where it ends, and the siblings it passed, deepest first. */
  function Walk(d: Digest, turns: seq<bool>): Option<(Digest, seq<Digest>)> {
    if turns == [] then Some((d, []))
    else if !d.NodeHash? then None
    else
      match Walk(if turns[0] then d.right else d.left, turns[1..])
      case None => None
      case Some((end, siblings)) => Some((end, siblings + [if turns[0] then d.left else d.right]))
  }

  lemma {:induction false} WalkRoot(leaves: seq<Bytes>, m: nat)
    requires m < |leaves|
    ensures Walk(Root(leaves), Turns(|leaves|, m)) == Some((LeafHash(leaves[m]), AuditPath(leaves, m)))
  {
    if |leaves| > 1 {
      var k := Split(|leaves|);
      if m < k {
        WalkRoot(leaves[..k], m);
      } else {
        WalkRoot(leaves[k..], m - k);
      }
    }
  }

  /** No leaf lies deeper than the exponent bounding the leaf count. */
  lemma {:induction false} WalkDepth(leaves: seq<Bytes>, turns: seq<bool>, j: nat)
    requires 0 < |leaves| <= Pow2(j)
    requires Walk(Root(leaves), turns).Some? && Walk(Root(leaves), turns).value.0.LeafHash?
    ensures |turns| <= j
  {
    if |leaves| > 1 && turns != [] {
      var k := Split(|leaves|);
      assert j > 0;
      if SplitLog(|leaves|) >= j {
        Pow2Monotone(j, SplitLog(|leaves|));
      }
      Pow2Monotone(SplitLog(|leaves|), j - 1);
      WalkDepth(if turns[0] then leaves[k..] else leaves[..k], turns[1..], j - 1);
    }
  }

  /** Any walk that ends in a leaf hash ends in a leaf of the tree. */
  lemma {:induction false} WalkFindsLeaf(leaves: seq<Bytes>, turns: seq<bool>)
    requires Walk(Root(leaves), turns).Some? && Walk(Root(leaves), turns).value.0.LeafHash?
    ensures Walk(Root(leaves), turns).value.0.data in leaves
  {
    if |leaves| > 1 && turns != [] {
      var k := Split(|leaves|);
      WalkFindsLeaf(if turns[0] then leaves[k..] else leaves[..k], turns[1..]);
    }
  }

  lemma {:induction false} TooDeep(leaves: seq<Bytes>, turns: seq<bool>, j: nat)
    requires 0 < |leaves| <= Pow2(j) && |turns| > j
    ensures var w := Walk(Root(leaves), turns); w.None? || !w.value.0.LeafHash?
  {
    var w := Walk(Root(leaves), turns);
    if w.Some? && w.value.0.LeafHash? {
      WalkDepth(leaves, turns, j);
    }
  }

  function Rights(e: nat): seq<bool> {
    seq(e, _ => true)
  }

  /** Extra steps at the top all turn right, and then the walk runs off the tree. */
  lemma {:induction false} Overshoot(leaves: seq<Bytes>, m: nat, e: nat)
    requires m < |leaves| && e > 0
    ensures var w := Walk(Root(leaves), Rights(e) + Turns(|leaves|, m));
            w.None? || !w.value.0.LeafHash?
  {
    var turns := Turns(|leaves|, m);
    var path := Rights(e) + turns;
    if |leaves| > 1 {
      var k := Split(|leaves|);
      var rest := leaves[k..];
      assert path[1..] == Rights(e - 1) + turns;
      if m < k {
        var j := SplitLog(|leaves|);
        CompleteDepth(j, m);
        TooDeep(rest, path[1..], j);
      } else {
        assert path[1..] == Rights(e) + Turns(|rest|, m - k);
        Overshoot(rest, m - k, e);
      }
    }
  }

  lemma {:induction false} CompleteDepth(j: nat, m: nat)
    requires m < Pow2(j)
    ensures |Turns(Pow2(j), m)| == j
  {
    if j > 0 {
      SplitUnique(Pow2(j), j - 1);
      CompleteDepth(j - 1, if m < Pow2(j - 1) then m else m - Pow2(j - 1));
    }
  }
}
