/** Inclusion proofs at any claimed index: neither verifier checks the whole range, so this
    says exactly which integers pass, and for which leaf. */
module MerkleRange {
  import opened Common
  import opened Merkle
  import opened MerkleCounters
  import opened MerkleInclusion

  // ---------------------------------------------------------------- bits of any integer

  /** `x >> j`, which rounds down. */
  function Down(x: int, j: nat): int
    decreases j
  {
    if j == 0 then x else Down(x / 2, j - 1)
  }

  /** The low `j` bits. */
  function LowBits(x: int, j: nat): (r: nat)
    ensures r < Pow2(j)
    decreases j
  {
    if j == 0 then 0 else 2 * LowBits(x / 2, j - 1) + x % 2
  }

  lemma {:induction false} AtLeastOne(k: nat, d: nat)
    requires k > 0
    ensures k * d >= d
  {
    if k > 1 {
      AtLeastOne(k - 1, d);
      assert k * d == (k - 1) * d + d;
    }
  }

  lemma {:induction false} SmallMultiple(k: int, d: nat, v: int)
    requires v == k * d && v < d && -v < d
    ensures k == 0
  {
    assert (-k) * d == -(k * d);
    if k > 0 {
      AtLeastOne(k, d);
    } else if k < 0 {
      AtLeastOne(-k, d);
    }
  }

  lemma {:induction false} RemainderIs(x: int, q: int, d: nat, r: nat)
    requires d > 0 && x == q * d + r && r < d
    ensures x % d == r
  {
    var p, s := x / d, x % d;
    assert x == p * d + s;
    assert (q - p) * d == q * d - p * d;
    SmallMultiple(q - p, d, s - r);
  }

  lemma {:induction false} LowBitsQuotient(x: int, j: nat) returns (q: int)
    ensures x == q * Pow2(j) + LowBits(x, j)
    decreases j
  {
    if j == 0 {
      q := x;
    } else {
      q := LowBitsQuotient(x / 2, j - 1);
      assert q * Pow2(j) == 2 * (q * Pow2(j - 1));
    }
  }

  /** `x & (2^j - 1)` is the remainder. */
  lemma {:induction false} LowBitsAreRemainder(x: int, j: nat)
    ensures LowBits(x, j) == x % Pow2(j)
  {
    var q := LowBitsQuotient(x, j);
    RemainderIs(x, q, Pow2(j), LowBits(x, j));
  }

  /** How far the counters can be shifted, up to `len`, before they meet. */
  function Meet(fn: int, sn: int, len: nat): (t: nat)
    ensures t <= len
    decreases len
  {
    if len == 0 || fn == sn then 0 else 1 + Meet(fn / 2, sn / 2, len - 1)
  }

  /** Until they meet, each round shifts both counters once and takes the side of one bit. */
  lemma {:induction false} RoundsAreBits(fn: int, sn: int, len: nat, t: nat)
    requires t == Meet(fn, sn, len)
    ensures Sides(fn, sn, t) == BitTurns(t, LowBits(fn, t))
    ensures Counters(fn, sn, t) == (Down(fn, t), Down(sn, t))
    ensures t < len ==> Down(fn, t) == Down(sn, t)
    decreases len
  {
    if t > 0 {
      assert Next(fn, sn) == (fn / 2, sn / 2);
      RoundsAreBits(fn / 2, sn / 2, len - 1, t - 1);
      assert LowBits(fn, t) / 2 == LowBits(fn / 2, t - 1);
    }
  }

  lemma {:induction false} DownIsZero(x: nat, t: nat)
    ensures 0 <= Down(x, t)
    ensures Down(x, t) == 0 <==> x < Pow2(t)
    decreases t
  {
    if t > 0 {
      DownIsZero(x / 2, t - 1);
    }
  }

  // ---------------------------------------------------------------- leaves at full depth

  lemma {:induction false} HalfSplits(n: nat, j: nat)
    requires j > 0 && Pow2(j - 1) < n <= Pow2(j)
    ensures Split(n) == Pow2(j - 1) && n - Split(n) <= Pow2(j - 1)
  {
    SplitUnique(n, j - 1);
  }

  predicate EndsInLeaf(d: Digest, turns: seq<bool>) {
    Walk(d, turns).Some? && Walk(d, turns).value.0.LeafHash?
  }

  lemma {:induction false} ChildEndsInLeaf(d: Digest, right: bool, below: seq<bool>)
    requires EndsInLeaf(d, [right] + below)
    ensures d.NodeHash? && EndsInLeaf(if right then d.right else d.left, below)
  {
    assert ([right] + below)[1..] == below;
  }

  /** A walk by the bits of `p` ends in a leaf only where those bits are a leaf's turns. */
  lemma {:induction false} BitsFindFullDepth(leaves: seq<Bytes>, j: nat, p: nat)
    requires 0 < |leaves| <= Pow2(j) && p < Pow2(j) && EndsInLeaf(Root(leaves), BitTurns(j, p))
    ensures p < |leaves| && Turns(|leaves|, p) == BitTurns(j, p)
    decreases j
  {
    if j > 0 {
      var half := Pow2(j - 1);
      if |leaves| <= half {
        WalkDepth(leaves, BitTurns(j, p), j - 1);
      } else {
        HalfSplits(|leaves|, j);
        var right := p >= half;
        var q := if right then p - half else p;
        BitTurnsTop(j - 1, q);
        ChildEndsInLeaf(Root(leaves), right, BitTurns(j - 1, q));
        BitsFindFullDepth(if right then leaves[half..] else leaves[..half], j - 1, q);
      }
    }
  }

  /** A leaf with `j` turns hangs under a first split in halves. */
  lemma {:induction false} FullDepthSplits(n: nat, j: nat, m: nat)
    requires m < n <= Pow2(j) && |Turns(n, m)| == j > 0
    ensures n > 1 && Split(n) == Pow2(j - 1) && n - Split(n) <= Pow2(j - 1)
  {
    if n <= Pow2(j - 1) {
      TurnsAtMost(n, j - 1, m);
    } else {
      HalfSplits(n, j);
    }
  }

  /** And a leaf with `j` turns, in a tree of at most `2^j`, has the bits of its index. */
  lemma {:induction false} FullDepthIsBits(n: nat, j: nat, m: nat)
    requires m < n <= Pow2(j) && |Turns(n, m)| == j
    ensures Turns(n, m) == BitTurns(j, m)
    decreases j
  {
    if j > 0 {
      FullDepthSplits(n, j, m);
      var k := Pow2(j - 1);
      var q := if m < k then m else m - k;
      FullDepthIsBits(if m < k then k else n - k, j - 1, q);
      BitTurnsTop(j - 1, q);
    }
  }

  lemma {:induction false} TurnsAtMost(n: nat, j: nat, m: nat)
    requires m < n <= Pow2(j)
    ensures |Turns(n, m)| <= j
    decreases n
  {
    if n > 1 {
      var k := Split(n);
      SplitBelow(n, j);
      Pow2Monotone(SplitLog(n), j - 1);
      if m < k {
        TurnsAtMost(k, j - 1, m);
      } else {
        TurnsAtMost(n - k, j - 1, m - k);
      }
    }
  }

  // ---------------------------------------------------------------- counters that meet early

  function Ones(c: nat): nat {
    if c == 0 then 0 else c % 2 + Ones(c / 2)
  }

  function TopBit(c: nat): (b: nat)
    requires c > 0
    ensures Pow2(b) <= c < 2 * Pow2(b)
  {
    if c == 1 then 0 else 1 + TopBit(c / 2)
  }

  lemma {:induction false} OnesWithoutTop(c: nat)
    requires c > 0
    ensures Ones(c) == 1 + Ones(c - Pow2(TopBit(c)))
  {
    if c > 1 {
      var half := Pow2(TopBit(c / 2));
      assert Pow2(TopBit(c)) == 2 * half;
      assert (c - 2 * half) / 2 == c / 2 - half && (c - 2 * half) % 2 == c % 2;
      OnesWithoutTop(c / 2);
    }
  }

  lemma {:induction false} StripEqual(c: nat)
    requires c > 0
    ensures var (f, s) := Strip(c, c); f == s > 0 && f % 2 == 1 && Ones(f) == Ones(c)
  {
    if c % 2 == 0 {
      StripEqual(c / 2);
    }
  }

  /** Equal counters stay equal, always take the right, and lose one set bit a round. */
  lemma {:induction false} EqualCounters(c: nat, e: nat)
    ensures Sides(c, c, e) == Rights(e)
    ensures Counters(c, c, e).1 == 0 ==> Ones(c) <= e
    decreases e
  {
    if e > 0 {
      if c > 0 {
        StripEqual(c);
      }
      var (f, s) := Next(c, c);
      assert f == s >= 0 && Ones(c) <= 1 + Ones(f);
      EqualCounters(f, e - 1);
    }
  }

  lemma {:induction false} ShlOfSum(a: nat, b: nat, t: nat)
    ensures Shl(a + b, t) == Shl(a, t) + Shl(b, t)
  {
    if t > 0 {
      ShlOfSum(a, b, t - 1);
    }
  }

  lemma {:induction false} ShlOfPow2(b: nat, t: nat)
    ensures Shl(Pow2(b), t) == Pow2(b + t)
  {
    if t > 0 {
      ShlOfPow2(b, t - 1);
    }
  }

  /** Splitting off the top bit of a size. */
  lemma {:induction false} TopSplit(c: nat, t: nat, r: nat, n: nat)
    requires c > 0 && n == Shl(c, t) + r + 1 && r < Pow2(t)
    ensures n > 1 && Split(n) == Pow2(TopBit(c) + t) && n - Split(n) == Shl(c - Pow2(TopBit(c)), t) + r + 1
  {
    var b := TopBit(c);
    var rest := c - Pow2(b);
    ShlOfSum(rest, Pow2(b), t);
    ShlOfPow2(b, t);
    ShlSuccessor(rest, t);
    ShlOfSum(rest + 1, Pow2(b) - (rest + 1), t);
    SplitUnique(n, b + t);
  }

  /** Past all the rights of the high bits, a walk of `t` more turns runs off a subtree of at
      most `2^(t - 1)` leaves. */
  lemma {:induction false} RunsOff(leaves: seq<Bytes>, c: nat, t: nat, r: nat, e: nat, rest: seq<bool>)
    requires t > 0 && |leaves| == Shl(c, t) + r + 1 && r < Pow2(t - 1)
    requires |rest| >= t && e >= Ones(c)
    ensures var w := Walk(Root(leaves), Rights(e) + rest); w.None? || !w.value.0.LeafHash?
    decreases c
  {
    var path := Rights(e) + rest;
    if c == 0 {
      ShlZero(t);
      TooDeep(leaves, path, t - 1);
    } else {
      TopSplit(c, t, r, |leaves|);
      OnesWithoutTop(c);
      assert path[0] && path[1..] == Rights(e - 1) + rest;
      RunsOff(leaves[Split(|leaves|)..], c - Pow2(TopBit(c)), t, r, e - 1, rest);
    }
  }

  lemma {:induction false} DownRebuilds(x: nat, t: nat)
    ensures Down(x, t) >= 0 && x == Shl(Down(x, t), t) + LowBits(x, t)
    decreases t
  {
    if t > 0 {
      DownRebuilds(x / 2, t - 1);
    }
  }

  lemma {:induction false} DownOnce(x: int, t: nat)
    ensures Down(x, t + 1) == Down(x, t) / 2
    decreases t
  {
    if t > 0 {
      DownOnce(x / 2, t - 1);
    }
  }

  lemma {:induction false} DownKeepsOrder(x: int, y: int, t: nat)
    requires x <= y
    ensures Down(x, t) <= Down(y, t)
    decreases t
  {
    if t > 0 {
      DownKeepsOrder(x / 2, y / 2, t - 1);
    }
  }

  lemma {:induction false} ApartBefore(fn: int, sn: int, len: nat, t: nat, u: nat)
    requires t == Meet(fn, sn, len) && u < t
    ensures Down(fn, u) != Down(sn, u)
    decreases u
  {
    if u > 0 {
      ApartBefore(fn / 2, sn / 2, len - 1, t - 1, u - 1);
    }
  }

  /** Where an index past the end meets the last index, the last index has a clear bit below. */
  lemma {:induction false} ClearBitBelow(i: int, last: nat, len: nat, t: nat)
    requires t == Meet(i, last, len) && t < len && i != last && !(0 <= i <= last)
    requires Down(i, t) == Down(last, t)
    ensures t > 0 && Down(last, t) >= 0 && last == Shl(Down(last, t), t) + LowBits(last, t)
    ensures LowBits(last, t) < Pow2(t - 1)
  {
    DownRebuilds(last, t);
    DownRebuilds(last, t - 1);
    DownOnce(i, t - 1);
    DownOnce(last, t - 1);
    ApartBefore(i, last, len, t, t - 1);
    if i < last {
      NegativeStays(i, t);
    } else {
      DownKeepsOrder(last, i, t - 1);
    }
    var c := Down(last, t);
    assert Down(last, t - 1) == 2 * c;
    assert Shl(2 * c, t - 1) == Shl(c, t) by {
      ShlAdd(c, 1, t - 1);
      assert Shl(c, 1) == 2 * c;
    }
  }

  lemma {:induction false} NegativeStays(x: int, t: nat)
    requires x < 0
    ensures Down(x, t) < 0
    decreases t
  {
    if t > 0 {
      NegativeStays(x / 2, t - 1);
    }
  }

  lemma {:induction false} NegativeSizeStays(fn: int, sn: int, len: nat)
    requires sn < 0
    ensures Counters(fn, sn, len).1 < 0
    decreases len
  {
    if len > 0 {
      StripNegative(fn, sn);
      var (f, s) := Next(fn, sn);
      NegativeSizeStays(f, s, len - 1);
    }
  }

  lemma {:induction false} StripNegative(fn: int, sn: int)
    requires sn < 0
    ensures Strip(fn, sn).1 < 0
    decreases if fn < 0 then -fn else fn
  {
    if fn != 0 && fn % 2 == 0 {
      StripNegative(fn / 2, sn / 2);
    }
  }

  // ---------------------------------------------------------------- main results

  /** Outside the tree, a proof is accepted only by the low bits of the index, and only at
      full depth. */
  lemma {:induction false} OutsideNeedsFullDepth(leaves: seq<Bytes>, i: int, len: nat)
    requires leaves != [] && !(0 <= i < |leaves|)
    requires SizeAfter(i, |leaves| - 1, len) == 0
    requires EndsInLeaf(Root(leaves), Sides(i, |leaves| - 1, len))
    ensures var j := BitLength(|leaves|);
            len == j && Sides(i, |leaves| - 1, len) == BitTurns(j, LowBits(i, j))
  {
    var last, j := |leaves| - 1, BitLength(|leaves|);
    var t := Meet(i, last, len);
    RoundsAreBits(i, last, len, t);
    if t < len {
      var c, e := Down(last, t), len - t;
      ClearBitBelow(i, last, len, t);
      SidesSplit(i, last, t, e);
      EqualCounters(c, e);
      RunsOff(leaves, c, t, LowBits(last, t), e, Sides(i, last, t));
    } else {
      DownIsZero(last, len);
      SidesLength(i, last, len);
      WalkDepth(leaves, Sides(i, last, len), j);
      if len < j {
        Pow2Monotone(len, j - 1);
      }
    }
  }

  /** Which claimed indices pass the loop, for every integer: those inside the tree, for
      their own leaf, and those outside whose low bits name a leaf at full depth, for that
      leaf; each with that leaf's audit path and nothing else. */
  lemma {:induction false} AnyIndexExact(leaves: seq<Bytes>, index: int, receipt: Bytes, proof: seq<Digest>)
    ensures var n := |leaves|;
            var m := index % Pow2(BitLength(n));
            Accepts(receipt, index, n, proof, Root(leaves)) <==>
              && m < n && (index == m || |Turns(n, m)| == BitLength(n))
              && receipt == leaves[m] && proof == AuditPath(leaves, m)
  {
    var n, j := |leaves|, BitLength(|leaves|);
    var m := LowBits(index, j);
    LowBitsAreRemainder(index, j);
    if n == 0 {
      AcceptsIffWalk(receipt, index, n, proof, Root(leaves));
      NegativeSizeStays(index, -1, |proof|);
    } else if 0 <= index < n {
      RemainderIs(index, 0, Pow2(j), index);
      InclusionExact(leaves, index, receipt, proof);
    } else {
      AcceptsIffWalk(receipt, index, n, proof, Root(leaves));
      if Accepts(receipt, index, n, proof, Root(leaves)) {
        OutsideNeedsFullDepth(leaves, index, |proof|);
        BitsFindFullDepth(leaves, j, m);
        WalkRoot(leaves, m);
      }
      if m < n && |Turns(n, m)| == j && receipt == leaves[m] && proof == AuditPath(leaves, m) {
        OutsideTakesLowBits(n, index, j, m);
        FullDepthIsBits(n, j, m);
        WalkRoot(leaves, m);
        PathLength(leaves, m);
      }
    }
  }

  /** An index whose low bits name a leaf meets the last index in none of `j` rounds. */
  lemma {:induction false} OutsideTakesLowBits(n: nat, i: int, j: nat, m: nat)
    requires n > 0 && !(0 <= i < n) && j == BitLength(n) && m == LowBits(i, j) < n
    ensures Sides(i, n - 1, j) == BitTurns(j, m) && SizeAfter(i, n - 1, j) == 0
  {
    var last := n - 1;
    var t := Meet(i, last, j);
    RoundsAreBits(i, last, j, t);
    DownIsZero(last, j);
    if t < j {
      ClearBitBelow(i, last, j, t);
      MeetingIsSmall(i, last, t, j);
    }
  }

  /** Indices that meet within `j` shifts agree above them: a natural index below `2^j` is
      its own low bits. */
  lemma {:induction false} MeetingIsSmall(i: int, last: nat, t: nat, j: nat)
    requires t <= j && last < Pow2(j) && Down(i, t) == Down(last, t)
    ensures LowBits(i, j) == i
    decreases j
  {
    if t > 0 {
      MeetingIsSmall(i / 2, last / 2, t - 1, j - 1);
    } else {
      LowBitsOfSmall(last, j);
    }
  }

  lemma {:induction false} LowBitsOfSmall(x: nat, j: nat)
    requires x < Pow2(j)
    ensures LowBits(x, j) == x
    decreases j
  {
    if j > 0 {
      LowBitsOfSmall(x / 2, j - 1);
    }
  }

  /** The server's verifier refuses an index past the end, so it is exact for naturals, and
      lets through the negative indices whose low bits name a leaf at full depth. */
  lemma {:induction false} VerifyInclusionExact(leaves: seq<Bytes>, index: int, leaf: Bytes, proof: seq<Digest>)
    ensures var n := |leaves|;
            var m := index % Pow2(BitLength(n));
            VerifyInclusion(leaf, index, n, proof, Root(leaves)) <==>
              && m < n && (index == m || (index < 0 && |Turns(n, m)| == BitLength(n)))
              && leaf == leaves[m] && proof == AuditPath(leaves, m)
  {
    AnyIndexExact(leaves, index, leaf, proof);
    var n, j := |leaves|, BitLength(|leaves|);
    if 0 <= index < n {
      RemainderIs(index, 0, Pow2(j), index);
    }
  }

  // ---------------------------------------------------------------- any claimed size

  /** A walk that ends in a leaf took that leaf's turns. */
  lemma {:induction false} LeafWalkIsTurns(leaves: seq<Bytes>, turns: seq<bool>) returns (m: nat)
    requires leaves != [] && EndsInLeaf(Root(leaves), turns)
    ensures m < |leaves| && Turns(|leaves|, m) == turns
  {
    if |leaves| == 1 {
      m := 0;
    } else {
      var k := Split(|leaves|);
      assert turns != [] && turns == [turns[0]] + turns[1..];
      ChildEndsInLeaf(Root(leaves), turns[0], turns[1..]);
      m := LeafWalkIsTurns(if turns[0] then leaves[k..] else leaves[..k], turns[1..]);
      if turns[0] {
        m := m + k;
      }
    }
  }

  /** The claimed index and size drive the counters down exactly these turns. */
  ghost predicate LeadsAlong(index: int, size: int, turns: seq<bool>) {
    Sides(index, size - 1, |turns|) == turns && SizeAfter(index, size - 1, |turns|) == 0
  }

  ghost predicate IsLeafAt(leaves: seq<Bytes>, m: nat, receipt: Bytes, proof: seq<Digest>) {
    m < |leaves| && receipt == leaves[m] && proof == AuditPath(leaves, m)
  }

  /** Whatever integers are claimed as index and size, a proof passes against a tree's root
      exactly for the leaf, and with the audit path of the leaf, to whose place in the real
      tree the claimed numbers lead. */
  lemma {:induction false} AnyClaimExact(
      leaves: seq<Bytes>, index: int, size: int, receipt: Bytes, proof: seq<Digest>)
    ensures Accepts(receipt, index, size, proof, Root(leaves))
       <==> exists m: nat :: IsLeafAt(leaves, m, receipt, proof) && LeadsAlong(index, size, Turns(|leaves|, m))
  {
    AcceptsIffWalk(receipt, index, size, proof, Root(leaves));
    if Accepts(receipt, index, size, proof, Root(leaves)) {
      AcceptedIsMember(leaves, index, size, receipt, proof);
      SidesLength(index, size - 1, |proof|);
      var m := LeafWalkIsTurns(leaves, Sides(index, size - 1, |proof|));
      WalkRoot(leaves, m);
      assert IsLeafAt(leaves, m, receipt, proof) && LeadsAlong(index, size, Turns(|leaves|, m));
    }
    if m: nat :| IsLeafAt(leaves, m, receipt, proof) && LeadsAlong(index, size, Turns(|leaves|, m)) {
      WalkRoot(leaves, m);
      PathLength(leaves, m);
    }
  }

  /** A size that holds the index leads along the index's own turns in a tree of that size,
      after any number of rights. */
  lemma {:induction false} InSizeLeadsAlong(index: nat, size: nat, turns: seq<bool>)
    requires index < size
    ensures LeadsAlong(index, size, turns) <==> exists e: nat :: turns == Rights(e) + Turns(size, index)
  {
    var own := Turns(size, index);
    CountersReachRoot(size, index);
    if |turns| < |own| {
      assert SizeAfter(index, size - 1, |turns|) != 0;
    } else {
      var e := |turns| - |own|;
      SidesSplit(index, size - 1, |own|, e);
      AllRightsAtZero(e);
      SizeStaysZero(0, e);
      assert |Rights(e)| == e && Sides(index, size - 1, |turns|) == Rights(e) + own;
      if d: nat :| turns == Rights(d) + own {
        assert |Rights(d)| == d == e;
      }
    }
  }

  /** So an index inside a false size is a leaf's position counted from a subtree on the right
      edge: it passes exactly for the leaf whose turns are rights and then the index's own. */
  lemma {:induction false} InSizeExact(
      leaves: seq<Bytes>, index: nat, size: nat, receipt: Bytes, proof: seq<Digest>)
    requires index < size
    ensures VerifyInclusion(receipt, index, size, proof, Root(leaves)) <==>
              exists m: nat, e: nat ::
                && IsLeafAt(leaves, m, receipt, proof)
                && Turns(|leaves|, m) == Rights(e) + Turns(size, index)
  {
    AnyClaimExact(leaves, index, size, receipt, proof);
    forall m: nat | IsLeafAt(leaves, m, receipt, proof)
      ensures LeadsAlong(index, size, Turns(|leaves|, m))
         <==> exists e: nat :: Turns(|leaves|, m) == Rights(e) + Turns(size, index)
    {
      InSizeLeadsAlong(index, size, Turns(|leaves|, m));
    }
  }

  /** Index 1 of a claimed size 2 passes in a tree of three leaves, for the leaf at 2. */
  lemma {:induction false} FalseSizeCanPass(a: Bytes, b: Bytes, c: Bytes)
    ensures VerifyInclusion(c, 1, 2, [NodeHash(LeafHash(a), LeafHash(b))], Root([a, b, c]))
  {
    var leaves := [a, b, c];
    assert Split(3) == 2 && Split(2) == 1;
    assert leaves[..2] == [a, b] && leaves[2..] == [c] && [a, b][..1] == [a] && [a, b][1..] == [b];
    assert Root([a, b]) == NodeHash(LeafHash(a), LeafHash(b));
    assert AuditPath(leaves, 2) == AuditPath([c], 0) + [Root([a, b])];
    assert Turns(3, 2) == [true] + Turns(1, 0) && Turns(2, 1) == [true] + Turns(1, 0);
    assert IsLeafAt(leaves, 2, c, [Root([a, b])]) && Turns(3, 2) == Rights(0) + Turns(2, 1);
    InSizeExact(leaves, 1, 2, c, [Root([a, b])]);
  }

  /** Index 3 passes the loop in a tree of two leaves, and -1 passes the server's verifier
      too; in a tree of three leaves 3 never passes. */
  lemma {:induction false} OutOfRangeIndexCanPass(a: Bytes, b: Bytes, c: Bytes, receipt: Bytes, proof: seq<Digest>)
    ensures Accepts(b, 3, 2, [LeafHash(a)], Root([a, b]))
    ensures VerifyInclusion(b, -1, 2, [LeafHash(a)], Root([a, b]))
    ensures !Accepts(receipt, 3, 3, proof, Root([a, b, c]))
  {
    var two, three := [a, b], [a, b, c];
    assert Split(2) == 1 && BitLength(2) == 1 && BitLength(3) == 2 && Pow2(1) == 2 && Pow2(2) == 4;
    assert two[..1] == [a] && two[1..] == [b];
    assert Turns(2, 1) == [true] + Turns(1, 0) && AuditPath(two, 1) == AuditPath([b], 0) + [Root([a])];
    AnyIndexExact(two, 3, b, [LeafHash(a)]);
    VerifyInclusionExact(two, -1, b, [LeafHash(a)]);
    AnyIndexExact(three, 3, receipt, proof);
  }
}
