/** What the two counters of the folding loop do on their own: starting from a leaf's
    index and the last index of the tree, the sides they choose are exactly the turns
    from the root to that leaf, and the size counter reaches zero at the root, not before. */
module MerkleCounters {
  import opened Merkle

  // ---------------------------------------------------------------- what the counters do

  /** The counters after `steps` rounds, and the sides taken, last round first. */
  function Counters(fn: int, sn: int, steps: nat): (int, int)
    decreases steps
  {
    if steps == 0 then (fn, sn)
    else var (f, s) := Next(fn, sn); Counters(f, s, steps - 1)
  }

  function Sides(fn: int, sn: int, steps: nat): seq<bool>
    decreases steps
  {
    if steps == 0 then []
    else var (f, s) := Next(fn, sn); Sides(f, s, steps - 1) + [SiblingOnLeft(fn, sn)]
  }

  lemma {:induction false} SidesLength(fn: int, sn: int, steps: nat)
    ensures |Sides(fn, sn, steps)| == steps
    decreases steps
  {
    if steps > 0 {
      var (f, s) := Next(fn, sn);
      SidesLength(f, s, steps - 1);
    }
  }

  lemma {:induction false} SidesSplit(fn: int, sn: int, a: nat, b: nat)
    ensures var (f, s) := Counters(fn, sn, a);
            && Counters(fn, sn, a + b) == Counters(f, s, b)
            && Sides(fn, sn, a + b) == Sides(f, s, b) + Sides(fn, sn, a)
    decreases a
  {
    if a > 0 {
      var (f, s) := Next(fn, sn);
      SidesSplit(f, s, a - 1, b);
    }
  }

  /** Once the size counter is zero it stays zero. */
  lemma {:induction false} SizeStaysZero(fn: int, steps: nat)
    ensures Counters(fn, 0, steps).1 == 0
    decreases steps
  {
    if steps > 0 {
      StripZero(fn);
      SizeStaysZero(Next(fn, 0).0, steps - 1);
    }
  }

  lemma {:induction false} StripZero(fn: int)
    ensures Strip(fn, 0).1 == 0
    decreases if fn < 0 then -fn else fn
  {
    if fn != 0 && fn % 2 == 0 {
      StripZero(fn / 2);
    }
  }

  lemma {:induction false} AllRightsAtZero(e: nat)
    ensures Sides(0, 0, e) == Rights(e)
  {
    if e > 0 {
      AllRightsAtZero(e - 1);
    }
  }

  function Shr(x: nat, j: nat): nat
    decreases j
  {
    if j == 0 then x else Shr(x / 2, j - 1)
  }

  function Shl(h: nat, j: nat): nat
    decreases j
  {
    if j == 0 then h else 2 * Shl(h, j - 1)
  }

  lemma {:induction false} ShlAdd(h: nat, a: nat, b: nat)
    ensures Shl(h, a + b) == Shl(Shl(h, a), b)
  {
    if b > 0 {
      ShlAdd(h, a, b - 1);
    }
  }

  lemma {:induction false} ShlSuccessor(h: nat, j: nat)
    ensures Shl(h + 1, j) == Shl(h, j) + Pow2(j)
  {
    if j > 0 {
      ShlSuccessor(h, j - 1);
    }
  }

  lemma {:induction false} ShrOfSum(m: nat, h: nat, j: nat, i: nat)
    requires i <= j
    ensures Shr(m + Shl(h, j), i) == Shr(m, i) + Shl(h, j - i)
    decreases i
  {
    if i > 0 {
      assert (m + Shl(h, j)) / 2 == m / 2 + Shl(h, j - 1);
      ShrOfSum(m / 2, h, j - 1, i - 1);
    }
  }

  lemma {:induction false} ShrSmall(m: nat, j: nat)
    requires m < 2 * Pow2(j)
    ensures Shr(m, j) == if m < Pow2(j) then 0 else 1
    decreases j
  {
    if j > 0 {
      ShrSmall(m / 2, j - 1);
    }
  }

  lemma {:induction false} StripDoubled(x: nat)
    ensures Strip(2 * x, 2 * x) == Strip(x, x)
  {
    assert 2 * x % 2 == 0 && 2 * x / 2 == x;
  }

  lemma {:induction false} StripFactor(h: nat, s: nat)
    ensures Strip(Shl(h, s), Shl(h, s)) == Strip(h, h)
  {
    if s > 0 {
      StripFactor(h, s - 1);
      StripDoubled(Shl(h, s - 1));
    }
  }

  lemma {:induction false} TurnsOfComplete(j: nat, m: nat)
    requires m < Pow2(j + 1)
    ensures Turns(Pow2(j + 1), m)
         == if m < Pow2(j) then [false] + Turns(Pow2(j), m) else [true] + Turns(Pow2(j), m - Pow2(j))
  {
    SplitUnique(Pow2(j + 1), j);
  }

  /** The turns of a complete tree of height `j`, read off the bits of the index. */
  function BitTurns(j: nat, m: nat): (t: seq<bool>)
    ensures |t| == j
    decreases j
  {
    if j == 0 then [] else BitTurns(j - 1, m / 2) + [m % 2 == 1]
  }

  lemma {:induction false} BitTurnsTop(j: nat, m: nat)
    requires m < Pow2(j)
    ensures BitTurns(j + 1, m) == [false] + BitTurns(j, m)
    ensures BitTurns(j + 1, m + Pow2(j)) == [true] + BitTurns(j, m)
    decreases j
  {
    if j > 0 {
      BitTurnsTop(j - 1, m / 2);
      assert (m + Pow2(j)) / 2 == m / 2 + Pow2(j - 1);
      assert (m + Pow2(j)) % 2 == m % 2;
    }
  }

  lemma {:induction false} TurnsAreBits(j: nat, m: nat)
    requires m < Pow2(j)
    ensures Turns(Pow2(j), m) == BitTurns(j, m)
  {
    if j > 0 {
      var m' := if m < Pow2(j - 1) then m else m - Pow2(j - 1);
      TurnsOfComplete(j - 1, m);
      TurnsAreBits(j - 1, m');
      BitTurnsTop(j - 1, m');
    }
  }

  /** Inside a complete subtree of height `j` that is not the last at its level, the
      sides are the low `j` bits of the index, and both counters lose `j` bits. */
  lemma {:induction false} CompleteSubtree(j: nat, m: nat, h: nat, sn: nat)
    requires m < Pow2(j) && h < Shr(sn, j)
    ensures Sides(m + Shl(h, j), sn, j) == BitTurns(j, m)
    ensures Counters(m + Shl(h, j), sn, j) == (h, Shr(sn, j))
  {
    if j > 0 {
      var fn := m + Shl(h, j);
      ShrOfSum(m, h, j, j);
      ShrSmall(m, j);
      assert fn != sn;
      assert fn / 2 == m / 2 + Shl(h, j - 1) && fn % 2 == m % 2;
      assert Next(fn, sn) == (fn / 2, sn / 2);
      CompleteSubtree(j - 1, m / 2, h, sn / 2);
    }
  }

  lemma {:induction false} SplitBelow(n: nat, j: nat)
    requires 1 < n <= Pow2(j)
    ensures SplitLog(n) < j
  {
    if SplitLog(n) >= j {
      Pow2Monotone(j, SplitLog(n));
    }
  }

  /** From counters `(fn, sn)` the fold takes exactly `turns`; both counters end equal,
      indistinguishable by `Strip` from `h`, and the size counter was not zero before. */
  ghost predicate Takes(fn: int, sn: int, turns: seq<bool>, h: nat) {
    var (f, s) := Counters(fn, sn, |turns|);
    && Sides(fn, sn, |turns|) == turns
    && f == s >= 0
    && Strip(f, f) == Strip(h, h)
    && (turns != [] ==> Counters(fn, sn, |turns| - 1).1 != 0)
  }

  lemma {:induction false} LastRound(fn: int, sn: int, turns: seq<bool>, f: int, s: int, x: nat, h: nat)
    requires Sides(fn, sn, |turns|) == turns && Counters(fn, sn, |turns|) == (f, s)
    requires s != 0 && Next(f, s) == (x, x) && Strip(x, x) == Strip(h, h)
    ensures Takes(fn, sn, [SiblingOnLeft(f, s)] + turns, h)
  {
    SidesSplit(fn, sn, |turns|, 1);
    assert Counters(f, s, 1) == Counters(x, x, 0) == (x, x);
    assert Sides(f, s, 1) == Sides(x, x, 0) + [SiblingOnLeft(f, s)] == [SiblingOnLeft(f, s)];
  }

  lemma {:induction false} LeftRound(i: nat, m: nat, fn: int, sn: nat, turns: seq<bool>, x: nat, h: nat)
    requires m < Pow2(i) && fn == m + Shl(2 * x, i) && Shr(sn, i) == 2 * x + 1
    requires turns == [false] + BitTurns(i, m) && Strip(x, x) == Strip(h, h)
    ensures Takes(fn, sn, turns, h)
  {
    CompleteSubtree(i, m, 2 * x, sn);
    LastRound(fn, sn, BitTurns(i, m), 2 * x, 2 * x + 1, x, h);
  }

  lemma {:induction false} RightRound(fn: int, sn: int, below: seq<bool>, turns: seq<bool>, x: nat, h: nat)
    requires Takes(fn, sn, below, 2 * x + 1)
    requires turns == [true] + below && Strip(x, x) == Strip(h, h)
    ensures Takes(fn, sn, turns, h)
  {
    var (f, s) := Counters(fn, sn, |below|);
    assert Strip(f, s) == (2 * x + 1, 2 * x + 1);
    LastRound(fn, sn, below, f, s, x, h);
  }

  /** The bits above the split of an `n`-leaf tree are `h` shifted: `2 * x`. */
  lemma {:induction false} HighBits(n: nat, h: nat, j: nat, sn: nat) returns (x: nat)
    requires 1 < n <= Pow2(j) && sn == n - 1 + Shl(h, j)
    ensures Strip(x, x) == Strip(h, h)
    ensures Shl(h, j) == Shl(2 * x, SplitLog(n)) == Shl(2 * x + 1, SplitLog(n)) - Split(n)
    ensures Shr(sn, SplitLog(n)) == 2 * x + 1
  {
    var i := SplitLog(n);
    SplitBelow(n, j);
    x := Shl(h, j - i - 1);
    ShlAdd(h, j - i, i);
    ShlSuccessor(2 * x, i);
    StripFactor(h, j - i - 1);
    ShrOfSum(n - 1, h, j, i);
    ShrSmall(n - 1, i);
  }

  /** A last subtree of `n <= Pow2(j)` leaves, hanging under the higher bits `h`. */
  lemma {:induction false} LastSubtree(n: nat, m: nat, h: nat, j: nat, fn: int, sn: int, turns: seq<bool>)
    requires m < n <= Pow2(j) && turns == Turns(n, m)
    requires fn == m + Shl(h, j) && sn == n - 1 + Shl(h, j)
    ensures Takes(fn, sn, turns, h)
    decreases n
  {
    if n == 1 {
      StripFactor(h, j);
    } else {
      var k, i := Split(n), SplitLog(n);
      var x := HighBits(n, h, j, sn);
      if m < k {
        TurnsAreBits(i, m);
        LeftRound(i, m, fn, sn, turns, x, h);
      } else {
        var below := Turns(n - k, m - k);
        assert turns == [true] + below;
        LastSubtree(n - k, m - k, 2 * x + 1, i, fn, sn, below);
        RightRound(fn, sn, below, turns, x, h);
      }
    }
  }
}
