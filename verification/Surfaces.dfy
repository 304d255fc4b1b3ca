/** Surfaces as flat component lists, and when such a list is a tree with a declared root. */
module Surfaces {
  /** `caption` is the main text a component shows, `items` the lines of a list; its other display fields are not modelled. */
  datatype Component = Component(
    id: string, kind: string, caption: string, children: seq<string>, items: seq<string> := [])

  datatype Surface = Surface(surfaceId: string, root: string, components: seq<Component>)

  function Ids(cs: seq<Component>): set<string> {
    set c | c in cs :: c.id
  }

  predicate DistinctIds(cs: seq<Component>) {
    forall i, j :: 0 <= i < j < |cs| ==> cs[i].id != cs[j].id
  }

  predicate Distinct(s: seq<string>) {
    forall i, j :: 0 <= i < j < |s| ==> s[i] != s[j]
  }

  /** Every child is defined, and is a child of one component only, once; none is the root. */
  ghost predicate OneParent(cs: seq<Component>, root: string) {
    && (forall c, x :: c in cs && x in c.children ==> x in Ids(cs) && x != root)
    && (forall c, d, x :: c in cs && d in cs && x in c.children && x in d.children ==> c == d)
    && (forall c :: c in cs ==> Distinct(c.children))
  }

  ghost predicate Refers(cs: seq<Component>, parent: string, child: string) {
    exists c :: c in cs && c.id == parent && child in c.children
  }

  ghost predicate IsPath(cs: seq<Component>, path: seq<string>) {
    path != [] && forall i :: 0 <= i < |path| - 1 ==> Refers(cs, path[i], path[i + 1])
  }

  ghost predicate Reachable(cs: seq<Component>, from: string, to: string) {
    exists path :: IsPath(cs, path) && path[0] == from && path[|path| - 1] == to
  }

  /** A tree: ids distinct, one parent each, everything reachable from the declared root. */
  ghost predicate WellFormed(s: Surface) {
    && DistinctIds(s.components)
    && s.root in Ids(s.components)
    && OneParent(s.components, s.root)
    && forall c :: c in s.components ==> Reachable(s.components, s.root, c.id)
  }

  // ---------------------------------------------------------------- trees, flattened

  datatype Tree = Node(id: string, kind: string, caption: string, kids: seq<Tree>, items: seq<string> := [])

  function Roots(ts: seq<Tree>): seq<string> {
    if ts == [] then [] else [ts[0].id] + Roots(ts[1..])
  }

  function Top(t: Tree): Component {
    Component(t.id, t.kind, t.caption, Roots(t.kids), t.items)
  }

  /** Parents before their children, siblings in order. */
  function Flatten(ts: seq<Tree>): seq<Component> {
    if ts == [] then [] else [Top(ts[0])] + Flatten(ts[0].kids) + Flatten(ts[1..])
  }

  lemma {:induction false} RootsAppend(a: seq<Tree>, b: seq<Tree>)
    ensures Roots(a + b) == Roots(a) + Roots(b)
  {
    if a == [] {
      assert a + b == b;
    } else {
      assert (a + b)[1..] == a[1..] + b;
      RootsAppend(a[1..], b);
    }
  }

  lemma {:induction false} FlattenAppend(a: seq<Tree>, b: seq<Tree>)
    ensures Flatten(a + b) == Flatten(a) + Flatten(b)
  {
    if a == [] {
      assert a + b == b;
    } else {
      assert (a + b)[1..] == a[1..] + b;
      FlattenAppend(a[1..], b);
    }
  }

  lemma {:induction false} FlattenOne(t: Tree)
    ensures Flatten([t]) == [Top(t)] + Flatten(t.kids)
  {
    assert [t][1..] == [];
  }

  lemma {:induction false} IdsAppend(a: seq<Component>, b: seq<Component>)
    ensures Ids(a + b) == Ids(a) + Ids(b)
  {
    forall x ensures x in Ids(a + b) <==> x in Ids(a) + Ids(b) {
      assert forall c :: c in a + b <==> c in a || c in b;
    }
  }

  lemma {:induction false} DistinctAppend(a: seq<Component>, b: seq<Component>)
    ensures DistinctIds(a + b) <==> DistinctIds(a) && DistinctIds(b) && Ids(a) !! Ids(b)
  {
    var s := a + b;
    if DistinctIds(s) {
      forall i, j | 0 <= i < j < |b| ensures b[i].id != b[j].id {
        assert s[|a| + i] == b[i] && s[|a| + j] == b[j];
      }
      forall i, j | 0 <= i < j < |a| ensures a[i].id != a[j].id {
        assert s[i] == a[i] && s[j] == a[j];
      }
      forall c, d | c in a && d in b ensures c.id != d.id {
        var i :| 0 <= i < |a| && a[i] == c;
        var j :| 0 <= j < |b| && b[j] == d;
        assert s[i] == c && s[|a| + j] == d;
      }
    }
    if DistinctIds(a) && DistinctIds(b) && Ids(a) !! Ids(b) {
      forall i, j | 0 <= i < |a| && 0 <= j < |b| ensures a[i].id != b[j].id {
        assert a[i].id in Ids(a) && b[j].id in Ids(b);
      }
    }
  }

  /** Swapping two stretches of a list keeps ids distinct and the same components. */
  lemma {:induction false} SwapKeeps(a: seq<Component>, b: seq<Component>, c: seq<Component>, d: seq<Component>)
    ensures DistinctIds(a + b + c + d) <==> DistinctIds(a + c + b + d)
    ensures Ids(a + b + c + d) == Ids(a + c + b + d)
    ensures forall x :: x in a + b + c + d <==> x in a + c + b + d
  {
    DistinctAppend(a + b + c, d);
    DistinctAppend(a + b, c);
    DistinctAppend(a, b);
    DistinctAppend(a + c + b, d);
    DistinctAppend(a + c, b);
    DistinctAppend(a, c);
    IdsAppend(a + b + c, d);
    IdsAppend(a + b, c);
    IdsAppend(a, b);
    IdsAppend(a + c + b, d);
    IdsAppend(a + c, b);
    IdsAppend(a, c);
  }

  lemma {:induction false} RootsAreIds(ts: seq<Tree>)
    requires DistinctIds(Flatten(ts))
    ensures (forall x :: x in Roots(ts) ==> x in Ids(Flatten(ts))) && Distinct(Roots(ts))
  {
    if ts != [] {
      var own, rest := [Top(ts[0])] + Flatten(ts[0].kids), Flatten(ts[1..]);
      DistinctAppend(own, rest);
      IdsAppend(own, rest);
      RootsAreIds(ts[1..]);
      assert own[0] in own && ts[0].id in Ids(own);
    }
  }

  /** Children are inside, are no roots, and have one parent. */
  ghost predicate Owned(cs: seq<Component>, roots: seq<string>) {
    && (forall c, x :: c in cs && x in c.children ==> x in Ids(cs) && x !in roots)
    && (forall c, d, x :: c in cs && d in cs && x in c.children && x in d.children ==> c == d)
    && (forall c :: c in cs ==> Distinct(c.children))
  }

  lemma {:induction false} OwnedUnderTop(top: Component, kids: seq<Component>)
    requires Owned(kids, top.children) && Distinct(top.children) && top.id !in Ids(kids)
    requires forall x :: x in top.children ==> x in Ids(kids)
    ensures Owned([top] + kids, [top.id])
  {
    IdsAppend([top], kids);
    assert forall c :: c in [top] + kids <==> c == top || c in kids;
  }

  lemma {:induction false} OwnedBeside(a: seq<Component>, r: seq<string>, b: seq<Component>, s: seq<string>)
    requires Owned(a, r) && Owned(b, s) && Ids(a) !! Ids(b)
    requires forall x :: x in r ==> x in Ids(a)
    requires forall x :: x in s ==> x in Ids(b)
    ensures Owned(a + b, r + s)
  {
    IdsAppend(a, b);
    assert forall c :: c in a + b <==> c in a || c in b;
    assert forall x :: x in r + s <==> x in r || x in s;
    forall c, d, x | c in a + b && d in a + b && x in c.children && x in d.children
      ensures c == d
    {
      assert c in a <==> x in Ids(a);
      assert d in a <==> x in Ids(a);
    }
  }

  lemma {:induction false} ForestHasOneParent(ts: seq<Tree>)
    requires DistinctIds(Flatten(ts))
    ensures Owned(Flatten(ts), Roots(ts))
  {
    if ts != [] {
      var top, kids, rest := Top(ts[0]), Flatten(ts[0].kids), Flatten(ts[1..]);
      DistinctAppend([top] + kids, rest);
      DistinctAppend([top], kids);
      ForestHasOneParent(ts[0].kids);
      ForestHasOneParent(ts[1..]);
      RootsAreIds(ts[0].kids);
      RootsAreIds(ts[1..]);
      assert top in [top] && top.id in Ids([top]);
      OwnedUnderTop(top, kids);
      IdsAppend([top], kids);
      OwnedBeside([top] + kids, [top.id], rest, Roots(ts[1..]));
    }
  }

  lemma {:induction false} PathFromParent(cs: seq<Component>, parent: string, child: string, to: string)
    requires Refers(cs, parent, child) && Reachable(cs, child, to)
    ensures Reachable(cs, parent, to)
  {
    var path :| IsPath(cs, path) && path[0] == child && path[|path| - 1] == to;
    var longer := [parent] + path;
    forall i | 0 <= i < |longer| - 1 ensures Refers(cs, longer[i], longer[i + 1]) {
      if i > 0 {
        assert longer[i] == path[i - 1] && longer[i + 1] == path[i];
      }
    }
    assert IsPath(cs, longer);
  }

  /** Every component of a forest is reachable from one of its roots. */
  lemma {:induction false} ForestIsReachable(cs: seq<Component>, ts: seq<Tree>, c: Component)
    requires forall d :: d in Flatten(ts) ==> d in cs
    requires c in Flatten(ts)
    ensures exists r :: r in Roots(ts) && Reachable(cs, r, c.id)
  {
    var top, kids, rest := Top(ts[0]), Flatten(ts[0].kids), Flatten(ts[1..]);
    assert forall d :: d in Flatten(ts) <==> d == top || d in kids || d in rest;
    if c == top {
      assert IsPath(cs, [top.id]);
      assert top.id in Roots(ts);
    } else if c in kids {
      ForestIsReachable(cs, ts[0].kids, c);
      var r :| r in Roots(ts[0].kids) && Reachable(cs, r, c.id);
      assert top in cs && r in top.children;
      PathFromParent(cs, top.id, r, c.id);
      assert top.id in Roots(ts);
    } else {
      ForestIsReachable(cs, ts[1..], c);
    }
  }

  lemma {:induction false} OwnedByRoot(cs: seq<Component>, root: string)
    requires Owned(cs, [root])
    ensures OneParent(cs, root)
  {
    assert root in [root];
  }

  lemma {:induction false} TreeHasOneParent(t: Tree)
    requires DistinctIds(Flatten([t]))
    ensures OneParent(Flatten([t]), t.id) && t.id in Ids(Flatten([t])) && Roots([t]) == [t.id]
  {
    ForestHasOneParent([t]);
    assert Roots([t]) == [t.id] by {
      assert [t][1..] == [];
    }
    assert Flatten([t])[0] == Top(t);
    assert Top(t) in Flatten([t]);
    OwnedByRoot(Flatten([t]), t.id);
  }

  /** Any arrangement of a tree's components is well formed if its ids are distinct. */
  lemma {:induction false} TreeIsWellFormed(t: Tree, s: Surface)
    requires s.root == t.id
    requires DistinctIds(Flatten([t])) && DistinctIds(s.components)
    requires forall c :: c in s.components <==> c in Flatten([t])
    ensures WellFormed(s)
  {
    TreeHasOneParent(t);
    assert Ids(s.components) == Ids(Flatten([t]));
    forall c | c in s.components
      ensures Reachable(s.components, s.root, c.id)
    {
      ForestIsReachable(s.components, [t], c);
    }
  }

  // ---------------------------------------------------------------- numbered names

  function Digit(n: nat): char
    requires n < 10
  {
    "0123456789"[n]
  }

  /** `str(n)`. */
  function Digits(n: nat): (s: string)
    ensures s != ""
  {
    (if n < 10 then "" else Digits(n / 10)) + [Digit(n % 10)]
  }

  /** What a string of decimal digits says. */
  function Decimal(s: string): int {
    if s == "" then 0
    else
      var last := s[|s| - 1];
      Decimal(s[..|s| - 1]) * 10 + (last as int - '0' as int)
  }

  lemma {:induction false} DecimalOneMore(s: string, c: char)
    ensures Decimal(s + [c]) == Decimal(s) * 10 + (c as int - '0' as int)
  {
    assert (s + [c])[..|s|] == s;
  }

  lemma {:induction false} DigitIs(d: nat)
    requires d < 10
    ensures Digit(d) as int == '0' as int + d
  {
  }

  /** The digits of a number say it, and there is no zero in front. */
  lemma {:induction false} DigitsExact(n: nat)
    ensures Decimal(Digits(n)) == n
    ensures n > 0 ==> Digits(n)[0] != '0'
  {
    DigitIs(n % 10);
    if n < 10 {
      DecimalOneMore("", Digit(n));
      assert Digits(n) == "" + [Digit(n)];
    } else {
      DigitsExact(n / 10);
      DecimalOneMore(Digits(n / 10), Digit(n % 10));
    }
  }

  lemma {:induction false} DigitsHaveNoDash(n: nat)
    ensures '-' !in Digits(n)
  {
    if n >= 10 {
      DigitsHaveNoDash(n / 10);
    }
  }

  lemma {:induction false} DigitsInjective(m: nat, n: nat)
    requires Digits(m) == Digits(n)
    ensures m == n
  {
    var s := Digits(m);
    assert s[|s| - 1] == Digit(m % 10) == Digit(n % 10);
    var front := s[..|s| - 1];
    assert front == (if m < 10 then "" else Digits(m / 10)) == (if n < 10 then "" else Digits(n / 10));
    if m >= 10 && n >= 10 {
      DigitsInjective(m / 10, n / 10);
    }
  }

  function Name(prefix: string, n: nat): string {
    prefix + Digits(n)
  }

  function Numbered(prefix: string, n: nat, suffix: string): string {
    Name(prefix, n) + "-" + suffix
  }

  lemma {:induction false} NameInjective(prefix: string, m: nat, n: nat)
    requires Name(prefix, m) == Name(prefix, n)
    ensures m == n
  {
    assert Digits(m) == Name(prefix, m)[|prefix|..] == Digits(n);
    DigitsInjective(m, n);
  }

  lemma {:induction false} DashPosition(x: string, a: string, y: string, b: string)
    requires x + "-" + a == y + "-" + b && '-' !in x
    ensures |x| <= |y|
  {
    var s := x + "-" + a;
    assert s == y + "-" + b;
    assert s[|y|] == '-';
    assert forall i :: 0 <= i < |x| ==> s[i] == x[i] && x[i] in x;
  }

  lemma {:induction false} NumberedInjective(prefix: string, m: nat, a: string, n: nat, b: string)
    requires '-' !in prefix && Numbered(prefix, m, a) == Numbered(prefix, n, b)
    ensures m == n && a == b
  {
    var x, y := Name(prefix, m), Name(prefix, n);
    var s := Numbered(prefix, m, a);
    assert s == x + "-" + a == y + "-" + b;
    DigitsHaveNoDash(m);
    DigitsHaveNoDash(n);
    DashPosition(x, a, y, b);
    DashPosition(y, b, x, a);
    assert x == s[..|x|] == y && a == s[|x| + 1..] == b;
    NameInjective(prefix, m, n);
  }
}
