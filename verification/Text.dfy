/** The few string operations the modelled Python code relies on. */
module Text {

  /** Python's `str.isspace` for one character. */
  predicate IsSpace(c: char) {
    || '\U{0009}' <= c <= '\U{000D}'
    || '\U{001C}' <= c <= '\U{0020}'
    || c in {'\U{0085}', '\U{00A0}', '\U{1680}', '\U{2028}', '\U{2029}', '\U{202F}', '\U{205F}', '\U{3000}'}
    || '\U{2000}' <= c <= '\U{200A}'
  }

  function StripLeft(s: string): string {
    if s != "" && IsSpace(s[0]) then StripLeft(s[1..]) else s
  }

  function StripRight(s: string): string {
    if s != "" && IsSpace(s[|s| - 1]) then StripRight(s[..|s| - 1]) else s
  }

  /** `s.strip()`. */
  function Strip(s: string): string {
    StripRight(StripLeft(s))
  }

  /** `s.rstrip("/")`. */
  function StripSlashes(s: string): string {
    if s != "" && s[|s| - 1] == '/' then StripSlashes(s[..|s| - 1]) else s
  }

  predicate Blank(s: string) {
    Strip(s) == ""
  }

  /** Nothing to strip at either end. */
  predicate Trimmed(s: string) {
    s == "" || (!IsSpace(s[0]) && !IsSpace(s[|s| - 1]))
  }

  lemma {:induction false} StripRightKeepsHead(s: string)
    ensures StripRight(s) <= s
    ensures StripRight(s) == "" || !IsSpace(StripRight(s)[|StripRight(s)| - 1])
  {
    if s != "" && IsSpace(s[|s| - 1]) {
      StripRightKeepsHead(s[..|s| - 1]);
    }
  }

  lemma {:induction false} StripLeftHead(s: string)
    ensures StripLeft(s) == "" || !IsSpace(StripLeft(s)[0])
  {
    if s != "" && IsSpace(s[0]) {
      StripLeftHead(s[1..]);
    }
  }

  lemma {:induction false} StripTrims(s: string)
    ensures Trimmed(Strip(s))
  {
    StripLeftHead(s);
    StripRightKeepsHead(StripLeft(s));
  }

  lemma {:induction false} StripOfTrimmed(s: string)
    requires Trimmed(s)
    ensures Strip(s) == s
  {
  }

  predicate AllSpace(s: string) {
    forall i :: 0 <= i < |s| ==> IsSpace(s[i])
  }

  lemma {:induction false} StripLeftDrops(s: string) returns (a: string)
    ensures s == a + StripLeft(s) && AllSpace(a)
  {
    if s != "" && IsSpace(s[0]) {
      a := StripLeftDrops(s[1..]);
      a := [s[0]] + a;
      assert s == [s[0]] + s[1..];
    } else {
      a := "";
    }
  }

  lemma {:induction false} StripRightDrops(s: string) returns (b: string)
    ensures s == StripRight(s) + b && AllSpace(b)
  {
    if s != "" && IsSpace(s[|s| - 1]) {
      b := StripRightDrops(s[..|s| - 1]);
      b := b + [s[|s| - 1]];
      assert s == s[..|s| - 1] + [s[|s| - 1]];
    } else {
      b := "";
    }
  }

  /** Stripping drops white space at the two ends and nothing else. */
  lemma {:induction false} StripDropsSpace(s: string) returns (a: string, b: string)
    ensures s == a + Strip(s) + b && AllSpace(a) && AllSpace(b)
  {
    a := StripLeftDrops(s);
    b := StripRightDrops(StripLeft(s));
    assert a + (Strip(s) + b) == a + Strip(s) + b;
  }

  /** `c` is what is left of `s` between the white space at its two ends. */
  ghost predicate IsCore(s: string, c: string) {
    Trimmed(c) && exists a, b :: Padded(s, a, c, b)
  }

  ghost predicate Padded(s: string, a: string, c: string, b: string) {
    s == a + c + b && AllSpace(a) && AllSpace(b)
  }

  lemma {:induction false} StripLeftOfPadded(a: string, t: string)
    requires AllSpace(a) && (t == "" || !IsSpace(t[0]))
    ensures StripLeft(a + t) == t
  {
    if a == "" {
      assert a + t == t;
    } else {
      assert (a + t)[1..] == a[1..] + t && (a + t)[0] == a[0];
      StripLeftOfPadded(a[1..], t);
    }
  }

  lemma {:induction false} StripRightOfPadded(t: string, b: string)
    requires AllSpace(b) && (t == "" || !IsSpace(t[|t| - 1]))
    ensures StripRight(t + b) == t
  {
    if b == "" {
      assert t + b == t;
    } else {
      var u := t + b;
      assert u[..|u| - 1] == t + b[..|b| - 1] && u[|u| - 1] == b[|b| - 1];
      StripRightOfPadded(t, b[..|b| - 1]);
    }
  }

  /** There is one such core, and stripping finds it. */
  lemma {:induction false} StripIsCore(s: string, c: string)
    ensures Strip(s) == c <==> IsCore(s, c)
  {
    var a, b := StripDropsSpace(s);
    StripTrims(s);
    assert Padded(s, a, Strip(s), b);
    if IsCore(s, c) {
      var x, y :| Padded(s, x, c, y);
      if c == "" {
        assert AllSpace(s) && s == s + "";
        StripLeftOfPadded(s, "");
      } else {
        assert s == x + (c + y) && (c + y)[0] == c[0];
        StripLeftOfPadded(x, c + y);
        StripRightOfPadded(c, y);
      }
    }
  }

  /** Blank is nothing but white space. */
  lemma {:induction false} BlankIsAllSpace(s: string)
    ensures Blank(s) <==> AllSpace(s)
  {
    StripIsCore(s, "");
    if AllSpace(s) {
      assert Padded(s, s, "", "");
    }
  }

  lemma {:induction false} StripSlashesDrops(s: string) returns (b: string)
    ensures s == StripSlashes(s) + b && forall i :: 0 <= i < |b| ==> b[i] == '/'
    ensures StripSlashes(s) == "" || StripSlashes(s)[|StripSlashes(s)| - 1] != '/'
  {
    if s != "" && s[|s| - 1] == '/' {
      b := StripSlashesDrops(s[..|s| - 1]);
      b := b + "/";
      assert s == s[..|s| - 1] + "/";
    } else {
      b := "";
    }
  }
}
