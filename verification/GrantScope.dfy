/** What a grant's scope covers: the rule the database applies, the Python mirror of it,
    and the check made when a scope is issued. */
module GrantScope {
  import opened Text

  datatype ScopeCheck = Refused | Accepted(scope: string)

  /** A literal action key, or a non-empty prefix followed by one final '*'. */
  predicate WellFormedScope(s: string) {
    && s != ""
    && (forall i :: 0 <= i < |s| - 1 ==> s[i] != '*')
    && (s[|s| - 1] == '*' ==> |s| > 1)
  }

  function ValidateScope(scope: string): ScopeCheck {
    var s := Strip(scope);
    if s == "" || s == "*" || !WellFormedScope(s) then Refused else Accepted(s)
  }

  /** Accepted is what is left without the white space around it, and that exactly for a literal
      with no star in it, or a non-empty prefix with none and one star at the end. */
  lemma {:induction false} ScopeAcceptedIff(scope: string, core: string, s: string)
    requires IsCore(scope, core)
    ensures ValidateScope(scope) == Accepted(s) <==> s == core && exists p :: p != "" && '*' !in p && SpelledWith(core, p)
  {
    StripIsCore(scope, core);
    if core != "" {
      var front := core[..|core| - 1];
      if WellFormedScope(core) {
        assert '*' !in front && core == front + [core[|core| - 1]];
        if core[|core| - 1] == '*' {
          assert SpelledWith(core, front);
        } else {
          assert '*' !in core && SpelledWith(core, core);
        }
      }
      if p :| p != "" && '*' !in p && SpelledWith(core, p) {
        assert forall i :: 0 <= i < |p| ==> core[i] == p[i] && p[i] in p;
      }
    }
  }

  predicate SpelledWith(s: string, p: string) {
    s == p || s == p + "*"
  }

  predicate IsPrefixScope(scope: string) {
    scope != "" && scope[|scope| - 1] == '*'
  }

  function PrefixOf(scope: string): string
    requires IsPrefixScope(scope)
  {
    scope[..|scope| - 1]
  }

  /** The mirror: `action_key.startswith(prefix)` or equality. */
  predicate Matches(scope: string, key: string) {
    if IsPrefixScope(scope) then PrefixOf(scope) <= key else scope == key
  }

  /** SQL `LIKE` with the default escape character. */
  predicate Like(pattern: string, s: string)
    decreases |pattern| + |s|
  {
    if pattern == "" then s == ""
    else if pattern[0] == '%' then Like(pattern[1..], s) || (s != "" && Like(pattern, s[1..]))
    else if pattern[0] == '_' then s != "" && Like(pattern[1..], s[1..])
    else if pattern[0] == '\\' then
      |pattern| > 1 && s != "" && s[0] == pattern[1] && Like(pattern[2..], s[1..])
    else s != "" && s[0] == pattern[0] && Like(pattern[1..], s[1..])
  }

  /** The condition in `consume_operational_grant`. */
  predicate Covers(scope: string, key: string) {
    (IsPrefixScope(scope) && Like(PrefixOf(scope) + "%", key)) || scope == key
  }

  predicate IsMeta(c: char) {
    c == '%' || c == '_' || c == '\\'
  }

  predicate Plain(s: string) {
    forall i :: 0 <= i < |s| ==> !IsMeta(s[i])
  }

  predicate AllPercent(s: string) {
    forall i :: 0 <= i < |s| ==> s[i] == '%'
  }

  // ---------------------------------------------------------------- the LIKE rule

  lemma {:induction false} PercentMatchesAll(s: string)
    ensures Like("%", s)
  {
    if s != "" {
      PercentMatchesAll(s[1..]);
    } else {
      assert "%"[1..] == "";
    }
  }

  lemma {:induction false} PlainIsPrefix(p: string, s: string)
    requires Plain(p)
    ensures Like(p + "%", s) <==> p <= s
  {
    if p == "" {
      PercentMatchesAll(s);
      assert p + "%" == "%";
    } else {
      assert (p + "%")[1..] == p[1..] + "%";
      if s != "" && s[0] == p[0] {
        PlainIsPrefix(p[1..], s[1..]);
        assert p == [p[0]] + p[1..] && s == [s[0]] + s[1..];
      }
    }
  }

  lemma {:induction false} EmptyMatchesOnlyPercents(p: string)
    ensures Like(p, "") <==> AllPercent(p)
  {
    if p != "" && p[0] == '%' {
      EmptyMatchesOnlyPercents(p[1..]);
      assert forall i :: 0 < i < |p| ==> p[i] == p[1..][i - 1];
    }
  }

  lemma {:induction false} PercentsMatchAll(p: string, s: string)
    requires AllPercent(p) && p != ""
    ensures Like(p, s)
  {
    if |p| == 1 {
      assert p == "%";
      PercentMatchesAll(s);
    } else {
      PercentsMatchAll(p[1..], s);
    }
  }

  /** A string the pattern `p + "%"` matches, no longer than `p`: each wildcard gives up
      its own character. */
  function Sample(p: string): (s: string)
    ensures |s| <= |p|
  {
    if p == "" then ""
    else if p[0] == '%' then Sample(p[1..])
    else if p[0] == '_' then "x" + Sample(p[1..])
    else if p[0] == '\\' then (if |p| > 1 then [p[1]] + Sample(p[2..]) else "%")
    else [p[0]] + Sample(p[1..])
  }

  lemma {:induction false} SampleMatches(p: string)
    ensures Like(p + "%", Sample(p))
  {
    var q, s := p + "%", Sample(p);
    if p == "" {
      PercentMatchesAll("");
      assert q == "%";
    } else {
      assert q[1..] == p[1..] + "%";
      if p[0] == '\\' && |p| > 1 {
        assert q[2..] == p[2..] + "%" && s[1..] == Sample(p[2..]);
        SampleMatches(p[2..]);
      } else if p[0] == '\\' {
        assert q[2..] == "" && s[1..] == "";
      } else {
        SampleMatches(p[1..]);
        if p[0] != '%' {
          assert s[1..] == Sample(p[1..]);
        }
      }
    }
  }

  lemma {:induction false} SampleIsNotPrefixed(p: string)
    requires !Plain(p)
    ensures !(p <= Sample(p))
  {
    var s := Sample(p);
    if !IsMeta(p[0]) {
      assert !Plain(p[1..]);
      SampleIsNotPrefixed(p[1..]);
      assert s[1..] == Sample(p[1..]);
      PrefixTail(p, s);
    }
  }

  lemma {:induction false} PrefixTail(p: string, s: string)
    ensures p != "" && p <= s ==> s != "" && p[1..] <= s[1..]
  {
  }

  // ---------------------------------------------------------------- main results

  /** The mirror is the database rule exactly for scopes whose prefix holds no LIKE
      metacharacter. */
  lemma {:induction false} MirrorAgreesIff(scope: string)
    requires WellFormedScope(scope)
    ensures (forall key: string :: Matches(scope, key) <==> Covers(scope, key))
       <==> (IsPrefixScope(scope) ==> Plain(PrefixOf(scope)))
  {
    if IsPrefixScope(scope) {
      var p := PrefixOf(scope);
      if Plain(p) {
        forall key: string
          ensures Matches(scope, key) <==> Covers(scope, key)
        {
          PlainIsPrefix(p, key);
        }
      } else {
        SampleMatches(p);
        SampleIsNotPrefixed(p);
        assert Covers(scope, Sample(p)) && !Matches(scope, Sample(p));
      }
    } else {
      assert forall key: string :: Matches(scope, key) <==> Covers(scope, key);
    }
  }

  /** An accepted scope leaves some action key out of the mirror's reading, always. */
  lemma {:induction false} AcceptedScopeExcludesSome(text: string) returns (key: string)
    requires ValidateScope(text).Accepted?
    ensures !Matches(ValidateScope(text).scope, key)
  {
    var scope := ValidateScope(text).scope;
    key := if IsPrefixScope(scope) then "" else scope + "x";
    assert |scope + "x"| > |scope|;
  }

  /** In the database's reading it does so unless its prefix is nothing but percent signs,
      which `ValidateScope` does not refuse. */
  lemma {:induction false} AcceptedScopeCoversAllIff(text: string)
    requires ValidateScope(text).Accepted?
    ensures var scope := ValidateScope(text).scope;
            (forall key: string :: Covers(scope, key))
            <==> IsPrefixScope(scope) && AllPercent(PrefixOf(scope))
  {
    var scope := ValidateScope(text).scope;
    if IsPrefixScope(scope) {
      var pattern := PrefixOf(scope) + "%";
      EmptyMatchesOnlyPercents(pattern);
      if AllPercent(PrefixOf(scope)) {
        forall key: string
          ensures Covers(scope, key)
        {
          PercentsMatchAll(pattern, key);
        }
      } else {
        var i :| 0 <= i < |PrefixOf(scope)| && PrefixOf(scope)[i] != '%';
        assert pattern[i] != '%';
        assert !Covers(scope, "");
      }
    } else {
      assert !Covers(scope, scope + "x") by {
        assert |scope + "x"| > |scope|;
      }
    }
  }

  /** The scope "%*" is accepted and covers every key. */
  lemma {:induction false} PercentScopeCoversAll(key: string)
    ensures ValidateScope("%*") == Accepted("%*")
    ensures Covers("%*", key)
  {
    StripOfTrimmed("%*");
    assert PrefixOf("%*") + "%" == "%%";
    PercentsMatchAll("%%", key);
  }
}
