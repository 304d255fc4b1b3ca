/** An agent's newest conversation threads, from two limited queries merged in memory. */
module Conversations {
  import opened Common

  datatype Thread = Thread(id: string, sender: string, receiver: string, updated: int)

  function Sent(table: set<Thread>, agent: string): set<Thread> {
    set t | t in table && t.sender == agent
  }

  function Received(table: set<Thread>, agent: string): set<Thread> {
    set t | t in table && t.receiver == agent
  }

  predicate UniqueIds(table: set<Thread>) {
    forall s, t :: s in table && t in table && s.id == t.id ==> s == t
  }

  function Elements(s: seq<Thread>): set<Thread> {
    set t | t in s
  }

  predicate NewestFirst(s: seq<Thread>) {
    forall i, j :: 0 <= i < j < |s| ==> s[i].updated >= s[j].updated
  }

  predicate DistinctIds(s: seq<Thread>) {
    forall i, j :: 0 <= i < j < |s| ==> s[i].id != s[j].id
  }

  function Min(a: nat, b: nat): nat {
    if a < b then a else b
  }

  /** `rows` are `limit` newest members of `all`, ties broken arbitrarily. */
  ghost predicate IsTop(all: set<Thread>, limit: nat, rows: seq<Thread>) {
    && NewestFirst(rows) && DistinctIds(rows)
    && Elements(rows) <= all && |rows| == Min(limit, |all|)
    && forall x, y :: x in all && x !in rows && y in rows ==> x.updated <= y.updated
  }

  /** What a query is about: nothing, when it fails, since that counts as no rows. */
  function Reached(all: set<Thread>, rows: Option<seq<Thread>>): set<Thread> {
    if rows.Some? then all else {}
  }

  function Rows(rows: Option<seq<Thread>>): seq<Thread> {
    if rows.Some? then rows.value else []
  }

  // ---------------------------------------------------------------- the stable sort

  /** Where the first `n` of a list take one more: after the last that is as new. */
  function Slot(s: seq<Thread>, t: Thread, n: nat): (i: nat)
    requires n <= |s|
    ensures i <= n
  {
    if n == 0 || s[n - 1].updated >= t.updated then n else Slot(s, t, n - 1)
  }

  function Inserted(s: seq<Thread>, t: Thread): seq<Thread> {
    var i := Slot(s, t, |s|);
    s[..i] + [t] + s[i..]
  }

  function Sorted(s: seq<Thread>): seq<Thread> {
    if s == [] then [] else Inserted(Sorted(s[..|s| - 1]), s[|s| - 1])
  }

  /** The elements of one timestamp, in order. */
  function Tied(s: seq<Thread>, at: int): seq<Thread> {
    if s == [] then []
    else Tied(s[..|s| - 1], at) + if s[|s| - 1].updated == at then [s[|s| - 1]] else []
  }

  lemma {:induction false} TiedConcat(a: seq<Thread>, b: seq<Thread>, at: int)
    ensures Tied(a + b, at) == Tied(a, at) + Tied(b, at)
  {
    if b == [] {
      assert a + b == a;
    } else {
      assert (a + b)[..|a + b| - 1] == a + b[..|b| - 1];
      TiedConcat(a, b[..|b| - 1], at);
    }
  }

  lemma {:induction false} TiedOfNone(s: seq<Thread>, at: int)
    requires forall t :: t in s ==> t.updated != at
    ensures Tied(s, at) == []
  {
    if s != [] {
      assert s[|s| - 1] in s;
      TiedOfNone(s[..|s| - 1], at);
    }
  }

  lemma {:induction false} SlotSplits(s: seq<Thread>, t: Thread, n: nat)
    requires n <= |s| && NewestFirst(s)
    ensures forall j :: 0 <= j < Slot(s, t, n) ==> s[j].updated >= t.updated
    ensures forall j :: Slot(s, t, n) <= j < n ==> s[j].updated < t.updated
  {
    if n > 0 && s[n - 1].updated < t.updated {
      SlotSplits(s, t, n - 1);
    }
  }

  lemma {:induction false} InsertedIsSorted(s: seq<Thread>, t: Thread)
    requires NewestFirst(s)
    ensures NewestFirst(Inserted(s, t))
  {
    SlotSplits(s, t, |s|);
  }

  lemma {:induction false} InsertedContents(s: seq<Thread>, t: Thread)
    ensures multiset(Inserted(s, t)) == multiset(s + [t])
  {
    var i := Slot(s, t, |s|);
    assert s == s[..i] + s[i..];
    assert multiset(s) == multiset(s[..i]) + multiset(s[i..]);
  }

  lemma {:induction false} SwapEmpty(a: seq<Thread>, x: seq<Thread>, b: seq<Thread>)
    requires x == [] || b == []
    ensures a + x + b == a + b + x
  {
  }

  lemma {:induction false} InsertedTies(s: seq<Thread>, t: Thread, at: int)
    requires NewestFirst(s)
    ensures Tied(Inserted(s, t), at) == Tied(s + [t], at)
  {
    var i := Slot(s, t, |s|);
    SlotSplits(s, t, |s|);
    if t.updated == at {
      TiedOfNone(s[i..], at);
    } else {
      TiedOfNone([t], at);
    }
    assert s == s[..i] + s[i..];
    TiesInserted(s[..i], s[i..], t, at);
  }

  lemma {:induction false} TiesInserted(front: seq<Thread>, back: seq<Thread>, t: Thread, at: int)
    requires Tied([t], at) == [] || Tied(back, at) == []
    ensures Tied(front + [t] + back, at) == Tied(front + back + [t], at)
  {
    TiedConcat(front + [t], back, at);
    TiedConcat(front, [t], at);
    TiedConcat(front + back, [t], at);
    TiedConcat(front, back, at);
    SwapEmpty(Tied(front, at), Tied([t], at), Tied(back, at));
  }

  /** Newest first, a permutation, and stable: equal timestamps keep their order. */
  lemma {:induction false} SortedIsStable(s: seq<Thread>, at: int)
    ensures NewestFirst(Sorted(s)) && multiset(Sorted(s)) == multiset(s)
    ensures Tied(Sorted(s), at) == Tied(s, at)
  {
    if s != [] {
      var init, last := s[..|s| - 1], s[|s| - 1];
      SortedIsStable(init, at);
      InsertedIsSorted(Sorted(init), last);
      InsertedContents(Sorted(init), last);
      InsertedTies(Sorted(init), last, at);
      assert s == init + [last];
      TiedConcat(init, [last], at);
      TiedConcat(Sorted(init), [last], at);
    }
  }

  // ---------------------------------------------------------------- merge, deduplicate, cut

  method SortNewestFirst(s: seq<Thread>) returns (r: seq<Thread>)
    ensures r == Sorted(s)
  {
    r := [];
    for n := 0 to |s|
      invariant r == Sorted(s[..n])
    {
      assert s[..n + 1][..n] == s[..n];
      var i := |r|;
      while i > 0 && r[i - 1].updated < s[n].updated
        invariant 0 <= i <= |r| && Slot(r, s[n], |r|) == Slot(r, s[n], i)
      {
        i := i - 1;
      }
      r := r[..i] + [s[n]] + r[i..];
    }
    assert s[..|s|] == s;
  }

  function Ids(s: seq<Thread>): set<string> {
    set t | t in s :: t.id
  }

  lemma {:induction false} NewIdAppends(s: seq<Thread>, t: Thread)
    requires DistinctIds(s) && t.id !in Ids(s)
    ensures DistinctIds(s + [t])
  {
    forall i | 0 <= i < |s| ensures s[i].id != t.id {
      assert s[i] in s;
    }
  }

  lemma {:induction false} SeenIdIsThere(s: seq<Thread>, t: Thread, all: set<Thread>)
    requires UniqueIds(all) && Elements(s) <= all && t in all && t.id in Ids(s)
    ensures t in s
  {
    var u :| u in s && u.id == t.id;
    assert u in Elements(s);
  }

  /** What is left when a thread whose id came earlier is passed over. */
  function FirstOfEach(s: seq<Thread>): seq<Thread> {
    if s == [] then []
    else
      var before, t := FirstOfEach(s[..|s| - 1]), s[|s| - 1];
      if t.id in Ids(before) then before else before + [t]
  }

  /** It has one of each id, in the same order, and leaves out no thread. */
  lemma {:induction false} FirstOfEachIs(s: seq<Thread>)
    requires UniqueIds(Elements(s)) && NewestFirst(s)
    ensures DistinctIds(FirstOfEach(s)) && NewestFirst(FirstOfEach(s)) && Elements(FirstOfEach(s)) == Elements(s)
  {
    if s != [] {
      var init, t := s[..|s| - 1], s[|s| - 1];
      assert s == init + [t] && Elements(s) == Elements(init) + {t};
      FirstOfEachIs(init);
      var before := FirstOfEach(init);
      if t.id in Ids(before) {
        SeenIdIsThere(before, t, Elements(s));
      } else {
        NewIdAppends(before, t);
        assert Elements(before + [t]) == Elements(before) + {t};
        NotNewer(before, init, t);
      }
    }
  }

  lemma {:induction false} NotNewer(before: seq<Thread>, init: seq<Thread>, t: Thread)
    requires NewestFirst(init + [t]) && NewestFirst(before) && Elements(before) == Elements(init)
    ensures NewestFirst(before + [t])
  {
    forall i | 0 <= i < |before|
      ensures before[i].updated >= t.updated
    {
      assert before[i] in Elements(before) && before[i] in init;
      var j :| 0 <= j < |init| && init[j] == before[i];
      assert (init + [t])[j] == init[j] && (init + [t])[|init|] == t;
    }
  }

  method Deduplicated(all: seq<Thread>) returns (unique: seq<Thread>)
    ensures unique == FirstOfEach(all)
  {
    var seen := {};
    unique := [];
    for i := 0 to |all|
      invariant seen == Ids(unique) && unique == FirstOfEach(all[..i])
    {
      var t := all[i];
      assert all[..i + 1][..i] == all[..i];
      if t.id !in seen {
        IdsOneMore(unique, t);
        seen := seen + {t.id};
        unique := unique + [t];
      }
    }
    assert all[..|all|] == all;
  }

  lemma {:induction false} IdsOneMore(s: seq<Thread>, t: Thread)
    ensures Ids(s + [t]) == Ids(s) + {t.id}
  {
    assert forall x :: x in s + [t] <==> x in s || x == t;
  }

  lemma {:induction false} ElementsSize(s: seq<Thread>)
    requires DistinctIds(s)
    ensures |Elements(s)| == |s|
  {
    if s != [] {
      var init, last := s[..|s| - 1], s[|s| - 1];
      ElementsSize(init);
      assert Elements(s) == Elements(init) + {last};
      assert last !in init;
    }
  }

  /** A query that did not fill its limit returned everything. */
  lemma {:induction false} ShortIsAll(all: set<Thread>, limit: nat, rows: seq<Thread>)
    requires IsTop(all, limit, rows) && |rows| < limit
    ensures Elements(rows) == all
  {
    ElementsSize(rows);
    forall x | x in all
      ensures x in Elements(rows)
    {
      if x !in Elements(rows) {
        SubsetSize(Elements(rows), all - {x});
      }
    }
  }

  /** A thread one query left out is no newer than any of the first `limit` of the merge. */
  lemma {:induction false} LeftOutIsOlder(
      all: set<Thread>, limit: nat, rows: seq<Thread>, unique: seq<Thread>, x: Thread, j: nat)
    requires IsTop(all, limit, rows) && x in all && x !in rows
    requires DistinctIds(unique) && NewestFirst(unique) && Elements(rows) <= Elements(unique)
    requires j < |unique| && j < limit
    ensures x.updated <= unique[j].updated
  {
    assert x !in Elements(rows);
    if |rows| < limit {
      ShortIsAll(all, limit, rows);
    } else if unique[j].updated < x.updated {
      forall r | r in rows
        ensures r in Elements(unique[..j])
      {
        assert r in Elements(unique);
        var i :| 0 <= i < |unique| && unique[i] == r;
        assert unique[..j][i] == r;
      }
      assert Elements(rows) <= Elements(unique[..j]);
      SubsetSize(Elements(rows), Elements(unique[..j]));
      ElementsSize(rows);
      ElementsSize(unique[..j]);
    }
  }

  /** What a sorted, duplicate-free merge of two answers has past its limit is everything. */
  lemma {:induction false} MergedSize(
      a: set<Thread>, b: set<Thread>, limit: nat, sent: seq<Thread>, received: seq<Thread>, unique: seq<Thread>)
    requires IsTop(a, limit, sent) && IsTop(b, limit, received) && DistinctIds(unique)
    requires Elements(unique) == Elements(sent) + Elements(received)
    ensures Min(limit, |unique|) == Min(limit, |a + b|)
  {
    ElementsSize(unique);
    ElementsSize(sent);
    ElementsSize(received);
    SubsetSize(Elements(sent), Elements(unique));
    SubsetSize(Elements(received), Elements(unique));
    SubsetSize(Elements(unique), a + b);
    if |unique| < limit {
      ShortIsAll(a, limit, sent);
      ShortIsAll(b, limit, received);
    }
  }

  lemma {:induction false} AfterTheCut(unique: seq<Thread>, n: nat, x: Thread, j: nat)
    requires NewestFirst(unique) && n <= |unique| && j < n && x in unique && x !in unique[..n]
    ensures x.updated <= unique[j].updated
  {
    assert unique == unique[..n] + unique[n..];
    var i :| 0 <= i < |unique[n..]| && unique[n..][i] == x;
    assert unique[n + i] == x;
  }

  /** The first `limit` of a sorted, duplicate-free merge are the newest of everything. */
  lemma {:induction false} TopOfTops(
      a: set<Thread>, b: set<Thread>, limit: nat, sent: seq<Thread>, received: seq<Thread>, unique: seq<Thread>)
    requires IsTop(a, limit, sent) && IsTop(b, limit, received)
    requires DistinctIds(unique) && NewestFirst(unique)
    requires Elements(unique) == Elements(sent) + Elements(received)
    ensures IsTop(a + b, limit, unique[..Min(limit, |unique|)])
  {
    var n := Min(limit, |unique|);
    var cut := unique[..n];
    MergedSize(a, b, limit, sent, received, unique);
    assert Elements(cut) <= Elements(unique);
    forall x, y | x in a + b && x !in cut && y in cut
      ensures x.updated <= y.updated
    {
      var j :| 0 <= j < n && cut[j] == y;
      LeftOut(a, b, limit, sent, received, unique, x, j);
    }
  }

  lemma {:induction false} LeftOut(
      a: set<Thread>, b: set<Thread>, limit: nat, sent: seq<Thread>, received: seq<Thread>, unique: seq<Thread>,
      x: Thread, j: nat)
    requires IsTop(a, limit, sent) && IsTop(b, limit, received)
    requires DistinctIds(unique) && NewestFirst(unique)
    requires Elements(unique) == Elements(sent) + Elements(received)
    requires x in a + b && j < |unique| && j < limit && x !in unique[..Min(limit, |unique|)]
    ensures x.updated <= unique[j].updated
  {
    if x in unique {
      AfterTheCut(unique, Min(limit, |unique|), x, j);
    } else {
      assert x !in Elements(unique);
      assert x !in sent && x !in received by {
        assert x !in Elements(sent) && x !in Elements(received);
      }
      if x in a {
        LeftOutIsOlder(a, limit, sent, unique, x, j);
      } else {
        LeftOutIsOlder(b, limit, received, unique, x, j);
      }
    }
  }

  /** `get_threads`: of all the agent's threads (of one direction only if the other query
      fails), the `limit` newest, each once, newest first. */
  method GetThreads(
      table: set<Thread>, agent: string, limit: nat, sent: Option<seq<Thread>>, received: Option<seq<Thread>>)
    returns (threads: seq<Thread>)
    requires UniqueIds(table)
    requires IsTop(Reached(Sent(table, agent), sent), limit, Rows(sent))
    requires IsTop(Reached(Received(table, agent), received), limit, Rows(received))
    ensures var all := set t | t in table && ((sent.Some? && t.sender == agent) || (received.Some? && t.receiver == agent));
            IsTop(all, limit, threads)
    ensures threads <= FirstOfEach(Sorted(Rows(sent) + Rows(received)))
  {
    ghost var a, b := Reached(Sent(table, agent), sent), Reached(Received(table, agent), received);
    assert a + b <= table;
    ReachedAre(table, agent, sent, received);
    var merged := Rows(sent) + Rows(received);
    var all := SortNewestFirst(merged);
    SortedIsStable(merged, 0);
    SameElements(all, merged);
    MergedElements(Rows(sent), Rows(received), a, b);
    var unique := Deduplicated(all);
    FirstOfEachIs(all);
    TopOfTops(a, b, limit, Rows(sent), Rows(received), unique);
    threads := unique[..Min(limit, |unique|)];
  }

  lemma {:induction false} ReachedAre(
      table: set<Thread>, agent: string, sent: Option<seq<Thread>>, received: Option<seq<Thread>>)
    ensures Reached(Sent(table, agent), sent) + Reached(Received(table, agent), received)
         == set t | t in table && ((sent.Some? && t.sender == agent) || (received.Some? && t.receiver == agent))
  {
  }

  lemma {:induction false} MergedElements(s: seq<Thread>, t: seq<Thread>, a: set<Thread>, b: set<Thread>)
    requires UniqueIds(a + b) && Elements(s) <= a && Elements(t) <= b
    ensures Elements(s + t) == Elements(s) + Elements(t) && UniqueIds(Elements(s + t))
  {
    assert Elements(s + t) <= a + b;
  }

  lemma {:induction false} SameElements(s: seq<Thread>, t: seq<Thread>)
    requires multiset(s) == multiset(t)
    ensures Elements(s) == Elements(t)
  {
    forall x ensures x in s <==> x in t {
      assert x in multiset(s) <==> x in multiset(t);
    }
  }
}
