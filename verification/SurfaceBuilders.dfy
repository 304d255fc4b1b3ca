/** The compound builders: loops that append to and insert into component lists. */
module SurfaceBuilders {
  import opened Common
  import opened Surfaces

  function OrElse(text: Option<string>, fallback: string): string {
    if text.Some? then text.value else fallback
  }

  /** A run of childless components with numbered ids. */
  function Leaves(prefix: string, kind: string, captions: seq<string>): seq<Tree> {
    if captions == [] then []
    else
      var n := |captions| - 1;
      Leaves(prefix, kind, captions[..n]) + [Node(Name(prefix, n), kind, captions[n], [])]
  }

  function Leaf(id: string, kind: string, caption: string): Tree {
    Node(id, kind, caption, [])
  }

  function Plain(id: string, kind: string, caption: string): Component {
    Component(id, kind, caption, [])
  }

  /** The ids of a run of leaves are its numbered names, each once. */
  lemma {:induction false} LeavesAreDistinct(prefix: string, kind: string, captions: seq<string>)
    ensures DistinctIds(Flatten(Leaves(prefix, kind, captions)))
    ensures forall x :: x in Ids(Flatten(Leaves(prefix, kind, captions)))
              ==> exists i :: 0 <= i < |captions| && x == Name(prefix, i)
  {
    if captions != [] {
      var n := |captions| - 1;
      var before, leaf := Leaves(prefix, kind, captions[..n]), Leaf(Name(prefix, n), kind, captions[n]);
      LeavesAreDistinct(prefix, kind, captions[..n]);
      FlattenAppend(before, [leaf]);
      FlattenOne(leaf);
      assert Flatten([leaf]) == [Top(leaf)];
      forall x | x in Ids(Flatten(before)) ensures x != leaf.id {
        var i :| 0 <= i < n && x == Name(prefix, i);
        if x == leaf.id {
          NameInjective(prefix, i, n);
        }
      }
      DistinctAppend(Flatten(before), [Top(leaf)]);
      IdsAppend(Flatten(before), [Top(leaf)]);
    }
  }

  lemma {:induction false} OneMoreInOrder(prefix: string, kind: string, captions: seq<string>, before: seq<Component>)
    requires captions != [] && |before| == |captions| - 1
    requires forall i :: 0 <= i < |before| ==> before[i] == Plain(Name(prefix, i), kind, captions[..|captions| - 1][i])
    ensures var cs := before + [Plain(Name(prefix, |before|), kind, captions[|before|])];
            forall i :: 0 <= i < |cs| ==> cs[i] == Plain(Name(prefix, i), kind, captions[i])
  {
  }

  /** Component `i` of a run is the one named after `i`, with caption `i`. */
  lemma {:induction false} LeavesInOrder(prefix: string, kind: string, captions: seq<string>)
    ensures var cs := Flatten(Leaves(prefix, kind, captions));
            |cs| == |captions|
            && forall i :: 0 <= i < |cs| ==> cs[i] == Plain(Name(prefix, i), kind, captions[i])
  {
    if captions != [] {
      var n := |captions| - 1;
      var before := Flatten(Leaves(prefix, kind, captions[..n]));
      LeavesInOrder(prefix, kind, captions[..n]);
      NextLeaf(prefix, kind, captions, n);
      assert captions[..n + 1] == captions;
      OneMoreInOrder(prefix, kind, captions, before);
    }
  }

  /** A loop over a run of leaves: the next name and component. */
  lemma {:induction false} NextLeaf(prefix: string, kind: string, captions: seq<string>, i: nat)
    requires i < |captions|
    ensures var before, after := Leaves(prefix, kind, captions[..i]), Leaves(prefix, kind, captions[..i + 1]);
            && Roots(after) == Roots(before) + [Name(prefix, i)]
            && Flatten(after) == Flatten(before) + [Plain(Name(prefix, i), kind, captions[i])]
  {
    var before, leaf := Leaves(prefix, kind, captions[..i]), Leaf(Name(prefix, i), kind, captions[i]);
    assert captions[..i + 1][..i] == captions[..i];
    RootsAppend(before, [leaf]);
    FlattenAppend(before, [leaf]);
    FlattenOne(leaf);
    assert [leaf][1..] == [];
  }

  /** The loop that numbers its components and collects their ids. */
  method AppendLeaves(prefix: string, kind: string, captions: seq<string>)
    returns (ids: seq<string>, components: seq<Component>)
    ensures ids == Roots(Leaves(prefix, kind, captions))
    ensures components == Flatten(Leaves(prefix, kind, captions))
  {
    ids, components := [], [];
    for i := 0 to |captions|
      invariant ids == Roots(Leaves(prefix, kind, captions[..i]))
      invariant components == Flatten(Leaves(prefix, kind, captions[..i]))
    {
      NextLeaf(prefix, kind, captions, i);
      ids := ids + [Name(prefix, i)];
      components := components + [Plain(Name(prefix, i), kind, captions[i])];
    }
    assert captions[..|captions|] == captions;
  }

  // ---------------------------------------------------------------- member cards

  function MemberTree(names: seq<string>): Tree {
    Node("root", "Column", "", Leaves("m", "MemberCard", names))
  }

  lemma {:induction false} MemberTreeIsDistinct(names: seq<string>)
    ensures DistinctIds(Flatten([MemberTree(names)]))
  {
    var kids := Leaves("m", "MemberCard", names);
    FlattenOne(MemberTree(names));
    LeavesAreDistinct("m", "MemberCard", names);
    forall x | x in Ids(Flatten(kids)) ensures x != "root" {
      var i :| 0 <= i < |names| && x == Name("m", i);
      assert x[0] == 'm';
    }
    DistinctAppend([Top(MemberTree(names))], Flatten(kids));
  }

  function MemberName(name: Option<string>): string {
    OrElse(name, "Unknown")
  }

  function MemberNames(members: seq<Option<string>>): seq<string> {
    seq(|members|, i requires 0 <= i < |members| => MemberName(members[i]))
  }

  /** Every member is shown, in order, on the card named after its position. */
  lemma {:induction false} MemberIsShown(members: seq<Option<string>>, i: nat)
    requires i < |members|
    ensures var cs := Flatten([MemberTree(MemberNames(members))]);
            && |cs| == |members| + 1
            && cs[i + 1] == Component("m" + Digits(i), "MemberCard",
                 if members[i].Some? then members[i].value else "Unknown", [])
  {
    var names := MemberNames(members);
    var leaves := Flatten(Leaves("m", "MemberCard", names));
    FlattenOne(MemberTree(names));
    LeavesInOrder("m", "MemberCard", names);
    assert Flatten([MemberTree(names)])[i + 1] == leaves[i];
  }

  /** One card per member under one root; no surface for no members. */
  method BuildMemberCards(members: seq<Option<string>>) returns (s: Option<Surface>)
    ensures s.None? <==> members == []
    ensures s.Some? ==> WellFormed(s.value)
    ensures s.Some? ==> s.value == Surface("members", "root", Flatten([MemberTree(MemberNames(members))]))
  {
    if members == [] {
      return None;
    }
    var names := MemberNames(members);
    var ids, components := AppendLeaves("m", "MemberCard", names);
    components := [Component("root", "Column", "", ids)] + components;
    MemberTreeIsDistinct(names);
    FlattenOne(MemberTree(names));
    var result := Surface("members", "root", components);
    TreeIsWellFormed(MemberTree(names), result);
    s := Some(result);
  }

  // ---------------------------------------------------------------- federation cards

  datatype Chapter = Chapter(name: Option<string>, status: Option<string>, focus: Option<string>, members: Option<string>)

  function Block(i: nat, fid: string, c: Chapter): Tree {
    Node(Numbered("f", i, "card"), "Card", "", [
      Node(Numbered("f", i, "col"), "Column", "", [
        Node(Numbered("f", i, "header"), "Row", "", [
          Leaf(Numbered("f", i, "name"), "Heading", OrElse(c.name, fid)),
          Leaf(Numbered("f", i, "status"), "Badge", OrElse(c.status, "unknown"))]),
        Leaf(Numbered("f", i, "focus"), "Badge", OrElse(c.focus, "General")),
        Leaf(Numbered("f", i, "stats"), "Stat", OrElse(c.members, "?"))])])
  }

  function BlockComponents(i: nat, fid: string, c: Chapter): seq<Component> {
    [ Component(Numbered("f", i, "card"), "Card", "", [Numbered("f", i, "col")]),
      Component(Numbered("f", i, "col"), "Column", "",
        [Numbered("f", i, "header"), Numbered("f", i, "focus"), Numbered("f", i, "stats")]),
      Component(Numbered("f", i, "header"), "Row", "", [Numbered("f", i, "name"), Numbered("f", i, "status")]),
      Plain(Numbered("f", i, "name"), "Heading", OrElse(c.name, fid)),
      Plain(Numbered("f", i, "status"), "Badge", OrElse(c.status, "unknown")),
      Plain(Numbered("f", i, "focus"), "Badge", OrElse(c.focus, "General")),
      Plain(Numbered("f", i, "stats"), "Stat", OrElse(c.members, "?"))]
  }

  const SUFFIXES := ["card", "col", "header", "name", "status", "focus", "stats"]

  lemma {:induction false} SuffixesAreDistinct()
    ensures Distinct(SUFFIXES)
  {
  }

  lemma {:induction false} TwoTrees(a: Tree, b: Tree)
    ensures Flatten([a, b]) == Flatten([a]) + Flatten([b]) && Roots([a, b]) == [a.id, b.id]
  {
    FlattenAppend([a], [b]);
    RootsAppend([a], [b]);
    OneRoot(a);
    OneRoot(b);
    assert [a, b] == [a] + [b];
  }

  lemma {:induction false} OneRoot(t: Tree)
    ensures Roots([t]) == [t.id]
  {
    assert [t][1..] == [];
  }

  lemma {:induction false} OneLeaf(id: string, kind: string, caption: string)
    ensures Flatten([Leaf(id, kind, caption)]) == [Plain(id, kind, caption)]
  {
    FlattenOne(Leaf(id, kind, caption));
  }

  lemma {:induction false} AppendTree(before: seq<Tree>, t: Tree)
    ensures Roots(before + [t]) == Roots(before) + [t.id]
    ensures Flatten(before + [t]) == Flatten(before) + Flatten([t])
  {
    RootsAppend(before, [t]);
    FlattenAppend(before, [t]);
    OneRoot(t);
  }

  lemma {:induction false} BlockFlat(i: nat, fid: string, c: Chapter)
    ensures Flatten([Block(i, fid, c)]) == BlockComponents(i, fid, c)
  {
    var b := Block(i, fid, c);
    var col := b.kids[0];
    var header, focus, stats := col.kids[0], col.kids[1], col.kids[2];
    var name, status := header.kids[0], header.kids[1];
    FlattenOne(b);
    FlattenOne(col);
    FlattenOne(header);
    OneRoot(col);
    TwoTrees(name, status);
    TwoTrees(focus, stats);
    OneLeaf(name.id, name.kind, name.caption);
    OneLeaf(status.id, status.kind, status.caption);
    OneLeaf(focus.id, focus.kind, focus.caption);
    OneLeaf(stats.id, stats.kind, stats.caption);
    FlattenAppend([header], [focus, stats]);
    RootsAppend([header], [focus, stats]);
    OneRoot(header);
    assert header.kids == [name, status] && b.kids == [col] && col.kids == [header] + [focus, stats];
    var inHeader := [Top(name), Top(status)];
    assert Flatten([header]) == [Top(header)] + inHeader;
    assert Roots(col.kids) == [header.id, focus.id, stats.id];
    assert Flatten(col.kids) == [Top(header)] + inHeader + [Top(focus), Top(stats)];
  }

  /** The names in chapter `i`'s block. */
  ghost predicate InBlock(x: string, i: nat) {
    exists k :: 0 <= k < 7 && x == Numbered("f", i, SUFFIXES[k])
  }

  lemma {:induction false} BlocksShareNoId(x: string, i: nat, j: nat)
    requires InBlock(x, i) && InBlock(x, j)
    ensures i == j
  {
    var k :| 0 <= k < 7 && x == Numbered("f", i, SUFFIXES[k]);
    var l :| 0 <= l < 7 && x == Numbered("f", j, SUFFIXES[l]);
    NumberedInjective("f", i, SUFFIXES[k], j, SUFFIXES[l]);
  }

  lemma {:induction false} BlockIsDistinct(i: nat, fid: string, c: Chapter)
    ensures DistinctIds(BlockComponents(i, fid, c))
    ensures forall x :: x in Ids(BlockComponents(i, fid, c)) ==> InBlock(x, i)
  {
    var cs := BlockComponents(i, fid, c);
    assert forall k :: 0 <= k < 7 ==> cs[k].id == Numbered("f", i, SUFFIXES[k]);
    SuffixesAreDistinct();
    forall j, k | 0 <= j < k < 7 ensures cs[j].id != cs[k].id {
      if cs[j].id == cs[k].id {
        NumberedInjective("f", i, SUFFIXES[j], i, SUFFIXES[k]);
      }
    }
  }

  const BLOCK_OF: (nat, (string, Chapter)) -> Tree := (i: nat, c: (string, Chapter)) => Block(i, c.0, c.1)

  /** A tree for each element, by its position. */
  function Trees<T>(f: (nat, T) -> Tree, s: seq<T>): seq<Tree> {
    if s == [] then []
    else
      var n := |s| - 1;
      Trees(f, s[..n]) + [f(n, s[n])]
  }

  lemma {:induction false} TreesAt<T>(f: (nat, T) -> Tree, s: seq<T>)
    ensures |Trees(f, s)| == |s| && forall i :: 0 <= i < |s| ==> Trees(f, s)[i] == f(i, s[i])
  {
    if s != [] {
      TreesAt(f, s[..|s| - 1]);
    }
  }

  function Blocks(chapters: seq<(string, Chapter)>): seq<Tree> {
    Trees(BLOCK_OF, chapters)
  }

  lemma {:induction false} OneMoreBlock(before: seq<Component>, block: seq<Component>, n: nat)
    requires DistinctIds(before) && DistinctIds(block)
    requires forall x :: x in Ids(before) ==> exists i: nat :: i < n && InBlock(x, i)
    requires forall x :: x in Ids(block) ==> InBlock(x, n)
    ensures DistinctIds(before + block)
    ensures forall x :: x in Ids(before + block) ==> exists i: nat :: i < n + 1 && InBlock(x, i)
  {
    forall x | x in Ids(before) ensures x !in Ids(block) {
      var i: nat :| i < n && InBlock(x, i);
      if x in Ids(block) {
        BlocksShareNoId(x, i, n);
      }
    }
    DistinctAppend(before, block);
    IdsAppend(before, block);
  }

  lemma {:induction false} BlocksAreDistinct(chapters: seq<(string, Chapter)>)
    ensures DistinctIds(Flatten(Blocks(chapters)))
    ensures forall x :: x in Ids(Flatten(Blocks(chapters))) ==> exists i: nat :: i < |chapters| && InBlock(x, i)
  {
    if chapters != [] {
      var n := |chapters| - 1;
      BlocksAreDistinct(chapters[..n]);
      BlockIsDistinct(n, chapters[n].0, chapters[n].1);
      BlockFlat(n, chapters[n].0, chapters[n].1);
      AppendTree(Blocks(chapters[..n]), Block(n, chapters[n].0, chapters[n].1));
      OneMoreBlock(Flatten(Blocks(chapters[..n])), BlockComponents(n, chapters[n].0, chapters[n].1), n);
    }
  }

  function FederationTree(chapters: seq<(string, Chapter)>): Tree {
    Node("root", "Column", "", Blocks(chapters))
  }

  function Concat(parts: seq<seq<Component>>): seq<Component> {
    if parts == [] then [] else Concat(parts[..|parts| - 1]) + parts[|parts| - 1]
  }

  lemma {:induction false} ConcatAt(parts: seq<seq<Component>>, i: nat)
    requires i < |parts| && forall k :: 0 <= k < |parts| ==> |parts[k]| == 7
    ensures |Concat(parts)| == 7 * |parts| && Concat(parts)[7 * i..7 * i + 7] == parts[i]
  {
    var n := |parts| - 1;
    var before := Concat(parts[..n]);
    if n > 0 {
      ConcatAt(parts[..n], if i < n then i else 0);
    }
    if i < n {
      SliceBefore(before, parts[n], 7 * i, 7 * i + 7);
    } else {
      SliceAfter(before, parts[n]);
    }
  }

  lemma {:induction false} SliceBefore<T>(a: seq<T>, b: seq<T>, lo: nat, hi: nat)
    requires lo <= hi <= |a|
    ensures (a + b)[lo..hi] == a[lo..hi]
  {
  }

  lemma {:induction false} SliceAfter<T>(a: seq<T>, b: seq<T>)
    ensures (a + b)[|a|..|a| + |b|] == b
  {
  }

  function Parts(chapters: seq<(string, Chapter)>): (parts: seq<seq<Component>>)
    ensures |parts| == |chapters|
    ensures forall i :: 0 <= i < |chapters| ==> parts[i] == BlockComponents(i, chapters[i].0, chapters[i].1)
  {
    seq(|chapters|, i requires 0 <= i < |chapters| => BlockComponents(i, chapters[i].0, chapters[i].1))
  }

  /** A forest of such trees, part by part. */
  lemma {:induction false} ForestConcat(ts: seq<Tree>, parts: seq<seq<Component>>)
    requires |ts| == |parts| && forall i :: 0 <= i < |ts| ==> Flatten([ts[i]]) == parts[i]
    ensures Flatten(ts) == Concat(parts)
    ensures |Roots(ts)| == |ts| && forall i :: 0 <= i < |ts| ==> Roots(ts)[i] == ts[i].id
  {
    if ts != [] {
      var n := |ts| - 1;
      ForestConcat(ts[..n], parts[..n]);
      AppendTree(ts[..n], ts[n]);
      assert ts == ts[..n] + [ts[n]];
    }
  }

  lemma {:induction false} BlocksConcat(chapters: seq<(string, Chapter)>)
    ensures Flatten(Blocks(chapters)) == Concat(Parts(chapters))
    ensures |Roots(Blocks(chapters))| == |chapters|
    ensures forall i :: 0 <= i < |chapters| ==> Roots(Blocks(chapters))[i] == Numbered("f", i, "card")
  {
    TreesAt(BLOCK_OF, chapters);
    forall i | 0 <= i < |chapters|
      ensures Flatten([Blocks(chapters)[i]]) == Parts(chapters)[i] && Blocks(chapters)[i].id == Numbered("f", i, "card")
    {
      assert Blocks(chapters)[i] == Block(i, chapters[i].0, chapters[i].1);
      BlockFlat(i, chapters[i].0, chapters[i].1);
    }
    ForestConcat(Blocks(chapters), Parts(chapters));
  }

  /** The seven components of chapter `i`: a card with its name, or its id for want of one,
      its status, focus and member count. */
  function Shown(f: string, fid: string, c: Chapter): seq<Component> {
    [ Component(f + "-card", "Card", "", [f + "-col"]),
      Component(f + "-col", "Column", "", [f + "-header", f + "-focus", f + "-stats"]),
      Component(f + "-header", "Row", "", [f + "-name", f + "-status"]),
      Component(f + "-name", "Heading", if c.name.Some? then c.name.value else fid, []),
      Component(f + "-status", "Badge", if c.status.Some? then c.status.value else "unknown", []),
      Component(f + "-focus", "Badge", if c.focus.Some? then c.focus.value else "General", []),
      Component(f + "-stats", "Stat", if c.members.Some? then c.members.value else "?", [])]
  }

  lemma {:induction false} BlockIsShown(i: nat, fid: string, c: Chapter)
    ensures BlockComponents(i, fid, c) == Shown("f" + Digits(i), fid, c)
  {
    var f := Name("f", i);
    assert f + "-" + "card" == f + "-card" && f + "-" + "col" == f + "-col" && f + "-" + "header" == f + "-header";
    assert f + "-" + "name" == f + "-name" && f + "-" + "status" == f + "-status";
    assert f + "-" + "focus" == f + "-focus" && f + "-" + "stats" == f + "-stats";
  }

  lemma {:induction false} UnderTop(top: Component, parts: seq<seq<Component>>, i: nat)
    requires i < |parts| && forall k :: 0 <= k < |parts| ==> |parts[k]| == 7
    ensures |[top] + Concat(parts)| == 1 + 7 * |parts|
    ensures ([top] + Concat(parts))[7 * i + 1..7 * i + 8] == parts[i]
  {
    ConcatAt(parts, i);
    SliceShifted(top, Concat(parts), 7 * i, 7 * i + 7);
  }

  lemma {:induction false} SliceShifted<T>(first: T, rest: seq<T>, lo: nat, hi: nat)
    requires lo <= hi <= |rest|
    ensures ([first] + rest)[lo + 1..hi + 1] == rest[lo..hi]
  {
  }

  /** Every chapter is shown, in order, in seven components of its own under the root. */
  lemma {:induction false} ChapterIsShown(chapters: seq<(string, Chapter)>, i: nat)
    requires i < |chapters|
    ensures var cs := Flatten([FederationTree(chapters)]);
            && |cs| == 1 + 7 * |chapters|
            && cs[7 * i + 1..7 * i + 8] == Shown("f" + Digits(i), chapters[i].0, chapters[i].1)
  {
    FlattenOne(FederationTree(chapters));
    BlocksConcat(chapters);
    UnderTop(Top(FederationTree(chapters)), Parts(chapters), i);
    BlockIsShown(i, chapters[i].0, chapters[i].1);
  }

  /** Each of them hangs from the root, in order. */
  lemma {:induction false} ChapterHangs(chapters: seq<(string, Chapter)>, i: nat)
    requires i < |chapters|
    ensures var top := Flatten([FederationTree(chapters)])[0];
            top.id == "root" && |top.children| == |chapters| && top.children[i] == "f" + Digits(i) + "-card"
  {
    FlattenOne(FederationTree(chapters));
    BlocksConcat(chapters);
    var f := Name("f", i);
    assert f + "-" + "card" == f + "-card";
  }

  lemma {:induction false} FederationTreeIsDistinct(chapters: seq<(string, Chapter)>)
    ensures DistinctIds(Flatten([FederationTree(chapters)]))
  {
    FlattenOne(FederationTree(chapters));
    BlocksAreDistinct(chapters);
    forall x | x in Ids(Flatten(Blocks(chapters))) ensures x != "root" {
      var i: nat :| i < |chapters| && InBlock(x, i);
      var k :| 0 <= k < 7 && x == Numbered("f", i, SUFFIXES[k]);
      assert x[0] == 'f';
    }
    DistinctAppend([Top(FederationTree(chapters))], Flatten(Blocks(chapters)));
  }

  /** The seven components of each chapter, in order, under one root. */
  method BuildFederationCards(chapters: seq<(string, Chapter)>) returns (s: Option<Surface>)
    ensures s.None? <==> chapters == []
    ensures s.Some? ==> WellFormed(s.value)
    ensures s.Some? ==> s.value == Surface("federation", "root", Flatten([FederationTree(chapters)]))
  {
    if chapters == [] {
      return None;
    }
    var ids, components := [], [];
    for i := 0 to |chapters|
      invariant ids == Roots(Blocks(chapters[..i])) && components == Flatten(Blocks(chapters[..i]))
    {
      assert chapters[..i + 1][..i] == chapters[..i];
      BlockFlat(i, chapters[i].0, chapters[i].1);
      AppendTree(Blocks(chapters[..i]), Block(i, chapters[i].0, chapters[i].1));
      ids := ids + [Numbered("f", i, "card")];
      components := components + BlockComponents(i, chapters[i].0, chapters[i].1);
    }
    assert chapters[..|chapters|] == chapters;
    components := [Component("root", "Column", "", ids)] + components;
    FlattenOne(FederationTree(chapters));
    FederationTreeIsDistinct(chapters);
    var result := Surface("federation", "root", components);
    TreeIsWellFormed(FederationTree(chapters), result);
    s := Some(result);
  }
}
