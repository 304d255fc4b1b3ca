/** The builders that mix fixed components with a numbered run: thoughts, introductions, insights. */
module CardBuilders {
  import opened Common
  import opened Surfaces
  import opened SurfaceBuilders

  function Row2(id: string, a: Tree, b: Tree): Tree {
    Node(id, "Row", "", [a, b])
  }

  lemma {:induction false} Row2Flat(id: string, a: Tree, b: Tree)
    requires a.kids == [] && b.kids == [] && a.items == [] && b.items == []
    ensures Flatten([Row2(id, a, b)])
         == [Component(id, "Row", "", [a.id, b.id]), Plain(a.id, a.kind, a.caption), Plain(b.id, b.kind, b.caption)]
  {
    FlattenOne(Row2(id, a, b));
    TwoTrees(a, b);
    OneLeaf(a.id, a.kind, a.caption);
    OneLeaf(b.id, b.kind, b.caption);
  }

  /** A card around a root column. */
  function Carded(id: string, kids: seq<Tree>): Tree {
    Node(id, "Card", "", [Node("root", "Column", "", kids)])
  }

  lemma {:induction false} CardedFlat(id: string, kids: seq<Tree>)
    ensures Flatten([Carded(id, kids)])
         == [Component(id, "Card", "", ["root"]), Component("root", "Column", "", Roots(kids))] + Flatten(kids)
  {
    FlattenOne(Carded(id, kids));
    FlattenOne(Carded(id, kids).kids[0]);
    OneRoot(Carded(id, kids).kids[0]);
  }

  /** Distinct fixed components around a distinct run that shares no id with them. */
  lemma {:induction false} RunFitsBetween(front: seq<Component>, run: seq<Component>, back: seq<Component>)
    requires DistinctIds(front + back) && DistinctIds(run) && Ids(run) !! Ids(front + back)
    ensures DistinctIds(front + run + back)
  {
    var none: seq<Component> := [];
    DistinctAppend(front + back, run);
    SwapKeeps(front, back, run, none);
    assert front + back + run + none == front + back + run;
    assert front + run + back + none == front + run + back;
  }

  lemma {:induction false} RunHasNone(prefix: string, kind: string, captions: seq<string>, fixed: seq<Component>)
    requires forall c :: c in fixed ==> !(prefix <= c.id)
    ensures Ids(Flatten(Leaves(prefix, kind, captions))) !! Ids(fixed)
  {
    LeavesAreDistinct(prefix, kind, captions);
    forall x | x in Ids(Flatten(Leaves(prefix, kind, captions))) ensures x !in Ids(fixed) {
      var i :| 0 <= i < |captions| && x == Name(prefix, i);
      assert prefix <= x;
    }
  }

  lemma {:induction false} DistinctByList(cs: seq<Component>, ids: seq<string>)
    requires |cs| == |ids| && forall i :: 0 <= i < |cs| ==> cs[i].id == ids[i]
    requires Distinct(ids)
    ensures DistinctIds(cs)
  {
  }

  // ---------------------------------------------------------------- insights

  const MAX_POINTS := 5

  function Shown(points: seq<string>): seq<string> {
    if |points| <= MAX_POINTS then points else points[..MAX_POINTS]
  }

  function InsightKids(title: string, insight: string, points: seq<string>): seq<Tree> {
    [ Row2("insight-header", Leaf("insight-badge", "Badge", "Insight"), Leaf("insight-title", "Heading", title)),
      Leaf("insight-body", "Text", insight)]
    + if points == [] then [] else [Leaf("insight-divider", "Divider", ""), InsightList(points)]
  }

  function InsightComponents(title: string, insight: string): seq<Component> {
    [ Component("insight-header", "Row", "", ["insight-badge", "insight-title"]),
      Plain("insight-badge", "Badge", "Insight"),
      Plain("insight-title", "Heading", title),
      Plain("insight-body", "Text", insight)]
  }

  function InsightList(points: seq<string>): Tree {
    Node("insight-list", "List", "", [], Shown(points))
  }

  function ListComponents(points: seq<string>): seq<Component> {
    if points == [] then []
    else [Plain("insight-divider", "Divider", ""), Component("insight-list", "List", "", [], Shown(points))]
  }

  lemma {:induction false} InsightFlat(title: string, insight: string, points: seq<string>)
    ensures var kids := InsightKids(title, insight, points);
            && Roots(kids) == ["insight-header", "insight-body"] + (if points == [] then [] else ["insight-divider", "insight-list"])
            && Flatten(kids) == InsightComponents(title, insight) + ListComponents(points)
  {
    var header := Row2("insight-header", Leaf("insight-badge", "Badge", "Insight"), Leaf("insight-title", "Heading", title));
    var body := Leaf("insight-body", "Text", insight);
    Row2Flat("insight-header", header.kids[0], header.kids[1]);
    OneLeaf("insight-body", "Text", insight);
    TwoTrees(header, body);
    var divider, list := Leaf("insight-divider", "Divider", ""), InsightList(points);
    OneLeaf("insight-divider", "Divider", "");
    FlattenOne(list);
    TwoTrees(divider, list);
    RootsAppend([header, body], if points == [] then [] else [divider, list]);
    FlattenAppend([header, body], if points == [] then [] else [divider, list]);
  }

  const INSIGHT_IDS := ["insight-card", "root", "insight-header", "insight-badge", "insight-title", "insight-body",
    "insight-divider", "insight-list"]

  lemma {:induction false} InsightIdsAreDistinct()
    ensures Distinct(INSIGHT_IDS)
  {
  }

  lemma {:induction false} InsightIsDistinct(title: string, insight: string, points: seq<string>)
    ensures DistinctIds(Flatten([Carded("insight-card", InsightKids(title, insight, points))]))
  {
    InsightFlat(title, insight, points);
    CardedFlat("insight-card", InsightKids(title, insight, points));
    var cs := Flatten([Carded("insight-card", InsightKids(title, insight, points))]);
    InsightIdsAreDistinct();
    assert forall i :: 0 <= i < |cs| ==> cs[i].id == INSIGHT_IDS[i];
    DistinctByList(cs, INSIGHT_IDS[..|cs|]);
  }

  /** The badge, the title and the text are shown, and for some data points a list of the first
      five under a divider. */
  lemma {:induction false} InsightIsShown(title: string, insight: string, points: seq<string>)
    ensures var cs := Flatten([Carded("insight-card", InsightKids(title, insight, points))]);
            && |cs| == (if points == [] then 6 else 8)
            && cs[0] == Component("insight-card", "Card", "", ["root"])
            && cs[1] == Component("root", "Column", "", ["insight-header", "insight-body"]
                 + if points == [] then [] else ["insight-divider", "insight-list"])
            && cs[2..6] == [
                 Component("insight-header", "Row", "", ["insight-badge", "insight-title"]),
                 Component("insight-badge", "Badge", "Insight", []),
                 Component("insight-title", "Heading", title, []),
                 Component("insight-body", "Text", insight, [])]
            && (points != [] ==> cs[6..] == [
                 Component("insight-divider", "Divider", "", []),
                 Component("insight-list", "List", "", [], if |points| > 5 then points[..5] else points)])
  {
    CardedFlat("insight-card", InsightKids(title, insight, points));
    InsightFlat(title, insight, points);
    var cs := Flatten([Carded("insight-card", InsightKids(title, insight, points))]);
    var head, tail := InsightComponents(title, insight), ListComponents(points);
    assert cs[2..6] == head && cs[6..] == tail;
  }

  /** The header and body, and for some data points the divider and a list of the first five. */
  method BuildInsightCard(title: string, insight: string, points: seq<string>, tag: string) returns (s: Surface)
    ensures WellFormed(s) && s.root == "insight-card" && s.surfaceId == "insight-" + tag
    ensures s.components == Flatten([Carded("insight-card", InsightKids(title, insight, points))])
  {
    var children := ["insight-header", "insight-body"];
    var components := InsightComponents(title, insight);
    if points != [] {
      children := children + ["insight-divider"];
      components := components + [Plain("insight-divider", "Divider", "")];
      children := children + ["insight-list"];
      components := components + [Component("insight-list", "List", "", [], Shown(points))];
    }
    InsightFlat(title, insight, points);
    assert children == Roots(InsightKids(title, insight, points));
    assert components == Flatten(InsightKids(title, insight, points));
    components := [Component("root", "Column", "", children)] + components;
    s := Surface("insight-" + tag, "insight-card", [Component("insight-card", "Card", "", ["root"])] + components);
    InsightIsDistinct(title, insight, points);
    CardedFlat("insight-card", InsightKids(title, insight, points));
    assert s.components == Flatten([Carded("insight-card", InsightKids(title, insight, points))]);
    TreeIsWellFormed(Carded("insight-card", InsightKids(title, insight, points)), s);
  }

  // ---------------------------------------------------------------- introductions

  datatype Person = Person(name: Option<string>, chapter: Option<string>)

  datatype Message = Message(speaker: Option<string>, text: Option<string>)

  const MAX_MESSAGES := 6

  function Spoken(i: nat, m: Message): string {
    (if i % 2 == 0 then "\U{25B6}" else "\U{25C0}") + " @" + OrElse(m.speaker, "?") + ": " + OrElse(m.text, "")
  }

  /** The captions of the messages shown: the first six. */
  function Captions(messages: seq<Message>): seq<string> {
    var n := if |messages| <= MAX_MESSAGES then |messages| else MAX_MESSAGES;
    seq(n, i requires 0 <= i < n => Spoken(i, messages[i]))
  }

  function IntroFixed(a: Person, b: Person, reason: string): seq<Tree> {
    [ Row2("intro-header", Leaf("intro-badge", "Badge", "Introduction"),
        Leaf("intro-chapters-badge", "Badge", OrElse(a.chapter, "?") + " \U{00D7} " + OrElse(b.chapter, "?"))),
      Row2("intro-people", Leaf("intro-avatar-a", "Avatar", OrElse(a.name, "?")),
        Leaf("intro-avatar-b", "Avatar", OrElse(b.name, "?")))]
    + [Leaf("intro-reason", "Text", reason), Leaf("intro-divider", "Divider", "")]
  }

  function IntroComponents(a: Person, b: Person, reason: string): seq<Component> {
    [ Component("intro-header", "Row", "", ["intro-badge", "intro-chapters-badge"]),
      Plain("intro-badge", "Badge", "Introduction"),
      Plain("intro-chapters-badge", "Badge", OrElse(a.chapter, "?") + " \U{00D7} " + OrElse(b.chapter, "?")),
      Component("intro-people", "Row", "", ["intro-avatar-a", "intro-avatar-b"]),
      Plain("intro-avatar-a", "Avatar", OrElse(a.name, "?")),
      Plain("intro-avatar-b", "Avatar", OrElse(b.name, "?")),
      Plain("intro-reason", "Text", reason),
      Plain("intro-divider", "Divider", "")]
  }

  const INTRO_CHILDREN := ["intro-header", "intro-people", "intro-reason", "intro-divider"]

  lemma {:induction false} IntroFlat(a: Person, b: Person, reason: string)
    ensures Roots(IntroFixed(a, b, reason)) == INTRO_CHILDREN
    ensures Flatten(IntroFixed(a, b, reason)) == IntroComponents(a, b, reason)
  {
    var kids := IntroFixed(a, b, reason);
    var header, people, text, divider := kids[0], kids[1], kids[2], kids[3];
    Row2Flat("intro-header", header.kids[0], header.kids[1]);
    Row2Flat("intro-people", people.kids[0], people.kids[1]);
    OneLeaf("intro-reason", "Text", reason);
    OneLeaf("intro-divider", "Divider", "");
    TwoTrees(header, people);
    TwoTrees(text, divider);
    RootsAppend([header, people], [text, divider]);
    FlattenAppend([header, people], [text, divider]);
  }

  function IntroTree(a: Person, b: Person, reason: string, messages: seq<Message>): Tree {
    Carded("intro-card", IntroFixed(a, b, reason) + Leaves("conv-", "Text", Captions(messages)))
  }

  lemma {:induction false} IntroTreeFlat(a: Person, b: Person, reason: string, messages: seq<Message>)
    ensures var run := Leaves("conv-", "Text", Captions(messages));
            Flatten([IntroTree(a, b, reason, messages)])
              == IntroFront(a, b, reason, INTRO_CHILDREN + Roots(run)) + Flatten(run)
  {
    var fixed, run := IntroFixed(a, b, reason), Leaves("conv-", "Text", Captions(messages));
    IntroFlat(a, b, reason);
    CardedFlat("intro-card", fixed + run);
    RootsAppend(fixed, run);
    FlattenAppend(fixed, run);
  }

  const INTRO_IDS := ["intro-card", "root", "intro-header", "intro-badge", "intro-chapters-badge", "intro-people",
    "intro-avatar-a", "intro-avatar-b", "intro-reason", "intro-divider"]

  lemma {:induction false} IntroIdsAreDistinct()
    ensures Distinct(INTRO_IDS)
    ensures forall i :: 0 <= i < |INTRO_IDS| ==> !("conv-" <= INTRO_IDS[i])
  {
    forall i | 0 <= i < |INTRO_IDS| ensures !("conv-" <= INTRO_IDS[i]) {
      assert INTRO_IDS[i][0] != 'c';
    }
  }

  function IntroFront(a: Person, b: Person, reason: string, children: seq<string>): seq<Component> {
    [Component("intro-card", "Card", "", ["root"]), Component("root", "Column", "", children)]
    + IntroComponents(a, b, reason)
  }

  lemma {:induction false} IntroFrontIsDistinct(a: Person, b: Person, reason: string, children: seq<string>)
    ensures DistinctIds(IntroFront(a, b, reason, children))
    ensures forall c :: c in IntroFront(a, b, reason, children) ==> !("conv-" <= c.id)
  {
    var front := IntroFront(a, b, reason, children);
    IntroIdsAreDistinct();
    assert forall i :: 0 <= i < |front| ==> front[i].id == INTRO_IDS[i];
    DistinctByList(front, INTRO_IDS);
  }

  lemma {:induction false} IntroIsDistinct(a: Person, b: Person, reason: string, messages: seq<Message>)
    ensures DistinctIds(Flatten([IntroTree(a, b, reason, messages)]))
  {
    var run := Leaves("conv-", "Text", Captions(messages));
    var front := IntroFront(a, b, reason, INTRO_CHILDREN + Roots(run));
    IntroTreeFlat(a, b, reason, messages);
    IntroFrontIsDistinct(a, b, reason, INTRO_CHILDREN + Roots(run));
    LeavesAreDistinct("conv-", "Text", Captions(messages));
    RunHasNone("conv-", "Text", Captions(messages), front);
    DistinctAppend(front, Flatten(run));
  }

  lemma {:induction false} CaptionsAre(messages: seq<Message>)
    ensures |Captions(messages)| == if |messages| < 6 then |messages| else 6
    ensures forall i :: 0 <= i < |Captions(messages)| ==> Captions(messages)[i] == Spoken(i, messages[i])
  {
  }

  /** Both people, their chapters and the reason are shown. */
  lemma {:induction false} IntroductionFrontShows(a: Person, b: Person, reason: string, children: seq<string>)
    ensures IntroFront(a, b, reason, children) == [
              Component("intro-card", "Card", "", ["root"]),
              Component("root", "Column", "", children),
              Component("intro-header", "Row", "", ["intro-badge", "intro-chapters-badge"]),
              Component("intro-badge", "Badge", "Introduction", []),
              Component("intro-chapters-badge", "Badge", Or(a.chapter, "?") + " \U{00D7} " + Or(b.chapter, "?"), []),
              Component("intro-people", "Row", "", ["intro-avatar-a", "intro-avatar-b"]),
              Component("intro-avatar-a", "Avatar", Or(a.name, "?"), []),
              Component("intro-avatar-b", "Avatar", Or(b.name, "?"), []),
              Component("intro-reason", "Text", reason, []),
              Component("intro-divider", "Divider", "", [])]
  {
  }

  lemma {:induction false} AfterFront<T>(front: seq<T>, run: seq<T>, i: nat)
    requires i < |run|
    ensures (front + run)[..|front|] == front && (front + run)[|front| + i] == run[i]
  {
  }

  /** After them come the first six messages, in order, each with its speaker and an arrow
      that alternates. */
  lemma {:induction false} MessageIsShown(a: Person, b: Person, reason: string, messages: seq<Message>, i: nat)
    returns (children: seq<string>)
    requires i < |messages| && i < 6
    ensures var cs := Flatten([IntroTree(a, b, reason, messages)]);
            var front := IntroFront(a, b, reason, children);
            && |cs| == |front| + (if |messages| < 6 then |messages| else 6) && cs[..|front|] == front
            && cs[|front| + i] == Component("conv-" + Digits(i), "Text", Spoken(i, messages[i]), [])
  {
    var run := Leaves("conv-", "Text", Captions(messages));
    children := INTRO_CHILDREN + Roots(run);
    IntroTreeFlat(a, b, reason, messages);
    LeavesInOrder("conv-", "Text", Captions(messages));
    CaptionsAre(messages);
    AfterFront(IntroFront(a, b, reason, children), Flatten(run), i);
  }

  lemma {:induction false} SpokenIs(i: nat, m: Message)
    ensures var arrow := if i % 2 == 0 then "\U{25B6}" else "\U{25C0}";
            Spoken(i, m) == arrow + " @" + Or(m.speaker, "?") + ": " + Or(m.text, "")
  {
  }

  function Or(text: Option<string>, fallback: string): string {
    match text
    case None => fallback
    case Some(t) => t
  }

  /** The fixed components and the first six messages, in order, alternating direction. */
  method BuildIntroductionCard(a: Person, b: Person, reason: string, messages: seq<Message>, tag: string)
    returns (s: Surface)
    ensures WellFormed(s) && s.root == "intro-card" && s.surfaceId == "intro-" + tag
    ensures s.components == Flatten([IntroTree(a, b, reason, messages)])
  {
    var children := INTRO_CHILDREN;
    var components := IntroComponents(a, b, reason);
    var ids, texts := AppendLeaves("conv-", "Text", Captions(messages));
    children := children + ids;
    components := components + texts;
    components := [Component("root", "Column", "", children)] + components;
    s := Surface("intro-" + tag, "intro-card", [Component("intro-card", "Card", "", ["root"])] + components);
    IntroTreeFlat(a, b, reason, messages);
    IntroIsDistinct(a, b, reason, messages);
    assert s.components == Flatten([IntroTree(a, b, reason, messages)]);
    TreeIsWellFormed(IntroTree(a, b, reason, messages), s);
  }

  // ---------------------------------------------------------------- thoughts

  const MAX_TARGETS := 4

  function TypeLabel(kind: string): string {
    match kind
    case "introduction" => "Introduction"
    case "insight" => "Insight"
    case "conversation" => "Conversation"
    case "observation" => "Observation"
    case "startup_idea" => "Startup Idea"
    case _ => kind
  }

  datatype Thought = Thought(kind: string, title: string, body: string, agent: string)

  function ThoughtFixed(t: Thought): seq<Tree> {
    [ Row2("thought-header", Leaf("thought-type-badge", "Badge", TypeLabel(t.kind)),
        Leaf("thought-chapter-badge", "Badge", t.agent)),
      Leaf("thought-title", "Heading", t.title)]
    + [Leaf("thought-divider", "Divider", ""), Leaf("thought-body", "Text", t.body)]
  }

  function ThoughtComponents(t: Thought): seq<Component> {
    [ Component("thought-header", "Row", "", ["thought-type-badge", "thought-chapter-badge"]),
      Plain("thought-type-badge", "Badge", TypeLabel(t.kind)),
      Plain("thought-chapter-badge", "Badge", t.agent),
      Plain("thought-title", "Heading", t.title),
      Plain("thought-divider", "Divider", ""),
      Plain("thought-body", "Text", t.body)]
  }

  const THOUGHT_CHILDREN := ["thought-header", "thought-title", "thought-divider", "thought-body"]

  const FEEDBACK_COMPONENTS := [
    Component("thought-feedback", "Row", "", ["thought-fb-up", "thought-fb-down"]),
    Plain("thought-fb-up", "ActionButton", "Helpful"),
    Plain("thought-fb-down", "ActionButton", "Not useful")]

  function Feedback(): Tree {
    Row2("thought-feedback", Leaf("thought-fb-up", "ActionButton", "Helpful"),
      Leaf("thought-fb-down", "ActionButton", "Not useful"))
  }

  /** The captions of the targets shown: the first four names. */
  function TargetNames(targets: seq<Option<string>>): seq<string> {
    var n := if |targets| <= MAX_TARGETS then |targets| else MAX_TARGETS;
    seq(n, i requires 0 <= i < n => OrElse(targets[i], "?"))
  }

  function TargetsRow(names: seq<string>): Tree {
    Node("targets-row", "Column", "", Leaves("target-", "Avatar", names))
  }

  function ThoughtTree(t: Thought, targets: seq<Option<string>>): Tree {
    Carded("thought-card",
      ThoughtFixed(t) + (if targets == [] then [] else [TargetsRow(TargetNames(targets))]) + [Feedback()])
  }

  lemma {:induction false} ThoughtFlat(t: Thought)
    ensures Roots(ThoughtFixed(t)) == THOUGHT_CHILDREN && Flatten(ThoughtFixed(t)) == ThoughtComponents(t)
    ensures Roots([Feedback()]) == ["thought-feedback"] && Flatten([Feedback()]) == FEEDBACK_COMPONENTS
  {
    var kids := ThoughtFixed(t);
    var header, title, divider, body := kids[0], kids[1], kids[2], kids[3];
    Row2Flat("thought-header", header.kids[0], header.kids[1]);
    OneLeaf("thought-title", "Heading", t.title);
    OneLeaf("thought-divider", "Divider", "");
    OneLeaf("thought-body", "Text", t.body);
    TwoTrees(header, title);
    TwoTrees(divider, body);
    RootsAppend([header, title], [divider, body]);
    FlattenAppend([header, title], [divider, body]);
    Row2Flat("thought-feedback", Feedback().kids[0], Feedback().kids[1]);
    OneRoot(Feedback());
  }

  function ThoughtFront(t: Thought, children: seq<string>): seq<Component> {
    [Component("thought-card", "Card", "", ["root"]), Component("root", "Column", "", children)] + ThoughtComponents(t)
  }

  /** The list as built, with the targets' avatars before the row that holds them. */
  function ThoughtList(t: Thought, targets: seq<Option<string>>): seq<Component> {
    var run := Leaves("target-", "Avatar", TargetNames(targets));
    if targets == [] then ThoughtFront(t, THOUGHT_CHILDREN + ["thought-feedback"]) + FEEDBACK_COMPONENTS
    else
      ThoughtFront(t, THOUGHT_CHILDREN + ["targets-row", "thought-feedback"]) + Flatten(run)
      + ([Component("targets-row", "Column", "", Roots(run))] + FEEDBACK_COMPONENTS)
  }

  lemma {:induction false} ThoughtKidsFlat(t: Thought, rows: seq<Tree>)
    ensures var kids := ThoughtFixed(t) + rows + [Feedback()];
            && Roots(kids) == THOUGHT_CHILDREN + Roots(rows) + ["thought-feedback"]
            && Flatten(kids) == ThoughtComponents(t) + Flatten(rows) + FEEDBACK_COMPONENTS
  {
    var fixed := ThoughtFixed(t);
    ThoughtFlat(t);
    RootsAppend(fixed + rows, [Feedback()]);
    RootsAppend(fixed, rows);
    FlattenAppend(fixed + rows, [Feedback()]);
    FlattenAppend(fixed, rows);
  }

  lemma {:induction false} TargetsRowFlat(names: seq<string>)
    ensures var run := Leaves("target-", "Avatar", names);
            && Roots([TargetsRow(names)]) == ["targets-row"]
            && Flatten([TargetsRow(names)]) == [Component("targets-row", "Column", "", Roots(run))] + Flatten(run)
  {
    FlattenOne(TargetsRow(names));
    OneRoot(TargetsRow(names));
  }

  lemma {:induction false} ThoughtTreeFlat(t: Thought, targets: seq<Option<string>>)
    ensures var run := Leaves("target-", "Avatar", TargetNames(targets));
            Flatten([ThoughtTree(t, targets)]) ==
              if targets == [] then ThoughtFront(t, THOUGHT_CHILDREN + ["thought-feedback"]) + FEEDBACK_COMPONENTS
              else ThoughtFront(t, THOUGHT_CHILDREN + ["targets-row", "thought-feedback"])
                   + [Component("targets-row", "Column", "", Roots(run))] + Flatten(run) + FEEDBACK_COMPONENTS
  {
    var rows := if targets == [] then [] else [TargetsRow(TargetNames(targets))];
    CardedFlat("thought-card", ThoughtFixed(t) + rows + [Feedback()]);
    ThoughtKidsFlat(t, rows);
    if targets != [] {
      TargetsRowFlat(TargetNames(targets));
      assert THOUGHT_CHILDREN + ["targets-row"] + ["thought-feedback"] == THOUGHT_CHILDREN + ["targets-row", "thought-feedback"];
    } else {
      assert THOUGHT_CHILDREN + [] + ["thought-feedback"] == THOUGHT_CHILDREN + ["thought-feedback"];
    }
  }

  const THOUGHT_IDS := ["thought-card", "root", "thought-header", "thought-type-badge", "thought-chapter-badge",
    "thought-title", "thought-divider", "thought-body", "targets-row", "thought-feedback", "thought-fb-up",
    "thought-fb-down"]

  lemma {:induction false} ThoughtIdsAreDistinct()
    ensures Distinct(THOUGHT_IDS)
    ensures forall i :: 0 <= i < |THOUGHT_IDS| ==> !("target-" <= THOUGHT_IDS[i])
  {
    forall i | 0 <= i < |THOUGHT_IDS| ensures !("target-" <= THOUGHT_IDS[i]) {
      assert THOUGHT_IDS[i][1] != 'a' || THOUGHT_IDS[i][6] == 's';
    }
  }

  lemma {:induction false} FixedIdsAreDistinct(t: Thought, children: seq<string>, row: Component)
    requires row.id == "targets-row"
    ensures DistinctIds(ThoughtFront(t, children) + ([row] + FEEDBACK_COMPONENTS))
    ensures DistinctIds(ThoughtFront(t, children) + FEEDBACK_COMPONENTS)
    ensures forall c :: c in ThoughtFront(t, children) + ([row] + FEEDBACK_COMPONENTS) ==> !("target-" <= c.id)
  {
    var front := ThoughtFront(t, children);
    var all := front + ([row] + FEEDBACK_COMPONENTS);
    ThoughtIdsAreDistinct();
    assert forall i :: 0 <= i < |all| ==> all[i].id == THOUGHT_IDS[i];
    DistinctByList(all, THOUGHT_IDS);
    var none: seq<Component> := [];
    SwapKeeps(front, [row], FEEDBACK_COMPONENTS, none);
    assert front + [row] + FEEDBACK_COMPONENTS + none == all;
    DistinctAppend(front + FEEDBACK_COMPONENTS, [row] + none);
    assert front + FEEDBACK_COMPONENTS + [row] + none == front + FEEDBACK_COMPONENTS + ([row] + none);
  }

  lemma {:induction false} Sandwiched<T>(front: seq<T>, run: seq<T>, row: seq<T>, back: seq<T>)
    ensures var all := front + run + (row + back);
            && |all| == |front| + |run| + |row| + |back| && all[..|front|] == front
            && (forall i :: 0 <= i < |run| ==> all[|front| + i] == run[i])
            && all[|all| - |back|..] == back
  {
  }

  lemma {:induction false} ThoughtSplits(t: Thought, targets: seq<Option<string>>)
    returns (children: seq<string>, run: seq<Component>, row: seq<Component>)
    ensures ThoughtList(t, targets) == ThoughtFront(t, children) + run + (row + FEEDBACK_COMPONENTS)
    ensures |run| == |TargetNames(targets)| && |row| == if targets == [] then 0 else 1
    ensures forall i :: 0 <= i < |run| ==> run[i] == Plain(Name("target-", i), "Avatar", TargetNames(targets)[i])
  {
    var leaves := Leaves("target-", "Avatar", TargetNames(targets));
    LeavesInOrder("target-", "Avatar", TargetNames(targets));
    run, row := Flatten(leaves), [];
    if targets == [] {
      children := THOUGHT_CHILDREN + ["thought-feedback"];
      var front := ThoughtFront(t, children);
      assert run == [] && front + [] + ([] + FEEDBACK_COMPONENTS) == front + FEEDBACK_COMPONENTS;
    } else {
      children := THOUGHT_CHILDREN + ["targets-row", "thought-feedback"];
      row := [Component("targets-row", "Column", "", Roots(leaves))];
    }
  }

  lemma {:induction false} ThoughtFrontSize(t: Thought, children: seq<string>)
    ensures |ThoughtFront(t, children)| == 8 && |FEEDBACK_COMPONENTS| == 3
  {
  }

  /** The first four targets are shown, in order, each under its own id. */
  lemma {:induction false} TargetIsShown(t: Thought, targets: seq<Option<string>>, i: nat)
    requires i < |targets| && i < 4
    ensures var cs := ThoughtList(t, targets);
            && |cs| == 12 + (if |targets| < 4 then |targets| else 4)
            && cs[8 + i] == Component("target-" + Digits(i), "Avatar", Or(targets[i], "?"), [])
  {
    var children, run, row := ThoughtSplits(t, targets);
    var front := ThoughtFront(t, children);
    Sandwiched(front, run, row, FEEDBACK_COMPONENTS);
    ThoughtFrontSize(t, children);
    assert ThoughtList(t, targets)[|front| + i] == run[i];
  }

  /** The list opens with the fixed components and closes with the two feedback buttons. */
  lemma {:induction false} ThoughtIsShown(t: Thought, targets: seq<Option<string>>) returns (children: seq<string>)
    ensures var (cs, front) := (ThoughtList(t, targets), ThoughtFront(t, children));
            && |cs| >= |front| + 3 && cs[..|front|] == front && cs[|cs| - 3..] == FEEDBACK_COMPONENTS
  {
    var run, row;
    children, run, row := ThoughtSplits(t, targets);
    Sandwiched(ThoughtFront(t, children), run, row, FEEDBACK_COMPONENTS);
  }

  /** The kind's label, the agent, the title and the text are shown. */
  lemma {:induction false} ThoughtFrontShows(t: Thought, children: seq<string>)
    ensures ThoughtFront(t, children) == [
              Component("thought-card", "Card", "", ["root"]),
              Component("root", "Column", "", children),
              Component("thought-header", "Row", "", ["thought-type-badge", "thought-chapter-badge"]),
              Component("thought-type-badge", "Badge", TypeLabel(t.kind), []),
              Component("thought-chapter-badge", "Badge", t.agent, []),
              Component("thought-title", "Heading", t.title, []),
              Component("thought-divider", "Divider", "", []),
              Component("thought-body", "Text", t.body, [])]
  {
  }

  /** A kind is labelled in words where there are some, and by itself otherwise. */
  lemma {:induction false} LabelOf(kind: string)
    ensures kind == "startup_idea" ==> TypeLabel(kind) == "Startup Idea"
    ensures kind in ["introduction", "insight", "conversation", "observation"] ==>
              |TypeLabel(kind)| == |kind| && TypeLabel(kind)[1..] == kind[1..]
              && TypeLabel(kind)[0] as int == kind[0] as int - 'a' as int + 'A' as int
    ensures kind !in ["introduction", "insight", "conversation", "observation", "startup_idea"] ==> TypeLabel(kind) == kind
  {
    assert "introduction"[1..] == "Introduction"[1..];
    assert "insight"[1..] == "Insight"[1..];
    assert "conversation"[1..] == "Conversation"[1..];
    assert "observation"[1..] == "Observation"[1..];
  }

  /** The list as built and the flattened tree hold the same components, all distinct. */
  lemma {:induction false} ThoughtIsArranged(t: Thought, targets: seq<Option<string>>)
    ensures DistinctIds(ThoughtList(t, targets)) && DistinctIds(Flatten([ThoughtTree(t, targets)]))
    ensures forall c :: c in ThoughtList(t, targets) <==> c in Flatten([ThoughtTree(t, targets)])
  {
    var names := TargetNames(targets);
    var leaves := Leaves("target-", "Avatar", names);
    var run, row := Flatten(leaves), Component("targets-row", "Column", "", Roots(leaves));
    ThoughtTreeFlat(t, targets);
    if targets == [] {
      FixedIdsAreDistinct(t, THOUGHT_CHILDREN + ["thought-feedback"], row);
    } else {
      var children := THOUGHT_CHILDREN + ["targets-row", "thought-feedback"];
      FixedIdsAreDistinct(t, children, row);
      LeavesAreDistinct("target-", "Avatar", names);
      RunHasNone("target-", "Avatar", names, ThoughtFront(t, children) + ([row] + FEEDBACK_COMPONENTS));
      Arranged(ThoughtFront(t, children), run, row, FEEDBACK_COMPONENTS);
    }
  }

  lemma {:induction false} Arranged(front: seq<Component>, run: seq<Component>, row: Component, back: seq<Component>)
    requires DistinctIds(front + ([row] + back)) && DistinctIds(run) && Ids(run) !! Ids(front + ([row] + back))
    ensures DistinctIds(front + run + ([row] + back)) && DistinctIds(front + [row] + run + back)
    ensures forall c :: c in front + run + ([row] + back) <==> c in front + [row] + run + back
  {
    RunFitsBetween(front, run, [row] + back);
    SwapKeeps(front, run, [row], back);
    assert front + run + [row] + back == front + run + ([row] + back);
  }

  lemma {:induction false} ThoughtIsWellFormed(t: Thought, targets: seq<Option<string>>, s: Surface)
    requires s.root == "thought-card" && s.components == ThoughtList(t, targets)
    ensures WellFormed(s)
    ensures forall c :: c in s.components <==> c in Flatten([ThoughtTree(t, targets)])
  {
    ThoughtIsArranged(t, targets);
    TreeIsWellFormed(ThoughtTree(t, targets), s);
  }

  /** The fixed components, the first four targets under their row, and the feedback row. */
  method BuildThoughtCard(t: Thought, targets: seq<Option<string>>, tag: string) returns (s: Surface)
    ensures WellFormed(s) && s.root == "thought-card" && s.surfaceId == "thought-" + tag
    ensures s.components == ThoughtList(t, targets)
    ensures forall c :: c in s.components <==> c in Flatten([ThoughtTree(t, targets)])
  {
    var children := THOUGHT_CHILDREN;
    var components := ThoughtComponents(t);
    if targets != [] {
      var ids, avatars := AppendLeaves("target-", "Avatar", TargetNames(targets));
      components := components + avatars;
      children := children + ["targets-row"];
      components := components + [Component("targets-row", "Column", "", ids)];
    }
    children := children + ["thought-feedback"];
    components := components + FEEDBACK_COMPONENTS;
    ListedInOrder(t, targets, children, components);
    components := [Component("root", "Column", "", children)] + components;
    s := Surface("thought-" + tag, "thought-card", [Component("thought-card", "Card", "", ["root"])] + components);
    ThoughtIsWellFormed(t, targets, s);
  }

  lemma {:induction false} ListedInOrder(
      t: Thought, targets: seq<Option<string>>, children: seq<string>, components: seq<Component>)
    requires var run := Leaves("target-", "Avatar", TargetNames(targets));
             if targets == [] then
               children == THOUGHT_CHILDREN + ["thought-feedback"] && components == ThoughtComponents(t) + FEEDBACK_COMPONENTS
             else
               && children == THOUGHT_CHILDREN + ["targets-row"] + ["thought-feedback"]
               && components == ThoughtComponents(t) + Flatten(run)
                                + [Component("targets-row", "Column", "", Roots(run))] + FEEDBACK_COMPONENTS
    ensures [Component("thought-card", "Card", "", ["root"])] + ([Component("root", "Column", "", children)] + components)
         == ThoughtList(t, targets)
  {
    var front := ThoughtFront(t, children);
    if targets != [] {
      assert children == THOUGHT_CHILDREN + ["targets-row", "thought-feedback"];
    }
    var card, root := Component("thought-card", "Card", "", ["root"]), Component("root", "Column", "", children);
    assert [card] + ([root] + ThoughtComponents(t)) == front;
  }
}
