/** Surface updates over server-sent events: a snapshot, then deltas; and the frame format. */
module Streaming {
  import opened Common
  import opened Json

  type Surface = Doc

  datatype PatchOp = Replace(path: string, value: Surface)

  datatype Event =
    | RunStarted(runId: string, threadId: string)
    | StateSnapshot(snapshot: Surface)
    | StateDelta(delta: seq<PatchOp>)
    | RunError(runId: string, message: string)
    | RunFinished(runId: string)

  /** What one await of the fetcher gives: a surface, or an exception with its text. */
  datatype Fetch = Fetched(surface: Surface) | Failed(text: string)

  /** A value with numbers and booleans reduced to their numeric value. */
  function Canon(j: Json): Json {
    match j
    case JBool(b) => JReal(if b then 1.0 else 0.0)
    case JInt(n) => JReal(n as real)
    case JArr(items) => JArr(seq(|items|, i requires 0 <= i < |items| => Canon(items[i])))
    case JObj(fields) => JObj(map k | k in fields :: Canon(fields[k]))
    case _ => j
  }

  /** Python's `==` on dicts: 1, 1.0 and True are the same. */
  predicate PyEqual(a: Surface, b: Surface) {
    Canon(JObj(a)) == Canon(JObj(b))
  }

  lemma {:induction false} CanonExact(a: Json, b: Json)
    ensures Canon(a) == Canon(b) <==> SameValue(a, b)
    decreases a
  {
    match (a, b) {
      case (JArr(x), JArr(y)) => CanonArrays(x, y);
      case (JObj(x), JObj(y)) => CanonObjects(x, y);
      case _ =>
    }
  }

  lemma {:induction false} CanonArrays(x: seq<Json>, y: seq<Json>)
    ensures Canon(JArr(x)) == Canon(JArr(y)) <==> SameValue(JArr(x), JArr(y))
    decreases JArr(x), 0
  {
    var p, q := Canon(JArr(x)).items, Canon(JArr(y)).items;
    if |x| == |y| {
      forall i | 0 <= i < |x|
        ensures p[i] == q[i] <==> SameValue(x[i], y[i])
      {
        CanonExact(x[i], y[i]);
      }
      assert p == q <==> forall i :: 0 <= i < |x| ==> p[i] == q[i];
    }
  }

  lemma {:induction false} CanonObjects(x: map<string, Json>, y: map<string, Json>)
    ensures Canon(JObj(x)) == Canon(JObj(y)) <==> SameValue(JObj(x), JObj(y))
    decreases JObj(x), 0
  {
    var p, q := Canon(JObj(x)).fields, Canon(JObj(y)).fields;
    assert p.Keys == x.Keys && q.Keys == y.Keys;
    if x.Keys == y.Keys {
      forall k | k in x
        ensures p[k] == q[k] <==> SameValue(x[k], y[k])
      {
        CanonExact(x[k], y[k]);
      }
      assert p == q <==> forall k :: k in x ==> p[k] == q[k];
    }
  }

  /** Two surfaces are equal exactly when Python's rules say so, part by part. */
  lemma {:induction false} PyEqualExact(a: Surface, b: Surface)
    ensures PyEqual(a, b) <==> SameValue(JObj(a), JObj(b))
  {
    CanonExact(JObj(a), JObj(b));
  }

  function DiffSurfaces(prev: Surface, curr: Surface): seq<PatchOp> {
    if PyEqual(prev, curr) then [] else [Replace("", curr)]
  }

  /** Section 4.3 of RFC 6902, at the root path; other paths are not produced here. */
  function Patched(s: Surface, ops: seq<PatchOp>): Surface
    decreases |ops|
  {
    if ops == [] then s
    else Patched(if ops[0].path == "" then ops[0].value else s, ops[1..])
  }

  /** The patch is empty exactly for equal surfaces, and takes `prev` to `curr`. */
  lemma {:induction false} DiffIsAPatch(prev: Surface, curr: Surface)
    ensures DiffSurfaces(prev, curr) == [] <==> PyEqual(prev, curr)
    ensures PyEqual(Patched(prev, DiffSurfaces(prev, curr)), curr)
    ensures !PyEqual(prev, curr) ==> Patched(prev, DiffSurfaces(prev, curr)) == curr
  {
    if !PyEqual(prev, curr) {
      assert Patched(curr, []) == curr;
      assert [Replace("", curr)][1..] == [];
    }
  }

  function Take(s: string, n: nat): string {
    if |s| <= n then s else s[..n]
  }

  // ---------------------------------------------------------------- the stream driver

  /** The surface of the last successful fetch. */
  function Latest(fetches: seq<Fetch>): Option<Surface> {
    if fetches == [] then None
    else
      match fetches[|fetches| - 1]
      case Fetched(s) => Some(s)
      case Failed(_) => Latest(fetches[..|fetches| - 1])
  }

  /** What one fetch emits, given the surface before it. */
  function Emitted(runId: string, last: Option<Surface>, f: Fetch): seq<Event> {
    match f
    case Failed(text) => [RunError(runId, Take(text, 500))]
    case Fetched(s) =>
      if last.None? then [StateSnapshot(s)]
      else
        var ops := DiffSurfaces(last.value, s);
        if ops == [] then [] else [StateDelta(ops)]
  }

  function Updates(runId: string, fetches: seq<Fetch>): seq<Event> {
    if fetches == [] then []
    else
      var init := fetches[..|fetches| - 1];
      Updates(runId, init) + Emitted(runId, Latest(init), fetches[|fetches| - 1])
  }

  function Started(runId: string, threadId: Option<string>): Event {
    RunStarted(runId, if threadId.None? || threadId.value == "" then runId else threadId.value)
  }

  /** The stream ends after fetch number `k`. */
  predicate Ends(fetches: seq<Fetch>, max: Option<int>, k: nat) {
    1 <= k <= |fetches| && (fetches[k - 1].Failed? || (max.Some? && k >= max.value))
  }

  lemma {:induction false} UpdatesStep(runId: string, fetches: seq<Fetch>, i: nat)
    requires i < |fetches|
    ensures var before := fetches[..i];
            && Updates(runId, fetches[..i + 1]) == Updates(runId, before) + Emitted(runId, Latest(before), fetches[i])
            && (fetches[i].Fetched? ==> Latest(fetches[..i + 1]) == Some(fetches[i].surface))
  {
    assert fetches[..i + 1][..i] == fetches[..i];
  }

  /** Only the last fetch may have failed, as in every run of the driver. */
  ghost predicate OnlyLastFails(fetches: seq<Fetch>) {
    forall k :: 0 <= k < |fetches| - 1 ==> fetches[k].Fetched?
  }

  /** One snapshot, then deltas: what a run whose fetches all succeeded has sent. */
  ghost predicate Flowing(es: seq<Event>) {
    es != [] && es[0].StateSnapshot? && forall i :: 0 < i < |es| ==> es[i].StateDelta?
  }

  /** What a run has sent when its last fetch failed: perhaps such a flow, then one error. */
  ghost predicate Broken(es: seq<Event>) {
    es != [] && es[|es| - 1].RunError? && (|es| == 1 || Flowing(es[..|es| - 1]))
  }

  lemma {:induction false} LatestOfFlow(fetches: seq<Fetch>)
    requires fetches != [] && fetches[|fetches| - 1].Fetched?
    ensures Latest(fetches).Some?
  {
  }

  /** The updates are at most one snapshot, then deltas, then at most one error: a flow while
      the fetches succeed, broken once by the error of the last one. */
  lemma {:induction false} UpdatesShape(runId: string, fetches: seq<Fetch>)
    requires OnlyLastFails(fetches) && fetches != []
    ensures if fetches[|fetches| - 1].Fetched? then Flowing(Updates(runId, fetches)) else Broken(Updates(runId, fetches))
  {
    var init, f := fetches[..|fetches| - 1], fetches[|fetches| - 1];
    var more := Emitted(runId, Latest(init), f);
    if init == [] {
      assert Updates(runId, init) + more == more;
    } else {
      assert init[|init| - 1].Fetched?;
      UpdatesShape(runId, init);
      LatestOfFlow(init);
      FlowGoesOn(Updates(runId, init), more);
    }
  }

  lemma {:induction false} FlowGoesOn(es: seq<Event>, more: seq<Event>)
    requires Flowing(es) && |more| <= 1
    ensures (forall e :: e in more ==> e.StateDelta?) ==> Flowing(es + more)
    ensures (|more| == 1 && more[0].RunError?) ==> Broken(es + more)
  {
    if |more| == 1 {
      assert (es + more)[..|es|] == es && more[0] in more;
    }
  }

  /** Everything sent by the time these fetches are answered. */
  function Sent(runId: string, threadId: Option<string>, fetches: seq<Fetch>, finished: bool): seq<Event> {
    [Started(runId, threadId)] + Updates(runId, fetches) + if finished then [RunFinished(runId)] else []
  }

  /** The whole sequence: a start; then nothing yet, one snapshot and deltas, or those and one
      error; then a finish when the stream has ended, as it has after an error. */
  ghost predicate WellShaped(events: seq<Event>, finished: bool) {
    var n := |events| - if finished then 1 else 0;
    && 1 <= n && events[0].RunStarted?
    && (finished ==> events[n].RunFinished?)
    && (n == 1 || Flowing(events[1..n]) || (finished && Broken(events[1..n])))
  }

  /** No fetch before number `n` ends the stream. */
  ghost predicate GoesOn(fetches: seq<Fetch>, max: Option<int>, n: nat) {
    forall k: nat :: k < n ==> !Ends(fetches, max, k)
  }

  lemma {:induction false} DriverStopsAtFailure(fetches: seq<Fetch>, max: Option<int>, used: nat)
    requires used <= |fetches| && GoesOn(fetches, max, used)
    ensures OnlyLastFails(fetches[..used])
  {
    forall k | 0 <= k < used - 1
      ensures fetches[k].Fetched?
    {
      assert !Ends(fetches, max, k + 1);
    }
  }

  /** Whatever the driver may have sent, by its contract, is well shaped. */
  lemma {:induction false} StreamIsWellShaped(
      runId: string, threadId: Option<string>, fetches: seq<Fetch>, max: Option<int>, used: nat, finished: bool)
    requires used <= |fetches| && GoesOn(fetches, max, used) && (finished <==> Ends(fetches, max, used))
    ensures WellShaped(Sent(runId, threadId, fetches[..used], finished), finished)
  {
    var es := Sent(runId, threadId, fetches[..used], finished);
    var updates := Updates(runId, fetches[..used]);
    DriverStopsAtFailure(fetches, max, used);
    assert es[1..|updates| + 1] == updates;
    if used > 0 {
      UpdatesShape(runId, fetches[..used]);
    }
  }

  ghost predicate AllFetched(fetches: seq<Fetch>) {
    forall k :: 0 <= k < |fetches| ==> fetches[k].Fetched?
  }

  /** What the next fetch adds, for each way it can go: an error with the first 500 characters
      of its text, the first surface whole, nothing for a surface equal to the one before it,
      and the whole of one that is not, as a replacement at the root. */
  lemma {:induction false} EventPerChange(runId: string, fetches: seq<Fetch>, f: Fetch)
    requires AllFetched(fetches)
    ensures var (before, after) := (Updates(runId, fetches), Updates(runId, fetches + [f]));
            match f
            case Failed(text) =>
              after == before + [RunError(runId, if |text| > 500 then text[..500] else text)]
            case Fetched(s) =>
              if fetches == [] then after == [StateSnapshot(s)]
              else if SameValue(JObj(fetches[|fetches| - 1].surface), JObj(s)) then after == before
              else after == before + [StateDelta([Replace("", s)])]
  {
    var all := fetches + [f];
    assert all[..|fetches|] == fetches && all[|all| - 1] == f;
    if fetches != [] && f.Fetched? {
      PyEqualExact(fetches[|fetches| - 1].surface, f.surface);
    }
  }

  /** Where the driver stops: `n` fetches succeed before the first that fails, if any does.
      It takes that one too, unless `max` have been taken by then, and always takes one. */
  lemma {:induction false} StopsWhere(
      fetches: seq<Fetch>, max: Option<int>, n: nat, used: nat, finished: bool)
    requires n <= |fetches| && AllFetched(fetches[..n]) && (n < |fetches| ==> fetches[n].Failed?)
    requires used <= |fetches| && GoesOn(fetches, max, used) && (finished <==> Ends(fetches, max, used))
    requires !finished ==> used == |fetches|
    ensures var bound := if n < |fetches| then n + 1 else n;
            var cap := if max.None? then bound else if max.value < 1 then 1 else max.value;
            && used == (if bound <= cap then bound else cap)
            && (finished <==> (n < |fetches| && used == n + 1) || (max.Some? && used == cap))
  {
    var cap := if max.None? || max.value < 1 then 1 else max.value;
    assert !Ends(fetches, max, 0);
    assert n < |fetches| ==> Ends(fetches, max, n + 1);
    assert max.Some? && cap <= |fetches| ==> Ends(fetches, max, cap);
    assert forall k :: 0 <= k < n ==> fetches[k] == fetches[..n][k];
  }

  /** A stream opens with its own run, under the thread asked for or, for none or an empty
      one, under the run, and closes with one finish of that run if it has ended. */
  lemma {:induction false} SentBounds(runId: string, threadId: Option<string>, fetches: seq<Fetch>, finished: bool)
    ensures var (es, updates) := (Sent(runId, threadId, fetches, finished), Updates(runId, fetches));
            var thread := if threadId == None || threadId == Some("") then runId else threadId.value;
            es == [RunStarted(runId, thread)] + updates + (if finished then [RunFinished(runId)] else [])
  {
  }

  /** What one turn of the loop yields. */
  method Cycle(runId: string, last: Option<Surface>, f: Fetch) returns (out: seq<Event>)
    ensures out == Emitted(runId, last, f)
  {
    out := [];
    if f.Failed? {
      out := [RunError(runId, Take(f.text, 500))];
    } else if last.None? {
      out := [StateSnapshot(f.surface)];
    } else {
      var ops := DiffSurfaces(last.value, f.surface);
      if ops != [] {
        out := [StateDelta(ops)];
      }
    }
  }

  lemma {:induction false} AppendMore(start: seq<Event>, before: seq<Event>, more: seq<Event>)
    ensures start + before + more == start + (before + more)
  {
  }

  /** `used` is the number of fetches awaited so far; a stream that has not ended is waiting
      for the next one. */
  method StreamSurfaceUpdates(runId: string, threadId: Option<string>, fetches: seq<Fetch>, max: Option<int>)
    returns (events: seq<Event>, used: nat, finished: bool)
    ensures used <= |fetches|
    ensures GoesOn(fetches, max, used)
    ensures if finished then Ends(fetches, max, used) else used == |fetches| && !Ends(fetches, max, used)
    ensures events == Sent(runId, threadId, fetches[..used], finished)
  {
    events, used, finished := [Started(runId, threadId)], 0, false;
    var last: Option<Surface> := None;
    while used < |fetches| && !finished
      invariant used <= |fetches|
      invariant GoesOn(fetches, max, used)
      invariant finished <==> Ends(fetches, max, used)
      invariant !finished ==> last == Latest(fetches[..used])
      invariant events == [Started(runId, threadId)] + Updates(runId, fetches[..used])
      decreases |fetches| - used, !finished
    {
      var f := fetches[used];
      UpdatesStep(runId, fetches, used);
      used := used + 1;
      var more := Cycle(runId, last, f);
      AppendMore([Started(runId, threadId)], Updates(runId, fetches[..used - 1]), more);
      events := events + more;
      if f.Failed? {
        finished := true;
      } else {
        last := Some(f.surface);
        finished := max.Some? && used >= max.value;
      }
    }
    if finished {
      events := events + [RunFinished(runId)];
    }
  }

  // ---------------------------------------------------------------- the client

  /** What a client holds that applies the events in order. */
  function Held(events: seq<Event>): Option<Surface> {
    if events == [] then None
    else
      var before := Held(events[..|events| - 1]);
      match events[|events| - 1]
      case StateSnapshot(s) => Some(s)
      case StateDelta(ops) => if before.Some? then Some(Patched(before.value, ops)) else None
      case _ => before
  }

  lemma {:induction false} HeldAfter(events: seq<Event>, e: Event)
    ensures Held(events + [e]) ==
      match e
      case StateSnapshot(s) => Some(s)
      case StateDelta(ops) => if Held(events).Some? then Some(Patched(Held(events).value, ops)) else None
      case _ => Held(events)
  {
    assert (events + [e])[..|events|] == events;
  }

  /** The same surface, up to the numeric kinds Python does not tell apart. */
  predicate Agree(a: Option<Surface>, b: Option<Surface>) {
    a.Some? == b.Some? && (a.Some? ==> PyEqual(a.value, b.value))
  }

  /** After every fetch the client holds the latest surface. */
  lemma {:induction false} ClientHoldsLatest(runId: string, threadId: Option<string>, fetches: seq<Fetch>)
    ensures Agree(Held([Started(runId, threadId)] + Updates(runId, fetches)), Latest(fetches))
  {
    var start := [Started(runId, threadId)];
    if fetches == [] {
      HeldAfter([], start[0]);
      assert start + [] == [] + [start[0]];
    } else {
      var init, f := fetches[..|fetches| - 1], fetches[|fetches| - 1];
      ClientHoldsLatest(runId, threadId, init);
      var before := start + Updates(runId, init);
      var more := Emitted(runId, Latest(init), f);
      assert start + Updates(runId, fetches) == before + more;
      if more != [] {
        assert more == [more[0]];
        HeldAfter(before, more[0]);
        if more[0].StateDelta? {
          assert Patched(Held(before).value, [Replace("", f.surface)]) == f.surface by {
            assert Patched(f.surface, []) == f.surface;
            assert [Replace("", f.surface)][1..] == [];
          }
        }
      } else {
        assert before + more == before;
      }
    }
  }

  /** Some fetch changes only the kind of a number: 1 to true, 2 to 2.0. */
  predicate OnlyKindChanges(prev: Surface, curr: Surface) {
    prev != curr && PyEqual(prev, curr)
  }

  /** The client's copy is the very surface just fetched exactly when it changed in value, or
      was that very surface before: a change of kind alone is never sent. */
  lemma {:induction false} ClientIsExactIff(runId: string, threadId: Option<string>, fetches: seq<Fetch>, s: Surface)
    ensures var before := Held([Started(runId, threadId)] + Updates(runId, fetches));
            var after := Held([Started(runId, threadId)] + Updates(runId, fetches + [Fetched(s)]));
            after == Some(s) <==> before.None? || !OnlyKindChanges(before.value, s)
  {
    var start, all := [Started(runId, threadId)], fetches + [Fetched(s)];
    var before := start + Updates(runId, fetches);
    assert all[..|fetches|] == fetches;
    ClientHoldsLatest(runId, threadId, fetches);
    var more := Emitted(runId, Latest(fetches), Fetched(s));
    assert start + Updates(runId, all) == before + more;
    if more == [] {
      assert before + more == before;
    } else {
      assert more == [more[0]];
      HeldAfter(before, more[0]);
      assert [Replace("", s)][1..] == [] && Patched(s, []) == s;
    }
  }

  /** What the stream has sent after some fetches is what it will have sent by then in any
      longer run. */
  lemma {:induction false} UpdatesArePrefixes(runId: string, fetches: seq<Fetch>, k: nat)
    requires k <= |fetches|
    ensures Updates(runId, fetches[..k]) <= Updates(runId, fetches)
  {
    if k < |fetches| {
      UpdatesArePrefixes(runId, fetches[..|fetches| - 1], k);
      assert fetches[..|fetches| - 1][..k] == fetches[..k];
    } else {
      assert fetches[..k] == fetches;
    }
  }
}

/** The frames: one JSON object per `data:` line, a blank line after it. */
module EventFrames {
  import opened Common
  import opened Streaming
  import opened Text

  /** The JSON codec on events; `dumps` writes ASCII with control characters escaped. */
  datatype Codec = Codec(dumps: Event -> string, loads: string -> Option<Event>)

  predicate Plain(c: char) {
    ' ' <= c <= '\U{007F}'
  }

  predicate OneLine(s: string) {
    forall i :: 0 <= i < |s| ==> Plain(s[i])
  }

  predicate ValidFor(c: Codec, e: Event) {
    var text := c.dumps(e);
    c.loads(text) == Some(e) && OneLine(text) && |text| >= 2 && text[0] == '{' && text[|text| - 1] == '}'
  }

  const PREFIX := "data: "

  function EncodeSse(c: Codec, e: Event): string {
    PREFIX + c.dumps(e) + "\n\n"
  }

  function Encoded(c: Codec, events: seq<Event>): string {
    if events == [] then "" else EncodeSse(c, events[0]) + Encoded(c, events[1..])
  }

  /** Where the first blank line begins, or the length. */
  function FindBlank(s: string): (i: nat)
    ensures i == |s| || i <= |s| - 2
  {
    if |s| < 2 then |s|
    else if s[0] == '\n' && s[1] == '\n' then 0
    else 1 + FindBlank(s[1..])
  }

  /** `s.split("\n\n")`. */
  function Chunks(s: string): seq<string>
    decreases |s|
  {
    var i := FindBlank(s);
    if i == |s| then [s] else [s[..i]] + Chunks(s[i + 2..])
  }

  predicate BreaksLine(c: char) {
    c in {'\n', '\r', '\U{000B}', '\U{000C}', '\U{001C}', '\U{001D}', '\U{001E}', '\U{0085}', '\U{2028}', '\U{2029}'}
  }

  function FindBreak(s: string): (i: nat)
    ensures i <= |s|
  {
    if s == "" || BreaksLine(s[0]) then 0 else 1 + FindBreak(s[1..])
  }

  /** `s.splitlines()`. */
  function SplitLines(s: string): seq<string>
    decreases |s|
  {
    if s == "" then []
    else
      var i := FindBreak(s);
      if i == |s| then [s]
      else if i + 1 < |s| && s[i] == '\r' && s[i + 1] == '\n' then [s[..i]] + SplitLines(s[i + 2..])
      else [s[..i]] + SplitLines(s[i + 1..])
  }

  /** The events of some lines; None when a payload is not JSON. */
  function LineEvents(c: Codec, lines: seq<string>): Option<seq<Event>> {
    if lines == [] then Some([])
    else
      var before := LineEvents(c, lines[..|lines| - 1]);
      var line := lines[|lines| - 1];
      if before.None? || !(PREFIX <= line) then before
      else
        var e := c.loads(line[|PREFIX|..]);
        if e.None? then None else Some(before.value + [e.value])
  }

  function OneChunk(c: Codec, chunk: string): Option<seq<Event>> {
    LineEvents(c, SplitLines(Strip(chunk)))
  }

  function Both(a: Option<seq<Event>>, b: Option<seq<Event>>): Option<seq<Event>> {
    if a.None? || b.None? then None else Some(a.value + b.value)
  }

  function ChunkEvents(c: Codec, chunks: seq<string>): Option<seq<Event>> {
    if chunks == [] then Some([])
    else Both(ChunkEvents(c, chunks[..|chunks| - 1]), OneChunk(c, chunks[|chunks| - 1]))
  }

  method ParseEvents(c: Codec, text: string) returns (events: Option<seq<Event>>)
    ensures events == ChunkEvents(c, Chunks(text))
  {
    var all: seq<Event> := [];
    var chunks := Chunks(text);
    for i := 0 to |chunks|
      invariant ChunkEvents(c, chunks[..i]) == Some(all)
    {
      assert chunks[..i + 1][..i] == chunks[..i];
      var lines := SplitLines(Strip(chunks[i]));
      ghost var before := all;
      for j := 0 to |lines|
        invariant exists es :: LineEvents(c, lines[..j]) == Some(es) && all == before + es
      {
        assert lines[..j + 1][..j] == lines[..j];
        if PREFIX <= lines[j] {
          var e := c.loads(lines[j][|PREFIX|..]);
          if e.None? {
            LineFailureStays(c, lines, j + 1);
            ChunkFailureStays(c, chunks, i + 1);
            return None;
          }
          all := all + [e.value];
        }
      }
      assert lines[..|lines|] == lines;
    }
    assert chunks[..|chunks|] == chunks;
    events := Some(all);
  }

  lemma {:induction false} LineFailureStays(c: Codec, lines: seq<string>, n: nat)
    requires n <= |lines| && LineEvents(c, lines[..n]).None?
    ensures LineEvents(c, lines).None?
  {
    if n < |lines| {
      assert lines[..|lines| - 1][..n] == lines[..n];
      LineFailureStays(c, lines[..|lines| - 1], n);
    } else {
      assert lines[..n] == lines;
    }
  }

  lemma {:induction false} ChunkFailureStays(c: Codec, chunks: seq<string>, n: nat)
    requires n <= |chunks| && ChunkEvents(c, chunks[..n]).None?
    ensures ChunkEvents(c, chunks).None?
  {
    if n < |chunks| {
      assert chunks[..|chunks| - 1][..n] == chunks[..n];
      ChunkFailureStays(c, chunks[..|chunks| - 1], n);
    } else {
      assert chunks[..n] == chunks;
    }
  }

  // ---------------------------------------------------------------- what is parsed

  /** The pieces put back with a blank line between each two. */
  function Rejoined(chunks: seq<string>): string {
    if chunks == [] then ""
    else if |chunks| == 1 then chunks[0]
    else chunks[0] + "\n\n" + Rejoined(chunks[1..])
  }

  ghost predicate NoBlank(s: string) {
    forall i :: 0 <= i < |s| - 1 ==> !(s[i] == '\n' && s[i + 1] == '\n')
  }

  lemma {:induction false} BlankFurtherOn(first: char, s: string)
    requires NoBlank(s) && (s == "" || !(first == '\n' && s[0] == '\n'))
    ensures NoBlank([first] + s)
  {
  }

  lemma {:induction false} FindBlankIsFirst(s: string)
    ensures var i := FindBlank(s);
            if i == |s| then NoBlank(s)
            else s[i] == '\n' && s[i + 1] == '\n' && NoBlank(s[..i + 1])
  {
    if |s| >= 2 && !(s[0] == '\n' && s[1] == '\n') {
      FindBlankIsFirst(s[1..]);
      var i := FindBlank(s);
      if i < |s| {
        BlankFurtherOn(s[0], s[1..][..i]);
        assert [s[0]] + s[1..][..i] == s[..i + 1];
      } else {
        assert forall j :: 1 <= j < |s| ==> s[j] == s[1..][j - 1];
      }
    }
  }

  /** The split is at every first blank line: the pieces give the text back, none holds a
      blank line, and none but the last ends in half of one. */
  lemma {:induction false} ChunksExact(s: string)
    ensures Chunks(s) != [] && Rejoined(Chunks(s)) == s
    ensures forall i :: 0 <= i < |Chunks(s)| - 1 ==> NoBlank(Chunks(s)[i] + "\n")
    ensures NoBlank(Chunks(s)[|Chunks(s)| - 1])
    decreases |s|
  {
    var i, chunks := FindBlank(s), Chunks(s);
    FindBlankIsFirst(s);
    if i < |s| {
      var rest := s[i + 2..];
      ChunksExact(rest);
      assert chunks[0] == s[..i] && chunks[1..] == Chunks(rest);
      assert s[..i] + "\n" == s[..i + 1];
      assert s == s[..i] + "\n\n" + rest;
      assert forall j :: 1 <= j < |chunks| ==> chunks[j] == Chunks(rest)[j - 1];
    }
  }

  /** The lines, each with what ended it. */
  function Relined(lines: seq<string>, ends: seq<string>): string
    requires |lines| == |ends|
  {
    if lines == [] then "" else lines[0] + ends[0] + Relined(lines[1..], ends[1..])
  }

  predicate EndsLine(end: string) {
    end == "\r\n" || (|end| == 1 && BreaksLine(end[0]))
  }

  ghost predicate Unbroken(line: string) {
    forall i :: 0 <= i < |line| ==> !BreaksLine(line[i])
  }

  lemma {:induction false} FindBreakIsFirst(s: string)
    ensures Unbroken(s[..FindBreak(s)])
    ensures FindBreak(s) < |s| ==> BreaksLine(s[FindBreak(s)])
  {
    if s != "" && !BreaksLine(s[0]) {
      FindBreakIsFirst(s[1..]);
      assert forall j :: 1 <= j < FindBreak(s) ==> s[j] == s[1..][..FindBreak(s[1..])][j - 1];
    }
  }

  /** Each line is unbroken and has an end, but perhaps for a last line with something on it. */
  ghost predicate Ended(lines: seq<string>, ends: seq<string>) {
    && |lines| == |ends|
    && (forall i :: 0 <= i < |lines| ==> Unbroken(lines[i]))
    && (forall i :: 0 <= i < |lines| - 1 ==> EndsLine(ends[i]))
    && (lines != [] && ends[|ends| - 1] == "" ==> lines[|lines| - 1] != "")
    && (lines != [] && ends[|ends| - 1] != "" ==> EndsLine(ends[|ends| - 1]))
  }

  lemma {:induction false} OneMoreEnded(line: string, end: string, lines: seq<string>, ends: seq<string>)
    requires Ended(lines, ends) && Unbroken(line) && EndsLine(end)
    ensures Ended([line] + lines, [end] + ends)
    ensures Relined([line] + lines, [end] + ends) == line + end + Relined(lines, ends)
  {
    assert ([line] + lines)[1..] == lines && ([end] + ends)[1..] == ends;
  }

  lemma {:induction false} LastLine(line: string)
    requires Unbroken(line) && line != ""
    ensures Ended([line], [""]) && Relined([line], [""]) == line
  {
    assert [line][1..] == [] && [""][1..] == [];
    assert line + "" + "" == line;
  }

  lemma {:induction false} CutLine(s: string) returns (line: string, end: string, rest: string)
    requires FindBreak(s) < |s|
    ensures s == line + end + rest && |rest| < |s| && Unbroken(line) && EndsLine(end)
    ensures SplitLines(s) == [line] + SplitLines(rest)
  {
    var i := FindBreak(s);
    FindBreakIsFirst(s);
    var n := if i + 1 < |s| && s[i] == '\r' && s[i + 1] == '\n' then 2 else 1;
    line, end, rest := s[..i], s[i..i + n], s[i + n..];
    assert n == 2 ==> end == "\r\n";
  }

  /** Splitting loses nothing but what ends the lines. */
  lemma {:induction false} SplitLinesExact(s: string) returns (ends: seq<string>)
    ensures Ended(SplitLines(s), ends) && Relined(SplitLines(s), ends) == s
    decreases |s|
  {
    if s == "" {
      return [];
    }
    if FindBreak(s) == |s| {
      FindBreakIsFirst(s);
      assert s[..|s|] == s;
      LastLine(s);
      return [""];
    }
    var line, end, rest := CutLine(s);
    var more := SplitLinesExact(rest);
    OneMoreEnded(line, end, SplitLines(rest), more);
    ends := [end] + more;
  }

  predicate IsData(line: string) {
    |line| >= 6 && line[..6] == "data: "
  }

  /** The lines of a text whose payloads are read, in order. */
  function DataLines(lines: seq<string>): seq<string> {
    if lines == [] then [] else DataLines(lines[..|lines| - 1]) + if IsData(lines[|lines| - 1]) then [lines[|lines| - 1]] else []
  }

  /** The lines of all chunks. */
  function AllLines(chunks: seq<string>): seq<string> {
    if chunks == [] then [] else AllLines(chunks[..|chunks| - 1]) + SplitLines(Strip(chunks[|chunks| - 1]))
  }

  /** Each data line's payload is JSON, and these are their events, one each, in order. */
  ghost predicate Reads(c: Codec, data: seq<string>, es: seq<Event>) {
    |data| == |es| && forall i :: 0 <= i < |data| ==> IsData(data[i]) && c.loads(data[i][6..]) == Some(es[i])
  }

  lemma {:induction false} ReadsOneMore(c: Codec, data: seq<string>, line: string, es: seq<Event>)
    requires IsData(line)
    ensures Reads(c, data + [line], es) <==>
              es != [] && Reads(c, data, es[..|es| - 1]) && c.loads(line[6..]) == Some(es[|es| - 1])
  {
    var all := data + [line];
    assert all[..|data|] == data && all[|data|] == line;
    if Reads(c, all, es) {
      assert forall i :: 0 <= i < |data| ==> all[i] == data[i];
    }
  }

  lemma {:induction false} LineEventsExact(c: Codec, lines: seq<string>, es: seq<Event>)
    ensures LineEvents(c, lines) == Some(es) <==> Reads(c, DataLines(lines), es)
  {
    if lines != [] {
      var init, line := lines[..|lines| - 1], lines[|lines| - 1];
      assert PREFIX <= line <==> IsData(line);
      if IsData(line) {
        ReadsOneMore(c, DataLines(init), line, es);
        if es != [] {
          LineEventsExact(c, init, es[..|es| - 1]);
          assert es == es[..|es| - 1] + [es[|es| - 1]];
        }
      } else {
        LineEventsExact(c, init, es);
        assert DataLines(lines) == DataLines(init);
      }
    }
  }

  lemma {:induction false} DataLinesConcat(a: seq<string>, b: seq<string>)
    ensures DataLines(a + b) == DataLines(a) + DataLines(b)
  {
    if b == [] {
      assert a + b == a;
    } else {
      assert (a + b)[..|a + b| - 1] == a + b[..|b| - 1];
      DataLinesConcat(a, b[..|b| - 1]);
    }
  }

  lemma {:induction false} ReadsConcat(c: Codec, a: seq<string>, b: seq<string>, es: seq<Event>)
    ensures Reads(c, a + b, es) <==>
              |a| <= |es| && Reads(c, a, es[..|a|]) && Reads(c, b, es[|a|..])
  {
    if |es| == |a| + |b| {
      var all, x, y := a + b, es[..|a|], es[|a|..];
      assert forall i :: 0 <= i < |a| ==> all[i] == a[i] && x[i] == es[i];
      assert forall i :: 0 <= i < |b| ==> all[|a| + i] == b[i] && y[i] == es[|a| + i];
      assert forall i :: |a| <= i < |all| ==> all[i] == b[i - |a|] && es[i] == y[i - |a|];
    }
  }

  /** Parsing succeeds exactly when the payload of every data line is JSON, and then gives one
      event for each, in order; every other line is passed over. */
  lemma {:induction false} ParseExact(c: Codec, chunks: seq<string>, es: seq<Event>)
    ensures ChunkEvents(c, chunks) == Some(es) <==> Reads(c, DataLines(AllLines(chunks)), es)
  {
    if chunks != [] {
      var init, lines := chunks[..|chunks| - 1], SplitLines(Strip(chunks[|chunks| - 1]));
      var data := DataLines(AllLines(init));
      DataLinesConcat(AllLines(init), lines);
      ReadsConcat(c, data, DataLines(lines), es);
      if ChunkEvents(c, chunks) == Some(es) {
        var a, b := ChunkEvents(c, init).value, LineEvents(c, lines).value;
        ParseExact(c, init, a);
        LineEventsExact(c, lines, b);
        assert es[..|a|] == a && es[|a|..] == b;
      }
      if Reads(c, DataLines(AllLines(chunks)), es) {
        ParseExact(c, init, es[..|data|]);
        LineEventsExact(c, lines, es[|data|..]);
        assert es == es[..|data|] + es[|data|..];
      }
    }
  }

  // ---------------------------------------------------------------- the round trip

  lemma {:induction false} BlankAfterLine(line: string, rest: string)
    requires OneLine(line)
    ensures FindBlank(line + "\n\n" + rest) == |line|
  {
    var s := line + "\n\n" + rest;
    if line != "" {
      assert s[1..] == line[1..] + "\n\n" + rest;
      assert s[0] == line[0] && Plain(line[0]);
      BlankAfterLine(line[1..], rest);
    }
  }

  lemma {:induction false} NoBreakInLine(line: string)
    requires OneLine(line)
    ensures FindBreak(line) == |line|
  {
    if line != "" {
      assert Plain(line[0]);
      NoBreakInLine(line[1..]);
    }
  }

  lemma {:induction false} OneLineEvents(c: Codec, line: string)
    requires PREFIX <= line && c.loads(line[|PREFIX|..]).Some?
    ensures LineEvents(c, [line]) == Some([c.loads(line[|PREFIX|..]).value])
  {
    var none: seq<string> := [];
    assert [line][..0] == none && LineEvents(c, none) == Some([]);
    var e := c.loads(line[|PREFIX|..]).value;
    assert none == [] && [] + [e] == [e];
  }

  lemma {:induction false} BothLaws(a: Option<seq<Event>>, b: Option<seq<Event>>, d: Option<seq<Event>>)
    ensures Both(a, Both(b, d)) == Both(Both(a, b), d)
    ensures Both(a, Some([])) == a == Both(Some([]), a)
  {
    if a.Some? {
      assert a.value + [] == a.value == [] + a.value;
      if b.Some? && d.Some? {
        assert a.value + (b.value + d.value) == a.value + b.value + d.value;
      }
    }
  }

  /** One frame's chunk, stripped and split, is its one line, and decodes to its event. */
  lemma {:induction false} FrameDecodes(c: Codec, e: Event)
    requires ValidFor(c, e)
    ensures OneLine(PREFIX + c.dumps(e))
    ensures OneChunk(c, PREFIX + c.dumps(e)) == Some([e])
  {
    var text := c.dumps(e);
    var line := PREFIX + text;
    assert OneLine(PREFIX) && OneLine(line);
    assert line[0] == 'd' && line[|line| - 1] == text[|text| - 1] == '}';
    StripOfTrimmed(line);
    NoBreakInLine(line);
    assert SplitLines(line) == [line];
    assert line[|PREFIX|..] == text;
    OneLineEvents(c, line);
  }

  lemma {:induction false} ChunkEventsPrepend(c: Codec, chunk: string, chunks: seq<string>)
    ensures ChunkEvents(c, [chunk] + chunks) == Both(OneChunk(c, chunk), ChunkEvents(c, chunks))
  {
    var all := [chunk] + chunks;
    if chunks == [] {
      assert all[..0] == chunks && all[0] == chunk;
      BothLaws(OneChunk(c, chunk), None, None);
    } else {
      var init, last := chunks[..|chunks| - 1], chunks[|chunks| - 1];
      assert all[..|all| - 1] == [chunk] + init && all[|all| - 1] == last;
      ChunkEventsPrepend(c, chunk, init);
      BothLaws(OneChunk(c, chunk), ChunkEvents(c, init), OneChunk(c, last));
    }
  }

  lemma {:induction false} EmptyText(c: Codec)
    ensures ChunkEvents(c, Chunks("")) == Some([])
  {
    var none: seq<Event> := [];
    assert Chunks("") == [""] + [] && Strip("") == "" && SplitLines("") == [];
    assert OneChunk(c, "") == Some(none) && ChunkEvents(c, []) == Some(none);
    ChunkEventsPrepend(c, "", []);
    assert none + none == none;
  }

  /** Parsing the concatenated frames gives back exactly the events. */
  lemma {:induction false} RoundTrip(c: Codec, events: seq<Event>)
    requires forall e :: e in events ==> ValidFor(c, e)
    ensures ChunkEvents(c, Chunks(Encoded(c, events))) == Some(events)
  {
    if events == [] {
      EmptyText(c);
    } else {
      var e, rest := events[0], Encoded(c, events[1..]);
      var line := PREFIX + c.dumps(e);
      assert ValidFor(c, e);
      FrameDecodes(c, e);
      BlankAfterLine(line, rest);
      var text := Encoded(c, events);
      assert text == line + "\n\n" + rest;
      assert text[..|line|] == line && text[|line| + 2..] == rest;
      assert Chunks(text) == [line] + Chunks(rest);
      RoundTrip(c, events[1..]);
      ChunkEventsPrepend(c, line, Chunks(rest));
      assert [e] + events[1..] == events;
    }
  }
}
