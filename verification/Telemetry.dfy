/** The usage meter: counter rows per series, with one overflow row past a bound. */
module Telemetry {
  import opened Common
  import opened Json
  import opened Text

  datatype Key = Key(side: string, callsite: string, principal: string, provider: string, model: string)

  const OVERFLOW := Key("__overflow__", "__overflow__", "__overflow__", "__overflow__", "__overflow__")

  /** One counter row; `reasons` counts the skips under each label. */
  datatype Row = Row(
    calls: nat, inputTokens: nat, outputTokens: nat, cachedTokens: nat,
    skipped: nat, withoutUsage: nat, reasons: map<string, nat>)

  const NEW_ROW := Row(0, 0, 0, 0, 0, 0, map[])

  /** The figures of a row, each skip label among them. */
  datatype Field =
    | Calls | InputTokens | OutputTokens | CachedTokens | Skipped | WithoutUsage
    | SkippedFor(why: string)

  function At(r: Row, f: Field): nat {
    match f
    case Calls => r.calls
    case InputTokens => r.inputTokens
    case OutputTokens => r.outputTokens
    case CachedTokens => r.cachedTokens
    case Skipped => r.skipped
    case WithoutUsage => r.withoutUsage
    case SkippedFor(why) => Or0(r.reasons, why)
  }

  function Or0(m: map<string, nat>, key: string): nat {
    if key in m then m[key] else 0
  }

  /** A key field; a missing value becomes "unknown". */
  function Norm(value: Option<string>): string {
    var text := if value.Some? then Strip(value.value) else "";
    if text == "" then "unknown" else text
  }

  /** Normalised names are visible and already normal, so a series has one spelling. */
  lemma {:induction false} NormIsNormal(value: Option<string>)
    ensures Norm(value) != "" && Norm(Some(Norm(value))) == Norm(value)
  {
    if value.Some? {
      StripTrims(value.value);
    }
    StripOfTrimmed(Norm(value));
  }

  /** A field is kept but for the white space around it; one with nothing else is unknown. */
  lemma {:induction false} NormIs(s: string, core: string)
    requires IsCore(s, core)
    ensures Norm(Some(s)) == if core == "" then "unknown" else core
    ensures Norm(None) == "unknown"
  {
    StripIsCore(s, core);
  }

  /** A call made, with the provider's report if any, or a call skipped. */
  datatype Recording =
    | Call(key: Key, usage: Option<Doc>)
    | Skip(key: Key, why: string)

  function NormKey(side: Option<string>, callsite: Option<string>, principal: Option<string>,
      provider: Option<string>, model: Option<string>): Key
  {
    Key(Norm(side), Norm(callsite), Norm(principal), Norm(provider), Norm(model))
  }

  /** What one reported figure adds: the whole part of a non-negative number, else nothing. */
  function Figure(j: Json): nat {
    match j
    case JInt(n) => if n >= 0 then n else 0
    case JReal(r) => if r >= 0.0 then r.Floor else 0
    case JBool(b) => if b then 1 else 0
    case _ => 0
  }

  /** What one recording adds to a figure, whichever row it lands in. */
  function Worth(e: Recording, f: Field): nat {
    match f
    case Calls => if e.Call? then 1 else 0
    case InputTokens => Reported(e, "input_tokens")
    case OutputTokens => Reported(e, "output_tokens")
    case CachedTokens => Reported(e, "cached_tokens")
    case Skipped => if e.Skip? then 1 else 0
    case WithoutUsage => if e.Call? && e.usage.None? then 1 else 0
    case SkippedFor(why) => if e.Skip? && e.why == why then 1 else 0
  }

  function Reported(e: Recording, source: string): nat {
    if e.Call? && e.usage.Some? then Figure(Get(e.usage.value, source)) else 0
  }

  function CountCall(r: Row, usage: Option<Doc>): Row {
    if usage.None? then r.(calls := r.calls + 1, withoutUsage := r.withoutUsage + 1)
    else r.(
        calls := r.calls + 1,
        inputTokens := r.inputTokens + Figure(Get(usage.value, "input_tokens")),
        outputTokens := r.outputTokens + Figure(Get(usage.value, "output_tokens")),
        cachedTokens := r.cachedTokens + Figure(Get(usage.value, "cached_tokens")))
  }

  function CountSkip(r: Row, why: string): Row {
    r.(skipped := r.skipped + 1, reasons := r.reasons[why := Or0(r.reasons, why) + 1])
  }

  function Charged(r: Row, e: Recording): Row {
    match e
    case Call(_, usage) => CountCall(r, usage)
    case Skip(_, why) => CountSkip(r, why)
  }

  lemma {:induction false} ChargedAddsWorth(r: Row, e: Recording, f: Field)
    ensures At(Charged(r, e), f) == At(r, f) + Worth(e, f)
  {
  }

  /** `n` is the whole part of a number reported, and zero for a negative one or none. */
  predicate Counts(j: Json, n: nat) {
    var v := NumberIn(j);
    if v.None? || v.value < 0.0 then n == 0 else n as real <= v.value < n as real + 1.0
  }

  lemma {:induction false} FigureExact(j: Json, n: nat)
    ensures Figure(j) == n <==> Counts(j, n)
  {
    if j.JReal? && j.r >= 0.0 {
      WholePart(j.r, n);
    } else {
      assert Counts(j, Figure(j));
    }
  }

  lemma {:induction false} WholePart(r: real, n: nat)
    ensures r.Floor == n <==> n as real <= r < n as real + 1.0
  {
  }

  datatype Meter = Meter(rows: map<Key, Row>, folded: nat)

  const EMPTY := Meter(map[], 0)

  /** A series keeps its row; a new one gets a row while there is room, else is folded. */
  predicate Folds(m: Meter, max: int, key: Key) {
    key !in m.rows && |m.rows| >= max
  }

  function Landing(m: Meter, max: int, key: Key): Key {
    if Folds(m, max, key) then OVERFLOW else key
  }

  function RowAt(rows: map<Key, Row>, key: Key): Row {
    if key in rows then rows[key] else NEW_ROW
  }

  function Record(m: Meter, max: int, e: Recording): Meter {
    var k := Landing(m, max, e.key);
    Meter(m.rows[k := Charged(RowAt(m.rows, k), e)], m.folded + if Folds(m, max, e.key) then 1 else 0)
  }

  /** The sum of a map's values, in whatever order they are visited. */
  ghost function SumOf<K>(m: map<K, nat>): nat
    decreases |m|
  {
    if m == map[] then 0
    else
      var k :| k in m;
      m[k] + SumOf(m - {k})
  }

  lemma {:induction false} SumInAnyOrder<K>(m: map<K, nat>, k: K)
    requires k in m
    ensures SumOf(m) == m[k] + SumOf(m - {k})
    decreases |m|
  {
    var j :| j in m && SumOf(m) == m[j] + SumOf(m - {j});
    if j != k {
      SumInAnyOrder(m - {j}, k);
      SumInAnyOrder(m - {k}, j);
      assert m - {j} - {k} == m - {k} - {j};
    }
  }

  ghost function Total(rows: map<Key, Row>, f: Field): nat {
    SumOf(map k | k in rows :: At(rows[k], f))
  }

  lemma {:induction false} TotalSplits(rows: map<Key, Row>, f: Field, k: Key)
    requires k in rows
    ensures Total(rows, f) == At(rows[k], f) + Total(rows - {k}, f)
  {
    var figures := map j | j in rows :: At(rows[j], f);
    SumInAnyOrder(figures, k);
    assert figures - {k} == map j | j in rows - {k} :: At((rows - {k})[j], f);
  }

  /** The row that a recording of `key` is counted in. */
  function HomeOf(m: Meter, max: int, key: Key): Key {
    if key in m.rows || |m.rows| < max then key
    else Key("__overflow__", "__overflow__", "__overflow__", "__overflow__", "__overflow__")
  }

  /** A call adds one to the calls of its row and what the provider reported to the three
      token figures, or one to the calls without a report; every other figure and row stays,
      and a recording sent to the overflow row is counted. */
  lemma {:induction false} CallExact(m: Meter, max: int, key: Key, usage: Option<Doc>, figures: (nat, nat, nat))
    requires usage.Some? ==>
      && Counts(Get(usage.value, "input_tokens"), figures.0)
      && Counts(Get(usage.value, "output_tokens"), figures.1)
      && Counts(Get(usage.value, "cached_tokens"), figures.2)
    ensures var (home, m') := (HomeOf(m, max, key), Record(m, max, Call(key, usage)));
            var r := if home in m.rows then m.rows[home] else Row(0, 0, 0, 0, 0, 0, map[]);
            && m'.folded == m.folded + (if key in m.rows || |m.rows| < max then 0 else 1)
            && m'.rows == m.rows[home :=
                 if usage.None? then Row(r.calls + 1, r.inputTokens, r.outputTokens, r.cachedTokens,
                                         r.skipped, r.withoutUsage + 1, r.reasons)
                 else Row(r.calls + 1, r.inputTokens + figures.0, r.outputTokens + figures.1,
                          r.cachedTokens + figures.2, r.skipped, r.withoutUsage, r.reasons)]
  {
    if usage.Some? {
      FigureExact(Get(usage.value, "input_tokens"), figures.0);
      FigureExact(Get(usage.value, "output_tokens"), figures.1);
      FigureExact(Get(usage.value, "cached_tokens"), figures.2);
    }
  }

  /** A skip adds one to the skips of its row and one under its reason, and nothing else. */
  lemma {:induction false} SkipExact(m: Meter, max: int, key: Key, why: string)
    ensures var (home, m') := (HomeOf(m, max, key), Record(m, max, Skip(key, why)));
            var r := if home in m.rows then m.rows[home] else Row(0, 0, 0, 0, 0, 0, map[]);
            && m'.folded == m.folded + (if key in m.rows || |m.rows| < max then 0 else 1)
            && m'.rows == m.rows[home :=
                 Row(r.calls, r.inputTokens, r.outputTokens, r.cachedTokens, r.skipped + 1, r.withoutUsage,
                     r.reasons[why := (if why in r.reasons then r.reasons[why] else 0) + 1])]
  {
  }

  lemma {:induction false} ChargeLands(m: Meter, max: int, e: Recording, rows: map<Key, Row>, k: Key, row: Row)
    requires k == Landing(m, max, e.key) && rows == m.rows[k := RowAt(m.rows, k)]
    requires row == Charged(rows[k], e)
    ensures rows[k := row] == Record(m, max, e).rows
  {
  }

  // ---------------------------------------------------------------- the order of the series

  /** Python's order on strings. */
  predicate Less(a: string, b: string) {
    b != "" && (a == "" || a[0] < b[0] || (a[0] == b[0] && Less(a[1..], b[1..])))
  }

  /** Python's order on tuples of strings. */
  predicate TupleLess(a: seq<string>, b: seq<string>) {
    b != [] && (a == [] || Less(a[0], b[0]) || (a[0] == b[0] && TupleLess(a[1..], b[1..])))
  }

  predicate KeyLess(a: Key, b: Key) {
    TupleLess(Fields(a), Fields(b))
  }

  function Fields(k: Key): seq<string> {
    [k.side, k.callsite, k.principal, k.provider, k.model]
  }

  lemma {:induction false} LessIsTotal(a: string, b: string)
    ensures a == b || Less(a, b) || Less(b, a)
  {
    if a != "" && b != "" && a[0] == b[0] {
      LessIsTotal(a[1..], b[1..]);
      assert a == [a[0]] + a[1..] && b == [b[0]] + b[1..];
    }
  }

  lemma {:induction false} LessIsTransitive(a: string, b: string, c: string)
    requires Less(a, b) && Less(b, c)
    ensures Less(a, c)
  {
    if a != "" && a[0] == b[0] == c[0] {
      LessIsTransitive(a[1..], b[1..], c[1..]);
    }
  }

  lemma {:induction false} TupleLessIsTotal(a: seq<string>, b: seq<string>)
    ensures a == b || TupleLess(a, b) || TupleLess(b, a)
  {
    if a != [] && b != [] {
      LessIsTotal(a[0], b[0]);
      TupleLessIsTotal(a[1..], b[1..]);
      assert a == [a[0]] + a[1..] && b == [b[0]] + b[1..];
    }
  }

  lemma {:induction false} TupleLessIsTransitive(a: seq<string>, b: seq<string>, c: seq<string>)
    requires TupleLess(a, b) && TupleLess(b, c)
    ensures TupleLess(a, c)
  {
    if a != [] {
      if Less(a[0], b[0]) && Less(b[0], c[0]) {
        LessIsTransitive(a[0], b[0], c[0]);
      } else if a[0] == b[0] == c[0] {
        TupleLessIsTransitive(a[1..], b[1..], c[1..]);
      }
    }
  }

  lemma {:induction false} KeyLessIsOrder(a: Key, b: Key, c: Key)
    ensures a == b || KeyLess(a, b) || KeyLess(b, a)
    ensures KeyLess(a, b) && KeyLess(b, c) ==> KeyLess(a, c)
  {
    TupleLessIsTotal(Fields(a), Fields(b));
    assert Fields(a) == Fields(b) ==> a == b by {
      assert Fields(a)[0] == a.side && Fields(a)[1] == a.callsite && Fields(a)[2] == a.principal
          && Fields(a)[3] == a.provider && Fields(a)[4] == a.model;
      assert Fields(b)[0] == b.side && Fields(b)[1] == b.callsite && Fields(b)[2] == b.principal
          && Fields(b)[3] == b.provider && Fields(b)[4] == b.model;
    }
    if KeyLess(a, b) && KeyLess(b, c) {
      TupleLessIsTransitive(Fields(a), Fields(b), Fields(c));
    }
  }

  ghost predicate InOrder(keys: seq<Key>) {
    forall i, j :: 0 <= i < j < |keys| ==> KeyLess(keys[i], keys[j])
  }

  lemma {:induction false} InsertInOrder(keys: seq<Key>, k: Key, i: nat)
    requires InOrder(keys) && k !in keys && i <= |keys|
    requires forall j :: 0 <= j < i ==> !KeyLess(k, keys[j])
    requires i < |keys| ==> KeyLess(k, keys[i])
    ensures InOrder(keys[..i] + [k] + keys[i..])
    ensures forall x :: x in keys[..i] + [k] + keys[i..] <==> x in keys || x == k
  {
    assert keys == keys[..i] + keys[i..];
    forall j | 0 <= j < |keys|
      ensures if j < i then KeyLess(keys[j], k) else KeyLess(k, keys[j])
    {
      assert keys[j] in keys;
      KeyLessIsOrder(k, keys[j], k);
      if i < j {
        KeyLessIsOrder(k, keys[i], keys[j]);
      }
    }
  }

  /** The keys of the rows, sorted. */
  method SortedKeys(rows: map<Key, Row>) returns (keys: seq<Key>)
    ensures InOrder(keys) && forall k :: k in keys <==> k in rows
  {
    keys := [];
    var left := rows.Keys;
    while left != {}
      invariant left <= rows.Keys && InOrder(keys)
      invariant forall k :: k in keys <==> k in rows.Keys - left
      decreases |left|
    {
      var k :| k in left;
      var i := 0;
      while i < |keys| && !KeyLess(k, keys[i])
        invariant 0 <= i <= |keys| && forall j :: 0 <= j < i ==> !KeyLess(k, keys[j])
      {
        i := i + 1;
      }
      InsertInOrder(keys, k, i);
      keys := keys[..i] + [k] + keys[i..];
      left := left - {k};
    }
  }

  class AgentTelemetry {
    const maxSeries: int
    var llm: map<Key, Row>
    var folded: nat

    constructor (maxSeries: int)
      ensures this.maxSeries == maxSeries && State() == EMPTY
    {
      this.maxSeries := maxSeries;
      llm := map[];
      folded := 0;
    }

    function State(): Meter
      reads this
    {
      Meter(llm, folded)
    }

    /** The key of the counter row for `key`, created if need be. */
    method Bucket(key: Key) returns (k: Key)
      modifies this
      ensures k == Landing(old(State()), maxSeries, key) && k in llm
      ensures llm == old(llm)[k := RowAt(old(llm), k)]
      ensures folded == old(folded) + if Folds(old(State()), maxSeries, key) then 1 else 0
    {
      if key in llm {
        return key;
      }
      if |llm| >= maxSeries {
        if OVERFLOW !in llm {
          llm := llm[OVERFLOW := NEW_ROW];
        }
        folded := folded + 1;
        return OVERFLOW;
      }
      llm := llm[key := NEW_ROW];
      k := key;
    }

    method RecordLlm(side: Option<string>, callsite: Option<string>, principal: Option<string>,
        provider: Option<string>, model: Option<string>, usage: Option<Doc>)
      modifies this
      ensures var key := Key(Norm(side), Norm(callsite), Norm(principal), Norm(provider), Norm(model));
              State() == Record(old(State()), maxSeries, Call(key, usage))
    {
      var k := Bucket(NormKey(side, callsite, principal, provider, model));
      var row := CallCounted(llm[k], usage);
      ChargeLands(old(State()), maxSeries, Call(NormKey(side, callsite, principal, provider, model), usage), llm, k, row);
      llm := llm[k := row];
    }

    static method CallCounted(row0: Row, usage: Option<Doc>) returns (row: Row)
      ensures row == CountCall(row0, usage)
    {
      row := row0.(calls := row0.calls + 1);
      if usage.None? {
        row := row.(withoutUsage := row.withoutUsage + 1);
        return;
      }
      row := row.(inputTokens := row.inputTokens + Figure(Get(usage.value, "input_tokens")));
      row := row.(outputTokens := row.outputTokens + Figure(Get(usage.value, "output_tokens")));
      row := row.(cachedTokens := row.cachedTokens + Figure(Get(usage.value, "cached_tokens")));
    }

    method RecordLlmSkip(side: Option<string>, callsite: Option<string>, principal: Option<string>,
        provider: Option<string>, model: Option<string>, reason: Option<string>)
      modifies this
      ensures var key := Key(Norm(side), Norm(callsite), Norm(principal), Norm(provider), Norm(model));
              State() == Record(old(State()), maxSeries, Skip(key, Norm(reason)))
    {
      var k := Bucket(NormKey(side, callsite, principal, provider, model));
      var row := SkipCounted(llm[k], Norm(reason));
      ChargeLands(old(State()), maxSeries, Skip(NormKey(side, callsite, principal, provider, model), Norm(reason)), llm, k, row);
      llm := llm[k := row];
    }

    static method SkipCounted(row0: Row, why: string) returns (row: Row)
      ensures row == CountSkip(row0, why)
    {
      row := row0.(skipped := row0.skipped + 1);
      var bucket := row.reasons;
      row := row.(reasons := bucket[why := Or0(bucket, why) + 1]);
    }

    /** A snapshot: every series with its row, sorted; the totals; and the two counts. */
    method GetLlmSpend() returns (series: seq<(Key, Row)>, totals: Row, seriesCount: nat, seriesFolded: nat)
      ensures forall i, j :: 0 <= i < j < |series| ==> KeyLess(series[i].0, series[j].0)
      ensures forall k, r :: (k, r) in series <==> k in llm && llm[k] == r
      ensures forall f :: At(totals, f) == Total(llm, f)
      ensures seriesCount == |llm| && seriesFolded == folded
    {
      seriesCount, seriesFolded := |llm|, folded;
      var keys := SortedKeys(llm);
      series := SeriesOf(keys, llm);
      SeriesHoldRows(keys, llm);
      totals := NEW_ROW;
      var rows := llm;
      while rows != map[]
        invariant forall f :: At(totals, f) + Total(rows, f) == Total(llm, f)
        decreases |rows|
      {
        var k :| k in rows;
        forall f ensures Total(rows, f) == At(rows[k], f) + Total(rows - {k}, f) {
          TotalSplits(rows, f, k);
        }
        totals := AddRow(totals, rows[k]);
        rows := rows - {k};
      }
    }
  }

  function SeriesOf(keys: seq<Key>, rows: map<Key, Row>): (series: seq<(Key, Row)>)
    requires forall k :: k in keys <==> k in rows
    ensures |series| == |keys| && forall i :: 0 <= i < |keys| ==> series[i] == (keys[i], rows[keys[i]])
  {
    seq(|keys|, i requires 0 <= i < |keys| => assert keys[i] in keys; (keys[i], rows[keys[i]]))
  }

  lemma {:induction false} SeriesHoldRows(keys: seq<Key>, rows: map<Key, Row>)
    requires forall k :: k in keys <==> k in rows
    ensures forall k, r :: (k, r) in SeriesOf(keys, rows) <==> k in rows && rows[k] == r
  {
    forall k, r | k in rows && rows[k] == r
      ensures (k, r) in SeriesOf(keys, rows)
    {
      var i :| 0 <= i < |keys| && keys[i] == k;
      assert SeriesOf(keys, rows)[i] == (k, r);
    }
  }

  method AddRow(a: Row, b: Row) returns (sum: Row)
    ensures forall f :: At(sum, f) == At(a, f) + At(b, f)
  {
    var reasons: map<string, nat>, left: map<string, nat> := a.reasons, b.reasons;
    while left != map[]
      invariant forall why :: Or0(reasons, why) + Or0(left, why) == Or0(a.reasons, why) + Or0(b.reasons, why)
      decreases |left|
    {
      var why :| why in left;
      reasons := reasons[why := Or0(reasons, why) + left[why]];
      left := left - {why};
    }
    sum := Row(a.calls + b.calls, a.inputTokens + b.inputTokens, a.outputTokens + b.outputTokens,
      a.cachedTokens + b.cachedTokens, a.skipped + b.skipped, a.withoutUsage + b.withoutUsage, reasons);
    forall f ensures At(sum, f) == At(a, f) + At(b, f) {
      if f.SkippedFor? {
        assert Or0(left, f.why) == 0;
      }
    }
  }
}

/** Any sequence of recordings against any bound. */
module TelemetryRuns {
  import opened Common
  import opened Telemetry

  function Run(max: int, es: seq<Recording>): Meter {
    if es == [] then EMPTY else Record(Run(max, es[..|es| - 1]), max, es[|es| - 1])
  }

  /** What the recordings that a key test picks add up to. */
  ghost function Sum(es: seq<Recording>, f: Field, picks: Key -> bool): nat {
    if es == [] then 0
    else
      var last := es[|es| - 1];
      Sum(es[..|es| - 1], f, picks) + if picks(last.key) then Worth(last, f) else 0
  }

  const EVERY_KEY: Key -> bool := (k: Key) => true

  ghost function Count(es: seq<Recording>, picks: Key -> bool): nat {
    if es == [] then 0
    else Count(es[..|es| - 1], picks) + if picks(es[|es| - 1].key) then 1 else 0
  }

  lemma {:induction false} RecordAddsWorth(m: Meter, max: int, e: Recording, f: Field)
    ensures Total(Record(m, max, e).rows, f) == Total(m.rows, f) + Worth(e, f)
  {
    var k := Landing(m, max, e.key);
    var rows := Record(m, max, e).rows;
    TotalSplits(rows, f, k);
    ChargedAddsWorth(RowAt(m.rows, k), e, f);
    assert rows - {k} == m.rows - {k};
    if k in m.rows {
      TotalSplits(m.rows, f, k);
    } else {
      assert m.rows - {k} == m.rows;
    }
  }

  /** Nothing is lost or counted twice, before or after overflow: every total is the exact
      sum over the recordings, for calls, the three token kinds, skips and every reason. */
  lemma {:induction false} TotalsAreConserved(max: int, es: seq<Recording>, f: Field)
    ensures Total(Run(max, es).rows, f) == Sum(es, f, EVERY_KEY)
  {
    if es != [] {
      TotalsAreConserved(max, es[..|es| - 1], f);
      RecordAddsWorth(Run(max, es[..|es| - 1]), max, es[|es| - 1], f);
    }
  }

  ghost predicate RowOk(r: Row) {
    SumOf(r.reasons) == r.skipped && r.withoutUsage <= r.calls
  }

  lemma {:induction false} ChargedKeepsRowOk(r: Row, e: Recording)
    requires RowOk(r)
    ensures RowOk(Charged(r, e))
  {
    if e.Skip? {
      var after := Charged(r, e).reasons;
      SumInAnyOrder(after, e.why);
      assert after - {e.why} == r.reasons - {e.why};
      if e.why in r.reasons {
        SumInAnyOrder(r.reasons, e.why);
      } else {
        assert r.reasons - {e.why} == r.reasons;
      }
    }
  }

  /** In every row the reasons add up to the skips. */
  lemma {:induction false} RowsAreSound(max: int, es: seq<Recording>)
    ensures forall k :: k in Run(max, es).rows ==> RowOk(Run(max, es).rows[k])
  {
    if es != [] {
      var m, e := Run(max, es[..|es| - 1]), es[|es| - 1];
      RowsAreSound(max, es[..|es| - 1]);
      ChargedKeepsRowOk(RowAt(m.rows, Landing(m, max, e.key)), e);
    }
  }

  /** There is at most one row past the bound, and then one of them is the overflow row. */
  lemma {:induction false} SeriesAreBounded(max: int, es: seq<Recording>)
    ensures var cap := if max < 0 then 0 else max;
            && |Run(max, es).rows| <= cap + 1
            && (|Run(max, es).rows| > cap ==> OVERFLOW in Run(max, es).rows)
  {
    if es != [] {
      var m, e := Run(max, es[..|es| - 1]), es[|es| - 1];
      SeriesAreBounded(max, es[..|es| - 1]);
      KeysGrow(m, max, e);
    }
  }

  lemma {:induction false} KeysGrow(m: Meter, max: int, e: Recording)
    ensures Record(m, max, e).rows.Keys == m.rows.Keys + {Landing(m, max, e.key)}
    ensures |Record(m, max, e).rows| == |m.rows| + if Landing(m, max, e.key) in m.rows then 0 else 1
  {
    assert |m.rows.Keys| == |m.rows|;
    assert |Record(m, max, e).rows.Keys| == |Record(m, max, e).rows|;
  }

  /** The keys whose recordings lie in the overflow row: those without a row of their own. */
  ghost function Homeless(rows: map<Key, Row>): Key -> bool {
    k => k == OVERFLOW || k !in rows
  }

  lemma {:induction false} SumExt(es: seq<Recording>, f: Field, p: Key -> bool, q: Key -> bool)
    requires forall e :: e in es ==> p(e.key) == q(e.key)
    ensures Sum(es, f, p) == Sum(es, f, q) && Count(es, p) == Count(es, q)
  {
    if es != [] {
      assert es[|es| - 1] in es;
      SumExt(es[..|es| - 1], f, p, q);
    }
  }

  lemma {:induction false} SumOfNone(es: seq<Recording>, f: Field, p: Key -> bool)
    requires forall e :: e in es ==> !p(e.key)
    ensures Sum(es, f, p) == 0
  {
    if es != [] {
      assert es[|es| - 1] in es;
      SumOfNone(es[..|es| - 1], f, p);
    }
  }

  /** While a series has no row and there is room, it has never been recorded. */
  lemma {:induction false} RoomMeansUnseen(max: int, es: seq<Recording>)
    requires |Run(max, es).rows| < max
    ensures forall e :: e in es ==> e.key in Run(max, es).rows
  {
    if es != [] {
      var m := Run(max, es[..|es| - 1]);
      var k := Landing(m, max, es[|es| - 1].key);
      SubsetSize(m.rows.Keys, Run(max, es).rows.Keys);
      RoomMeansUnseen(max, es[..|es| - 1]);
      forall e | e in es ensures e.key in Run(max, es).rows {
        assert e in es[..|es| - 1] || e == es[|es| - 1];
      }
    }
  }

  function KeysIn(es: seq<Recording>): set<Key> {
    set e | e in es :: e.key
  }

  /** Nothing is folded exactly while the series number no more than the bound, and then every
      one of them has its own row. */
  lemma {:induction false} FoldsIffTooMany(max: int, es: seq<Recording>)
    ensures Run(max, es).folded == 0 <==> |KeysIn(es)| <= if max < 0 then 0 else max
    ensures Run(max, es).folded == 0 ==> Run(max, es).rows.Keys == KeysIn(es)
  {
    if es == [] {
      assert KeysIn(es) == {};
    } else {
      var init, e := es[..|es| - 1], es[|es| - 1];
      var m := Run(max, init);
      FoldsIffTooMany(max, init);
      assert es == init + [e];
      assert KeysIn(es) == KeysIn(init) + {e.key};
      SubsetSize(KeysIn(init), KeysIn(es));
      if m.folded == 0 {
        assert |m.rows| == |m.rows.Keys| == |KeysIn(init)|;
        KeysGrow(m, max, e);
      }
    }
  }

  lemma {:induction false} OwnRowIsItsSeries(max: int, es: seq<Recording>, f: Field, k: Key)
    requires k in Run(max, es).rows && k != OVERFLOW
    ensures At(Run(max, es).rows[k], f) == Sum(es, f, j => j == k)
  {
    if es != [] {
      var init, e := es[..|es| - 1], es[|es| - 1];
      var m := Run(max, init);
      ChargedAddsWorth(RowAt(m.rows, k), e, f);
      if k in m.rows {
        OwnRowIsItsSeries(max, init, f, k);
      } else {
        RoomMeansUnseen(max, init);
        SumOfNone(init, f, j => j == k);
      }
      SumExt(init, f, j => j == k, j => j == k);
    }
  }

  lemma {:induction false} OverflowHasTheRest(max: int, es: seq<Recording>, f: Field)
    ensures At(RowAt(Run(max, es).rows, OVERFLOW), f) == Sum(es, f, Homeless(Run(max, es).rows))
  {
    if es != [] {
      var init, e := es[..|es| - 1], es[|es| - 1];
      var m := Run(max, init);
      ChargedAddsWorth(RowAt(m.rows, OVERFLOW), e, f);
      OverflowHasTheRest(max, init, f);
      if |m.rows| < max {
        RoomMeansUnseen(max, init);
      }
      SumExt(init, f, Homeless(m.rows), Homeless(Run(max, es).rows));
    }
  }

  /** Every row is exactly its series: a series with a row of its own has all its recordings
      there, and the overflow row has all those of every other series. */
  lemma {:induction false} RowsAreTheirSeries(max: int, es: seq<Recording>, f: Field)
    ensures var rows := Run(max, es).rows;
            && (forall k :: k in rows && k != OVERFLOW ==> At(rows[k], f) == Sum(es, f, j => j == k))
            && At(RowAt(rows, OVERFLOW), f) == Sum(es, f, Homeless(rows))
  {
    OverflowHasTheRest(max, es, f);
    forall k | k in Run(max, es).rows && k != OVERFLOW
      ensures At(Run(max, es).rows[k], f) == Sum(es, f, j => j == k)
    {
      OwnRowIsItsSeries(max, es, f, k);
    }
  }

  /** The folded counter is the number of recordings of series without a row; it may be one
      more when a caller itself names the overflow series. */
  lemma {:induction false} FoldedIsExact(max: int, es: seq<Recording>)
    ensures var m := Run(max, es);
            var folded := Count(es, k => k !in m.rows && k != OVERFLOW);
            && folded <= m.folded <= folded + (if OVERFLOW in m.rows then 1 else 0)
            && ((forall e :: e in es ==> e.key != OVERFLOW) ==> m.folded == folded)
  {
    if es != [] {
      var init, e := es[..|es| - 1], es[|es| - 1];
      var m, m' := Run(max, init), Run(max, es);
      FoldedIsExact(max, init);
      var p := (k: Key) => k !in m.rows && k != OVERFLOW;
      var q := (k: Key) => k !in m'.rows && k != OVERFLOW;
      if |m.rows| < max {
        RoomMeansUnseen(max, init);
      }
      SumExt(init, Calls, p, q);
      assert Count(es, q) == Count(init, q) + if q(e.key) then 1 else 0;
      assert e in es;
    }
  }
}
