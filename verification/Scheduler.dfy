/** The durable per-agent schedule: what a run's end decides, and the table that keeps it. */
module Scheduler {
  import opened Common

  const MIN_INTERVAL_S: real := 5.0
  const JITTER_FRACTION: real := 0.15

  function Max(a: real, b: real): real {
    if a >= b then a else b
  }

  function Min(a: real, b: real): real {
    if a <= b then a else b
  }

  function Jittered(interval: real, rand: real): real {
    var span := interval * JITTER_FRACTION;
    var offset := (Max(0.0, Min(1.0, rand)) * 2.0 - 1.0) * span;
    Max(MIN_INTERVAL_S, interval + offset)
  }

  /** Whatever the interval and the draw, the floor holds; above it the spread is 15%. */
  lemma {:induction false} JitteredBounds(interval: real, rand: real)
    ensures Jittered(interval, rand) >= MIN_INTERVAL_S
    ensures interval >= 0.0 ==>
              Max(MIN_INTERVAL_S, 0.85 * interval) <= Jittered(interval, rand) <= Max(MIN_INTERVAL_S, 1.15 * interval)
  {
    var u := Max(0.0, Min(1.0, rand)) * 2.0 - 1.0;
    var span := interval * JITTER_FRACTION;
    if interval >= 0.0 {
      ProductNonNegative(1.0 - u, span);
      ProductNonNegative(1.0 + u, span);
    }
  }

  lemma {:induction false} ProductNonNegative(a: real, b: real)
    requires a >= 0.0 && b >= 0.0
    ensures a * b >= 0.0
  {
  }

  datatype Decision = Decision(nextRunAt: Option<real>, failures: int, pausedReason: Option<string>)

  function AfterSuccess(now: real, interval: real, rand: real): Decision {
    Decision(Some(now + Jittered(interval, rand)), 0, None)
  }

  /** `terminal`, `reason` and `backoff` are the retry policy's answers for the exception. */
  function AfterFailure(
      terminal: bool, reason: string, backoff: int -> real, now: real, failures: int, rand: real): Decision
  {
    if terminal then Decision(None, failures + 1, Some(reason))
    else Decision(Some(now + Jittered(backoff(failures + 1), rand)), failures + 1, None)
  }

  datatype Row = Row(nextRunAt: real, failures: int, pausedReason: Option<string>)

  type Table = map<string, Row>

  /** The upsert: columns the decision does not name keep their value, or the default. */
  function Recorded(t: Table, id: string, d: Decision, now: real): Table {
    var keep := if id in t then t[id].nextRunAt else now;
    t[id := Row(if d.nextRunAt.Some? then d.nextRunAt.value else keep, d.failures, d.pausedReason)]
  }

  function Resumed(t: Table, id: string, now: real): Table {
    if id in t then t[id := Row(now, 0, None)] else t
  }

  class Schedule {
    var rows: Table

    constructor ()
      ensures rows == map[]
    {
      rows := map[];
    }

    /** `persists` is whether the database took the write; if not, nothing changed. */
    method Record(id: string, d: Decision, now: real, persists: bool) returns (ok: bool)
      modifies this
      ensures ok == persists
      ensures rows == if persists then Recorded(old(rows), id, d, now) else old(rows)
    {
      if !persists {
        return false;
      }
      var next := if id in rows then rows[id].nextRunAt else now;
      if d.nextRunAt.Some? {
        next := d.nextRunAt.value;
      }
      rows := rows[id := Row(next, d.failures, d.pausedReason)];
      ok := true;
    }

    method Resume(id: string, now: real, persists: bool) returns (ok: bool)
      modifies this
      ensures ok == persists
      ensures rows == if persists then Resumed(old(rows), id, now) else old(rows)
    {
      if !persists {
        return false;
      }
      if id in rows {
        rows := rows[id := Row(now, 0, None)];
      }
      ok := true;
    }
  }

  // ---------------------------------------------------------------- picking

  predicate Due(t: Table, id: string, now: real) {
    id in t && t[id].pausedReason == None && t[id].nextRunAt <= now
  }

  /** What the due query may return: due rows, oldest first, at most `limit`, with nothing
      left out that is older than something returned. Ties fall either way. */
  ghost predicate IsBatch(t: Table, now: real, limit: nat, ids: seq<string>) {
    && (forall i, j :: 0 <= i < j < |ids| ==> ids[i] != ids[j])
    && (forall id :: id in ids ==> Due(t, id, now))
    && (forall i, j :: 0 <= i <= j < |ids| && ids[i] in t && ids[j] in t ==> t[ids[i]].nextRunAt <= t[ids[j]].nextRunAt)
    && |ids| <= limit
    && (forall id, p :: Due(t, id, now) && id !in ids && p in ids ==> t[p].nextRunAt <= t[id].nextRunAt)
    && (|ids| < limit ==> forall id :: Due(t, id, now) ==> id in ids)
  }

  function DueSet(t: Table, now: real): set<string> {
    set id | id in t && Due(t, id, now)
  }

  lemma {:induction false} OldestOf(t: Table, s: set<string>) returns (id: string)
    requires s != {} && s <= t.Keys
    ensures id in s && forall o :: o in s ==> t[id].nextRunAt <= t[o].nextRunAt
  {
    id :| id in s;
    if s != {id} {
      var o := OldestOf(t, s - {id});
      if t[o].nextRunAt < t[id].nextRunAt {
        id := o;
      }
    }
  }

  /** Every table has a batch, so what is proved of batches is not vacuous. */
  lemma {:induction false} BatchExists(t: Table, now: real, limit: nat) returns (ids: seq<string>)
    ensures IsBatch(t, now, limit, ids)
  {
    if limit == 0 {
      ids := [];
    } else {
      ids := BatchExists(t, now, limit - 1);
      var rest := DueSet(t, now) - set id | id in ids;
      if |ids| == limit - 1 {
        if rest != {} {
          var next := OldestOf(t, rest);
          assert Due(t, next, now) && next !in ids;
          ids := ids + [next];
        } else {
          forall id | Due(t, id, now)
            ensures id in ids
          {
            assert id in DueSet(t, now) && id !in rest;
          }
        }
      }
    }
  }
}

/** Runs of the scheduler: whole ticks, and single starts, finishes and resumes. */
module SchedulerRuns {
  import opened Common
  import opened Scheduler

  /** How a run ended, when, and what went into the decision: the draws, the policy's answers
      and the failure count the caller holds. */
  datatype Outcome =
    | Succeeded(at: real, interval: real, rand: real)
    | Failed(at: real, terminal: bool, reason: string, backoff: int -> real, rand: real, failures: int)

  function Decide(o: Outcome): Decision {
    match o
    case Succeeded(at, interval, rand) => AfterSuccess(at, interval, rand)
    case Failed(at, terminal, reason, backoff, rand, failures) =>
      AfterFailure(terminal, reason, backoff, at, failures, rand)
  }

  function Finished(t: Table, id: string, o: Outcome): Table {
    Recorded(t, id, Decide(o), o.at)
  }

  /** After any end of a run the agent is paused or not due for the minimum interval. */
  lemma {:induction false} FinishedBacksOff(t: Table, id: string, o: Outcome)
    ensures var row := Finished(t, id, o)[id];
            row.pausedReason != None || row.nextRunAt >= o.at + MIN_INTERVAL_S
  {
    match o {
      case Succeeded(at, interval, rand) => JitteredBounds(interval, rand);
      case Failed(at, terminal, reason, backoff, rand, failures) => JitteredBounds(backoff(failures + 1), rand);
    }
  }

  function Clamped(rand: real): real {
    if rand < 0.0 then 0.0 else if rand > 1.0 then 1.0 else rand
  }

  /** The delay of an interval and a draw: 85 to 115 percent of it, at least five seconds. */
  function Delay(interval: real, rand: real): real {
    Max(5.0, interval * (0.85 + 0.3 * Clamped(rand)))
  }

  lemma {:induction false} JitteredIsDelay(interval: real, rand: real)
    ensures Jittered(interval, rand) == Delay(interval, rand)
  {
    var u := Clamped(rand);
    assert u == Max(0.0, Min(1.0, rand));
    assert (u * 2.0 - 1.0) * (interval * 0.15) == interval * ((u * 2.0 - 1.0) * 0.15);
    assert interval + interval * ((u * 2.0 - 1.0) * 0.15) == interval * (1.0 + (u * 2.0 - 1.0) * 0.15);
    assert 1.0 + (u * 2.0 - 1.0) * 0.15 == 0.85 + 0.3 * u;
  }

  /** The whole row after each end of a run: a success starts afresh after its interval; a
      failure that may be retried waits the policy's back-off for one failure more; a terminal
      one keeps its instant, that of the record for a new row, and is paused with the policy's
      reason. Other rows stay. */
  lemma {:induction false} FinishedRow(t: Table, id: string, o: Outcome)
    ensures Finished(t, id, o) == t[id :=
              match o
              case Succeeded(at, interval, rand) => Row(at + Delay(interval, rand), 0, None)
              case Failed(at, terminal, reason, backoff, rand, failures) =>
                if terminal then Row(if id in t then t[id].nextRunAt else at, failures + 1, Some(reason))
                else Row(at + Delay(backoff(failures + 1), rand), failures + 1, None)]
  {
    match o {
      case Succeeded(at, interval, rand) => JitteredIsDelay(interval, rand);
      case Failed(at, terminal, reason, backoff, rand, failures) => JitteredIsDelay(backoff(failures + 1), rand);
    }
  }

  /** A resume makes the one row due now, unpaused and without failures. */
  lemma {:induction false} ResumedRow(t: Table, id: string, now: real)
    ensures Resumed(t, id, now) == if id in t then t[id := Row(now, 0, None)] else t
  {
  }

  // ---------------------------------------------------------------- bounded waiting

  datatype Tick = Tick(now: real, batch: seq<string>, outcomes: map<string, Outcome>)

  /** One tick: a batch is picked, every picked agent finishes and is recorded, and no
      other row changes. */
  ghost predicate TickStep(t: Table, limit: nat, tick: Tick, t': Table) {
    && IsBatch(t, tick.now, limit, tick.batch)
    && t'.Keys == t.Keys
    && forall id :: id in t ==>
         if id in tick.batch
         then id in tick.outcomes && tick.outcomes[id].at >= tick.now
              && t'[id] == Finished(t, id, tick.outcomes[id])[id]
         else t'[id] == t[id]
  }

  ghost predicate IsTickRun(tables: seq<Table>, limit: nat, ticks: seq<Tick>) {
    && |tables| == |ticks| + 1
    && (forall i :: 0 <= i < |ticks| ==> TickAt(tables, limit, ticks, i))
    && (forall i, j :: 0 <= i <= j < |ticks| ==> ticks[i].now <= ticks[j].now)
  }

  ghost predicate TickAt(tables: seq<Table>, limit: nat, ticks: seq<Tick>, i: nat)
    requires i < |ticks| < |tables|
  {
    TickStep(tables[i], limit, ticks[i], tables[i + 1])
  }

  /** The other unpaused agents scheduled at or before this one. */
  function Ahead(t: Table, id: string): set<string>
    requires id in t
  {
    set o | o in t && o != id && t[o].pausedReason == None && t[o].nextRunAt <= t[id].nextRunAt
  }

  /** A tick that does not pick a due agent moves a full batch from ahead of it to behind
      it, or pauses them. */
  lemma {:induction false} PassedOver(t: Table, limit: nat, tick: Tick, t': Table, id: string)
    requires TickStep(t, limit, tick, t') && Due(t, id, tick.now) && id !in tick.batch
    ensures t'[id] == t[id]
    ensures |Ahead(t, id)| >= limit && |Ahead(t', id)| == |Ahead(t, id)| - limit
  {
    var picked := set o | o in tick.batch;
    BatchSize(tick.batch);
    assert picked <= Ahead(t, id);
    SubsetSize(picked, Ahead(t, id));
    forall o | o in t
      ensures o in Ahead(t', id) <==> o in Ahead(t, id) - picked
    {
      if o in tick.batch {
        FinishedBacksOff(t, o, tick.outcomes[o]);
      }
    }
    assert Ahead(t', id) == Ahead(t, id) - picked;
  }

  lemma {:induction false} BatchSize(ids: seq<string>)
    requires forall i, j :: 0 <= i < j < |ids| ==> ids[i] != ids[j]
    ensures |set o | o in ids| == |ids|
  {
    if ids != [] {
      var n := |ids| - 1;
      BatchSize(ids[..n]);
      assert (set o | o in ids) == (set o | o in ids[..n]) + {ids[n]};
    }
  }

  lemma {:induction false} LaterTicks(tables: seq<Table>, limit: nat, ticks: seq<Tick>)
    requires IsTickRun(tables, limit, ticks) && ticks != []
    ensures IsTickRun(tables[1..], limit, ticks[1..])
  {
    forall j | 0 <= j < |ticks[1..]|
      ensures TickAt(tables[1..], limit, ticks[1..], j)
    {
      assert TickAt(tables, limit, ticks, j + 1);
    }
  }

  /** A due agent with `k` other agents at or ahead of it is picked by a tick `i` with
      `i * limit <= k`: within `k / limit + 1` ticks, whichever way ties fall. */
  lemma {:induction false} BoundedWaiting(
      tables: seq<Table>, limit: nat, ticks: seq<Tick>, id: string) returns (i: nat)
    requires IsTickRun(tables, limit, ticks) && limit > 0 && ticks != []
    requires Due(tables[0], id, ticks[0].now)
    requires |Ahead(tables[0], id)| < |ticks| * limit
    ensures i < |ticks| && i * limit <= |Ahead(tables[0], id)| && id in ticks[i].batch
    decreases |ticks|
  {
    if id in ticks[0].batch {
      i := 0;
    } else {
      var k := |Ahead(tables[0], id)|;
      assert TickAt(tables, limit, ticks, 0);
      PassedOver(tables[0], limit, ticks[0], tables[1], id);
      assert |ticks| * limit == |ticks[1..]| * limit + limit;
      LaterTicks(tables, limit, ticks);
      assert ticks[1].now >= ticks[0].now;
      i := BoundedWaiting(tables[1..], limit, ticks[1..], id);
      i := i + 1;
    }
  }

  // ---------------------------------------------------------------- no spinning

  /** A finish whose decision does not persist stands for a lost write, and for a run that
      ended without one. */
  datatype Event =
    | Start(id: string, at: real)
    | Finish(id: string, outcome: Outcome, persists: bool)
    | Resume(id: string, at: real)

  /** `started` holds the start time of each run in flight. */
  datatype State = State(table: Table, started: map<string, real>)

  function When(e: Event): real {
    if e.Finish? then e.outcome.at else e.at
  }

  predicate Enabled(s: State, e: Event) {
    match e
    case Start(id, at) => Due(s.table, id, at) && id !in s.started
    case Finish(id, _, _) => id in s.started && id in s.table
    case Resume(id, at) => true
  }

  function Apply(s: State, e: Event): State
    requires Enabled(s, e)
  {
    match e
    case Start(id, at) => s.(started := s.started[id := at])
    case Finish(id, o, persists) => State(if persists then Finished(s.table, id, o) else s.table, s.started - {id})
    case Resume(id, at) => s.(table := Resumed(s.table, id, at))
  }

  ghost predicate IsRun(states: seq<State>, es: seq<Event>) {
    && |states| == |es| + 1 && states[0].started == map[]
    && (forall i :: 0 <= i < |es| ==> StepAt(states, es, i))
    && (forall i, j :: 0 <= i <= j < |es| ==> When(es[i]) <= When(es[j]))
  }

  ghost predicate StepAt(states: seq<State>, es: seq<Event>, i: nat)
    requires i < |es| < |states|
  {
    Enabled(states[i], es[i]) && states[i + 1] == Apply(states[i], es[i])
  }

  ghost predicate NoResume(es: seq<Event>, id: string, from: nat, to: nat) {
    to <= |es| && forall k :: from <= k < to ==> es[k] != Resume(id, When(es[k]))
  }

  /** Neither a resume of the agent while it is idle nor a finish whose record is lost. */
  predicate Calm(s: State, e: Event, id: string) {
    e.id == id ==> (e.Resume? ==> id in s.started) && (e.Finish? ==> e.persists)
  }

  ghost predicate CalmStretch(states: seq<State>, es: seq<Event>, id: string, from: nat, to: nat) {
    to <= |es| && to <= |states| && forall k :: from <= k < to ==> Calm(states[k], es[k], id)
  }

  /** Since its start at `at` the agent is in flight, paused, or held for the interval. */
  predicate HeldSince(s: State, id: string, at: real) {
    if id in s.started then s.started[id] == at
    else id in s.table && (s.table[id].pausedReason != None || s.table[id].nextRunAt >= at + MIN_INTERVAL_S)
  }

  lemma {:induction false} StepKeepsHeld(s: State, e: Event, id: string, at: real)
    requires Enabled(s, e) && HeldSince(s, id, at) && at <= When(e)
    requires Calm(s, e, id) && !(e.Start? && e.id == id)
    ensures HeldSince(Apply(s, e), id, at)
  {
    if e.Finish? {
      FinishedBacksOff(s.table, e.id, e.outcome);
    }
  }

  lemma {:induction false} HeldUntil(states: seq<State>, es: seq<Event>, id: string, i: nat, j: nat)
    requires IsRun(states, es) && i < j < |states| && es[i] == Start(id, When(es[i]))
    requires CalmStretch(states, es, id, i + 1, j)
    requires forall k :: i < k < j ==> es[k] != Start(id, When(es[k]))
    ensures HeldSince(states[j], id, When(es[i]))
    decreases j
  {
    assert StepAt(states, es, j - 1);
    if j > i + 1 {
      HeldUntil(states, es, id, i, j - 1);
      var e := es[j - 1];
      assert e != Start(id, When(e)) && Calm(states[j - 1], e, id);
      assert When(es[i]) <= When(e);
      StepKeepsHeld(states[j - 1], e, id, When(es[i]));
    }
  }

  /** Two consecutive starts of an agent are at least the minimum interval apart unless the
      finish between them is not recorded or a resume comes between that and the next start,
      for every interval, draw and policy. */
  lemma {:induction false} StartsAreSpaced(states: seq<State>, es: seq<Event>, id: string, i: nat, j: nat)
    requires IsRun(states, es) && i < j < |es|
    requires es[i] == Start(id, When(es[i])) && es[j] == Start(id, When(es[j]))
    requires forall k :: i < k < j ==> es[k] != Start(id, When(es[k]))
    requires CalmStretch(states, es, id, i + 1, j)
    ensures When(es[j]) >= When(es[i]) + MIN_INTERVAL_S
  {
    HeldUntil(states, es, id, i, j);
    assert StepAt(states, es, j);
  }

  /** The positions where an agent's runs start. */
  function StartsOf(es: seq<Event>, id: string): (ks: seq<nat>)
    ensures forall i :: 0 <= i < |ks| ==> ks[i] < |es| && es[ks[i]] == Start(id, When(es[ks[i]]))
    ensures forall i, j :: 0 <= i < j < |ks| ==> ks[i] < ks[j]
    ensures forall k :: 0 <= k < |es| && es[k] == Start(id, When(es[k])) ==> k in ks
  {
    if es == [] then []
    else
      var n := |es| - 1;
      var before := StartsOf(es[..n], id);
      assert forall k :: 0 <= k < n ==> es[..n][k] == es[k];
      if es[n] == Start(id, When(es[n])) then before + [n] else before
  }

  lemma {:induction false} StartsApart(states: seq<State>, es: seq<Event>, id: string, lo: nat, hi: nat)
    requires IsRun(states, es) && lo <= hi < |StartsOf(es, id)|
    requires CalmStretch(states, es, id, StartsOf(es, id)[lo], StartsOf(es, id)[hi])
    ensures var ks := StartsOf(es, id);
            When(es[ks[hi]]) - When(es[ks[lo]]) >= MIN_INTERVAL_S * (hi - lo) as real
    decreases hi - lo
  {
    var ks := StartsOf(es, id);
    if lo < hi {
      StartsApart(states, es, id, lo, hi - 1);
      NothingBetween(es, id, hi);
      StartsAreSpaced(states, es, id, ks[hi - 1], ks[hi]);
    }
  }

  lemma {:induction false} NothingBetween(es: seq<Event>, id: string, n: nat)
    requires 0 < n < |StartsOf(es, id)|
    ensures var ks := StartsOf(es, id); forall k :: ks[n - 1] < k < ks[n] ==> es[k] != Start(id, When(es[k]))
  {
    var ks := StartsOf(es, id);
    forall k | ks[n - 1] < k < ks[n]
      ensures es[k] != Start(id, When(es[k]))
    {
      forall m | 0 <= m < |ks|
        ensures ks[m] != k
      {
        assert m < n - 1 ==> ks[m] < ks[n - 1];
        assert n < m ==> ks[n] < ks[m];
      }
    }
  }

  /** A span of length `T` in which the agent is not resumed while idle and loses no record
      holds at most `floor(T / 5) + 1` of its starts, whatever happens outside the span. */
  lemma {:induction false} StartsInSpan(states: seq<State>, es: seq<Event>, id: string, lo: nat, hi: nat, T: real)
    requires IsRun(states, es) && lo <= hi < |StartsOf(es, id)|
    requires CalmStretch(states, es, id, StartsOf(es, id)[lo], StartsOf(es, id)[hi])
    requires When(es[StartsOf(es, id)[hi]]) - When(es[StartsOf(es, id)[lo]]) <= T
    ensures hi - lo + 1 <= (T / MIN_INTERVAL_S).Floor + 1
  {
    StartsApart(states, es, id, lo, hi);
    assert T / MIN_INTERVAL_S >= (hi - lo) as real;
  }

  /** A recorded terminal failure stops the agent: it is due at no time until it is resumed. */
  lemma {:induction false} TerminalStops(states: seq<State>, es: seq<Event>, id: string, i: nat, j: nat, now: real)
    requires IsRun(states, es) && i < j < |states|
    requires es[i].Finish? && es[i].id == id && es[i].persists && es[i].outcome.Failed? && es[i].outcome.terminal
    requires NoResume(es, id, i + 1, j)
    ensures !Due(states[j].table, id, now) && id in states[j].table && id !in states[j].started
    ensures forall k :: i < k < j ==> !(es[k].Start? && es[k].id == id)
    decreases j
  {
    StoppedUntil(states, es, id, i, j);
    forall k | i < k < j
      ensures !(es[k].Start? && es[k].id == id)
    {
      StoppedUntil(states, es, id, i, k);
      assert StepAt(states, es, k);
    }
  }

  lemma {:induction false} StoppedUntil(states: seq<State>, es: seq<Event>, id: string, i: nat, j: nat)
    requires IsRun(states, es) && i < j < |states|
    requires es[i].Finish? && es[i].id == id && es[i].persists && es[i].outcome.Failed? && es[i].outcome.terminal
    requires NoResume(es, id, i + 1, j)
    ensures id in states[j].table && states[j].table[id].pausedReason != None && id !in states[j].started
    decreases j
  {
    assert StepAt(states, es, j - 1);
    if j > i + 1 {
      StoppedUntil(states, es, id, i, j - 1);
      assert es[j - 1] != Resume(id, When(es[j - 1]));
    }
  }

  /** Recorded failures since the last recorded success or resume, on top of what the table
      began with. */
  function FailuresSince(es: seq<Event>, id: string, initial: int): int {
    if es == [] then initial
    else
      var e, before := es[|es| - 1], FailuresSince(es[..|es| - 1], id, initial);
      if e.Finish? && e.id == id && e.persists then (if e.outcome.Failed? then before + 1 else 0)
      else if e.Resume? && e.id == id then 0
      else before
  }

  /** The caller counts on from the stored row, not from one read before a resume. */
  predicate CountsOn(s: State, e: Event, id: string) {
    e.Finish? && e.id == id && e.persists && e.outcome.Failed? && id in s.table ==> e.outcome.failures == s.table[id].failures
  }

  lemma {:induction false} FailuresAreCounted(states: seq<State>, es: seq<Event>, id: string, j: nat)
    requires IsRun(states, es) && j < |states| && id in states[0].table
    requires forall k :: 0 <= k < j ==> CountsOn(states[k], es[k], id)
    ensures id in states[j].table
    ensures states[j].table[id].failures == FailuresSince(es[..j], id, states[0].table[id].failures)
  {
    if j > 0 {
      FailuresAreCounted(states, es, id, j - 1);
      assert StepAt(states, es, j - 1);
      assert es[..j][..j - 1] == es[..j - 1];
    }
  }

  /** A resume of an idle agent makes it startable at once, in every state. */
  lemma {:induction false} ResumeFreesStart(s: State, id: string, at: real)
    requires id in s.table && id !in s.started
    ensures Enabled(Apply(s, Resume(id, at)), Start(id, at))
  {
  }

  lemma {:induction false} RunGrows(states: seq<State>, es: seq<Event>, e: Event)
    requires IsRun(states, es) && Enabled(states[|es|], e)
    requires forall k :: 0 <= k < |es| ==> When(es[k]) <= When(e)
    ensures IsRun(states + [Apply(states[|es|], e)], es + [e])
  {
    var states', es' := states + [Apply(states[|es|], e)], es + [e];
    forall k | 0 <= k < |es'|
      ensures StepAt(states', es', k)
    {
      assert k < |es| ==> StepAt(states, es, k);
    }
  }

  /** While a run is in flight its row stays due: a start leaves it so, and a resume too. */
  lemma {:induction false} InFlightIsDue(states: seq<State>, es: seq<Event>, id: string, j: nat, at: real)
    requires IsRun(states, es) && j < |states| && id in states[j].started
    requires forall k :: 0 <= k < j ==> When(es[k]) <= at
    ensures Due(states[j].table, id, at)
    decreases j
  {
    assert StepAt(states, es, j - 1);
    if es[j - 1] != Start(id, When(es[j - 1])) {
      InFlightIsDue(states, es, id, j - 1, at);
    }
  }

  /** A finish whose record is lost, whatever its outcome, leaves a due agent startable. */
  lemma {:induction false} LostFinishFreesStart(s: State, id: string, o: Outcome, at: real)
    requires id in s.started && Due(s.table, id, at)
    ensures Enabled(Apply(s, Finish(id, o, false)), Start(id, at))
  {
  }

  lemma {:induction false} TwoMore(states: seq<State>, es: seq<Event>, e: Event, f: Event)
    requires IsRun(states, es) && Enabled(states[|es|], e) && Enabled(Apply(states[|es|], e), f)
    requires When(e) <= When(f) && forall k :: 0 <= k < |es| ==> When(es[k]) <= When(e)
    ensures var mid := Apply(states[|es|], e);
            IsRun(states + [mid] + [Apply(mid, f)], es + [e] + [f])
  {
    RunGrows(states, es, e);
    RunGrows(states + [Apply(states[|es|], e)], es + [e], f);
  }

  /** So the spacing fails exactly by those two. Every run that leaves the agent idle can go on
      with a resume and a start at any later instant, however close to its last start. */
  lemma {:induction false} ResumeStartsSooner(states: seq<State>, es: seq<Event>, id: string, at: real)
    requires IsRun(states, es) && id in states[|es|].table && id !in states[|es|].started
    requires forall k :: 0 <= k < |es| ==> When(es[k]) <= at
    ensures var resumed := Apply(states[|es|], Resume(id, at));
            && Enabled(resumed, Start(id, at))
            && IsRun(states + [resumed] + [Apply(resumed, Start(id, at))], es + [Resume(id, at)] + [Start(id, at)])
  {
    ResumeFreesStart(states[|es|], id, at);
    TwoMore(states, es, Resume(id, at), Start(id, at));
  }

  /** And every run that leaves it in flight can go on with a finish whose record is lost, be
      it a terminal failure, and a start at the same instant. */
  lemma {:induction false} LostFinishStartsSooner(states: seq<State>, es: seq<Event>, id: string, o: Outcome)
    requires IsRun(states, es) && id in states[|es|].started
    requires forall k :: 0 <= k < |es| ==> When(es[k]) <= o.at
    ensures Enabled(states[|es|], Finish(id, o, false))
    ensures var lost := Apply(states[|es|], Finish(id, o, false));
            && Enabled(lost, Start(id, o.at))
            && IsRun(states + [lost] + [Apply(lost, Start(id, o.at))], es + [Finish(id, o, false)] + [Start(id, o.at)])
  {
    InFlightIsDue(states, es, id, |es|, o.at);
    LostFinishFreesStart(states[|es|], id, o, o.at);
    TwoMore(states, es, Finish(id, o, false), Start(id, o.at));
  }
}
