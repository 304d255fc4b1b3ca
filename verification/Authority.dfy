/** The authority gate: per-day and per-week counters checked before an action and
    incremented after it. Instants are whole seconds since the Unix epoch, in UTC. */
module Authority {
  import opened Common

  const DAY := 86400

  datatype WindowKind = Day | Week

  function Midnight(t: int): int {
    t / DAY * DAY
  }

  /** Monday is 0; the epoch was a Thursday. */
  function Weekday(t: int): int {
    (t / DAY + 3) % 7
  }

  function WindowStart(kind: WindowKind, now: int): int {
    match kind
    case Day => Midnight(now)
    case Week => Midnight(now - Weekday(now) * DAY)
  }

  function WindowLength(kind: WindowKind): int {
    if kind == Day then DAY else 7 * DAY
  }

  /** The fifth of January 1970, in days. */
  const MONDAY := 4

  /** The start is the greatest point of the window grid not after `now`: a midnight, for a week
      that of a Monday. */
  lemma {:induction false} WindowContains(kind: WindowKind, now: int)
    ensures WindowStart(kind, now) <= now < WindowStart(kind, now) + WindowLength(kind)
    ensures WindowStart(kind, now) % DAY == 0
    ensures kind == Week ==> Weekday(WindowStart(kind, now)) == 0
    ensures kind == Week ==> (WindowStart(kind, now) / DAY - MONDAY) % 7 == 0
    ensures WindowStart(kind, WindowStart(kind, now)) == WindowStart(kind, now)
  {
    var d, w := now / DAY, Weekday(now);
    ShiftDays(now, -w);
    assert WindowStart(Week, now) == (d - w) * DAY;
    MultipleOfDay(d - w);
    MultipleOfDay(d);
  }

  lemma {:induction false} ShiftDays(t: int, n: int)
    ensures (t + n * DAY) / DAY == t / DAY + n
  {
  }

  lemma {:induction false} MultipleOfDay(n: int)
    ensures n * DAY / DAY == n && n * DAY % DAY == 0
  {
  }

  lemma {:induction false} WindowMonotone(kind: WindowKind, a: int, b: int)
    requires a <= b
    ensures WindowStart(kind, a) <= WindowStart(kind, b)
  {
    assert a / DAY <= b / DAY;
    if kind == Week {
      WeekStart(a);
      WeekStart(b);
      WeekFloor(a / DAY, b / DAY);
    }
  }

  lemma {:induction false} WeekStart(t: int)
    ensures WindowStart(Week, t) == (t / DAY - (t / DAY + 3) % 7) * DAY
  {
    ShiftDays(t, -Weekday(t));
  }

  lemma {:induction false} WeekFloor(d: int, e: int)
    requires d <= e
    ensures d - (d + 3) % 7 <= e - (e + 3) % 7
  {
    assert (d + 3) / 7 <= (e + 3) / 7;
  }

  // ---------------------------------------------------------------- reads and constraints

  /** A stored count as it comes back: null, a number, or text that is none. */
  datatype Stored = Null | Number(n: int) | Unparseable

  /** What a database read gives: it raised, it failed quietly, or it has rows. */
  datatype Read<T> = Raised | NoResult | Rows(rows: seq<T>)

  /** The usage count, or None for the lookup error. */
  function UsageCount(read: Read<Stored>): Option<int> {
    match read
    case Raised => None
    case NoResult => Some(0)
    case Rows(rows) =>
      if rows == [] then Some(0)
      else
        match rows[0]
        case Null => Some(0)
        case Number(n) => Some(n)
        case Unparseable => None
  }

  datatype Hours = AnyHour | BadHours | Between(from: int, to: int)

  datatype Constraints = Constraints(
    maxPerDay: Option<int>, maxPerWeek: Option<int>,
    types: seq<string>, maxMinutes: Option<int>, hours: Hours)

  datatype Context = Context(kind: string, minutes: Option<int>, hour: Option<int>)

  datatype Verdict = Fine | DayCap | WeekCap | TypeNotAllowed | TooLong | OutsideHours

  function CheckConstraints(action: string, c: Constraints, ctx: Context, perDay: int, perWeek: int): Verdict {
    if c.maxPerDay.Some? && perDay >= c.maxPerDay.value then DayCap
    else if c.maxPerWeek.Some? && perWeek >= c.maxPerWeek.value then WeekCap
    else if action == "rsvp_event" && c.types != [] && ctx.kind != "" && ctx.kind !in c.types then TypeNotAllowed
    else if action != "accept_meeting" then Fine
    else if c.maxMinutes.Some? && c.maxMinutes.value != 0 && ctx.minutes.Some? && ctx.minutes.value != 0
            && ctx.minutes.value > c.maxMinutes.value then TooLong
    else if c.hours.Between? && ctx.hour.Some? && !(c.hours.from <= ctx.hour.value < c.hours.to) then OutsideHours
    else Fine
  }

  const VALID_ACTIONS: set<string> := {
    "submit_intent", "respond_to_intent", "submit_call", "respond_to_call", "update_projection",
    "rsvp_event", "accept_meeting", "start_conversation", "cross_chapter_message",
    "publish_public_note", "save_private_note"
  }

  datatype ScopeRow = ScopeRow(allowed: bool, constraints: Constraints)

  datatype Decision =
    | UnknownAction
    | NoScope
    | NotAllowed
    | QuotaCheckFailed
    | Denied(verdict: Verdict)
    | Permitted

  /** Any failure to read the scope is no scope. */
  function GetScope(read: Read<ScopeRow>): Option<ScopeRow> {
    if read.Rows? && read.rows != [] then Some(read.rows[0]) else None
  }

  function CheckAuthority(
      action: string, scope: Read<ScopeRow>, day: Read<Stored>, week: Read<Stored>, ctx: Context): Decision
  {
    if action !in VALID_ACTIONS then UnknownAction
    else if GetScope(scope).None? then NoScope
    else if !GetScope(scope).value.allowed then NotAllowed
    else
      var c := GetScope(scope).value.constraints;
      var perDay := if c.maxPerDay.Some? then UsageCount(day) else Some(0);
      var perWeek := if c.maxPerWeek.Some? then UsageCount(week) else Some(0);
      if perDay.None? || perWeek.None? then QuotaCheckFailed
      else
        var v := CheckConstraints(action, c, ctx, perDay.value, perWeek.value);
        if v == Fine then Permitted else Denied(v)
  }

  /** A usage read that raised, or whose count is not a number. */
  predicate Unreadable(read: Read<Stored>) {
    read.Raised? || (read.Rows? && read.rows != [] && read.rows[0].Unparseable?)
  }

  /** A permitted action has a scope that allows it, and every capped count was read and is
      below its cap; an unreadable count never permits. */
  lemma {:induction false} PermittedOnlyBelowCaps(
      action: string, scope: Read<ScopeRow>, day: Read<Stored>, week: Read<Stored>, ctx: Context)
    requires CheckAuthority(action, scope, day, week, ctx) == Permitted
    ensures action in VALID_ACTIONS && scope.Rows? && scope.rows != [] && scope.rows[0].allowed
    ensures var c := scope.rows[0].constraints;
            && (c.maxPerDay.Some? ==> !Unreadable(day) && UsageCount(day).value < c.maxPerDay.value)
            && (c.maxPerWeek.Some? ==> !Unreadable(week) && UsageCount(week).value < c.maxPerWeek.value)
  {
  }

  predicate Capped(c: Constraints, kind: WindowKind) {
    if kind == Day then c.maxPerDay.Some? else c.maxPerWeek.Some?
  }

  function CapOf(c: Constraints, kind: WindowKind): int
    requires Capped(c, kind)
  {
    if kind == Day then c.maxPerDay.value else c.maxPerWeek.value
  }

  function Uncapped(c: Constraints, kind: WindowKind): Constraints {
    if kind == Day then c.(maxPerDay := None) else c.(maxPerWeek := None)
  }

  /** A read that failed quietly is not unreadable: it counts as no usage. Whichever window's
      cap denies an action, a quiet failure of that window's read permits it instead exactly
      when the cap is positive and nothing but that cap denies. */
  lemma {:induction false} QuietFailureBypassesIff(
      action: string, row: ScopeRow, kind: WindowKind, day: Read<Stored>, week: Read<Stored>, ctx: Context)
    requires CheckAuthority(action, Rows([row]), day, week, ctx) == Denied(if kind == Day then DayCap else WeekCap)
    ensures var c := row.constraints;
            var perDay := if kind == Week && c.maxPerDay.Some? then UsageCount(day).value else 0;
            var perWeek := if kind == Day && c.maxPerWeek.Some? then UsageCount(week).value else 0;
            var quietDay := if kind == Day then NoResult else day;
            var quietWeek := if kind == Week then NoResult else week;
            CheckAuthority(action, Rows([row]), quietDay, quietWeek, ctx) == Permitted
            <==> CapOf(c, kind) > 0 && CheckConstraints(action, Uncapped(c, kind), ctx, perDay, perWeek) == Fine
  {
  }

  predicate AtCap(cap: Option<int>, used: int) {
    cap.Some? && cap.value <= used
  }

  predicate WrongType(action: string, c: Constraints, ctx: Context) {
    action == "rsvp_event" && c.types != [] && ctx.kind != "" && ctx.kind !in c.types
  }

  predicate OverLong(action: string, c: Constraints, ctx: Context) {
    && action == "accept_meeting" && c.maxMinutes.Some? && ctx.minutes.Some?
    && c.maxMinutes.value != 0 && ctx.minutes.value != 0 && c.maxMinutes.value < ctx.minutes.value
  }

  predicate OffHours(action: string, c: Constraints, ctx: Context) {
    && action == "accept_meeting" && c.hours.Between? && ctx.hour.Some?
    && (ctx.hour.value < c.hours.from || c.hours.to <= ctx.hour.value)
  }

  /** An attempt is fine exactly when no constraint is violated, and is denied for the first
      that is: the day's cap, the week's, the type, the length, the hours. */
  lemma {:induction false} ConstraintsExact(action: string, c: Constraints, ctx: Context, perDay: int, perWeek: int)
    ensures var v := CheckConstraints(action, c, ctx, perDay, perWeek);
            var day, week := AtCap(c.maxPerDay, perDay), AtCap(c.maxPerWeek, perWeek);
            && (v == DayCap <==> day)
            && (v == WeekCap <==> !day && week)
            && (v == TypeNotAllowed <==> !day && !week && WrongType(action, c, ctx))
            && (v == TooLong <==> !day && !week && OverLong(action, c, ctx))
            && (v == OutsideHours <==> !day && !week && !OverLong(action, c, ctx) && OffHours(action, c, ctx))
            && (v == Fine <==> && !day && !week && !WrongType(action, c, ctx)
                               && !OverLong(action, c, ctx) && !OffHours(action, c, ctx))
  {
  }

  /** What a read says was used: nothing when it fails quietly, has no row or a null. */
  function Used(read: Read<Stored>): int
    requires !Unreadable(read)
  {
    if read.Rows? && read.rows != [] && read.rows[0].Number? then read.rows[0].n else 0
  }

  predicate Countable(cap: Option<int>, read: Read<Stored>) {
    cap.Some? ==> !Unreadable(read)
  }

  function UsedFor(cap: Option<int>, read: Read<Stored>): int
    requires Countable(cap, read)
  {
    if cap.Some? then Used(read) else 0
  }

  /** Every decision of the gate: an unknown action, no scope that could be read, a scope that
      forbids, a capped count that could not be read, and else the constraints' verdict. */
  lemma {:induction false} AuthorityAnswers(
      action: string, scope: Read<ScopeRow>, day: Read<Stored>, week: Read<Stored>, ctx: Context)
    ensures var d := CheckAuthority(action, scope, day, week, ctx);
            var found := action in VALID_ACTIONS && scope.Rows? && scope.rows != [];
            && (d == UnknownAction <==> action !in VALID_ACTIONS)
            && (d == NoScope <==> action in VALID_ACTIONS && !found)
            && (d == NotAllowed <==> found && !scope.rows[0].allowed)
            && (found && scope.rows[0].allowed ==>
                  var c := scope.rows[0].constraints;
                  var readable := Countable(c.maxPerDay, day) && Countable(c.maxPerWeek, week);
                  && (d == QuotaCheckFailed <==> !readable)
                  && (readable ==>
                        var v := CheckConstraints(
                          action, c, ctx, UsedFor(c.maxPerDay, day), UsedFor(c.maxPerWeek, week));
                        d == if v == Fine then Permitted else Denied(v)))
  {
  }

  // ---------------------------------------------------------------- counters

  datatype Bucket = Bucket(agent: string, action: string, kind: WindowKind, start: int)

  type Usage = map<Bucket, int>

  function CountIn(u: Usage, b: Bucket): int {
    if b in u then u[b] else 0
  }

  /** What goes wrong in counting one window: the read of its row raises, or answers None; the
      write raises or answers None. */
  datatype Faults = Faults(raised: bool, quiet: bool, write: bool)

  /** A quiet read looks like no row, so a first row is inserted, which the unique index refuses
      if there is one. */
  predicate Lands(u: Usage, b: Bucket, f: Faults) {
    !f.raised && !f.write && (b in u ==> !f.quiet)
  }

  function Bump(
      u: Usage, c: Constraints, agent: string, action: string, kind: WindowKind, at: int, f: Faults): Usage
  {
    var b := Bucket(agent, action, kind, WindowStart(kind, at));
    if Capped(c, kind) && Lands(u, b, f) then u[b := CountIn(u, b) + 1] else u
  }

  /** Both counters, each at the instant its own clock read gave and with its own failures. */
  function RecordUsage(
      u: Usage, c: Constraints, agent: string, action: string, dayAt: int, weekAt: int, day: Faults, week: Faults): Usage
  {
    Bump(Bump(u, c, agent, action, Day, dayAt, day), c, agent, action, Week, weekAt, week)
  }

  class UsageTable {
    var counts: Usage

    constructor ()
      ensures counts == map[]
    {
      counts := map[];
    }

    /** `scope` is what the scope lookup gave; without one, as when it fails, nothing is counted. */
    method Record(
        agent: string, action: string, scope: Option<ScopeRow>, dayAt: int, weekAt: int, day: Faults, week: Faults)
      modifies this
      ensures counts == if scope.None? then old(counts)
                        else RecordUsage(old(counts), scope.value.constraints, agent, action, dayAt, weekAt, day, week)
    {
      if scope.None? {
        return;
      }
      var c := scope.value.constraints;
      var kinds := [Day, Week];
      for i := 0 to |kinds|
        invariant counts == if i == 0 then old(counts)
                            else if i == 1 then Bump(old(counts), c, agent, action, Day, dayAt, day)
                            else RecordUsage(old(counts), c, agent, action, dayAt, weekAt, day, week)
      {
        var kind := kinds[i];
        if !Capped(c, kind) {
          continue;
        }
        var at, f := if kind == Day then dayAt else weekAt, if kind == Day then day else week;
        Increment(Bucket(agent, action, kind, WindowStart(kind, at)), f);
      }
    }

    /** One window: the read, then an update of the row found or an insert of a first one. */
    method Increment(b: Bucket, f: Faults)
      modifies this
      ensures counts == if Lands(old(counts), b, f) then old(counts)[b := CountIn(old(counts), b) + 1] else old(counts)
    {
      if f.raised {
        return;
      }
      if b in counts && !f.quiet {
        if !f.write {
          counts := counts[b := counts[b] + 1];
        }
      } else if !f.write && b !in counts {
        counts := counts[b := 1];
      }
    }
  }
}

/** Sequential runs of check, act and record under one scope, any database call failing. */
module AuthorityRuns {
  import opened Common
  import opened Authority

  /** One permitted round: its four clock reads, what the check was asked about, which of the
      check's reads answered None, and what failed in the recording. */
  datatype Round = Round(
    checkDay: int, checkWeek: int, recordDay: int, recordWeek: int, ctx: Context,
    quietDay: bool, quietWeek: bool, scopeLost: bool, day: Faults, week: Faults)

  datatype Scope = Scope(agent: string, action: string, row: ScopeRow)

  function BucketOf(s: Scope, kind: WindowKind, at: int): Bucket {
    Bucket(s.agent, s.action, kind, WindowStart(kind, at))
  }

  function ReadOf(u: Usage, s: Scope, kind: WindowKind, at: int, quiet: bool): Read<Stored> {
    var b := BucketOf(s, kind, at);
    if quiet then NoResult else if b in u then Rows([Number(u[b])]) else Rows([])
  }

  function After(rounds: seq<Round>, s: Scope): Usage {
    if rounds == [] then map[]
    else
      var n := |rounds| - 1;
      var u, r := After(rounds[..n], s), rounds[n];
      if r.scopeLost then u
      else RecordUsage(u, s.row.constraints, s.agent, s.action, r.recordDay, r.recordWeek, r.day, r.week)
  }

  /** Every round was permitted on the counts before it, and the clock never goes back. */
  ghost predicate IsRun(rounds: seq<Round>, s: Scope) {
    && (forall i :: 0 <= i < |rounds| ==> InOrder(rounds[i]) && PermittedAt(rounds, s, i))
    && (forall i, j :: 0 <= i < j < |rounds| ==> rounds[i].recordWeek <= rounds[j].checkDay)
  }

  predicate InOrder(r: Round) {
    r.checkDay <= r.checkWeek <= r.recordDay <= r.recordWeek
  }

  predicate PermittedAt(rounds: seq<Round>, s: Scope, i: nat)
    requires i < |rounds|
  {
    PermittedOn(After(rounds[..i], s), s, rounds[i])
  }

  predicate PermittedOn(u: Usage, s: Scope, r: Round) {
    CheckAuthority(s.action, Rows([s.row]),
                   ReadOf(u, s, Day, r.checkDay, r.quietDay), ReadOf(u, s, Week, r.checkWeek, r.quietWeek), r.ctx)
    == Permitted
  }

  function RecordedAt(r: Round, kind: WindowKind): int {
    if kind == Day then r.recordDay else r.recordWeek
  }

  function CheckedAt(r: Round, kind: WindowKind): int {
    if kind == Day then r.checkDay else r.checkWeek
  }

  predicate QuietAt(r: Round, kind: WindowKind) {
    if kind == Day then r.quietDay else r.quietWeek
  }

  /** Whether this round's recording reaches the counter of its window. */
  predicate LandsOn(u: Usage, s: Scope, r: Round, kind: WindowKind) {
    !r.scopeLost && Lands(u, BucketOf(s, kind, RecordedAt(r, kind)), if kind == Day then r.day else r.week)
  }

  function Hit(kind: WindowKind, t: int, start: int): nat {
    if WindowStart(kind, t) == start then 1 else 0
  }

  /** How many actions were performed, by the instant of their recording, in the window. */
  function ActionsIn(rounds: seq<Round>, kind: WindowKind, start: int): nat {
    if rounds == [] then 0
    else
      var n := |rounds| - 1;
      ActionsIn(rounds[..n], kind, start) + Hit(kind, RecordedAt(rounds[n], kind), start)
  }

  /** How many of them reached the counter. */
  function LandedIn(rounds: seq<Round>, s: Scope, kind: WindowKind, start: int): nat {
    if rounds == [] then 0
    else
      var n := |rounds| - 1;
      var landed := LandsOn(After(rounds[..n], s), s, rounds[n], kind);
      LandedIn(rounds[..n], s, kind, start) + if landed then Hit(kind, RecordedAt(rounds[n], kind), start) else 0
  }

  /** How many of them did not. */
  function LostIn(rounds: seq<Round>, s: Scope, kind: WindowKind, start: int): nat {
    if rounds == [] then 0
    else
      var n := |rounds| - 1;
      var landed := LandsOn(After(rounds[..n], s), s, rounds[n], kind);
      LostIn(rounds[..n], s, kind, start) + if landed then 0 else Hit(kind, RecordedAt(rounds[n], kind), start)
  }

  /** How many landed although the check's read of the window had answered None. */
  function QuietIn(rounds: seq<Round>, s: Scope, kind: WindowKind, start: int): nat {
    if rounds == [] then 0
    else
      var n := |rounds| - 1;
      var landed := LandsOn(After(rounds[..n], s), s, rounds[n], kind);
      QuietIn(rounds[..n], s, kind, start)
      + if landed && QuietAt(rounds[n], kind) then Hit(kind, RecordedAt(rounds[n], kind), start) else 0
  }

  lemma {:induction false} ActionsLandOrAreLost(rounds: seq<Round>, s: Scope, kind: WindowKind, start: int)
    ensures ActionsIn(rounds, kind, start) == LandedIn(rounds, s, kind, start) + LostIn(rounds, s, kind, start)
  {
    if rounds != [] {
      ActionsLandOrAreLost(rounds[..|rounds| - 1], s, kind, start);
    }
  }

  /** What one recording does to one counter. */
  lemma {:induction false} RecordingCounts(u: Usage, s: Scope, r: Round, b: Bucket)
    ensures var c := s.row.constraints;
            var u' := if r.scopeLost then u
                      else RecordUsage(u, c, s.agent, s.action, r.recordDay, r.recordWeek, r.day, r.week);
            CountIn(u', b) == CountIn(u, b)
              + if b.agent == s.agent && b.action == s.action && Capped(c, b.kind) && LandsOn(u, s, r, b.kind)
                then Hit(b.kind, RecordedAt(r, b.kind), b.start) else 0
  {
  }

  /** Each capped counter is the number of recordings that landed in its window; no other
      bucket is touched. */
  lemma {:induction false} CountsAreActions(rounds: seq<Round>, s: Scope, b: Bucket)
    ensures CountIn(After(rounds, s), b)
         == if b.agent == s.agent && b.action == s.action && Capped(s.row.constraints, b.kind)
            then LandedIn(rounds, s, b.kind, b.start) else 0
  {
    if rounds != [] {
      var n := |rounds| - 1;
      CountsAreActions(rounds[..n], s, b);
      RecordingCounts(After(rounds[..n], s), s, rounds[n], b);
    }
  }

  /** A window that starts after every recorded instant has no action yet. */
  lemma {:induction false} NothingInLaterWindow(rounds: seq<Round>, kind: WindowKind, at: int, start: int)
    requires forall i :: 0 <= i < |rounds| ==> RecordedAt(rounds[i], kind) <= at
    requires WindowStart(kind, at) < start
    ensures ActionsIn(rounds, kind, start) == 0
  {
    if rounds != [] {
      NothingInLaterWindow(rounds[..|rounds| - 1], kind, at, start);
      WindowMonotone(kind, RecordedAt(rounds[|rounds| - 1], kind), at);
    }
  }

  function Cap0(s: Scope, kind: WindowKind): nat
    requires Capped(s.row.constraints, kind)
  {
    if CapOf(s.row.constraints, kind) > 0 then CapOf(s.row.constraints, kind) else 0
  }

  /** The check bounds the window it reads; if the clock crosses into the next window before
      the recording, that window was still empty. */
  lemma {:induction false} LandedWithinCap(rounds: seq<Round>, s: Scope, kind: WindowKind, start: int)
    requires IsRun(rounds, s) && Capped(s.row.constraints, kind)
    ensures LandedIn(rounds, s, kind, start) <= Cap0(s, kind) + QuietIn(rounds, s, kind, start)
  {
    if rounds != [] {
      var n := |rounds| - 1;
      ShorterRun(rounds, s);
      LandedWithinCap(rounds[..n], s, kind, start);
      if WindowStart(kind, RecordedAt(rounds[n], kind)) == start && !QuietAt(rounds[n], kind) {
        LastRoundUnderCap(rounds, s, kind);
      }
    }
  }

  lemma {:induction false} ShorterRun(rounds: seq<Round>, s: Scope)
    requires IsRun(rounds, s) && rounds != []
    ensures IsRun(rounds[..|rounds| - 1], s)
  {
    var before := rounds[..|rounds| - 1];
    forall i | 0 <= i < |before|
      ensures PermittedAt(before, s, i)
    {
      assert before[..i] == rounds[..i];
      assert PermittedAt(rounds, s, i);
    }
  }

  lemma {:induction false} PermittedIsUnderCap(u: Usage, s: Scope, r: Round, kind: WindowKind)
    requires PermittedOn(u, s, r) && Capped(s.row.constraints, kind) && !QuietAt(r, kind)
    ensures CountIn(u, BucketOf(s, kind, CheckedAt(r, kind))) < CapOf(s.row.constraints, kind)
  {
    PermittedOnlyBelowCaps(s.action, Rows([s.row]),
      ReadOf(u, s, Day, r.checkDay, r.quietDay), ReadOf(u, s, Week, r.checkWeek, r.quietWeek), r.ctx);
  }

  lemma {:induction false} LastRoundUnderCap(rounds: seq<Round>, s: Scope, kind: WindowKind)
    requires IsRun(rounds, s) && rounds != [] && Capped(s.row.constraints, kind)
    requires !QuietAt(rounds[|rounds| - 1], kind)
    ensures var n := |rounds| - 1;
            LandedIn(rounds[..n], s, kind, WindowStart(kind, RecordedAt(rounds[n], kind))) < CapOf(s.row.constraints, kind)
  {
    var n := |rounds| - 1;
    var before, r := rounds[..n], rounds[n];
    var checked, recorded := CheckedAt(r, kind), RecordedAt(r, kind);
    assert PermittedAt(rounds, s, n);
    PermittedIsUnderCap(After(before, s), s, r, kind);
    CountsAreActions(before, s, BucketOf(s, kind, checked));
    WindowMonotone(kind, checked, recorded);
    if WindowStart(kind, recorded) != WindowStart(kind, checked) {
      NothingInLaterWindow(before, kind, checked, WindowStart(kind, recorded));
      ActionsLandOrAreLost(before, s, kind, WindowStart(kind, recorded));
    }
  }

  /** In every sequential run each counter is the recordings that landed in its window. They are
      at most the cap, and one more for each whose check read None; and the actions of the window
      are those and the lost ones. Without either failure no window exceeds its cap. */
  lemma {:induction false} BudgetsHold(rounds: seq<Round>, s: Scope, kind: WindowKind, start: int)
    requires IsRun(rounds, s) && Capped(s.row.constraints, kind)
    ensures CountIn(After(rounds, s), Bucket(s.agent, s.action, kind, start)) == LandedIn(rounds, s, kind, start)
    ensures LandedIn(rounds, s, kind, start) <= Cap0(s, kind) + QuietIn(rounds, s, kind, start)
    ensures ActionsIn(rounds, kind, start) == LandedIn(rounds, s, kind, start) + LostIn(rounds, s, kind, start)
  {
    CountsAreActions(rounds, s, Bucket(s.agent, s.action, kind, start));
    LandedWithinCap(rounds, s, kind, start);
    ActionsLandOrAreLost(rounds, s, kind, start);
  }

  /** Nothing of this round failed. */
  predicate Faultless(r: Round) {
    var none := Faults(false, false, false);
    !r.quietDay && !r.quietWeek && !r.scopeLost && r.day == none && r.week == none
  }

  lemma {:induction false} FaultlessLands(rounds: seq<Round>, s: Scope, kind: WindowKind, start: int)
    requires forall i :: 0 <= i < |rounds| ==> Faultless(rounds[i])
    ensures LostIn(rounds, s, kind, start) == 0 && QuietIn(rounds, s, kind, start) == 0
  {
    if rounds != [] {
      FaultlessLands(rounds[..|rounds| - 1], s, kind, start);
    }
  }

  /** So in a run where nothing fails every action is counted, and no window exceeds its cap. */
  lemma {:induction false} FaultlessBudgets(rounds: seq<Round>, s: Scope, kind: WindowKind, start: int)
    requires IsRun(rounds, s) && Capped(s.row.constraints, kind)
    requires forall i :: 0 <= i < |rounds| ==> Faultless(rounds[i])
    ensures CountIn(After(rounds, s), Bucket(s.agent, s.action, kind, start)) == ActionsIn(rounds, kind, start)
    ensures ActionsIn(rounds, kind, start) <= Cap0(s, kind)
  {
    BudgetsHold(rounds, s, kind, start);
    FaultlessLands(rounds, s, kind, start);
  }

  /** The recording left no trace in any capped window. */
  predicate LeavesNoTrace(u: Usage, s: Scope, r: Round) {
    forall kind: WindowKind :: Capped(s.row.constraints, kind) ==> !LandsOn(u, s, r, kind)
  }

  lemma {:induction false} NoTraceKeepsCounts(u: Usage, s: Scope, r: Round)
    requires LeavesNoTrace(u, s, r) && !r.scopeLost
    ensures RecordUsage(u, s.row.constraints, s.agent, s.action, r.recordDay, r.recordWeek, r.day, r.week) == u
  {
    var c := s.row.constraints;
    assert Capped(c, Day) ==> !LandsOn(u, s, r, Day);
    assert Capped(c, Week) ==> !LandsOn(u, s, r, Week);
    assert Bump(u, c, s.agent, s.action, Day, r.recordDay, r.day) == u;
  }

  predicate AsksTheSame(r: Round, r': Round) {
    && r.ctx == r'.ctx && r.quietDay == r'.quietDay && r.quietWeek == r'.quietWeek
    && WindowStart(Day, r.checkDay) == WindowStart(Day, r'.checkDay)
    && WindowStart(Week, r.checkWeek) == WindowStart(Week, r'.checkWeek)
  }

  lemma {:induction false} RunGrows(rounds: seq<Round>, s: Scope, r: Round)
    requires IsRun(rounds, s) && InOrder(r) && PermittedOn(After(rounds, s), s, r)
    requires forall i :: 0 <= i < |rounds| ==> rounds[i].recordWeek <= r.checkDay
    ensures IsRun(rounds + [r], s)
  {
    var all := rounds + [r];
    forall i | 0 <= i < |all|
      ensures PermittedAt(all, s, i)
    {
      if i < |rounds| {
        assert all[..i] == rounds[..i] && PermittedAt(rounds, s, i);
      } else {
        assert all[..i] == rounds;
      }
    }
  }

  lemma {:induction false} LaterThanAll(rounds: seq<Round>, s: Scope, at: int)
    requires IsRun(rounds, s) && rounds != [] && rounds[|rounds| - 1].recordWeek <= at
    ensures forall i :: 0 <= i < |rounds| ==> rounds[i].recordWeek <= at
  {
    var n := |rounds| - 1;
    forall i | 0 <= i < n
      ensures rounds[i].recordWeek <= at
    {
      assert rounds[i].recordWeek <= rounds[n].checkDay && InOrder(rounds[n]);
    }
  }

  /** And every lost recording does let another action through: any run whose last recording
      left no trace goes on with any later round that asks the same in the same windows. */
  lemma {:induction false} LostRecordingPermitsAgain(rounds: seq<Round>, s: Scope, r: Round)
    requires IsRun(rounds, s) && rounds != [] && InOrder(r)
    requires var n := |rounds| - 1;
             && LeavesNoTrace(After(rounds[..n], s), s, rounds[n])
             && AsksTheSame(rounds[n], r) && rounds[n].recordWeek <= r.checkDay
    ensures IsRun(rounds + [r], s)
  {
    var n := |rounds| - 1;
    var u := After(rounds[..n], s);
    if !rounds[n].scopeLost {
      NoTraceKeepsCounts(u, s, rounds[n]);
    }
    assert PermittedAt(rounds, s, n);
    SamePermission(u, s, rounds[n], r);
    LaterThanAll(rounds, s, r.checkDay);
    RunGrows(rounds, s, r);
  }

  lemma {:induction false} SamePermission(u: Usage, s: Scope, r: Round, r': Round)
    requires PermittedOn(u, s, r) && AsksTheSame(r, r')
    ensures PermittedOn(u, s, r')
  {
    assert ReadOf(u, s, Day, r.checkDay, r.quietDay) == ReadOf(u, s, Day, r'.checkDay, r'.quietDay);
    assert ReadOf(u, s, Week, r.checkWeek, r.quietWeek) == ReadOf(u, s, Week, r'.checkWeek, r'.quietWeek);
  }

  /** With a cap of one a day, an action whose recording is lost is followed by another. */
  lemma {:induction false} LostRecordingExceedsCap(agent: string, noon: int)
    ensures var c := Constraints(Some(1), None, [], None, AnyHour);
            var s := Scope(agent, "submit_call", ScopeRow(true, c));
            var lost := Faults(false, false, true);
            var r := Round(noon, noon, noon, noon, Context("", None, None), false, false, false, lost, lost);
            IsRun([r, r], s) && ActionsIn([r, r], Day, WindowStart(Day, noon)) == 2
  {
    var s := Scope(agent, "submit_call", ScopeRow(true, Constraints(Some(1), None, [], None, AnyHour)));
    var lost := Faults(false, false, true);
    var r := Round(noon, noon, noon, noon, Context("", None, None), false, false, false, lost, lost);
    var none: seq<Round> := [];
    assert [r][..0] == none && After(none, s) == map[] && PermittedOn(map[], s, r);
    LostRecordingPermitsAgain([r], s, r);
    assert [r] + [r] == [r, r] && [r, r][..1] == [r];
    assert ActionsIn([r], Day, WindowStart(Day, noon)) == 1;
  }

  // ---------------------------------------------------------------- weeks and days

  /** The seven days of the week that starts on this Monday. */
  function DaysOfWeek(f: int -> int, monday: int): int {
    f(monday) + f(monday + DAY) + f(monday + 2 * DAY) + f(monday + 3 * DAY)
    + f(monday + 4 * DAY) + f(monday + 5 * DAY) + f(monday + 6 * DAY)
  }

  lemma {:induction false} WeekOfDay(t: int, monday: int)
    requires monday % DAY == 0 && Weekday(monday) == 0
    ensures WindowStart(Week, t) == monday <==> monday <= Midnight(t) <= monday + 6 * DAY
    ensures (Midnight(t) - monday) % DAY == 0
  {
    var d, w, m := t / DAY, Weekday(t), monday / DAY;
    ShiftDays(t, -w);
    assert monday == m * DAY;
  }

  /** An instant of the week is on exactly one of its days. */
  lemma {:induction false} OneDayOfTheWeek(t: int, monday: int)
    requires monday % DAY == 0 && Weekday(monday) == 0
    ensures Hit(Week, t, monday)
         == Hit(Day, t, monday) + Hit(Day, t, monday + DAY) + Hit(Day, t, monday + 2 * DAY)
          + Hit(Day, t, monday + 3 * DAY) + Hit(Day, t, monday + 4 * DAY) + Hit(Day, t, monday + 5 * DAY)
          + Hit(Day, t, monday + 6 * DAY)
  {
    WeekOfDay(t, monday);
  }

  /** With one instant per recording, a week's actions are those of its seven days. */
  lemma {:induction false} WeekIsSumOfDays(rounds: seq<Round>, monday: int)
    requires monday % DAY == 0 && Weekday(monday) == 0
    requires forall i :: 0 <= i < |rounds| ==> rounds[i].recordDay == rounds[i].recordWeek
    ensures ActionsIn(rounds, Week, monday) == DaysOfWeek(day => ActionsIn(rounds, Day, day), monday)
  {
    if rounds != [] {
      var n := |rounds| - 1;
      WeekIsSumOfDays(rounds[..n], monday);
      OneDayOfTheWeek(rounds[n].recordDay, monday);
    }
  }

  /** Recordings of the week that reached only this one of the two counters. */
  function OnlyIn(rounds: seq<Round>, s: Scope, kind: WindowKind, monday: int): nat {
    if rounds == [] then 0
    else
      var n := |rounds| - 1;
      var u := After(rounds[..n], s);
      var only := LandsOn(u, s, rounds[n], kind) && !LandsOn(u, s, rounds[n], if kind == Day then Week else Day);
      OnlyIn(rounds[..n], s, kind, monday) + if only then Hit(Week, rounds[n].recordWeek, monday) else 0
  }

  lemma {:induction false} LandedWeeksAndDays(rounds: seq<Round>, s: Scope, monday: int)
    requires monday % DAY == 0 && Weekday(monday) == 0
    requires forall i :: 0 <= i < |rounds| ==> rounds[i].recordDay == rounds[i].recordWeek
    ensures LandedIn(rounds, s, Week, monday) + OnlyIn(rounds, s, Day, monday)
         == DaysOfWeek(day => LandedIn(rounds, s, Day, day), monday) + OnlyIn(rounds, s, Week, monday)
  {
    if rounds != [] {
      var n := |rounds| - 1;
      LandedWeeksAndDays(rounds[..n], s, monday);
      OneDayOfTheWeek(rounds[n].recordDay, monday);
    }
  }

  function Counter(rounds: seq<Round>, s: Scope, kind: WindowKind, start: int): int {
    CountIn(After(rounds, s), Bucket(s.agent, s.action, kind, start))
  }

  /** With both caps configured the stored week is the sum of its stored days exactly when as
      many recordings reached only the one counter as only the other; so when both land. */
  lemma {:induction false} WeekCounterIsSumOfDayCounters(rounds: seq<Round>, s: Scope, monday: int)
    requires Capped(s.row.constraints, Day) && Capped(s.row.constraints, Week)
    requires monday % DAY == 0 && Weekday(monday) == 0
    requires forall i :: 0 <= i < |rounds| ==> rounds[i].recordDay == rounds[i].recordWeek
    ensures Counter(rounds, s, Week, monday) == DaysOfWeek(day => Counter(rounds, s, Day, day), monday)
       <==> OnlyIn(rounds, s, Day, monday) == OnlyIn(rounds, s, Week, monday)
  {
    LandedWeeksAndDays(rounds, s, monday);
    forall kind: WindowKind, start: int
      ensures Counter(rounds, s, kind, start) == LandedIn(rounds, s, kind, start)
    {
      CountsAreActions(rounds, s, Bucket(s.agent, s.action, kind, start));
    }
  }
}
