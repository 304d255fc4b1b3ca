/** Per-agent memory of one chapter: bounded, optionally expiring entries in a table that is
    unique on (agent, type, key). Times and lifetimes are microseconds. */
module MemoryStore {
  import opened Common
  import opened Json
  import opened Text

  const MEMORY_TYPES := {"cursor", "dedup", "note"}
  const MAX_KEY_CHARS := 256
  const MAX_VALUE_BYTES := 8 * 1024
  const MAX_ENTRIES_PER_AGENT := 5_000
  const DEFAULT_DEDUP_TTL := 30 * 86_400_000_000

  datatype Key = Key(agent: string, kind: string, name: string)
  datatype Entry = Entry(value: Json, updated: int, expires: Option<int>)
  type Table = map<Key, Entry>

  /** `size` is the byte length of a value's JSON text; `scalar` is what reading the column
      gives after a bare number, string or boolean is written, None when that is refused. */
  datatype Sql = Sql(size: Json -> nat, scalar: Json -> Option<Json>)

  datatype Request = Request(agent: string, kind: string, key: string, value: Json, ttl: Option<int>)

  datatype Reason =
    | AgentIdRequired | UnknownMemoryType | KeyRequired | KeyTooLong | ValueTooLarge | QuotaExceeded

  datatype Reply = Stored | Refused(reason: Reason)

  /** Which of a remember's database calls fail; a failed call answers like "no rows". */
  datatype Faults = Faults(lookup: bool, count: bool, write: bool)

  function Validate(sql: Sql, q: Request): Option<Reason> {
    if Blank(q.agent) then Some(AgentIdRequired)
    else if q.kind !in MEMORY_TYPES then Some(UnknownMemoryType)
    else if Strip(q.key) == "" then Some(KeyRequired)
    else if |Strip(q.key)| > MAX_KEY_CHARS then Some(KeyTooLong)
    else if sql.size(q.value) > MAX_VALUE_BYTES then Some(ValueTooLarge)
    else None
  }

  /** A missing lifetime means 30 days for a dedup key and forever otherwise; zero is forever. */
  function Expiry(q: Request, now: int): Option<int> {
    var ttl := if q.ttl.None? && q.kind == "dedup" then Some(DEFAULT_DEDUP_TTL) else q.ttl;
    if ttl.Some? && ttl.value != 0 then Some(now + ttl.value) else None
  }

  /** Null becomes SQL NULL, which the column refuses; arrays and objects come back unchanged. */
  function Column(sql: Sql, v: Json): Option<Json> {
    match v
    case JNull => None
    case JArr(_) => Some(v)
    case JObj(_) => Some(v)
    case _ => sql.scalar(v)
  }

  predicate Expired(e: Entry, now: int) {
    e.expires.Some? && e.expires.value < now
  }

  function Slot(q: Request): Key {
    Key(q.agent, q.kind, Strip(q.key))
  }

  function EntriesOf(t: Table, agent: string): set<Key> {
    set k | k in t && k.agent == agent
  }

  /** The table after a write of the slot that the column accepts and nothing interrupts. */
  function Written(sql: Sql, t: Table, q: Request, now: int, fails: bool): Table {
    var v := Column(sql, q.value);
    if fails || v.None? then t else t[Slot(q) := Entry(v.value, now, Expiry(q, now))]
  }

  /** A null found in the row is indistinguishable from no row. */
  predicate Seen(t: Table, k: Key, failed: bool) {
    !failed && k in t && t[k].value != JNull
  }

  /** `remember`: an unseen slot is inserted, which the unique index refuses if it is taken. */
  function Remember(sql: Sql, t: Table, q: Request, f: Faults, now: int): (Table, Reply) {
    var invalid := Validate(sql, q);
    if invalid.Some? then (t, Refused(invalid.value))
    else if Seen(t, Slot(q), f.lookup) then (Written(sql, t, q, now, f.write), Stored)
    else if !f.count && |EntriesOf(t, q.agent)| >= MAX_ENTRIES_PER_AGENT then (t, Refused(QuotaExceeded))
    else if Slot(q) in t then (t, Stored)
    else (Written(sql, t, q, now, f.write), Stored)
  }

  /** `recall`: what is read is a non-null value, or nothing. */
  function Recall(t: Table, k: Key, includeExpired: bool, now: int, failed: bool): Option<Json> {
    if !Seen(t, k, failed) || (!includeExpired && Expired(t[k], now)) then None else Some(t[k].value)
  }

  function Forget(t: Table, agent: string, kind: string, key: string, fails: bool): Table {
    if Blank(agent) || fails then t else t - {Key(agent, kind, Strip(key))}
  }

  function ForgetAgent(t: Table, agent: string, fails: bool): Table {
    if Blank(agent) || fails then t else t - EntriesOf(t, agent)
  }

  /** The rows not past their expiry. */
  function Live(t: Table, now: int): Table {
    map k | k in t && !Expired(t[k], now) :: t[k]
  }

  function Purge(t: Table, now: int, fails: bool): Table {
    if fails then t else Live(t, now)
  }

  predicate Selects(k: Key, agent: string, kind: Option<string>) {
    k.agent == agent && (kind.None? || kind.value == "" || k.kind == kind.value)
  }

  type Rows = seq<(Key, Entry)>

  predicate NewestFirst(rows: Rows) {
    forall i, j :: 0 <= i < j < |rows| ==> rows[i].1.updated >= rows[j].1.updated
  }

  predicate DistinctKeys(rows: Rows) {
    forall i, j :: 0 <= i < j < |rows| ==> rows[i].0 != rows[j].0
  }

  /** An ordered query's answer: each selected row of the table once, newest first. */
  ghost predicate Lists(t: Table, agent: string, kind: Option<string>, rows: Rows) {
    && NewestFirst(rows) && DistinctKeys(rows)
    && forall k, e :: (k, e) in rows <==> k in t && t[k] == e && Selects(k, agent, kind)
  }

  /** The rows that have not expired, in their order. */
  function Unexpired(rows: Rows, now: int): Rows {
    if rows == [] then []
    else Unexpired(rows[..|rows| - 1], now) + if Expired(rows[|rows| - 1].1, now) then [] else [rows[|rows| - 1]]
  }

  lemma {:induction false} UnexpiredIs(rows: Rows, now: int)
    requires NewestFirst(rows) && DistinctKeys(rows)
    ensures var live := Unexpired(rows, now);
            && NewestFirst(live) && DistinctKeys(live)
            && forall r :: r in live <==> r in rows && !Expired(r.1, now)
  {
    if rows != [] {
      var init, last := rows[..|rows| - 1], rows[|rows| - 1];
      UnexpiredIs(init, now);
      var live := Unexpired(init, now);
      assert forall r :: r in rows <==> r in init || r == last;
      forall i | 0 <= i < |live|
        ensures live[i].1.updated >= last.1.updated && live[i].0 != last.0
      {
        assert live[i] in live && live[i] in init;
      }
    }
  }

  class Memory {
    const sql: Sql
    var table: Table

    constructor (sql: Sql)
      ensures this.sql == sql && table == map[]
    {
      this.sql := sql;
      table := map[];
    }

    method Insert(k: Key, e: Option<Entry>, fails: bool)
      modifies this
      ensures table == if fails || e.None? || k in old(table) then old(table) else old(table)[k := e.value]
    {
      if !fails && e.Some? && k !in table {
        table := table[k := e.value];
      }
    }

    method Update(k: Key, e: Option<Entry>, fails: bool)
      modifies this
      ensures table == if fails || e.None? || k !in old(table) then old(table) else old(table)[k := e.value]
    {
      if !fails && e.Some? && k in table {
        table := table[k := e.value];
      }
    }

    /** None when refused; the value is read by the stripped key. */
    method RecallEntry(agent: string, kind: string, key: string, includeExpired: bool, now: int, failed: bool)
      returns (reply: Option<Option<Json>>)
      ensures reply == if Blank(agent) then None
                       else Some(Recall(table, Key(agent, kind, Strip(key)), includeExpired, now, failed))
    {
      if Blank(agent) {
        return None;
      }
      var k := Key(agent, kind, Strip(key));
      if failed || k !in table || (!includeExpired && Expired(table[k], now)) {
        return Some(None);
      }
      reply := Some(if table[k].value == JNull then None else Some(table[k].value));
    }

    method RememberEntry(q: Request, f: Faults, now: int) returns (reply: Reply)
      modifies this
      ensures (table, reply) == Remember(sql, old(table), q, f, now)
    {
      var invalid := Validate(sql, q);
      if invalid.Some? {
        return Refused(invalid.value);
      }
      var found := RecallEntry(q.agent, q.kind, q.key, true, now, f.lookup);
      var existing := found.value;
      if existing.None? {
        var count := if f.count then 0 else |EntriesOf(table, q.agent)|;
        if count >= MAX_ENTRIES_PER_AGENT {
          return Refused(QuotaExceeded);
        }
      }
      var v := Column(sql, q.value);
      var body := if v.None? then None else Some(Entry(v.value, now, Expiry(q, now)));
      if existing.Some? {
        Update(Slot(q), body, f.write);
      } else {
        Insert(Slot(q), body, f.write);
      }
      reply := Stored;
    }

    /** `answer` is what the ordered query returned, None if it failed. */
    method RecallAll(agent: string, kind: Option<string>, answer: Option<Rows>, now: int)
      returns (reply: Option<Rows>)
      requires answer.Some? ==> Lists(table, agent, kind, answer.value)
      ensures reply.None? <==> Blank(agent)
      ensures reply.Some? ==> reply.value == if answer.None? then [] else Unexpired(answer.value, now)
      ensures reply.Some? && answer.Some? ==> Lists(Live(table, now), agent, kind, reply.value)
      ensures reply.Some? && answer.Some? ==>
                forall k, e :: (k, e) in reply.value <==>
                  && k in table && table[k] == e && k.agent == agent && (e.expires.None? || now <= e.expires.value)
                  && (kind == None || kind == Some("") || kind == Some(k.kind))
    {
      if Blank(agent) {
        return None;
      }
      var rows := if answer.Some? then answer.value else [];
      var live := LiveRows(rows, now);
      UnexpiredIs(rows, now);
      reply := Some(live);
    }

    static method LiveRows(rows: Rows, now: int) returns (live: Rows)
      ensures live == Unexpired(rows, now)
    {
      live := [];
      for i := 0 to |rows|
        invariant live == Unexpired(rows[..i], now)
      {
        assert rows[..i + 1][..i] == rows[..i];
        if !Expired(rows[i].1, now) {
          live := live + [rows[i]];
        }
      }
      assert rows[..|rows|] == rows;
    }

    method ForgetEntry(agent: string, kind: string, key: string, fails: bool) returns (reply: Option<Reason>)
      modifies this
      ensures table == Forget(old(table), agent, kind, key, fails)
      ensures reply == if Blank(agent) then Some(AgentIdRequired) else None
    {
      if Blank(agent) {
        return Some(AgentIdRequired);
      }
      if !fails {
        table := table - {Key(agent, kind, Strip(key))};
      }
      reply := None;
    }

    method ForgetAll(agent: string, fails: bool) returns (reply: Option<Reason>)
      modifies this
      ensures table == ForgetAgent(old(table), agent, fails)
      ensures reply == if Blank(agent) then Some(AgentIdRequired) else None
    {
      if Blank(agent) {
        return Some(AgentIdRequired);
      }
      if !fails {
        table := map k | k in table && k.agent != agent :: table[k];
      }
      reply := None;
    }

    method PurgeExpired(now: int, fails: bool)
      modifies this
      ensures table == Purge(old(table), now, fails)
    {
      if !fails {
        table := map k | k in table && !Expired(table[k], now) :: table[k];
      }
    }
  }

  // ---------------------------------------------------------------- one operation

  /** The first fault of a request decides the refusal, and a request without one passes: an
      agent named in more than white space, one of three types, a key of 1 to 256 characters
      once the white space around it is gone, and a value of at most 8192 bytes. */
  lemma {:induction false} ValidateExact(sql: Sql, q: Request, name: string)
    requires IsCore(q.key, name)
    ensures match Validate(sql, q)
            case Some(AgentIdRequired) => AllSpace(q.agent)
            case Some(UnknownMemoryType) => !AllSpace(q.agent) && !KnownType(q.kind)
            case Some(KeyRequired) => !AllSpace(q.agent) && KnownType(q.kind) && AllSpace(q.key)
            case Some(KeyTooLong) => !AllSpace(q.agent) && KnownType(q.kind) && |name| > 256
            case Some(ValueTooLarge) =>
              !AllSpace(q.agent) && KnownType(q.kind) && 0 < |name| <= 256 && sql.size(q.value) > 8192
            case Some(QuotaExceeded) => false
            case None =>
              !AllSpace(q.agent) && KnownType(q.kind) && 0 < |name| <= 256 && sql.size(q.value) <= 8192
  {
    BlankIsAllSpace(q.agent);
    BlankIsAllSpace(q.key);
    StripIsCore(q.key, name);
  }

  predicate KnownType(kind: string) {
    kind == "cursor" || kind == "dedup" || kind == "note"
  }

  /** Two requests share a slot exactly when agent and type are the same and their keys are
      but for the white space around them. */
  lemma {:induction false} SameSlotIff(q: Request, r: Request, name: string)
    requires IsCore(q.key, name)
    ensures Slot(q) == Slot(r) <==> q.agent == r.agent && q.kind == r.kind && IsCore(r.key, name)
  {
    StripIsCore(q.key, name);
    StripIsCore(r.key, name);
  }

  /** Every answer of `remember`: a fault is refused as such; an agent that holds 5000 entries
      is refused a new one, if its entries are counted and the key is not found with a value;
      anything else is answered stored. A refusal changes nothing. */
  lemma {:induction false} RememberAnswers(sql: Sql, t: Table, q: Request, f: Faults, now: int)
    ensures var r := Remember(sql, t, q, f, now);
            && (Validate(sql, q).Some? <==> r.1.Refused? && r.1.reason != QuotaExceeded)
            && (Validate(sql, q).Some? ==> r.1.reason == Validate(sql, q).value)
            && (r.1 == Refused(QuotaExceeded) <==>
                  && Validate(sql, q).None? && !f.count
                  && |set k | k in t && k.agent == q.agent| >= 5000
                  && (f.lookup || Slot(q) !in t || t[Slot(q)].value == JNull))
            && (r.1.Refused? ==> r.0 == t)
  {
    assert (set k | k in t && k.agent == q.agent) == EntriesOf(t, q.agent);
  }

  /** What `recall` reads: the value of the row under that key, if the query succeeds, the value
      is no null, and the row has no expiry, or one not yet past, or expired rows are asked for. */
  lemma {:induction false} RecallExact(t: Table, k: Key, includeExpired: bool, now: int, failed: bool, v: Json)
    ensures Recall(t, k, includeExpired, now, failed) == Some(v) <==>
              && !failed && v != JNull && EntryAt(t, k).Some? && t[k].value == v
              && (includeExpired || t[k].expires.None? || now <= t[k].expires.value)
  {
  }

  /** An array or an object is kept as it is by a write that goes through, a null never. */
  lemma {:induction false} ColumnKeeps(sql: Sql, t: Table, q: Request, now: int)
    requires Validate(sql, q).None? && |EntriesOf(t, q.agent)| < MAX_ENTRIES_PER_AGENT
    requires Slot(q) in t ==> t[Slot(q)].value != JNull
    ensures var t' := Remember(sql, t, q, Faults(false, false, false), now).0;
            && (q.value.JArr? || q.value.JObj? ==> Recall(t', Slot(q), true, now, false) == Some(q.value))
            && (q.value.JNull? ==> t' == t)
  {
  }

  /** When a write takes effect: the column accepts the value, the statement does not fail,
      and a taken slot was seen, so that the insert the index refuses was not tried. */
  predicate Lands(sql: Sql, e: Option<Entry>, q: Request, f: Faults) {
    && Column(sql, q.value).Some? && !f.write
    && (e.Some? ==> !f.lookup && e.value.value != JNull)
  }

  function EntryAt(t: Table, k: Key): Option<Entry> {
    if k in t then Some(t[k]) else None
  }

  /** What "stored" means, whichever database calls fail: the slot holds the new entry exactly
      when the write lands, and otherwise the table is as it was. */
  lemma {:induction false} StoredMeansWritten(sql: Sql, t: Table, q: Request, f: Faults, now: int)
    requires Remember(sql, t, q, f, now).1 == Stored
    ensures Remember(sql, t, q, f, now).0 ==
              if Lands(sql, EntryAt(t, Slot(q)), q, f)
              then t[Slot(q) := Entry(Column(sql, q.value).value, now, Expiry(q, now))] else t
  {
  }

  /** A failed write of any valid value is answered stored, and nothing is. */
  lemma {:induction false} FailedWriteIsReportedStored(sql: Sql, q: Request, now: int)
    requires Validate(sql, q).None?
    ensures Remember(sql, map[], q, Faults(false, false, true), now) == (map[], Stored)
  {
    assert EntriesOf(map[], q.agent) == {};
  }

  /** A remember that lands is recalled later exactly when the column keeps its value and it
      has not expired; one that does not land leaves what was there to be recalled. */
  lemma {:induction false} RememberThenRecall(sql: Sql, t: Table, q: Request, f: Faults, now: int, later: int)
    requires Remember(sql, t, q, f, now).1 == Stored && now <= later
    ensures var t' := Remember(sql, t, q, f, now).0;
            var lifetime := if q.ttl.None? && q.kind == "dedup" then Some(DEFAULT_DEDUP_TTL) else q.ttl;
            if Lands(sql, EntryAt(t, Slot(q)), q, f) then
              Recall(t', Slot(q), false, later, false) == Some(q.value)
              <==> Column(sql, q.value) == Some(q.value)
                   && (lifetime.None? || lifetime.value == 0 || later <= now + lifetime.value)
            else Recall(t', Slot(q), false, later, false) == Recall(t, Slot(q), false, later, false)
  {
    StoredMeansWritten(sql, t, q, f, now);
  }

  /** A null passes validation and is reported stored, and never changes the table. */
  lemma {:induction false} NullIsReportedButNotStored(sql: Sql, t: Table, q: Request, f: Faults, now: int)
    requires q.value == JNull && Validate(sql, q).None?
    ensures Remember(sql, t, q, f, now).0 == t
    ensures |EntriesOf(t, q.agent)| < MAX_ENTRIES_PER_AGENT ==> Remember(sql, t, q, f, now).1 == Stored
  {
  }

  lemma {:induction false} ProperSubsetSize<T>(a: set<T>, b: set<T>, x: T)
    requires a <= b && x in b - a
    ensures |a| < |b|
  {
    SubsetSize(a, b - {x});
  }

  function ExpiredOf(t: Table, agent: string, now: int): set<Key> {
    set k | k in t && k.agent == agent && Expired(t[k], now)
  }

  lemma {:induction false} PurgedCount(t: Table, agent: string, now: int)
    ensures |EntriesOf(Live(t, now), agent)| == |EntriesOf(t, agent)| - |ExpiredOf(t, agent, now)|
  {
    assert EntriesOf(Live(t, now), agent) == EntriesOf(t, agent) - ExpiredOf(t, agent, now);
    assert ExpiredOf(t, agent, now) <= EntriesOf(t, agent);
  }

  /** A remember refused for quota passes after a purge exactly when the agent's expired rows
      are more than the rows it holds past one below the cap: one row is enough at the cap,
      but not for an agent that failed counts have let past it. */
  lemma {:induction false} PurgeFreesQuotaIff(sql: Sql, t: Table, q: Request, now: int)
    requires Remember(sql, t, q, Faults(false, false, false), now).1 == Refused(QuotaExceeded)
    ensures Remember(sql, Purge(t, now, false), q, Faults(false, false, false), now).1 == Stored
       <==> |EntriesOf(t, q.agent)| - |ExpiredOf(t, q.agent, now)| < MAX_ENTRIES_PER_AGENT
  {
    PurgedCount(t, q.agent, now);
    assert Seen(Purge(t, now, false), Slot(q), false) ==> Seen(t, Slot(q), false);
  }
}

/** Any sequence of operations by any agents. */
module MemoryRuns {
  import opened Common
  import opened Json
  import opened Text
  import opened MemoryStore

  datatype Op =
    | Put(now: int, q: Request, f: Faults)
    | Drop(now: int, agent: string, kind: string, key: string, fails: bool)
    | DropAgent(now: int, agent: string, fails: bool)
    | Sweep(now: int, fails: bool)

  function Step(sql: Sql, t: Table, op: Op): Table {
    match op
    case Put(now, q, f) => Remember(sql, t, q, f, now).0
    case Drop(_, agent, kind, key, fails) => Forget(t, agent, kind, key, fails)
    case DropAgent(_, agent, fails) => ForgetAgent(t, agent, fails)
    case Sweep(now, fails) => Purge(t, now, fails)
  }

  function Run(sql: Sql, t: Table, ops: seq<Op>): Table
    decreases |ops|
  {
    if ops == [] then t else Run(sql, Step(sql, t, ops[0]), ops[1..])
  }

  // ---------------------------------------------------------------- quota

  ghost predicate WithinQuota(t: Table) {
    forall agent :: |EntriesOf(t, agent)| <= MAX_ENTRIES_PER_AGENT
  }

  /** A new row, at the cap, let in because the count failed and read as no rows. */
  predicate Overfills(sql: Sql, t: Table, op: Op) {
    && op.Put? && Validate(sql, op.q).None? && Column(sql, op.q.value).Some?
    && Slot(op.q) !in t && op.f.count && !op.f.write
    && |EntriesOf(t, op.q.agent)| == MAX_ENTRIES_PER_AGENT
  }

  lemma {:induction false} FewerKeepQuota(t: Table, t': Table)
    requires WithinQuota(t) && t'.Keys <= t.Keys
    ensures WithinQuota(t')
  {
    forall agent
      ensures |EntriesOf(t', agent)| <= MAX_ENTRIES_PER_AGENT
    {
      SubsetSize(EntriesOf(t', agent), EntriesOf(t, agent));
    }
  }

  lemma {:induction false} OneMoreKeepsQuotaIff(t: Table, t': Table, k: Key)
    requires WithinQuota(t) && k !in t && t'.Keys == t.Keys + {k}
    ensures WithinQuota(t') <==> |EntriesOf(t, k.agent)| < MAX_ENTRIES_PER_AGENT
  {
    assert EntriesOf(t', k.agent) == EntriesOf(t, k.agent) + {k};
    assert |EntriesOf(t', k.agent)| == |EntriesOf(t, k.agent)| + 1;
    if |EntriesOf(t, k.agent)| < MAX_ENTRIES_PER_AGENT {
      forall agent
        ensures |EntriesOf(t', agent)| <= MAX_ENTRIES_PER_AGENT
      {
        assert agent != k.agent ==> EntriesOf(t', agent) == EntriesOf(t, agent);
      }
    }
  }

  lemma {:induction false} StepKeys(sql: Sql, t: Table, op: Op)
    ensures var t' := Step(sql, t, op);
            t'.Keys <= t.Keys || (op.Put? && Slot(op.q) !in t && t'.Keys == t.Keys + {Slot(op.q)})
  {
  }

  lemma {:induction false} StepKeepsQuotaIff(sql: Sql, t: Table, op: Op)
    requires WithinQuota(t)
    ensures WithinQuota(Step(sql, t, op)) <==> !Overfills(sql, t, op)
  {
    var t' := Step(sql, t, op);
    StepKeys(sql, t, op);
    if t'.Keys <= t.Keys {
      FewerKeepQuota(t, t');
    } else {
      OneMoreKeepsQuotaIff(t, t', Slot(op.q));
    }
  }

  predicate CountsSucceed(ops: seq<Op>) {
    forall op :: op in ops && op.Put? ==> !op.f.count
  }

  /** No agent ever holds more than 5000 rows if the counting queries succeed. */
  lemma {:induction false} QuotaHolds(sql: Sql, t: Table, ops: seq<Op>)
    requires WithinQuota(t) && CountsSucceed(ops)
    ensures WithinQuota(Run(sql, t, ops))
    decreases |ops|
  {
    if ops != [] {
      StepKeepsQuotaIff(sql, t, ops[0]);
      QuotaHolds(sql, Step(sql, t, ops[0]), ops[1..]);
    }
  }

  // ---------------------------------------------------------------- agents apart

  function Of(t: Table, agent: string): Table {
    map k | k in t && k.agent == agent :: t[k]
  }

  predicate Concerns(op: Op, agent: string) {
    match op
    case Put(_, q, _) => q.agent == agent
    case Drop(_, a, _, _, _) => a == agent
    case DropAgent(_, a, _) => a == agent
    case Sweep(_, _) => true
  }

  function Concerning(ops: seq<Op>, agent: string): seq<Op> {
    if ops == [] then []
    else (if Concerns(ops[0], agent) then [ops[0]] else []) + Concerning(ops[1..], agent)
  }

  lemma {:induction false} StepIsOwn(sql: Sql, t: Table, op: Op, agent: string)
    ensures Of(Step(sql, t, op), agent) == if Concerns(op, agent) then Step(sql, Of(t, agent), op) else Of(t, agent)
  {
    if op.Put? && op.q.agent == agent {
      PutIsOwn(sql, t, op.now, op.q, op.f);
    }
  }

  lemma {:induction false} PutIsOwn(sql: Sql, t: Table, now: int, q: Request, f: Faults)
    ensures Of(Remember(sql, t, q, f, now).0, q.agent) == Remember(sql, Of(t, q.agent), q, f, now).0
  {
    assert EntriesOf(Of(t, q.agent), q.agent) == EntriesOf(t, q.agent);
  }

  /** An agent's rows after any run are those of its own operations (and the purges) alone,
      and they decide what it recalls: no other agent can change or even be noticed. */
  lemma {:induction false} AgentsAreIsolated(sql: Sql, t: Table, ops: seq<Op>, agent: string)
    ensures Of(Run(sql, t, ops), agent) == Run(sql, Of(t, agent), Concerning(ops, agent))
    ensures forall kind, name, all, now, failed {:trigger Recall(Run(sql, t, ops), Key(agent, kind, name), all, now, failed)} ::
      Recall(Run(sql, t, ops), Key(agent, kind, name), all, now, failed)
        == Recall(Run(sql, Of(t, agent), Concerning(ops, agent)), Key(agent, kind, name), all, now, failed)
    decreases |ops|
  {
    if ops != [] {
      StepIsOwn(sql, t, ops[0], agent);
      AgentsAreIsolated(sql, Step(sql, t, ops[0]), ops[1..], agent);
      var own, rest := Concerning(ops, agent), Concerning(ops[1..], agent);
      assert own == if Concerns(ops[0], agent) then [ops[0]] + rest else rest;
      assert Concerns(ops[0], agent) ==> own[1..] == rest;
    }
  }

  // ---------------------------------------------------------------- purging

  /** A non-decreasing clock that stays at or before `end`. */
  predicate Clocked(ops: seq<Op>, start: int, end: int) {
    if ops == [] then start <= end
    else start <= ops[0].now && Clocked(ops[1..], ops[0].now, end)
  }

  /** Whether a remember changes the table, by the guards it passes: an entry found is
      overwritten, an empty slot is filled if there is room or the count fails, and a slot
      taken but not seen is left alone. */
  predicate Writes(sql: Sql, t: Table, q: Request, f: Faults) {
    && Validate(sql, q).None? && Column(sql, q.value).Some? && !f.write
    && if Slot(q) in t then !f.lookup && t[Slot(q)].value != JNull
       else f.count || |EntriesOf(t, q.agent)| < MAX_ENTRIES_PER_AGENT
  }

  lemma {:induction false} RememberWrites(sql: Sql, t: Table, q: Request, f: Faults, now: int)
    ensures Remember(sql, t, q, f, now).0 ==
              if Writes(sql, t, q, f) then t[Slot(q) := Entry(Column(sql, q.value).value, now, Expiry(q, now))] else t
  {
  }

  /** The same answers now and later: these rows are what `recall` and `recall_all` read. */
  predicate Agree(p: Table, t: Table, now: int) {
    Live(p, now) == Live(t, now)
  }

  /** One of two tables takes the entry, the other does not, and it has not expired already. */
  predicate Diverges(sql: Sql, p: Table, t: Table, op: Op) {
    && op.Put? && Writes(sql, p, op.q, op.f) != Writes(sql, t, op.q, op.f)
    && !Expired(Entry(Column(sql, op.q.value).value, op.now, Expiry(op.q, op.now)), op.now)
  }

  /** Tables that agree now give every later `recall` and `recall_all` the same answer. */
  lemma {:induction false} AgreeingAnswers(p: Table, t: Table, now: int, later: int)
    requires Agree(p, t, now) && now <= later
    ensures Agree(p, t, later)
    ensures forall k :: Recall(p, k, false, later, false) == Recall(t, k, false, later, false)
    ensures forall agent, kind, rows :: Lists(Live(p, later), agent, kind, rows) <==> Lists(Live(t, later), agent, kind, rows)
  {
    assert Live(p, later) == Live(Live(p, now), later);
    assert Live(t, later) == Live(Live(t, now), later);
    forall k
      ensures Recall(p, k, false, later, false) == Recall(t, k, false, later, false)
    {
      RecallReadsLive(p, k, later);
      RecallReadsLive(t, k, later);
    }
  }

  lemma {:induction false} RecallReadsLive(t: Table, k: Key, now: int)
    ensures Recall(t, k, false, now, false)
         == if k in Live(t, now) && Live(t, now)[k].value != JNull then Some(Live(t, now)[k].value) else None
  {
  }

  /** A slot live in one of two agreeing tables is live in both, and written in both or none. */
  lemma {:induction false} LiveSlotSameWrite(sql: Sql, p: Table, t: Table, q: Request, f: Faults, now: int)
    requires Agree(p, t, now) && Slot(q) in Live(t, now)
    ensures Slot(q) in Live(p, now) && Writes(sql, p, q, f) == Writes(sql, t, q, f)
  {
    assert Slot(q) in Live(p, now);
  }

  lemma {:induction false} PutAgreesIff(sql: Sql, p: Table, t: Table, op: Op)
    requires op.Put? && Agree(p, t, op.now)
    ensures Agree(Step(sql, p, op), Step(sql, t, op), op.now) <==> !Diverges(sql, p, t, op)
  {
    var q, f, now := op.q, op.f, op.now;
    var k := Slot(q);
    RememberWrites(sql, p, q, f, now);
    RememberWrites(sql, t, q, f, now);
    if Writes(sql, p, q, f) && Writes(sql, t, q, f) {
      BothWriteAgree(p, t, k, Entry(Column(sql, q.value).value, now, Expiry(q, now)), now);
    } else if Writes(sql, p, q, f) || Writes(sql, t, q, f) {
      if k in Live(t, now) {
        LiveSlotSameWrite(sql, p, t, q, f, now);
      }
      if k in Live(p, now) {
        LiveSlotSameWrite(sql, t, p, q, f, now);
      }
      OneWriteAgreesIff(p, t, k, Entry(Column(sql, q.value).value, now, Expiry(q, now)), now);
      OneWriteAgreesIff(t, p, k, Entry(Column(sql, q.value).value, now, Expiry(q, now)), now);
    }
  }

  lemma {:induction false} BothWriteAgree(p: Table, t: Table, k: Key, e: Entry, now: int)
    requires Agree(p, t, now)
    ensures Agree(p[k := e], t[k := e], now)
  {
    LiveWith(p, k, e, now);
    LiveWith(t, k, e, now);
  }

  lemma {:induction false} LiveWith(t: Table, k: Key, e: Entry, now: int)
    ensures Live(t[k := e], now) == if Expired(e, now) then Live(t, now) - {k} else Live(t, now)[k := e]
  {
  }

  lemma {:induction false} OneWriteAgreesIff(p: Table, t: Table, k: Key, e: Entry, now: int)
    requires Agree(p, t, now) && k !in Live(p, now) && k !in Live(t, now)
    ensures Agree(p[k := e], t, now) <==> Expired(e, now)
  {
    assert k in Live(p[k := e], now) <==> !Expired(e, now);
    if Expired(e, now) {
      assert Live(p[k := e], now) == Live(p, now);
    }
  }

  /** What the run without purges does at this operation. */
  function Unswept(sql: Sql, t: Table, op: Op): Table {
    if op.Sweep? then t else Step(sql, t, op)
  }

  /** For every operation and every failure, two agreeing tables, one of them purged, go on
      agreeing exactly when a remember does not diverge between them. */
  lemma {:induction false} StepAgreesIff(sql: Sql, p: Table, t: Table, op: Op)
    requires Agree(p, t, op.now)
    ensures Agree(Step(sql, p, op), Unswept(sql, t, op), op.now) <==> !Diverges(sql, p, t, op)
  {
    match op {
      case Put(_, _, _) => PutAgreesIff(sql, p, t, op);
      case Drop(now, agent, kind, key, fails) =>
        if !Blank(agent) && !fails {
          LiveLess(p, {Key(agent, kind, Strip(key))}, now);
          LiveLess(t, {Key(agent, kind, Strip(key))}, now);
        }
      case DropAgent(now, agent, fails) => DropAgentAgrees(p, t, agent, fails, now);
      case Sweep(now, _) => assert Live(Live(p, now), now) == Live(p, now);
    }
  }

  lemma {:induction false} LiveLess(t: Table, gone: set<Key>, now: int)
    ensures Live(t - gone, now) == Live(t, now) - gone
  {
  }

  lemma {:induction false} DropAgentAgrees(p: Table, t: Table, agent: string, fails: bool, now: int)
    requires Agree(p, t, now)
    ensures Agree(ForgetAgent(p, agent, fails), ForgetAgent(t, agent, fails), now)
  {
    LiveLess(p, EntriesOf(p, agent), now);
    LiveLess(t, EntriesOf(t, agent), now);
    assert Live(p, now) - EntriesOf(p, agent) == Live(t, now) - EntriesOf(t, agent) by {
      assert forall k :: k in Live(p, now) <==> k in Live(t, now);
    }
  }

  /** The two runs, with purges and without, agree at every point. */
  predicate AlwaysAgree(sql: Sql, p: Table, t: Table, ops: seq<Op>, now: int)
    decreases |ops|
  {
    && Agree(p, t, now)
    && (ops == [] || AlwaysAgree(sql, Step(sql, p, ops[0]), Unswept(sql, t, ops[0]), ops[1..], ops[0].now))
  }

  predicate NeverDiverges(sql: Sql, p: Table, t: Table, ops: seq<Op>)
    decreases |ops|
  {
    ops == []
    || (!Diverges(sql, p, t, ops[0])
        && NeverDiverges(sql, Step(sql, p, ops[0]), Unswept(sql, t, ops[0]), ops[1..]))
  }

  /** Purging changes no answer, at any point of a run, exactly when no remember of the run is
      written with the purges and not without them, or the other way round, with an entry that
      has not expired already; whatever fails, is refused or reads back as null. */
  lemma {:induction false} PurgingIsInvisibleIff(sql: Sql, p: Table, t: Table, ops: seq<Op>, start: int, end: int)
    requires Clocked(ops, start, end) && Agree(p, t, start)
    ensures AlwaysAgree(sql, p, t, ops, start) <==> NeverDiverges(sql, p, t, ops)
    decreases |ops|
  {
    if ops != [] {
      var op := ops[0];
      AgreeingAnswers(p, t, start, op.now);
      StepAgreesIff(sql, p, t, op);
      if !Diverges(sql, p, t, op) {
        PurgingIsInvisibleIff(sql, Step(sql, p, op), Unswept(sql, t, op), ops[1..], op.now, end);
      } else if ops[1..] == [] {
        assert !Agree(Step(sql, p, op), Unswept(sql, t, op), op.now);
      }
    }
  }

  /** One expired row, and a remember of its key whose lookup fails: with the row purged the
      entry is stored, with the row still there it is not, and both answer "stored". */
  lemma {:induction false} FailedLookupDiverges(sql: Sql, q: Request, e: Entry, now: int)
    requires Validate(sql, q).None? && Column(sql, q.value).Some? && Column(sql, q.value) != Some(JNull)
    requires Expired(e, now) && q.ttl == Some(0)
    ensures var f := Faults(true, false, false);
            var (p, t) := (map[], map[Slot(q) := e]);
            && Agree(p, t, now) && Diverges(sql, p, t, Put(now, q, f))
            && Remember(sql, p, q, f, now).1 == Stored == Remember(sql, t, q, f, now).1
            && Recall(Remember(sql, p, q, f, now).0, Slot(q), false, now, false) == Column(sql, q.value)
            && Recall(Remember(sql, t, q, f, now).0, Slot(q), false, now, false) == None
  {
    var t := map[Slot(q) := e];
    assert EntriesOf(map[], q.agent) == {} && EntriesOf(t, q.agent) == {Slot(q)};
    assert Live(t, now) == map[];
    RememberWrites(sql, map[], q, Faults(true, false, false), now);
    RememberWrites(sql, t, q, Faults(true, false, false), now);
  }

  /** Remembers whose lookups and counts succeed, whose values do not read back as null, and
      that the run does not refuse for quota. */
  predicate Smooth(sql: Sql, t: Table, ops: seq<Op>)
    decreases |ops|
  {
    ops == [] || (SmoothPut(sql, t, ops[0]) && Smooth(sql, Unswept(sql, t, ops[0]), ops[1..]))
  }

  predicate SmoothPut(sql: Sql, t: Table, op: Op) {
    op.Put? ==>
      && !op.f.lookup && !op.f.count && Column(sql, op.q.value) != Some(JNull)
      && Remember(sql, t, op.q, op.f, op.now).1 != Refused(QuotaExceeded)
  }

  /** `p` is `t` less some rows that have expired. */
  ghost predicate Thinned(p: Table, t: Table, now: int) {
    && (forall k :: k in p ==> k in t && p[k] == t[k])
    && (forall k :: k in t && k !in p ==> Expired(t[k], now))
  }

  ghost predicate NoNulls(t: Table) {
    forall k :: k in t ==> t[k].value != JNull
  }

  lemma {:induction false} SmoothPutsAlike(sql: Sql, t: Table, p: Table, op: Op)
    requires op.Put? && SmoothPut(sql, t, op) && NoNulls(t) && WithinQuota(t)
    requires Thinned(p, t, op.now)
    ensures Writes(sql, p, op.q, op.f) == Writes(sql, t, op.q, op.f)
  {
    var mine, his := EntriesOf(p, op.q.agent), EntriesOf(t, op.q.agent);
    SubsetSize(mine, his);
    if Slot(op.q) in t && Slot(op.q) !in p {
      ProperSubsetSize(mine, his, Slot(op.q));
    }
  }

  lemma {:induction false} SmoothStep(sql: Sql, t: Table, p: Table, op: Op)
    requires SmoothPut(sql, t, op) && NoNulls(t) && WithinQuota(t) && Thinned(p, t, op.now)
    ensures !Diverges(sql, p, t, op)
    ensures var t' := Unswept(sql, t, op);
            Thinned(Step(sql, p, op), t', op.now) && NoNulls(t') && WithinQuota(t')
  {
    StepKeepsQuotaIff(sql, t, op);
    if op.Put? {
      SmoothPutsAlike(sql, t, p, op);
      RememberWrites(sql, p, op.q, op.f, op.now);
      RememberWrites(sql, t, op.q, op.f, op.now);
    }
  }

  /** In particular a run whose lookups and counts succeed, that stores no null and refuses
      nothing for quota without the purges, never diverges. */
  lemma {:induction false} SmoothNeverDiverges(sql: Sql, t: Table, p: Table, ops: seq<Op>, start: int, end: int)
    requires Thinned(p, t, start) && NoNulls(t) && WithinQuota(t)
    requires Clocked(ops, start, end) && Smooth(sql, t, ops)
    ensures NeverDiverges(sql, p, t, ops)
    decreases |ops|
  {
    if ops != [] {
      SmoothStep(sql, t, p, ops[0]);
      SmoothNeverDiverges(sql, Unswept(sql, t, ops[0]), Step(sql, p, ops[0]), ops[1..], ops[0].now, end);
    }
  }

  // ---------------------------------------------------------------- one key

  /** What one operation does to one key, knowing nothing of the rest of the table but
      whether a remember was refused for quota. */
  function Touched(sql: Sql, e: Option<Entry>, op: Op, refused: bool, k: Key): Option<Entry> {
    match op
    case Put(now, q, f) =>
      if Validate(sql, q).None? && Slot(q) == k && !refused && Lands(sql, e, q, f)
      then Some(Entry(Column(sql, q.value).value, now, Expiry(q, now))) else e
    case Drop(_, agent, kind, key, fails) =>
      if !Blank(agent) && !fails && Key(agent, kind, Strip(key)) == k then None else e
    case DropAgent(_, agent, fails) => if !Blank(agent) && !fails && k.agent == agent then None else e
    case Sweep(now, fails) => if !fails && e.Some? && Expired(e.value, now) then None else e
  }

  function Register(sql: Sql, e: Option<Entry>, ops: seq<Op>, refused: seq<bool>, k: Key): Option<Entry>
    requires |refused| == |ops|
    decreases |ops|
  {
    if ops == [] then e else Register(sql, Touched(sql, e, ops[0], refused[0], k), ops[1..], refused[1..], k)
  }

  /** Which operations of a run are answered with a quota refusal. */
  function Refusals(sql: Sql, t: Table, ops: seq<Op>): (refused: seq<bool>)
    ensures |refused| == |ops|
    decreases |ops|
  {
    if ops == [] then []
    else
      var op := ops[0];
      [op.Put? && Remember(sql, t, op.q, op.f, op.now).1 == Refused(QuotaExceeded)]
      + Refusals(sql, Step(sql, t, op), ops[1..])
  }

  /** The table is a map of independent keys, over every run from every table: each key holds
      what its own last landed write left, unless deleted since. Keys share nothing but the
      quota, and that only through refusals, which the callers are told. */
  lemma {:induction false} TableIsRegisters(sql: Sql, t: Table, ops: seq<Op>, k: Key)
    ensures EntryAt(Run(sql, t, ops), k) == Register(sql, EntryAt(t, k), ops, Refusals(sql, t, ops), k)
    decreases |ops|
  {
    if ops != [] {
      var t' := Step(sql, t, ops[0]);
      assert EntryAt(t', k) == Touched(sql, EntryAt(t, k), ops[0], Refusals(sql, t, ops)[0], k);
      assert Refusals(sql, t, ops)[1..] == Refusals(sql, t', ops[1..]);
      TableIsRegisters(sql, t', ops[1..], k);
    }
  }
}
