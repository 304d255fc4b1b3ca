/** Every interleaving of consumes, retries, crashes, revocations and issues. A consume is
    three database steps; any other event may run between them, and a crash abandons it. */
module GrantRuns {
  import opened Common
  import opened GrantScope
  import opened Grants

  datatype Phase =
    | Selected(q: Request, id: string, seen: Grant)
    | Unspent(q: Request, id: string)

  datatype Event =
    | Issue(id: string, grant: Grant)
    | Revoke(id: string, now: int)
    | Select(call: nat, q: Request, pick: Option<string>)
    | Check(call: nat)
    | Commit(call: nat)
    | Crash(call: nat)

  datatype Reply = Reply(q: Request, answer: Answer)

  datatype State = State(db: Db, calls: map<nat, Phase>, replies: seq<Reply>)

  const START := State(Db(map[], []), map[], [])

  predicate Fresh(g: Grant) {
    g.cap > 0 && g.consumed == 0 && g.revokedAt == None
  }

  /** Identifiers are fresh, picks are the ones the query may return, calls are in phase. */
  ghost predicate Enabled(s: State, e: Event) {
    match e
    case Issue(id, g) => id !in s.db.grants && Fresh(g)
    case Revoke(_, _) => true
    case Select(call, q, pick) => call !in s.calls && LegalPick(s.db, q, pick)
    case Check(call) => call in s.calls && s.calls[call].Selected?
    case Commit(call) => call in s.calls && s.calls[call].Unspent?
    case Crash(call) => call in s.calls
  }

  function Answered(s: State, call: nat, q: Request, r: (Db, Answer)): State {
    State(r.0, s.calls - {call}, s.replies + [Reply(q, r.1)])
  }

  ghost function Apply(s: State, e: Event): State
    requires Enabled(s, e)
  {
    match e
    case Issue(id, g) => s.(db := s.db.(grants := s.db.grants[id := g]))
    case Revoke(id, now) => s.(db := RevokeGrant(s.db, id, now))
    case Select(call, q, pick) =>
      if pick.None? then Answered(s, call, q, (s.db, NoMatchingGrant))
      else s.(calls := s.calls[call := Selected(q, pick.value, s.db.grants[pick.value])])
    case Check(call) =>
      var p := s.calls[call];
      if AlreadyCharged(s.db, p.id, p.q.key)
      then Answered(s, call, p.q, RecordRetry(s.db, p.q, p.id, p.seen))
      else s.(calls := s.calls[call := Unspent(p.q, p.id)])
    case Commit(call) =>
      var p := s.calls[call];
      Answered(s, call, p.q, Charge(s.db, p.q, p.id))
    case Crash(call) => s.(calls := s.calls - {call})
  }

  ghost predicate IsRun(trace: seq<State>, events: seq<Event>) {
    && |trace| == |events| + 1
    && trace[0] == START
    && forall i :: 0 <= i < |events| ==> StepAt(trace, events, i)
  }

  ghost predicate StepAt(trace: seq<State>, events: seq<Event>, i: nat)
    requires i < |events| < |trace|
  {
    Enabled(trace[i], events[i]) && trace[i + 1] == Apply(trace[i], events[i])
  }

  /** The database steps of one consume, one after the other, come to the consume that
      nothing interrupts: its tables and its answer. */
  lemma {:induction false} StepsAreConsume(s: State, call: nat, q: Request, pick: Option<string>)
    requires Enabled(s, Select(call, q, pick))
    ensures var (db', a) := ConsumeAlone(s.db, q, pick);
            var done := State(db', s.calls, s.replies + [Reply(q, a)]);
            var s1 := Apply(s, Select(call, q, pick));
            if call !in s1.calls then s1 == done
            else
              && Enabled(s1, Check(call))
              && var s2 := Apply(s1, Check(call));
                 if call !in s2.calls then s2 == done
                 else Enabled(s2, Commit(call)) && s2.db == s.db && Apply(s2, Commit(call)) == done
  {
  }

  // ---------------------------------------------------------------- counting

  function ChargedKeys(attempts: seq<Attempt>, id: string): set<string> {
    set a | a in attempts && a.charged && a.grantId == id :: a.key
  }

  function ChargeCount(attempts: seq<Attempt>, id: string): nat {
    if attempts == [] then 0
    else
      var last := attempts[|attempts| - 1];
      ChargeCount(attempts[..|attempts| - 1], id) + if last.charged && last.grantId == id then 1 else 0
  }

  function AuthorizedKeys(replies: seq<Reply>, id: string): set<string> {
    set r | r in replies && r.answer.Authorized? && r.answer.grantId == id :: r.q.key
  }

  lemma {:induction false} AppendAttempt(attempts: seq<Attempt>, a: Attempt, id: string)
    ensures ChargedKeys(attempts + [a], id)
         == ChargedKeys(attempts, id) + if a.charged && a.grantId == id then {a.key} else {}
    ensures ChargeCount(attempts + [a], id)
         == ChargeCount(attempts, id) + if a.charged && a.grantId == id then 1 else 0
  {
    var all := attempts + [a];
    assert all[..|all| - 1] == attempts;
    forall k
      ensures k in ChargedKeys(all, id)
         <==> k in ChargedKeys(attempts, id) || (a.charged && a.grantId == id && k == a.key)
    {
      assert forall b :: b in all <==> b in attempts || b == a;
    }
  }

  lemma {:induction false} ChargedIffKey(db: Db, id: string, key: string)
    ensures AlreadyCharged(db, id, key) <==> key in ChargedKeys(db.attempts, id)
  {
    if AlreadyCharged(db, id, key) {
      var i :| 0 <= i < |db.attempts| && IsCharge(db.attempts[i], id, key);
      assert db.attempts[i] in db.attempts;
    }
  }

  // ---------------------------------------------------------------- the invariant

  /** A grant's counter is the number of its charged rows, which are its charged keys,
      one row each, and fits its cap. */
  ghost predicate Conserved(db: Db, id: string) {
    id in db.grants &&
    var g := db.grants[id];
    && g.consumed == |ChargedKeys(db.attempts, id)| == ChargeCount(db.attempts, id)
    && g.consumed <= g.cap && g.cap > 0
  }

  ghost predicate CallOk(db: Db, p: Phase) {
    p.id in db.grants && Fits(db.grants[p.id], p.q)
  }

  ghost predicate Fits(g: Grant, q: Request) {
    g.chapter == q.chapter && g.kind == q.kind && Covers(g.scope, q.key)
  }

  ghost predicate ReplyOk(db: Db, r: Reply) {
    r.answer.Authorized? ==>
      && r.answer.grantId in db.grants
      && r.q.key in ChargedKeys(db.attempts, r.answer.grantId)
      && Fits(db.grants[r.answer.grantId], r.q)
  }

  ghost predicate Inv(s: State) {
    && (forall id :: id in s.db.grants ==> Conserved(s.db, id))
    && (forall a :: a in s.db.attempts ==> a.grantId in s.db.grants)
    && (forall c :: c in s.calls ==> CallOk(s.db, s.calls[c]))
    && (forall r :: r in s.replies ==> ReplyOk(s.db, r))
  }

  /** What no event ever takes away. */
  ghost predicate Grows(db: Db, db': Db) {
    && db.attempts <= db'.attempts
    && forall id :: id in db.grants ==> id in db'.grants && SameTerms(db.grants[id], db'.grants[id])
  }

  predicate SameTerms(g: Grant, g': Grant) {
    && g' == g.(consumed := g'.consumed, revokedAt := g'.revokedAt)
    && g.consumed <= g'.consumed
    && (g.revokedAt != None ==> g'.revokedAt == g.revokedAt)
  }

  lemma {:induction false} UnchargedId(db: Db, id: string)
    requires id !in db.grants && forall a :: a in db.attempts ==> a.grantId in db.grants
    ensures ChargedKeys(db.attempts, id) == {} && ChargeCount(db.attempts, id) == 0
  {
    NoChargesFor(db.attempts, id);
  }

  lemma {:induction false} NoChargesFor(attempts: seq<Attempt>, id: string)
    requires forall a :: a in attempts ==> a.grantId != id
    ensures ChargeCount(attempts, id) == 0
  {
    if attempts != [] {
      assert attempts[|attempts| - 1] in attempts;
      NoChargesFor(attempts[..|attempts| - 1], id);
    }
  }

  lemma {:induction false} ChargeKeepsOne(db: Db, q: Request, id: string, i: string)
    requires Charge(db, q, id).1.Authorized? && Conserved(db, i)
    ensures Conserved(Charge(db, q, id).0, i)
  {
    var db' := Charge(db, q, id).0;
    ChargedIffKey(db, id, q.key);
    AppendAttempt(db.attempts, db'.attempts[|db.attempts|], i);
  }

  lemma {:induction false} ChargeKeepsConserved(db: Db, q: Request, id: string)
    requires forall i :: i in db.grants ==> Conserved(db, i)
    ensures var db' := Charge(db, q, id).0;
            && Grows(db, db')
            && forall i :: i in db'.grants ==> Conserved(db', i)
  {
    var (db', answer) := Charge(db, q, id);
    if answer.Authorized? {
      forall i | i in db'.grants
        ensures Conserved(db', i)
      {
        ChargeKeepsOne(db, q, id, i);
      }
    }
  }

  lemma {:induction false} RetryKeepsConserved(db: Db, q: Request, id: string, seen: Grant)
    requires forall i :: i in db.grants ==> Conserved(db, i)
    ensures var db' := RecordRetry(db, q, id, seen).0;
            && Grows(db, db')
            && forall i :: i in db'.grants ==> Conserved(db', i)
  {
    var db' := RecordRetry(db, q, id, seen).0;
    forall i | i in db'.grants
      ensures Conserved(db', i)
    {
      assert Conserved(db, i);
      AppendAttempt(db.attempts, db'.attempts[|db.attempts|], i);
    }
  }

  lemma {:induction false} IssueKeepsConserved(db: Db, id: string, g: Grant)
    requires id !in db.grants && Fresh(g)
    requires forall i :: i in db.grants ==> Conserved(db, i)
    requires forall a :: a in db.attempts ==> a.grantId in db.grants
    ensures var db' := db.(grants := db.grants[id := g]);
            Grows(db, db') && forall i :: i in db'.grants ==> Conserved(db', i)
  {
    UnchargedId(db, id);
    var db' := db.(grants := db.grants[id := g]);
    forall i | i in db'.grants
      ensures Conserved(db', i)
    {
      if i != id {
        assert Conserved(db, i);
      }
    }
  }

  /** Growth keeps what replies and open calls rely on. */
  lemma {:induction false} GrowthKeeps(db: Db, db': Db, calls: map<nat, Phase>, replies: seq<Reply>)
    requires Grows(db, db')
    requires forall c :: c in calls ==> CallOk(db, calls[c])
    requires forall r :: r in replies ==> ReplyOk(db, r)
    ensures forall c :: c in calls ==> CallOk(db', calls[c])
    ensures forall r :: r in replies ==> ReplyOk(db', r)
  {
    forall r | r in replies
      ensures ReplyOk(db', r)
    {
      if r.answer.Authorized? {
        assert ReplyOk(db, r);
        KeysGrow(db.attempts, db'.attempts, r.answer.grantId);
      }
    }
    forall c | c in calls
      ensures CallOk(db', calls[c])
    {
      assert CallOk(db, calls[c]);
    }
  }

  lemma {:induction false} KeysGrow(attempts: seq<Attempt>, attempts': seq<Attempt>, id: string)
    requires attempts <= attempts'
    ensures ChargedKeys(attempts, id) <= ChargedKeys(attempts', id)
  {
    assert forall a :: a in attempts ==> a in attempts';
  }

  /** An answered call leaves, and its reply is sound if its key is charged by then. */
  lemma {:induction false} AnswerKeepsInv(s: State, call: nat, q: Request, r: (Db, Answer))
    requires Inv(s) && Grows(s.db, r.0)
    requires forall i :: i in r.0.grants ==> Conserved(r.0, i)
    requires forall a :: a in r.0.attempts ==> a.grantId in r.0.grants
    requires ReplyOk(r.0, Reply(q, r.1))
    ensures Inv(Answered(s, call, q, r))
  {
    GrowthKeeps(s.db, r.0, s.calls, s.replies);
  }

  lemma {:induction false} CheckKeepsInv(s: State, call: nat)
    requires Inv(s) && Enabled(s, Check(call))
    ensures Inv(Apply(s, Check(call))) && Grows(s.db, Apply(s, Check(call)).db)
  {
    var p := s.calls[call];
    assert CallOk(s.db, p);
    if AlreadyCharged(s.db, p.id, p.q.key) {
      var r := RecordRetry(s.db, p.q, p.id, p.seen);
      RetryKeepsConserved(s.db, p.q, p.id, p.seen);
      ChargedIffKey(s.db, p.id, p.q.key);
      AppendAttempt(s.db.attempts, r.0.attempts[|s.db.attempts|], p.id);
      AnswerKeepsInv(s, call, p.q, r);
    }
  }

  lemma {:induction false} CommitKeepsInv(s: State, call: nat)
    requires Inv(s) && Enabled(s, Commit(call))
    ensures Inv(Apply(s, Commit(call))) && Grows(s.db, Apply(s, Commit(call)).db)
  {
    var p := s.calls[call];
    assert CallOk(s.db, p);
    var r := Charge(s.db, p.q, p.id);
    ChargeKeepsConserved(s.db, p.q, p.id);
    if r.1.Authorized? {
      AppendAttempt(s.db.attempts, r.0.attempts[|s.db.attempts|], p.id);
    }
    AnswerKeepsInv(s, call, p.q, r);
  }

  lemma {:induction false} RevokeKeepsInv(s: State, id: string, now: int)
    requires Inv(s)
    ensures Inv(s.(db := RevokeGrant(s.db, id, now))) && Grows(s.db, RevokeGrant(s.db, id, now))
  {
    var db' := RevokeGrant(s.db, id, now);
    forall i | i in db'.grants
      ensures Conserved(db', i)
    {
      assert Conserved(s.db, i);
    }
    GrowthKeeps(s.db, db', s.calls, s.replies);
  }

  lemma {:induction false} StepKeepsInv(s: State, e: Event)
    requires Inv(s) && Enabled(s, e)
    ensures Inv(Apply(s, e)) && Grows(s.db, Apply(s, e).db)
  {
    match e {
      case Issue(id, g) =>
        IssueKeepsConserved(s.db, id, g);
        GrowthKeeps(s.db, Apply(s, e).db, s.calls, s.replies);
      case Revoke(id, now) => RevokeKeepsInv(s, id, now);
      case Select(call, q, pick) =>
        if pick.None? {
          AnswerKeepsInv(s, call, q, (s.db, NoMatchingGrant));
        }
      case Check(call) => CheckKeepsInv(s, call);
      case Commit(call) => CommitKeepsInv(s, call);
      case Crash(call) =>
    }
  }

  lemma {:induction false} RunKeepsInv(trace: seq<State>, events: seq<Event>, i: nat)
    requires IsRun(trace, events) && i < |trace|
    ensures Inv(trace[i])
  {
    if i > 0 {
      RunKeepsInv(trace, events, i - 1);
      assert StepAt(trace, events, i - 1);
      StepKeepsInv(trace[i - 1], events[i - 1]);
    }
  }

  lemma {:induction false} RunGrows(trace: seq<State>, events: seq<Event>, i: nat, j: nat)
    requires IsRun(trace, events) && i <= j < |trace|
    ensures Grows(trace[i].db, trace[j].db)
    decreases j - i
  {
    if i < j {
      RunGrows(trace, events, i, j - 1);
      RunKeepsInv(trace, events, j - 1);
      assert StepAt(trace, events, j - 1);
      StepKeepsInv(trace[j - 1], events[j - 1]);
    }
  }

  // ---------------------------------------------------------------- main results

  /** In every reachable state of every interleaving: the counter counts distinct charged
      keys, within the cap, and no more keys than the cap were ever authorized, all of them
      charged and inside the grant's chapter, kind and scope. */
  lemma {:induction false} GrantsConserved(trace: seq<State>, events: seq<Event>, i: nat, id: string)
    requires IsRun(trace, events) && i < |trace| && id in trace[i].db.grants
    ensures var g := trace[i].db.grants[id];
            && g.consumed == |ChargedKeys(trace[i].db.attempts, id)| <= g.cap
            && ChargeCount(trace[i].db.attempts, id) == g.consumed
            && AuthorizedKeys(trace[i].replies, id) <= ChargedKeys(trace[i].db.attempts, id)
            && |AuthorizedKeys(trace[i].replies, id)| <= g.cap
    ensures forall r :: r in trace[i].replies && r.answer.Authorized? && r.answer.grantId == id
              ==> Fits(trace[i].db.grants[id], r.q)
  {
    RunKeepsInv(trace, events, i);
    var s := trace[i];
    assert Conserved(s.db, id);
    forall key | key in AuthorizedKeys(s.replies, id)
      ensures key in ChargedKeys(s.db.attempts, id)
    {
      var r :| r in s.replies && r.answer.Authorized? && r.answer.grantId == id && r.q.key == key;
      assert ReplyOk(s.db, r);
    }
    SubsetSize(AuthorizedKeys(s.replies, id), ChargedKeys(s.db.attempts, id));
    forall r | r in s.replies && r.answer.Authorized? && r.answer.grantId == id
      ensures Fits(s.db.grants[id], r.q)
    {
      assert ReplyOk(s.db, r);
    }
  }

  /** A step that spends is a commit, by a request in time, of a grant not revoked, with
      room, for a key this grant never charged before. */
  lemma {:induction false} ChargeOnlyWhenLive(trace: seq<State>, events: seq<Event>, i: nat, id: string)
    requires IsRun(trace, events) && i < |events|
    requires ChargeCount(trace[i + 1].db.attempts, id) != ChargeCount(trace[i].db.attempts, id)
    ensures var s, e := trace[i], events[i];
            && e.Commit? && e.call in s.calls && s.calls[e.call].id == id && id in s.db.grants
            && var q, g := s.calls[e.call].q, s.db.grants[id];
               && g.revokedAt == None && q.now < g.expiresAt && g.consumed < g.cap
               && q.key !in ChargedKeys(s.db.attempts, id)
               && ChargedKeys(trace[i + 1].db.attempts, id) == ChargedKeys(s.db.attempts, id) + {q.key}
  {
    assert StepAt(trace, events, i);
    var s, e := trace[i], events[i];
    if (e.Check? || e.Commit?) && trace[i + 1].db.attempts != s.db.attempts {
      var p := s.calls[e.call];
      AppendAttempt(s.db.attempts, trace[i + 1].db.attempts[|s.db.attempts|], id);
      ChargedIffKey(s.db, p.id, p.q.key);
    }
  }

  /** After a revocation a grant's charged keys never change again, whatever was already
      in flight when it was revoked. */
  lemma {:induction false} RevokedIsFrozen(trace: seq<State>, events: seq<Event>, i: nat, j: nat, id: string)
    requires IsRun(trace, events) && i <= j < |trace|
    requires id in trace[i].db.grants && trace[i].db.grants[id].revokedAt != None
    ensures ChargedKeys(trace[j].db.attempts, id) == ChargedKeys(trace[i].db.attempts, id)
    ensures id in trace[j].db.grants && trace[j].db.grants[id].revokedAt == trace[i].db.grants[id].revokedAt
    decreases j - i
  {
    if i < j {
      RevokedIsFrozen(trace, events, i, j - 1, id);
      RunGrows(trace, events, j - 1, j);
      if ChargeCount(trace[j].db.attempts, id) != ChargeCount(trace[j - 1].db.attempts, id) {
        ChargeOnlyWhenLive(trace, events, j - 1, id);
        assert false;
      }
      UnchargedStep(trace, events, j - 1, id);
    }
  }

  lemma {:induction false} UnchargedStep(trace: seq<State>, events: seq<Event>, i: nat, id: string)
    requires IsRun(trace, events) && i < |events|
    requires ChargeCount(trace[i + 1].db.attempts, id) == ChargeCount(trace[i].db.attempts, id)
    ensures ChargedKeys(trace[i + 1].db.attempts, id) == ChargedKeys(trace[i].db.attempts, id)
  {
    assert StepAt(trace, events, i);
    var s, s' := trace[i], trace[i + 1];
    if s'.db.attempts != s.db.attempts {
      AppendAttempt(s.db.attempts, s'.db.attempts[|s.db.attempts|], id);
      assert s'.db.attempts == s.db.attempts + [s'.db.attempts[|s.db.attempts|]];
    }
  }

  // ---------------------------------------------------------------- retries

  /** Answered by this grant without spending, whichever grant the query picks among ties. */
  ghost predicate RetryIsFree(db: Db, q: Request, id: string) {
    forall pick :: LegalPick(db, q, pick) ==>
      var answer := ConsumeAlone(db, q, pick).1;
      answer.Authorized? && answer.grantId == id && !answer.charged
  }

  /** Some oldest-expiring one of these grants. */
  lemma {:induction false} Oldest(db: Db, ids: set<string>) returns (id: string)
    requires ids != {} && ids <= db.grants.Keys
    ensures id in ids && forall o :: o in ids ==> db.grants[id].expiresAt <= db.grants[o].expiresAt
    decreases |ids|
  {
    id :| id in ids;
    if ids != {id} {
      assert ids - {id} != {};
      var o := Oldest(db, ids - {id});
      if db.grants[o].expiresAt < db.grants[id].expiresAt {
        id := o;
      }
    }
  }

  /** Unless this grant is the one the query must pick, it may pick another, or none. */
  lemma {:induction false} OtherPick(db: Db, q: Request, id: string) returns (pick: Option<string>)
    requires id in db.grants
    requires !Eligible(db, q, id)
          || exists o :: Eligible(db, q, o) && o != id && db.grants[o].expiresAt <= db.grants[id].expiresAt
    ensures LegalPick(db, q, pick) && pick != Some(id)
  {
    var others := set o | o in db.grants && Eligible(db, q, o) && o != id;
    assert forall o :: Eligible(db, q, o) && o != id ==> o in others;
    if others == {} {
      pick := None;
    } else {
      var o := Oldest(db, others);
      pick := Some(o);
    }
  }

  /** A repeat of an action this grant already charged is free, for certain, exactly while the
      grant has room and every other grant the query could pick expires later. Once the last
      unit is spent the grant is no longer selected, and the repeat is refused or answered by
      some other grant. */
  lemma {:induction false} RetryFreeIffRoom(db: Db, q: Request, id: string)
    requires id in db.grants && AlreadyCharged(db, id, q.key)
    requires db.grants[id].revokedAt == None && q.now < db.grants[id].expiresAt && Fits(db.grants[id], q)
    ensures RetryIsFree(db, q, id)
       <==> && db.grants[id].consumed < db.grants[id].cap
            && forall o :: Eligible(db, q, o) && o != id ==> db.grants[id].expiresAt < db.grants[o].expiresAt
  {
    if db.grants[id].consumed < db.grants[id].cap
       && forall o :: Eligible(db, q, o) && o != id ==> db.grants[id].expiresAt < db.grants[o].expiresAt {
      assert Eligible(db, q, id);
    } else {
      var pick := OtherPick(db, q, id);
      assert LegalPick(db, q, pick);
    }
  }

  /** One action, sent three times against two grants of one unit each: charged, charged
      again under the second grant, then refused. */
  lemma {:induction false} OneActionChargedTwice(g: Grant, q: Request)
    requires Fresh(g) && g.cap == 1 && Fits(g, q) && q.now < g.expiresAt
    ensures var later := g.(expiresAt := g.expiresAt + 1);
            var db0 := Db(map["g1" := g, "g2" := later], []);
            var (db1, a1) := ConsumeAlone(db0, q, Some("g1"));
            var (db2, a2) := ConsumeAlone(db1, q, Some("g2"));
            && LegalPick(db0, q, Some("g1")) && a1 == Authorized("g1", true, 0)
            && LegalPick(db1, q, Some("g2")) && a2 == Authorized("g2", true, 0)
            && LegalPick(db2, q, None)
  {
    var db0 := Db(map["g1" := g, "g2" := g.(expiresAt := g.expiresAt + 1)], []);
    assert !AlreadyCharged(db0, "g1", q.key);
    var db1 := ConsumeAlone(db0, q, Some("g1")).0;
    assert !Eligible(db1, q, "g1") && Eligible(db1, q, "g2");
    assert db1.attempts == [Attempt("g1", q.key, q.actor, true, 0)];
    assert !AlreadyCharged(db1, "g2", q.key);
  }

  // ---------------------------------------------------------------- revocation

  /** A first revocation stamps its row with its instant and changes nothing else; a later one
      changes nothing. */
  lemma {:induction false} RevokeStamps(s: State, id: string, now: int)
    ensures var s' := Apply(s, Revoke(id, now));
            if id in s.db.grants && s.db.grants[id].revokedAt == None
            then s' == s.(db := s.db.(grants := s.db.grants[id := s.db.grants[id].(revokedAt := Some(now))]))
            else s' == s
  {
  }

  /** Once a revocation has run the grant is revoked for good, and no key is ever charged to it
      again, by whatever was in flight. */
  lemma {:induction false} RevokeStops(trace: seq<State>, events: seq<Event>, i: nat, j: nat, id: string, now: int)
    requires IsRun(trace, events) && i < j < |trace|
    requires events[i] == Revoke(id, now) && id in trace[i].db.grants
    ensures id in trace[j].db.grants && trace[j].db.grants[id].revokedAt.Some?
    ensures ChargedKeys(trace[j].db.attempts, id) == ChargedKeys(trace[i].db.attempts, id)
  {
    assert StepAt(trace, events, i);
    RevokeStamps(trace[i], id, now);
    RevokedIsFrozen(trace, events, i + 1, j, id);
  }
}
