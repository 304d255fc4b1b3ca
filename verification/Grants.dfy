/** Bounded grants: issue, consume and revoke, with every consume broken into the database
    steps another transaction can run between. */
module Grants {
  import opened Common
  import opened Text
  import opened GrantScope

  datatype Grant = Grant(
    chapter: string, kind: string, scope: string, cap: int, consumed: int,
    expiresAt: int, revokedAt: Option<int>, createdBy: string)

  /** One row of the consumption audit; only charged rows spend. */
  datatype Attempt = Attempt(grantId: string, key: string, actor: string, charged: bool, remaining: int)

  datatype Db = Db(grants: map<string, Grant>, attempts: seq<Attempt>)

  datatype Request = Request(chapter: string, kind: string, key: string, actor: string, now: int)

  datatype Answer =
    | NoMatchingGrant
    | ExhaustedOrRevoked
    | RolledBack
    | Authorized(grantId: string, charged: bool, remaining: int)

  // ---------------------------------------------------------------- issuing

  datatype CapArg = CapMissing | CapBool | CapOther | CapInt(n: int)
  datatype ExpiryArg = ExpiryMissing | Naive(at: int) | Aware(at: int)

  datatype Issued = IssueRefused | Granted(grant: Grant)

  const OPERATIONAL_KINDS: set<string> := {"send_external", "record_write", "external_fetch"}

  function IssueGrant(
      chapter: string, kind: string, scope: Option<string>, cap: CapArg, expiresAt: ExpiryArg,
      createdBy: string, now: int): Issued
  {
    if kind !in OPERATIONAL_KINDS then IssueRefused
    else if scope.None? || ValidateScope(scope.value).Refused? then IssueRefused
    else if !cap.CapInt? || cap.n <= 0 then IssueRefused
    else if !expiresAt.Aware? || expiresAt.at <= now then IssueRefused
    else if createdBy == "" then IssueRefused
    else Granted(Grant(chapter, kind, ValidateScope(scope.value).scope, cap.n, 0, expiresAt.at, None, createdBy))
  }

  /** Nothing is issued without every bound, and everything with every bound is. */
  lemma {:induction false} IssuedIffBounded(
      chapter: string, kind: string, scope: Option<string>, cap: CapArg, expiresAt: ExpiryArg,
      createdBy: string, now: int)
    ensures var r := IssueGrant(chapter, kind, scope, cap, expiresAt, createdBy, now);
            && (r.Granted? ==>
                  && r.grant.cap > 0 && r.grant.consumed == 0 && r.grant.expiresAt > now
                  && r.grant.kind in OPERATIONAL_KINDS && r.grant.createdBy != ""
                  && r.grant.revokedAt == None
                  && Trimmed(r.grant.scope) && WellFormedScope(r.grant.scope)
                  && exists key: string :: !Matches(r.grant.scope, key))
            && (r.Granted? <==>
                  && kind in OPERATIONAL_KINDS && createdBy != ""
                  && scope.Some? && WellFormedScope(Strip(scope.value))
                  && cap.CapInt? && cap.n > 0 && expiresAt.Aware? && expiresAt.at > now)
            && (r.Granted? ==>
                  r.grant == Grant(chapter, kind, Strip(scope.value), cap.n, 0, expiresAt.at, None, createdBy))
  {
    if scope.Some? {
      StripTrims(scope.value);
      if ValidateScope(scope.value).Accepted? {
        var key := AcceptedScopeExcludesSome(scope.value);
      }
    }
  }

  // ---------------------------------------------------------------- one consume, step by step

  /** The WHERE clause of the first SELECT. */
  predicate Eligible(db: Db, q: Request, id: string) {
    id in db.grants &&
    var g := db.grants[id];
    && g.chapter == q.chapter && g.kind == q.kind && g.revokedAt == None
    && g.expiresAt > q.now && g.consumed < g.cap && Covers(g.scope, q.key)
  }

  /** ORDER BY expires_at LIMIT 1: any of the oldest-expiring, or none if there is none. */
  ghost predicate LegalPick(db: Db, q: Request, pick: Option<string>) {
    match pick
    case None => forall id :: id in db.grants ==> !Eligible(db, q, id)
    case Some(id) =>
      && Eligible(db, q, id)
      && forall other :: Eligible(db, q, other) ==> db.grants[id].expiresAt <= db.grants[other].expiresAt
  }

  predicate IsCharge(a: Attempt, id: string, key: string) {
    a.charged && a.grantId == id && a.key == key
  }

  predicate AlreadyCharged(db: Db, id: string, key: string) {
    exists i :: 0 <= i < |db.attempts| && IsCharge(db.attempts[i], id, key)
  }

  function RecordRetry(db: Db, q: Request, id: string, seen: Grant): (Db, Answer) {
    var left := seen.cap - seen.consumed;
    (db.(attempts := db.attempts + [Attempt(id, q.key, q.actor, false, left)]), Authorized(id, false, left))
  }

  /** The conditional UPDATE, the charged INSERT and the commit. The unique index on
      charged (grant, key) pairs rolls the whole transaction back. */
  function Charge(db: Db, q: Request, id: string): (Db, Answer) {
    if id !in db.grants then (db, ExhaustedOrRevoked)
    else
      var g := db.grants[id];
      if g.revokedAt != None || g.expiresAt <= q.now || g.consumed >= g.cap then (db, ExhaustedOrRevoked)
      else if AlreadyCharged(db, id, q.key) then (db, RolledBack)
      else
        var g' := g.(consumed := g.consumed + 1);
        var left := g'.cap - g'.consumed;
        (Db(db.grants[id := g'], db.attempts + [Attempt(id, q.key, q.actor, true, left)]),
         Authorized(id, true, left))
  }

  function RevokeGrant(db: Db, id: string, now: int): Db {
    if id in db.grants && db.grants[id].revokedAt == None
    then db.(grants := db.grants[id := db.grants[id].(revokedAt := Some(now))])
    else db
  }

  /** A consume no other transaction interrupts. */
  function ConsumeAlone(db: Db, q: Request, pick: Option<string>): (Db, Answer) {
    match pick
    case None => (db, NoMatchingGrant)
    case Some(id) =>
      if id !in db.grants then (db, NoMatchingGrant)
      else if AlreadyCharged(db, id, q.key) then RecordRetry(db, q, id, db.grants[id])
      else Charge(db, q, id)
  }

  /** The two tables; each method is one database call of the module. */
  class GrantTables {
    var grants: map<string, Grant>
    var attempts: seq<Attempt>

    constructor ()
      ensures Contents() == Db(map[], [])
    {
      grants, attempts := map[], [];
    }

    function Contents(): Db
      reads this
    {
      Db(grants, attempts)
    }

    /** `id` is the fresh identifier; `persists` is whether the insert landed. */
    method Issue(
        id: string, chapter: string, kind: string, scope: Option<string>, cap: CapArg,
        expiresAt: ExpiryArg, createdBy: string, now: int, persists: bool)
      returns (r: Issued)
      requires id !in grants
      modifies this
      ensures r == if persists then IssueGrant(chapter, kind, scope, cap, expiresAt, createdBy, now) else IssueRefused
      ensures Contents() == if r.Granted? then Db(old(grants)[id := r.grant], old(attempts)) else old(Contents())
    {
      r := IssueGrant(chapter, kind, scope, cap, expiresAt, createdBy, now);
      if r.Granted? {
        if !persists {
          return IssueRefused;
        }
        grants := grants[id := r.grant];
      }
    }

    method Consume(q: Request, pick: Option<string>) returns (answer: Answer)
      requires LegalPick(Contents(), q, pick)
      modifies this
      ensures (Contents(), answer) == ConsumeAlone(old(Contents()), q, pick)
    {
      if pick.None? {
        return NoMatchingGrant;
      }
      var id := pick.value;
      var already := AlreadyCharged(Contents(), id, q.key);
      if already {
        var left := grants[id].cap - grants[id].consumed;
        attempts := attempts + [Attempt(id, q.key, q.actor, false, left)];
        return Authorized(id, false, left);
      }
      var g := grants[id];
      grants := grants[id := g.(consumed := g.consumed + 1)];
      var left := g.cap - grants[id].consumed;
      attempts := attempts + [Attempt(id, q.key, q.actor, true, left)];
      answer := Authorized(id, true, left);
    }

    /** `persists` is whether the update reached the database; it succeeds on no row as well. */
    method Revoke(id: string, now: int, persists: bool) returns (ok: bool)
      modifies this
      ensures ok == persists
      ensures Contents() == if ok then RevokeGrant(old(Contents()), id, now) else old(Contents())
    {
      if !persists {
        return false;
      }
      ok := true;
      if id in grants && grants[id].revokedAt == None {
        grants := grants[id := grants[id].(revokedAt := Some(now))];
      }
    }
  }

  /** Both tables and the answer of a consume nothing interrupts: nothing, an audit row, or one
      unit of one grant and an audit row; the grant used is live, covers the action and has
      room, and none is found only when there is none. */
  lemma {:induction false} ConsumeExact(db: Db, q: Request, pick: Option<string>)
    requires LegalPick(db, q, pick)
    ensures var (db', a) := ConsumeAlone(db, q, pick);
            && (a == NoMatchingGrant <==> forall id :: id in db.grants ==> !Usable(db.grants[id], q))
            && (a.Authorized? || a == NoMatchingGrant)
            && (a == NoMatchingGrant ==> db' == db)
            && (a.Authorized? ==>
                  && a.grantId in db.grants && Usable(db.grants[a.grantId], q)
                  && (forall o :: o in db.grants && Usable(db.grants[o], q) ==>
                        db.grants[a.grantId].expiresAt <= db.grants[o].expiresAt)
                  && var g := db.grants[a.grantId];
                     var spent := if a.charged then g.consumed + 1 else g.consumed;
                     && (a.charged <==> forall i :: 0 <= i < |db.attempts| ==> !IsCharge(db.attempts[i], a.grantId, q.key))
                     && a.remaining == g.cap - spent
                     && db'.grants == db.grants[a.grantId := g.(consumed := spent)]
                     && db'.attempts == db.attempts + [Attempt(a.grantId, q.key, q.actor, a.charged, a.remaining)])
  {
    assert forall id :: id in db.grants ==> (Eligible(db, q, id) <==> Usable(db.grants[id], q));
    var (db', a) := ConsumeAlone(db, q, pick);
    if pick.Some? && !a.charged {
      assert db.grants[pick.value := db.grants[pick.value]] == db.grants;
    }
  }

  /** Each answer of the charging step, which other transactions may have run before: the unit
      is spent exactly on a grant that is still live and has room, for a key not charged to it;
      a key charged meanwhile rolls back; anything else finds nothing to update. */
  lemma {:induction false} ChargeExact(db: Db, q: Request, id: string)
    ensures var (db', a) := Charge(db, q, id);
            var live := id in db.grants && db.grants[id].revokedAt == None && q.now < db.grants[id].expiresAt
                        && db.grants[id].consumed < db.grants[id].cap;
            var charged := exists i :: 0 <= i < |db.attempts| && IsCharge(db.attempts[i], id, q.key);
            && (a == ExhaustedOrRevoked <==> !live)
            && (a == RolledBack <==> live && charged)
            && (a.Authorized? <==> live && !charged)
            && (!a.Authorized? ==> db' == db)
            && (a.Authorized? ==>
                  var g := db.grants[id];
                  var left := g.cap - g.consumed - 1;
                  && a == Authorized(id, true, left)
                  && db'.grants == db.grants[id := g.(consumed := g.consumed + 1)]
                  && db'.attempts == db.attempts + [Attempt(id, q.key, q.actor, true, left)])
  {
  }

  /** Live at the request's time, with room, for its chapter, kind and action. */
  predicate Usable(g: Grant, q: Request) {
    && g.revokedAt == None && q.now < g.expiresAt && g.consumed < g.cap
    && g.chapter == q.chapter && g.kind == q.kind && Covers(g.scope, q.key)
  }
}
