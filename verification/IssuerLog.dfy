/** The issuer log: receipts verified, chained to their issuer's earlier receipts and
    appended. A chain link is the hash of a whole receipt, kept as a free constructor. */
module IssuerLog {
  import opened Common

  datatype Link = LinkOf(receipt: Receipt) | Unmatched(text: string)

  datatype Receipt = Receipt(
    id: string, issuer: string, principal: string, content: string, previous: Option<Link>)

  /** `wellFormed` stands for the schema, signature and authority checks; `own` is the
      org's own DID, or the empty string before it has a key. */
  datatype Config = Config(own: string, wellFormed: Receipt -> bool)

  datatype Result = Accepted | Rejected | HashChain | WrongPrincipal | Duplicate | NotPersisted

  /** The chain stage: strict refuses a prior it was not given, tolerant records the claim. */
  function VerifyReceipt(cfg: Config, r: Receipt, strict: bool, prior: Option<Receipt>): Result {
    if !cfg.wellFormed(r) then Rejected
    else if r.previous.None? then Accepted
    else if prior.None? then (if strict then HashChain else Accepted)
    else if LinkOf(prior.value) != r.previous.value then HashChain
    else Accepted
  }

  /** A row the per-issuer lookup of a previous hash may return. */
  predicate IsPriorOf(prior: Receipt, r: Receipt) {
    r.previous == Some(LinkOf(prior)) && prior.issuer == r.issuer
  }

  /** What the lookup gives: a matching row, or nothing when there is none or it failed. */
  predicate LegalLookup(log: seq<Receipt>, r: Receipt, prior: Option<Receipt>, failed: bool) {
    if prior.Some? then prior.value in log && IsPriorOf(prior.value, r)
    else r.previous.None? || failed || forall p :: p in log ==> !IsPriorOf(p, r)
  }

  function Gate(cfg: Config, r: Receipt, prior: Option<Receipt>, principal: Option<string>): Result {
    var v := VerifyReceipt(cfg, r, r.issuer == cfg.own, prior);
    if v != Accepted then v
    else if principal.Some? && r.principal != principal.value then WrongPrincipal
    else Accepted
  }

  predicate Holds(log: seq<Receipt>, r: Receipt) {
    exists i :: 0 <= i < |log| && log[i].issuer == r.issuer && log[i].id == r.id
  }

  /** The insert, under the unique (issuer, receipt id) constraint. */
  function Insert(log: seq<Receipt>, r: Receipt, fails: bool): (seq<Receipt>, Result) {
    if fails || Holds(log, r) then (log, NotPersisted) else (log + [r], Accepted)
  }

  /** One emit that nothing interrupts and no database call fails in. */
  function EmitAlone(cfg: Config, log: seq<Receipt>, r: Receipt, prior: Option<Receipt>, principal: Option<string>)
    : (seq<Receipt>, Result)
  {
    var g := Gate(cfg, r, prior, principal);
    if g != Accepted then (log, g)
    else if Holds(log, r) then (log, Duplicate)
    else Insert(log, r, false)
  }

  /** The log holds a receipt by the same issuer that the previous hash is of, where one is
      needed: an own receipt's prior is. */
  ghost predicate ChainHolds(cfg: Config, log: seq<Receipt>, r: Receipt) {
    r.issuer == cfg.own && r.previous.Some? ==> exists p :: p in log && IsPriorOf(p, r)
  }

  /** Which answer an emit gets that nothing interrupts and no call fails in: ill formed, own
      and without its prior, of another principal than required, already there, or accepted,
      which appends it; only that changes the log. */
  lemma {:induction false} EmitAnswers(
      cfg: Config, log: seq<Receipt>, r: Receipt, prior: Option<Receipt>, principal: Option<string>)
    requires LegalLookup(log, r, prior, false)
    ensures var (log', a) := EmitAlone(cfg, log, r, prior, principal);
            var chained := cfg.wellFormed(r) && ChainHolds(cfg, log, r);
            var authorized := principal.Some? ==> principal.value == r.principal;
            var there := exists k :: 0 <= k < |log| && log[k].issuer == r.issuer && log[k].id == r.id;
            && (a == Rejected <==> !cfg.wellFormed(r))
            && (a == HashChain <==> cfg.wellFormed(r) && !ChainHolds(cfg, log, r))
            && (a == WrongPrincipal <==> chained && !authorized)
            && (a == Duplicate <==> chained && authorized && there)
            && (a == Accepted <==> chained && authorized && !there)
            && log' == if a == Accepted then log + [r] else log
  {
    if prior.Some? {
      assert prior.value in log && IsPriorOf(prior.value, r);
    }
  }

  class Log {
    const cfg: Config
    var rows: seq<Receipt>

    constructor (cfg: Config)
      ensures this.cfg == cfg && rows == []
    {
      this.cfg := cfg;
      rows := [];
    }

    method LookupPrior(r: Receipt) returns (prior: Option<Receipt>)
      ensures LegalLookup(rows, r, prior, false)
    {
      for i := 0 to |rows|
        invariant forall k :: 0 <= k < i ==> !IsPriorOf(rows[k], r)
      {
        if IsPriorOf(rows[i], r) {
          return Some(rows[i]);
        }
      }
      prior := None;
    }

    method Emit(r: Receipt, principal: Option<string>) returns (result: Result)
      modifies this
      ensures exists prior ::
                && LegalLookup(old(rows), r, prior, false)
                && (rows, result) == EmitAlone(cfg, old(rows), r, prior, principal)
    {
      var prior := LookupPrior(r);
      var gate := Gate(cfg, r, prior, principal);
      if gate != Accepted {
        return gate;
      }
      if Holds(rows, r) {
        return Duplicate;
      }
      rows := rows + [r];
      result := Accepted;
    }
  }
}

/** Every interleaving of emits, each three database calls, any of which may fail. */
module IssuerLogRuns {
  import opened Common
  import opened IssuerLog

  datatype Phase = Verified(r: Receipt) | Unseen(r: Receipt)

  datatype Event =
    | Lookup(call: nat, r: Receipt, prior: Option<Receipt>, failed: bool, principal: Option<string>)
    | CheckExisting(call: nat, failed: bool)
    | Persist(call: nat, fails: bool)

  datatype State = State(log: seq<Receipt>, calls: map<nat, Phase>)

  ghost predicate Enabled(s: State, e: Event) {
    match e
    case Lookup(call, r, prior, failed, _) => call !in s.calls && LegalLookup(s.log, r, prior, failed)
    case CheckExisting(call, _) => call in s.calls && s.calls[call].Verified?
    case Persist(call, _) => call in s.calls && s.calls[call].Unseen?
  }

  ghost function Apply(cfg: Config, s: State, e: Event): State
    requires Enabled(s, e)
  {
    match e
    case Lookup(call, r, prior, _, principal) =>
      if Gate(cfg, r, prior, principal) == Accepted then s.(calls := s.calls[call := Verified(r)]) else s
    case CheckExisting(call, failed) =>
      var r := s.calls[call].r;
      if !failed && Holds(s.log, r) then s.(calls := s.calls - {call})
      else s.(calls := s.calls[call := Unseen(r)])
    case Persist(call, fails) => State(Insert(s.log, s.calls[call].r, fails).0, s.calls - {call})
  }

  ghost predicate IsRun(cfg: Config, states: seq<State>, es: seq<Event>) {
    && |states| == |es| + 1 && states[0] == State([], map[])
    && forall i :: 0 <= i < |es| ==> StepAt(cfg, states, es, i)
  }

  ghost predicate StepAt(cfg: Config, states: seq<State>, es: seq<Event>, i: nat)
    requires i < |es| < |states|
  {
    Enabled(states[i], es[i]) && states[i + 1] == Apply(cfg, states[i], es[i])
  }

  ghost predicate Unique(log: seq<Receipt>) {
    forall i, j :: 0 <= i < j < |log| ==> log[i].issuer != log[j].issuer || log[i].id != log[j].id
  }

  /** An own receipt that names a previous hash has its prior among these rows. */
  ghost predicate Chained(cfg: Config, rows: seq<Receipt>, r: Receipt) {
    r.issuer == cfg.own && r.previous.Some? ==> exists p :: p in rows && IsPriorOf(p, r)
  }

  ghost predicate Inv(cfg: Config, s: State) {
    && Unique(s.log)
    && (forall k :: 0 <= k < |s.log| ==> cfg.wellFormed(s.log[k]) && Chained(cfg, s.log[..k], s.log[k]))
    && (forall c :: c in s.calls ==> cfg.wellFormed(s.calls[c].r) && Chained(cfg, s.log, s.calls[c].r))
  }

  lemma {:induction false} ChainedGrows(cfg: Config, rows: seq<Receipt>, more: seq<Receipt>, r: Receipt)
    requires Chained(cfg, rows, r)
    ensures Chained(cfg, rows + more, r)
  {
    if r.issuer == cfg.own && r.previous.Some? {
      var p :| p in rows && IsPriorOf(p, r);
      assert p in rows + more;
    }
  }

  lemma {:induction false} StepKeepsInv(cfg: Config, s: State, e: Event)
    requires Inv(cfg, s) && Enabled(s, e)
    ensures Inv(cfg, Apply(cfg, s, e)) && s.log <= Apply(cfg, s, e).log
  {
    var s' := Apply(cfg, s, e);
    if e.Persist? && s'.log != s.log {
      var r := s.calls[e.call].r;
      assert s'.log == s.log + [r] && s'.log[..|s.log|] == s.log;
      forall k | 0 <= k < |s'.log|
        ensures cfg.wellFormed(s'.log[k]) && Chained(cfg, s'.log[..k], s'.log[k])
      {
        if k < |s.log| {
          assert s'.log[..k] == s.log[..k];
        }
      }
      forall c | c in s'.calls
        ensures Chained(cfg, s'.log, s'.calls[c].r)
      {
        ChainedGrows(cfg, s.log, [r], s.calls[c].r);
      }
    }
  }

  lemma {:induction false} RunKeepsInv(cfg: Config, states: seq<State>, es: seq<Event>, i: nat)
    requires IsRun(cfg, states, es) && i < |states|
    ensures Inv(cfg, states[i])
  {
    if i > 0 {
      RunKeepsInv(cfg, states, es, i - 1);
      assert StepAt(cfg, states, es, i - 1);
      StepKeepsInv(cfg, states[i - 1], es[i - 1]);
    }
  }

  // ---------------------------------------------------------------- main results

  /** The three calls of one emit, one after the other, come to the emit that nothing
      interrupts. A failed look for the same receipt does not stop it, and a failed insert
      leaves the log as it was. */
  lemma {:induction false} StepsAreEmit(
      cfg: Config, s: State, call: nat, r: Receipt, prior: Option<Receipt>, principal: Option<string>)
    requires Enabled(s, Lookup(call, r, prior, false, principal))
    ensures var (log', a) := EmitAlone(cfg, s.log, r, prior, principal);
            var s1 := Apply(cfg, s, Lookup(call, r, prior, false, principal));
            if call !in s1.calls then a !in {Accepted, Duplicate} && s1 == s && log' == s.log
            else
              var s2 := Apply(cfg, s1, CheckExisting(call, false));
              && s2.log == s.log && Enabled(Apply(cfg, s1, CheckExisting(call, true)), Persist(call, false))
              && if call !in s2.calls then a == Duplicate && s2 == s && log' == s.log
                 else
                   && a == Accepted && Apply(cfg, s2, Persist(call, false)) == State(log', s.calls)
                   && Apply(cfg, s2, Persist(call, true)) == s
  {
  }

  /** Rows are only ever appended: none is altered, moved or removed. */
  lemma {:induction false} LogIsAppendOnly(cfg: Config, states: seq<State>, es: seq<Event>, i: nat, j: nat)
    requires IsRun(cfg, states, es) && i <= j < |states|
    ensures states[i].log <= states[j].log
    decreases j - i
  {
    if i < j {
      LogIsAppendOnly(cfg, states, es, i, j - 1);
      RunKeepsInv(cfg, states, es, j - 1);
      assert StepAt(cfg, states, es, j - 1);
      StepKeepsInv(cfg, states[j - 1], es[j - 1]);
    }
  }

  /** No two rows share issuer and id, whatever raced; every row passed the checks; and an
      own receipt that names a previous hash has its prior, by the same issuer, earlier. */
  lemma {:induction false} LogIntegrity(cfg: Config, states: seq<State>, es: seq<Event>, i: nat, k: nat)
    requires IsRun(cfg, states, es) && i < |states| && k < |states[i].log|
    ensures var log := states[i].log;
            && (forall m :: 0 <= m < |log| && m != k ==> log[m].issuer != log[k].issuer || log[m].id != log[k].id)
            && cfg.wellFormed(log[k])
            && (log[k].issuer == cfg.own && log[k].previous.Some? ==>
                  exists m :: 0 <= m < k && IsPriorOf(log[m], log[k]))
  {
    RunKeepsInv(cfg, states, es, i);
    var log := states[i].log;
    assert Chained(cfg, log[..k], log[k]);
    if log[k].issuer == cfg.own && log[k].previous.Some? {
      var p :| p in log[..k] && IsPriorOf(p, log[k]);
      var m :| 0 <= m < k && log[..k][m] == p;
      assert IsPriorOf(log[m], log[k]);
    }
  }

  /** A walk back through the log, each receipt followed by its prior. */
  ghost predicate IsChain(log: seq<Receipt>, chain: seq<Receipt>) {
    && (forall i :: 0 <= i < |chain| ==> chain[i] in log)
    && (forall i :: 0 < i < |chain| ==> IsPriorOf(chain[i], chain[i - 1]))
  }

  /** How many receipts a receipt's previous hashes contain. */
  function Depth(r: Receipt): nat {
    if r.previous.Some? && r.previous.value.LinkOf? then 1 + Depth(r.previous.value.receipt) else 0
  }

  lemma {:induction false} ChainDescends(log: seq<Receipt>, chain: seq<Receipt>, i: nat, j: nat)
    requires IsChain(log, chain) && i < j < |chain|
    ensures Depth(chain[j]) < Depth(chain[i])
    decreases j - i
  {
    assert IsPriorOf(chain[j], chain[j - 1]);
    if i < j - 1 {
      ChainDescends(log, chain, i, j - 1);
    }
  }

  function Elements(s: seq<Receipt>): set<Receipt> {
    set r | r in s
  }

  lemma {:induction false} AtMostLength(s: seq<Receipt>)
    ensures |Elements(s)| <= |s|
  {
    if s != [] {
      AtMostLength(s[..|s| - 1]);
      assert Elements(s) == Elements(s[..|s| - 1]) + {s[|s| - 1]};
    }
  }

  lemma {:induction false} DistinctCount(s: seq<Receipt>)
    requires forall i, j :: 0 <= i < j < |s| ==> s[i] != s[j]
    ensures |Elements(s)| == |s|
  {
    if s != [] {
      var init := s[..|s| - 1];
      DistinctCount(init);
      assert Elements(s) == Elements(init) + {s[|s| - 1]};
      assert s[|s| - 1] !in Elements(init);
    }
  }

  /** Following previous hashes inside any log ends: no walk meets a receipt twice, so none
      is longer than the log. This is the structure of the hashes, not the arrival order. */
  lemma {:induction false} ChainsEnd(log: seq<Receipt>, chain: seq<Receipt>)
    requires IsChain(log, chain)
    ensures forall i, j :: 0 <= i < j < |chain| ==> chain[i] != chain[j]
    ensures |chain| <= |log|
  {
    forall i, j | 0 <= i < j < |chain|
      ensures chain[i] != chain[j]
    {
      ChainDescends(log, chain, i, j);
    }
    DistinctCount(chain);
    AtMostLength(log);
    SubsetSize(Elements(chain), Elements(log));
  }

  /** Every own receipt's chain is held whole, back to one with no previous hash. */
  lemma {:induction false} OwnChainReachesStart(cfg: Config, states: seq<State>, es: seq<Event>, i: nat, k: nat)
    returns (chain: seq<Receipt>)
    requires IsRun(cfg, states, es) && i < |states| && k < |states[i].log| && states[i].log[k].issuer == cfg.own
    ensures chain != [] && chain[0] == states[i].log[k] && chain[|chain| - 1].previous.None?
    ensures IsChain(states[i].log, chain) && forall r :: r in chain ==> r.issuer == cfg.own
    decreases k
  {
    var log := states[i].log;
    if log[k].previous.None? {
      chain := [log[k]];
    } else {
      LogIntegrity(cfg, states, es, i, k);
      var m :| 0 <= m < k && IsPriorOf(log[m], log[k]);
      var rest := OwnChainReachesStart(cfg, states, es, i, m);
      chain := [log[k]] + rest;
      assert forall n :: 0 < n < |chain| ==> chain[n] == rest[n - 1];
    }
  }

  /** A foreign receipt may arrive before its prior, which then lands after it. */
  lemma {:induction false} ForeignOutOfOrder(cfg: Config, first: Receipt, second: Receipt)
    requires cfg.wellFormed(first) && cfg.wellFormed(second)
    requires first.issuer != cfg.own && first.previous == None && IsPriorOf(first, second) && first.id != second.id
    ensures var (log1, r1) := EmitAlone(cfg, [], second, None, None);
            var (log2, r2) := EmitAlone(cfg, log1, first, None, None);
            && LegalLookup([], second, None, false) && r1 == Accepted && r2 == Accepted
            && log2 == [second, first] && IsChain(log2, [second, first])
  {
  }

  /** This event checked the receipt, well formed and of the principal it required, if any. */
  predicate Vouches(cfg: Config, e: Event, r: Receipt) {
    e.Lookup? && e.r == r && cfg.wellFormed(r) && (e.principal.Some? ==> e.principal.value == r.principal)
  }

  ghost predicate Vouched(cfg: Config, es: seq<Event>, r: Receipt) {
    exists m :: 0 <= m < |es| && Vouches(cfg, es[m], r)
  }

  lemma {:induction false} VouchedLonger(cfg: Config, es: seq<Event>, e: Event, r: Receipt)
    requires Vouched(cfg, es, r) || Vouches(cfg, e, r)
    ensures Vouched(cfg, es + [e], r)
  {
    var all := es + [e];
    if m :| 0 <= m < |es| && Vouches(cfg, es[m], r) {
      assert all[m] == es[m];
    } else {
      assert all[|es|] == e;
    }
  }

  /** In every run each row, and each receipt on its way, passed the checks of an emit of its own. */
  lemma {:induction false} RowsWereVouchedFor(cfg: Config, states: seq<State>, es: seq<Event>, i: nat)
    requires IsRun(cfg, states, es) && i < |states|
    ensures forall r :: r in states[i].log ==> Vouched(cfg, es[..i], r)
    ensures forall c :: c in states[i].calls ==> Vouched(cfg, es[..i], states[i].calls[c].r)
  {
    if i > 0 {
      RowsWereVouchedFor(cfg, states, es, i - 1);
      assert StepAt(cfg, states, es, i - 1);
      var s, e := states[i - 1], es[i - 1];
      assert es[..i] == es[..i - 1] + [e];
      forall r | Vouched(cfg, es[..i - 1], r) || Vouches(cfg, e, r)
        ensures Vouched(cfg, es[..i], r)
      {
        VouchedLonger(cfg, es[..i - 1], e, r);
      }
    }
  }
}
