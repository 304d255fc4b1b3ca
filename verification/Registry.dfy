/** The index registry: two tables, records and trust-on-first-use pins, and the three write
    handlers, each from its database block onwards as one atomic step. */
module Registry {
  import opened Common
  import opened Json
  import opened Text
  import opened AttestationGate

  datatype Config = Config(world: World, gateOn: bool, maxRecords: int)

  datatype Tables = Tables(agents: map<string, Doc>, pins: map<string, string>)

  datatype Request =
    | Post(body: Json, now: real)
    | Put(path: string, body: Json, now: real)
    | Delete(path: string)

  datatype Response =
    | Created(agentId: string)
    | Updated(agentId: string)
    | Deleted(agentId: string)
    | BadRequest
    | Forbidden(reason: Decision)
    | NotFound
    | Conflict
    | AtCapacity

  // ---------------------------------------------------------------- the handlers as functions

  /** `str(body.get("agent_id") or "").strip()`, empty when the body is no object. */
  function PostId(w: World, body: Json): string {
    if body.JObj? && Truthy(Get(body.fields, "agent_id"))
    then Strip(Str(w, body.fields["agent_id"])) else ""
  }

  /** The gate, and the pin it commits whatever the handler answers afterwards. */
  function Gate(cfg: Config, t: Tables, id: string, body: Doc, now: real): (Tables, Decision) {
    if !cfg.gateOn then (t, Allowed(None))
    else
      var pinned := if id in t.pins then Some(t.pins[id]) else None;
      var d := EvaluateWrite(cfg.world, id, body, pinned, now);
      if d.Allowed? && d.pin.Some? && id !in t.pins then (t.(pins := t.pins[id := d.pin.value]), d)
      else (t, d)
  }

  function Store(t: Tables, id: string, doc: Doc): Tables {
    t.(agents := t.agents[id := doc])
  }

  /** `existing or {...}`, updated with the body, then the identity of the path. */
  function Merged(existing: Option<Doc>, id: string, body: Doc): Doc {
    var base := if existing.Some? && existing.value != map[] then existing.value else map["agent_id" := JStr(id)];
    (base + body)["agent_id" := JStr(id)]
  }

  function Handle(cfg: Config, t: Tables, req: Request): (Tables, Response) {
    match req
    case Post(body, now) =>
      var id := PostId(cfg.world, body);
      if id == "" then (t, BadRequest)
      else
        var (t', d) := Gate(cfg, t, id, body.fields, now);
        if !d.Allowed? then (t, Forbidden(d))
        else if id in t'.agents then (t', Conflict)
        else if |t'.agents| >= cfg.maxRecords then (t', AtCapacity)
        else (Store(t', id, body.fields), Created(id))
    case Put(id, body, now) =>
      if !body.JObj? then (t, BadRequest)
      else
        var (t', d) := Gate(cfg, t, id, body.fields, now);
        if !d.Allowed? then (t, Forbidden(d))
        else
          var existing := if id in t'.agents then Some(t'.agents[id]) else None;
          if existing.None? && |t'.agents| >= cfg.maxRecords then (t', AtCapacity)
          else (Store(t', id, Merged(existing, id, body.fields)), Updated(id))
    case Delete(id) =>
      if id !in t.agents then (t, NotFound)
      else (t.(agents := t.agents - {id}), Deleted(id))
  }

  // ---------------------------------------------------------------- the handlers in place

  class Index {
    const cfg: Config
    var agents: map<string, Doc>
    var pins: map<string, string>

    constructor (cfg: Config)
      ensures this.cfg == cfg && Contents() == Tables(map[], map[])
    {
      this.cfg := cfg;
      agents, pins := map[], map[];
    }

    function Contents(): Tables
      reads this
    {
      Tables(agents, pins)
    }

    method GateWrite(id: string, body: Doc, now: real) returns (d: Decision)
      modifies this`pins
      ensures (Contents(), d) == Gate(cfg, old(Contents()), id, body, now)
    {
      if !cfg.gateOn {
        return Allowed(None);
      }
      var pinned := if id in pins then Some(pins[id]) else None;
      d := EvaluateWrite(cfg.world, id, body, pinned, now);
      if d.Allowed? && d.pin.Some? && id !in pins {
        pins := pins[id := d.pin.value];
      }
    }

    method RegisterAgent(body: Json, now: real) returns (r: Response)
      modifies this
      ensures (Contents(), r) == Handle(cfg, old(Contents()), Post(body, now))
    {
      var id := PostId(cfg.world, body);
      if !body.JObj? || id == "" {
        return BadRequest;
      }
      var d := GateWrite(id, body.fields, now);
      if !d.Allowed? {
        return Forbidden(d);
      }
      if id in agents {
        return Conflict;
      }
      if |agents| >= cfg.maxRecords {
        return AtCapacity;
      }
      agents := agents[id := body.fields];
      r := Created(id);
    }

    method UpdateAgent(id: string, body: Json, now: real) returns (r: Response)
      modifies this
      ensures (Contents(), r) == Handle(cfg, old(Contents()), Put(id, body, now))
    {
      if !body.JObj? {
        return BadRequest;
      }
      var d := GateWrite(id, body.fields, now);
      if !d.Allowed? {
        return Forbidden(d);
      }
      var existing := if id in agents then Some(agents[id]) else None;
      if existing.None? {
        if |agents| >= cfg.maxRecords {
          return AtCapacity;
        }
      }
      var doc := if existing.Some? && existing.value != map[] then existing.value
                 else map["agent_id" := JStr(id)];
      doc := doc + body.fields;
      doc := doc["agent_id" := JStr(id)];
      agents := agents[id := doc];
      r := Updated(id);
    }

    method DeleteAgent(id: string) returns (r: Response)
      modifies this`agents
      ensures (Contents(), r) == Handle(cfg, old(Contents()), Delete(id))
    {
      if id !in agents {
        return NotFound;
      }
      agents := agents - {id};
      r := Deleted(id);
    }
  }
}

/** What holds over every run of the three handlers. */
module RegistryRuns {
  import opened Common
  import opened Json
  import opened Text
  import opened AttestationGate
  import opened Registry

  /** Table states before, between and after the requests, and the answers given. */
  datatype Run = Run(states: seq<Tables>, requests: seq<Request>, responses: seq<Response>)

  ghost predicate IsRun(cfg: Config, run: Run) {
    && |run.states| == |run.requests| + 1 == |run.responses| + 1
    && run.states[0] == Tables(map[], map[])
    && forall i :: 0 <= i < |run.requests| ==> StepAt(cfg, run, i)
  }

  ghost predicate StepAt(cfg: Config, run: Run, i: nat)
    requires i < |run.requests| < |run.states| && i < |run.responses|
  {
    (run.states[i + 1], run.responses[i]) == Handle(cfg, run.states[i], run.requests[i])
  }

  /** Answered 200 or 201: the write was stored. */
  predicate Stored(r: Response, id: string) {
    r == Created(id) || r == Updated(id)
  }

  /** The id a write is about, and the fields it brings; a PUT brings the path's identity. */
  function WriteId(w: World, req: Request): Option<string> {
    match req
    case Post(body, _) => Some(PostId(w, body))
    case Put(path, _, _) => Some(path)
    case Delete(_) => None
  }

  function Body(req: Request): Doc {
    if req.Delete? || !req.body.JObj? then map[] else req.body.fields
  }

  function Brought(req: Request): Doc {
    if req.Put? then Body(req)["agent_id" := JStr(req.path)] else Body(req)
  }

  function Now(req: Request): real {
    if req.Delete? then 0.0 else req.now
  }

  // ---------------------------------------------------------------- pins

  lemma {:induction false} StepKeepsPins(cfg: Config, t: Tables, req: Request, id: string)
    requires id in t.pins
    ensures id in Handle(cfg, t, req).0.pins && Handle(cfg, t, req).0.pins[id] == t.pins[id]
  {
  }

  /** A pin, once set, is there with the same DID ever after, deletions included. */
  lemma {:induction false} PinsNeverChange(cfg: Config, run: Run, i: nat, j: nat, id: string)
    requires IsRun(cfg, run) && i <= j < |run.states| && id in run.states[i].pins
    ensures id in run.states[j].pins && run.states[j].pins[id] == run.states[i].pins[id]
    decreases j - i
  {
    if i < j {
      PinsNeverChange(cfg, run, i, j - 1, id);
      assert StepAt(cfg, run, j - 1);
      StepKeepsPins(cfg, run.states[j - 1], run.requests[j - 1], id);
    }
  }

  /** A step that pins, or that stores to a pinned id, carries the DID's own attestation. */
  lemma {:induction false} StepIsAttested(cfg: Config, t: Tables, req: Request, id: string)
    requires cfg.gateOn && WriteId(cfg.world, req) == Some(id)
    requires var (t', r) := Handle(cfg, t, req);
             (Stored(r, id) && id in t.pins) || (id !in t.pins && id in t'.pins)
    ensures var t' := Handle(cfg, t, req).0;
            id in t'.pins && AttestedBy(cfg.world, Body(req), id, t'.pins[id], Now(req))
    ensures var c := ClaimedEndpoint(Body(req));
            c.Some? ==> AttestsEndpoint(cfg.world, Body(req), c.value)
  {
    var pinned := if id in t.pins then Some(t.pins[id]) else None;
    var d := EvaluateWrite(cfg.world, id, Body(req), pinned, Now(req));
    assert d.Allowed?;
    ValidIsSigned(cfg.world, Body(req), Now(req));
  }

  /** Once an id is pinned, every later stored write to it is attested for exactly that id
      by exactly that DID, inside the attestation's window at that moment. */
  lemma {:induction false} PinnedWritesAreAttested(cfg: Config, run: Run, i: nat, j: nat, id: string)
    requires IsRun(cfg, run) && cfg.gateOn
    requires i <= j < |run.requests| && id in run.states[i].pins
    requires WriteId(cfg.world, run.requests[j]) == Some(id) && Stored(run.responses[j], id)
    ensures AttestedBy(cfg.world, Body(run.requests[j]), id, run.states[i].pins[id], Now(run.requests[j]))
  {
    PinsNeverChange(cfg, run, i, j, id);
    assert StepAt(cfg, run, j);
    StepIsAttested(cfg, run.states[j], run.requests[j], id);
    StepKeepsPins(cfg, run.states[j], run.requests[j], id);
  }

  /** Every pin was set by a write to that id which its DID attested, stored or not. */
  lemma {:induction false} PinsWereAttested(cfg: Config, run: Run, j: nat, id: string) returns (i: nat)
    requires IsRun(cfg, run) && cfg.gateOn && j < |run.states| && id in run.states[j].pins
    ensures i < j && id !in run.states[i].pins && id in run.states[i + 1].pins
    ensures WriteId(cfg.world, run.requests[i]) == Some(id)
    ensures AttestedBy(cfg.world, Body(run.requests[i]), id, run.states[j].pins[id], Now(run.requests[i]))
  {
    assert j > 0;
    assert StepAt(cfg, run, j - 1);
    if id in run.states[j - 1].pins {
      StepKeepsPins(cfg, run.states[j - 1], run.requests[j - 1], id);
      i := PinsWereAttested(cfg, run, j - 1, id);
    } else {
      i := j - 1;
      StepIsAttested(cfg, run.states[i], run.requests[i], id);
    }
  }

  /** The id and body of a request that reaches the gate. */
  function Gated(w: World, req: Request): Option<(string, Doc)> {
    match req
    case Post(body, _) => if PostId(w, body) == "" then None else Some((PostId(w, body), body.fields))
    case Put(path, body, _) => if body.JObj? then Some((path, body.fields)) else None
    case Delete(_) => None
  }

  /** What a handler finds after the gate, and refuses for. */
  predicate RefusedAfterGate(cfg: Config, t: Tables, req: Request, id: string) {
    if id in t.agents then req.Post? else |t.agents| >= cfg.maxRecords
  }

  /** The body carries an attestation for the id, by some DID, and no other endpoint. */
  ghost predicate Attested(w: World, body: Doc, id: string, now: real) {
    && (exists did: string :: AttestedBy(w, body, id, did, now))
    && (ClaimedEndpoint(body).Some? ==> AttestsEndpoint(w, body, ClaimedEndpoint(body).value))
  }

  /** The gate pins exactly on the first valid attestation. */
  lemma {:induction false} GatePinsIff(cfg: Config, t: Tables, id: string, body: Doc, now: real)
    ensures var (t', d) := Gate(cfg, t, id, body, now);
            && (t'.pins != t.pins <==> cfg.gateOn && id !in t.pins && Attested(cfg.world, body, id, now))
            && (t'.pins != t.pins ==> d.Allowed?)
  {
    var w := cfg.world;
    var pinned := if id in t.pins then Some(t.pins[id]) else None;
    var d := EvaluateWrite(w, id, body, pinned, now);
    AllowedIff(w, id, body, pinned, now);
    if d.Allowed? {
      PinIsSigner(w, id, body, pinned, now);
    }
    if did: string :| AttestedBy(w, body, id, did, now) {
      SignedIsValid(w, body, id, did, now);
    }
  }

  /** A refused request commits a pin exactly when it passes the gate with the first
      attestation for its id and is refused for what the handler finds afterwards: the id
      exists and this is a POST, or it is new and the table is full. */
  lemma {:induction false} RefusedPinsIff(cfg: Config, t: Tables, req: Request)
    requires Refused(Handle(cfg, t, req).1)
    ensures var g := Gated(cfg.world, req);
            Handle(cfg, t, req).0.pins != t.pins <==>
              && cfg.gateOn && g.Some? && g.value.0 !in t.pins
              && RefusedAfterGate(cfg, t, req, g.value.0)
              && Attested(cfg.world, g.value.1, g.value.0, Now(req))
  {
    var g := Gated(cfg.world, req);
    if g.Some? {
      GatePinsIff(cfg, t, g.value.0, g.value.1, Now(req));
    }
  }

  /** Such a request: a POST of an id that already exists. */
  lemma {:induction false} RefusedWriteCanPin(cfg: Config, t: Tables, id: string, body: Doc, now: real, did: string)
    requires cfg.gateOn && id in t.agents && id !in t.pins
    requires PostId(cfg.world, JObj(body)) == id != ""
    requires EvaluateWrite(cfg.world, id, body, None, now) == Allowed(Some(did))
    ensures Handle(cfg, t, Post(JObj(body), now)) == (t.(pins := t.pins[id := did]), Conflict)
  {
  }

  // ---------------------------------------------------------------- the answers

  /** The gate lets this write through: it is off, or the id is unpinned and the body carries no
      attestation, or it carries one for the id, by the pinned DID if any, with no other endpoint. */
  ghost predicate MayWrite(cfg: Config, t: Tables, id: string, body: Doc, now: real) {
    var w := cfg.world;
    || !cfg.gateOn
    || (Get(body, "attestation") == JNull && id !in t.pins)
    || (&& EndpointAgrees(w, body)
        && exists did: string :: AttestedBy(w, body, id, did, now) && (id in t.pins ==> t.pins[id] == did))
  }

  lemma {:induction false} GateAllowsIff(cfg: Config, t: Tables, id: string, body: Doc, now: real)
    ensures var (t', d) := Gate(cfg, t, id, body, now);
            (d.Allowed? <==> MayWrite(cfg, t, id, body, now)) && t'.agents == t.agents
  {
    if cfg.gateOn {
      var pinned := if id in t.pins then Some(t.pins[id]) else None;
      AllowedIff(cfg.world, id, body, pinned, now);
    }
  }

  /** The id of a POST: a string is stripped; a body that is no object, or has none, has none. */
  lemma {:induction false} PostIdIs(w: World, body: Json, s: string)
    ensures !body.JObj? ==> PostId(w, body) == ""
    ensures body.JObj? && Get(body.fields, "agent_id") == JStr(s) ==> PostId(w, body) == Strip(s)
    ensures body.JObj? && Get(body.fields, "agent_id") == JNull ==> PostId(w, body) == ""
  {
  }

  /** Every answer of a POST, and the record it leaves. */
  lemma {:induction false} PostAnswers(cfg: Config, t: Tables, body: Json, now: real)
    ensures var id := PostId(cfg.world, body);
            var (t', r) := Handle(cfg, t, Post(body, now));
            && (r == BadRequest <==> id == "")
            && (id == "" ==> t' == t)
            && (id != "" ==>
                  && body.JObj?
                  && (r.Forbidden? <==> !MayWrite(cfg, t, id, body.fields, now))
                  && (r == Conflict <==> MayWrite(cfg, t, id, body.fields, now) && id in t.agents)
                  && (r == AtCapacity <==>
                        MayWrite(cfg, t, id, body.fields, now) && id !in t.agents && |t.agents| >= cfg.maxRecords)
                  && (r == Created(id) <==>
                        MayWrite(cfg, t, id, body.fields, now) && id !in t.agents && |t.agents| < cfg.maxRecords)
                  && t'.agents == if r == Created(id) then t.agents[id := body.fields] else t.agents)
  {
    var id := PostId(cfg.world, body);
    if id != "" {
      PostIdMeans(cfg.world, body);
      GateAllowsIff(cfg, t, id, body.fields, now);
    }
  }

  /** Every answer of a PUT. */
  lemma {:induction false} PutAnswers(cfg: Config, t: Tables, id: string, body: Json, now: real)
    ensures var r := Handle(cfg, t, Put(id, body, now)).1;
            && (r == BadRequest <==> !body.JObj?)
            && (body.JObj? ==>
                  && (r.Forbidden? <==> !MayWrite(cfg, t, id, body.fields, now))
                  && (r == AtCapacity <==>
                        MayWrite(cfg, t, id, body.fields, now) && id !in t.agents && |t.agents| >= cfg.maxRecords)
                  && (r == Updated(id) <==>
                        MayWrite(cfg, t, id, body.fields, now) && (id in t.agents || |t.agents| < cfg.maxRecords)))
  {
    if body.JObj? {
      GateAllowsIff(cfg, t, id, body.fields, now);
    }
  }

  /** The record a PUT leaves: the stored one overridden by the body, with the path's id. */
  lemma {:induction false} PutLeaves(cfg: Config, t: Tables, id: string, body: Json, now: real)
    ensures var (t', r) := Handle(cfg, t, Put(id, body, now));
            && (!body.JObj? ==> t' == t)
            && t'.agents ==
                 if r == Updated(id) && body.JObj?
                 then t.agents[id := (Existing(t, id) + body.fields)["agent_id" := JStr(id)]] else t.agents
  {
    if body.JObj? {
      GateKeepsAgents(cfg, t, id, body.fields, now);
      MergedIsOverride(t, id, body.fields);
      OverrideOrder(Existing(t, id), body.fields, JStr(id));
    }
  }

  lemma {:induction false} OverrideOrder(a: Doc, b: Doc, j: Json)
    ensures a + b["agent_id" := j] == (a + b)["agent_id" := j]
  {
  }

  /** A DELETE removes the record, if there is one, and never a pin. */
  lemma {:induction false} DeleteAnswers(cfg: Config, t: Tables, id: string)
    ensures Handle(cfg, t, Delete(id)) ==
              if id in t.agents then (Tables(t.agents - {id}, t.pins), Deleted(id)) else (t, NotFound)
  {
  }

  // ---------------------------------------------------------------- endpoints

  ghost predicate HasEndpoint(t: Tables, id: string, e: string) {
    id in t.agents && "endpoint" in t.agents[id] && t.agents[id]["endpoint"] == JStr(e)
  }

  /** In every state from `i` to `j` the record holds this endpoint. */
  ghost predicate EndpointKept(run: Run, i: nat, j: nat, id: string, e: string) {
    i <= j < |run.states| && forall k :: i <= k <= j ==> HasEndpoint(run.states[k], id, e)
  }

  /** Request `i` stored this endpoint under an attestation by `did` for this id that
      names the same endpoint, and it has stayed. */
  ghost predicate EndpointAttested(cfg: Config, run: Run, i: nat, j: nat, id: string, did: string, e: string) {
    && i < j < |run.states| && j <= |run.requests| && j <= |run.responses|
    && Stored(run.responses[i], id)
    && Get(Body(run.requests[i]), "endpoint") == JStr(e)
    && AttestedBy(cfg.world, Body(run.requests[i]), id, did, Now(run.requests[i]))
    && AttestsEndpoint(cfg.world, Body(run.requests[i]), e)
    && EndpointKept(run, i + 1, j, id, e)
  }

  /** The pin was made by request `i`, when the record already held this endpoint. */
  ghost predicate EndpointOlderThanPin(run: Run, i: nat, j: nat, id: string, e: string) {
    && i < j < |run.states|
    && id !in run.states[i].pins && id in run.states[i + 1].pins
    && EndpointKept(run, i, j, id, e)
  }

  /** An endpoint appears only through a stored write to its id that brings it. */
  lemma {:induction false} EndpointSource(cfg: Config, t: Tables, req: Request, id: string, e: string)
    requires HasEndpoint(Handle(cfg, t, req).0, id, e)
    ensures || HasEndpoint(t, id, e)
            || (&& Stored(Handle(cfg, t, req).1, id) && WriteId(cfg.world, req) == Some(id)
                && Get(Body(req), "endpoint") == JStr(e))
  {
    match req {
      case Post(body, now) =>
        if !HasEndpoint(t, id, e) {
          PostEndpoint(cfg, t, body, now, id, e);
        }
      case Put(path, body, now) =>
        if !HasEndpoint(t, id, e) {
          PutEndpoint(cfg, t, path, body, now, id, e);
        }
      case Delete(_) =>
    }
  }

  lemma {:induction false} PostEndpoint(cfg: Config, t: Tables, body: Json, now: real, id: string, e: string)
    requires HasEndpoint(Handle(cfg, t, Post(body, now)).0, id, e) && !HasEndpoint(t, id, e)
    ensures Handle(cfg, t, Post(body, now)).1 == Created(id) && PostId(cfg.world, body) == id
    ensures Get(Body(Post(body, now)), "endpoint") == JStr(e)
  {
  }

  lemma {:induction false} PutEndpoint(cfg: Config, t: Tables, path: string, body: Json, now: real, id: string, e: string)
    requires HasEndpoint(Handle(cfg, t, Put(path, body, now)).0, id, e) && !HasEndpoint(t, id, e)
    ensures Handle(cfg, t, Put(path, body, now)).1 == Updated(id) && path == id
    ensures Get(Body(Put(path, body, now)), "endpoint") == JStr(e)
  {
  }

  /** Where the endpoint of a pinned record comes from, over every run. */
  lemma {:induction false} EndpointProvenance(cfg: Config, run: Run, j: nat, id: string, e: string) returns (i: nat)
    requires IsRun(cfg, run) && cfg.gateOn && j < |run.states|
    requires id in run.states[j].pins && HasEndpoint(run.states[j], id, e) && !Blank(e)
    ensures EndpointAttested(cfg, run, i, j, id, run.states[j].pins[id], e)
         || EndpointOlderThanPin(run, i, j, id, e)
  {
    assert j > 0;
    i := j - 1;
    assert StepAt(cfg, run, i);
    var t, req := run.states[i], run.requests[i];
    EndpointSource(cfg, t, req, id, e);
    if Stored(run.responses[i], id) && WriteId(cfg.world, req) == Some(id) && Get(Body(req), "endpoint") == JStr(e) {
      StepIsAttested(cfg, t, req, id);
      assert ClaimedEndpoint(Body(req)) == Some(e);
      assert EndpointKept(run, i + 1, j, id, e);
    } else if id in t.pins {
      StepKeepsPins(cfg, t, req, id);
      i := EndpointProvenance(cfg, run, j - 1, id, e);
      EndpointStays(cfg, run, i, j, id, e);
    } else {
      assert EndpointKept(run, i, j, id, e);
    }
  }

  lemma {:induction false} EndpointStays(cfg: Config, run: Run, i: nat, j: nat, id: string, e: string)
    requires IsRun(cfg, run) && 0 < j < |run.states| && HasEndpoint(run.states[j], id, e)
    requires id in run.states[j - 1].pins && id in run.states[j].pins
    requires run.states[j].pins[id] == run.states[j - 1].pins[id]
    requires EndpointAttested(cfg, run, i, j - 1, id, run.states[j].pins[id], e)
          || EndpointOlderThanPin(run, i, j - 1, id, e)
    ensures EndpointAttested(cfg, run, i, j, id, run.states[j].pins[id], e)
         || EndpointOlderThanPin(run, i, j, id, e)
  {
  }

  // ---------------------------------------------------------------- records

  /** The bodies stored to an id since it was last created. */
  function Bodies(requests: seq<Request>, responses: seq<Response>, id: string): seq<Doc>
    requires |requests| == |responses|
  {
    if requests == [] then []
    else
      var n := |requests| - 1;
      var before := Bodies(requests[..n], responses[..n], id);
      if responses[n] == Deleted(id) then []
      else if Stored(responses[n], id) then before + [Brought(requests[n])]
      else before
  }

  /** The value of a key in the last of the bodies that has it. */
  function LastWriter(bodies: seq<Doc>, key: string): Option<Json> {
    if bodies == [] then None
    else
      var last := bodies[|bodies| - 1];
      if key in last then Some(last[key]) else LastWriter(bodies[..|bodies| - 1], key)
  }

  ghost predicate Agrees(t: Tables, id: string, bodies: seq<Doc>) {
    && (id in t.agents <==> bodies != [])
    && (id in t.agents ==>
          && "agent_id" in t.agents[id]
          && forall key: string :: LastWriter(bodies, key)
               == if key in t.agents[id] then Some(t.agents[id][key]) else None)
  }

  lemma {:induction false} LastWriterAppend(bodies: seq<Doc>, body: Doc, key: string)
    ensures LastWriter(bodies + [body], key) == if key in body then Some(body[key]) else LastWriter(bodies, key)
  {
    assert (bodies + [body])[..|bodies|] == bodies;
  }

  function Existing(t: Tables, id: string): Doc {
    if id in t.agents then t.agents[id] else map[]
  }

  /** The record becomes the old one overridden by what was brought, or is deleted, or is
      untouched. */
  ghost predicate Effect(t: Tables, t': Tables, r: Response, brought: Doc, id: string) {
    && (Stored(r, id) ==> id in t'.agents && t'.agents[id] == Existing(t, id) + brought && "agent_id" in brought)
    && (r == Deleted(id) ==> id !in t'.agents)
    && (!Stored(r, id) && r != Deleted(id) ==>
          (id in t'.agents <==> id in t.agents) && Existing(t', id) == Existing(t, id))
  }

  lemma {:induction false} StoreEffect(
      t: Tables, t': Tables, r: Response, at: string, doc: Doc, brought: Doc, id: string)
    requires t'.agents == t.agents[at := doc] && (r == Created(at) || r == Updated(at))
    requires doc == Existing(t, at) + brought && "agent_id" in brought
    ensures Effect(t, t', r, brought, id)
  {
  }

  lemma {:induction false} PostStores(cfg: Config, t: Tables, body: Json, now: real)
    requires Handle(cfg, t, Post(body, now)).1.Created?
    ensures var (t', r) := Handle(cfg, t, Post(body, now));
            && body.JObj? && t'.agents == t.agents[r.agentId := body.fields]
            && body.fields == Existing(t, r.agentId) + body.fields && "agent_id" in body.fields
  {
    PostIdMeans(cfg.world, body);
    GateKeepsAgents(cfg, t, PostId(cfg.world, body), body.fields, now);
    OverridesNothing(body.fields);
  }

  lemma {:induction false} PostIdMeans(w: World, body: Json)
    requires PostId(w, body) != ""
    ensures body.JObj? && "agent_id" in body.fields
  {
  }

  lemma {:induction false} OverridesNothing(doc: Doc)
    ensures map[] + doc == doc
  {
  }

  lemma {:induction false} GateKeepsAgents(cfg: Config, t: Tables, id: string, body: Doc, now: real)
    ensures Gate(cfg, t, id, body, now).0.agents == t.agents
  {
  }

  lemma {:induction false} PostRecord(cfg: Config, t: Tables, body: Json, now: real, id: string)
    ensures var (t', r) := Handle(cfg, t, Post(body, now)); Effect(t, t', r, Body(Post(body, now)), id)
  {
    var (t', r) := Handle(cfg, t, Post(body, now));
    if r.Created? {
      var at, doc := r.agentId, body.fields;
      PostStores(cfg, t, body, now);
      StoreEffect(t, t', r, at, doc, doc, id);
    } else {
      assert t'.agents == t.agents;
    }
  }

  lemma {:induction false} PutRecord(cfg: Config, t: Tables, path: string, body: Json, now: real, id: string)
    ensures var (t', r) := Handle(cfg, t, Put(path, body, now)); Effect(t, t', r, Brought(Put(path, body, now)), id)
  {
    var (t', r) := Handle(cfg, t, Put(path, body, now));
    if r.Updated? {
      var doc := Merged(if path in t.agents then Some(t.agents[path]) else None, path, body.fields);
      assert t'.agents == t.agents[path := doc];
      MergedIsOverride(t, path, body.fields);
      StoreEffect(t, t', r, path, doc, Brought(Put(path, body, now)), id);
    } else {
      assert t'.agents == t.agents;
    }
  }

  lemma {:induction false} StepRecord(cfg: Config, t: Tables, req: Request, id: string)
    ensures Effect(t, Handle(cfg, t, req).0, Handle(cfg, t, req).1, Brought(req), id)
  {
    match req {
      case Post(body, now) => PostRecord(cfg, t, body, now, id);
      case Put(path, body, now) => PutRecord(cfg, t, path, body, now, id);
      case Delete(path) =>
    }
  }

  lemma {:induction false} MergedIsOverride(t: Tables, id: string, body: Doc)
    ensures Merged(if id in t.agents then Some(t.agents[id]) else None, id, body)
         == Existing(t, id) + body["agent_id" := JStr(id)]
  {
  }

  lemma {:induction false} StepAgrees(cfg: Config, t: Tables, req: Request, id: string, bodies: seq<Doc>)
    requires Agrees(t, id, bodies)
    ensures var (t', r) := Handle(cfg, t, req);
            Agrees(t', id, if r == Deleted(id) then []
                           else if Stored(r, id) then bodies + [Brought(req)]
                           else bodies)
  {
    var (t', r) := Handle(cfg, t, req);
    StepRecord(cfg, t, req, id);
    if Stored(r, id) {
      MergeAgrees(t, t', id, bodies, Brought(req));
    } else if r != Deleted(id) && id in t.agents {
      assert t'.agents[id] == t.agents[id];
    }
  }

  lemma {:induction false} MergeAgrees(t: Tables, t': Tables, id: string, bodies: seq<Doc>, body: Doc)
    requires Agrees(t, id, bodies) && "agent_id" in body
    requires id in t'.agents && t'.agents[id] == Existing(t, id) + body
    ensures Agrees(t', id, bodies + [body])
  {
    forall key: string
      ensures LastWriter(bodies + [body], key)
           == if key in t'.agents[id] then Some(t'.agents[id][key]) else None
    {
      LastWriterAppend(bodies, body, key);
      if id !in t.agents {
        assert bodies == [];
      }
    }
  }

  /** The stored record is the key-wise last-writer-wins merge of the bodies accepted since
      the record was created, and is there exactly when there is such a body. Stored
      documents are never empty, so a falsy existing document is an absent one. */
  lemma {:induction false} RecordIsLastWriterWins(cfg: Config, run: Run, j: nat, id: string)
    requires IsRun(cfg, run) && j < |run.states|
    ensures var bodies := Bodies(run.requests[..j], run.responses[..j], id);
            && (id in run.states[j].agents <==> bodies != [])
            && (id in run.states[j].agents ==> run.states[j].agents[id] != map[])
            && (id in run.states[j].agents ==>
                  forall key: string :: LastWriter(bodies, key)
                    == if key in run.states[j].agents[id] then Some(run.states[j].agents[id][key]) else None)
  {
    RecordAgrees(cfg, run, j, id);
  }

  lemma {:induction false} RecordAgrees(cfg: Config, run: Run, j: nat, id: string)
    requires IsRun(cfg, run) && j < |run.states|
    ensures Agrees(run.states[j], id, Bodies(run.requests[..j], run.responses[..j], id))
  {
    if j > 0 {
      RecordAgrees(cfg, run, j - 1, id);
      assert StepAt(cfg, run, j - 1);
      assert run.requests[..j][..j - 1] == run.requests[..j - 1];
      assert run.responses[..j][..j - 1] == run.responses[..j - 1];
      StepAgrees(cfg, run.states[j - 1], run.requests[j - 1], id,
                 Bodies(run.requests[..j - 1], run.responses[..j - 1], id));
    }
  }

  predicate Refused(r: Response) {
    !r.Created? && !r.Updated? && !r.Deleted?
  }

  lemma {:induction false} StepCapacity(cfg: Config, t: Tables, req: Request)
    ensures var (t', r) := Handle(cfg, t, req);
            && (Refused(r) ==> t'.agents == t.agents)
            && (|t'.agents| <= |t.agents| || |t'.agents| <= cfg.maxRecords)
            && (r == AtCapacity ==>
                  && |t.agents| >= cfg.maxRecords
                  && WriteId(cfg.world, req).Some? && WriteId(cfg.world, req).value !in t.agents)
  {
    if req.Delete? && req.path in t.agents {
      SmallerWithout(t.agents, req.path);
    }
  }

  lemma {:induction false} SmallerWithout(m: map<string, Doc>, id: string)
    requires id in m
    ensures |m - {id}| == |m| - 1
  {
    assert m.Keys == (m - {id}).Keys + {id};
  }

  /** The row count never exceeds the cap; a refusal changes no record; and an update of a
      record that exists is never refused for capacity. */
  lemma {:induction false} CapacityHolds(cfg: Config, run: Run, j: nat)
    requires IsRun(cfg, run) && j < |run.states|
    ensures |run.states[j].agents| <= if cfg.maxRecords > 0 then cfg.maxRecords else 0
    ensures j < |run.requests| && Refused(run.responses[j]) ==> run.states[j + 1].agents == run.states[j].agents
    ensures j < |run.requests| && run.responses[j] == AtCapacity ==>
              && |run.states[j].agents| >= cfg.maxRecords
              && WriteId(cfg.world, run.requests[j]).Some?
              && WriteId(cfg.world, run.requests[j]).value !in run.states[j].agents
  {
    if j < |run.requests| {
      assert StepAt(cfg, run, j);
      StepCapacity(cfg, run.states[j], run.requests[j]);
    }
    if j > 0 {
      CapacityHolds(cfg, run, j - 1);
      assert StepAt(cfg, run, j - 1);
      StepCapacity(cfg, run.states[j - 1], run.requests[j - 1]);
    }
  }
}
