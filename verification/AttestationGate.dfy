/** The attestation gate of the index: one decision per write, from the body, the pinned
    identity and the clock. */
module AttestationGate {
  import opened Common
  import opened Json
  import opened Text

  const NOT_BEFORE_SKEW_S := 300

  const REQUIRED: set<string> := {"v", "agent_id", "did", "endpoint", "issued_at", "expires_at"}

  /** What the gate asks of libraries: Python's text of a value that is not a string,
      whether a DID encodes an Ed25519 key, and whether a signature over a record's
      canonical bytes verifies under that key. */
  datatype World = World(
    text: Json -> string, hasKey: string -> bool, verifies: (string, string, Doc) -> bool)

  function Str(w: World, j: Json): string {
    if j.JStr? then j.s else w.text(j)
  }

  datatype Verdict = Valid | Malformed | UnsupportedDid | InvalidSignature | Expired | NotYetValid

  function VerifyAttestation(w: World, attestation: Json, now: real): Verdict {
    if !attestation.JObj? then Malformed
    else
      var record, sig := Get(attestation.fields, "record"), Get(attestation.fields, "sig");
      if !record.JObj? || !sig.JStr? || sig.s == "" then Malformed
      else if !(REQUIRED <= record.fields.Keys) then Malformed
      else
        var issued, expires := AsInt(record.fields["issued_at"]), AsInt(record.fields["expires_at"]);
        var did := Str(w, record.fields["did"]);
        if issued.None? || expires.None? then Malformed
        else if issued.value > expires.value then Malformed
        else if !w.hasKey(did) then UnsupportedDid
        else if !w.verifies(did, sig.s, record.fields) then InvalidSignature
        else if now > expires.value as real then Expired
        else if now < (issued.value - NOT_BEFORE_SKEW_S) as real then NotYetValid
        else Valid
  }

  datatype Decision =
    | Allowed(pin: Option<string>)
    | AttestationRequired
    | InvalidAttestation(verdict: Verdict)
    | SubjectMismatch
    | EndpointMismatch
    | DidMismatch

  /** The endpoint the body claims without a signature, when it claims one. */
  function ClaimedEndpoint(body: Doc): Option<string> {
    var e := Get(body, "endpoint");
    if e.JStr? && !Blank(e.s) then Some(e.s) else None
  }

  function EvaluateWrite(w: World, agentId: string, body: Doc, pinned: Option<string>, now: real): Decision {
    var attestation := Get(body, "attestation");
    if attestation == JNull then
      if pinned.Some? then AttestationRequired else Allowed(None)
    else
      var verdict := VerifyAttestation(w, attestation, now);
      if verdict != Valid then InvalidAttestation(verdict)
      else
        var record := attestation.fields["record"].fields;
        var claimed := ClaimedEndpoint(body);
        if Str(w, record["agent_id"]) != agentId then SubjectMismatch
        else if claimed.Some? && StripSlashes(claimed.value) != StripSlashes(Str(w, record["endpoint"]))
        then EndpointMismatch
        else
          var did := Str(w, record["did"]);
          if pinned.Some? then (if did != pinned.value then DidMismatch else Allowed(None))
          else Allowed(Some(did))
  }

  // ---------------------------------------------------------------- what a write can prove

  /** The record a body's attestation signs, when it has that shape. */
  function SignedRecord(body: Doc): Option<Doc> {
    var a := Get(body, "attestation");
    if a.JObj? && Get(a.fields, "record").JObj? then Some(Get(a.fields, "record").fields) else None
  }

  /** The body carries a signature by `did` over a record about exactly `agentId`, whose
      validity window contains `now` up to the skew. */
  ghost predicate AttestedBy(w: World, body: Doc, agentId: string, did: string, now: real) {
    exists sig: string, issued: int, expires: int ::
      SignedWith(w, body, agentId, did, sig, issued, expires) && InWindow(issued, expires, now)
  }

  ghost predicate SignedWith(
      w: World, body: Doc, agentId: string, did: string, sig: string, issued: int, expires: int)
  {
    && SignedRecord(body).Some?
    && var record := SignedRecord(body).value;
       && REQUIRED <= record.Keys
       && Str(w, record["agent_id"]) == agentId
       && Str(w, record["did"]) == did
       && AsInt(record["issued_at"]) == Some(issued)
       && AsInt(record["expires_at"]) == Some(expires)
       && sig != "" && Get(body["attestation"].fields, "sig") == JStr(sig)
       && w.hasKey(did) && w.verifies(did, sig, record)
  }

  predicate InWindow(issued: int, expires: int, now: real) {
    issued <= expires && (issued - NOT_BEFORE_SKEW_S) as real <= now <= expires as real
  }

  /** The attested endpoint is this one, up to trailing slashes. */
  predicate AttestsEndpoint(w: World, body: Doc, endpoint: string) {
    && SignedRecord(body).Some? && "endpoint" in SignedRecord(body).value
    && StripSlashes(Str(w, SignedRecord(body).value["endpoint"])) == StripSlashes(endpoint)
  }

  /** An endpoint is claimed exactly by a string with more in it than white space. */
  lemma {:induction false} ClaimedIs(body: Doc, endpoint: string)
    ensures ClaimedEndpoint(body) == Some(endpoint) <==> Get(body, "endpoint") == JStr(endpoint) && !AllSpace(endpoint)
  {
    BlankIsAllSpace(endpoint);
  }

  /** A write passes exactly when it is unsigned for an unpinned id, or attested for this id
      by the pinned DID (any DID when none is pinned), claiming no other endpoint. */
  lemma {:induction false} AllowedIff(w: World, agentId: string, body: Doc, pinned: Option<string>, now: real)
    ensures EvaluateWrite(w, agentId, body, pinned, now).Allowed?
       <==> || (Get(body, "attestation") == JNull && pinned.None?)
            || exists did: string ::
                 && AttestedBy(w, body, agentId, did, now)
                 && (pinned.Some? ==> pinned.value == did)
                 && (ClaimedEndpoint(body).Some? ==> AttestsEndpoint(w, body, ClaimedEndpoint(body).value))
  {
    var attestation := Get(body, "attestation");
    if attestation != JNull && VerifyAttestation(w, attestation, now) == Valid {
      var record := attestation.fields["record"].fields;
      var did := Str(w, record["did"]);
      ValidIsSigned(w, body, now);
      if Str(w, record["agent_id"]) == agentId {
        assert AttestedBy(w, body, agentId, did, now);
      }
    }
    if did: string :| AttestedBy(w, body, agentId, did, now) {
      SignedIsValid(w, body, agentId, did, now);
    }
  }

  lemma {:induction false} ValidIsSigned(w: World, body: Doc, now: real)
    requires VerifyAttestation(w, Get(body, "attestation"), now) == Valid
    ensures var record := Get(body, "attestation").fields["record"].fields;
            && SignedRecord(body) == Some(record)
            && AttestedBy(w, body, Str(w, record["agent_id"]), Str(w, record["did"]), now)
  {
    var a := Get(body, "attestation");
    var record := a.fields["record"].fields;
    var issued, expires := AsInt(record["issued_at"]).value, AsInt(record["expires_at"]).value;
    assert SignedWith(w, body, Str(w, record["agent_id"]), Str(w, record["did"]), a.fields["sig"].s, issued, expires);
    assert InWindow(issued, expires, now);
  }

  lemma {:induction false} SignedIsValid(w: World, body: Doc, agentId: string, did: string, now: real)
    requires AttestedBy(w, body, agentId, did, now)
    ensures Get(body, "attestation") != JNull
    ensures VerifyAttestation(w, Get(body, "attestation"), now) == Valid
    ensures Str(w, SignedRecord(body).value["agent_id"]) == agentId
    ensures Str(w, SignedRecord(body).value["did"]) == did
  {
  }

  /** The pin to set, when there is one, is the DID that signed. */
  lemma {:induction false} PinIsSigner(w: World, agentId: string, body: Doc, pinned: Option<string>, now: real)
    requires EvaluateWrite(w, agentId, body, pinned, now).Allowed?
    ensures var pin := EvaluateWrite(w, agentId, body, pinned, now).pin;
            pin.Some? ==> pinned.None? && AttestedBy(w, body, agentId, pin.value, now)
  {
    if Get(body, "attestation") != JNull {
      ValidIsSigned(w, body, now);
    }
  }

  /** An attestation with all its parts and an ordered window. */
  predicate Readable(attestation: Json) {
    && attestation.JObj?
    && var record, sig := Get(attestation.fields, "record"), Get(attestation.fields, "sig");
       && record.JObj? && sig.JStr? && sig.s != "" && REQUIRED <= record.fields.Keys
       && AsInt(record.fields["issued_at"]).Some? && AsInt(record.fields["expires_at"]).Some?
       && AsInt(record.fields["issued_at"]).value <= AsInt(record.fields["expires_at"]).value
  }

  /** Which verdict is given: the shape is judged first, then the key, the signature, the end
      of the window and its beginning. */
  lemma {:induction false} VerdictIs(w: World, attestation: Json, now: real)
    ensures VerifyAttestation(w, attestation, now) == Malformed <==> !Readable(attestation)
    ensures Readable(attestation) ==>
              var record, sig := attestation.fields["record"].fields, attestation.fields["sig"].s;
              var did, v := Str(w, record["did"]), VerifyAttestation(w, attestation, now);
              var late := now > AsInt(record["expires_at"]).value as real;
              var early := now < (AsInt(record["issued_at"]).value - 300) as real;
              && (v == UnsupportedDid <==> !w.hasKey(did))
              && (v == InvalidSignature <==> w.hasKey(did) && !w.verifies(did, sig, record))
              && (v == Expired <==> w.hasKey(did) && w.verifies(did, sig, record) && late)
              && (v == NotYetValid <==> w.hasKey(did) && w.verifies(did, sig, record) && !late && early)
  {
  }

  /** Some DID's attestation, valid now, for the id. */
  ghost predicate AttestedFor(w: World, body: Doc, agentId: string, now: real) {
    exists did: string :: AttestedBy(w, body, agentId, did, now)
  }

  ghost predicate EndpointAgrees(w: World, body: Doc) {
    ClaimedEndpoint(body).Some? ==> AttestsEndpoint(w, body, ClaimedEndpoint(body).value)
  }

  /** Which refusal is given: no attestation for a pinned id; an invalid one; one for another
      subject; another endpoint; another DID than the pinned. */
  lemma {:induction false} RefusalIs(w: World, agentId: string, body: Doc, pinned: Option<string>, now: real)
    ensures var d, a := EvaluateWrite(w, agentId, body, pinned, now), Get(body, "attestation");
            var ours := AttestedFor(w, body, agentId, now);
            && (d == AttestationRequired <==> a == JNull && pinned.Some?)
            && (d.InvalidAttestation? <==> a != JNull && forall id: string :: !AttestedFor(w, body, id, now))
            && (d.InvalidAttestation? ==> d.verdict == VerifyAttestation(w, a, now))
            && (d == SubjectMismatch <==> !ours && exists id: string :: AttestedFor(w, body, id, now))
            && (d == EndpointMismatch <==> ours && !EndpointAgrees(w, body))
            && (d == DidMismatch <==>
                  ours && EndpointAgrees(w, body) && pinned.Some? && !AttestedBy(w, body, agentId, pinned.value, now))
  {
    var a := Get(body, "attestation");
    if a != JNull && VerifyAttestation(w, a, now) == Valid {
      var record := a.fields["record"].fields;
      var id, did := Str(w, record["agent_id"]), Str(w, record["did"]);
      ValidIsSigned(w, body, now);
      assert AttestedBy(w, body, id, did, now) && AttestedFor(w, body, id, now);
      forall i: string, d: string | AttestedBy(w, body, i, d, now)
        ensures i == id && d == did
      {
        SignedIsValid(w, body, i, d, now);
      }
    } else {
      forall i: string, d: string
        ensures !AttestedBy(w, body, i, d, now)
      {
        if AttestedBy(w, body, i, d, now) {
          SignedIsValid(w, body, i, d, now);
        }
      }
    }
  }
}
