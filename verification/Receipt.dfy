/** The offline verifier of decision receipts, and what a pass establishes. */
module Receipt {
  import opened Common
  import opened Requests
  import opened Texts
  import opened Answers
  import opened Digests
  import opened Payloads
  import opened Signer

  const ALGORITHM := "p256_ecdsa_sha256"
  const DEFAULT_MAX_CLOCK_SKEW: int := 600_000_000_000

  datatype PinnedKey = PinnedKey(userId: string, deviceId: Option<string>, keyId: string, publicKey: string)

  datatype ReceiptInput = ReceiptInput(
    request: Request,
    decision: Decision,
    pinnedKeys: seq<PinnedKey>,
    now: Instant,
    maxClockSkew: Option<int>,
    strictTime: bool)

  datatype Candidate = Candidate(digest: string, encoder: DigestEncoder)

  datatype Warning =
    | ClockSkew(signedAt: Instant, now: Instant, skew: int, tolerance: int)
    | ResolvedSkew(resolvedAt: Instant, skew: int, signedAt: Instant)

  datatype VerifiedReceipt = VerifiedReceipt(
    requestId: string,
    userId: string,
    deviceId: string,
    keyId: string,
    optionId: string,
    optionKind: OptionKind,
    requestDigest: string,
    digestEncoder: DigestEncoder,
    signedAt: Instant,
    warnings: seq<Warning>)

  datatype ReceiptError =
    | MissingSignature
    | UnsupportedAlgorithm(algorithm: string)
    | UnsupportedPayloadVersion(version: string)
    | UnsupportedDigestVersion(version: string)
    | MissingSigningContext
    | RequestIdMismatch(request: string, decision: string)
    | RequestDigestMismatch(expected: seq<string>, found: string)
    | MissingActor
    | UnknownKey(userId: string, keyId: string)
    | DeviceMismatch(keyId: string, pinned: string, device: string)
    | MissingAnswerValue
    | UnexpectedAnswerValue
    | SigningPayloadMismatch
    | SignatureInvalid(reason: SigningError)
    | UnknownReceiptOption(id: string)
    | OptionKindMismatch(optionId: string, expectedKind: OptionKind, foundKind: OptionKind)
    | InvalidSignedAt(text: string)
    | TimeOutOfTolerance(warning: Warning)
    | DigestFailed(reason: SigningError)
    | PayloadFailed(reason: SigningError)

  // ----- Digest candidates -----

  predicate KnownVersion(version: string) {
    version == TAG_V1 || version == TAG_V2 || version == TAG_V3
  }

  /** Every digest the created request can have been signed under, in the
      verifier's order. */
  function Candidates(p: Primitives, r: Request): Result<seq<Candidate>, ReceiptError> {
    if r.signing.Some? && !KnownVersion(r.signing.value.version) then
      Err(UnsupportedDigestVersion(r.signing.value.version))
    else if r.answerField.Some? then
      if r.signing.None? then Err(MissingSigningContext) else
      var (commitment, field) := (r.signing.value.recipientsCommitment, r.answerField.value);
      var (v2, v3) := (ValueDigest(p, r, commitment, field, TAG_V2), ValueDigest(p, r, commitment, field, TAG_V3));
      if v2.Err? then Err(DigestFailed(v2.error))
      else if v3.Err? then Err(DigestFailed(v3.error))
      else Ok([Candidate(v2.value, Value), Candidate(v3.value, LegacyValue)])
    else if r.signing.Some? then
      var commitment := r.signing.value.recipientsCommitment;
      var (v1, v2) := (StructuredDigest(p, r, commitment, TAG_V1), StructuredDigest(p, r, commitment, TAG_V2));
      if v1.Err? then Err(DigestFailed(v1.error))
      else if v2.Err? then Err(DigestFailed(v2.error))
      else Ok([Candidate(v1.value, Structured), Candidate(v2.value, LegacyStructured),
               Candidate(LineDigest(p, r), LegacyLineSnapshot)])
    else
      Ok([Candidate(LineDigest(p, r), LegacyLineSnapshot)])
  }

  function FindDigest(cs: seq<Candidate>, found: string): Option<Candidate> {
    if cs == [] then None
    else if cs[0].digest == found then Some(cs[0])
    else FindDigest(cs[1..], found)
  }

  function DigestsOf(cs: seq<Candidate>): seq<string> {
    seq(|cs|, i requires 0 <= i < |cs| => cs[i].digest)
  }

  /** `match_request_digest`. */
  function MatchDigest(p: Primitives, r: Request, found: string): Result<Candidate, ReceiptError> {
    var cs :- Candidates(p, r);
    var m := FindDigest(cs, found);
    if m.None? then Err(RequestDigestMismatch(DigestsOf(cs), found)) else Ok(m.value)
  }

  /** `match_request_digest`, pushing candidates one by one. */
  method MatchRequestDigest(p: Primitives, r: Request, found: string) returns (result: Result<Candidate, ReceiptError>)
    ensures result == MatchDigest(p, r, found)
  {
    hide StructuredDigest, ValueDigest, LineDigest;
    var candidates: seq<Candidate> := [];
    if r.signing.Some? && !KnownVersion(r.signing.value.version) {
      return Err(UnsupportedDigestVersion(r.signing.value.version));
    }
    if r.answerField.Some? {
      if r.signing.None? { return Err(MissingSigningContext); }
      var commitment := r.signing.value.recipientsCommitment;
      var v2 := ValueDigest(p, r, commitment, r.answerField.value, TAG_V2);
      if v2.Err? { return Err(DigestFailed(v2.error)); }
      candidates := candidates + [Candidate(v2.value, Value)];
      var v3 := ValueDigest(p, r, commitment, r.answerField.value, TAG_V3);
      if v3.Err? { return Err(DigestFailed(v3.error)); }
      candidates := candidates + [Candidate(v3.value, LegacyValue)];
      assert candidates == [Candidate(v2.value, Value), Candidate(v3.value, LegacyValue)];
    } else {
      if r.signing.Some? {
        var commitment := r.signing.value.recipientsCommitment;
        var v1 := StructuredDigest(p, r, commitment, TAG_V1);
        if v1.Err? { return Err(DigestFailed(v1.error)); }
        candidates := candidates + [Candidate(v1.value, Structured)];
        var v2 := StructuredDigest(p, r, commitment, TAG_V2);
        if v2.Err? { return Err(DigestFailed(v2.error)); }
        candidates := candidates + [Candidate(v2.value, LegacyStructured)];
        assert candidates == [Candidate(v1.value, Structured), Candidate(v2.value, LegacyStructured)];
      }
      candidates := candidates + [Candidate(LineDigest(p, r), LegacyLineSnapshot)];
      assert r.signing.None? ==> candidates == [Candidate(LineDigest(p, r), LegacyLineSnapshot)];
      assert r.signing.Some? ==>
        candidates == [candidates[0], candidates[1], Candidate(LineDigest(p, r), LegacyLineSnapshot)];
    }
    assert Candidates(p, r) == Ok(candidates);
    hide Candidates;
    var i := 0;
    while i < |candidates|
      invariant 0 <= i <= |candidates|
      invariant FindDigest(candidates, found) == FindDigest(candidates[i..], found)
    {
      if candidates[i].digest == found { return Ok(candidates[i]); }
      i := i + 1;
    }
    result := Err(RequestDigestMismatch(DigestsOf(candidates), found));
  }

  function CandidateEncoders(r: Request): seq<DigestEncoder> {
    if r.answerField.Some? then [Value, LegacyValue]
    else if r.signing.Some? then [Structured, LegacyStructured, LegacyLineSnapshot]
    else [LegacyLineSnapshot]
  }

  /** The texts the verifier hashes for a request. */
  function CandidateTexts(p: Primitives, r: Request): set<string> {
    set i | 0 <= i < |CandidateEncoders(r)| :: TextOf(CandidateEncoders(r)[i], p, r)
  }

  lemma CandidatesHash(p: Primitives, r: Request)
    requires Candidates(p, r).Ok?
    ensures var cs, es := Candidates(p, r).value, CandidateEncoders(r);
            |cs| == |es| && forall i :: 0 <= i < |cs| ==> cs[i] == Candidate(p.sha(TextOf(es[i], p, r)), es[i])
  {
    hide StructuredText, ValueText, LineText, IsCommitment, ValidField;
  }

  lemma EncodersDistinct(r: Request)
    ensures var es := CandidateEncoders(r); forall i, j :: 0 <= i < j < |es| ==> es[i] != es[j]
  {
  }

  ghost predicate DistinctDigests(cs: seq<Candidate>) {
    forall i, j :: 0 <= i < j < |cs| ==> cs[i].digest != cs[j].digest
  }

  /** Without collisions no two candidates share a digest. */
  lemma CandidatesDistinct(p: Primitives, r: Request)
    requires Candidates(p, r).Ok? && NoCollision(p, CandidateTexts(p, r))
    ensures DistinctDigests(Candidates(p, r).value)
  {
    var cs, es := Candidates(p, r).value, CandidateEncoders(r);
    CandidatesHash(p, r);
    EncodersDistinct(r);
    hide Candidates, PreHash;
    forall i, j | 0 <= i < j < |cs| ensures cs[i].digest != cs[j].digest {
      var s, t := TextOf(es[i], p, r), TextOf(es[j], p, r);
      assert s in CandidateTexts(p, r) && t in CandidateTexts(p, r);
      if s == t {
        EncodersDisjoint(p, es[i], r, CommitmentOf(r), FieldOf(r), es[j], r, CommitmentOf(r), FieldOf(r));
      }
    }
  }

  lemma {:induction false} FindDigestFinds(cs: seq<Candidate>, found: string)
    ensures FindDigest(cs, found).Some? <==> exists c :: c in cs && c.digest == found
    ensures FindDigest(cs, found).Some? ==>
              FindDigest(cs, found).value in cs && FindDigest(cs, found).value.digest == found
  {
    if cs != [] {
      FindDigestFinds(cs[1..], found);
      assert forall c :: c in cs <==> c == cs[0] || c in cs[1..];
    }
  }

  /** With distinct digests the candidate found does not depend on their order. */
  lemma FindDigestAnyOrder(cs: seq<Candidate>, ds: seq<Candidate>, found: string)
    requires DistinctDigests(cs) && forall c :: c in cs <==> c in ds
    ensures FindDigest(cs, found) == FindDigest(ds, found)
  {
    FindDigestFinds(cs, found);
    FindDigestFinds(ds, found);
    hide FindDigest;
    var a, b := FindDigest(cs, found), FindDigest(ds, found);
    assert a.Some? ==> a.value in ds;
    assert b.Some? ==> b.value in cs;
    if a.Some? {
      var i :| 0 <= i < |cs| && cs[i] == a.value;
      var j :| 0 <= j < |cs| && cs[j] == b.value;
      assert i == j;
    }
  }

  /** The reported encoder does not depend on the order of the candidates. */
  lemma EncoderOrderFree(p: Primitives, r: Request, ds: seq<Candidate>, found: string)
    requires Candidates(p, r).Ok? && NoCollision(p, CandidateTexts(p, r))
    requires forall c :: c in Candidates(p, r).value <==> c in ds
    ensures FindDigest(ds, found) == FindDigest(Candidates(p, r).value, found)
  {
    CandidatesDistinct(p, r);
    FindDigestAnyOrder(Candidates(p, r).value, ds, found);
  }

  /** What a match is: the hash of the created request under one of its encoders. */
  lemma MatchedFrom(p: Primitives, r: Request, found: string)
    requires MatchDigest(p, r, found).Ok?
    ensures var m := MatchDigest(p, r, found).value;
            m.encoder in CandidateEncoders(r) && m.digest == found == p.sha(TextOf(m.encoder, p, r))
            && TextOf(m.encoder, p, r) in CandidateTexts(p, r)
  {
    CandidatesHash(p, r);
    FindDigestFinds(Candidates(p, r).value, found);
    hide Candidates, PreHash, FindDigest, CandidateEncoders;
  }

  // ----- Options -----

  /** `resolve_option`. */
  function ResolveOption(r: Request, id: string): Result<RequestOption, ReceiptError> {
    var found := FindOption(r.options, id);
    if found.Some? then Ok(found.value)
    else if r.options == [] && r.answerField.None? && id == IMPLICIT_DISMISS then
      Ok(RequestOption(IMPLICIT_DISMISS, "Dismiss", Dismiss, "default", false, None, false, false))
    else Err(UnknownReceiptOption(id))
  }

  /** `resolve_option` finds the first option with the id; a card without options
      resolves to a dismissal if it is ordinary. */
  lemma ResolveOptionIff(r: Request, id: string)
    ensures ResolveOption(r, id).Ok? <==>
              || (exists i :: 0 <= i < |r.options| && r.options[i].id == id)
              || (r.options == [] && r.answerField.None? && id == "dismiss")
    ensures forall i :: FirstOptionAt(r.options, id, i) ==> ResolveOption(r, id) == Ok(r.options[i])
    ensures r.options == [] && ResolveOption(r, id).Ok? ==>
              var o := ResolveOption(r, id).value;
              o.id == "dismiss" && o.kind == Dismiss && o.labelText == "Dismiss" && !o.requiresText
    ensures ResolveOption(r, id).Err? ==> ResolveOption(r, id).error == UnknownReceiptOption(id)
  {
    FindOptionIff(r.options, id);
  }

  /** Signer and verifier resolve the same option on every request. */
  lemma OptionsAgree(r: Request, id: string)
    ensures OptionFor(r, id).Ok? <==> ResolveOption(r, id).Ok?
    ensures ResolveOption(r, id).Ok? ==>
              ResolveOption(r, id).value.id == id && OptionFor(r, id) == Ok(ResolveOption(r, id).value.kind)
  {
    FindOptionIff(r.options, id);
  }

  // ----- Verification -----

  function Abs(n: int): nat {
    if n < 0 then -n else n
  }

  /** The first pinned key of the user with the receipt's key id. */
  function FindKey(keys: seq<PinnedKey>, userId: string, keyId: string): Option<PinnedKey> {
    if keys == [] then None
    else if keys[0].userId == userId && keys[0].keyId == keyId then Some(keys[0])
    else FindKey(keys[1..], userId, keyId)
  }

  predicate KeyMatches(key: PinnedKey, userId: string, keyId: string) {
    key.userId == userId && key.keyId == keyId
  }

  /** The `k`-th pinned key is the first of the user with the key id. */
  ghost predicate FirstKeyAt(keys: seq<PinnedKey>, userId: string, keyId: string, k: int) {
    && 0 <= k < |keys| && KeyMatches(keys[k], userId, keyId)
    && forall j :: 0 <= j < k ==> !KeyMatches(keys[j], userId, keyId)
  }

  lemma {:induction false} FindKeyIff(keys: seq<PinnedKey>, userId: string, keyId: string)
    ensures forall k :: FirstKeyAt(keys, userId, keyId, k) ==> FindKey(keys, userId, keyId) == Some(keys[k])
    ensures FindKey(keys, userId, keyId).Some? <==> exists k :: FirstKeyAt(keys, userId, keyId, k)
    ensures FindKey(keys, userId, keyId).None? <==> forall key :: key in keys ==> !KeyMatches(key, userId, keyId)
  {
    if keys != [] {
      var rest := keys[1..];
      FindKeyIff(rest, userId, keyId);
      assert keys == [keys[0]] + rest;
      if KeyMatches(keys[0], userId, keyId) {
        assert FirstKeyAt(keys, userId, keyId, 0);
      } else {
        forall k | FirstKeyAt(keys, userId, keyId, k) ensures FirstKeyAt(rest, userId, keyId, k - 1) {
          assert forall j :: 0 <= j < k - 1 ==> rest[j] == keys[j + 1];
        }
        forall k | FirstKeyAt(rest, userId, keyId, k) ensures FirstKeyAt(keys, userId, keyId, k + 1) {
          assert forall j :: 0 < j < k + 1 ==> keys[j] == rest[j - 1];
        }
      }
    }
  }

  function PinnedFor(keys: seq<PinnedKey>, userId: string, deviceId: string, keyId: string)
    : Result<PinnedKey, ReceiptError>
  {
    var key := FindKey(keys, userId, keyId);
    if key.None? then Err(UnknownKey(userId, keyId))
    else if key.value.deviceId.Some? && key.value.deviceId.value != deviceId then
      Err(DeviceMismatch(keyId, key.value.deviceId.value, deviceId))
    else Ok(key.value)
  }

  /** The first pinned key of the user with the key id fits the device and verifies. */
  ghost predicate KeyAccepts(p: Primitives, keys: seq<PinnedKey>, userId: string, deviceId: string, keyId: string,
                             payload: string, signature: string) {
    exists k :: FirstKeyAt(keys, userId, keyId, k)
      && (keys[k].deviceId.None? || keys[k].deviceId.value == deviceId)
      && Verifies(p, keys[k].publicKey, payload, signature)
  }

  lemma PinnedForIff(p: Primitives, keys: seq<PinnedKey>, userId: string, deviceId: string, keyId: string,
                     payload: string, signature: string)
    ensures var key := PinnedFor(keys, userId, deviceId, keyId);
            && (KeyAccepts(p, keys, userId, deviceId, keyId, payload, signature) <==>
                  key.Ok? && Verifies(p, key.value.publicKey, payload, signature))
            && (key == Err(UnknownKey(userId, keyId)) <==> forall x :: x in keys ==> !KeyMatches(x, userId, keyId))
            && (forall k :: FirstKeyAt(keys, userId, keyId, k) ==>
                  if keys[k].deviceId.None? || keys[k].deviceId.value == deviceId then key == Ok(keys[k])
                  else key == Err(DeviceMismatch(keyId, keys[k].deviceId.value, deviceId)))
  {
    FindKeyIff(keys, userId, keyId);
    hide FindKey, FirstKeyAt, KeyMatches, Verifies;
  }

  predicate Verifies(p: Primitives, publicKey: string, payload: string, signature: string) {
    p.verify(publicKey, payload, signature).None?
  }

  /** The payload a decision claims to have been signed with. */
  function ClaimedInput(d: Decision, s: SignatureRecord, userId: string, deviceId: string,
                        signedAt: string): SigningInput {
    SigningInput(d.requestId, s.requestDigest, d.optionId, d.optionKind, userId, deviceId, s.keyId, s.nonce, signedAt,
                 d.text)
  }

  function Rebuild(p: Primitives, r: Request, d: Decision, version: Option<string>, i: SigningInput)
    : Result<string, ReceiptError>
  {
    if version.None? then
      if d.answerValue.Some? || r.answerField.Some? then Err(UnexpectedAnswerValue) else Ok(PayloadV1(p, i))
    else if version.value != PAYLOAD_V2 then Err(UnsupportedPayloadVersion(version.value))
    else if d.answerValue.None? then Err(MissingAnswerValue)
    else
      var payload := PayloadV2(p, i, d.answerValue.value);
      if payload.Err? then Err(PayloadFailed(payload.error)) else Ok(payload.value)
  }

  function Tolerance(in_: ReceiptInput): int {
    if in_.maxClockSkew.Some? then in_.maxClockSkew.value else DEFAULT_MAX_CLOCK_SKEW
  }

  function Warnings(in_: ReceiptInput, signedAt: Instant): seq<Warning> {
    var tolerance := Tolerance(in_);
    (if Abs(in_.now - signedAt) > tolerance
     then [ClockSkew(signedAt, in_.now, Abs(in_.now - signedAt), tolerance)] else [])
    + (if Abs(in_.decision.resolvedAt - signedAt) > tolerance
       then [ResolvedSkew(in_.decision.resolvedAt, Abs(in_.decision.resolvedAt - signedAt), signedAt)] else [])
  }

  /** The checks before the actor is looked at: presence, algorithm, request id,
      digest, option. */
  function CheckContent(p: Primitives, r: Request, d: Decision): Result<Candidate, ReceiptError> {
    if d.signature.None? then Err(MissingSignature) else
    var s := d.signature.value;
    if s.algorithm != ALGORITHM then Err(UnsupportedAlgorithm(s.algorithm))
    else if d.requestId != r.id || (r.requestId != "" && r.requestId != r.id) then
      Err(RequestIdMismatch(r.id, d.requestId))
    else
      var m :- MatchDigest(p, r, s.requestDigest);
      var option :- ResolveOption(r, d.optionId);
      if option.kind != d.optionKind then Err(OptionKindMismatch(d.optionId, option.kind, d.optionKind)) else Ok(m)
  }

  /** The checks of actor, key, payload and signature; the result is `signed_at`. */
  function CheckSignature(p: Primitives, r: Request, d: Decision, keys: seq<PinnedKey>): Result<Instant, ReceiptError>
    requires d.signature.Some?
  {
    var s := d.signature.value;
    if d.actorUserId.None? || d.actorDeviceId.None? then Err(MissingActor) else
    var key :- PinnedFor(keys, d.actorUserId.value, d.actorDeviceId.value, s.keyId);
    var at := p.parse(s.signedAt);
    if at.None? then Err(InvalidSignedAt(s.signedAt)) else
    var i := ClaimedInput(d, s, d.actorUserId.value, d.actorDeviceId.value, p.format(at.value));
    var rebuilt :- Rebuild(p, r, d, s.payloadVersion, i);
    if rebuilt != s.signingPayload then Err(SigningPayloadMismatch)
    else
      var wrong := p.verify(key.publicKey, rebuilt, s.signature);
      if wrong.Some? then Err(SignatureInvalid(wrong.value)) else Ok(at.value)
  }

  /** `verify_decision_receipt`. */
  function Verify(p: Primitives, in_: ReceiptInput): Result<VerifiedReceipt, ReceiptError> {
    var (r, d) := (in_.request, in_.decision);
    var m :- CheckContent(p, r, d);
    var at :- CheckSignature(p, r, d, in_.pinnedKeys);
    var warnings := Warnings(in_, at);
    if in_.strictTime && Abs(in_.now - at) > Tolerance(in_) then Err(TimeOutOfTolerance(warnings[0]))
    else Ok(VerifiedReceipt(d.requestId, d.actorUserId.value, d.actorDeviceId.value, d.signature.value.keyId,
                            d.optionId,
                            d.optionKind, m.digest, m.encoder, at, warnings))
  }

  /** `verify_decision_receipt` with its early returns and its list of warnings. */
  method VerifyDecisionReceipt(p: Primitives, in_: ReceiptInput) returns (result: Result<VerifiedReceipt, ReceiptError>)
    ensures result == Verify(p, in_)
  {
    hide Candidates, FindDigest, ResolveOption, Rebuild, FindKey;
    var (request, decision) := (in_.request, in_.decision);
    if decision.signature.None? { return Err(MissingSignature); }
    var signature := decision.signature.value;
    if signature.algorithm != ALGORITHM { return Err(UnsupportedAlgorithm(signature.algorithm)); }
    if decision.requestId != request.id || (request.requestId != "" && request.requestId != request.id) {
      return Err(RequestIdMismatch(request.id, decision.requestId));
    }
    var matched := MatchRequestDigest(p, request, signature.requestDigest);
    if matched.Err? { return Err(matched.error); }
    var option := ResolveOption(request, decision.optionId);
    if option.Err? { return Err(option.error); }
    if option.value.kind != decision.optionKind {
      return Err(OptionKindMismatch(decision.optionId, option.value.kind, decision.optionKind));
    }
    assert CheckContent(p, request, decision) == Ok(matched.value);
    hide CheckContent, MatchDigest;
    var checked := VerifySignature(p, in_);
    if checked.Err? { return Err(checked.error); }
    var signedAt := checked.value;
    var warnings: seq<Warning> := [];
    var tolerance := Tolerance(in_);
    var skew := Abs(in_.now - signedAt);
    if skew > tolerance {
      var warning := ClockSkew(signedAt, in_.now, skew, tolerance);
      if in_.strictTime { return Err(TimeOutOfTolerance(warning)); }
      warnings := warnings + [warning];
    }
    if Abs(decision.resolvedAt - signedAt) > tolerance {
      warnings := warnings + [ResolvedSkew(decision.resolvedAt, Abs(decision.resolvedAt - signedAt), signedAt)];
    }
    assert warnings == Warnings(in_, signedAt);
    result := Ok(VerifiedReceipt(decision.requestId, decision.actorUserId.value, decision.actorDeviceId.value,
      signature.keyId, decision.optionId, decision.optionKind, matched.value.digest, matched.value.encoder, signedAt,
      warnings));
  }

  method VerifySignature(p: Primitives, in_: ReceiptInput) returns (result: Result<Instant, ReceiptError>)
    requires in_.decision.signature.Some?
    ensures result == CheckSignature(p, in_.request, in_.decision, in_.pinnedKeys)
    ensures result.Ok? ==> in_.decision.actorUserId.Some? && in_.decision.actorDeviceId.Some?
  {
    hide Rebuild, FindKey;
    var (decision, signature) := (in_.decision, in_.decision.signature.value);
    if decision.actorUserId.None? || decision.actorDeviceId.None? { return Err(MissingActor); }
    var (userId, deviceId) := (decision.actorUserId.value, decision.actorDeviceId.value);
    var pinned := PinnedFor(in_.pinnedKeys, userId, deviceId, signature.keyId);
    if pinned.Err? { return Err(pinned.error); }
    var parsed := p.parse(signature.signedAt);
    if parsed.None? { return Err(InvalidSignedAt(signature.signedAt)); }
    var claimed := ClaimedInput(decision, signature, userId, deviceId, p.format(parsed.value));
    var rebuilt := Rebuild(p, in_.request, decision, signature.payloadVersion, claimed);
    if rebuilt.Err? { return Err(rebuilt.error); }
    if rebuilt.value != signature.signingPayload { return Err(SigningPayloadMismatch); }
    var wrong := p.verify(pinned.value.publicKey, rebuilt.value, signature.signature);
    if wrong.Some? { return Err(SignatureInvalid(wrong.value)); }
    result := Ok(parsed.value);
  }
}
