/** When the offline verifier accepts a receipt, and what it says when it does not, in
    terms of the receipt, the created request and the pinned keys alone. */
module Acceptance {
  import opened Common
  import opened Requests
  import opened Texts
  import opened Json
  import opened CanonicalJson
  import opened Answers
  import opened Digests
  import opened Payloads
  import opened Signer
  import opened Receipt
  import opened ReceiptTheorems

  /** The digest is the hash of the created request under one of the encoders of its
      kind: an ordinary card without a context has the line snapshot only, a value card
      never has it. */
  ghost predicate DigestKnown(p: Primitives, r: Request, digest: string) {
    if r.signing.None? then r.answerField.None? && digest == p.sha(LineText(p, r))
    else
      var (tag, c) := (r.signing.value.version, r.signing.value.recipientsCommitment);
      && (tag == "nod-request-v1" || tag == "nod-request-v2" || tag == "nod-request-v3")
      && IsCommitment(c)
      && if r.answerField.Some? then
           && ValidField(r.answerField.value)
           && (digest == p.sha(ValueText(p, r, c, r.answerField.value, "nod-request-v2"))
               || digest == p.sha(ValueText(p, r, c, r.answerField.value, "nod-request-v3")))
         else
           || digest == p.sha(StructuredText(p, r, c, "nod-request-v1"))
           || digest == p.sha(StructuredText(p, r, c, "nod-request-v2"))
           || digest == p.sha(LineText(p, r))
  }

  lemma FindAmong(cs: seq<Candidate>, found: string)
    requires 1 <= |cs| <= 3
    ensures FindDigest(cs, found)
            == if cs[0].digest == found then Some(cs[0])
               else if |cs| > 1 && cs[1].digest == found then Some(cs[1])
               else if |cs| > 2 && cs[2].digest == found then Some(cs[2])
               else None
  {
    assert FindDigest([], found) == None;
    assert |cs| > 1 ==> cs[1..][0] == cs[1];
    assert |cs| > 2 ==> cs[1..][1..][0] == cs[2];
  }

  /** When the created request has candidates at all, and which. */
  lemma CandidatesIff(p: Primitives, r: Request)
    ensures Candidates(p, r).Ok? <==>
              if r.signing.None? then r.answerField.None?
              else
                && KnownVersion(r.signing.value.version) && IsCommitment(r.signing.value.recipientsCommitment)
                && (r.answerField.Some? ==> ValidField(r.answerField.value))
    ensures Candidates(p, r).Ok? ==>
              var (cs, line) := (Candidates(p, r).value, Candidate(p.sha(LineText(p, r)), LegacyLineSnapshot));
              if r.signing.None? then cs == [line]
              else
                var c := r.signing.value.recipientsCommitment;
                if r.answerField.Some? then
                  cs == [Candidate(p.sha(ValueText(p, r, c, r.answerField.value, "nod-request-v2")), Value),
                         Candidate(p.sha(ValueText(p, r, c, r.answerField.value, "nod-request-v3")), LegacyValue)]
                else
                  cs == [Candidate(p.sha(StructuredText(p, r, c, "nod-request-v1")), Structured),
                         Candidate(p.sha(StructuredText(p, r, c, "nod-request-v2")), LegacyStructured), line]
  {
    if r.answerField.Some? { ValueContentPrints(p, r, CommitmentOf(r), r.answerField.value); }
    hide StructuredText, ValueText, LineText, ValueContent, Canon, FirstError, IsCommitment, ValidField;
  }

  /** A digest is matched exactly if it is known, and the encoder reported is the first
      that gives it, the current one before the historical ones. */
  lemma MatchIff(p: Primitives, r: Request, digest: string)
    ensures MatchDigest(p, r, digest).Ok? <==> DigestKnown(p, r, digest)
    ensures MatchDigest(p, r, digest).Ok? ==>
              MatchDigest(p, r, digest).value.digest == digest
              && MatchDigest(p, r, digest).value.encoder
                 == if r.signing.None? then LegacyLineSnapshot
                    else
                      var c := r.signing.value.recipientsCommitment;
                      if r.answerField.Some? then
                        if digest == p.sha(ValueText(p, r, c, r.answerField.value, "nod-request-v2")) then Value
                        else LegacyValue
                      else if digest == p.sha(StructuredText(p, r, c, "nod-request-v1")) then Structured
                      else if digest == p.sha(StructuredText(p, r, c, "nod-request-v2")) then LegacyStructured
                      else LegacyLineSnapshot
  {
    CandidatesIff(p, r);
    if Candidates(p, r).Ok? { FindAmong(Candidates(p, r).value, digest); }
    hide Candidates, DigestsOf, StructuredText, ValueText, LineText, IsCommitment, ValidField, FindDigest;
  }

  /** The option named is one of the created card's, the first with its id, and of the
      kind named; or the implicit dismissal of an ordinary card without options. */
  ghost predicate OptionOffered(r: Request, id: string, kind: OptionKind) {
    || (exists i :: FirstOptionAt(r.options, id, i) && r.options[i].kind == kind)
    || (r.options == [] && r.answerField.None? && id == "dismiss" && kind == Dismiss)
  }

  lemma OptionOfferedIff(r: Request, id: string, kind: OptionKind)
    ensures OptionOffered(r, id, kind) <==> ResolveOption(r, id).Ok? && ResolveOption(r, id).value.kind == kind
  {
    FindOptionIff(r.options, id);
    hide FindOption, FirstOptionAt;
  }

  lemma ContentIff(p: Primitives, r: Request, d: Decision)
    ensures CheckContent(p, r, d).Ok? <==>
              && d.signature.Some? && d.signature.value.algorithm == "p256_ecdsa_sha256"
              && d.requestId == r.id && (r.requestId == "" || r.requestId == r.id)
              && DigestKnown(p, r, d.signature.value.requestDigest)
              && OptionOffered(r, d.optionId, d.optionKind)
    ensures CheckContent(p, r, d).Ok? ==>
              MatchDigest(p, r, d.signature.value.requestDigest) == Ok(CheckContent(p, r, d).value)
  {
    OptionOfferedIff(r, d.optionId, d.optionKind);
    if d.signature.Some? { MatchIff(p, r, d.signature.value.requestDigest); }
    hide MatchDigest, DigestKnown, ResolveOption, OptionOffered;
  }

  /** The stored payload is that of the fields claimed: in the first format without an
      answer and for an ordinary card, in the second with one. */
  ghost predicate PayloadFits(p: Primitives, r: Request, d: Decision, s: SignatureRecord, i: SigningInput) {
    || (s.payloadVersion.None? && d.answerValue.None? && r.answerField.None? && s.signingPayload == PayloadV1(p, i))
    || (s.payloadVersion == Some("nod-decision-v2") && d.answerValue.Some?
        && PayloadV2(p, i, d.answerValue.value) == Ok(s.signingPayload))
  }

  /** The fields a decision claims, with the time of signing as it is printed. */
  ghost function Claims(p: Primitives, d: Decision, s: SignatureRecord, at: Instant): SigningInput
    requires d.actorUserId.Some? && d.actorDeviceId.Some?
  {
    SigningInput(d.requestId, s.requestDigest, d.optionId, d.optionKind, d.actorUserId.value, d.actorDeviceId.value,
                 s.keyId, s.nonce, p.format(at), d.text)
  }

  lemma SignatureAcceptedIff(p: Primitives, r: Request, d: Decision, keys: seq<PinnedKey>)
    requires d.signature.Some?
    ensures var (s, out) := (d.signature.value, CheckSignature(p, r, d, keys));
            && (out.Ok? <==>
                  && d.actorUserId.Some? && d.actorDeviceId.Some?
                  && KeyAccepts(p, keys, d.actorUserId.value, d.actorDeviceId.value, s.keyId, s.signingPayload,
                                s.signature)
                  && p.parse(s.signedAt).Some?
                  && PayloadFits(p, r, d, s, Claims(p, d, s, p.parse(s.signedAt).value)))
            && (out.Ok? ==> p.parse(s.signedAt) == Some(out.value))
  {
    var s := d.signature.value;
    if d.actorUserId.Some? && d.actorDeviceId.Some? {
      PinnedForIff(p, keys, d.actorUserId.value, d.actorDeviceId.value, s.keyId, s.signingPayload, s.signature);
    }
    hide PinnedFor, KeyAccepts, PayloadV1, PayloadV2;
  }

  /** Exactly when a receipt passes: algorithm, ids, digest, option, actor, key,
      payload, signature and, if asked for, time. */
  lemma VerifyIff(p: Primitives, in_: ReceiptInput)
    ensures Verify(p, in_).Ok? <==>
              var (r, d) := (in_.request, in_.decision);
              && d.signature.Some? && d.signature.value.algorithm == "p256_ecdsa_sha256"
              && d.requestId == r.id && (r.requestId == "" || r.requestId == r.id)
              && DigestKnown(p, r, d.signature.value.requestDigest)
              && OptionOffered(r, d.optionId, d.optionKind)
              && d.actorUserId.Some? && d.actorDeviceId.Some?
              && KeyAccepts(p, in_.pinnedKeys, d.actorUserId.value, d.actorDeviceId.value, d.signature.value.keyId,
                            d.signature.value.signingPayload, d.signature.value.signature)
              && p.parse(d.signature.value.signedAt).Some?
              && PayloadFits(p, r, d, d.signature.value,
                             Claims(p, d, d.signature.value, p.parse(d.signature.value.signedAt).value))
              && (in_.strictTime ==> Near(in_, in_.now, p.parse(d.signature.value.signedAt).value))
  {
    PassedIff(p, in_);
    ContentIff(p, in_.request, in_.decision);
    if in_.decision.signature.Some? {
      SignatureAcceptedIff(p, in_.request, in_.decision, in_.pinnedKeys);
    }
    hide Verify, CheckContent, CheckSignature, DigestKnown, OptionOffered, KeyAccepts, PayloadFits, Claims, Near;
  }

  /** A key the verifier does not know is one that no pinned entry of the actor has,
      wherever it stands in the list. */
  lemma UnknownKeyIff(p: Primitives, in_: ReceiptInput)
    requires CheckContent(p, in_.request, in_.decision).Ok?
    ensures in_.decision.signature.Some?
    ensures var (d, s) := (in_.decision, in_.decision.signature.value);
            && (Verify(p, in_) == Err(MissingActor) <==> d.actorUserId.None? || d.actorDeviceId.None?)
            && (d.actorUserId.Some? && d.actorDeviceId.Some? ==>
                  (Verify(p, in_) == Err(UnknownKey(d.actorUserId.value, s.keyId)) <==>
                   forall key :: key in in_.pinnedKeys ==>
                     !(key.userId == d.actorUserId.value && key.keyId == s.keyId)))
  {
    ContentIff(p, in_.request, in_.decision);
    var (d, s) := (in_.decision, in_.decision.signature.value);
    if d.actorUserId.Some? && d.actorDeviceId.Some? {
      PinnedForIff(p, in_.pinnedKeys, d.actorUserId.value, d.actorDeviceId.value, s.keyId, s.signingPayload,
                   s.signature);
    }
    hide PinnedFor, KeyAccepts, CheckContent, Rebuild, DigestKnown, OptionOffered, KeyMatches, Warnings, Tolerance, Abs;
    KeyRefusedAs(p, in_.request, d, in_.pinnedKeys);
    hide CheckSignature;
  }

  lemma KeyRefusedAs(p: Primitives, r: Request, d: Decision, keys: seq<PinnedKey>)
    requires d.signature.Some?
    ensures var (s, out) := (d.signature.value, CheckSignature(p, r, d, keys));
            && (out == Err(MissingActor) <==> d.actorUserId.None? || d.actorDeviceId.None?)
            && (d.actorUserId.Some? && d.actorDeviceId.Some? ==>
                  var key := PinnedFor(keys, d.actorUserId.value, d.actorDeviceId.value, s.keyId);
                  out == Err(UnknownKey(d.actorUserId.value, s.keyId)) <==>
                  key == Err(UnknownKey(d.actorUserId.value, s.keyId)))
  {
    hide PayloadV1, PayloadV2, FindKey;
  }

  /** The warnings of a pass: the clock first, if now is too far from the time of
      signing, then the recorded time, if that is. Under strict time the first of them
      is a refusal instead. */
  lemma WarningsTell(p: Primitives, in_: ReceiptInput)
    requires Verify(p, in_).Ok?
    ensures var (v, resolved) := (Verify(p, in_).value, in_.decision.resolvedAt);
            var (clock, record) := (!Near(in_, in_.now, v.signedAt), !Near(in_, resolved, v.signedAt));
            && |v.warnings| == (if clock then 1 else 0) + (if record then 1 else 0)
            && (clock ==> !in_.strictTime && v.warnings[0].ClockSkew? && v.warnings[0].now == in_.now
                          && v.warnings[0].signedAt == v.signedAt)
            && (record ==> var w := v.warnings[|v.warnings| - 1];
                           w.ResolvedSkew? && w.resolvedAt == resolved && w.signedAt == v.signedAt)
  {
    NearIff(in_, in_.now, Verify(p, in_).value.signedAt);
    NearIff(in_, in_.decision.resolvedAt, Verify(p, in_).value.signedAt);
    hide CheckContent, CheckSignature, Near, Abs, Tolerance;
  }

  /** A receipt that is in order except for its time is refused exactly under strict
      time and when now is too far from the time of signing, and that is the reason. */
  lemma StrictTimeRefuses(p: Primitives, in_: ReceiptInput)
    requires CheckContent(p, in_.request, in_.decision).Ok? && in_.decision.signature.Some?
    requires CheckSignature(p, in_.request, in_.decision, in_.pinnedKeys).Ok?
    ensures var at := CheckSignature(p, in_.request, in_.decision, in_.pinnedKeys).value;
            && (Verify(p, in_).Err? <==> in_.strictTime && !Near(in_, in_.now, at))
            && (Verify(p, in_).Err? ==>
                  var e := Verify(p, in_).error;
                  e.TimeOutOfTolerance? && e.warning.ClockSkew? && e.warning.now == in_.now && e.warning.signedAt == at)
  {
    NearIff(in_, in_.now, CheckSignature(p, in_.request, in_.decision, in_.pinnedKeys).value);
    hide CheckContent, MatchDigest, PinnedFor, Rebuild, Abs, Near, Tolerance;
  }

  // ----- Why a receipt is refused -----

  ghost predicate NamesRequest(r: Request, d: Decision) {
    d.requestId == r.id && (r.requestId == "" || r.requestId == r.id)
  }

  /** The reason of a refusal is that of the first check that fails, in the order of
      algorithm, ids, digest and option. */
  lemma ContentRefusal(p: Primitives, r: Request, d: Decision)
    requires CheckContent(p, r, d).Err?
    ensures var e := CheckContent(p, r, d).error;
            if d.signature.None? then e == MissingSignature
            else
              var s := d.signature.value;
              if s.algorithm != "p256_ecdsa_sha256" then e == UnsupportedAlgorithm(s.algorithm)
              else if !NamesRequest(r, d) then e == RequestIdMismatch(r.id, d.requestId)
              else if !DigestKnown(p, r, s.requestDigest) then DigestRefused(p, r, s.requestDigest, e)
              else if ResolveOption(r, d.optionId).Err? then e == UnknownReceiptOption(d.optionId)
              else
                var option := ResolveOption(r, d.optionId).value;
                e == OptionKindMismatch(d.optionId, option.kind, d.optionKind) && option.kind != d.optionKind
  {
    if d.signature.Some? {
      MatchIff(p, r, d.signature.value.requestDigest);
      MatchRefusal(p, r, d.signature.value.requestDigest);
    }
    ResolveOptionIff(r, d.optionId);
    hide MatchDigest, DigestKnown, DigestRefused, ResolveOption;
  }

  /** Why a digest is refused: an unknown tag, a value card without a context, a context
      or a field that cannot be hashed, or a digest other than all of those listed. */
  ghost predicate DigestRefused(p: Primitives, r: Request, digest: string, e: ReceiptError) {
    if r.signing.Some? && !KnownVersion(r.signing.value.version) then
      e == UnsupportedDigestVersion(r.signing.value.version)
    else if r.answerField.Some? && r.signing.None? then e == MissingSigningContext
    else if r.signing.Some? && !IsCommitment(r.signing.value.recipientsCommitment) then
      e == DigestFailed(InvalidRecipientCommitment)
    else if r.answerField.Some? && !ValidField(r.answerField.value) then
      e == DigestFailed(InvalidValue("invalid answer definition"))
    else
      && e.RequestDigestMismatch? && e.found == digest && digest !in e.expected
      && |e.expected| == |CandidateEncoders(r)|
      && forall i :: 0 <= i < |e.expected| ==> e.expected[i] == p.sha(TextOf(CandidateEncoders(r)[i], p, r))
  }

  lemma MatchRefusal(p: Primitives, r: Request, digest: string)
    ensures MatchDigest(p, r, digest).Err? ==> DigestRefused(p, r, digest, MatchDigest(p, r, digest).error)
  {
    if Candidates(p, r).Ok? {
      NoneMatches(p, r, digest);
      CandidatesIff(p, r);
    } else {
      NoCandidates(p, r);
    }
    hide Candidates, FindDigest, CandidateEncoders, TextOf, StructuredText, ValueText, LineText;
    hide IsCommitment, ValidField, DigestsOf;
  }

  lemma NoneMatches(p: Primitives, r: Request, digest: string)
    requires Candidates(p, r).Ok?
    ensures MatchDigest(p, r, digest).Err? ==>
              var e := MatchDigest(p, r, digest).error;
              && e.RequestDigestMismatch? && e.found == digest && digest !in e.expected
              && |e.expected| == |CandidateEncoders(r)|
              && forall i :: 0 <= i < |e.expected| ==> e.expected[i] == p.sha(TextOf(CandidateEncoders(r)[i], p, r))
  {
    CandidatesHash(p, r);
    FindDigestFinds(Candidates(p, r).value, digest);
    hide Candidates, FindDigest, CandidateEncoders, TextOf;
  }

  lemma NoCandidates(p: Primitives, r: Request)
    requires Candidates(p, r).Err?
    ensures var e := Candidates(p, r).error;
            if r.signing.Some? && !KnownVersion(r.signing.value.version) then
              e == UnsupportedDigestVersion(r.signing.value.version)
            else if r.answerField.Some? && r.signing.None? then e == MissingSigningContext
            else if r.signing.Some? && !IsCommitment(r.signing.value.recipientsCommitment) then
              e == DigestFailed(InvalidRecipientCommitment)
            else r.answerField.Some? && !ValidField(r.answerField.value)
                 && e == DigestFailed(InvalidValue("invalid answer definition"))
  {
    if r.answerField.Some? { ValueContentPrints(p, r, CommitmentOf(r), r.answerField.value); }
    hide StructuredText, ValueText, LineText, ValueContent, Canon, FirstError, IsCommitment, ValidField;
  }

  /** And then of actor, key, time of signing, format, payload and signature. */
  lemma SignatureRefusal(p: Primitives, r: Request, d: Decision, keys: seq<PinnedKey>)
    requires d.signature.Some? && CheckSignature(p, r, d, keys).Err?
    ensures var (s, e) := (d.signature.value, CheckSignature(p, r, d, keys).error);
            if d.actorUserId.None? || d.actorDeviceId.None? then e == MissingActor
            else
              var key := PinnedFor(keys, d.actorUserId.value, d.actorDeviceId.value, s.keyId);
              if key.Err? then e == key.error
              else if p.parse(s.signedAt).None? then e == InvalidSignedAt(s.signedAt)
              else if s.payloadVersion.None? && (d.answerValue.Some? || r.answerField.Some?) then
                e == UnexpectedAnswerValue
              else if s.payloadVersion.Some? && s.payloadVersion.value != "nod-decision-v2" then
                e == UnsupportedPayloadVersion(s.payloadVersion.value)
              else if s.payloadVersion.Some? && d.answerValue.None? then e == MissingAnswerValue
              else
                var i := Claims(p, d, s, p.parse(s.signedAt).value);
                if d.answerValue.Some? && PayloadV2(p, i, d.answerValue.value).Err? then
                  e == PayloadFailed(PayloadV2(p, i, d.answerValue.value).error)
                else if !PayloadFits(p, r, d, s, i) then e == SigningPayloadMismatch
                else e.SignatureInvalid? && !Verifies(p, key.value.publicKey, s.signingPayload, s.signature)
  {
    hide PinnedFor, PayloadV1, PayloadV2;
  }
}
