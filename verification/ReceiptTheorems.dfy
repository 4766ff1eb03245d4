/** Signer and verifier together: a passing receipt names one call of the signer,
    and every such call yields a receipt that passes. */
module ReceiptTheorems {
  import opened Common
  import opened Requests
  import opened Texts
  import opened Json
  import opened CanonicalJson
  import opened Answers
  import opened Digests
  import opened Payloads
  import opened PayloadCuts
  import opened Signer
  import opened Receipt

  // ----- Hypotheses about the libraries -----

  /** Hashes are printed without newlines. */
  ghost predicate HashesOnOneLine(p: Primitives) {
    forall t :: OneLine(p.sha(t))
  }

  /** A printed instant parses, to an instant printed the same way. */
  ghost predicate TimeRoundTrip(p: Primitives, now: Instant) {
    var at := p.parse(p.format(now));
    at.Some? && p.format(at.value) == p.format(now)
  }

  ghost predicate Signs(p: Primitives, a: Ask, payload: string) {
    Prepare(p, a).Ok? && Prepare(p, a).value.payload == payload
  }

  ghost predicate SignedBy(p: Primitives, history: seq<Ask>, payload: string) {
    exists k :: 0 <= k < |history| && Signs(p, history[k], payload)
  }

  /** A key that signs nothing but the payloads of a device's own calls. */
  ghost predicate OnlySigned(p: Primitives, publicKey: string, history: seq<Ask>) {
    forall payload, signature :: Verifies(p, publicKey, payload, signature) ==> SignedBy(p, history, payload)
  }

  /** No text the verifier hashes collides with its counterpart in a call. */
  ghost predicate NoCollisionWith(p: Primitives, in_: ReceiptInput, a: Ask) {
    && (forall e :: e in CandidateEncoders(in_.request) ==>
          !Collide(p, TextOf(e, p, in_.request), TextOf(EncoderFor(a.request), p, a.request)))
    && !Collide(p, TextOrEmpty(in_.decision.text), TextOrEmpty(TrimmedText(a.text)))
  }

  /** The fields the receipt claims can be read off their payload in one way only;
      so it is whenever none of them contains a newline. */
  ghost predicate UnambiguousReceipt(p: Primitives, d: Decision) {
    && d.signature.Some? && d.actorUserId.Some? && d.actorDeviceId.Some?
    && var at := p.parse(d.signature.value.signedAt);
       at.Some?
       && !Ambiguous(ClaimedInput(d, d.signature.value, d.actorUserId.value, d.actorDeviceId.value, p.format(at.value)))
  }

  // ----- What a pass checked -----

  function ClaimedBy(p: Primitives, in_: ReceiptInput, v: VerifiedReceipt): SigningInput
    requires in_.decision.signature.Some?
  {
    ClaimedInput(in_.decision, in_.decision.signature.value, v.userId, v.deviceId, p.format(v.signedAt))
  }

  lemma ContentChecked(p: Primitives, r: Request, d: Decision)
    requires CheckContent(p, r, d).Ok?
    ensures d.signature.Some? && d.signature.value.algorithm == ALGORITHM
    ensures d.requestId == r.id && (r.requestId == "" || r.requestId == r.id)
    ensures MatchDigest(p, r, d.signature.value.requestDigest) == Ok(CheckContent(p, r, d).value)
    ensures OptionFor(r, d.optionId) == Ok(d.optionKind)
  {
    OptionsAgree(r, d.optionId);
    hide MatchDigest, OptionFor, ResolveOption;
  }

  lemma SignatureChecked(p: Primitives, r: Request, d: Decision, keys: seq<PinnedKey>)
    requires d.signature.Some? && CheckSignature(p, r, d, keys).Ok?
    ensures d.actorUserId.Some? && d.actorDeviceId.Some?
    ensures var (s, at) := (d.signature.value, CheckSignature(p, r, d, keys).value);
            var i := ClaimedInput(d, s, d.actorUserId.value, d.actorDeviceId.value, p.format(at));
            && KeyAccepts(p, keys, d.actorUserId.value, d.actorDeviceId.value, s.keyId, s.signingPayload, s.signature)
            && PayloadFor(p, i, d.answerValue) == Ok(s.signingPayload)
            && (s.payloadVersion.Some? <==> d.answerValue.Some?) && p.parse(s.signedAt) == Some(at)
  {
    var s := d.signature.value;
    if d.actorUserId.Some? && d.actorDeviceId.Some? {
      PinnedForIff(p, keys, d.actorUserId.value, d.actorDeviceId.value, s.keyId, s.signingPayload, s.signature);
    }
    hide PinnedFor, PayloadV1, PayloadV2, KeyAccepts;
  }

  /** Every key the receipt is checked with signs nothing but the device's own calls. */
  ghost predicate KeySignsOnly(p: Primitives, in_: ReceiptInput, history: seq<Ask>) {
    forall k ::
      (in_.decision.signature.Some? && in_.decision.actorUserId.Some?
       && FirstKeyAt(in_.pinnedKeys, in_.decision.actorUserId.value, in_.decision.signature.value.keyId, k))
      ==> OnlySigned(p, in_.pinnedKeys[k].publicKey, history)
  }

  lemma Passed(p: Primitives, in_: ReceiptInput)
    requires Verify(p, in_).Ok?
    ensures var (d, v) := (in_.decision, Verify(p, in_).value);
            && d.signature.Some? && d.signature.value.algorithm == "p256_ecdsa_sha256"
            && d.actorUserId == Some(v.userId) && d.actorDeviceId == Some(v.deviceId)
            && v.requestId == d.requestId == in_.request.id && v.keyId == d.signature.value.keyId
            && v.optionId == d.optionId && v.optionKind == d.optionKind
            && OptionFor(in_.request, v.optionId) == Ok(v.optionKind)
            && MatchDigest(p, in_.request, d.signature.value.requestDigest)
              == Ok(Candidate(v.requestDigest, v.digestEncoder))
            && PayloadFor(p, ClaimedBy(p, in_, v), d.answerValue) == Ok(d.signature.value.signingPayload)
            && p.parse(d.signature.value.signedAt) == Some(v.signedAt)
            && KeyAccepts(p, in_.pinnedKeys, v.userId, v.deviceId, v.keyId, d.signature.value.signingPayload,
                          d.signature.value.signature)
  {
    ContentChecked(p, in_.request, in_.decision);
    SignatureChecked(p, in_.request, in_.decision, in_.pinnedKeys);
    hide CheckContent, CheckSignature, MatchDigest, OptionFor, PayloadFor, KeyAccepts;
  }

  // ----- Soundness -----

  /** Two payloads that agree come from the same fields and the same answer. */
  lemma PayloadsDetermine(p: Primitives, i: SigningInput, a: Option<AnswerValue>, j: SigningInput,
                          b: Option<AnswerValue>)
    requires PayloadFor(p, i, a).Ok? && PayloadFor(p, i, a) == PayloadFor(p, j, b)
    requires HashesOnOneLine(p) && (a.None? ==> !Ambiguous(i))
    ensures i.(text := None) == j.(text := None) && a == b
    ensures TrimmedText(i.text) == TrimmedText(j.text) || p.sha(TextOrEmpty(i.text)) == p.sha(TextOrEmpty(j.text))
  {
    hide PayloadV1, PayloadV2, TrimmedText, Ambiguous, TextOrEmpty;
    if a.Some? && b.Some? {
      PayloadV2Injective(p, i, a.value, j, b.value);
    } else if a.Some? {
      PayloadsDisjoint(p, j, i, a.value);
    } else if b.Some? {
      PayloadsDisjoint(p, i, j, b.value);
    } else {
      PayloadV1Unambiguous(p, i, j);
    }
  }

  lemma EmptyTextTrims(s: Option<string>, t: Option<string>)
    requires TextOrEmpty(s) == TextOrEmpty(t)
    ensures TrimmedText(s) == TrimmedText(t)
  {
  }

  /** The receipt names this call of the signer, field by field. */
  ghost predicate Names(p: Primitives, in_: ReceiptInput, v: VerifiedReceipt, a: Ask) {
    && in_.decision.signature.Some?
    && v.requestId == a.request.id && v.requestId == in_.request.id
    && a.expected == AssertedDigest(a.request) == Some(v.requestDigest)
    && v.optionId == a.optionId && OptionFor(a.request, a.optionId) == Ok(v.optionKind)
    && v.userId == a.userId && v.deviceId == a.deviceId && v.keyId == a.keyId
    && in_.decision.signature.value.nonce == a.nonce
    && p.format(v.signedAt) == p.format(a.now)
    && in_.decision.answerValue == a.answer
    && TrimmedText(in_.decision.text) == TrimmedText(a.text)
  }

  /** What a line snapshot shows of a request: some fields as they are, recipients
      joined, absent values as empty ones, the rest as hashes. */
  ghost predicate SameSnapshot(p: Primitives, a: Request, b: Request) {
    && a.id == b.id && a.channelId == b.channelId && Joined(a.recipients, ",") == Joined(b.recipients, ",")
    && a.decisionResolution == b.decisionResolution
    && p.sha(a.title) == p.sha(b.title) && p.sha(a.summary) == p.sha(b.summary)
    && p.sha(a.bodyMarkdown) == p.sha(b.bodyMarkdown)
    && p.sha(Text(StructFields(a.fields))) == p.sha(Text(StructFields(b.fields)))
    && p.sha(Text(Links(a.links))) == p.sha(Text(Links(b.links)))
    && TextOrEmpty(a.imageUrl) == TextOrEmpty(b.imageUrl) && TextOrEmpty(a.dedupeKey) == TextOrEmpty(b.dedupeKey)
    && (if a.expiresAt.Some? then p.format(a.expiresAt.value) else "")
       == (if b.expiresAt.Some? then p.format(b.expiresAt.value) else "")
    && p.format(a.createdAt) == p.format(b.createdAt)
    && p.sha(Text(Options(a.options))) == p.sha(Text(Options(b.options)))
  }

  /** The created request and the request the device signed are one: the same
      encoder and the same content, recipients commitment and answer field. Under the
      line snapshot it is the same snapshot text, and the same snapshot line by line
      if the created request's has no newline inside a line. */
  ghost predicate SameCard(p: Primitives, created: Request, signed: Request, e: DigestEncoder) {
    && EncoderFor(signed) == e
    && (e != LegacyLineSnapshot ==>
          && SameContent(p, created, signed) && CommitmentOf(created) == CommitmentOf(signed)
          && created.answerField == signed.answerField)
    && (e == LegacyLineSnapshot ==>
          && LineText(p, created) == LineText(p, signed)
          && (AllOneLine(LineParts(p, created)) ==> SameSnapshot(p, created, signed)))
  }

  lemma SnapshotParts(p: Primitives, a: Request, b: Request)
    requires LineParts(p, a) == LineParts(p, b)
    ensures SameSnapshot(p, a, b)
  {
    var (xs, ys) := (LineParts(p, a), LineParts(p, b));
    hide Joined, StructFields, Links, Options, Text;
    assert xs[1] == ys[1] && xs[2] == ys[2] && xs[3] == ys[3] && xs[4] == ys[4] && xs[5] == ys[5] && xs[6] == ys[6];
    assert xs[7] == ys[7] && xs[8] == ys[8] && xs[9] == ys[9] && xs[10] == ys[10] && xs[11] == ys[11];
    assert xs[12] == ys[12] && xs[13] == ys[13] && xs[14] == ys[14];
    SameTail("request_id:", a.id, b.id);
    SameTail("channel_id:", a.channelId, b.channelId);
    SameTail("recipients:", Joined(a.recipients, ","), Joined(b.recipients, ","));
    SameTail("decision_resolution:", ResolutionName(a.decisionResolution), ResolutionName(b.decisionResolution));
    assert |ResolutionName(a.decisionResolution)| == |ResolutionName(b.decisionResolution)|;
    SameTail("title_sha256:", p.sha(a.title), p.sha(b.title));
    SameTail("summary_sha256:", p.sha(a.summary), p.sha(b.summary));
    SameTail("body_markdown_sha256:", p.sha(a.bodyMarkdown), p.sha(b.bodyMarkdown));
    SnapshotPartsEnd(p, a, b);
  }

  lemma SnapshotPartsEnd(p: Primitives, a: Request, b: Request)
    requires LineParts(p, a) == LineParts(p, b)
    ensures p.sha(Text(StructFields(a.fields))) == p.sha(Text(StructFields(b.fields)))
    ensures p.sha(Text(Links(a.links))) == p.sha(Text(Links(b.links)))
    ensures TextOrEmpty(a.imageUrl) == TextOrEmpty(b.imageUrl) && TextOrEmpty(a.dedupeKey) == TextOrEmpty(b.dedupeKey)
    ensures (if a.expiresAt.Some? then p.format(a.expiresAt.value) else "")
            == (if b.expiresAt.Some? then p.format(b.expiresAt.value) else "")
    ensures p.format(a.createdAt) == p.format(b.createdAt)
    ensures p.sha(Text(Options(a.options))) == p.sha(Text(Options(b.options)))
  {
    var (xs, ys) := (LineParts(p, a), LineParts(p, b));
    hide Joined, StructFields, Links, Options, Text, ResolutionName;
    assert xs[8] == ys[8] && xs[9] == ys[9] && xs[10] == ys[10] && xs[11] == ys[11];
    assert xs[12] == ys[12] && xs[13] == ys[13] && xs[14] == ys[14];
    SameTail("fields_sha256:", p.sha(Text(StructFields(a.fields))), p.sha(Text(StructFields(b.fields))));
    SameTail("links_sha256:", p.sha(Text(Links(a.links))), p.sha(Text(Links(b.links))));
    SameTail("image_url:", TextOrEmpty(a.imageUrl), TextOrEmpty(b.imageUrl));
    SameTail("dedupe_key:", TextOrEmpty(a.dedupeKey), TextOrEmpty(b.dedupeKey));
    SameTail("expires_at:", if a.expiresAt.Some? then p.format(a.expiresAt.value) else "",
             if b.expiresAt.Some? then p.format(b.expiresAt.value) else "");
    SameTail("created_at:", p.format(a.createdAt), p.format(b.createdAt));
    SameTail("options_sha256:", p.sha(Text(Options(a.options))), p.sha(Text(Options(b.options))));
  }

  lemma SnapshotsAgree(p: Primitives, created: Request, signed: Request)
    requires LineText(p, created) == LineText(p, signed) && AllOneLine(LineParts(p, created))
    ensures SameSnapshot(p, created, signed)
  {
    assert |LineParts(p, created)| == |LineParts(p, signed)| == 15;
    hide LineParts, SameSnapshot;
    LinesInjective(LineParts(p, created), LineParts(p, signed));
    SnapshotParts(p, created, signed);
  }

  lemma CardsAgree(p: Primitives, created: Request, e: DigestEncoder, a: Ask)
    requires Recompute(p, a.request).Ok? && e in CandidateEncoders(created)
    requires TextOf(e, p, created) == TextOf(EncoderFor(a.request), p, a.request)
    ensures SameCard(p, created, a.request, e)
  {
    var signed := a.request;
    RecomputedFrom(p, signed);
    hide StructuredText, ValueText, LineText, SameContent, SameSnapshot, Recompute, ValidField;
    EncodersDisjoint(p, e, created, CommitmentOf(created), FieldOf(created),
                     EncoderFor(signed), signed, CommitmentOf(signed), FieldOf(signed));
    if e != LegacyLineSnapshot {
      PreHashInjective(e, p, created, CommitmentOf(created), FieldOf(created),
                       signed, CommitmentOf(signed), FieldOf(signed));
    } else if AllOneLine(LineParts(p, created)) {
      SnapshotsAgree(p, created, signed);
    }
  }

  lemma NamesCall(p: Primitives, in_: ReceiptInput, a: Ask)
    requires Verify(p, in_).Ok? && in_.decision.signature.Some?
    requires Signs(p, a, in_.decision.signature.value.signingPayload)
    requires HashesOnOneLine(p)
    requires in_.decision.answerValue.None? ==> UnambiguousReceipt(p, in_.decision)
    requires !Collide(p, TextOrEmpty(in_.decision.text), TextOrEmpty(TrimmedText(a.text)))
    ensures Names(p, in_, Verify(p, in_).value, a)
    ensures Verify(p, in_).value.requestDigest == Prepare(p, a).value.input.requestDigest
  {
    var (v, d, m) := (Verify(p, in_).value, in_.decision, Prepare(p, a).value);
    var i := ClaimedBy(p, in_, v);
    Passed(p, in_);
    PreparedAsReviewed(p, a);
    MatchedFrom(p, in_.request, d.signature.value.requestDigest);
    hide Verify, Prepare, Recompute, PayloadFor, OptionFor, MatchDigest, KeyAccepts, TextOf, CandidateTexts;
    hide CandidateEncoders;
    hide AssertedDigest, TextOrEmpty, Ambiguous;
    PayloadsDetermine(p, i, d.answerValue, m.input, a.answer);
    TrimmedTwice(a.text);
    hide TrimmedText;
    assert TrimmedText(d.text) == TrimmedText(a.text) by {
      if TrimmedText(d.text) != TrimmedText(m.input.text) { EmptyTextTrims(d.text, m.input.text); }
    }
  }

  lemma CheckedKeySigned(p: Primitives, in_: ReceiptInput, history: seq<Ask>)
    requires Verify(p, in_).Ok? && KeySignsOnly(p, in_, history)
    ensures in_.decision.signature.Some? && SignedBy(p, history, in_.decision.signature.value.signingPayload)
  {
    Passed(p, in_);
    var (v, s) := (Verify(p, in_).value, in_.decision.signature.value);
    hide Verify, SignedBy, MatchDigest, OptionFor, PayloadFor, Verifies;
    var k :| FirstKeyAt(in_.pinnedKeys, v.userId, v.keyId, k)
             && Verifies(p, in_.pinnedKeys[k].publicKey, s.signingPayload, s.signature);
    assert OnlySigned(p, in_.pinnedKeys[k].publicKey, history);
  }

  /** Receipt soundness over a device's whole history: if the pinned key only
      signed payloads the signer built, and the hashes involved do not collide,
      a passing receipt names one of those calls, for the created card. */
  lemma ReceiptSound(p: Primitives, in_: ReceiptInput, history: seq<Ask>)
    requires Verify(p, in_).Ok?
    requires KeySignsOnly(p, in_, history)
    requires HashesOnOneLine(p)
    requires in_.decision.answerValue.None? ==> UnambiguousReceipt(p, in_.decision)
    requires forall k :: 0 <= k < |history| ==> NoCollisionWith(p, in_, history[k])
    ensures exists k :: 0 <= k < |history| && Prepare(p, history[k]).Ok?
              && Names(p, in_, Verify(p, in_).value, history[k])
              && SameCard(p, in_.request, history[k].request, Verify(p, in_).value.digestEncoder)
  {
    var (v, s) := (Verify(p, in_).value, in_.decision.signature);
    Passed(p, in_);
    CheckedKeySigned(p, in_, history);
    var k :| 0 <= k < |history| && Signs(p, history[k], s.value.signingPayload);
    var a := history[k];
    assert NoCollisionWith(p, in_, a);
    hide Verify, KeyAccepts, KeySignsOnly, OnlySigned, Names, SameCard, TextOrEmpty, TrimmedText;
    hide MatchDigest, CandidateEncoders;
    hide OptionFor, PayloadFor, TextOf, EncoderFor, CandidateTexts, Prepare, HashesOnOneLine, UnambiguousReceipt;
    hide Recompute;
    NamesCall(p, in_, a);
    PreparedAsReviewed(p, a);
    MatchedFrom(p, in_.request, s.value.requestDigest);
    CardsAgree(p, in_.request, v.digestEncoder, a);
  }

  lemma EncoderTells(created: Request, signed: Request, e: DigestEncoder)
    requires EncoderFor(signed) == e && signed.answerField.Some? && e in CandidateEncoders(created)
    ensures created.answerField.None? <==> e == LegacyLineSnapshot
  {
  }

  lemma AnsweredCall(p: Primitives, in_: ReceiptInput, v: VerifiedReceipt, a: Ask)
    requires Prepare(p, a).Ok? && Names(p, in_, v, a) && in_.decision.answerValue.Some?
    ensures a.request.answerField.Some?
  {
    PreparedAsReviewed(p, a);
    hide Prepare, Recompute, InputFor, OptionFor, PayloadFor, TextOf, AssertedDigest, TrimmedText;
  }

  /** Under the same hypotheses a receipt with an answer is for a value card, except
      under the line snapshot, where it is for an ordinary one. */
  lemma AnsweredCardIff(p: Primitives, in_: ReceiptInput, history: seq<Ask>)
    requires Verify(p, in_).Ok? && in_.decision.answerValue.Some?
    requires KeySignsOnly(p, in_, history)
    requires HashesOnOneLine(p)
    requires forall k :: 0 <= k < |history| ==> NoCollisionWith(p, in_, history[k])
    ensures in_.request.answerField.None? <==> Verify(p, in_).value.digestEncoder == LegacyLineSnapshot
  {
    hide *;
    ReceiptSound(p, in_, history);
    Passed(p, in_);
    MatchedFrom(p, in_.request, in_.decision.signature.value.requestDigest);
    var v := Verify(p, in_).value;
    var k :| 0 <= k < |history| && Prepare(p, history[k]).Ok? && Names(p, in_, v, history[k])
             && SameCard(p, in_.request, history[k].request, v.digestEncoder);
    AnsweredCall(p, in_, v, history[k]);
    CardEncoder(p, in_.request, history[k].request, v.digestEncoder);
    EncoderTells(in_.request, history[k].request, v.digestEncoder);
  }

  /** The same condition in a form to check beforehand: an answered receipt that
      passes is for an ordinary card exactly if it carries that card's line digest. */
  lemma AnsweredCardByDigest(p: Primitives, in_: ReceiptInput, history: seq<Ask>)
    requires Verify(p, in_).Ok? && in_.decision.answerValue.Some? && in_.decision.signature.Some?
    requires KeySignsOnly(p, in_, history)
    requires HashesOnOneLine(p)
    requires forall k :: 0 <= k < |history| ==> NoCollisionWith(p, in_, history[k])
    requires forall e :: e in CandidateEncoders(in_.request) ==>
               !Collide(p, TextOf(e, p, in_.request), LineText(p, in_.request))
    ensures in_.request.answerField.None?
       <==> in_.decision.signature.value.requestDigest == LineDigest(p, in_.request)
  {
    hide *;
    AnsweredCardIff(p, in_, history);
    Passed(p, in_);
    MatchedFrom(p, in_.request, in_.decision.signature.value.requestDigest);
    LineDigestTells(p, in_.request, Verify(p, in_).value.digestEncoder, in_.decision.signature.value.requestDigest);
  }

  lemma LineDigestTells(p: Primitives, r: Request, e: DigestEncoder, digest: string)
    requires e in CandidateEncoders(r) && digest == p.sha(TextOf(e, p, r))
    requires !Collide(p, TextOf(e, p, r), LineText(p, r))
    ensures digest == LineDigest(p, r) <==> e == LegacyLineSnapshot
  {
    hide StructuredText, ValueText, LineText, CandidateEncoders;
    assert LineText(p, r) == TextOf(LegacyLineSnapshot, p, r);
    if TextOf(e, p, r) == LineText(p, r) {
      EncodersDisjoint(p, e, r, CommitmentOf(r), FieldOf(r), LegacyLineSnapshot, r, CommitmentOf(r), FieldOf(r));
    }
  }

  lemma CardEncoder(p: Primitives, created: Request, signed: Request, e: DigestEncoder)
    requires SameCard(p, created, signed, e)
    ensures EncoderFor(signed) == e
  {
    hide SameContent, SameSnapshot, EncoderFor, CommitmentOf, LineText, LineParts, AllOneLine;
  }

  // ----- Completeness -----

  /** The receipt stored for a signed call. */
  function Stored(p: Primitives, a: Ask, m: Prepared, signature: string, optionLabel: string,
                  resolvedAt: Instant): Decision {
    Decision(a.answer, a.request.id, a.optionId, m.input.optionKind, optionLabel, m.input.text, Some(a.userId),
             Some(a.deviceId),
             Some(SignatureRecord(m.payloadVersion, a.keyId, ALGORITHM, a.nonce, m.input.signedAt,
                                  m.input.requestDigest,
                                  m.payload, signature)),
             resolvedAt)
  }

  /** A device's copy of a created request has its signing context and its content.
      The server filters the recipients a device sees, drops the legacy digest and
      changes the state of delivery. */
  ghost predicate CopyOf(p: Primitives, created: Request, copy: Request) {
    copy.signing == created.signing && SameContent(p, created, copy)
  }

  /** The two agree on the answer field, or the line snapshot, which does not cover
      it, stands for both and the created request is ordinary. */
  ghost predicate FieldsFit(created: Request, copy: Request) {
    created.answerField == copy.answerField || (created.signing.None? && created.answerField.None?)
  }

  lemma CopyHasContent(p: Primitives, created: Request, copy: Request, commitment: string)
    requires SameContent(p, created, copy)
    ensures ContentMembers(p, created, commitment) == ContentMembers(p, copy, commitment)
  {
    hide Fields, Links, Options, NotificationJson, ResolutionName;
  }

  lemma CopyHashesAlike(p: Primitives, created: Request, copy: Request, c: string, tag: string)
    requires SameContent(p, created, copy) && created.answerField == copy.answerField
    ensures StructuredDigest(p, created, c, tag) == StructuredDigest(p, copy, c, tag)
    ensures created.answerField.Some? ==>
              ValueDigest(p, created, c, created.answerField.value, tag)
              == ValueDigest(p, copy, c, copy.answerField.value, tag)
  {
    CopyHasContent(p, created, copy, c);
    hide ContentMembers, SameContent, ValidField, IsCommitment, Text, CanonicalText, Canon, FirstError;
    assert Content(p, created, c) == Content(p, copy, c);
    if created.answerField.Some? {
      assert ValueContent(p, created, c, created.answerField.value) == ValueContent(p, copy, c, copy.answerField.value);
    }
  }

  lemma CopyRecomputes(p: Primitives, created: Request, copy: Request)
    requires CopyOf(p, created, copy) && created.signing.Some? && created.answerField == copy.answerField
    ensures Recompute(p, created) == Recompute(p, copy)
  {
    hide SameContent, StructuredDigest, ValueDigest;
    var c := created.signing.value.recipientsCommitment;
    CopyHashesAlike(p, created, copy, c, TAG_V1);
    CopyHashesAlike(p, created, copy, c, TAG_V2);
    CopyHashesAlike(p, created, copy, c, TAG_V3);
  }

  /** The verifier finds, in the request as created, the digest the signer recomputed
      from its copy, unless the card is a value card without a signing context or the
      snapshots of a card without context differ. */
  lemma RecomputedMatches(p: Primitives, created: Request, copy: Request)
    requires Recompute(p, copy).Ok? && CopyOf(p, created, copy) && FieldsFit(created, copy)
    ensures var m := MatchDigest(p, created, Recompute(p, copy).value);
            && (m.Ok? <==> created.signing.Some?
                           || (created.answerField.None? && LineDigest(p, created) == LineDigest(p, copy)))
            && (m.Ok? ==> m.value.digest == Recompute(p, copy).value)
            && (m.Ok? && NoCollision(p, CandidateTexts(p, created)) ==> m.value.encoder == EncoderFor(copy))
  {
    if created.signing.Some? {
      CopyRecomputes(p, created, copy);
      OwnDigestIsCandidate(p, created);
      FindDigestFinds(Candidates(p, created).value, Recompute(p, copy).value);
      if NoCollision(p, CandidateTexts(p, created)) { CandidatesDistinct(p, created); }
      assert EncoderFor(created) == EncoderFor(copy);
      hide Candidates, Recompute, NoCollision, CandidateTexts, EncoderFor, FindDigest, SameContent;
    } else {
      LineMatches(p, created, LineDigest(p, copy));
      hide LineDigest, SameContent, CandidateTexts, NoCollision, MatchDigest;
    }
  }

  /** Without a context only the line snapshot is left, and only for an ordinary card. */
  lemma LineMatches(p: Primitives, r: Request, found: string)
    requires r.signing.None?
    ensures var m := MatchDigest(p, r, found);
            && (m.Ok? <==> r.answerField.None? && LineDigest(p, r) == found)
            && (m.Ok? ==> m.value == Candidate(found, LegacyLineSnapshot))
  {
    var line := Candidate(LineDigest(p, r), LegacyLineSnapshot);
    hide LineDigest;
    assert [line][1..] == [] && FindDigest([line][1..], found) == None;
  }

  lemma OwnDigestIsCandidate(p: Primitives, r: Request)
    requires Recompute(p, r).Ok? && (r.answerField.None? || r.signing.Some?)
    ensures Candidates(p, r).Ok? && Candidate(Recompute(p, r).value, EncoderFor(r)) in Candidates(p, r).value
  {
    CandidatesSucceed(p, r);
    RecomputedFrom(p, r);
    CandidatesHash(p, r);
    var (cs, es) := (Candidates(p, r).value, CandidateEncoders(r));
    assert EncoderFor(r) == es[0] || (|es| > 1 && EncoderFor(r) == es[1]);
    hide Candidates, Recompute, TextOf;
    var i :| 0 <= i < |cs| && es[i] == EncoderFor(r);
    assert cs[i] in cs;
  }

  lemma CandidatesSucceed(p: Primitives, r: Request)
    requires Recompute(p, r).Ok? && (r.answerField.None? || r.signing.Some?)
    ensures Candidates(p, r).Ok?
  {
    if r.answerField.Some? {
      ValueContentPrints(p, r, CommitmentOf(r), r.answerField.value);
    }
    hide StructuredText, ValueText, ValueContent, Canon, FirstError, LineDigest, IsCommitment, ValidField;
  }

  /** The two instants are no further apart than the caller allows, ten minutes unless
      it says otherwise. */
  ghost predicate Near(in_: ReceiptInput, a: Instant, b: Instant) {
    var allowed := if in_.maxClockSkew.Some? then in_.maxClockSkew.value else 600_000_000_000;
    -allowed <= a - b <= allowed
  }

  lemma NearIff(in_: ReceiptInput, a: Instant, b: Instant)
    ensures Abs(a - b) <= Tolerance(in_) <==> Near(in_, a, b)
  {
  }

  /** The conditions under which the receipt of a signed call passes. */
  ghost predicate Passes(p: Primitives, a: Ask, payload: string, signature: string, in_: ReceiptInput) {
    var created := in_.request;
    && (created.requestId == "" || created.requestId == created.id)
    && (created.signing.Some? || (created.answerField.None? && LineDigest(p, created) == LineDigest(p, a.request)))
    && KeyAccepts(p, in_.pinnedKeys, a.userId, a.deviceId, a.keyId, payload, signature)
    && (in_.strictTime ==>
          p.parse(p.format(a.now)).Some? && Near(in_, in_.now, p.parse(p.format(a.now)).value))
  }

  lemma CopyOption(created: Request, copy: Request, id: string)
    requires created.options == copy.options && FieldsFit(created, copy) && OptionFor(copy, id).Ok?
    ensures OptionFor(created, id) == OptionFor(copy, id)
  {
  }

  lemma StoredContent(p: Primitives, created: Request, a: Ask, signature: string, optionLabel: string,
                      resolvedAt: Instant)
    requires Prepare(p, a).Ok? && CopyOf(p, created, a.request) && FieldsFit(created, a.request)
    ensures var d := Stored(p, a, Prepare(p, a).value, signature, optionLabel, resolvedAt);
            && (CheckContent(p, created, d).Ok? <==>
                  && (created.requestId == "" || created.requestId == created.id)
                  && (created.signing.Some?
                      || (created.answerField.None? && LineDigest(p, created) == LineDigest(p, a.request))))
            && (CheckContent(p, created, d).Ok? ==>
                  && CheckContent(p, created, d).value.digest == Prepare(p, a).value.input.requestDigest
                  && (NoCollision(p, CandidateTexts(p, created)) ==>
                        CheckContent(p, created, d).value.encoder == EncoderFor(a.request)))
  {
    PreparedAsReviewed(p, a);
    RecomputedMatches(p, created, a.request);
    assert created.id == a.request.id && created.options == a.request.options;
    CopyOption(created, a.request, a.optionId);
    OptionsAgree(created, a.optionId);
    hide Prepare, Recompute, MatchDigest, OptionFor, ResolveOption, PayloadFor, AssertedDigest, NoCollision;
    hide CandidateTexts, EncoderFor, InputFor, SameContent, FieldsFit, LineDigest, TextOf;
  }

  lemma StoredSignature(p: Primitives, created: Request, a: Ask, signature: string, optionLabel: string,
                        resolvedAt: Instant, keys: seq<PinnedKey>)
    requires Prepare(p, a).Ok? && TimeRoundTrip(p, a.now) && FieldsFit(created, a.request)
    ensures var m := Prepare(p, a).value;
            var d := Stored(p, a, m, signature, optionLabel, resolvedAt);
            && (CheckSignature(p, created, d, keys).Ok? <==>
                  KeyAccepts(p, keys, a.userId, a.deviceId, a.keyId, m.payload, signature))
            && (CheckSignature(p, created, d, keys).Ok? ==>
                  Some(CheckSignature(p, created, d, keys).value) == p.parse(p.format(a.now)))
  {
    StoredRebuilds(p, created, a, signature, optionLabel, resolvedAt);
    var m := Prepare(p, a).value;
    PreparedAsReviewed(p, a);
    var d := Stored(p, a, m, signature, optionLabel, resolvedAt);
    hide *;
    SignatureIff(p, created, d, keys);
  }

  /** A claimed payload that can be rebuilt passes with the first pinned key. */
  lemma SignatureIff(p: Primitives, r: Request, d: Decision, keys: seq<PinnedKey>)
    requires d.signature.Some? && d.actorUserId.Some? && d.actorDeviceId.Some?
    requires p.parse(d.signature.value.signedAt).Some?
    requires var (s, at) := (d.signature.value, p.parse(d.signature.value.signedAt).value);
             var i := ClaimedInput(d, s, d.actorUserId.value, d.actorDeviceId.value, p.format(at));
             Rebuild(p, r, d, s.payloadVersion, i) == Ok(s.signingPayload)
    ensures var s := d.signature.value;
            var out := CheckSignature(p, r, d, keys);
            && (out.Ok? <==>
                  KeyAccepts(p, keys, d.actorUserId.value, d.actorDeviceId.value, s.keyId, s.signingPayload,
                             s.signature))
            && (out.Ok? ==> Some(out.value) == p.parse(s.signedAt))
  {
    var s := d.signature.value;
    PinnedForIff(p, keys, d.actorUserId.value, d.actorDeviceId.value, s.keyId, s.signingPayload, s.signature);
    hide PinnedFor, Rebuild, ClaimedInput, KeyAccepts;
  }

  /** The verifier rebuilds what was signed from the stored decision. */
  lemma StoredRebuilds(p: Primitives, created: Request, a: Ask, signature: string, optionLabel: string,
                       resolvedAt: Instant)
    requires Prepare(p, a).Ok? && TimeRoundTrip(p, a.now) && FieldsFit(created, a.request)
    ensures var (m, at) := (Prepare(p, a).value, p.parse(p.format(a.now)));
            var d := Stored(p, a, m, signature, optionLabel, resolvedAt);
            var i := ClaimedInput(d, d.signature.value, a.userId, a.deviceId, p.format(at.value));
            Rebuild(p, created, d, m.payloadVersion, i) == Ok(m.payload)
  {
    PreparedAsReviewed(p, a);
    TrimmedTwice(a.text);
    hide Prepare, Recompute, OptionFor, AssertedDigest, TrimmedText, PayloadV1, PayloadV2, TextOf, EncoderFor;
    var (m, at) := (Prepare(p, a).value, p.parse(p.format(a.now)));
    var d := Stored(p, a, m, signature, optionLabel, resolvedAt);
    assert at.Some? && p.format(at.value) == p.format(a.now);
    assert ClaimedInput(d, d.signature.value, a.userId, a.deviceId, p.format(at.value)) == m.input;
  }

  /** A receipt passes if its content and its signature do and its time is kept. */
  lemma PassedIff(p: Primitives, in_: ReceiptInput)
    ensures Verify(p, in_).Ok? <==>
              && CheckContent(p, in_.request, in_.decision).Ok? && in_.decision.signature.Some?
              && CheckSignature(p, in_.request, in_.decision, in_.pinnedKeys).Ok?
              && (in_.strictTime ==>
                    Near(in_, in_.now, CheckSignature(p, in_.request, in_.decision, in_.pinnedKeys).value))
    ensures Verify(p, in_).Ok? ==>
              var (v, d, m) := (Verify(p, in_).value, in_.decision, CheckContent(p, in_.request, in_.decision).value);
              && Some(v.userId) == d.actorUserId && Some(v.deviceId) == d.actorDeviceId
              && v.requestId == d.requestId && v.keyId == d.signature.value.keyId
              && v.optionId == d.optionId && v.optionKind == d.optionKind
              && v.requestDigest == m.digest && v.digestEncoder == m.encoder
              && v.signedAt == CheckSignature(p, in_.request, in_.decision, in_.pinnedKeys).value
  {
    hide PinnedFor, Rebuild, MatchDigest, ResolveOption;
  }

  /** Sign a device's copy, store, verify against the request as created: the receipt
      of a signed call passes exactly under these conditions, and then reports the
      call. */
  lemma SignThenVerify(p: Primitives, a: Ask, signature: string, optionLabel: string, in_: ReceiptInput)
    requires Prepare(p, a).Ok? && TimeRoundTrip(p, a.now)
    requires CopyOf(p, in_.request, a.request) && FieldsFit(in_.request, a.request)
    requires in_.decision == Stored(p, a, Prepare(p, a).value, signature, optionLabel, in_.decision.resolvedAt)
    ensures Verify(p, in_).Ok? <==> Passes(p, a, Prepare(p, a).value.payload, signature, in_)
    ensures Verify(p, in_).Ok? ==>
              var (v, i) := (Verify(p, in_).value, Prepare(p, a).value.input);
              && v.requestId == a.request.id && v.userId == a.userId && v.deviceId == a.deviceId && v.keyId == a.keyId
              && v.optionId == a.optionId && v.optionKind == i.optionKind && v.requestDigest == i.requestDigest
              && Some(v.signedAt) == p.parse(p.format(a.now))
              && (NoCollision(p, CandidateTexts(p, in_.request)) ==> v.digestEncoder == EncoderFor(a.request))
  {
    StoredContent(p, in_.request, a, signature, optionLabel, in_.decision.resolvedAt);
    StoredSignature(p, in_.request, a, signature, optionLabel, in_.decision.resolvedAt, in_.pinnedKeys);
    PassedIff(p, in_);
    assert in_.request.id == a.request.id;
    hide CheckContent, CheckSignature, Prepare, KeyAccepts, NoCollision, CandidateTexts, EncoderFor, Verify, LineDigest;
    hide CopyOf, FieldsFit, Verifies, Near, SameContent;
  }

  /** The line snapshot does not cover the answer field: a value card without a
      signing context has the digest of the ordinary card with its content. */
  lemma LineSnapshotIgnoresAnswerField(p: Primitives, r: Request)
    requires r.answerField.Some? && r.signing.None?
    ensures EncoderFor(r) == LegacyLineSnapshot && LineDigest(p, r.(answerField := None)) == LineDigest(p, r)
    ensures MatchDigest(p, r.(answerField := None), LineDigest(p, r))
            == Ok(Candidate(LineDigest(p, r), LegacyLineSnapshot))
  {
    assert LineParts(p, r.(answerField := None)) == LineParts(p, r);
    LineMatches(p, r.(answerField := None), LineDigest(p, r));
  }

  /** The second payload format is not tied to value cards, and the line snapshot does
      not cover the answer field: an answer signed on a value card without a signing
      context passes for the ordinary card with its content, under the same conditions
      on keys and time as any receipt. */
  lemma AnswerPassesForOrdinaryCard(p: Primitives, a: Ask, signature: string, optionLabel: string, in_: ReceiptInput)
    requires Prepare(p, a).Ok? && TimeRoundTrip(p, a.now)
    requires a.request.answerField.Some? && a.request.signing.None?
    requires in_.request == a.request.(answerField := None)
    requires in_.decision == Stored(p, a, Prepare(p, a).value, signature, optionLabel, in_.decision.resolvedAt)
    ensures in_.decision.answerValue.Some? && in_.request.answerField.None?
    ensures Verify(p, in_).Ok? <==>
              && (a.request.requestId == "" || a.request.requestId == a.request.id)
              && KeyAccepts(p, in_.pinnedKeys, a.userId, a.deviceId, a.keyId, Prepare(p, a).value.payload, signature)
              && (in_.strictTime ==>
                    p.parse(p.format(a.now)).Some? && Near(in_, in_.now, p.parse(p.format(a.now)).value))
  {
    PreparedAsReviewed(p, a);
    LineSnapshotIgnoresAnswerField(p, a.request);
    hide LineDigest, LineParts, Prepare, Recompute, TextOf, OptionFor, PayloadFor, KeyAccepts;
    SignThenVerify(p, a, signature, optionLabel, in_);
    hide Verify, Verifies;
  }

  /** A public key that belongs to a signing key. */
  ghost predicate KeyPair(p: Primitives, sign: string -> Option<string>, publicKey: string) {
    forall payload :: sign(payload).Some? ==> Verifies(p, publicKey, payload, sign(payload).value)
  }

  /** The first pinned key of the user with the key id is the signer's, and for its device. */
  ghost predicate OwnKeyPinned(p: Primitives, sign: string -> Option<string>, keys: seq<PinnedKey>, a: Ask) {
    exists k :: FirstKeyAt(keys, a.userId, a.keyId, k)
      && (keys[k].deviceId.None? || keys[k].deviceId.value == a.deviceId) && KeyPair(p, sign, keys[k].publicKey)
  }

  lemma OwnKeyAccepts(p: Primitives, sign: string -> Option<string>, keys: seq<PinnedKey>, a: Ask, payload: string)
    requires OwnKeyPinned(p, sign, keys, a) && sign(payload).Some?
    ensures KeyAccepts(p, keys, a.userId, a.deviceId, a.keyId, payload, sign(payload).value)
  {
    hide FirstKeyAt, Verifies;
  }

  /** Whatever the signer returns verifies under the signer's key, if that is the
      first pinned key for the user and key id. */
  lemma BuiltSignatureVerifies(p: Primitives, sign: string -> Option<string>, a: Ask, optionLabel: string,
                               in_: ReceiptInput)
    requires BuildSignature(p, sign, a).Ok? && Prepare(p, a).Ok? && TimeRoundTrip(p, a.now)
    requires CopyOf(p, in_.request, a.request) && FieldsFit(in_.request, a.request) && !in_.strictTime
    requires in_.request.requestId == "" || in_.request.requestId == in_.request.id
    requires in_.request.signing.Some?
          || (in_.request.answerField.None? && LineDigest(p, in_.request) == LineDigest(p, a.request))
    requires in_.decision == Stored(p, a, Prepare(p, a).value, BuildSignature(p, sign, a).value.signature, optionLabel,
                                    in_.decision.resolvedAt)
    requires OwnKeyPinned(p, sign, in_.pinnedKeys, a)
    ensures Verify(p, in_).Ok?
  {
    SignedAsReviewed(p, sign, a);
    OwnKeyAccepts(p, sign, in_.pinnedKeys, a, Prepare(p, a).value.payload);
    SignThenVerify(p, a, BuildSignature(p, sign, a).value.signature, optionLabel, in_);
    hide BuildSignature, Prepare, Verify, KeyAccepts, OwnKeyPinned, LineDigest, CopyOf, FieldsFit;
  }
}
