/** The device side of a decision: what is checked before anything is signed,
    and what is then signed. Nonce, clock and key come from outside. */
module Signer {
  import opened Common
  import opened Requests
  import opened Texts
  import opened Answers
  import opened Digests
  import opened Payloads
  import opened CanonicalJson

  const IMPLICIT_DISMISS := "dismiss"

  datatype Refusal =
    | InvalidAnswerField
    | AnswerRequired
    | InvalidAnswer
    | UnexpectedAnswer
    | Encoding(error: SigningError)
    | UnsupportedVersion(version: string)
    | MissingDigest
    | RequestChanged
    | ContentMismatch
    | UnknownOption(id: string)
    | SignerFailed

  /** One call of the signer: the request copy at hand, the user's choice, the
      digest of the copy the user saw, and the fresh values stamped on it. */
  datatype Ask = Ask(
    request: Request,
    optionId: string,
    text: Option<string>,
    userId: string,
    deviceId: string,
    answer: Option<AnswerValue>,
    expected: Option<string>,
    keyId: string,
    nonce: string,
    now: Instant)

  datatype Prepared = Prepared(input: SigningInput, payloadVersion: Option<string>, payload: string)

  datatype DecisionSignature = DecisionSignature(
    payloadVersion: Option<string>,
    keyId: string,
    nonce: string,
    signedAt: string,
    requestDigest: string,
    signature: string)

  /** `asserted_request_digest`. */
  function AssertedDigest(r: Request): Option<string> {
    if r.signing.Some? then Some(r.signing.value.requestDigest) else r.requestDigest
  }

  function CheckAnswer(r: Request, answer: Option<AnswerValue>): Option<Refusal> {
    if r.answerField.Some? then
      if !ValidField(r.answerField.value) then Some(InvalidAnswerField)
      else if answer.None? then Some(AnswerRequired)
      else if !ValidValue(r.answerField.value, answer.value) then Some(InvalidAnswer)
      else None
    else if answer.Some? then Some(UnexpectedAnswer)
    else None
  }

  /** The digest of the content at hand, by the encoder its own tag selects. */
  function Recompute(p: Primitives, r: Request): Result<string, Refusal> {
    if r.signing.Some? then
      var context := r.signing.value;
      var d := if r.answerField.Some? then
          ValueDigestForVersion(p, r, context.version, context.recipientsCommitment, r.answerField.value)
        else
          RequestDigestForVersion(p, r, context.version, context.recipientsCommitment);
      if d.Err? then Err(Encoding(d.error))
      else if d.value.None? then Err(UnsupportedVersion(context.version))
      else Ok(d.value.value)
    else if r.requestDigest.None? then Err(MissingDigest)
    else Ok(LineDigest(p, r))
  }

  function FindOption(os: seq<RequestOption>, id: string): Option<RequestOption> {
    if os == [] then None
    else if os[0].id == id then Some(os[0])
    else FindOption(os[1..], id)
  }

  /** The `i`-th option is the first with the id. */
  ghost predicate FirstOptionAt(os: seq<RequestOption>, id: string, i: int) {
    0 <= i < |os| && os[i].id == id && forall j :: 0 <= j < i ==> os[j].id != id
  }

  lemma {:induction false} FindOptionIff(os: seq<RequestOption>, id: string)
    ensures FindOption(os, id).Some? <==> exists i :: 0 <= i < |os| && os[i].id == id
    ensures FindOption(os, id).Some? <==> exists i :: FirstOptionAt(os, id, i)
    ensures forall i :: FirstOptionAt(os, id, i) ==> FindOption(os, id) == Some(os[i])
    ensures FindOption(os, id).Some? ==> FindOption(os, id).value.id == id
  {
    if os != [] {
      var rest := os[1..];
      FindOptionIff(rest, id);
      if os[0].id == id {
        assert FirstOptionAt(os, id, 0);
      } else {
        forall i | FirstOptionAt(os, id, i) ensures FirstOptionAt(rest, id, i - 1) {
          assert forall j :: 0 <= j < i - 1 ==> rest[j] == os[j + 1];
        }
        forall i | FirstOptionAt(rest, id, i) ensures FirstOptionAt(os, id, i + 1) {
          assert forall j :: 0 < j < i + 1 ==> os[j] == rest[j - 1];
        }
      }
    }
  }

  /** `option_for` accepts exactly the ids of the card's options, and "dismiss" on an
      ordinary card without options; the kind is that of the first option with the id. */
  lemma OptionForIff(r: Request, id: string)
    ensures OptionFor(r, id).Ok? <==>
              || (exists i :: 0 <= i < |r.options| && r.options[i].id == id)
              || (r.options == [] && r.answerField.None? && id == "dismiss")
    ensures forall i :: FirstOptionAt(r.options, id, i) ==> OptionFor(r, id) == Ok(r.options[i].kind)
    ensures r.options == [] && OptionFor(r, id).Ok? ==> OptionFor(r, id) == Ok(Dismiss)
    ensures OptionFor(r, id).Err? ==> OptionFor(r, id) == Err(UnknownOption(id))
  {
    FindOptionIff(r.options, id);
  }

  /** `option_for`: the id is the one asked for, the kind is the option's. */
  function OptionFor(r: Request, id: string): Result<OptionKind, Refusal> {
    var found := FindOption(r.options, id);
    if found.Some? then Ok(found.value.kind)
    else if r.answerField.None? && id == IMPLICIT_DISMISS && r.options == [] then Ok(Dismiss)
    else Err(UnknownOption(id))
  }

  function InputFor(p: Primitives, a: Ask, digest: string, kind: OptionKind): SigningInput {
    SigningInput(a.request.id, digest, a.optionId, kind, a.userId, a.deviceId, a.keyId, a.nonce, p.format(a.now),
                 TrimmedText(a.text))
  }

  function PayloadFor(p: Primitives, i: SigningInput, answer: Option<AnswerValue>): Result<string, SigningError> {
    if answer.Some? then PayloadV2(p, i, answer.value) else Ok(PayloadV1(p, i))
  }

  /** Everything `build_value_decision_signature` does before it calls the key. */
  function Prepare(p: Primitives, a: Ask): Result<Prepared, Refusal> {
    var r := a.request;
    var refused := CheckAnswer(r, a.answer);
    if refused.Some? then Err(refused.value) else
    var digest :- Recompute(p, r);
    if a.expected.None? || a.expected.value == "" || a.expected != AssertedDigest(r) then Err(RequestChanged)
    else if Some(digest) != AssertedDigest(r) then Err(ContentMismatch)
    else
      var kind :- OptionFor(r, a.optionId);
      var i := InputFor(p, a, digest, kind);
      var payload := PayloadFor(p, i, a.answer);
      if payload.Err? then Err(Encoding(payload.error))
      else Ok(Prepared(i, if a.answer.Some? then Some(PAYLOAD_V2) else None, payload.value))
  }

  /** `build_value_decision_signature`. `sign` is the device key. */
  function BuildSignature(p: Primitives, sign: string -> Option<string>, a: Ask): Result<DecisionSignature, Refusal> {
    var m :- Prepare(p, a);
    var signature := sign(m.payload);
    if signature.None? then Err(SignerFailed)
    else Ok(DecisionSignature(m.payloadVersion, a.keyId, a.nonce, m.input.signedAt, m.input.requestDigest,
                              signature.value))
  }

  // ----- What a signature binds -----

  /** The encoder a request copy is signed under. */
  function EncoderFor(r: Request): DigestEncoder {
    if r.signing.None? then LegacyLineSnapshot
    else if r.answerField.Some? then (if r.signing.value.version == TAG_V2 then Value else LegacyValue)
    else if r.signing.value.version == TAG_V1 then Structured
    else LegacyStructured
  }

  function CommitmentOf(r: Request): string {
    if r.signing.Some? then r.signing.value.recipientsCommitment else ""
  }

  /** The answer field, or one that no ordinary encoder looks at. */
  function FieldOf(r: Request): AnswerField {
    if r.answerField.Some? then r.answerField.value else NumberField("", NumberValue(""))
  }

  /** The text an encoder hashes for a request. */
  function TextOf(e: DigestEncoder, p: Primitives, r: Request): string {
    PreHash(e, p, r, CommitmentOf(r), FieldOf(r))
  }

  /** A recomputed digest is the hash of the content at hand, under an encoder of
      the card's own kind. */
  lemma RecomputedFrom(p: Primitives, r: Request)
    requires Recompute(p, r).Ok?
    ensures Recompute(p, r).value == p.sha(TextOf(EncoderFor(r), p, r))
    ensures r.signing.Some? ==> r.signing.value.version == Version(EncoderFor(r)) && IsCommitment(CommitmentOf(r))
    ensures r.signing.Some? && r.answerField.Some? ==>
              ValidField(r.answerField.value) && (EncoderFor(r) == Value || EncoderFor(r) == LegacyValue)
    ensures r.signing.Some? && r.answerField.None? ==> EncoderFor(r) == Structured || EncoderFor(r) == LegacyStructured
  {
    hide StructuredText, ValueText, LineText, IsCommitment, ValidField;
  }

  /** Nothing is prepared for signing unless the digest the user saw, the digest
      the copy at hand asserts and the digest of its content are one and the same;
      what is prepared is the payload of the call's own fields. */
  lemma PreparedAsReviewed(p: Primitives, a: Ask)
    requires Prepare(p, a).Ok?
    ensures var m := Prepare(p, a).value;
            && a.expected == AssertedDigest(a.request) == Some(m.input.requestDigest)
            && Recompute(p, a.request) == Ok(m.input.requestDigest) && m.input.requestDigest != ""
            && m.input.requestDigest == p.sha(TextOf(EncoderFor(a.request), p, a.request))
            && m.input == InputFor(p, a, m.input.requestDigest, m.input.optionKind)
            && OptionFor(a.request, a.optionId) == Ok(m.input.optionKind)
            && PayloadFor(p, m.input, a.answer) == Ok(m.payload)
            && (a.answer.Some? <==> a.request.answerField.Some?)
            && m.payloadVersion == (if a.answer.Some? then Some(PAYLOAD_V2) else None)
  {
    RecomputedFrom(p, a.request);
    hide Recompute, TextOf, EncoderFor, PayloadFor, OptionFor, ValidField, ValidValue;
  }

  /** A signature carries the reviewed digest and is the key's answer to the
      prepared payload. */
  lemma SignedAsReviewed(p: Primitives, sign: string -> Option<string>, a: Ask)
    requires BuildSignature(p, sign, a).Ok?
    ensures Prepare(p, a).Ok?
    ensures var s, m := BuildSignature(p, sign, a).value, Prepare(p, a).value;
            && a.expected == AssertedDigest(a.request) == Some(s.requestDigest)
            && s.requestDigest == p.sha(TextOf(EncoderFor(a.request), p, a.request)) == m.input.requestDigest
            && sign(m.payload) == Some(s.signature) && s.payloadVersion == m.payloadVersion
  {
    PreparedAsReviewed(p, a);
    hide Prepare, Recompute, TextOf, EncoderFor, PayloadFor, OptionFor, InputFor;
  }

  // ----- When something is signed -----

  /** The request copy hashes to this digest under the encoder of its kind and tag. */
  ghost predicate HashesTo(p: Primitives, r: Request, digest: string) {
    if r.signing.None? then r.requestDigest.Some? && digest == p.sha(LineText(p, r))
    else
      var (tag, c) := (r.signing.value.version, r.signing.value.recipientsCommitment);
      && IsCommitment(c)
      && if r.answerField.Some? then
           && (tag == "nod-request-v2" || tag == "nod-request-v3") && ValidField(r.answerField.value)
           && digest == p.sha(ValueText(p, r, c, r.answerField.value, tag))
         else
           && (tag == "nod-request-v1" || tag == "nod-request-v2")
           && digest == p.sha(StructuredText(p, r, c, tag))
  }

  lemma ValueDigestIff(p: Primitives, r: Request, commitment: string, field: AnswerField, version: string)
    ensures ValueDigest(p, r, commitment, field, version).Ok? <==> IsCommitment(commitment) && ValidField(field)
    ensures ValueDigest(p, r, commitment, field, version).Ok? ==>
              ValueDigest(p, r, commitment, field, version).value == p.sha(ValueText(p, r, commitment, field, version))
  {
    ValueContentPrints(p, r, commitment, field);
    hide ValueText, ValueContent, Canon, FirstError, IsCommitment, ValidField;
  }

  lemma RecomputeIff(p: Primitives, r: Request, digest: string)
    ensures Recompute(p, r) == Ok(digest) <==> HashesTo(p, r, digest)
  {
    if r.answerField.Some? && r.signing.Some? {
      ValueDigestIff(p, r, CommitmentOf(r), r.answerField.value, TAG_V2);
      ValueDigestIff(p, r, CommitmentOf(r), r.answerField.value, TAG_V3);
    }
    hide ValueDigest, StructuredText, ValueText, LineText, IsCommitment, ValidField;
  }

  ghost predicate AnswersTheCard(r: Request, answer: Option<AnswerValue>) {
    && (answer.Some? <==> r.answerField.Some?)
    && (answer.Some? ==> ValidField(r.answerField.value) && Fits(r.answerField.value, answer.value))
  }

  lemma CheckAnswerIff(r: Request, answer: Option<AnswerValue>)
    ensures CheckAnswer(r, answer).None? <==> AnswersTheCard(r, answer)
  {
    hide ValidField, ValidDate, ValidInstant, Decimal.ValidDecimal;
  }

  /** The second payload takes an instant only as it is printed, and a note of at most
      16384 bytes. */
  ghost predicate PrintsAsV2(p: Primitives, a: Ask) {
    var at := p.parse(p.format(a.now));
    && at.Some? && p.format(at.value) == p.format(a.now)
    && (TrimmedText(a.text).Some? ==> Utf8Len(TrimmedText(a.text).value) <= 16384)
  }

  lemma PayloadForIff(p: Primitives, a: Ask, digest: string, kind: OptionKind)
    ensures PayloadFor(p, InputFor(p, a, digest, kind), a.answer).Ok? <==> a.answer.Some? ==> PrintsAsV2(p, a)
  {
    var i := InputFor(p, a, digest, kind);
    TrimmedTwice(a.text);
    assert Utf8Len("") == 0;
    if a.answer.Some? { DecisionPrints(i, a.answer.value); }
    hide PayloadV1, TrimmedText, Utf8Len, Canon, FirstError, CanonicalText, DecisionContent;
  }

  /** Exactly when a call is prepared for signing: the answer is one the card asks for,
      the digest the user saw is the one the copy asserts and the one it hashes to, the
      option is one of the card's, and the payload can be printed. */
  lemma PrepareIff(p: Primitives, a: Ask)
    ensures Prepare(p, a).Ok? <==>
              var r := a.request;
              && AnswersTheCard(r, a.answer)
              && a.expected.Some? && a.expected.value != ""
              && (if r.signing.Some? then r.signing.value.requestDigest == a.expected.value
                  else r.requestDigest == a.expected)
              && HashesTo(p, r, a.expected.value)
              && ((exists i :: 0 <= i < |r.options| && r.options[i].id == a.optionId)
                  || (r.options == [] && r.answerField.None? && a.optionId == "dismiss"))
              && (a.answer.Some? ==> PrintsAsV2(p, a))
  {
    var r := a.request;
    CheckAnswerIff(r, a.answer);
    OptionForIff(r, a.optionId);
    if Recompute(p, r).Ok? { RecomputeIff(p, r, Recompute(p, r).value); }
    if a.expected.Some? { RecomputeIff(p, r, a.expected.value); }
    forall digest, kind
      ensures PayloadFor(p, InputFor(p, a, digest, kind), a.answer).Ok? <==> a.answer.Some? ==> PrintsAsV2(p, a)
    {
      PayloadForIff(p, a, digest, kind);
    }
    hide CheckAnswer, Recompute, HashesTo, AnswersTheCard, PrintsAsV2, PayloadFor, InputFor, OptionFor;
  }

  /** Why a call is refused: the first of the answer, the context, the digest the user
      saw, the content and the option that is not in order. */
  lemma PrepareRefusal(p: Primitives, a: Ask)
    requires Prepare(p, a).Err?
    ensures var (r, e) := (a.request, Prepare(p, a).error);
            if !AnswersTheCard(r, a.answer) then
              if r.answerField.None? then e == UnexpectedAnswer
              else if !ValidField(r.answerField.value) then e == InvalidAnswerField
              else if a.answer.None? then e == AnswerRequired
              else e == InvalidAnswer
            else if Recompute(p, r).Err? then
              e == Recompute(p, r).error && (e.Encoding? || e.UnsupportedVersion? || e == MissingDigest)
            else if a.expected.None? || a.expected.value == "" || a.expected != AssertedDigest(r) then
              e == RequestChanged
            else if !HashesTo(p, r, a.expected.value) then e == ContentMismatch
            else if OptionFor(r, a.optionId).Err? then e == UnknownOption(a.optionId)
            else e.Encoding? && a.answer.Some? && !PrintsAsV2(p, a)
  {
    var r := a.request;
    CheckAnswerIff(r, a.answer);
    CheckAnswerRefusal(r, a.answer);
    OptionForIff(r, a.optionId);
    if a.expected.Some? { RecomputeIff(p, r, a.expected.value); }
    forall digest, kind
      ensures PayloadFor(p, InputFor(p, a, digest, kind), a.answer).Ok? <==> a.answer.Some? ==> PrintsAsV2(p, a)
    {
      PayloadForIff(p, a, digest, kind);
    }
    RecomputeRefusal(p, r);
    hide CheckAnswer, Recompute, HashesTo, AnswersTheCard, PrintsAsV2, PayloadFor, InputFor, OptionFor, ValidField;
  }

  lemma RecomputeRefusal(p: Primitives, r: Request)
    ensures Recompute(p, r).Err? ==>
              var e := Recompute(p, r).error; e.Encoding? || e.UnsupportedVersion? || e == MissingDigest
  {
    hide RequestDigestForVersion, ValueDigestForVersion;
  }

  lemma CheckAnswerRefusal(r: Request, answer: Option<AnswerValue>)
    ensures CheckAnswer(r, answer).Some? ==>
              CheckAnswer(r, answer).value == if r.answerField.None? then UnexpectedAnswer
                                              else if !ValidField(r.answerField.value) then InvalidAnswerField
                                              else if answer.None? then AnswerRequired
                                              else InvalidAnswer
  {
    hide ValidField, ValidValue;
  }

  /** What is then signed: the call's own fields, the digest the user saw and the kind of
      the option chosen, in the format of the card's kind. */
  lemma PreparedInput(p: Primitives, a: Ask)
    requires Prepare(p, a).Ok?
    ensures var (m, r) := (Prepare(p, a).value, a.request);
            var i := SigningInput(r.id, a.expected.value, a.optionId, m.input.optionKind, a.userId, a.deviceId, a.keyId,
                                  a.nonce, p.format(a.now), TrimmedText(a.text));
            && a.expected.Some? && m.input == i
            && (forall k :: FirstOptionAt(r.options, a.optionId, k) ==> i.optionKind == r.options[k].kind)
            && (r.options == [] ==> i.optionKind == Dismiss)
            && (a.answer.None? ==> m.payloadVersion == None && m.payload == PayloadV1(p, i))
            && (a.answer.Some? ==> m.payloadVersion == Some("nod-decision-v2")
                                   && PayloadV2(p, i, a.answer.value) == Ok(m.payload))
  {
    PreparedAsReviewed(p, a);
    OptionForIff(a.request, a.optionId);
    hide Prepare, Recompute, OptionFor, PayloadV1, PayloadV2, TextOf, EncoderFor, TrimmedText, FirstOptionAt;
  }

  // ----- The projection sent to clients that cannot answer value cards -----

  const PROJECTED_SUMMARY := "Open in an updated Nod app to answer this request."

  const PROJECTED_OPTION :=
    RequestOption("__nod_value_open", "Open in app", Custom, "default", false, None, false, true)

  /** `legacy_value_projection`. */
  function LegacyValueProjection(r: Request): Request {
    if r.answerField.None? then r
    else r.(answerField := None, summary := PROJECTED_SUMMARY, bodyMarkdown := PROJECTED_SUMMARY, fields := [],
            links := [], imageUrl := None, notification := RequestNotification(false, None, None), decision := None,
            decisions := [], callbackUrl := None, requestDigest := None, options := [PROJECTED_OPTION])
  }

  /** A projection tells nothing of what a client that cannot answer must not show or act
      on: it is the same whatever the card's answer field, texts below the title, lists,
      picture, notification, decisions, callback, digest and options are. */
  lemma ProjectionTellsNothing(r: Request, other: Request)
    requires r.answerField.Some? && other.answerField.Some?
    requires r == other.(answerField := r.answerField, summary := r.summary, bodyMarkdown := r.bodyMarkdown,
                         fields := r.fields, links := r.links, imageUrl := r.imageUrl, notification := r.notification,
                         decision := r.decision, decisions := r.decisions, callbackUrl := r.callbackUrl,
                         requestDigest := r.requestDigest, options := r.options)
    ensures LegacyValueProjection(r) == LegacyValueProjection(other)
    ensures var q := LegacyValueProjection(r);
            && q.id == r.id && q.title == r.title && q.channelId == r.channelId && q.status == r.status
            && q.signing == r.signing && q.updatedAt == r.updatedAt && q.answerField.None?
            && |q.options| == 1 && q.options[0].id == "__nod_value_open" && q.options[0].kind == Custom
  {
  }

  /** When a projection can be signed at all: its context would have to hold the
      digest of an ordinary card. */
  lemma ProjectionSignableIff(p: Primitives, r: Request, a: Ask)
    requires r.answerField.Some? && a.request == LegacyValueProjection(r)
    ensures Prepare(p, a).Ok? <==>
              && r.signing.Some?
              && (r.signing.value.version == TAG_V1 || r.signing.value.version == TAG_V2)
              && IsCommitment(r.signing.value.recipientsCommitment)
              && r.signing.value.requestDigest
                 == p.sha(StructuredText(p, a.request, r.signing.value.recipientsCommitment, r.signing.value.version))
              && a.expected == Some(r.signing.value.requestDigest) && a.expected != Some("")
              && a.answer.None? && a.optionId == PROJECTED_OPTION.id
  {
    hide StructuredText, ValueText, LineText, IsCommitment, PayloadV1, TrimmedText;
    assert a.request.options[0] == PROJECTED_OPTION && a.request.options[1..] == [];
    assert FindOption(a.request.options[1..], a.optionId) == None;
    assert OptionFor(a.request, a.optionId).Ok? <==> a.optionId == PROJECTED_OPTION.id;
    hide OptionFor, FindOption;
  }

  /** SHA-256 has no collision among these texts. */
  ghost predicate NoCollision(p: Primitives, texts: set<string>) {
    forall s, t :: s in texts && t in texts && p.sha(s) == p.sha(t) ==> s == t
  }

  ghost predicate Collide(p: Primitives, s: string, t: string) {
    s != t && p.sha(s) == p.sha(t)
  }

  /** The projection of a value card whose context holds the digest of the card
      under a value encoder, whatever tag it carries, is never signed: no option,
      answer, text or expected digest makes the signer accept it. */
  lemma ProjectionNeverSigned(p: Primitives, r: Request, e: DigestEncoder, a: Ask)
    requires r.answerField.Some? && r.signing.Some? && (e == Value || e == LegacyValue)
    requires r.signing.value.requestDigest == p.sha(TextOf(e, p, r))
    requires a.request == LegacyValueProjection(r)
    requires !Collide(p, TextOf(e, p, r), TextOf(Structured, p, a.request))
    requires !Collide(p, TextOf(e, p, r), TextOf(LegacyStructured, p, a.request))
    ensures Prepare(p, a).Err?
  {
    var (c, q) := (CommitmentOf(r), a.request);
    ProjectionSignableIff(p, r, a);
    hide Prepare, StructuredText, ValueText, LineText, IsCommitment;
    forall f | f == Structured || f == LegacyStructured
      ensures r.signing.value.requestDigest != p.sha(StructuredText(p, q, c, Version(f)))
    {
      if TextOf(e, p, r) == TextOf(f, p, q) { EncodersDisjoint(p, e, r, c, FieldOf(r), f, q, c, FieldOf(q)); }
    }
    assert Version(Structured) == TAG_V1 && Version(LegacyStructured) == TAG_V2;
  }
}
