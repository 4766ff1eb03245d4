/** The five request digest encoders. SHA-256 and RFC 3339 formatting are
    parameters of every function; what an encoder hashes is written out. */
module Digests {
  import opened Common
  import opened Requests
  import opened Json
  import opened CanonicalJson
  import opened Answers

  /** Library primitives: SHA-256 in lower-case hex, RFC 3339 with millisecond
      precision in UTC, its parser, and P-256 verification of
      (public key, payload, signature), which returns what is wrong, if anything. */
  datatype Primitives = Primitives(
    sha: string -> string,
    format: Instant -> string,
    parse: string -> Option<Instant>,
    verify: (string, string, string) -> Option<SigningError>)

  datatype SigningError =
    | InvalidRecipientCommitment
    | InvalidValue(reason: string)
    | InvalidPublicKey
    | InvalidSignatureEncoding
    | SignatureMismatch

  datatype DigestEncoder = Structured | Value | LegacyLineSnapshot | LegacyStructured | LegacyValue

  const TAG_V1 := "nod-request-v1"
  const TAG_V2 := "nod-request-v2"
  const TAG_V3 := "nod-request-v3"

  /** The version tag an encoder writes first. Two tags are shared. */
  function Version(e: DigestEncoder): string {
    match e
    case Structured | LegacyLineSnapshot => TAG_V1
    case Value | LegacyStructured => TAG_V2
    case LegacyValue => TAG_V3
  }

  function KindName(k: OptionKind): string {
    match k
    case Approve => "approve"
    case ApproveWithText => "approve_with_text"
    case Reject => "reject"
    case RejectWithText => "reject_with_text"
    case Dismiss => "dismiss"
    case Open => "open"
    case Custom => "custom"
  }

  function ResolutionName(d: DecisionResolution): string {
    if d.Shared? then "shared" else "per_user"
  }

  // ----- Content as JSON; object maps iterate in key order -----

  function OptStr(o: Option<string>): Json {
    if o.Some? then Str(o.value) else Null
  }

  function OptTime(p: Primitives, o: Option<Instant>): Json {
    if o.Some? then Str(p.format(o.value)) else Null
  }

  function CardFieldJson(f: CardField): Json {
    Obj([Member("label", Str(f.labelText)), Member("style", OptStr(f.style)), Member("value", Str(f.value))])
  }

  function CardLinkJson(l: CardLink): Json {
    Obj([Member("label", Str(l.labelText)), Member("url", Str(l.url))])
  }

  function OptionJson(o: RequestOption): Json {
    Obj([Member("destructive", Bool(o.destructive)), Member("foreground", Bool(o.foreground)),
         Member("id", Str(o.id)), Member("kind", Str(KindName(o.kind))), Member("label", Str(o.labelText)),
         Member("requires_text", Bool(o.requiresText)), Member("style", Str(o.style)),
         Member("text_placeholder", OptStr(o.textPlaceholder))])
  }

  function NotificationJson(n: RequestNotification): Json {
    Obj([Member("body", OptStr(n.body)), Member("redact", Bool(n.redact)), Member("title", OptStr(n.title))])
  }

  function Fields(fs: seq<CardField>): Json {
    Arr(seq(|fs|, i requires 0 <= i < |fs| => CardFieldJson(fs[i])))
  }

  function Links(ls: seq<CardLink>): Json {
    Arr(seq(|ls|, i requires 0 <= i < |ls| => CardLinkJson(ls[i])))
  }

  function Options(os: seq<RequestOption>): Json {
    Arr(seq(|os|, i requires 0 <= i < |os| => OptionJson(os[i])))
  }

  /** The members both structured encoders share. */
  function ContentMembers(p: Primitives, r: Request, commitment: string): (ms: seq<Member>)
    ensures |ms| == 16
  {
    [Member("body_markdown", Str(r.bodyMarkdown)),
     Member("callback_url", OptStr(r.callbackUrl)),
     Member("channel_id", Str(r.channelId)),
     Member("created_at", Str(p.format(r.createdAt))),
     Member("decision_resolution", Str(ResolutionName(r.decisionResolution))),
     Member("dedupe_key", OptStr(r.dedupeKey)),
     Member("expires_at", OptTime(p, r.expiresAt)),
     Member("fields", Fields(r.fields)),
     Member("image_url", OptStr(r.imageUrl)),
     Member("links", Links(r.links)),
     Member("notification", NotificationJson(r.notification)),
     Member("options", Options(r.options)),
     Member("recipients_commitment", Str(commitment)),
     Member("request_id", Str(r.id)),
     Member("summary", Str(r.summary)),
     Member("title", Str(r.title))]
  }

  function Content(p: Primitives, r: Request, commitment: string): Json {
    Obj(ContentMembers(p, r, commitment))
  }

  function ValueContent(p: Primitives, r: Request, commitment: string, field: AnswerField): Json {
    Obj([Member("answer_field", FieldJson(field))] + ContentMembers(p, r, commitment))
  }

  // ----- Pre-hash texts -----

  function StructuredText(p: Primitives, r: Request, commitment: string, version: string): string {
    version + "\n" + Text(Content(p, r, commitment)) + "\n"
  }

  function ValueText(p: Primitives, r: Request, commitment: string, field: AnswerField, version: string): string {
    version + "\n" + CanonicalText(ValueContent(p, r, commitment, field)) + "\n"
  }

  function Joined(parts: seq<string>, separator: string): string {
    if parts == [] then ""
    else if |parts| == 1 then parts[0]
    else parts[0] + separator + Joined(parts[1..], separator)
  }

  /** The card fields and links as `serde` writes the structs themselves. */
  function StructFields(fs: seq<CardField>): Json {
    Arr(seq(|fs|, i requires 0 <= i < |fs| =>
      Obj([Member("label", Str(fs[i].labelText)), Member("value", Str(fs[i].value)),
           Member("style", OptStr(fs[i].style))])))
  }

  /** Each part on a line of its own. */
  function Lines(parts: seq<string>): string {
    if parts == [] then "" else parts[0] + "\n" + Lines(parts[1..])
  }

  function LineParts(p: Primitives, r: Request): seq<string> {
    [ TAG_V1,
      "request_id:" + r.id,
      "channel_id:" + r.channelId,
      "recipients:" + Joined(r.recipients, ","),
      "decision_resolution:" + ResolutionName(r.decisionResolution),
      "title_sha256:" + p.sha(r.title),
      "summary_sha256:" + p.sha(r.summary),
      "body_markdown_sha256:" + p.sha(r.bodyMarkdown),
      "fields_sha256:" + p.sha(Text(StructFields(r.fields))),
      "links_sha256:" + p.sha(Text(Links(r.links))),
      "image_url:" + (if r.imageUrl.Some? then r.imageUrl.value else ""),
      "dedupe_key:" + (if r.dedupeKey.Some? then r.dedupeKey.value else ""),
      "expires_at:" + (if r.expiresAt.Some? then p.format(r.expiresAt.value) else ""),
      "created_at:" + p.format(r.createdAt),
      "options_sha256:" + p.sha(Text(Options(r.options)))]
  }

  function LineText(p: Primitives, r: Request): string {
    Lines(LineParts(p, r))
  }

  /** What an encoder hashes. */
  function PreHash(e: DigestEncoder, p: Primitives, r: Request, commitment: string, field: AnswerField): string {
    match e
    case LegacyLineSnapshot => LineText(p, r)
    case Structured | LegacyStructured => StructuredText(p, r, commitment, Version(e))
    case Value | LegacyValue => ValueText(p, r, commitment, field, Version(e))
  }

  // ----- Digests -----

  predicate IsHexDigit(c: char) {
    '0' <= c <= '9' || 'a' <= c <= 'f' || 'A' <= c <= 'F'
  }

  predicate IsCommitment(s: string) {
    |s| == 64 && forall i :: 0 <= i < |s| ==> IsHexDigit(s[i])
  }

  /** A commitment is 64 hexadecimal digits of either case. */
  lemma CommitmentIff(s: string)
    ensures IsCommitment(s) <==> |s| == 64 && forall i :: 0 <= i < |s| ==> s[i] in "0123456789abcdefABCDEF"
  {
    forall c: char ensures IsHexDigit(c) <==> c in "0123456789abcdefABCDEF" { HexDigitIff(c); }
  }

  lemma HexDigitIff(c: char)
    ensures IsHexDigit(c) <==> c in "0123456789abcdefABCDEF"
  {
    var s := "0123456789abcdefABCDEF";
    if '0' <= c <= '9' { assert s[c as int - '0' as int] == c; }
    if 'a' <= c <= 'f' { assert s[10 + c as int - 'a' as int] == c; }
    if 'A' <= c <= 'F' { assert s[16 + c as int - 'A' as int] == c; }
  }

  function LineDigest(p: Primitives, r: Request): string {
    p.sha(LineText(p, r))
  }

  function StructuredDigest(p: Primitives, r: Request, commitment: string, version: string)
    : Result<string, SigningError>
  {
    if !IsCommitment(commitment) then Err(InvalidRecipientCommitment)
    else Ok(p.sha(StructuredText(p, r, commitment, version)))
  }

  function ValueDigest(p: Primitives, r: Request, commitment: string, field: AnswerField, version: string)
    : Result<string, SigningError>
  {
    if !IsCommitment(commitment) then Err(InvalidRecipientCommitment)
    else if !ValidField(field) then Err(InvalidValue("invalid answer definition"))
    else if FirstError(Canon(ValueContent(p, r, commitment, field))).Some? then Err(InvalidValue("not canonical"))
    else Ok(p.sha(ValueText(p, r, commitment, field, version)))
  }

  /** `request_digest_for_version`: `None` for an unknown tag. */
  function RequestDigestForVersion(p: Primitives, r: Request, version: string, commitment: string)
    : Result<Option<string>, SigningError>
  {
    if version == TAG_V1 then
      var d :- StructuredDigest(p, r, commitment, TAG_V1);
      Ok(Some(d))
    else if version == TAG_V2 then
      var d :- StructuredDigest(p, r, commitment, TAG_V2);
      Ok(Some(d))
    else Ok(None)
  }

  /** `value_request_digest_for_version`. */
  function ValueDigestForVersion(p: Primitives, r: Request, version: string, commitment: string, field: AnswerField)
    : Result<Option<string>, SigningError>
  {
    if version == TAG_V2 then
      var d :- ValueDigest(p, r, commitment, field, TAG_V2);
      Ok(Some(d))
    else if version == TAG_V3 then
      var d :- ValueDigest(p, r, commitment, field, TAG_V3);
      Ok(Some(d))
    else Ok(None)
  }

  // ----- Canonical content -----

  /** Ascending neighbours make ascending members. */
  lemma {:induction false} NeighboursAscend(ms: seq<Member>)
    requires forall i :: 0 <= i < |ms| - 1 ==> Less(ms[i].key, ms[i + 1].key)
    ensures AscendingMembers(ms)
  {
    forall i, j | 0 <= i < j < |ms| ensures Less(ms[i].key, ms[j].key) {
      NeighboursReach(ms, i, j);
    }
  }

  lemma {:induction false} NeighboursReach(ms: seq<Member>, i: nat, j: nat)
    requires forall i :: 0 <= i < |ms| - 1 ==> Less(ms[i].key, ms[i + 1].key)
    requires i < j < |ms|
    ensures Less(ms[i].key, ms[j].key)
  {
    if j > i + 1 {
      NeighboursReach(ms, i, j - 1);
      LessTransitive(ms[i].key, ms[j - 1].key, ms[j].key);
    }
  }

  /** Everything the encoders print is sorted, float free and ASCII keyed. */
  ghost predicate Plain(v: Json) {
    Ascending(v) && FloatFree(v) && AsciiKeys(v)
  }

  lemma PlainObj(ms: seq<Member>)
    requires forall i :: 0 <= i < |ms| ==> Plain(ms[i].value) && IsAscii(ms[i].key)
    requires forall i :: 0 <= i < |ms| - 1 ==> Less(ms[i].key, ms[i + 1].key)
    ensures Plain(Obj(ms))
  {
    NeighboursAscend(ms);
  }

  lemma PlainArr(items: seq<Json>)
    requires forall i :: 0 <= i < |items| ==> Plain(items[i])
    ensures Plain(Arr(items))
  {
  }

  lemma PlainLeaf(v: Json)
    requires v.Str? || v.Null? || v.Bool? || v.Number?
    ensures Plain(v)
  {
  }

  lemma LeafObj(ms: seq<Member>)
    requires forall i :: 0 <= i < |ms| ==>
               (ms[i].value.Str? || ms[i].value.Null? || ms[i].value.Bool?) && IsAscii(ms[i].key)
    requires forall i :: 0 <= i < |ms| - 1 ==> Less(ms[i].key, ms[i + 1].key)
    ensures Plain(Obj(ms))
  {
    hide Less, IsAscii;
    forall i | 0 <= i < |ms| ensures Plain(ms[i].value) { PlainLeaf(ms[i].value); }
    PlainObj(ms);
  }

  lemma PlainNotification(n: RequestNotification)
    ensures Plain(NotificationJson(n))
  {
    LeafObj(NotificationJson(n).members);
  }

  lemma PlainFields(fs: seq<CardField>)
    ensures Plain(Fields(fs))
  {
    forall i | 0 <= i < |fs| ensures Plain(CardFieldJson(fs[i])) { LeafObj(CardFieldJson(fs[i]).members); }
  }

  lemma PlainLinks(ls: seq<CardLink>)
    ensures Plain(Links(ls))
  {
    forall i | 0 <= i < |ls| ensures Plain(CardLinkJson(ls[i])) { LeafObj(CardLinkJson(ls[i]).members); }
  }

  lemma PlainOption(o: RequestOption)
    ensures Plain(OptionJson(o))
  {
    OptionKeys(o);
    hide Less, IsAscii;
    LeafObj(OptionJson(o).members);
  }

  lemma OptionKeys(o: RequestOption)
    ensures var ms := OptionJson(o).members;
            && (forall i :: 0 <= i < |ms| ==> IsAscii(ms[i].key))
            && (forall i :: 0 <= i < |ms| - 1 ==> Less(ms[i].key, ms[i + 1].key))
  {
    OptionKeyOrder();
    OptionKeysAscii();
    hide Less, IsAscii;
  }

  lemma OptionKeyOrder()
    ensures Less("destructive", "foreground") && Less("foreground", "id") && Less("id", "kind") && Less("kind", "label")
    ensures Less("label", "requires_text") && Less("requires_text", "style") && Less("style", "text_placeholder")
  {
  }

  lemma OptionKeysAscii()
    ensures IsAscii("destructive") && IsAscii("foreground") && IsAscii("id") && IsAscii("kind") && IsAscii("label")
    ensures IsAscii("requires_text") && IsAscii("style") && IsAscii("text_placeholder")
  {
  }

  lemma PlainOptions(os: seq<RequestOption>)
    ensures Plain(Options(os))
  {
    forall i | 0 <= i < |os| ensures Plain(OptionJson(os[i])) { PlainOption(os[i]); }
  }

  lemma PlainValue(v: AnswerValue)
    ensures Plain(ValueJson(v))
  {
    LeafObj(ValueJson(v).members);
  }

  lemma PlainChoice(c: AnswerChoice)
    ensures Plain(ChoiceJson(c))
  {
    LeafObj(ChoiceJson(c).members);
  }

  lemma PlainField(f: AnswerField)
    ensures Plain(FieldJson(f))
  {
    PlainValue(f.default);
    PlainLeaf(Str(f.labelText));
    var ms := FieldJson(f).members;
    if f.ChoiceField? {
      forall i | 0 <= i < |f.choices| ensures Plain(ChoiceJson(f.choices[i])) { PlainChoice(f.choices[i]); }
      PlainArr(ms[0].value.items);
      PlainLeaf(Str("choice"));
    } else {
      PlainLeaf(ms[1].value);
    }
    FieldKeys(f);
    PlainObj(ms);
  }

  lemma FieldKeys(f: AnswerField)
    ensures var ms := FieldJson(f).members;
            && (forall i :: 0 <= i < |ms| ==> IsAscii(ms[i].key))
            && (forall i :: 0 <= i < |ms| - 1 ==> Less(ms[i].key, ms[i + 1].key))
  {
    assert Less("choices", "default") && Less("default", "kind") && Less("kind", "label");
  }

  lemma KeyOrder()
    ensures Less("answer_field", "body_markdown") && Less("body_markdown", "callback_url")
    ensures Less("callback_url", "channel_id") && Less("channel_id", "created_at")
    ensures Less("created_at", "decision_resolution")
  {
  }

  lemma KeyOrderMiddle()
    ensures Less("decision_resolution", "dedupe_key")
    ensures Less("dedupe_key", "expires_at") && Less("expires_at", "fields") && Less("fields", "image_url")
    ensures Less("image_url", "links") && Less("links", "notification") && Less("notification", "options")
  {
  }

  lemma KeyOrderEnd()
    ensures Less("options", "recipients_commitment") && Less("recipients_commitment", "request_id")
    ensures Less("request_id", "summary") && Less("summary", "title")
  {
  }

  lemma ContentKeyOrder(p: Primitives, r: Request, commitment: string)
    ensures var ms := ContentMembers(p, r, commitment);
            && (forall i :: 0 <= i < |ms| - 1 ==> Less(ms[i].key, ms[i + 1].key))
            && Less("answer_field", ms[0].key)
  {
    hide Less;
    KeyOrder();
    KeyOrderMiddle();
    KeyOrderEnd();
  }

  lemma ContentKeysAscii(p: Primitives, r: Request, commitment: string)
    ensures var ms := ContentMembers(p, r, commitment);
            forall i :: 0 <= i < |ms| ==> IsAscii(ms[i].key)
  {
    AsciiNames();
    AsciiNamesEnd();
    hide IsAscii;
  }

  lemma AsciiNames()
    ensures IsAscii("body_markdown") && IsAscii("callback_url") && IsAscii("channel_id") && IsAscii("created_at")
    ensures IsAscii("decision_resolution") && IsAscii("dedupe_key") && IsAscii("expires_at") && IsAscii("fields")
  {
  }

  lemma AsciiNamesEnd()
    ensures IsAscii("image_url") && IsAscii("links") && IsAscii("notification") && IsAscii("options")
    ensures IsAscii("recipients_commitment") && IsAscii("request_id") && IsAscii("summary") && IsAscii("title")
  {
  }

  lemma ContentValues(p: Primitives, r: Request, commitment: string)
    ensures var ms := ContentMembers(p, r, commitment);
            forall i :: 0 <= i < |ms| ==> Plain(ms[i].value)
  {
    PlainFields(r.fields);
    PlainLinks(r.links);
    PlainOptions(r.options);
    PlainNotification(r.notification);
    hide Fields, Links, Options, NotificationJson, Plain;
    var ms := ContentMembers(p, r, commitment);
    forall i | 0 <= i < |ms| ensures Plain(ms[i].value) {
      if ms[i].value.Str? || ms[i].value.Null? { PlainLeaf(ms[i].value); }
    }
  }

  lemma ContentPlain(p: Primitives, r: Request, commitment: string)
    ensures Plain(Content(p, r, commitment))
  {
    var ms := ContentMembers(p, r, commitment);
    ContentKeyOrder(p, r, commitment);
    ContentKeysAscii(p, r, commitment);
    ContentValues(p, r, commitment);
    hide ContentMembers, Plain, Less, IsAscii;
    PlainObj(ms);
  }

  lemma ValueContentPlain(p: Primitives, r: Request, commitment: string, field: AnswerField)
    ensures Plain(ValueContent(p, r, commitment, field))
  {
    var ms := ContentMembers(p, r, commitment);
    ContentKeyOrder(p, r, commitment);
    ContentKeysAscii(p, r, commitment);
    ContentValues(p, r, commitment);
    PlainField(field);
    assert IsAscii("answer_field");
    hide ContentMembers, FieldJson, Plain, Less, IsAscii;
    PlainObj([Member("answer_field", FieldJson(field))] + ms);
  }

  /** The value encoder never fails on its content, and prints it as it stands. */
  lemma ValueContentPrints(p: Primitives, r: Request, commitment: string, field: AnswerField)
    ensures FirstError(Canon(ValueContent(p, r, commitment, field))).None?
    ensures CanonicalText(ValueContent(p, r, commitment, field)) == Text(ValueContent(p, r, commitment, field))
  {
    var v := ValueContent(p, r, commitment, field);
    ValueContentPlain(p, r, commitment, field);
    hide ValueContent;
    CanonFixed(v);
    CanonicalSucceedsIff(v);
  }

  // ----- The encoders never meet -----

  /** A printed object starts with its first key. */
  lemma ObjTextStart(ms: seq<Member>, c: char, more: string)
    requires ms != [] && ms[0].key == [c] + more && Escape(c) == [c]
    ensures |Text(Obj(ms))| >= 3 && Text(Obj(ms))[..3] == ['{', '"', c]
  {
    var key := ms[0].key;
    assert EscapeAll(key)[0] == c by {
      assert key[0] == c;
      assert EscapeAll(key) == Escape(c) + EscapeAll(key[1..]);
    }
    var q := Quote(key);
    assert q[0] == '"' && q[1] == c;
    assert MemberText(ms[0])[0] == '"' && MemberText(ms[0])[1] == c;
    assert MembersText(ms)[0] == '"' && MembersText(ms)[1] == c;
    assert Text(Obj(ms)) == "{" + MembersText(ms) + "}";
  }

  /** The tag, and the three characters after it that tell the encoders apart. */
  function Signature(e: DigestEncoder): string {
    Version(e) + "\n" +
    match e
    case LegacyLineSnapshot => "req"
    case Structured | LegacyStructured => ['{', '"', 'b']
    case Value | LegacyValue => ['{', '"', 'a']
  }

  lemma ContentTextStarts(p: Primitives, r: Request, commitment: string, field: AnswerField)
    ensures ['{', '"', 'b'] <= Text(Content(p, r, commitment))
    ensures ['{', '"', 'a'] <= CanonicalText(ValueContent(p, r, commitment, field))
  {
    ValueContentPrints(p, r, commitment, field);
    var ms := ContentMembers(p, r, commitment);
    assert ms[0].key == "body_markdown" == ['b'] + "ody_markdown";
    assert "answer_field" == ['a'] + "nswer_field";
    hide ContentMembers, FieldJson, CanonicalText, Text;
    ObjTextStart(ms, 'b', "ody_markdown");
    ObjTextStart([Member("answer_field", FieldJson(field))] + ms, 'a', "nswer_field");
  }

  lemma PrefixAfter(head: string, a: string, b: string, tail: string)
    requires a <= b
    ensures head + a <= head + b + tail
  {
  }

  lemma PreHashStarts(e: DigestEncoder, p: Primitives, r: Request, commitment: string, field: AnswerField)
    ensures Signature(e) <= PreHash(e, p, r, commitment, field)
  {
    ContentTextStarts(p, r, commitment, field);
    hide Text, CanonicalText;
    match e
    case LegacyLineSnapshot => LineTextStart(p, r);
    case Structured | LegacyStructured =>
      PrefixAfter(Version(e) + "\n", ['{', '"', 'b'], Text(Content(p, r, commitment)), "\n");
    case Value | LegacyValue =>
      PrefixAfter(Version(e) + "\n", ['{', '"', 'a'], CanonicalText(ValueContent(p, r, commitment, field)), "\n");
  }

  lemma LinesStart(parts: seq<string>)
    requires |parts| >= 2
    ensures Lines(parts) == parts[0] + "\n" + (parts[1] + "\n" + Lines(parts[2..]))
  {
    assert parts[1..][1..] == parts[2..];
  }

  lemma LineTextStart(p: Primitives, r: Request)
    ensures TAG_V1 + "\n" + "req" <= LineText(p, r)
  {
    var parts := LineParts(p, r);
    assert parts[0] == TAG_V1 && parts[1] == "request_id:" + r.id;
    LinesStart(parts);
    hide LineParts, Lines;
    assert "req" <= parts[1];
  }

  /** Different encoders never hash the same text, whatever requests,
      commitments and answer fields they are given. */
  lemma EncodersDisjoint(p: Primitives, e1: DigestEncoder, r1: Request, c1: string, f1: AnswerField,
                         e2: DigestEncoder, r2: Request, c2: string, f2: AnswerField)
    requires PreHash(e1, p, r1, c1, f1) == PreHash(e2, p, r2, c2, f2)
    ensures e1 == e2
  {
    PreHashStarts(e1, p, r1, c1, f1);
    PreHashStarts(e2, p, r2, c2, f2);
    SignaturesDiffer(e1, e2);
  }

  lemma SignaturesDiffer(e1: DigestEncoder, e2: DigestEncoder)
    ensures |Signature(e1)| == |Signature(e2)| == 18
    ensures Signature(e1) == Signature(e2) ==> e1 == e2
  {
    assert Signature(e1)[13] == Version(e1)[13] && Signature(e2)[13] == Version(e2)[13];
    assert Signature(e1)[15..] == (match e1
      case LegacyLineSnapshot => "req"
      case Structured | LegacyStructured => ['{', '"', 'b']
      case Value | LegacyValue => ['{', '"', 'a']);
    assert Signature(e2)[15..] == (match e2
      case LegacyLineSnapshot => "req"
      case Structured | LegacyStructured => ['{', '"', 'b']
      case Value | LegacyValue => ['{', '"', 'a']);
  }

  // ----- What a structured digest commits to -----

  /** Equality of everything the structured encoders cover; instants are equal
      to the millisecond. */
  ghost predicate SameContent(p: Primitives, a: Request, b: Request) {
    && a.id == b.id && a.channelId == b.channelId
    && a.decisionResolution == b.decisionResolution
    && a.title == b.title && a.summary == b.summary && a.bodyMarkdown == b.bodyMarkdown
    && a.fields == b.fields && a.links == b.links && a.options == b.options
    && a.imageUrl == b.imageUrl && a.notification == b.notification
    && a.dedupeKey == b.dedupeKey && a.callbackUrl == b.callbackUrl
    && p.format(a.createdAt) == p.format(b.createdAt)
    && OptTime(p, a.expiresAt) == OptTime(p, b.expiresAt)
  }

  lemma KindNameInjective(a: OptionKind, b: OptionKind)
    requires KindName(a) == KindName(b)
    ensures a == b
  {
    assert |KindName(a)| == |KindName(b)| && KindName(a)[0] == KindName(b)[0];
  }

  lemma OptionJsonInjective(a: RequestOption, b: RequestOption)
    requires OptionJson(a) == OptionJson(b)
    ensures a == b
  {
    var ms, ns := OptionJson(a).members, OptionJson(b).members;
    assert ms[0] == ns[0] && ms[1] == ns[1] && ms[2] == ns[2] && ms[3] == ns[3];
    assert ms[4] == ns[4] && ms[5] == ns[5] && ms[6] == ns[6] && ms[7] == ns[7];
    KindNameInjective(a.kind, b.kind);
  }

  lemma CardFieldJsonInjective(a: CardField, b: CardField)
    requires CardFieldJson(a) == CardFieldJson(b)
    ensures a == b
  {
    var ms, ns := CardFieldJson(a).members, CardFieldJson(b).members;
    assert ms[0] == ns[0] && ms[1] == ns[1] && ms[2] == ns[2];
  }

  lemma CardLinkJsonInjective(a: CardLink, b: CardLink)
    requires CardLinkJson(a) == CardLinkJson(b)
    ensures a == b
  {
    var ms, ns := CardLinkJson(a).members, CardLinkJson(b).members;
    assert ms[0] == ns[0] && ms[1] == ns[1];
  }

  lemma NotificationJsonInjective(a: RequestNotification, b: RequestNotification)
    requires NotificationJson(a) == NotificationJson(b)
    ensures a == b
  {
    var ms, ns := NotificationJson(a).members, NotificationJson(b).members;
    assert ms[0] == ns[0] && ms[1] == ns[1] && ms[2] == ns[2];
  }

  lemma ListsInjective(a: Request, b: Request)
    requires Fields(a.fields) == Fields(b.fields) && Links(a.links) == Links(b.links)
    requires Options(a.options) == Options(b.options)
    ensures a.fields == b.fields && a.links == b.links && a.options == b.options
  {
    assert |Fields(a.fields).items| == |a.fields| && |Fields(b.fields).items| == |b.fields|;
    assert |Links(a.links).items| == |a.links| && |Links(b.links).items| == |b.links|;
    assert |Options(a.options).items| == |a.options| && |Options(b.options).items| == |b.options|;
    forall i | 0 <= i < |a.fields| ensures a.fields[i] == b.fields[i] {
      assert Fields(a.fields).items[i] == Fields(b.fields).items[i];
      CardFieldJsonInjective(a.fields[i], b.fields[i]);
    }
    forall i | 0 <= i < |a.links| ensures a.links[i] == b.links[i] {
      assert Links(a.links).items[i] == Links(b.links).items[i];
      CardLinkJsonInjective(a.links[i], b.links[i]);
    }
    forall i | 0 <= i < |a.options| ensures a.options[i] == b.options[i] {
      assert Options(a.options).items[i] == Options(b.options).items[i];
      OptionJsonInjective(a.options[i], b.options[i]);
    }
  }

  lemma ContentMembersInjective(p: Primitives, a: Request, c: string, b: Request, d: string)
    requires ContentMembers(p, a, c) == ContentMembers(p, b, d)
    ensures SameContent(p, a, b) && c == d
  {
    var ms, ns := ContentMembers(p, a, c), ContentMembers(p, b, d);
    assert ms[0] == ns[0] && ms[1] == ns[1] && ms[2] == ns[2] && ms[3] == ns[3];
    assert ms[4] == ns[4] && ms[5] == ns[5] && ms[6] == ns[6] && ms[7] == ns[7];
    assert ms[8] == ns[8] && ms[9] == ns[9] && ms[10] == ns[10] && ms[11] == ns[11];
    assert ms[12] == ns[12] && ms[13] == ns[13] && ms[14] == ns[14] && ms[15] == ns[15];
    assert ms[4].value == Str(ResolutionName(a.decisionResolution));
    assert |ResolutionName(a.decisionResolution)| == |ResolutionName(b.decisionResolution)|;
    hide Fields, Links, Options, NotificationJson;
    ListsInjective(a, b);
    NotificationJsonInjective(a.notification, b.notification);
  }

  lemma SamePadding(head: string, a: string, b: string, tail: string)
    requires head + a + tail == head + b + tail
    ensures a == b
  {
    assert (head + a + tail)[|head|..|head| + |a|] == a;
    assert (head + b + tail)[|head|..|head| + |b|] == b;
  }

  /** Except for the line snapshot, equal pre-hash texts come from equal content,
      commitment and answer field. */
  lemma PreHashInjective(e: DigestEncoder, p: Primitives, a: Request, c: string, f: AnswerField,
                         b: Request, d: string, g: AnswerField)
    requires e != LegacyLineSnapshot && PreHash(e, p, a, c, f) == PreHash(e, p, b, d, g)
    ensures SameContent(p, a, b) && c == d && (e.Value? || e.LegacyValue? ==> f == g)
  {
    hide Text, CanonicalText, ContentMembers, SameContent;
    if e.Structured? || e.LegacyStructured? {
      var v, w := Content(p, a, c), Content(p, b, d);
      SamePadding(Version(e) + "\n", Text(v), Text(w), "\n");
      ContentPlain(p, a, c);
      ContentPlain(p, b, d);
      TextInjective(v, w);
      ContentMembersInjective(p, a, c, b, d);
    } else {
      var v, w := ValueContent(p, a, c, f), ValueContent(p, b, d, g);
      SamePadding(Version(e) + "\n", CanonicalText(v), CanonicalText(w), "\n");
      ValueContentPlain(p, a, c, f);
      ValueContentPlain(p, b, d, g);
      ValueContentPrints(p, a, c, f);
      ValueContentPrints(p, b, d, g);
      TextInjective(v, w);
      assert v.members[0] == w.members[0];
      assert v.members[1..] == ContentMembers(p, a, c) && w.members[1..] == ContentMembers(p, b, d);
      FieldJsonInjective(f, g);
      ContentMembersInjective(p, a, c, b, d);
    }
  }
}
