/** What a reader of the hashed and signed texts finds under each name, whatever the
    values are. */
module Wire {
  import opened Common
  import opened Requests
  import opened Json
  import opened CanonicalJson
  import opened Answers
  import opened Texts
  import opened Digests
  import opened Payloads
  import Decimal

  /** The first member of the name. */
  function Named(ms: seq<Member>, name: string): Option<Json> {
    if ms == [] then None
    else if ms[0].key == name then Some(ms[0].value)
    else Named(ms[1..], name)
  }

  /** Where keys ascend, every member is found under its own. */
  lemma {:induction false} NamedAt(ms: seq<Member>, i: nat)
    requires AscendingMembers(ms) && i < |ms|
    ensures Named(ms, ms[i].key) == Some(ms[i].value)
  {
    LessIrreflexive(ms[i].key);
    if i > 0 {
      assert AscendingMembers(ms[1..]);
      NamedAt(ms[1..], i - 1);
    }
  }

  lemma AllNamed(ms: seq<Member>)
    requires AscendingMembers(ms)
    ensures forall i :: 0 <= i < |ms| ==> Named(ms, ms[i].key) == Some(ms[i].value)
  {
    forall i | 0 <= i < |ms| ensures Named(ms, ms[i].key) == Some(ms[i].value) {
      NamedAt(ms, i);
    }
  }

  lemma MembersAscend(v: Json)
    requires Plain(v) && v.Obj?
    ensures AscendingMembers(v.members)
  {
  }

  /** `OptionKind::from`: the name of a kind, or any other for a custom one. */
  function KindFrom(name: string): OptionKind {
    if name == "approve" then Approve
    else if name == "approve_with_text" then ApproveWithText
    else if name == "reject" then Reject
    else if name == "reject_with_text" then RejectWithText
    else if name == "dismiss" then Dismiss
    else if name == "open" then Open
    else Custom
  }

  lemma KindRoundTrip(k: OptionKind)
    ensures KindFrom(KindName(k)) == k && (k == Custom ==> KindName(k) == "custom")
  {
  }

  /** A reader of the content both structured encoders hash finds each of the card's
      fields under its name. */
  lemma ContentReads(p: Primitives, r: Request, commitment: string)
    ensures var ms := ContentMembers(p, r, commitment);
            && Named(ms, "body_markdown") == Some(Str(r.bodyMarkdown))
            && Named(ms, "callback_url") == Some(if r.callbackUrl.Some? then Str(r.callbackUrl.value) else Null)
            && Named(ms, "channel_id") == Some(Str(r.channelId))
            && Named(ms, "created_at") == Some(Str(p.format(r.createdAt)))
            && Named(ms, "decision_resolution")
               == Some(Str(match r.decisionResolution case Shared => "shared" case PerUser => "per_user"))
            && Named(ms, "dedupe_key") == Some(if r.dedupeKey.Some? then Str(r.dedupeKey.value) else Null)
            && Named(ms, "expires_at") == Some(if r.expiresAt.Some? then Str(p.format(r.expiresAt.value)) else Null)
            && Named(ms, "image_url") == Some(if r.imageUrl.Some? then Str(r.imageUrl.value) else Null)
            && Named(ms, "recipients_commitment") == Some(Str(commitment))
            && Named(ms, "request_id") == Some(Str(r.id))
            && Named(ms, "summary") == Some(Str(r.summary)) && Named(ms, "title") == Some(Str(r.title))
  {
    FirstHalfReads(p, r, commitment);
    SecondHalfReads(p, r, commitment);
    hide *;
  }

  lemma FirstHalfReads(p: Primitives, r: Request, commitment: string)
    ensures var ms := ContentMembers(p, r, commitment);
            && Named(ms, "body_markdown") == Some(Str(r.bodyMarkdown))
            && Named(ms, "callback_url") == Some(if r.callbackUrl.Some? then Str(r.callbackUrl.value) else Null)
            && Named(ms, "channel_id") == Some(Str(r.channelId))
            && Named(ms, "created_at") == Some(Str(p.format(r.createdAt)))
            && Named(ms, "decision_resolution")
               == Some(Str(match r.decisionResolution case Shared => "shared" case PerUser => "per_user"))
            && Named(ms, "dedupe_key") == Some(if r.dedupeKey.Some? then Str(r.dedupeKey.value) else Null)
  {
    var ms := ContentMembers(p, r, commitment);
    ContentPlain(p, r, commitment);
    MembersAscend(Content(p, r, commitment));
    hide Named, AscendingMembers, Plain, Fields, Links, Options, NotificationJson;
    AllNamed(ms);
    assert ms[0].key == "body_markdown" && ms[1].key == "callback_url" && ms[2].key == "channel_id";
    assert ms[3].key == "created_at" && ms[4].key == "decision_resolution" && ms[5].key == "dedupe_key";
  }

  lemma SecondHalfReads(p: Primitives, r: Request, commitment: string)
    ensures var ms := ContentMembers(p, r, commitment);
            && Named(ms, "expires_at") == Some(if r.expiresAt.Some? then Str(p.format(r.expiresAt.value)) else Null)
            && Named(ms, "image_url") == Some(if r.imageUrl.Some? then Str(r.imageUrl.value) else Null)
            && Named(ms, "recipients_commitment") == Some(Str(commitment))
            && Named(ms, "request_id") == Some(Str(r.id))
            && Named(ms, "summary") == Some(Str(r.summary)) && Named(ms, "title") == Some(Str(r.title))
  {
    var ms := ContentMembers(p, r, commitment);
    ContentPlain(p, r, commitment);
    MembersAscend(Content(p, r, commitment));
    hide Named, AscendingMembers, Plain, Fields, Links, Options, NotificationJson;
    AllNamed(ms);
    assert ms[6].key == "expires_at" && ms[8].key == "image_url" && ms[12].key == "recipients_commitment";
    assert ms[13].key == "request_id" && ms[14].key == "summary" && ms[15].key == "title";
  }

  /** The card's lists and its notification, under their names, element by element. */
  lemma ListsRead(p: Primitives, r: Request, commitment: string)
    ensures var ms := ContentMembers(p, r, commitment);
            && (var fields := Named(ms, "fields");
                && fields.Some? && fields.value.Arr? && |fields.value.items| == |r.fields|
                && forall i :: 0 <= i < |r.fields| ==> fields.value.items[i] == CardFieldJson(r.fields[i]))
            && (var links := Named(ms, "links");
                && links.Some? && links.value.Arr? && |links.value.items| == |r.links|
                && forall i :: 0 <= i < |r.links| ==> links.value.items[i] == CardLinkJson(r.links[i]))
            && (var options := Named(ms, "options");
                && options.Some? && options.value.Arr? && |options.value.items| == |r.options|
                && forall i :: 0 <= i < |r.options| ==> options.value.items[i] == OptionJson(r.options[i]))
            && Named(ms, "notification") == Some(NotificationJson(r.notification))
  {
    var ms := ContentMembers(p, r, commitment);
    ContentPlain(p, r, commitment);
    MembersAscend(Content(p, r, commitment));
    hide Named, AscendingMembers, Plain, CardFieldJson, CardLinkJson, OptionJson, NotificationJson;
    AllNamed(ms);
    assert ms[7].key == "fields" && ms[9].key == "links" && ms[10].key == "notification" && ms[11].key == "options";
  }

  /** An option, a field, a link and a notification, member by member. */
  lemma PartsRead(o: RequestOption, f: CardField, l: CardLink, n: RequestNotification)
    ensures var ms := OptionJson(o).members;
            && Named(ms, "id") == Some(Str(o.id)) && Named(ms, "label") == Some(Str(o.labelText))
            && Named(ms, "kind").Some? && Named(ms, "kind").value.Str? && KindFrom(Named(ms, "kind").value.s) == o.kind
            && Named(ms, "style") == Some(Str(o.style)) && Named(ms, "requires_text") == Some(Bool(o.requiresText))
            && Named(ms, "text_placeholder")
               == Some(if o.textPlaceholder.Some? then Str(o.textPlaceholder.value) else Null)
            && Named(ms, "destructive") == Some(Bool(o.destructive))
            && Named(ms, "foreground") == Some(Bool(o.foreground))
    ensures var ms := CardFieldJson(f).members;
            && Named(ms, "label") == Some(Str(f.labelText)) && Named(ms, "value") == Some(Str(f.value))
            && Named(ms, "style") == Some(if f.style.Some? then Str(f.style.value) else Null)
    ensures var ms := CardLinkJson(l).members;
            Named(ms, "label") == Some(Str(l.labelText)) && Named(ms, "url") == Some(Str(l.url))
    ensures var ms := NotificationJson(n).members;
            && Named(ms, "redact") == Some(Bool(n.redact))
            && Named(ms, "title") == Some(if n.title.Some? then Str(n.title.value) else Null)
            && Named(ms, "body") == Some(if n.body.Some? then Str(n.body.value) else Null)
  {
    OptionReads(o);
    SmallPartsRead(f, l, n);
    hide *;
  }

  lemma OptionReads(o: RequestOption)
    ensures var ms := OptionJson(o).members;
            && Named(ms, "id") == Some(Str(o.id)) && Named(ms, "label") == Some(Str(o.labelText))
            && Named(ms, "kind").Some? && Named(ms, "kind").value.Str? && KindFrom(Named(ms, "kind").value.s) == o.kind
            && Named(ms, "style") == Some(Str(o.style)) && Named(ms, "requires_text") == Some(Bool(o.requiresText))
            && Named(ms, "text_placeholder")
               == Some(if o.textPlaceholder.Some? then Str(o.textPlaceholder.value) else Null)
            && Named(ms, "destructive") == Some(Bool(o.destructive))
            && Named(ms, "foreground") == Some(Bool(o.foreground))
  {
    var ms := OptionJson(o).members;
    PlainOption(o);
    KindRoundTrip(o.kind);
    MembersAscend(OptionJson(o));
    hide Named, AscendingMembers, Plain, KindName, KindFrom;
    AllNamed(ms);
    assert ms[0].key == "destructive" && ms[1].key == "foreground" && ms[2].key == "id" && ms[3].key == "kind";
    assert ms[4].key == "label" && ms[5].key == "requires_text" && ms[6].key == "style";
    assert ms[7].key == "text_placeholder";
  }

  lemma LeavesNamed(ms: seq<Member>)
    requires forall i :: 0 <= i < |ms| ==>
               (ms[i].value.Str? || ms[i].value.Null? || ms[i].value.Bool?) && IsAscii(ms[i].key)
    requires forall i :: 0 <= i < |ms| - 1 ==> Less(ms[i].key, ms[i + 1].key)
    ensures forall i :: 0 <= i < |ms| ==> Named(ms, ms[i].key) == Some(ms[i].value)
  {
    hide Less, IsAscii, Named;
    LeafObj(ms);
    MembersAscend(Obj(ms));
    AllNamed(ms);
  }

  lemma SmallKeysAscend(f: CardField, l: CardLink, n: RequestNotification)
    ensures Less("label", "style") && Less("style", "value") && Less("label", "url")
    ensures Less("body", "redact") && Less("redact", "title")
    ensures IsAscii("label") && IsAscii("style") && IsAscii("value") && IsAscii("url")
    ensures IsAscii("body") && IsAscii("redact") && IsAscii("title")
  {
  }

  lemma SmallPartsRead(f: CardField, l: CardLink, n: RequestNotification)
    ensures var ms := CardFieldJson(f).members;
            && Named(ms, "label") == Some(Str(f.labelText)) && Named(ms, "value") == Some(Str(f.value))
            && Named(ms, "style") == Some(if f.style.Some? then Str(f.style.value) else Null)
    ensures var ms := CardLinkJson(l).members;
            Named(ms, "label") == Some(Str(l.labelText)) && Named(ms, "url") == Some(Str(l.url))
    ensures var ms := NotificationJson(n).members;
            && Named(ms, "redact") == Some(Bool(n.redact))
            && Named(ms, "title") == Some(if n.title.Some? then Str(n.title.value) else Null)
            && Named(ms, "body") == Some(if n.body.Some? then Str(n.body.value) else Null)
  {
    var (xs, ys, zs) := (CardFieldJson(f).members, CardLinkJson(l).members, NotificationJson(n).members);
    SmallKeysAscend(f, l, n);
    hide Named, Less, IsAscii;
    LeavesNamed(xs);
    LeavesNamed(ys);
    LeavesNamed(zs);
    assert xs[0].key == "label" && xs[1].key == "style" && xs[2].key == "value";
    assert ys[0].key == "label" && ys[1].key == "url";
    assert zs[0].key == "body" && zs[1].key == "redact" && zs[2].key == "title";
  }

  /** An answer and its definition: the kind by name, and the value and the default
      under theirs. */
  lemma AnswerReads(v: AnswerValue)
    ensures var ms := ValueJson(v).members;
            match v
            case ChoiceValue(id) => Named(ms, "kind") == Some(Str("choice")) && Named(ms, "choice_id") == Some(Str(id))
            case NumberValue(d) => Named(ms, "kind") == Some(Str("number")) && Named(ms, "decimal") == Some(Str(d))
            case DateValue(d) => Named(ms, "kind") == Some(Str("date")) && Named(ms, "date") == Some(Str(d))
            case DateTimeValue(i) =>
              Named(ms, "kind") == Some(Str("date_time")) && Named(ms, "instant") == Some(Str(i))
  {
    var ms := ValueJson(v).members;
    assert ms[1..][0] == ms[1] && Named(ms[1..], "kind") == Some(ms[1].value);
  }

  lemma AnswerFieldReads(f: AnswerField)
    ensures var ms := FieldJson(f).members;
            && Named(ms, "label") == Some(Str(f.labelText)) && Named(ms, "default") == Some(ValueJson(f.default))
            && Named(ms, "kind") == Some(Str(match f
                 case ChoiceField(_, _, _) => "choice" case NumberField(_, _) => "number"
                 case DateField(_, _) => "date" case DateTimeField(_, _) => "date_time"))
            && (f.ChoiceField? ==>
                  var choices := Named(ms, "choices");
                  && choices.Some? && choices.value.Arr? && |choices.value.items| == |f.choices|
                  && forall i :: 0 <= i < |f.choices| ==>
                       choices.value.items[i]
                       == Obj([Member("id", Str(f.choices[i].id)), Member("label", Str(f.choices[i].labelText))]))
  {
    var ms := FieldJson(f).members;
    PlainField(f);
    MembersAscend(FieldJson(f));
    hide Named, AscendingMembers, Plain, ValueJson;
    AllNamed(ms);
    if f.ChoiceField? {
      assert ms[0].key == "choices" && ms[1].key == "default" && ms[2].key == "kind" && ms[3].key == "label";
    } else {
      assert ms[0].key == "default" && ms[1].key == "kind" && ms[2].key == "label";
    }
  }

  /** The second payload, member by member. */
  lemma DecisionReads(i: SigningInput, answer: AnswerValue)
    ensures var ms := DecisionContent(i, answer).members;
            && Named(ms, "answer_value") == Some(ValueJson(answer)) && Named(ms, "device_id") == Some(Str(i.deviceId))
            && Named(ms, "key_id") == Some(Str(i.keyId)) && Named(ms, "nonce") == Some(Str(i.nonce))
            && Named(ms, "option_id") == Some(Str(i.optionId))
            && Named(ms, "option_kind").Some? && Named(ms, "option_kind").value.Str?
            && KindFrom(Named(ms, "option_kind").value.s) == i.optionKind
            && Named(ms, "request_digest") == Some(Str(i.requestDigest))
            && Named(ms, "request_id") == Some(Str(i.requestId)) && Named(ms, "signed_at") == Some(Str(i.signedAt))
            && Named(ms, "text") == Some(if TrimmedText(i.text).Some? then Str(TrimmedText(i.text).value) else Null)
            && Named(ms, "user_id") == Some(Str(i.userId))
  {
    var ms := DecisionMembers(i, TrimmedText(i.text), answer);
    DecisionMembersPlain(i, TrimmedText(i.text), answer);
    KindRoundTrip(i.optionKind);
    MembersAscend(Obj(ms));
    hide Named, AscendingMembers, Plain, KindName, KindFrom, ValueJson, TrimmedText;
    AllNamed(ms);
    assert ms[0].key == "answer_value" && ms[1].key == "device_id" && ms[2].key == "key_id" && ms[3].key == "nonce";
    assert ms[4].key == "option_id" && ms[5].key == "option_kind" && ms[6].key == "request_digest";
    assert ms[7].key == "request_id" && ms[8].key == "signed_at" && ms[9].key == "text" && ms[10].key == "user_id";
  }

  // ----- From the text back -----

  /** A structured text is its tag on a line and the content, which the rest parses to. */
  lemma StructuredTextReads(p: Primitives, r: Request, commitment: string, tag: string)
    ensures var text := StructuredText(p, r, commitment, tag);
            && |tag| < |text| && text[..|tag| + 1] == tag + "\n"
            && ParseValue(text[|tag| + 1..]) == Some((Obj(ContentMembers(p, r, commitment)), "\n"))
  {
    var v := Content(p, r, commitment);
    ContentPlain(p, r, commitment);
    hide ContentMembers, Text, ParseValue;
    TextParses(v, "\n");
    assert StructuredText(p, r, commitment, tag)[|tag| + 1..] == Text(v) + "\n";
  }

  /** So is the text of a value card, with the answer field among the members. */
  lemma ValueTextReads(p: Primitives, r: Request, commitment: string, field: AnswerField, tag: string)
    ensures var (text, ms) := (ValueText(p, r, commitment, field, tag), ContentMembers(p, r, commitment));
            && |tag| < |text| && text[..|tag| + 1] == tag + "\n"
            && ParseValue(text[|tag| + 1..]) == Some((Obj([Member("answer_field", FieldJson(field))] + ms), "\n"))
  {
    var v := ValueContent(p, r, commitment, field);
    ValueContentPlain(p, r, commitment, field);
    ValueContentPrints(p, r, commitment, field);
    hide ContentMembers, CanonicalText, FieldJson, Text, ParseValue;
    TextParses(v, "\n");
    assert ValueText(p, r, commitment, field, tag)[|tag| + 1..] == Text(v) + "\n";
  }

  /** The tag each encoder writes, and its kind of text. */
  lemma EncoderTexts(p: Primitives, r: Request, commitment: string, field: AnswerField)
    ensures PreHash(Structured, p, r, commitment, field) == StructuredText(p, r, commitment, "nod-request-v1")
    ensures PreHash(Value, p, r, commitment, field) == ValueText(p, r, commitment, field, "nod-request-v2")
    ensures PreHash(LegacyStructured, p, r, commitment, field) == StructuredText(p, r, commitment, "nod-request-v2")
    ensures PreHash(LegacyValue, p, r, commitment, field) == ValueText(p, r, commitment, field, "nod-request-v3")
    ensures PreHash(LegacyLineSnapshot, p, r, commitment, field) == LineText(p, r)
  {
    hide StructuredText, ValueText, LineText;
  }

  // ----- The frozen texts -----

  const FROZEN_INPUT := SigningInput("request-1", "server-provided-request-digest", "approve", Approve, "user-1",
                                     "device-1", "device-key-id", "unique-device-nonce", "2026-05-31T12:00:00.000Z",
                                     Some("ship it"))

  lemma FrozenLines()
    ensures "request_id:" + "request-1" == "request_id:request-1" && "option_id:" + "approve" == "option_id:approve"
  {
  }

  lemma FrozenDigestLine()
    ensures "request_digest:" + "server-provided-request-digest" == "request_digest:server-provided-request-digest"
  {
  }

  lemma FrozenLinesEnd()
    ensures "option_kind:" + "approve" == "option_kind:approve" && "user_id:" + "user-1" == "user_id:user-1"
    ensures "device_id:" + "device-1" == "device_id:device-1" && "key_id:" + "device-key-id" == "key_id:device-key-id"
    ensures "nonce:" + "unique-device-nonce" == "nonce:unique-device-nonce"
    ensures "signed_at:" + "2026-05-31T12:00:00.000Z" == "signed_at:2026-05-31T12:00:00.000Z"
  {
  }

  /** The frozen first payload, line by line. */
  lemma FrozenPayload(p: Primitives)
    ensures PayloadV1(p, FROZEN_INPUT)
            == Lines(["nod-decision-v1", "request_id:request-1", "request_digest:server-provided-request-digest",
                      "option_id:approve", "option_kind:approve", "user_id:user-1", "device_id:device-1",
                      "key_id:device-key-id", "nonce:unique-device-nonce", "signed_at:2026-05-31T12:00:00.000Z",
                      "text_sha256:" + p.sha("ship it")])
  {
    FrozenLines();
    FrozenDigestLine();
    FrozenLinesEnd();
    hide Lines;
  }

  // ----- Lines -----

  /** The line stands in the text, between newlines. */
  ghost predicate HasLine(text: string, line: string) {
    exists a, b :: text == a + line + "\n" + b && (a == "" || a[|a| - 1] == '\n')
  }

  lemma {:induction false} LineStands(parts: seq<string>, k: nat)
    requires k < |parts|
    ensures HasLine(Lines(parts), parts[k])
  {
    var text := Lines(parts);
    if k == 0 {
      assert text == "" + parts[0] + "\n" + Lines(parts[1..]);
    } else {
      LineStands(parts[1..], k - 1);
      var a, b :| Lines(parts[1..]) == a + parts[k] + "\n" + b && (a == "" || a[|a| - 1] == '\n');
      var head := parts[0] + "\n" + a;
      assert text == head + parts[k] + "\n" + b;
      assert head[|head| - 1] == '\n';
    }
  }

  lemma AllLinesStand(parts: seq<string>)
    ensures forall k :: 0 <= k < |parts| ==> HasLine(Lines(parts), parts[k])
  {
    forall k | 0 <= k < |parts| ensures HasLine(Lines(parts), parts[k]) {
      LineStands(parts, k);
    }
  }

  /** The line snapshot has each of its fields on a line of its own, behind its label. */
  lemma SnapshotLines(p: Primitives, r: Request)
    ensures var text := LineText(p, r);
            && HasLine(text, "request_id:" + r.id) && HasLine(text, "channel_id:" + r.channelId)
            && HasLine(text, "recipients:" + Joined(r.recipients, ","))
            && HasLine(text, "decision_resolution:" + if r.decisionResolution.Shared? then "shared" else "per_user")
            && HasLine(text, "title_sha256:" + p.sha(r.title)) && HasLine(text, "summary_sha256:" + p.sha(r.summary))
            && HasLine(text, "body_markdown_sha256:" + p.sha(r.bodyMarkdown))
            && HasLine(text, "fields_sha256:" + p.sha(Text(StructFields(r.fields))))
            && HasLine(text, "links_sha256:" + p.sha(Text(Links(r.links))))
            && HasLine(text, "image_url:" + if r.imageUrl.Some? then r.imageUrl.value else "")
            && HasLine(text, "dedupe_key:" + if r.dedupeKey.Some? then r.dedupeKey.value else "")
            && HasLine(text, "expires_at:" + if r.expiresAt.Some? then p.format(r.expiresAt.value) else "")
            && HasLine(text, "created_at:" + p.format(r.createdAt))
            && HasLine(text, "options_sha256:" + p.sha(Text(Options(r.options))))
  {
    var parts := LineParts(p, r);
    hide HasLine, Lines, Text, Joined, StructFields, Links, Options;
    AllLinesStand(parts);
    assert parts[1] == "request_id:" + r.id && parts[2] == "channel_id:" + r.channelId;
    assert parts[3] == "recipients:" + Joined(r.recipients, ",");
    assert parts[4] == "decision_resolution:" + if r.decisionResolution.Shared? then "shared" else "per_user";
    assert parts[5] == "title_sha256:" + p.sha(r.title) && parts[6] == "summary_sha256:" + p.sha(r.summary);
    assert parts[7] == "body_markdown_sha256:" + p.sha(r.bodyMarkdown);
    assert parts[8] == "fields_sha256:" + p.sha(Text(StructFields(r.fields)));
    assert parts[9] == "links_sha256:" + p.sha(Text(Links(r.links)));
    assert parts[10] == "image_url:" + if r.imageUrl.Some? then r.imageUrl.value else "";
    assert parts[11] == "dedupe_key:" + if r.dedupeKey.Some? then r.dedupeKey.value else "";
    assert parts[12] == "expires_at:" + if r.expiresAt.Some? then p.format(r.expiresAt.value) else "";
    assert parts[13] == "created_at:" + p.format(r.createdAt);
    assert parts[14] == "options_sha256:" + p.sha(Text(Options(r.options)));
  }

  /** A joined list can be split again where no part contains the separator. */
  lemma {:induction false} JoinedSplits(parts: seq<string>, at: char)
    requires parts != [] && forall i :: 0 <= i < |parts| ==> at !in parts[i]
    ensures Decimal.Split(Joined(parts, [at]), at) == parts
  {
    if |parts| == 1 {
      Decimal.SplitNoSeparator(parts[0], at);
      assert parts == [parts[0]];
    } else {
      JoinedSplits(parts[1..], at);
      Decimal.SplitAppend(parts[0], Joined(parts[1..], [at]), at);
      assert parts == [parts[0]] + parts[1..];
    }
  }

  /** The fields hashed in the line snapshot are written as the structs declare them:
      label, value, style. */
  lemma StructFieldsRead(fs: seq<CardField>, i: nat)
    requires i < |fs|
    ensures StructFields(fs).Arr? && |StructFields(fs).items| == |fs| && StructFields(fs).items[i].Obj?
    ensures var ms := StructFields(fs).items[i].members;
            && |ms| == 3 && ms[0] == Member("label", Str(fs[i].labelText)) && ms[1].key == "value"
            && ms[1].value == Str(fs[i].value) && ms[2].key == "style"
            && ms[2].value == if fs[i].style.Some? then Str(fs[i].style.value) else Null
  {
  }
}
