/** The two decision payloads a device signs. */
module Payloads {
  import opened Common
  import opened Requests
  import opened Texts
  import opened Json
  import opened CanonicalJson
  import opened Answers
  import opened Digests

  const PAYLOAD_V1 := "nod-decision-v1"
  const PAYLOAD_V2 := "nod-decision-v2"
  const MAX_NOTE_BYTES: nat := 16384

  datatype SigningInput = SigningInput(
    requestId: string,
    requestDigest: string,
    optionId: string,
    optionKind: OptionKind,
    userId: string,
    deviceId: string,
    keyId: string,
    nonce: string,
    signedAt: string,
    text: Option<string>)

  function TextOrEmpty(text: Option<string>): string {
    if text.Some? then text.value else ""
  }

  function PayloadParts(p: Primitives, i: SigningInput): (parts: seq<string>)
    ensures |parts| == 11
  {
    [ PAYLOAD_V1,
      "request_id:" + i.requestId,
      "request_digest:" + i.requestDigest,
      "option_id:" + i.optionId,
      "option_kind:" + KindName(i.optionKind),
      "user_id:" + i.userId,
      "device_id:" + i.deviceId,
      "key_id:" + i.keyId,
      "nonce:" + i.nonce,
      "signed_at:" + i.signedAt,
      "text_sha256:" + p.sha(TextOrEmpty(i.text))]
  }

  /** `decision_signing_payload`. */
  function PayloadV1(p: Primitives, i: SigningInput): string {
    Lines(PayloadParts(p, i))
  }

  function DecisionMembers(i: SigningInput, text: Option<string>, answer: AnswerValue): (ms: seq<Member>)
    ensures |ms| == 11
  {
    [Member("answer_value", ValueJson(answer)),
     Member("device_id", Str(i.deviceId)),
     Member("key_id", Str(i.keyId)),
     Member("nonce", Str(i.nonce)),
     Member("option_id", Str(i.optionId)),
     Member("option_kind", Str(KindName(i.optionKind))),
     Member("request_digest", Str(i.requestDigest)),
     Member("request_id", Str(i.requestId)),
     Member("signed_at", Str(i.signedAt)),
     Member("text", OptStr(text)),
     Member("user_id", Str(i.userId))]
  }

  function DecisionContent(i: SigningInput, answer: AnswerValue): Json {
    Obj(DecisionMembers(i, TrimmedText(i.text), answer))
  }

  /** `decision_signing_payload_v2`. */
  function PayloadV2(p: Primitives, i: SigningInput, answer: AnswerValue): Result<string, SigningError> {
    var at := p.parse(i.signedAt);
    if at.None? then Err(InvalidValue("invalid signed_at"))
    else if p.format(at.value) != i.signedAt then Err(InvalidValue("noncanonical signed_at"))
    else if Utf8Len(TextOrEmpty(TrimmedText(i.text))) > MAX_NOTE_BYTES
      then Err(InvalidValue("notes exceed 16384 bytes"))
    else if FirstError(Canon(DecisionContent(i, answer))).Some? then Err(InvalidValue("not canonical"))
    else Ok(PAYLOAD_V2 + "\n" + CanonicalText(DecisionContent(i, answer)) + "\n")
  }

  // ----- Version 1 -----

  ghost predicate OneLine(s: string) {
    '\n' !in s
  }

  ghost predicate OneLineInput(i: SigningInput) {
    OneLine(i.requestId) && OneLine(i.requestDigest) && OneLine(i.optionId) && OneLine(i.userId)
    && OneLine(i.deviceId) && OneLine(i.keyId) && OneLine(i.nonce) && OneLine(i.signedAt)
  }

  lemma {:induction false} FirstLine(a: string, s: string, b: string, t: string)
    requires OneLine(a) && OneLine(b) && a + "\n" + s == b + "\n" + t
    ensures a == b && s == t
  {
    var x, y := a + "\n" + s, b + "\n" + t;
    assert x[|a|] == '\n' && y[|b|] == '\n';
    assert forall k :: 0 <= k < |a| ==> x[k] == a[k] && a[k] in a;
    assert forall k :: 0 <= k < |b| ==> y[k] == b[k] && b[k] in b;
    assert |a| == |b|;
    assert x[..|a|] == a && y[..|b|] == b;
    assert x[|a| + 1..] == s && y[|b| + 1..] == t;
  }

  function Newlines(s: string): nat {
    if s == "" then 0 else (if s[0] == '\n' then 1 else 0) + Newlines(s[1..])
  }

  lemma {:induction false} NewlinesAppend(s: string, t: string)
    ensures Newlines(s + t) == Newlines(s) + Newlines(t)
  {
    if s == "" {
      assert s + t == t;
    } else {
      assert (s + t)[1..] == s[1..] + t && (s + t)[0] == s[0];
      NewlinesAppend(s[1..], t);
    }
  }

  lemma {:induction false} NoNewlinesIff(s: string)
    ensures Newlines(s) == 0 <==> OneLine(s)
  {
    if s != "" {
      assert s == [s[0]] + s[1..];
      NoNewlinesIff(s[1..]);
    }
  }

  ghost predicate AllOneLine(parts: seq<string>) {
    forall i :: 0 <= i < |parts| ==> OneLine(parts[i])
  }

  /** A text of lines has one newline per part exactly if no part has one. */
  lemma {:induction false} NewlinesOfLines(parts: seq<string>)
    ensures Newlines(Lines(parts)) >= |parts|
    ensures Newlines(Lines(parts)) == |parts| <==> AllOneLine(parts)
  {
    if parts != [] {
      var rest := parts[1..];
      assert parts == [parts[0]] + rest;
      NewlinesOfLines(rest);
      NewlinesAppend(parts[0] + "\n", Lines(rest));
      NewlinesAppend(parts[0], "\n");
      NoNewlinesIff(parts[0]);
      assert Newlines("\n") == 1;
      hide Newlines, OneLine;
      assert AllOneLine(parts) <==> OneLine(parts[0]) && AllOneLine(rest);
    }
  }

  lemma {:induction false} OneLinesInjective(xs: seq<string>, ys: seq<string>)
    requires |xs| == |ys| && Lines(xs) == Lines(ys) && AllOneLine(xs) && AllOneLine(ys)
    ensures xs == ys
  {
    if xs != [] {
      FirstLine(xs[0], Lines(xs[1..]), ys[0], Lines(ys[1..]));
      OneLinesInjective(xs[1..], ys[1..]);
      assert xs == [xs[0]] + xs[1..] && ys == [ys[0]] + ys[1..];
    }
  }

  /** Parts without newlines are the only parts of their number with their lines. */
  lemma LinesInjective(xs: seq<string>, ys: seq<string>)
    requires |xs| == |ys| && Lines(xs) == Lines(ys) && AllOneLine(xs)
    ensures xs == ys
  {
    NewlinesOfLines(xs);
    NewlinesOfLines(ys);
    OneLinesInjective(xs, ys);
  }

  lemma SameTail(head: string, a: string, b: string)
    requires head + a == head + b
    ensures a == b
  {
    assert (head + a)[|head|..] == a && (head + b)[|head|..] == b;
  }

  lemma OneLineAppend(s: string, t: string)
    requires OneLine(s) && OneLine(t)
    ensures OneLine(s + t)
  {
  }

  lemma LabelsOneLine()
    ensures OneLine(PAYLOAD_V1) && OneLine("request_id:") && OneLine("request_digest:") && OneLine("option_id:")
    ensures OneLine("option_kind:") && OneLine("user_id:") && OneLine("device_id:") && OneLine("key_id:")
    ensures OneLine("nonce:") && OneLine("signed_at:") && OneLine("text_sha256:")
  {
  }

  lemma PartsOneLine(p: Primitives, i: SigningInput)
    requires OneLineInput(i) && OneLine(p.sha(TextOrEmpty(i.text)))
    ensures AllOneLine(PayloadParts(p, i))
  {
    LabelsOneLine();
    KindNameOneLine(i.optionKind);
    hide OneLine, KindName, TextOrEmpty;
    OneLineAppend("request_id:", i.requestId);
    OneLineAppend("request_digest:", i.requestDigest);
    OneLineAppend("option_id:", i.optionId);
    OneLineAppend("option_kind:", KindName(i.optionKind));
    OneLineAppend("user_id:", i.userId);
    OneLineAppend("device_id:", i.deviceId);
    OneLineAppend("key_id:", i.keyId);
    OneLineAppend("nonce:", i.nonce);
    OneLineAppend("signed_at:", i.signedAt);
    OneLineAppend("text_sha256:", p.sha(TextOrEmpty(i.text)));
  }

  lemma KindNameOneLine(k: OptionKind)
    ensures OneLine(KindName(k))
  {
  }

  /** The first payload determines every field it carries, as long as no field
      of one of the two inputs contains a newline. */
  lemma PayloadV1Injective(p: Primitives, i: SigningInput, j: SigningInput)
    requires OneLineInput(i) && OneLine(p.sha(TextOrEmpty(i.text)))
    requires PayloadV1(p, i) == PayloadV1(p, j)
    ensures i.(text := None) == j.(text := None)
    ensures p.sha(TextOrEmpty(i.text)) == p.sha(TextOrEmpty(j.text))
  {
    PartsOneLine(p, i);
    LinesInjective(PayloadParts(p, i), PayloadParts(p, j));
    PartsDetermine(p, i, j);
  }

  lemma PartsDetermine(p: Primitives, i: SigningInput, j: SigningInput)
    requires PayloadParts(p, i) == PayloadParts(p, j)
    ensures i.(text := None) == j.(text := None)
    ensures p.sha(TextOrEmpty(i.text)) == p.sha(TextOrEmpty(j.text))
  {
    var xs, ys := PayloadParts(p, i), PayloadParts(p, j);
    assert xs[1] == ys[1] && xs[2] == ys[2] && xs[3] == ys[3] && xs[4] == ys[4] && xs[5] == ys[5];
    assert xs[6] == ys[6] && xs[7] == ys[7] && xs[8] == ys[8] && xs[9] == ys[9] && xs[10] == ys[10];
    SameTail("request_id:", i.requestId, j.requestId);
    SameTail("request_digest:", i.requestDigest, j.requestDigest);
    SameTail("option_id:", i.optionId, j.optionId);
    SameTail("option_kind:", KindName(i.optionKind), KindName(j.optionKind));
    KindNameInjective(i.optionKind, j.optionKind);
    SameTail("user_id:", i.userId, j.userId);
    SameTail("device_id:", i.deviceId, j.deviceId);
    SameTail("key_id:", i.keyId, j.keyId);
    SameTail("nonce:", i.nonce, j.nonce);
    SameTail("signed_at:", i.signedAt, j.signedAt);
    SameTail("text_sha256:", p.sha(TextOrEmpty(i.text)), p.sha(TextOrEmpty(j.text)));
  }

  /** A pair that shares its first payload: a user id that swallows the line of the
      device id, and a device id that holds one. */
  lemma PayloadV1NeedsOneLine(p: Primitives, i: SigningInput)
    ensures var (a, b) := (i.(userId := "u", deviceId := "v\ndevice_id:w"),
                           i.(userId := "u\ndevice_id:v", deviceId := "w"));
            PayloadV1(p, a) == PayloadV1(p, b) && a != b
  {
    var a, b := i.(userId := "u", deviceId := "v\ndevice_id:w"), i.(userId := "u\ndevice_id:v", deviceId := "w");
    var xs, ys := PayloadParts(p, a), PayloadParts(p, b);
    hide Lines;
    assert xs[..5] == ys[..5] && xs[7..] == ys[7..];
    assert xs == xs[..5] + [xs[5], xs[6]] + xs[7..] && ys == ys[..5] + [ys[5], ys[6]] + ys[7..];
    assert xs[5] + "\n" + xs[6] == ys[5] + "\n" + ys[6];
    Resplit(xs[..5], xs[5], xs[6], ys[5], ys[6], xs[7..]);
  }

  /** Two lines may be cut in another place without changing the text. */
  lemma Resplit(before: seq<string>, a: string, b: string, c: string, d: string, after: seq<string>)
    requires a + "\n" + b == c + "\n" + d
    ensures Lines(before + [a, b] + after) == Lines(before + [c, d] + after)
  {
    LinesPair(a, b);
    LinesPair(c, d);
    hide Lines;
    LinesAppend(before + [a, b], after);
    LinesAppend(before + [c, d], after);
    LinesAppend(before, [a, b]);
    LinesAppend(before, [c, d]);
  }

  lemma LinesPair(a: string, b: string)
    ensures Lines([a, b]) == a + "\n" + b + "\n"
  {
    assert [a, b][1..] == [b] && [b][1..] == [];
    assert Lines([b]) == b + "\n" + "";
  }

  lemma {:induction false} LinesAppend(xs: seq<string>, ys: seq<string>)
    ensures Lines(xs + ys) == Lines(xs) + Lines(ys)
  {
    if xs == [] {
      assert xs + ys == ys;
    } else {
      assert (xs + ys)[1..] == xs[1..] + ys && (xs + ys)[0] == xs[0];
      LinesAppend(xs[1..], ys);
    }
  }

  // ----- Version 2 -----

  lemma DecisionKeyOrder()
    ensures Less("answer_value", "device_id") && Less("device_id", "key_id") && Less("key_id", "nonce")
    ensures Less("nonce", "option_id") && Less("option_id", "option_kind") && Less("option_kind", "request_digest")
  {
  }

  lemma DecisionKeyOrderEnd()
    ensures Less("request_digest", "request_id") && Less("request_id", "signed_at")
    ensures Less("signed_at", "text") && Less("text", "user_id")
  {
  }

  lemma DecisionKeysAscii()
    ensures IsAscii("answer_value") && IsAscii("device_id") && IsAscii("key_id") && IsAscii("nonce")
    ensures IsAscii("option_id") && IsAscii("option_kind") && IsAscii("request_digest")
  {
  }

  lemma DecisionKeysAsciiEnd()
    ensures IsAscii("request_id") && IsAscii("signed_at") && IsAscii("text") && IsAscii("user_id")
  {
  }

  lemma DecisionMembersPlain(i: SigningInput, text: Option<string>, answer: AnswerValue)
    ensures Plain(Obj(DecisionMembers(i, text, answer)))
  {
    var ms := DecisionMembers(i, text, answer);
    DecisionKeyOrder();
    DecisionKeyOrderEnd();
    DecisionKeysAscii();
    DecisionKeysAsciiEnd();
    PlainValue(answer);
    hide Less, IsAscii, Plain, ValueJson;
    forall k | 0 <= k < |ms| ensures Plain(ms[k].value) {
      if k > 0 { PlainLeaf(ms[k].value); }
    }
    PlainObj(ms);
  }

  /** The second payload never fails on its content. */
  lemma DecisionPrints(i: SigningInput, answer: AnswerValue)
    ensures FirstError(Canon(DecisionContent(i, answer))).None?
    ensures CanonicalText(DecisionContent(i, answer)) == Text(DecisionContent(i, answer))
  {
    DecisionMembersPlain(i, TrimmedText(i.text), answer);
    hide DecisionMembers;
    CanonFixed(DecisionContent(i, answer));
    CanonicalSucceedsIff(DecisionContent(i, answer));
  }

  /** The second payload determines every field it carries, without conditions. */
  lemma PayloadV2Injective(p: Primitives, i: SigningInput, a: AnswerValue, j: SigningInput, b: AnswerValue)
    requires PayloadV2(p, i, a).Ok? && PayloadV2(p, j, b) == PayloadV2(p, i, a)
    ensures i.(text := TrimmedText(i.text)) == j.(text := TrimmedText(j.text)) && a == b
  {
    var v, w := DecisionContent(i, a), DecisionContent(j, b);
    DecisionPrints(i, a);
    DecisionPrints(j, b);
    DecisionMembersPlain(i, TrimmedText(i.text), a);
    DecisionMembersPlain(j, TrimmedText(j.text), b);
    hide Text, CanonicalText, Canon, FirstError, DecisionMembers;
    SamePadding(PAYLOAD_V2 + "\n", CanonicalText(v), CanonicalText(w), "\n");
    TextInjective(v, w);
    DecisionMembersDetermine(i, TrimmedText(i.text), a, j, TrimmedText(j.text), b);
  }

  lemma DecisionMembersDetermine(i: SigningInput, s: Option<string>, a: AnswerValue,
                                 j: SigningInput, t: Option<string>, b: AnswerValue)
    requires DecisionMembers(i, s, a) == DecisionMembers(j, t, b)
    ensures i.(text := None) == j.(text := None) && s == t && a == b
  {
    var ms, ns := DecisionMembers(i, s, a), DecisionMembers(j, t, b);
    assert ms[0] == ns[0] && ms[1] == ns[1] && ms[2] == ns[2] && ms[3] == ns[3] && ms[4] == ns[4] && ms[5] == ns[5];
    assert ms[6] == ns[6] && ms[7] == ns[7] && ms[8] == ns[8] && ms[9] == ns[9] && ms[10] == ns[10];
    KindNameInjective(i.optionKind, j.optionKind);
    ValueJsonInjective(a, b);
  }

  /** No text is a payload of both versions. */
  lemma PayloadsDisjoint(p: Primitives, i: SigningInput, j: SigningInput, b: AnswerValue)
    requires PayloadV2(p, j, b).Ok?
    ensures PayloadV1(p, i) != PayloadV2(p, j, b).value
  {
    var x := PayloadParts(p, i);
    assert x[0] == PAYLOAD_V1;
    assert PayloadV1(p, i) == PAYLOAD_V1 + "\n" + Lines(x[1..]);
    assert PayloadV1(p, i)[14] == '1';
    assert PayloadV2(p, j, b).value[14] == '2' by {
      hide CanonicalText;
      assert PayloadV2(p, j, b).value[14] == PAYLOAD_V2[14];
    }
  }
}
