/** When the first payload, which separates its fields by labelled lines, can be
    read as the payload of other fields. */
module PayloadCuts {
  import opened Common
  import opened Requests
  import opened Digests
  import opened Payloads
  import opened Separators

  // ----- Labelled lines as fields between separators -----

  function Labelled(labels: seq<string>, fields: seq<string>): (parts: seq<string>)
    requires |labels| == |fields|
    ensures |parts| == |fields|
  {
    seq(|fields|, k requires 0 <= k < |fields| => labels[k] + fields[k])
  }

  /** What stands between two fields: the end of the line and the next label. */
  function LineSeps(labels: seq<string>): (seps: seq<string>)
    requires labels != []
    ensures |seps| == |labels| - 1
  {
    seq(|labels| - 1, k requires 0 <= k < |labels| - 1 => "\n" + labels[k + 1])
  }

  lemma {:induction false} LinesInterleave(labels: seq<string>, fields: seq<string>)
    requires |labels| == |fields| && labels != []
    ensures Lines(Labelled(labels, fields)) == labels[0] + Interleave(fields, LineSeps(labels)) + "\n"
  {
    var parts := Labelled(labels, fields);
    if |labels| == 1 {
      assert parts[1..] == [] && Lines(parts[1..]) == "";
      assert Lines(parts) == labels[0] + fields[0] + "\n" + "";
    } else {
      LinesInterleave(labels[1..], fields[1..]);
      assert parts[1..] == Labelled(labels[1..], fields[1..]);
      assert LineSeps(labels)[1..] == LineSeps(labels[1..]);
      var rest := Interleave(fields[1..], LineSeps(labels[1..]));
      assert Lines(parts) == labels[0] + fields[0] + "\n" + (labels[1] + rest + "\n");
      assert Interleave(fields, LineSeps(labels)) == fields[0] + ("\n" + labels[1]) + rest;
    }
  }

  const LABELS := ["request_id:", "request_digest:", "option_id:", "option_kind:", "user_id:", "device_id:", "key_id:",
                   "nonce:", "signed_at:", "text_sha256:"]

  const HEAD := PAYLOAD_V1 + "\n" + "request_id:"

  /** The free fields, and the separators between them; the kind has few values and
      belongs to its separator. */
  function FreeFields(i: SigningInput): (fields: seq<string>)
    ensures |fields| == 8
  {
    [i.requestId, i.requestDigest, i.optionId, i.userId, i.deviceId, i.keyId, i.nonce, i.signedAt]
  }

  function Seps(kind: OptionKind): (seps: seq<string>)
    ensures |seps| == 7
  {
    ["\n" + "request_digest:", "\n" + "option_id:", KindSep(kind), "\n" + "device_id:", "\n" + "key_id:",
     "\n" + "nonce:", "\n" + "signed_at:"]
  }

  function KindSep(kind: OptionKind): string {
    "\n" + "option_kind:" + KindName(kind) + ("\n" + "user_id:")
  }

  function AllFields(i: SigningInput, hash: string): (fields: seq<string>)
    ensures |fields| == 10
  {
    [i.requestId, i.requestDigest, i.optionId, KindName(i.optionKind), i.userId, i.deviceId, i.keyId, i.nonce,
     i.signedAt, hash]
  }

  lemma LabelSeps()
    ensures LineSeps(LABELS)
            == ["\n" + "request_digest:", "\n" + "option_id:", "\n" + "option_kind:", "\n" + "user_id:",
                "\n" + "device_id:",
                "\n" + "key_id:", "\n" + "nonce:", "\n" + "signed_at:", "\n" + "text_sha256:"]
  {
  }

  lemma PartsLabelled(p: Primitives, i: SigningInput)
    ensures PayloadParts(p, i) == [PAYLOAD_V1] + Labelled(LABELS, AllFields(i, p.sha(TextOrEmpty(i.text))))
  {
  }

  lemma Regrouped(i: SigningInput, hash: string)
    ensures Interleave(AllFields(i, hash), LineSeps(LABELS))
            == Interleave(FreeFields(i), Seps(i.optionKind)) + ("\n" + "text_sha256:") + hash
  {
    LabelSeps();
    var (fields, seps) := (AllFields(i, hash)[..9], LineSeps(LABELS)[..8]);
    assert AllFields(i, hash) == fields + [hash] && LineSeps(LABELS) == seps + ["\n" + "text_sha256:"];
    LastField(fields, seps, "\n" + "text_sha256:", hash);
    Absorb(fields, seps, 3);
    assert fields[..3] + fields[4..] == FreeFields(i);
    assert seps[2] + fields[3] + seps[3] == KindSep(i.optionKind);
    assert seps[..2] + [seps[2] + fields[3] + seps[3]] + seps[4..] == Seps(i.optionKind);
  }

  /** The first payload as fields between separators. */
  lemma PayloadShape(p: Primitives, i: SigningInput)
    ensures PayloadV1(p, i)
            == HEAD + (Interleave(FreeFields(i), Seps(i.optionKind)) + "\n"
                       + ("text_sha256:" + p.sha(TextOrEmpty(i.text)))) + "\n"
  {
    var hash := p.sha(TextOrEmpty(i.text));
    PartsLabelled(p, i);
    LinesInterleave(LABELS, AllFields(i, hash));
    Regrouped(i, hash);
    var (parts, text) := (PayloadParts(p, i), Interleave(FreeFields(i), Seps(i.optionKind)));
    assert parts[0] == PAYLOAD_V1 && parts[1..] == Labelled(LABELS, AllFields(i, hash)) && LABELS[0] == "request_id:";
    hide PayloadParts, AllFields, Labelled, LineSeps, Interleave, FreeFields, Seps;
    assert Lines(parts) == PAYLOAD_V1 + "\n" + Lines(parts[1..]);
    hide *;
    Nested(PAYLOAD_V1, "\n", "request_id:", text, "text_sha256:", hash);
  }

  lemma Nested(a: string, b: string, c: string, d: string, e: string, f: string)
    ensures a + b + (c + (d + (b + e) + f) + b) == a + b + c + (d + b + (e + f)) + b
  {
    assert d + (b + e) + f == d + b + (e + f);
  }

  lemma LastNewline(s: string, a: string)
    requires OneLine(a)
    ensures var x := s + "\n" + a; x[|s|] == '\n' && forall k :: |s| < k < |x| ==> x[k] != '\n'
  {
    var x := s + "\n" + a;
    forall k | |s| < k < |x| ensures x[k] != '\n' {
      assert x[k] == a[k - |s| - 1] && a[k - |s| - 1] in a;
    }
  }

  lemma LastLine(s: string, a: string, t: string, b: string)
    requires OneLine(a) && OneLine(b) && s + "\n" + a == t + "\n" + b
    ensures s == t && a == b
  {
    var (x, y) := (s + "\n" + a, t + "\n" + b);
    LastNewline(s, a);
    LastNewline(t, b);
    hide OneLine;
    assert |s| == |t|;
    assert x[..|s|] == s && y[..|t|] == t;
    assert x[|s| + 1..] == a && y[|t| + 1..] == b;
  }

  /** Equal payloads hold the same hash and the same text of fields. */
  lemma SameMiddle(p: Primitives, i: SigningInput, j: SigningInput)
    requires OneLine(p.sha(TextOrEmpty(i.text))) && OneLine(p.sha(TextOrEmpty(j.text)))
    ensures PayloadV1(p, i) == PayloadV1(p, j) <==>
              && Interleave(FreeFields(i), Seps(i.optionKind)) == Interleave(FreeFields(j), Seps(j.optionKind))
              && p.sha(TextOrEmpty(i.text)) == p.sha(TextOrEmpty(j.text))
  {
    PayloadShape(p, i);
    PayloadShape(p, j);
    hide PayloadV1, Interleave, FreeFields, Seps, TextOrEmpty;
    var (s, t) := (Interleave(FreeFields(i), Seps(i.optionKind)), Interleave(FreeFields(j), Seps(j.optionKind)));
    var (a, b) := ("text_sha256:" + p.sha(TextOrEmpty(i.text)), "text_sha256:" + p.sha(TextOrEmpty(j.text)));
    if PayloadV1(p, i) == PayloadV1(p, j) {
      SamePadding(HEAD, s + "\n" + a, t + "\n" + b, "\n");
      LastLine(s, a, t, b);
      SameTail("text_sha256:", p.sha(TextOrEmpty(i.text)), p.sha(TextOrEmpty(j.text)));
    }
  }

  // ----- Rival separators -----

  lemma SameSep(name: string)
    requires OneLine(name)
    ensures Rivals("\n" + name, "\n" + name)
  {
    var s := "\n" + name;
    forall d | 0 < d < |s| ensures Clash(s, d, s) { assert s[d] == name[d - 1] && name[d - 1] in name; }
  }

  /** Two separators of the shape of the kind's: a line of its own between. */
  lemma LineSepApart(open: string, a: string, b: string, close: string)
    requires OneLine(open) && OneLine(a) && OneLine(close) && open != "" && close != "" && open[0] != close[0]
    ensures Apart("\n" + open + a + ("\n" + close), "\n" + open + b + ("\n" + close))
  {
    var (s, r) := ("\n" + open + a + ("\n" + close), "\n" + open + b + ("\n" + close));
    var at := 1 + |open| + |a|;
    assert r[0] == '\n' && r[1] == open[0];
    assert s[at] == '\n' && s[at + 1] == close[0];
    forall d | 0 < d < |s| ensures Clash(s, d, r) {
      assert d <= |open| ==> s[d] == open[d - 1] && open[d - 1] in open;
      assert |open| < d < at ==> s[d] == a[d - 1 - |open|] && a[d - 1 - |open|] in a;
      assert d > at ==> s[d] == close[d - at - 1] && close[d - at - 1] in close;
    }
  }

  lemma LineSepPrefix(open: string, a: string, b: string, close: string)
    requires OneLine(a) && OneLine(b) && open + a + ("\n" + close) <= open + b + ("\n" + close)
    ensures a == b
  {
    var (s, r) := (open + a + ("\n" + close), open + b + ("\n" + close));
    var more := r[|s|..];
    assert r == s + more;
    assert (s + more)[|open|..] == a + "\n" + (close + more);
    assert r[|open|..] == b + "\n" + close;
    FirstLine(a, close + more, b, close);
  }

  lemma KindSepsRival(a: OptionKind, b: OptionKind)
    ensures Rivals(KindSep(a), KindSep(b))
    ensures KindSep(a) == KindSep(b) ==> a == b
  {
    var (x, y) := (KindName(a), KindName(b));
    KindNameOneLine(a);
    KindNameOneLine(b);
    hide KindName;
    LineSepApart("option_kind:", x, y, "user_id:");
    LineSepApart("option_kind:", y, x, "user_id:");
    hide Apart;
    if KindSep(a) <= KindSep(b) { LineSepPrefix("\n" + "option_kind:", x, y, "user_id:"); }
    if KindSep(b) <= KindSep(a) { LineSepPrefix("\n" + "option_kind:", y, x, "user_id:"); }
    if x == y { KindNameInjective(a, b); }
  }

  lemma RivalSeps(a: OptionKind, b: OptionKind)
    requires Rivals(KindSep(a), KindSep(b))
    requires Rivals("\n" + "request_digest:", "\n" + "request_digest:")
    requires Rivals("\n" + "option_id:", "\n" + "option_id:")
    requires Rivals("\n" + "device_id:", "\n" + "device_id:") && Rivals("\n" + "key_id:", "\n" + "key_id:")
    requires Rivals("\n" + "nonce:", "\n" + "nonce:") && Rivals("\n" + "signed_at:", "\n" + "signed_at:")
    ensures AllRivals(Seps(a), Seps(b))
  {
    hide Rivals, KindSep;
  }

  lemma SepsAreRivals(a: OptionKind, b: OptionKind)
    ensures AllRivals(Seps(a), Seps(b))
  {
    KindSepsRival(a, b);
    SameSep("request_digest:");
    SameSep("option_id:");
    SameSep("device_id:");
    SameSep("key_id:");
    SameSep("nonce:");
    SameSep("signed_at:");
    hide *;
    RivalSeps(a, b);
  }

  // ----- The exact condition -----

  /** A separator, for the kind with any kind's name, lies inside the field before
      or the field after its place. */
  ghost predicate Ambiguous(i: SigningInput) {
    exists k, kind :: 0 <= k < 7 && Beside(FreeFields(i), k, Seps(kind)[k])
  }

  function WithFields(i: SigningInput, fields: seq<string>, kind: OptionKind): SigningInput
    requires |fields| == 8
  {
    SigningInput(fields[0], fields[1], fields[2], kind, fields[3], fields[4], fields[5], fields[6], fields[7], i.text)
  }

  lemma SameFields(i: SigningInput, j: SigningInput)
    requires FreeFields(i) == FreeFields(j) && Seps(i.optionKind) == Seps(j.optionKind)
    ensures i.(text := None) == j.(text := None)
  {
    var (f, g) := (FreeFields(i), FreeFields(j));
    assert f[0] == g[0] && f[1] == g[1] && f[2] == g[2] && f[3] == g[3];
    assert f[4] == g[4] && f[5] == g[5] && f[6] == g[6] && f[7] == g[7];
    assert Seps(i.optionKind)[2] == Seps(j.optionKind)[2];
    KindSepsRival(i.optionKind, j.optionKind);
  }

  /** Fields that are not ambiguous are the only ones with their payload. */
  lemma PayloadV1Unambiguous(p: Primitives, i: SigningInput, j: SigningInput)
    requires OneLine(p.sha(TextOrEmpty(i.text))) && OneLine(p.sha(TextOrEmpty(j.text)))
    requires !Ambiguous(i) && PayloadV1(p, i) == PayloadV1(p, j)
    ensures i.(text := None) == j.(text := None)
    ensures p.sha(TextOrEmpty(i.text)) == p.sha(TextOrEmpty(j.text))
  {
    SameMiddle(p, i, j);
    SepsAreRivals(i.optionKind, j.optionKind);
    hide PayloadV1, Interleave, AllRivals, TextOrEmpty;
    assert forall k :: 0 <= k < 7 ==> !Beside(FreeFields(i), k, Seps(j.optionKind)[k]);
    hide FreeFields, Seps, Ambiguous, Beside;
    Recut(FreeFields(i), Seps(i.optionKind), FreeFields(j), Seps(j.optionKind));
    SameFields(i, j);
  }

  lemma OtherSeps(a: OptionKind, kind: OptionKind, k: nat)
    requires k < 7
    ensures Seps(kind)[k] != "" && Seps(a)[k := Seps(kind)[k]] == Seps(if k == 2 then kind else a)
  {
  }

  lemma FreeFieldsOf(i: SigningInput, fields: seq<string>, kind: OptionKind)
    requires |fields| == 8
    ensures FreeFields(WithFields(i, fields, kind)) == fields
  {
  }

  lemma RivalAt(p: Primitives, i: SigningInput, k: nat, kind: OptionKind) returns (j: SigningInput)
    requires OneLine(p.sha(TextOrEmpty(i.text))) && k < 7 && Beside(FreeFields(i), k, Seps(kind)[k])
    ensures PayloadV1(p, j) == PayloadV1(p, i) && j.(text := None) != i.(text := None)
  {
    hide PayloadV1, Interleave, Beside, TextOrEmpty, Seps, OneLine, FreeFields;
    OtherSeps(i.optionKind, kind, k);
    OtherSeps(i.optionKind, i.optionKind, k);
    var fields := CutAnew(FreeFields(i), Seps(i.optionKind), k, Seps(kind)[k]);
    j := WithFields(i, fields, if k == 2 then kind else i.optionKind);
    FreeFieldsOf(i, fields, j.optionKind);
    SameMiddle(p, i, j);
    if j.(text := None) == i.(text := None) { SameFree(i, j); }
  }

  lemma SameFree(i: SigningInput, j: SigningInput)
    requires i.(text := None) == j.(text := None)
    ensures FreeFields(i) == FreeFields(j)
  {
    assert j == i.(text := j.text);
  }

  lemma AmbiguousHasRival(p: Primitives, i: SigningInput) returns (j: SigningInput)
    requires OneLine(p.sha(TextOrEmpty(i.text))) && Ambiguous(i)
    ensures PayloadV1(p, j) == PayloadV1(p, i) && j.(text := None) != i.(text := None)
  {
    hide PayloadV1, OneLine, FreeFields, Seps, Beside;
    var k, kind :| 0 <= k < 7 && Beside(FreeFields(i), k, Seps(kind)[k]);
    j := RivalAt(p, i, k, kind);
  }

  /** Exactly when the first payload can be read in two ways: the payload of `i` is
      also that of other fields if and only if some separator of the payload occurs
      inside a field beside its own place. */
  lemma PayloadV1AmbiguousIff(p: Primitives, i: SigningInput)
    requires forall t :: OneLine(p.sha(t))
    ensures (exists j :: PayloadV1(p, j) == PayloadV1(p, i) && j.(text := None) != i.(text := None)) <==> Ambiguous(i)
  {
    hide PayloadV1, Beside;
    if Ambiguous(i) {
      var j := AmbiguousHasRival(p, i);
    } else {
      forall j | PayloadV1(p, j) == PayloadV1(p, i) ensures j.(text := None) == i.(text := None) {
        PayloadV1Unambiguous(p, i, j);
      }
    }
  }

  lemma {:induction false} NoNewlineNoSeparator(s: string, sep: string)
    requires OneLine(s) && sep != "" && sep[0] == '\n'
    ensures !Occurs(sep, s)
  {
    assert forall n: nat :: n + |sep| <= |s| ==> s[n] in s && s[n..n + |sep|][0] == s[n];
  }

  /** Without newlines there is no ambiguity; a newline alone does not make one. */
  lemma OneLineNotAmbiguous(i: SigningInput)
    requires OneLineInput(i)
    ensures !Ambiguous(i)
  {
    forall k, kind | 0 <= k < 7 ensures !Beside(FreeFields(i), k, Seps(kind)[k]) {
      assert Seps(kind)[k][0] == '\n';
      NoNewlineNoSeparator(FreeFields(i)[k], Seps(kind)[k]);
      NoNewlineNoSeparator(FreeFields(i)[k + 1], Seps(kind)[k]);
    }
  }
}
