/** Answer definitions: their validation and their JSON form. */
module Answers {
  import opened Common
  import opened Requests
  import opened Texts
  import opened Json
  import Decimal
  import Digits

  function ValueJson(v: AnswerValue): Json {
    match v
    case ChoiceValue(id) => Obj([Member("choice_id", Str(id)), Member("kind", Str("choice"))])
    case NumberValue(d) => Obj([Member("decimal", Str(d)), Member("kind", Str("number"))])
    case DateValue(d) => Obj([Member("date", Str(d)), Member("kind", Str("date"))])
    case DateTimeValue(i) => Obj([Member("instant", Str(i)), Member("kind", Str("date_time"))])
  }

  function ChoiceJson(c: AnswerChoice): Json {
    Obj([Member("id", Str(c.id)), Member("label", Str(c.labelText))])
  }

  function FieldJson(f: AnswerField): Json {
    var default, caption := Member("default", ValueJson(f.default)), Member("label", Str(f.labelText));
    match f
    case ChoiceField(_, choices, _) =>
      Obj([Member("choices", Arr(seq(|choices|, i requires 0 <= i < |choices| => ChoiceJson(choices[i])))),
           default, Member("kind", Str("choice")), caption])
    case NumberField(_, _) => Obj([default, Member("kind", Str("number")), caption])
    case DateField(_, _) => Obj([default, Member("kind", Str("date")), caption])
    case DateTimeField(_, _) => Obj([default, Member("kind", Str("date_time")), caption])
  }

  predicate ValidLabel(value: string, max: nat) {
    value != "" && Trim(value) == value && |value| <= max && forall i :: 0 <= i < |value| ==> !IsControl(value[i])
  }

  predicate ValidChoiceId(id: string) {
    id != "" && |id| <= 40
    && forall i :: 0 <= i < |id| ==>
         Digits.IsDigit(id[i]) || 'a' <= id[i] <= 'z' || 'A' <= id[i] <= 'Z' || id[i] == '_' || id[i] == '-'
  }

  predicate ValidChoices(choices: seq<AnswerChoice>) {
    && 2 <= |choices| <= 12
    && (forall i :: 0 <= i < |choices| ==> ValidChoiceId(choices[i].id) && ValidLabel(choices[i].labelText, 48))
    && (forall i, j :: 0 <= i < j < |choices| ==>
          choices[i].id != choices[j].id && choices[i].labelText != choices[j].labelText)
  }

  function DaysIn(year: nat, month: nat): nat {
    if month in {1, 3, 5, 7, 8, 10, 12} then 31
    else if month in {4, 6, 9, 11} then 30
    else if month == 2 then
      if year % 4 == 0 && (year % 100 != 0 || year % 400 == 0) then 29 else 28
    else 0
  }

  /** `yyyy-mm-dd` in the proleptic Gregorian calendar, from year 1. */
  predicate ValidDate(s: string) {
    && |s| == 10 && s[4] == '-' && s[7] == '-'
    && Digits.AllDigits(s[..4]) && Digits.AllDigits(s[5..7]) && Digits.AllDigits(s[8..])
    && var (year, month, day) := (Digits.Value(s[..4]), Digits.Value(s[5..7]), Digits.Value(s[8..]));
       year != 0 && day != 0 && day <= DaysIn(year, month)
  }

  /** `yyyy-mm-ddThh:mm:00Z`. */
  predicate ValidInstant(s: string) {
    && |s| == 20 && ValidDate(s[..10]) && s[10] == 'T' && s[13] == ':' && s[16..] == ":00Z"
    && Digits.AllDigits(s[11..13]) && Digits.AllDigits(s[14..16])
    && Digits.Value(s[11..13]) < 24 && Digits.Value(s[14..16]) < 60
  }

  /** `AnswerField::validate_value`. */
  predicate ValidValue(field: AnswerField, value: AnswerValue) {
    if field.ChoiceField? && value.ChoiceValue? then
      exists i :: 0 <= i < |field.choices| && field.choices[i].id == value.choiceId
    else if field.NumberField? && value.NumberValue? then Decimal.ValidDecimal(value.decimal)
    else if field.DateField? && value.DateValue? then ValidDate(value.date)
    else field.DateTimeField? && value.DateTimeValue? && ValidInstant(value.instant)
  }

  /** `AnswerField::validate`. The size limit counts the bytes of the JSON form,
      which do not depend on member order. */
  predicate ValidField(field: AnswerField) {
    && ValidLabel(field.labelText, 64)
    && Utf8Len(Text(FieldJson(field))) <= 4096
    && (field.ChoiceField? ==> ValidChoices(field.choices))
    && ValidValue(field, field.default)
  }

  /** An answer of the kind the field asks for: one of its choices, a canonical decimal,
      a date or an instant. */
  ghost predicate Fits(field: AnswerField, answer: AnswerValue) {
    match field
    case ChoiceField(_, choices, _) =>
      answer.ChoiceValue? && exists i :: 0 <= i < |choices| && choices[i].id == answer.choiceId
    case NumberField(_, _) => answer.NumberValue? && Decimal.ValidDecimal(answer.decimal)
    case DateField(_, _) => answer.DateValue? && ValidDate(answer.date)
    case DateTimeField(_, _) => answer.DateTimeValue? && ValidInstant(answer.instant)
  }

  ghost predicate Visible(value: string, max: nat) {
    && 0 < |value| <= max && !IsWhitespace(value[0]) && !IsWhitespace(value[|value| - 1])
    && forall i :: 0 <= i < |value| ==> !IsControl(value[i])
  }

  /** Which definitions are accepted: a visible label of up to 64 characters, at most 4096
      bytes, a default of its own kind, and for a choice two to twelve distinct ids of up
      to 40 letters, digits and two signs, with distinct visible labels of up to 48. */
  lemma ValidFieldIff(field: AnswerField)
    ensures ValidField(field) <==>
              && Visible(field.labelText, 64) && Utf8Len(Text(FieldJson(field))) <= 4096 && Fits(field, field.default)
              && (field.ChoiceField? ==>
                    var cs := field.choices;
                    && 2 <= |cs| <= 12
                    && (forall i :: 0 <= i < |cs| ==>
                          && 0 < |cs[i].id| <= 40 && Visible(cs[i].labelText, 48)
                          && forall k :: 0 <= k < |cs[i].id| ==> IdCharacter(cs[i].id[k]))
                    && (forall i, j :: 0 <= i < |cs| && 0 <= j < |cs| && i != j ==>
                          cs[i].id != cs[j].id && cs[i].labelText != cs[j].labelText))
  {
    forall value, max: nat ensures ValidLabel(value, max) <==> Visible(value, max) { TrimmedIff(value); }
    hide ValidLabel, Visible, Utf8Len, Text, FieldJson, ValidDate, ValidInstant, Decimal.ValidDecimal;
    if field.ChoiceField? {
      forall i | 0 <= i < |field.choices|
        ensures ValidChoiceId(field.choices[i].id) <==>
                  && 0 < |field.choices[i].id| <= 40
                  && forall k :: 0 <= k < |field.choices[i].id| ==> IdCharacter(field.choices[i].id[k])
      {
        ChoiceIdIff(field.choices[i].id);
      }
      hide ValidChoiceId;
    }
  }

  const LOWER := "abcdefghijklmnopqrstuvwxyz"
  const UPPER := "ABCDEFGHIJKLMNOPQRSTUVWXYZ"

  ghost predicate IdCharacter(c: char) {
    c in "0123456789" || c in LOWER || c in UPPER || c in "_-"
  }

  lemma ChoiceIdIff(id: string)
    ensures ValidChoiceId(id) <==> 0 < |id| <= 40 && forall k :: 0 <= k < |id| ==> IdCharacter(id[k])
  {
    forall c: char
      ensures IdCharacter(c) <==> Digits.IsDigit(c) || 'a' <= c <= 'z' || 'A' <= c <= 'Z' || c == '_' || c == '-'
    {
      InDigits(c);
      InLower(c);
      InUpper(c);
    }
    hide IdCharacter;
  }

  lemma InDigits(c: char)
    ensures c in "0123456789" <==> Digits.IsDigit(c)
  {
    if Digits.IsDigit(c) { assert "0123456789"[c as int - '0' as int] == c; }
  }

  lemma InLower(c: char)
    ensures c in LOWER <==> 'a' <= c <= 'z'
  {
    if 'a' <= c <= 'z' { assert LOWER[c as int - 'a' as int] == c; }
  }

  lemma InUpper(c: char)
    ensures c in UPPER <==> 'A' <= c <= 'Z'
  {
    if 'A' <= c <= 'Z' { assert UPPER[c as int - 'A' as int] == c; }
  }

  lemma ValueJsonInjective(v: AnswerValue, w: AnswerValue)
    requires ValueJson(v) == ValueJson(w)
    ensures v == w
  {
    assert ValueJson(v).members[1].value.s == ValueJson(w).members[1].value.s;
    assert ValueJson(v).members[0] == ValueJson(w).members[0];
  }

  lemma FieldJsonInjective(f: AnswerField, g: AnswerField)
    requires FieldJson(f) == FieldJson(g)
    ensures f == g
  {
    var ms, ns := FieldJson(f).members, FieldJson(g).members;
    var n := |ms|;
    assert ms[n - 1] == ns[n - 1] && ms[n - 2] == ns[n - 2] && ms[n - 3] == ns[n - 3];
    ValueJsonInjective(f.default, g.default);
    if f.ChoiceField? {
      assert ms[0] == ns[0];
      forall i | 0 <= i < |f.choices| ensures i < |g.choices| && f.choices[i] == g.choices[i] {
        assert ms[0].value.items[i] == ns[0].value.items[i];
        assert ChoiceJson(f.choices[i]) == ChoiceJson(g.choices[i]);
        assert ChoiceJson(f.choices[i]).members[0] == ChoiceJson(g.choices[i]).members[0];
        assert ChoiceJson(f.choices[i]).members[1] == ChoiceJson(g.choices[i]).members[1];
      }
      assert |ms[0].value.items| == |f.choices| && |ns[0].value.items| == |g.choices|;
    }
  }
}
