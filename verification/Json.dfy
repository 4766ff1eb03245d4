/** JSON values, the compact printer of `serde_json`, the canonical printer, and
    a parser for the grammar of RFC 8259 without insignificant white space. */
module Json {
  import opened Common
  import Digits

  datatype Json =
    | Null
    | Bool(b: bool)
    | Number(n: int)
    | Float(repr: real)
    | Str(s: string)
    | Arr(items: seq<Json>)
    | Obj(members: seq<Member>)

  datatype Member = Member(key: string, value: Json)

  // ----- Strings (section 7 of RFC 8259) -----

  function HexChar(d: nat): char
    requires d < 16
  {
    if d < 10 then Digits.DigitChar(d) else ('a' as int + d - 10) as char
  }

  function HexValue(c: char): Option<nat> {
    if '0' <= c <= '9' then Some(c as int - '0' as int)
    else if 'a' <= c <= 'f' then Some(c as int - 'a' as int + 10)
    else if 'A' <= c <= 'F' then Some(c as int - 'A' as int + 10)
    else None
  }

  /** `serde_json` escapes the quotation mark, the reverse solidus and the
      control characters, with two-character forms where they exist. */
  function Escape(c: char): (e: string)
    ensures e != ""
  {
    var code := c as int;
    if c == '"' then ['\\', '"']
    else if c == '\\' then ['\\', '\\']
    else if code == 0x08 then ['\\', 'b']
    else if code == 0x09 then ['\\', 't']
    else if code == 0x0a then ['\\', 'n']
    else if code == 0x0c then ['\\', 'f']
    else if code == 0x0d then ['\\', 'r']
    else if code < 0x20 then ['\\', 'u', '0', '0', HexChar(code / 16), HexChar(code % 16)]
    else [c]
  }

  function EscapeAll(s: string): string {
    if s == "" then "" else Escape(s[0]) + EscapeAll(s[1..])
  }

  function Quote(s: string): string {
    ['"'] + EscapeAll(s) + ['"']
  }

  /** One possibly escaped character and the text after it. */
  function ParseChar(s: string): (r: Option<(char, string)>)
    ensures r.Some? ==> |r.value.1| < |s|
  {
    if s == "" || s[0] == '"' || (s[0] as int) < 0x20 then None
    else if s[0] != '\\' then Some((s[0], s[1..]))
    else if |s| < 2 then None
    else
      var rest := s[2..];
      match s[1]
      case '"' => Some(('"', rest))
      case '\\' => Some(('\\', rest))
      case '/' => Some(('/', rest))
      case 'b' => Some((8 as char, rest))
      case 't' => Some((9 as char, rest))
      case 'n' => Some((10 as char, rest))
      case 'f' => Some((12 as char, rest))
      case 'r' => Some((13 as char, rest))
      case 'u' => ParseHex4(rest)
      case _ => None
  }

  /** Four hexadecimal digits naming a scalar value; surrogates are refused. */
  function ParseHex4(s: string): (r: Option<(char, string)>)
    ensures r.Some? ==> |r.value.1| < |s|
  {
    if |s| < 4 then None
    else
      var (a, b, c, d) := (HexValue(s[0]), HexValue(s[1]), HexValue(s[2]), HexValue(s[3]));
      if a.None? || b.None? || c.None? || d.None? then None
      else
        var code := a.value * 4096 + b.value * 256 + c.value * 16 + d.value;
        if code < 0xd800 || 0xe000 <= code < 0x10000 then Some((code as char, s[4..])) else None
  }

  /** The rest of a string literal after its opening quotation mark. */
  function ParseString(s: string): (r: Option<(string, string)>)
    ensures r.Some? ==> |r.value.1| < |s|
    decreases |s|
  {
    if s == "" then None
    else if s[0] == '"' then Some(("", s[1..]))
    else
      var first := ParseChar(s);
      if first.None? then None
      else
        var tail := ParseString(first.value.1);
        if tail.None? then None else Some(([first.value.0] + tail.value.0, tail.value.1))
  }

  lemma EscapeParses(c: char, rest: string)
    ensures ParseChar(Escape(c) + rest) == Some((c, rest))
    ensures Escape(c)[0] != '"'
  {
    var e := Escape(c);
    var s := e + rest;
    if |e| == 1 {
      assert s[1..] == rest;
    } else if |e| == 2 {
      assert s[2..] == rest;
    } else {
      assert s[2..] == e[2..] + rest;
      Hex4Parses(c as int, rest);
    }
  }

  lemma Hex4Parses(code: nat, rest: string)
    requires code < 0x20
    ensures ParseHex4(['0', '0', HexChar(code / 16), HexChar(code % 16)] + rest) == Some((code as char, rest))
  {
    var s := ['0', '0', HexChar(code / 16), HexChar(code % 16)] + rest;
    HexCharValue(code / 16);
    HexCharValue(code % 16);
    assert s[4..] == rest;
  }

  lemma HexCharValue(d: nat)
    requires d < 16
    ensures HexValue(HexChar(d)) == Some(d)
  {
  }

  /** One step of reading a string. */
  lemma ParseStringStep(s: string, c: char, tail: string, more: string, rest: string)
    requires s != "" && s[0] != '"' && ParseChar(s) == Some((c, tail)) && ParseString(tail) == Some((more, rest))
    ensures ParseString(s) == Some(([c] + more, rest))
  {
    hide ParseChar;
  }

  lemma {:induction false} QuoteParses(s: string, rest: string)
    ensures ParseString(EscapeAll(s) + ['"'] + rest) == Some((s, rest))
  {
    var text := EscapeAll(s) + ['"'] + rest;
    if s == "" {
      hide ParseChar;
      assert text == ['"'] + rest;
      assert text[1..] == rest;
    } else {
      var tail := EscapeAll(s[1..]) + ['"'] + rest;
      assert text == Escape(s[0]) + tail;
      hide *;
      EscapeParses(s[0], tail);
      QuoteParses(s[1..], rest);
      ParseStringStep(text, s[0], tail, s[1..], rest);
      assert s == [s[0]] + s[1..];
    }
  }

  // ----- Printing in the given member order -----

  function NumberText(n: int): string {
    if n < 0 then ['-'] + Digits.Print(-n) else Digits.Print(n)
  }

  function Text(v: Json): string
    decreases v, 0
  {
    match v
    case Null => "null"
    case Bool(b) => if b then "true" else "false"
    case Number(n) => NumberText(n)
    case Float(_) => ""
    case Str(s) => Quote(s)
    case Arr(items) => "[" + ItemsText(items) + "]"
    case Obj(members) => "{" + MembersText(members) + "}"
  }

  function ItemsText(items: seq<Json>): string
    decreases items, 0
  {
    if items == [] then ""
    else Text(items[0]) + if |items| == 1 then "" else "," + ItemsText(items[1..])
  }

  function MembersText(members: seq<Member>): string
    decreases members, 0
  {
    if members == [] then ""
    else MemberText(members[0]) + if |members| == 1 then "" else "," + MembersText(members[1..])
  }

  function MemberText(m: Member): string
    decreases m, 1
  {
    Quote(m.key) + ":" + Text(m.value)
  }

  predicate IsAscii(s: string) {
    forall i :: 0 <= i < |s| ==> (s[i] as int) < 128
  }

  /** No float anywhere in the tree. */
  predicate FloatFree(v: Json)
    decreases v, 0
  {
    match v
    case Float(_) => false
    case Arr(items) => forall i :: 0 <= i < |items| ==> FloatFree(items[i])
    case Obj(members) => forall i :: 0 <= i < |members| ==> FloatFree(members[i].value)
    case _ => true
  }

  /** Every member key in the tree is ASCII. */
  predicate AsciiKeys(v: Json)
    decreases v, 0
  {
    match v
    case Arr(items) => forall i :: 0 <= i < |items| ==> AsciiKeys(items[i])
    case Obj(members) => forall i :: 0 <= i < |members| ==> IsAscii(members[i].key) && AsciiKeys(members[i].value)
    case _ => true
  }

  // ----- Parsing -----

  /** One value and the text after it. */
  function ParseValue(s: string): (r: Option<(Json, string)>)
    ensures r.Some? ==> |r.value.1| < |s|
    decreases |s|, 2
  {
    if s == "" then None
    else if s[0] == 'n' then if "null" <= s then Some((Null, s[4..])) else None
    else if s[0] == 't' then if "true" <= s then Some((Bool(true), s[4..])) else None
    else if s[0] == 'f' then if "false" <= s then Some((Bool(false), s[5..])) else None
    else if s[0] == '"' then
      var r := ParseString(s[1..]);
      if r.None? then None else Some((Str(r.value.0), r.value.1))
    else if s[0] == '[' then
      if |s| > 1 && s[1] == ']' then Some((Arr([]), s[2..]))
      else
        var r := ParseItems(s[1..]);
        if r.None? then None else Some((Arr(r.value.0), r.value.1))
    else if s[0] == '{' then
      if |s| > 1 && s[1] == '}' then Some((Obj([]), s[2..]))
      else
        var r := ParseMembers(s[1..]);
        if r.None? then None else Some((Obj(r.value.0), r.value.1))
    else if s[0] == '-' then
      var r := ParseNat(s[1..]);
      if r.None? then None else
        var magnitude: int := r.value.0;
        Some((Number(-magnitude), r.value.1))
    else
      var r := ParseNat(s);
      if r.None? then None else Some((Number(r.value.0), r.value.1))
  }

  /** An integer part: no leading zero. */
  function ParseNat(s: string): (r: Option<(nat, string)>)
    ensures r.Some? ==> |r.value.1| < |s|
  {
    var run := Digits.DigitRun(s);
    if run == "" || (|run| > 1 && run[0] == '0') then None
    else Some((Digits.Value(run), s[|run|..]))
  }

  /** Items up to and including the closing bracket. */
  function ParseItems(s: string): (r: Option<(seq<Json>, string)>)
    ensures r.Some? ==> |r.value.1| < |s|
    decreases |s|, 3
  {
    var first := ParseValue(s);
    if first.None? || first.value.1 == "" then None
    else
      var after := first.value.1;
      if after[0] == ']' then Some(([first.value.0], after[1..]))
      else if after[0] != ',' then None
      else
        var rest := ParseItems(after[1..]);
        if rest.None? then None else Some(([first.value.0] + rest.value.0, rest.value.1))
  }

  function ParseMember(s: string): (r: Option<(Member, string)>)
    ensures r.Some? ==> |r.value.1| < |s|
    decreases |s|, 3
  {
    if s == "" || s[0] != '"' then None
    else
      var key := ParseString(s[1..]);
      if key.None? || key.value.1 == "" || key.value.1[0] != ':' then None
      else
        var value := ParseValue(key.value.1[1..]);
        if value.None? then None else Some((Member(key.value.0, value.value.0), value.value.1))
  }

  /** Members up to and including the closing brace. */
  function ParseMembers(s: string): (r: Option<(seq<Member>, string)>)
    ensures r.Some? ==> |r.value.1| < |s|
    decreases |s|, 4
  {
    var first := ParseMember(s);
    if first.None? || first.value.1 == "" then None
    else
      var after := first.value.1;
      if after[0] == '}' then Some(([first.value.0], after[1..]))
      else if after[0] != ',' then None
      else
        var rest := ParseMembers(after[1..]);
        if rest.None? then None else Some(([first.value.0] + rest.value.0, rest.value.1))
  }

  ghost predicate EndsNumber(rest: string) {
    rest != "" ==> !Digits.IsDigit(rest[0])
  }

  lemma NatParses(n: nat, rest: string)
    requires EndsNumber(rest)
    ensures ParseNat(Digits.Print(n) + rest) == Some((n, rest))
  {
    Digits.DigitRunAppend(Digits.Print(n), rest);
    Digits.PrintValue(n);
    assert (Digits.Print(n) + rest)[|Digits.Print(n)|..] == rest;
  }

  lemma ParseNumber(s: string)
    requires s != "" && (s[0] == '-' || Digits.IsDigit(s[0]))
    ensures var r := ParseNat(if s[0] == '-' then s[1..] else s);
            ParseValue(s) == if r.None? then None
                             else Some((Number(if s[0] == '-' then -(r.value.0 as int) else r.value.0), r.value.1))
  {
    hide ParseNat, ParseItems, ParseMembers, ParseString;
  }

  lemma ParseArray(s: string, items: seq<Json>, rest: string)
    requires s != "" && s[0] != ']' && ParseItems(s) == Some((items, rest))
    ensures ParseValue("[" + s) == Some((Arr(items), rest))
  {
    hide ParseItems, ParseMembers, ParseString, ParseNat;
    assert ("[" + s)[1..] == s;
  }

  lemma ParseObject(s: string, members: seq<Member>, rest: string)
    requires s != "" && s[0] != '}' && ParseMembers(s) == Some((members, rest))
    ensures ParseValue("{" + s) == Some((Obj(members), rest))
  {
    hide ParseItems, ParseMembers, ParseString, ParseNat;
    assert ("{" + s)[1..] == s;
  }

  lemma ParseQuoted(t: string, rest: string)
    ensures ParseValue(Quote(t) + rest) == Some((Str(t), rest))
  {
    hide ParseItems, ParseMembers, ParseString, ParseNat, EscapeAll;
    QuoteParses(t, rest);
    assert (Quote(t) + rest)[1..] == EscapeAll(t) + ['"'] + rest;
  }

  lemma DigitsParse(digits: string, m: nat, rest: string)
    requires digits != "" && Digits.IsDigit(digits[0]) && ParseNat(digits + rest) == Some((m, rest))
    ensures ParseValue(digits + rest) == Some((Number(m), rest))
    ensures ParseValue(['-'] + digits + rest) == Some((Number(-(m as int)), rest))
  {
    hide ParseValue, ParseNat;
    assert (digits + rest)[0] == digits[0];
    ParseNumber(digits + rest);
    var s := ['-'] + digits + rest;
    assert s[1..] == digits + rest;
    ParseNumber(s);
  }

  lemma NumberParses(n: int, rest: string)
    requires EndsNumber(rest)
    ensures ParseValue(NumberText(n) + rest) == Some((Number(n), rest))
  {
    hide ParseValue, ParseNat, Digits.Print, EndsNumber;
    var m: nat := if n < 0 then -n else n;
    NatParses(m, rest);
    DigitsParse(Digits.Print(m), m, rest);
  }

  /** Parsing undoes printing, with any text that cannot extend a number
      following. */
  lemma {:induction false} TextParses(v: Json, rest: string)
    requires FloatFree(v) && EndsNumber(rest)
    ensures ParseValue(Text(v) + rest) == Some((v, rest))
    decreases v, 0
  {
    match v
    case Arr(items) => ArrParses(items, rest);
    case Obj(members) => ObjParses(members, rest);
    case _ => LeafParses(v, rest);
  }

  lemma {:induction false} ArrParses(items: seq<Json>, rest: string)
    requires EndsNumber(rest) && forall i :: 0 <= i < |items| ==> FloatFree(items[i])
    ensures ParseValue(Text(Arr(items)) + rest) == Some((Arr(items), rest))
    decreases items, 1
  {
    if items == [] {
      LeafParses(Arr(items), rest);
    } else {
      hide ParseValue, ParseItems, ItemsText;
      ItemsParse(items, rest);
      ItemsTextStart(items);
      ParseArray(ItemsText(items) + "]" + rest, items, rest);
      assert Text(Arr(items)) + rest == "[" + (ItemsText(items) + "]" + rest);
    }
  }

  lemma {:induction false} ObjParses(members: seq<Member>, rest: string)
    requires EndsNumber(rest) && forall i :: 0 <= i < |members| ==> FloatFree(members[i].value)
    ensures ParseValue(Text(Obj(members)) + rest) == Some((Obj(members), rest))
    decreases members, 1
  {
    if members == [] {
      LeafParses(Obj(members), rest);
    } else {
      hide ParseValue, ParseMembers, MembersText;
      MembersParse(members, rest);
      MembersTextStart(members);
      ParseObject(MembersText(members) + "}" + rest, members, rest);
      assert Text(Obj(members)) + rest == "{" + (MembersText(members) + "}" + rest);
    }
  }

  /** The values without children. */
  lemma LeafParses(v: Json, rest: string)
    requires FloatFree(v) && EndsNumber(rest)
    requires v.Arr? ==> v.items == []
    requires v.Obj? ==> v.members == []
    ensures ParseValue(Text(v) + rest) == Some((v, rest))
  {
    hide ParseItems, ParseMembers, ParseString, ParseNat;
    assert (Text(v) + rest)[|Text(v)|..] == rest;
    match v
    case Number(n) => NumberParses(n, rest);
    case Str(t) => ParseQuoted(t, rest);
    case _ =>
  }

  lemma TextStart(v: Json)
    requires FloatFree(v)
    ensures Text(v) != "" && Text(v)[0] != ']'
  {
  }

  lemma ItemsTextStart(items: seq<Json>)
    requires items != [] && FloatFree(items[0])
    ensures ItemsText(items) != "" && ItemsText(items)[0] != ']'
  {
    TextStart(items[0]);
  }

  lemma MembersTextStart(members: seq<Member>)
    requires members != []
    ensures MembersText(members) != "" && MembersText(members)[0] == '"'
  {
  }

  lemma ParseItemsStep(s: string, v: Json, tail: string, more: seq<Json>, rest: string)
    requires ParseValue(s) == Some((v, "," + tail)) && ParseItems(tail) == Some((more, rest))
    ensures ParseItems(s) == Some(([v] + more, rest))
  {
    hide ParseValue;
    assert ("," + tail)[1..] == tail;
  }

  lemma {:induction false} ItemsParse(items: seq<Json>, rest: string)
    requires items != [] && forall i :: 0 <= i < |items| ==> FloatFree(items[i])
    ensures ParseItems(ItemsText(items) + "]" + rest) == Some((items, rest))
    decreases items, 0
  {
    var s := ItemsText(items) + "]" + rest;
    if |items| == 1 {
      hide ParseValue, Text;
      TextParses(items[0], "]" + rest);
      assert s == Text(items[0]) + ("]" + rest);
      assert ("]" + rest)[1..] == rest;
      assert items == [items[0]];
    } else {
      hide ParseValue, ParseItems, Text, FloatFree;
      var tail := ItemsText(items[1..]) + "]" + rest;
      TextParses(items[0], "," + tail);
      ItemsParse(items[1..], rest);
      assert s == Text(items[0]) + ("," + tail);
      ParseItemsStep(s, items[0], tail, items[1..], rest);
      assert items == [items[0]] + items[1..];
    }
  }

  lemma {:induction false} MemberParses(m: Member, rest: string)
    requires FloatFree(m.value) && EndsNumber(rest)
    ensures ParseMember(MemberText(m) + rest) == Some((m, rest))
    decreases m, 1
  {
    hide ParseValue, ParseString, EscapeAll, Text;
    var s := MemberText(m) + rest;
    var tail := ":" + Text(m.value) + rest;
    QuoteParses(m.key, tail);
    assert s[1..] == EscapeAll(m.key) + ['"'] + tail;
    assert tail[1..] == Text(m.value) + rest;
    TextParses(m.value, rest);
  }

  lemma ParseMembersStep(s: string, m: Member, tail: string, more: seq<Member>, rest: string)
    requires ParseMember(s) == Some((m, "," + tail)) && ParseMembers(tail) == Some((more, rest))
    ensures ParseMembers(s) == Some(([m] + more, rest))
  {
    hide ParseMember;
    assert ("," + tail)[1..] == tail;
  }

  lemma {:induction false} MembersParse(members: seq<Member>, rest: string)
    requires members != [] && forall i :: 0 <= i < |members| ==> FloatFree(members[i].value)
    ensures ParseMembers(MembersText(members) + "}" + rest) == Some((members, rest))
    decreases members, 0
  {
    var s := MembersText(members) + "}" + rest;
    if |members| == 1 {
      hide ParseMember, MemberText;
      MemberParses(members[0], "}" + rest);
      assert s == MemberText(members[0]) + ("}" + rest);
      assert ("}" + rest)[1..] == rest;
      assert members == [members[0]];
    } else {
      hide ParseMember, ParseMembers, MemberText, FloatFree;
      var tail := MembersText(members[1..]) + "}" + rest;
      MemberParses(members[0], "," + tail);
      MembersParse(members[1..], rest);
      assert s == MemberText(members[0]) + ("," + tail);
      ParseMembersStep(s, members[0], tail, members[1..], rest);
      assert members == [members[0]] + members[1..];
    }
  }

  /** Printing is injective on values without floats. */
  lemma TextInjective(v: Json, w: Json)
    requires FloatFree(v) && FloatFree(w) && Text(v) == Text(w)
    ensures v == w
  {
    TextParses(v, "");
    TextParses(w, "");
    assert Text(v) + "" == Text(v) && Text(w) + "" == Text(w);
  }
}
