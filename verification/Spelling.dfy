/** Which of the spellings RFC 8259 allows the printer writes: the shortest one, with
    lower-case hexadecimal digits. */
module Spelling {
  import opened Common
  import opened Json
  import Digits

  ghost predicate NoCapital(s: string) {
    forall i :: 0 <= i < |s| ==> !('A' <= s[i] <= 'Z')
  }

  /** No spelling of a character is shorter than the printer's, and no other of that
      length is free of capital letters after its reverse solidus. */
  lemma EscapeShortest(c: char, t: string, rest: string)
    requires ParseChar(t) == Some((c, rest))
    ensures |Escape(c)| + |rest| <= |t|
    ensures |Escape(c)| > 1 ==> NoCapital(Escape(c))
    ensures |Escape(c)| + |rest| == |t| && (|Escape(c)| > 1 ==> NoCapital(t[..|Escape(c)|])) ==> t == Escape(c) + rest
  {
    if t[0] != '\\' {
      assert t == [t[0]] + t[1..];
    } else if t[1] != 'u' {
      ShortForm(c, t, rest);
    } else {
      LongForm(c, t, rest);
    }
  }

  lemma ShortForm(c: char, t: string, rest: string)
    requires ParseChar(t) == Some((c, rest)) && t[0] == '\\' && t[1] != 'u'
    ensures |Escape(c)| + |rest| <= |t| && (|Escape(c)| > 1 ==> NoCapital(Escape(c)) && t == Escape(c) + rest)
  {
    assert t == [t[0], t[1]] + t[2..];
  }

  /** The three shapes the printer uses. */
  lemma EscapeForms(c: char)
    ensures var e := Escape(c);
            && 1 <= |e| <= 6 && (|e| > 1 ==> NoCapital(e))
            && (|e| == 6 ==> (c as int) < 0x20
                             && e == ['\\', 'u'] + ['0', '0', HexChar(c as int / 16), HexChar(c as int % 16)])
  {
    if (c as int) < 0x20 { HexDigits(c as int); }
    hide HexChar;
  }

  lemma LongForm(c: char, t: string, rest: string)
    requires ParseChar(t) == Some((c, rest)) && t[0] == '\\' && t[1] == 'u'
    ensures |Escape(c)| + |rest| <= |t| && |t| == 6 + |rest|
    ensures |Escape(c)| > 1 ==> NoCapital(Escape(c))
    ensures |Escape(c)| == 6 && NoCapital(t[..6]) ==> t == Escape(c) + rest
  {
    assert ParseHex4(t[2..]) == Some((c, rest));
    hide ParseChar, ParseHex4, HexChar, Escape;
    EscapeForms(c);
    Hex4Unique(t[2..], c, rest);
    if |Escape(c)| == 6 && NoCapital(t[..6]) {
      assert forall i :: 0 <= i < 4 ==> t[2..][..4][i] == t[..6][i + 2];
      assert t == ['\\', 'u'] + t[2..];
    }
  }

  lemma HexDigits(code: nat)
    requires code < 0x20
    ensures HexChar(code / 16) == (if code < 16 then '0' else '1')
    ensures var d := HexChar(code % 16); Digits.IsDigit(d) || 'a' <= d <= 'f'
  {
  }

  lemma Hex4Unique(s: string, c: char, rest: string)
    requires ParseHex4(s) == Some((c, rest))
    ensures |s| == 4 + |rest| && s == s[..4] + rest
    ensures (c as int) < 0x20 && NoCapital(s[..4]) ==>
              s[..4] == ['0', '0', HexChar(c as int / 16), HexChar(c as int % 16)]
  {
    var (x, y, z, w) := (HexValue(s[0]).value, HexValue(s[1]).value, HexValue(s[2]).value, HexValue(s[3]).value);
    assert s == s[..4] + s[4..];
    if (c as int) < 0x20 && NoCapital(s[..4]) {
      assert x == 0 && y == 0 && z == c as int / 16 && w == c as int % 16;
      assert s[..4][0] == s[0] && s[..4][1] == s[1] && s[..4][2] == s[2] && s[..4][3] == s[3];
      HexUnique(s[0]);
      HexUnique(s[1]);
      HexUnique(s[2]);
      HexUnique(s[3]);
      assert s[..4] == [s[0], s[1], s[2], s[3]];
    }
  }

  lemma HexUnique(c: char)
    requires HexValue(c).Some? && !('A' <= c <= 'Z')
    ensures HexValue(c).value < 16 && c == HexChar(HexValue(c).value)
  {
  }

  /** A string without quotation mark, reverse solidus and control characters is printed
      as itself between quotation marks. */
  lemma {:induction false} PlainStringAsItself(s: string)
    requires forall i :: 0 <= i < |s| ==> s[i] != '"' && s[i] != '\\' && s[i] as int >= 0x20
    ensures Quote(s) == ['"'] + s + ['"']
  {
    if s != "" {
      PlainStringAsItself(s[1..]);
      assert EscapeAll(s[1..]) == Quote(s[1..])[1..|Quote(s[1..])| - 1] == s[1..];
      assert s == [s[0]] + s[1..];
    }
  }

  lemma {:induction false} StringShortest(s: string, t: string, rest: string)
    requires ParseString(t) == Some((s, rest))
    ensures |EscapeAll(s)| + 1 + |rest| <= |t|
    decreases |t|
  {
    if t[0] != '"' {
      var (c, tail) := ParseChar(t).value;
      hide ParseChar, Escape;
      EscapeShortest(c, t, tail);
      StringShortest(s[1..], tail, rest);
    }
  }

  lemma NatShortest(n: nat, t: string, rest: string)
    requires ParseNat(t) == Some((n, rest))
    ensures |Digits.Print(n)| + |rest| == |t|
  {
    Digits.ValuePrint(Digits.DigitRun(t));
  }

  /** The printer's text is the shortest that parses to its value. */
  lemma {:induction false} TextShortest(v: Json, t: string, rest: string)
    requires ParseValue(t) == Some((v, rest))
    ensures FloatFree(v) && |Text(v)| + |rest| <= |t|
    decreases |t|, 2
  {
    match t[0]
    case '"' =>
      hide ParseString, EscapeAll, ParseItems, ParseMembers, ParseNat;
      StringShortest(v.s, t[1..], rest);
    case '[' =>
      if !(|t| > 1 && t[1] == ']') {
        hide ParseItems, ItemsText, ParseMembers, ParseNat, ParseString;
        ItemsShortest(v.items, t[1..], rest);
      }
    case '{' =>
      if !(|t| > 1 && t[1] == '}') {
        hide ParseMembers, MembersText, ParseItems, ParseNat, ParseString;
        MembersShortest(v.members, t[1..], rest);
      }
    case _ =>
      hide ParseItems, ParseMembers, ParseString;
      NumberShortest(v, t, rest);
  }

  lemma NumberShortest(v: Json, t: string, rest: string)
    requires ParseValue(t) == Some((v, rest)) && t[0] != '"' && t[0] != '[' && t[0] != '{'
    ensures FloatFree(v) && |Text(v)| + |rest| <= |t|
  {
    hide *;
    LeafRead(v, t, rest);
    if v.Number? {
      var digits := if t[0] == '-' then t[1..] else t;
      var m := ParseNat(digits).value.0;
      NatShortest(m, digits, rest);
      NumberLength(v.n, m, t[0] == '-');
      assert v == Number(v.n);
    }
  }

  lemma LeafRead(v: Json, t: string, rest: string)
    requires ParseValue(t) == Some((v, rest)) && t[0] != '"' && t[0] != '[' && t[0] != '{'
    ensures FloatFree(v) && (v.Number? || |Text(v)| + |rest| == |t|)
    ensures v.Number? ==>
              var negative := t[0] == '-';
              var m := ParseNat(if negative then t[1..] else t);
              m.Some? && m.value.1 == rest && v.n == if negative then -(m.value.0 as int) else m.value.0
  {
    hide ParseItems, ParseMembers, ParseString, ParseNat;
  }

  lemma NumberLength(n: int, m: nat, negative: bool)
    requires n == if negative then -(m as int) else m
    ensures |Text(Number(n))| <= |Digits.Print(m)| + if negative then 1 else 0
  {
    hide Digits.Print;
  }

  lemma {:induction false} ItemsShortest(items: seq<Json>, t: string, rest: string)
    requires ParseItems(t) == Some((items, rest))
    ensures (forall i :: 0 <= i < |items| ==> FloatFree(items[i])) && |ItemsText(items)| + 1 + |rest| <= |t|
    decreases |t|, 3
  {
    var (first, after) := ParseValue(t).value;
    hide ParseValue, Text, FloatFree;
    TextShortest(first, t, after);
    if after[0] == ',' {
      var more := ParseItems(after[1..]).value.0;
      hide ParseItems;
      ItemsShortest(more, after[1..], rest);
      assert items == [first] + more && items[1..] == more;
    } else {
      assert items[1..] == [];
    }
  }

  lemma {:induction false} MemberShortest(m: Member, t: string, rest: string)
    requires ParseMember(t) == Some((m, rest))
    ensures FloatFree(m.value) && |MemberText(m)| + |rest| <= |t|
    decreases |t|, 3
  {
    var (key, after) := ParseString(t[1..]).value;
    hide ParseString, ParseValue, EscapeAll, Text, FloatFree;
    StringShortest(key, t[1..], after);
    TextShortest(m.value, after[1..], rest);
  }

  lemma {:induction false} MembersShortest(members: seq<Member>, t: string, rest: string)
    requires ParseMembers(t) == Some((members, rest))
    ensures forall i :: 0 <= i < |members| ==> FloatFree(members[i].value)
    ensures |MembersText(members)| + 1 + |rest| <= |t|
    decreases |t|, 4
  {
    var (first, after) := ParseMember(t).value;
    hide ParseMember, MemberText, FloatFree;
    MemberShortest(first, t, after);
    if after[0] == ',' {
      var more := ParseMembers(after[1..]).value.0;
      hide ParseMembers;
      MembersShortest(more, after[1..], rest);
      assert members == [first] + more && members[1..] == more;
    } else {
      assert members[1..] == [];
    }
  }
}
