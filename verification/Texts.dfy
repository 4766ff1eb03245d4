/** `str::trim`, UTF-8 length and character classes of the Rust library. */
module Texts {
  import opened Common

  /** The Unicode White_Space property. */
  predicate IsWhitespace(c: char) {
    var u := c as int;
    0x09 <= u <= 0x0d || u == 0x20 || u == 0x85 || u == 0xa0 || u == 0x1680 || 0x2000 <= u <= 0x200a
    || u == 0x2028 || u == 0x2029 || u == 0x202f || u == 0x205f || u == 0x3000
  }

  /** The property holds of 25 code points. */
  lemma WhitespaceIs(c: char)
    ensures IsWhitespace(c) <==>
              c as int in {0x09, 0x0a, 0x0b, 0x0c, 0x0d, 0x20, 0x85, 0xa0, 0x1680, 0x2000, 0x2001, 0x2002,
                           0x2003, 0x2004, 0x2005, 0x2006, 0x2007, 0x2008, 0x2009, 0x200a, 0x2028,
                           0x2029, 0x202f, 0x205f, 0x3000}
  {
  }

  /** General category Cc. */
  predicate IsControl(c: char) {
    var u := c as int;
    u <= 0x1f || 0x7f <= u <= 0x9f
  }

  function TrimStart(s: string): (t: string)
    ensures t != "" ==> !IsWhitespace(t[0])
  {
    if s != "" && IsWhitespace(s[0]) then TrimStart(s[1..]) else s
  }

  function TrimEnd(s: string): (t: string)
    ensures t <= s
    ensures t != "" ==> !IsWhitespace(t[|t| - 1])
  {
    if s != "" && IsWhitespace(s[|s| - 1]) then TrimEnd(s[..|s| - 1]) else s
  }

  function Trim(s: string): string {
    TrimEnd(TrimStart(s))
  }

  predicate AllWhitespace(s: string) {
    forall i :: 0 <= i < |s| ==> IsWhitespace(s[i])
  }

  lemma {:induction false} TrimStartCuts(s: string) returns (i: nat)
    ensures i <= |s| && TrimStart(s) == s[i..] && AllWhitespace(s[..i])
  {
    i := 0;
    if s != "" && IsWhitespace(s[0]) {
      i := TrimStartCuts(s[1..]);
      assert s[..i + 1] == [s[0]] + s[1..][..i];
      i := i + 1;
    }
  }

  lemma {:induction false} TrimEndCuts(s: string)
    ensures AllWhitespace(s[|TrimEnd(s)|..])
  {
    if s != "" && IsWhitespace(s[|s| - 1]) {
      var init, t := s[..|s| - 1], TrimEnd(s);
      TrimEndCuts(init);
      assert s[|t|..] == init[|t|..] + [s[|s| - 1]];
    }
  }

  /** Trimming cuts off white space at both ends and nothing else, and leaves none. */
  lemma TrimCuts(s: string) returns (i: nat, j: nat)
    ensures i <= j <= |s| && Trim(s) == s[i..j] && AllWhitespace(s[..i]) && AllWhitespace(s[j..])
    ensures i < j ==> !IsWhitespace(s[i]) && !IsWhitespace(s[j - 1])
  {
    i := TrimStartCuts(s);
    TrimEndCuts(TrimStart(s));
    j := i + |Trim(s)|;
    assert s[j..] == TrimStart(s)[|Trim(s)|..];
    assert i < j ==> s[i] == TrimStart(s)[0] && s[j - 1] == Trim(s)[|Trim(s)| - 1];
  }

  /** What trimming leaves alone starts and ends with something visible. */
  lemma TrimmedIff(s: string)
    ensures Trim(s) == s <==> s == "" || (!IsWhitespace(s[0]) && !IsWhitespace(s[|s| - 1]))
  {
    var i, j := TrimCuts(s);
    if i > 0 { assert IsWhitespace(s[..i][0]); }
    if j < |s| { assert IsWhitespace(s[j..][|s| - j - 1]); }
    hide Trim, IsWhitespace;
  }

  lemma TrimIdempotent(s: string)
    ensures Trim(Trim(s)) == Trim(s)
  {
    var t := Trim(s);
    assert t != "" ==> t[0] == TrimStart(s)[0];
    assert TrimStart(t) == t && TrimEnd(t) == t;
  }

  /** `trimmed_text`: trimmed, and absent when nothing is left. */
  function TrimmedText(text: Option<string>): Option<string> {
    if text.Some? && Trim(text.value) != "" then Some(Trim(text.value)) else None
  }

  /** A note is absent exactly if nothing was written but white space; otherwise it is
      what was written, cut at both ends, and starts and ends with something visible. */
  lemma TrimmedTextIff(text: Option<string>)
    ensures TrimmedText(text).None? <==> text.None? || AllWhitespace(text.value)
    ensures TrimmedText(text).Some? ==>
              var t := TrimmedText(text).value;
              && t != "" && !IsWhitespace(t[0]) && !IsWhitespace(t[|t| - 1])
              && exists i, j :: 0 <= i <= j <= |text.value| && t == text.value[i..j]
                   && AllWhitespace(text.value[..i]) && AllWhitespace(text.value[j..])
  {
    if text.Some? {
      var s := text.value;
      var i, j := TrimCuts(s);
      assert s == s[..i] + s[i..j] + s[j..];
      if i < j { assert s[i] in s && !IsWhitespace(s[i]); }
      hide Trim, IsWhitespace;
    }
  }

  lemma TrimmedTwice(text: Option<string>)
    ensures TrimmedText(TrimmedText(text)) == TrimmedText(text)
  {
    if text.Some? { TrimIdempotent(text.value); }
  }

  function Utf8Size(c: char): nat {
    var u := c as int;
    if u < 0x80 then 1 else if u < 0x800 then 2 else if u < 0x10000 then 3 else 4
  }

  /** How many scalar values fit into `n` bytes: what is left of the first byte, and six
      bits of each further one (section 3 of RFC 3629). */
  function Room(n: nat): nat
    requires 1 <= n <= 4
  {
    match n
    case 1 => 128
    case 2 => 32 * 64
    case 3 => 16 * 64 * 64
    case 4 => 8 * 64 * 64 * 64
  }

  /** A character takes the least number of bytes it fits into. */
  lemma Utf8SizeIsLeast(c: char)
    ensures var n := Utf8Size(c);
            1 <= n <= 4 && (c as int) < Room(n) && forall k :: 1 <= k < n ==> c as int >= Room(k)
  {
  }

  lemma {:induction false} Utf8LenAppend(s: string, t: string)
    ensures Utf8Len(s + t) == Utf8Len(s) + Utf8Len(t)
  {
    if s == "" {
      assert s + t == t;
    } else {
      assert (s + t)[1..] == s[1..] + t && (s + t)[0] == s[0];
      Utf8LenAppend(s[1..], t);
    }
  }

  /** The length of a string in bytes. */
  function Utf8Len(s: string): nat {
    if s == "" then 0 else Utf8Size(s[0]) + Utf8Len(s[1..])
  }
}
