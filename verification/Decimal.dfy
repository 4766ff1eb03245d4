/** The canonical decimals of a number answer: `valid_decimal` of the server
    contract and the regular expression of the Apple client. */
module Decimal {
  import opened Common
  import opened Digits

  const SCALE: nat := 1000000
  const LIMIT: int := 1000000000000000000

  /** `str::split`: always at least one part. */
  function Split(s: string, at: char): (parts: seq<string>)
    ensures parts != []
  {
    if s == "" then [""]
    else
      var rest := Split(s[1..], at);
      if s[0] == at then [""] + rest else [[s[0]] + rest[0]] + rest[1..]
  }

  function Unsigned(value: string): string {
    if value != "" && value[0] == '-' then value[1..] else value
  }

  predicate ValidInteger(integer: string) {
    integer != "" && |integer| <= 12 && AllDigits(integer) && !(|integer| > 1 && integer[0] == '0')
  }

  predicate ValidFraction(fraction: string) {
    fraction != "" && |fraction| <= 6 && fraction[|fraction| - 1] != '0' && AllDigits(fraction)
  }

  /** `valid_decimal`. */
  predicate ValidDecimal(value: string) {
    var parts := Split(Unsigned(value), '.');
    && |parts| <= 2
    && ValidInteger(parts[0])
    && (|parts| == 2 ==> ValidFraction(parts[1]))
    && !(value != "" && value[0] == '-' && parts[0] == "0" && |parts| == 1)
  }

  /** A full match of `-?(0|[1-9][0-9]{0,11})(\.[0-9]{0,5}[1-9])?` cut into its
      three groups. */
  ghost predicate MatchesGroups(value: string, sign: string, integer: string, tail: string) {
    && value == sign + integer + tail
    && (sign == "" || sign == "-")
    && (integer == "0" || (1 <= |integer| <= 12 && '1' <= integer[0] <= '9' && AllDigits(integer[1..])))
    && (tail == "" || (2 <= |tail| <= 7 && tail[0] == '.' && AllDigits(tail[1..|tail| - 1])
                       && '1' <= tail[|tail| - 1] <= '9'))
  }

  /** The number case of `NodAnswerField.isValid`. */
  ghost predicate SwiftAccepts(value: string) {
    value != "-0" && exists sign, integer, tail :: MatchesGroups(value, sign, integer, tail)
  }

  lemma {:induction false} SplitNoSeparator(s: string, at: char)
    requires at !in s
    ensures Split(s, at) == [s]
  {
    if s != "" {
      SplitNoSeparator(s[1..], at);
      assert s == [s[0]] + s[1..];
    }
  }

  lemma {:induction false} SplitAppend(s: string, t: string, at: char)
    requires at !in s
    ensures Split(s + [at] + t, at) == [s] + Split(t, at)
  {
    if s == "" {
      assert (s + [at] + t)[1..] == t;
    } else {
      SplitAppend(s[1..], t, at);
      assert (s + [at] + t)[1..] == s[1..] + [at] + t;
      assert s == [s[0]] + s[1..];
    }
  }

  /** Joining the parts gives the text back. */
  lemma {:induction false} SplitJoin(s: string, at: char)
    ensures |Split(s, at)| == 1 ==> s == Split(s, at)[0]
    ensures |Split(s, at)| == 2 ==> s == Split(s, at)[0] + [at] + Split(s, at)[1]
  {
    if s != "" {
      SplitJoin(s[1..], at);
      assert s == [s[0]] + s[1..];
      var rest := Split(s[1..], at);
      if s[0] == at && |rest| == 1 { assert [""] + rest == ["", s[1..]]; }
    }
  }

  function Text(negative: bool, integer: string, fraction: string): string {
    (if negative then "-" else "") + integer + if fraction == "" then "" else "." + fraction
  }

  /** The shape of every valid decimal. */
  ghost predicate WellFormed(negative: bool, integer: string, fraction: string) {
    && ValidInteger(integer)
    && (fraction != "" ==> ValidFraction(fraction))
    && (negative ==> integer != "0" || fraction != "")
  }

  lemma DigitsOnly(s: string)
    requires AllDigits(s)
    ensures '.' !in s && '-' !in s
  {
  }

  /** Cutting the text of a sign, an integer and a fraction gives them back. */
  lemma TextParts(negative: bool, integer: string, fraction: string)
    requires integer != "" && AllDigits(integer) && AllDigits(fraction)
    ensures var value := Text(negative, integer, fraction);
            && value != "" && (value[0] == '-' <==> negative)
            && Split(Unsigned(value), '.') == (if fraction == "" then [integer] else [integer, fraction])
  {
    var value := Text(negative, integer, fraction);
    DigitsOnly(integer);
    var tail := if fraction == "" then "" else "." + fraction;
    assert value[0] == if negative then '-' else integer[0];
    assert Unsigned(value) == integer + tail;
    if fraction == "" {
      SplitNoSeparator(integer, '.');
      assert Unsigned(value) == integer;
    } else {
      DigitsOnly(fraction);
      SplitNoSeparator(fraction, '.');
      SplitAppend(integer, fraction, '.');
      assert Unsigned(value) == integer + ['.'] + fraction;
    }
  }

  /** A valid decimal is an optional sign, an integer and an optional fraction,
      and the cut is unique. */
  lemma ValidText(negative: bool, integer: string, fraction: string)
    requires ValidInteger(integer) && (fraction != "" ==> ValidFraction(fraction))
    ensures var value := Text(negative, integer, fraction);
            && Split(Unsigned(value), '.') == (if fraction == "" then [integer] else [integer, fraction])
            && (value[0] == '-' <==> negative)
            && (ValidDecimal(value) <==> WellFormed(negative, integer, fraction))
  {
    TextParts(negative, integer, fraction);
    hide Text, Split, Unsigned, ValidInteger, ValidFraction;
  }

  lemma ValidParts(value: string) returns (negative: bool, integer: string, fraction: string)
    requires ValidDecimal(value)
    ensures WellFormed(negative, integer, fraction) && value == Text(negative, integer, fraction)
  {
    var parts := Split(Unsigned(value), '.');
    SplitJoin(Unsigned(value), '.');
    negative, integer := value != "" && value[0] == '-', parts[0];
    fraction := if |parts| == 2 then parts[1] else "";
    assert value == (if negative then "-" else "") + Unsigned(value);
  }

  lemma PartsMatch(negative: bool, integer: string, fraction: string)
    requires ValidInteger(integer) && (fraction != "" ==> ValidFraction(fraction))
    ensures MatchesGroups(Text(negative, integer, fraction), if negative then "-" else "", integer,
                          if fraction == "" then "" else "." + fraction)
  {
    if fraction != "" {
      var tail := "." + fraction;
      assert tail[|tail| - 1] == fraction[|fraction| - 1];
      assert tail[1..|tail| - 1] == fraction[..|fraction| - 1];
    }
  }

  lemma MatchParts(value: string, sign: string, integer: string, tail: string)
    requires MatchesGroups(value, sign, integer, tail)
    ensures var fraction := if tail == "" then "" else tail[1..];
            && ValidInteger(integer) && (fraction != "" ==> ValidFraction(fraction))
            && value == Text(sign == "-", integer, fraction)
  {
    assert integer != "0" ==> integer == [integer[0]] + integer[1..];
    if tail != "" {
      assert tail[1..] == tail[1..|tail| - 1] + [tail[|tail| - 1]];
      assert tail == "." + tail[1..];
    }
  }

  /** The two clients accept the same strings. */
  lemma SwiftAgrees(value: string)
    ensures SwiftAccepts(value) <==> ValidDecimal(value)
  {
    hide MatchesGroups, ValidDecimal, ValidInteger, ValidFraction;
    if ValidDecimal(value) {
      var negative, integer, fraction := ValidParts(value);
      ValidText(negative, integer, fraction);
      PartsMatch(negative, integer, fraction);
      NotMinusZero(negative, integer, fraction);
    }
    if SwiftAccepts(value) {
      var sign, integer, tail :| MatchesGroups(value, sign, integer, tail);
      MatchParts(value, sign, integer, tail);
      var fraction := if tail == "" then "" else tail[1..];
      ValidText(sign == "-", integer, fraction);
    }
  }

  lemma NotMinusZero(negative: bool, integer: string, fraction: string)
    requires ValidInteger(integer)
    ensures Text(negative, integer, fraction) == "-0" <==> negative && integer == "0" && fraction == ""
  {
    var value := Text(negative, integer, fraction);
    assert value[0] == if negative then '-' else integer[0];
    if negative && fraction == "" { assert value == "-" + integer; assert value[1..] == integer; }
    if negative && fraction != "" { assert |value| >= 3; }
  }

  // ----- Scaling by a million -----

  function Zeros(n: nat): (z: string)
    ensures |z| == n && AllDigits(z)
  {
    if n == 0 then "" else Zeros(n - 1) + "0"
  }

  function Magnitude(integer: string, fraction: string): nat
    requires AllDigits(integer) && AllDigits(fraction) && |fraction| <= 6
  {
    Value(integer) * SCALE + Value(fraction + Zeros(6 - |fraction|))
  }

  /** The number a valid decimal denotes, in millionths. */
  function Scaled(value: string): int
    requires ValidDecimal(value)
  {
    var parts := Split(Unsigned(value), '.');
    var m: int := Magnitude(parts[0], if |parts| == 2 then parts[1] else "");
    if value[0] == '-' then -m else m
  }

  /** The digits of `n` in a fixed width. */
  function Fixed(n: nat, width: nat): (s: string)
    ensures |s| == width && AllDigits(s)
  {
    if width == 0 then "" else Fixed(n / 10, width - 1) + [DigitChar(n % 10)]
  }

  function StripZeros(s: string): string {
    if s != "" && s[|s| - 1] == '0' then StripZeros(s[..|s| - 1]) else s
  }

  /** The canonical decimal of a number of millionths. */
  function Render(n: int): string {
    var m: nat := if n < 0 then -n else n;
    Text(n < 0, Print(m / SCALE), StripZeros(Fixed(m % SCALE, 6)))
  }

  lemma {:induction false} FixedValue(n: nat, width: nat)
    requires n < Power10(width)
    ensures Value(Fixed(n, width)) == n
  {
    if width > 0 {
      FixedValue(n / 10, width - 1);
      ValueSnoc(Fixed(n / 10, width - 1), DigitChar(n % 10));
    }
  }

  lemma {:induction false} ValueFixed(s: string)
    requires AllDigits(s)
    ensures Fixed(Value(s), |s|) == s
  {
    if s != "" {
      ValueFixed(s[..|s| - 1]);
      assert s == s[..|s| - 1] + [s[|s| - 1]];
    }
  }

  lemma {:induction false} StripPads(s: string, n: nat)
    requires s != "" ==> s[|s| - 1] != '0'
    ensures StripZeros(s + Zeros(n)) == s
  {
    if n == 0 {
      assert s + Zeros(0) == s;
    } else {
      var t := s + Zeros(n);
      StripPads(s, n - 1);
      assert t[..|t| - 1] == s + Zeros(n - 1);
    }
  }

  /** Stripping trailing zeros can be undone by padding to the old width. */
  lemma {:induction false} PadsStripped(s: string)
    ensures |StripZeros(s)| <= |s| && s == StripZeros(s) + Zeros(|s| - |StripZeros(s)|)
    ensures StripZeros(s) != "" ==> StripZeros(s)[|StripZeros(s)| - 1] != '0'
    ensures AllDigits(s) ==> AllDigits(StripZeros(s))
  {
    if s != "" && s[|s| - 1] == '0' {
      PadsStripped(s[..|s| - 1]);
      assert s == s[..|s| - 1] + "0";
      var k := |s| - |StripZeros(s)|;
      assert Zeros(k) == Zeros(k - 1) + "0";
    } else {
      assert Zeros(0) == "";
    }
  }

  lemma PowerFacts()
    ensures Power10(6) == SCALE && Power10(12) == SCALE * SCALE && SCALE * SCALE * SCALE == LIMIT
  {
    assert Power10(3) == 1000;
    assert Power10(6) == 1000 * Power10(3);
    assert Power10(9) == 1000 * Power10(6);
    assert Power10(12) == 1000 * Power10(9);
  }

  lemma {:induction false} ZeroValue(s: string)
    requires AllDigits(s) && Value(s) == 0
    ensures s == Zeros(|s|)
  {
    if s != "" {
      ZeroValue(s[..|s| - 1]);
      assert s == s[..|s| - 1] + [s[|s| - 1]];
    }
  }

  lemma {:induction false} AllZeros(n: nat)
    ensures Value(Zeros(n)) == 0 && StripZeros(Zeros(n)) == ""
  {
    if n > 0 {
      AllZeros(n - 1);
      ValueSnoc(Zeros(n - 1), '0');
      assert Zeros(n)[..n - 1] == Zeros(n - 1);
    }
  }

  /** The integer part is below 10^12. */
  lemma IntegerBound(integer: string)
    requires ValidInteger(integer)
    ensures Value(integer) < SCALE * SCALE
    ensures Print(Value(integer)) == integer
    ensures Value(integer) == 0 <==> integer == "0"
  {
    PowerFacts();
    ValuePrint(integer);
    PrintLength(Value(integer), 12);
    PrintValue(Value(integer));
  }

  /** The fraction padded to six digits is below 10^6, and zero only when there
      is no fraction. */
  lemma FractionBound(fraction: string)
    requires fraction != "" ==> ValidFraction(fraction)
    ensures var padded := fraction + Zeros(6 - |fraction|);
            && Value(padded) < SCALE
            && Fixed(Value(padded), 6) == padded && StripZeros(padded) == fraction
            && (Value(padded) == 0 ==> fraction == "")
  {
    var padded := fraction + Zeros(6 - |fraction|);
    PowerFacts();
    ValueBound(padded);
    ValueFixed(padded);
    StripPads(fraction, 6 - |fraction|);
    if Value(padded) == 0 {
      ZeroValue(padded);
      AllZeros(6);
    }
  }

  lemma MagnitudeParts(integer: string, fraction: string)
    requires ValidInteger(integer) && (fraction != "" ==> ValidFraction(fraction))
    ensures var m := Magnitude(integer, fraction);
            && m < LIMIT && m / SCALE == Value(integer) && m % SCALE == Value(fraction + Zeros(6 - |fraction|))
            && (m == 0 ==> integer == "0" && fraction == "")
  {
    hide Value, Power10;
    IntegerBound(integer);
    FractionBound(fraction);
    DivMod(Value(integer), Value(fraction + Zeros(6 - |fraction|)));
  }

  lemma DivMod(q: nat, r: nat)
    requires r < SCALE && q < SCALE * SCALE
    ensures (q * SCALE + r) / SCALE == q && (q * SCALE + r) % SCALE == r && q * SCALE + r < LIMIT
  {
  }

  lemma ScaledText(negative: bool, integer: string, fraction: string)
    requires WellFormed(negative, integer, fraction)
    ensures var value, m := Text(negative, integer, fraction), Magnitude(integer, fraction);
            ValidDecimal(value) && Scaled(value) == if negative then -(m as int) else m
  {
    hide Magnitude, Split;
    ValidText(negative, integer, fraction);
  }

  /** Rendering undoes scaling. */
  lemma RenderScaled(value: string)
    requires ValidDecimal(value)
    ensures -LIMIT < Scaled(value) < LIMIT && Render(Scaled(value)) == value
  {
    hide Magnitude, Scaled, Text, Fixed, StripZeros, Value, ValidDecimal;
    var negative, integer, fraction := ValidParts(value);
    ScaledText(negative, integer, fraction);
    MagnitudeParts(integer, fraction);
    IntegerBound(integer);
    FractionBound(fraction);
  }

  lemma RenderedInteger(n: nat)
    requires n < SCALE * SCALE
    ensures ValidInteger(Print(n)) && Value(Print(n)) == n && (n > 0 ==> Print(n) != "0")
  {
    PowerFacts();
    PrintValue(n);
    PrintLength(n, 12);
    LeadingZero(n);
    hide Print, Value, Power10;
  }

  /** Stripping loses nothing: what is left, padded again, has the old value. */
  lemma StrippedFraction(digits: string)
    requires AllDigits(digits)
    ensures var fraction := StripZeros(digits);
            && |fraction| <= |digits| && AllDigits(fraction)
            && (fraction != "" ==> fraction[|fraction| - 1] != '0')
            && digits == fraction + Zeros(|digits| - |fraction|)
            && (fraction == "" ==> Value(digits) == 0)
  {
    PadsStripped(digits);
    AllZeros(|digits|);
    hide StripZeros, Zeros, Value, AllDigits;
    EmptyPads(Zeros(|digits|));
  }

  lemma EmptyPads(z: string)
    ensures "" + z == z
  {
  }

  /** For any width: with a literal one the digits would be unfolded. */
  lemma FractionOfWidth(n: nat, width: nat)
    requires n < Power10(width)
    ensures var fraction := StripZeros(Fixed(n, width));
            && |fraction| <= width && AllDigits(fraction)
            && (fraction != "" ==> fraction[|fraction| - 1] != '0')
            && AllDigits(fraction + Zeros(width - |fraction|))
            && Value(fraction + Zeros(width - |fraction|)) == n && (n > 0 ==> fraction != "")
  {
    hide *;
    FixedValue(n, width);
    StrippedFraction(Fixed(n, width));
  }

  lemma RenderedFraction(n: nat)
    requires n < SCALE
    ensures var fraction := StripZeros(Fixed(n, 6));
            && |fraction| <= 6 && AllDigits(fraction) && (fraction != "" ==> ValidFraction(fraction))
            && Value(fraction + Zeros(6 - |fraction|)) == n && (n > 0 ==> fraction != "")
  {
    hide Fixed, StripZeros, Zeros, Value, Power10;
    PowerFacts();
    FractionOfWidth(n, 6);
  }

  /** The rendered parts make up the number. */
  lemma RenderedParts(m: nat)
    requires m < LIMIT
    ensures var integer, fraction := Print(m / SCALE), StripZeros(Fixed(m % SCALE, 6));
            && ValidInteger(integer) && (fraction != "" ==> ValidFraction(fraction))
            && Magnitude(integer, fraction) == m
            && (m > 0 ==> integer != "0" || fraction != "")
  {
    PowerFacts();
    RenderedInteger(m / SCALE);
    RenderedFraction(m % SCALE);
    hide Print, Fixed, StripZeros, Zeros, Value, ValidInteger, ValidFraction;
  }

  lemma LeadingZero(n: nat)
    ensures |Print(n)| > 1 ==> Print(n)[0] != '0'
  {
    PrintValue(n);
  }

  /** Scaling undoes rendering. */
  lemma ScaledRender(n: int)
    requires -LIMIT < n < LIMIT
    ensures ValidDecimal(Render(n)) && Scaled(Render(n)) == n
  {
    hide Magnitude, Scaled, Text, Fixed, StripZeros, Value, ValidDecimal, Print;
    var m: nat := if n < 0 then -n else n;
    RenderedParts(m);
    ScaledText(n < 0, Print(m / SCALE), StripZeros(Fixed(m % SCALE, 6)));
  }

  /** `valid_decimal` accepts exactly one string for every whole number of
      millionths strictly between -10^18 and 10^18. */
  lemma DecimalBijection(n: int)
    ensures (exists value :: ValidDecimal(value) && Scaled(value) == n) <==> -LIMIT < n < LIMIT
    ensures forall a, b :: ValidDecimal(a) && ValidDecimal(b) && Scaled(a) == n && Scaled(b) == n ==> a == b
  {
    if -LIMIT < n < LIMIT {
      ScaledRender(n);
    }
    forall a | ValidDecimal(a) && Scaled(a) == n ensures a == Render(n) && -LIMIT < n < LIMIT {
      RenderScaled(a);
    }
  }
}
