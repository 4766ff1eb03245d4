/** The dates and instants an answer may hold are exactly the days, and the minutes, of
    the Gregorian calendar from year 1 to year 9999. */
module Calendar {
  import opened Common
  import opened Digits
  import opened Decimal
  import opened Answers

  /** The number of a day, counting years from March so that the day a leap year adds
      comes last. */
  function DayNumber(year: nat, month: nat, day: nat): int
    requires 1 <= month <= 12 && year >= 1
  {
    var y := if month <= 2 then year - 1 else year;
    var m := if month <= 2 then month + 9 else month - 3;
    365 * y + y / 4 - y / 100 + y / 400 + (153 * m + 2) / 5 + day - 307
  }

  lemma FirstAndLastDay()
    ensures DayNumber(1, 1, 1) == 0 && DayNumber(9999, 12, 31) == 3652058 && DaysIn(1, 1) == 31
  {
  }

  /** The months in a row, from January of year 1. */
  function MonthStart(k: nat): int {
    DayNumber(k / 12 + 1, k % 12 + 1, 1)
  }

  function MonthLength(k: nat): nat {
    DaysIn(k / 12 + 1, k % 12 + 1)
  }

  lemma MonthsFollow(k: nat)
    ensures MonthStart(k + 1) == MonthStart(k) + MonthLength(k)
    ensures 28 <= MonthLength(k) <= 31
  {
    hide DayNumber, DaysIn;
    NextMonth(k);
    NextStart(k / 12 + 1, k % 12 + 1);
  }

  lemma NextMonth(k: nat)
    ensures var (year, month) := (k / 12 + 1, k % 12 + 1);
            && 1 <= month <= 12
            && (k + 1) / 12 + 1 == (if month < 12 then year else year + 1)
            && (k + 1) % 12 + 1 == (if month < 12 then month + 1 else 1)
  {
  }

  lemma NextStart(year: nat, month: nat)
    requires 1 <= year && 1 <= month <= 12
    ensures DayNumber(if month < 12 then year else year + 1, if month < 12 then month + 1 else 1, 1)
            == DayNumber(year, month, 1) + DaysIn(year, month)
    ensures 28 <= DaysIn(year, month) <= 31
  {
    if month == 2 { NextAfterFebruary(year); }
  }

  lemma NextAfterFebruary(year: nat)
    requires 1 <= year
    ensures DayNumber(year, 3, 1) == DayNumber(year, 2, 1) + DaysIn(year, 2)
  {
    YearsFollow(year);
  }

  lemma By4(q: nat, r: nat)
    requires r < 4
    ensures (4 * q + r) / 4 == q && (4 * q + r) % 4 == r
  {
  }

  lemma By100(q: nat, r: nat)
    requires r < 100
    ensures (100 * q + r) / 100 == q && (100 * q + r) % 100 == r
  {
  }

  lemma By400(q: nat, r: nat)
    requires r < 400
    ensures (400 * q + r) / 400 == q && (400 * q + r) % 400 == r
  {
  }

  lemma FourYears(y: nat)
    requires y >= 1
    ensures y / 4 == (y - 1) / 4 + if y % 4 == 0 then 1 else 0
  {
    var (q, r) := ((y - 1) / 4, (y - 1) % 4);
    assert y - 1 == 4 * q + r;
    if r < 3 { By4(q, r + 1); } else { By4(q + 1, 0); }
  }

  lemma Century(y: nat)
    requires y >= 1
    ensures y / 100 == (y - 1) / 100 + if y % 100 == 0 then 1 else 0
    ensures y % 100 == 0 ==> y % 4 == 0
  {
    var (q, r) := ((y - 1) / 100, (y - 1) % 100);
    assert y - 1 == 100 * q + r;
    if r < 99 {
      By100(q, r + 1);
    } else {
      By100(q + 1, 0);
      By4(25 * (q + 1), 0);
    }
  }

  lemma FourCenturies(y: nat)
    requires y >= 1
    ensures y / 400 == (y - 1) / 400 + if y % 400 == 0 then 1 else 0
    ensures y % 400 == 0 ==> y % 100 == 0
  {
    var (q, r) := ((y - 1) / 400, (y - 1) % 400);
    assert y - 1 == 400 * q + r;
    if r < 399 {
      By400(q, r + 1);
    } else {
      By400(q + 1, 0);
      By100(4 * (q + 1), 0);
    }
  }

  /** A year ends in February here, with a day more if it is a leap year. */
  lemma YearsFollow(y: nat)
    requires y >= 1
    ensures var leap := y % 4 == 0 && (y % 100 != 0 || y % 400 == 0);
            y / 4 - y / 100 + y / 400 == (y - 1) / 4 - (y - 1) / 100 + (y - 1) / 400 + if leap then 1 else 0
  {
    FourYears(y);
    Century(y);
    FourCenturies(y);
  }

  lemma {:induction false} MonthsAscend(j: nat, k: nat)
    requires j < k
    ensures MonthStart(j) + MonthLength(j) <= MonthStart(k)
    decreases k
  {
    hide MonthStart, MonthLength;
    MonthsFollow(j);
    if j + 1 < k {
      MonthsFollow(k - 1);
      MonthsAscend(j, k - 1);
    }
  }

  ghost predicate IsDay(year: nat, month: nat, day: nat) {
    1 <= year <= 9999 && 1 <= month <= 12 && 1 <= day <= DaysIn(year, month)
  }

  lemma DayInMonth(year: nat, month: nat, day: nat)
    requires 1 <= year && 1 <= month <= 12
    ensures var k := 12 * (year - 1) + month - 1;
            MonthLength(k) == DaysIn(year, month) && DayNumber(year, month, day) == MonthStart(k) + day - 1
  {
    MonthIndex(year, month);
  }

  /** Different days have different numbers. */
  lemma DayNumberInjective(y: nat, m: nat, d: nat, y': nat, m': nat, d': nat)
    requires IsDay(y, m, d) && IsDay(y', m', d') && DayNumber(y, m, d) == DayNumber(y', m', d')
    ensures y == y' && m == m' && d == d'
  {
    hide DaysIn, DayNumber, MonthLength, MonthStart;
    DayInMonth(y, m, d);
    DayInMonth(y', m', d');
    SameMonth(12 * (y - 1) + m - 1, d, 12 * (y' - 1) + m' - 1, d');
  }

  lemma SameMonth(j: nat, d: nat, k: nat, d': nat)
    requires 1 <= d <= MonthLength(j) && 1 <= d' <= MonthLength(k) && MonthStart(j) + d == MonthStart(k) + d'
    ensures j == k && d == d'
  {
    hide MonthLength, MonthStart;
    if j < k { MonthsAscend(j, k); }
    if k < j { MonthsAscend(k, j); }
  }

  lemma MonthIndex(y: nat, m: nat)
    requires 1 <= y && 1 <= m <= 12
    ensures var k := 12 * (y - 1) + m - 1; k / 12 + 1 == y && k % 12 + 1 == m
  {
  }

  /** Every number between the first and the last is that of a day. */
  lemma {:induction false} DayOfNumber(n: nat) returns (year: nat, month: nat, day: nat)
    requires n <= 3652058
    ensures IsDay(year, month, day) && DayNumber(year, month, day) == n
  {
    hide DayNumber, MonthStart, MonthLength, DaysIn;
    FirstAndLastDay();
    if n == 0 {
      return 1, 1, 1;
    }
    var y, m, d := DayOfNumber(n - 1);
    var k := 12 * (y - 1) + m - 1;
    DayInMonth(y, m, d);
    MonthsFollow(k);
    MonthsFollow(k + 1);
    if d < DaysIn(y, m) {
      year, month, day := y, m, d + 1;
    } else {
      year, month, day := if m < 12 then y else y + 1, if m < 12 then m + 1 else 1, 1;
      if m == 12 { LastYear(y, m, d); }
      assert 12 * (year - 1) + month - 1 == k + 1;
    }
    DayInMonth(year, month, day);
  }

  lemma LastYear(y: nat, m: nat, d: nat)
    requires IsDay(y, m, d) && DayNumber(y, m, d) < 3652058 && m == 12 && d == DaysIn(y, m)
    ensures y < 9999
  {
    FirstAndLastDay();
  }

  // ----- As text -----

  function DateText(year: nat, month: nat, day: nat): string {
    Fixed(year, 4) + "-" + Fixed(month, 2) + "-" + Fixed(day, 2)
  }

  /** The numbers written in a date. */
  function DateParts(s: string): (nat, nat, nat)
    requires ValidDate(s)
  {
    (Value(s[..4]), Value(s[5..7]), Value(s[8..]))
  }

  lemma NamesMonth(year: nat, month: nat)
    requires DaysIn(year, month) > 0
    ensures 1 <= month <= 12
  {
  }

  lemma DatePieces(s: string)
    requires |s| == 10 && s[4] == '-' && s[7] == '-'
    ensures s == s[..4] + "-" + s[5..7] + "-" + s[8..]
  {
  }

  /** A valid date is the text of the day it names. */
  lemma DateNamesDay(s: string)
    requires ValidDate(s)
    ensures var (y, m, d) := DateParts(s); IsDay(y, m, d) && DateText(y, m, d) == s
  {
    PowerFour();
    hide Fixed, Value, DaysIn, Power10;
    ValueBound(s[..4]);
    ValueFixed(s[..4]);
    ValueFixed(s[5..7]);
    ValueFixed(s[8..]);
    NamesMonth(Value(s[..4]), Value(s[5..7]));
    DatePieces(s);
  }

  lemma PowerFour()
    ensures Power10(4) == 10000 && Power10(2) == 100
  {
    assert Power10(1) == 10 && Power10(2) == 100 && Power10(3) == 1000;
  }

  /** And the text of every day is a valid date that names it. */
  lemma DayHasDate(year: nat, month: nat, day: nat)
    requires IsDay(year, month, day)
    ensures ValidDate(DateText(year, month, day)) && DateParts(DateText(year, month, day)) == (year, month, day)
  {
    var s := DateText(year, month, day);
    PowerFour();
    FixedValue(year, 4);
    FixedValue(month, 2);
    FixedValue(day, 2);
    hide Fixed, Value;
    assert s[..4] == Fixed(year, 4) && s[5..7] == Fixed(month, 2) && s[8..] == Fixed(day, 2);
    assert s[4] == '-' && s[7] == '-';
  }

  /** The number of the day a date names. */
  function NumberOfDate(s: string): int
    requires ValidDate(s)
  {
    var (y, m, d) := DateParts(s);
    DateNamesDay(s);
    DayNumber(y, m, d)
  }

  /** `valid_date` accepts exactly one text for each of the 3652059 days from
      0001-01-01 on, and nothing else. */
  lemma DateBijection(n: int)
    ensures (exists s :: ValidDate(s) && NumberOfDate(s) == n) <==> 0 <= n <= 3652058
    ensures forall a, b :: ValidDate(a) && ValidDate(b) && NumberOfDate(a) == n && NumberOfDate(b) == n ==> a == b
  {
    if 0 <= n <= 3652058 {
      var year, month, day := DayOfNumber(n);
      DayHasDate(year, month, day);
      assert NumberOfDate(DateText(year, month, day)) == n;
    }
    forall a | ValidDate(a) && NumberOfDate(a) == n ensures 0 <= n <= 3652058 { NumberInRange(a); }
    forall a, b | ValidDate(a) && ValidDate(b) && NumberOfDate(a) == n && NumberOfDate(b) == n ensures a == b {
      SameDaySameText(a, b);
    }
  }

  lemma SameDaySameText(a: string, b: string)
    requires ValidDate(a) && ValidDate(b) && NumberOfDate(a) == NumberOfDate(b)
    ensures a == b
  {
    var ((y, m, d), (y', m', d')) := (DateParts(a), DateParts(b));
    DateNamesDay(a);
    DateNamesDay(b);
    hide DateParts, ValidDate, DateText, DayNumber, IsDay;
    DayNumberInjective(y, m, d, y', m', d');
  }

  lemma NumberInRange(s: string)
    requires ValidDate(s)
    ensures 0 <= NumberOfDate(s) <= 3652058
  {
    var (y, m, d) := DateParts(s);
    DateNamesDay(s);
    hide DateParts, ValidDate, DateText, DayNumber;
    DayInRange(y, m, d);
  }

  lemma DayInRange(y: nat, m: nat, d: nat)
    requires IsDay(y, m, d)
    ensures 0 <= DayNumber(y, m, d) <= 3652058
  {
    hide DayNumber, MonthStart, MonthLength, DaysIn;
    DayInMonth(y, m, d);
    LastMonth();
    var k := 12 * (y - 1) + m - 1;
    if k > 0 { MonthsAscend(0, k); }
    if k < 119987 { MonthsAscend(k, 119987); }
  }

  lemma LastMonth()
    ensures MonthStart(0) == 0 && MonthStart(119987) == 3652028 && MonthLength(119987) == 31
  {
    assert 119987 / 12 == 9998 && 119987 % 12 == 11;
    assert DaysIn(9999, 12) == 31 && DayNumber(9999, 12, 1) == 3652028;
    hide DaysIn, DayNumber;
  }

  // ----- Instants -----

  function InstantText(date: string, hour: nat, minute: nat): string {
    date + "T" + Fixed(hour, 2) + ":" + Fixed(minute, 2) + ":00Z"
  }

  /** The number of the minute an instant names. */
  function NumberOfInstant(s: string): int
    requires ValidInstant(s)
  {
    NumberOfDate(s[..10]) * 1440 + Value(s[11..13]) * 60 + Value(s[14..16])
  }

  lemma InstantNamesMinute(s: string)
    requires ValidInstant(s)
    ensures s == InstantText(s[..10], Value(s[11..13]), Value(s[14..16]))
  {
    ValueFixed(s[11..13]);
    ValueFixed(s[14..16]);
    hide Fixed, Value, ValidDate;
    assert s == s[..10] + "T" + s[11..13] + ":" + s[14..16] + ":00Z";
  }

  lemma InstantPieces(date: string, hour: string, minute: string)
    requires |date| == 10 && |hour| == 2 && |minute| == 2
    ensures var s := date + "T" + hour + ":" + minute + ":00Z";
            && |s| == 20 && s[..10] == date && s[11..13] == hour && s[14..16] == minute && s[16..] == ":00Z"
            && s[10] == 'T' && s[13] == ':'
  {
  }

  lemma MinuteHasInstant(date: string, hour: nat, minute: nat)
    requires ValidDate(date) && hour < 24 && minute < 60
    ensures var s := InstantText(date, hour, minute);
            ValidInstant(s) && s[..10] == date && Value(s[11..13]) == hour && Value(s[14..16]) == minute
  {
    PowerFour();
    FixedValue(hour, 2);
    FixedValue(minute, 2);
    assert |date| == 10;
    hide Fixed, Value, ValidDate;
    InstantPieces(date, Fixed(hour, 2), Fixed(minute, 2));
  }

  /** `valid_instant` accepts exactly one text for each minute of those days, and
      nothing else: whole minutes, in UTC. */
  lemma InstantBijection(n: int)
    ensures (exists s :: ValidInstant(s) && NumberOfInstant(s) == n) <==> 0 <= n < 3652059 * 1440
    ensures forall a, b :: ValidInstant(a) && ValidInstant(b) && NumberOfInstant(a) == n && NumberOfInstant(b) == n ==>
              a == b
  {
    hide ValidInstant, NumberOfInstant;
    if 0 <= n < 3652059 * 1440 {
      var s := InstantOfNumber(n);
    }
    forall a | ValidInstant(a) && NumberOfInstant(a) == n ensures 0 <= n < 3652059 * 1440 { InstantInRange(a); }
    forall a, b | ValidInstant(a) && ValidInstant(b) && NumberOfInstant(a) == n && NumberOfInstant(b) == n
      ensures a == b
    {
      SameMinuteSameText(a, b);
    }
  }

  lemma InstantOfNumber(n: nat) returns (s: string)
    requires n < 3652059 * 1440
    ensures ValidInstant(s) && NumberOfInstant(s) == n
  {
    var (days, minutes) := (n / 1440, n % 1440);
    assert n == days * 1440 + minutes && days <= 3652058;
    s := MinuteOfDay(days, minutes);
  }

  lemma MinuteOfDay(days: nat, minutes: nat) returns (s: string)
    requires days <= 3652058 && minutes < 1440
    ensures ValidInstant(s) && NumberOfInstant(s) == days * 1440 + minutes
  {
    hide ValidDate, NumberOfDate, Value, InstantText;
    DateBijection(days);
    var date :| ValidDate(date) && NumberOfDate(date) == days;
    var (hour, minute) := (minutes / 60, minutes % 60);
    assert minutes == hour * 60 + minute && hour < 24;
    s := InstantText(date, hour, minute);
    MinuteHasInstant(date, hour, minute);
    hide ValidInstant;
  }

  lemma InstantInRange(s: string)
    requires ValidInstant(s)
    ensures 0 <= NumberOfInstant(s) < 3652059 * 1440
  {
    hide ValidDate, NumberOfDate, Value;
    NumberInRange(s[..10]);
  }

  lemma SameMinuteSameText(a: string, b: string)
    requires ValidInstant(a) && ValidInstant(b) && NumberOfInstant(a) == NumberOfInstant(b)
    ensures a == b
  {
    hide ValidDate, NumberOfDate, Value, InstantText;
    DatesByNumber(a[..10], b[..10]);
    InstantNamesMinute(a);
    InstantNamesMinute(b);
  }

  lemma DatesByNumber(a: string, b: string)
    requires ValidDate(a) && ValidDate(b)
    ensures NumberOfDate(a) == NumberOfDate(b) ==> a == b
  {
    if NumberOfDate(a) == NumberOfDate(b) { SameDaySameText(a, b); }
  }
}
