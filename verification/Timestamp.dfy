/** `TimestampMS` (internal/format/format.go): the ordering property of RFC 3339, section 5.1, for the form
    "YYYY-MM-DDTHH:MM:SSZ" of its section 5.6, through the proleptic Gregorian calendar. */
module Timestamp {
  import opened Prelude

  const SECOND := 1_000_000_000  // nanoseconds
  const MILLISECOND := 1_000_000
  const MAX_MS := 9_223_372_036_854  // the last millisecond whose nanoseconds fit in an int64

  /** What an int64 makes of an integer. */
  function Wrap64(x: int): int {
    (x + 0x8000_0000_0000_0000) % 0x1_0000_0000_0000_0000 - 0x8000_0000_0000_0000
  }

  // ---- the calendar ------------------------------------------------------------------------------------------

  predicate Leap(y: int) { y % 4 == 0 && (y % 100 != 0 || y % 400 == 0) }

  function MonthDays(y: int, m: int): int {
    if m == 2 then (if Leap(y) then 29 else 28)
    else if m == 4 || m == 6 || m == 9 || m == 11 then 30 else 31
  }

  /** Days from 0001-01-01 to the first day of year `y`. */
  function YearStart(y: int): int { 365 * (y - 1) + (y - 1) / 4 - (y - 1) / 100 + (y - 1) / 400 }

  /** Days of year `y` before month `m`. */
  function MonthStart(y: int, m: int): int
    decreases m
  {
    if m <= 1 then 0 else MonthStart(y, m - 1) + MonthDays(y, m - 1)
  }

  datatype Civil = Civil(year: int, month: int, day: int, hour: int, minute: int, second: int)

  predicate Valid(c: Civil) {
    && 1 <= c.year <= 9999 && 1 <= c.month <= 12 && 1 <= c.day <= MonthDays(c.year, c.month)
    && 0 <= c.hour < 24 && 0 <= c.minute < 60 && 0 <= c.second < 60
  }

  function DayNumber(c: Civil): int { YearStart(c.year) + MonthStart(c.year, c.month) + c.day - 1 }

  const EPOCH := 719_162  // 1970-01-01

  /** Seconds of the Unix epoch. */
  function Seconds(c: Civil): int {
    (DayNumber(c) - EPOCH) * 86400 + c.hour * 3600 + c.minute * 60 + c.second
  }

  lemma YearLength(y: int)
    ensures YearStart(y + 1) == YearStart(y) + (if Leap(y) then 366 else 365)
  {
    By4(y);
    By100(y);
    By400(y);
  }

  lemma By4(y: int)
    ensures y / 4 == (y - 1) / 4 + if y % 4 == 0 then 1 else 0
  {
  }

  lemma By100(y: int)
    ensures y / 100 == (y - 1) / 100 + if y % 100 == 0 then 1 else 0
  {
  }

  lemma By400(y: int)
    ensures y / 400 == (y - 1) / 400 + if y % 400 == 0 then 1 else 0
    ensures y % 400 == 0 ==> y % 100 == 0
    ensures y % 100 == 0 ==> y % 4 == 0
  {
  }

  lemma TwelveMonths(y: int)
    ensures MonthStart(y, 13) == if Leap(y) then 366 else 365
  {
    assert MonthStart(y, 3) == 31 + MonthDays(y, 2);
    assert MonthStart(y, 6) == MonthStart(y, 3) + 92;
    assert MonthStart(y, 9) == MonthStart(y, 6) + 92;
    assert MonthStart(y, 12) == MonthStart(y, 9) + 91;
  }

  lemma {:induction false} YearsGrow(y: int, z: int)
    requires y <= z
    ensures YearStart(y) + 365 * (z - y) <= YearStart(z)
    decreases z - y
  {
    if y < z {
      YearLength(y);
      YearsGrow(y + 1, z);
    }
  }

  lemma {:induction false} MonthsGrow(y: int, m: int, n: int)
    requires 1 <= m <= n
    ensures MonthStart(y, m) <= MonthStart(y, n)
    decreases n - m
  {
    if m < n {
      MonthsGrow(y, m, n - 1);
    }
  }

  /** The year day `n` falls in, looked for from year `y` on. */
  function YearOf(n: int, y: int): (r: int)
    requires YearStart(y) <= n
    ensures y <= r && YearStart(r) <= n < YearStart(r + 1)
    decreases n - YearStart(y)
  {
    YearLength(y);
    if n < YearStart(y + 1) then y else YearOf(n, y + 1)
  }

  function MonthOf(y: int, n: int, m: int): (r: int)
    requires 1 <= m <= 12 && MonthStart(y, m) <= n < MonthStart(y, 13)
    ensures m <= r <= 12 && MonthStart(y, r) <= n < MonthStart(y, r + 1)
    decreases 12 - m
  {
    if n < MonthStart(y, m + 1) then m else MonthOf(y, n, m + 1)
  }

  const FIRST_SECOND := -EPOCH * 86400      // 0001-01-01T00:00:00Z
  const LAST_SECOND := 253_402_300_799      // 9999-12-31T23:59:59Z

  /** The date and time of a second of the Unix epoch, and the only one. */
  function CivilOf(seconds: int): (c: Civil)
    requires FIRST_SECOND <= seconds <= LAST_SECOND
    ensures Valid(c) && Seconds(c) == seconds
  {
    var n, rest := seconds / 86400 + EPOCH, seconds % 86400;
    ClockOf(rest);
    var (y, m, d) := DateOf(n);
    Civil(y, m, d, rest / 3600, rest / 60 % 60, rest % 60)
  }

  lemma ClockOf(rest: int)
    requires 0 <= rest < 86400
    ensures rest / 3600 * 3600 + rest / 60 % 60 * 60 + rest % 60 == rest
    ensures 0 <= rest / 3600 < 24
  {
  }

  /** The date of a day, counted from 0001-01-01. */
  function DateOf(n: int): (date: (int, int, int))
    requires 0 <= n <= LAST_SECOND / 86400 + EPOCH
    ensures 1 <= date.0 <= 9999 && 1 <= date.1 <= 12 && 1 <= date.2 <= MonthDays(date.0, date.1)
    ensures YearStart(date.0) + MonthStart(date.0, date.1) + date.2 - 1 == n
  {
    var y := YearOf(n, 1);
    YearLength(y);
    TwelveMonths(y);
    YearBelow10000(y, n);
    var m := MonthOf(y, n - YearStart(y), 1);
    (y, m, n - YearStart(y) - MonthStart(y, m) + 1)
  }

  lemma YearBelow10000(y: int, n: int)
    requires YearStart(y) <= n <= LAST_SECOND / 86400 + EPOCH
    ensures y <= 9999
  {
    if y > 9999 {
      YearsGrow(10000, y);
    }
  }

  // ---- text --------------------------------------------------------------------------------------------------

  /** `n` in decimal, in `width` digits. */
  function Digits(n: nat, width: nat): (s: string)
    ensures |s| == width
  {
    if width == 0 then "" else Digits(n / 10, width - 1) + [('0' as int + n % 10) as char]
  }

  function Pow10(w: nat): nat { if w == 0 then 1 else 10 * Pow10(w - 1) }

  /** A field of the form: its number, its width and the character behind it. */
  datatype Field = Field(value: nat, width: nat, mark: char)

  function Text(fields: seq<Field>): string
    decreases |fields|
  {
    if fields == [] then "" else Digits(fields[0].value, fields[0].width) + ([fields[0].mark] + Text(fields[1..]))
  }

  function Fields(c: Civil): seq<Field>
    requires Valid(c)
  {
    [Field(c.year, 4, '-'), Field(c.month, 2, '-'), Field(c.day, 2, 'T'),
     Field(c.hour, 2, ':'), Field(c.minute, 2, ':'), Field(c.second, 2, 'Z')]
  }

  /** The second an int64 nanosecond count makes of a millisecond. */
  function UnixSeconds(ms: int): int { Wrap64(ms * MILLISECOND) / SECOND }

  lemma SecondsInRange(ms: int)
    ensures FIRST_SECOND <= UnixSeconds(ms) <= LAST_SECOND
  {
  }

  function TimestampMS(ms: int): string {
    if ms <= 0 then ""
    else
      SecondsInRange(ms);
      Text(Fields(CivilOf(UnixSeconds(ms))))
  }

  // ---- order -------------------------------------------------------------------------------------------------

  lemma {:induction false} DigitsOrder(a: nat, b: nat, w: nat)
    requires a < Pow10(w) && b < Pow10(w)
    ensures StrLess(Digits(a, w), Digits(b, w)) <==> a < b
    ensures Digits(a, w) == Digits(b, w) <==> a == b
  {
    if w > 0 {
      DigitsOrder(a / 10, b / 10, w - 1);
      var x, y := [('0' as int + a % 10) as char], [('0' as int + b % 10) as char];
      StrLessByField(Digits(a / 10, w - 1), Digits(b / 10, w - 1), x, y);
      assert Digits(a, w)[w - 1] == x[0] && Digits(b, w)[w - 1] == y[0];
      assert Digits(a, w)[..w - 1] == Digits(a / 10, w - 1) && Digits(b, w)[..w - 1] == Digits(b / 10, w - 1);
      assert StrLess(x, y) <==> a % 10 < b % 10;
    }
  }

  /** The two lists of fields have the same form, and no number overflows its width. */
  predicate SameForm(a: seq<Field>, b: seq<Field>)
    decreases |a|
  {
    |a| == |b| &&
    (a != [] ==>
      && a[0].width == b[0].width && a[0].mark == b[0].mark
      && a[0].value < Pow10(a[0].width) && b[0].value < Pow10(b[0].width)
      && SameForm(a[1..], b[1..]))
  }

  /** The first differing number decides. */
  predicate FieldsLess(a: seq<Field>, b: seq<Field>)
    requires |a| == |b|
    decreases |a|
  {
    a != [] && (a[0].value < b[0].value || (a[0].value == b[0].value && FieldsLess(a[1..], b[1..])))
  }

  lemma {:induction false} TextOrder(a: seq<Field>, b: seq<Field>)
    requires SameForm(a, b)
    ensures StrLess(Text(a), Text(b)) <==> FieldsLess(a, b)
    decreases |a|
  {
    if a != [] {
      DigitsOrder(a[0].value, b[0].value, a[0].width);
      TextOrder(a[1..], b[1..]);
      StrLessByField(Digits(a[0].value, a[0].width), Digits(b[0].value, b[0].width),
                     [a[0].mark] + Text(a[1..]), [b[0].mark] + Text(b[1..]));
      StrLessByField([a[0].mark], [b[0].mark], Text(a[1..]), Text(b[1..]));
      assert !StrLess([a[0].mark], [b[0].mark]);
    }
  }

  /** Dates in calendar order. */
  predicate DateLess(a: Civil, b: Civil) {
    a.year < b.year || (a.year == b.year && (a.month < b.month || (a.month == b.month && a.day < b.day)))
  }

  predicate TimeLess(a: Civil, b: Civil) {
    a.hour < b.hour || (a.hour == b.hour && (a.minute < b.minute || (a.minute == b.minute && a.second < b.second)))
  }

  predicate SameDate(a: Civil, b: Civil) { a.year == b.year && a.month == b.month && a.day == b.day }

  predicate CivilLess(a: Civil, b: Civil) { DateLess(a, b) || (SameDate(a, b) && TimeLess(a, b)) }

  lemma FieldsCons(f: Field, a: seq<Field>, g: Field, b: seq<Field>)
    requires |a| == |b|
    ensures FieldsLess([f] + a, [g] + b) <==> f.value < g.value || (f.value == g.value && FieldsLess(a, b))
    ensures SameForm([f] + a, [g] + b) <==>
      f.width == g.width && f.mark == g.mark && f.value < Pow10(f.width) && g.value < Pow10(g.width) && SameForm(a, b)
  {
    assert ([f] + a)[1..] == a && ([g] + b)[1..] == b;
  }

  lemma FieldsAreCivil(a: Civil, b: Civil)
    requires Valid(a) && Valid(b)
    ensures SameForm(Fields(a), Fields(b))
    ensures FieldsLess(Fields(a), Fields(b)) <==> CivilLess(a, b)
  {
    var x, y := Fields(a), Fields(b);
    assert Pow10(2) == 100 && Pow10(4) == 10000;
    FieldsCons(x[5], [], y[5], []);
    FieldsCons(x[4], [x[5]], y[4], [y[5]]);
    FieldsCons(x[3], [x[4], x[5]], y[3], [y[4], y[5]]);
    FieldsCons(x[2], [x[3], x[4], x[5]], y[2], [y[3], y[4], y[5]]);
    FieldsCons(x[1], [x[2], x[3], x[4], x[5]], y[1], [y[2], y[3], y[4], y[5]]);
    FieldsCons(x[0], [x[1], x[2], x[3], x[4], x[5]], y[0], [y[1], y[2], y[3], y[4], y[5]]);
    assert [x[5]] + [] == [x[5]] && [y[5]] + [] == [y[5]];
    assert [x[4]] + [x[5]] == [x[4], x[5]] && [y[4]] + [y[5]] == [y[4], y[5]];
  }

  /** A date lies inside its year, and inside its month. */
  lemma DateInYear(a: Civil)
    requires Valid(a)
    ensures YearStart(a.year) + MonthStart(a.year, a.month) <= DayNumber(a)
    ensures DayNumber(a) < YearStart(a.year) + MonthStart(a.year, a.month + 1)
    ensures YearStart(a.year) <= DayNumber(a) < YearStart(a.year + 1)
  {
    MonthsGrow(a.year, 1, a.month);
    MonthsGrow(a.year, a.month + 1, 13);
    TwelveMonths(a.year);
    YearLength(a.year);
  }

  lemma EarlierYear(a: Civil, b: Civil)
    requires Valid(a) && Valid(b) && a.year < b.year
    ensures DayNumber(a) < DayNumber(b)
  {
    DateInYear(a);
    DateInYear(b);
    var x, y, z := YearStart(a.year + 1), YearStart(b.year), DayNumber(b);
    assert x <= y by { YearsGrow(a.year + 1, b.year); }
    assert DayNumber(a) < x && y <= z;
  }

  lemma EarlierMonth(a: Civil, b: Civil)
    requires Valid(a) && Valid(b) && a.year == b.year && a.month < b.month
    ensures DayNumber(a) < DayNumber(b)
  {
    MonthsGrow(a.year, a.month + 1, b.month);
    assert MonthStart(a.year, a.month + 1) == MonthStart(a.year, a.month) + MonthDays(a.year, a.month);
  }

  lemma DatesOrdered(a: Civil, b: Civil)
    requires Valid(a) && Valid(b) && DateLess(a, b)
    ensures DayNumber(a) < DayNumber(b)
  {
    if a.year < b.year {
      EarlierYear(a, b);
    } else if a.month < b.month {
      EarlierMonth(a, b);
    } else {
      assert a.year == b.year && a.month == b.month;
    }
  }

  /** Calendar order is the order of time. */
  lemma CivilOrdered(a: Civil, b: Civil)
    requires Valid(a) && Valid(b)
    ensures CivilLess(a, b) ==> Seconds(a) < Seconds(b)
    ensures CivilLess(b, a) ==> Seconds(b) < Seconds(a)
    ensures !CivilLess(a, b) && !CivilLess(b, a) ==> a == b
  {
    if DateLess(a, b) { DatesOrdered(a, b); }
    if DateLess(b, a) { DatesOrdered(b, a); }
  }

  /** Comparing timestamps as strings compares the instants they were made from, whatever those are. */
  lemma TimestampOrder(a: int, b: int)
    requires a > 0 && b > 0
    ensures StrLess(TimestampMS(a), TimestampMS(b)) <==> UnixSeconds(a) < UnixSeconds(b)
    ensures TimestampMS(a) == TimestampMS(b) <==> UnixSeconds(a) == UnixSeconds(b)
  {
    SecondsInRange(a);
    SecondsInRange(b);
    var x, y := CivilOf(UnixSeconds(a)), CivilOf(UnixSeconds(b));
    FieldsAreCivil(x, y);
    FieldsAreCivil(y, x);
    TextOrder(Fields(x), Fields(y));
    TextOrder(Fields(y), Fields(x));
    CivilOrdered(x, y);
    StrLessTotal(TimestampMS(a), TimestampMS(b));
  }

  /** The instant is the millisecond's own second exactly as long as its nanoseconds fit in an int64. */
  lemma NoOverflowIff(ms: int)
    requires 0 < ms < 0x8000_0000_0000_0000
    ensures UnixSeconds(ms) == ms / 1000 <==> ms <= MAX_MS
  {
    var ns := ms * MILLISECOND;
    if ms <= MAX_MS {
      assert Wrap64(ns) == ns;
    } else {
      assert Wrap64(ns) <= ns - 0x1_0000_0000_0000_0000;
    }
  }

  /** Up to that bound timestamps sort by second, and the empty string of a missing time sorts before every other. */
  lemma TimestampSortsBySecond(a: int, b: int)
    requires a <= MAX_MS && b <= MAX_MS
    ensures StrLess(TimestampMS(a), TimestampMS(b)) <==> b > 0 && (a <= 0 || a / 1000 < b / 1000)
  {
    if a > 0 && b > 0 {
      NoOverflowIff(a);
      NoOverflowIff(b);
      TimestampOrder(a, b);
    } else if b > 0 {
      assert TimestampMS(b) != "";
    }
  }

  /** Two times read the same exactly when they are of one second. */
  lemma SameTextIff(a: int, b: int)
    requires 0 < a <= MAX_MS && 0 < b <= MAX_MS
    ensures TimestampMS(a) == TimestampMS(b) <==> a / 1000 == b / 1000
  {
    if a / 1000 == b / 1000 {
      NoOverflowIff(a);
      NoOverflowIff(b);
    } else {
      TimestampSortsBySecond(a, b);
      TimestampSortsBySecond(b, a);
      StrLessTotal(TimestampMS(a), TimestampMS(b));
    }
  }

  /** One millisecond past the bound the order breaks: it reads as a time in 1677. */
  lemma OverflowSortsFirst(b: int)
    requires 0 < b <= MAX_MS
    ensures StrLess(TimestampMS(MAX_MS + 1), TimestampMS(b))
  {
    assert UnixSeconds(MAX_MS + 1) == -9_223_372_037;
    NoOverflowIff(b);
    TimestampOrder(MAX_MS + 1, b);
  }

  // ---- the instants themselves -------------------------------------------------------------------------------

  function DaysOfYear(y: int): int {
    MonthDays(y, 1) + MonthDays(y, 2) + MonthDays(y, 3) + MonthDays(y, 4) + MonthDays(y, 5) + MonthDays(y, 6) +
    MonthDays(y, 7) + MonthDays(y, 8) + MonthDays(y, 9) + MonthDays(y, 10) + MonthDays(y, 11) + MonthDays(y, 12)
  }

  /** The days of all years before `y`, from year 1 on, month by month. */
  function DaysBefore(y: nat): int { if y <= 1 then 0 else DaysBefore(y - 1) + DaysOfYear(y - 1) }

  lemma {:induction false} YearStartCounts(y: nat)
    requires y > 0
    ensures YearStart(y) == DaysBefore(y)
  {
    if y > 1 {
      YearStartCounts(y - 1);
      YearLength(y - 1);
    }
  }

  /** The seconds are counted from the first day of 1970, by the calendar alone. */
  lemma EpochCounts(c: Civil, y: nat)
    requires 1969 < y < 1971
    ensures Seconds(c) == (DayNumber(c) - DaysBefore(y)) * 86400 + c.hour * 3600 + c.minute * 60 + c.second
    ensures DaysBefore(y) == 719_162
  {
    YearStartCounts(y);
  }

  /** The days before each month of a common year, and the leap years. */
  lemma KnownMonths()
    ensures MonthStart(2023, 1) == 0 && MonthStart(2023, 2) == 31 && MonthStart(2023, 3) == 59
    ensures MonthStart(2023, 4) == 90 && MonthStart(2023, 5) == 120 && MonthStart(2023, 6) == 151
    ensures MonthStart(2023, 7) == 181 && MonthStart(2023, 8) == 212 && MonthStart(2023, 9) == 243
    ensures MonthStart(2023, 10) == 273 && MonthStart(2023, 11) == 304 && MonthStart(2023, 12) == 334
    ensures forall y :: MonthDays(y, 2) == if Leap(y) then 29 else 28
    ensures Leap(2024) && !Leap(2023) && !Leap(1900) && Leap(2000)
  {
    assert MonthStart(2023, 2) == 31;
    assert MonthStart(2023, 4) == 90;
    assert MonthStart(2023, 6) == 151;
    assert MonthStart(2023, 8) == 212;
    assert MonthStart(2023, 10) == 273;
  }

  lemma SecondsOfDates(c: Civil)
    requires Valid(c)
    ensures FIRST_SECOND <= Seconds(c) <= LAST_SECOND
  {
    DateInYear(c);
    YearsGrow(1, c.year);
    YearsGrow(c.year + 1, 10000);
  }

  /** Every date and time is that of its own second. */
  lemma CivilRoundTrip(c: Civil)
    requires Valid(c)
    ensures FIRST_SECOND <= Seconds(c) <= LAST_SECOND && CivilOf(Seconds(c)) == c
  {
    SecondsOfDates(c);
    CivilOrdered(CivilOf(Seconds(c)), c);
  }

  /** Second 0 is the beginning of 1970. */
  lemma EpochStarts()
    ensures CivilOf(0) == Civil(1970, 1, 1, 0, 0, 0)
  {
    var c := Civil(1970, 1, 1, 0, 0, 0);
    assert Seconds(c) == 0;
    CivilRoundTrip(c);
  }

  /** A number below 100 in two digits. */
  function Two(n: nat): string
    requires n < 100
  {
    [('0' as int + n / 10) as char, ('0' as int + n % 10) as char]
  }

  lemma TwoDigits(n: nat)
    requires n < 100
    ensures Digits(n, 2) == Two(n)
  {
    assert Digits(n / 10, 1) == Digits(0, 0) + [('0' as int + n / 10) as char];
  }

  lemma FourDigits(n: nat)
    requires n < 10000
    ensures Digits(n, 4) == Two(n / 100) + Two(n % 100)
  {
    assert Digits(n, 4) == Digits(n / 100, 2) + [('0' as int + n / 10 % 10) as char] + [('0' as int + n % 10) as char];
    TwoDigits(n / 100);
  }

  lemma TextCons(f: Field, rest: seq<Field>)
    ensures Text([f] + rest) == Digits(f.value, f.width) + [f.mark] + Text(rest)
  {
    assert ([f] + rest)[1..] == rest;
  }

  lemma TextOfThree(f: Field, g: Field, h: Field, rest: seq<Field>)
    ensures Text([f, g, h] + rest) ==
      Digits(f.value, f.width) + [f.mark] + Digits(g.value, g.width) + [g.mark] + Digits(h.value, h.width) + [h.mark] +
      Text(rest)
  {
    TextCons(h, rest);
    TextCons(g, [h] + rest);
    TextCons(f, [g] + ([h] + rest));
    assert [f, g, h] + rest == [f] + ([g] + ([h] + rest));
  }

  /** The whole text of a date and time. */
  lemma TextOf(c: Civil)
    requires Valid(c)
    ensures Text(Fields(c)) ==
      (Digits(c.year, 4) + "-" + Digits(c.month, 2) + "-" + Digits(c.day, 2) + "T") +
      (Digits(c.hour, 2) + ":" + Digits(c.minute, 2) + ":" + Digits(c.second, 2) + "Z")
  {
    var f := Fields(c);
    TextOfThree(f[3], f[4], f[5], []);
    TextOfThree(f[0], f[1], f[2], [f[3], f[4], f[5]]);
    assert [f[3], f[4], f[5]] + [] == [f[3], f[4], f[5]];
    assert [f[0], f[1], f[2]] + [f[3], f[4], f[5]] == f;
  }

  /** The text of a millisecond of the second of a date and time. */
  lemma TextAt(c: Civil, ms: int)
    requires Valid(c) && 0 < ms <= MAX_MS && Seconds(c) == ms / 1000
    ensures TimestampMS(ms) == Text(Fields(c))
  {
    NoOverflowIff(ms);
    CivilRoundTrip(c);
  }

  /** `t` is the text of a date and time with these numbers, in the form of section 5.6. */
  predicate Reads(t: string, year: nat, month: nat, day: nat, hour: nat, minute: nat, second: nat)
    requires year < 10000 && month < 100 && day < 100 && hour < 100 && minute < 100 && second < 100
  {
    && |t| == 20 && t[..2] == Two(year / 100) && t[2..4] == Two(year % 100)
    && t[4] == '-' && t[5..7] == Two(month) && t[7] == '-' && t[8..10] == Two(day) && t[10] == 'T'
    && t[11..13] == Two(hour) && t[13] == ':' && t[14..16] == Two(minute) && t[16] == ':'
    && t[17..19] == Two(second) && t[19] == 'Z'
  }

  lemma Joined(a: string, b: string, c: string, d: string, e: string, f: string, g: string, t: string)
    requires |a| == |b| == |c| == |d| == |e| == |f| == |g| == 2
    requires t == (a + b + "-" + c + "-" + d + "T") + (e + ":" + f + ":" + g + "Z")
    ensures |t| == 20 && t[..2] == a && t[2..4] == b && t[4] == '-' && t[5..7] == c && t[7] == '-' && t[8..10] == d
    ensures t[10] == 'T' && t[11..13] == e && t[13] == ':' && t[14..16] == f && t[16] == ':' && t[17..19] == g
    ensures t[19] == 'Z'
  {
    var x, y := a + b + "-" + c + "-" + d + "T", e + ":" + f + ":" + g + "Z";
    assert t[..11] == x && t[11..] == y;
    assert x[..2] == a && x[2..4] == b && x[5..7] == c && x[8..10] == d;
    assert y[0..2] == e && y[3..5] == f && y[6..8] == g;
  }

  lemma TextRead(c: Civil)
    requires Valid(c)
    ensures Reads(Text(Fields(c)), c.year, c.month, c.day, c.hour, c.minute, c.second)
  {
    TextOf(c);
    FourDigits(c.year);
    TwoDigits(c.month);
    TwoDigits(c.day);
    TwoDigits(c.hour);
    TwoDigits(c.minute);
    TwoDigits(c.second);
    Joined(Two(c.year / 100), Two(c.year % 100), Two(c.month), Two(c.day), Two(c.hour), Two(c.minute), Two(c.second),
      Text(Fields(c)));
  }

  /** The first second after the epoch, written out. */
  lemma EpochText(ms: int)
    requires 1000 <= ms < 2000
    ensures TimestampMS(ms) == "1970-01-01T00:00:01Z"
  {
    FirstSecond(Civil(1970, 1, 1, 0, 0, 1), ms);
    FirstText(TimestampMS(ms));
  }

  lemma FirstSecond(c: Civil, ms: int)
    requires c == Civil(1970, 1, 1, 0, 0, 1) && 1000 <= ms < 2000
    ensures Reads(TimestampMS(ms), 1970, 1, 1, 0, 0, 1)
  {
    assert Seconds(c) == 1;
    TextAt(c, ms);
    TextRead(c);
  }

  lemma FirstText(t: string)
    requires Reads(t, 1970, 1, 1, 0, 0, 1)
    ensures t == "1970-01-01T00:00:01Z"
  {
  }

  /** And a second of a leap day. */
  lemma LeapDayText(ms: int)
    requires 1_709_210_096_000 <= ms < 1_709_210_097_000
    ensures TimestampMS(ms) == "2024-02-29T12:34:56Z"
  {
    LeapSecond(Civil(2024, 2, 29, 12, 34, 56), ms);
    LeapText(TimestampMS(ms));
  }

  lemma LeapSecond(c: Civil, ms: int)
    requires c == Civil(2024, 2, 29, 12, 34, 56) && 1_709_210_096_000 <= ms < 1_709_210_097_000
    ensures Reads(TimestampMS(ms), 2024, 2, 29, 12, 34, 56)
  {
    assert Seconds(c) == 1_709_210_096 by { assert MonthStart(2024, 2) == 31; }
    TextAt(c, ms);
    TextRead(c);
  }

  lemma LeapText(t: string)
    requires Reads(t, 2024, 2, 29, 12, 34, 56)
    ensures t == "2024-02-29T12:34:56Z"
  {
  }
}
