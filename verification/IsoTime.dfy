/** UTC instants as `Date` holds them, and what `Date.prototype.toISOString` prints.
    The relay orders instants by comparing the printed strings. */
module IsoTime {
  import opened Prelude

  datatype Utc = Utc(year: int, month: int, day: int, hour: int, minute: int, second: int, ms: int)

  predicate Leap(y: int) { y % 4 == 0 && (y % 100 != 0 || y % 400 == 0) }

  function DaysInMonth(y: int, m: int): int
    requires 1 <= m <= 12
  {
    if m == 2 then (if Leap(y) then 29 else 28)
    else if m in {4, 6, 9, 11} then 30 else 31
  }

  /** The fields a `Date` can have: a calendar date within the range of time values. */
  predicate Valid(t: Utc) {
    && -271821 <= t.year <= 275760
    && 1 <= t.month <= 12 && 1 <= t.day <= DaysInMonth(t.year, t.month)
    && 0 <= t.hour < 24 && 0 <= t.minute < 60 && 0 <= t.second < 60 && 0 <= t.ms < 1000
  }

  /** Days from 1 January 1970 to 1 January of `y` (all divisions round down). */
  function DaysBeforeYear(y: int): int {
    365 * (y - 1970) + (y - 1969) / 4 - (y - 1901) / 100 + (y - 1601) / 400
  }

  function DaysBeforeMonth(y: int, m: int): (days: int)
    requires 1 <= m <= 12
  {
    if m == 1 then 0 else DaysBeforeMonth(y, m - 1) + DaysInMonth(y, m - 1)
  }

  function DayNumber(t: Utc): int
    requires Valid(t)
  {
    DaysBeforeYear(t.year) + DaysBeforeMonth(t.year, t.month) + t.day - 1
  }

  /** The time value: milliseconds since the epoch. */
  function TimeValue(t: Utc): int
    requires Valid(t)
  {
    (((DayNumber(t) * 24 + t.hour) * 60 + t.minute) * 60 + t.second) * 1000 + t.ms
  }

  function Digit(n: int): char
    requires 0 <= n < 10
  {
    ('0' as int + n) as char
  }

  /** Decimal digits of `n`, padded with zeros to `width`. */
  function Digits(n: nat, width: nat): (s: string)
    ensures |s| == width
  {
    if width == 0 then "" else Digits(n / 10, width - 1) + [Digit(n % 10)]
  }

  function YearText(y: int): (s: string) {
    if 0 <= y <= 9999 then Digits(y, 4)
    else if y < 0 then "-" + Digits(-y, 6)
    else "+" + Digits(y, 6)
  }

  /** `t.toISOString()` */
  function Iso(t: Utc): string
    requires Valid(t)
  {
    YearText(t.year) + AfterYear(t)
  }

  function AfterYear(t: Utc): string
    requires Valid(t)
  {
    "-" + Digits(t.month, 2) + ("-" + Digits(t.day, 2) + AfterDay(t))
  }

  function AfterDay(t: Utc): string
    requires Valid(t)
  {
    "T" + Digits(t.hour, 2) + (":" + Digits(t.minute, 2) + (":" + Digits(t.second, 2) + ("." + Digits(t.ms, 3) + "Z")))
  }

  /** The date part, `toISOString().slice(0, 10)`. */
  function UtcDate(t: Utc): (d: string)
    requires Valid(t)
  {
    Iso(t)[..10]
  }

  lemma IsoLength(t: Utc)
    requires Valid(t)
    ensures |Iso(t)| == if 0 <= t.year <= 9999 then 24 else 27
  {
  }

  // ---- numeric order ----------------------------------------------------

  /** Field-by-field order. */
  predicate Earlier(a: Utc, b: Utc) {
    if a.year != b.year then a.year < b.year
    else if a.month != b.month then a.month < b.month
    else if a.day != b.day then a.day < b.day
    else if a.hour != b.hour then a.hour < b.hour
    else if a.minute != b.minute then a.minute < b.minute
    else if a.second != b.second then a.second < b.second
    else a.ms < b.ms
  }

  /** A quotient moves on exactly when the dividend reaches a multiple. */
  lemma QuotientStep(n: int, d: int)
    requires d == 4 || d == 100 || d == 400
    ensures (n + 1) / d == n / d + if (n + 1) % d == 0 then 1 else 0
  {
  }

  lemma YearStep(y: int)
    ensures DaysBeforeYear(y + 1) == DaysBeforeYear(y) + if Leap(y) then 366 else 365
  {
    QuotientStep(y - 1969, 4);
    QuotientStep(y - 1901, 100);
    QuotientStep(y - 1601, 400);
    ShiftBy4(y);
    ShiftBy100(y);
    ShiftBy400(y);
    MultiplesNest(y);
  }

  lemma ShiftBy4(y: int)
    ensures (y - 1968) % 4 == y % 4
  {
  }

  lemma ShiftBy100(y: int)
    ensures (y - 1900) % 100 == y % 100
  {
  }

  lemma ShiftBy400(y: int)
    ensures (y - 1600) % 400 == y % 400
  {
  }

  lemma MultiplesNest(y: int)
    ensures y % 400 == 0 ==> y % 100 == 0
    ensures y % 100 == 0 ==> y % 4 == 0
  {
  }

  lemma {:induction false} YearsAdvance(y1: int, y2: int)
    requires y1 < y2
    ensures DaysBeforeYear(y2) >= DaysBeforeYear(y1) + (if Leap(y1) then 366 else 365)
    decreases y2 - y1
  {
    YearStep(y1);
    if y1 + 1 < y2 { YearsAdvance(y1 + 1, y2); }
  }

  lemma {:induction false} MonthsAdvance(y: int, m1: int, m2: int)
    requires 1 <= m1 < m2 <= 12
    ensures DaysBeforeMonth(y, m2) >= DaysBeforeMonth(y, m1) + DaysInMonth(y, m1)
    decreases m2 - m1
  {
    if m1 + 1 < m2 { MonthsAdvance(y, m1, m2 - 1); }
  }

  lemma DayWithinYear(t: Utc)
    requires Valid(t)
    ensures DaysBeforeYear(t.year) <= DayNumber(t) < DaysBeforeYear(t.year) + (if Leap(t.year) then 366 else 365)
  {
    if t.month < 12 { MonthsAdvance(t.year, t.month, 12); }
    if 1 < t.month { MonthsAdvance(t.year, 1, t.month); }
    assert DaysBeforeMonth(t.year, 12) == if Leap(t.year) then 335 else 334 by { YearLength(t.year); }
  }

  lemma YearLength(y: int)
    ensures DaysBeforeMonth(y, 12) == if Leap(y) then 335 else 334
  {
    assert DaysBeforeMonth(y, 2) == 31;
    assert DaysBeforeMonth(y, 4) == DaysBeforeMonth(y, 2) + DaysInMonth(y, 2) + 31;
    assert DaysBeforeMonth(y, 6) == DaysBeforeMonth(y, 4) + 61;
    assert DaysBeforeMonth(y, 8) == DaysBeforeMonth(y, 6) + 61;
    assert DaysBeforeMonth(y, 10) == DaysBeforeMonth(y, 8) + 61;
    assert DaysBeforeMonth(y, 12) == DaysBeforeMonth(y, 10) + 61;
  }

  lemma DaysAdvance(a: Utc, b: Utc)
    requires Valid(a) && Valid(b)
    requires a.year < b.year || (a.year == b.year && (a.month < b.month || (a.month == b.month && a.day < b.day)))
    ensures DayNumber(a) < DayNumber(b)
  {
    DayWithinYear(a);
    DayWithinYear(b);
    if a.year < b.year { YearsAdvance(a.year, b.year); }
    else if a.month < b.month { MonthsAdvance(a.year, a.month, b.month); }
  }

  /** Time values order instants exactly as their fields do. */
  lemma TimeValueOrder(a: Utc, b: Utc)
    requires Valid(a) && Valid(b)
    ensures Earlier(a, b) <==> TimeValue(a) < TimeValue(b)
    ensures a == b <==> TimeValue(a) == TimeValue(b)
  {
    if Earlier(a, b) { EarlierIsLess(a, b); }
    else if a != b { EarlierIsLess(b, a); }
  }

  lemma EarlierIsLess(a: Utc, b: Utc)
    requires Valid(a) && Valid(b) && Earlier(a, b)
    ensures TimeValue(a) < TimeValue(b)
  {
    if (a.year, a.month, a.day) != (b.year, b.month, b.day) { DaysAdvance(a, b); }
  }

  // ---- string order -----------------------------------------------------

  lemma {:induction false} DigitsOrder(a: nat, b: nat, width: nat)
    requires a < b < Pow10(width)
    ensures StringLess(Digits(a, width), Digits(b, width))
    ensures Digits(a, width) != Digits(b, width)
  {
    var x, y := Digits(a / 10, width - 1), Digits(b / 10, width - 1);
    if a / 10 < b / 10 {
      DigitsOrder(a / 10, b / 10, width - 1);
      StringLessHeads(x, y, [Digit(a % 10)], [Digit(b % 10)]);
    } else {
      StringLessPrefix(x, [Digit(a % 10)], [Digit(b % 10)]);
    }
    StringLessTotal(Digits(a, width), Digits(b, width));
  }

  function Pow10(n: nat): nat { if n == 0 then 1 else 10 * Pow10(n - 1) }

  lemma FieldOrder(sep: string, a: nat, b: nat, width: nat, s: string, t: string)
    requires a < Pow10(width) && b < Pow10(width)
    ensures StringLess(sep + Digits(a, width) + s, sep + Digits(b, width) + t)
        == if a == b then StringLess(s, t) else a < b
  {
    var p, q := sep + Digits(a, width), sep + Digits(b, width);
    if a == b {
      StringLessPrefix(p, s, t);
    } else {
      DigitsOrder(if a < b then a else b, if a < b then b else a, width);
      StringLessPrefix(sep, Digits(a, width), Digits(b, width));
      StringLessTotal(Digits(a, width), Digits(b, width));
      assert p[|sep|..] == Digits(a, width) && q[|sep|..] == Digits(b, width);
      StringLessHeads(p, q, s, t);
    }
  }

  lemma AfterYearOrder(a: Utc, b: Utc)
    requires Valid(a) && Valid(b) && a.year == b.year
    ensures StringLess(AfterYear(a), AfterYear(b)) <==> Earlier(a, b)
  {
    assert Pow10(2) == 100 && Pow10(3) == 1000;
    FieldOrder("-", a.month, b.month, 2, "-" + Digits(a.day, 2) + AfterDay(a), "-" + Digits(b.day, 2) + AfterDay(b));
    FieldOrder("-", a.day, b.day, 2, AfterDay(a), AfterDay(b));
    var sa, sb := "." + Digits(a.ms, 3) + "Z", "." + Digits(b.ms, 3) + "Z";
    var ma, mb := ":" + Digits(a.second, 2) + sa, ":" + Digits(b.second, 2) + sb;
    FieldOrder("T", a.hour, b.hour, 2, ":" + Digits(a.minute, 2) + ma, ":" + Digits(b.minute, 2) + mb);
    FieldOrder(":", a.minute, b.minute, 2, ma, mb);
    FieldOrder(":", a.second, b.second, 2, sa, sb);
    FieldOrder(".", a.ms, b.ms, 3, "Z", "Z");
    StringLessTotal("Z", "Z");
  }

  /** The pairs of instants whose printed order differs from their time order. */
  predicate Misprinted(a: Utc, b: Utc) {
    (a.year > 9999) != (b.year > 9999) || (a.year < 0 && b.year < 0 && a.year != b.year)
  }

  lemma FourDigitYearOrder(a: Utc, b: Utc)
    requires Valid(a) && Valid(b) && 0 <= a.year < b.year <= 9999
    ensures StringLess(Iso(a), Iso(b))
  {
    assert Pow10(4) == 10000;
    FieldOrder("", a.year, b.year, 4, AfterYear(a), AfterYear(b));
    assert "" + Digits(a.year, 4) + AfterYear(a) == Iso(a);
    assert "" + Digits(b.year, 4) + AfterYear(b) == Iso(b);
  }

  lemma SixDigits(n: nat)
    requires n <= 275760
    ensures n < Pow10(6)
  {
    assert Pow10(3) == 1000;
    assert Pow10(6) == 1000000;
  }

  lemma LargeYearOrder(a: Utc, b: Utc)
    requires Valid(a) && Valid(b) && 9999 < a.year < b.year
    ensures StringLess(Iso(a), Iso(b))
  {
    SixDigits(a.year);
    SixDigits(b.year);
    FieldOrder("+", a.year, b.year, 6, AfterYear(a), AfterYear(b));
  }

  lemma NegativeYearOrder(a: Utc, b: Utc)
    requires Valid(a) && Valid(b) && a.year < b.year < 0
    ensures StringLess(Iso(b), Iso(a))
  {
    SixDigits(-a.year);
    SixDigits(-b.year);
    FieldOrder("-", -b.year, -a.year, 6, AfterYear(b), AfterYear(a));
  }

  lemma MixedYearOrder(a: Utc, b: Utc)
    requires Valid(a) && Valid(b) && a.year < b.year && (a.year < 0 <= b.year || 0 <= a.year <= 9999 < b.year)
    ensures if b.year > 9999 then StringLess(Iso(b), Iso(a)) else StringLess(Iso(a), Iso(b))
  {
    FirstCharacter(a);
    FirstCharacter(b);
  }

  lemma YearOrder(a: Utc, b: Utc)
    requires Valid(a) && Valid(b) && a.year < b.year
    ensures StringLess(Iso(a), Iso(b)) <==> !Misprinted(a, b)
    ensures StringLess(Iso(b), Iso(a)) <==> Misprinted(a, b)
  {
    StringLessTotal(Iso(a), Iso(b));
    if 0 <= a.year && b.year <= 9999 { FourDigitYearOrder(a, b); }
    else if a.year > 9999 { LargeYearOrder(a, b); }
    else if b.year < 0 { NegativeYearOrder(a, b); }
    else { MixedYearOrder(a, b); }
  }

  lemma FirstCharacter(t: Utc)
    requires Valid(t)
    ensures Iso(t) != "" && if t.year < 0 then Iso(t)[0] == '-' else if t.year > 9999 then Iso(t)[0] == '+' else '0' <= Iso(t)[0] <= '9'
  {
    if 0 <= t.year <= 9999 { FirstDigit(t.year, 4); }
  }

  lemma {:induction false} FirstDigit(n: nat, width: nat)
    requires width > 0
    ensures '0' <= Digits(n, width)[0] <= '9'
  {
    if width > 1 { FirstDigit(n / 10, width - 1); }
  }

  /** Comparing printed instants is comparing times, except exactly for the misprinted
      pairs; in particular it is right for all years 0 to 9999. */
  lemma IsoOrderExact(a: Utc, b: Utc)
    requires Valid(a) && Valid(b)
    ensures (StringLess(Iso(a), Iso(b)) <==> TimeValue(a) < TimeValue(b)) <==> !Misprinted(a, b)
  {
    TimeValueOrder(a, b);
    if a.year < b.year { YearOrder(a, b); }
    else if b.year < a.year { YearOrder(b, a); }
    else {
      StringLessPrefix(YearText(a.year), AfterYear(a), AfterYear(b));
      AfterYearOrder(a, b);
    }
  }

  lemma IsoOrder(a: Utc, b: Utc)
    requires Valid(a) && Valid(b) && 0 <= a.year <= 9999 && 0 <= b.year <= 9999
    ensures StringLess(Iso(a), Iso(b)) <==> TimeValue(a) < TimeValue(b)
  {
    IsoOrderExact(a, b);
  }

  /** For years 0 to 9999 the date text of a later instant is never a smaller string. */
  lemma UtcDateMonotone(a: Utc, b: Utc)
    requires Valid(a) && Valid(b) && 0 <= a.year <= 9999 && 0 <= b.year <= 9999
    requires TimeValue(a) <= TimeValue(b)
    ensures UtcDate(a) == UtcDate(b) || StringLess(UtcDate(a), UtcDate(b))
  {
    IsoLength(a);
    IsoLength(b);
    IsoOrderExact(a, b);
    TimeValueOrder(a, b);
    if a != b && UtcDate(a) != UtcDate(b) {
      StringLessHeads(UtcDate(a), UtcDate(b), Iso(a)[10..], Iso(b)[10..]);
      assert UtcDate(a) + Iso(a)[10..] == Iso(a) && UtcDate(b) + Iso(b)[10..] == Iso(b);
    }
  }

  // ---- the calendar and the printed fields -------------------------------

  /** The same time of the next day of the calendar. */
  function NextDay(t: Utc): Utc
    requires Valid(t)
  {
    if t.day < DaysInMonth(t.year, t.month) then t.(day := t.day + 1)
    else if t.month < 12 then t.(month := t.month + 1, day := 1)
    else t.(year := t.year + 1, month := 1, day := 1)
  }

  /** The first instant of a year. */
  function NewYear(y: int): Utc { Utc(y, 1, 1, 0, 0, 0, 0) }

  lemma NextDayNumber(t: Utc)
    requires Valid(t) && Valid(NextDay(t))
    ensures DayNumber(NextDay(t)) == DayNumber(t) + 1
  {
    if t.day == DaysInMonth(t.year, t.month) && t.month == 12 {
      YearStep(t.year);
      YearLength(t.year);
      assert DaysBeforeMonth(t.year + 1, 1) == 0;
    }
  }

  /** Time values count from the start of 1970, 86,400,000 for each day of the calendar. */
  lemma TimeValueCounts(t: Utc)
    requires Valid(t)
    ensures t == NewYear(1970) ==> TimeValue(t) == 0
    ensures Valid(NextDay(t)) ==> TimeValue(NextDay(t)) == TimeValue(t) + 86_400_000
  {
    if Valid(NextDay(t)) { NextDayNumber(t); }
  }

  /** Within a day they grow by 3,600,000, 60,000, 1,000 and 1 for each unit. */
  lemma UnitsOfDay(t: Utc, midnight: Utc)
    requires Valid(t) && Valid(midnight) && midnight == Utc(t.year, t.month, t.day, 0, 0, 0, 0)
    ensures TimeValue(t) == TimeValue(midnight) + t.hour * 3_600_000 + t.minute * 60_000 + t.second * 1_000 + t.ms
  {
    assert DayNumber(t) == DayNumber(midnight);
  }

  lemma {:induction false} DigitsRead(n: nat, width: nat)
    requires n < Pow10(width)
    ensures OnlyDigits(Digits(n, width)) && NumberOf(Digits(n, width)) == n
  {
    if width > 0 {
      DigitsRead(n / 10, width - 1);
      assert Digits(n, width)[..width - 1] == Digits(n / 10, width - 1);
      assert Digits(n, width)[width - 1] == Digit(n % 10);
    }
  }

  /** `s[from]` is `sep` and the decimal digits up to `to` spell `n`. */
  predicate FieldAt(s: string, from: nat, to: nat, sep: char, n: int) {
    from < to <= |s| && s[from] == sep && OnlyDigits(s[from + 1..to]) && NumberOf(s[from + 1..to]) == n
  }

  lemma FieldReads(s: string, from: nat, sep: char, n: nat, width: nat)
    requires n < Pow10(width) && from + width < |s|
    requires s[from] == sep && s[from + 1..from + 1 + width] == Digits(n, width)
    ensures FieldAt(s, from, from + 1 + width, sep, n)
  {
    DigitsRead(n, width);
  }

  lemma AfterYearReads(t: Utc)
    requires Valid(t)
    ensures var s := AfterYear(t);
      && |s| == 20 && s[19] == 'Z'
      && FieldAt(s, 0, 3, '-', t.month) && FieldAt(s, 3, 6, '-', t.day) && FieldAt(s, 6, 9, 'T', t.hour)
      && FieldAt(s, 9, 12, ':', t.minute) && FieldAt(s, 12, 15, ':', t.second) && FieldAt(s, 15, 19, '.', t.ms)
  {
    var s := AfterYear(t);
    assert Pow10(2) == 100 && Pow10(3) == 1000;
    FieldReads(s, 0, '-', t.month, 2);
    FieldReads(s, 3, '-', t.day, 2);
    FieldReads(s, 6, 'T', t.hour, 2);
    FieldReads(s, 9, ':', t.minute, 2);
    FieldReads(s, 12, ':', t.second, 2);
    FieldReads(s, 15, '.', t.ms, 3);
  }

  /** A printed instant reads year, month, day, hour, minute, second and millisecond, each with
      its mark in front and `Z` at the end; the year has four digits, or a sign and six. */
  lemma IsoReads(t: Utc)
    requires Valid(t)
    ensures var s := Iso(t);
      && (0 <= t.year <= 9999 ==> |s| == 24 && OnlyDigits(s[..4]) && NumberOf(s[..4]) == t.year)
      && (t.year < 0 ==> |s| == 27 && FieldAt(s, 0, 7, '-', -t.year))
      && (t.year > 9999 ==> |s| == 27 && FieldAt(s, 0, 7, '+', t.year))
    ensures var s := Iso(t)[|Iso(t)| - 20..];
      && s[19] == 'Z'
      && FieldAt(s, 0, 3, '-', t.month) && FieldAt(s, 3, 6, '-', t.day) && FieldAt(s, 6, 9, 'T', t.hour)
      && FieldAt(s, 9, 12, ':', t.minute) && FieldAt(s, 12, 15, ':', t.second) && FieldAt(s, 15, 19, '.', t.ms)
  {
    var s := Iso(t);
    IsoLength(t);
    AfterYearReads(t);
    assert s[|s| - 20..] == AfterYear(t);
    if 0 <= t.year <= 9999 {
      assert Pow10(4) == 10000;
      DigitsRead(t.year, 4);
      assert s[..4] == Digits(t.year, 4);
    } else {
      var n := if t.year < 0 then -t.year else t.year;
      SixDigits(n);
      assert s[1..7] == Digits(n, 6);
      FieldReads(s, 0, s[0], n, 6);
    }
  }
}
