/** `datetime.now(timezone.utc).isoformat()` as a function of an integer clock. An instant is a
    number of microseconds since 0001-01-01T00:00:00 UTC; the texts use the proleptic Gregorian
    calendar and, as Python does, omit the fraction when the microseconds are zero. */
module IsoTime {
  import opened Text

  const SECOND: int := 1_000_000
  const DAY_SECONDS: int := 86_400
  /** The first day whose year no longer has four digits. */
  const LAST_DAY: int := 3_652_059
  const MAX_INSTANT: int := 315_537_897_600_000_000

  predicate IsInstant(t: int) {
    0 <= t < MAX_INSTANT
  }

  type Instant = t: int | IsInstant(t)

  lemma InstantBefore(t: Instant) returns (c: Instant)
    requires t > 0
    ensures c == t - 1
  {
    assert IsInstant(t) && IsInstant(t - 1);
    c := t - 1;
  }

  // ---- Calendar -------------------------------------------------------------------------

  datatype Date = Date(year: int, month: int, day: int)

  predicate Leap(y: int) {
    y % 4 == 0 && (y % 100 != 0 || y % 400 == 0)
  }

  function DaysBeforeYear(y: int): int {
    (y - 1) * 365 + (y - 1) / 4 - (y - 1) / 100 + (y - 1) / 400
  }

  const MONTH_STARTS: seq<int> := [0, 31, 59, 90, 120, 151, 181, 212, 243, 273, 304, 334, 365]

  /** Days of year `y` before the first of month `m`; month 13 stands for the whole year. */
  function DaysBeforeMonth(y: int, m: int): int
    requires 1 <= m <= 13
  {
    MONTH_STARTS[m - 1] + if m > 2 && Leap(y) then 1 else 0
  }

  predicate ValidDate(d: Date) {
    && 1 <= d.year
    && 1 <= d.month <= 12
    && 1 <= d.day <= DaysBeforeMonth(d.year, d.month + 1) - DaysBeforeMonth(d.year, d.month)
  }

  /** The number of days from 0001-01-01 to `d`. */
  function Ordinal(d: Date): int
    requires ValidDate(d)
  {
    DaysBeforeYear(d.year) + DaysBeforeMonth(d.year, d.month) + d.day - 1
  }

  predicate Earlier(a: Date, b: Date) {
    || a.year < b.year
    || (a.year == b.year && a.month < b.month)
    || (a.year == b.year && a.month == b.month && a.day < b.day)
  }

  lemma QuotientSteps(y: int)
    ensures y / 4 - (y - 1) / 4 == if y % 4 == 0 then 1 else 0
    ensures y / 100 - (y - 1) / 100 == if y % 100 == 0 then 1 else 0
    ensures y / 400 - (y - 1) / 400 == if y % 400 == 0 then 1 else 0
  {
  }

  lemma DivisorsNest(y: int)
    ensures y % 100 == 0 ==> y % 4 == 0
    ensures y % 400 == 0 ==> y % 100 == 0
  {
  }

  lemma YearLength(y: int)
    ensures DaysBeforeYear(y + 1) == DaysBeforeYear(y) + DaysBeforeMonth(y, 13)
  {
    QuotientSteps(y);
    DivisorsNest(y);
  }

  lemma YearsAccumulate(a: int, b: int)
    requires a <= b
    ensures DaysBeforeYear(a) <= DaysBeforeYear(b)
  {
  }

  lemma MonthsAccumulate(y: int, a: int, b: int)
    requires 1 <= a <= b <= 13
    ensures DaysBeforeMonth(y, a) <= DaysBeforeMonth(y, b)
  {
  }

  /** The Gregorian calendar: the lengths of its months and years, where it starts, and its period. */
  lemma Calendar(y: int, m: int)
    requires 1 <= m <= 12
    ensures DaysBeforeMonth(y, m + 1) - DaysBeforeMonth(y, m)
         == if m == 2 then (if Leap(y) then 29 else 28) else if m in {4, 6, 9, 11} then 30 else 31
    ensures DaysBeforeYear(y + 1) - DaysBeforeYear(y) == if Leap(y) then 366 else 365
    ensures DaysBeforeYear(1) == 0
  {
    YearLength(y);
  }

  /** The calendar order of dates is the order of their day numbers. */
  lemma OrdinalOrder(a: Date, b: Date)
    requires ValidDate(a) && ValidDate(b)
    ensures Earlier(a, b) <==> Ordinal(a) < Ordinal(b)
    ensures a == b <==> Ordinal(a) == Ordinal(b)
  {
    if Earlier(a, b) {
      EarlierSmaller(a, b);
    } else if Earlier(b, a) {
      EarlierSmaller(b, a);
    }
  }

  lemma EarlierSmaller(a: Date, b: Date)
    requires ValidDate(a) && ValidDate(b) && Earlier(a, b)
    ensures Ordinal(a) < Ordinal(b)
  {
    if a.year < b.year {
      MonthsAccumulate(a.year, a.month + 1, 13);
      YearLength(a.year);
      YearsAccumulate(a.year + 1, b.year);
      MonthsAccumulate(b.year, 1, b.month);
    } else if a.month < b.month {
      MonthsAccumulate(a.year, a.month + 1, b.month);
    }
  }

  /** The year of day `n`, counting up from a year that starts no later. */
  function YearOf(n: int, y: int): (r: int)
    requires 1 <= y && DaysBeforeYear(y) <= n
    ensures y <= r && DaysBeforeYear(r) <= n < DaysBeforeYear(r + 1)
    decreases n - DaysBeforeYear(y)
  {
    YearLength(y);
    if n < DaysBeforeYear(y + 1) then y else YearOf(n, y + 1)
  }

  function MonthOf(y: int, k: int, m: int): (r: int)
    requires 1 <= m <= 12 && DaysBeforeMonth(y, m) <= k < DaysBeforeMonth(y, 13)
    ensures m <= r <= 12 && DaysBeforeMonth(y, r) <= k < DaysBeforeMonth(y, r + 1)
    decreases 12 - m
  {
    if k < DaysBeforeMonth(y, m + 1) then m else MonthOf(y, k, m + 1)
  }

  function DateOf(n: int): (d: Date)
    requires 0 <= n
    ensures ValidDate(d) && Ordinal(d) == n
  {
    var y := YearOf(n, 1);
    YearLength(y);
    var k := n - DaysBeforeYear(y);
    var m := MonthOf(y, k, 1);
    Date(y, m, k - DaysBeforeMonth(y, m) + 1)
  }

  lemma FourDigitYear(n: int)
    requires 0 <= n < LAST_DAY
    ensures DateOf(n).year < Pow10(4) && DateOf(n).month < Pow10(2) && DateOf(n).day < Pow10(2)
  {
    var d := DateOf(n);
    if d.year >= 10_000 {
      YearsAccumulate(10_000, d.year);
    }
    assert Pow10(2) == 100 && Pow10(4) == 10_000;
  }

  // ---- Text -----------------------------------------------------------------------------

  /** The fraction, if any, and the UTC offset. */
  function FractionText(micros: nat): string {
    if micros == 0 then "+00:00" else "." + (Digits(micros, 6) + "+00:00")
  }

  function ClockText(second: nat, micros: nat): string {
    Digits(second / 3600, 2) + (":" + (Digits(second / 60 % 60, 2) + (":" + (Digits(second % 60, 2) + FractionText(micros)))))
  }

  function DateText(d: Date, rest: string): string
    requires ValidDate(d)
  {
    Digits(d.year, 4) + ("-" + (Digits(d.month, 2) + ("-" + (Digits(d.day, 2) + ("T" + rest)))))
  }

  function IsoFormat(t: int): (s: string)
    requires IsInstant(t)
    ensures |s| > 0
  {
    var seconds := t / SECOND;
    DateText(DateOf(seconds / DAY_SECONDS), ClockText(seconds % DAY_SECONDS, t % SECOND))
  }

  /** The text is the date and the time of day of `t`, which they determine. */
  lemma IsoReads(t: int) returns (d: Date, hour: nat, minute: nat, second: nat, micros: nat)
    requires IsInstant(t)
    ensures ValidDate(d) && d.year <= 9999 && hour < 24 && minute < 60 && second < 60 && micros < 1_000_000
    ensures t == (((Ordinal(d) * 24 + hour) * 60 + minute) * 60 + second) * 1_000_000 + micros
    ensures IsoFormat(t) ==
            Digits(d.year, 4) + ("-" + (Digits(d.month, 2) + ("-" + (Digits(d.day, 2) + ("T" +
            (Digits(hour, 2) + (":" + (Digits(minute, 2) + (":" + (Digits(second, 2) +
            if micros == 0 then "+00:00" else "." + (Digits(micros, 6) + "+00:00")))))))))))
  {
    var seconds := t / SECOND;
    d, micros := DateOf(seconds / DAY_SECONDS), t % SECOND;
    var s := seconds % DAY_SECONDS;
    hour, minute, second := s / 3600, s / 60 % 60, s % 60;
    FourDigitYear(seconds / DAY_SECONDS);
    assert Pow10(4) == 10_000;
    assert s / 60 / 60 == s / 3600;
  }

  lemma FractionOrder(a: nat, b: nat)
    requires a < SECOND && b < SECOND
    ensures Less(FractionText(a), FractionText(b)) <==> a < b
  {
    if a == 0 || b == 0 {
      LessIrreflexive("+00:00");
    } else {
      assert Pow10(6) == SECOND by { assert Pow10(3) == 1000; }
      SeparatorOrder('.', Digits(a, 6) + "+00:00", Digits(b, 6) + "+00:00");
      FieldOrder(a, b, 6, "+00:00", "+00:00");
      LessIrreflexive("+00:00");
    }
  }

  lemma ClockOrder(s1: nat, m1: nat, s2: nat, m2: nat)
    requires s1 < DAY_SECONDS && s2 < DAY_SECONDS && m1 < SECOND && m2 < SECOND
    ensures Less(ClockText(s1, m1), ClockText(s2, m2)) <==> s1 < s2 || (s1 == s2 && m1 < m2)
  {
    assert Pow10(2) == 100;
    var f1, f2 := FractionText(m1), FractionText(m2);
    var c1, c2 := Digits(s1 % 60, 2) + f1, Digits(s2 % 60, 2) + f2;
    var b1, b2 := Digits(s1 / 60 % 60, 2) + (":" + c1), Digits(s2 / 60 % 60, 2) + (":" + c2);
    FractionOrder(m1, m2);
    FieldOrder(s1 % 60, s2 % 60, 2, f1, f2);
    SeparatorOrder(':', c1, c2);
    FieldOrder(s1 / 60 % 60, s2 / 60 % 60, 2, ":" + c1, ":" + c2);
    SeparatorOrder(':', b1, b2);
    FieldOrder(s1 / 3600, s2 / 3600, 2, ":" + b1, ":" + b2);
    assert s1 / 60 / 60 == s1 / 3600 && s2 / 60 / 60 == s2 / 3600;
  }

  lemma DateOrder(a: Date, b: Date, x: string, y: string)
    requires ValidDate(a) && ValidDate(b)
    requires a.year < Pow10(4) && a.month < Pow10(2) && a.day < Pow10(2)
    requires b.year < Pow10(4) && b.month < Pow10(2) && b.day < Pow10(2)
    ensures Less(DateText(a, x), DateText(b, y)) <==> Earlier(a, b) || (a == b && Less(x, y))
  {
    var d1, d2 := Digits(a.day, 2) + ("T" + x), Digits(b.day, 2) + ("T" + y);
    var m1, m2 := Digits(a.month, 2) + ("-" + d1), Digits(b.month, 2) + ("-" + d2);
    SeparatorOrder('T', x, y);
    FieldOrder(a.day, b.day, 2, "T" + x, "T" + y);
    SeparatorOrder('-', d1, d2);
    FieldOrder(a.month, b.month, 2, "-" + d1, "-" + d2);
    SeparatorOrder('-', m1, m2);
    FieldOrder(a.year, b.year, 4, "-" + m1, "-" + m2);
  }

  /** Comparing the texts compares the instants, whether or not either text has a fraction. */
  lemma StringOrderIsTimeOrder(a: int, b: int)
    requires IsInstant(a) && IsInstant(b)
    ensures Less(IsoFormat(a), IsoFormat(b)) <==> a < b
  {
    var s1, s2 := a / SECOND, b / SECOND;
    var n1, n2 := s1 / DAY_SECONDS, s2 / DAY_SECONDS;
    FourDigitYear(n1);
    FourDigitYear(n2);
    OrdinalOrder(DateOf(n1), DateOf(n2));
    ClockOrder(s1 % DAY_SECONDS, a % SECOND, s2 % DAY_SECONDS, b % SECOND);
    DateOrder(DateOf(n1), DateOf(n2),
              ClockText(s1 % DAY_SECONDS, a % SECOND), ClockText(s2 % DAY_SECONDS, b % SECOND));
  }
}
