/**
 * The slice of the Carbon date library that the calculators and DateRange
 * rely on, over proleptic Gregorian civil date-times in one fixed time zone.
 *
 * A moment is a civil date and a second of the day. Carbon's comparisons and
 * differences work on timestamps (seconds since 1970-01-01 00:00:00), so the
 * timestamp of a moment is defined here and shown to agree with the order of
 * the civil fields. Carbon objects are mutable; `Carbon` is the class whose
 * `at` field the in-place operations (startOfDay, endOfDay) change.
 */
module Dates {

  const SecondsPerDay := 86400
  const LastSecond := 86399

  predicate IsLeapYear(y: int)
  {
    y % 4 == 0 && (y % 100 != 0 || y % 400 == 0)
  }

  function DaysInYear(y: int): int
  {
    if IsLeapYear(y) then 366 else 365
  }

  function DaysInMonth(y: int, m: int): int
    requires 1 <= m <= 12
  {
    if m == 2 then (if IsLeapYear(y) then 29 else 28)
    else if m == 4 || m == 6 || m == 9 || m == 11 then 30
    else 31
  }

  /** Days of year y before the first of month m. */
  function DaysBeforeMonth(y: int, m: int): int
    requires 1 <= m <= 12
  {
    var common :=
      if m == 1 then 0 else if m == 2 then 31 else if m == 3 then 59
      else if m == 4 then 90 else if m == 5 then 120 else if m == 6 then 151
      else if m == 7 then 181 else if m == 8 then 212 else if m == 9 then 243
      else if m == 10 then 273 else if m == 11 then 304 else 334;
    common + (if m > 2 && IsLeapYear(y) then 1 else 0)
  }

  /** Leap years among 1 .. y - 1 (extended to all y with floor division). */
  function LeapYearsBefore(y: int): int
  {
    (y - 1) / 4 - (y - 1) / 100 + (y - 1) / 400
  }

  /** Days from 1970-01-01 to the first of January of year y. */
  function DaysBeforeYear(y: int): int
  {
    365 * (y - 1970) + LeapYearsBefore(y) - LeapYearsBefore(1970)
  }

  datatype DateTime = DateTime(year: int, month: int, day: int, sec: int)

  /** A moment: a real calendar date and a second within that day. */
  type Instant = t: DateTime
    | 1 <= t.month <= 12 && 1 <= t.day <= DaysInMonth(t.year, t.month) && 0 <= t.sec < SecondsPerDay
    witness DateTime(1970, 1, 1, 0)

  /** Days since 1970-01-01. */
  function DayNumber(t: Instant): int
  {
    DaysBeforeYear(t.year) + DaysBeforeMonth(t.year, t.month) + t.day - 1
  }

  /** Carbon's timestamp: seconds since 1970-01-01 00:00:00. */
  function Stamp(t: Instant): int
  {
    DayNumber(t) * SecondsPerDay + t.sec
  }

  function Hour(t: Instant): (h: int)
    ensures 0 <= h < 24
  {
    t.sec / 3600
  }

  function Minute(t: Instant): (m: int)
    ensures 0 <= m < 60
  {
    t.sec % 3600 / 60
  }

  /** Carbon startOfDay: 00:00:00 of the same date. */
  function DayStart(t: Instant): (r: Instant)
    ensures r.sec == 0 && DayNumber(r) == DayNumber(t)
  {
    t.(sec := 0)
  }

  /** Carbon endOfDay: 23:59:59 of the same date. */
  function DayEnd(t: Instant): (r: Instant)
    ensures r.sec == LastSecond && DayNumber(r) == DayNumber(t)
  {
    t.(sec := LastSecond)
  }

  /** The same time of day on the following calendar date. */
  function NextDay(t: Instant): Instant
  {
    if t.day < DaysInMonth(t.year, t.month) then t.(day := t.day + 1)
    else if t.month < 12 then t.(month := t.month + 1, day := 1)
    else t.(year := t.year + 1, month := 1, day := 1)
  }

  /** Carbon addDays(n) for n >= 0. */
  function AddDays(t: Instant, n: nat): Instant
    decreases n
  {
    if n == 0 then t else AddDays(NextDay(t), n - 1)
  }

  // ---------------------------------------------------------------------------
  // Day numbers and timestamps

  /** The quotient by k goes up by one exactly at a multiple of k. */
  lemma QuotientStep(y: int, k: int)
    requires k > 0
    ensures y / k - (y - 1) / k == (if y % k == 0 then 1 else 0)
  {
    var q := (y - 1) / k;
    var r := (y - 1) % k;
    assert y == q * k + r + 1;
    if r == k - 1 {
      assert y == (q + 1) * k + 0;
      QuotientOf(y, k, q + 1, 0);
    } else {
      QuotientOf(y, k, q, r + 1);
    }
  }

  /** y = q * k + r with 0 <= r < k fixes the quotient and the remainder. */
  lemma QuotientOf(y: int, k: int, q: int, r: int)
    requires k > 0 && 0 <= r < k && y == q * k + r
    ensures y / k == q && y % k == r
  {
    var q' := y / k;
    var r' := y % k;
    assert (q - q') * k == r' - r;
    if q - q' >= 1 {
      assert false;
    } else if q - q' <= -1 {
      assert false;
    }
  }

  /** A multiple of a * b is a multiple of b. */
  lemma MultipleOfFactor(y: int, a: int, b: int)
    requires a > 0 && b > 0 && y % (a * b) == 0
    ensures y % b == 0
  {
    var j := y / (a * b);
    assert y == j * (a * b);
    assert y == (j * a) * b + 0;
    QuotientOf(y, b, j * a, 0);
  }

  lemma DaysBeforeYearStep(y: int)
    ensures DaysBeforeYear(y + 1) == DaysBeforeYear(y) + DaysInYear(y)
  {
    QuotientStep(y, 4);
    QuotientStep(y, 100);
    QuotientStep(y, 400);
    if y % 400 == 0 {
      MultipleOfFactor(y, 4, 100);
      MultipleOfFactor(y, 100, 4);
    }
    if y % 100 == 0 {
      MultipleOfFactor(y, 25, 4);
    }
  }

  lemma DaysBeforeMonthStep(y: int, m: int)
    requires 1 <= m < 12
    ensures DaysBeforeMonth(y, m + 1) == DaysBeforeMonth(y, m) + DaysInMonth(y, m)
  {
  }

  /** Moving to the next calendar date advances the day number by exactly one. */
  lemma NextDayNumber(t: Instant)
    ensures DayNumber(NextDay(t)) == DayNumber(t) + 1
    ensures NextDay(t).sec == t.sec
  {
    if t.day == DaysInMonth(t.year, t.month) {
      if t.month < 12 {
        DaysBeforeMonthStep(t.year, t.month);
      } else {
        DaysBeforeYearStep(t.year);
      }
    }
  }

  /** Carbon addDays(n) moves the timestamp forward by exactly n days. */
  lemma {:induction false} AddDaysStamp(t: Instant, n: nat)
    ensures Stamp(AddDays(t, n)) == Stamp(t) + n * SecondsPerDay
    ensures AddDays(t, n).sec == t.sec
    decreases n
  {
    if n > 0 {
      NextDayNumber(t);
      AddDaysStamp(NextDay(t), n - 1);
    }
  }

  /** Adding days that stay inside the month only advances the day of the month. */
  lemma {:induction false} AddDaysWithinMonth(t: Instant, n: nat)
    requires t.day + n <= DaysInMonth(t.year, t.month)
    ensures AddDays(t, n) == t.(day := t.day + n)
    decreases n
  {
    if n > 0 {
      AddDaysWithinMonth(NextDay(t), n - 1);
    }
  }

  /** Adding a + b days is adding a days, then b more. */
  lemma {:induction false} AddDaysSplit(t: Instant, a: nat, b: nat)
    ensures AddDays(t, a + b) == AddDays(AddDays(t, a), b)
    decreases a
  {
    if a > 0 {
      AddDaysSplit(NextDay(t), a - 1, b);
    }
  }

  /** The civil order: year, then month, then day, then second. */
  predicate CivilBefore(a: Instant, b: Instant)
  {
    a.year < b.year
    || (a.year == b.year && a.month < b.month)
    || (a.year == b.year && a.month == b.month && a.day < b.day)
    || (a.year == b.year && a.month == b.month && a.day == b.day && a.sec < b.sec)
  }

  lemma {:induction false} DaysBeforeYearGrows(y1: int, y2: int)
    requires y1 < y2
    ensures DaysBeforeYear(y1) + DaysInYear(y1) <= DaysBeforeYear(y2)
    decreases y2 - y1
  {
    DaysBeforeYearStep(y1);
    if y1 + 1 < y2 {
      DaysBeforeYearGrows(y1 + 1, y2);
    }
  }

  /** A date's day number stays below the first day of any later year. */
  lemma DayNumberBeforeLaterYear(t: Instant, y: int)
    requires t.year < y
    ensures DayNumber(t) < DaysBeforeYear(y)
  {
    DaysBeforeYearGrows(t.year, y);
  }

  /** An earlier civil date has a smaller day number. */
  lemma DayNumberMonotone(a: Instant, b: Instant)
    requires CivilBefore(a, b) && !(a.year == b.year && a.month == b.month && a.day == b.day)
    ensures DayNumber(a) < DayNumber(b)
  {
    if a.year < b.year {
      DayNumberBeforeLaterYear(a, b.year);
    }
  }

  /** Carbon's comparisons agree with the civil order of the fields. */
  lemma CivilOrderIsStampOrder(a: Instant, b: Instant)
    ensures CivilBefore(a, b) <==> Stamp(a) < Stamp(b)
    ensures a == b <==> Stamp(a) == Stamp(b)
  {
    if a.year == b.year && a.month == b.month && a.day == b.day {
      assert DayNumber(a) == DayNumber(b);
    } else if CivilBefore(a, b) {
      DayNumberMonotone(a, b);
    } else {
      DayNumberMonotone(b, a);
    }
  }

  /** Two moments fall on the same calendar date exactly when their day starts coincide. */
  lemma SameDateIsSameDayStart(a: Instant, b: Instant)
    ensures Stamp(DayStart(a)) == Stamp(DayStart(b))
        <==> (a.year == b.year && a.month == b.month && a.day == b.day)
  {
    CivilOrderIsStampOrder(DayStart(a), DayStart(b));
  }

  // ---------------------------------------------------------------------------
  // Differences, as Carbon computes them (absolute by default)

  function AbsDiff(x: int, y: int): nat
  {
    if x <= y then y - x else x - y
  }

  /** Carbon diffInMinutes: whole minutes between the two moments. */
  function DiffInMinutes(a: Instant, b: Instant): (r: nat)
    ensures r * 60 <= AbsDiff(Stamp(a), Stamp(b)) < r * 60 + 60
  {
    AbsDiff(Stamp(a), Stamp(b)) / 60
  }

  /** Carbon diffInDays: whole days between the two moments. */
  function DiffInDays(a: Instant, b: Instant): (r: nat)
    ensures r * SecondsPerDay <= AbsDiff(Stamp(a), Stamp(b)) < r * SecondsPerDay + SecondsPerDay
  {
    AbsDiff(Stamp(a), Stamp(b)) / SecondsPerDay
  }

  /**
   * Whole calendar months from lo to hi: the month count of PHP's date
   * interval, which borrows a month when hi's day and time of day come
   * before lo's.
   */
  function CivilMonths(lo: Instant, hi: Instant): int
  {
    12 * (hi.year - lo.year) + (hi.month - lo.month)
    - (if hi.day < lo.day || (hi.day == lo.day && hi.sec < lo.sec) then 1 else 0)
  }

  /** Carbon diffInMonths (absolute): the civil month count from the earlier moment to the later. */
  function DiffInMonths(a: Instant, b: Instant): int
  {
    if Stamp(a) <= Stamp(b) then CivilMonths(a, b) else CivilMonths(b, a)
  }

  /** The month count from an earlier moment is never negative. */
  lemma CivilMonthsNonNegative(lo: Instant, hi: Instant)
    requires Stamp(lo) <= Stamp(hi)
    ensures CivilMonths(lo, hi) >= 0
  {
    CivilOrderIsStampOrder(hi, lo);
  }

  /** A later end never has fewer whole months from the same start. */
  lemma CivilMonthsMonotone(lo: Instant, hi1: Instant, hi2: Instant)
    requires Stamp(hi1) <= Stamp(hi2)
    ensures CivilMonths(lo, hi1) <= CivilMonths(lo, hi2)
  {
    CivilOrderIsStampOrder(hi2, hi1);
  }

  // ---------------------------------------------------------------------------
  // Mutable Carbon objects

  /** A Carbon object: a moment that startOfDay and endOfDay change in place. */
  class Carbon {
    var at: Instant

    constructor (at: Instant)
      ensures this.at == at
    {
      this.at := at;
    }

    method StartOfDay()
      modifies this
      ensures at == DayStart(old(at))
    {
      at := DayStart(at);
    }

    method EndOfDay()
      modifies this
      ensures at == DayEnd(old(at))
    {
      at := DayEnd(at);
    }
  }
}
