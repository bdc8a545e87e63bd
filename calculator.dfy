/**
 * Calculator: numbers derived from a (start, end) pair — elapsed hours snapped
 * to a granularity, whole days, months rounded at the half month, and the
 * start time as decimal hours. Every value is 0 when a date it needs is not
 * a Carbon moment.
 */
module Calculator {
  import opened Wrappers
  import opened Rounding
  import opened Dates

  /** The two stored values; None stands for anything that is not a Carbon moment. */
  datatype Calculator = Calculator(start: Option<Instant>, end: Option<Instant>) {

    /** `$this->$field`: start, end, or an undefined property (null) for any other name. */
    function Field(name: string): Option<Instant>
    {
      if name == "start" then start else if name == "end" then end else None
    }

    /** Every named field holds a Carbon moment. */
    predicate HasAll(fields: seq<string>)
    {
      forall i :: 0 <= i < |fields| ==> Field(fields[i]).Some?
    }

    /** has(['start', 'end']): both dates are Carbon moments. */
    predicate HasBoth()
      ensures HasBoth() <==> start.Some? && end.Some?
    {
      var fields := ["start", "end"];
      assert fields[0] == "start" && fields[1] == "end";
      HasAll(fields)
    }

    /** has(['start']): the start is a Carbon moment. */
    predicate HasStart()
      ensures HasStart() <==> start.Some?
    {
      var fields := ["start"];
      assert fields[0] == "start";
      HasAll(fields)
    }

    /** has($fields): false as soon as one field is not a Carbon moment, true otherwise. */
    method Has(fields: seq<string>) returns (r: bool)
      ensures r <==> forall i :: 0 <= i < |fields| ==> Field(fields[i]).Some?
    {
      for i := 0 to |fields|
        invariant forall j :: 0 <= j < i ==> Field(fields[j]).Some?
      {
        if Field(fields[i]).None? {
          return false;
        }
      }
      return true;
    }

    /** Whole minutes between start and end (Carbon diffInMinutes, absolute). */
    function Minutes(): nat
      requires start.Some? && end.Some?
    {
      DiffInMinutes(start.value, end.value)
    }

    /**
     * hours($roundToMinutes, $roundToDecimalPlaces): elapsed hours, snapped to
     * the nearest multiple of roundToMinutes minutes, then rounded to places
     * decimals.
     */
    function Hours(roundToMinutes: int, places: nat): (r: Fixed)
      requires roundToMinutes != 0
      ensures start.None? || end.None? ==> r.units == 0
      ensures start.Some? && end.Some? ==> r.places == places && r.units >= 0
    {
      if !HasBoth() then Fixed(0, 0)
      else
        var periods := RoundDiv(Minutes(), roundToMinutes);
        assert periods * roundToMinutes >= 0 by {
          MultipleAboveHalfIsNonNegative(periods, roundToMinutes);
        }
        Round(periods * roundToMinutes, 60, places)
    }

    /** hoursRoundedToNearest($minutes, $decimalPlaces): another name for hours. */
    function HoursRoundedToNearest(minutes: int, decimalPlaces: nat): (r: Fixed)
      requires minutes != 0
      ensures r == Hours(minutes, decimalPlaces)
    {
      Hours(minutes, decimalPlaces)
    }

    /** days(): whole days between start and end, 0 without both. */
    function Days(): (r: nat)
      ensures start.None? || end.None? ==> r == 0
      ensures start.Some? && end.Some? ==>
        var elapsed := AbsDiff(Stamp(start.value), Stamp(end.value));
        r * SecondsPerDay <= elapsed < (r + 1) * SecondsPerDay
    {
      if !HasBoth() then 0
      else DiffInDays(end.value, start.value)
    }

    /**
     * months(): whole months from the start of start's day to the end of the
     * day two weeks after end, 0 without both.
     */
    function Months(): (r: int)
      ensures start.None? || end.None? ==> r == 0
      ensures r >= 0
    {
      if !HasBoth() then 0
      else
        var shiftedEnd := DayEnd(AddDays(end.value, 14));
        var shiftedStart := DayStart(start.value);
        assert DiffInMonths(shiftedEnd, shiftedStart) >= 0 by {
          if Stamp(shiftedEnd) <= Stamp(shiftedStart) {
            CivilMonthsNonNegative(shiftedEnd, shiftedStart);
          } else {
            CivilMonthsNonNegative(shiftedStart, shiftedEnd);
          }
        }
        DiffInMonths(shiftedEnd, shiftedStart)
    }

    /**
     * decimal(): the start's time of day in hours to one decimal place, halves
     * rounded up; 0 without a start, whatever end holds.
     */
    function Decimal(): (r: Fixed)
      ensures start.None? ==> r.units == 0
      ensures start.Some? ==>
        var clock := 60 * Hour(start.value) + Minute(start.value);
        r.places == 1 && 0 <= r.units <= 240 && -3 <= clock - 6 * r.units < 3
    {
      if !HasStart() then Fixed(0, 0)
      else Round(60 * Hour(start.value) + Minute(start.value), 60, 1)
    }
  }

  // ---------------------------------------------------------------------------
  // Properties

  /**
   * hours(g, d) is the d-decimal rounding of s / 60 hours, where s is the
   * multiple of g minutes nearest to the elapsed minutes (a half rounds up),
   * and that rounding is itself to the nearest, a half rounding up.
   */
  lemma HoursIsRoundedSnap(c: Calculator, g: int, places: nat)
    requires g != 0 && c.start.Some? && c.end.Some?
    ensures var m := c.Minutes();
            var s := RoundDiv(m, g) * g;
            var r := c.Hours(g, places);
            -Abs(g) < 2 * (s - m) <= Abs(g)
            && r.places == places
            && -60 < 2 * (60 * r.units - s * Pow10(places)) <= 60
  {
    var m := c.Minutes();
    var p := RoundDiv(m, g);
    MultipleAboveHalfIsNonNegative(p, g);
  }

  /** More elapsed minutes never give fewer hours. */
  lemma HoursMonotone(c1: Calculator, c2: Calculator, g: int, places: nat)
    requires g > 0
    requires c1.start.Some? && c1.end.Some? && c2.start.Some? && c2.end.Some?
    requires c1.Minutes() <= c2.Minutes()
    ensures c1.Hours(g, places).units <= c2.Hours(g, places).units
  {
    var p1 := RoundDiv(c1.Minutes(), g);
    var p2 := RoundDiv(c2.Minutes(), g);
    RoundDivMonotone(c1.Minutes(), c2.Minutes(), g);
    MulMonotone(p1, p2, g);
    MulMonotone(p1 * g, p2 * g, Pow10(places));
    RoundDivMonotone(p1 * g * Pow10(places), p2 * g * Pow10(places), 60);
  }

  /**
   * On an ordered range, a later end never gives fewer months, and the
   * months are counted from the start of the start's day.
   */
  lemma MonthsMonotone(c1: Calculator, c2: Calculator)
    requires c1.start.Some? && c1.end.Some? && c2.end.Some? && c2.start == c1.start
    requires Stamp(c1.start.value) <= Stamp(c1.end.value) <= Stamp(c2.end.value)
    ensures c1.Months() <= c2.Months()
  {
    var s := DayStart(c1.start.value);
    var e1 := DayEnd(AddDays(c1.end.value, 14));
    var e2 := DayEnd(AddDays(c2.end.value, 14));
    ShiftedEndStamp(c1.end.value);
    ShiftedEndStamp(c2.end.value);
    DayNumberOrdered(c1.start.value, c1.end.value);
    DayNumberOrdered(c1.end.value, c2.end.value);
    assert Stamp(s) <= Stamp(e1) <= Stamp(e2);
    CivilMonthsMonotone(s, e1, e2);
  }

  /**
   * The value of months(): with e the date two weeks after the end, the
   * calendar months from the start's date to e, less one when e's day of
   * the month has not reached the start's. Counting to two weeks past the
   * end makes a range at least half a month into its last month count that
   * month. When the end comes more than two weeks before the start, the
   * months run backwards from the start's date to e, less one when the
   * start's day of the month does not pass e's.
   */
  lemma MonthsValue(c: Calculator)
    requires c.start.Some? && c.end.Some?
    ensures var s := c.start.value;
            var e := AddDays(c.end.value, 14);
            DayNumber(s) <= DayNumber(e) ==>
              c.Months() == 12 * (e.year - s.year) + (e.month - s.month) - (if e.day < s.day then 1 else 0)
    ensures var s := c.start.value;
            var e := AddDays(c.end.value, 14);
            DayNumber(e) < DayNumber(s) ==>
              c.Months() == 12 * (s.year - e.year) + (s.month - e.month) - (if s.day <= e.day then 1 else 0)
  {
    var s := c.start.value;
    var e := AddDays(c.end.value, 14);
    AddDaysStamp(c.end.value, 14);
    assert Stamp(DayStart(s)) == DayNumber(s) * SecondsPerDay;
    assert Stamp(DayEnd(e)) == DayNumber(e) * SecondsPerDay + LastSecond;
    if DayNumber(s) <= DayNumber(e) {
      assert Stamp(DayEnd(e)) > Stamp(DayStart(s));
    } else {
      assert Stamp(DayEnd(e)) < Stamp(DayStart(s));
    }
  }

  /** The end of the day two weeks after e, as a timestamp. */
  lemma ShiftedEndStamp(e: Instant)
    ensures Stamp(DayEnd(AddDays(e, 14))) == (DayNumber(e) + 14) * SecondsPerDay + LastSecond
  {
    AddDaysStamp(e, 14);
  }

  /** Timestamps in order put the calendar days in order. */
  lemma DayNumberOrdered(a: Instant, b: Instant)
    requires Stamp(a) <= Stamp(b)
    ensures DayNumber(a) <= DayNumber(b)
  {
  }

  // ---------------------------------------------------------------------------
  // The worked examples the calculator is exercised with, on 1 January 2016

  /** 10:00 to 14:00 is 4 hours. */
  lemma HoursExampleWhole()
    ensures Calculator(Some(DateTime(2016, 1, 1, 36000)), Some(DateTime(2016, 1, 1, 50400))).Hours(1, 2)
            == Fixed(400, 2)
  {
    var c := Calculator(Some(DateTime(2016, 1, 1, 36000)), Some(DateTime(2016, 1, 1, 50400)));
    assert c.Minutes() == 240;
    RoundDivExact(240, 1);
    assert 240 * Pow10(2) == 400 * 60;
    RoundDivExact(400, 60);
  }

  /** 10:00 to 14:12 snapped to quarter hours is 4.25 hours. */
  lemma HoursExampleQuarter()
    ensures Calculator(Some(DateTime(2016, 1, 1, 36000)), Some(DateTime(2016, 1, 1, 51120))).Hours(15, 2)
            == Fixed(425, 2)
  {
    var c := Calculator(Some(DateTime(2016, 1, 1, 36000)), Some(DateTime(2016, 1, 1, 51120)));
    assert c.Minutes() == 252;
    assert RoundDiv(252, 15) == 17 by {
      assert -15 <= 2 * (252 - RoundDiv(252, 15) * 15) <= 15;
    }
    assert 255 * Pow10(2) == 425 * 60;
    RoundDivExact(425, 60);
  }

  /** 2016-01-01 10:00 to 2016-01-04 14:12 is 3 days. */
  lemma DaysExample()
    ensures Calculator(Some(DateTime(2016, 1, 1, 36000)), Some(DateTime(2016, 1, 4, 51120))).Days() == 3
  {
  }

  /** From 2016-01-01 10:00, an end on 1 February counts 1 month. */
  lemma MonthsExampleFirst()
    ensures Calculator(Some(DateTime(2016, 1, 1, 36000)), Some(DateTime(2016, 2, 1, 0))).Months() == 1
  {
    AddDaysWithinMonth(DateTime(2016, 2, 1, 0), 14);
  }

  /** An end on 15 February, two weeks short of March, still counts 1 month. */
  lemma MonthsExampleFifteenth()
    ensures Calculator(Some(DateTime(2016, 1, 1, 36000)), Some(DateTime(2016, 2, 15, 0))).Months() == 1
  {
    AddDaysWithinMonth(DateTime(2016, 2, 15, 0), 14);
  }

  /** An end on 16 February, at midnight or at 14:00, reaches March: 2 months. */
  lemma MonthsExampleSixteenth()
    ensures Calculator(Some(DateTime(2016, 1, 1, 36000)), Some(DateTime(2016, 2, 16, 0))).Months() == 2
    ensures Calculator(Some(DateTime(2016, 1, 1, 36000)), Some(DateTime(2016, 2, 16, 50400))).Months() == 2
  {
    var e1: Instant := DateTime(2016, 2, 16, 0);
    var e2: Instant := DateTime(2016, 2, 16, 50400);
    AddDaysSplit(e1, 13, 1);
    AddDaysWithinMonth(e1, 13);
    AddDaysSplit(e2, 13, 1);
    AddDaysWithinMonth(e2, 13);
  }

  /** 10:00, 10:30, 10:15, 10:14 and 22:14 are 10.0, 10.5, 10.3, 10.2 and 22.2 hours. */
  lemma DecimalExamples()
    ensures Calculator(Some(DateTime(2016, 1, 1, 36000)), None).Decimal() == Fixed(100, 1)
    ensures Calculator(Some(DateTime(2016, 1, 1, 37800)), None).Decimal() == Fixed(105, 1)
    ensures Calculator(Some(DateTime(2016, 1, 1, 36900)), None).Decimal() == Fixed(103, 1)
    ensures Calculator(Some(DateTime(2016, 1, 1, 36840)), None).Decimal() == Fixed(102, 1)
    ensures Calculator(Some(DateTime(2016, 1, 1, 80040)), None).Decimal() == Fixed(222, 1)
  {
    assert Pow10(1) == 10;
    DecimalAt(36000, 10, 0, 100);
    DecimalAt(37800, 10, 30, 105);
    DecimalAt(36900, 10, 15, 103);
    DecimalAt(36840, 10, 14, 102);
    DecimalAt(80040, 22, 14, 222);
  }

  /** The decimal of a start at h:m on 1 January 2016, given the rounding of its minutes to tenths. */
  lemma DecimalAt(sec: int, h: int, m: int, tenths: int)
    requires 0 <= sec < SecondsPerDay && sec == 3600 * h + 60 * m && 0 <= m < 60
    requires -60 <= 2 * ((60 * h + m) * 10 - tenths * 60) < 60
    ensures Calculator(Some(DateTime(2016, 1, 1, sec)), None).Decimal() == Fixed(tenths, 1)
  {
    var t: Instant := DateTime(2016, 1, 1, sec);
    assert Hour(t) == h && Minute(t) == m by {
      DivUnique(sec, 3600, h);
      DivUnique(sec % 3600, 60, m);
    }
    assert Pow10(1) == 10;
    var r := Round(60 * h + m, 60, 1);
    assert -60 <= 2 * ((60 * h + m) * 10 - r.units * 60) < 60;
    assert r.units == tenths;
    assert Calculator(Some(t), None).Decimal() == r;
  }
}
