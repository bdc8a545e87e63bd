/**
 * ExampleCalculator: a Calculator whose hours() rounds the elapsed time down
 * to whole periods of downTo minutes and, when the time is exactly one period
 * past a whole hour, drops that period as well. Every other calculation is
 * inherited unchanged from Calculator.
 */
module ExampleCalculator {
  import opened Wrappers
  import opened Rounding
  import opened Dates
  import opened Calculator

  /** Periods of downTo minutes in diff minutes, less a half period, rounded half away from zero. */
  function Periods(diff: nat, downTo: int): int
    requires downTo > 0
  {
    RoundDiv(2 * diff - downTo, 2 * downTo)
  }

  /**
   * The body of hours($downTo, $decimalPlaces) once both dates are present:
   * diff is the whole minutes between them.
   */
  function HoursOf(diff: nat, downTo: int, places: nat): (r: Fixed)
    requires downTo > 0
    ensures r.places == places || r.places == 2
  {
    var rounded := Round(Periods(diff, downTo) * downTo, 60, places);
    var scale := Pow10(places);
    var whole := rounded.units / scale;
    var fraction := RoundDiv((rounded.units - whole * scale) * 100, scale);
    var periodLength := RoundDiv(downTo * 100, 60);
    if fraction == periodLength && diff % downTo == 0 then
      Minus(rounded, Fixed(periodLength, 2))
    else
      rounded
  }

  /**
   * hours($downTo, $decimalPlaces) of an ExampleCalculator, as written: 0
   * without both dates, otherwise the hours of the whole minutes between
   * them. On a range of at least a minute that is a whole number of periods
   * (see HoursOfCorrected). On an empty range it is the rounding of minus
   * half a period, which can be negative: -0.25 with the defaults
   * (ZeroLengthIsNegative) and -1.00 with half-hour periods
   * (ZeroLengthHalfHourPeriods).
   */
  function Hours(c: Calculator, downTo: int, places: nat): (r: Fixed)
    requires downTo > 0
    ensures c.start.None? || c.end.None? ==> r.units == 0
    ensures c.start.Some? && c.end.Some? ==> r == HoursOf(c.Minutes(), downTo, places)
    ensures c.start.Some? && c.end.Some? && c.Minutes() > 0 ==> r == HoursOfCorrected(c.Minutes(), downTo, places)
  {
    if !c.HasBoth() then Fixed(0, 0)
    else
      var diff := c.Minutes();
      if diff > 0 then
        CorrectedAgreesOnNonEmpty(diff, downTo, places);
        HoursOf(diff, downTo, places)
      else
        HoursOf(diff, downTo, places)
  }

  /**
   * hours() with the periods counted by a floor: the code's value on every
   * range of at least a minute, and 0 hours on an empty range.
   */
  function HoursCorrected(c: Calculator, downTo: int, places: nat): (r: Fixed)
    requires downTo > 0
    ensures c.start.None? || c.end.None? ==> r.units == 0
    ensures c.start.Some? && c.end.Some? && c.Minutes() > 0 ==> r == Hours(c, downTo, places)
    ensures c.start.Some? && c.end.Some? && c.Minutes() == 0 ==> r == Fixed(0, places)
  {
    if !c.HasBoth() then Fixed(0, 0)
    else
      var diff := c.Minutes();
      if diff > 0 then
        CorrectedAgreesOnNonEmpty(diff, downTo, places);
        HoursOfCorrected(diff, downTo, places)
      else
        CorrectedEmptyIsZero(downTo, places);
        HoursOfCorrected(diff, downTo, places)
  }

  // ---------------------------------------------------------------------------
  // Properties

  /** For a range of at least a minute, the half-period offset makes the rounding a floor. */
  lemma PeriodsAreFloor(diff: nat, downTo: int)
    requires downTo > 0 && diff > 0
    ensures Periods(diff, downTo) == diff / downTo
  {
    var p := Periods(diff, downTo);
    var q := diff / downTo;
    var n := 2 * diff - downTo;
    assert n - q * (2 * downTo) == 2 * (diff % downTo) - downTo;
    if p > q {
      MulMonotone(q + 1, p, 2 * downTo);
    } else if p < q {
      MulMonotone(p + 1, q, 2 * downTo);
    }
  }

  /**
   * With the defaults (15-minute periods, two decimals), a range of diff > 0
   * minutes gives a quarter hour per whole 15 minutes, less one quarter when
   * diff is exactly one quarter past a whole hour.
   */
  lemma DefaultHoursClosedForm(diff: nat)
    requires diff > 0
    ensures var q := diff / 15;
            HoursOf(diff, 15, 2)
              == Fixed(25 * q - (if diff % 15 == 0 && q % 4 == 1 then 25 else 0), 2)
  {
    var q := diff / 15;
    PeriodsAreFloor(diff, 15);
    assert q * 15 * Pow10(2) == 25 * q * 60;
    RoundDivExact(25 * q, 60);
    var whole := (25 * q) / 100;
    assert whole == q / 4;
    assert (25 * q - whole * 100) * 100 == 25 * (q % 4) * 100;
    RoundDivExact(25 * (q % 4), 100);
    assert RoundDiv(15 * 100, 60) == 25 by { RoundDivExact(25, 60); }
  }

  /** The default hours never exceed the elapsed time and are never a whole period short of it, save the dropped one. */
  lemma DefaultHoursBounds(diff: nat)
    requires diff > 0
    ensures var r := HoursOf(diff, 15, 2);
            r.places == 2
            && 60 * r.units <= 100 * diff
            && 100 * diff - 60 * r.units < 3000
  {
    DefaultHoursClosedForm(diff);
  }

  /** A range of exactly one period past a whole hour is reported as the whole hour. */
  lemma DefaultHoursDropsFirstPeriod(k: nat)
    ensures HoursOf(60 * k + 15, 15, 2) == Fixed(100 * k, 2)
  {
    var diff := 60 * k + 15;
    DivUnique(diff, 15, 4 * k + 1);
    DivUnique(4 * k + 1, 4, k);
    assert diff % 15 == 0 && (diff / 15) % 4 == 1;
    DefaultHoursClosedForm(diff);
  }

  /** The 15-minute rows of the hour-rounding table the ExampleCalculator is exercised with. */
  lemma QuarterHoursTable()
    ensures HoursOf(240, 15, 2) == Fixed(400, 2)
    ensures HoursOf(270, 15, 2) == Fixed(450, 2)
    ensures HoursOf(285, 15, 2) == Fixed(475, 2)
    ensures HoursOf(255, 15, 2) == Fixed(400, 2)
    ensures HoursOf(252, 15, 2) == Fixed(400, 2)
    ensures HoursOf(256, 15, 2) == Fixed(425, 2)
  {
    DefaultHoursClosedForm(240);
    DefaultHoursClosedForm(270);
    DefaultHoursClosedForm(285);
    DefaultHoursClosedForm(255);
    DefaultHoursClosedForm(252);
    DefaultHoursClosedForm(256);
  }

  /** The 10-minute rows: 4.17 hours for 255 minutes, and 250 minutes dropped to 4. */
  lemma TenMinuteHoursTable()
    ensures HoursOf(255, 10, 2) == Fixed(417, 2)
    ensures HoursOf(250, 10, 2) == Fixed(400, 2)
  {
    PeriodsAreFloor(255, 10);
    PeriodsAreFloor(250, 10);
    assert RoundDiv(25000, 60) == 417 by {
      assert -60 <= 2 * (25000 - RoundDiv(25000, 60) * 60) <= 60;
    }
    assert RoundDiv(1700, 100) == 17 by { RoundDivExact(17, 100); }
    assert RoundDiv(1000, 60) == 17 by {
      assert -60 <= 2 * (1000 - RoundDiv(1000, 60) * 60) <= 60;
    }
  }

  // ---------------------------------------------------------------------------
  // Zero-length ranges

  /**
   * As written, a range whose start and end are the same minute rounds its
   * -half-period offset away from zero to a whole negative period: a quarter
   * hour below zero with the defaults.
   */
  lemma ZeroLengthIsNegative()
    ensures HoursOf(0, 15, 2) == Fixed(-25, 2)
  {
    assert Periods(0, 15) == -1 by {
      assert 2 * (-15 - Periods(0, 15) * 30) >= -30;
      assert 2 * (-15 - Periods(0, 15) * 30) <= 30;
    }
    assert RoundDiv(-1500, 60) == -25 by { RoundDivExact(-25, 60); }
    assert RoundDiv(7500, 100) == 75 by { RoundDivExact(75, 100); }
    assert RoundDiv(1500, 60) == 25 by { RoundDivExact(25, 60); }
  }

  /**
   * With half-hour periods an empty range is two periods below zero: the
   * offset rounds to -0.50, whose fraction is one period, so the first-period
   * adjustment subtracts another.
   */
  lemma ZeroLengthHalfHourPeriods()
    ensures HoursOf(0, 30, 2) == Fixed(-100, 2)
  {
    assert Periods(0, 30) == -1 by {
      assert 2 * (-30 - Periods(0, 30) * 60) >= -60;
      assert 2 * (-30 - Periods(0, 30) * 60) <= 60;
    }
    assert Pow10(2) == 100;
    assert Round(-30, 60, 2) == Fixed(-50, 2) by {
      assert RoundDiv(-3000, 60) == -50 by { RoundDivExact(-50, 60); }
    }
    assert -50 / 100 == -1;
    assert RoundDiv(5000, 100) == 50 by { RoundDivExact(50, 100); }
    assert RoundDiv(3000, 60) == 50 by { RoundDivExact(50, 60); }
    assert Minus(Fixed(-50, 2), Fixed(50, 2)) == Fixed(-100, 2);
  }

  /** hours() with the periods counted by a floor, so that an empty range is zero hours. */
  function HoursOfCorrected(diff: nat, downTo: int, places: nat): (r: Fixed)
    requires downTo > 0
    ensures r.places == places || r.places == 2
  {
    var rounded := Round(diff / downTo * downTo, 60, places);
    var scale := Pow10(places);
    var whole := rounded.units / scale;
    var fraction := RoundDiv((rounded.units - whole * scale) * 100, scale);
    var periodLength := RoundDiv(downTo * 100, 60);
    if fraction == periodLength && diff % downTo == 0 then
      Minus(rounded, Fixed(periodLength, 2))
    else
      rounded
  }

  /** The corrected hours agree with the code on every range of at least a minute. */
  lemma CorrectedAgreesOnNonEmpty(diff: nat, downTo: int, places: nat)
    requires downTo > 0 && diff > 0
    ensures HoursOfCorrected(diff, downTo, places) == HoursOf(diff, downTo, places)
  {
    PeriodsAreFloor(diff, downTo);
  }

  /** The corrected hours of an empty range are zero, whatever the period and precision. */
  lemma CorrectedEmptyIsZero(downTo: int, places: nat)
    requires downTo > 0
    ensures HoursOfCorrected(0, downTo, places) == Fixed(0, places)
  {
    var scale := Pow10(places);
    assert 0 / downTo * downTo == 0;
    assert 0 * scale == 0;
    assert RoundDiv(0, 60) == 0 by { RoundDivExact(0, 60); }
    var rounded := Round(0, 60, places);
    assert rounded == Fixed(0, places);
    assert rounded.units / scale == 0;
    assert RoundDiv(0, scale) == 0 by { RoundDivExact(0, scale); }
    var periodLength := RoundDiv(downTo * 100, 60);
    assert periodLength > 0 by {
      RoundDivExact(1, 60);
      RoundDivMonotone(60, downTo * 100, 60);
    }
  }

  /** With the defaults, the corrected hours are never negative. */
  lemma CorrectedDefaultNonNegative(diff: nat)
    ensures HoursOfCorrected(diff, 15, 2).units >= 0
  {
    if diff > 0 {
      CorrectedAgreesOnNonEmpty(diff, 15, 2);
      DefaultHoursClosedForm(diff);
      var q := diff / 15;
      assert q % 4 == 1 ==> q >= 1;
      assert HoursOf(diff, 15, 2).units >= 25 * q - (if q % 4 == 1 then 25 else 0);
    } else {
      CorrectedEmptyIsZero(15, 2);
    }
  }
}
