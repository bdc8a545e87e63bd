/**
 * The DateRange object: two date fields set from raw inputs, the order check
 * that guards them, the day, overlap and adjacency questions asked of them,
 * fullDay's in-place change of the Carbon objects they hold, and the two
 * entry points of the renderer, format() and property access (__get).
 */
module DateRange {
  import opened Wrappers
  import opened Dates
  import opened Php
  import opened Formatting
  import MockConfig

  /** DateRange::NONE, the input that stands for "no date". */
  const NONE := -1

  /** What make() and setDates() accept. */
  datatype Input =
    | Null
    | Int(n: int)
    | Text(s: string)
    | CarbonObj(c: Carbon)      // a Carbon object, kept by reference
    | DateTimeObj(t: Instant)   // a plain DateTime, copied into a new Carbon

  /** PHP's `! $end` on an input: null, 0, "" and "0". */
  predicate Falsy(x: Input)
  {
    x == Input.Null || x == Int(0) || x == Text("") || x == Text("0")
  }

  /** setDates: an empty end stands for the start. */
  function EndInput(start: Input, end: Input): Input
  {
    if Falsy(end) then start else end
  }

  /** A date field: a Carbon object, or the none value taken from the configuration. */
  datatype DateVal = D(c: Carbon) | V(v: Value)

  /** What getCarbonDate makes of an input. */
  datatype Coerced =
    | Kept(c: Carbon)     // the caller's own Carbon
    | Made(at: Instant)   // a new Carbon at this moment
    | Plain(v: Value)     // not a date

  /**
   * getCarbonDate: exactly NONE becomes none.default; a Carbon is kept; a
   * DateTime is converted; numeric input is a timestamp; anything else,
   * null included, is parsed.
   */
  function Coerce(keys: map<string, Value>, host: Host, date: Input): (r: Coerced)
    ensures r.Plain? <==> date == Int(NONE)
    ensures r.Plain? ==> r.v == GetConfig(keys, "none.default", Str(""))
    ensures r.Kept? <==> date.CarbonObj?
    ensures date.CarbonObj? ==> r.c == date.c
    ensures date.DateTimeObj? ==> r == Made(date.t)
    ensures date.Int? && date.n != NONE ==> r == Made(host.fromTimestamp(date.n))
    ensures date.Text? ==> r.Made?
    ensures date.Text? && IsNumericText(date.s) ==> r == Made(host.fromTimestamp(NumericValue(date.s)))
    ensures date.Text? && !IsNumericText(date.s) ==> r == Made(host.parse(date.s))
    ensures date.Null? ==> r == Made(host.parse(""))
  {
    match date
    case Int(n) =>
      if n == NONE then Plain(GetConfig(keys, "none.default", Str("")))
      else Made(host.fromTimestamp(n))
    case CarbonObj(c) => Kept(c)
    case DateTimeObj(t) => Made(t)
    case Text(s) =>
      if IsNumericText(s) then Made(host.fromTimestamp(NumericValue(s))) else Made(host.parse(s))
    case Null() => Made(host.parse(""))
  }

  /**
   * Every input but NONE becomes a Carbon date, and what it becomes does not
   * depend on the configuration; a Carbon passed in keeps its own moment.
   */
  lemma CoercedInputIsADate(keys: map<string, Value>, keys2: map<string, Value>, host: Host, date: Input)
    requires date != Int(NONE)
    ensures Expected(Coerce(keys, host, date)).Date?
    ensures Coerce(keys, host, date) == Coerce(keys2, host, date)
    ensures date.CarbonObj? ==> Expected(Coerce(keys, host, date)) == Date(date.c.at)
  {
  }

  /** The moment a coerced input stands for. */
  function Expected(k: Coerced): Moment
    reads if k.Kept? then {k.c} else {}
  {
    match k
    case Kept(c) => Date(c.at)
    case Made(at) => Date(at)
    case Plain(v) => Other(v)
  }

  /** The moment a date field holds now. */
  function MomentOf(d: DateVal): Moment
    reads if d.D? then {d.c} else {}
  {
    match d
    case D(c) => Date(c.at)
    case V(v) => Other(v)
  }

  /** The field d is what getCarbonDate returns for k. */
  predicate Holds(d: DateVal, k: Coerced)
    reads if d.D? then {d.c} else {}
  {
    match k
    case Kept(c) => d == D(c)
    case Made(at) => d.D? && d.c.at == at
    case Plain(v) => d == V(v)
  }

  /** setDates' check: no exception unless both are dates and the start is after the end. */
  predicate InOrder(start: Moment, end: Moment)
  {
    !(start.Date? && end.Date? && Stamp(start.at) > Stamp(end.at))
  }

  predicate SameDate(a: Instant, b: Instant)
  {
    a.year == b.year && a.month == b.month && a.day == b.day
  }

  // ---------------------------------------------------------------------------
  // isSameDay, overlaps and isAdjacentTo on the moments the fields hold

  /**
   * isSameDay: true when either field is not a date, when both are the same
   * moment, or when their starts of day coincide: that is, when the two
   * moments fall on the same calendar date.
   */
  function SameDay(start: Moment, end: Moment): (r: bool)
    ensures r <==> !start.Date? || !end.Date? || SameDate(start.at, end.at)
  {
    if !(start.Date? && end.Date?) then true
    else if start.at == end.at then true
    else
      SameDateIsSameDayStart(start.at, end.at);
      Stamp(DayStart(start.at)) == Stamp(DayStart(end.at))
  }

  /**
   * Carbon's lt/gt/eq called on a and given b: a call on a value that is not
   * an object, or with an argument that is not a Carbon, is a fatal error.
   */
  function Compare(a: Moment, b: Moment, less: bool, equal: bool, greater: bool): (r: Result<bool, Fault>)
    ensures r.Failure? <==> !a.Date? || !b.Date?
    ensures r.Failure? ==> r.error == Fatal
    ensures r.Success? ==> r.value == (if Stamp(a.at) < Stamp(b.at) then less
                                       else if Stamp(a.at) == Stamp(b.at) then equal else greater)
  {
    if !a.Date? || !b.Date? then Failure(Fatal)
    else if Stamp(a.at) < Stamp(b.at) then Success(less)
    else if Stamp(a.at) == Stamp(b.at) then Success(equal)
    else Success(greater)
  }

  /**
   * overlaps: `start < other.end && end > other.start`, the second
   * comparison only made when the first holds.
   */
  function Overlap(start: Moment, end: Moment, otherStart: Moment, otherEnd: Moment): (r: Result<bool, Fault>)
    ensures r.Failure? <==> !start.Date? || !otherEnd.Date?
                            || (Stamp(start.at) < Stamp(otherEnd.at) && (!end.Date? || !otherStart.Date?))
    ensures r.Success? ==> (r.value <==> (Stamp(start.at) < Stamp(otherEnd.at) && Stamp(end.at) > Stamp(otherStart.at)))
  {
    var before :- Compare(start, otherEnd, true, false, false);
    if !before then Success(false) else Compare(end, otherStart, false, false, true)
  }

  /**
   * isAdjacentTo: `start == other.end || end == other.start`, the second
   * comparison only made when the first fails.
   */
  function Adjacent(start: Moment, end: Moment, otherStart: Moment, otherEnd: Moment): (r: Result<bool, Fault>)
    ensures r.Failure? <==> !start.Date? || !otherEnd.Date?
                            || (Stamp(start.at) != Stamp(otherEnd.at) && (!end.Date? || !otherStart.Date?))
    ensures r.Success? ==> (r.value <==> (Stamp(start.at) == Stamp(otherEnd.at) || Stamp(end.at) == Stamp(otherStart.at)))
  {
    var touching :- Compare(start, otherEnd, false, true, false);
    if touching then Success(true) else Compare(end, otherStart, false, true, false)
  }

  predicate AllDates(a: Moment, b: Moment, c: Moment, d: Moment)
  {
    a.Date? && b.Date? && c.Date? && d.Date?
  }

  /** On dates, overlapping does not depend on which range asks. */
  lemma OverlapSymmetric(start: Moment, end: Moment, otherStart: Moment, otherEnd: Moment)
    requires AllDates(start, end, otherStart, otherEnd)
    ensures Overlap(start, end, otherStart, otherEnd) == Overlap(otherStart, otherEnd, start, end)
  {
  }

  /**
   * Overlapping is strict: two ordered ranges overlap exactly when they
   * share a moment and do not merely touch end to start.
   */
  lemma OverlapIsSharedInterior(start: Moment, end: Moment, otherStart: Moment, otherEnd: Moment)
    requires AllDates(start, end, otherStart, otherEnd)
    ensures Overlap(start, end, otherStart, otherEnd).Success?
    ensures Overlap(start, end, otherStart, otherEnd).value
        <==> (Stamp(start.at) <= Stamp(otherEnd.at) && Stamp(otherStart.at) <= Stamp(end.at)
              && Adjacent(start, end, otherStart, otherEnd) == Success(false))
  {
    CivilOrderIsStampOrder(start.at, otherEnd.at);
    CivilOrderIsStampOrder(end.at, otherStart.at);
  }

  /** Adjacent ranges never overlap. */
  lemma AdjacentRangesDoNotOverlap(start: Moment, end: Moment, otherStart: Moment, otherEnd: Moment)
    requires AllDates(start, end, otherStart, otherEnd)
    requires Adjacent(start, end, otherStart, otherEnd) == Success(true)
    ensures Overlap(start, end, otherStart, otherEnd) == Success(false)
  {
    CivilOrderIsStampOrder(start.at, otherEnd.at);
    CivilOrderIsStampOrder(end.at, otherStart.at);
  }

  // ---------------------------------------------------------------------------
  // The calendar rows of the overlap, adjacency and same-day tables

  /** Midnight on the given day of January 2014. */
  function January(d: int): Instant
    requires 1 <= d <= 31
  {
    DateTime(2014, 1, d, 0)
  }

  lemma JanuaryOrder(a: int, b: int)
    requires 1 <= a <= 31 && 1 <= b <= 31
    ensures Stamp(January(a)) < Stamp(January(b)) <==> a < b
    ensures Stamp(January(a)) == Stamp(January(b)) <==> a == b
  {
    CivilOrderIsStampOrder(January(a), January(b));
  }

  /** The overlap of [a, b] with January 4 to 8, asked from either side. */
  lemma OverlapWithFourthToEighth(a: int, b: int)
    requires 1 <= a <= b <= 31
    ensures Overlap(Date(January(a)), Date(January(b)), Date(January(4)), Date(January(8)))
         == Success(a < 8 && b > 4)
    ensures Overlap(Date(January(4)), Date(January(8)), Date(January(a)), Date(January(b)))
         == Success(a < 8 && b > 4)
  {
    JanuaryOrder(a, 8);
    JanuaryOrder(b, 4);
    JanuaryOrder(4, b);
    JanuaryOrder(8, a);
  }

  /** Whether [a, b] touches January 4 to 8 at either end. */
  lemma AdjacentToFourthToEighth(a: int, b: int)
    requires 1 <= a <= b <= 31
    ensures Adjacent(Date(January(a)), Date(January(b)), Date(January(4)), Date(January(8)))
         == Success(a == 8 || b == 4)
  {
    JanuaryOrder(a, 8);
    JanuaryOrder(b, 4);
  }

  /** The overlap and adjacency tables against January 4 to 8. */
  lemma OverlapAndAdjacencyTables()
    ensures Overlap(Date(January(1)), Date(January(2)), Date(January(4)), Date(January(8))) == Success(false)
    ensures Overlap(Date(January(1)), Date(January(5)), Date(January(4)), Date(January(8))) == Success(true)
    ensures Overlap(Date(January(5)), Date(January(6)), Date(January(4)), Date(January(8))) == Success(true)
    ensures Overlap(Date(January(7)), Date(January(9)), Date(January(4)), Date(January(8))) == Success(true)
    ensures Overlap(Date(January(8)), Date(January(9)), Date(January(4)), Date(January(8))) == Success(false)
    ensures Overlap(Date(January(9)), Date(January(10)), Date(January(4)), Date(January(8))) == Success(false)
    ensures Adjacent(Date(January(1)), Date(January(2)), Date(January(4)), Date(January(8))) == Success(false)
    ensures Adjacent(Date(January(1)), Date(January(4)), Date(January(4)), Date(January(8))) == Success(true)
    ensures Adjacent(Date(January(8)), Date(January(9)), Date(January(4)), Date(January(8))) == Success(true)
    ensures Adjacent(Date(January(9)), Date(January(10)), Date(January(4)), Date(January(8))) == Success(false)
  {
    OverlapWithFourthToEighth(1, 2);
    OverlapWithFourthToEighth(1, 5);
    OverlapWithFourthToEighth(5, 6);
    OverlapWithFourthToEighth(7, 9);
    OverlapWithFourthToEighth(8, 9);
    OverlapWithFourthToEighth(9, 10);
    AdjacentToFourthToEighth(1, 2);
    AdjacentToFourthToEighth(1, 4);
    AdjacentToFourthToEighth(8, 9);
    AdjacentToFourthToEighth(9, 10);
  }

  /**
   * The same-day table: January 2 at midnight and at 16:20, January 5, and
   * the none value on either side.
   */
  lemma SameDayTable(none: Value)
    ensures SameDay(Date(January(2)), Date(January(2)))
    ensures !SameDay(Date(January(2)), Date(January(5)))
    ensures SameDay(Date(January(2)), Date(January(2).(sec := 58800)))
    ensures !SameDay(Date(January(2).(sec := 58800)), Date(January(5)))
    ensures SameDay(Other(none), Other(none))
    ensures SameDay(Date(January(2)), Other(none))
  {
  }

  // ---------------------------------------------------------------------------
  // __get's method table

  /** The methods of DateRange, lower-cased: PHP method names ignore case. */
  const MethodNames: set<string> := {
    "__construct", "make", "none", "setdates", "getcarbondate", "start", "end",
    "issameday", "onsameday", "fullday", "overlaps", "isadjacentto", "format",
    "__get", "splitvaluefromprocess", "executeclosure", "applystyletorange",
    "splitdelimitersfromstyle", "getdelimiters", "applystyletodate", "formatdate",
    "getconfig", "cancomparedates", "iscarbonobject"
  }

  /** What __get answers. */
  datatype Attr =
    | Field(d: DateVal)      // start() or end()
    | Number(n: int)         // none()
    | Flag(b: bool)          // isSameDay() or onSameDay()
    | Method(name: string)   // another method, called without arguments
    | Val(v: Value)          // a calculation or a rendering

  // ---------------------------------------------------------------------------
  // The object

  class DateRange {
    const config: MockConfig.MockConfig
    const host: Host
    var start: DateVal
    var end: DateVal

    /** new DateRange($config): both fields start out null. */
    constructor (config: MockConfig.MockConfig, host: Host)
      ensures this.config == config && this.host == host
      ensures start == V(Value.Null) && end == V(Value.Null)
    {
      this.config := config;
      this.host := host;
      start := V(Value.Null);
      end := V(Value.Null);
    }

    /** `clone`: a shallow copy sharing the configuration and the Carbon objects. */
    constructor Clone(other: DateRange)
      ensures config == other.config && host == other.host
      ensures start == other.start && end == other.end
    {
      config := other.config;
      host := other.host;
      start := other.start;
      end := other.end;
    }

    /** The Carbon objects the fields hold. */
    function Carbons(): set<Carbon>
      reads this
    {
      (if start.D? then {start.c} else {}) + (if end.D? then {end.c} else {})
    }

    /** canCompareDates: both fields hold Carbon objects. */
    predicate CanCompareDates()
      reads this
      ensures CanCompareDates() ==> start.D? && end.D? && Carbons() == {start.c, end.c}
      ensures !CanCompareDates() ==> start.V? || end.V?
    {
      start.D? && end.D?
    }

    /** canCompareDates holds exactly when Carbon can compare the two fields without a fatal error. */
    lemma CanCompareMeansComparable()
      ensures CanCompareDates() <==> Compare(MomentOf(start), MomentOf(end), false, true, false).Success?
    {
    }

    /** getCarbonDate: a field for the input, with a new Carbon where one is made. */
    method GetCarbonDate(date: Input) returns (d: DateVal)
      ensures Holds(d, Coerce(config.keys, host, date))
      ensures Coerce(config.keys, host, date).Made? ==> fresh(d.c)
    {
      match Coerce(config.keys, host, date)
      case Plain(v) =>
        d := V(v);
      case Kept(c) =>
        d := D(c);
      case Made(at) =>
        var c := new Carbon(at);
        d := D(c);
    }

    /**
     * setDates: both fields are set (an empty end repeats the start input)
     * before the order check, so a rejected pair stays in the fields.
     */
    method SetDates(s: Input, e: Input) returns (ok: bool)
      modifies this
      ensures Holds(start, Coerce(config.keys, host, s))
      ensures Holds(end, Coerce(config.keys, host, EndInput(s, e)))
      ensures Coerce(config.keys, host, s).Made? ==> fresh(start.c)
      ensures Coerce(config.keys, host, EndInput(s, e)).Made? ==> fresh(end.c)
      ensures (Coerce(config.keys, host, s).Made? && Coerce(config.keys, host, EndInput(s, e)).Made?)
              ==> start.c != end.c
      ensures ok <==> InOrder(MomentOf(start), MomentOf(end))
    {
      var endInput := if Falsy(e) then s else e;
      start := GetCarbonDate(s);
      end := GetCarbonDate(endInput);
      ok := !(CanCompareDates() && Stamp(start.c.at) > Stamp(end.c.at));
    }

    /**
     * make($start, $end): a new DateRange sharing this one's configuration,
     * with the coerced inputs, or DateOrderException when both are dates and
     * the start is after the end. This object is not changed.
     */
    method Make(s: Input, e: Input) returns (r: Result<DateRange, Fault>)
      ensures r.Success? <==> InOrder(Expected(Coerce(config.keys, host, s)),
                                      Expected(Coerce(config.keys, host, EndInput(s, e))))
      ensures r.Failure? ==> r.error == DateOrder
      ensures r.Success? ==> fresh(r.value) && r.value.config == config && r.value.host == host
      ensures r.Success? ==> Holds(r.value.start, Coerce(config.keys, host, s))
                             && Holds(r.value.end, Coerce(config.keys, host, EndInput(s, e)))
      ensures r.Success? && Coerce(config.keys, host, s).Made? ==> fresh(r.value.start.c)
      ensures r.Success? && Coerce(config.keys, host, EndInput(s, e)).Made? ==> fresh(r.value.end.c)
      ensures (r.Success? && Coerce(config.keys, host, s).Made? && Coerce(config.keys, host, EndInput(s, e)).Made?)
              ==> r.value.start.c != r.value.end.c
    {
      var instance := new DateRange.Clone(this);
      var ok := instance.SetDates(s, e);
      if ok {
        r := Success(instance);
      } else {
        r := Failure(DateOrder);
      }
    }

    /** isSameDay, and its alias onSameDay. */
    function IsSameDay(): (r: bool)
      reads this, Carbons()
      ensures r <==> !start.D? || !end.D? || SameDate(start.c.at, end.c.at)
    {
      SameDay(MomentOf(start), MomentOf(end))
    }

    function OnSameDay(): (r: bool)
      reads this, Carbons()
      ensures r == IsSameDay()
    {
      IsSameDay()
    }

    /**
     * fullDay: the start's Carbon to 00:00:00 and then the end's to 23:59:59,
     * in place. When both fields hold the same Carbon it ends at 23:59:59.
     * A field that is not a Carbon stops the call with a fatal error, after
     * whatever was already changed.
     */
    method FullDay() returns (r: Result<DateRange, Fault>)
      modifies Carbons()
      ensures !start.D? ==> r == Failure(Fatal) && unchanged(Carbons())
      ensures start.D? && !end.D? ==> r == Failure(Fatal) && start.c.at == DayStart(old(start.c.at))
      ensures start.D? && end.D? ==> r == Success(this) && end.c.at == DayEnd(old(end.c.at))
      ensures start.D? && end.D? && start.c != end.c ==> start.c.at == DayStart(old(start.c.at))
      ensures start.D? && end.D? && start.c == end.c ==> start.c.at == DayEnd(old(start.c.at))
    {
      if !start.D? {
        return Failure(Fatal);
      }
      start.c.StartOfDay();
      if !end.D? {
        return Failure(Fatal);
      }
      end.c.EndOfDay();
      r := Success(this);
    }

    /** overlaps($other). */
    function Overlaps(other: DateRange): (r: Result<bool, Fault>)
      reads this, other, Carbons(), other.Carbons()
      ensures CanCompareDates() && other.CanCompareDates() ==>
                r.Success? && (r.value <==> (Stamp(start.c.at) < Stamp(other.end.c.at)
                                             && Stamp(end.c.at) > Stamp(other.start.c.at)))
    {
      Overlap(MomentOf(start), MomentOf(end), MomentOf(other.start), MomentOf(other.end))
    }

    /** isAdjacentTo($other). */
    function IsAdjacentTo(other: DateRange): (r: Result<bool, Fault>)
      reads this, other, Carbons(), other.Carbons()
      ensures CanCompareDates() && other.CanCompareDates() ==>
                r.Success? && (r.value <==> (start.c.at == other.end.c.at || end.c.at == other.start.c.at))
    {
      if CanCompareDates() && other.CanCompareDates() then
        CivilOrderIsStampOrder(start.c.at, other.end.c.at);
        CivilOrderIsStampOrder(end.c.at, other.start.c.at);
        Adjacent(MomentOf(start), MomentOf(end), MomentOf(other.start), MomentOf(other.end))
      else
        Adjacent(MomentOf(start), MomentOf(end), MomentOf(other.start), MomentOf(other.end))
    }

    /**
     * format($date, $style, $default): exactly "range" renders the range;
     * "start" and "end", in any case, call the method of that name and render
     * the one date. Other targets are not modelled.
     */
    function Format(target: string, style: string, default: Value): (r: Result<Value, Fault>)
      reads this, config, Carbons()
      ensures target == "range" ==> r == ApplyStyleToRange(config.keys, host, MomentOf(start), MomentOf(end), style, default)
      ensures Lower(target) == "start" ==> r == ApplyStyleToDate(config.keys, host, MomentOf(start), style, default)
      ensures Lower(target) == "end" ==> r == ApplyStyleToDate(config.keys, host, MomentOf(end), style, default)
      ensures target != "range" && Lower(target) != "start" && Lower(target) != "end" ==> r == Failure(UnknownTarget)
    {
      if target == "range" then
        assert Lower(target)[0] == 'r';
        ApplyStyleToRange(config.keys, host, MomentOf(start), MomentOf(end), style, default)
      else if Lower(target) == "start" then ApplyStyleToDate(config.keys, host, MomentOf(start), style, default)
      else if Lower(target) == "end" then ApplyStyleToDate(config.keys, host, MomentOf(end), style, default)
      else Failure(UnknownTarget)
    }

    /** A target other than the exact "range" is a method name, and its case does not matter. */
    lemma FormatIgnoresTargetCase(target: string, style: string, default: Value)
      requires Lower(target) != "range"
      ensures Format(target, style, default) == Format(Lower(target), style, default)
    {
      var low := Lower(target);
      assert Lower(low) == low;
    }

    /**
     * __get($name): a method of the object, whatever the case of the name,
     * wins; any other name is a calculation or a rendering.
     */
    function Get(name: string): (r: Result<Attr, Fault>)
      reads this, config, Carbons()
      ensures Lower(name) == "start" ==> r == Success(Field(start))
      ensures Lower(name) == "end" ==> r == Success(Field(end))
      ensures Lower(name) == "none" ==> r == Success(Number(NONE))
      ensures Lower(name) in MethodNames ==> r.Success? && !r.value.Val?
      ensures Lower(name) !in MethodNames ==>
                (r.Success? <==> Derived(config.keys, host, MomentOf(start), MomentOf(end), name).Success?)
      ensures Lower(name) !in MethodNames && r.Success? ==>
                r.value == Val(Derived(config.keys, host, MomentOf(start), MomentOf(end), name).value)
    {
      var key := Lower(name);
      if key == "start" then Success(Field(start))
      else if key == "end" then Success(Field(end))
      else if key == "none" then Success(Number(NONE))
      else if key == "issameday" || key == "onsameday" then Success(Flag(IsSameDay()))
      else if key in MethodNames then Success(Method(key))
      else
        var v :- Derived(config.keys, host, MomentOf(start), MomentOf(end), name);
        Success(Val(v))
    }
  }

  // ---------------------------------------------------------------------------
  // Scenarios from the test suite, on a given host

  /**
   * make('2014-01-02 4:20pm') then fullDay(): the start and the end are two
   * Carbons parsed from the same text, so they end at 00:00:00 and 23:59:59.
   */
  method FullDayOfParsedDate(prototype: DateRange) returns (startAt: Instant, endAt: Instant)
    ensures startAt == DayStart(prototype.host.parse("2014-01-02 4:20pm"))
    ensures endAt == DayEnd(prototype.host.parse("2014-01-02 4:20pm"))
  {
    var text := "2014-01-02 4:20pm";
    assert text[4] == '-' && text[0] == '2';
    assert !IsNumericText(text);
    var t := prototype.host.parse(text);
    assert Coerce(prototype.config.keys, prototype.host, Text(text)) == Made(t);
    assert EndInput(Text(text), Input.Null) == Text(text);
    var made := prototype.Make(Text(text), Input.Null);
    var range := made.value;
    assert range.start.c.at == t && range.end.c.at == t;
    var days := range.FullDay();
    startAt := range.start.c.at;
    endAt := range.end.c.at;
  }

  /**
   * make($carbon) then fullDay(): start and end are the caller's one Carbon,
   * which startOfDay and then endOfDay both move, so the start too ends at
   * 23:59:59.
   */
  method FullDayOfSharedCarbon(prototype: DateRange, c: Carbon) returns (range: DateRange)
    modifies c
    ensures range.start == D(c) && range.end == D(c)
    ensures c.at == DayEnd(old(c.at))
  {
    var made := prototype.Make(CarbonObj(c), Input.Null);
    range := made.value;
    var days := range.FullDay();
  }

  /**
   * make('1/5/2014', '1/2/2014') raises DateOrderException: the dates are
   * not swapped.
   */
  method LaterStartIsRejected(prototype: DateRange) returns (r: Result<DateRange, Fault>)
    requires Stamp(prototype.host.parse("1/5/2014")) > Stamp(prototype.host.parse("1/2/2014"))
    ensures r == Failure(DateOrder)
  {
    assert "1/5/2014"[1] == '/' && "1/2/2014"[1] == '/';
    r := prototype.Make(Text("1/5/2014"), Text("1/2/2014"));
  }

  /** make(DateRange::NONE, null) with none.default = 'n/a': both fields are 'n/a'. */
  method NoneInput(prototype: DateRange) returns (range: DateRange)
    requires prototype.config.keys == map["none.default" := Str("n/a")]
    ensures range.start == V(Str("n/a")) && range.end == V(Str("n/a"))
  {
    ConfigKey(prototype.config.keys, "none.default", Str(""));
    var made := prototype.Make(Int(NONE), Input.Null);
    range := made.value;
  }
}
