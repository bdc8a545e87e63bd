/**
 * The read-only half of DateRange: resolving an attribute name to a
 * calculation or a style, choosing delimiters and date patterns from the
 * configuration, and rendering one date or a range. Everything here is a
 * function of the configuration's key set, the host (the Carbon and closure
 * behaviour the library calls into) and what the two date fields hold.
 */
module Formatting {
  import opened Wrappers
  import opened Dates
  import opened Php
  import MockConfig

  /**
   * The code DateRange calls but whose workings lie outside the library:
   * Carbon's text parser (the empty text, which null also becomes, is now),
   * its timestamp conversion, its format() pattern language, PHP's conversion
   * of a number to text, and calling a configured closure on Carbon dates.
   */
  datatype Host = Host(
    parse: string -> Instant,
    fromTimestamp: int -> Instant,
    format: (Instant, Value) -> string,
    numberText: real -> string,
    invoke: (nat, seq<Instant>) -> Value)

  /** What a date field holds as the renderer sees it: a Carbon moment, or any other value. */
  datatype Moment = Date(at: Instant) | Other(v: Value)

  /** Why an operation stops instead of returning a value. */
  datatype Fault =
    | DateOrder       // DateOrderException: start after end
    | NotCallable     // a truthy calculation that is not a closure
    | Fatal           // a closure used as text, as an array, or as a date
    | UnknownTarget   // format() asked for something other than start, end or range

  /** The pattern Carbon's string conversion uses. */
  const CarbonToString := "Y-m-d H:i:s"

  /** getConfig($value, $default): the namespaced read from the configuration. */
  function GetConfig(keys: map<string, Value>, value: string, default: Value): Value
  {
    MockConfig.Fetch(keys, MockConfig.Namespace + value, default)
  }

  /** A colon-free setting name is looked up verbatim. */
  lemma ConfigKey(keys: map<string, Value>, key: string, default: Value)
    requires ':' !in key
    ensures GetConfig(keys, key, default) == MockConfig.Lookup(keys, key, default)
  {
    MockConfig.NamespacedKey(keys, key, default);
  }

  /** Text of a value for `.`, failing on a closure. */
  function Text(host: Host, v: Value): Result<string, Fault>
  {
    match ToText(v, host.numberText)
    case None => Failure(Fatal)
    case Some(s) => Success(s)
  }

  /** `$delimiters[key]` used as text, failing on a closure. */
  function Piece(delimiters: Value, key: string): Result<string, Fault>
  {
    match Part(delimiters, key)
    case None => Failure(Fatal)
    case Some(s) => Success(s)
  }

  /**
   * `$this->start == $this->end` in PHP 5/7: two Carbon moments are equal when
   * they are the same moment; a Carbon equals a string that is its own
   * "Y-m-d H:i:s" text; other values are compared as they are.
   */
  function LooselyEqual(host: Host, a: Moment, b: Moment): (r: bool)
    ensures a == b ==> r
    ensures a.Date? && b.Date? ==> (r <==> Stamp(a.at) == Stamp(b.at))
  {
    match (a, b)
    case (Date(x), Date(y)) =>
      assert x != y ==> Stamp(x) != Stamp(y) by {
        if x != y {
          CivilOrderIsStampOrder(x, y);
          CivilOrderIsStampOrder(y, x);
        }
      }
      x == y
    case (Date(x), Other(v)) => v.Str? && host.format(x, Str(CarbonToString)) == v.s
    case (Other(v), Date(y)) => v.Str? && host.format(y, Str(CarbonToString)) == v.s
    case (Other(v), Other(w)) => v == w
  }

  // ---------------------------------------------------------------------------
  // formatDate and applyStyleToDate

  /**
   * formatDate($date, $style, $default). A value that is not a date gives the
   * setting none.<style> unless that is missing or loosely equal to 'n/a', in
   * which case the value itself. A date is formatted with the first truthy of
   * styles.<style> and the explicit default, else with styles.default.
   */
  function FormatDate(keys: map<string, Value>, host: Host, date: Moment, style: string, default: Value)
    : (r: Result<Value, Fault>)
    ensures r.Failure? <==> date.Other? && date.v.Closure?
    ensures date.Date? ==> r.Success? && r.value.Str?
  {
    match date
    case Other(Closure(_)) => Failure(Fatal)
    case Other(v) =>
      var none := GetConfig(keys, "none." + style, Str("n/a"));
      Success(if LooselyNa(none) then v else none)
    case Date(at) =>
      var pattern := GetConfig(keys, "styles." + style, Str(""));
      if Truthy(pattern) then Success(Str(host.format(at, pattern)))
      else if Truthy(default) then Success(Str(host.format(at, default)))
      else Success(Str(host.format(at, GetConfig(keys, "styles.default", Str("")))))
  }

  /** applyStyleToDate: one date, behind a truthy range.<style>.only prefix. */
  function ApplyStyleToDate(keys: map<string, Value>, host: Host, date: Moment, style: string, default: Value)
    : (r: Result<Value, Fault>)
    ensures FormatDate(keys, host, date, style, default).Failure? ==> r.Failure?
    ensures r.Failure? ==> r.error == Fatal
  {
    var prefix := GetConfig(keys, "range." + style + ".only", Str(""));
    var formatted :- FormatDate(keys, host, date, style, default);
    if Truthy(prefix) then
      var p :- Text(host, prefix);
      var f :- Text(host, formatted);
      Success(Str(p + f))
    else
      Success(formatted)
  }

  /** formatDate($date, $style, $default) used as text by `.`. */
  function RenderText(keys: map<string, Value>, host: Host, date: Moment, style: string, default: Value)
    : Result<string, Fault>
  {
    var formatted :- FormatDate(keys, host, date, style, default);
    Text(host, formatted)
  }

  // ---------------------------------------------------------------------------
  // Delimiters and applyStyleToRange

  /** getDelimiters($style): range.<style> when truthy, else range.default. */
  function GetDelimiters(keys: map<string, Value>, style: string): (r: Value)
    ensures Truthy(GetConfig(keys, "range." + style, Str(""))) ==> r == GetConfig(keys, "range." + style, Str(""))
    ensures !Truthy(GetConfig(keys, "range." + style, Str(""))) ==> r == GetConfig(keys, "range.default", Str(""))
  {
    var delimiters := GetConfig(keys, "range." + style, Str(""));
    if Truthy(delimiters) then delimiters else GetConfig(keys, "range.default", Str(""))
  }

  /**
   * splitDelimitersFromStyle: "x_y" is date style x with the delimiters of y;
   * a style with no '_', or whose first '_' is its first character, names
   * both. Only the first two '_'-separated pieces are used.
   */
  function SplitDelimitersFromStyle(keys: map<string, Value>, requested: string): (r: (Value, string))
    ensures r.1 == requested ==> r.0 == GetDelimiters(keys, requested)
    ensures r.1 != requested ==>
              0 < |r.1| < |requested| && requested[..|r.1|] == r.1 && requested[|r.1|] == '_' && '_' !in r.1
              && r.0 == GetDelimiters(keys, Explode(requested[|r.1| + 1..], '_')[0])
  {
    match IndexOf(requested, '_')
    case None => (GetDelimiters(keys, requested), requested)
    case Some(i) =>
      if i == 0 then (GetDelimiters(keys, requested), requested)
      else
        var pieces := Explode(requested, '_');
        ExplodeFirstPieces(requested, '_', i);
        (GetDelimiters(keys, pieces[1]), pieces[0])
  }

  /**
   * applyStyleToRange: when the two fields are loosely equal, the `only`
   * delimiter and the start; otherwise before, start, middle, end and after.
   */
  function ApplyStyleToRange(keys: map<string, Value>, host: Host, start: Moment, end: Moment,
                             requested: string, default: Value): (r: Result<Value, Fault>)
    ensures r.Failure? ==> r.error == Fatal
    ensures r.Success? ==> r.value.Str?
  {
    var (delimiters, style) := SplitDelimitersFromStyle(keys, requested);
    if LooselyEqual(host, start, end) then
      var only :- Piece(delimiters, "only");
      var first :- FormatDate(keys, host, start, style, default);
      var firstText :- Text(host, first);
      Success(Str(only + firstText))
    else
      var before :- Piece(delimiters, "before");
      var first :- FormatDate(keys, host, start, style, default);
      var firstText :- Text(host, first);
      var middle :- Piece(delimiters, "middle");
      var last :- FormatDate(keys, host, end, style, default);
      var lastText :- Text(host, last);
      var after :- Piece(delimiters, "after");
      Success(Str(before + firstText + middle + lastText + after))
  }

  // ---------------------------------------------------------------------------
  // Attribute names and calculations

  /** The prefixes an attribute name is tried against, in order. */
  const Targets: seq<string> := ["start", "end", "range"]

  /** Targets[i] is the first of the prefixes that name starts with. */
  predicate FirstPrefix(name: string, i: int)
  {
    0 <= i < |Targets| && StartsWith(name, Targets[i])
    && forall j :: 0 <= j < i ==> !StartsWith(name, Targets[j])
  }

  /**
   * splitValueFromProcess: the first prefix the name starts with, and what
   * follows it after skipping one more character; ("range", name) when there
   * is none.
   */
  function SplitName(name: string): (r: (string, string))
    ensures forall i :: FirstPrefix(name, i) ==> r == (Targets[i], Substr(name, |Targets[i]| + 1))
    ensures (forall i :: 0 <= i < |Targets| ==> !StartsWith(name, Targets[i])) ==> r == ("range", name)
  {
    assert |Targets| == 3 && Targets[0] == "start" && Targets[1] == "end" && Targets[2] == "range";
    if StartsWith(name, "start") then ("start", Substr(name, 6))
    else if StartsWith(name, "end") then ("end", Substr(name, 4))
    else if StartsWith(name, "range") then ("range", Substr(name, 6))
    else ("range", name)
  }

  /** The foreach of splitValueFromProcess, returning at the first prefix found. */
  method SplitValueFromProcess(name: string) returns (value: string, process: string)
    ensures (value, process) == SplitName(name)
  {
    for i := 0 to |Targets|
      invariant forall j :: 0 <= j < i ==> !StartsWith(name, Targets[j])
    {
      if StartsWith(name, Targets[i]) {
        assert FirstPrefix(name, i);
        return Targets[i], Substr(name, |Targets[i]| + 1);
      }
    }
    return "range", name;
  }

  /** `$closure(...)`: a configured closure is invoked; any other value cannot be called. */
  function Call(host: Host, closure: Value, args: seq<Instant>): (r: Result<Value, Fault>)
    ensures r.Success? <==> closure.Closure?
  {
    match closure
    case Closure(id) => Success(host.invoke(id, args))
    case _ => Failure(NotCallable)
  }

  /**
   * executeClosure: the closure on both dates for "range", on the one date
   * otherwise; none.calculations when a date it needs is not a Carbon.
   */
  function ExecuteClosure(keys: map<string, Value>, host: Host, start: Moment, end: Moment,
                          value: string, closure: Value): (r: Result<Value, Fault>)
    ensures r.Failure? ==> r.error == NotCallable
    ensures value == "range" && start.Date? && end.Date? ==> r == Call(host, closure, [start.at, end.at])
    ensures value == "range" && !(start.Date? && end.Date?) ==>
              r == Success(GetConfig(keys, "none.calculations", Str("")))
    ensures value == "start" && start.Date? ==> r == Call(host, closure, [start.at])
    ensures value == "start" && !start.Date? ==> r == Success(GetConfig(keys, "none.calculations", Str("")))
    ensures value == "end" && end.Date? ==> r == Call(host, closure, [end.at])
    ensures value == "end" && !end.Date? ==> r == Success(GetConfig(keys, "none.calculations", Str("")))
  {
    if value == "range" then
      if start.Date? && end.Date? then Call(host, closure, [start.at, end.at])
      else Success(GetConfig(keys, "none.calculations", Str("")))
    else
      var date := if value == "start" then start else end;
      if date.Date? then Call(host, closure, [date.at])
      else Success(GetConfig(keys, "none.calculations", Str("")))
  }

  /**
   * __get for a name that is not a method: a truthy calculations.<process>
   * is executed; otherwise the range or the named date is rendered in that
   * style.
   */
  function Derived(keys: map<string, Value>, host: Host, start: Moment, end: Moment, name: string)
    : (r: Result<Value, Fault>)
    ensures Truthy(GetConfig(keys, "calculations." + SplitName(name).1, Str(""))) && r.Failure? ==>
              r.error == NotCallable
    ensures !Truthy(GetConfig(keys, "calculations." + SplitName(name).1, Str(""))) && r.Failure? ==>
              r.error == Fatal
  {
    var (value, process) := SplitName(name);
    var closure := GetConfig(keys, "calculations." + process, Str(""));
    if Truthy(closure) then ExecuteClosure(keys, host, start, end, value, closure)
    else if value == "range" then ApplyStyleToRange(keys, host, start, end, process, Null)
    else ApplyStyleToDate(keys, host, if value == "start" then start else end, process, Null)
  }

  // ---------------------------------------------------------------------------
  // Properties: how rendering fails

  // ---------------------------------------------------------------------------
  // Properties: style splitting

  /** strpos finds the '_' that ends an underscore-free first piece. */
  lemma IndexAfterFreePiece(x: string, tail: string)
    requires '_' !in x
    ensures IndexOf(x + "_" + tail, '_') == Some(|x|)
  {
    var s := x + "_" + tail;
    assert s[|x|] == '_';
    assert s[..|x|] == x;
  }

  /** The first piece explode gives is an underscore-free prefix that the end or a '_' follows. */
  lemma FirstPiece(x: string, tail: string)
    requires '_' !in x && (tail == "" || tail[0] == '_')
    ensures Explode(x + tail, '_')[0] == x
  {
    if tail == "" {
      assert x + tail == x;
    } else {
      assert x + tail == x + "_" + tail[1..];
      IndexAfterFreePiece(x, tail[1..]);
      assert (x + tail)[..|x|] == x;
    }
  }

  /** After an underscore-free first piece and its '_', explode starts over on the rest. */
  lemma SecondPiece(x: string, rest: string)
    requires '_' !in x
    ensures |Explode(x + "_" + rest, '_')| >= 2
    ensures Explode(x + "_" + rest, '_')[0] == x
    ensures Explode(x + "_" + rest, '_')[1] == Explode(rest, '_')[0]
  {
    var s := x + "_" + rest;
    IndexAfterFreePiece(x, rest);
    ExplodeFirstPieces(s, '_', |x|);
    assert s[..|x|] == x;
    assert s[|x| + 1..] == rest;
  }

  /** "x_y": date style x, delimiters of y. */
  lemma SplitStyleAtUnderscore(keys: map<string, Value>, x: string, y: string)
    requires x != "" && '_' !in x && '_' !in y
    ensures SplitDelimitersFromStyle(keys, x + "_" + y) == (GetDelimiters(keys, y), x)
  {
    FirstPiece(y, "");
    assert y + "" == y;
    SplitStyleAt(keys, x, y, y);
  }

  /** "x_y_rest": whatever follows the second '_' is ignored. */
  lemma SplitStyleIgnoresThirdPiece(keys: map<string, Value>, x: string, y: string, rest: string)
    requires x != "" && '_' !in x && '_' !in y
    ensures SplitDelimitersFromStyle(keys, x + "_" + y + "_" + rest) == (GetDelimiters(keys, y), x)
  {
    var t := y + "_" + rest;
    var s := x + "_" + t;
    assert x + "_" + y + "_" + rest == s;
    FirstPiece(y, "_" + rest);
    assert y + ("_" + rest) == t;
    SplitStyleAt(keys, x, t, y);
  }

  /** The general form: x, a '_', and a rest whose first piece is y. */
  lemma SplitStyleAt(keys: map<string, Value>, x: string, t: string, y: string)
    requires x != "" && '_' !in x && Explode(t, '_')[0] == y
    ensures SplitDelimitersFromStyle(keys, x + "_" + t) == (GetDelimiters(keys, y), x)
  {
    IndexAfterFreePiece(x, t);
    SecondPiece(x, t);
  }

  /** A style without '_', or one that starts with '_', names both the date style and the delimiters. */
  lemma SplitStyleWhole(keys: map<string, Value>, style: string)
    requires '_' !in style || style[0] == '_'
    ensures SplitDelimitersFromStyle(keys, style) == (GetDelimiters(keys, style), style)
  {
  }

  // ---------------------------------------------------------------------------
  // Properties: formatDate

  /**
   * A value that is not a date (and not a closure) renders as none.<style>
   * when that is set and not loosely 'n/a', and as itself otherwise; neither
   * the styles nor the explicit default play a part.
   */
  lemma NonDateRendering(keys: map<string, Value>, host: Host, v: Value, style: string, default: Value)
    requires !v.Closure? && ':' !in style
    ensures var key := "none." + style;
            var configured := key in keys && keys[key] != Null && !LooselyNa(keys[key]);
            FormatDate(keys, host, Other(v), style, default)
              == Success(if configured then keys[key] else v)
  {
    ConfigKey(keys, "none." + style, Str("n/a"));
  }

  /** With styles.<style> set to a truthy pattern, the explicit default is never consulted. */
  lemma StyleOverridesDefault(keys: map<string, Value>, host: Host, at: Instant, style: string,
                              default1: Value, default2: Value)
    requires ':' !in style
    requires "styles." + style in keys && Truthy(keys["styles." + style])
    ensures FormatDate(keys, host, Date(at), style, default1)
            == FormatDate(keys, host, Date(at), style, default2)
            == Success(Str(host.format(at, keys["styles." + style])))
  {
    ConfigKey(keys, "styles." + style, Str(""));
  }

  /** Without a truthy styles.<style>, a truthy explicit default beats styles.default. */
  lemma DefaultOverridesStylesDefault(keys: map<string, Value>, host: Host, at: Instant, style: string,
                                      default: Value)
    requires ':' !in style && Truthy(default)
    requires "styles." + style !in keys || !Truthy(keys["styles." + style])
    ensures FormatDate(keys, host, Date(at), style, default) == Success(Str(host.format(at, default)))
  {
    ConfigKey(keys, "styles." + style, Str(""));
  }

  /** With neither, styles.default is the pattern ('' when that is missing too). */
  lemma StylesDefaultIsLastResort(keys: map<string, Value>, host: Host, at: Instant, style: string,
                                  default: Value)
    requires ':' !in style && !Truthy(default)
    requires "styles." + style !in keys || !Truthy(keys["styles." + style])
    ensures FormatDate(keys, host, Date(at), style, default)
            == Success(Str(host.format(at, MockConfig.Lookup(keys, "styles.default", Str("")))))
  {
    ConfigKey(keys, "styles." + style, Str(""));
    ConfigKey(keys, "styles.default", Str(""));
  }

  // ---------------------------------------------------------------------------
  // Properties: applyStyleToDate

  /**
   * A truthy range.<style>.only goes in front of a single date: the result
   * is the prefix's text followed by the formatted date's text, and a
   * closure used as either is fatal. Without one, the date is formatted
   * exactly as formatDate does.
   */
  lemma OnlyPrefixOnDate(keys: map<string, Value>, host: Host, date: Moment, style: string, default: Value)
    ensures var prefix := GetConfig(keys, "range." + style + ".only", Str(""));
            var r := ApplyStyleToDate(keys, host, date, style, default);
            !Truthy(prefix) ==> r == FormatDate(keys, host, date, style, default)
    ensures var prefix := GetConfig(keys, "range." + style + ".only", Str(""));
            var shown := RenderText(keys, host, date, style, default);
            var r := ApplyStyleToDate(keys, host, date, style, default);
            Truthy(prefix) && Text(host, prefix).Success? && shown.Success? ==>
              r == Success(Str(Text(host, prefix).value + shown.value))
    ensures var prefix := GetConfig(keys, "range." + style + ".only", Str(""));
            var shown := RenderText(keys, host, date, style, default);
            var r := ApplyStyleToDate(keys, host, date, style, default);
            Truthy(prefix) && (Text(host, prefix).Failure? || shown.Failure?) ==> r == Failure(Fatal)
  {
  }

  /** A date in a style with the text prefix p is p followed by the date as formatDate writes it. */
  lemma PrefixedDate(keys: map<string, Value>, host: Host, at: Instant, style: string, default: Value, p: string)
    requires ':' !in style && "range." + style + ".only" in keys && keys["range." + style + ".only"] == Str(p)
    requires p != "" && p != "0"
    ensures ApplyStyleToDate(keys, host, Date(at), style, default)
            == Success(Str(p + FormatDate(keys, host, Date(at), style, default).value.s))
  {
    assert ':' !in "range." + style + ".only";
    ConfigKey(keys, "range." + style + ".only", Str(""));
    OnlyPrefixOnDate(keys, host, Date(at), style, default);
  }

  // ---------------------------------------------------------------------------
  // Properties: delimiters

  /** range.default is the delimiter set of the style "default", set or not. */
  lemma DefaultDelimiters(keys: map<string, Value>)
    ensures GetDelimiters(keys, "default") == GetConfig(keys, "range.default", Str(""))
  {
    assert "range." + "default" == "range.default";
  }

  /** A style without a delimiter set of its own borrows the default one. */
  lemma UnsetStyleBorrowsDefault(keys: map<string, Value>, style: string)
    requires ':' !in style && ("range." + style !in keys || !Truthy(keys["range." + style]))
    ensures GetDelimiters(keys, style) == GetDelimiters(keys, "default")
  {
    ConfigKey(keys, "range." + style, Str(""));
    DefaultDelimiters(keys);
  }

  /** A style with a truthy delimiter set uses that set, whatever range.default holds. */
  lemma SetStyleIgnoresDefault(keys: map<string, Value>, style: string, v: Value)
    requires ':' !in style && style != "default"
    requires "range." + style in keys && Truthy(keys["range." + style])
    ensures GetDelimiters(keys, style) == keys["range." + style]
    ensures GetDelimiters(keys["range.default" := v], style) == keys["range." + style]
  {
    DistinctAfterPrefix("range.", style, "default");
    assert "range." + "default" == "range.default";
    ConfigKey(keys, "range." + style, Str(""));
    ConfigKey(keys["range.default" := v], "range." + style, Str(""));
  }

  /** Keys that share a prefix differ when what follows it differs. */
  lemma DistinctAfterPrefix(p: string, a: string, b: string)
    requires a != b
    ensures p + a != p + b
  {
    assert (p + a)[|p|..] == a;
    assert (p + b)[|p|..] == b;
  }

  /** When range.default is truthy, every style has truthy delimiters. */
  lemma DelimitersTruthyWithDefault(keys: map<string, Value>, style: string)
    requires Truthy(GetConfig(keys, "range.default", Str("")))
    ensures Truthy(GetDelimiters(keys, style))
  {
  }

  // ---------------------------------------------------------------------------
  // Properties: ranges

  /** Loose equality does not depend on which field is on the left. */
  lemma LooselyEqualSymmetric(host: Host, a: Moment, b: Moment)
    ensures LooselyEqual(host, a, b) == LooselyEqual(host, b, a)
  {
  }

  /** The text of a delimiter: the entry, or "" when the set lacks it. */
  function Entry(parts: map<string, string>, key: string): string
  {
    if key in parts then parts[key] else ""
  }

  /**
   * Loosely equal fields, dates or not, render once: the `only` delimiter
   * and then the start as text. Using a closure as either is fatal.
   */
  lemma RangeOfEqualEnds(keys: map<string, Value>, host: Host, start: Moment, end: Moment,
                         requested: string, default: Value)
    requires LooselyEqual(host, start, end)
    ensures var (delimiters, style) := SplitDelimitersFromStyle(keys, requested);
            var only := Piece(delimiters, "only");
            var first := RenderText(keys, host, start, style, default);
            var r := ApplyStyleToRange(keys, host, start, end, requested, default);
            (only.Success? && first.Success? ==> r == Success(Str(only.value + first.value)))
            && (only.Failure? || first.Failure? ==> r == Failure(Fatal))
  {
  }

  /**
   * Fields that are not loosely equal, dates or not, render as before,
   * start, middle, end and after, in that order. Using a closure as any of
   * them is fatal.
   */
  lemma RangeOfDistinctEnds(keys: map<string, Value>, host: Host, start: Moment, end: Moment,
                            requested: string, default: Value)
    requires !LooselyEqual(host, start, end)
    ensures var (delimiters, style) := SplitDelimitersFromStyle(keys, requested);
            var parts := [Piece(delimiters, "before"), RenderText(keys, host, start, style, default),
                          Piece(delimiters, "middle"), RenderText(keys, host, end, style, default),
                          Piece(delimiters, "after")];
            var r := ApplyStyleToRange(keys, host, start, end, requested, default);
            ((forall i :: 0 <= i < |parts| ==> parts[i].Success?) ==>
               r == Success(Str(parts[0].value + parts[1].value + parts[2].value + parts[3].value + parts[4].value)))
            && ((exists i :: 0 <= i < |parts| && parts[i].Failure?) ==> r == Failure(Fatal))
  {
    var (delimiters, style) := SplitDelimitersFromStyle(keys, requested);
    var parts := [Piece(delimiters, "before"), RenderText(keys, host, start, style, default),
                  Piece(delimiters, "middle"), RenderText(keys, host, end, style, default),
                  Piece(delimiters, "after")];
    if forall i :: 0 <= i < |parts| ==> parts[i].Success? {
      assert parts[0].Success? && parts[1].Success? && parts[2].Success? && parts[3].Success?;
      assert parts[4].Success?;
    }
  }

  /** A date renders as the text formatDate gives it. */
  lemma DateRendersAsText(keys: map<string, Value>, host: Host, at: Instant, style: string, default: Value)
    ensures RenderText(keys, host, Date(at), style, default)
            == Success(FormatDate(keys, host, Date(at), style, default).value.s)
  {
  }

  /** A delimiter set gives each named piece, and "" for a piece it lacks. */
  lemma PieceOfSet(m: map<string, string>, key: string)
    ensures Piece(Delims(m), key) == Success(Entry(m, key))
  {
  }

  /**
   * A delimiter set that spells its closing piece 'end' (as the shipped
   * configuration does) contributes nothing after the end date: the
   * renderer reads 'after'.
   */
  lemma EndKeyIsNotRead(keys: map<string, Value>, host: Host, x: Instant, y: Instant, style: string,
                        before: string, middle: string, closing: string)
    requires x != y && '_' !in style && ':' !in style
    requires keys == map["range." + style := Delims(map["before" := before, "middle" := middle, "end" := closing])]
    ensures ApplyStyleToRange(keys, host, Date(x), Date(y), style, Null)
            == Success(Str(before + FormatDate(keys, host, Date(x), style, Null).value.s
                           + middle + FormatDate(keys, host, Date(y), style, Null).value.s))
  {
    ConfigKey(keys, "range." + style, Str(""));
    SplitStyleWhole(keys, style);
    var m := map["before" := before, "middle" := middle, "end" := closing];
    assert SplitDelimitersFromStyle(keys, style) == (Delims(m), style);
    assert Entry(m, "before") == before && Entry(m, "middle") == middle && Entry(m, "after") == "";
    DateRendersAsText(keys, host, x, style, Null);
    DateRendersAsText(keys, host, y, style, Null);
    PieceOfSet(m, "before");
    PieceOfSet(m, "middle");
    PieceOfSet(m, "after");
    RangeOfDistinctEnds(keys, host, Date(x), Date(y), style, Null);
    var a := FormatDate(keys, host, Date(x), style, Null).value.s;
    var b := FormatDate(keys, host, Date(y), style, Null).value.s;
    assert before + a + middle + b + "" == before + a + middle + b;
  }

  // ---------------------------------------------------------------------------
  // Properties: attribute names and calculations

  /** A prefix is ruled out by one differing character. */
  lemma NotPrefixAt(s: string, p: string, k: nat)
    requires k < |p| && k < |s| && s[k] != p[k]
    ensures !StartsWith(s, p)
  {
  }

  /** start_<style> renders the start date in that style. */
  lemma SplitNameStart(style: string)
    ensures SplitName("start_" + style) == ("start", style)
  {
    assert ("start_" + style)[..5] == "start";
    assert ("start_" + style)[6..] == style;
  }

  /** range_<style> renders the range in that style. */
  lemma SplitNameRange(style: string)
    ensures SplitName("range_" + style) == ("range", style)
  {
    var name := "range_" + style;
    NotPrefixAt(name, "start", 0);
    NotPrefixAt(name, "end", 0);
    assert name[..5] == "range";
    assert name[6..] == style;
  }

  /**
   * The character after the prefix is dropped whatever it is: "endless"
   * names style "ess" of the end date, and "short_title" has no prefix.
   */
  lemma SplitNameExamples()
    ensures SplitName("short_title") == ("range", "short_title")
    ensures SplitName("short") == ("range", "short")
    ensures SplitName("title") == ("range", "title")
    ensures SplitName("endless") == ("end", "ess")
  {
    NotPrefixAt("short_title", "start", 1);
    NotPrefixAt("short_title", "end", 0);
    NotPrefixAt("short_title", "range", 0);
    NotPrefixAt("short", "start", 1);
    NotPrefixAt("short", "end", 0);
    NotPrefixAt("short", "range", 0);
    NotPrefixAt("title", "start", 0);
    NotPrefixAt("title", "end", 0);
    NotPrefixAt("title", "range", 0);
    NotPrefixAt("endless", "start", 0);
    assert "endless"[..3] == "end";
    assert "endless"[4..] == "ess";
  }

  /** Without a truthy calculation, a name renders the range or the named date in its style. */
  lemma DerivedStyle(keys: map<string, Value>, host: Host, start: Moment, end: Moment, name: string)
    requires !Truthy(GetConfig(keys, "calculations." + SplitName(name).1, Str("")))
    ensures var (value, process) := SplitName(name);
            Derived(keys, host, start, end, name)
            == if value == "range" then ApplyStyleToRange(keys, host, start, end, process, Null)
               else ApplyStyleToDate(keys, host, if value == "start" then start else end, process, Null)
  {
  }

  /** With a truthy calculation, a name runs it on the range or on the named date. */
  lemma DerivedCalculation(keys: map<string, Value>, host: Host, start: Moment, end: Moment, name: string)
    requires Truthy(GetConfig(keys, "calculations." + SplitName(name).1, Str("")))
    ensures var (value, process) := SplitName(name);
            Derived(keys, host, start, end, name)
            == ExecuteClosure(keys, host, start, end, value, GetConfig(keys, "calculations." + process, Str("")))
  {
  }

  /**
   * A configured calculation decides the result alone: changing any setting
   * other than calculations.<process> and none.calculations changes nothing.
   */
  lemma CalculationIgnoresOtherSettings(keys: map<string, Value>, host: Host, start: Moment, end: Moment,
                                        name: string, key: string, v: Value)
    requires ':' !in name
    requires var process := SplitName(name).1;
             "calculations." + process in keys && Truthy(keys["calculations." + process])
             && key != "calculations." + process && key != "none.calculations"
    ensures Derived(keys, host, start, end, name) == Derived(keys[key := v], host, start, end, name)
  {
    var (value, process) := SplitName(name);
    assert ':' !in process;
    var keys2 := keys[key := v];
    ConfigKey(keys, "calculations." + process, Str(""));
    ConfigKey(keys2, "calculations." + process, Str(""));
    ConfigKey(keys, "none.calculations", Str(""));
    ConfigKey(keys2, "none.calculations", Str(""));
  }

  /**
   * A calculation on one date sees that date only: the other field, date or
   * not, plays no part.
   */
  lemma CalculationSeesOnlyItsDate(keys: map<string, Value>, host: Host, start: Moment, end: Moment,
                                   start2: Moment, end2: Moment, closure: Value)
    ensures ExecuteClosure(keys, host, start, end, "start", closure)
            == ExecuteClosure(keys, host, start, end2, "start", closure)
    ensures ExecuteClosure(keys, host, start, end, "end", closure)
            == ExecuteClosure(keys, host, start2, end, "end", closure)
  {
  }

  /**
   * A calculation over the range is not invoked unless both fields are
   * dates: the result is then the same whatever the closures compute.
   */
  lemma RangeCalculationNeedsBothDates(keys: map<string, Value>, host: Host, start: Moment, end: Moment,
                                       name: string, invoke: (nat, seq<Instant>) -> Value)
    requires SplitName(name).0 == "range" && !(start.Date? && end.Date?)
    requires Truthy(GetConfig(keys, "calculations." + SplitName(name).1, Str("")))
    ensures Derived(keys, host, start, end, name) == Derived(keys, host.(invoke := invoke), start, end, name)
    ensures Derived(keys, host, start, end, name) == Success(GetConfig(keys, "none.calculations", Str("")))
  {
  }

  // ---------------------------------------------------------------------------
  // The rendering examples the library is exercised with. Patterns there are
  // single letters that Carbon's format() echoes back.

  /** Carbon's format() returns a pattern made of characters it leaves as they are. */
  ghost predicate EchoesPatterns(host: Host)
  {
    forall t: Instant, p: string :: host.format(t, Str(p)) == p
  }

  /** A date in a style whose pattern is set, with no `only` prefix for that style. */
  lemma StyledDate(host: Host, t: Instant, keys: map<string, Value>, style: string, pattern: string)
    requires EchoesPatterns(host) && ':' !in style && pattern != "" && pattern != "0"
    requires "styles." + style in keys && keys["styles." + style] == Str(pattern)
    requires "range." + style + ".only" !in keys
    ensures FormatDate(keys, host, Date(t), style, Null) == Success(Str(pattern))
    ensures ApplyStyleToDate(keys, host, Date(t), style, Null) == Success(Str(pattern))
  {
    ConfigKey(keys, "styles." + style, Str(""));
    ConfigKey(keys, "range." + style + ".only", Str(""));
  }

  /**
   * start_<style> renders the start in that style: start_short with
   * styles.short = 'x' is 'x'.
   */
  lemma StartStyleExample(host: Host, t: Instant, keys: map<string, Value>, style: string, pattern: string)
    requires EchoesPatterns(host) && ':' !in style && pattern != "" && pattern != "0"
    requires keys == map["styles." + style := Str(pattern)]
    ensures Derived(keys, host, Date(t), Date(t), "start_" + style) == Success(Str(pattern))
  {
    assert ("calculations." + style)[0] == 'c' && ("range." + style + ".only")[0] == 'r';
    assert Derived(keys, host, Date(t), Date(t), "start_" + style)
           == ApplyStyleToDate(keys, host, Date(t), style, Null) by {
      SplitNameStart(style);
      NoCalculation(keys, style);
      DerivedStyle(keys, host, Date(t), Date(t), "start_" + style);
    }
    StyledDate(host, t, keys, style, pattern);
  }

  /** A date in a style whose pattern is set. */
  lemma PatternedDate(host: Host, t: Instant, keys: map<string, Value>, style: string, pattern: string)
    requires EchoesPatterns(host) && ':' !in style && pattern != "" && pattern != "0"
    requires "styles." + style in keys && keys["styles." + style] == Str(pattern)
    ensures FormatDate(keys, host, Date(t), style, Null) == Success(Str(pattern))
  {
    ConfigKey(keys, "styles." + style, Str(""));
  }

  /** A one-day range whose requested style splits into a delimiter set and a patterned date style. */
  lemma OneDayRangeWith(host: Host, t: Instant, keys: map<string, Value>, requested: string,
                        style: string, pattern: string, only: string)
    requires EchoesPatterns(host) && ':' !in style && pattern != "" && pattern != "0"
    requires SplitDelimitersFromStyle(keys, requested) == (Delims(map["only" := only]), style)
    requires "styles." + style in keys && keys["styles." + style] == Str(pattern)
    ensures ApplyStyleToRange(keys, host, Date(t), Date(t), requested, Null) == Success(Str(only + pattern))
  {
    PatternedDate(host, t, keys, style, pattern);
    DateRendersAsText(keys, host, t, style, Null);
    PieceOfSet(map["only" := only], "only");
    RangeOfEqualEnds(keys, host, Date(t), Date(t), requested, Null);
  }

  /** Two distinct dates in a patterned style with a given delimiter set. */
  lemma TwoDayRangeWith(host: Host, t1: Instant, t2: Instant, keys: map<string, Value>, requested: string,
                        style: string, pattern: string, m: map<string, string>)
    requires EchoesPatterns(host) && t1 != t2 && ':' !in style && pattern != "" && pattern != "0"
    requires SplitDelimitersFromStyle(keys, requested) == (Delims(m), style)
    requires "styles." + style in keys && keys["styles." + style] == Str(pattern)
    ensures ApplyStyleToRange(keys, host, Date(t1), Date(t2), requested, Null)
            == Success(Str(Entry(m, "before") + pattern + Entry(m, "middle") + pattern + Entry(m, "after")))
  {
    PatternedDate(host, t1, keys, style, pattern);
    PatternedDate(host, t2, keys, style, pattern);
    DateRendersAsText(keys, host, t1, style, Null);
    DateRendersAsText(keys, host, t2, style, Null);
    PieceOfSet(m, "before");
    PieceOfSet(m, "middle");
    PieceOfSet(m, "after");
    RangeOfDistinctEnds(keys, host, Date(t1), Date(t2), requested, Null);
  }

  /** A one-day range in a style whose delimiters come from range.default. */
  lemma OneDayRange(host: Host, t: Instant, keys: map<string, Value>, style: string, pattern: string,
                    only: string)
    requires EchoesPatterns(host) && ':' !in style && '_' !in style && pattern != "" && pattern != "0"
    requires "styles." + style in keys && keys["styles." + style] == Str(pattern)
    requires "range." + style !in keys
    requires "range.default" in keys && keys["range.default"] == Delims(map["only" := only])
    ensures ApplyStyleToRange(keys, host, Date(t), Date(t), style, Null) == Success(Str(only + pattern))
  {
    ConfigKey(keys, "styles." + style, Str(""));
    ConfigKey(keys, "range." + style, Str(""));
    ConfigKey(keys, "range.default", Str(""));
    SplitStyleWhole(keys, style);
    DateRendersAsText(keys, host, t, style, Null);
    PieceOfSet(map["only" := only], "only");
    RangeOfEqualEnds(keys, host, Date(t), Date(t), style, Null);
  }

  /** range_<style>, with no calculation of that name, renders the range in that style. */
  lemma DerivedRangeStyle(keys: map<string, Value>, host: Host, start: Moment, end: Moment, style: string)
    requires !Truthy(GetConfig(keys, "calculations." + style, Str("")))
    ensures Derived(keys, host, start, end, "range_" + style)
            == ApplyStyleToRange(keys, host, start, end, style, Null)
  {
    SplitNameRange(style);
    DerivedStyle(keys, host, start, end, "range_" + style);
  }

  /** No calculation is configured under the given name. */
  lemma NoCalculation(keys: map<string, Value>, style: string)
    requires ':' !in style && "calculations." + style !in keys
    ensures !Truthy(GetConfig(keys, "calculations." + style, Str("")))
  {
    ConfigKey(keys, "calculations." + style, Str(""));
  }

  /** range_short of a one-day range puts range.default's `only` prefix before the date. */
  lemma OnlyPrefixExample(host: Host, t: Instant, keys: map<string, Value>)
    requires EchoesPatterns(host)
    requires keys == map["range.default" := Delims(map["only" := "prefix "]), "styles.short" := Str("x")]
    ensures Derived(keys, host, Date(t), Date(t), "range_short") == Success(Str("prefix x"))
  {
    NoCalculation(keys, "short");
    DerivedRangeStyle(keys, host, Date(t), Date(t), "short");
    assert "range_" + "short" == "range_short";
    OnlyPrefixRange(host, t, keys);
  }

  lemma OnlyPrefixRange(host: Host, t: Instant, keys: map<string, Value>)
    requires EchoesPatterns(host)
    requires keys == map["range.default" := Delims(map["only" := "prefix "]), "styles.short" := Str("x")]
    ensures ApplyStyleToRange(keys, host, Date(t), Date(t), "short", Null) == Success(Str("prefix x"))
  {
    assert "styles." + "short" == "styles.short";
    assert "range." + "short" == "range.short";
    OneDayRange(host, t, keys, "short", "x", "prefix ");
    assert "prefix " + "x" == "prefix x";
  }

  /**
   * range_<style> of two distinct dates puts range.default's before, middle
   * and after around the two dates: with 'a ', ' - ', ' b' and
   * styles.short = 'x', range_short is 'a x - x b'.
   */
  lemma TwoDateRangeExample(host: Host, t1: Instant, t2: Instant, keys: map<string, Value>, style: string,
                            pattern: string, before: string, middle: string, after: string)
    requires EchoesPatterns(host) && t1 != t2
    requires ':' !in style && '_' !in style && style != "default" && pattern != "" && pattern != "0"
    requires keys == map["range.default" := Delims(map["before" := before, "middle" := middle, "after" := after]),
                         "styles." + style := Str(pattern)]
    ensures Derived(keys, host, Date(t1), Date(t2), "range_" + style)
            == Success(Str(before + pattern + middle + pattern + after))
  {
    var m := map["before" := before, "middle" := middle, "after" := after];
    assert ("calculations." + style)[0] == 'c' && ("range." + style)[0] == 'r' && ("styles." + style)[0] == 's';
    assert "range." + style != "range.default" by {
      assert ("range." + style)[6..] == style;
    }
    NoCalculation(keys, style);
    DerivedRangeStyle(keys, host, Date(t1), Date(t2), style);
    TwoDayRange(host, t1, t2, keys, style, pattern, m);
    assert Entry(m, "before") == before && Entry(m, "middle") == middle && Entry(m, "after") == after;
  }

  /** Two distinct dates in a style whose delimiters come from range.default. */
  lemma TwoDayRange(host: Host, t1: Instant, t2: Instant, keys: map<string, Value>, style: string,
                    pattern: string, m: map<string, string>)
    requires EchoesPatterns(host) && t1 != t2 && ':' !in style && '_' !in style && pattern != "" && pattern != "0"
    requires "styles." + style in keys && keys["styles." + style] == Str(pattern)
    requires "range." + style !in keys
    requires "range.default" in keys && keys["range.default"] == Delims(m)
    ensures ApplyStyleToRange(keys, host, Date(t1), Date(t2), style, Null)
            == Success(Str(Entry(m, "before") + pattern + Entry(m, "middle") + pattern + Entry(m, "after")))
  {
    ConfigKey(keys, "range." + style, Str(""));
    ConfigKey(keys, "range.default", Str(""));
    SplitStyleWhole(keys, style);
    TwoDayRangeWith(host, t1, t2, keys, style, style, pattern, m);
  }

  /**
   * x_y takes the date style from x and the delimiters from y: short_title
   * with range.title's `only` = 'Prefix ' and styles.short = 'x' is
   * 'Prefix x'.
   */
  lemma DateAndRangeStyleExample(host: Host, t: Instant, keys: map<string, Value>, x: string, y: string,
                                 pattern: string, only: string)
    requires EchoesPatterns(host) && pattern != "" && pattern != "0"
    requires x != "" && '_' !in x && '_' !in y && ':' !in x && ':' !in y
    requires forall i :: 0 <= i < |Targets| ==> !StartsWith(x + "_" + y, Targets[i])
    requires keys == map["range." + y := Delims(map["only" := only]), "styles." + x := Str(pattern)]
    ensures Derived(keys, host, Date(t), Date(t), x + "_" + y) == Success(Str(only + pattern))
  {
    var name := x + "_" + y;
    assert ("calculations." + name)[0] == 'c';
    NoCalculation(keys, name);
    DerivedStyle(keys, host, Date(t), Date(t), name);
    SplitStyleAtUnderscore(keys, x, y);
    assert ':' !in "range." + y;
    ConfigKey(keys, "range." + y, Str(""));
    assert ("range." + y)[0] == 'r' && ("styles." + x)[0] == 's';
    assert keys["range." + y] == Delims(map["only" := only]);
    assert GetDelimiters(keys, y) == Delims(map["only" := only]);
    OneDayRangeWith(host, t, keys, name, x, pattern, only);
  }

  /**
   * A style without '_', such as title, takes both its date style and its
   * delimiters from its own name: range.title's `only` = 'Prefix ' and
   * styles.title = 'X' give 'Prefix X'.
   */
  lemma TitleExample(host: Host, t: Instant, keys: map<string, Value>, style: string,
                     pattern: string, only: string)
    requires EchoesPatterns(host) && pattern != "" && pattern != "0"
    requires style != "" && '_' !in style && ':' !in style
    requires forall i :: 0 <= i < |Targets| ==> !StartsWith(style, Targets[i])
    requires keys == map["range." + style := Delims(map["only" := only]), "styles." + style := Str(pattern)]
    ensures Derived(keys, host, Date(t), Date(t), style) == Success(Str(only + pattern))
  {
    assert ("calculations." + style)[0] == 'c';
    NoCalculation(keys, style);
    DerivedStyle(keys, host, Date(t), Date(t), style);
    TitleRange(host, t, keys, style, pattern, only);
  }

  lemma TitleRange(host: Host, t: Instant, keys: map<string, Value>, style: string,
                   pattern: string, only: string)
    requires EchoesPatterns(host) && pattern != "" && pattern != "0"
    requires '_' !in style && ':' !in style
    requires keys == map["range." + style := Delims(map["only" := only]), "styles." + style := Str(pattern)]
    ensures ApplyStyleToRange(keys, host, Date(t), Date(t), style, Null) == Success(Str(only + pattern))
  {
    SplitStyleWhole(keys, style);
    assert ':' !in "range." + style;
    ConfigKey(keys, "range." + style, Str(""));
    assert ("range." + style)[0] == 'r' && ("styles." + style)[0] == 's';
    assert keys["range." + style] == Delims(map["only" := only]);
    assert GetDelimiters(keys, style) == Delims(map["only" := only]);
    OneDayRangeWith(host, t, keys, style, style, pattern, only);
  }

  /** formatDate: none.foo for a value that is not a date, styles.default, and an explicit default over it. */
  lemma FormatDateExamples(host: Host, t: Instant)
    requires EchoesPatterns(host)
    ensures FormatDate(map["none.foo" := Str("x")], host, Other(Str("")), "foo", Null) == Success(Str("x"))
    ensures FormatDate(map["styles.default" := Str("x")], host, Date(t), "foo", Null) == Success(Str("x"))
    ensures FormatDate(map["styles.default" := Str("z")], host, Date(t), "foo", Str("x")) == Success(Str("x"))
  {
    assert "none." + "foo" == "none.foo";
    assert !LooselyNa(Str("x"));
    NonDateRendering(map["none.foo" := Str("x")], host, Str(""), "foo", Null);
    assert "styles." + "foo" == "styles.foo";
    StylesDefaultIsLastResort(map["styles.default" := Str("x")], host, t, "foo", Null);
    ConfigKey(map["styles.default" := Str("x")], "styles.default", Str(""));
    DefaultOverridesStylesDefault(map["styles.default" := Str("z")], host, t, "foo", Str("x"));
  }

  /**
   * format('start', 'foo', 'x') and format('range', 'foo', 'x') of a one-day
   * range with an empty `only` are 'x'.
   */
  lemma FormatExamples(host: Host, t: Instant, keys: map<string, Value>)
    requires EchoesPatterns(host)
    requires keys == map["range.default" := Delims(map["only" := ""]), "styles.default" := Str("z")]
    ensures ApplyStyleToDate(keys, host, Date(t), "foo", Str("x")) == Success(Str("x"))
    ensures ApplyStyleToRange(keys, host, Date(t), Date(t), "foo", Str("x")) == Success(Str("x"))
  {
    assert "styles." + "foo" == "styles.foo";
    assert FormatDate(keys, host, Date(t), "foo", Str("x")) == Success(Str("x")) by {
      DefaultOverridesStylesDefault(keys, host, t, "foo", Str("x"));
    }
    assert ApplyStyleToDate(keys, host, Date(t), "foo", Str("x")) == Success(Str("x")) by {
      assert "range." + "foo" + ".only" == "range.foo.only";
      ConfigKey(keys, "range.foo.only", Str(""));
      OnlyPrefixOnDate(keys, host, Date(t), "foo", Str("x"));
    }
    assert SplitDelimitersFromStyle(keys, "foo") == (Delims(map["only" := ""]), "foo") by {
      assert "range." + "foo" == "range.foo";
      ConfigKey(keys, "range.foo", Str(""));
      ConfigKey(keys, "range.default", Str(""));
      SplitStyleWhole(keys, "foo");
    }
    DateRendersAsText(keys, host, t, "foo", Str("x"));
    PieceOfSet(map["only" := ""], "only");
    RangeOfEqualEnds(keys, host, Date(t), Date(t), "foo", Str("x"));
    assert "" + "x" == "x";
  }

  /**
   * A value that is not a date, with none.foo unset, comes back as itself:
   * format('start', 'foo') of a range built from NONE is 'n/a', and no extra
   * argument can change that.
   */
  lemma NoneValueExample(host: Host)
    ensures var keys := map["none.default" := Str("n/a"), "range.default" := Delims(map["only" := ""]),
                            "styles.default" := Str("z")];
            ApplyStyleToDate(keys, host, Other(Str("n/a")), "foo", Null) == Success(Str("n/a"))
  {
    var keys := map["none.default" := Str("n/a"), "range.default" := Delims(map["only" := ""]),
                    "styles.default" := Str("z")];
    assert "range." + "foo" + ".only" == "range.foo.only";
    ConfigKey(keys, "range.foo.only", Str(""));
    assert "none." + "foo" == "none.foo";
    NonDateRendering(keys, host, Str("n/a"), "foo", Null);
  }
}
