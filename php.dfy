/**
 * The PHP runtime behaviour that DateRange and MockConfig depend on: the
 * values a configuration key can hold, truthiness, the two loose comparisons
 * the code makes, string conversion for `.`, array reads, and the string
 * functions strpos, substr, explode, str_replace and strtolower.
 *
 * Where PHP versions differ this follows PHP 5 and 7, the versions the
 * library was written for.
 */
module Php {
  import opened Wrappers

  /**
   * A configuration value. Closures stored in the configuration are opaque:
   * a closure is known by its identity and invoked through the host.
   */
  datatype Value =
    | Null
    | Str(s: string)
    | Num(x: real)
    | Delims(parts: map<string, string>)
    | Closure(id: nat)

  /** PHP's boolean conversion, as used by `if ($x)` and `! $x`. */
  predicate Truthy(v: Value)
  {
    match v
    case Null => false
    case Str(s) => s != "" && s != "0"
    case Num(x) => x != 0.0
    case Delims(m) => |m| != 0
    case Closure(_) => true
  }

  /** `$v <> 'n/a'` is false: PHP 5/7 compare a number with 'n/a' as 0. */
  predicate LooselyNa(v: Value)
  {
    (v.Str? && v.s == "n/a") || (v.Num? && v.x == 0.0)
  }

  /** String conversion by the `.` operator; None where PHP stops with a fatal error. */
  function ToText(v: Value, numberText: real -> string): (r: Option<string>)
    ensures r.None? <==> v.Closure?
    ensures v.Str? ==> r == Some(v.s)
  {
    match v
    case Null => Some("")
    case Str(s) => Some(s)
    case Num(x) => Some(numberText(x))
    case Delims(_) => Some("Array")
    case Closure(_) => None
  }

  /**
   * `$v[key]` for a read of a string key: a missing key reads as null, which
   * concatenates as ""; a non-empty string yields its first character (PHP 5/7's
   * illegal string offset); a closure is a fatal error (None).
   */
  function Part(v: Value, key: string): (r: Option<string>)
    ensures r.None? <==> v.Closure?
    ensures v.Delims? && key in v.parts ==> r == Some(v.parts[key])
    ensures v.Delims? && key !in v.parts ==> r == Some("")
  {
    match v
    case Delims(m) => Some(if key in m then m[key] else "")
    case Str(s) => Some(if s == "" then "" else s[..1])
    case Closure(_) => None
    case _ => Some("")
  }

  // ---------------------------------------------------------------------------
  // Strings

  predicate StartsWith(s: string, prefix: string)
  {
    |prefix| <= |s| && s[..|prefix|] == prefix
  }

  /** substr(s, k) for k >= 0; a start past the end gives the empty string. */
  function Substr(s: string, k: nat): (r: string)
    ensures k <= |s| ==> r == s[k..]
    ensures k >= |s| ==> r == ""
  {
    if k <= |s| then s[k..] else ""
  }

  /** strpos(s, c): the index of the first occurrence of c, or None (PHP false). */
  function IndexOf(s: string, c: char): (r: Option<nat>)
    ensures r.None? ==> c !in s
    ensures r.Some? ==> r.value < |s| && s[r.value] == c && c !in s[..r.value]
  {
    if |s| == 0 then None
    else if s[0] == c then Some(0)
    else match IndexOf(s[1..], c)
      case None => None
      case Some(i) =>
        assert s[..i + 1] == [s[0]] + s[1..][..i];
        Some(i + 1)
  }

  /** explode(c, s): the pieces of s between occurrences of c. */
  function Explode(s: string, c: char): (pieces: seq<string>)
    ensures |pieces| >= 1
    ensures forall i :: 0 <= i < |pieces| ==> c !in pieces[i]
    decreases |s|
  {
    match IndexOf(s, c)
    case None => [s]
    case Some(i) => [s[..i]] + Explode(s[i + 1..], c)
  }

  /** implode(c, pieces), the inverse of explode. */
  function Implode(pieces: seq<string>, c: char): string
    requires |pieces| >= 1
  {
    if |pieces| == 1 then pieces[0] else pieces[0] + [c] + Implode(pieces[1..], c)
  }

  /** explode loses nothing: joining its pieces with the separator restores the string. */
  lemma {:induction false} ImplodeExplode(s: string, c: char)
    ensures Implode(Explode(s, c), c) == s
    decreases |s|
  {
    match IndexOf(s, c)
    case None =>
    case Some(i) =>
      var rest := s[i + 1..];
      var pieces := Explode(s, c);
      assert pieces == [s[..i]] + Explode(rest, c);
      assert pieces[1..] == Explode(rest, c);
      ImplodeExplode(rest, c);
      assert Implode(pieces, c) == s[..i] + [c] + rest;
      assert s == s[..i] + [c] + rest;
  }

  /** The first piece of explode(c, s) is everything before the first c. */
  lemma ExplodeFirstPieces(s: string, c: char, i: nat)
    requires IndexOf(s, c) == Some(i)
    ensures |Explode(s, c)| >= 2
    ensures Explode(s, c)[0] == s[..i]
    ensures Explode(s, c)[1] == Explode(s[i + 1..], c)[0]
  {
  }

  /** s contains pat somewhere. */
  predicate Contains(s: string, pat: string)
    decreases |s|
  {
    StartsWith(s, pat) || (|s| > 0 && Contains(s[1..], pat))
  }

  /**
   * str_replace(pat, '', s): every occurrence of pat, found left to right
   * without overlap, removed in one pass.
   */
  function RemoveAll(s: string, pat: string): (r: string)
    requires |pat| > 0
    ensures |r| <= |s|
    decreases |s|
  {
    if |s| == 0 then ""
    else if StartsWith(s, pat) then RemoveAll(s[|pat|..], pat)
    else [s[0]] + RemoveAll(s[1..], pat)
  }

  /** A string free of pat passes through str_replace unchanged. */
  lemma {:induction false} RemoveAllAbsent(s: string, pat: string)
    requires |pat| > 0 && !Contains(s, pat)
    ensures RemoveAll(s, pat) == s
    decreases |s|
  {
    if |s| > 0 {
      RemoveAllAbsent(s[1..], pat);
      assert s == [s[0]] + s[1..];
    }
  }

  /** A leading occurrence of pat is removed and the rest is processed as on its own. */
  lemma RemoveAllLeading(pat: string, rest: string)
    requires |pat| > 0
    ensures RemoveAll(pat + rest, pat) == RemoveAll(rest, pat)
  {
    assert StartsWith(pat + rest, pat);
    assert (pat + rest)[|pat|..] == rest;
  }

  function LowerChar(c: char): char
  {
    if 'A' <= c <= 'Z' then (c as int + 32) as char else c
  }

  /** strtolower on ASCII letters. */
  function Lower(s: string): (r: string)
    ensures |r| == |s|
    ensures forall i :: 0 <= i < |s| ==> r[i] == LowerChar(s[i])
  {
    seq(|s|, i requires 0 <= i < |s| => LowerChar(s[i]))
  }

  function DigitValue(c: char): int
  {
    c as int - '0' as int
  }

  predicate IsDigits(s: string)
  {
    |s| > 0 && forall i :: 0 <= i < |s| ==> '0' <= s[i] <= '9'
  }

  /** is_numeric on integer text: an optional sign followed by decimal digits. */
  predicate IsNumericText(s: string)
  {
    IsDigits(s) || (|s| > 1 && (s[0] == '-' || s[0] == '+') && IsDigits(s[1..]))
  }

  function DigitsValue(s: string): (n: nat)
    requires IsDigits(s)
    decreases |s|
  {
    if |s| == 1 then DigitValue(s[0])
    else 10 * DigitsValue(s[..|s| - 1]) + DigitValue(s[|s| - 1])
  }

  /** The integer that numeric text denotes. */
  function NumericValue(s: string): int
    requires IsNumericText(s)
  {
    if IsDigits(s) then DigitsValue(s)
    else if s[0] == '-' then -(DigitsValue(s[1..]) as int)
    else DigitsValue(s[1..])
  }
}
