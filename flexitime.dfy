/**
 * The lenient time parser `flexitime` (filemaker.py:193-235).
 *
 * The source searches a string for the regular expression
 *   (?P<hours>\d{1,2})[\.:](?P<minutes>\d{1,2})([\.:](?P<seconds>\d{1,2}))? ?(?P<ampm>[Ap][Mm])?
 * and turns the leftmost match into a time of day. Here the regular expression is an explicit
 * scanner that follows the backtracking order of the regular-expression engine: start positions
 * left to right; at each, two hour digits before one; then minutes, the seconds group, the
 * optional space and the marker, each taken greedily (nothing after the minutes can fail).
 */
module TimeParser {
  import opened Wrappers
  import opened Chars

  /** A `datetime.time` value; the constructor of that class accepts only the valid ones. */
  datatype Time = Time(hour: nat, minute: nat, second: nat)

  predicate ValidTime(t: Time) {
    t.hour < 24 && t.minute < 60 && t.second < 60
  }

  const Midnight := Time(0, 0, 0)

  /** The ValueError `datetime.time` raises for a minute or second outside 0..59. */
  datatype TimeError = OutOfRange(minute: nat, second: nat)

  /** The groups of one match, with the position where it starts. */
  datatype Match = Match(start: nat, hours: string, minutes: string, seconds: Option<string>, marker: Option<string>)

  predicate IsSep(c: char) {
    c == '.' || c == ':'
  }

  /** `[Ap][Mm]`: the first letter is an upper-case A or a lower-case p. */
  predicate IsMarkerAt(s: string, q: nat) {
    q + 1 < |s| && (s[q] == 'A' || s[q] == 'p') && (s[q + 1] == 'M' || s[q + 1] == 'm')
  }

  /** `digit [.:] digit` at position i: the shortest text the pattern can match. */
  predicate DigitSepDigitAt(s: string, i: nat) {
    i + 2 < |s| && IsDigit(s[i]) && IsSep(s[i + 1]) && IsDigit(s[i + 2])
  }

  /** `\d{k}[.:]\d` at p: hours of k digits followed by a separator and a first minute digit. */
  predicate HoursFit(s: string, p: nat, k: nat) {
    p + k + 1 < |s| && AllDigits(s[p..p + k]) && IsSep(s[p + k]) && IsDigit(s[p + k + 1])
  }

  /** `\d{1,2}` taken greedily at q: the number of digits (0, 1 or 2) it consumes. */
  function DigitRun(s: string, q: nat): (n: nat)
    requires q <= |s|
    ensures n <= 2 && q + n <= |s| && AllDigits(s[q..q + n])
    ensures n == 0 <==> q >= |s| || !IsDigit(s[q])
    ensures n == 2 <==> q + 1 < |s| && IsDigit(s[q]) && IsDigit(s[q + 1])
  {
    if q < |s| && IsDigit(s[q]) then
      (if q + 1 < |s| && IsDigit(s[q + 1]) then 2 else 1)
    else 0
  }

  /** The digit groups of a match are decimal digit strings. */
  predicate DigitGroups(m: Match) {
    AllDigits(m.hours) && AllDigits(m.minutes) && (m.seconds.Some? ==> AllDigits(m.seconds.value))
  }

  /**
   * The text of `s` at `m.start` matches the pattern with exactly the groups of `m`: hours of one
   * or two digits, a separator, minutes of one or two digits, optionally a separator and one or
   * two second digits, then optionally a marker, possibly after one space.
   */
  ghost predicate MatchesPattern(s: string, m: Match) {
    var h, mi := |m.hours|, |m.minutes|;
    var a := m.start + h + 1 + mi;
    var b := if m.seconds.Some? then a + 1 + |m.seconds.value| else a;
    DigitGroups(m) && 1 <= h <= 2 && 1 <= mi <= 2 && b <= |s| &&
    s[m.start..m.start + h] == m.hours && IsSep(s[m.start + h]) && s[m.start + h + 1..a] == m.minutes &&
    (m.seconds.Some? ==> 1 <= |m.seconds.value| <= 2 && IsSep(s[a]) && s[a + 1..b] == m.seconds.value) &&
    (m.marker.Some? ==>
      (IsMarkerAt(s, b) && m.marker.value == s[b..b + 2]) ||
      (b < |s| && s[b] == ' ' && IsMarkerAt(s, b + 1) && m.marker.value == s[b + 1..b + 3]))
  }

  /** `\d{1,2}` for the hours, with backtracking: two digits if the rest then fits, else one, else 0. */
  function HoursLength(s: string, p: nat): (k: nat)
    ensures k <= 2 && (k > 0 ==> HoursFit(s, p, k))
    ensures k == 2 <==> HoursFit(s, p, 2)
    ensures k == 1 <==> !HoursFit(s, p, 2) && HoursFit(s, p, 1)
  {
    if HoursFit(s, p, 2) then 2 else if HoursFit(s, p, 1) then 1 else 0
  }

  /** The match of the pattern at exactly position p, if any. */
  function MatchAt(s: string, p: nat): (r: Option<Match>)
    ensures r.Some? ==> r.value.start == p && DigitGroups(r.value)
  {
    var k := HoursLength(s, p);
    if k == 0 then None
    else
      var m0 := p + k + 1;
      var q := m0 + DigitRun(s, m0);
      var hasSeconds := q + 1 < |s| && IsSep(s[q]) && IsDigit(s[q + 1]);
      var q2 := if hasSeconds then q + 1 + DigitRun(s, q + 1) else q;
      var q3 := if q2 < |s| && s[q2] == ' ' then q2 + 1 else q2;
      Some(Match(p, s[p..p + k], s[m0..q],
                 if hasSeconds then Some(s[q + 1..q2]) else None,
                 if IsMarkerAt(s, q3) then Some(s[q3..q3 + 2]) else None))
  }

  /** A match starts at p exactly when `digit [.:] digit` occurs at p, or one digit later. */
  lemma MatchAtExists(s: string, p: nat)
    ensures MatchAt(s, p).Some? <==> DigitSepDigitAt(s, p) || (p < |s| && IsDigit(s[p]) && DigitSepDigitAt(s, p + 1))
  {
    if DigitSepDigitAt(s, p) {
      assert s[p..p + 1] == [s[p]];
      assert HoursFit(s, p, 1);
    }
    if p < |s| && IsDigit(s[p]) && DigitSepDigitAt(s, p + 1) {
      assert s[p..p + 2] == [s[p], s[p + 1]];
      assert HoursFit(s, p, 2);
    }
    if HoursFit(s, p, 2) {
      assert s[p..p + 2][0] == s[p] && s[p..p + 2][1] == s[p + 1];
    }
    if HoursFit(s, p, 1) {
      assert s[p..p + 1][0] == s[p];
    }
  }

  /** What MatchAt returns is a match of the pattern with those groups. */
  lemma MatchAtShape(s: string, p: nat)
    requires MatchAt(s, p).Some?
    ensures MatchesPattern(s, MatchAt(s, p).value)
  {
    var m := MatchAt(s, p).value;
    var k := HoursLength(s, p);
    var m0 := p + k + 1;
    var q := m0 + DigitRun(s, m0);
    assert |m.hours| == k && |m.minutes| == q - m0;
  }

  /**
   * Every part of a match is as long as it can be: one hour digit only when two do not fit, one
   * minute digit only when no digit follows, seconds whenever a separator and a digit follow the
   * minutes (one second digit only when no digit follows), and a marker whenever `[Ap][Mm]`
   * follows, directly or after one space.
   */
  lemma MatchAtGreedy(s: string, p: nat)
    requires MatchAt(s, p).Some?
    ensures var m := MatchAt(s, p).value;
            var a := p + |m.hours| + 1 + |m.minutes|;
            var b := if m.seconds.Some? then a + 1 + |m.seconds.value| else a;
            (|m.hours| == 1 ==> !HoursFit(s, p, 2)) &&
            (|m.minutes| == 1 ==> a >= |s| || !IsDigit(s[a])) &&
            (m.seconds.Some? <==> a + 1 < |s| && IsSep(s[a]) && IsDigit(s[a + 1])) &&
            (m.seconds.Some? && |m.seconds.value| == 1 ==> b >= |s| || !IsDigit(s[b])) &&
            (m.marker.Some? <==> IsMarkerAt(s, b) || (b < |s| && s[b] == ' ' && IsMarkerAt(s, b + 1)))
  {
    var m := MatchAt(s, p).value;
    var k := HoursLength(s, p);
    var m0 := p + k + 1;
    var q := m0 + DigitRun(s, m0);
    assert |m.hours| == k && |m.minutes| == q - m0;
    if m.seconds.Some? {
      assert |m.seconds.value| == DigitRun(s, q + 1);
    }
  }

  /** `pat.search(s)` from position p on: the leftmost match. */
  function Search(s: string, p: nat): (r: Option<Match>)
    requires p <= |s|
    ensures r.Some? ==> p <= r.value.start && MatchAt(s, r.value.start) == r
    ensures r.Some? ==> forall q :: p <= q < r.value.start ==> MatchAt(s, q).None?
    decreases |s| - p
  {
    if p == |s| then None
    else if MatchAt(s, p).Some? then MatchAt(s, p)
    else Search(s, p + 1)
  }

  function LowerAscii(c: char): char {
    if 'A' <= c <= 'Z' then (c as int + 32) as char else c
  }

  /** `parts['ampm'].lower() == 'pm'`. */
  predicate IsPm(marker: Option<string>) {
    marker.Some? && |marker.value| == 2 && LowerAscii(marker.value[0]) == 'p' && LowerAscii(marker.value[1]) == 'm'
  }

  /** The hour after the afternoon shift and the wrap of hours above 23. */
  function AdjustHour(h: nat, pm: bool): (r: nat)
    ensures r < 24
    ensures r == h || r == h + 12 || r == 0
    ensures pm && h < 12 ==> r == h + 12
    ensures (!pm || h >= 12) && h <= 23 ==> r == h
    ensures (!pm || h >= 12) && h > 23 ==> r == 0
  {
    var h1 := if pm && h < 12 then h + 12 else h;
    if h1 > 23 then 0 else h1
  }

  /** Lines 230-235: integer groups, seconds defaulting to 0, then `datetime.time(h, m, s)`. */
  function ToTime(m: Match): (r: Result<Time, TimeError>)
    requires DigitGroups(m)
    ensures r.Ok? ==> ValidTime(r.value)
    ensures r.Ok? <==> DigitsValue(m.minutes) < 60 && (m.seconds.None? || DigitsValue(m.seconds.value) < 60)
    ensures r.Ok? ==> r.value.minute == DigitsValue(m.minutes)
    ensures r.Ok? ==> r.value.second == (if m.seconds.Some? then DigitsValue(m.seconds.value) else 0)
    ensures r.Ok? ==> r.value.hour == AdjustHour(DigitsValue(m.hours), IsPm(m.marker))
  {
    var h := DigitsValue(m.hours);
    var mi := DigitsValue(m.minutes);
    var se := if m.seconds.Some? then DigitsValue(m.seconds.value) else 0;
    if mi <= 59 && se <= 59 then Ok(Time(AdjustHour(h, IsPm(m.marker)), mi, se))
    else Err(OutOfRange(mi, se))
  }

  /**
   * `flexitime(value)`: `Ok(None)` when nothing matches, an error where `datetime.time` raises, and
   * otherwise a valid time of day.
   */
  function Flexitime(value: string): (r: Result<Option<Time>, TimeError>)
    ensures r == Ok(None) <==> Search(value, 0).None?
    ensures r.Ok? && r.value.Some? ==> ValidTime(r.value.value)
  {
    match Search(value, 0)
    case None => Ok(None)
    case Some(m) =>
      match ToTime(m)
      case Ok(t) => Ok(Some(t))
      case Err(e) => Err(e)
  }

  // ---------------------------------------------------------------------------
  // Matching: when there is a match, and which one is found
  // ---------------------------------------------------------------------------

  /** The pattern occurs somewhere in s: some `digit [.:] digit`. */
  ghost predicate HasTimeShape(s: string) {
    exists i :: DigitSepDigitAt(s, i)
  }

  lemma {:induction false} SearchNoneIff(s: string, p: nat)
    requires p <= |s|
    ensures Search(s, p).None? <==> forall i :: p <= i ==> !DigitSepDigitAt(s, i)
    decreases |s| - p
  {
    MatchAtExists(s, p);
    if p < |s| {
      SearchNoneIff(s, p + 1);
    }
  }

  /** `flexitime` finds nothing exactly when no `digit [.:] digit` occurs anywhere in the string. */
  lemma FlexitimeNoneIff(value: string)
    ensures Flexitime(value) == Ok(None) <==> !HasTimeShape(value)
  {
    SearchNoneIff(value, 0);
    if Search(value, 0).Some? {
      match ToTime(Search(value, 0).value)
      case Ok(_) =>
      case Err(_) =>
    }
  }

  /** A text without a digit holds no time. */
  lemma FlexitimeWithoutDigits(s: string)
    requires forall i :: 0 <= i < |s| ==> !IsDigit(s[i])
    ensures Flexitime(s) == Ok(None)
  {
    FlexitimeNoneIff(s);
  }

  lemma {:induction false} SearchReaches(s: string, p: nat, q: nat)
    requires p <= q < |s| && MatchAt(s, q).Some?
    ensures Search(s, p).Some? && Search(s, p).value.start <= q
    decreases q - p
  {
    if p < q && MatchAt(s, p).None? {
      SearchReaches(s, p + 1, q);
    }
  }

  /**
   * The search is leftmost: whatever match of the pattern exists in s, the one found starts no later,
   * and it is itself a match of the pattern.
   */
  lemma SearchIsLeftmost(s: string, m: Match)
    requires MatchesPattern(s, m)
    ensures Search(s, 0).Some?
    ensures MatchesPattern(s, Search(s, 0).value) && Search(s, 0).value.start <= m.start
  {
    var p := m.start;
    var h := |m.hours|;
    assert s[p..p + h][0] == s[p];
    assert s[p + h + 1..p + h + 1 + |m.minutes|][0] == s[p + h + 1];
    if h == 2 {
      assert s[p..p + h][1] == s[p + 1];
    }
    MatchAtExists(s, p);
    SearchReaches(s, 0, p);
    MatchAtShape(s, Search(s, 0).value.start);
  }

  // ---------------------------------------------------------------------------
  // Round trip: the canonical rendering parses back to the same time
  // ---------------------------------------------------------------------------

  /** `HH:MM:SS`, two digits each. */
  function Render(t: Time): string {
    PadNat(t.hour, 2) + ":" + PadNat(t.minute, 2) + ":" + PadNat(t.second, 2)
  }

  lemma RenderRoundTrip(t: Time)
    requires ValidTime(t)
    ensures Flexitime(Render(t)) == Ok(Some(t))
  {
    RenderMatch(t);
    PadNatValue(t.hour, 2);
    PadNatValue(t.minute, 2);
    PadNatValue(t.second, 2);
  }

  /** The rendering matches at its start, with the three two-digit fields as hours, minutes and seconds. */
  lemma RenderMatch(t: Time)
    ensures |Render(t)| == 8
    ensures MatchAt(Render(t), 0) == Some(Match(0, PadNat(t.hour, 2), PadNat(t.minute, 2), Some(PadNat(t.second, 2)), None))
  {
    var r := Render(t);
    var hh, mm, ss := PadNat(t.hour, 2), PadNat(t.minute, 2), PadNat(t.second, 2);
    assert r[0..2] == hh && r[3..5] == mm && r[6..8] == ss;
    assert r[2] == ':' && r[5] == ':';
    assert IsDigit(r[3]) && IsDigit(r[4]) && IsDigit(r[6]) && IsDigit(r[7]);
    assert HoursFit(r, 0, 2);
  }

  // ---------------------------------------------------------------------------
  // The examples in the docstring of flexitime (filemaker.py:196-224)
  // ---------------------------------------------------------------------------

  lemma ExampleNoon()
    ensures Flexitime("12:00:00") == Ok(Some(Time(12, 0, 0)))
  {
    ExampleNoonMatch();
    DigitsValueOfTwo("00");
    DigitsValueOfTwo("12");
  }

  lemma ExampleNoonMatch()
    ensures MatchAt("12:00:00", 0) == Some(Match(0, "12", "00", Some("00"), None))
  {
    var s := "12:00:00";
    assert s[0..2] == "12";
    assert s[3..5] == "00";
    assert s[6..8] == "00";
    assert HoursFit(s, 0, 2);
    assert DigitRun(s, 3) == 2 && DigitRun(s, 6) == 2;
    assert !IsMarkerAt(s, 8);
  }

  lemma ExampleWithSeconds()
    ensures Flexitime("12:00:59") == Ok(Some(Time(12, 0, 59)))
  {
    ExampleWithSecondsMatch();
    DigitsValueOfTwo("00");
    DigitsValueOfTwo("12");
    DigitsValueOfTwo("59");
  }

  lemma ExampleWithSecondsMatch()
    ensures MatchAt("12:00:59", 0) == Some(Match(0, "12", "00", Some("59"), None))
  {
    var s := "12:00:59";
    assert s[0..2] == "12";
    assert s[3..5] == "00";
    assert s[6..8] == "59";
    assert HoursFit(s, 0, 2);
    assert DigitRun(s, 3) == 2 && DigitRun(s, 6) == 2;
    assert !IsMarkerAt(s, 8);
  }

  lemma ExampleLateEvening()
    ensures Flexitime("23:30:59") == Ok(Some(Time(23, 30, 59)))
  {
    ExampleLateEveningMatch();
    DigitsValueOfTwo("23");
    DigitsValueOfTwo("30");
    DigitsValueOfTwo("59");
  }

  lemma ExampleLateEveningMatch()
    ensures MatchAt("23:30:59", 0) == Some(Match(0, "23", "30", Some("59"), None))
  {
    var s := "23:30:59";
    assert s[0..2] == "23";
    assert s[3..5] == "30";
    assert s[6..8] == "59";
    assert HoursFit(s, 0, 2);
    assert DigitRun(s, 3) == 2 && DigitRun(s, 6) == 2;
    assert !IsMarkerAt(s, 8);
  }

  lemma ExampleSingleDigitHour()
    ensures Flexitime("3:30:59") == Ok(Some(Time(3, 30, 59)))
  {
    ExampleSingleDigitHourMatch();
    DigitsValueOfTwo("30");
    DigitsValueOfTwo("59");
  }

  lemma ExampleSingleDigitHourMatch()
    ensures MatchAt("3:30:59", 0) == Some(Match(0, "3", "30", Some("59"), None))
  {
    var s := "3:30:59";
    assert s[0..1] == "3";
    assert s[2..4] == "30";
    assert s[5..7] == "59";
    assert HoursFit(s, 0, 1) && !HoursFit(s, 0, 2);
    assert DigitRun(s, 2) == 2 && DigitRun(s, 5) == 2;
    assert !IsMarkerAt(s, 7);
  }

  lemma ExampleNoSeconds()
    ensures Flexitime("3:30") == Ok(Some(Time(3, 30, 0)))
  {
    ExampleNoSecondsMatch();
    DigitsValueOfTwo("30");
  }

  lemma ExampleNoSecondsMatch()
    ensures MatchAt("3:30", 0) == Some(Match(0, "3", "30", None, None))
  {
    var s := "3:30";
    assert s[0..1] == "3";
    assert s[2..4] == "30";
    assert HoursFit(s, 0, 1) && !HoursFit(s, 0, 2);
    assert DigitRun(s, 2) == 2;
    assert !IsMarkerAt(s, 4);
  }

  lemma ExampleAfternoonMarker()
    ensures Flexitime("3:30 pm") == Ok(Some(Time(15, 30, 0)))
  {
    ExampleAfternoonMarkerMatch();
    DigitsValueOfTwo("30");
  }

  lemma ExampleAfternoonMarkerMatch()
    ensures MatchAt("3:30 pm", 0) == Some(Match(0, "3", "30", None, Some("pm")))
  {
    var s := "3:30 pm";
    assert s[0..1] == "3";
    assert s[2..4] == "30";
    assert HoursFit(s, 0, 1) && !HoursFit(s, 0, 2);
    assert DigitRun(s, 2) == 2;
    assert IsMarkerAt(s, 5) && s[5..7] == "pm";
  }

  lemma ExampleMorningMarker()
    ensures Flexitime("3:30 am") == Ok(Some(Time(3, 30, 0)))
  {
    ExampleMorningMarkerMatch();
    DigitsValueOfTwo("30");
  }

  lemma ExampleMorningMarkerMatch()
    ensures MatchAt("3:30 am", 0) == Some(Match(0, "3", "30", None, None))
  {
    var s := "3:30 am";
    assert s[0..1] == "3";
    assert s[2..4] == "30";
    assert HoursFit(s, 0, 1) && !HoursFit(s, 0, 2);
    assert DigitRun(s, 2) == 2;
    assert !IsMarkerAt(s, 5);
  }

  lemma ExampleDotMorning()
    ensures Flexitime("3.30 am") == Ok(Some(Time(3, 30, 0)))
  {
    ExampleDotMorningMatch();
    DigitsValueOfTwo("30");
  }

  lemma ExampleDotMorningMatch()
    ensures MatchAt("3.30 am", 0) == Some(Match(0, "3", "30", None, None))
  {
    var s := "3.30 am";
    assert s[0..1] == "3";
    assert s[2..4] == "30";
    assert HoursFit(s, 0, 1) && !HoursFit(s, 0, 2);
    assert DigitRun(s, 2) == 2;
    assert !IsMarkerAt(s, 5);
  }

  lemma ExampleDotAfternoon()
    ensures Flexitime("3.30 pm") == Ok(Some(Time(15, 30, 0)))
  {
    ExampleDotAfternoonMatch();
    DigitsValueOfTwo("30");
  }

  lemma ExampleDotAfternoonMatch()
    ensures MatchAt("3.30 pm", 0) == Some(Match(0, "3", "30", None, Some("pm")))
  {
    var s := "3.30 pm";
    assert s[0..1] == "3";
    assert s[2..4] == "30";
    assert HoursFit(s, 0, 1) && !HoursFit(s, 0, 2);
    assert DigitRun(s, 2) == 2;
    assert IsMarkerAt(s, 5) && s[5..7] == "pm";
  }

  lemma ExampleSingleDigitMinute()
    ensures Flexitime("3.3 pm") == Ok(Some(Time(15, 3, 0)))
  {
    ExampleSingleDigitMinuteMatch();
  }

  lemma ExampleSingleDigitMinuteMatch()
    ensures MatchAt("3.3 pm", 0) == Some(Match(0, "3", "3", None, Some("pm")))
  {
    var s := "3.3 pm";
    assert s[0..1] == "3";
    assert s[2..3] == "3";
    assert HoursFit(s, 0, 1) && !HoursFit(s, 0, 2);
    assert DigitRun(s, 2) == 1;
    assert IsMarkerAt(s, 4) && s[4..6] == "pm";
  }

  lemma ExampleMarkerWithoutSpace()
    ensures Flexitime("3.3pm") == Ok(Some(Time(15, 3, 0)))
  {
    ExampleMarkerWithoutSpaceMatch();
  }

  lemma ExampleMarkerWithoutSpaceMatch()
    ensures MatchAt("3.3pm", 0) == Some(Match(0, "3", "3", None, Some("pm")))
  {
    var s := "3.3pm";
    assert s[0..1] == "3";
    assert s[2..3] == "3";
    assert HoursFit(s, 0, 1) && !HoursFit(s, 0, 2);
    assert DigitRun(s, 2) == 1;
    assert IsMarkerAt(s, 3) && s[3..5] == "pm";
  }

  lemma ExampleTwentyFourWraps()
    ensures Flexitime("24:00") == Ok(Some(Time(0, 0, 0)))
  {
    ExampleTwentyFourWrapsMatch();
    DigitsValueOfTwo("00");
    DigitsValueOfTwo("24");
  }

  lemma ExampleTwentyFourWrapsMatch()
    ensures MatchAt("24:00", 0) == Some(Match(0, "24", "00", None, None))
  {
    var s := "24:00";
    assert s[0..2] == "24";
    assert s[3..5] == "00";
    assert HoursFit(s, 0, 2);
    assert DigitRun(s, 3) == 2;
    assert !IsMarkerAt(s, 5);
  }

  lemma ExampleEmpty()
    ensures Flexitime("") == Ok(None)
  {
  }

  lemma ExampleUndefined()
    ensures Flexitime("undefined") == Ok(None)
  {
    FlexitimeWithoutDigits("undefined");
  }

  lemma ExampleNoSeparator()
    ensures Flexitime(" 123") == Ok(None)
  {
  }

  lemma ExampleEmbedded()
    ensures Flexitime(" 12.50  ") == Ok(Some(Time(12, 50, 0)))
  {
    ExampleEmbeddedMatch();
    DigitsValueOfTwo("12");
    DigitsValueOfTwo("50");
  }

  lemma ExampleEmbeddedMatch()
    ensures MatchAt(" 12.50  ", 0).None? && MatchAt(" 12.50  ", 1) == Some(Match(1, "12", "50", None, None))
  {
    var s := " 12.50  ";
    assert s[1..3] == "12";
    assert s[4..6] == "50";
    assert HoursFit(s, 1, 2);
    assert DigitRun(s, 4) == 2;
    assert !IsMarkerAt(s, 7);
  }

  // Behaviour the docstring does not show: the marker class is literally [Ap][Mm], so an upper-case
  // "PM" is not a marker, "AM" is one but never shifts, and minutes above 59 make datetime.time raise.

  lemma ExampleUpperCasePmIgnored()
    ensures Flexitime("3:30 PM") == Ok(Some(Time(3, 30, 0)))
  {
    ExampleUpperCasePmIgnoredMatch();
    DigitsValueOfTwo("30");
  }

  lemma ExampleUpperCasePmIgnoredMatch()
    ensures MatchAt("3:30 PM", 0) == Some(Match(0, "3", "30", None, None))
  {
    var s := "3:30 PM";
    assert s[0..1] == "3";
    assert s[2..4] == "30";
    assert HoursFit(s, 0, 1) && !HoursFit(s, 0, 2);
    assert DigitRun(s, 2) == 2;
    assert !IsMarkerAt(s, 5);
  }

  lemma ExampleTwelveAmStaysTwelve()
    ensures Flexitime("12:00 AM") == Ok(Some(Time(12, 0, 0)))
  {
    ExampleTwelveAmStaysTwelveMatch();
    DigitsValueOfTwo("12");
    DigitsValueOfTwo("00");
  }

  lemma ExampleTwelveAmStaysTwelveMatch()
    ensures MatchAt("12:00 AM", 0) == Some(Match(0, "12", "00", None, Some("AM")))
  {
    var s := "12:00 AM";
    assert s[0..2] == "12";
    assert s[3..5] == "00";
    assert HoursFit(s, 0, 2);
    assert DigitRun(s, 3) == 2;
    assert IsMarkerAt(s, 6) && s[6..8] == "AM";
  }

  lemma ExampleMinutesOutOfRange()
    ensures Flexitime("3:75").Err?
  {
    ExampleMinutesOutOfRangeMatch();
    DigitsValueOfTwo("75");
  }

  lemma ExampleMinutesOutOfRangeMatch()
    ensures MatchAt("3:75", 0) == Some(Match(0, "3", "75", None, None))
  {
    var s := "3:75";
    assert s[0..1] == "3";
    assert s[2..4] == "75";
    assert HoursFit(s, 0, 1) && !HoursFit(s, 0, 2);
    assert DigitRun(s, 2) == 2;
  }
}
