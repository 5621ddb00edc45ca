/** src/utils/scheduleUtils.js: reading an interval such as "1d4h30m" and
    stepping a time forward by it. Time is counted in whole minutes, with no
    daylight-saving shifts, so a day is always 1440 minutes. */
module ScheduleUtils {
  import opened Common

  datatype Interval = Interval(days: nat, hours: nat, minutes: nat)

  predicate IsUnit(c: char) {
    c == 'd' || c == 'h' || c == 'm'
  }

  /** One match of /(\d+)([dhm])/: the number and its unit. */
  datatype Match = Match(value: nat, unit: char)

  /** The length of the run of digits starting at i. */
  function DigitsFrom(s: string, i: nat): (k: nat)
    requires i <= |s|
    ensures i + k <= |s|
    decreases |s| - i
  {
    if i < |s| && IsDigit(s[i]) then 1 + DigitsFrom(s, i + 1) else 0
  }

  /** The number the k characters at i spell, read as decimal digits. */
  function NumberAt(s: string, i: nat, k: nat): nat
    requires i + k <= |s|
    decreases k
  {
    if k == 0 then 0
    else 10 * NumberAt(s, i, k - 1) + (if IsDigit(s[i + k - 1]) then DigitValue(s[i + k - 1]) else 0)
  }

  /** The characters of `digits` stand in s from position i on. */
  predicate SpeltAt(s: string, i: nat, digits: string) {
    i + |digits| <= |s| && forall k :: 0 <= k < |digits| ==> s[i + k] == digits[k]
  }

  /** Read in place, a run of digits has the value its own notation has. */
  lemma {:induction false} NumberAtDigits(s: string, i: nat, digits: string)
    requires SpeltAt(s, i, digits) && AllDigits(digits)
    ensures NumberAt(s, i, |digits|) == DecimalValue(digits)
    decreases |digits|
  {
    if digits != [] {
      var n := |digits|;
      assert SpeltAt(s, i, digits[..n - 1]);
      assert s[i + (n - 1)] == digits[n - 1];
      NumberAtDigits(s, i, digits[..n - 1]);
    }
  }

  /** Whether the pattern matches at i, and then the length of its digits:
      \d+ takes the whole run, and giving digits back never helps, since a
      digit is not a unit. */
  function MatchAt(s: string, i: nat): (k: Option<nat>)
    requires i <= |s|
    ensures k.Some? ==> 0 < k.value && i + k.value < |s| && IsUnit(s[i + k.value])
  {
    var k := DigitsFrom(s, i);
    if k > 0 && i + k < |s| && IsUnit(s[i + k]) then Some(k) else None
  }

  /** The matches the global regular expression finds from i on, in order:
      after a match the search resumes behind it, after a miss one character
      further. */
  function Matches(s: string, i: nat): (ms: seq<Match>)
    requires i <= |s|
    ensures 2 * |ms| <= |s| - i
    decreases |s| - i
  {
    if i == |s| then []
    else
      match MatchAt(s, i)
      case Some(k) => [Match(NumberAt(s, i, k), s[i + k])] + Matches(s, i + k + 1)
      case None => Matches(s, i + 1)
  }

  /** The value the last match with this unit left in `parts`, if any. */
  function LastValue(ms: seq<Match>, unit: char): Option<nat> {
    if ms == [] then None
    else if ms[|ms| - 1].unit == unit then Some(ms[|ms| - 1].value)
    else LastValue(ms[..|ms| - 1], unit)
  }

  function OrZero(v: Option<nat>): nat {
    if v.Some? then v.value else 0
  }

  /** The interval a string denotes: per unit, the number of its last
      match; a unit with no match is 0. */
  function Denotes(s: string): Interval {
    var ms := Matches(s, 0);
    Interval(OrZero(LastValue(ms, 'd')), OrZero(LastValue(ms, 'h')), OrZero(LastValue(ms, 'm')))
  }

  /** `parts` after recording the matches in order. */
  function Record(parts: map<char, nat>, ms: seq<Match>): map<char, nat>
    decreases |ms|
  {
    if ms == [] then parts else Record(parts[ms[0].unit := ms[0].value], ms[1..])
  }

  /** Recording leaves, per unit, the last match's number, or what was there
      before when the unit has no match. */
  lemma {:induction false} RecordKeepsLast(parts: map<char, nat>, ms: seq<Match>, unit: char)
    ensures LastValue(ms, unit).Some? ==> unit in Record(parts, ms) && Record(parts, ms)[unit] == LastValue(ms, unit).value
    ensures LastValue(ms, unit).None? ==> (unit in Record(parts, ms) <==> unit in parts)
    ensures LastValue(ms, unit).None? && unit in parts ==> Record(parts, ms)[unit] == parts[unit]
    decreases |ms|
  {
    if ms != [] {
      RecordKeepsLast(parts[ms[0].unit := ms[0].value], ms[1..], unit);
      LastValueCons(ms, unit);
    }
  }

  /** LastValue read from the front: the tail's answer when it has one,
      otherwise the head's. */
  lemma {:induction false} LastValueCons(ms: seq<Match>, unit: char)
    requires ms != []
    ensures LastValue(ms, unit) == if LastValue(ms[1..], unit).Some? then LastValue(ms[1..], unit)
                                   else if ms[0].unit == unit then Some(ms[0].value) else None
    decreases |ms|
  {
    if |ms| > 1 {
      assert ms[..|ms| - 1][1..] == ms[1..][..|ms| - 2];
      assert ms[1..][|ms| - 2] == ms[|ms| - 1];
      LastValueCons(ms[..|ms| - 1], unit);
    }
  }

  /** One step of the scan: a match at i is taken and the search resumes
      behind it; a miss moves one character on. */
  lemma MatchesStep(s: string, i: nat)
    requires i < |s|
    ensures MatchAt(s, i).None? ==> Matches(s, i) == Matches(s, i + 1)
    ensures MatchAt(s, i).Some? ==>
              var k := MatchAt(s, i).value;
              Matches(s, i) == [Match(NumberAt(s, i, k), s[i + k])] + Matches(s, i + k + 1)
  {
  }

  lemma RecordCons(parts: map<char, nat>, m: Match, ms: seq<Match>)
    ensures Record(parts, [m] + ms) == Record(parts[m.unit := m.value], ms)
  {
    assert ([m] + ms)[0] == m && ([m] + ms)[1..] == ms;
  }

  /** parseScheduleInterval(interval): run the regular expression over the
      string, recording each match's number under its unit (a later match
      of a unit overwrites an earlier one), then read the three units with
      0 for a missing one. */
  method ParseScheduleInterval(interval: string) returns (r: Interval)
    ensures r == Denotes(interval)
    ensures Matches(interval, 0) == [] ==> r == Interval(0, 0, 0)
  {
    var parts: map<char, nat> := map[];
    var i := 0;
    while i < |interval|
      invariant 0 <= i <= |interval|
      invariant Record(parts, Matches(interval, i)) == Record(map[], Matches(interval, 0))
      decreases |interval| - i
    {
      MatchesStep(interval, i);
      var k := DigitsFrom(interval, i);
      if k > 0 && i + k < |interval| && IsUnit(interval[i + k]) {
        assert MatchAt(interval, i) == Some(k);
        var m := Match(NumberAt(interval, i, k), interval[i + k]);
        RecordCons(parts, m, Matches(interval, i + k + 1));
        parts := parts[m.unit := m.value];
        i := i + k + 1;
      } else {
        assert MatchAt(interval, i) == None;
        i := i + 1;
      }
    }
    var ms := Matches(interval, 0);
    RecordKeepsLast(map[], ms, 'd');
    RecordKeepsLast(map[], ms, 'h');
    RecordKeepsLast(map[], ms, 'm');
    r := Interval(if 'd' in parts then parts['d'] else 0,
                  if 'h' in parts then parts['h'] else 0,
                  if 'm' in parts then parts['m'] else 0);
  }

  /** The canonical spelling of an interval, "<d>d<h>h<m>m". */
  function Format(iv: Interval): string {
    DecimalString(iv.days) + "d" + DecimalString(iv.hours) + "h" + DecimalString(iv.minutes) + "m"
  }

  /** DigitsFrom measures a run of digits that a non-digit ends. */
  lemma {:induction false} DigitsFromOfRun(s: string, i: nat, digits: string)
    requires i + |digits| < |s| && AllDigits(digits) && SpeltAt(s, i, digits) && !IsDigit(s[i + |digits|])
    ensures DigitsFrom(s, i) == |digits|
    decreases |digits|
  {
    if digits != [] {
      assert s[i + 0] == digits[0];
      assert SpeltAt(s, i + 1, digits[1..]) by {
        forall k | 0 <= k < |digits[1..]| ensures s[i + 1 + k] == digits[1..][k] {
          assert s[i + (k + 1)] == digits[k + 1];
        }
      }
      DigitsFromOfRun(s, i + 1, digits[1..]);
    }
  }

  /** No match starts at a character that is not a digit. */
  lemma MatchesSkip(s: string, i: nat)
    requires i < |s| && !IsDigit(s[i])
    ensures Matches(s, i) == Matches(s, i + 1)
  {
    assert DigitsFrom(s, i) == 0;
    assert MatchAt(s, i) == None;
    MatchesStep(s, i);
  }

  /** A stretch without digits contributes no match. */
  lemma {:induction false} NoMatchesIn(s: string, i: nat, j: nat)
    requires i <= j <= |s| && forall k :: i <= k < j ==> !IsDigit(s[k])
    ensures Matches(s, i) == Matches(s, j)
    decreases j - i
  {
    if i < j {
      MatchesSkip(s, i);
      NoMatchesIn(s, i + 1, j);
    }
  }

  /** s, from i to its end, holds the numbers of ms, each written in
      digits and followed by its unit, and nothing else. */
  predicate Scans(s: string, i: nat, ms: seq<Match>)
    decreases |ms|
  {
    if ms == [] then i == |s|
    else
      i < |s| && 0 < DigitsFrom(s, i) && i + DigitsFrom(s, i) < |s|
      && NumberAt(s, i, DigitsFrom(s, i)) == ms[0].value
      && s[i + DigitsFrom(s, i)] == ms[0].unit && IsUnit(ms[0].unit)
      && Scans(s, i + DigitsFrom(s, i) + 1, ms[1..])
  }

  /** On such a string the scan finds exactly those matches. */
  lemma {:induction false} ScansMatches(s: string, i: nat, ms: seq<Match>)
    requires Scans(s, i, ms)
    ensures i <= |s| && Matches(s, i) == ms
    decreases |ms|
  {
    if ms == [] {
      assert Matches(s, |s|) == [];
    } else {
      var n := DigitsFrom(s, i);
      assert MatchAt(s, i) == Some(n);
      MatchesStep(s, i);
      ScansMatches(s, i + n + 1, ms[1..]);
      assert ms == [ms[0]] + ms[1..];
    }
  }

  lemma ScansCons(s: string, i: nat, m: Match, ms: seq<Match>)
    requires i < |s| && 0 < DigitsFrom(s, i) && i + DigitsFrom(s, i) < |s|
    requires NumberAt(s, i, DigitsFrom(s, i)) == m.value && s[i + DigitsFrom(s, i)] == m.unit && IsUnit(m.unit)
    requires Scans(s, i + DigitsFrom(s, i) + 1, ms)
    ensures Scans(s, i, [m] + ms)
  {
    assert ([m] + ms)[0] == m && ([m] + ms)[1..] == ms;
  }

  /** A run of digits that a unit ends is measured and read as such. */
  lemma RunIn(s: string, i: nat, digits: string)
    requires AllDigits(digits) && SpeltAt(s, i, digits) && i + |digits| < |s| && IsUnit(s[i + |digits|])
    ensures DigitsFrom(s, i) == |digits| && NumberAt(s, i, |digits|) == DecimalValue(digits)
  {
    DigitsFromOfRun(s, i, digits);
    NumberAtDigits(s, i, digits);
  }

  /** A string holds its middle part where that part begins. */
  lemma SpeltInMiddle(pre: string, digits: string, post: string)
    ensures SpeltAt(pre + digits + post, |pre|, digits)
  {
  }

  /** Two runs of digits a and b, each followed by its unit, fill s from i. */
  lemma ScansOfTwo(s: string, i: nat, a: string, u: char, b: string, v: char)
    requires a != [] && AllDigits(a) && b != [] && AllDigits(b) && IsUnit(u) && IsUnit(v)
    requires |s| == i + |a| + |b| + 2
    requires SpeltAt(s, i, a) && s[i + |a|] == u && SpeltAt(s, i + |a| + 1, b) && s[i + |a| + 1 + |b|] == v
    ensures Scans(s, i, [Match(DecimalValue(a), u), Match(DecimalValue(b), v)])
  {
    var j := i + |a| + 1;
    RunIn(s, i, a);
    RunIn(s, j, b);
    ScansCons(s, j, Match(DecimalValue(b), v), []);
    ScansCons(s, i, Match(DecimalValue(a), u), [Match(DecimalValue(b), v)]);
  }

  lemma LayoutOfTwo(text: string, a: string, u: char, b: string, v: char)
    ensures var s := text + a + [u] + b + [v];
            |s| == |text| + |a| + |b| + 2 && SpeltAt(s, |text|, a) && s[|text| + |a|] == u
            && SpeltAt(s, |text| + |a| + 1, b) && s[|text| + |a| + 1 + |b|] == v
  {
    var s := text + a + [u] + b + [v];
    assert s == text + a + ([u] + b + [v]);
    SpeltInMiddle(text, a, [u] + b + [v]);
    assert s == (text + a + [u]) + b + [v];
    SpeltInMiddle(text + a + [u], b, [v]);
  }

  /** The scan of a string that has no digit before i and is filled from
      i by two runs of digits with their units finds exactly those two. */
  lemma MatchesOfTwoIn(s: string, i: nat, a: string, u: char, b: string, v: char)
    requires a != [] && AllDigits(a) && b != [] && AllDigits(b) && IsUnit(u) && IsUnit(v)
    requires |s| == i + |a| + |b| + 2 && forall k :: 0 <= k < i ==> !IsDigit(s[k])
    requires SpeltAt(s, i, a) && s[i + |a|] == u && SpeltAt(s, i + |a| + 1, b) && s[i + |a| + 1 + |b|] == v
    ensures Matches(s, 0) == [Match(DecimalValue(a), u), Match(DecimalValue(b), v)]
  {
    NoMatchesIn(s, 0, i);
    ScansOfTwo(s, i, a, u, b, v);
    ScansMatches(s, i, [Match(DecimalValue(a), u), Match(DecimalValue(b), v)]);
  }

  /** The scan of text without digits, then two runs of digits with their
      units, finds exactly those two matches. */
  lemma MatchesOfTwo(text: string, a: string, u: char, b: string, v: char)
    requires forall k :: 0 <= k < |text| ==> !IsDigit(text[k])
    requires a != [] && AllDigits(a) && b != [] && AllDigits(b) && IsUnit(u) && IsUnit(v)
    ensures Matches(text + a + [u] + b + [v], 0) == [Match(DecimalValue(a), u), Match(DecimalValue(b), v)]
  {
    var s := text + a + [u] + b + [v];
    LayoutOfTwo(text, a, u, b, v);
    assert forall k :: 0 <= k < |text| ==> s[k] == text[k];
    MatchesOfTwoIn(s, |text|, a, u, b, v);
  }

  /** Where the three numbers and units stand in "<d>d<h>h<m>m". */
  lemma LayoutOfThree(d: string, h: string, m: string)
    ensures var s := d + "d" + h + "h" + m + "m";
            |s| == |d| + |h| + |m| + 3 && SpeltAt(s, 0, d) && s[|d|] == 'd'
            && SpeltAt(s, |d| + 1, h) && s[|d| + 1 + |h|] == 'h'
            && SpeltAt(s, |d| + |h| + 2, m) && s[|d| + |h| + 2 + |m|] == 'm'
  {
    var s := d + "d" + h + "h" + m + "m";
    assert s == [] + d + ("d" + h + "h" + m + "m");
    SpeltInMiddle([], d, "d" + h + "h" + m + "m");
    LayoutOfTwo(d + "d", h, 'h', m, 'm');
  }

  /** The scan of "<d>d<h>h<m>m", for runs of digits d, h and m, finds
      exactly those three matches. */
  lemma MatchesOfThree(d: string, h: string, m: string)
    requires d != [] && AllDigits(d) && h != [] && AllDigits(h) && m != [] && AllDigits(m)
    ensures Matches(d + "d" + h + "h" + m + "m", 0)
            == [Match(DecimalValue(d), 'd'), Match(DecimalValue(h), 'h'), Match(DecimalValue(m), 'm')]
  {
    var s := d + "d" + h + "h" + m + "m";
    var ms := [Match(DecimalValue(d), 'd'), Match(DecimalValue(h), 'h'), Match(DecimalValue(m), 'm')];
    LayoutOfThree(d, h, m);
    ScansOfTwo(s, |d| + 1, h, 'h', m, 'm');
    RunIn(s, 0, d);
    ScansCons(s, 0, ms[0], ms[1..]);
    assert [ms[0]] + ms[1..] == ms;
    ScansMatches(s, 0, ms);
  }

  /** Reading back the canonical spelling gives the interval again. */
  lemma FormatRoundTrip(iv: Interval)
    ensures Denotes(Format(iv)) == iv
  {
    var d, h, m := DecimalString(iv.days), DecimalString(iv.hours), DecimalString(iv.minutes);
    var ms := Matches(Format(iv), 0);
    assert ms == [Match(iv.days, 'd'), Match(iv.hours, 'h'), Match(iv.minutes, 'm')] by {
      MatchesOfThree(d, h, m);
      DecimalRoundTrip(iv.days);
      DecimalRoundTrip(iv.hours);
      DecimalRoundTrip(iv.minutes);
    }
    assert ms[..2] == [ms[0], ms[1]];
    LastValueOfTwo(ms[0], ms[1], 'd');
    LastValueOfTwo(ms[0], ms[1], 'h');
  }

  /** LastValue of two matches: the second one's number when it has the
      unit, otherwise the first one's, otherwise none. */
  lemma LastValueOfTwo(a: Match, b: Match, unit: char)
    ensures LastValue([a, b], unit) == if b.unit == unit then Some(b.value) else if a.unit == unit then Some(a.value) else None
  {
    var ms := [a, b];
    assert ms[..1] == [a] && [a][..0] == [];
    assert LastValue([a], unit) == if a.unit == unit then Some(a.value) else LastValue([], unit);
    assert LastValue(ms, unit) == if b.unit == unit then Some(b.value) else LastValue([a], unit);
  }

  /** An interval spelt with hours and minutes only, as the scheduling script
      writes "2h30m", after any text without digits: the text is skipped and
      the missing day count is 0. */
  lemma HoursMinutesSpelling(text: string, hours: nat, minutes: nat)
    requires forall k :: 0 <= k < |text| ==> !IsDigit(text[k])
    ensures Denotes(text + DecimalString(hours) + "h" + DecimalString(minutes) + "m") == Interval(0, hours, minutes)
  {
    DecimalRoundTrip(hours);
    DecimalRoundTrip(minutes);
    MatchesOfTwo(text, DecimalString(hours), 'h', DecimalString(minutes), 'm');
    LastValueOfTwo(Match(hours, 'h'), Match(minutes, 'm'), 'd');
    LastValueOfTwo(Match(hours, 'h'), Match(minutes, 'm'), 'h');
    LastValueOfTwo(Match(hours, 'h'), Match(minutes, 'm'), 'm');
  }

  /** An interval spelt with days and hours only, as in "1d4h", after any
      text without digits: the missing minute count is 0. */
  lemma DaysHoursSpelling(text: string, days: nat, hours: nat)
    requires forall k :: 0 <= k < |text| ==> !IsDigit(text[k])
    ensures Denotes(text + DecimalString(days) + "d" + DecimalString(hours) + "h") == Interval(days, hours, 0)
  {
    DecimalRoundTrip(days);
    DecimalRoundTrip(hours);
    MatchesOfTwo(text, DecimalString(days), 'd', DecimalString(hours), 'h');
    LastValueOfTwo(Match(days, 'd'), Match(hours, 'h'), 'd');
    LastValueOfTwo(Match(days, 'd'), Match(hours, 'h'), 'h');
    LastValueOfTwo(Match(days, 'd'), Match(hours, 'h'), 'm');
  }

  lemma ExampleHoursMinutes()
    ensures Denotes("2h30m") == Interval(0, 2, 30)
  {
    HoursMinutesSpelling("", 2, 30);
    assert "" + DecimalString(2) + "h" + DecimalString(30) + "m" == "2h30m";
  }

  lemma ExampleDaysHours()
    ensures Denotes("1d4h") == Interval(1, 4, 0)
  {
    DaysHoursSpelling("", 1, 4);
    assert "" + DecimalString(1) + "d" + DecimalString(4) + "h" == "1d4h";
  }

  lemma ExampleSurroundingText()
    ensures Denotes("every 1d4h") == Interval(1, 4, 0)
  {
    var text := "every ";
    assert forall k :: 0 <= k < |text| ==> text[k] == ' ' || 'a' <= text[k] <= 'z';
    DaysHoursSpelling(text, 1, 4);
    assert text + DecimalString(1) + "d" + DecimalString(4) + "h" == "every 1d4h";
  }

  /** The length of an interval in minutes. */
  function InMinutes(iv: Interval): nat {
    1440 * iv.days + 60 * iv.hours + iv.minutes
  }

  /** generateScheduleTimes(baseTime, interval): a fresh time, moved forward
      by the days, then the hours, then the minutes; baseTime itself is a
      value and stays as it was. */
  method GenerateScheduleTimes(baseTime: int, interval: Interval) returns (nextTime: int)
    ensures nextTime == baseTime + InMinutes(interval)
    ensures nextTime >= baseTime
    ensures interval == Interval(0, 0, 0) ==> nextTime == baseTime
  {
    nextTime := baseTime;
    nextTime := nextTime + 1440 * interval.days;
    nextTime := nextTime + 60 * interval.hours;
    nextTime := nextTime + interval.minutes;
  }
}
