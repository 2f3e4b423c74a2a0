/**
 * `parseDateTime` and `formatHourAmPm` of src/utils.js, and the `startOfHour` that src/App.jsx
 * imports from it (src/utils.js does not define it; here it truncates to the whole hour).
 *
 * `parseDateTime` first runs the global replace `/(\d{4})(\d{1,2}:\d{2})/g -> "$1 $2"`
 * (a space between a year and a glued-on time) and then takes the leftmost match of
 * `/([A-Za-z]{3})\s+(\d{1,2}),\s*(\d{4}),?\s*(\d{1,2}):(\d{2})\s*(am|pm)/i`.
 * From a fixed start position both patterns can match in at most one way: every
 * variable-length part is followed by a character class disjoint from it (digits by
 * ',' or ':', spaces by digits or letters), so backtracking never finds a second
 * match. The hand-written matchers below follow that single path.
 *
 * `new Date(...).getTime()` depends on the host's time zone and date parser; it is
 * the parameter `mk`, which yields `None` where JavaScript yields NaN.
 */
module DateTime {
  import opened Wrappers
  import opened Text

  /** The groups captured by the date pattern; the period is kept as `pm`. */
  datatype DateMatch = DateMatch(mon: string, day: string, year: string, hour: string, minute: string, pm: bool)

  /** The shape every match has: 3 letters, 1-2 digit day, 4 digit year, 1-2 digit hour, 2 digit minute. */
  predicate WellFormed(m: DateMatch) {
    && |m.mon| == 3 && AllLetters(m.mon)
    && 1 <= |m.day| <= 2 && AllDigits(m.day)
    && |m.year| == 4 && AllDigits(m.year)
    && 1 <= |m.hour| <= 2 && AllDigits(m.hour)
    && |m.minute| == 2 && AllDigits(m.minute)
  }

  /** What `parseDateTime` hands to `new Date(...)`: the captured strings, the hour on the 24-hour clock. */
  datatype DateFields = DateFields(mon: string, day: string, year: string, hour: nat, minute: string)

  /** The host's `new Date(text).getTime()`; `None` stands for NaN. */
  type DateCtor = DateFields -> Option<int>

  /** 12-hour clock to 24-hour clock: 12am is 0, 12pm stays 12, any other pm hour gains 12. */
  function To24Hour(hour: nat, pm: bool): (h: nat)
    ensures 1 <= hour <= 12 ==> h < 24 && (h >= 12 <==> pm)
  {
    if pm && hour != 12 then hour + 12
    else if !pm && hour == 12 then 0
    else hour
  }

  /** The hour shown by `formatHourAmPm`: `h % 12 || 12`, and whether the suffix is PM. */
  function ClockHour(h: nat): (r: (nat, bool))
    ensures 1 <= r.0 <= 12
    ensures r.1 <==> h >= 12
  {
    (if h % 12 == 0 then 12 else h % 12, h >= 12)
  }

  /** `formatHourAmPm`: the label of hour `h`, such as "12 AM" or "3 PM". */
  function FormatHourAmPm(h: nat): (r: string)
    ensures |r| >= 4 && AllDigits(r[..|r| - 3])
    ensures r[|r| - 3..] == (if h >= 12 then " PM" else " AM")
    ensures 1 <= DecimalValue(r[..|r| - 3]) <= 12
    ensures h < 24 ==> To24Hour(DecimalValue(r[..|r| - 3]), h >= 12) == h
  {
    var (hour, pm) := ClockHour(h);
    var digits := DecimalString(hour);
    var r := digits + (if pm then " PM" else " AM");
    assert r[..|r| - 3] == digits;
    r
  }

  /** Converting a 12-hour reading to 24 hours and displaying it gives back the reading. */
  lemma ClockHourOfTo24Hour(hour: nat, pm: bool)
    requires 1 <= hour <= 12
    ensures ClockHour(To24Hour(hour, pm)) == (hour, pm)
  {
  }

  /** Every hour of the day is the 24-hour value of its own display. */
  lemma To24HourOfClockHour(h: nat)
    requires h < 24
    ensures To24Hour(ClockHour(h).0, ClockHour(h).1) == h
  {
  }

  // ---------------------------------------------------------------------------
  // The global replace `/(\d{4})(\d{1,2}:\d{2})/g -> "$1 $2"`

  /**
   * Length of the match of `(\d{4})(\d{1,2}:\d{2})` at the front of `s`, 0 if none.
   * The greedy `\d{1,2}` tries two digits first.
   */
  function GluedLength(s: string): (n: nat)
    ensures n == 0 || n == 8 || n == 9
    ensures n <= |s|
    ensures n > 0 ==> AllDigits(s[..5])
  {
    if |s| >= 9 && AllDigits(s[..6]) && s[6] == ':' && IsDigit(s[7]) && IsDigit(s[8]) then
      assert s[..5] == s[..6][..5];
      9
    else if |s| >= 8 && AllDigits(s[..5]) && s[5] == ':' && IsDigit(s[6]) && IsDigit(s[7]) then 8
    else 0
  }

  /** The replace: leftmost matches, non-overlapping, scanning on after each one. */
  function Normalize(s: string): (r: string)
    decreases |s|
  {
    if s == [] then []
    else
      var n := GluedLength(s);
      if n > 0 then s[..4] + " " + s[4..n] + Normalize(s[n..])
      else [s[0]] + Normalize(s[1..])
  }

  /** The replace only inserts spaces, at most one for every eight characters of `s`. */
  lemma {:induction false} NormalizeLength(s: string)
    ensures |s| <= |Normalize(s)| && 8 * |Normalize(s)| <= 9 * |s|
    decreases |s|
  {
    if s != [] {
      var n := GluedLength(s);
      if n > 0 {
        NormalizeLength(s[n..]);
      } else {
        NormalizeLength(s[1..]);
      }
    }
  }

  /** The replace leaves a prefix alone when no match starts inside it. */
  lemma {:induction false} NormalizeKeepsPrefix(s: string, k: nat)
    requires k <= |s|
    requires forall j :: 0 <= j < k ==> GluedLength(s[j..]) == 0
    ensures Normalize(s) == s[..k] + Normalize(s[k..])
  {
    if k > 0 {
      assert GluedLength(s[0..]) == 0;
      assert s[0..] == s;
      forall j | 0 <= j < k - 1 ensures GluedLength(s[1..][j..]) == 0 {
        assert s[1..][j..] == s[j + 1..];
      }
      NormalizeKeepsPrefix(s[1..], k - 1);
      assert s[1..][k - 1..] == s[k..];
      assert s[..k] == [s[0]] + s[1..][..k - 1];
    }
  }

  /** A non-digit within five characters of position `j` rules out a match at `j`. */
  lemma NoGlueNear(s: string, j: nat, t: nat)
    requires j <= t < j + 5 && t < |s|
    requires !IsDigit(s[t])
    ensures GluedLength(s[j..]) == 0
  {
    var u := s[j..];
    assert u[t - j] == s[t];
    if |u| >= 5 {
      assert u[..5][t - j] == s[t];
    }
  }

  /** The replace changes nothing in text without five digits in a row. */
  lemma NormalizeNoGlue(s: string)
    requires forall j :: 0 <= j < |s| ==> GluedLength(s[j..]) == 0
    ensures Normalize(s) == s
  {
    NormalizeKeepsPrefix(s, |s|);
    assert s[..|s|] == s;
  }

  // ---------------------------------------------------------------------------
  // The date pattern

  /** What the pattern captures up to the year, and the position just after the year. */
  datatype DateHead = DateHead(mon: string, day: string, year: string, next: nat)

  /** `([A-Za-z]{3})\s+(\d{1,2}),\s*(\d{4})` matched at position `p` of `s`. */
  function DatePartAt(s: string, p: nat): (r: Option<DateHead>)
    requires p <= |s|
    ensures r.Some? ==> p + 4 <= r.value.next <= |s| && r.value.year == s[r.value.next - 4..r.value.next]
    ensures r.Some? ==> |r.value.mon| == 3 && AllLetters(r.value.mon)
    ensures r.Some? ==> 1 <= |r.value.day| <= 2 && AllDigits(r.value.day)
    ensures r.Some? ==> |r.value.year| == 4 && AllDigits(r.value.year)
  {
    if |s| - p < 3 || !AllLetters(s[p..p + 3]) then None
    else
      var n1 := SpaceRun(s, p + 3);
      if n1 == 0 then None
      else
        var p2 := p + 3 + n1;
        var d := DigitRun(s, p2);
        if !(1 <= d <= 2 && p2 + d < |s| && s[p2 + d] == ',') then None
        else
          var p4 := p2 + d + 1 + SpaceRun(s, p2 + d + 1);
          if DigitRun(s, p4) < 4 then None
          else
            DigitSlice(s, p2, d);
            DigitSlice(s, p4, 4);
            Some(DateHead(s[p..p + 3], s[p2..p2 + d], s[p4..p4 + 4], p4 + 4))
  }

  /** `,?\s*(\d{1,2}):(\d{2})\s*(am|pm)` (case-insensitive) matched at the front of `t`. */
  function TimePart(t: string): (r: Option<(string, string, bool)>)
    ensures r.Some? ==> 1 <= |r.value.0| <= 2 && AllDigits(r.value.0)
    ensures r.Some? ==> |r.value.1| == 2 && AllDigits(r.value.1)
  {
    var q := if t != [] && t[0] == ',' then 1 else 0;
    ClockFrom(t, q + SpaceRun(t, q))
  }

  /** `(\d{1,2}):(\d{2})\s*(am|pm)` matched at position `q1` of `t`. */
  function ClockFrom(t: string, q1: nat): (r: Option<(string, string, bool)>)
    requires q1 <= |t|
    ensures r.Some? ==> 1 <= |r.value.0| <= 2 && AllDigits(r.value.0)
    ensures r.Some? ==> |r.value.1| == 2 && AllDigits(r.value.1)
  {
    var h := DigitRun(t, q1);
    if !(1 <= h <= 2 && q1 + h < |t| && t[q1 + h] == ':') then None
    else
      var q2 := q1 + h + 1;
      if DigitRun(t, q2) < 2 then None
      else
        var q3 := q2 + 2 + SpaceRun(t, q2 + 2);
        if |t| - q3 < 2 then None
        else
          // `am|pm` in any case, read one lower-cased character at a time
          var a, m := ToLower(t[q3]), ToLower(t[q3 + 1]);
          if (a == 'a' || a == 'p') && m == 'm' then
            DigitSlice(t, q1, h);
            DigitSlice(t, q2, 2);
            Some((t[q1..q1 + h], t[q2..q2 + 2], a == 'p'))
          else None
  }

  /** The whole date pattern matched at position `p` of `s`. */
  function MatchAt(s: string, p: nat): (r: Option<DateMatch>)
    requires p <= |s|
    ensures r.Some? ==> WellFormed(r.value)
  {
    match DatePartAt(s, p)
    case None => None
    case Some(head) =>
      match TimePart(s[head.next..])
      case None => None
      case Some((hour, minute, pm)) => Some(DateMatch(head.mon, head.day, head.year, hour, minute, pm))
  }

  /** `s` has four digits in a row at position `j`. */
  predicate FourDigitsAt(s: string, j: int) {
    0 <= j <= |s| - 4 && AllDigits(s[j..j + 4])
  }

  /** Four digits in a row somewhere in `s`: the year the pattern insists on. */
  ghost predicate HasFourDigits(s: string) {
    exists j :: FourDigitsAt(s, j)
  }

  /** The first of `f(p)`, `f(p + 1)`, ..., `f(n)` that holds something: the left-to-right scan of a regular-expression search. */
  function FirstFrom<T>(f: nat -> Option<T>, n: nat, p: nat): Option<T>
    requires p <= n
    decreases n - p
  {
    if f(p).Some? then f(p)
    else if p == n then None
    else FirstFrom(f, n, p + 1)
  }

  /** What the scan finds is the leftmost value at or after `p`. */
  lemma {:induction false} FirstFromLeftmost<T>(f: nat -> Option<T>, n: nat, p: nat)
    requires p <= n && FirstFrom(f, n, p).Some?
    ensures exists i :: p <= i <= n && f(i) == FirstFrom(f, n, p) && forall j :: p <= j < i ==> f(j).None?
    decreases n - p
  {
    if f(p).None? {
      FirstFromLeftmost(f, n, p + 1);
      var i :| p + 1 <= i <= n && f(i) == FirstFrom(f, n, p + 1) && forall j :: p + 1 <= j < i ==> f(j).None?;
      assert forall j :: p <= j < i ==> f(j).None?;
    }
  }

  /** The scan finds nothing exactly when every value it passes is empty. */
  lemma {:induction false} FirstFromNone<T>(f: nat -> Option<T>, n: nat, p: nat)
    requires p <= n
    ensures FirstFrom(f, n, p).None? <==> forall i :: p <= i <= n ==> f(i).None?
    decreases n - p
  {
    if p < n {
      FirstFromNone(f, n, p + 1);
    }
  }

  /** The match at each position of `s`. */
  function MatchesIn(s: string): nat -> Option<DateMatch> {
    (i: nat) => if i <= |s| then MatchAt(s, i) else None
  }

  /** The leftmost match at or after position `p`. */
  function FindFrom(s: string, p: nat): (r: Option<DateMatch>)
    requires p <= |s|
    ensures r.Some? ==> WellFormed(r.value)
  {
    var r := FirstFrom(MatchesIn(s), |s|, p);
    if r.None? then r
    else
      FirstFromLeftmost(MatchesIn(s), |s|, p);
      r
  }

  /** A search that finds something finds the leftmost position at or after `p` where the pattern matches. */
  lemma FindFromLeftmost(s: string, p: nat)
    requires p <= |s| && FindFrom(s, p).Some?
    ensures exists i :: p <= i <= |s| && MatchAt(s, i) == FindFrom(s, p) && forall j :: p <= j < i ==> MatchAt(s, j).None?
  {
    FirstFromLeftmost(MatchesIn(s), |s|, p);
    var i :| p <= i <= |s| && MatchesIn(s)(i) == FindFrom(s, p) && forall j :: p <= j < i ==> MatchesIn(s)(j).None?;
    assert forall j :: p <= j < i ==> MatchAt(s, j) == MatchesIn(s)(j);
  }

  /** The search finds nothing exactly when the pattern matches nowhere at or after `p`. */
  lemma FindFromNone(s: string, p: nat)
    requires p <= |s|
    ensures FindFrom(s, p).None? <==> forall i :: p <= i <= |s| ==> MatchAt(s, i).None?
  {
    FirstFromNone(MatchesIn(s), |s|, p);
    assert forall i :: p <= i <= |s| ==> MatchAt(s, i) == MatchesIn(s)(i);
  }

  /** The fields handed to the date constructor for a match. */
  function Fields(m: DateMatch): DateFields
    requires WellFormed(m)
  {
    DateFields(m.mon, m.day, m.year, To24Hour(DecimalValue(m.hour), m.pm), m.minute)
  }

  /** `parseDateTime`: the timestamp of the first date in `text`, or `None` (JavaScript's null). */
  function ParseDateTime(text: string, mk: DateCtor): (r: Option<int>)
    ensures r.Some? ==> exists m :: WellFormed(m) && r == mk(Fields(m))
  {
    match FindFrom(Normalize(text), 0)
    case None => None
    case Some(m) => mk(Fields(m))
  }

  /** Without four digits in a row the replace has nothing to match. */
  lemma NoGlueWithoutYear(s: string, j: nat)
    requires !HasFourDigits(s) && j < |s|
    ensures GluedLength(s[j..]) == 0
  {
    if |s| - j >= 5 {
      assert !FourDigitsAt(s, j);
      var t :| 0 <= t < 4 && !IsDigit(s[j..j + 4][t]);
      NoGlueNear(s, j, j + t);
    }
  }

  /** A match covers four digits of the text: its year. */
  lemma MatchHasYear(s: string, i: nat)
    requires i <= |s| && MatchAt(s, i).Some?
    ensures HasFourDigits(s)
  {
    var head := DatePartAt(s, i).value;
    assert FourDigitsAt(s, head.next - 4);
  }

  /** Text without four digits in a row never yields a date. */
  lemma NoYearNoDate(text: string, mk: DateCtor)
    requires !HasFourDigits(text)
    ensures ParseDateTime(text, mk) == None
  {
    forall j | 0 <= j < |text| ensures GluedLength(text[j..]) == 0 {
      NoGlueWithoutYear(text, j);
    }
    NormalizeNoGlue(text);
    forall i | 0 <= i <= |text| ensures MatchAt(text, i).None? {
      if MatchAt(text, i).Some? {
        MatchHasYear(text, i);
      }
    }
    FindFromNone(text, 0);
  }

  // ---------------------------------------------------------------------------
  // Round trip through the printed form

  function PeriodText(pm: bool): string { if pm then "pm" else "am" }

  /** `Mon D, ` as an export prints it. */
  function Head(m: DateMatch): string { m.mon + " " + m.day + ", " }

  /** `H:MMam` or `H:MMpm`. */
  function Time(m: DateMatch): string { m.hour + ":" + m.minute + PeriodText(m.pm) }

  /** A date fragment as an export prints it, with `sep` between the year and the time. */
  function Render(m: DateMatch, sep: string): string { Head(m) + (m.year + (sep + Time(m))) }

  predicate Separator(sep: string) { sep == ", " || sep == " " || sep == "" }

  /** The characters of `Head(m) + m.year + rest`, position by position. */
  predicate HeadLayout(s: string, m: DateMatch, rest: string)
    requires WellFormed(m)
  {
    var dl := |m.day|;
    && |s| == 10 + dl + |rest|
    && (forall k :: 0 <= k < 3 ==> s[k] == m.mon[k])
    && s[3] == ' '
    && (forall k :: 0 <= k < dl ==> s[4 + k] == m.day[k])
    && s[4 + dl] == ',' && s[5 + dl] == ' '
    && (forall k :: 0 <= k < 4 ==> s[6 + dl + k] == m.year[k])
    && s[10 + dl..] == rest
  }

  lemma HeadLayoutOf(m: DateMatch, rest: string)
    requires WellFormed(m)
    ensures HeadLayout(Head(m) + (m.year + rest), m, rest)
  {
    var s := Head(m) + (m.year + rest);
    assert s == m.mon + (" " + (m.day + (", " + (m.year + rest))));
  }

  /** The first half of the pattern finds the printed month, day and year, whatever follows. */
  lemma DatePartOfLayout(s: string, m: DateMatch, rest: string)
    requires WellFormed(m) && HeadLayout(s, m, rest)
    ensures DatePartAt(s, 0) == Some(DateHead(m.mon, m.day, m.year, 10 + |m.day|))
  {
    var dl := |m.day|;
    assert s[0..3] == m.mon && AllLetters(s[0..3]);
    DayFields(s, m, rest);
    YearFields(s, m, rest);
    assert 1 <= dl <= 2 && 4 + dl < |s| && s[4 + dl] == ',';
  }

  /** The single space and the day digits of a printed date, ended by its comma. */
  lemma DayFields(s: string, m: DateMatch, rest: string)
    requires WellFormed(m) && HeadLayout(s, m, rest)
    ensures SpaceRun(s, 3) == 1
    ensures DigitRun(s, 4) == |m.day| && s[4..4 + |m.day|] == m.day
  {
    var dl := |m.day|;
    assert IsDigit(m.day[0]);
    SpaceRunIs(s, 3, 1);
    forall j | 4 <= j < 4 + dl ensures IsDigit(s[j]) {
      assert s[4 + (j - 4)] == m.day[j - 4];
    }
    DigitRunIs(s, 4, dl);
    assert s[4..4 + dl] == m.day;
  }

  /** The single space after the comma and the four year digits of a printed date. */
  lemma YearFields(s: string, m: DateMatch, rest: string)
    requires WellFormed(m) && HeadLayout(s, m, rest)
    ensures SpaceRun(s, 5 + |m.day|) == 1
    ensures DigitRun(s, 6 + |m.day|) >= 4 && s[6 + |m.day|..10 + |m.day|] == m.year
  {
    var p := 6 + |m.day|;
    assert s[p] == m.year[0] && s[p + 1] == m.year[1] && s[p + 2] == m.year[2] && s[p + 3] == m.year[3];
    assert IsDigit(s[p]) && IsDigit(s[p + 1]) && IsDigit(s[p + 2]) && IsDigit(s[p + 3]);
    SpaceRunIs(s, p - 1, 1);
    DigitRunAtLeast(s, p, 4);
    assert s[p..p + 4] == [m.year[0], m.year[1], m.year[2], m.year[3]] == m.year;
  }

  /** The characters of `H:MMam` from position `q1` of `t` to its end. */
  predicate ClockLayout(t: string, m: DateMatch, q1: nat)
    requires WellFormed(m)
  {
    var hl := |m.hour|;
    && |t| == q1 + hl + 5
    && (forall k :: 0 <= k < hl ==> t[q1 + k] == m.hour[k])
    && t[q1 + hl] == ':'
    && t[q1 + hl + 1] == m.minute[0] && t[q1 + hl + 2] == m.minute[1]
    && t[q1 + hl + 3..] == PeriodText(m.pm)
  }

  /** The characters of `sep + Time(m)`, position by position. */
  predicate TimeLayout(t: string, m: DateMatch, sep: string)
    requires WellFormed(m)
  {
    && |sep| <= |t|
    && (forall k :: 0 <= k < |sep| ==> t[k] == sep[k])
    && ClockLayout(t, m, |sep|)
  }

  lemma TimeLayoutOf(m: DateMatch, sep: string)
    requires WellFormed(m)
    ensures TimeLayout(sep + Time(m), m, sep)
  {
    var t := sep + Time(m);
    assert t == sep + (m.hour + (":" + (m.minute + PeriodText(m.pm))));
  }

  /** The time half of the pattern reads the printed hour, minute and period of `H:MMam` at position `q1`. */
  lemma ClockFromLayout(t: string, m: DateMatch, q1: nat)
    requires WellFormed(m) && ClockLayout(t, m, q1)
    ensures ClockFrom(t, q1) == Some((m.hour, m.minute, m.pm))
  {
    ClockDigits(t, m, q1);
    ClockPeriod(t, m, q1);
    var q3 := q1 + |m.hour| + 3;
    var a, c := ToLower(t[q3]), ToLower(t[q3 + 1]);
    assert (a == 'a' || a == 'p') && c == 'm' && (a == 'p' <==> m.pm);
  }

  /** The hour and minute digits of a printed `H:MMam` at position `q1`. */
  lemma ClockDigits(t: string, m: DateMatch, q1: nat)
    requires WellFormed(m) && ClockLayout(t, m, q1)
    ensures DigitRun(t, q1) == |m.hour|
    ensures DigitRun(t, q1 + |m.hour| + 1) >= 2
    ensures t[q1..q1 + |m.hour|] == m.hour
    ensures t[q1 + |m.hour| + 1..q1 + |m.hour| + 3] == m.minute
  {
    HourDigits(t, m, q1);
    var q2 := q1 + |m.hour| + 1;
    assert t[q2] == m.minute[0] && t[q2 + 1] == m.minute[1];
    assert IsDigit(t[q2]) && IsDigit(t[q2 + 1]);
    DigitRunAtLeast(t, q2, 2);
    assert t[q2..q2 + 2] == [m.minute[0], m.minute[1]] == m.minute;
  }

  /** The hour digits of a printed `H:MMam` at position `q1`, ended by its colon. */
  lemma HourDigits(t: string, m: DateMatch, q1: nat)
    requires WellFormed(m) && ClockLayout(t, m, q1)
    ensures DigitRun(t, q1) == |m.hour|
    ensures t[q1..q1 + |m.hour|] == m.hour
  {
    var hl := |m.hour|;
    forall j | q1 <= j < q1 + hl ensures IsDigit(t[j]) {
      assert t[q1 + (j - q1)] == m.hour[j - q1];
    }
    DigitRunIs(t, q1, hl);
    assert t[q1..q1 + hl] == m.hour;
  }

  /** The period of a printed `H:MMam` at position `q1` follows the minutes with no space. */
  lemma ClockPeriod(t: string, m: DateMatch, q1: nat)
    requires WellFormed(m) && ClockLayout(t, m, q1)
    ensures SpaceRun(t, q1 + |m.hour| + 3) == 0
    ensures ToLower(t[q1 + |m.hour| + 3]) == (if m.pm then 'p' else 'a') && ToLower(t[q1 + |m.hour| + 4]) == 'm'
  {
    var q3 := q1 + |m.hour| + 3;
    var period := PeriodText(m.pm);
    assert t[q3] == period[0] && t[q3 + 1] == period[1];
  }

  /** The optional comma and the white space before the hour take up exactly the separator. */
  lemma SeparatorSkipped(t: string, m: DateMatch, sep: string)
    requires WellFormed(m) && Separator(sep) && TimeLayout(t, m, sep)
    ensures var q := if t != [] && t[0] == ',' then 1 else 0;
            q <= |t| && q + SpaceRun(t, q) == |sep|
  {
    assert IsDigit(t[|sep|]) by {
      assert t[|sep| + 0] == m.hour[0];
    }
    if sep == ", " {
      SpaceRunIs(t, 1, 1);
    } else if sep == " " {
      SpaceRunIs(t, 0, 1);
    } else {
      SpaceRunIs(t, 0, 0);
    }
  }

  /** The second half of the pattern finds the printed hour, minute and period after any separator. */
  lemma TimePartOfLayout(t: string, m: DateMatch, sep: string)
    requires WellFormed(m) && Separator(sep) && TimeLayout(t, m, sep)
    ensures TimePart(t) == Some((m.hour, m.minute, m.pm))
  {
    SeparatorSkipped(t, m, sep);
    ClockFromLayout(t, m, |sep|);
  }

  /** `MatchAt` in terms of its two halves. */
  lemma MatchAtIs(s: string, m: DateMatch, next: nat)
    requires next <= |s|
    requires DatePartAt(s, 0) == Some(DateHead(m.mon, m.day, m.year, next))
    requires TimePart(s[next..]) == Some((m.hour, m.minute, m.pm))
    ensures MatchAt(s, 0) == Some(m)
  {
  }

  /** The date half of the pattern reads the printed month, day and year. */
  lemma DatePartRendered(m: DateMatch, rest: string)
    requires WellFormed(m)
    ensures DatePartAt(Head(m) + (m.year + rest), 0) == Some(DateHead(m.mon, m.day, m.year, 10 + |m.day|))
  {
    HeadLayoutOf(m, rest);
    DatePartOfLayout(Head(m) + (m.year + rest), m, rest);
  }

  /** The time half of the pattern reads the printed hour, minute and period. */
  lemma TimePartRendered(m: DateMatch, sep: string)
    requires WellFormed(m) && Separator(sep)
    ensures TimePart(sep + Time(m)) == Some((m.hour, m.minute, m.pm))
  {
    TimeLayoutOf(m, sep);
    TimePartOfLayout(sep + Time(m), m, sep);
  }

  /** The pattern finds exactly the rendered fields at the start of the rendered text. */
  lemma MatchRendered(m: DateMatch, sep: string)
    requires WellFormed(m) && Separator(sep)
    ensures MatchAt(Render(m, sep), 0) == Some(m)
  {
    var s, next := Render(m, sep), 10 + |m.day|;
    assert next <= |s| && s[next..] == sep + Time(m) by {
      RenderTail(m, sep);
    }
    assert DatePartAt(s, 0) == Some(DateHead(m.mon, m.day, m.year, next)) by {
      DatePartRendered(m, sep + Time(m));
    }
    assert TimePart(s[next..]) == Some((m.hour, m.minute, m.pm)) by {
      TimePartRendered(m, sep);
    }
    MatchAtIs(s, m, next);
  }

  /** After the date half, a rendered date continues with the separator and the time. */
  lemma RenderTail(m: DateMatch, sep: string)
    requires WellFormed(m)
    ensures 10 + |m.day| <= |Render(m, sep)| && Render(m, sep)[10 + |m.day|..] == sep + Time(m)
  {
  }

  /** No match of the replace starts inside the printed `Mon D, `. */
  lemma NoGlueInHead(m: DateMatch, s: string)
    requires WellFormed(m) && StartsWith(s, Head(m))
    ensures forall j :: 0 <= j < |Head(m)| ==> GluedLength(s[j..]) == 0
  {
    var dl := |m.day|;
    assert s[..|Head(m)|] == Head(m);
    assert s[3] == ' ' && s[4 + dl] == ',' && s[5 + dl] == ' ';
    forall j | 0 <= j < |Head(m)| ensures GluedLength(s[j..]) == 0 {
      if j < 3 {
        assert s[j] == m.mon[j];
        NoGlueNear(s, j, j);
      } else if j == 3 {
        NoGlueNear(s, j, 3);
      } else {
        NoGlueNear(s, j, 4 + dl + (if j == 5 + dl then 1 else 0));
      }
    }
  }

  /** No match of the replace starts inside the printed time `H:MMam`. */
  lemma NoGlueInTime(m: DateMatch, s: string, t: nat)
    requires WellFormed(m) && t <= |s| && s[t..] == Time(m)
    ensures forall j :: t <= j < |s| ==> GluedLength(s[j..]) == 0
  {
    var hl := |m.hour|;
    assert s[t + hl] == ':';
    assert s[t + hl + 3] == PeriodText(m.pm)[0];
    assert s[t + hl + 4] == PeriodText(m.pm)[1];
    forall j | t <= j < |s| ensures GluedLength(s[j..]) == 0 {
      if j <= t + hl {
        NoGlueNear(s, j, t + hl);
      } else if j <= t + hl + 3 {
        NoGlueNear(s, j, t + hl + 3);
      } else {
        NoGlueNear(s, j, j);
      }
    }
  }

  /** The rendered text with a non-empty separator has no glued year and time. */
  lemma NormalizeSpaced(m: DateMatch, sep: string)
    requires WellFormed(m) && (sep == ", " || sep == " ")
    ensures Normalize(Render(m, sep)) == Render(m, sep)
  {
    var s := Render(m, sep);
    var y := |Head(m)|;
    var t := y + 4 + |sep|;
    NoGlueInHead(m, s);
    assert s[t..] == Time(m);
    NoGlueInTime(m, s, t);
    assert s[y + 4] == sep[0];
    forall j | y <= j < t ensures GluedLength(s[j..]) == 0 {
      NoGlueNear(s, j, if j <= y + 4 then y + 4 else j);
    }
    NormalizeNoGlue(s);
  }

  /** A year glued to the time is one match of the replace. */
  lemma GluedLengthOfYearTime(m: DateMatch)
    requires WellFormed(m)
    ensures GluedLength(m.year + Time(m)) == 7 + |m.hour|
  {
    var g := m.year + Time(m);
    var hl := |m.hour|;
    assert g == m.year + (m.hour + (":" + (m.minute + PeriodText(m.pm))));
    assert g[4] == m.hour[0] && g[4 + hl] == ':';
    assert g[5 + hl] == m.minute[0] && g[6 + hl] == m.minute[1];
    if hl == 2 {
      assert g[5] == m.hour[1];
      assert g[..6] == m.year + m.hour;
    } else {
      assert g[..5] == m.year + m.hour;
    }
  }

  /** The replace turns `YYYYH:MMam` into `YYYY H:MMam`. */
  lemma NormalizeYearTime(m: DateMatch)
    requires WellFormed(m)
    ensures Normalize(m.year + Time(m)) == m.year + (" " + Time(m))
  {
    var g := m.year + Time(m);
    var n := 7 + |m.hour|;
    GluedLengthOfYearTime(m);
    var period := PeriodText(m.pm);
    assert g == m.year + (m.hour + ":" + m.minute) + period;
    assert g[n..] == period && g[..4] == m.year && g[4..n] == m.hour + ":" + m.minute;
    assert Normalize(g) == g[..4] + " " + g[4..n] + Normalize(g[n..]);
    PeriodUnchanged(m.pm);
  }

  /** The replace leaves "am" and "pm" alone. */
  lemma PeriodUnchanged(pm: bool)
    ensures Normalize(PeriodText(pm)) == PeriodText(pm)
  {
    var period := PeriodText(pm);
    forall j | 0 <= j < |period| ensures GluedLength(period[j..]) == 0 {
      NoGlueNear(period, j, j);
    }
    NormalizeNoGlue(period);
  }

  /** The replace puts a space between a year and a glued-on time, and changes nothing else. */
  lemma NormalizeGlued(m: DateMatch)
    requires WellFormed(m)
    ensures Normalize(Render(m, "")) == Render(m, " ")
  {
    var s := Render(m, "");
    var y := |Head(m)|;
    var g := m.year + Time(m);
    assert s == Head(m) + g;
    NoGlueInHead(m, s);
    NormalizeKeepsPrefix(s, y);
    assert s[..y] == Head(m) && s[y..] == g;
    NormalizeYearTime(m);
  }

  /** A printed date parses to the fields it was printed from, whichever separator precedes the time. */
  lemma ParseRendered(m: DateMatch, sep: string, mk: DateCtor)
    requires WellFormed(m) && Separator(sep)
    ensures ParseDateTime(Render(m, sep), mk) == mk(Fields(m))
  {
    if sep == "" {
      NormalizeGlued(m);
      MatchRendered(m, " ");
    } else {
      NormalizeSpaced(m, sep);
      MatchRendered(m, sep);
    }
  }

  /** A four-digit year glued to the time (`20243:45`) parses the same as the spaced form. */
  lemma GluedParsesAsSpaced(m: DateMatch, mk: DateCtor)
    requires WellFormed(m)
    ensures ParseDateTime(Render(m, ""), mk) == ParseDateTime(Render(m, " "), mk)
  {
    ParseRendered(m, "", mk);
    ParseRendered(m, " ", mk);
  }

  // ---------------------------------------------------------------------------
  // startOfHour

  const MillisPerHour: int := 3600000

  /** `startOfHour`: the timestamp truncated to the whole hour (minutes, seconds, milliseconds zeroed). */
  function StartOfHour(ts: int): (r: int)
    ensures r <= ts < r + MillisPerHour
    ensures r % MillisPerHour == 0
  {
    ts - ts % MillisPerHour
  }

  /** The bucket of a timestamp is the whole hour it lies in, and no other. */
  lemma SameHour(h: int, ts: int)
    requires h % MillisPerHour == 0
    ensures StartOfHour(ts) == h <==> h <= ts < h + MillisPerHour
  {
    var q := h / MillisPerHour;
    assert h == q * MillisPerHour;
    if h <= ts < h + MillisPerHour {
      var r := ts - h;
      assert ts == q * MillisPerHour + r && 0 <= r < MillisPerHour;
      assert ts / MillisPerHour == q;
    }
  }
}
