/** Calendar days as the pipeline uses them: Python `datetime` values at
    midnight, stepped one day at a time, written as `MM-DD-YYYY`. */
module Dates {
  import opened Wrappers

  datatype Date = Date(year: int, month: int, day: int)

  predicate IsLeapYear(y: int) {
    y % 4 == 0 && (y % 100 != 0 || y % 400 == 0)
  }

  function DaysInMonth(y: int, m: int): int {
    if m == 2 then (if IsLeapYear(y) then 29 else 28)
    else if m == 4 || m == 6 || m == 9 || m == 11 then 30
    else 31
  }

  /** A date Python's `datetime` can represent (years 1 to 9999). */
  predicate Valid(d: Date) {
    1 <= d.year <= 9999 && 1 <= d.month <= 12 && 1 <= d.day <= DaysInMonth(d.year, d.month)
  }

  /** `d + timedelta(days=1)`. The day after 9999-12-31 is not a valid date. */
  function NextDay(d: Date): Date {
    if d.day < DaysInMonth(d.year, d.month) then Date(d.year, d.month, d.day + 1)
    else if d.month < 12 then Date(d.year, d.month + 1, 1)
    else Date(d.year + 1, 1, 1)
  }

  /** Comparison of two `datetime` values at midnight: year, then month, then day. */
  predicate Le(a: Date, b: Date) {
    a.year < b.year || (a.year == b.year && (a.month < b.month || (a.month == b.month && a.day <= b.day)))
  }

  predicate Lt(a: Date, b: Date) {
    Le(a, b) && a != b
  }

  // ---------------------------------------------------------------------------
  // Day numbers: the position of a date on the calendar, used to measure ranges.

  function DaysInYear(y: int): int {
    if IsLeapYear(y) then 366 else 365
  }

  function DaysBeforeYear(y: int): nat
    decreases y
  {
    if y <= 1 then 0 else DaysBeforeYear(y - 1) + DaysInYear(y - 1)
  }

  function DaysBeforeMonth(y: int, m: int): int {
    var feb := if IsLeapYear(y) then 29 else 28;
    if m <= 1 then 0
    else if m == 2 then 31
    else if m == 3 then 31 + feb
    else if m == 4 then 62 + feb
    else if m == 5 then 92 + feb
    else if m == 6 then 123 + feb
    else if m == 7 then 153 + feb
    else if m == 8 then 184 + feb
    else if m == 9 then 215 + feb
    else if m == 10 then 245 + feb
    else if m == 11 then 276 + feb
    else if m == 12 then 306 + feb
    else 337 + feb
  }

  /** Days elapsed since 0001-01-01. */
  function DayNumber(d: Date): int {
    DaysBeforeYear(d.year) + DaysBeforeMonth(d.year, d.month) + d.day - 1
  }

  lemma MonthStep(y: int, m: int)
    requires 1 <= m <= 12
    ensures DaysBeforeMonth(y, m + 1) == DaysBeforeMonth(y, m) + DaysInMonth(y, m)
  {
  }

  lemma MonthBounds(y: int, m: int, m': int)
    requires 1 <= m < m' <= 13
    ensures DaysBeforeMonth(y, m) + DaysInMonth(y, m) <= DaysBeforeMonth(y, m')
  {
  }

  lemma {:induction false} YearBounds(y: int, y': int)
    requires 1 <= y < y'
    ensures DaysBeforeYear(y) + DaysInYear(y) <= DaysBeforeYear(y')
    decreases y' - y
  {
    if y + 1 < y' {
      YearBounds(y + 1, y');
    }
  }

  /** Every valid date's day number falls inside its own year. */
  lemma InYear(d: Date)
    requires Valid(d)
    ensures DaysBeforeYear(d.year) <= DayNumber(d) < DaysBeforeYear(d.year) + DaysInYear(d.year)
  {
    MonthBounds(d.year, d.month, 13);
  }

  /** On valid dates the calendar comparison is the comparison of day numbers. */
  lemma LeIffDayNumber(a: Date, b: Date)
    requires Valid(a) && Valid(b)
    ensures Le(a, b) <==> DayNumber(a) <= DayNumber(b)
  {
    InYear(a);
    InYear(b);
    if a.year < b.year {
      YearBounds(a.year, b.year);
    } else if b.year < a.year {
      YearBounds(b.year, a.year);
    } else if a.month < b.month {
      MonthBounds(a.year, a.month, b.month);
    } else if b.month < a.month {
      MonthBounds(a.year, b.month, a.month);
    }
  }

  /** Two valid dates with the same day number are the same date. */
  lemma DayNumberInjective(a: Date, b: Date)
    requires Valid(a) && Valid(b) && DayNumber(a) == DayNumber(b)
    ensures a == b
  {
    LeIffDayNumber(a, b);
    LeIffDayNumber(b, a);
  }

  /** Stepping a day moves one position along the calendar, and the next day
      is valid unless the date is the last one `datetime` can hold. */
  lemma NextDayStep(d: Date)
    requires Valid(d)
    ensures DayNumber(NextDay(d)) == DayNumber(d) + 1
    ensures Lt(d, NextDay(d))
    ensures d != Date(9999, 12, 31) ==> Valid(NextDay(d))
  {
    if d.day == DaysInMonth(d.year, d.month) {
      if d.month < 12 {
        MonthStep(d.year, d.month);
      } else {
        MonthStep(d.year, 12);
      }
    }
  }

  // ---------------------------------------------------------------------------
  // Ranges of days: what `while current_date <= end_date: ... += timedelta(days=1)` visits.

  function DaysFrom(start: Date, end: Date): (r: seq<Date>)
    requires Valid(start) && Valid(end)
    ensures forall i :: 0 <= i < |r| ==> Valid(r[i])
    decreases DayNumber(end) - DayNumber(start)
  {
    if !Le(start, end) then []
    else if start == end then [start]
    else
      NextDayStep(start);
      LeIffDayNumber(start, end);
      [start] + DaysFrom(NextDay(start), end)
  }

  /** The range holds every day from `start` to `end` inclusive, consecutive
      and in increasing order; it is empty when `start` comes after `end`. */
  lemma {:induction false} DaysFromSpec(start: Date, end: Date)
    requires Valid(start) && Valid(end)
    ensures |DaysFrom(start, end)| == if Le(start, end) then DayNumber(end) - DayNumber(start) + 1 else 0
    ensures forall i :: 0 <= i < |DaysFrom(start, end)| ==>
              Valid(DaysFrom(start, end)[i]) && DayNumber(DaysFrom(start, end)[i]) == DayNumber(start) + i
              && Le(start, DaysFrom(start, end)[i]) && Le(DaysFrom(start, end)[i], end)
    decreases DayNumber(end) - DayNumber(start)
  {
    LeIffDayNumber(start, end);
    if Le(start, end) && start != end {
      NextDayStep(start);
      var next := NextDay(start);
      DaysFromSpec(next, end);
      var r := DaysFrom(start, end);
      assert r == [start] + DaysFrom(next, end);
      forall i | 0 <= i < |r|
        ensures Valid(r[i]) && DayNumber(r[i]) == DayNumber(start) + i && Le(start, r[i]) && Le(r[i], end)
      {
        if i > 0 {
          LeIffDayNumber(start, r[i]);
        }
      }
    }
  }

  /** Every valid day between `start` and `end` is visited, at the position its
      day number gives, and no day is visited twice. */
  lemma DaysFromComplete(start: Date, end: Date, d: Date)
    requires Valid(start) && Valid(end) && Valid(d)
    requires Le(start, d) && Le(d, end)
    ensures 0 <= DayNumber(d) - DayNumber(start) < |DaysFrom(start, end)|
    ensures DaysFrom(start, end)[DayNumber(d) - DayNumber(start)] == d
  {
    LeIffDayNumber(start, d);
    LeIffDayNumber(d, end);
    LeIffDayNumber(start, end);
    DaysFromSpec(start, end);
    var r := DaysFrom(start, end);
    var i := DayNumber(d) - DayNumber(start);
    DayNumberInjective(r[i], d);
  }

  lemma DaysFromIncreasing(start: Date, end: Date, i: int, j: int)
    requires Valid(start) && Valid(end)
    requires 0 <= i < j < |DaysFrom(start, end)|
    ensures Lt(DaysFrom(start, end)[i], DaysFrom(start, end)[j])
  {
    DaysFromSpec(start, end);
    var r := DaysFrom(start, end);
    LeIffDayNumber(r[i], r[j]);
  }

  /** Inside a range, stepping a day moves to the next element. */
  lemma DaysFromNext(start: Date, end: Date, k: int)
    requires Valid(start) && Valid(end)
    requires 0 <= k && k + 1 < |DaysFrom(start, end)|
    ensures NextDay(DaysFrom(start, end)[k]) == DaysFrom(start, end)[k + 1]
  {
    DaysFromSpec(start, end);
    var r := DaysFrom(start, end);
    var a := r[k];
    assert a != Date(9999, 12, 31) by {
      LeIffDayNumber(r[k + 1], Date(9999, 12, 31));
    }
    NextDayStep(a);
    DayNumberInjective(NextDay(a), r[k + 1]);
  }

  /** A non-empty range ends at `end`, and the day after it is past `end`;
      an empty range starts past `end`. */
  lemma DaysFromEnd(start: Date, end: Date)
    requires Valid(start) && Valid(end)
    ensures |DaysFrom(start, end)| == 0 ==> !Le(start, end)
    ensures |DaysFrom(start, end)| > 0 ==>
              DaysFrom(start, end)[0] == start
              && DaysFrom(start, end)[|DaysFrom(start, end)| - 1] == end && !Le(NextDay(end), end)
  {
    DaysFromSpec(start, end);
    var r := DaysFrom(start, end);
    LeIffDayNumber(start, end);
    if |r| > 0 {
      DayNumberInjective(r[0], start);
      DayNumberInjective(r[|r| - 1], end);
      NextDayStep(end);
    }
  }

  /** One step of the day loop: after trying the k-th day of the range, the
      next day is the (k+1)-th, or is past the end when the range is used up. */
  lemma StepDay(start: Date, end: Date, k: int)
    requires Valid(start) && Valid(end)
    requires 0 <= k < |DaysFrom(start, end)|
    ensures k + 1 < |DaysFrom(start, end)| ==> NextDay(DaysFrom(start, end)[k]) == DaysFrom(start, end)[k + 1]
    ensures k + 1 == |DaysFrom(start, end)| ==> !Le(NextDay(DaysFrom(start, end)[k]), end)
    ensures Valid(DaysFrom(start, end)[k]) && Le(DaysFrom(start, end)[k], end)
  {
    DaysFromSpec(start, end);
    DaysFromEnd(start, end);
    if k + 1 < |DaysFrom(start, end)| {
      DaysFromNext(start, end, k);
    }
  }

  /** Where a loop `while current <= end: ...; current += timedelta(days=1)`
      stands: the days tried so far are the first ones of the range, and
      `current` is the next one, or past `end` once the range is used up. */
  ghost predicate OnSchedule(all: seq<Date>, tried: seq<Date>, current: Date, end: Date) {
    |tried| <= |all| && tried == all[..|tried|]
    && (|tried| < |all| ==> current == all[|tried|] && Le(current, end))
    && (|tried| == |all| ==> !Le(current, end))
  }

  lemma ScheduleStart(start: Date, end: Date)
    requires Valid(start) && Valid(end)
    ensures OnSchedule(DaysFrom(start, end), [], start, end)
  {
    DaysFromEnd(start, end);
  }

  /** Trying `current` and stepping to the next day keeps the loop on schedule. */
  lemma ScheduleStep(start: Date, end: Date, tried: seq<Date>, current: Date)
    requires Valid(start) && Valid(end)
    requires OnSchedule(DaysFrom(start, end), tried, current, end) && Le(current, end)
    ensures Valid(current) && current == DaysFrom(start, end)[|tried|]
    ensures OnSchedule(DaysFrom(start, end), tried + [current], NextDay(current), end)
  {
    var all := DaysFrom(start, end);
    var k := |tried|;
    StepDay(start, end, k);
    if k + 1 < |all| {
      StepDay(start, end, k + 1);
    }
    ScheduleAdvance(all, tried, current, end);
  }

  /** The same step, for any list of days in which each day is followed by the
      next one. */
  lemma ScheduleAdvance(all: seq<Date>, tried: seq<Date>, current: Date, end: Date)
    requires OnSchedule(all, tried, current, end) && Le(current, end)
    requires |tried| + 1 < |all| ==> NextDay(all[|tried|]) == all[|tried| + 1] && Le(all[|tried| + 1], end)
    requires |tried| + 1 == |all| ==> !Le(NextDay(all[|tried|]), end)
    ensures |tried| < |all| && current == all[|tried|]
    ensures OnSchedule(all, tried + [current], NextDay(current), end)
  {
    var k := |tried|;
    assert all[..k + 1] == all[..k] + [all[k]];
  }

  /** When the loop ends, every day of the range has been tried, in order. */
  lemma ScheduleEnd(start: Date, end: Date, tried: seq<Date>, current: Date)
    requires Valid(start) && Valid(end)
    requires OnSchedule(DaysFrom(start, end), tried, current, end) && !Le(current, end)
    ensures tried == DaysFrom(start, end)
  {
  }

  // ---------------------------------------------------------------------------
  // The `%m-%d-%Y` text form.

  function DigitChar(n: int): char
    requires 0 <= n <= 9
  {
    ('0' as int + n) as char
  }

  predicate IsDigit(c: char) {
    '0' <= c <= '9'
  }

  function DigitValue(c: char): int
    requires IsDigit(c)
  {
    c as int - '0' as int
  }

  /** `n` written with exactly `width` decimal digits, zero-padded. */
  function Padded(n: nat, width: nat): (s: string)
    ensures |s| == width
    ensures forall i :: 0 <= i < |s| ==> IsDigit(s[i])
  {
    if width == 0 then [] else Padded(n / 10, width - 1) + [DigitChar(n % 10)]
  }

  function DigitsValue(s: string): nat
    requires forall i :: 0 <= i < |s| ==> IsDigit(s[i])
  {
    if s == [] then 0 else 10 * DigitsValue(s[..|s| - 1]) + DigitValue(s[|s| - 1])
  }

  function Pow10(k: nat): nat {
    if k == 0 then 1 else 10 * Pow10(k - 1)
  }

  lemma {:induction false} PaddedValue(n: nat, width: nat)
    requires n < Pow10(width)
    ensures DigitsValue(Padded(n, width)) == n
  {
    if width > 0 {
      var s := Padded(n, width);
      assert s[..|s| - 1] == Padded(n / 10, width - 1);
      PaddedValue(n / 10, width - 1);
    }
  }

  lemma {:induction false} ValuePadded(s: string)
    requires forall i :: 0 <= i < |s| ==> IsDigit(s[i])
    ensures 0 <= DigitsValue(s) < Pow10(|s|)
    ensures Padded(DigitsValue(s), |s|) == s
  {
    if s != [] {
      var init := s[..|s| - 1];
      ValuePadded(init);
      var n := DigitsValue(s);
      assert n / 10 == DigitsValue(init) && n % 10 == DigitValue(s[|s| - 1]);
      assert s == init + [s[|s| - 1]];
    }
  }

  /** `strftime("%m-%d-%Y")`. */
  function Format(d: Date): (s: string)
    requires Valid(d)
    ensures |s| == 10 && s[2] == '-' && s[5] == '-'
  {
    Padded(d.month, 2) + "-" + Padded(d.day, 2) + "-" + Padded(d.year, 4)
  }

  /** `strptime(s, "%m-%d-%Y")`, for the zero-padded form; None when `s` is
      not of that form or names no calendar day. */
  function Parse(s: string): (r: Option<Date>)
    ensures r.Some? ==> Valid(r.value)
  {
    if |s| == 10 && s[2] == '-' && s[5] == '-'
       && (forall i :: 0 <= i < 10 && i != 2 && i != 5 ==> IsDigit(s[i]))
    then
      var d := Date(DigitsValue(s[6..10]), DigitsValue(s[0..2]), DigitsValue(s[3..5]));
      if Valid(d) then Some(d) else None
    else None
  }

  /** Parsing undoes formatting. */
  lemma ParseFormat(d: Date)
    requires Valid(d)
    ensures Parse(Format(d)) == Some(d)
  {
    var s := Format(d);
    assert s[0..2] == Padded(d.month, 2);
    assert s[3..5] == Padded(d.day, 2);
    assert s[6..10] == Padded(d.year, 4);
    assert Pow10(2) == 100 && Pow10(4) == 10000;
    PaddedValue(d.month, 2);
    PaddedValue(d.day, 2);
    PaddedValue(d.year, 4);
  }

  /** Formatting undoes parsing: a name that parses is the canonical name of its date. */
  lemma FormatParse(s: string)
    requires Parse(s).Some?
    ensures Format(Parse(s).value) == s
  {
    var d := Parse(s).value;
    ValuePadded(s[0..2]);
    ValuePadded(s[3..5]);
    ValuePadded(s[6..10]);
    assert s == s[0..2] + "-" + s[3..5] + "-" + s[6..10];
  }

  /** Distinct dates have distinct names. */
  lemma FormatInjective(a: Date, b: Date)
    requires Valid(a) && Valid(b) && Format(a) == Format(b)
    ensures a == b
  {
    ParseFormat(a);
    ParseFormat(b);
  }

  /** A formatted date is made of digits and dashes only. */
  lemma FormatCharacters(d: Date)
    requires Valid(d)
    ensures forall i :: 0 <= i < |Format(d)| ==> IsDigit(Format(d)[i]) || Format(d)[i] == '-'
  {
    var s := Format(d);
    assert s[0..2] == Padded(d.month, 2);
    assert s[3..5] == Padded(d.day, 2);
    assert s[6..10] == Padded(d.year, 4);
    forall i | 0 <= i < 10 ensures IsDigit(s[i]) || s[i] == '-' {
      if i < 2 { assert s[i] == s[0..2][i]; }
      else if 2 < i < 5 { assert s[i] == s[3..5][i - 3]; }
      else if 5 < i { assert s[i] == s[6..10][i - 6]; }
    }
  }
}
