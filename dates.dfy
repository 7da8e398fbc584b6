/**
 * Calendar days under the Gregorian calendar, instants within a day, the
 * list of days of a month, and the RFC 3339 `full-date` text of a day.
 */
module Dates {
  import opened Strings

  /** A calendar day, identified by year, month (1..12) and day of month. */
  datatype Date = Date(year: int, month: int, day: int)

  /**
   * The Gregorian leap-year rule. Dafny's `%` is Euclidean, JavaScript's
   * truncates, but the two agree on whether the remainder is zero.
   */
  predicate IsLeapYear(y: int) {
    y % 4 == 0 && (y % 100 != 0 || y % 400 == 0)
  }

  function DaysInMonth(y: int, m: int): (n: int)
    requires 1 <= m <= 12
    ensures 28 <= n <= 31
  {
    if m == 2 then (if IsLeapYear(y) then 29 else 28)
    else if m == 4 || m == 6 || m == 9 || m == 11 then 30
    else 31
  }

  predicate IsValid(d: Date) {
    1 <= d.month <= 12 && 1 <= d.day <= DaysInMonth(d.year, d.month)
  }

  /** Strict chronological order of days. */
  predicate Before(a: Date, b: Date) {
    a.year < b.year
    || (a.year == b.year && (a.month < b.month || (a.month == b.month && a.day < b.day)))
  }

  /** The following calendar day: the same month, else the next month, else the next year. */
  function NextDay(d: Date): (r: Date)
    requires IsValid(d)
    ensures IsValid(r)
  {
    if d.day < DaysInMonth(d.year, d.month) then Date(d.year, d.month, d.day + 1)
    else if d.month < 12 then Date(d.year, d.month + 1, 1)
    else Date(d.year + 1, 1, 1)
  }

  /** NextDay is the successor: later than `d`, and no valid day lies strictly between. */
  lemma NextDayIsSuccessor(d: Date, e: Date)
    requires IsValid(d) && IsValid(e)
    ensures Before(d, NextDay(d))
    ensures Before(d, e) ==> e == NextDay(d) || Before(NextDay(d), e)
  {
  }

  /**
   * A moment on the local clock: its calendar day and the milliseconds
   * since that day's midnight.
   */
  datatype Instant = Instant(date: Date, millis: int)

  /** date-fns `isSameDay`: compares the calendar day and nothing else. */
  predicate IsSameDay(a: Instant, b: Instant) {
    a.date == b.date
  }

  /** Local midnight of a day, as date-fns builds the days of an interval. */
  function StartOfDay(d: Date): Instant {
    Instant(d, 0)
  }

  /**
   * `eachDayOfInterval({ start: startOfMonth(s), end: endOfMonth(s) })`:
   * midnight of every day of the month of `s`.
   */
  function MonthDays(s: Instant): seq<Instant>
    requires IsValid(s.date)
  {
    var y, m := s.date.year, s.date.month;
    seq(DaysInMonth(y, m), i requires 0 <= i < DaysInMonth(y, m) => StartOfDay(Date(y, m, i + 1)))
  }

  /**
   * The month list starts on the 1st, steps one day at a time, stays in the
   * month of `s`, holds `s`'s own day, and ends on the month's last day.
   */
  lemma {:induction false} MonthDaysSpanMonth(s: Instant)
    requires IsValid(s.date)
    ensures var days := MonthDays(s);
      && 28 <= |days|
      && days[0] == StartOfDay(Date(s.date.year, s.date.month, 1))
      && (forall i :: 0 <= i < |days| ==>
            IsValid(days[i].date) && days[i].date.year == s.date.year
            && days[i].date.month == s.date.month && days[i].millis == 0)
      && (forall i :: 0 <= i < |days| - 1 ==> days[i + 1].date == NextDay(days[i].date))
      && NextDay(days[|days| - 1].date).day == 1
      && StartOfDay(s.date) in days
  {
    var days, y, m := MonthDays(s), s.date.year, s.date.month;
    var n := DaysInMonth(y, m);
    forall i | 0 <= i < n ensures days[i] == StartOfDay(Date(y, m, i + 1)) && IsValid(days[i].date) {
    }
    assert days[s.date.day - 1] == StartOfDay(s.date);
  }

  /** The RFC 3339 `full-date` text `YYYY-MM-DD` of a day with a four-digit year. */
  function FullDate(d: Date): (s: string)
    requires IsValid(d) && 0 <= d.year < 10000
    ensures |s| == 10 && s[4] == '-' && s[7] == '-'
  {
    Pad4(d.year) + "-" + Pad2(d.month) + "-" + Pad2(d.day)
  }

  /** Distinct days have distinct texts. */
  lemma FullDateInjective(a: Date, b: Date)
    requires IsValid(a) && 0 <= a.year < 10000
    requires IsValid(b) && 0 <= b.year < 10000
    ensures FullDate(a) == FullDate(b) <==> a == b
  {
    if FullDate(a) == FullDate(b) {
      var s, t := FullDate(a), FullDate(b);
      assert s[..4] == Pad4(a.year) && t[..4] == Pad4(b.year);
      assert s[5..7] == Pad2(a.month) && t[5..7] == Pad2(b.month);
      assert s[8..] == Pad2(a.day) && t[8..] == Pad2(b.day);
      Pad4Injective(a.year, b.year);
      Pad2Injective(a.month, b.month);
      Pad2Injective(a.day, b.day);
    }
  }

  /** Comparing `full-date` texts as strings orders days chronologically. */
  lemma FullDateAscending(a: Date, b: Date)
    requires IsValid(a) && 0 <= a.year < 10000
    requires IsValid(b) && 0 <= b.year < 10000
    requires Before(a, b)
    ensures LexLess(FullDate(a), FullDate(b))
  {
    var ra := "-" + Pad2(a.month) + "-" + Pad2(a.day);
    var rb := "-" + Pad2(b.month) + "-" + Pad2(b.day);
    assert FullDate(a) == Pad4(a.year) + ra;
    assert FullDate(b) == Pad4(b.year) + rb;
    if a.year < b.year {
      Pad4Ascending(a.year, b.year);
      LexLessExtend(Pad4(a.year), Pad4(b.year), ra, rb);
    } else {
      var p := Pad4(a.year) + "-";
      var da, db := "-" + Pad2(a.day), "-" + Pad2(b.day);
      assert FullDate(a) == p + (Pad2(a.month) + da);
      assert FullDate(b) == p + (Pad2(b.month) + db);
      if a.month < b.month {
        Pad2Ascending(a.month, b.month);
        LexLessExtend(Pad2(a.month), Pad2(b.month), da, db);
        LexLessCommonPrefix(p, Pad2(a.month) + da, Pad2(b.month) + db);
      } else {
        var q := p + Pad2(a.month) + "-";
        assert FullDate(a) == q + Pad2(a.day);
        assert FullDate(b) == q + Pad2(b.day);
        Pad2Ascending(a.day, b.day);
        LexLessCommonPrefix(q, Pad2(a.day), Pad2(b.day));
      }
    }
  }
}
