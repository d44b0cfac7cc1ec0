/**
 * The two half-month ranges of server2.js that the schedules feed to the
 * sync: set A runs from the 26th of the previous month to the 10th of the
 * current one, set B from the 11th to the 25th. "Now" is a parameter: the
 * clock's local year and month (`getMonth()` counts January as 0).
 */
module Presets {

  type Month = m: int | 0 <= m < 12

  /** A local calendar date as the preset ranges build it from year, month and day. */
  datatype CivilDate = CivilDate(year: int, month: Month, day: int)

  predicate IsLeapYear(y: int)
  {
    y % 4 == 0 && (y % 100 != 0 || y % 400 == 0)
  }

  function DaysInMonth(year: int, month: Month): (n: int)
    ensures 28 <= n <= 31
  {
    if month == 1 then (if IsLeapYear(year) then 29 else 28)
    else if month in {3, 5, 8, 10} then 30
    else 31
  }

  /** A date that names an existing day, so the Date constructor does not roll it over. */
  predicate ValidDate(d: CivilDate)
  {
    1 <= d.day <= DaysInMonth(d.year, d.month)
  }

  /** Months counted from year 0, so consecutive months differ by one across a year end. */
  function MonthIndex(d: CivilDate): int
  {
    d.year * 12 + d.month
  }

  /** `a` is on or before `b` in the calendar. */
  predicate NotAfter(a: CivilDate, b: CivilDate)
  {
    MonthIndex(a) < MonthIndex(b) || (MonthIndex(a) == MonthIndex(b) && a.day <= b.day)
  }

  predicate InSpan(d: CivilDate, start: CivilDate, end: CivilDate)
  {
    NotAfter(start, d) && NotAfter(d, end)
  }

  datatype Range = Range(start: CivilDate, end: CivilDate)

  /** `getRangeSetA`: the 26th of the month before (December of the year before in January) to the 10th. */
  function RangeSetA(year: int, month: Month): (r: Range)
    ensures r.end == CivilDate(year, month, 10)
    ensures r.start.day == 26 && MonthIndex(r.start) == MonthIndex(r.end) - 1
    ensures ValidDate(r.start) && ValidDate(r.end) && NotAfter(r.start, r.end)
  {
    var startMonth := if month == 0 then 11 else month - 1;
    var startYear := if month == 0 then year - 1 else year;
    Range(CivilDate(startYear, startMonth, 26), CivilDate(year, month, 10))
  }

  /** `getRangeSetB`: the 11th to the 25th of the current month. */
  function RangeSetB(year: int, month: Month): (r: Range)
    ensures r.start == CivilDate(year, month, 11) && r.end == CivilDate(year, month, 25)
    ensures ValidDate(r.start) && ValidDate(r.end) && NotAfter(r.start, r.end)
  {
    Range(CivilDate(year, month, 11), CivilDate(year, month, 25))
  }

  /** The month after `(year, month)`. */
  function NextMonth(year: int, month: Month): (r: (int, Month))
    ensures r.0 * 12 + r.1 == year * 12 + month + 1
  {
    if month == 11 then (year + 1, 0) else (year, month + 1)
  }

  /**
   * The two sets of one month tile the span from the previous month's 26th
   * to this month's 25th: every day of it lies in exactly one of them.
   */
  lemma SetsPartitionMonth(year: int, month: Month, d: CivilDate)
    ensures var a := RangeSetA(year, month);
            var b := RangeSetB(year, month);
            InSpan(d, a.start, b.end) <==> InSpan(d, a.start, a.end) || InSpan(d, b.start, b.end)
    ensures !(InSpan(d, RangeSetA(year, month).start, RangeSetA(year, month).end)
              && InSpan(d, RangeSetB(year, month).start, RangeSetB(year, month).end))
  {
  }

  /**
   * Consecutive periods leave no gap: set B ends on the 25th and the next
   * month's set A starts on the 26th of the same month.
   */
  lemma PeriodsAdjacent(year: int, month: Month)
    ensures var next := NextMonth(year, month);
            var b := RangeSetB(year, month);
            var a := RangeSetA(next.0, next.1);
            a.start == CivilDate(b.end.year, b.end.month, b.end.day + 1)
  {
  }
}
