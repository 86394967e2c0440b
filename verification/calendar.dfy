/**
 The run date and the early-January grace window. The script reads the
 clock once; here the date is an input. The prior year's yearly file may
 still be rebuilt during the first five days of January, to pick up late
 source files for the last days of December.
 */
module Calendar {

  /** A calendar date as Python's `datetime` carries it. */
  datatype Date = Date(year: int, month: int, day: int)

  predicate IsLeapYear(y: int) {
    y % 4 == 0 && (y % 100 != 0 || y % 400 == 0)
  }

  function DaysInMonth(y: int, m: int): (n: int)
    requires 1 <= m <= 12
    ensures 28 <= n <= 31
  {
    if m == 2 then (if IsLeapYear(y) then 29 else 28)
    else if m == 4 || m == 6 || m == 9 || m == 11 then 30
    else 31
  }

  /** The dates `datetime` can represent: years 1 to 9999 of the Gregorian calendar. */
  predicate ValidDate(d: Date) {
    && 1 <= d.year <= 9999
    && 1 <= d.month <= 12
    && 1 <= d.day <= DaysInMonth(d.year, d.month)
  }

  /** The `firstfive` flag: January, before the sixth. */
  predicate FirstFive(d: Date) {
    d.month == 1 && d.day < 6
  }

  /** Every valid date of year `y` on which the flag is raised. */
  ghost function GraceDays(y: int): set<Date> {
    set m: int, dd: int | 1 <= m <= 12 && 1 <= dd <= 31 && ValidDate(Date(y, m, dd)) && FirstFive(Date(y, m, dd))
      :: Date(y, m, dd)
  }

  /**
   On a valid date the flag holds exactly on January 1 to 5: January 6 and
   every later day of the year do not raise it.
   */
  lemma FirstFiveOnValidDates(d: Date)
    requires ValidDate(d)
    ensures FirstFive(d) <==> d.month == 1 && 1 <= d.day <= 5
    ensures d.month == 1 && d.day == 6 ==> !FirstFive(d)
  {
  }

  /** The grace window of any representable year is exactly five days long. */
  lemma GraceWindowIsFiveDays(y: int)
    requires 1 <= y <= 9999
    ensures GraceDays(y) == {Date(y, 1, 1), Date(y, 1, 2), Date(y, 1, 3), Date(y, 1, 4), Date(y, 1, 5)}
    ensures |GraceDays(y)| == 5
  {
    var window := {Date(y, 1, 1), Date(y, 1, 2), Date(y, 1, 3), Date(y, 1, 4), Date(y, 1, 5)};
    forall d | d in GraceDays(y)
      ensures d in window
    {
      assert d.year == y && d.month == 1 && 1 <= d.day <= 5;
    }
    forall k | 1 <= k <= 5
      ensures Date(y, 1, k) in GraceDays(y)
    {
      assert ValidDate(Date(y, 1, k)) && FirstFive(Date(y, 1, k));
    }
    assert GraceDays(y) == window;
  }
}
