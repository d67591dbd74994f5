/** The stored text form of a time and its epoch seconds (src/lumi/experiment/db.py, lines 21-84), and the time
    window compared on the text (lines 456-464). */
module Timestamps {
  import opened Common

  // ----- the calendar -----------------------------------------------------------------------

  predicate IsLeap(y: nat) {
    y % 4 == 0 && (y % 100 != 0 || y % 400 == 0)
  }

  function YearLength(y: nat): nat {
    if IsLeap(y) then 366 else 365
  }

  /** Days of the year before a month; month 13 stands for the next year. */
  function DaysBeforeMonth(leap: bool, m: nat): nat
    requires 1 <= m <= 13
  {
    [0, 31, 59, 90, 120, 151, 181, 212, 243, 273, 304, 334, 365][m - 1] + (if leap && m > 2 then 1 else 0)
  }

  function MonthLength(leap: bool, m: nat): nat
    requires 1 <= m <= 12
  {
    if m == 2 then (if leap then 29 else 28) else if m in [4, 6, 9, 11] then 30 else 31
  }

  lemma MonthsAddUp(leap: bool, m: nat)
    requires 1 <= m <= 12
    ensures DaysBeforeMonth(leap, m + 1) == DaysBeforeMonth(leap, m) + MonthLength(leap, m)
  {
  }

  /** Days from the start of 1970 to the start of a year. */
  function DaysBefore(y: nat): nat
    requires y >= 1970
  {
    if y == 1970 then 0 else DaysBefore(y - 1) + YearLength(y - 1)
  }

  /** A time of day on a date. */
  datatype Stamp = Stamp(year: nat, month: nat, day: nat, hour: nat, minute: nat, second: nat)

  predicate IsValid(t: Stamp) {
    && 1970 <= t.year <= 9999 && 1 <= t.month <= 12 && 1 <= t.day <= MonthLength(IsLeap(t.year), t.month)
    && t.hour < 24 && t.minute < 60 && t.second < 60
  }

  function DayOf(t: Stamp): nat
    requires IsValid(t)
  {
    DaysBefore(t.year) + DaysBeforeMonth(IsLeap(t.year), t.month) + t.day - 1
  }

  function SecondOfDay(t: Stamp): (s: nat)
    requires IsValid(t)
    ensures s < 86400
  {
    t.hour * 3600 + t.minute * 60 + t.second
  }

  function Epoch(t: Stamp): nat
    requires IsValid(t)
  {
    DayOf(t) * 86400 + SecondOfDay(t)
  }

  // ----- from epoch seconds to a date ---------------------------------------------------------

  function YearAt(day: nat, y: nat): nat
    decreases day
  {
    if day < YearLength(y) then y else YearAt(day - YearLength(y), y + 1)
  }

  function MonthAt(leap: bool, dayOfYear: nat, m: nat): nat
    requires 1 <= m <= 12
  {
    if m == 1 || DaysBeforeMonth(leap, m) <= dayOfYear then m else MonthAt(leap, dayOfYear, m - 1)
  }

  lemma {:induction false} YearAtHolds(day: nat, y: nat)
    requires y >= 1970
    ensures var y' := YearAt(day, y);
            y' >= y && DaysBefore(y') <= DaysBefore(y) + day < DaysBefore(y' + 1)
    decreases day
  {
    if day >= YearLength(y) {
      YearAtHolds(day - YearLength(y), y + 1);
    }
  }

  lemma {:induction false} DaysBeforeGrows(y: nat, y': nat)
    requires 1970 <= y <= y'
    ensures DaysBefore(y) <= DaysBefore(y')
    ensures y < y' ==> DaysBefore(y) + YearLength(y) <= DaysBefore(y')
  {
    if y < y' {
      DaysBeforeGrows(y, y' - 1);
      assert DaysBefore(y') == DaysBefore(y' - 1) + YearLength(y' - 1);
    }
  }

  lemma {:induction false} MonthAtHolds(leap: bool, dayOfYear: nat, m: nat)
    requires 1 <= m <= 12 && dayOfYear < DaysBeforeMonth(leap, m + 1)
    ensures var m' := MonthAt(leap, dayOfYear, m);
            1 <= m' <= m && DaysBeforeMonth(leap, m') <= dayOfYear < DaysBeforeMonth(leap, m' + 1)
  {
    if m != 1 && dayOfYear < DaysBeforeMonth(leap, m) {
      MonthAtHolds(leap, dayOfYear, m - 1);
    }
  }

  /** Whole seconds from 1970 through the year 9999. */
  predicate InRange(s: int) {
    0 <= s && s / 86400 < DaysBefore(10000)
  }

  function StampOfDay(day: nat, second: nat): Stamp {
    var year := YearAt(day, 1970);
    YearAtHolds(day, 1970);
    var dayOfYear := day - DaysBefore(year);
    var month := MonthAt(IsLeap(year), dayOfYear, 12);
    MonthAtHolds(IsLeap(year), dayOfYear, 12);
    Stamp(year, month, dayOfYear - DaysBeforeMonth(IsLeap(year), month) + 1, second / 3600, second / 60 % 60, second % 60)
  }

  function StampOf(s: nat): Stamp {
    StampOfDay(s / 86400, s % 86400)
  }

  lemma StampOfDayIsValid(day: nat, second: nat)
    requires day < DaysBefore(10000) && second < 86400
    ensures IsValid(StampOfDay(day, second))
    ensures DayOf(StampOfDay(day, second)) == day && SecondOfDay(StampOfDay(day, second)) == second
  {
    var year := YearAt(day, 1970);
    YearAtHolds(day, 1970);
    if year >= 10000 { DaysBeforeGrows(10000, year); }
    var dayOfYear := day - DaysBefore(year);
    MonthAtHolds(IsLeap(year), dayOfYear, 12);
    MonthsAddUp(IsLeap(year), MonthAt(IsLeap(year), dayOfYear, 12));
    SplitSeconds(second);
  }

  lemma SplitSeconds(second: nat)
    requires second < 86400
    ensures second / 3600 < 24 && second / 60 % 60 < 60 && second / 3600 * 3600 + second / 60 % 60 * 60 + second % 60 == second
  {
    var minutes := second / 60;
    assert second == minutes * 60 + second % 60;
    assert minutes == minutes / 60 * 60 + minutes % 60;
    assert minutes / 60 == second / 3600;
  }

  /** Every second in range has a date and time, and it is that second's. */
  lemma StampIsOfSecond(s: nat)
    requires InRange(s)
    ensures IsValid(StampOf(s)) && Epoch(StampOf(s)) == s
  {
    StampOfDayIsValid(s / 86400, s % 86400);
  }

  // ----- order -----------------------------------------------------------------------------------

  predicate DateBefore(t: Stamp, u: Stamp) {
    t.year < u.year || (t.year == u.year && (t.month < u.month || (t.month == u.month && t.day < u.day)))
  }

  predicate SameDate(t: Stamp, u: Stamp) {
    t.year == u.year && t.month == u.month && t.day == u.day
  }

  predicate TimeBefore(t: Stamp, u: Stamp) {
    t.hour < u.hour || (t.hour == u.hour && (t.minute < u.minute || (t.minute == u.minute && t.second < u.second)))
  }

  predicate StampBefore(t: Stamp, u: Stamp) {
    DateBefore(t, u) || (SameDate(t, u) && TimeBefore(t, u))
  }

  lemma {:induction false} MonthsGrow(leap: bool, m: nat, m': nat)
    requires 1 <= m < m' <= 13
    ensures DaysBeforeMonth(leap, m) + MonthLength(leap, m) <= DaysBeforeMonth(leap, m')
  {
    if m' > m + 1 {
      MonthsGrow(leap, m, m' - 1);
      MonthsAddUp(leap, m' - 1);
    } else {
      MonthsAddUp(leap, m);
    }
  }

  lemma DaysFollowDates(t: Stamp, u: Stamp)
    requires IsValid(t) && IsValid(u) && DateBefore(t, u)
    ensures DayOf(t) < DayOf(u)
  {
    if t.year < u.year {
      DaysBeforeGrows(t.year, u.year);
      MonthsGrow(IsLeap(t.year), t.month, 13);
    } else if t.month < u.month {
      MonthsGrow(IsLeap(t.year), t.month, u.month);
    }
  }

  lemma EpochFollowsStamps(t: Stamp, u: Stamp)
    requires IsValid(t) && IsValid(u) && StampBefore(t, u)
    ensures Epoch(t) < Epoch(u)
  {
    if DateBefore(t, u) {
      DaysFollowDates(t, u);
    }
  }

  lemma StampsAreOrdered(t: Stamp, u: Stamp)
    ensures t == u || StampBefore(t, u) || StampBefore(u, t)
  {
  }

  /** No two dates and times are the same second. */
  lemma StampsDiffer(t: Stamp, u: Stamp)
    requires IsValid(t) && IsValid(u) && Epoch(t) == Epoch(u)
    ensures t == u
  {
    StampsAreOrdered(t, u);
    if StampBefore(t, u) { EpochFollowsStamps(t, u); }
    if StampBefore(u, t) { EpochFollowsStamps(u, t); }
  }

  /** Months have 30 and 31 days in turn, with July and August both long, but for February. */
  lemma MonthLengthExactly(leap: bool, m: nat)
    requires 1 <= m <= 12
    ensures MonthLength(leap, m) == if m == 2 then (if leap then 29 else 28) else 30 + (m + m / 8) % 2
  {
    assert m in [1, 2, 3, 4, 5, 6, 7, 8, 9, 10, 11, 12];
  }

  // ----- the calendar in closed form ---------------------------------------------------------------

  /** Leap days in the years before `y`, by the Gregorian rule. */
  function LeapDaysBefore(y: nat): int
    requires y > 0
  {
    (y - 1) / 4 - (y - 1) / 100 + (y - 1) / 400
  }

  /** A quotient goes up by one at each multiple. */
  lemma FourthSteps(k: nat)
    ensures (k + 1) / 4 == k / 4 + (if (k + 1) % 4 == 0 then 1 else 0)
  {
  }

  lemma HundredthSteps(k: nat)
    ensures (k + 1) / 100 == k / 100 + (if (k + 1) % 100 == 0 then 1 else 0)
  {
  }

  lemma FourHundredthSteps(k: nat)
    ensures (k + 1) / 400 == k / 400 + (if (k + 1) % 400 == 0 then 1 else 0)
  {
  }

  lemma FourHundredsNest(y: nat, q: nat)
    requires y == 400 * q
    ensures y % 100 == 0
  {
    assert y == 100 * (4 * q);
  }

  lemma HundredsNest(y: nat, q: nat)
    requires y == 100 * q
    ensures y % 4 == 0
  {
    assert y == 4 * (25 * q);
  }

  /** A year has a leap day exactly when the count goes up over it. */
  lemma LeapsExactly(y: nat)
    requires y > 0
    ensures LeapDaysBefore(y + 1) == LeapDaysBefore(y) + (if IsLeap(y) then 1 else 0)
    ensures YearLength(y) == 365 + LeapDaysBefore(y + 1) - LeapDaysBefore(y)
  {
    FourthSteps(y - 1);
    HundredthSteps(y - 1);
    FourHundredthSteps(y - 1);
    if y % 400 == 0 { FourHundredsNest(y, y / 400); }
    if y % 100 == 0 { HundredsNest(y, y / 100); }
  }

  /** Days since 1970 are 365 for each year and its leap days. */
  lemma {:induction false} DaysBeforeExactly(y: nat)
    requires y >= 1970
    ensures DaysBefore(y) == 365 * (y - 1970) + LeapDaysBefore(y) - LeapDaysBefore(1970)
  {
    if y > 1970 {
      DaysBeforeExactly(y - 1);
      LeapsExactly(y - 1);
    }
  }

  /** So four hundred years are 146097 days, and a century that is not a fourth one has one leap day fewer. */
  lemma CenturiesAreLong(y: nat)
    requires y >= 1970
    ensures DaysBefore(y + 400) == DaysBefore(y) + 146097
  {
    DaysBeforeExactly(y);
    DaysBeforeExactly(y + 400);
    FourHundredYears(y - 1);
  }

  lemma FourHundredYears(k: nat)
    ensures (k + 400) / 4 - (k + 400) / 100 + (k + 400) / 400 == k / 4 - k / 100 + k / 400 + 97
  {
    FourHundredMore(k);
    assert (k + 400) / 400 == k / 400 + 1;
  }

  lemma FourHundredMore(k: nat)
    ensures (k + 400) / 4 == k / 4 + 100 && (k + 400) / 100 == k / 100 + 4
  {
  }
}
