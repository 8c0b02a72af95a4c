/** Calendar days. A `Date` object that the application only ever uses at a day's
    granularity is modelled as a day ordinal; what its local getters
    (`getFullYear`, `getMonth`, `getDate`) report is a `Civil` triple. */
module Dates {

  /** Days since 1970-01-01 (local time), so `d + 7` is `addDays(d, 7)`. */
  type Day = int

  /** A local calendar date as JavaScript reports it: the month is ZERO-based. */
  datatype Civil = Civil(year: int, month: int, day: int)

  predicate IsLeapYear(y: int) {
    y % 4 == 0 && (y % 100 != 0 || y % 400 == 0)
  }

  /** Length of the zero-based `month` of `year` in the proleptic Gregorian calendar. */
  function DaysInMonth(year: int, month: int): int
    requires 0 <= month < 12
  {
    if month == 1 then (if IsLeapYear(year) then 29 else 28)
    else if month == 3 || month == 5 || month == 8 || month == 10 then 30
    else 31
  }

  /** The triple names a day that exists. */
  predicate IsValid(c: Civil) {
    0 <= c.month < 12 && 1 <= c.day <= DaysInMonth(c.year, c.month)
  }

  /** Chronological order of two calendar dates. */
  predicate Before(a: Civil, b: Civil) {
    || a.year < b.year
    || (a.year == b.year && a.month < b.month)
    || (a.year == b.year && a.month == b.month && a.day < b.day)
  }

  /** The calendar day before `c`: the previous day of the month, the last day of
      the previous month, or 31 December of the previous year. */
  function PreviousDay(c: Civil): (p: Civil)
    requires IsValid(c)
    ensures IsValid(p) && Before(p, c)
    ensures p.year == c.year || (p.year == c.year - 1 && p.month == 11 && p.day == 31)
  {
    if c.day > 1 then Civil(c.year, c.month, c.day - 1)
    else if c.month > 0 then Civil(c.year, c.month - 1, DaysInMonth(c.year, c.month - 1))
    else Civil(c.year - 1, 11, 31)
  }

  /** The local calendar date of a day ordinal (the Gregorian conversion behind
      JavaScript's `Date` getters, written with floor division). */
  function CivilFromDays(d: Day): Civil {
    var z := d + 719468;
    var era := z / 146097;
    var doe := z % 146097;
    var yoe := (doe - doe / 1460 + doe / 36524 - doe / 146096) / 365;
    var doy := doe - (365 * yoe + yoe / 4 - yoe / 100);
    var mp := (5 * doy + 2) / 153;
    var dayOfMonth := doy - (153 * mp + 2) / 5 + 1;
    var month := if mp < 10 then mp + 3 else mp - 9;
    var year := yoe + era * 400 + (if month <= 2 then 1 else 0);
    Civil(year, month - 1, dayOfMonth)
  }

  /** Position of `d` in a Monday-first week: 0 is Monday, 6 is Sunday
      (1970-01-01 was a Thursday). */
  function Weekday(d: Day): int {
    (d + 3) % 7
  }

  /** `startOfWeek(d, { weekStartsOn: 1 })`: the Monday on or before `d`. */
  function StartOfWeek(d: Day): (monday: Day)
    ensures Weekday(monday) == 0
    ensures monday <= d < monday + 7
  {
    d - Weekday(d)
  }

  /** The day `i` days after a Monday is weekday `i`. */
  lemma WeekdayAfterMonday(monday: Day, i: int)
    requires Weekday(monday) == 0 && 0 <= i < 7
    ensures Weekday(monday + i) == i
  {
    var q := (monday + 3) / 7;
    assert monday + 3 == 7 * q;
    ModOfMultiplePlus(q, i);
  }

  /** Every day of a Monday-first week has the same week start. */
  lemma SameWeekSameStart(d: Day, e: Day)
    requires StartOfWeek(d) <= e < StartOfWeek(d) + 7
    ensures StartOfWeek(e) == StartOfWeek(d)
  {
    WeekdayAfterMonday(StartOfWeek(d), e - StartOfWeek(d));
  }

  /** Whole weeks later, the weekday is the same. */
  lemma WeekdayShift(d: Day, k: int)
    ensures Weekday(d + 7 * k) == Weekday(d)
  {
    var q := (d + 3) / 7;
    ModOfMultiplePlus(q + k, Weekday(d));
  }

  /** A week later, the week starts a week later. */
  lemma NextWeekStart(d: Day)
    ensures StartOfWeek(d + 7) == StartOfWeek(d) + 7
  {
    WeekdayShift(d, 1);
  }

  lemma ModOfMultiplePlus(q: int, k: int)
    requires 0 <= k < 7
    ensures (7 * q + k) % 7 == k
  {
    var a := 7 * q + k;
    var q', k' := a / 7, a % 7;
    assert 7 * (q - q') == k' - k;
  }
}
