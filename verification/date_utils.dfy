/** `client/src/lib/dateUtils.ts`: reading a stored date string as a local
    calendar day, ignoring any time-of-day part. */
module DateUtils {
  import opened Outcomes
  import opened Dates

  /** `s.split(sep)[0]`: the longest prefix of `s` without `sep`. */
  function BeforeFirst(s: string, sep: char): (r: string)
    ensures r <= s
    ensures sep !in r
    ensures |r| < |s| ==> s[|r|] == sep
    decreases |s|
  {
    if s == [] || s[0] == sep then []
    else
      assert s == [s[0]] + s[1..];
      [s[0]] + BeforeFirst(s[1..], sep)
  }

  /** A string without `sep` survives `split(sep)[0]` whole. */
  lemma BeforeFirstWithoutSeparator(s: string, sep: char)
    requires sep !in s
    ensures BeforeFirst(s, sep) == s
  {
    assert forall i | 0 <= i < |s| :: s[i] in s;
  }

  /** Whatever follows the first separator is dropped. */
  lemma BeforeFirstDropsSuffix(d: string, sep: char, rest: string)
    requires sep !in d
    ensures BeforeFirst(d + [sep] + rest, sep) == d
  {
    var s := d + [sep] + rest;
    var r := BeforeFirst(s, sep);
    assert s[|d|] == sep;
    assert forall i | 0 <= i < |d| :: s[i] == d[i] && d[i] != sep;
    assert forall i | 0 <= i < |r| :: r[i] == s[i] && r[i] in r;
    assert r == s[..|r|];
  }

  predicate IsDigit(c: char) {
    '0' <= c <= '9'
  }

  predicate AllDigits(s: string) {
    forall i | 0 <= i < |s| :: IsDigit(s[i])
  }

  function DigitValue(c: char): int
    requires IsDigit(c)
  {
    c as int - '0' as int
  }

  /** `Number(s)` for a non-empty run of decimal digits. */
  function DecimalValue(s: string): nat
    requires AllDigits(s)
    decreases |s|
  {
    if s == [] then 0 else DecimalValue(s[..|s| - 1]) * 10 + DigitValue(s[|s| - 1])
  }

  /** The three numbers `datePart.split('-').map(Number)` yields; the month is one-based. */
  datatype DateNumbers = DateNumbers(year: int, month: int, day: int)

  /** The numbers of a strict `YYYY-MM-DD` text, or None for any other shape. */
  function SplitDateParts(part: string): Option<DateNumbers> {
    if |part| == 10 && part[4] == '-' && part[7] == '-'
       && AllDigits(part[..4]) && AllDigits(part[5..7]) && AllDigits(part[8..])
    then Some(DateNumbers(DecimalValue(part[..4]), DecimalValue(part[5..7]), DecimalValue(part[8..])))
    else None
  }

  /** The year the `Date(year, monthIndex, day)` constructor actually uses: a year
      from 0 to 99 is read as 1900 to 1999. */
  function ConstructorYear(y: int): int {
    if 0 <= y <= 99 then 1900 + y else y
  }

  /** `new Date(year, monthIndex, day)` read back through its local getters; None
      when the arguments do not name an existing day. */
  function LocalDate(year: int, monthIndex: int, day: int): (r: Option<Civil>)
    ensures r.Some? ==> IsValid(r.value)
    ensures r.Some? ==> r.value == Civil(ConstructorYear(year), monthIndex, day)
    ensures IsValid(Civil(ConstructorYear(year), monthIndex, day)) ==> r.Some?
  {
    var y := ConstructorYear(year);
    if 0 <= monthIndex < 12 && 1 <= day <= DaysInMonth(y, monthIndex) then Some(Civil(y, monthIndex, day))
    else None
  }

  /** `parseLocalDate(s)`: an empty string stands for the current date `now`;
      otherwise the text before the first 'T' is read as year, one-based month and
      day. None is an invalid date. */
  function ParseLocalDate(s: string, now: Civil): (r: Option<Civil>)
    ensures s == "" ==> r == Some(now)
    ensures s != "" && r.Some? ==> IsValid(r.value)
  {
    if s == "" then Some(now)
    else
      match SplitDateParts(BeforeFirst(s, 'T'))
      case None => None
      case Some(n) => LocalDate(n.year, n.month - 1, n.day)
  }

  /** `isSameLocalDate(s, compareDate)`: the parsed day has the same year, month
      and day of month as `compareDate`. An invalid date equals no day. */
  function IsSameLocalDate(s: string, compareDate: Civil, now: Civil): (r: bool)
    ensures r <==> ParseLocalDate(s, now) == Some(compareDate)
  {
    match ParseLocalDate(s, now)
    case None => false
    case Some(local) =>
      local.year == compareDate.year && local.month == compareDate.month && local.day == compareDate.day
  }

  // ----- Writing dates back out, to state the parser's round trip -----

  function Pow10(n: nat): nat {
    if n == 0 then 1 else 10 * Pow10(n - 1)
  }

  function Digit(n: int): char
    requires 0 <= n < 10
  {
    ('0' as int + n) as char
  }

  /** `n` in exactly `width` decimal digits, with leading zeros. */
  function Pad(n: nat, width: nat): (s: string)
    ensures |s| == width && AllDigits(s)
  {
    if width == 0 then "" else Pad(n / 10, width - 1) + [Digit(n % 10)]
  }

  lemma {:induction false} PadRoundTrip(n: nat, width: nat)
    requires n < Pow10(width)
    ensures DecimalValue(Pad(n, width)) == n
  {
    if width > 0 {
      var s := Pad(n, width);
      assert s[..|s| - 1] == Pad(n / 10, width - 1);
      assert n / 10 < Pow10(width - 1);
      PadRoundTrip(n / 10, width - 1);
    }
  }

  /** The `YYYY-MM-DD` text of a year, one-based month and day. */
  function FormatDate(year: nat, month: nat, day: nat): string
    requires year < 10000 && month < 100 && day < 100
  {
    Pad(year, 4) + "-" + Pad(month, 2) + "-" + Pad(day, 2)
  }

  /** Parsing a written date gives back that day, with the zero-based month;
      a year from 0 to 99 comes back as 1900 to 1999. */
  lemma ParseFormattedDate(year: nat, month: nat, day: nat, now: Civil)
    requires year < 10000 && 1 <= month <= 12
    requires 1 <= day <= DaysInMonth(ConstructorYear(year), month - 1)
    ensures ParseLocalDate(FormatDate(year, month, day), now) == Some(Civil(ConstructorYear(year), month - 1, day))
    ensures year >= 100 ==> ParseLocalDate(FormatDate(year, month, day), now) == Some(Civil(year, month - 1, day))
  {
    var s := FormatDate(year, month, day);
    assert s[..4] == Pad(year, 4);
    assert s[5..7] == Pad(month, 2);
    assert s[8..] == Pad(day, 2);
    PadRoundTrip(year, 4);
    PadRoundTrip(month, 2);
    PadRoundTrip(day, 2);
    FormattedDateHasNoT(year, month, day);
    BeforeFirstWithoutSeparator(s, 'T');
  }

  /** A written date is digits and dashes only, so it holds no time separator. */
  lemma FormattedDateHasNoT(year: nat, month: nat, day: nat)
    requires year < 10000 && month < 100 && day < 100
    ensures FormatDate(year, month, day) != "" && 'T' !in FormatDate(year, month, day)
  {
    var s := FormatDate(year, month, day);
    forall i | 0 <= i < |s|
      ensures s[i] != 'T'
    {
      if i < 4 {
        assert s[i] == Pad(year, 4)[i];
      } else if 4 < i < 7 {
        assert s[i] == Pad(month, 2)[i - 5];
      } else if 7 < i {
        assert s[i] == Pad(day, 2)[i - 8];
      }
    }
  }

  /** `Date.prototype.toISOString` of the instant `minutes` after midnight UTC on
      the UTC calendar date `u`: `YYYY-MM-DDTHH:mm:00.000Z`. */
  function IsoText(u: Civil, minutes: nat): string
    requires IsValid(u) && 0 <= u.year < 10000 && minutes < 1440
  {
    FormatDate(u.year, u.month + 1, u.day) + "T" + IsoTime(minutes)
  }

  function IsoTime(minutes: nat): string
    requires minutes < 1440
  {
    Pad(minutes / 60, 2) + ":" + Pad(minutes % 60, 2) + ":00.000Z"
  }

  /** `parseLocalDate` of ISO text reads its UTC calendar date as a local date,
      whatever the time of day. */
  lemma ParseIsoText(u: Civil, minutes: nat, now: Civil)
    requires IsValid(u) && 100 <= u.year < 10000 && minutes < 1440
    ensures ParseLocalDate(IsoText(u, minutes), now) == Some(u)
  {
    var date := FormatDate(u.year, u.month + 1, u.day);
    FormattedDateHasNoT(u.year, u.month + 1, u.day);
    TimeSuffixIgnored(date, IsoTime(minutes), now);
    ParseFormattedDate(u.year, u.month + 1, u.day, now);
  }

  /** Everything from the first 'T' on is ignored: `"2026-02-25T23:59:59.000Z"`
      is read as the same day as `"2026-02-25"`. */
  lemma TimeSuffixIgnored(datePart: string, rest: string, now: Civil)
    requires datePart != "" && 'T' !in datePart
    ensures ParseLocalDate(datePart + "T" + rest, now) == ParseLocalDate(datePart, now)
  {
    BeforeFirstDropsSuffix(datePart, 'T', rest);
    BeforeFirstWithoutSeparator(datePart, 'T');
  }

  lemma SameLocalDateIgnoresTimeSuffix(datePart: string, rest: string, compareDate: Civil, now: Civil)
    requires datePart != "" && 'T' !in datePart
    ensures IsSameLocalDate(datePart + "T" + rest, compareDate, now) == IsSameLocalDate(datePart, compareDate, now)
  {
    TimeSuffixIgnored(datePart, rest, now);
  }
}
