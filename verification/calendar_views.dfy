/** `client/src/components/calendar/WeekView.tsx` and `MonthView.tsx`: which
    days the calendar shows, which lessons land on each day, and what each
    day's cell displays. Days are day numbers; the lessons' planned dates stay
    the ISO text the server sent and are matched with `isSameLocalDate`. */
module CalendarViews {
  import opened Outcomes
  import opened Dates
  import opened DateUtils
  import opened ClientModel
  import Seqs

  /** The filter's test: the lesson is planned on `day`. */
  function OnDay(day: Civil, now: Civil): Lesson -> bool {
    (l: Lesson) => IsSameLocalDate(l.plannedDate, day, now)
  }

  /** `lessons.filter(l => isSameLocalDate(l.plannedDate, day))`, for both views.
      `LessonsOnAppend` and `LessonsOnSingle` fix its order and multiplicity. */
  function LessonsOn(lessons: seq<Lesson>, day: Civil, now: Civil): (r: seq<Lesson>)
    ensures forall i | 0 <= i < |r| :: r[i] in lessons && IsSameLocalDate(r[i].plannedDate, day, now)
    ensures forall i | 0 <= i < |lessons| && IsSameLocalDate(lessons[i].plannedDate, day, now) :: lessons[i] in r
    ensures |r| == Seqs.Count(OnDay(day, now), lessons)
  {
    Seqs.Filter(OnDay(day, now), lessons)
  }

  /** The lessons of `a + b` on a day are those of `a`, then those of `b`, each in
      input order. */
  lemma LessonsOnAppend(a: seq<Lesson>, b: seq<Lesson>, day: Civil, now: Civil)
    ensures LessonsOn(a + b, day, now) == LessonsOn(a, day, now) + LessonsOn(b, day, now)
  {
    Seqs.FilterAppend(OnDay(day, now), a, b);
  }

  /** One lesson appears once on its own day and nowhere else. */
  lemma LessonsOnSingle(l: Lesson, day: Civil, now: Civil)
    ensures IsSameLocalDate(l.plannedDate, day, now) ==> LessonsOn([l], day, now) == [l]
    ensures !IsSameLocalDate(l.plannedDate, day, now) ==> LessonsOn([l], day, now) == []
  {
    assert [l][1..] == [];
  }

  /** A lesson lands on at most one day: the days of two different cells
      never share a lesson. */
  lemma LessonOnOneDayOnly(lessons: seq<Lesson>, day1: Civil, day2: Civil, now: Civil, l: Lesson)
    requires l in LessonsOn(lessons, day1, now) && l in LessonsOn(lessons, day2, now)
    ensures day1 == day2
  {
    var r1, r2 := LessonsOn(lessons, day1, now), LessonsOn(lessons, day2, now);
    var i :| 0 <= i < |r1| && r1[i] == l;
    var j :| 0 <= j < |r2| && r2[j] == l;
  }

  // ----- Week view -----

  /** The seven days shown: Monday of `currentDate`'s week and the six after it. */
  function WeekDays(currentDate: Day): (days: seq<Day>)
    ensures |days| == 7
    ensures currentDate in days
    ensures forall i | 0 <= i < 7 :: days[i] == days[0] + i && Weekday(days[i]) == i
  {
    var start := StartOfWeek(currentDate);
    var days := seq(7, i => start + i);
    assert days[currentDate - start] == currentDate;
    forall i | 0 <= i < 7 ensures Weekday(days[i]) == i {
      WeekdayAfterMonday(start, i);
    }
    days
  }

  /** Any day of the shown week shows the same week. */
  lemma WeekOfAnyShownDay(currentDate: Day, i: int)
    requires 0 <= i < 7
    ensures WeekDays(WeekDays(currentDate)[i]) == WeekDays(currentDate)
  {
    SameWeekSameStart(currentDate, WeekDays(currentDate)[i]);
  }

  /** Moving the current date a week on moves every shown day a week on. */
  lemma WeekDaysShift(currentDate: Day)
    ensures forall i | 0 <= i < 7 :: WeekDays(currentDate + 7)[i] == WeekDays(currentDate)[i] + 7
  {
    NextWeekStart(currentDate);
  }

  /** One `DayColumn`: its day, its lessons and the "h Planned" figure. */
  datatype DayColumn = DayColumn(day: Day, lessons: seq<Lesson>, totalHours: nat)

  /** The header shows "<n>h Planned" only for a positive total. */
  predicate ShowsPlanned(c: DayColumn) {
    c.totalHours > 0
  }

  /** The body shows "No plans" only when the day has no lessons. */
  predicate ShowsNoPlans(c: DayColumn) {
    |c.lessons| == 0
  }

  function Column(day: Day, lessons: seq<Lesson>, now: Civil): DayColumn {
    var dayLessons := LessonsOn(lessons, CivilFromDays(day), now);
    DayColumn(day, dayLessons, |dayLessons|)
  }

  /** The week grid: one column per shown day, each holding exactly the lessons
      planned that day, and each showing either the planned total or "No plans". */
  function WeekView(currentDate: Day, lessons: seq<Lesson>, now: Civil): (columns: seq<DayColumn>)
    ensures |columns| == 7
    ensures forall i | 0 <= i < 7 :: columns[i].day == WeekDays(currentDate)[i]
    ensures forall i | 0 <= i < 7 :: columns[i].lessons == LessonsOn(lessons, CivilFromDays(columns[i].day), now)
    ensures forall i | 0 <= i < 7 :: columns[i].totalHours == |columns[i].lessons|
    ensures forall i | 0 <= i < 7 :: ShowsPlanned(columns[i]) <==> !ShowsNoPlans(columns[i])
  {
    var days := WeekDays(currentDate);
    seq(7, i requires 0 <= i < 7 => Column(days[i], lessons, now))
  }

  /** The drop-target id of the column for local date `c`: `day.toISOString()`
      of local midnight, in a zone `utcOffset` minutes ahead of UTC (negative
      west of Greenwich). West of or at UTC local midnight is on the same UTC
      date; east of it, it is still the evening of the day before in UTC. */
  function ColumnId(c: Civil, utcOffset: int): string
    requires IsValid(c) && 1 <= c.year < 10000 && -1440 < utcOffset < 1440
  {
    if utcOffset <= 0 then IsoText(c, -utcOffset)
    else IsoText(PreviousDay(c), 1440 - utcOffset)
  }

  /** West of or at UTC, the column's id parses back to the column's own day. */
  lemma ColumnIdNamesItsDayWestOfUtc(c: Civil, utcOffset: int, now: Civil)
    requires IsValid(c) && 100 <= c.year < 10000 && -1440 < utcOffset <= 0
    ensures IsSameLocalDate(ColumnId(c, utcOffset), c, now)
  {
    var id := ColumnId(c, utcOffset);
    assert id == IsoText(c, -utcOffset);
    ParseIsoText(c, -utcOffset, now);
    assert ParseLocalDate(id, now) == Some(c);
  }

  /** East of UTC the column's id parses to the day before the column's day. */
  lemma ColumnIdNamesDayBeforeEastOfUtc(c: Civil, utcOffset: int, now: Civil)
    requires IsValid(c) && 101 <= c.year < 10000 && 0 < utcOffset < 1440
    ensures ParseLocalDate(ColumnId(c, utcOffset), now) == Some(PreviousDay(c))
    ensures !IsSameLocalDate(ColumnId(c, utcOffset), c, now)
  {
    var id, p := ColumnId(c, utcOffset), PreviousDay(c);
    assert id == IsoText(p, 1440 - utcOffset);
    ParseIsoText(p, 1440 - utcOffset, now);
    assert ParseLocalDate(id, now) == Some(p) && p != c;
  }

  /** A drop-target id that names the column's local date in every zone: the
      `YYYY-MM-DD` text of the local getters, as `format(day, 'yyyy-MM-dd')` writes it. */
  function LocalColumnId(c: Civil): string
    requires IsValid(c) && 0 <= c.year < 10000
  {
    FormatDate(c.year, c.month + 1, c.day)
  }

  lemma LocalColumnIdNamesItsDay(c: Civil, now: Civil)
    requires IsValid(c) && 100 <= c.year < 10000
    ensures IsSameLocalDate(LocalColumnId(c), c, now)
  {
    ParseFormattedDate(c.year, c.month + 1, c.day, now);
  }

  /** With no lessons every column says "No plans" and none shows a total. */
  lemma EmptyWeekHasNoPlans(currentDate: Day, now: Civil)
    ensures forall i | 0 <= i < 7 :: ShowsNoPlans(WeekView(currentDate, [], now)[i])
    ensures forall i | 0 <= i < 7 :: !ShowsPlanned(WeekView(currentDate, [], now)[i])
  {
  }

  // ----- Month view -----

  /** `eachDayOfInterval` from the Monday on or before the month's first day to
      the Sunday on or after its last day. */
  function MonthGrid(monthStart: Day, monthEnd: Day): (days: seq<Day>)
    requires monthStart <= monthEnd
    ensures |days| > 0 && |days| % 7 == 0
    ensures days[0] == StartOfWeek(monthStart)
    ensures forall i | 0 <= i < |days| :: days[i] == days[0] + i
    ensures days[0] <= monthStart && monthEnd < days[0] + |days|
    ensures days[|days| - 1] == StartOfWeek(monthEnd) + 6
  {
    var first := StartOfWeek(monthStart);
    var last := StartOfWeek(monthEnd) + 6;
    MondaysWholeWeeksApart(first, StartOfWeek(monthEnd));
    seq(last - first + 1, i => first + i)
  }

  lemma MondaysWholeWeeksApart(a: Day, b: Day)
    requires Weekday(a) == 0 && Weekday(b) == 0
    ensures (b - a) % 7 == 0
  {
    var p, q := (a + 3) / 7, (b + 3) / 7;
    assert a + 3 == 7 * p && b + 3 == 7 * q;
    ModOfMultiplePlus(q - p, 0);
  }

  /** The grid's rows are weeks: cell `i` sits under weekday header `i % 7`,
      so every row begins on a Monday. */
  lemma MonthGridColumns(monthStart: Day, monthEnd: Day)
    requires monthStart <= monthEnd
    ensures forall i | 0 <= i < |MonthGrid(monthStart, monthEnd)| :: Weekday(MonthGrid(monthStart, monthEnd)[i]) == i % 7
  {
    var days := MonthGrid(monthStart, monthEnd);
    forall i | 0 <= i < |days| ensures Weekday(days[i]) == i % 7 {
      var k, r := i / 7, i % 7;
      assert days[i] == (days[0] + r) + 7 * k;
      WeekdayShift(days[0] + r, k);
      WeekdayAfterMonday(days[0], r);
    }
  }

  /** `MAX_TILES`: at most this many subject tiles per day cell. */
  const MaxTiles: nat := 6

  /** Colour of a tile whose subject is unknown or has no colour. */
  const NoSubjectTileColor: string := "#e5e7eb"

  /** One day cell: the day's lessons, its distinct subject ids in order of first
      appearance, the tiles shown and the overflow count. */
  datatype MonthCell = MonthCell(lessons: seq<Lesson>, subjectIds: seq<int>, displayed: seq<int>, moreCount: int)

  function SubjectIdsOf(lessons: seq<Lesson>): (ids: seq<int>)
    ensures |ids| == |lessons|
    ensures forall i | 0 <= i < |lessons| :: ids[i] == lessons[i].subjectId
  {
    seq(|lessons|, i requires 0 <= i < |lessons| => lessons[i].subjectId)
  }

  /** The "+n" badge appears only for a positive overflow. */
  predicate ShowsMore(c: MonthCell) {
    c.moreCount > 0
  }

  /** A day cell: one tile per distinct subject of the day's lessons, the first
      six shown and the rest counted in the badge. */
  function DayCell(lessons: seq<Lesson>, day: Civil, now: Civil): (c: MonthCell)
    ensures c.lessons == LessonsOn(lessons, day, now)
    ensures Seqs.NoDuplicates(c.subjectIds)
    ensures forall i | 0 <= i < |c.lessons| :: c.lessons[i].subjectId in c.subjectIds
    ensures forall k | 0 <= k < |c.subjectIds| :: c.subjectIds[k] in SubjectIdsOf(c.lessons)
    ensures |c.displayed| <= MaxTiles && c.displayed <= c.subjectIds
    ensures c.displayed == c.subjectIds[..Seqs.Min(MaxTiles, |c.subjectIds|)]
    ensures c.moreCount == |c.subjectIds| - MaxTiles
    ensures ShowsMore(c) <==> |c.subjectIds| > MaxTiles
    ensures |c.displayed| + (if ShowsMore(c) then c.moreCount else 0) == |c.subjectIds|
  {
    var dayLessons := LessonsOn(lessons, day, now);
    var ids := Seqs.Distinct(SubjectIdsOf(dayLessons));
    assert forall i | 0 <= i < |dayLessons| :: dayLessons[i].subjectId == SubjectIdsOf(dayLessons)[i];
    MonthCell(dayLessons, ids, ids[..Seqs.Min(MaxTiles, |ids|)], |ids| - MaxTiles)
  }

  /** The cell's subject ids, and so its tiles, come in the order their subjects
      first appear among the day's lessons. With the cell's other guarantees (no
      duplicates, exactly the day's subjects) this fixes the list, and the tiles
      are its first six. */
  lemma TilesInFirstAppearanceOrder(lessons: seq<Lesson>, day: Civil, now: Civil)
    ensures var c := DayCell(lessons, day, now);
      forall i, j | 0 <= i < j < |c.subjectIds| ::
        Seqs.IndexOf(SubjectIdsOf(c.lessons), c.subjectIds[i]) < Seqs.IndexOf(SubjectIdsOf(c.lessons), c.subjectIds[j])
    ensures var c := DayCell(lessons, day, now);
      forall i, j | 0 <= i < j < |c.displayed| ::
        Seqs.IndexOf(SubjectIdsOf(c.lessons), c.displayed[i]) < Seqs.IndexOf(SubjectIdsOf(c.lessons), c.displayed[j])
  {
    var c := DayCell(lessons, day, now);
    Seqs.DistinctKeepsFirstOccurrenceOrder(SubjectIdsOf(c.lessons));
  }

  /** `subject?.color || '#e5e7eb'`. */
  function TileColor(subjectColor: Option<string>): (color: string)
    ensures color != ""
    ensures subjectColor.Some? && subjectColor.value != "" ==> color == subjectColor.value
    ensures subjectColor.None? || subjectColor.value == "" ==> color == NoSubjectTileColor
  {
    if subjectColor.Some? && subjectColor.value != "" then subjectColor.value else NoSubjectTileColor
  }
}
