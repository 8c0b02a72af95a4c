/** `client/src/components/calendar/LessonCard.tsx`: what a lesson card shows
    besides its title: the subject stripe colour, the done and missed icons,
    and the checklist progress bar. */
module LessonCard {
  import opened Outcomes
  import opened Dates
  import opened DateUtils
  import opened ClientModel
  import LessonStore
  import Seqs

  /** `subjectColor || '#4f46e5'`: an absent or empty colour falls back to the default. */
  function StripeColor(subjectColor: Option<string>): (c: string)
    ensures c != ""
    ensures subjectColor.Some? && subjectColor.value != "" ==> c == subjectColor.value
    ensures subjectColor.None? || subjectColor.value == "" ==> c == LessonStore.DefaultSubjectColor
  {
    if subjectColor.Some? && subjectColor.value != "" then subjectColor.value else LessonStore.DefaultSubjectColor
  }

  /** The day `new Date(plannedDate)` falls on, time zones aside: the date part
      of the ISO text, or None for an invalid date (the empty string included). */
  function PlannedDay(plannedDate: string): (r: Option<Civil>)
    ensures plannedDate == "" ==> r.None?
    ensures r.Some? ==> IsValid(r.value)
  {
    match SplitDateParts(BeforeFirst(plannedDate, 'T'))
    case None => None
    case Some(n) =>
      if 1 <= n.month <= 12 && 1 <= n.day <= DaysInMonth(n.year, n.month - 1)
      then Some(Civil(n.year, n.month - 1, n.day))
      else None
  }

  /** `isMissed`: not completed and planned before today; an invalid date is
      never before anything. */
  function IsMissed(lesson: Lesson, today: Civil): (r: bool)
    ensures r ==> !lesson.isCompleted
    ensures r ==> PlannedDay(lesson.plannedDate).Some? && Before(PlannedDay(lesson.plannedDate).value, today)
    ensures !lesson.isCompleted && PlannedDay(lesson.plannedDate).Some? && Before(PlannedDay(lesson.plannedDate).value, today) ==> r
  {
    !lesson.isCompleted &&
    match PlannedDay(lesson.plannedDate)
    case None => false
    case Some(planned) => Before(planned, today)
  }

  /** A lesson planned for today or later is not missed. */
  lemma NotMissedFromTodayOn(lesson: Lesson, today: Civil)
    requires PlannedDay(lesson.plannedDate).Some? && !Before(PlannedDay(lesson.plannedDate).value, today)
    ensures !IsMissed(lesson, today)
  {
  }

  /** The icons in the card's corner: the green check and the red alert. */
  datatype StatusIcons = StatusIcons(check: bool, alert: bool)

  function Icons(lesson: Lesson, today: Civil): (r: StatusIcons)
    ensures r.check <==> lesson.isCompleted
    ensures r.alert ==> IsMissed(lesson, today)
    ensures IsMissed(lesson, today) ==> r.alert
    ensures !(r.check && r.alert)
  {
    var missed := IsMissed(lesson, today);
    StatusIcons(lesson.isCompleted, missed && !lesson.isCompleted)
  }

  function IsDone(item: ChecklistItem): bool {
    item.isCompleted
  }

  /** The width of the progress bar as a fraction (the page multiplies by 100):
      done items over all items; no bar for a missing or empty checklist. */
  function Progress(checklist: Option<seq<ChecklistItem>>): (r: Option<real>)
    ensures r.Some? <==> checklist.Some? && |checklist.value| > 0
    ensures r.Some? ==> 0.0 <= r.value <= 1.0
    ensures r.Some? ==> r.value * (|checklist.value| as real) == Seqs.Count(IsDone, checklist.value) as real
    ensures r.Some? ==> (r.value == 1.0 <==> forall i | 0 <= i < |checklist.value| :: checklist.value[i].isCompleted)
  {
    if checklist.None? || |checklist.value| == 0 then None
    else
      var items := checklist.value;
      var done := Seqs.Count(IsDone, items);
      Seqs.CountAll(IsDone, items);
      Some(done as real / |items| as real)
  }

  /** One of two items done fills half the bar. */
  lemma HalfDoneIsHalfProgress(a: ChecklistItem, b: ChecklistItem)
    requires a.isCompleted && !b.isCompleted
    ensures Progress(Some([a, b])) == Some(0.5)
  {
    assert [a, b][1..] == [b];
    assert Seqs.Count(IsDone, [a, b]) == 1;
  }
}
