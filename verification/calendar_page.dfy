/** `client/src/pages/Calendar.tsx`: the page state behind the calendar, moved
    by the header's navigation buttons and by dragging a lesson card onto a day
    column. Lesson ids are compared as numbers: the card's drag id is the
    decimal text of the lesson id, and decimal text is one-to-one. */
module CalendarPage {
  import opened Outcomes
  import opened Dates
  import opened DateUtils
  import opened ClientModel
  import CalendarViews
  import Seqs

  datatype View = Week | Month

  datatype Direction = Prev | Next | Today

  datatype State = State(view: View, currentDate: Day, lessons: seq<Lesson>, activeDrag: Option<Lesson>)

  /** `handleNavigate`: 'today' jumps to `today` in either view; otherwise the
      week view steps seven days and the month view one calendar month, which
      date-fns computes and is passed in as `addMonths`. */
  function Navigate(st: State, dir: Direction, today: Day, addMonths: (Day, int) -> Day): (r: State)
    ensures r.view == st.view && r.lessons == st.lessons && r.activeDrag == st.activeDrag
    ensures dir == Today ==> r.currentDate == today
    ensures dir == Prev && st.view == Week ==> r.currentDate == st.currentDate - 7
    ensures dir == Next && st.view == Week ==> r.currentDate == st.currentDate + 7
    ensures dir != Today && st.view == Month ==> r.currentDate == addMonths(st.currentDate, if dir == Prev then -1 else 1)
  {
    match dir
    case Today => st.(currentDate := today)
    case _ =>
      var step := if dir == Prev then -1 else 1;
      match st.view
      case Week => st.(currentDate := st.currentDate + 7 * step)
      case Month => st.(currentDate := addMonths(st.currentDate, step))
  }

  /** In the week view 'prev' and 'next' undo each other. */
  lemma WeekPrevNextCancel(st: State, today: Day, addMonths: (Day, int) -> Day)
    requires st.view == Week
    ensures Navigate(Navigate(st, Prev, today, addMonths), Next, today, addMonths) == st
    ensures Navigate(Navigate(st, Next, today, addMonths), Prev, today, addMonths) == st
  {
  }

  /** In the week view 'next' shows the following week: every column moves on
      seven days. */
  lemma NextShowsFollowingWeek(st: State, today: Day, addMonths: (Day, int) -> Day)
    requires st.view == Week
    ensures var r := Navigate(st, Next, today, addMonths);
      forall i | 0 <= i < 7 :: CalendarViews.WeekDays(r.currentDate)[i] == CalendarViews.WeekDays(st.currentDate)[i] + 7
  {
    CalendarViews.WeekDaysShift(st.currentDate);
  }

  /** `handleDragStart`: the dragged lesson becomes the drag overlay. */
  function DragStart(st: State, lesson: Lesson): (r: State)
    ensures r.activeDrag == Some(lesson)
    ensures r.view == st.view && r.currentDate == st.currentDate && r.lessons == st.lessons
  {
    st.(activeDrag := Some(lesson))
  }

  /** The optimistic update: the lessons with id `id` take the new planned
      date; every other lesson, and the order, stay as they were. */
  function Reschedule(lessons: seq<Lesson>, id: int, newDate: string): (r: seq<Lesson>)
    ensures |r| == |lessons|
    ensures forall i | 0 <= i < |lessons| && lessons[i].id == id :: r[i] == lessons[i].(plannedDate := newDate)
    ensures forall i | 0 <= i < |lessons| && lessons[i].id != id :: r[i] == lessons[i]
  {
    seq(|lessons|, i requires 0 <= i < |lessons| =>
      if lessons[i].id == id then lessons[i].(plannedDate := newDate) else lessons[i])
  }

  /** Dragging a lesson back to the day it came from restores the list. */
  lemma RescheduleBack(lessons: seq<Lesson>, id: int, oldDate: string, newDate: string)
    requires forall i | 0 <= i < |lessons| && lessons[i].id == id :: lessons[i].plannedDate == oldDate
    ensures Reschedule(Reschedule(lessons, id, newDate), id, oldDate) == lessons
  {
    var moved := Reschedule(lessons, id, newDate);
    var back := Reschedule(moved, id, oldDate);
    assert forall i | 0 <= i < |lessons| :: back[i] == lessons[i];
  }

  /** `lessons.find(l => l.id.toString() === lessonId)`: whether the update
      request is sent at all. */
  function FindLesson(lessons: seq<Lesson>, id: int): (r: Option<nat>)
    ensures r.Some? ==> r.value < |lessons| && lessons[r.value].id == id
    ensures r.None? ==> forall i | 0 <= i < |lessons| :: lessons[i].id != id
  {
    Seqs.FindFirst((l: Lesson) => l.id == id, lessons)
  }

  /** `handleDragEnd` once the update request has settled. `over` is the id of
      the day column dropped on (its date as ISO text), None when dropped
      outside any column; `putFails` says whether `PUT /api/lessons/:id` rejects.
      The drag overlay is always cleared; without a target nothing else
      changes; the dragged lesson takes the new date unless the request fails,
      in which case the list returns to its snapshot from before the drop. */
  function DragEnd(st: State, activeId: int, over: Option<string>, putFails: bool): (r: State)
    ensures r.activeDrag.None?
    ensures r.view == st.view && r.currentDate == st.currentDate
    ensures over.None? || putFails ==> r.lessons == st.lessons
    ensures |r.lessons| == |st.lessons|
    ensures forall i | 0 <= i < |st.lessons| && st.lessons[i].id != activeId :: r.lessons[i] == st.lessons[i]
    ensures over.Some? && !putFails ==>
      forall i | 0 <= i < |st.lessons| && st.lessons[i].id == activeId :: r.lessons[i] == st.lessons[i].(plannedDate := over.value)
  {
    var cleared := st.(activeDrag := None);
    match over
    case None => cleared
    case Some(newDate) =>
      var snapshot := st.lessons;
      var optimistic := Reschedule(st.lessons, activeId, newDate);
      if FindLesson(st.lessons, activeId).Some? && putFails then
        cleared.(lessons := snapshot)
      else
        assert FindLesson(st.lessons, activeId).None? ==> optimistic == snapshot;
        cleared.(lessons := optimistic)
  }

  /** After a successful move west of or at UTC, the lesson shows in the column
      it was dropped on: the id of the column for `c` is what the lesson now carries. */
  lemma MovedLessonShowsOnTargetDay(st: State, activeId: int, c: Civil, utcOffset: int, now: Civil, i: int)
    requires IsValid(c) && 100 <= c.year < 10000 && -1440 < utcOffset <= 0
    requires 0 <= i < |st.lessons| && st.lessons[i].id == activeId
    ensures var r := DragEnd(st, activeId, Some(CalendarViews.ColumnId(c, utcOffset)), false);
      r.lessons[i] in CalendarViews.LessonsOn(r.lessons, c, now)
  {
    var over := CalendarViews.ColumnId(c, utcOffset);
    var r := DragEnd(st, activeId, Some(over), false);
    assert r.lessons[i].plannedDate == over;
    CalendarViews.ColumnIdNamesItsDayWestOfUtc(c, utcOffset, now);
  }

  /** East of UTC the moved lesson lands on the day before the column it was
      dropped on (the code as written). */
  lemma MovedLessonLandsDayBeforeEastOfUtc(st: State, activeId: int, c: Civil, utcOffset: int, now: Civil, i: int)
    requires IsValid(c) && 101 <= c.year < 10000 && 0 < utcOffset < 1440
    requires 0 <= i < |st.lessons| && st.lessons[i].id == activeId
    ensures var r := DragEnd(st, activeId, Some(CalendarViews.ColumnId(c, utcOffset)), false);
      && !IsSameLocalDate(r.lessons[i].plannedDate, c, now)
      && IsSameLocalDate(r.lessons[i].plannedDate, PreviousDay(c), now)
  {
    var over := CalendarViews.ColumnId(c, utcOffset);
    var r := DragEnd(st, activeId, Some(over), false);
    assert r.lessons[i].plannedDate == over;
    CalendarViews.ColumnIdNamesDayBeforeEastOfUtc(c, utcOffset, now);
  }

  /** With the local-date id the moved lesson shows in the column it was dropped
      on, whatever the zone. */
  lemma MovedLessonShowsOnTargetDayWithLocalId(st: State, activeId: int, c: Civil, now: Civil, i: int)
    requires IsValid(c) && 100 <= c.year < 10000
    requires 0 <= i < |st.lessons| && st.lessons[i].id == activeId
    ensures var r := DragEnd(st, activeId, Some(CalendarViews.LocalColumnId(c)), false);
      r.lessons[i] in CalendarViews.LessonsOn(r.lessons, c, now)
  {
    var over := CalendarViews.LocalColumnId(c);
    var r := DragEnd(st, activeId, Some(over), false);
    assert r.lessons[i].plannedDate == over;
    CalendarViews.LocalColumnIdNamesItsDay(c, now);
  }
}
