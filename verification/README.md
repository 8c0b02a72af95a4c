# Study tracker: lesson checklists, calendar and subject migration in Dafny

This project models the logic of the study tracker, a web app for planning lessons and checking them off. The models are written in Dafny and proved correct.

**The server's lesson store.** Checklist templates are numbered lists of item texts. Creating a lesson plan copies the chosen template's items into a fresh, not-done checklist. If the template is missing, the lesson is still created, with an empty checklist. Toggling a checklist item flips it and then sets the lesson's `isCompleted` to "every item of this lesson is done". A manual endpoint overwrites `isCompleted` outright. Two read queries use the store:

- the three earliest upcoming lessons;
- the count of overdue lessons.

**The client logic on the same data:**

- reading `YYYY-MM-DD[T…]` date strings as local calendar days;
- the week and month calendar grids: which lessons land on which day, and what a day cell shows (the "h Planned" total, "No plans", at most six subject tiles plus a "+n" badge);
- the lesson card: stripe colour, done and missed icons, checklist progress ratio;
- the template form's list editing and blank-item filtering, and the "+n more" preview;
- the calendar page: navigation and optimistic drag-and-drop rescheduling with revert on failure.

**The one-off subject migration.** It turns free-text subject names into `Subject` records and points every row at its subject.

**Style.** Everything is modelled as pure functions on immutable values.

- The database is a value. Each handler is a function from the database and the request to the new database and a `Result`.
- `Result` distinguishes `NotFound` (the toggle's 404) from `Failed` (every 500).
- Server dates are day numbers. Client dates are the ISO strings the server sends, read into `Civil(year, month, day)` triples with a zero-based month.

**Modules, one per file:**

- `Outcomes`: option and result types.
- `Seqs`: the array operations the source uses (filter, find, count, `Array.from(new Set(…))`).
- `Dates`: day numbers, civil dates and Monday-first weeks.
- `DateUtils`: `dateUtils.ts`.
- `LessonStore`: the handlers of `app.ts`.
- `LessonLifecycle`: properties across handlers.
- `LessonQueries`: upcoming lessons and the overdue count.
- `ClientModel`: the lesson as the client sees it.
- `LessonCard`, `CalendarViews`, `TemplatesPage`, `CalendarPage`: one per client file.
- `SubjectMigration`: `migrate-subjects.ts`.

**Three behaviours of the code that the model keeps:**

- `isCompleted` is not an invariant of the checklist. The toggle handler recomputes it from the lesson's items, but the manual endpoint `PUT /api/lessons/:id/complete` overwrites it for any lesson, whatever its checklist says. It is proved to survive toggles and lesson creation (`LessonLifecycle.ToggleKeepsCompletionDerived`, `LessonLifecycle.CreateLessonKeepsCompletionDerived`). It is shown to break under the manual override (`LessonLifecycle.ManualOverrideBreaksCompletionDerived`).
- Only the toggle answers 404 for a missing row. An unknown lesson on the manual endpoint, an unknown subject on lesson creation, and a template request without `items` all answer 500, which is `Failed` here.
- The toggle is not atomic. It writes the item before it writes the lesson, so a failing lesson update leaves the item flipped. `LessonStore.ToggleItem` keeps that order: when the parent lesson is missing it returns `Failed` with the item flipped. `LessonLifecycle.ToggleSucceedsOnValidStore` shows this cannot happen in a consistent store.

## Model

| member | source | states |
|---|---|---|
| LessonStore.CreateTemplate | server/src/app.ts:163-180 | A request without `items` fails and changes nothing. Otherwise the template gets the next id, and its item i has text `texts[i]`, order i, the template's id and the next item id in turn. The store gains exactly that template. |
| LessonStore.SelectTemplate | server/src/app.ts:229-235 | A template is used only when `templateId` is present, non-zero and names an existing template. |
| LessonStore.CreateLesson | server/src/app.ts:225-260 | An unknown subject fails and leaves the store unchanged. Otherwise the new lesson starts not completed with the given fields. Its checklist has one item per item of the selected template, with the same text and order, not done, owned by the new lesson. The store gains exactly that lesson and those items. |
| LessonStore.UnknownTemplateGivesEmptyChecklist | server/src/app.ts:229-244 | An absent, zero or unknown template id is not an error: the lesson is created with an empty checklist. |
| LessonStore.SetCompletion | server/src/app.ts:262-274 | An unknown lesson id fails with the store unchanged. Otherwise exactly that lesson's `isCompleted` becomes the supplied value and is returned, whatever its checklist says. |
| LessonStore.AllDone | server/src/app.ts:318-321 | True exactly when every item belonging to the lesson is completed. |
| LessonStore.ToggleItem | server/src/app.ts:306-332 | An unknown item id gives NotFound with the store unchanged. Otherwise only the target item's flag is negated, and no other item, template or subject changes. On success the flipped item is returned. Only the owning lesson changes, and its `isCompleted` becomes "all its items are done". |
| LessonLifecycle.ToggleTwiceRestoresItem | server/src/app.ts:312-315 | Toggling an existing item twice restores the item table. The second toggle returns the original item. |
| LessonLifecycle.ToggleSucceedsOnValidStore | server/src/app.ts:306-328 | In a consistent store, toggling an existing item succeeds and returns it with its flag negated. |
| LessonLifecycle.ToggleKeepsCompletionDerived | server/src/app.ts:317-326 | If every lesson with a checklist had `isCompleted` equal to "all items done", that still holds after any toggle. |
| LessonLifecycle.ManualOverrideBreaksCompletionDerived | server/src/app.ts:262-274 | Marking complete a lesson that has an unfinished item succeeds and breaks the derived-completion rule. |
| LessonLifecycle.CreateLessonKeepsCompletionDerived | server/src/app.ts:235-255 | Creating a lesson keeps the derived-completion rule: the new lesson starts not done, and its copied items are not done. |
| LessonLifecycle.CreateTemplatePreservesValid | server/src/app.ts:163-180 | Creating a template keeps ids unique and references intact. |
| LessonLifecycle.CreateLessonPreservesValid | server/src/app.ts:225-260 | Creating a lesson keeps ids unique and every lesson's subject and every item's lesson present. |
| LessonLifecycle.SetCompletionPreservesValid | server/src/app.ts:262-274 | The manual override keeps the store consistent. |
| LessonLifecycle.TogglePreservesValid | server/src/app.ts:306-332 | A toggle keeps the store consistent. |
| LessonLifecycle.TemplateTextsReachLesson | server/src/app.ts:171 | Creating a template from texts t and then a lesson from it gives a checklist whose item i has text `t[i]` and order i, and is not done. |
| LessonLifecycle.OtherLessonUnaffected | server/src/app.ts:318-321 | Changing an item of one lesson changes neither the checklist presence nor the all-done value of any other lesson. |
| LessonQueries.SortByDate | server/src/app.ts:203 | The result is ordered by planned date and is a permutation of the input. |
| LessonQueries.Upcoming | server/src/app.ts:193-211 | Returns min(3, number of pending lessons) lessons. Each is not completed, dated today or later, and from the store, and they are in ascending date order. As a multiset the result is contained in the pending lessons, so no lesson is returned more often than it occurs. Any pending lesson left out is dated no earlier than the last one returned, and is left out only when three were returned. |
| LessonQueries.OverdueCount | server/src/app.ts:367-383 | Equals the number of lessons that are not completed and dated before today. Together with the remaining lessons it accounts for the whole table. |
| LessonQueries.LessonsPartition | server/src/app.ts:193-206 | Completed, overdue and pending lessons partition the table: their counts add up to the number of lessons. |
| DateUtils.ParseLocalDate | client/src/lib/dateUtils.ts:14-24 | The empty string gives the current date. Any non-empty result is a valid calendar date. |
| DateUtils.LocalDate | client/src/lib/dateUtils.ts:23 | `new Date(year, monthIndex, day)` for an existing day gives that day, with years 0 to 99 read as 1900 to 1999. The model gives a date exactly when the day exists. |
| DateUtils.IsSameLocalDate | client/src/lib/dateUtils.ts:30-35 | True exactly when the string parses to the given year, month and day. |
| DateUtils.ParseFormattedDate | client/src/lib/dateUtils.ts:18-23 | A well-formed `YYYY-MM-DD` string parses to that year (from 100 on), the zero-based month MM-1 and that day. |
| DateUtils.TimeSuffixIgnored | client/src/lib/dateUtils.ts:18 | Everything from the first `T` on is ignored: `d + "T" + rest` parses like `d`. |
| DateUtils.SameLocalDateIgnoresTimeSuffix | client/src/lib/dateUtils.ts:18-31 | Comparing a date string to a day does not depend on the string's time suffix. |
| DateUtils.ParseIsoText | client/src/lib/dateUtils.ts:14-24 | The text `toISOString()` writes for a day at any whole minute, `YYYY-MM-DDThh:mm:00.000Z`, parses back to that day for years 100 to 9999. |
| DateUtils.BeforeFirst | client/src/lib/dateUtils.ts:18 | `s.split(sep)[0]` is a prefix of `s` without `sep`, and it stops exactly at the first `sep`. |
| LessonCard.StripeColor | client/src/components/calendar/LessonCard.tsx:38 | The stripe uses the subject colour when it is a non-empty string, and `#4f46e5` otherwise. |
| LessonCard.IsMissed | client/src/components/calendar/LessonCard.tsx:21 | True exactly when the lesson is not completed and its planned day is a valid date before today. |
| LessonCard.NotMissedFromTodayOn | client/src/components/calendar/LessonCard.tsx:21 | A lesson planned for today or later is never missed. |
| LessonCard.Icons | client/src/components/calendar/LessonCard.tsx:57-58 | The check shows exactly for completed lessons and the alert exactly for missed ones. The two never show together. |
| LessonCard.Progress | client/src/components/calendar/LessonCard.tsx:63-67 | There is a bar exactly when the checklist exists and is non-empty. Its ratio lies in [0, 1] and, times the item count, gives the number of done items. It is full exactly when every item is done. |
| LessonCard.HalfDoneIsHalfProgress | client/src/components/calendar/LessonCard.tsx:67 | One of two items done gives a ratio of 1/2. |
| CalendarViews.LessonsOn | client/src/components/calendar/WeekView.tsx:23 | A day's lessons are input lessons whose date string falls on that day, every such lesson is among them, and their number is the number of such lessons. |
| CalendarViews.LessonsOnAppend | client/src/components/calendar/WeekView.tsx:23 | The day's lessons of two joined lists are the day's lessons of the first followed by those of the second, so the filter keeps the input order. |
| CalendarViews.LessonsOnSingle | client/src/components/calendar/WeekView.tsx:23 | A single lesson is kept exactly when its date string falls on the day. |
| CalendarViews.LessonOnOneDayOnly | client/src/components/calendar/MonthView.tsx:39 | No lesson lands on two different days. |
| CalendarViews.WeekDays | client/src/components/calendar/WeekView.tsx:17-18 | Seven consecutive days starting on the Monday of the current date's week. They include the current date, and day i is weekday i. |
| CalendarViews.WeekOfAnyShownDay | client/src/components/calendar/WeekView.tsx:17-18 | Any day of the shown week shows the same week. |
| CalendarViews.WeekDaysShift | client/src/components/calendar/WeekView.tsx:17-18 | Moving the current date on by seven days moves every shown day on by seven. |
| CalendarViews.WeekView | client/src/components/calendar/WeekView.tsx:16-40 | Seven columns, one per shown day, each holding exactly that day's lessons. Each column's total is its number of lessons, one hour each. Each column shows "h Planned" exactly when it does not show "No plans". |
| CalendarViews.ColumnIdNamesItsDayWestOfUtc | client/src/components/calendar/WeekView.tsx:50-54 | At UTC or west of it, the column id `day.toISOString()` of a day's local midnight falls on that day. |
| CalendarViews.ColumnIdNamesDayBeforeEastOfUtc | client/src/components/calendar/WeekView.tsx:50-54 | East of UTC the same id reads as the previous calendar day, never as the column's own day. |
| CalendarViews.LocalColumnIdNamesItsDay | client/src/components/calendar/WeekView.tsx:50-54 | A column id written as the local `YYYY-MM-DD` of the day falls on that day in every time zone. |
| CalendarViews.EmptyWeekHasNoPlans | client/src/components/calendar/WeekView.tsx:72-74 | With no lessons every column shows "No plans" and none shows a total. |
| CalendarViews.MonthGrid | client/src/components/calendar/MonthView.tsx:14-19 | Whole weeks of consecutive days, from the Monday on or before the month's first day to the Sunday of the week of its last day, covering the whole month. |
| CalendarViews.MonthGridColumns | client/src/components/calendar/MonthView.tsx:21 | Cell i of the grid falls on weekday i mod 7, under the matching Mon–Sun header. |
| CalendarViews.DayCell | client/src/components/calendar/MonthView.tsx:39-44 | The cell's subject ids have no duplicates and are exactly the subjects of the day's lessons (their order is fixed by `TilesInFirstAppearanceOrder`). The tiles are the first min(6, n) of the n subject ids, and the badge number is n - 6. The "+n" badge shows exactly when there are more than six, and shown tiles plus badge account for every subject. |
| CalendarViews.TilesInFirstAppearanceOrder | client/src/components/calendar/MonthView.tsx:41-44 | The cell's whole subject-id list, and so its tiles, come in the order the subjects first appear among the day's lessons, as `Array.from(new Set(…))` keeps insertion order. With `DayCell`, the six tiles are the first six distinct subjects in lesson order. |
| CalendarViews.TileColor | client/src/components/calendar/MonthView.tsx:73 | A tile uses its subject's colour when non-empty, and `#e5e7eb` otherwise. |
| TemplatesPage.AddItem | client/src/pages/Templates.tsx:28 | One empty input is appended and the existing inputs are unchanged. |
| TemplatesPage.ChangeItem | client/src/pages/Templates.tsx:29-33 | Only input i takes the new value. The length and every other input are unchanged. |
| TemplatesPage.RemoveItem | client/src/pages/Templates.tsx:34-36 | An in-range index drops exactly that input and keeps the others in order. An out-of-range index changes nothing. |
| TemplatesPage.RemoveUndoesAdd | client/src/pages/Templates.tsx:28-36 | Removing the input just added restores the list. |
| TemplatesPage.ChangeBackRestores | client/src/pages/Templates.tsx:29-33 | Changing an input back to its old text restores the list. |
| TemplatesPage.Trim | client/src/pages/Templates.tsx:41 | `trim()` is the input with its leading and trailing JavaScript whitespace removed. The result is the slice that starts after the leading whitespace, and everything after it is whitespace. It is empty exactly when every character is whitespace, and otherwise neither starts nor ends with whitespace. |
| TemplatesPage.SubmittedItems | client/src/pages/Templates.tsx:41 | The submitted items are exactly the inputs containing a non-whitespace character. |
| TemplatesPage.SubmittedItemsKeepOrder | client/src/pages/Templates.tsx:41 | Dropping blank inputs keeps the others in form order. |
| TemplatesPage.RequestOf | client/src/pages/Templates.tsx:42-46 | The request carries the form's name and description and the filled inputs. |
| TemplatesPage.AfterSubmit | client/src/pages/Templates.tsx:47-53 | After a successful create, name and description are empty and the items reset to one empty input. After a failure the form is kept. |
| TemplatesPage.FormCreatesFilledItems | client/src/pages/Templates.tsx:41-46 | The template the server creates from the request the form sends has the form's name and description, and one item per filled input, in form order, numbered from 0, none of them blank. |
| TemplatesPage.PreviewOf | client/src/pages/Templates.tsx:113-118 | A card shows the first min(3, n) items. "+(n-3) more" appears exactly when n > 3, and shown plus hidden items make n. |
| CalendarPage.Navigate | client/src/pages/Calendar.tsx:39-50 | 'today' jumps to today. In the week view 'prev' and 'next' move seven days; in the month view they move one month. The view, lessons and drag are untouched. |
| CalendarPage.WeekPrevNextCancel | client/src/pages/Calendar.tsx:45-46 | In the week view 'prev' then 'next', or 'next' then 'prev', gives back the same state. |
| CalendarPage.NextShowsFollowingWeek | client/src/pages/Calendar.tsx:46 | 'next' in the week view shows each day of the following week. |
| CalendarPage.DragStart | client/src/pages/Calendar.tsx:52-54 | The dragged lesson becomes the active drag and nothing else changes. |
| CalendarPage.Reschedule | client/src/pages/Calendar.tsx:67-72 | Only lessons with the dragged id take the new date. Length, order and all other lessons are unchanged. |
| CalendarPage.RescheduleBack | client/src/pages/Calendar.tsx:67-72 | Moving a lesson back to its old date restores the list. |
| CalendarPage.DragEnd | client/src/pages/Calendar.tsx:56-90 | The active drag is always cleared. With no drop target, or when the update request fails, the lessons equal the pre-drop snapshot. Otherwise only the dragged lesson changes, and only its date. |
| CalendarPage.MovedLessonShowsOnTargetDay | client/src/pages/Calendar.tsx:63-72 | At UTC or west of it, after a successful drop on a column the lesson is among that column's lessons. |
| CalendarPage.MovedLessonLandsDayBeforeEastOfUtc | client/src/pages/Calendar.tsx:63-72 | East of UTC, a lesson dropped on a column is stored with the previous day's date and is not shown in that column. |
| CalendarPage.MovedLessonShowsOnTargetDayWithLocalId | client/src/pages/Calendar.tsx:63-72 | With the local `YYYY-MM-DD` column id, a dropped lesson shows in the column it was dropped on in every time zone. |
| SubjectMigration.Names | server/src/migrate-subjects.ts:14-16 | The names kept from a subject column are exactly its non-null, non-empty entries. |
| SubjectMigration.NamesAppend | server/src/migrate-subjects.ts:13-17 | Filtering the three columns one by one and joining the results equals filtering the joined column. |
| SubjectMigration.CollectNames | server/src/migrate-subjects.ts:13-17 | The collected names have no duplicates and are exactly the non-empty subject strings of sessions, lessons and exams. |
| SubjectMigration.CollectNamesCoversRows | server/src/migrate-subjects.ts:13-17 | Every session, lesson and exam row with a non-empty subject contributes its name. |
| SubjectMigration.Upsert | server/src/migrate-subjects.ts:23-27 | An existing name changes nothing. A new name appends one subject with the next id and colour `#4f46e5`. |
| SubjectMigration.UpsertAll | server/src/migrate-subjects.ts:22-28 | Existing subjects are left unmodified and every collected name ends up with a subject. Each created subject has the default colour, a collected name that no subject had before, and the next id in turn. |
| SubjectMigration.UpsertAllOfKnownNames | server/src/migrate-subjects.ts:23-27 | Names that all have subjects create nothing. |
| SubjectMigration.UpsertAllKeepsNamesUnique | server/src/migrate-subjects.ts:23-27 | Upserting keeps subject names unique. |
| SubjectMigration.SubjectMap | server/src/migrate-subjects.ts:31 | The last subject's name maps to its id, since later entries override earlier ones. |
| SubjectMigration.SubjectMapEntries | server/src/migrate-subjects.ts:31 | The map's keys are exactly the subjects' names, and each maps to the id of a subject with that name. |
| SubjectMigration.SubjectMapOfUniqueNames | server/src/migrate-subjects.ts:31 | With unique names, each subject's name maps to that subject's id. |
| SubjectMigration.Reassign | server/src/migrate-subjects.ts:34-42 | A row with a non-empty name known to the map gets that name's id. Every other row is untouched, and no row's id or name changes. |
| SubjectMigration.Migrate | server/src/migrate-subjects.ts:5-67 | Existing subjects are unmodified, every collected name has a subject, and new subjects carry the default colour. Unique names stay unique, and the rows' subject names are unchanged. |
| SubjectMigration.MigratedRowsPointAtTheirSubject | server/src/migrate-subjects.ts:33-64 | After the migration every session, lesson and exam with a non-empty name points at the subject of that name. Rows with a null or empty name are exactly as before. |
| SubjectMigration.MigrateIsIdempotent | server/src/migrate-subjects.ts:22-64 | Running the migration twice gives the same database as running it once, so the second run creates no subjects. |

## Left out

- Express routing, JSON bodies, status codes and Prisma calls: each handler is a function on a database value, and a failure is a `Result` error (`NotFound` for the toggle's 404, `Failed` for every 500).
- Concurrency: each request is atomic in the model. Two concurrent toggles on one lesson can race between reading the sibling items and writing the lesson flag; that race is not modelled.
- Time zones: the upcoming query cuts at UTC midnight, the overdue count at local midnight and the client at local midnight. All three are one "today" day number here.
- LessonQueries.Upcoming: `take: 3` after `orderBy` is stated through a stable sort of the pending lessons. Among lessons with equal dates the database may return any order; the model fixes input order.
- DateUtils.ParseLocalDate: does not model how JavaScript's `Date` rolls over out-of-range parts (month 13, day 31 of a 30-day month) or non-numeric parts. Such strings give `None`, which the model treats like an Invalid Date. Only well-formed `YYYY-MM-DD[T…]` strings of existing days are read.
- DateUtils.LocalDate: a day that does not exist (month index 12, 30 February) gives `None`. JavaScript's `Date` constructor instead rolls the extra parts over into a later date: `new Date(2026, 1, 30)` is 2 March 2026.
- LessonCard.IsMissed: compares the planned calendar day with today's. The source compares the instant of `new Date(plannedDate)` with local midnight, which differs only through time zones.
- CalendarViews.WeekView: the day number of a column is turned into a calendar date by `Dates.CivilFromDays` (the standard days-to-civil conversion). That conversion is not itself proved correct.
- CalendarViews.MonthGrid: the month's first and last days come from date-fns `startOfMonth` and `endOfMonth` and are parameters here.
- CalendarPage.Navigate: date-fns `addMonths` and `subMonths` are a parameter. `new Date()` is the `today` parameter.
- CalendarPage.DragEnd: the drop target's ISO id is taken as the new planned date. `new Date(over.id).toISOString()` gives back `over.id` for the ids `toISOString()` writes, so the round trip through `Date` is skipped. The body of the update request is not modelled, only whether it fails. The drag id is the lesson id as a number, since `id.toString()` is one-to-one.
- CalendarViews.ColumnIdNamesItsDayWestOfUtc, CalendarViews.ColumnIdNamesDayBeforeEastOfUtc, CalendarViews.LocalColumnIdNamesItsDay, DateUtils.ParseIsoText: the zone is a fixed whole-minute offset strictly within a day of UTC, with no daylight-saving change, and years are 100 to 9999. Years below 100 are read as 19xx by the `Date` constructor, and `toISOString()` writes other years in the six-digit `±YYYYYY` form, which is not modelled.
- CalendarPage.MovedLessonShowsOnTargetDay: holds only at UTC and west of it. East of UTC the source puts the lesson on the previous day (see Findings).
- TemplatesPage.ChangeItem: requires the index to be one of the inputs, as the rendered inputs guarantee. JavaScript would grow the array for a larger index.
- LessonCard.Progress: the ratio is an exact rational. JavaScript computes it, and the percentage width, in floating point.
- Subjects, study sessions, exam results and courses have CRUD handlers that are not modelled. So are the update and delete of lessons and templates, and the summary statistics with their floating-point averages.
- Page rendering, loading and fetch logic, alerts, dark mode, drag overlays and the dashboard, analytics, planner and layout components are not modelled. Their logic is fetch-and-show, or the same first-three preview split as `TemplatesPage.PreviewOf`.
- `client/src/types.ts` is not part of this model. It describes an older lesson shape (string subject, no checklist), so the client types here follow what the server returns.
- Some test expectations have no code behind them in the sources: a mandatory course on subjects, a template update route, and checklist or progress rendering on the planner and subjects pages. They are not modelled.
- SubjectMigration: the console output and the process exit code are not modelled. The `subject: { not: null }` query followed by `s.subject &&` is the one test `HasName`. Database-assigned subject ids are the counter `nextSubjectId`.

## Findings

| source | as written | input that shows it | evidently intended | confidence | as-written member | corrected member |
|---|---|---|---|---|---|---|
| client/src/components/calendar/WeekView.tsx:52 | The drop id of a week column is `day.toISOString()`, the UTC text of the day's local midnight. Calendar.tsx:63-69 stores that text as the new `plannedDate`, and the client reads only its `YYYY-MM-DD` part. | In a UTC+1 zone, dropping a lesson on Wednesday 2026-02-25 gives the id `2026-02-24T23:00:00.000Z`. The lesson is stored for 24 February and shows in Tuesday's column. | The lesson shows in the column it was dropped on. | not executed | CalendarPage.MovedLessonLandsDayBeforeEastOfUtc (id text: CalendarViews.ColumnIdNamesDayBeforeEastOfUtc) | CalendarPage.MovedLessonShowsOnTargetDayWithLocalId (id text: CalendarViews.LocalColumnIdNamesItsDay) |
