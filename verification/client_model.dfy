/** Lessons as the calendar pages receive them from `GET /api/lessons`: the
    planned date is the ISO text the server sent, and the checklist may be
    missing from the object. */
module ClientModel {
  import opened Outcomes

  datatype ChecklistItem = ChecklistItem(id: int, text: string, isCompleted: bool, order: int)

  datatype Lesson = Lesson(
    id: int,
    title: string,
    subjectId: int,
    content: Option<string>,
    plannedDate: string,
    isCompleted: bool,
    checklist: Option<seq<ChecklistItem>>)
}
