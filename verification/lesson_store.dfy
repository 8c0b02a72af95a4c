/** The checklist-template and lesson-plan handlers of `server/src/app.ts`, over
    an in-memory store. Each table is a sequence of rows in insertion order, ids
    come from per-table auto-increment counters, and every handler is a
    function from the store (and the request) to the new store and its reply. */
module LessonStore {
  import opened Outcomes
  import opened Dates
  import Seqs

  type Id = int

  /** The colour a subject gets when none is chosen. */
  const DefaultSubjectColor: string := "#4f46e5"

  datatype Subject = Subject(id: Id, name: string, color: string)

  datatype TemplateItem = TemplateItem(id: Id, templateId: Id, text: string, order: int)

  datatype Template = Template(id: Id, name: string, description: Option<string>, items: seq<TemplateItem>)

  datatype Lesson = Lesson(
    id: Id,
    title: string,
    subjectId: Id,
    content: Option<string>,
    plannedDate: Day,
    isCompleted: bool)

  datatype ChecklistItem = ChecklistItem(id: Id, lessonId: Id, text: string, isCompleted: bool, order: int)

  datatype Db = Db(
    subjects: seq<Subject>,
    templates: seq<Template>,
    lessons: seq<Lesson>,
    items: seq<ChecklistItem>,
    nextTemplateId: Id,
    nextTemplateItemId: Id,
    nextLessonId: Id,
    nextItemId: Id)

  /** The store after a handler ran, and what the handler replied. */
  datatype Reply<T> = Reply(db: Db, result: Result<T>)

  /** The body of `POST /api/lessons`: the new lesson with its checklist. */
  datatype CreatedLesson = CreatedLesson(lesson: Lesson, checklist: seq<ChecklistItem>)

  // ----- Lookups by primary key: the first row with that id -----

  function FindTemplate(templates: seq<Template>, id: Id): Option<nat> {
    Seqs.FindFirst((t: Template) => t.id == id, templates)
  }

  function FindLesson(lessons: seq<Lesson>, id: Id): (r: Option<nat>)
    ensures r.Some? ==> r.value < |lessons| && lessons[r.value].id == id
    ensures r.Some? ==> forall i | 0 <= i < r.value :: lessons[i].id != id
    ensures r.None? <==> forall i | 0 <= i < |lessons| :: lessons[i].id != id
  {
    Seqs.FindFirst((l: Lesson) => l.id == id, lessons)
  }

  function FindItem(items: seq<ChecklistItem>, id: Id): (r: Option<nat>)
    ensures r.Some? ==> r.value < |items| && items[r.value].id == id
    ensures r.Some? ==> forall i | 0 <= i < r.value :: items[i].id != id
    ensures r.None? <==> forall i | 0 <= i < |items| :: items[i].id != id
  {
    Seqs.FindFirst((it: ChecklistItem) => it.id == id, items)
  }

  predicate HasSubject(db: Db, id: Id) {
    Seqs.FindFirst((s: Subject) => s.id == id, db.subjects).Some?
  }

  // ----- Store well-formedness: what the database schema guarantees -----

  /** Primary keys are unique and below their counter, and counters start at 1. */
  ghost predicate UniqueKeys(db: Db) {
    && 1 <= db.nextTemplateId && 1 <= db.nextTemplateItemId && 1 <= db.nextLessonId && 1 <= db.nextItemId
    && (forall i, j | 0 <= i < j < |db.subjects| :: db.subjects[i].id != db.subjects[j].id)
    && (forall i, j | 0 <= i < j < |db.templates| :: db.templates[i].id != db.templates[j].id)
    && (forall i | 0 <= i < |db.templates| :: 1 <= db.templates[i].id < db.nextTemplateId)
    && (forall i, j | 0 <= i < j < |db.lessons| :: db.lessons[i].id != db.lessons[j].id)
    && (forall i | 0 <= i < |db.lessons| :: 1 <= db.lessons[i].id < db.nextLessonId)
    && (forall i, j | 0 <= i < j < |db.items| :: db.items[i].id != db.items[j].id)
    && (forall i | 0 <= i < |db.items| :: 1 <= db.items[i].id < db.nextItemId)
  }

  /** Every foreign key (lesson to subject, item to lesson) names an existing row. */
  ghost predicate ReferencesExist(db: Db) {
    && (forall i | 0 <= i < |db.lessons| :: HasSubject(db, db.lessons[i].subjectId))
    && (forall i | 0 <= i < |db.items| :: FindLesson(db.lessons, db.items[i].lessonId).Some?)
  }

  /** What the database schema guarantees. */
  ghost predicate Valid(db: Db) {
    UniqueKeys(db) && ReferencesExist(db)
  }

  // ----- POST /api/templates -----

  /** The rows `items.map((text, index) => ({ text, order: index }))` creates. */
  function NumberedItems(templateId: Id, firstId: Id, texts: seq<string>): seq<TemplateItem> {
    seq(|texts|, i requires 0 <= i < |texts| => TemplateItem(firstId + i, templateId, texts[i], i))
  }

  /** Creates a template whose items are `texts` numbered from 0. A request
      without an `items` array fails (the `map` call throws). */
  function CreateTemplate(db: Db, name: string, description: Option<string>, texts: Option<seq<string>>): (r: Reply<Template>)
    ensures texts.None? ==> r == Reply(db, Err(Failed))
    ensures texts.Some? ==> r.result.Ok?
    ensures texts.Some? ==>
      var t := r.result.value;
      && t.id == db.nextTemplateId && t.name == name && t.description == description
      && |t.items| == |texts.value|
      && (forall i | 0 <= i < |t.items| ::
            && t.items[i].text == texts.value[i]
            && t.items[i].order == i
            && t.items[i].templateId == t.id
            && t.items[i].id == db.nextTemplateItemId + i)
      && r.db == db.(templates := db.templates + [t],
                     nextTemplateId := db.nextTemplateId + 1,
                     nextTemplateItemId := db.nextTemplateItemId + |texts.value|)
  {
    match texts
    case None => Reply(db, Err(Failed))
    case Some(ts) =>
      var t := Template(db.nextTemplateId, name, description, NumberedItems(db.nextTemplateId, db.nextTemplateItemId, ts));
      Reply(db.(templates := db.templates + [t],
                nextTemplateId := db.nextTemplateId + 1,
                nextTemplateItemId := db.nextTemplateItemId + |ts|),
            Ok(t))
  }

  // ----- POST /api/lessons -----

  /** The template a lesson request names: none when `templateId` is absent or
      falsy (0), and none when no template has that id. */
  function SelectTemplate(db: Db, templateId: Option<Id>): (t: Option<Template>)
    ensures t.Some? ==> t.value in db.templates && templateId == Some(t.value.id) && t.value.id != 0
    ensures t.None? ==>
      || templateId.None?
      || templateId.value == 0
      || forall i | 0 <= i < |db.templates| :: db.templates[i].id != templateId.value
  {
    if templateId.None? || templateId.value == 0 then None
    else
      match FindTemplate(db.templates, templateId.value)
      case None => None
      case Some(k) => Some(db.templates[k])
  }

  /** The template items a new lesson copies: those of the selected template, or none. */
  function SourceItems(db: Db, templateId: Option<Id>): seq<TemplateItem> {
    match SelectTemplate(db, templateId)
    case None => []
    case Some(t) => t.items
  }

  function CopyChecklist(lessonId: Id, firstId: Id, source: seq<TemplateItem>): seq<ChecklistItem> {
    seq(|source|, i requires 0 <= i < |source| => ChecklistItem(firstId + i, lessonId, source[i].text, false, source[i].order))
  }

  /** Creates a lesson, not completed, whose checklist is a fresh not-done copy of
      the selected template's items (text and order kept), or empty. A subject id
      that names no subject violates the foreign key and nothing is written. */
  function CreateLesson(db: Db, title: string, subjectId: Id, content: Option<string>, plannedDate: Day,
                        templateId: Option<Id>): (r: Reply<CreatedLesson>)
    ensures !HasSubject(db, subjectId) ==> r == Reply(db, Err(Failed))
    ensures HasSubject(db, subjectId) ==> r.result.Ok?
    ensures HasSubject(db, subjectId) ==>
      var created := r.result.value;
      var source := SourceItems(db, templateId);
      && created.lesson == Lesson(db.nextLessonId, title, subjectId, content, plannedDate, false)
      && |created.checklist| == |source|
      && (forall i | 0 <= i < |source| ::
            && created.checklist[i].text == source[i].text
            && created.checklist[i].order == source[i].order
            && !created.checklist[i].isCompleted
            && created.checklist[i].lessonId == created.lesson.id
            && created.checklist[i].id == db.nextItemId + i)
      && r.db == db.(lessons := db.lessons + [created.lesson],
                     items := db.items + created.checklist,
                     nextLessonId := db.nextLessonId + 1,
                     nextItemId := db.nextItemId + |source|)
  {
    var source := SourceItems(db, templateId);
    if !HasSubject(db, subjectId) then Reply(db, Err(Failed))
    else
      var lesson := Lesson(db.nextLessonId, title, subjectId, content, plannedDate, false);
      var checklist := CopyChecklist(lesson.id, db.nextItemId, source);
      Reply(db.(lessons := db.lessons + [lesson],
                items := db.items + checklist,
                nextLessonId := db.nextLessonId + 1,
                nextItemId := db.nextItemId + |source|),
            Ok(CreatedLesson(lesson, checklist)))
  }

  /** A missing, falsy or unknown template id is not an error: the lesson simply
      gets an empty checklist. */
  lemma UnknownTemplateGivesEmptyChecklist(db: Db, title: string, subjectId: Id, content: Option<string>,
                                           plannedDate: Day, templateId: Option<Id>)
    requires HasSubject(db, subjectId)
    requires templateId.None? || templateId.value == 0
             || forall i | 0 <= i < |db.templates| :: db.templates[i].id != templateId.value
    ensures CreateLesson(db, title, subjectId, content, plannedDate, templateId).result.Ok?
    ensures CreateLesson(db, title, subjectId, content, plannedDate, templateId).result.value.checklist == []
  {
  }

  // ----- PUT /api/lessons/:id/complete -----

  /** Overwrites the lesson's completion flag with `isCompleted`, whatever its
      checklist says. Updating a lesson that does not exist throws. */
  function SetCompletion(db: Db, lessonId: Id, isCompleted: bool): (r: Reply<Lesson>)
    ensures FindLesson(db.lessons, lessonId).None? ==> r == Reply(db, Err(Failed))
    ensures FindLesson(db.lessons, lessonId).Some? ==>
      var k := FindLesson(db.lessons, lessonId).value;
      && r.result == Ok(db.lessons[k].(isCompleted := isCompleted))
      && r.db == db.(lessons := db.lessons[k := r.result.value])
  {
    match FindLesson(db.lessons, lessonId)
    case None => Reply(db, Err(Failed))
    case Some(k) =>
      var updated := db.lessons[k].(isCompleted := isCompleted);
      Reply(db.(lessons := db.lessons[k := updated]), Ok(updated))
  }

  // ----- PUT /api/lessons/checklist-items/:id/toggle -----

  /** `allItems.every(i => i.isCompleted)` over the rows of lesson `lessonId`. */
  function AllDone(items: seq<ChecklistItem>, lessonId: Id): (r: bool)
    ensures r <==> forall i | 0 <= i < |items| && items[i].lessonId == lessonId :: items[i].isCompleted
    decreases |items|
  {
    if items == [] then true
    else (items[0].lessonId != lessonId || items[0].isCompleted) && AllDone(items[1..], lessonId)
  }

  /** Flips one checklist item, then sets its lesson's flag to "every item of
      that lesson is done" and replies with the flipped item. An unknown item id
      is a 404 and changes nothing. If the parent lesson were missing, the item
      would stay flipped and the lesson update would throw. */
  function ToggleItem(db: Db, itemId: Id): (r: Reply<ChecklistItem>)
    ensures FindItem(db.items, itemId).None? ==> r == Reply(db, Err(NotFound))
    ensures FindItem(db.items, itemId).Some? ==>
      var k := FindItem(db.items, itemId).value;
      var flipped := db.items[k].(isCompleted := !db.items[k].isCompleted);
      && r.db.items == db.items[k := flipped]
      && r.db == db.(items := r.db.items, lessons := r.db.lessons)
      && match FindLesson(db.lessons, flipped.lessonId)
         case None => r.result == Err(Failed) && r.db.lessons == db.lessons
         case Some(j) =>
           && r.result == Ok(flipped)
           && |r.db.lessons| == |db.lessons|
           && (forall m | 0 <= m < |db.lessons| && m != j :: r.db.lessons[m] == db.lessons[m])
           && r.db.lessons[j] == db.lessons[j].(isCompleted := r.db.lessons[j].isCompleted)
           && (r.db.lessons[j].isCompleted <==>
                 forall i | 0 <= i < |r.db.items| && r.db.items[i].lessonId == flipped.lessonId :: r.db.items[i].isCompleted)
  {
    match FindItem(db.items, itemId)
    case None => Reply(db, Err(NotFound))
    case Some(k) =>
      var item := db.items[k];
      var flipped := item.(isCompleted := !item.isCompleted);
      var items := db.items[k := flipped];
      var allDone := AllDone(items, item.lessonId);
      match FindLesson(db.lessons, item.lessonId)
      case None => Reply(db.(items := items), Err(Failed))
      case Some(j) =>
        Reply(db.(items := items, lessons := db.lessons[j := db.lessons[j].(isCompleted := allDone)]), Ok(flipped))
  }
}
