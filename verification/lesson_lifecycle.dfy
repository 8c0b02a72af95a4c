/** Properties of the lesson store that relate several handler calls: the
    schema invariant every handler keeps, toggling as an involution, and the
    derived completion rule that toggling restores and the manual override can
    break. */
module LessonLifecycle {
  import opened Outcomes
  import opened Dates
  import opened LessonStore

  /** Looking a row up by id depends on the ids alone. */
  lemma FindItemSameIds(a: seq<ChecklistItem>, b: seq<ChecklistItem>, id: Id)
    requires |a| == |b|
    requires forall i | 0 <= i < |a| :: a[i].id == b[i].id
    ensures FindItem(a, id) == FindItem(b, id)
  {
    var ra, rb := FindItem(a, id), FindItem(b, id);
    if ra.Some? && rb.Some? {
      assert a[rb.value].id == id;
      assert b[ra.value].id == id;
    }
  }

  lemma FindLessonSameIds(a: seq<Lesson>, b: seq<Lesson>, id: Id)
    requires |a| == |b|
    requires forall i | 0 <= i < |a| :: a[i].id == b[i].id
    ensures FindLesson(a, id) == FindLesson(b, id)
  {
    var ra, rb := FindLesson(a, id), FindLesson(b, id);
    if ra.Some? && rb.Some? {
      assert a[rb.value].id == id;
      assert b[ra.value].id == id;
    }
  }

  /** A row found in a table is still found, at the same place, once rows are appended. */
  lemma FindLessonAppend(a: seq<Lesson>, extra: seq<Lesson>, id: Id)
    requires FindLesson(a, id).Some?
    ensures FindLesson(a + extra, id) == FindLesson(a, id)
  {
    var k := FindLesson(a, id).value;
    assert (a + extra)[k].id == id;
    var r := FindLesson(a + extra, id);
    assert r.value <= k;
    assert a[r.value].id == id;
  }

  // ----- Toggling -----

  /** Toggling an item twice gives the checklist table back unchanged, and the
      second reply is the original item. */
  lemma ToggleTwiceRestoresItem(db: Db, itemId: Id)
    requires FindItem(db.items, itemId).Some?
    ensures ToggleItem(ToggleItem(db, itemId).db, itemId).db.items == db.items
    ensures ToggleItem(db, itemId).result.Ok? ==>
      ToggleItem(ToggleItem(db, itemId).db, itemId).result == Ok(db.items[FindItem(db.items, itemId).value])
  {
    var k := FindItem(db.items, itemId).value;
    var first := ToggleItem(db, itemId);
    FindItemSameIds(db.items, first.db.items, itemId);
    var lessonId := db.items[k].lessonId;
    assert first.db.items[k].lessonId == lessonId;
    if FindLesson(db.lessons, lessonId).Some? {
      FindLessonSameIds(db.lessons, first.db.lessons, lessonId);
    }
    assert db.items[k := first.db.items[k]][k := db.items[k]] == db.items;
  }

  /** In a well-formed store every item's lesson exists, so a toggle of an
      existing item always succeeds. */
  lemma ToggleSucceedsOnValidStore(db: Db, itemId: Id)
    requires Valid(db)
    requires FindItem(db.items, itemId).Some?
    ensures ToggleItem(db, itemId).result.Ok?
    ensures ToggleItem(db, itemId).result.value.isCompleted == !db.items[FindItem(db.items, itemId).value].isCompleted
  {
  }

  /** Some checklist item belongs to the lesson. */
  ghost predicate HasChecklist(items: seq<ChecklistItem>, lessonId: Id) {
    exists i | 0 <= i < |items| :: items[i].lessonId == lessonId
  }

  /** The derived completion rule: a lesson with a checklist is completed exactly
      when all of its items are. */
  ghost predicate CompletionDerived(db: Db) {
    forall j | 0 <= j < |db.lessons| && HasChecklist(db.items, db.lessons[j].id) ::
      db.lessons[j].isCompleted == AllDone(db.items, db.lessons[j].id)
  }

  /** Replacing an item of another lesson changes neither "has a checklist" nor "all done". */
  lemma OtherLessonUnaffected(items: seq<ChecklistItem>, k: nat, x: ChecklistItem, lessonId: Id)
    requires k < |items|
    requires items[k].lessonId != lessonId && x.lessonId != lessonId
    ensures HasChecklist(items[k := x], lessonId) == HasChecklist(items, lessonId)
    ensures AllDone(items[k := x], lessonId) == AllDone(items, lessonId)
  {
    var updated := items[k := x];
    assert forall i | 0 <= i < |items| && i != k :: updated[i] == items[i];
    if HasChecklist(items, lessonId) {
      var i :| 0 <= i < |items| && items[i].lessonId == lessonId;
      assert updated[i].lessonId == lessonId;
    }
    if HasChecklist(updated, lessonId) {
      var i :| 0 <= i < |updated| && updated[i].lessonId == lessonId;
      assert items[i].lessonId == lessonId;
    }
  }

  /** A toggle on a well-formed store re-establishes the derived completion rule
      for the item's lesson and leaves it intact for every other lesson. */
  lemma ToggleKeepsCompletionDerived(db: Db, itemId: Id)
    requires Valid(db) && CompletionDerived(db)
    ensures CompletionDerived(ToggleItem(db, itemId).db)
  {
    var r := ToggleItem(db, itemId);
    if FindItem(db.items, itemId).Some? {
      var k := FindItem(db.items, itemId).value;
      var lessonId := db.items[k].lessonId;
      var j := FindLesson(db.lessons, lessonId).value;
      forall m | 0 <= m < |r.db.lessons| && HasChecklist(r.db.items, r.db.lessons[m].id)
        ensures r.db.lessons[m].isCompleted == AllDone(r.db.items, r.db.lessons[m].id)
      {
        if m != j {
          assert r.db.lessons[m] == db.lessons[m];
          assert db.lessons[m].id != lessonId;
          OtherLessonUnaffected(db.items, k, r.db.items[k], db.lessons[m].id);
        }
      }
    }
  }

  /** The manual override is not bound by the rule: marking done a lesson that
      still has an unfinished item breaks it. */
  lemma ManualOverrideBreaksCompletionDerived(db: Db, lessonId: Id, i: nat)
    requires FindLesson(db.lessons, lessonId).Some?
    requires i < |db.items| && db.items[i].lessonId == lessonId && !db.items[i].isCompleted
    ensures SetCompletion(db, lessonId, true).result.Ok?
    ensures SetCompletion(db, lessonId, true).result.value.isCompleted
    ensures !CompletionDerived(SetCompletion(db, lessonId, true).db)
  {
    var k := FindLesson(db.lessons, lessonId).value;
    var after := SetCompletion(db, lessonId, true).db;
    assert after.lessons[k].id == lessonId && after.lessons[k].isCompleted;
    assert HasChecklist(after.items, after.lessons[k].id);
    assert !AllDone(after.items, lessonId);
  }

  /** Items of other lessons added to the table change neither "has a checklist"
      nor "all done" for a lesson. */
  lemma ForeignItemsAppended(items: seq<ChecklistItem>, extra: seq<ChecklistItem>, lessonId: Id)
    requires forall t | 0 <= t < |extra| :: extra[t].lessonId != lessonId
    ensures HasChecklist(items + extra, lessonId) == HasChecklist(items, lessonId)
    ensures AllDone(items + extra, lessonId) == AllDone(items, lessonId)
  {
    var all := items + extra;
    assert forall t | 0 <= t < |items| :: all[t] == items[t];
    assert forall t | |items| <= t < |all| :: all[t] == extra[t - |items|];
  }

  /** A new lesson starts incomplete with all of its copied items undone, and its
      fresh id owns no older item, so creating it keeps the rule. */
  lemma CreateLessonKeepsCompletionDerived(db: Db, title: string, subjectId: Id, content: Option<string>,
                                           plannedDate: Day, templateId: Option<Id>)
    requires Valid(db) && CompletionDerived(db)
    ensures CompletionDerived(CreateLesson(db, title, subjectId, content, plannedDate, templateId).db)
  {
    var r := CreateLesson(db, title, subjectId, content, plannedDate, templateId);
    if HasSubject(db, subjectId) {
      var created := r.result.value;
      var newId := db.nextLessonId;
      assert r.db.items == db.items + created.checklist;
      forall m | 0 <= m < |r.db.lessons| && HasChecklist(r.db.items, r.db.lessons[m].id)
        ensures r.db.lessons[m].isCompleted == AllDone(r.db.items, r.db.lessons[m].id)
      {
        var lid := r.db.lessons[m].id;
        if m < |db.lessons| {
          assert r.db.lessons[m] == db.lessons[m];
          ForeignItemsAppended(db.items, created.checklist, lid);
        } else {
          NewLessonNotDone(db, created.checklist, newId);
        }
      }
    }
  }

  /** The fresh lesson id owns only the new, undone items, so the lesson is not all done. */
  lemma NewLessonNotDone(db: Db, checklist: seq<ChecklistItem>, newId: Id)
    requires Valid(db) && newId == db.nextLessonId
    requires forall t | 0 <= t < |checklist| :: checklist[t].lessonId == newId && !checklist[t].isCompleted
    requires HasChecklist(db.items + checklist, newId)
    ensures !AllDone(db.items + checklist, newId)
  {
    var all := db.items + checklist;
    forall t | 0 <= t < |db.items|
      ensures db.items[t].lessonId != newId
    {
      var w := FindLesson(db.lessons, db.items[t].lessonId).value;
      assert db.lessons[w].id < db.nextLessonId;
    }
    var i :| 0 <= i < |all| && all[i].lessonId == newId;
    assert !all[i].isCompleted;
  }

  // ----- The schema invariant -----

  lemma CreateTemplatePreservesValid(db: Db, name: string, description: Option<string>, texts: Option<seq<string>>)
    requires Valid(db)
    ensures Valid(CreateTemplate(db, name, description, texts).db)
  {
  }

  lemma CreateLessonPreservesValid(db: Db, title: string, subjectId: Id, content: Option<string>,
                                   plannedDate: Day, templateId: Option<Id>)
    requires Valid(db)
    ensures Valid(CreateLesson(db, title, subjectId, content, plannedDate, templateId).db)
  {
    CreateLessonKeepsKeysUnique(db, title, subjectId, content, plannedDate, templateId);
    CreateLessonKeepsReferences(db, title, subjectId, content, plannedDate, templateId);
  }

  lemma CreateLessonKeepsKeysUnique(db: Db, title: string, subjectId: Id, content: Option<string>,
                                    plannedDate: Day, templateId: Option<Id>)
    requires UniqueKeys(db)
    ensures UniqueKeys(CreateLesson(db, title, subjectId, content, plannedDate, templateId).db)
  {
    var r := CreateLesson(db, title, subjectId, content, plannedDate, templateId);
    if HasSubject(db, subjectId) {
      AppendingLessonKeepsKeysUnique(db, r.result.value.lesson, r.result.value.checklist);
    }
  }

  /** Appending a lesson with the next lesson id and items numbered from the next
      item id keeps every key unique. */
  lemma AppendingLessonKeepsKeysUnique(db: Db, lesson: Lesson, checklist: seq<ChecklistItem>)
    requires UniqueKeys(db)
    requires lesson.id == db.nextLessonId
    requires forall i | 0 <= i < |checklist| :: checklist[i].id == db.nextItemId + i
    ensures UniqueKeys(db.(lessons := db.lessons + [lesson], items := db.items + checklist,
                           nextLessonId := db.nextLessonId + 1, nextItemId := db.nextItemId + |checklist|))
  {
    var items := db.items + checklist;
    var n := |db.items|;
    assert forall i | n <= i < |items| :: items[i] == checklist[i - n];
    assert forall i | 0 <= i < n :: items[i] == db.items[i];
  }

  lemma CreateLessonKeepsReferences(db: Db, title: string, subjectId: Id, content: Option<string>,
                                    plannedDate: Day, templateId: Option<Id>)
    requires ReferencesExist(db)
    ensures ReferencesExist(CreateLesson(db, title, subjectId, content, plannedDate, templateId).db)
  {
    var r := CreateLesson(db, title, subjectId, content, plannedDate, templateId);
    if HasSubject(db, subjectId) {
      var lessons := r.db.lessons;
      assert lessons == db.lessons + [r.result.value.lesson];
      assert FindLesson(lessons, db.nextLessonId).Some? by {
        assert lessons[|db.lessons|].id == db.nextLessonId;
      }
      forall i | 0 <= i < |r.db.items|
        ensures FindLesson(lessons, r.db.items[i].lessonId).Some?
      {
        if i < |db.items| {
          assert r.db.items[i] == db.items[i];
          FindLessonAppend(db.lessons, [r.result.value.lesson], db.items[i].lessonId);
        }
      }
    }
  }

  /** Two stores that agree on everything but completion flags. */
  ghost predicate SameKeys(a: Db, b: Db) {
    && a.subjects == b.subjects && a.templates == b.templates
    && a.nextTemplateId == b.nextTemplateId && a.nextTemplateItemId == b.nextTemplateItemId
    && a.nextLessonId == b.nextLessonId && a.nextItemId == b.nextItemId
    && |a.lessons| == |b.lessons| && |a.items| == |b.items|
    && (forall i | 0 <= i < |a.lessons| :: a.lessons[i].id == b.lessons[i].id && a.lessons[i].subjectId == b.lessons[i].subjectId)
    && (forall i | 0 <= i < |a.items| :: a.items[i].id == b.items[i].id && a.items[i].lessonId == b.items[i].lessonId)
  }

  lemma ValidDependsOnKeysOnly(a: Db, b: Db)
    requires Valid(a) && SameKeys(a, b)
    ensures Valid(b)
  {
    assert forall i | 0 <= i < |b.lessons| :: HasSubject(b, b.lessons[i].subjectId) by {
      forall i | 0 <= i < |b.lessons|
        ensures HasSubject(b, b.lessons[i].subjectId)
      {
        assert HasSubject(a, a.lessons[i].subjectId);
      }
    }
    forall i | 0 <= i < |b.items|
      ensures FindLesson(b.lessons, b.items[i].lessonId).Some?
    {
      FindLessonSameIds(a.lessons, b.lessons, b.items[i].lessonId);
    }
  }

  lemma SetCompletionPreservesValid(db: Db, lessonId: Id, isCompleted: bool)
    requires Valid(db)
    ensures Valid(SetCompletion(db, lessonId, isCompleted).db)
  {
    ValidDependsOnKeysOnly(db, SetCompletion(db, lessonId, isCompleted).db);
  }

  lemma TogglePreservesValid(db: Db, itemId: Id)
    requires Valid(db)
    ensures Valid(ToggleItem(db, itemId).db)
  {
    ToggleKeepsKeys(db, itemId);
    ValidDependsOnKeysOnly(db, ToggleItem(db, itemId).db);
  }

  /** A toggle changes completion flags only. */
  lemma ToggleKeepsKeys(db: Db, itemId: Id)
    ensures SameKeys(db, ToggleItem(db, itemId).db)
  {
  }

  // ----- From template to lesson -----

  /** A lesson created from a just-created template gets one not-done checklist
      item per template text, with that text and order 0, 1, 2, ... */
  lemma TemplateTextsReachLesson(db: Db, name: string, texts: seq<string>, title: string, subjectId: Id,
                                 plannedDate: Day)
    requires Valid(db) && HasSubject(db, subjectId)
    ensures
      var t := CreateTemplate(db, name, None, Some(texts));
      var l := CreateLesson(t.db, title, subjectId, None, plannedDate, Some(t.result.value.id));
      && l.result.Ok?
      && |l.result.value.checklist| == |texts|
      && !l.result.value.lesson.isCompleted
      && forall i | 0 <= i < |texts| ::
           && l.result.value.checklist[i].text == texts[i]
           && l.result.value.checklist[i].order == i
           && !l.result.value.checklist[i].isCompleted
  {
    var t := CreateTemplate(db, name, None, Some(texts));
    var tid := t.result.value.id;
    var k := FindTemplate(t.db.templates, tid);
    assert t.db.templates[|db.templates|].id == tid;
    assert k.Some? && k.value == |db.templates|;
    assert SourceItems(t.db, Some(tid)) == t.result.value.items;
  }
}
