/** The two read queries over lessons in `server/src/app.ts`: the next three
    pending lessons, and the number of overdue ones. `today` is the current day,
    with its time of day cut off. */
module LessonQueries {
  import opened Dates
  import opened LessonStore
  import Seqs

  /** Kept by `GET /api/lessons/upcoming`: not completed, planned today or later. */
  predicate IsPending(today: Day, l: Lesson) {
    !l.isCompleted && l.plannedDate >= today
  }

  /** Counted by `GET /api/stats/progress`: not completed, planned before today. */
  predicate IsOverdue(today: Day, l: Lesson) {
    !l.isCompleted && l.plannedDate < today
  }

  /** `take: 3` */
  const UpcomingLimit: nat := 3

  ghost predicate SortedByDate(s: seq<Lesson>) {
    forall i, j | 0 <= i < j < |s| :: s[i].plannedDate <= s[j].plannedDate
  }

  /** Inserts `x` after every lesson planned no later than it. */
  function InsertByDate(x: Lesson, s: seq<Lesson>): (r: seq<Lesson>)
    requires SortedByDate(s)
    ensures SortedByDate(r)
    ensures multiset(r) == multiset(s) + multiset{x}
    ensures forall i | 0 <= i < |r| :: r[i] == x || r[i] in s
    decreases |s|
  {
    if s == [] then [x]
    else if x.plannedDate < s[0].plannedDate then
      SortedCons(x, s);
      [x] + s
    else
      var rest := InsertByDate(x, s[1..]);
      InsertBehindHead(x, s, rest);
      [s[0]] + rest
  }

  /** Putting the head back in front of `x` inserted into the tail keeps every
      property of the insertion. */
  lemma InsertBehindHead(x: Lesson, s: seq<Lesson>, rest: seq<Lesson>)
    requires SortedByDate(s) && s != [] && s[0].plannedDate <= x.plannedDate
    requires SortedByDate(rest)
    requires multiset(rest) == multiset(s[1..]) + multiset{x}
    requires forall i | 0 <= i < |rest| :: rest[i] == x || rest[i] in s[1..]
    ensures SortedByDate([s[0]] + rest)
    ensures multiset([s[0]] + rest) == multiset(s) + multiset{x}
    ensures forall i | 0 <= i < |[s[0]] + rest| :: ([s[0]] + rest)[i] == x || ([s[0]] + rest)[i] in s
  {
    assert s == [s[0]] + s[1..];
    HeadNoLaterThanRest(x, s, rest);
    SortedCons(s[0], rest);
    var r := [s[0]] + rest;
    forall i | 0 <= i < |r|
      ensures r[i] == x || r[i] in s
    {
      if i > 0 {
        assert r[i] == rest[i - 1];
      }
    }
  }

  /** Whatever is drawn from the tail of a sorted list, or planned no earlier than its head,
      is planned no earlier than its head. */
  lemma HeadNoLaterThanRest(x: Lesson, s: seq<Lesson>, rest: seq<Lesson>)
    requires SortedByDate(s) && s != [] && s[0].plannedDate <= x.plannedDate
    requires forall i | 0 <= i < |rest| :: rest[i] == x || rest[i] in s[1..]
    ensures forall i | 0 <= i < |rest| :: s[0].plannedDate <= rest[i].plannedDate
  {
    forall i | 0 <= i < |rest|
      ensures s[0].plannedDate <= rest[i].plannedDate
    {
      if rest[i] != x {
        var k :| 0 <= k < |s[1..]| && s[1..][k] == rest[i];
        assert s[k + 1] == rest[i];
      }
    }
  }

  /** A lesson no later than every lesson of a sorted list can go in front of it. */
  lemma SortedCons(x: Lesson, s: seq<Lesson>)
    requires SortedByDate(s)
    requires forall i | 0 <= i < |s| :: x.plannedDate <= s[i].plannedDate
    ensures SortedByDate([x] + s)
  {
    assert forall i | 0 <= i < |s| :: ([x] + s)[i + 1] == s[i];
  }

  /** `orderBy: { plannedDate: 'asc' }`, keeping insertion order among lessons of one day. */
  function SortByDate(s: seq<Lesson>): (r: seq<Lesson>)
    ensures SortedByDate(r)
    ensures multiset(r) == multiset(s)
    decreases |s|
  {
    if s == [] then []
    else
      assert s == s[..|s| - 1] + [s[|s| - 1]];
      InsertByDate(s[|s| - 1], SortByDate(s[..|s| - 1]))
  }

  /** A lesson of a sorted list that is not among its first `n` lies after them. */
  lemma NotInPrefixComesLater(sorted: seq<Lesson>, n: nat, x: Lesson)
    requires SortedByDate(sorted) && 0 < n <= |sorted|
    requires x in sorted && x !in sorted[..n]
    ensures n < |sorted| && sorted[n - 1].plannedDate <= x.plannedDate
  {
    assert forall k | 0 <= k < n :: sorted[..n][k] == sorted[k];
  }

  /** The first `n` lessons of a date-sorted permutation of `pending`, where `n`
      is the limit or fewer: what a `take` after an `orderBy` returns. */
  lemma EarliestOfPending(pending: seq<Lesson>, sorted: seq<Lesson>, n: nat)
    requires SortedByDate(sorted) && multiset(sorted) == multiset(pending)
    requires n == Seqs.Min(UpcomingLimit, |sorted|)
    ensures |sorted| == |pending|
    ensures forall i | 0 <= i < n :: sorted[i] in pending
    ensures forall x | x in pending && x !in sorted[..n] :: n == UpcomingLimit && sorted[n - 1].plannedDate <= x.plannedDate
  {
    assert |sorted| == |multiset(sorted)| == |multiset(pending)| == |pending|;
    assert forall i | 0 <= i < |sorted| :: sorted[i] in multiset(pending);
    forall x | x in pending && x !in sorted[..n]
      ensures n == UpcomingLimit && sorted[n - 1].plannedDate <= x.plannedDate
    {
      assert x in multiset(sorted);
      NotInPrefixComesLater(sorted, n, x);
    }
  }

  /** The filter of `GET /api/lessons/upcoming`, as a value to hand to `Seqs`. */
  function Pending(today: Day): Lesson -> bool {
    (l: Lesson) => IsPending(today, l)
  }

  /** `GET /api/lessons/upcoming`: the earliest three pending lessons, earliest first. */
  function Upcoming(lessons: seq<Lesson>, today: Day): (r: seq<Lesson>)
    ensures |r| == Seqs.Min(UpcomingLimit, Seqs.Count(Pending(today), lessons))
    ensures forall i | 0 <= i < |r| :: IsPending(today, r[i]) && r[i] in lessons
    ensures SortedByDate(r)
    ensures forall i | 0 <= i < |lessons| && IsPending(today, lessons[i]) && lessons[i] !in r ::
              |r| == UpcomingLimit && r[|r| - 1].plannedDate <= lessons[i].plannedDate
    ensures multiset(r) <= multiset(Seqs.Filter(Pending(today), lessons))
  {
    var pending := Seqs.Filter(Pending(today), lessons);
    var sorted := SortByDate(pending);
    var n := Seqs.Min(UpcomingLimit, |sorted|);
    EarliestOfPending(pending, sorted, n);
    TakenArePending(lessons, today, sorted, n);
    LeftOutComeLater(lessons, today, sorted, n);
    SortedPrefix(sorted, n);
    PrefixSubMultiset(sorted, n);
    sorted[..n]
  }

  /** A prefix takes no element more often than the whole list has it. */
  lemma PrefixSubMultiset(s: seq<Lesson>, n: nat)
    requires n <= |s|
    ensures multiset(s[..n]) <= multiset(s)
  {
    assert s == s[..n] + s[n..];
  }

  lemma SortedPrefix(s: seq<Lesson>, n: nat)
    requires SortedByDate(s) && n <= |s|
    ensures SortedByDate(s[..n])
  {
    assert forall i | 0 <= i < n :: s[..n][i] == s[i];
  }

  lemma TakenArePending(lessons: seq<Lesson>, today: Day, sorted: seq<Lesson>, n: nat)
    requires n <= |sorted|
    requires forall i | 0 <= i < n :: sorted[i] in Seqs.Filter(Pending(today), lessons)
    ensures forall i | 0 <= i < n :: IsPending(today, sorted[..n][i]) && sorted[..n][i] in lessons
  {
    var pending := Seqs.Filter(Pending(today), lessons);
    forall i | 0 <= i < n
      ensures IsPending(today, sorted[..n][i]) && sorted[..n][i] in lessons
    {
      var k :| 0 <= k < |pending| && pending[k] == sorted[i];
      assert Pending(today)(pending[k]);
    }
  }

  lemma LeftOutComeLater(lessons: seq<Lesson>, today: Day, sorted: seq<Lesson>, n: nat)
    requires n <= |sorted|
    requires forall x | x in Seqs.Filter(Pending(today), lessons) && x !in sorted[..n] ::
      n == UpcomingLimit && sorted[n - 1].plannedDate <= x.plannedDate
    ensures forall i | 0 <= i < |lessons| && IsPending(today, lessons[i]) && lessons[i] !in sorted[..n] ::
      n == UpcomingLimit && sorted[n - 1].plannedDate <= lessons[i].plannedDate
  {
    var pending := Seqs.Filter(Pending(today), lessons);
    assert forall i | 0 <= i < |lessons| && Pending(today)(lessons[i]) :: lessons[i] in pending;
  }

  /** `prisma.lessonPlan.count(...)` for overdue lessons, as the loop a database
      would run over the table. */
  method OverdueCount(lessons: seq<Lesson>, today: Day) returns (n: nat)
    ensures n == Seqs.Count((l: Lesson) => IsOverdue(today, l), lessons)
    ensures n + Seqs.Count((l: Lesson) => !IsOverdue(today, l), lessons) == |lessons|
  {
    n := 0;
    var i := 0;
    while i < |lessons|
      invariant 0 <= i <= |lessons|
      invariant n == Seqs.Count((l: Lesson) => IsOverdue(today, l), lessons[..i])
    {
      Seqs.CountAppend((l: Lesson) => IsOverdue(today, l), lessons[..i], [lessons[i]]);
      assert lessons[..i + 1] == lessons[..i] + [lessons[i]];
      if IsOverdue(today, lessons[i]) {
        n := n + 1;
      }
      i := i + 1;
    }
    assert lessons[..i] == lessons;
    Seqs.CountComplement((l: Lesson) => IsOverdue(today, l), (l: Lesson) => !IsOverdue(today, l), lessons);
  }

  /** Every lesson is exactly one of: completed, overdue, pending. */
  lemma {:induction false} LessonsPartition(lessons: seq<Lesson>, today: Day)
    ensures Seqs.Count((l: Lesson) => l.isCompleted, lessons)
            + Seqs.Count((l: Lesson) => IsOverdue(today, l), lessons)
            + Seqs.Count((l: Lesson) => IsPending(today, l), lessons) == |lessons|
    decreases |lessons|
  {
    if lessons != [] {
      LessonsPartition(lessons[1..], today);
    }
  }
}
