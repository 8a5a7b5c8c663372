/** The lesson store the generator reads and appends to, and the three
    questions it asks of it: is the teacher free at a slot, does the
    subgroup already have a lesson at a slot, and how many lessons does the
    subgroup have on a date. Every question sees all lessons in the store,
    including the ones written earlier in the same run. */
module LessonStore {
  import opened Entities

  /** Number of lessons of subgroup `sgId` on `date`, of any kind. */
  function DailyLoad(store: seq<Lesson>, sgId: nat, date: int): (n: nat)
    ensures n <= |store|
    ensures n == 0 <==> forall i :: 0 <= i < |store| ==> !(store[i].subgroup.id == sgId && store[i].date == date)
    decreases |store|
  {
    if |store| == 0 then 0
    else
      var last := store[|store| - 1];
      DailyLoad(store[..|store| - 1], sgId, date) + (if last.subgroup.id == sgId && last.date == date then 1 else 0)
  }

  /** Number of lessons of kind `kind` of course `courseId` for subgroup `sgId`. */
  function SessionCount(store: seq<Lesson>, courseId: nat, sgId: nat, kind: LessonType): (n: nat)
    ensures n <= |store|
    ensures n == 0 <==> forall i :: 0 <= i < |store| ==>
      !(store[i].course.id == courseId && store[i].subgroup.id == sgId && store[i].kind == kind)
    decreases |store|
  {
    if |store| == 0 then 0
    else
      var last := store[|store| - 1];
      SessionCount(store[..|store| - 1], courseId, sgId, kind)
        + (if last.course.id == courseId && last.subgroup.id == sgId && last.kind == kind then 1 else 0)
  }

  /** Number of lessons taught by teacher `teacherId`. */
  function TeacherLessons(store: seq<Lesson>, teacherId: nat): (n: nat)
    ensures n <= |store|
    ensures n == 0 <==> forall i :: 0 <= i < |store| ==> store[i].course.teacher.id != teacherId
    decreases |store|
  {
    if |store| == 0 then 0
    else
      TeacherLessons(store[..|store| - 1], teacherId) + (if store[|store| - 1].course.teacher.id == teacherId then 1 else 0)
  }

  /** Some lesson of the teacher starts at `start` on `date`. */
  function TeacherBusy(store: seq<Lesson>, teacherId: nat, date: int, start: int): (busy: bool)
    ensures busy <==> exists i :: 0 <= i < |store| && store[i].course.teacher.id == teacherId
                                  && store[i].date == date && store[i].startTime == start
    decreases |store|
  {
    if |store| == 0 then false
    else
      var last := store[|store| - 1];
      (last.course.teacher.id == teacherId && last.date == date && last.startTime == start)
      || TeacherBusy(store[..|store| - 1], teacherId, date, start)
  }

  /** The teacher check of both passes: only the teacher, the date and the
      slot's start time are compared; the slot's end time plays no part. */
  function IsTeacherAvailable(store: seq<Lesson>, teacher: Teacher, date: int, slot: Timeslot): (free: bool)
    ensures free <==> forall i :: 0 <= i < |store| ==>
      !(store[i].course.teacher.id == teacher.id && store[i].date == date && store[i].startTime == slot.start)
  {
    !TeacherBusy(store, teacher.id, date, slot.start)
  }

  /** Some lesson of the subgroup starts at `start` on `date`. */
  function HasLessonAt(store: seq<Lesson>, sgId: nat, date: int, start: int): (taken: bool)
    ensures taken <==> exists i :: 0 <= i < |store| && store[i].subgroup.id == sgId
                                   && store[i].date == date && store[i].startTime == start
    decreases |store|
  {
    if |store| == 0 then false
    else
      var last := store[|store| - 1];
      (last.subgroup.id == sgId && last.date == date && last.startTime == start)
      || HasLessonAt(store[..|store| - 1], sgId, date, start)
  }

  predicate SameSlot(a: Lesson, b: Lesson)
  {
    a.date == b.date && a.startTime == b.startTime
  }

  predicate SameTeacherSlot(a: Lesson, b: Lesson)
  {
    a.course.teacher.id == b.course.teacher.id && SameSlot(a, b)
  }

  predicate SameSubgroupSlot(a: Lesson, b: Lesson)
  {
    a.subgroup.id == b.subgroup.id && SameSlot(a, b)
  }

  /** `store` is `init` with lessons appended. */
  ghost predicate Extends(init: seq<Lesson>, store: seq<Lesson>)
  {
    |init| <= |store| && store[..|init|] == init
  }

  /** Daily-load ceiling relative to a starting store: every subgroup's load
      on every date is at most the ceiling, or has not changed. */
  ghost predicate WithinCeiling(init: seq<Lesson>, store: seq<Lesson>)
  {
    forall sgId: nat, d: int :: DailyLoad(store, sgId, d) <= MaxLessonsForSubgroup
                                || DailyLoad(store, sgId, d) == DailyLoad(init, sgId, d)
  }

  /** No two lessons of `b` are for the same subgroup on the same date. */
  ghost predicate DistinctSubgroupDates(b: seq<Lesson>)
  {
    forall i, j :: 0 <= i < j < |b| ==> !(b[i].subgroup.id == b[j].subgroup.id && b[i].date == b[j].date)
  }

  lemma {:induction false} DailyLoadAppend(a: seq<Lesson>, b: seq<Lesson>, sgId: nat, date: int)
    ensures DailyLoad(a + b, sgId, date) == DailyLoad(a, sgId, date) + DailyLoad(b, sgId, date)
    decreases |b|
  {
    if |b| == 0 {
      assert a + b == a;
    } else {
      assert (a + b)[..|a + b| - 1] == a + b[..|b| - 1];
      DailyLoadAppend(a, b[..|b| - 1], sgId, date);
    }
  }

  lemma {:induction false} SessionCountAppend(a: seq<Lesson>, b: seq<Lesson>, courseId: nat, sgId: nat, kind: LessonType)
    ensures SessionCount(a + b, courseId, sgId, kind) == SessionCount(a, courseId, sgId, kind) + SessionCount(b, courseId, sgId, kind)
    decreases |b|
  {
    if |b| == 0 {
      assert a + b == a;
    } else {
      assert (a + b)[..|a + b| - 1] == a + b[..|b| - 1];
      SessionCountAppend(a, b[..|b| - 1], courseId, sgId, kind);
    }
  }

  lemma {:induction false} TeacherLessonsAppend(a: seq<Lesson>, b: seq<Lesson>, teacherId: nat)
    ensures TeacherLessons(a + b, teacherId) == TeacherLessons(a, teacherId) + TeacherLessons(b, teacherId)
    decreases |b|
  {
    if |b| == 0 {
      assert a + b == a;
    } else {
      assert (a + b)[..|a + b| - 1] == a + b[..|b| - 1];
      TeacherLessonsAppend(a, b[..|b| - 1], teacherId);
    }
  }

  /** A batch that never repeats a (subgroup, date) adds at most one lesson
      to any subgroup's daily load, and one exactly when it holds a lesson
      for that subgroup and date. */
  lemma {:induction false} DistinctBatchLoad(b: seq<Lesson>, sgId: nat, date: int)
    requires DistinctSubgroupDates(b)
    ensures DailyLoad(b, sgId, date) <= 1
    ensures DailyLoad(b, sgId, date) == 1 ==>
      exists i :: 0 <= i < |b| && b[i].subgroup.id == sgId && b[i].date == date
    decreases |b|
  {
    if |b| > 0 {
      var n := |b| - 1;
      var last := b[n];
      assert DistinctSubgroupDates(b[..n]);
      DistinctBatchLoad(b[..n], sgId, date);
      if last.subgroup.id == sgId && last.date == date {
        forall i | 0 <= i < n
          ensures !(b[..n][i].subgroup.id == sgId && b[..n][i].date == date)
        {
          assert b[..n][i] == b[i];
        }
      }
    }
  }

  /** Appending a batch whose lessons each go to a subgroup still below the
      ceiling on that date, never twice to the same subgroup and date,
      preserves the ceiling. */
  lemma AppendKeepsCeiling(init: seq<Lesson>, store: seq<Lesson>, b: seq<Lesson>)
    requires WithinCeiling(init, store)
    requires DistinctSubgroupDates(b)
    requires forall i :: 0 <= i < |b| ==> DailyLoad(store, b[i].subgroup.id, b[i].date) < MaxLessonsForSubgroup
    ensures WithinCeiling(init, store + b)
  {
    forall sgId: nat, d: int
      ensures DailyLoad(store + b, sgId, d) <= MaxLessonsForSubgroup
              || DailyLoad(store + b, sgId, d) == DailyLoad(init, sgId, d)
    {
      DailyLoadAppend(store, b, sgId, d);
      DistinctBatchLoad(b, sgId, d);
    }
  }

  /** If the starting store is within the ceiling everywhere, so is every
      store that stays within the ceiling relative to it. */
  lemma CeilingHolds(init: seq<Lesson>, store: seq<Lesson>)
    requires WithinCeiling(init, store)
    requires forall sgId: nat, d: int :: DailyLoad(init, sgId, d) <= MaxLessonsForSubgroup
    ensures forall sgId: nat, d: int :: DailyLoad(store, sgId, d) <= MaxLessonsForSubgroup
  {
  }

  /** Staying within the ceiling composes over consecutive passes. */
  lemma CeilingTrans(s0: seq<Lesson>, s1: seq<Lesson>, s2: seq<Lesson>)
    requires WithinCeiling(s0, s1) && WithinCeiling(s1, s2)
    ensures WithinCeiling(s0, s2)
  {
  }

  /** Appending lessons none of which is of `kind` leaves that kind's
      session counts alone. */
  lemma SessionCountUntouched(init: seq<Lesson>, store: seq<Lesson>, courseId: nat, sgId: nat, kind: LessonType)
    requires Extends(init, store)
    requires forall j :: |init| <= j < |store| ==> store[j].kind != kind
    ensures SessionCount(store, courseId, sgId, kind) == SessionCount(init, courseId, sgId, kind)
  {
    var added := store[|init|..];
    assert store == init + added;
    SessionCountAppend(init, added, courseId, sgId, kind);
    forall j | 0 <= j < |added| ensures added[j].kind != kind {
      assert added[j] == store[|init| + j];
    }
  }
}
