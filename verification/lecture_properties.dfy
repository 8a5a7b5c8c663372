/** What the lecture pass guarantees about the lessons it adds. */
module LectureProperties {
  import opened Entities
  import opened LessonStore
  import opened LecturePass

  /** `l` starts before the slot starting at minute `t` of `date`. */
  predicate Before(l: Lesson, date: int, t: int)
  {
    l.date < date || (l.date == date && l.startTime < t)
  }

  /** A lesson the lecture pass may have written. */
  predicate PlacedLecture(l: Lesson, courses: seq<Course>, subgroups: seq<Subgroup>, lectureDays: seq<int>, startDate: int)
  {
    && l.kind == Lecture
    && Weekday(l.date) in lectureDays
    && startDate <= l.date
    && IsSlotStart(l.startTime)
    && l.course in courses
    && l.subgroup in subgroups
  }

  /** No two subgroups in `b` share an id. */
  ghost predicate DistinctSubgroups(b: seq<Lesson>)
  {
    forall i, j :: 0 <= i < j < |b| ==> b[i].subgroup.id != b[j].subgroup.id
  }

  /** Every lesson added since `init` is one the lecture pass may write. */
  ghost predicate NewLessonsPlaced(init: seq<Lesson>, store: seq<Lesson>, courses: seq<Course>, subgroups: seq<Subgroup>,
                                   lectureDays: seq<int>, startDate: int)
  {
    forall j :: |init| <= j < |store| ==> PlacedLecture(store[j], courses, subgroups, lectureDays, startDate)
  }

  /** Every lesson added since `init` starts before minute `t` of `date`. */
  ghost predicate NewLessonsBefore(init: seq<Lesson>, store: seq<Lesson>, date: int, t: int)
  {
    forall j :: |init| <= j < |store| ==> Before(store[j], date, t)
  }

  /** No course has been placed more often than it needs. */
  ghost predicate QuotaKept(created: map<nat, nat>, courses: seq<Course>)
  {
    forall i :: 0 <= i < |courses| ==> Created(created, courses[i].id) <= LecturesNeeded(courses[i])
  }

  /** Each placement adds at most one lecture per subgroup. */
  ghost predicate LectureCountsBounded(init: seq<Lesson>, store: seq<Lesson>, created: map<nat, nat>)
  {
    forall cid: nat, sgId: nat :: SessionCount(store, cid, sgId, Lecture) <= SessionCount(init, cid, sgId, Lecture) + Created(created, cid)
  }

  /** No added lesson meets a lesson of `init` with the same teacher in the same slot. */
  ghost predicate TeacherFreeInInit(init: seq<Lesson>, store: seq<Lesson>)
  {
    forall i, j :: 0 <= i < |init| <= j < |store| ==> !SameTeacherSlot(store[i], store[j])
  }

  /** Added lessons in the same slot belong to the same course. */
  ghost predicate OneCoursePerSlot(init: seq<Lesson>, store: seq<Lesson>)
  {
    forall i, j :: |init| <= i < |store| && |init| <= j < |store| && SameSlot(store[i], store[j])
                   ==> store[i].course == store[j].course
  }

  /** No two added lessons give one subgroup two lessons in one slot. */
  ghost predicate NoSubgroupClash(init: seq<Lesson>, store: seq<Lesson>)
  {
    forall i, j :: |init| <= i < j < |store| ==> !SameSubgroupSlot(store[i], store[j])
  }

  /** The invariant of the lecture pass, relative to the store `init` it
      started from, when it is about to fill the slot starting at `t` on `date`. */
  ghost predicate LectureInv(init: seq<Lesson>, st: LectureState, courses: seq<Course>, subgroups: seq<Subgroup>,
                             lectureDays: seq<int>, startDate: int, date: int, t: int)
  {
    && Extends(init, st.store)
    && NewLessonsPlaced(init, st.store, courses, subgroups, lectureDays, startDate)
    && NewLessonsBefore(init, st.store, date, t)
    && QuotaKept(st.created, courses)
    && LectureCountsBounded(init, st.store, st.created)
    && WithinCeiling(init, st.store)
    && TeacherFreeInInit(init, st.store)
    && OneCoursePerSlot(init, st.store)
    && NoSubgroupClash(init, st.store)
  }

  lemma LectureInvLater(init: seq<Lesson>, st: LectureState, courses: seq<Course>, subgroups: seq<Subgroup>,
                        lectureDays: seq<int>, startDate: int, date: int, t: int, date': int, t': int)
    requires LectureInv(init, st, courses, subgroups, lectureDays, startDate, date, t)
    requires date < date' || (date == date' && t <= t')
    ensures LectureInv(init, st, courses, subgroups, lectureDays, startDate, date', t')
  {
    forall j | |init| <= j < |st.store| ensures Before(st.store[j], date', t') {
      assert Before(st.store[j], date, t);
    }
    assert NewLessonsBefore(init, st.store, date', t');
  }

  /** A lecture batch is for distinct subgroups when its targets are. */
  lemma BatchShape(c: Course, targets: seq<Subgroup>, date: int, start: Minute)
    requires DistinctSubgroupIds(targets)
    ensures DistinctSubgroups(LectureBatch(c, targets, date, start))
    ensures DistinctSubgroupDates(LectureBatch(c, targets, date, start))
  {
  }

  /** A batch for distinct subgroups holds at most one lesson per subgroup. */
  lemma {:induction false} DistinctSessionCount(b: seq<Lesson>, cid: nat, sgId: nat, kind: LessonType)
    requires DistinctSubgroups(b)
    ensures SessionCount(b, cid, sgId, kind) <= 1
    decreases |b|
  {
    if |b| > 0 {
      var n := |b| - 1;
      assert DistinctSubgroups(b[..n]);
      DistinctSessionCount(b[..n], cid, sgId, kind);
      if b[n].course.id == cid && b[n].subgroup.id == sgId && b[n].kind == kind {
        forall i | 0 <= i < n
          ensures !(b[..n][i].course.id == cid && b[..n][i].subgroup.id == sgId && b[..n][i].kind == kind)
        {
          assert b[..n][i] == b[i];
        }
      }
    }
  }

  /** The lessons of a placement are placed lectures, start in its slot, and
      extend the store. */
  lemma PlacementShape(init: seq<Lesson>, s: seq<Lesson>, c: Course, targets: seq<Subgroup>,
                       courses: seq<Course>, subgroups: seq<Subgroup>, lectureDays: seq<int>, startDate: int,
                       date: int, slot: Timeslot)
    requires Extends(init, s)
    requires NewLessonsPlaced(init, s, courses, subgroups, lectureDays, startDate)
    requires NewLessonsBefore(init, s, date, slot.start)
    requires forall sg :: sg in targets ==> sg in subgroups
    requires Weekday(date) in lectureDays && startDate <= date && IsSlotStart(slot.start) && c in courses
    ensures Extends(init, s + LectureBatch(c, targets, date, slot.start))
    ensures NewLessonsPlaced(init, s + LectureBatch(c, targets, date, slot.start), courses, subgroups, lectureDays, startDate)
    ensures NewLessonsBefore(init, s + LectureBatch(c, targets, date, slot.start), date, slot.start + 1)
  {
    var b := LectureBatch(c, targets, date, slot.start);
    var s' := s + b;
    var n := |s|;
    assert s'[..|init|] == s[..|init|];
    forall j | |init| <= j < |s'|
      ensures PlacedLecture(s'[j], courses, subgroups, lectureDays, startDate)
      ensures Before(s'[j], date, slot.start + 1)
    {
      if j < n {
        assert s'[j] == s[j];
      } else {
        assert s'[j] == b[j - n];
        assert targets[j - n] in targets;
      }
    }
  }

  /** Counting a placement against its course keeps every quota. */
  lemma PlacementQuota(init: seq<Lesson>, st: LectureState, courses: seq<Course>, c: Course, targets: seq<Subgroup>,
                       date: int, start: Minute)
    requires QuotaKept(st.created, courses)
    requires LectureCountsBounded(init, st.store, st.created)
    requires DistinctCourseIds(courses) && DistinctSubgroupIds(targets)
    requires c in courses && Created(st.created, c.id) < LecturesNeeded(c)
    ensures QuotaKept(st.created[c.id := Created(st.created, c.id) + 1], courses)
    ensures LectureCountsBounded(init, st.store + LectureBatch(c, targets, date, start),
                                 st.created[c.id := Created(st.created, c.id) + 1])
  {
    var b := LectureBatch(c, targets, date, start);
    var created' := st.created[c.id := Created(st.created, c.id) + 1];
    BatchShape(c, targets, date, start);
    forall i | 0 <= i < |courses|
      ensures Created(created', courses[i].id) <= LecturesNeeded(courses[i])
    {
      if courses[i].id == c.id {
        var k :| 0 <= k < |courses| && courses[k] == c;
        assert i == k;
      }
    }
    forall cid: nat, sgId: nat
      ensures SessionCount(st.store + b, cid, sgId, Lecture) <= SessionCount(init, cid, sgId, Lecture) + Created(created', cid)
    {
      SessionCountAppend(st.store, b, cid, sgId, Lecture);
      DistinctSessionCount(b, cid, sgId, Lecture);
    }
  }

  /** A placement only reaches subgroups below the ceiling, so it keeps it. */
  lemma PlacementCeiling(init: seq<Lesson>, s: seq<Lesson>, c: Course, subgroups: seq<Subgroup>, date: int, start: Minute)
    requires WithinCeiling(init, s)
    requires DistinctSubgroupIds(subgroups)
    ensures WithinCeiling(init, s + LectureBatch(c, OpenSubgroups(s, subgroups, date), date, start))
  {
    var targets := OpenSubgroups(s, subgroups, date);
    var b := LectureBatch(c, targets, date, start);
    BatchShape(c, targets, date, start);
    forall i | 0 <= i < |b| ensures DailyLoad(s, b[i].subgroup.id, b[i].date) < MaxLessonsForSubgroup {
      assert b[i].subgroup == targets[i] && targets[i] in targets;
    }
    AppendKeepsCeiling(init, s, b);
  }

  /** A placement in a slot the teacher has free, after every earlier
      placement, clashes with nothing. */
  lemma PlacementNoClash(init: seq<Lesson>, s: seq<Lesson>, c: Course, targets: seq<Subgroup>, date: int, slot: Timeslot)
    requires Extends(init, s)
    requires NewLessonsBefore(init, s, date, slot.start)
    requires TeacherFreeInInit(init, s) && OneCoursePerSlot(init, s) && NoSubgroupClash(init, s)
    requires IsTeacherAvailable(s, c.teacher, date, slot)
    requires DistinctSubgroupIds(targets)
    ensures var s' := s + LectureBatch(c, targets, date, slot.start);
            TeacherFreeInInit(init, s') && OneCoursePerSlot(init, s') && NoSubgroupClash(init, s')
  {
    var b := LectureBatch(c, targets, date, slot.start);
    var s' := s + b;
    var n := |s|;
    BatchShape(c, targets, date, slot.start);
    forall i, j | 0 <= i < |init| <= j < |s'| ensures !SameTeacherSlot(s'[i], s'[j]) {
      assert s'[i] == s[i];
      if j < n {
        assert s'[j] == s[j];
      } else {
        assert s'[j] == b[j - n];
      }
    }
    forall i, j | |init| <= i < |s'| && |init| <= j < |s'| && SameSlot(s'[i], s'[j])
      ensures s'[i].course == s'[j].course
    {
      if i < n {
        assert s'[i] == s[i] && Before(s[i], date, slot.start);
      } else {
        assert s'[i] == b[i - n];
      }
      if j < n {
        assert s'[j] == s[j] && Before(s[j], date, slot.start);
      } else {
        assert s'[j] == b[j - n];
      }
    }
    forall i, j | |init| <= i < j < |s'| ensures !SameSubgroupSlot(s'[i], s'[j]) {
      if i < n {
        assert s'[i] == s[i] && Before(s[i], date, slot.start);
      } else {
        assert s'[i] == b[i - n];
      }
      if j < n {
        assert s'[j] == s[j];
      } else {
        assert s'[j] == b[j - n];
      }
    }
  }

  /** Placing a course that may take the slot keeps the invariant and
      moves it past the slot. */
  lemma PlaceLectureKeepsInv(init: seq<Lesson>, st: LectureState, courses: seq<Course>, subgroups: seq<Subgroup>,
                             lectureDays: seq<int>, startDate: int, date: int, slot: Timeslot, c: Course)
    requires LectureInv(init, st, courses, subgroups, lectureDays, startDate, date, slot.start)
    requires DistinctCourseIds(courses) && DistinctSubgroupIds(subgroups)
    requires Weekday(date) in lectureDays && startDate <= date && IsSlotStart(slot.start)
    requires c in courses
    requires Created(st.created, c.id) < LecturesNeeded(c)
    requires IsTeacherAvailable(st.store, c.teacher, date, slot)
    ensures LectureInv(init, PlaceLecture(c, OpenSubgroups(st.store, subgroups, date), date, slot, st),
                       courses, subgroups, lectureDays, startDate, date, slot.start + 1)
  {
    var targets := OpenSubgroups(st.store, subgroups, date);
    PlacementShape(init, st.store, c, targets, courses, subgroups, lectureDays, startDate, date, slot);
    PlacementQuota(init, st, courses, c, targets, date, slot.start);
    PlacementCeiling(init, st.store, c, subgroups, date, slot.start);
    PlacementNoClash(init, st.store, c, targets, date, slot);
  }

  /** Where the scan of one day stands before slot `k`: the start of slot
      `k`, or the end of the day once all slots are done. */
  function SlotPosition(k: nat): int
  {
    if k < |LectureTimeslots| then LectureTimeslots[k].start else 1440
  }

  /** Filling one slot keeps the invariant and moves it past the slot. */
  lemma {:induction false} FillLectureSlotKeepsInv(init: seq<Lesson>, st: LectureState, courses: seq<Course>, perm: seq<nat>,
                                                   j: nat, subgroups: seq<Subgroup>, lectureDays: seq<int>, startDate: int,
                                                   date: int, slot: Timeslot)
    requires forall i :: 0 <= i < |perm| ==> perm[i] < |courses|
    requires LectureInv(init, st, courses, subgroups, lectureDays, startDate, date, slot.start)
    requires DistinctCourseIds(courses) && DistinctSubgroupIds(subgroups)
    requires Weekday(date) in lectureDays && startDate <= date && IsSlotStart(slot.start)
    ensures LectureInv(init, FillLectureSlot(courses, perm, j, subgroups, date, slot, st),
                       courses, subgroups, lectureDays, startDate, date, slot.start + 1)
    decreases |perm| - j
  {
    if j >= |perm| {
      LectureInvLater(init, st, courses, subgroups, lectureDays, startDate, date, slot.start, date, slot.start + 1);
    } else {
      var c := courses[perm[j]];
      if Created(st.created, c.id) >= LecturesNeeded(c) || !IsTeacherAvailable(st.store, c.teacher, date, slot)
         || |OpenSubgroups(st.store, subgroups, date)| == 0 {
        FillLectureSlotKeepsInv(init, st, courses, perm, j + 1, subgroups, lectureDays, startDate, date, slot);
      } else {
        PlaceLectureKeepsInv(init, st, courses, subgroups, lectureDays, startDate, date, slot, c);
      }
    }
  }

  /** Filling the slots `k`, `k + 1`, ... of a lecture day keeps the
      invariant and moves it to the start of the next date. */
  lemma {:induction false} FillLectureDayKeepsInv(init: seq<Lesson>, st: LectureState, courses: seq<Course>,
                                                  order: (int, nat) -> seq<nat>, subgroups: seq<Subgroup>,
                                                  lectureDays: seq<int>, startDate: int, date: int, k: nat)
    requires forall d: int, m: nat :: IsPermutation(order(d, m), |courses|)
    requires LectureInv(init, st, courses, subgroups, lectureDays, startDate, date, SlotPosition(k))
    requires DistinctCourseIds(courses) && DistinctSubgroupIds(subgroups)
    requires Weekday(date) in lectureDays && startDate <= date
    ensures LectureInv(init, FillLectureDay(courses, order, subgroups, date, k, st),
                       courses, subgroups, lectureDays, startDate, date + 1, 0)
    decreases |LectureTimeslots| - k
  {
    if k >= |LectureTimeslots| {
      LectureInvLater(init, st, courses, subgroups, lectureDays, startDate, date, SlotPosition(k), date + 1, 0);
    } else {
      var slot := LectureTimeslots[k];
      assert IsPermutation(order(date, k), |courses|);
      assert IsSlotStart(slot.start);
      var st' := FillLectureSlot(courses, order(date, k), 0, subgroups, date, slot, st);
      FillLectureSlotKeepsInv(init, st, courses, order(date, k), 0, subgroups, lectureDays, startDate, date, slot);
      LectureInvLater(init, st', courses, subgroups, lectureDays, startDate, date, slot.start + 1, date, SlotPosition(k + 1));
      FillLectureDayKeepsInv(init, st', courses, order, subgroups, lectureDays, startDate, date, k + 1);
    }
  }

  /** Walking the dates from `date` to `endDate` keeps the invariant. */
  lemma {:induction false} LectureDatesKeepInv(init: seq<Lesson>, st: LectureState, courses: seq<Course>,
                                               order: (int, nat) -> seq<nat>, subgroups: seq<Subgroup>,
                                               lectureDays: seq<int>, startDate: int, date: int, endDate: int)
    requires forall d: int, m: nat :: IsPermutation(order(d, m), |courses|)
    requires LectureInv(init, st, courses, subgroups, lectureDays, startDate, date, 0)
    requires DistinctCourseIds(courses) && DistinctSubgroupIds(subgroups)
    requires startDate <= date
    ensures LectureInv(init, LectureDatesFrom(courses, order, subgroups, lectureDays, date, endDate, st),
                       courses, subgroups, lectureDays, startDate, if date > endDate then date else endDate + 1, 0)
    decreases endDate - date
  {
    if date <= endDate {
      var st' := if Weekday(date) in lectureDays then FillLectureDay(courses, order, subgroups, date, 0, st) else st;
      if Weekday(date) in lectureDays {
        FillLectureDayKeepsInv(init, st, courses, order, subgroups, lectureDays, startDate, date, 0);
      } else {
        LectureInvLater(init, st, courses, subgroups, lectureDays, startDate, date, 0, date + 1, 0);
      }
      LectureDatesKeepInv(init, st', courses, order, subgroups, lectureDays, startDate, date + 1, endDate);
    }
  }

  /** The course at position `m` of a slot's scan can take the slot: it
      still needs sessions and its teacher is free then. */
  predicate CanTakeSlot(courses: seq<Course>, perm: seq<nat>, m: nat, st: LectureState, date: int, slot: Timeslot)
    requires m < |perm| && perm[m] < |courses|
  {
    var c := courses[perm[m]];
    Created(st.created, c.id) < LecturesNeeded(c) && IsTeacherAvailable(st.store, c.teacher, date, slot)
  }

  /** One slot places the first course of the scan that can take it, for
      every subgroup below the ceiling, and no other course. */
  lemma {:induction false} FillLectureSlotPicksFirst(courses: seq<Course>, perm: seq<nat>, j: nat, subgroups: seq<Subgroup>,
                                                     date: int, slot: Timeslot, st: LectureState, m: nat)
    requires forall i :: 0 <= i < |perm| ==> perm[i] < |courses|
    requires j <= m < |perm| && CanTakeSlot(courses, perm, m, st, date, slot)
    requires forall m' :: j <= m' < m ==> !CanTakeSlot(courses, perm, m', st, date, slot)
    requires |OpenSubgroups(st.store, subgroups, date)| > 0
    ensures FillLectureSlot(courses, perm, j, subgroups, date, slot, st)
            == PlaceLecture(courses[perm[m]], OpenSubgroups(st.store, subgroups, date), date, slot, st)
    decreases m - j
  {
    if j < m {
      assert !CanTakeSlot(courses, perm, j, st, date, slot);
      FillLectureSlotPicksFirst(courses, perm, j + 1, subgroups, date, slot, st, m);
    }
  }

  /** A slot stays empty when no course of the scan can take it or every
      subgroup is already at the ceiling. */
  lemma {:induction false} FillLectureSlotEmpty(courses: seq<Course>, perm: seq<nat>, j: nat, subgroups: seq<Subgroup>,
                                                date: int, slot: Timeslot, st: LectureState)
    requires forall i :: 0 <= i < |perm| ==> perm[i] < |courses|
    requires (forall m :: j <= m < |perm| ==> !CanTakeSlot(courses, perm, m, st, date, slot))
             || |OpenSubgroups(st.store, subgroups, date)| == 0
    ensures FillLectureSlot(courses, perm, j, subgroups, date, slot, st) == st
    decreases |perm| - j
  {
    if j < |perm| {
      assert !CanTakeSlot(courses, perm, j, st, date, slot) || |OpenSubgroups(st.store, subgroups, date)| == 0;
      FillLectureSlotEmpty(courses, perm, j + 1, subgroups, date, slot, st);
    }
  }

  /** The invariant at the end of the lecture pass. */
  lemma GenerateLecturesInv(courses: seq<Course>, subgroups: seq<Subgroup>, lectureDays: seq<int>,
                            startDate: int, endDate: int, order: (int, nat) -> seq<nat>, store: seq<Lesson>)
    requires forall d: int, m: nat :: IsPermutation(order(d, m), |LectureCourses(courses)|)
    requires DistinctCourseIds(courses) && DistinctSubgroupIds(subgroups)
    ensures LectureInv(store, GenerateLectures(courses, subgroups, lectureDays, startDate, endDate, order, store),
                       LectureCourses(courses), subgroups, lectureDays, startDate,
                       if startDate > endDate then startDate else endDate + 1, 0)
  {
    var lcs := LectureCourses(courses);
    var st0 := LectureState(store, map[]);
    assert store[..|store|] == store;
    assert LectureInv(store, st0, lcs, subgroups, lectureDays, startDate, startDate, 0);
    LectureDatesKeepInv(store, st0, lcs, order, subgroups, lectureDays, startDate, startDate, endDate);
  }

  /** The lecture pass only appends, and every lesson it writes is a
      Lecture of a course with lecture hours, for a subgroup in scope, on a
      lecture day inside [startDate, endDate], at a slot's start time. */
  lemma GenerateLecturesPlacement(courses: seq<Course>, subgroups: seq<Subgroup>, lectureDays: seq<int>,
                                  startDate: int, endDate: int, order: (int, nat) -> seq<nat>, store: seq<Lesson>)
    requires forall d: int, m: nat :: IsPermutation(order(d, m), |LectureCourses(courses)|)
    requires DistinctCourseIds(courses) && DistinctSubgroupIds(subgroups)
    ensures var s := GenerateLectures(courses, subgroups, lectureDays, startDate, endDate, order, store).store;
      && |store| <= |s| && s[..|store|] == store
      && (forall j :: |store| <= j < |s| ==>
            && s[j].kind == Lecture
            && Weekday(s[j].date) in lectureDays
            && startDate <= s[j].date <= endDate
            && IsSlotStart(s[j].startTime)
            && s[j].course in courses && s[j].course.lectureHours > 0
            && s[j].subgroup in subgroups)
  {
    GenerateLecturesInv(courses, subgroups, lectureDays, startDate, endDate, order, store);
    var s := GenerateLectures(courses, subgroups, lectureDays, startDate, endDate, order, store).store;
    forall j | |store| <= j < |s| ensures s[j].date <= endDate {
      assert Before(s[j], if startDate > endDate then startDate else endDate + 1, 0);
    }
  }

  /** No course gets more lectures for any subgroup than its lecture hours
      div 2, and no course is placed more often than that. */
  lemma GenerateLecturesQuota(courses: seq<Course>, subgroups: seq<Subgroup>, lectureDays: seq<int>,
                              startDate: int, endDate: int, order: (int, nat) -> seq<nat>, store: seq<Lesson>)
    requires forall d: int, m: nat :: IsPermutation(order(d, m), |LectureCourses(courses)|)
    requires DistinctCourseIds(courses) && DistinctSubgroupIds(subgroups)
    ensures var st := GenerateLectures(courses, subgroups, lectureDays, startDate, endDate, order, store);
      && (forall c :: c in LectureCourses(courses) ==> Created(st.created, c.id) <= c.lectureHours / 2)
      && (forall c, sgId: nat :: c in courses ==>
            SessionCount(st.store, c.id, sgId, Lecture) <= SessionCount(store, c.id, sgId, Lecture) + c.lectureHours / 2)
  {
    var lcs := LectureCourses(courses);
    GenerateLecturesInv(courses, subgroups, lectureDays, startDate, endDate, order, store);
    GenerateLecturesPlacement(courses, subgroups, lectureDays, startDate, endDate, order, store);
    var st := GenerateLectures(courses, subgroups, lectureDays, startDate, endDate, order, store);
    var s := st.store;
    forall c | c in lcs ensures Created(st.created, c.id) <= c.lectureHours / 2 {
      var i :| 0 <= i < |lcs| && lcs[i] == c;
    }
    forall c, sgId: nat | c in courses
      ensures SessionCount(s, c.id, sgId, Lecture) <= SessionCount(store, c.id, sgId, Lecture) + c.lectureHours / 2
    {
      if c !in lcs {
        var added := s[|store|..];
        assert s == store + added;
        SessionCountAppend(store, added, c.id, sgId, Lecture);
        forall j | 0 <= j < |added| ensures added[j].course.id != c.id {
          assert added[j] == s[|store| + j];
          var k :| 0 <= k < |courses| && courses[k] == c;
          var k' :| 0 <= k' < |courses| && courses[k'] == added[j].course;
        }
      }
    }
  }

  /** No subgroup is pushed past four lessons on a date: every load the
      pass changed is at most four. */
  lemma GenerateLecturesCeiling(courses: seq<Course>, subgroups: seq<Subgroup>, lectureDays: seq<int>,
                                startDate: int, endDate: int, order: (int, nat) -> seq<nat>, store: seq<Lesson>)
    requires forall d: int, m: nat :: IsPermutation(order(d, m), |LectureCourses(courses)|)
    requires DistinctCourseIds(courses) && DistinctSubgroupIds(subgroups)
    ensures var s := GenerateLectures(courses, subgroups, lectureDays, startDate, endDate, order, store).store;
      forall sgId: nat, d: int :: DailyLoad(s, sgId, d) <= MaxLessonsForSubgroup || DailyLoad(s, sgId, d) == DailyLoad(store, sgId, d)
  {
    GenerateLecturesInv(courses, subgroups, lectureDays, startDate, endDate, order, store);
  }

  /** No new lecture meets an earlier lesson of its teacher in its slot;
      the new lectures of one slot are all of one course; and no subgroup
      gets two new lectures in one slot. */
  lemma GenerateLecturesNoClash(courses: seq<Course>, subgroups: seq<Subgroup>, lectureDays: seq<int>,
                                startDate: int, endDate: int, order: (int, nat) -> seq<nat>, store: seq<Lesson>)
    requires forall d: int, m: nat :: IsPermutation(order(d, m), |LectureCourses(courses)|)
    requires DistinctCourseIds(courses) && DistinctSubgroupIds(subgroups)
    ensures var s := GenerateLectures(courses, subgroups, lectureDays, startDate, endDate, order, store).store;
      && (forall i, j :: 0 <= i < |store| <= j < |s| ==> !SameTeacherSlot(s[i], s[j]))
      && (forall i, j :: |store| <= i < |s| && |store| <= j < |s| && SameSlot(s[i], s[j]) ==> s[i].course == s[j].course)
      && (forall i, j :: |store| <= i < j < |s| ==> !SameSubgroupSlot(s[i], s[j]))
  {
    GenerateLecturesInv(courses, subgroups, lectureDays, startDate, endDate, order, store);
  }
}
