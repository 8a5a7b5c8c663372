/** What the practice pass guarantees about the lessons it adds. */
module PracticeProperties {
  import opened Entities
  import opened LessonStore
  import opened PracticePass

  /** A lesson the practice pass may have written, no later than `lastDate`. */
  predicate PlacedPractice(l: Lesson, courses: seq<Course>, subgroups: seq<Subgroup>, practiceDays: seq<int>,
                           startDate: int, lastDate: int)
  {
    && l.kind == Practice
    && Weekday(l.date) in practiceDays
    && startDate <= l.date <= lastDate
    && IsSlotStart(l.startTime)
    && l.course in courses
    && l.subgroup in subgroups
    && l.subgroup.group.studyPlan == l.course.studyPlan
  }

  ghost predicate NewPracticesPlaced(init: seq<Lesson>, store: seq<Lesson>, courses: seq<Course>, subgroups: seq<Subgroup>,
                                     practiceDays: seq<int>, startDate: int, lastDate: int)
  {
    forall j :: |init| <= j < |store| ==> PlacedPractice(store[j], courses, subgroups, practiceDays, startDate, lastDate)
  }

  /** The pair counters count exactly the practices added for each pair. */
  ghost predicate PairCountsExact(init: seq<Lesson>, store: seq<Lesson>, created: map<(nat, nat), nat>)
  {
    forall cid: nat, sgId: nat :: SessionCount(store, cid, sgId, Practice) == SessionCount(init, cid, sgId, Practice) + PairCreated(created, cid, sgId)
  }

  /** No pair has been served more often than its course needs. */
  ghost predicate PairQuotaKept(created: map<(nat, nat), nat>, courses: seq<Course>)
  {
    forall i, sgId: nat :: 0 <= i < |courses| ==> PairCreated(created, courses[i].id, sgId) <= PracticesNeeded(courses[i])
  }

  /** The workload counters count exactly the lessons added per teacher. */
  ghost predicate WorkloadCounts(init: seq<Lesson>, store: seq<Lesson>, workload0: map<nat, nat>, workload: map<nat, nat>)
  {
    forall tid: nat :: TeacherLessons(store, tid) + Workload(workload0, tid) == TeacherLessons(init, tid) + Workload(workload, tid)
  }

  /** No added lesson shares a subgroup and slot with any lesson before it. */
  ghost predicate NoSubgroupClashAfter(init: seq<Lesson>, store: seq<Lesson>)
  {
    forall i, j :: 0 <= i < j < |store| && |init| <= j ==> !SameSubgroupSlot(store[i], store[j])
  }

  /** No added lesson shares a teacher and slot with any lesson before it. */
  ghost predicate NoTeacherClashAfter(init: seq<Lesson>, store: seq<Lesson>)
  {
    forall i, j :: 0 <= i < j < |store| && |init| <= j ==> !SameTeacherSlot(store[i], store[j])
  }

  /** The invariant of the practice pass relative to the store `init` and
      the workload counters `workload0` it started from, with every added
      lesson dated no later than `lastDate`. */
  ghost predicate PracticeInv(init: seq<Lesson>, workload0: map<nat, nat>, st: PracticeState, courses: seq<Course>,
                              subgroups: seq<Subgroup>, practiceDays: seq<int>, startDate: int, lastDate: int)
  {
    && Extends(init, st.store)
    && NewPracticesPlaced(init, st.store, courses, subgroups, practiceDays, startDate, lastDate)
    && PairCountsExact(init, st.store, st.created)
    && PairQuotaKept(st.created, courses)
    && WorkloadCounts(init, st.store, workload0, st.workload)
    && WithinCeiling(init, st.store)
    && NoSubgroupClashAfter(init, st.store)
    && NoTeacherClashAfter(init, st.store)
  }

  lemma PracticeInvLater(init: seq<Lesson>, workload0: map<nat, nat>, st: PracticeState, courses: seq<Course>,
                         subgroups: seq<Subgroup>, practiceDays: seq<int>, startDate: int, lastDate: int, lastDate': int)
    requires PracticeInv(init, workload0, st, courses, subgroups, practiceDays, startDate, lastDate)
    requires lastDate <= lastDate'
    ensures PracticeInv(init, workload0, st, courses, subgroups, practiceDays, startDate, lastDate')
  {
    assert NewPracticesPlaced(init, st.store, courses, subgroups, practiceDays, startDate, lastDate');
  }

  /** The new lesson extends the store and is a placed practice. */
  lemma NewPracticeShape(init: seq<Lesson>, s: seq<Lesson>, l: Lesson, courses: seq<Course>, subgroups: seq<Subgroup>,
                         practiceDays: seq<int>, startDate: int, date: int)
    requires Extends(init, s)
    requires NewPracticesPlaced(init, s, courses, subgroups, practiceDays, startDate, date)
    requires PlacedPractice(l, courses, subgroups, practiceDays, startDate, date)
    ensures Extends(init, s + [l])
    ensures NewPracticesPlaced(init, s + [l], courses, subgroups, practiceDays, startDate, date)
  {
    assert (s + [l])[..|init|] == s[..|init|];
    forall j | |init| <= j < |s + [l]|
      ensures PlacedPractice((s + [l])[j], courses, subgroups, practiceDays, startDate, date)
    {
      if j < |s| {
        assert (s + [l])[j] == s[j];
      }
    }
  }

  /** The new lesson is counted once against its (course, subgroup) pair. */
  lemma NewPracticePairCount(init: seq<Lesson>, s: seq<Lesson>, created: map<(nat, nat), nat>, l: Lesson)
    requires PairCountsExact(init, s, created)
    requires l.kind == Practice
    ensures PairCountsExact(init, s + [l],
                            created[(l.course.id, l.subgroup.id) := PairCreated(created, l.course.id, l.subgroup.id) + 1])
  {
    var created' := created[(l.course.id, l.subgroup.id) := PairCreated(created, l.course.id, l.subgroup.id) + 1];
    forall cid: nat, sgId: nat
      ensures SessionCount(s + [l], cid, sgId, Practice) == SessionCount(init, cid, sgId, Practice) + PairCreated(created', cid, sgId)
    {
      SessionCountAppend(s, [l], cid, sgId, Practice);
    }
  }

  /** Raising a pair below its course's need keeps every pair within its need. */
  lemma NewPracticeQuota(created: map<(nat, nat), nat>, c: Course, sgId: nat, courses: seq<Course>)
    requires PairQuotaKept(created, courses)
    requires DistinctCourseIds(courses) && c in courses
    requires PairCreated(created, c.id, sgId) < PracticesNeeded(c)
    ensures PairQuotaKept(created[(c.id, sgId) := PairCreated(created, c.id, sgId) + 1], courses)
  {
    var created' := created[(c.id, sgId) := PairCreated(created, c.id, sgId) + 1];
    forall i, sg: nat | 0 <= i < |courses|
      ensures PairCreated(created', courses[i].id, sg) <= PracticesNeeded(courses[i])
    {
      if courses[i].id == c.id && sg == sgId {
        var k :| 0 <= k < |courses| && courses[k] == c;
        assert i == k;
        assert PairCreated(created', c.id, sgId) == PairCreated(created, c.id, sgId) + 1;
      } else {
        assert (courses[i].id, sg) != (c.id, sgId);
        assert PairCreated(created', courses[i].id, sg) == PairCreated(created, courses[i].id, sg);
        assert PairCreated(created, courses[i].id, sg) <= PracticesNeeded(courses[i]);
      }
    }
  }

  /** The new lesson is counted once against its teacher. */
  lemma NewPracticeWorkload(init: seq<Lesson>, s: seq<Lesson>, workload0: map<nat, nat>, workload: map<nat, nat>, l: Lesson)
    requires WorkloadCounts(init, s, workload0, workload)
    ensures WorkloadCounts(init, s + [l], workload0,
                           workload[l.course.teacher.id := Workload(workload, l.course.teacher.id) + 1])
  {
    var workload' := workload[l.course.teacher.id := Workload(workload, l.course.teacher.id) + 1];
    forall tid: nat
      ensures TeacherLessons(s + [l], tid) + Workload(workload0, tid) == TeacherLessons(init, tid) + Workload(workload', tid)
    {
      TeacherLessonsAppend(s, [l], tid);
    }
  }

  /** A lesson on a day its subgroup has room for keeps the ceiling. */
  lemma NewPracticeCeiling(init: seq<Lesson>, s: seq<Lesson>, l: Lesson)
    requires WithinCeiling(init, s)
    requires DailyLoad(s, l.subgroup.id, l.date) < MaxLessonsForSubgroup
    ensures WithinCeiling(init, s + [l])
  {
    assert [l][..0] == [];
    AppendKeepsCeiling(init, s, [l]);
  }

  /** A lesson whose subgroup and teacher are both free in its slot clashes
      with nothing before it. */
  lemma NewPracticeNoClash(init: seq<Lesson>, s: seq<Lesson>, l: Lesson, slot: Timeslot)
    requires |init| <= |s|
    requires NoSubgroupClashAfter(init, s) && NoTeacherClashAfter(init, s)
    requires !HasLessonAt(s, l.subgroup.id, l.date, l.startTime)
    requires IsTeacherAvailable(s, l.course.teacher, l.date, slot) && slot.start == l.startTime
    ensures NoSubgroupClashAfter(init, s + [l]) && NoTeacherClashAfter(init, s + [l])
  {
    var s' := s + [l];
    forall i, j | 0 <= i < j < |s'| && |init| <= j
      ensures !SameSubgroupSlot(s'[i], s'[j]) && !SameTeacherSlot(s'[i], s'[j])
    {
      assert s'[i] == s[i];
      if j < |s| {
        assert s'[j] == s[j];
      }
    }
  }

  /** The attempt concerns a course and subgroup of the pass, on a practice
      day of the range, at a slot start. */
  ghost predicate AttemptInScope(c: Course, sg: Subgroup, date: int, slot: Timeslot, courses: seq<Course>,
                                 subgroups: seq<Subgroup>, practiceDays: seq<int>, startDate: int)
  {
    && DistinctCourseIds(courses) && c in courses && sg in subgroups && sg.group.studyPlan == c.studyPlan
    && Weekday(date) in practiceDays && startDate <= date && IsSlotStart(slot.start)
  }

  lemma TryPracticeShape(init: seq<Lesson>, workload0: map<nat, nat>, st: PracticeState, c: Course, sg: Subgroup,
                         date: int, slot: Timeslot, courses: seq<Course>, subgroups: seq<Subgroup>,
                         practiceDays: seq<int>, startDate: int)
    requires PracticeInv(init, workload0, st, courses, subgroups, practiceDays, startDate, date)
    requires AttemptInScope(c, sg, date, slot, courses, subgroups, practiceDays, startDate)
    ensures Extends(init, TryPractice(c, sg, date, slot, st).store)
    ensures NewPracticesPlaced(init, TryPractice(c, sg, date, slot, st).store, courses, subgroups, practiceDays, startDate, date)
  {
    if TryPractice(c, sg, date, slot, st) != st {
      NewPracticeShape(init, st.store, Lesson(c, sg, date, slot.start, Practice), courses, subgroups, practiceDays, startDate, date);
    }
  }

  lemma TryPracticeCounts(init: seq<Lesson>, workload0: map<nat, nat>, st: PracticeState, c: Course, sg: Subgroup,
                          date: int, slot: Timeslot, courses: seq<Course>, subgroups: seq<Subgroup>,
                          practiceDays: seq<int>, startDate: int)
    requires PracticeInv(init, workload0, st, courses, subgroups, practiceDays, startDate, date)
    requires AttemptInScope(c, sg, date, slot, courses, subgroups, practiceDays, startDate)
    ensures var st' := TryPractice(c, sg, date, slot, st);
            && PairCountsExact(init, st'.store, st'.created)
            && PairQuotaKept(st'.created, courses)
            && WorkloadCounts(init, st'.store, workload0, st'.workload)
  {
    if TryPractice(c, sg, date, slot, st) != st {
      var l := Lesson(c, sg, date, slot.start, Practice);
      NewPracticePairCount(init, st.store, st.created, l);
      NewPracticeQuota(st.created, c, sg.id, courses);
      NewPracticeWorkload(init, st.store, workload0, st.workload, l);
    }
  }

  lemma TryPracticeSafety(init: seq<Lesson>, workload0: map<nat, nat>, st: PracticeState, c: Course, sg: Subgroup,
                          date: int, slot: Timeslot, courses: seq<Course>, subgroups: seq<Subgroup>,
                          practiceDays: seq<int>, startDate: int)
    requires PracticeInv(init, workload0, st, courses, subgroups, practiceDays, startDate, date)
    requires AttemptInScope(c, sg, date, slot, courses, subgroups, practiceDays, startDate)
    ensures var s' := TryPractice(c, sg, date, slot, st).store;
            && WithinCeiling(init, s')
            && NoSubgroupClashAfter(init, s')
            && NoTeacherClashAfter(init, s')
  {
    if TryPractice(c, sg, date, slot, st) != st {
      var l := Lesson(c, sg, date, slot.start, Practice);
      NewPracticeCeiling(init, st.store, l);
      NewPracticeNoClash(init, st.store, l, slot);
    }
  }

  /** One (course, subgroup) attempt keeps the invariant. */
  lemma TryPracticeKeepsInv(init: seq<Lesson>, workload0: map<nat, nat>, st: PracticeState, c: Course, sg: Subgroup,
                            date: int, slot: Timeslot, courses: seq<Course>, subgroups: seq<Subgroup>,
                            practiceDays: seq<int>, startDate: int)
    requires PracticeInv(init, workload0, st, courses, subgroups, practiceDays, startDate, date)
    requires AttemptInScope(c, sg, date, slot, courses, subgroups, practiceDays, startDate)
    ensures PracticeInv(init, workload0, TryPractice(c, sg, date, slot, st), courses, subgroups, practiceDays, startDate, date)
  {
    TryPracticeShape(init, workload0, st, c, sg, date, slot, courses, subgroups, practiceDays, startDate);
    TryPracticeCounts(init, workload0, st, c, sg, date, slot, courses, subgroups, practiceDays, startDate);
    TryPracticeSafety(init, workload0, st, c, sg, date, slot, courses, subgroups, practiceDays, startDate);
  }

  lemma {:induction false} PracticeForSubgroupsKeepsInv(init: seq<Lesson>, workload0: map<nat, nat>, st: PracticeState,
                                                        c: Course, sgs: seq<Subgroup>, i: nat, date: int, slot: Timeslot,
                                                        courses: seq<Course>, subgroups: seq<Subgroup>,
                                                        practiceDays: seq<int>, startDate: int)
    requires PracticeInv(init, workload0, st, courses, subgroups, practiceDays, startDate, date)
    requires DistinctCourseIds(courses) && c in courses
    requires forall sg :: sg in sgs ==> sg in subgroups && sg.group.studyPlan == c.studyPlan
    requires Weekday(date) in practiceDays && startDate <= date && IsSlotStart(slot.start)
    ensures PracticeInv(init, workload0, PracticeForSubgroups(c, sgs, i, date, slot, st),
                        courses, subgroups, practiceDays, startDate, date)
    decreases |sgs| - i
  {
    if i < |sgs| {
      assert sgs[i] in sgs;
      TryPracticeKeepsInv(init, workload0, st, c, sgs[i], date, slot, courses, subgroups, practiceDays, startDate);
      PracticeForSubgroupsKeepsInv(init, workload0, TryPractice(c, sgs[i], date, slot, st), c, sgs, i + 1, date, slot,
                                   courses, subgroups, practiceDays, startDate);
    }
  }

  lemma {:induction false} PracticeForCoursesKeepsInv(init: seq<Lesson>, workload0: map<nat, nat>, st: PracticeState,
                                                      courses: seq<Course>, perm: seq<nat>, j: nat, subgroups: seq<Subgroup>,
                                                      date: int, slot: Timeslot, practiceDays: seq<int>, startDate: int)
    requires forall i :: 0 <= i < |perm| ==> perm[i] < |courses|
    requires PracticeInv(init, workload0, st, courses, subgroups, practiceDays, startDate, date)
    requires DistinctCourseIds(courses)
    requires Weekday(date) in practiceDays && startDate <= date && IsSlotStart(slot.start)
    ensures PracticeInv(init, workload0, PracticeForCourses(courses, perm, j, subgroups, date, slot, st),
                        courses, subgroups, practiceDays, startDate, date)
    decreases |perm| - j
  {
    if j < |perm| {
      var c := courses[perm[j]];
      var st' := PracticeForSubgroups(c, PlanSubgroups(subgroups, c), 0, date, slot, st);
      PracticeForSubgroupsKeepsInv(init, workload0, st, c, PlanSubgroups(subgroups, c), 0, date, slot,
                                   courses, subgroups, practiceDays, startDate);
      PracticeForCoursesKeepsInv(init, workload0, st', courses, perm, j + 1, subgroups, date, slot, practiceDays, startDate);
    }
  }

  lemma {:induction false} FillPracticeDayKeepsInv(init: seq<Lesson>, workload0: map<nat, nat>, st: PracticeState,
                                                   courses: seq<Course>, order: (int, nat) -> seq<nat>, subgroups: seq<Subgroup>,
                                                   date: int, k: nat, practiceDays: seq<int>, startDate: int)
    requires forall d: int, m: nat :: IsPermutation(order(d, m), |courses|)
    requires PracticeInv(init, workload0, st, courses, subgroups, practiceDays, startDate, date)
    requires DistinctCourseIds(courses)
    requires Weekday(date) in practiceDays && startDate <= date
    ensures PracticeInv(init, workload0, FillPracticeDay(courses, order, subgroups, date, k, st),
                        courses, subgroups, practiceDays, startDate, date)
    decreases |LectureTimeslots| - k
  {
    if k < |LectureTimeslots| {
      var slot := LectureTimeslots[k];
      assert IsPermutation(order(date, k), |courses|);
      assert IsSlotStart(slot.start);
      var st' := PracticeForCourses(courses, order(date, k), 0, subgroups, date, slot, st);
      PracticeForCoursesKeepsInv(init, workload0, st, courses, order(date, k), 0, subgroups, date, slot, practiceDays, startDate);
      FillPracticeDayKeepsInv(init, workload0, st', courses, order, subgroups, date, k + 1, practiceDays, startDate);
    }
  }

  lemma {:induction false} PracticeDatesKeepInv(init: seq<Lesson>, workload0: map<nat, nat>, st: PracticeState,
                                                courses: seq<Course>, order: (int, nat) -> seq<nat>, subgroups: seq<Subgroup>,
                                                practiceDays: seq<int>, startDate: int, date: int, endDate: int)
    requires forall d: int, m: nat :: IsPermutation(order(d, m), |courses|)
    requires PracticeInv(init, workload0, st, courses, subgroups, practiceDays, startDate, date - 1)
    requires DistinctCourseIds(courses)
    requires startDate <= date
    ensures PracticeInv(init, workload0, PracticeDatesFrom(courses, order, subgroups, practiceDays, date, endDate, st),
                        courses, subgroups, practiceDays, startDate, if date > endDate then date - 1 else endDate)
    decreases endDate - date
  {
    if date <= endDate {
      PracticeInvLater(init, workload0, st, courses, subgroups, practiceDays, startDate, date - 1, date);
      var st' := if Weekday(date) in practiceDays then FillPracticeDay(courses, order, subgroups, date, 0, st) else st;
      if Weekday(date) in practiceDays {
        FillPracticeDayKeepsInv(init, workload0, st, courses, order, subgroups, date, 0, practiceDays, startDate);
      }
      PracticeDatesKeepInv(init, workload0, st', courses, order, subgroups, practiceDays, startDate, date + 1, endDate);
    }
  }

  /** The invariant at the end of the practice pass. */
  lemma GeneratePracticesInv(courses: seq<Course>, subgroups: seq<Subgroup>, practiceDays: seq<int>,
                             startDate: int, endDate: int, order: (int, nat) -> seq<nat>,
                             store: seq<Lesson>, workload: map<nat, nat>)
    requires forall d: int, m: nat :: IsPermutation(order(d, m), |PracticeCourses(courses)|)
    requires DistinctCourseIds(courses)
    ensures PracticeInv(store, workload,
                        GeneratePractices(courses, subgroups, practiceDays, startDate, endDate, order, store, workload),
                        PracticeCourses(courses), subgroups, practiceDays, startDate,
                        if startDate > endDate then startDate - 1 else endDate)
  {
    var pcs := PracticeCourses(courses);
    var st0 := PracticeState(store, map[], workload);
    assert store[..|store|] == store;
    assert PracticeInv(store, workload, st0, pcs, subgroups, practiceDays, startDate, startDate - 1);
    PracticeDatesKeepInv(store, workload, st0, pcs, order, subgroups, practiceDays, startDate, startDate, endDate);
  }

  /** The practice pass only appends, and every lesson it writes is a
      Practice of a course with practice hours, for a subgroup of the
      course's study plan, on a practice day inside [startDate, endDate],
      at a slot's start time. */
  lemma GeneratePracticesPlacement(courses: seq<Course>, subgroups: seq<Subgroup>, practiceDays: seq<int>,
                                   startDate: int, endDate: int, order: (int, nat) -> seq<nat>,
                                   store: seq<Lesson>, workload: map<nat, nat>)
    requires forall d: int, m: nat :: IsPermutation(order(d, m), |PracticeCourses(courses)|)
    requires DistinctCourseIds(courses)
    ensures var s := GeneratePractices(courses, subgroups, practiceDays, startDate, endDate, order, store, workload).store;
      && |store| <= |s| && s[..|store|] == store
      && (forall j :: |store| <= j < |s| ==>
            && s[j].kind == Practice
            && Weekday(s[j].date) in practiceDays
            && startDate <= s[j].date <= endDate
            && IsSlotStart(s[j].startTime)
            && s[j].course in courses && s[j].course.practiceHours > 0
            && s[j].subgroup in subgroups
            && s[j].subgroup.group.studyPlan == s[j].course.studyPlan)
  {
    GeneratePracticesInv(courses, subgroups, practiceDays, startDate, endDate, order, store, workload);
  }

  /** No (course, subgroup) pair gets more practices than the course's
      practice hours div 2. */
  lemma GeneratePracticesQuota(courses: seq<Course>, subgroups: seq<Subgroup>, practiceDays: seq<int>,
                               startDate: int, endDate: int, order: (int, nat) -> seq<nat>,
                               store: seq<Lesson>, workload: map<nat, nat>)
    requires forall d: int, m: nat :: IsPermutation(order(d, m), |PracticeCourses(courses)|)
    requires DistinctCourseIds(courses)
    ensures var s := GeneratePractices(courses, subgroups, practiceDays, startDate, endDate, order, store, workload).store;
      forall c, sgId: nat :: c in courses ==>
        SessionCount(s, c.id, sgId, Practice) <= SessionCount(store, c.id, sgId, Practice) + c.practiceHours / 2
  {
    var pcs := PracticeCourses(courses);
    GeneratePracticesInv(courses, subgroups, practiceDays, startDate, endDate, order, store, workload);
    GeneratePracticesPlacement(courses, subgroups, practiceDays, startDate, endDate, order, store, workload);
    var st := GeneratePractices(courses, subgroups, practiceDays, startDate, endDate, order, store, workload);
    var s := st.store;
    forall c, sgId: nat | c in courses
      ensures SessionCount(s, c.id, sgId, Practice) <= SessionCount(store, c.id, sgId, Practice) + c.practiceHours / 2
    {
      if c in pcs {
        var i :| 0 <= i < |pcs| && pcs[i] == c;
        assert PairCreated(st.created, pcs[i].id, sgId) <= PracticesNeeded(pcs[i]);
      } else {
        var added := s[|store|..];
        assert s == store + added;
        SessionCountAppend(store, added, c.id, sgId, Practice);
        forall j | 0 <= j < |added| ensures added[j].course.id != c.id {
          assert added[j] == s[|store| + j];
          var k :| 0 <= k < |courses| && courses[k] == c;
          var k' :| 0 <= k' < |courses| && courses[k'] == added[j].course;
        }
      }
    }
  }

  /** The workload counters grow by exactly the lessons the pass gives
      each teacher. */
  lemma GeneratePracticesWorkload(courses: seq<Course>, subgroups: seq<Subgroup>, practiceDays: seq<int>,
                                  startDate: int, endDate: int, order: (int, nat) -> seq<nat>,
                                  store: seq<Lesson>, workload: map<nat, nat>)
    requires forall d: int, m: nat :: IsPermutation(order(d, m), |PracticeCourses(courses)|)
    requires DistinctCourseIds(courses)
    ensures var st := GeneratePractices(courses, subgroups, practiceDays, startDate, endDate, order, store, workload);
      forall tid: nat :: Workload(st.workload, tid) == Workload(workload, tid) + TeacherLessons(st.store, tid) - TeacherLessons(store, tid)
  {
    GeneratePracticesInv(courses, subgroups, practiceDays, startDate, endDate, order, store, workload);
  }

  /** No subgroup is pushed past four lessons on a date: every load the
      pass changed is at most four. */
  lemma GeneratePracticesCeiling(courses: seq<Course>, subgroups: seq<Subgroup>, practiceDays: seq<int>,
                                 startDate: int, endDate: int, order: (int, nat) -> seq<nat>,
                                 store: seq<Lesson>, workload: map<nat, nat>)
    requires forall d: int, m: nat :: IsPermutation(order(d, m), |PracticeCourses(courses)|)
    requires DistinctCourseIds(courses)
    ensures var s := GeneratePractices(courses, subgroups, practiceDays, startDate, endDate, order, store, workload).store;
      forall sgId: nat, d: int :: DailyLoad(s, sgId, d) <= MaxLessonsForSubgroup || DailyLoad(s, sgId, d) == DailyLoad(store, sgId, d)
  {
    GeneratePracticesInv(courses, subgroups, practiceDays, startDate, endDate, order, store, workload);
  }

  /** No new practice meets an earlier lesson of its subgroup or of its
      teacher in its slot. */
  lemma GeneratePracticesNoClash(courses: seq<Course>, subgroups: seq<Subgroup>, practiceDays: seq<int>,
                                 startDate: int, endDate: int, order: (int, nat) -> seq<nat>,
                                 store: seq<Lesson>, workload: map<nat, nat>)
    requires forall d: int, m: nat :: IsPermutation(order(d, m), |PracticeCourses(courses)|)
    requires DistinctCourseIds(courses)
    ensures var s := GeneratePractices(courses, subgroups, practiceDays, startDate, endDate, order, store, workload).store;
      && (forall i, j :: 0 <= i < j < |s| && |store| <= j ==> !SameSubgroupSlot(s[i], s[j]))
      && (forall i, j :: 0 <= i < j < |s| && |store| <= j ==> !SameTeacherSlot(s[i], s[j]))
  {
    GeneratePracticesInv(courses, subgroups, practiceDays, startDate, endDate, order, store, workload);
  }

  /** Two states that agree on the store and the pair counters. */
  predicate SameProgress(a: PracticeState, b: PracticeState)
  {
    a.store == b.store && a.created == b.created
  }

  lemma {:induction false} PracticeForSubgroupsIgnoresWorkload(c: Course, sgs: seq<Subgroup>, i: nat, date: int, slot: Timeslot,
                                                               a: PracticeState, b: PracticeState)
    requires SameProgress(a, b)
    ensures SameProgress(PracticeForSubgroups(c, sgs, i, date, slot, a), PracticeForSubgroups(c, sgs, i, date, slot, b))
    decreases |sgs| - i
  {
    if i < |sgs| {
      PracticeForSubgroupsIgnoresWorkload(c, sgs, i + 1, date, slot,
                                          TryPractice(c, sgs[i], date, slot, a), TryPractice(c, sgs[i], date, slot, b));
    }
  }

  lemma {:induction false} PracticeForCoursesIgnoresWorkload(courses: seq<Course>, perm: seq<nat>, j: nat, subgroups: seq<Subgroup>,
                                                             date: int, slot: Timeslot, a: PracticeState, b: PracticeState)
    requires forall i :: 0 <= i < |perm| ==> perm[i] < |courses|
    requires SameProgress(a, b)
    ensures SameProgress(PracticeForCourses(courses, perm, j, subgroups, date, slot, a),
                         PracticeForCourses(courses, perm, j, subgroups, date, slot, b))
    decreases |perm| - j
  {
    if j < |perm| {
      var c := courses[perm[j]];
      var sgs := PlanSubgroups(subgroups, c);
      PracticeForSubgroupsIgnoresWorkload(c, sgs, 0, date, slot, a, b);
      PracticeForCoursesIgnoresWorkload(courses, perm, j + 1, subgroups, date, slot,
                                        PracticeForSubgroups(c, sgs, 0, date, slot, a),
                                        PracticeForSubgroups(c, sgs, 0, date, slot, b));
    }
  }

  lemma {:induction false} FillPracticeDayIgnoresWorkload(courses: seq<Course>, order: (int, nat) -> seq<nat>, subgroups: seq<Subgroup>,
                                                          date: int, k: nat, a: PracticeState, b: PracticeState)
    requires forall d: int, m: nat :: IsPermutation(order(d, m), |courses|)
    requires SameProgress(a, b)
    ensures SameProgress(FillPracticeDay(courses, order, subgroups, date, k, a), FillPracticeDay(courses, order, subgroups, date, k, b))
    decreases |LectureTimeslots| - k
  {
    if k < |LectureTimeslots| {
      var slot := LectureTimeslots[k];
      assert IsPermutation(order(date, k), |courses|);
      PracticeForCoursesIgnoresWorkload(courses, order(date, k), 0, subgroups, date, slot, a, b);
      FillPracticeDayIgnoresWorkload(courses, order, subgroups, date, k + 1,
                                     PracticeForCourses(courses, order(date, k), 0, subgroups, date, slot, a),
                                     PracticeForCourses(courses, order(date, k), 0, subgroups, date, slot, b));
    }
  }

  lemma {:induction false} PracticeDatesIgnoreWorkload(courses: seq<Course>, order: (int, nat) -> seq<nat>, subgroups: seq<Subgroup>,
                                                       practiceDays: seq<int>, date: int, endDate: int, a: PracticeState, b: PracticeState)
    requires forall d: int, m: nat :: IsPermutation(order(d, m), |courses|)
    requires SameProgress(a, b)
    ensures SameProgress(PracticeDatesFrom(courses, order, subgroups, practiceDays, date, endDate, a),
                         PracticeDatesFrom(courses, order, subgroups, practiceDays, date, endDate, b))
    decreases endDate - date
  {
    if date <= endDate {
      if Weekday(date) in practiceDays {
        FillPracticeDayIgnoresWorkload(courses, order, subgroups, date, 0, a, b);
        PracticeDatesIgnoreWorkload(courses, order, subgroups, practiceDays, date + 1, endDate,
                                    FillPracticeDay(courses, order, subgroups, date, 0, a),
                                    FillPracticeDay(courses, order, subgroups, date, 0, b));
      } else {
        PracticeDatesIgnoreWorkload(courses, order, subgroups, practiceDays, date + 1, endDate, a, b);
      }
    }
  }

  /** The workload counters are written but never read: the lessons the
      practice pass writes do not depend on the counters it starts from. */
  lemma GeneratePracticesIgnoresWorkload(courses: seq<Course>, subgroups: seq<Subgroup>, practiceDays: seq<int>,
                                         startDate: int, endDate: int, order: (int, nat) -> seq<nat>,
                                         store: seq<Lesson>, w1: map<nat, nat>, w2: map<nat, nat>)
    requires forall d: int, m: nat :: IsPermutation(order(d, m), |PracticeCourses(courses)|)
    ensures GeneratePractices(courses, subgroups, practiceDays, startDate, endDate, order, store, w1).store
         == GeneratePractices(courses, subgroups, practiceDays, startDate, endDate, order, store, w2).store
  {
    PracticeDatesIgnoreWorkload(PracticeCourses(courses), order, subgroups, practiceDays, startDate, endDate,
                                PracticeState(store, map[], w1), PracticeState(store, map[], w2));
  }
}
