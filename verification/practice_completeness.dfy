/** The practice pass leaves nothing it could have placed: every attempt it
    makes is either taken or turned down, and a turned-down attempt stays
    turned down, because the store only grows and every reason to turn an
    attempt down only grows with it. */
module PracticeCompleteness {
  import opened Entities
  import opened LessonStore
  import opened PracticePass

  /** One of the four checks turns down the attempt of `c` for `sg` in `slot` on `date`. */
  predicate Blocked(st: PracticeState, c: Course, sg: Subgroup, date: int, slot: Timeslot)
  {
    || PairCreated(st.created, c.id, sg.id) >= PracticesNeeded(c)
    || HasLessonAt(st.store, sg.id, date, slot.start)
    || !IsTeacherAvailable(st.store, c.teacher, date, slot)
    || DailyLoad(st.store, sg.id, date) >= MaxLessonsForSubgroup
  }

  /** `b` is `a` with lessons appended and no pair counter lowered. */
  ghost predicate Grows(a: PracticeState, b: PracticeState)
  {
    && Extends(a.store, b.store)
    && forall cid: nat, sid: nat :: PairCreated(a.created, cid, sid) <= PairCreated(b.created, cid, sid)
  }

  /** An attempt changes the state exactly when no check turns it down, and
      then it appends the one Practice lesson of the pair in the slot. */
  lemma TryPracticeDecides(c: Course, sg: Subgroup, date: int, slot: Timeslot, st: PracticeState)
    ensures TryPractice(c, sg, date, slot, st) == st <==> Blocked(st, c, sg, date, slot)
    ensures !Blocked(st, c, sg, date, slot) ==>
      TryPractice(c, sg, date, slot, st).store == st.store + [Lesson(c, sg, date, slot.start, Practice)]
  {
  }

  lemma GrowsTrans(a: PracticeState, b: PracticeState, c: PracticeState)
    requires Grows(a, b) && Grows(b, c)
    ensures Grows(a, c)
  {
  }

  /** A turned-down attempt stays turned down as the state grows. */
  lemma BlockedLater(a: PracticeState, b: PracticeState, c: Course, sg: Subgroup, date: int, slot: Timeslot)
    requires Grows(a, b) && Blocked(a, c, sg, date, slot)
    ensures Blocked(b, c, sg, date, slot)
  {
    var added := b.store[|a.store|..];
    assert b.store == a.store + added;
    DailyLoadAppend(a.store, added, sg.id, date);
    if HasLessonAt(a.store, sg.id, date, slot.start) {
      var i :| 0 <= i < |a.store| && a.store[i].subgroup.id == sg.id
               && a.store[i].date == date && a.store[i].startTime == slot.start;
      assert b.store[i] == a.store[i];
    }
    if !IsTeacherAvailable(a.store, c.teacher, date, slot) {
      var i :| 0 <= i < |a.store| && a.store[i].course.teacher.id == c.teacher.id
               && a.store[i].date == date && a.store[i].startTime == slot.start;
      assert b.store[i] == a.store[i];
    }
  }

  /** An attempt grows the state and is turned down afterwards: either it
      was turned down, or its own lesson now occupies the subgroup's slot. */
  lemma TryPracticeSettles(c: Course, sg: Subgroup, date: int, slot: Timeslot, st: PracticeState)
    ensures Grows(st, TryPractice(c, sg, date, slot, st))
    ensures Blocked(TryPractice(c, sg, date, slot, st), c, sg, date, slot)
  {
    var st' := TryPractice(c, sg, date, slot, st);
    if !Blocked(st, c, sg, date, slot) {
      assert st'.store[|st.store|] == Lesson(c, sg, date, slot.start, Practice);
      assert st'.store[..|st.store|] == st.store;
      assert HasLessonAt(st'.store, sg.id, date, slot.start);
    }
  }

  lemma {:induction false} SubgroupsGrow(c: Course, sgs: seq<Subgroup>, i: nat, date: int, slot: Timeslot,
                                         st: PracticeState)
    ensures Grows(st, PracticeForSubgroups(c, sgs, i, date, slot, st))
    decreases |sgs| - i
  {
    if i < |sgs| {
      var st1 := TryPractice(c, sgs[i], date, slot, st);
      TryPracticeSettles(c, sgs[i], date, slot, st);
      SubgroupsGrow(c, sgs, i + 1, date, slot, st1);
      GrowsTrans(st, st1, PracticeForSubgroups(c, sgs, i + 1, date, slot, st1));
    }
  }

  /** After the subgroup scan of one course in a slot, every scanned
      subgroup is turned down for that course and slot. */
  lemma {:induction false} SubgroupsSettle(c: Course, sgs: seq<Subgroup>, i: nat, date: int, slot: Timeslot,
                                           st: PracticeState, m: nat)
    requires i <= m < |sgs|
    ensures Blocked(PracticeForSubgroups(c, sgs, i, date, slot, st), c, sgs[m], date, slot)
    decreases |sgs| - i
  {
    var st1 := TryPractice(c, sgs[i], date, slot, st);
    var last := PracticeForSubgroups(c, sgs, i + 1, date, slot, st1);
    assert PracticeForSubgroups(c, sgs, i, date, slot, st) == last;
    if m == i {
      TryPracticeSettles(c, sgs[i], date, slot, st);
      SubgroupsGrow(c, sgs, i + 1, date, slot, st1);
      BlockedLater(st1, last, c, sgs[m], date, slot);
    } else {
      SubgroupsSettle(c, sgs, i + 1, date, slot, st1, m);
    }
  }

  lemma {:induction false} CoursesGrow(courses: seq<Course>, perm: seq<nat>, j: nat, subgroups: seq<Subgroup>,
                                       date: int, slot: Timeslot, st: PracticeState)
    requires forall i :: 0 <= i < |perm| ==> perm[i] < |courses|
    ensures Grows(st, PracticeForCourses(courses, perm, j, subgroups, date, slot, st))
    decreases |perm| - j
  {
    if j < |perm| {
      var c := courses[perm[j]];
      var st1 := PracticeForSubgroups(c, PlanSubgroups(subgroups, c), 0, date, slot, st);
      SubgroupsGrow(c, PlanSubgroups(subgroups, c), 0, date, slot, st);
      CoursesGrow(courses, perm, j + 1, subgroups, date, slot, st1);
      GrowsTrans(st, st1, PracticeForCourses(courses, perm, j + 1, subgroups, date, slot, st1));
    }
  }

  /** After the course scan of a slot, every scanned course is turned down
      in that slot for every subgroup of its plan. */
  lemma {:induction false} CoursesSettle(courses: seq<Course>, perm: seq<nat>, j: nat, subgroups: seq<Subgroup>,
                                         date: int, slot: Timeslot, st: PracticeState, m: nat, sg: Subgroup)
    requires forall i :: 0 <= i < |perm| ==> perm[i] < |courses|
    requires j <= m < |perm| && sg in PlanSubgroups(subgroups, courses[perm[m]])
    ensures Blocked(PracticeForCourses(courses, perm, j, subgroups, date, slot, st), courses[perm[m]], sg, date, slot)
    decreases |perm| - j
  {
    var c := courses[perm[j]];
    var sgs := PlanSubgroups(subgroups, c);
    var st1 := PracticeForSubgroups(c, sgs, 0, date, slot, st);
    var last := PracticeForCourses(courses, perm, j + 1, subgroups, date, slot, st1);
    assert PracticeForCourses(courses, perm, j, subgroups, date, slot, st) == last;
    if m == j {
      var s :| 0 <= s < |sgs| && sgs[s] == sg;
      SubgroupsSettle(c, sgs, 0, date, slot, st, s);
      CoursesGrow(courses, perm, j + 1, subgroups, date, slot, st1);
      BlockedLater(st1, last, c, sg, date, slot);
    } else {
      CoursesSettle(courses, perm, j + 1, subgroups, date, slot, st1, m, sg);
    }
  }

  lemma {:induction false} DayGrows(courses: seq<Course>, order: (int, nat) -> seq<nat>, subgroups: seq<Subgroup>,
                                    date: int, k: nat, st: PracticeState)
    requires forall d: int, m: nat :: IsPermutation(order(d, m), |courses|)
    ensures Grows(st, FillPracticeDay(courses, order, subgroups, date, k, st))
    decreases |LectureTimeslots| - k
  {
    if k < |LectureTimeslots| {
      assert IsPermutation(order(date, k), |courses|);
      var st1 := PracticeForCourses(courses, order(date, k), 0, subgroups, date, LectureTimeslots[k], st);
      CoursesGrow(courses, order(date, k), 0, subgroups, date, LectureTimeslots[k], st);
      DayGrows(courses, order, subgroups, date, k + 1, st1);
      GrowsTrans(st, st1, FillPracticeDay(courses, order, subgroups, date, k + 1, st1));
    }
  }

  /** After a practice day from slot `k` on, every course is turned down in
      every later slot for every subgroup of its plan. */
  lemma {:induction false} DaySettles(courses: seq<Course>, order: (int, nat) -> seq<nat>, subgroups: seq<Subgroup>,
                                      date: int, k: nat, st: PracticeState, k': nat, ci: nat, sg: Subgroup)
    requires forall d: int, m: nat :: IsPermutation(order(d, m), |courses|)
    requires k <= k' < |LectureTimeslots| && ci < |courses| && sg in PlanSubgroups(subgroups, courses[ci])
    ensures Blocked(FillPracticeDay(courses, order, subgroups, date, k, st), courses[ci], sg, date, LectureTimeslots[k'])
    decreases |LectureTimeslots| - k
  {
    var perm := order(date, k);
    assert IsPermutation(perm, |courses|);
    var slot := LectureTimeslots[k];
    var st1 := PracticeForCourses(courses, perm, 0, subgroups, date, slot, st);
    var last := FillPracticeDay(courses, order, subgroups, date, k + 1, st1);
    assert FillPracticeDay(courses, order, subgroups, date, k, st) == last;
    if k' == k {
      PermutationCovers(perm, |courses|, ci);
      var m :| 0 <= m < |perm| && perm[m] == ci;
      CoursesSettle(courses, perm, 0, subgroups, date, slot, st, m, sg);
      DayGrows(courses, order, subgroups, date, k + 1, st1);
      BlockedLater(st1, last, courses[ci], sg, date, slot);
    } else {
      DaySettles(courses, order, subgroups, date, k + 1, st1, k', ci, sg);
    }
  }

  lemma {:induction false} DatesGrow(courses: seq<Course>, order: (int, nat) -> seq<nat>, subgroups: seq<Subgroup>,
                                     practiceDays: seq<int>, date: int, endDate: int, st: PracticeState)
    requires forall d: int, m: nat :: IsPermutation(order(d, m), |courses|)
    ensures Grows(st, PracticeDatesFrom(courses, order, subgroups, practiceDays, date, endDate, st))
    decreases endDate - date
  {
    if date <= endDate {
      var st1 := if Weekday(date) in practiceDays then FillPracticeDay(courses, order, subgroups, date, 0, st) else st;
      if Weekday(date) in practiceDays {
        DayGrows(courses, order, subgroups, date, 0, st);
      }
      DatesGrow(courses, order, subgroups, practiceDays, date + 1, endDate, st1);
      GrowsTrans(st, st1, PracticeDatesFrom(courses, order, subgroups, practiceDays, date + 1, endDate, st1));
    }
  }

  /** After the dates from `date` on, every course is turned down in every
      slot of every later practice day for every subgroup of its plan. */
  lemma {:induction false} DatesSettle(courses: seq<Course>, order: (int, nat) -> seq<nat>, subgroups: seq<Subgroup>,
                                       practiceDays: seq<int>, date: int, endDate: int, st: PracticeState,
                                       d: int, k: nat, ci: nat, sg: Subgroup)
    requires forall d: int, m: nat :: IsPermutation(order(d, m), |courses|)
    requires date <= d <= endDate && Weekday(d) in practiceDays
    requires k < |LectureTimeslots| && ci < |courses| && sg in PlanSubgroups(subgroups, courses[ci])
    ensures Blocked(PracticeDatesFrom(courses, order, subgroups, practiceDays, date, endDate, st),
                    courses[ci], sg, d, LectureTimeslots[k])
    decreases endDate - date
  {
    var st1 := if Weekday(date) in practiceDays then FillPracticeDay(courses, order, subgroups, date, 0, st) else st;
    var last := PracticeDatesFrom(courses, order, subgroups, practiceDays, date + 1, endDate, st1);
    assert PracticeDatesFrom(courses, order, subgroups, practiceDays, date, endDate, st) == last;
    if d == date {
      DaySettles(courses, order, subgroups, date, 0, st, k, ci, sg);
      DatesGrow(courses, order, subgroups, practiceDays, date + 1, endDate, st1);
      BlockedLater(st1, last, courses[ci], sg, d, LectureTimeslots[k]);
    } else {
      DatesSettle(courses, order, subgroups, practiceDays, date + 1, endDate, st1, d, k, ci, sg);
    }
  }

  /** Nothing fillable is left behind: when a practice course still owes a
      subgroup of its plan sessions at the end of the pass, then in every
      slot of every practice day of the range the subgroup is busy, the
      teacher is busy, or the subgroup already has four lessons that day. */
  lemma GeneratePracticesComplete(courses: seq<Course>, subgroups: seq<Subgroup>, practiceDays: seq<int>,
                                  startDate: int, endDate: int, order: (int, nat) -> seq<nat>,
                                  store: seq<Lesson>, workload: map<nat, nat>,
                                  d: int, k: nat, c: Course, sg: Subgroup)
    requires forall d: int, m: nat :: IsPermutation(order(d, m), |PracticeCourses(courses)|)
    requires startDate <= d <= endDate && Weekday(d) in practiceDays && k < |LectureTimeslots|
    requires c in courses && c.practiceHours > 0
    requires sg in subgroups && sg.group.studyPlan == c.studyPlan
    ensures var st := GeneratePractices(courses, subgroups, practiceDays, startDate, endDate, order, store, workload);
      PairCreated(st.created, c.id, sg.id) < PracticesNeeded(c) ==>
        || HasLessonAt(st.store, sg.id, d, LectureTimeslots[k].start)
        || !IsTeacherAvailable(st.store, c.teacher, d, LectureTimeslots[k])
        || DailyLoad(st.store, sg.id, d) >= MaxLessonsForSubgroup
  {
    var pc := PracticeCourses(courses);
    assert c in pc;
    var ci :| 0 <= ci < |pc| && pc[ci] == c;
    assert sg in PlanSubgroups(subgroups, pc[ci]);
    DatesSettle(pc, order, subgroups, practiceDays, startDate, endDate, PracticeState(store, map[], workload),
                d, k, ci, sg);
  }
}
