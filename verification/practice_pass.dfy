/** The practice pass. On every practice day of the date range it visits
    the seven slots in order; for each slot it scans the (shuffled) courses
    that have practice hours and, for each subgroup of the course's study
    plan, creates one Practice lesson when that (course, subgroup) pair
    still needs sessions, the subgroup is free in the slot, the teacher is
    free in the slot, and the subgroup has fewer than four lessons that
    day. Several courses may share a slot, for different subgroups. Each
    lesson created also bumps an advisory per-teacher workload counter that
    no check reads. */
module PracticePass {
  import opened Entities
  import opened LessonStore

  /** The courses that have practice hours, in their original order. */
  function PracticeCourses(courses: seq<Course>): (r: seq<Course>)
    ensures forall c :: c in r <==> c in courses && c.practiceHours > 0
    ensures DistinctCourseIds(courses) ==> DistinctCourseIds(r)
  {
    if |courses| == 0 then []
    else
      var rest := PracticeCourses(courses[1..]);
      if courses[0].practiceHours > 0 then
        assert DistinctCourseIds(courses) ==> forall c :: c in rest ==> c.id != courses[0].id;
        [courses[0]] + rest
      else rest
  }

  /** Sessions each subgroup needs of a course: whole two-hour blocks. */
  function PracticesNeeded(c: Course): nat
  {
    c.practiceHours / 2
  }

  /** The per-(course, subgroup) counter, read with default 0. */
  function PairCreated(created: map<(nat, nat), nat>, courseId: nat, sgId: nat): nat
  {
    if (courseId, sgId) in created then created[(courseId, sgId)] else 0
  }

  /** The per-teacher workload counter, read with default 0. */
  function Workload(workload: map<nat, nat>, teacherId: nat): nat
  {
    if teacherId in workload then workload[teacherId] else 0
  }

  /** The store as it grows, the per-pair session counters, and the
      advisory teacher workload. */
  datatype PracticeState = PracticeState(store: seq<Lesson>, created: map<(nat, nat), nat>, workload: map<nat, nat>)

  /** The subgroups that belong to the course's study plan, in order. */
  function PlanSubgroups(subgroups: seq<Subgroup>, c: Course): (r: seq<Subgroup>)
    ensures forall sg :: sg in r <==> sg in subgroups && sg.group.studyPlan == c.studyPlan
  {
    if |subgroups| == 0 then []
    else if subgroups[0].group.studyPlan == c.studyPlan then [subgroups[0]] + PlanSubgroups(subgroups[1..], c)
    else PlanSubgroups(subgroups[1..], c)
  }

  /** The four checks for one (course, subgroup) pair in one slot, in the
      order they are made, and the lesson they let through. */
  function TryPractice(c: Course, sg: Subgroup, date: int, slot: Timeslot, st: PracticeState): PracticeState
  {
    if PairCreated(st.created, c.id, sg.id) >= PracticesNeeded(c) then st
    else if HasLessonAt(st.store, sg.id, date, slot.start) then st
    else if !IsTeacherAvailable(st.store, c.teacher, date, slot) then st
    else if DailyLoad(st.store, sg.id, date) >= MaxLessonsForSubgroup then st
    else
      PracticeState(st.store + [Lesson(c, sg, date, slot.start, Practice)],
                    st.created[(c.id, sg.id) := PairCreated(st.created, c.id, sg.id) + 1],
                    st.workload[c.teacher.id := Workload(st.workload, c.teacher.id) + 1])
  }

  /** The subgroups `sgs[i..]` of one course in one slot. */
  function PracticeForSubgroups(c: Course, sgs: seq<Subgroup>, i: nat, date: int, slot: Timeslot,
                                st: PracticeState): PracticeState
    decreases |sgs| - i
  {
    if i >= |sgs| then st
    else PracticeForSubgroups(c, sgs, i + 1, date, slot, TryPractice(c, sgs[i], date, slot, st))
  }

  /** The shuffled courses from position `j` in one slot. */
  function PracticeForCourses(courses: seq<Course>, perm: seq<nat>, j: nat, subgroups: seq<Subgroup>,
                              date: int, slot: Timeslot, st: PracticeState): PracticeState
    requires forall i :: 0 <= i < |perm| ==> perm[i] < |courses|
    decreases |perm| - j
  {
    if j >= |perm| then st
    else
      var c := courses[perm[j]];
      var st' := PracticeForSubgroups(c, PlanSubgroups(subgroups, c), 0, date, slot, st);
      PracticeForCourses(courses, perm, j + 1, subgroups, date, slot, st')
  }

  /** The slots `k`, `k + 1`, ... of one practice day. */
  function FillPracticeDay(courses: seq<Course>, order: (int, nat) -> seq<nat>, subgroups: seq<Subgroup>,
                           date: int, k: nat, st: PracticeState): PracticeState
    requires forall d: int, m: nat :: IsPermutation(order(d, m), |courses|)
    decreases |LectureTimeslots| - k
  {
    if k >= |LectureTimeslots| then st
    else
      assert IsPermutation(order(date, k), |courses|);
      var st' := PracticeForCourses(courses, order(date, k), 0, subgroups, date, LectureTimeslots[k], st);
      FillPracticeDay(courses, order, subgroups, date, k + 1, st')
  }

  /** The dates `date` .. `endDate`; only practice days are filled. */
  function PracticeDatesFrom(courses: seq<Course>, order: (int, nat) -> seq<nat>, subgroups: seq<Subgroup>,
                             practiceDays: seq<int>, date: int, endDate: int, st: PracticeState): PracticeState
    requires forall d: int, m: nat :: IsPermutation(order(d, m), |courses|)
    decreases endDate - date
  {
    if date > endDate then st
    else
      var st' := if Weekday(date) in practiceDays then FillPracticeDay(courses, order, subgroups, date, 0, st) else st;
      PracticeDatesFrom(courses, order, subgroups, practiceDays, date + 1, endDate, st')
  }

  /** The whole practice pass over [startDate, endDate], starting from
      `store` and the workload counters `workload`. */
  function GeneratePractices(courses: seq<Course>, subgroups: seq<Subgroup>, practiceDays: seq<int>,
                             startDate: int, endDate: int, order: (int, nat) -> seq<nat>,
                             store: seq<Lesson>, workload: map<nat, nat>): PracticeState
    requires forall d: int, m: nat :: IsPermutation(order(d, m), |PracticeCourses(courses)|)
  {
    PracticeDatesFrom(PracticeCourses(courses), order, subgroups, practiceDays, startDate, endDate,
                      PracticeState(store, map[], workload))
  }
}
