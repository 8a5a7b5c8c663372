/** The lecture pass. On every lecture day of the date range it visits the
    seven slots in order; for each slot it scans the (shuffled) courses
    that have lecture hours and places the first one that still needs
    sessions and whose teacher is free, creating one Lecture lesson for
    every subgroup that has fewer than four lessons that day. At most one
    course is placed per slot. The shuffle is an input: `order(date, k)`
    is the course order used for slot `k` of `date`. */
module LecturePass {
  import opened Entities
  import opened LessonStore

  /** The courses that have lecture hours, in their original order. */
  function LectureCourses(courses: seq<Course>): (r: seq<Course>)
    ensures forall c :: c in r <==> c in courses && c.lectureHours > 0
    ensures |r| <= |courses|
    ensures DistinctCourseIds(courses) ==> DistinctCourseIds(r)
  {
    if |courses| == 0 then []
    else
      var rest := LectureCourses(courses[1..]);
      if courses[0].lectureHours > 0 then
        assert DistinctCourseIds(courses) ==> forall c :: c in rest ==> c.id != courses[0].id;
        [courses[0]] + rest
      else rest
  }

  /** Sessions a course needs: whole two-hour blocks; an odd hour is dropped. */
  function LecturesNeeded(c: Course): nat
  {
    c.lectureHours / 2
  }

  /** A counter map read with default 0. */
  function Created(created: map<nat, nat>, id: nat): nat
  {
    if id in created then created[id] else 0
  }

  /** The store as it grows, and the number of lecture placements per course id. */
  datatype LectureState = LectureState(store: seq<Lesson>, created: map<nat, nat>)

  /** The subgroups that have fewer than four lessons on `date`, in order. */
  function OpenSubgroups(store: seq<Lesson>, subgroups: seq<Subgroup>, date: int): (r: seq<Subgroup>)
    ensures forall sg :: sg in r <==> sg in subgroups && DailyLoad(store, sg.id, date) < MaxLessonsForSubgroup
    ensures DistinctSubgroupIds(subgroups) ==> DistinctSubgroupIds(r)
  {
    if |subgroups| == 0 then []
    else
      var rest := OpenSubgroups(store, subgroups[1..], date);
      if DailyLoad(store, subgroups[0].id, date) < MaxLessonsForSubgroup then
        assert DistinctSubgroupIds(subgroups) ==> forall sg :: sg in rest ==> sg.id != subgroups[0].id;
        [subgroups[0]] + rest
      else rest
  }

  /** One Lecture lesson of `c` for each target subgroup, all in one slot. */
  function LectureBatch(c: Course, targets: seq<Subgroup>, date: int, start: Minute): seq<Lesson>
  {
    seq(|targets|, i requires 0 <= i < |targets| => Lesson(c, targets[i], date, start, Lecture))
  }

  /** Records one placement of `c`: its lessons are added and its counter goes up. */
  function PlaceLecture(c: Course, targets: seq<Subgroup>, date: int, slot: Timeslot, st: LectureState): LectureState
  {
    LectureState(st.store + LectureBatch(c, targets, date, slot.start),
                 st.created[c.id := Created(st.created, c.id) + 1])
  }

  /** One slot: scan the shuffled courses from position `j` and place the
      first one that still needs sessions, whose teacher is free, and for
      which some subgroup is below the daily ceiling. */
  function FillLectureSlot(courses: seq<Course>, perm: seq<nat>, j: nat, subgroups: seq<Subgroup>,
                           date: int, slot: Timeslot, st: LectureState): LectureState
    requires forall i :: 0 <= i < |perm| ==> perm[i] < |courses|
    decreases |perm| - j
  {
    if j >= |perm| then st
    else
      var c := courses[perm[j]];
      if Created(st.created, c.id) >= LecturesNeeded(c) then
        FillLectureSlot(courses, perm, j + 1, subgroups, date, slot, st)
      else if !IsTeacherAvailable(st.store, c.teacher, date, slot) then
        FillLectureSlot(courses, perm, j + 1, subgroups, date, slot, st)
      else
        var targets := OpenSubgroups(st.store, subgroups, date);
        if |targets| == 0 then FillLectureSlot(courses, perm, j + 1, subgroups, date, slot, st)
        else PlaceLecture(c, targets, date, slot, st)
  }

  /** The slots `k`, `k + 1`, ... of one lecture day. */
  function FillLectureDay(courses: seq<Course>, order: (int, nat) -> seq<nat>, subgroups: seq<Subgroup>,
                          date: int, k: nat, st: LectureState): LectureState
    requires forall d: int, m: nat :: IsPermutation(order(d, m), |courses|)
    decreases |LectureTimeslots| - k
  {
    if k >= |LectureTimeslots| then st
    else
      assert IsPermutation(order(date, k), |courses|);
      var st' := FillLectureSlot(courses, order(date, k), 0, subgroups, date, LectureTimeslots[k], st);
      FillLectureDay(courses, order, subgroups, date, k + 1, st')
  }

  /** The dates `date` .. `endDate`; only lecture days are filled. */
  function LectureDatesFrom(courses: seq<Course>, order: (int, nat) -> seq<nat>, subgroups: seq<Subgroup>,
                            lectureDays: seq<int>, date: int, endDate: int, st: LectureState): LectureState
    requires forall d: int, m: nat :: IsPermutation(order(d, m), |courses|)
    decreases endDate - date
  {
    if date > endDate then st
    else
      var st' := if Weekday(date) in lectureDays then FillLectureDay(courses, order, subgroups, date, 0, st) else st;
      LectureDatesFrom(courses, order, subgroups, lectureDays, date + 1, endDate, st')
  }

  /** The whole lecture pass over [startDate, endDate], starting from `store`. */
  function GenerateLectures(courses: seq<Course>, subgroups: seq<Subgroup>, lectureDays: seq<int>,
                            startDate: int, endDate: int, order: (int, nat) -> seq<nat>,
                            store: seq<Lesson>): LectureState
    requires forall d: int, m: nat :: IsPermutation(order(d, m), |LectureCourses(courses)|)
  {
    LectureDatesFrom(LectureCourses(courses), order, subgroups, lectureDays, startDate, endDate,
                     LectureState(store, map[]))
  }
}
