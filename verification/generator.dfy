/** One run of the schedule generator: validate the input, select the
    plan's courses and subgroups, run the lecture pass and then the practice
    pass against the lesson store, and return the final schedule. */
module Generator {
  import opened Wrappers
  import opened Entities
  import opened LessonStore
  import opened DayPartition
  import opened LecturePass
  import opened LectureProperties
  import opened PracticePass
  import opened PracticeProperties
  import opened Timetable

  /** The catalog tables the generator reads. */
  datatype Catalog = Catalog(courses: seq<Course>, groups: seq<Group>, subgroups: seq<Subgroup>)

  datatype GenError = MissingStudyPlan | StartAfterEnd

  /** The store after the run, and the schedule or the reason for refusing. */
  datatype Run = Run(store: seq<Lesson>, outcome: Result<Schedule, GenError>)

  /** The input checks, study plan first. */
  function Validate(plan: Option<StudyPlan>, startDate: int, endDate: int): (o: Outcome<GenError>)
    ensures o.Pass? <==> plan.Some? && startDate <= endDate
    ensures o.Fail? ==> (o.error == MissingStudyPlan <==> plan.None?)
  {
    if plan.None? then Fail(MissingStudyPlan)
    else if startDate > endDate then Fail(StartAfterEnd)
    else Pass
  }

  /** The plan's courses of the semester, in catalog order. */
  function PlanCourses(courses: seq<Course>, planId: nat, semester: nat): (r: seq<Course>)
    ensures forall c :: c in r <==> c in courses && c.studyPlan == planId && c.semester == semester
    ensures DistinctCourseIds(courses) ==> DistinctCourseIds(r)
  {
    if courses == [] then []
    else
      var rest := PlanCourses(courses[1..], planId, semester);
      assert forall c :: c in courses <==> c == courses[0] || c in courses[1..];
      if courses[0].studyPlan == planId && courses[0].semester == semester then
        assert DistinctCourseIds(courses) ==> forall c :: c in rest ==> c.id != courses[0].id by {
          if DistinctCourseIds(courses) {
            forall c | c in rest ensures c.id != courses[0].id {
              var k :| 0 <= k < |courses[1..]| && courses[1..][k] == c;
              assert courses[k + 1] == c;
            }
          }
        }
        [courses[0]] + rest
      else rest
  }

  /** The ids of the plan's groups. */
  function PlanGroupIds(groups: seq<Group>, planId: nat): (ids: set<nat>)
    ensures forall id :: id in ids <==> exists g :: g in groups && g.studyPlan == planId && g.id == id
  {
    set g | g in groups && g.studyPlan == planId :: g.id
  }

  /** The subgroups of the plan's groups, in catalog order. */
  function PlanSubgroupsOf(subgroups: seq<Subgroup>, groupIds: set<nat>): (r: seq<Subgroup>)
    ensures forall sg :: sg in r <==> sg in subgroups && sg.group.id in groupIds
    ensures DistinctSubgroupIds(subgroups) ==> DistinctSubgroupIds(r)
  {
    if subgroups == [] then []
    else
      var rest := PlanSubgroupsOf(subgroups[1..], groupIds);
      assert forall sg :: sg in subgroups <==> sg == subgroups[0] || sg in subgroups[1..];
      if subgroups[0].group.id in groupIds then
        assert DistinctSubgroupIds(subgroups) ==> forall sg :: sg in rest ==> sg.id != subgroups[0].id by {
          if DistinctSubgroupIds(subgroups) {
            forall sg | sg in rest ensures sg.id != subgroups[0].id {
              var k :| 0 <= k < |subgroups[1..]| && subgroups[1..][k] == sg;
              assert subgroups[k + 1] == sg;
            }
          }
        }
        [subgroups[0]] + rest
      else rest
  }

  function ScopeSubgroups(catalog: Catalog, planId: nat): seq<Subgroup>
  {
    PlanSubgroupsOf(catalog.subgroups, PlanGroupIds(catalog.groups, planId))
  }

  /** The permutations drawn for each pass fit the plan's course lists. */
  ghost predicate OrdersFit(courses: seq<Course>, lectureOrder: (int, nat) -> seq<nat>, practiceOrder: (int, nat) -> seq<nat>)
  {
    && (forall d: int, m: nat :: IsPermutation(lectureOrder(d, m), |LectureCourses(courses)|))
    && (forall d: int, m: nat :: IsPermutation(practiceOrder(d, m), |PracticeCourses(courses)|))
  }

  /** The store after both passes. */
  function Passes(courses: seq<Course>, subgroups: seq<Subgroup>, lectureDays: seq<int>, startDate: int, endDate: int,
                  lectureOrder: (int, nat) -> seq<nat>, practiceOrder: (int, nat) -> seq<nat>, store: seq<Lesson>): seq<Lesson>
    requires OrdersFit(courses, lectureOrder, practiceOrder)
  {
    var afterLectures := GenerateLectures(courses, subgroups, lectureDays, startDate, endDate, lectureOrder, store).store;
    GeneratePractices(courses, subgroups, PracticeDays(lectureDays), startDate, endDate, practiceOrder, afterLectures, map[]).store
  }

  /** A whole run. `lectureDays` is the two-day sample and the orders are
      the shuffles of each slot, drawn by the caller. */
  function Generate(catalog: Catalog, plan: Option<StudyPlan>, semester: nat, startDate: int, endDate: int,
                    lectureDays: seq<int>, lectureOrder: (int, nat) -> seq<nat>, practiceOrder: (int, nat) -> seq<nat>,
                    store: seq<Lesson>): (run: Run)
    requires plan.Some? ==> OrdersFit(PlanCourses(catalog.courses, plan.value.id, semester), lectureOrder, practiceOrder)
    ensures run.outcome.Failure? <==> plan.None? || startDate > endDate
    ensures run.outcome.Failure? ==> run.store == store
    ensures run.outcome.Failure? ==> (run.outcome.error == MissingStudyPlan <==> plan.None?)
  {
    match Validate(plan, startDate, endDate)
    case Fail(e) => Run(store, Failure(e))
    case Pass =>
      var courses := PlanCourses(catalog.courses, plan.value.id, semester);
      var subgroups := ScopeSubgroups(catalog, plan.value.id);
      var s := Passes(courses, subgroups, lectureDays, startDate, endDate, lectureOrder, practiceOrder, store);
      Run(s, Success(FinalSchedule(s, subgroups, startDate, endDate)))
  }

  /** The conditions under which a run reaches the passes: a plan, an
      ordered date range, key-unique catalog rows, and draws that fit. */
  ghost predicate RunReady(catalog: Catalog, plan: Option<StudyPlan>, semester: nat, startDate: int, endDate: int,
                           lectureDays: seq<int>, lectureOrder: (int, nat) -> seq<nat>, practiceOrder: (int, nat) -> seq<nat>)
  {
    && plan.Some? && startDate <= endDate
    && DistinctCourseIds(catalog.courses) && DistinctSubgroupIds(catalog.subgroups)
    && IsLectureDaySample(lectureDays)
    && OrdersFit(PlanCourses(catalog.courses, plan.value.id, semester), lectureOrder, practiceOrder)
  }

  /** What a lesson written by a run looks like. */
  ghost predicate WrittenByRun(l: Lesson, catalog: Catalog, planId: nat, semester: nat, startDate: int, endDate: int,
                               lectureDays: seq<int>)
  {
    && startDate <= l.date <= endDate
    && IsSlotStart(l.startTime)
    && Weekday(l.date) in WorkDays
    && l.course in catalog.courses && l.course.studyPlan == planId && l.course.semester == semester
    && l.subgroup in catalog.subgroups && l.subgroup.group.id in PlanGroupIds(catalog.groups, planId)
    && ((l.kind == Lecture && Weekday(l.date) in lectureDays && l.course.lectureHours > 0)
        || (l.kind == Practice && Weekday(l.date) in PracticeDays(lectureDays) && l.course.practiceHours > 0
            && l.subgroup.group.studyPlan == l.course.studyPlan))
  }

  /** A run only appends to the store, and every lesson it writes is a
      lecture on a lecture day or a practice on a practice day, inside the
      date range, at a slot start, for a course of the plan and semester
      and a subgroup of one of the plan's groups. */
  lemma RunPlacement(catalog: Catalog, plan: Option<StudyPlan>, semester: nat, startDate: int, endDate: int,
                     lectureDays: seq<int>, lectureOrder: (int, nat) -> seq<nat>, practiceOrder: (int, nat) -> seq<nat>,
                     store: seq<Lesson>)
    requires RunReady(catalog, plan, semester, startDate, endDate, lectureDays, lectureOrder, practiceOrder)
    ensures var s := Generate(catalog, plan, semester, startDate, endDate, lectureDays, lectureOrder, practiceOrder, store).store;
      && |store| <= |s| && s[..|store|] == store
      && forall j :: |store| <= j < |s| ==> WrittenByRun(s[j], catalog, plan.value.id, semester, startDate, endDate, lectureDays)
  {
    var courses := PlanCourses(catalog.courses, plan.value.id, semester);
    var subgroups := ScopeSubgroups(catalog, plan.value.id);
    var s1 := GenerateLectures(courses, subgroups, lectureDays, startDate, endDate, lectureOrder, store).store;
    var s := Passes(courses, subgroups, lectureDays, startDate, endDate, lectureOrder, practiceOrder, store);
    GenerateLecturesPlacement(courses, subgroups, lectureDays, startDate, endDate, lectureOrder, store);
    GeneratePracticesPlacement(courses, subgroups, PracticeDays(lectureDays), startDate, endDate, practiceOrder, s1, map[]);
    PartitionOfWorkDays(lectureDays);
    forall j | |store| <= j < |s|
      ensures WrittenByRun(s[j], catalog, plan.value.id, semester, startDate, endDate, lectureDays)
    {
      if j < |s1| {
        assert s[j] == s1[j] by {
          assert s[..|s1|] == s1;
        }
      }
    }
    assert s[..|store|] == store by {
      assert s[..|s1|] == s1;
      assert s1[..|store|] == store;
    }
  }

  /** No course gets more lectures or practices for any subgroup than its
      hours div 2 allow. */
  lemma RunQuota(catalog: Catalog, plan: Option<StudyPlan>, semester: nat, startDate: int, endDate: int,
                 lectureDays: seq<int>, lectureOrder: (int, nat) -> seq<nat>, practiceOrder: (int, nat) -> seq<nat>,
                 store: seq<Lesson>, c: Course, sgId: nat)
    requires RunReady(catalog, plan, semester, startDate, endDate, lectureDays, lectureOrder, practiceOrder)
    requires c in PlanCourses(catalog.courses, plan.value.id, semester)
    ensures var s := Generate(catalog, plan, semester, startDate, endDate, lectureDays, lectureOrder, practiceOrder, store).store;
      && SessionCount(s, c.id, sgId, Lecture) <= SessionCount(store, c.id, sgId, Lecture) + c.lectureHours / 2
      && SessionCount(s, c.id, sgId, Practice) <= SessionCount(store, c.id, sgId, Practice) + c.practiceHours / 2
  {
    var courses := PlanCourses(catalog.courses, plan.value.id, semester);
    var subgroups := ScopeSubgroups(catalog, plan.value.id);
    var s1 := GenerateLectures(courses, subgroups, lectureDays, startDate, endDate, lectureOrder, store).store;
    var s := Passes(courses, subgroups, lectureDays, startDate, endDate, lectureOrder, practiceOrder, store);
    GenerateLecturesQuota(courses, subgroups, lectureDays, startDate, endDate, lectureOrder, store);
    GenerateLecturesPlacement(courses, subgroups, lectureDays, startDate, endDate, lectureOrder, store);
    GeneratePracticesQuota(courses, subgroups, PracticeDays(lectureDays), startDate, endDate, practiceOrder, s1, map[]);
    GeneratePracticesPlacement(courses, subgroups, PracticeDays(lectureDays), startDate, endDate, practiceOrder, s1, map[]);
    SessionCountUntouched(store, s1, c.id, sgId, Practice);
    SessionCountUntouched(s1, s, c.id, sgId, Lecture);
  }

  /** No subgroup is pushed past four lessons on a date: every daily load
      the run changed is at most four. */
  lemma RunCeiling(catalog: Catalog, plan: Option<StudyPlan>, semester: nat, startDate: int, endDate: int,
                   lectureDays: seq<int>, lectureOrder: (int, nat) -> seq<nat>, practiceOrder: (int, nat) -> seq<nat>,
                   store: seq<Lesson>)
    requires RunReady(catalog, plan, semester, startDate, endDate, lectureDays, lectureOrder, practiceOrder)
    ensures var s := Generate(catalog, plan, semester, startDate, endDate, lectureDays, lectureOrder, practiceOrder, store).store;
      forall sgId: nat, d: int :: DailyLoad(s, sgId, d) <= MaxLessonsForSubgroup || DailyLoad(s, sgId, d) == DailyLoad(store, sgId, d)
  {
    var courses := PlanCourses(catalog.courses, plan.value.id, semester);
    var subgroups := ScopeSubgroups(catalog, plan.value.id);
    var s1 := GenerateLectures(courses, subgroups, lectureDays, startDate, endDate, lectureOrder, store).store;
    var s := Passes(courses, subgroups, lectureDays, startDate, endDate, lectureOrder, practiceOrder, store);
    GenerateLecturesCeiling(courses, subgroups, lectureDays, startDate, endDate, lectureOrder, store);
    GeneratePracticesCeiling(courses, subgroups, PracticeDays(lectureDays), startDate, endDate, practiceOrder, s1, map[]);
    CeilingTrans(store, s1, s);
  }

  /** Starting from a store where no subgroup has more than four lessons on
      any date, a run keeps it that way. */
  lemma RunDailyLimit(catalog: Catalog, plan: Option<StudyPlan>, semester: nat, startDate: int, endDate: int,
                      lectureDays: seq<int>, lectureOrder: (int, nat) -> seq<nat>, practiceOrder: (int, nat) -> seq<nat>,
                      store: seq<Lesson>)
    requires RunReady(catalog, plan, semester, startDate, endDate, lectureDays, lectureOrder, practiceOrder)
    requires forall sgId: nat, d: int :: DailyLoad(store, sgId, d) <= MaxLessonsForSubgroup
    ensures var s := Generate(catalog, plan, semester, startDate, endDate, lectureDays, lectureOrder, practiceOrder, store).store;
      forall sgId: nat, d: int :: DailyLoad(s, sgId, d) <= MaxLessonsForSubgroup
  {
    var s := Generate(catalog, plan, semester, startDate, endDate, lectureDays, lectureOrder, practiceOrder, store).store;
    RunCeiling(catalog, plan, semester, startDate, endDate, lectureDays, lectureOrder, practiceOrder, store);
    CeilingHolds(store, s);
  }

  /** Among the lessons a run writes no subgroup is booked twice in a slot. */
  lemma RunNoSubgroupClash(catalog: Catalog, plan: Option<StudyPlan>, semester: nat, startDate: int, endDate: int,
                           lectureDays: seq<int>, lectureOrder: (int, nat) -> seq<nat>, practiceOrder: (int, nat) -> seq<nat>,
                           store: seq<Lesson>)
    requires RunReady(catalog, plan, semester, startDate, endDate, lectureDays, lectureOrder, practiceOrder)
    ensures var s := Generate(catalog, plan, semester, startDate, endDate, lectureDays, lectureOrder, practiceOrder, store).store;
      forall i, j :: |store| <= i < j < |s| ==> !SameSubgroupSlot(s[i], s[j])
  {
    var courses := PlanCourses(catalog.courses, plan.value.id, semester);
    var subgroups := ScopeSubgroups(catalog, plan.value.id);
    var s1 := GenerateLectures(courses, subgroups, lectureDays, startDate, endDate, lectureOrder, store).store;
    var s := Passes(courses, subgroups, lectureDays, startDate, endDate, lectureOrder, practiceOrder, store);
    GenerateLecturesNoClash(courses, subgroups, lectureDays, startDate, endDate, lectureOrder, store);
    GeneratePracticesPlacement(courses, subgroups, PracticeDays(lectureDays), startDate, endDate, practiceOrder, s1, map[]);
    GeneratePracticesNoClash(courses, subgroups, PracticeDays(lectureDays), startDate, endDate, practiceOrder, s1, map[]);
    forall i, j | |store| <= i < j < |s| ensures !SameSubgroupSlot(s[i], s[j]) {
      if j < |s1| {
        assert s[..|s1|] == s1;
        assert s[i] == s1[i] && s[j] == s1[j];
      }
    }
  }

  /** A lesson a run writes shares its teacher's slot with an earlier lesson
      only when both are new lectures of the same course, given to several
      subgroups at once. */
  lemma RunTeacherClash(catalog: Catalog, plan: Option<StudyPlan>, semester: nat, startDate: int, endDate: int,
                        lectureDays: seq<int>, lectureOrder: (int, nat) -> seq<nat>, practiceOrder: (int, nat) -> seq<nat>,
                        store: seq<Lesson>)
    requires RunReady(catalog, plan, semester, startDate, endDate, lectureDays, lectureOrder, practiceOrder)
    ensures var s := Generate(catalog, plan, semester, startDate, endDate, lectureDays, lectureOrder, practiceOrder, store).store;
      forall i, j :: 0 <= i < j < |s| && |store| <= j && SameTeacherSlot(s[i], s[j]) ==>
        |store| <= i && s[i].kind == Lecture && s[j].kind == Lecture && s[i].course == s[j].course
  {
    var courses := PlanCourses(catalog.courses, plan.value.id, semester);
    var subgroups := ScopeSubgroups(catalog, plan.value.id);
    var s1 := GenerateLectures(courses, subgroups, lectureDays, startDate, endDate, lectureOrder, store).store;
    var s := Passes(courses, subgroups, lectureDays, startDate, endDate, lectureOrder, practiceOrder, store);
    GenerateLecturesPlacement(courses, subgroups, lectureDays, startDate, endDate, lectureOrder, store);
    GenerateLecturesNoClash(courses, subgroups, lectureDays, startDate, endDate, lectureOrder, store);
    GeneratePracticesPlacement(courses, subgroups, PracticeDays(lectureDays), startDate, endDate, practiceOrder, s1, map[]);
    GeneratePracticesNoClash(courses, subgroups, PracticeDays(lectureDays), startDate, endDate, practiceOrder, s1, map[]);
    forall i, j | 0 <= i < j < |s| && |store| <= j && SameTeacherSlot(s[i], s[j])
      ensures |store| <= i && s[i].kind == Lecture && s[j].kind == Lecture && s[i].course == s[j].course
    {
      if j < |s1| {
        assert s[..|s1|] == s1;
        assert s[i] == s1[i] && s[j] == s1[j];
      }
    }
  }

  /** The schedule a run returns lists, for every subgroup of the plan and
      every date of the range, exactly the lessons of the final store for
      that subgroup and date, by start time; nothing else. */
  lemma RunSchedule(catalog: Catalog, plan: Option<StudyPlan>, semester: nat, startDate: int, endDate: int,
                    lectureDays: seq<int>, lectureOrder: (int, nat) -> seq<nat>, practiceOrder: (int, nat) -> seq<nat>,
                    store: seq<Lesson>, sgId: nat, date: int)
    requires RunReady(catalog, plan, semester, startDate, endDate, lectureDays, lectureOrder, practiceOrder)
    ensures var run := Generate(catalog, plan, semester, startDate, endDate, lectureDays, lectureOrder, practiceOrder, store);
      && run.outcome.Success?
      && Bucket(run.outcome.value, sgId, date)
         == if sgId in SubgroupIds(ScopeSubgroups(catalog, plan.value.id)) && startDate <= date <= endDate
            then Sort(Filter(run.store, InBucket(sgId, date)))
            else []
  {
    var run := Generate(catalog, plan, semester, startDate, endDate, lectureDays, lectureOrder, practiceOrder, store);
    FinalScheduleBucket(run.store, ScopeSubgroups(catalog, plan.value.id), startDate, endDate, sgId, date);
  }
}

