/** The records the scheduler reads and writes, and its fixed constants.
    Dates are day numbers whose weekday is `d % 7` (0 is a Monday), and
    times of day are minutes after midnight. */
module Entities {

  /** A time of day, in minutes after midnight. */
  type Minute = m: int | 0 <= m < 1440

  datatype StudyPlan = StudyPlan(id: nat, name: string, yearOfEffect: nat, semesters: nat)

  datatype Teacher = Teacher(id: nat, fullName: string, position: string, allowedHours: nat)

  datatype Course = Course(
    id: nat,
    studyPlan: nat,
    name: string,
    lectureHours: nat,
    practiceHours: nat,
    semester: nat,
    teacher: Teacher)

  datatype Group = Group(id: nat, name: string, year: nat, studyPlan: nat)

  datatype Subgroup = Subgroup(id: nat, group: Group, number: nat)

  /** The scheduler writes Lecture and Practice lessons; the store may hold
      lessons of other kinds (labs, seminars) written by other tools. */
  datatype LessonType = Lecture | Practice | OtherKind(name: string)

  datatype Lesson = Lesson(course: Course, subgroup: Subgroup, date: int, startTime: Minute, kind: LessonType)

  datatype Timeslot = Timeslot(start: Minute, end: Minute)

  /** The seven daily slots, 09:00-10:20 through 18:10-19:30. */
  const LectureTimeslots: seq<Timeslot> := [
    Timeslot(540, 620),
    Timeslot(630, 710),
    Timeslot(730, 810),
    Timeslot(820, 900),
    Timeslot(910, 990),
    Timeslot(1000, 1080),
    Timeslot(1090, 1170)
  ]

  /** Monday to Friday. */
  const WorkDays: seq<int> := [0, 1, 2, 3, 4]

  const MaxLessonsForSubgroup: nat := 4

  /** Declared by the generator but not used by any check. */
  const MaxLessonsForTeacher: nat := 7

  /** Day of the week, Monday = 0 ... Sunday = 6. */
  function Weekday(d: int): nat
  {
    d % 7
  }

  predicate IsSlotStart(t: int)
  {
    exists k :: 0 <= k < |LectureTimeslots| && LectureTimeslots[k].start == t
  }

  /** Course identity is the primary key. */
  predicate DistinctCourseIds(courses: seq<Course>)
  {
    forall i, j :: 0 <= i < |courses| && 0 <= j < |courses| && courses[i].id == courses[j].id ==> i == j
  }

  /** Subgroup identity is the primary key. */
  predicate DistinctSubgroupIds(subgroups: seq<Subgroup>)
  {
    forall i, j :: 0 <= i < |subgroups| && 0 <= j < |subgroups| && subgroups[i].id == subgroups[j].id ==> i == j
  }

  /** `p` lists every index below `n` exactly once: the result of shuffling a list of length `n`. */
  predicate IsPermutation(p: seq<nat>, n: nat)
  {
    && |p| == n
    && (forall i :: 0 <= i < |p| ==> p[i] < n)
    && (forall i, j :: 0 <= i < j < |p| ==> p[i] != p[j])
  }

  /** The values listed in `p`. */
  function Values(p: seq<nat>): set<nat>
  {
    set i | 0 <= i < |p| :: p[i]
  }

  /** The numbers below `n`. */
  function Below(n: nat): (r: set<nat>)
    ensures forall v: nat :: v in r <==> v < n
  {
    if n == 0 then {} else Below(n - 1) + {n - 1}
  }

  /** A list without repeats has as many values as elements. */
  lemma {:induction false} ValuesCard(p: seq<nat>)
    requires forall i, j :: 0 <= i < j < |p| ==> p[i] != p[j]
    ensures |Values(p)| == |p|
  {
    if |p| > 0 {
      var q := p[..|p| - 1];
      ValuesCard(q);
      assert Values(p) == Values(q) + {p[|p| - 1]} by {
        forall v | v in Values(p) ensures v in Values(q) + {p[|p| - 1]} {
          var i :| 0 <= i < |p| && p[i] == v;
          if i < |p| - 1 { assert q[i] == v; }
        }
        forall v | v in Values(q) ensures v in Values(p) {
          var i :| 0 <= i < |q| && q[i] == v;
          assert p[i] == v;
        }
      }
      assert p[|p| - 1] !in Values(q) by {
        forall i | 0 <= i < |q| ensures q[i] != p[|p| - 1] {
          assert q[i] == p[i];
        }
      }
    }
  }

  lemma {:induction false} BelowCard(n: nat)
    ensures |Below(n)| == n
  {
    if n > 0 {
      BelowCard(n - 1);
    }
  }

  /** A shuffle lists every index: each `x < n` sits at some position. */
  lemma PermutationCovers(p: seq<nat>, n: nat, x: nat)
    requires IsPermutation(p, n) && x < n
    ensures exists m :: 0 <= m < |p| && p[m] == x
  {
    ValuesCard(p);
    BelowCard(n);
    if x !in Values(p) {
      var rest := Below(n) - {x};
      assert Values(p) <= rest;
      assert |rest| == n - 1;
      SubsetCard(Values(p), rest);
      assert false;
    }
  }

  lemma {:induction false} SubsetCard(a: set<nat>, b: set<nat>)
    requires a <= b
    ensures |a| <= |b|
  {
    assert b == a + (b - a);
  }
}
