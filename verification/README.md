# Timetable generator and weekly schedule page

This project models two parts of a university timetabling application.

**The schedule generator** (`ScheduleGenerator` in `create_schedule.py`) builds a semester timetable for one study plan.
- It checks its inputs.
- It splits the five workdays into two lecture days and three practice days.
- It walks the dates of the semester and fills the seven fixed daily slots:
  - First comes a lecture pass. In each slot it places at most one course, for every subgroup still below four lessons that day.
  - Then comes a practice pass. It places one practice per (course, subgroup) pair in a slot where the subgroup and the teacher are both free and the subgroup is below four lessons that day.
- Each course has a quota of whole two-hour sessions. Lecture quotas count per course; practice quotas count per (course, subgroup) pair.
- Finally it returns the stored lessons of the plan's subgroups in the date range, including lessons stored before the run. They are grouped by subgroup, then by date, and each list is ordered by start time.

**The weekly schedule page** (the pure part of `schedule_view` in `database/views.py`) shows all lessons one week per page.
- The lessons are split into Monday-aligned weeks.
- The requested page is resolved the way Django's paginator does.
- The page lists:
  - the seven days of the shown week;
  - the distinct start times of that week;
  - the groups and their subgroup columns, ordered by group name and subgroup number;
  - one row per (day, start time), with one cell per column;
  - each course's colour, which is its teacher's colour from a ten-colour cycle.

Modelling choices:
- The lesson store is a `seq<Lesson>` that the generator only appends to. Each database query (`filter(...).count()`, `.exists()`) is a function over that sequence.
- A date is an integer day number whose weekday is `d % 7`, with 0 a Monday. It is Python's proleptic ordinal minus one, so 2022-01-03 is day 738157.
- A time of day is a count of minutes after midnight.
- The random choices become inputs:
  - the two-day sample of `random.sample` is a parameter `lectureDays`, constrained to be a two-element sample of the workdays;
  - the `random.shuffle` done in each slot is a function `order(date, slotIndex)`, constrained to return a permutation of the course list.
- Modules follow the source:

| module | file | models |
|---|---|---|
| `Entities` | entities.dfy | the records and the constants |
| `LessonStore` | lesson_store.dfy | the queries on the store and the daily-load ceiling |
| `DayPartition` | day_partition.dfy | lecture and practice days |
| `LecturePass` / `LectureProperties` | lecture_pass.dfy, lecture_properties.dfy | the lecture pass |
| `PracticePass` / `PracticeProperties` / `PracticeCompleteness` | practice_pass.dfy, practice_properties.dfy, practice_completeness.dfy | the practice pass |
| `Timetable` | timetable.dfy | the final schedule |
| `Generator` | generator.dfy | a whole run |
| `WeekGrid` | week_grid.dfy | the weekly page |

## Model

| member | source | states |
|---|---|---|
| Entities.PermutationCovers | create_schedule.py:171-173 | A shuffle of the course list puts every course at some position, so each slot's scan tries every course. |
| LessonStore.DailyLoad | create_schedule.py:124-126 | A subgroup's lesson count on a date is zero exactly when it has no lesson that date, and never exceeds the store size. |
| LessonStore.IsTeacherAvailable | create_schedule.py:214-236 | A teacher is available exactly when no lesson of theirs has that date and start time. The slot's end time plays no part. |
| LessonStore.TeacherBusy | create_schedule.py:216-220 | The teacher query holds exactly when some lesson of that teacher has the given date and start time. |
| LessonStore.HasLessonAt | create_schedule.py:238-244 | The subgroup query holds exactly when some lesson of that subgroup has the given date and start time. |
| LessonStore.AppendKeepsCeiling | create_schedule.py:124-129 | Appending lessons, each for a distinct (subgroup, date) that is still below four lessons, keeps every daily load at most four or unchanged. |
| LessonStore.CeilingHolds | create_schedule.py:35 | If no subgroup had more than four lessons on any date before, none has after. |
| DayPartition.Without | create_schedule.py:40 | The kept days are exactly the listed days that are not excluded. |
| DayPartition.PracticeDays | create_schedule.py:40 | A day is a practice day exactly when it is a workday and not a lecture day. |
| DayPartition.TwoLectureDaysCounted | create_schedule.py:39 | A two-day sample of the workdays removes exactly two workdays. |
| DayPartition.PartitionOfWorkDays | create_schedule.py:31-40 | Lecture days and practice days are disjoint and together cover Monday to Friday. There are exactly three practice days, in weekday order. |
| LecturePass.LectureCourses | create_schedule.py:93 | The lecture courses are exactly the courses with lecture hours, and their ids stay distinct. |
| LecturePass.OpenSubgroups | create_schedule.py:122-129 | A subgroup is a lecture target exactly when it is in scope and has fewer than four lessons that date. |
| LectureProperties.PlaceLectureKeepsInv | create_schedule.py:134-146 | Placing a course that is below quota and whose teacher is free keeps every invariant of the lecture pass:<br>the lessons it adds are placed lectures;<br>quotas hold;<br>the ceiling holds;<br>there is no teacher clash with the starting store;<br>there is one course per slot;<br>there is no subgroup clash among new lessons. |
| LectureProperties.FillLectureSlotPicksFirst | create_schedule.py:107-146 | When subgroups are open, a slot goes to the first course in the shuffled order that is below quota and whose teacher is free. |
| LectureProperties.FillLectureSlotEmpty | create_schedule.py:108-132 | A slot stays empty when no course can take it or no subgroup is open. |
| LectureProperties.FillLectureSlotKeepsInv | create_schedule.py:108-146 | Filling one slot keeps the lecture invariant. |
| LectureProperties.FillLectureDayKeepsInv | create_schedule.py:106-146 | Filling the slots of a lecture day keeps the invariant. |
| LectureProperties.LectureDatesKeepInv | create_schedule.py:101-148 | Walking the dates keeps the invariant. Dates that are not lecture days add nothing. |
| LectureProperties.GenerateLecturesInv | create_schedule.py:91-148 | The whole lecture pass ends in the invariant, relative to the store it started from. |
| LectureProperties.GenerateLecturesPlacement | create_schedule.py:101-142 | The pass only appends. Every lesson it writes is:<br>a Lecture;<br>on a lecture day inside the date range;<br>at a slot start;<br>of a course with lecture hours;<br>for an in-scope subgroup. |
| LectureProperties.GenerateLecturesQuota | create_schedule.py:95-145 | No course is placed more than `lectureHours / 2` times. No subgroup gains more than that many lectures of the course. |
| LectureProperties.GenerateLecturesCeiling | create_schedule.py:122-144 | After the pass, every subgroup's daily load is at most four or is what it was before. |
| LectureProperties.GenerateLecturesNoClash | create_schedule.py:106-146 | Among the lectures the pass writes:<br>none shares its teacher's slot with a lesson already in the store;<br>lectures in one slot are all of one course;<br>no subgroup gets two lectures in one slot. |
| PracticePass.PracticeCourses | create_schedule.py:152 | The practice courses are exactly the courses with practice hours, and their ids stay distinct. |
| PracticePass.PlanSubgroups | create_schedule.py:174 | The practice targets of a course are exactly the in-scope subgroups of its study plan. |
| PracticeProperties.TryPracticeShape | create_schedule.py:201-207 | After one attempt the store still extends the starting store, and every lesson added is a Practice on a practice day at a slot start, for a subgroup of its course's plan. |
| PracticeProperties.TryPracticeCounts | create_schedule.py:177-210 | After an attempt:<br>the pair counters count exactly the practices added;<br>no pair exceeds `practiceHours / 2`;<br>the workload counters count exactly the lessons added per teacher. |
| PracticeProperties.TryPracticeSafety | create_schedule.py:181-199 | After an attempt, the daily-load ceiling still holds. No added practice meets an earlier lesson of its subgroup or of its teacher in its slot. |
| PracticeProperties.TryPracticeKeepsInv | create_schedule.py:173-210 | One (course, subgroup) attempt keeps the practice invariant. |
| PracticeProperties.PracticeForSubgroupsKeepsInv | create_schedule.py:174-210 | Trying every subgroup of one course in a slot keeps the invariant. |
| PracticeProperties.PracticeForCoursesKeepsInv | create_schedule.py:173-210 | Trying every shuffled course in a slot keeps the invariant. |
| PracticeProperties.FillPracticeDayKeepsInv | create_schedule.py:170-210 | Filling the slots of a practice day keeps the invariant. |
| PracticeProperties.PracticeDatesKeepInv | create_schedule.py:165-212 | Walking the dates keeps the invariant. Dates that are not practice days add nothing. |
| PracticeProperties.GeneratePracticesInv | create_schedule.py:150-212 | The whole practice pass ends in the invariant. |
| PracticeProperties.GeneratePracticesPlacement | create_schedule.py:165-207 | The pass only appends. Every lesson it writes is:<br>a Practice;<br>on a practice day inside the range;<br>at a slot start;<br>of a course with practice hours;<br>for a subgroup of that course's study plan. |
| PracticeProperties.GeneratePracticesQuota | create_schedule.py:155-209 | No (course, subgroup) pair gains more than `practiceHours / 2` practices. |
| PracticeProperties.GeneratePracticesWorkload | create_schedule.py:209-210 | Each teacher's workload counter grows by exactly the number of lessons the pass gives that teacher. |
| PracticeProperties.GeneratePracticesCeiling | create_schedule.py:194-199 | After the pass, every subgroup's daily load is at most four or is what it was before. |
| PracticeProperties.GeneratePracticesNoClash | create_schedule.py:181-185 | No practice the pass writes shares a slot with any earlier lesson of its subgroup or of its teacher. |
| PracticeCompleteness.TryPracticeDecides | create_schedule.py:177-209 | An attempt changes the state exactly when none of the four checks turns it down. It then appends exactly the Practice lesson of that course and subgroup in that slot. |
| PracticeCompleteness.GeneratePracticesComplete | create_schedule.py:165-212 | Nothing fillable is left behind. Take any practice day in the range, any slot, any course with practice hours, and any subgroup of its plan that is still owed sessions at the end of the pass. Then in the final store that subgroup is busy in the slot, or the teacher is busy in the slot, or the subgroup has four lessons that day. |
| PracticeProperties.GeneratePracticesIgnoresWorkload | create_schedule.py:232-236 | The lessons the pass writes do not depend on the starting workload counters, so the workload is never a constraint. |
| Generator.Validate | create_schedule.py:66-72 | Validation passes exactly when there is a study plan and the start date is not after the end date. A missing plan is reported first. |
| Generator.PlanCourses | create_schedule.py:51-54 | The run's courses are exactly the catalog courses of the plan and semester, with distinct ids kept. |
| Generator.PlanGroupIds | create_schedule.py:50 | The group ids are exactly those of the plan's groups. |
| Generator.PlanSubgroupsOf | create_schedule.py:55 | The run's subgroups are exactly those whose group is one of the plan's. |
| Generator.Generate | create_schedule.py:66-89 | A run fails exactly when the plan is missing or the start date is after the end date. The error names the missing plan exactly when it is missing. A failed run leaves the store unchanged. |
| Generator.RunPlacement | create_schedule.py:80-83 | A successful run only appends, and each lesson it writes is a lecture or a practice placed as its pass allows. |
| Generator.RunQuota | create_schedule.py:95-179 | Over a whole run, no subgroup gains more than `lectureHours / 2` lectures or `practiceHours / 2` practices of a plan course. |
| Generator.RunCeiling | create_schedule.py:122-199 | Over a whole run, every subgroup's daily load is at most four or unchanged. |
| Generator.RunDailyLimit | create_schedule.py:124-199 | A run that starts with no subgroup above four lessons on any date ends that way too. |
| Generator.RunNoSubgroupClash | create_schedule.py:122-182 | No subgroup gets two of the run's lessons in one slot. |
| Generator.RunTeacherClash | create_schedule.py:106-185 | A lesson the run writes shares its teacher's slot with an earlier lesson only when both belong to the same lecture placement, meaning both are lectures of one course written by the run. |
| Generator.RunSchedule | create_schedule.py:78-85 | A run with a plan and a valid range succeeds. Each bucket of its schedule is the store's lessons of that in-scope subgroup and in-range date, in (date, start time) order, and is empty otherwise. |
| Timetable.SortKeyOrder | create_schedule.py:251 | The sort key orders by date, then by start time. |
| Timetable.Sort | create_schedule.py:251 | Ordering the lessons is a permutation. |
| Timetable.SortSorted | create_schedule.py:251 | The ordered lessons are sorted by (date, start time). |
| Timetable.AddLesson | create_schedule.py:253-255 | Adding a lesson appends it to exactly the bucket of its subgroup and date and creates that bucket's keys. Every other bucket is unchanged. |
| Timetable.GroupBucket | create_schedule.py:253-255 | Each bucket holds exactly the lessons of its subgroup and date, in their original order. |
| Timetable.GroupKeys | create_schedule.py:253-255 | A bucket exists exactly when it is non-empty. A subgroup has an entry exactly when some lesson is for it. |
| Timetable.FinalScheduleBucket | create_schedule.py:246-258 | A bucket is the stored lessons of that subgroup and date, in (date, start time) order, when the subgroup is in scope and the date in range; otherwise it is empty. |
| Timetable.FinalScheduleBucketOrdered | create_schedule.py:248-255 | Every lesson in a bucket has the bucket's subgroup and date, and start times never decrease along the bucket. |
| Timetable.FinalScheduleBucketComplete | create_schedule.py:248-255 | A stored lesson is in its own bucket exactly when its subgroup is in scope and its date is in range. It then appears there as many times as in the store. |
| WeekGrid.MondayOf | database/views.py:94-95 | The week start of a date is a Monday at most six days before it. |
| WeekGrid.MondayOfMonotone | database/views.py:94-96 | A later date never has an earlier week start. |
| WeekGrid.WeekStartsShape | database/views.py:91-97 | The week starts:<br>number `(lastMonday - firstMonday) / 7 + 1`;<br>begin at the first lesson's Monday and end at the last lesson's Monday;<br>are all Mondays;<br>are seven days apart. |
| WeekGrid.WeekStartsCover | database/views.py:91-97 | Every lesson falls inside some listed week. |
| WeekGrid.PageNumber | database/views.py:101-103 | The shown page is the requested one when it is in range. It is page 1 when no valid number was given or there are no weeks, and the last page when the number is out of range. |
| WeekGrid.WeekOfPage | database/views.py:101-106 | There is a shown week exactly when there are weeks, and it is the week of the shown page. |
| WeekGrid.Days | database/views.py:114 | With a week there are seven consecutive dates from its Monday; without one there are none. |
| WeekGrid.Timeslots | database/views.py:117 | The time rows are strictly increasing and are exactly the start times of the week's lessons. |
| WeekGrid.FirstOfEachKey | database/views.py:155-169 | Keeping the first of each id yields distinct ids, only listed elements, and one element for every id that occurs. |
| WeekGrid.FirstOfEachKeyIsFirst | database/views.py:155-169 | Each kept element is the first occurrence of its id. |
| WeekGrid.SortBy | database/views.py:130 | Sorting the header is a permutation. |
| WeekGrid.SortBySorted | database/views.py:130 | Sorting by a total preorder yields a sorted list. |
| WeekGrid.ColumnOrderIsTotalPreorder | database/views.py:124 | Ordering subgroups by (group name, number) is total and transitive. |
| WeekGrid.GroupOrderIsTotalPreorder | database/views.py:130 | Ordering header entries by group name is total and transitive. |
| WeekGrid.GroupMapDistinct | database/views.py:127-129 | Grouping subgroups gives each group one entry. |
| WeekGrid.GroupMapEntries | database/views.py:127-129 | Each entry lists exactly its group's subgroups, in their original order, and none is empty. |
| WeekGrid.GroupMapCovers | database/views.py:127-129 | Every subgroup's group has an entry. |
| WeekGrid.Columns | database/views.py:142-143 | The columns are exactly the subgroups listed under the header's groups. |
| WeekGrid.HeaderGroups | database/views.py:120-130 | The header:<br>is sorted by group name;<br>has one entry per group;<br>has entries that are non-empty, in column order, and hold exactly their group's subgroups. |
| WeekGrid.WeekColumnsCover | database/views.py:120-130 | The columns are exactly the week's distinct subgroups. Each column has a lesson that week, and each lesson has a column with its subgroup id. |
| WeekGrid.LessonMap | database/views.py:133-135 | A (day, time, subgroup) key is mapped exactly when some lesson has that key. |
| WeekGrid.LessonMapLastWins | database/views.py:133-135 | A mapped key holds the last lesson with that key. |
| WeekGrid.CellMeaning | database/views.py:133-144 | A cell is filled exactly when some lesson of the week has its (day, time, subgroup id), and then it holds the last such lesson. |
| WeekGrid.RowsLength | database/views.py:138-151 | There are days × timeslots rows. |
| WeekGrid.RowsAt | database/views.py:138-151 | The row at day-major position (d, k) has day d and time k. It is the first of its day exactly when k is 0, spans all timeslots, and has one cell per column. |
| WeekGrid.TeacherColors | database/views.py:163-177 | Exactly the listed teachers get a colour. |
| WeekGrid.TeacherColorsAt | database/views.py:172-177 | The i-th distinct teacher gets palette colour `i mod 10`. |
| WeekGrid.TeacherColorsCycle | database/views.py:172-177 | Two teachers share a colour exactly when their positions agree modulo 10, so the first ten teachers have distinct colours. |
| WeekGrid.PaletteDistinct | database/views.py:172-173 | The ten palette colours are pairwise distinct. |
| WeekGrid.CourseColors | database/views.py:180 | Exactly the listed courses get a colour. |
| WeekGrid.CourseColorsAt | database/views.py:180 | A course's colour is its teacher's colour. |
| WeekGrid.WeekCoursesTaught | database/views.py:155-177 | Every course of the week has a teacher with a colour. |
| WeekGrid.WeekCourseColor | database/views.py:155-180 | Every course of the week has a colour. It is palette colour `t mod 10`, where t is its teacher's position among the week's distinct teachers. |
| WeekGrid.ScheduleViewEmpty | database/views.py:91-114 | There is no shown week exactly when the store is empty. Then there are no days, no rows and no groups, and the page is page 1, as database/tests.py:197-203 expects. |
| WeekGrid.ScheduleViewWeek | database/views.py:101-114 | With lessons stored:<br>the shown page is in range;<br>its week start is a Monday;<br>the week ends six days later;<br>the days are that Monday and the six dates after it. |
| WeekGrid.ScheduleViewShown | database/views.py:105-108 | A lesson is shown exactly when it is stored and dated inside the shown week. |
| WeekGrid.ScheduleViewCovers | database/views.py:91-108 | Every stored lesson is shown on some page. |
| WeekGrid.ScheduleViewGroups | database/views.py:120-130 | The page's header is ordered by group name, with one entry per group. Each entry lists, in column order, exactly that group's subgroups with a lesson that week. |
| WeekGrid.ScheduleViewColumns | database/views.py:120-143 | The page's columns are exactly the subgroups with a lesson that week, and every shown lesson has a column. |
| WeekGrid.ScheduleViewRowLayout | database/views.py:138-151 | The page has days × timeslots rows, with fields as RowsAt states. |
| WeekGrid.ScheduleViewCell | database/views.py:133-151 | The page's cell (d, k, c) is filled exactly when a shown lesson has that day, time and column subgroup, and then it holds the last such lesson. |
| WeekGrid.ScheduleViewColor | database/views.py:155-180 | Every shown lesson's course has a colour on the page: its teacher's colour from the ten-colour cycle. |
| WeekGrid.OneLessonPage | database/tests.py:205-220 | A store with a single Monday 09:00 lesson gives:<br>one week;<br>one group;<br>seven rows;<br>a first row on the lesson's date whose only cell holds the lesson;<br>a colour for its course. |

## Left out

- Database access, transactions and `bulk_create`/`create` are not modelled. The store is an in-memory sequence. A refused run returns the store it was given, in place of a rollback.
- Logging has no behaviour to model.
- The `__main__` driver of `create_schedule.py` is not modelled.
- Template rendering and the HTTP request are not modelled. The requested page is an `Option<int>`: `None` stands for a missing, empty or non-integer `page` parameter.
- `random.sample` and `random.shuffle` are inputs, constrained to a two-day sample of the workdays and to permutations of the course lists.
- Real calendar dates are not modelled. A date is a day number with weekday `d % 7`.
- The database order of lessons that share a date and start time is not specified by the query. The model takes them in store order, a stable sort.
- Among subgroups with equal group name and number, the model likewise keeps their order of first appearance.
- The database may return the plan's subgroups in any order, because the queries at create_schedule.py:55 and :174 have no `order_by` and `Subgroup` declares no default ordering (database/models.py:55). Line 174 also issues a new query for each course and slot. The model uses the catalog order for every query. That order decides which subgroups get a practice: once one subgroup takes a practice of a course in a slot, the teacher is busy and the later subgroups are skipped. The properties above are proved for every catalog order. An order that changes from one query to the next is not modelled.
- Names are compared by code point, character by character, not with the database's collation.
- The nested `subgroup → date → list` dictionaries are a map of maps keyed by subgroup id. The page's `lesson_map` is one flat map keyed by (date, time, subgroup id).
- `MAX_LESSONS_FOR_TEACHER` is declared as `MaxLessonsForTeacher`. No check reads it, in the source or in the model.
- `teacher_workload` is modelled as a counter the practice pass returns. It never influences placement.
- Generator.RunNoSubgroupClash: covers only the lessons the run writes, because the lecture pass (create_schedule.py:122-129) does not check a subgroup's slot against lessons already in the store.
- LectureProperties.GenerateLecturesQuota, PracticeProperties.GeneratePracticesQuota and Generator.RunQuota require distinct course ids. The source looks quotas up by course id, and ids are primary keys. The model reads the quota from the course record itself.
- WeekGrid.WeekCourseColor and WeekGrid.ScheduleViewColor require that lessons with one course id carry the same course record, as rows joined on one primary key do. The source colours a course by the teacher of the first lesson record that carries the course's id.
- WeekGrid.OneLessonPage does not cover the response status or the template name that the test also checks.
