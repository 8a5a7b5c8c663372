/** The weekly timetable page: the lessons split into Monday-aligned weeks,
    and for the chosen week a grid of days by start times with one column
    per subgroup, plus a colour per course taken from its teacher. */
module WeekGrid {
  import opened Wrappers
  import opened Entities
  import opened Timetable

  /** The Monday on or before `d`. */
  function MondayOf(d: int): (m: int)
    ensures Weekday(m) == 0
    ensures d - 6 <= m <= d
  {
    d - Weekday(d)
  }

  lemma MondayOfMonotone(a: int, b: int)
    requires a <= b
    ensures MondayOf(a) <= MondayOf(b)
  {
  }

  /** The week starts of a date-ordered lesson list: every Monday from the
      first lesson's week to the last lesson's week. */
  function WeekStarts(lessons: seq<Lesson>): seq<int>
  {
    if lessons == [] then []
    else
      var firstMonday := MondayOf(lessons[0].date);
      var lastMonday := MondayOf(lessons[|lessons| - 1].date);
      var totalWeeks := (lastMonday - firstMonday) / 7 + 1;
      if totalWeeks <= 0 then [] else seq(totalWeeks, i => firstMonday + 7 * i)
  }

  /** On date-ordered lessons the week starts run from the first lesson's
      Monday to the last lesson's Monday in steps of seven days. */
  lemma WeekStartsShape(lessons: seq<Lesson>)
    requires Sorted(lessons) && lessons != []
    ensures var ws := WeekStarts(lessons);
      && |ws| >= 1
      && |ws| == (MondayOf(lessons[|lessons| - 1].date) - MondayOf(lessons[0].date)) / 7 + 1
      && ws[0] == MondayOf(lessons[0].date)
      && ws[|ws| - 1] == MondayOf(lessons[|lessons| - 1].date)
      && (forall i :: 0 <= i < |ws| ==> Weekday(ws[i]) == 0)
      && (forall i :: 0 < i < |ws| ==> ws[i] == ws[i - 1] + 7)
  {
    var first := lessons[0];
    var last := lessons[|lessons| - 1];
    SortKeyOrder(first, last);
    MondayOfMonotone(first.date, last.date);
    var diff := MondayOf(last.date) - MondayOf(first.date);
    assert diff % 7 == 0;
    var ws := WeekStarts(lessons);
    assert |ws| == diff / 7 + 1;
    assert ws[|ws| - 1] == MondayOf(first.date) + 7 * (diff / 7);
    forall i | 0 <= i < |ws| ensures Weekday(ws[i]) == 0 {
      assert ws[i] == MondayOf(first.date) + 7 * i;
    }
  }

  /** Every lesson of a date-ordered list falls in a listed week. */
  lemma WeekStartsCover(lessons: seq<Lesson>, l: Lesson)
    requires Sorted(lessons) && l in lessons
    ensures var ws := WeekStarts(lessons);
      exists i :: 0 <= i < |ws| && ws[i] <= l.date <= ws[i] + 6
  {
    var first := lessons[0];
    var last := lessons[|lessons| - 1];
    var ws := WeekStarts(lessons);
    var i := (MondayOf(l.date) - MondayOf(first.date)) / 7;
    assert MondayOf(first.date) <= MondayOf(l.date) <= MondayOf(last.date) by {
      SortKeyOrder(first, l);
      SortKeyOrder(l, last);
      MondayOfMonotone(first.date, l.date);
      MondayOfMonotone(l.date, last.date);
    }
    assert (MondayOf(l.date) - MondayOf(first.date)) % 7 == 0;
    assert 0 <= i < |ws| && ws[i] == MondayOf(first.date) + 7 * i by {
      WeekStartsShape(lessons);
    }
  }

  /** The page actually shown for the requested page when each page holds
      one week: a missing or non-numeric request shows page 1, a number
      outside 1..pages shows the last page, and an empty listing still has
      its one (empty) page. */
  function PageNumber(weekCount: nat, page: Option<int>): (n: nat)
    ensures 1 <= n
    ensures weekCount > 0 ==> n <= weekCount
    ensures weekCount == 0 ==> n == 1
    ensures page.None? ==> n == 1
    ensures page.Some? && 1 <= page.value <= weekCount ==> n == page.value
    ensures page.Some? && weekCount > 0 && !(1 <= page.value <= weekCount) ==> n == weekCount
  {
    var lastPage := if weekCount == 0 then 1 else weekCount;
    if page.None? then 1
    else if page.value < 1 || page.value > lastPage then lastPage
    else page.value
  }

  /** The week on the shown page, none when there are no weeks. */
  function WeekOfPage(weekStarts: seq<int>, page: Option<int>): (w: Option<int>)
    ensures w.Some? <==> weekStarts != []
    ensures w.Some? ==> w.value == weekStarts[PageNumber(|weekStarts|, page) - 1]
  {
    if weekStarts == [] then None else Some(weekStarts[PageNumber(|weekStarts|, page) - 1])
  }

  /** The seven dates of the week from `startWeek`, none without a week. */
  function Days(startWeek: Option<int>): (days: seq<int>)
    ensures startWeek.None? ==> days == []
    ensures startWeek.Some? ==> |days| == 7 && forall i :: 0 <= i < 7 ==> days[i] == startWeek.value + i
  {
    if startWeek.None? then [] else seq(7, i => startWeek.value + i)
  }

  function InWeek(startWeek: int): Lesson -> bool
  {
    (l: Lesson) => startWeek <= l.date <= startWeek + 6
  }

  /** The lessons of the shown week, in the listing's order. */
  function WeekLessons(lessons: seq<Lesson>, startWeek: Option<int>): seq<Lesson>
  {
    if startWeek.None? then [] else Filter(lessons, InWeek(startWeek.value))
  }

  predicate StrictlyIncreasing(s: seq<int>)
  {
    forall i, j :: 0 <= i < j < |s| ==> s[i] < s[j]
  }

  /** Adds `t` to a strictly increasing list unless it is already there. */
  function InsertTime(t: int, r: seq<int>): (q: seq<int>)
    requires StrictlyIncreasing(r)
    ensures StrictlyIncreasing(q)
    ensures forall x :: x in q <==> x == t || x in r
  {
    if r == [] then [t]
    else if t < r[0] then [t] + r
    else if t == r[0] then r
    else
      var rest := InsertTime(t, r[1..]);
      assert forall i :: 0 <= i < |rest| ==> r[0] < rest[i] by {
        forall i | 0 <= i < |rest| ensures r[0] < rest[i] {
          assert rest[i] in rest;
          if rest[i] != t {
            var k :| 0 <= k < |r[1..]| && r[1..][k] == rest[i];
            assert r[k + 1] == rest[i];
          }
        }
      }
      [r[0]] + rest
  }

  /** The distinct start times of `lessons`, ascending. */
  function Timeslots(lessons: seq<Lesson>): (ts: seq<int>)
    ensures StrictlyIncreasing(ts)
    ensures forall t :: t in ts <==> exists i :: 0 <= i < |lessons| && lessons[i].startTime == t
  {
    if lessons == [] then []
    else
      var rest := Timeslots(lessons[1..]);
      assert forall i :: 0 < i < |lessons| ==> lessons[i] == lessons[1..][i - 1];
      InsertTime(lessons[0].startTime, rest)
  }

  /** `xs` without the elements whose key appeared earlier: each key once,
      represented by its first element, in order of first appearance. */
  function FirstOfEachKey<T>(xs: seq<T>, key: T -> nat): (r: seq<T>)
    ensures forall i, j :: 0 <= i < j < |r| ==> key(r[i]) != key(r[j])
    ensures forall x :: x in r ==> x in xs
    ensures forall i :: 0 <= i < |xs| ==> exists k :: 0 <= k < |r| && key(r[k]) == key(xs[i])
  {
    if xs == [] then []
    else
      var init := xs[..|xs| - 1];
      var last := xs[|xs| - 1];
      var r0 := FirstOfEachKey(init, key);
      assert forall i :: 0 <= i < |init| ==> init[i] == xs[i];
      if exists k :: 0 <= k < |r0| && key(r0[k]) == key(last) then r0
      else
        assert forall i :: 0 <= i < |xs| ==> exists k :: 0 <= k < |r0 + [last]| && key((r0 + [last])[k]) == key(xs[i]) by {
          forall i | 0 <= i < |xs| ensures exists k :: 0 <= k < |r0 + [last]| && key((r0 + [last])[k]) == key(xs[i]) {
            if i < |init| {
              var k :| 0 <= k < |r0| && key(r0[k]) == key(init[i]);
              assert (r0 + [last])[k] == r0[k];
            } else {
              assert (r0 + [last])[|r0|] == last;
            }
          }
        }
        r0 + [last]
  }

  /** Each kept element is the first of its key. */
  lemma {:induction false} FirstOfEachKeyIsFirst<T>(xs: seq<T>, key: T -> nat, k: int)
    requires 0 <= k < |FirstOfEachKey(xs, key)|
    ensures exists f :: 0 <= f < |xs| && xs[f] == FirstOfEachKey(xs, key)[k] && IsFirstOfKey(xs, key, f)
  {
    var init := xs[..|xs| - 1];
    var r0 := FirstOfEachKey(init, key);
    if k < |r0| {
      FirstOfEachKeyIsFirst(init, key, k);
      var f :| 0 <= f < |init| && init[f] == r0[k] && IsFirstOfKey(init, key, f);
      FirstInPrefix(xs, init, key, f);
    } else {
      LastIsFirst(xs, key);
    }
  }

  /** No element before position `f` shares its key. */
  ghost predicate IsFirstOfKey<T>(xs: seq<T>, key: T -> nat, f: int)
    requires 0 <= f < |xs|
  {
    forall g :: 0 <= g < f ==> key(xs[g]) != key(xs[f])
  }

  lemma FirstInPrefix<T>(xs: seq<T>, init: seq<T>, key: T -> nat, f: int)
    requires xs != [] && init == xs[..|xs| - 1] && 0 <= f < |init|
    requires IsFirstOfKey(init, key, f)
    ensures IsFirstOfKey(xs, key, f) && xs[f] == init[f]
  {
    forall g | 0 <= g < f ensures key(xs[g]) != key(xs[f]) {
      assert xs[g] == init[g];
    }
  }

  /** When the last element is kept, no earlier element has its key. */
  lemma LastIsFirst<T>(xs: seq<T>, key: T -> nat)
    requires xs != []
    requires |FirstOfEachKey(xs, key)| > |FirstOfEachKey(xs[..|xs| - 1], key)|
    ensures FirstOfEachKey(xs, key)[|FirstOfEachKey(xs, key)| - 1] == xs[|xs| - 1]
    ensures IsFirstOfKey(xs, key, |xs| - 1)
  {
    var init := xs[..|xs| - 1];
    var r0 := FirstOfEachKey(init, key);
    forall g | 0 <= g < |xs| - 1 ensures key(xs[g]) != key(xs[|xs| - 1]) {
      assert xs[g] == init[g];
      var j :| 0 <= j < |r0| && key(r0[j]) == key(init[g]);
    }
  }

  /** Lexicographic order on names, character by character. */
  predicate NameLe(a: string, b: string)
  {
    if a == [] then true
    else if b == [] then false
    else if a[0] != b[0] then a[0] < b[0]
    else NameLe(a[1..], b[1..])
  }

  lemma {:induction false} NameLeTotal(a: string, b: string)
    ensures NameLe(a, b) || NameLe(b, a)
  {
    if a != [] && b != [] && a[0] == b[0] {
      NameLeTotal(a[1..], b[1..]);
    }
  }

  lemma {:induction false} NameLeAntisymmetric(a: string, b: string)
    requires NameLe(a, b) && NameLe(b, a)
    ensures a == b
  {
    if a != [] && b != [] {
      NameLeAntisymmetric(a[1..], b[1..]);
      assert a == [a[0]] + a[1..] && b == [b[0]] + b[1..];
    }
  }

  lemma {:induction false} NameLeTransitive(a: string, b: string, c: string)
    requires NameLe(a, b) && NameLe(b, c)
    ensures NameLe(a, c)
  {
    if a != [] && b != [] && c != [] && a[0] == b[0] && b[0] == c[0] {
      NameLeTransitive(a[1..], b[1..], c[1..]);
    }
  }

  /** Column order: by group name, then by subgroup number. */
  predicate ColumnLe(a: Subgroup, b: Subgroup)
  {
    (NameLe(a.group.name, b.group.name) && a.group.name != b.group.name)
    || (a.group.name == b.group.name && a.number <= b.number)
  }

  lemma ColumnLeTotal(a: Subgroup, b: Subgroup)
    ensures ColumnLe(a, b) || ColumnLe(b, a)
  {
    NameLeTotal(a.group.name, b.group.name);
  }

  lemma ColumnLeTransitive(a: Subgroup, b: Subgroup, c: Subgroup)
    requires ColumnLe(a, b) && ColumnLe(b, c)
    ensures ColumnLe(a, c)
  {
    var x, y, z := a.group.name, b.group.name, c.group.name;
    if x != y && y != z {
      NameLeTransitive(x, y, z);
      if x == z {
        NameLeAntisymmetric(x, y);
      }
    }
  }

  ghost predicate TotalPreorder<T(!new)>(le: (T, T) -> bool)
  {
    && (forall a, b :: le(a, b) || le(b, a))
    && (forall a, b, c :: le(a, b) && le(b, c) ==> le(a, c))
  }

  predicate SortedBy<T>(s: seq<T>, le: (T, T) -> bool)
  {
    forall i, j :: 0 <= i < j < |s| ==> le(s[i], s[j])
  }

  /** Places `x` in front of the first element it may precede. */
  function InsertBy<T(==)>(x: T, r: seq<T>, le: (T, T) -> bool): (q: seq<T>)
    ensures multiset(q) == multiset(r) + multiset{x}
  {
    if r == [] || le(x, r[0]) then [x] + r
    else
      assert r == [r[0]] + r[1..];
      [r[0]] + InsertBy(x, r[1..], le)
  }

  lemma {:induction false} InsertBySorted<T(!new)>(x: T, r: seq<T>, le: (T, T) -> bool)
    requires TotalPreorder(le) && SortedBy(r, le)
    ensures SortedBy(InsertBy(x, r, le), le)
    decreases |r|
  {
    var q := InsertBy(x, r, le);
    if r == [] || le(x, r[0]) {
      forall i, j | 0 <= i < j < |q| ensures le(q[i], q[j]) {
        if i > 0 {
          assert q[i] == r[i - 1];
        } else if j > 1 {
          assert le(r[0], r[j - 1]);
        }
      }
    } else {
      var rest := InsertBy(x, r[1..], le);
      InsertBySorted(x, r[1..], le);
      forall i | 0 <= i < |rest| ensures le(r[0], rest[i]) {
        assert rest[i] in multiset(rest);
        if rest[i] != x {
          assert rest[i] in r[1..];
          var k :| 0 <= k < |r[1..]| && r[1..][k] == rest[i];
          assert r[1..][k] == r[k + 1];
        }
      }
      forall i, j | 0 <= i < j < |q| ensures le(q[i], q[j]) {
        assert q[j] == rest[j - 1];
        if i > 0 {
          assert q[i] == rest[i - 1];
        }
      }
    }
  }

  /** Stable insertion sort; Python's `sorted` and an ordered query over
      rows in a fixed order both keep ties in their original order. */
  function SortBy<T(==)>(s: seq<T>, le: (T, T) -> bool): (r: seq<T>)
    ensures multiset(r) == multiset(s)
  {
    if s == [] then []
    else
      assert s == [s[0]] + s[1..];
      InsertBy(s[0], SortBy(s[1..], le), le)
  }

  lemma {:induction false} SortBySorted<T(!new)>(s: seq<T>, le: (T, T) -> bool)
    requires TotalPreorder(le)
    ensures SortedBy(SortBy(s, le), le)
  {
    if s != [] {
      SortBySorted(s[1..], le);
      InsertBySorted(s[0], SortBy(s[1..], le), le);
    }
  }

  function ByColumn(): (Subgroup, Subgroup) -> bool
  {
    (a: Subgroup, b: Subgroup) => ColumnLe(a, b)
  }

  lemma ColumnOrderIsTotalPreorder()
    ensures TotalPreorder(ByColumn())
  {
    forall a: Subgroup, b: Subgroup ensures ColumnLe(a, b) || ColumnLe(b, a) {
      ColumnLeTotal(a, b);
    }
    forall a: Subgroup, b: Subgroup, c: Subgroup | ColumnLe(a, b) && ColumnLe(b, c) ensures ColumnLe(a, c) {
      ColumnLeTransitive(a, b, c);
    }
  }

  /** One group's header entry and its subgroup columns. */
  datatype GroupColumns = GroupColumns(group: Group, subgroups: seq<Subgroup>)

  /** The first entry for group `gid`, or -1. */
  function GroupIndex(gs: seq<GroupColumns>, gid: nat): (k: int)
    ensures -1 <= k < |gs|
    ensures k >= 0 ==> gs[k].group.id == gid
    ensures k == -1 <==> forall i :: 0 <= i < |gs| ==> gs[i].group.id != gid
  {
    if gs == [] then -1
    else if gs[0].group.id == gid then 0
    else
      var k := GroupIndex(gs[1..], gid);
      assert forall i :: 1 <= i < |gs| ==> gs[i] == gs[1..][i - 1];
      if k < 0 then -1 else k + 1
  }

  /** Appends `sg` to its group's entry, opening the entry on first use. */
  function AddToGroup(gs: seq<GroupColumns>, sg: Subgroup): seq<GroupColumns>
  {
    var k := GroupIndex(gs, sg.group.id);
    if k < 0 then gs + [GroupColumns(sg.group, [sg])]
    else gs[k := gs[k].(subgroups := gs[k].subgroups + [sg])]
  }

  /** The subgroups grouped by group, groups in order of first appearance. */
  function GroupMap(sgs: seq<Subgroup>): seq<GroupColumns>
  {
    if sgs == [] then [] else AddToGroup(GroupMap(sgs[..|sgs| - 1]), sgs[|sgs| - 1])
  }

  /** The subgroups of group `gid`, in their order in `sgs`. */
  function OfGroup(sgs: seq<Subgroup>, gid: nat): (r: seq<Subgroup>)
    ensures forall sg :: sg in r <==> sg in sgs && sg.group.id == gid
  {
    if sgs == [] then []
    else
      var init := sgs[..|sgs| - 1];
      assert sgs == init + [sgs[|sgs| - 1]];
      OfGroup(init, gid) + (if sgs[|sgs| - 1].group.id == gid then [sgs[|sgs| - 1]] else [])
  }

  /** No two entries belong to the same group. */
  ghost predicate DistinctGroups(gs: seq<GroupColumns>)
  {
    forall i, j :: 0 <= i < j < |gs| ==> gs[i].group.id != gs[j].group.id
  }

  /** Each entry lists exactly its group's subgroups from `sgs`, and none is empty. */
  ghost predicate EntriesMatch(gs: seq<GroupColumns>, sgs: seq<Subgroup>)
  {
    forall i :: 0 <= i < |gs| ==> gs[i].subgroups == OfGroup(sgs, gs[i].group.id) && gs[i].subgroups != []
  }

  /** What adding one subgroup does to the entries: the entry of its
      group gains it at the end, and a new group opens a new last entry. */
  lemma AddToGroupEffect(g0: seq<GroupColumns>, sg: Subgroup)
    requires DistinctGroups(g0)
    ensures var gs := AddToGroup(g0, sg);
      && (GroupIndex(g0, sg.group.id) >= 0 ==> |gs| == |g0|)
      && (GroupIndex(g0, sg.group.id) < 0 ==> |gs| == |g0| + 1 && gs[|g0|] == GroupColumns(sg.group, [sg]))
      && (forall i :: 0 <= i < |g0| ==>
            gs[i].group == g0[i].group
            && gs[i].subgroups == g0[i].subgroups + (if g0[i].group.id == sg.group.id then [sg] else []))
  {
    var k := GroupIndex(g0, sg.group.id);
    if k >= 0 {
      GroupIndexFirst(g0, sg.group.id);
    }
  }

  lemma GroupIndexFirst(gs: seq<GroupColumns>, gid: nat)
    requires GroupIndex(gs, gid) >= 0
    ensures forall i :: 0 <= i < GroupIndex(gs, gid) ==> gs[i].group.id != gid
  {
    if gs[0].group.id != gid {
      GroupIndexFirst(gs[1..], gid);
      assert forall i :: 1 <= i < |gs| ==> gs[i] == gs[1..][i - 1];
    }
  }

  /** Each group has one entry. */
  lemma {:induction false} GroupMapDistinct(sgs: seq<Subgroup>)
    ensures DistinctGroups(GroupMap(sgs))
  {
    if sgs != [] {
      var g0 := GroupMap(sgs[..|sgs| - 1]);
      GroupMapDistinct(sgs[..|sgs| - 1]);
      AddToGroupEffect(g0, sgs[|sgs| - 1]);
      if GroupIndex(g0, sgs[|sgs| - 1].group.id) < 0 {
        var gs := GroupMap(sgs);
        assert forall i :: 0 <= i < |g0| ==> gs[i].group.id != gs[|g0|].group.id;
      }
    }
  }

  /** Each entry lists exactly its group's subgroups, in their original order. */
  lemma {:induction false} GroupMapEntries(sgs: seq<Subgroup>)
    ensures EntriesMatch(GroupMap(sgs), sgs)
  {
    if sgs != [] {
      var g0 := GroupMap(sgs[..|sgs| - 1]);
      var init := sgs[..|sgs| - 1];
      var sg := sgs[|sgs| - 1];
      GroupMapEntries(init);
      GroupMapDistinct(init);
      AddToGroupEffect(g0, sg);
      var gs := GroupMap(sgs);
      forall i | 0 <= i < |gs| ensures gs[i].subgroups == OfGroup(sgs, gs[i].group.id) {
        OfGroupStep(sgs, gs[i].group.id);
        if i < |g0| {
          assert gs[i].group == g0[i].group;
        } else {
          GroupMapCovers(init);
          NoneOfGroup(init, sg.group.id, g0);
          assert gs[i] == GroupColumns(sg.group, [sg]);
        }
      }
    }
  }

  /** Every subgroup's group has an entry. */
  lemma {:induction false} GroupMapCovers(sgs: seq<Subgroup>)
    ensures var gs := GroupMap(sgs);
      forall j :: 0 <= j < |sgs| ==> GroupIndex(gs, sgs[j].group.id) >= 0
  {
    if sgs != [] {
      var init := sgs[..|sgs| - 1];
      var sg := sgs[|sgs| - 1];
      var g0 := GroupMap(init);
      GroupMapCovers(init);
      GroupMapDistinct(init);
      AddToGroupEffect(g0, sg);
      var gs := GroupMap(sgs);
      forall j | 0 <= j < |sgs| ensures GroupIndex(gs, sgs[j].group.id) >= 0 {
        if j < |init| {
          assert sgs[j] == init[j];
          var m := GroupIndex(g0, sgs[j].group.id);
          assert gs[m].group.id == sgs[j].group.id;
        } else if GroupIndex(g0, sg.group.id) >= 0 {
          var m := GroupIndex(g0, sg.group.id);
          assert gs[m].group.id == sg.group.id;
        } else {
          assert gs[|g0|].group.id == sg.group.id;
        }
      }
    }
  }

  lemma NoneOfGroup(init: seq<Subgroup>, gid: nat, g0: seq<GroupColumns>)
    requires forall j :: 0 <= j < |init| ==> GroupIndex(g0, init[j].group.id) >= 0
    requires GroupIndex(g0, gid) < 0
    ensures OfGroup(init, gid) == []
  {
  }

  lemma OfGroupStep(sgs: seq<Subgroup>, gid: nat)
    requires sgs != []
    ensures OfGroup(sgs, gid) == OfGroup(sgs[..|sgs| - 1], gid)
                                 + (if sgs[|sgs| - 1].group.id == gid then [sgs[|sgs| - 1]] else [])
  {
  }

  /** The column header: groups ordered by name. */
  function ByGroupName(): (GroupColumns, GroupColumns) -> bool
  {
    (a: GroupColumns, b: GroupColumns) => NameLe(a.group.name, b.group.name)
  }

  lemma GroupOrderIsTotalPreorder()
    ensures TotalPreorder(ByGroupName())
  {
    forall a: GroupColumns, b: GroupColumns ensures NameLe(a.group.name, b.group.name) || NameLe(b.group.name, a.group.name) {
      NameLeTotal(a.group.name, b.group.name);
    }
    forall a: GroupColumns, b: GroupColumns, c: GroupColumns
      | NameLe(a.group.name, b.group.name) && NameLe(b.group.name, c.group.name)
      ensures NameLe(a.group.name, c.group.name)
    {
      NameLeTransitive(a.group.name, b.group.name, c.group.name);
    }
  }

  /** All subgroup columns, group by group. */
  function Columns(groups: seq<GroupColumns>): (cols: seq<Subgroup>)
    ensures forall sg :: sg in cols <==> exists i :: 0 <= i < |groups| && sg in groups[i].subgroups
  {
    if groups == [] then []
    else
      var rest := Columns(groups[1..]);
      assert forall i :: 1 <= i < |groups| ==> groups[i] == groups[1..][i - 1];
      groups[0].subgroups + rest
  }

  /** An entry list whose every entry's subgroups keep the column order. */
  lemma {:induction false} OfGroupSorted(sgs: seq<Subgroup>, gid: nat)
    requires SortedBy(sgs, ByColumn())
    ensures SortedBy(OfGroup(sgs, gid), ByColumn())
  {
    if sgs != [] {
      var init := sgs[..|sgs| - 1];
      var last := sgs[|sgs| - 1];
      assert SortedBy(init, ByColumn()) by {
        forall i, j | 0 <= i < j < |init| ensures ColumnLe(init[i], init[j]) {
          assert init[i] == sgs[i] && init[j] == sgs[j];
        }
      }
      OfGroupSorted(init, gid);
      var r0 := OfGroup(init, gid);
      if last.group.id == gid {
        var r := r0 + [last];
        forall i, j | 0 <= i < j < |r| ensures ColumnLe(r[i], r[j]) {
          if j == |r0| {
            assert r[i] in init;
            var k :| 0 <= k < |init| && init[k] == r[i];
            assert ColumnLe(sgs[k], sgs[|sgs| - 1]);
          } else {
            assert r[i] == r0[i] && r[j] == r0[j];
          }
        }
      }
    }
  }

  /** Where a lesson is shown: its date, start time and subgroup. */
  type CellKey = (int, int, nat)

  function KeyOf(l: Lesson): CellKey
  {
    (l.date, l.startTime, l.subgroup.id)
  }

  /** Lessons by cell; a later lesson for the same cell replaces an earlier one. */
  function LessonMap(ls: seq<Lesson>): (m: map<CellKey, Lesson>)
    ensures forall k :: k in m <==> exists i :: 0 <= i < |ls| && KeyOf(ls[i]) == k
  {
    if ls == [] then map[]
    else
      var init := ls[..|ls| - 1];
      assert forall i :: 0 <= i < |init| ==> init[i] == ls[i];
      LessonMap(init)[KeyOf(ls[|ls| - 1]) := ls[|ls| - 1]]
  }

  /** The lesson stored for a cell is the last lesson for that cell. */
  lemma {:induction false} LessonMapLastWins(ls: seq<Lesson>, k: CellKey)
    requires k in LessonMap(ls)
    ensures exists i :: 0 <= i < |ls| && ls[i] == LessonMap(ls)[k] && KeyOf(ls[i]) == k
                        && forall j :: i < j < |ls| ==> KeyOf(ls[j]) != k
  {
    var init := ls[..|ls| - 1];
    var last := ls[|ls| - 1];
    if KeyOf(last) != k {
      LessonMapLastWins(init, k);
      var i :| 0 <= i < |init| && init[i] == LessonMap(init)[k] && KeyOf(init[i]) == k
               && forall j :: i < j < |init| ==> KeyOf(init[j]) != k;
      assert ls[i] == init[i];
      forall j | i < j < |ls| ensures KeyOf(ls[j]) != k {
        if j < |init| {
          assert ls[j] == init[j];
        }
      }
    }
  }

  /** The lesson shown in a cell, if any. */
  function Lookup(lm: map<CellKey, Lesson>, day: int, time: int, sgId: nat): Option<Lesson>
  {
    if (day, time, sgId) in lm then Some(lm[(day, time, sgId)]) else None
  }

  /** One grid row: a day and a start time, with a cell per column; the
      first row of a day carries the day label spanning the day's rows. */
  datatype Row = Row(day: int, time: int, isFirst: bool, rowspan: nat, cells: seq<Option<Lesson>>)

  function Cells(lm: map<CellKey, Lesson>, day: int, time: int, columns: seq<Subgroup>): seq<Option<Lesson>>
  {
    seq(|columns|, c requires 0 <= c < |columns| => Lookup(lm, day, time, columns[c].id))
  }

  function DayRows(day: int, ts: seq<int>, columns: seq<Subgroup>, lm: map<CellKey, Lesson>): seq<Row>
  {
    seq(|ts|, k requires 0 <= k < |ts| => Row(day, ts[k], k == 0, |ts|, Cells(lm, day, ts[k], columns)))
  }

  /** The rows of the grid, day by day and within a day by start time. */
  function Rows(days: seq<int>, ts: seq<int>, columns: seq<Subgroup>, lm: map<CellKey, Lesson>): seq<Row>
  {
    if days == [] then [] else DayRows(days[0], ts, columns, lm) + Rows(days[1..], ts, columns, lm)
  }

  /** The position of day `d`, timeslot `k` in a grid of `n` timeslots a day. */
  function RowIndex(d: nat, k: nat, n: nat): nat
  {
    d * n + k
  }

  /** One row per day and timeslot. */
  lemma {:induction false} RowsLength(days: seq<int>, ts: seq<int>, columns: seq<Subgroup>, lm: map<CellKey, Lesson>)
    ensures |Rows(days, ts, columns, lm)| == |days| * |ts|
  {
    if days != [] {
      RowsLength(days[1..], ts, columns, lm);
      assert |days| * |ts| == |ts| + (|days| - 1) * |ts|;
    }
  }

  /** Row `d * |ts| + k` is day `d` at timeslot `k`; only the first row of
      a day is marked first, and it spans all of that day's rows. */
  lemma {:induction false} RowsAt(days: seq<int>, ts: seq<int>, columns: seq<Subgroup>, lm: map<CellKey, Lesson>, d: nat, k: nat)
    requires d < |days| && k < |ts|
    ensures RowIndex(d, k, |ts|) < |Rows(days, ts, columns, lm)|
    ensures Rows(days, ts, columns, lm)[RowIndex(d, k, |ts|)] == Row(days[d], ts[k], k == 0, |ts|, Cells(lm, days[d], ts[k], columns))
  {
    var head := DayRows(days[0], ts, columns, lm);
    var rest := Rows(days[1..], ts, columns, lm);
    if d == 0 {
      assert (head + rest)[k] == head[k];
    } else {
      RowsAt(days[1..], ts, columns, lm, d - 1, k);
      var r := (d - 1) * |ts| + k;
      assert d * |ts| + k == |ts| + r;
      assert (head + rest)[|ts| + r] == rest[r];
      assert days[d] == days[1..][d - 1];
    }
  }

  /** The colours handed out to teachers, in turn. */
  const Palette: seq<string> := ["#e57373", "#81c784", "#64b5f6", "#fff176", "#ba68c8",
                                 "#4db6ac", "#ffb74d", "#a1887f", "#90a4ae", "#aed581"]

  /** The i-th teacher gets the i-th colour, starting over after the last. */
  function TeacherColors(ts: seq<Teacher>): (m: map<nat, string>)
    ensures forall id :: id in m <==> exists i :: 0 <= i < |ts| && ts[i].id == id
  {
    if ts == [] then map[]
    else
      var init := ts[..|ts| - 1];
      assert forall i :: 0 <= i < |init| ==> init[i] == ts[i];
      TeacherColors(init)[ts[|ts| - 1].id := Palette[(|ts| - 1) % |Palette|]]
  }

  lemma {:induction false} TeacherColorsAt(ts: seq<Teacher>, i: int)
    requires forall a, b :: 0 <= a < b < |ts| ==> ts[a].id != ts[b].id
    requires 0 <= i < |ts|
    ensures TeacherColors(ts)[ts[i].id] == Palette[i % |Palette|]
  {
    var init := ts[..|ts| - 1];
    if i < |init| {
      assert init[i] == ts[i];
      TeacherColorsAt(init, i);
    }
  }

  /** Two teachers share a colour exactly when their positions are the
      same modulo the palette size; in particular the first ten differ. */
  lemma TeacherColorsCycle(ts: seq<Teacher>, i: int, j: int)
    requires forall a, b :: 0 <= a < b < |ts| ==> ts[a].id != ts[b].id
    requires 0 <= i < |ts| && 0 <= j < |ts|
    ensures TeacherColors(ts)[ts[i].id] == TeacherColors(ts)[ts[j].id] <==> i % 10 == j % 10
  {
    TeacherColorsAt(ts, i);
    TeacherColorsAt(ts, j);
    PaletteDistinct(i % 10, j % 10);
  }

  lemma PaletteDistinct(a: int, b: int)
    requires 0 <= a < |Palette| && 0 <= b < |Palette|
    ensures Palette[a] == Palette[b] <==> a == b
  {
    if a != b {
      assert Palette[a][1..3] != Palette[b][1..3] || Palette[a][3..] != Palette[b][3..];
    }
  }

  /** Each course gets its teacher's colour. */
  function CourseColors(cs: seq<Course>, tc: map<nat, string>): (m: map<nat, string>)
    requires forall i :: 0 <= i < |cs| ==> cs[i].teacher.id in tc
    ensures forall id :: id in m <==> exists i :: 0 <= i < |cs| && cs[i].id == id
  {
    if cs == [] then map[]
    else
      var init := cs[..|cs| - 1];
      assert forall i :: 0 <= i < |init| ==> init[i] == cs[i];
      CourseColors(init, tc)[cs[|cs| - 1].id := tc[cs[|cs| - 1].teacher.id]]
  }

  lemma {:induction false} CourseColorsAt(cs: seq<Course>, tc: map<nat, string>, i: int)
    requires forall a :: 0 <= a < |cs| ==> cs[a].teacher.id in tc
    requires forall a, b :: 0 <= a < b < |cs| ==> cs[a].id != cs[b].id
    requires 0 <= i < |cs|
    ensures CourseColors(cs, tc)[cs[i].id] == tc[cs[i].teacher.id]
  {
    var init := cs[..|cs| - 1];
    if i < |init| {
      assert init[i] == cs[i];
      CourseColorsAt(init, tc, i);
    }
  }

  function SubgroupsOf(ls: seq<Lesson>): seq<Subgroup>
  {
    seq(|ls|, i requires 0 <= i < |ls| => ls[i].subgroup)
  }

  function CoursesOf(ls: seq<Lesson>): seq<Course>
  {
    seq(|ls|, i requires 0 <= i < |ls| => ls[i].course)
  }

  function TeachersOf(ls: seq<Lesson>): seq<Teacher>
  {
    seq(|ls|, i requires 0 <= i < |ls| => ls[i].course.teacher)
  }

  function SubgroupId(): Subgroup -> nat { (sg: Subgroup) => sg.id }
  function CourseId(): Course -> nat { (c: Course) => c.id }
  function TeacherId(): Teacher -> nat { (t: Teacher) => t.id }

  /** The distinct subgroups with a lesson in `week`, in column order. */
  function WeekSubgroups(week: seq<Lesson>): seq<Subgroup>
  {
    SortBy(FirstOfEachKey(SubgroupsOf(week), SubgroupId()), ByColumn())
  }

  /** The column header of a week: its groups by name, each with its subgroups. */
  function WeekColumns(week: seq<Lesson>): seq<GroupColumns>
  {
    SortBy(GroupMap(WeekSubgroups(week)), ByGroupName())
  }

  /** The teachers of a week, each once, in order of first appearance. */
  function WeekTeachers(week: seq<Lesson>): seq<Teacher>
  {
    FirstOfEachKey(TeachersOf(week), TeacherId())
  }

  /** The courses of a week, each once, in order of first appearance. */
  function WeekCourses(week: seq<Lesson>): seq<Course>
  {
    FirstOfEachKey(CoursesOf(week), CourseId())
  }

  /** Every course of a week is taught by a teacher of that week. */
  lemma WeekCoursesTaught(week: seq<Lesson>)
    ensures forall i :: 0 <= i < |WeekCourses(week)| ==> WeekCourses(week)[i].teacher.id in TeacherColors(WeekTeachers(week))
  {
    var cs := WeekCourses(week);
    var ts := WeekTeachers(week);
    forall i | 0 <= i < |cs| ensures cs[i].teacher.id in TeacherColors(ts) {
      assert cs[i] in CoursesOf(week);
      var j :| 0 <= j < |week| && CoursesOf(week)[j] == cs[i];
      assert TeachersOf(week)[j] == cs[i].teacher;
      var k :| 0 <= k < |ts| && TeacherId()(ts[k]) == TeacherId()(TeachersOf(week)[j]);
    }
  }

  /** The colour of each course of the week. */
  function WeekColors(week: seq<Lesson>): map<nat, string>
  {
    WeekCoursesTaught(week);
    CourseColors(WeekCourses(week), TeacherColors(WeekTeachers(week)))
  }

  /** What the timetable page shows. */
  datatype View = View(weekStarts: seq<int>, pageNumber: nat, startWeek: Option<int>, endWeek: Option<int>,
                       days: seq<int>, timeslots: seq<int>, groups: seq<GroupColumns>, columns: seq<Subgroup>,
                       rows: seq<Row>, courseColors: map<nat, string>)

  /** The Sunday of the shown week. */
  function EndOfWeek(startWeek: Option<int>): Option<int>
  {
    if startWeek.None? then None else Some(startWeek.value + 6)
  }

  /** The lessons of the shown week, in date and start-time order. */
  function ShownLessons(store: seq<Lesson>, page: Option<int>): seq<Lesson>
  {
    var lessons := Sort(store);
    WeekLessons(lessons, WeekOfPage(WeekStarts(lessons), page))
  }

  /** The timetable page for the requested page number. */
  function ScheduleView(store: seq<Lesson>, page: Option<int>): View
  {
    var lessons := Sort(store);
    var ws := WeekStarts(lessons);
    var startWeek := WeekOfPage(ws, page);
    var week := ShownLessons(store, page);
    var days := Days(startWeek);
    var ts := Timeslots(week);
    var groups := WeekColumns(week);
    var columns := Columns(groups);
    View(ws, PageNumber(|ws|, page), startWeek, EndOfWeek(startWeek),
         days, ts, groups, columns, Rows(days, ts, columns, LessonMap(week)), WeekColors(week))
  }

  lemma ScheduleViewParts(store: seq<Lesson>, page: Option<int>)
    ensures var v := ScheduleView(store, page);
      var ws := WeekStarts(Sort(store));
      && v.weekStarts == ws
      && v.pageNumber == PageNumber(|ws|, page)
      && v.startWeek == WeekOfPage(ws, page)
      && v.endWeek == EndOfWeek(v.startWeek)
      && v.days == Days(v.startWeek)
      && v.timeslots == Timeslots(ShownLessons(store, page))
      && v.groups == WeekColumns(ShownLessons(store, page))
      && v.columns == Columns(v.groups)
      && v.rows == Rows(v.days, v.timeslots, v.columns, LessonMap(ShownLessons(store, page)))
      && v.courseColors == WeekColors(ShownLessons(store, page))
  {
  }

  /** Without lessons the page shows no week, no days, no rows and no groups. */
  lemma ScheduleViewEmpty(store: seq<Lesson>, page: Option<int>)
    ensures var v := ScheduleView(store, page);
      store == [] <==> v.startWeek.None?
    ensures var v := ScheduleView(store, page);
      store == [] ==> v.days == [] && v.rows == [] && v.groups == [] && v.pageNumber == 1
  {
    var lessons := Sort(store);
    if store == [] {
      assert lessons == [];
    } else {
      assert store[0] in multiset(lessons);
      SortSorted(store);
      WeekStartsShape(lessons);
    }
  }

  /** With lessons, the shown week is the week on the shown page; it starts
      on a Monday and runs for seven days. */
  lemma ScheduleViewWeek(store: seq<Lesson>, page: Option<int>)
    requires store != []
    ensures var v := ScheduleView(store, page);
      && 1 <= v.pageNumber <= |v.weekStarts|
      && v.startWeek == Some(v.weekStarts[v.pageNumber - 1])
      && Weekday(v.startWeek.value) == 0
      && v.endWeek == Some(v.startWeek.value + 6)
      && |v.days| == 7
      && forall i :: 0 <= i < 7 ==> v.days[i] == v.startWeek.value + i
  {
    var lessons := Sort(store);
    assert store[0] in multiset(lessons);
    SortSorted(store);
    WeekStartsShape(lessons);
    ScheduleViewParts(store, page);
    var ws := WeekStarts(lessons);
    var n := PageNumber(|ws|, page);
    assert Weekday(ws[n - 1]) == 0;
  }

  /** The shown lessons are exactly the stored lessons dated inside the shown week. */
  lemma ScheduleViewShown(store: seq<Lesson>, page: Option<int>, l: Lesson)
    requires store != []
    ensures var w := ScheduleView(store, page).startWeek;
      w.Some? && (l in ShownLessons(store, page) <==> l in store && w.value <= l.date <= w.value + 6)
  {
    var lessons := Sort(store);
    assert store[0] in multiset(lessons);
    SortSorted(store);
    WeekStartsShape(lessons);
    var w := WeekOfPage(WeekStarts(lessons), page);
    assert w == ScheduleView(store, page).startWeek;
    FilterMember(lessons, InWeek(w.value), l);
    assert l in lessons <==> l in multiset(store);
  }

  /** Every stored lesson is shown on some page. */
  lemma ScheduleViewCovers(store: seq<Lesson>, l: Lesson)
    requires l in store
    ensures exists n :: 1 <= n <= |WeekStarts(Sort(store))| && l in ShownLessons(store, Some(n))
  {
    var ws := WeekStarts(Sort(store));
    var i := WeekOfLesson(store, l);
    assert WeekOfPage(ws, Some(i + 1)) == Some(ws[i]);
    assert l in ShownLessons(store, Some(i + 1));
  }

  lemma WeekOfLesson(store: seq<Lesson>, l: Lesson) returns (i: int)
    requires l in store
    ensures var ws := WeekStarts(Sort(store));
      0 <= i < |ws| && l in Filter(Sort(store), InWeek(ws[i]))
  {
    var lessons := Sort(store);
    var ws := WeekStarts(lessons);
    assert l in lessons by {
      assert l in multiset(store);
    }
    SortSorted(store);
    WeekStartsCover(lessons, l);
    i :| 0 <= i < |ws| && ws[i] <= l.date <= ws[i] + 6;
    FilterMember(lessons, InWeek(ws[i]), l);
  }

  /** A reordering keeps keys distinct. */
  lemma DistinctKeysPermutation<T>(a: seq<T>, b: seq<T>, key: T -> nat)
    requires multiset(a) == multiset(b)
    requires forall i, j :: 0 <= i < j < |b| ==> key(b[i]) != key(b[j])
    ensures forall i, j :: 0 <= i < j < |a| ==> key(a[i]) != key(a[j])
  {
    forall i, j | 0 <= i < j < |a| ensures key(a[i]) != key(a[j]) {
      if a[i] == a[j] {
        assert a == a[..j] + [a[j]] + a[j + 1..];
        assert a[i] in a[..j];
        assert multiset(a)[a[i]] >= 2;
        DistinctKeysOnce(b, key, a[i]);
      } else {
        assert a[i] in multiset(b) && a[j] in multiset(b);
        var p :| 0 <= p < |b| && b[p] == a[i];
        var q :| 0 <= q < |b| && b[q] == a[j];
      }
    }
  }

  lemma {:induction false} DistinctKeysOnce<T>(b: seq<T>, key: T -> nat, x: T)
    requires forall i, j :: 0 <= i < j < |b| ==> key(b[i]) != key(b[j])
    ensures multiset(b)[x] <= 1
  {
    if b != [] {
      var init := b[..|b| - 1];
      assert b == init + [b[|b| - 1]];
      DistinctKeysOnce(init, key, x);
    }
  }

  /** Grouping column-ordered subgroups and ordering the groups by name
      gives each group once, by name, each with its subgroups in order. */
  lemma HeaderGroups(sgs: seq<Subgroup>)
    requires SortedBy(sgs, ByColumn())
    ensures var gs := SortBy(GroupMap(sgs), ByGroupName());
      && SortedBy(gs, ByGroupName())
      && DistinctGroups(gs)
      && forall i :: 0 <= i < |gs| ==>
           && gs[i].subgroups != []
           && SortedBy(gs[i].subgroups, ByColumn())
           && forall sg :: sg in gs[i].subgroups <==> sg in sgs && sg.group.id == gs[i].group.id
  {
    var gm := GroupMap(sgs);
    var gs := SortBy(gm, ByGroupName());
    GroupOrderIsTotalPreorder();
    SortBySorted(gm, ByGroupName());
    GroupMapDistinct(sgs);
    DistinctKeysPermutation(gs, gm, (e: GroupColumns) => e.group.id);
    GroupMapEntries(sgs);
    forall i | 0 <= i < |gs|
      ensures gs[i].subgroups != [] && SortedBy(gs[i].subgroups, ByColumn())
      ensures forall sg :: sg in gs[i].subgroups <==> sg in sgs && sg.group.id == gs[i].group.id
    {
      assert gs[i] in multiset(gm);
      var m :| 0 <= m < |gm| && gm[m] == gs[i];
      OfGroupSorted(sgs, gs[i].group.id);
    }
  }

  /** The columns under the header are exactly the grouped subgroups. */
  lemma HeaderColumns(sgs: seq<Subgroup>)
    ensures forall sg :: sg in Columns(SortBy(GroupMap(sgs), ByGroupName())) <==> sg in sgs
  {
    forall sg ensures sg in Columns(SortBy(GroupMap(sgs), ByGroupName())) <==> sg in sgs {
      if sg in Columns(SortBy(GroupMap(sgs), ByGroupName())) {
        ColumnFromHeader(sgs, sg);
      }
      if sg in sgs {
        ColumnInHeader(sgs, sg);
      }
    }
  }

  lemma ColumnFromHeader(sgs: seq<Subgroup>, sg: Subgroup)
    requires sg in Columns(SortBy(GroupMap(sgs), ByGroupName()))
    ensures sg in sgs
  {
    var gm := GroupMap(sgs);
    var gs := SortBy(gm, ByGroupName());
    GroupMapEntries(sgs);
    var i :| 0 <= i < |gs| && sg in gs[i].subgroups;
    assert gs[i] in multiset(gm);
    var m :| 0 <= m < |gm| && gm[m] == gs[i];
  }

  lemma ColumnInHeader(sgs: seq<Subgroup>, sg: Subgroup)
    requires sg in sgs
    ensures sg in Columns(SortBy(GroupMap(sgs), ByGroupName()))
  {
    var gm := GroupMap(sgs);
    var gs := SortBy(gm, ByGroupName());
    var m := GroupIndex(gm, sg.group.id);
    assert m >= 0 by {
      GroupMapCovers(sgs);
      var j :| 0 <= j < |sgs| && sgs[j] == sg;
    }
    assert sg in gm[m].subgroups by {
      GroupMapEntries(sgs);
      assert gm[m].subgroups == OfGroup(sgs, sg.group.id);
    }
    assert gm[m] in multiset(gs);
    var i :| 0 <= i < |gs| && gs[i] == gm[m];
  }

  /** The column list of a week is its distinct subgroups: each column is
      the subgroup of a lesson, and each lesson has its column. */
  lemma WeekColumnsCover(week: seq<Lesson>)
    ensures var cols := Columns(WeekColumns(week));
      && (forall sg :: sg in cols <==> sg in WeekSubgroups(week))
      && (forall sg :: sg in cols ==> exists i :: 0 <= i < |week| && week[i].subgroup == sg)
      && (forall i :: 0 <= i < |week| ==> exists c :: 0 <= c < |cols| && cols[c].id == week[i].subgroup.id)
  {
    var cols := Columns(WeekColumns(week));
    var firsts := FirstOfEachKey(SubgroupsOf(week), SubgroupId());
    var sgs := WeekSubgroups(week);
    HeaderColumns(sgs);
    forall sg | sg in cols ensures exists i :: 0 <= i < |week| && week[i].subgroup == sg {
      assert sg in multiset(firsts);
      assert sg in SubgroupsOf(week);
      var i :| 0 <= i < |week| && SubgroupsOf(week)[i] == sg;
    }
    forall i | 0 <= i < |week| ensures exists c :: 0 <= c < |cols| && cols[c].id == week[i].subgroup.id {
      assert SubgroupsOf(week)[i] == week[i].subgroup;
      var k :| 0 <= k < |firsts| && SubgroupId()(firsts[k]) == SubgroupId()(SubgroupsOf(week)[i]);
      assert firsts[k] in multiset(sgs);
      assert firsts[k] in cols;
      var c :| 0 <= c < |cols| && cols[c] == firsts[k];
    }
  }

  /** The header lists each group once, ordered by name, and each group's
      subgroups are exactly its subgroups with a lesson that week, ordered
      by group name and number. */
  lemma ScheduleViewGroups(store: seq<Lesson>, page: Option<int>)
    ensures var gs := ScheduleView(store, page).groups;
      && SortedBy(gs, ByGroupName())
      && DistinctGroups(gs)
      && forall i :: 0 <= i < |gs| ==>
           && gs[i].subgroups != []
           && SortedBy(gs[i].subgroups, ByColumn())
           && forall sg :: sg in gs[i].subgroups <==> sg in WeekSubgroups(ShownLessons(store, page)) && sg.group.id == gs[i].group.id
  {
    ScheduleViewParts(store, page);
    ColumnOrderIsTotalPreorder();
    SortBySorted(FirstOfEachKey(SubgroupsOf(ShownLessons(store, page)), SubgroupId()), ByColumn());
    HeaderGroups(WeekSubgroups(ShownLessons(store, page)));
  }

  /** The columns are the week's distinct subgroups: each column is the
      subgroup of a shown lesson, and each shown lesson has its column. */
  lemma ScheduleViewColumns(store: seq<Lesson>, page: Option<int>)
    ensures var v := ScheduleView(store, page);
      var week := ShownLessons(store, page);
      && (forall sg :: sg in v.columns <==> sg in WeekSubgroups(week))
      && (forall sg :: sg in v.columns ==> exists i :: 0 <= i < |week| && week[i].subgroup == sg)
      && (forall i :: 0 <= i < |week| ==> exists c :: 0 <= c < |v.columns| && v.columns[c].id == week[i].subgroup.id)
  {
    ScheduleViewParts(store, page);
    WeekColumnsCover(ShownLessons(store, page));
  }

  /** What a cell shows: a lesson exactly when some lesson has that date,
      start time and subgroup, and then the last such lesson. */
  lemma CellMeaning(week: seq<Lesson>, day: int, time: int, sgId: nat)
    ensures var cell := Lookup(LessonMap(week), day, time, sgId);
      cell.Some? <==> exists i :: 0 <= i < |week| && KeyOf(week[i]) == (day, time, sgId)
    ensures var cell := Lookup(LessonMap(week), day, time, sgId);
      cell.Some? ==> exists i :: 0 <= i < |week| && week[i] == cell.value && KeyOf(week[i]) == (day, time, sgId)
                                 && forall j :: i < j < |week| ==> KeyOf(week[j]) != (day, time, sgId)
  {
    if (day, time, sgId) in LessonMap(week) {
      LessonMapLastWins(week, (day, time, sgId));
    }
  }

  /** The grid has a row per day and timeslot; row `d * |timeslots| + k`
      is day `d` at timeslot `k`, has a cell per column, and only the
      first row of a day is marked first, spanning the day's rows. */
  lemma ScheduleViewRowLayout(store: seq<Lesson>, page: Option<int>, v: View, d: nat, k: nat)
    requires v == ScheduleView(store, page)
    requires d < |v.days| && k < |v.timeslots|
    ensures |v.rows| == |v.days| * |v.timeslots|
    ensures RowIndex(d, k, |v.timeslots|) < |v.rows| &&
      var row := v.rows[RowIndex(d, k, |v.timeslots|)];
      && row.day == v.days[d]
      && row.time == v.timeslots[k]
      && row.isFirst == (k == 0)
      && row.rowspan == |v.timeslots|
      && |row.cells| == |v.columns|
  {
    ScheduleViewParts(store, page);
    var lm := LessonMap(ShownLessons(store, page));
    assert v.rows == Rows(v.days, v.timeslots, v.columns, lm);
    RowsLength(v.days, v.timeslots, v.columns, lm);
    RowsAt(v.days, v.timeslots, v.columns, lm, d, k);
  }

  /** Cell `c` of row `d * |timeslots| + k` shows a lesson exactly when a
      shown lesson is on day `d` at timeslot `k` for column `c`'s subgroup,
      and then it shows the last such lesson of the listing. */
  lemma ScheduleViewCell(store: seq<Lesson>, page: Option<int>, v: View, d: nat, k: nat, c: nat)
    requires v == ScheduleView(store, page)
    requires d < |v.days| && k < |v.timeslots| && c < |v.columns|
    ensures RowIndex(d, k, |v.timeslots|) < |v.rows| && c < |v.rows[RowIndex(d, k, |v.timeslots|)].cells|
    ensures RowIndex(d, k, |v.timeslots|) < |v.rows| && c < |v.rows[RowIndex(d, k, |v.timeslots|)].cells| &&
      var week := ShownLessons(store, page);
      var key := (v.days[d], v.timeslots[k], v.columns[c].id);
      var cell := v.rows[RowIndex(d, k, |v.timeslots|)].cells[c];
      && (cell.Some? <==> exists i :: 0 <= i < |week| && KeyOf(week[i]) == key)
      && (cell.Some? ==> exists i :: 0 <= i < |week| && week[i] == cell.value && KeyOf(week[i]) == key
                                     && forall j :: i < j < |week| ==> KeyOf(week[j]) != key)
  {
    ScheduleViewParts(store, page);
    var week := ShownLessons(store, page);
    var lm := LessonMap(week);
    assert v.rows == Rows(v.days, v.timeslots, v.columns, lm);
    RowsAt(v.days, v.timeslots, v.columns, lm, d, k);
    assert v.rows[RowIndex(d, k, |v.timeslots|)].cells[c] == Lookup(lm, v.days[d], v.timeslots[k], v.columns[c].id);
    CellMeaning(week, v.days[d], v.timeslots[k], v.columns[c].id);
  }

  /** Lessons that share a course id carry the same course record. */
  predicate CoursesAgree(ls: seq<Lesson>)
  {
    forall i, j :: 0 <= i < |ls| && 0 <= j < |ls| && ls[i].course.id == ls[j].course.id ==> ls[i].course == ls[j].course
  }

  /** Every course of a week has the colour of its teacher, and the teacher
      that appears `t`-th in the week has colour `t` of the palette, counted
      cyclically. */
  lemma WeekCourseColor(week: seq<Lesson>, j: int)
    requires CoursesAgree(week) && 0 <= j < |week|
    ensures week[j].course.id in WeekColors(week)
    ensures exists t :: 0 <= t < |WeekTeachers(week)| && WeekTeachers(week)[t].id == week[j].course.teacher.id
                        && WeekColors(week)[week[j].course.id] == Palette[t % |Palette|]
  {
    var cs := WeekCourses(week);
    var ts := WeekTeachers(week);
    var tc := TeacherColors(ts);
    var k := WeekCourseIndex(week, j);
    assert cs[k].teacher.id == week[j].course.teacher.id by {
      assert cs[k] in CoursesOf(week);
      var m :| 0 <= m < |week| && CoursesOf(week)[m] == cs[k];
      assert week[m].course == week[j].course;
    }
    assert WeekColors(week)[week[j].course.id] == tc[week[j].course.teacher.id] by {
      WeekCoursesTaught(week);
      CourseColorsAt(cs, tc, k);
    }
    var t := WeekTeacherIndex(week, j);
    TeacherColorsAt(ts, t);
  }

  lemma WeekCourseIndex(week: seq<Lesson>, j: int) returns (k: int)
    requires 0 <= j < |week|
    ensures 0 <= k < |WeekCourses(week)| && WeekCourses(week)[k].id == week[j].course.id
  {
    assert CoursesOf(week)[j] == week[j].course;
    k :| 0 <= k < |WeekCourses(week)| && CourseId()(WeekCourses(week)[k]) == CourseId()(CoursesOf(week)[j]);
  }

  lemma WeekTeacherIndex(week: seq<Lesson>, j: int) returns (t: int)
    requires 0 <= j < |week|
    ensures 0 <= t < |WeekTeachers(week)| && WeekTeachers(week)[t].id == week[j].course.teacher.id
  {
    assert TeachersOf(week)[j] == week[j].course.teacher;
    t :| 0 <= t < |WeekTeachers(week)| && TeacherId()(WeekTeachers(week)[t]) == TeacherId()(TeachersOf(week)[j]);
  }

  /** Each shown lesson's course has a colour: the colour of its teacher's
      position among the week's teachers, cycling through the palette. */
  lemma ScheduleViewColor(store: seq<Lesson>, page: Option<int>, j: int)
    requires CoursesAgree(ShownLessons(store, page)) && 0 <= j < |ShownLessons(store, page)|
    ensures var week := ShownLessons(store, page);
      var colors := ScheduleView(store, page).courseColors;
      && week[j].course.id in colors
      && exists t :: 0 <= t < |WeekTeachers(week)| && WeekTeachers(week)[t].id == week[j].course.teacher.id
                     && colors[week[j].course.id] == Palette[t % |Palette|]
  {
    ScheduleViewParts(store, page);
    WeekCourseColor(ShownLessons(store, page), j);
  }

  /** One lecture at 09:00 on Monday 3 January 2022 (day number 738157). */
  function SampleLesson(): Lesson
  {
    var teacher := Teacher(1, "T", "Prof", 10);
    var course := Course(1, 1, "C1", 1, 1, 1, teacher);
    var group := Group(1, "G1", 1, 1);
    Lesson(course, Subgroup(1, group, 1), 738157, 540, Lecture)
  }

  lemma SampleWeek()
    ensures var l := SampleLesson();
      && WeekStarts(Sort([l])) == [l.date]
      && WeekOfPage(WeekStarts(Sort([l])), None) == Some(l.date)
      && ShownLessons([l], None) == [l]
  {
    var l := SampleLesson();
    assert Sort([l]) == [l];
    assert Weekday(l.date) == 0 by {
      assert l.date == 7 * 105451;
    }
    assert WeekStarts([l]) == [l.date];
    assert InWeek(l.date)(l);
  }

  lemma SampleHeader()
    ensures var sg := SampleLesson().subgroup;
      && WeekColumns([SampleLesson()]) == [GroupColumns(sg.group, [sg])]
      && Columns(WeekColumns([SampleLesson()])) == [sg]
  {
    var l := SampleLesson();
    var sg := l.subgroup;
    assert SubgroupsOf([l]) == [sg];
    assert FirstOfEachKey([sg], SubgroupId()) == [sg];
    assert WeekSubgroups([l]) == [sg] by {
      assert SortBy([sg], ByColumn()) == InsertBy(sg, [], ByColumn());
    }
    assert GroupMap([sg]) == [GroupColumns(sg.group, [sg])] by {
      assert GroupMap([sg]) == AddToGroup(GroupMap([]), sg);
    }
    var gc := GroupColumns(sg.group, [sg]);
    assert SortBy([gc], ByGroupName()) == InsertBy(gc, [], ByGroupName());
    assert Columns([gc]) == [sg] + Columns([]);
  }

  lemma SampleCells()
    ensures var l := SampleLesson();
      Cells(LessonMap([l]), l.date, l.startTime, [l.subgroup]) == [Some(l)]
  {
    var l := SampleLesson();
    var lm := LessonMap([l]);
    assert KeyOf(l) in lm && lm[KeyOf(l)] == l by {
      assert lm == LessonMap([])[KeyOf(l) := l];
    }
    var cs := Cells(lm, l.date, l.startTime, [l.subgroup]);
    assert |cs| == 1 && cs[0] == Lookup(lm, l.date, l.startTime, l.subgroup.id);
  }

  /** With that one lesson stored, the first page shows one week, one group
      with one column, seven rows (one timeslot on each of seven days), the
      lesson in the Monday row, and a colour for its course. */
  lemma OneLessonPage()
    ensures var l := SampleLesson();
      var v := ScheduleView([l], None);
      && |v.weekStarts| == 1
      && |v.groups| == 1
      && |v.rows| == 7
      && v.rows[0].day == l.date
      && v.rows[0].cells == [Some(l)]
      && l.course.id in v.courseColors
  {
    var l := SampleLesson();
    var v := ScheduleView([l], None);
    ScheduleViewParts([l], None);
    SampleWeek();
    SampleHeader();
    assert l.course.id in v.courseColors by {
      SampleColor();
    }
    var lm := LessonMap([l]);
    assert v.days == Days(Some(l.date));
    assert |v.days| == 7;
    assert v.timeslots == [540] by {
      assert Timeslots([l]) == InsertTime(540, Timeslots([]));
    }
    assert |v.rows| == 7 by {
      RowsLength(v.days, v.timeslots, v.columns, lm);
    }
    assert v.rows[0] == Row(l.date, 540, true, 1, Cells(lm, l.date, 540, v.columns)) by {
      RowsAt(v.days, v.timeslots, v.columns, lm, 0, 0);
    }
    SampleCells();
  }

  lemma SampleColor()
    ensures SampleLesson().course.id in WeekColors([SampleLesson()])
  {
    WeekCourseColor([SampleLesson()], 0);
  }
}

