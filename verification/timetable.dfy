/** The final schedule: the lessons of the run's subgroups inside the date
    range, ordered by (date, start time) and grouped by subgroup and date. */
module Timetable {
  import opened Entities

  /** The lessons of `s` that satisfy `p`, in their order in `s`. */
  function Filter(s: seq<Lesson>, p: Lesson -> bool): (r: seq<Lesson>)
    ensures |r| <= |s|
  {
    if s == [] then [] else (if p(s[0]) then [s[0]] else []) + Filter(s[1..], p)
  }

  lemma {:induction false} FilterMember(s: seq<Lesson>, p: Lesson -> bool, l: Lesson)
    ensures l in Filter(s, p) <==> l in s && p(l)
  {
    if s != [] {
      FilterMember(s[1..], p, l);
      assert s == [s[0]] + s[1..];
    }
  }

  lemma FilterCons(x: Lesson, rest: seq<Lesson>, p: Lesson -> bool)
    ensures Filter([x] + rest, p) == (if p(x) then [x] else []) + Filter(rest, p)
  {
    assert ([x] + rest)[0] == x && ([x] + rest)[1..] == rest;
  }

  lemma FilterSatisfies(s: seq<Lesson>, p: Lesson -> bool)
    ensures forall i :: 0 <= i < |Filter(s, p)| ==> p(Filter(s, p)[i])
  {
    var r := Filter(s, p);
    forall i | 0 <= i < |r| ensures p(r[i]) {
      FilterMember(s, p, r[i]);
    }
  }

  lemma {:induction false} FilterAppend(a: seq<Lesson>, b: seq<Lesson>, p: Lesson -> bool)
    ensures Filter(a + b, p) == Filter(a, p) + Filter(b, p)
  {
    if a == [] {
      assert a + b == b;
    } else {
      var head := if p(a[0]) then [a[0]] else [];
      assert Filter(a + b, p) == head + Filter(a[1..] + b, p) by {
        assert (a + b)[0] == a[0];
        assert (a + b)[1..] == a[1..] + b;
      }
      FilterAppend(a[1..], b, p);
      assert Filter(a, p) == head + Filter(a[1..], p);
      assert head + (Filter(a[1..], p) + Filter(b, p)) == (head + Filter(a[1..], p)) + Filter(b, p);
    }
  }

  /** The ordering key: days dominate, minutes within a day break ties. */
  function SortKey(l: Lesson): int
  {
    l.date * 1440 + l.startTime
  }

  /** Ordering by the key is ordering by date, then by start time. */
  lemma SortKeyOrder(a: Lesson, b: Lesson)
    ensures SortKey(a) <= SortKey(b) <==> a.date < b.date || (a.date == b.date && a.startTime <= b.startTime)
  {
    if a.date < b.date {
      assert a.date * 1440 + 1440 <= b.date * 1440;
    } else if a.date > b.date {
      assert b.date * 1440 + 1440 <= a.date * 1440;
    }
  }

  predicate Sorted(s: seq<Lesson>)
  {
    forall i, j :: 0 <= i < j < |s| ==> SortKey(s[i]) <= SortKey(s[j])
  }

  /** Places `x` in front of the first lesson whose key is not smaller. */
  function Insert(x: Lesson, r: seq<Lesson>): (q: seq<Lesson>)
    ensures multiset(q) == multiset(r) + multiset{x}
  {
    if r == [] || SortKey(x) <= SortKey(r[0]) then [x] + r
    else
      assert r == [r[0]] + r[1..];
      [r[0]] + Insert(x, r[1..])
  }

  /** A lesson no later than everything in a sorted list may go in front. */
  lemma SortedCons(x: Lesson, r: seq<Lesson>)
    requires Sorted(r)
    requires forall i :: 0 <= i < |r| ==> SortKey(x) <= SortKey(r[i])
    ensures Sorted([x] + r)
  {
    var q := [x] + r;
    forall i, j | 0 <= i < j < |q| ensures SortKey(q[i]) <= SortKey(q[j]) {
      assert q[j] == r[j - 1];
      if i > 0 {
        assert q[i] == r[i - 1];
      }
    }
  }

  lemma {:induction false} InsertSorted(x: Lesson, r: seq<Lesson>)
    requires Sorted(r)
    ensures Sorted(Insert(x, r))
    decreases |r|
  {
    if r == [] || SortKey(x) <= SortKey(r[0]) {
      SortedCons(x, r);
    } else {
      var rest := Insert(x, r[1..]);
      InsertSorted(x, r[1..]);
      forall i | 0 <= i < |rest| ensures SortKey(r[0]) <= SortKey(rest[i]) {
        assert rest[i] in multiset(rest);
        if rest[i] != x {
          assert rest[i] in r[1..];
          var k :| 0 <= k < |r[1..]| && r[1..][k] == rest[i];
          assert r[1..][k] == r[k + 1];
        }
      }
      SortedCons(r[0], rest);
    }
  }

  /** Stable insertion sort by `SortKey`, the order of a query ordered by
      date and start time over rows kept in store order. */
  function Sort(s: seq<Lesson>): (r: seq<Lesson>)
    ensures multiset(r) == multiset(s)
  {
    if s == [] then []
    else
      assert s == [s[0]] + s[1..];
      Insert(s[0], Sort(s[1..]))
  }

  lemma {:induction false} SortSorted(s: seq<Lesson>)
    ensures Sorted(Sort(s))
  {
    if s != [] {
      SortSorted(s[1..]);
      InsertSorted(s[0], Sort(s[1..]));
    }
  }

  /** A lesson that goes in front stays in front of the filtered list. */
  lemma InsertFrontFilter(x: Lesson, r: seq<Lesson>, p: Lesson -> bool)
    requires Sorted(r)
    requires r == [] || SortKey(x) <= SortKey(r[0])
    ensures Insert(x, Filter(r, p)) == [x] + Filter(r, p)
  {
    var fr := Filter(r, p);
    if fr != [] {
      FilterMember(r, p, fr[0]);
      var k :| 0 <= k < |r| && r[k] == fr[0];
      assert SortKey(r[0]) <= SortKey(r[k]);
    }
  }

  /** Filtering commutes with inserting into a sorted list. */
  lemma {:induction false} FilterInsert(x: Lesson, r: seq<Lesson>, p: Lesson -> bool)
    requires Sorted(r)
    ensures Filter(Insert(x, r), p) == if p(x) then Insert(x, Filter(r, p)) else Filter(r, p)
    decreases |r|
  {
    if r == [] || SortKey(x) <= SortKey(r[0]) {
      assert Insert(x, r) == [x] + r;
      assert ([x] + r)[0] == x && ([x] + r)[1..] == r;
      InsertFrontFilter(x, r, p);
    } else {
      FilterInsertLater(x, r, p);
    }
  }

  lemma {:induction false} FilterInsertLater(x: Lesson, r: seq<Lesson>, p: Lesson -> bool)
    requires Sorted(r)
    requires r != [] && SortKey(r[0]) < SortKey(x)
    ensures Filter(Insert(x, r), p) == if p(x) then Insert(x, Filter(r, p)) else Filter(r, p)
    decreases |r|, 0
  {
    var rest := Insert(x, r[1..]);
    var f1 := Filter(r[1..], p);
    var head := if p(r[0]) then [r[0]] else [];
    assert Filter(Insert(x, r), p) == head + Filter(rest, p) by {
      assert Insert(x, r) == [r[0]] + rest;
      FilterCons(r[0], rest, p);
    }
    assert Filter(r, p) == head + f1 by {
      assert r == [r[0]] + r[1..];
      FilterCons(r[0], r[1..], p);
    }
    assert Filter(rest, p) == if p(x) then Insert(x, f1) else f1 by {
      assert Sorted(r[1..]);
      FilterInsert(x, r[1..], p);
    }
    if p(x) {
      if p(r[0]) {
        InsertBehind(x, r[0], f1);
      } else {
        assert head + f1 == f1 && head + Insert(x, f1) == Insert(x, f1);
      }
    }
  }

  lemma InsertBehind(x: Lesson, y: Lesson, f: seq<Lesson>)
    requires SortKey(y) < SortKey(x)
    ensures Insert(x, [y] + f) == [y] + Insert(x, f)
  {
    assert ([y] + f)[0] == y && ([y] + f)[1..] == f;
  }

  /** Filtering commutes with sorting. */
  lemma {:induction false} FilterSort(s: seq<Lesson>, p: Lesson -> bool)
    ensures Filter(Sort(s), p) == Sort(Filter(s, p))
  {
    if s != [] {
      var f1 := Filter(s[1..], p);
      SortSorted(s[1..]);
      FilterSort(s[1..], p);
      FilterInsert(s[0], Sort(s[1..]), p);
      if p(s[0]) {
        assert Filter(s, p) == [s[0]] + f1;
        assert ([s[0]] + f1)[0] == s[0] && ([s[0]] + f1)[1..] == f1;
      } else {
        assert Filter(s, p) == f1;
      }
    }
  }

  /** Lessons by subgroup id, then by date; a bucket exists only once a
      lesson has been added to it. */
  type Schedule = map<nat, map<int, seq<Lesson>>>

  /** The lessons of one subgroup on one date, empty when there is no bucket. */
  function Bucket(sched: Schedule, sgId: nat, date: int): seq<Lesson>
  {
    if sgId in sched && date in sched[sgId] then sched[sgId][date] else []
  }

  /** Appends a lesson to the bucket of its subgroup and date, creating
      the buckets on first use. */
  function AddLesson(sched: Schedule, l: Lesson): (r: Schedule)
    ensures forall sgId: nat, d: int :: Bucket(r, sgId, d)
              == Bucket(sched, sgId, d) + (if sgId == l.subgroup.id && d == l.date then [l] else [])
    ensures forall sgId: nat :: sgId in r <==> sgId in sched || sgId == l.subgroup.id
    ensures forall sgId: nat :: sgId in r ==> forall d: int :: d in r[sgId] <==>
              (sgId in sched && d in sched[sgId]) || (sgId == l.subgroup.id && d == l.date)
  {
    var days := if l.subgroup.id in sched then sched[l.subgroup.id] else map[];
    sched[l.subgroup.id := days[l.date := Bucket(sched, l.subgroup.id, l.date) + [l]]]
  }

  /** Groups `ls` lesson by lesson, in order. */
  function Group(ls: seq<Lesson>): Schedule
  {
    if ls == [] then map[] else AddLesson(Group(ls[..|ls| - 1]), ls[|ls| - 1])
  }

  function InBucket(sgId: nat, date: int): Lesson -> bool
  {
    (l: Lesson) => l.subgroup.id == sgId && l.date == date
  }

  /** Each bucket holds exactly the lessons of its subgroup and date, in
      the order they were grouped. */
  lemma {:induction false} GroupBucket(ls: seq<Lesson>, sgId: nat, date: int)
    ensures Bucket(Group(ls), sgId, date) == Filter(ls, InBucket(sgId, date))
  {
    if ls != [] {
      var init := ls[..|ls| - 1];
      GroupBucket(init, sgId, date);
      GroupSnoc(ls, sgId, date);
      FilterSnoc(ls, InBucket(sgId, date));
    }
  }

  lemma GroupSnoc(ls: seq<Lesson>, sgId: nat, date: int)
    requires ls != []
    ensures var last := ls[|ls| - 1];
      Bucket(Group(ls), sgId, date)
        == Bucket(Group(ls[..|ls| - 1]), sgId, date) + (if InBucket(sgId, date)(last) then [last] else [])
  {
    assert Group(ls) == AddLesson(Group(ls[..|ls| - 1]), ls[|ls| - 1]);
  }

  lemma FilterSnoc(ls: seq<Lesson>, q: Lesson -> bool)
    requires ls != []
    ensures var last := ls[|ls| - 1];
      Filter(ls, q) == Filter(ls[..|ls| - 1], q) + (if q(last) then [last] else [])
  {
    var init, last := ls[..|ls| - 1], ls[|ls| - 1];
    assert ls == init + [last];
    FilterAppend(init, [last], q);
    assert [last][1..] == [];
  }

  /** A bucket exists exactly where at least one lesson landed. */
  lemma {:induction false} GroupKeys(ls: seq<Lesson>, sgId: nat, date: int)
    ensures sgId in Group(ls) && date in Group(ls)[sgId] <==> Bucket(Group(ls), sgId, date) != []
    ensures sgId in Group(ls) <==> exists i :: 0 <= i < |ls| && ls[i].subgroup.id == sgId
  {
    if ls != [] {
      var init := ls[..|ls| - 1];
      var last := ls[|ls| - 1];
      GroupKeys(init, sgId, date);
      assert Group(ls) == AddLesson(Group(init), last);
      assert Bucket(Group(ls), sgId, date) == Bucket(Group(init), sgId, date)
             + (if sgId == last.subgroup.id && date == last.date then [last] else []);
      GroupKeysStep(ls, init, sgId);
    }
  }

  lemma GroupKeysStep(ls: seq<Lesson>, init: seq<Lesson>, sgId: nat)
    requires ls != [] && init == ls[..|ls| - 1]
    requires sgId in Group(init) <==> exists i :: 0 <= i < |init| && init[i].subgroup.id == sgId
    ensures sgId in Group(ls) <==> exists i :: 0 <= i < |ls| && ls[i].subgroup.id == sgId
  {
    var last := ls[|ls| - 1];
    assert sgId in Group(ls) <==> sgId in Group(init) || sgId == last.subgroup.id by {
      assert Group(ls) == AddLesson(Group(init), last);
    }
    if sgId in Group(ls) {
      if sgId == last.subgroup.id {
        assert ls[|ls| - 1].subgroup.id == sgId;
      } else {
        var i :| 0 <= i < |init| && init[i].subgroup.id == sgId;
        assert ls[i] == init[i];
      }
    } else {
      assert sgId !in Group(init) && sgId != last.subgroup.id;
      forall i | 0 <= i < |ls| ensures ls[i].subgroup.id != sgId {
        if i < |init| {
          assert init[i] == ls[i];
          assert init[i].subgroup.id != sgId;
        } else {
          assert i == |ls| - 1 by {
            assert |init| == |ls| - 1;
          }
        }
      }
    }
  }

  function SubgroupIds(subgroups: seq<Subgroup>): (ids: set<nat>)
    ensures forall sg :: sg in subgroups ==> sg.id in ids
    ensures forall id :: id in ids ==> exists sg :: sg in subgroups && sg.id == id
  {
    set sg | sg in subgroups :: sg.id
  }

  /** The lessons of the run's subgroups dated inside [startDate, endDate]. */
  function InScope(ids: set<nat>, startDate: int, endDate: int): Lesson -> bool
  {
    (l: Lesson) => startDate <= l.date <= endDate && l.subgroup.id in ids
  }

  /** The final schedule of a run over `subgroups` and the date range. */
  function FinalSchedule(store: seq<Lesson>, subgroups: seq<Subgroup>, startDate: int, endDate: int): Schedule
  {
    Group(Sort(Filter(store, InScope(SubgroupIds(subgroups), startDate, endDate))))
  }

  lemma {:induction false} FilterFilterNarrower(s: seq<Lesson>, p: Lesson -> bool, q: Lesson -> bool)
    requires forall l :: q(l) ==> p(l)
    ensures Filter(Filter(s, p), q) == Filter(s, q)
  {
    if s != [] {
      var x, rest := s[0], s[1..];
      FilterFilterNarrower(rest, p, q);
      assert s == [x] + rest;
      FilterCons(x, rest, q);
      if p(x) {
        assert Filter(s, p) == [x] + Filter(rest, p);
        FilterCons(x, Filter(rest, p), q);
      } else {
        assert Filter(s, p) == Filter(rest, p);
        assert !q(x);
      }
    }
  }

  lemma {:induction false} FilterFilterDisjoint(s: seq<Lesson>, p: Lesson -> bool, q: Lesson -> bool)
    requires forall l :: q(l) ==> !p(l)
    ensures Filter(Filter(s, p), q) == []
  {
    if s != [] {
      var x, rest := s[0], s[1..];
      FilterFilterDisjoint(rest, p, q);
      if p(x) {
        assert Filter(s, p) == [x] + Filter(rest, p);
        FilterCons(x, Filter(rest, p), q);
        assert !q(x);
      } else {
        assert Filter(s, p) == Filter(rest, p);
      }
    }
  }

  /** Every bucket of the final schedule holds exactly the store's lessons
      of that subgroup and date, ordered by start time; buckets outside the
      run's subgroups or date range are empty. */
  lemma FinalScheduleBucket(store: seq<Lesson>, subgroups: seq<Subgroup>, startDate: int, endDate: int, sgId: nat, date: int)
    ensures Bucket(FinalSchedule(store, subgroups, startDate, endDate), sgId, date)
         == if sgId in SubgroupIds(subgroups) && startDate <= date <= endDate
            then Sort(Filter(store, InBucket(sgId, date)))
            else []
  {
    var ids := SubgroupIds(subgroups);
    var sel := Filter(store, InScope(ids, startDate, endDate));
    GroupBucket(Sort(sel), sgId, date);
    FilterSort(sel, InBucket(sgId, date));
    if sgId in ids && startDate <= date <= endDate {
      FilterFilterNarrower(store, InScope(ids, startDate, endDate), InBucket(sgId, date));
    } else {
      FilterFilterDisjoint(store, InScope(ids, startDate, endDate), InBucket(sgId, date));
    }
  }

  /** A bucket lists its lessons in non-decreasing start time, and each is
      of its subgroup and date. */
  lemma FinalScheduleBucketOrdered(store: seq<Lesson>, subgroups: seq<Subgroup>, startDate: int, endDate: int,
                                   sgId: nat, date: int)
    ensures var b := Bucket(FinalSchedule(store, subgroups, startDate, endDate), sgId, date);
      && (forall i :: 0 <= i < |b| ==> b[i].subgroup.id == sgId && b[i].date == date)
      && (forall i, j :: 0 <= i < j < |b| ==> b[i].startTime <= b[j].startTime)
  {
    var b := Bucket(FinalSchedule(store, subgroups, startDate, endDate), sgId, date);
    FinalScheduleBucket(store, subgroups, startDate, endDate, sgId, date);
    if b != [] {
      var f := Filter(store, InBucket(sgId, date));
      SortSorted(f);
      forall i | 0 <= i < |b| ensures b[i].subgroup.id == sgId && b[i].date == date {
        assert b[i] in multiset(f);
        FilterMember(store, InBucket(sgId, date), b[i]);
      }
      forall i, j | 0 <= i < j < |b| ensures b[i].startTime <= b[j].startTime {
        SortKeyOrder(b[i], b[j]);
      }
    }
  }

  /** Filtering keeps every copy of a lesson that satisfies the filter. */
  lemma {:induction false} FilterCount(s: seq<Lesson>, p: Lesson -> bool, x: Lesson)
    requires p(x)
    ensures multiset(Filter(s, p))[x] == multiset(s)[x]
  {
    if s != [] {
      FilterCount(s[1..], p, x);
      assert s == [s[0]] + s[1..];
      assert multiset(s) == multiset([s[0]]) + multiset(s[1..]);
      assert multiset(Filter(s, p)) == multiset(if p(s[0]) then [s[0]] else []) + multiset(Filter(s[1..], p));
    }
  }

  /** A bucket holds every selected lesson of its subgroup and date, each
      as often as the store does. */
  lemma FinalScheduleBucketComplete(store: seq<Lesson>, subgroups: seq<Subgroup>, startDate: int, endDate: int, l: Lesson)
    requires l in store
    ensures var b := Bucket(FinalSchedule(store, subgroups, startDate, endDate), l.subgroup.id, l.date);
      l in b <==> l.subgroup.id in SubgroupIds(subgroups) && startDate <= l.date <= endDate
    ensures var b := Bucket(FinalSchedule(store, subgroups, startDate, endDate), l.subgroup.id, l.date);
      l in b ==> multiset(b)[l] == multiset(store)[l]
  {
    var ids := SubgroupIds(subgroups);
    var f := Filter(store, InBucket(l.subgroup.id, l.date));
    FinalScheduleBucket(store, subgroups, startDate, endDate, l.subgroup.id, l.date);
    FilterMember(store, InBucket(l.subgroup.id, l.date), l);
    FilterCount(store, InBucket(l.subgroup.id, l.date), l);
    assert l in Sort(f) <==> l in multiset(Sort(f));
  }
}
