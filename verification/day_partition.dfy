/** The split of the five workdays into two lecture days and three practice
    days, made once when the generator is constructed. The random choice of
    the two lecture days is an input here. */
module DayPartition {
  import opened Entities

  /** What sampling two workdays without replacement can return. */
  predicate IsLectureDaySample(lectureDays: seq<int>)
  {
    |lectureDays| == 2 && lectureDays[0] != lectureDays[1] && lectureDays[0] in WorkDays && lectureDays[1] in WorkDays
  }

  /** The elements of `days` not in `excluded`, in their original order. */
  function Without(days: seq<int>, excluded: seq<int>): (r: seq<int>)
    ensures forall d :: d in r <==> d in days && d !in excluded
    ensures |r| <= |days|
  {
    if |days| == 0 then []
    else if days[0] in excluded then Without(days[1..], excluded)
    else [days[0]] + Without(days[1..], excluded)
  }

  /** The workdays that are not lecture days, in weekday order. */
  function PracticeDays(lectureDays: seq<int>): (pd: seq<int>)
    ensures forall d :: d in pd <==> d in WorkDays && d !in lectureDays
  {
    Without(WorkDays, lectureDays)
  }

  /** How many elements of `days` are in `excluded`. */
  function CountIn(days: seq<int>, excluded: seq<int>): nat
  {
    if |days| == 0 then 0
    else (if days[0] in excluded then 1 else 0) + CountIn(days[1..], excluded)
  }

  predicate StrictlyIncreasing(days: seq<int>)
  {
    forall i, j :: 0 <= i < j < |days| ==> days[i] < days[j]
  }

  /** Removing elements keeps the rest in order and loses exactly the
      removed ones. */
  lemma {:induction false} WithoutShape(days: seq<int>, excluded: seq<int>)
    ensures |Without(days, excluded)| + CountIn(days, excluded) == |days|
    ensures StrictlyIncreasing(days) ==> StrictlyIncreasing(Without(days, excluded))
  {
    if |days| > 0 {
      WithoutShape(days[1..], excluded);
      if StrictlyIncreasing(days) {
        assert StrictlyIncreasing(days[1..]);
        var r := Without(days, excluded);
        if days[0] !in excluded {
          forall i, j | 0 <= i < j < |r| ensures r[i] < r[j] {
            if i == 0 {
              assert r[j] in Without(days[1..], excluded);
            }
          }
        }
      }
    }
  }

  /** Exactly two workdays are lecture days. */
  lemma TwoLectureDaysCounted(lectureDays: seq<int>)
    requires IsLectureDaySample(lectureDays)
    ensures CountIn(WorkDays, lectureDays) == 2
  {
    var a, b := lectureDays[0], lectureDays[1];
    assert forall d :: d in lectureDays <==> d == a || d == b;
    var w := WorkDays;
    assert CountIn(w[5..], lectureDays) == 0;
    assert w[4..][1..] == w[5..];
    assert w[3..][1..] == w[4..];
    assert w[2..][1..] == w[3..];
    assert w[1..][1..] == w[2..];
    assert w[1..] == w[0..][1..];
    assert CountIn(w[4..], lectureDays) == (if 4 == a || 4 == b then 1 else 0);
    assert CountIn(w[3..], lectureDays) == (if 3 == a || 3 == b then 1 else 0) + CountIn(w[4..], lectureDays);
    assert CountIn(w[2..], lectureDays) == (if 2 == a || 2 == b then 1 else 0) + CountIn(w[3..], lectureDays);
    assert CountIn(w[1..], lectureDays) == (if 1 == a || 1 == b then 1 else 0) + CountIn(w[2..], lectureDays);
    assert w == w[0..];
    assert CountIn(w, lectureDays) == (if 0 == a || 0 == b then 1 else 0) + CountIn(w[1..], lectureDays);
  }

  /** Lecture days and practice days partition the workdays: they are
      disjoint, together they are all five workdays, and there are three
      practice days listed from Monday towards Friday. */
  lemma PartitionOfWorkDays(lectureDays: seq<int>)
    requires IsLectureDaySample(lectureDays)
    ensures forall d :: !(d in lectureDays && d in PracticeDays(lectureDays))
    ensures forall d :: d in WorkDays <==> d in lectureDays || d in PracticeDays(lectureDays)
    ensures |PracticeDays(lectureDays)| == 3
    ensures StrictlyIncreasing(PracticeDays(lectureDays))
  {
    WithoutShape(WorkDays, lectureDays);
    assert lectureDays == [lectureDays[0], lectureDays[1]];
    TwoLectureDaysCounted(lectureDays);
  }
}
