/**
 UTC calendar days as day numbers, where day 0 is Thursday 1970-01-01. The weekday and the
 Monday of a week are computed as in weekStartUtc of src/lib/agentic-adoption.ts and
 src/lib/attribution-trend.ts.
 */
module Calendar {
  import opened Sorting

  // 0 is Sunday and 6 is Saturday.
  function DayOfWeek(day: int): int {
    (day + 4) % 7
  }

  function WeekStart(day: int): (monday: int)
    ensures DayOfWeek(monday) == 1 && monday <= day <= monday + 6
  {
    day - (DayOfWeek(day) + 6) % 7
  }

  /** Day 0 is a Thursday, and the weekdays follow one another. */
  lemma WeekdaysFollow(day: int)
    ensures DayOfWeek(0) == 4 && 0 <= DayOfWeek(day) <= 6
    ensures DayOfWeek(day + 1) == if DayOfWeek(day) == 6 then 0 else DayOfWeek(day) + 1
  {
  }

  /** Two days share a week exactly when the Monday of one is at most six days before the other. */
  lemma SameWeek(day: int, monday: int)
    requires DayOfWeek(monday) == 1
    ensures WeekStart(day) == monday <==> monday <= day <= monday + 6
  {
    assert WeekStart(day) % 7 == 4 && monday % 7 == 4;
    assert (WeekStart(day) - monday) % 7 == 0;
  }

  lemma MondaysAreWeeksApart(a: int, b: int)
    requires DayOfWeek(a) == 1 && DayOfWeek(b) == 1 && a < b
    ensures a + 7 <= b
  {
    assert a % 7 == 4 && b % 7 == 4;
    assert (b - a) % 7 == 0;
  }

  lemma WeekStartIsMonotone(a: int, b: int)
    requires a <= b
    ensures WeekStart(a) <= WeekStart(b)
  {
    if WeekStart(b) < WeekStart(a) {
      MondaysAreWeeksApart(WeekStart(b), WeekStart(a));
    }
  }

  method SortDays(days: seq<int>) returns (sorted: seq<int>)
    requires Distinct(days)
    ensures |sorted| == |days|
    ensures forall i, j | 0 <= i < j < |sorted| :: sorted[i] < sorted[j]
    ensures forall d :: d in sorted <==> d in days
  {
    var earlier := (a: int, b: int) => a < b;
    sorted := Sort(days, earlier);
    SortIsAscending(days, earlier);
    assert forall i, j | 0 <= i < j < |sorted| :: earlier(sorted[i], sorted[j]);
  }
}
