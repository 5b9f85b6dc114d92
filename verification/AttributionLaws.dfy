/** What every attribution-trend report satisfies (src/lib/attribution-trend.ts). */
module AttributionLaws {
  import opened Calendar
  import opened Rounding
  import opened Shares
  import opened AttributionTrend

  // ---------- The three percentages ----------

  lemma ShareParts(x: real, y: real, z: real, whole: real)
    requires x + y + z == whole && whole > 0.0
    ensures x / whole + y / whole + z / whole == 1.0
  {
    var a, b, c := x / whole, y / whole, z / whole;
    assert a * whole == x && b * whole == y && c * whole == z;
    assert (a + b + c) * whole == a * whole + b * whole + c * whole;
    ScaleStrictly(a + b + c, 1.0, whole);
    ScaleStrictly(1.0, a + b + c, whole);
  }

  ghost predicate AboutHundred(pct: real) {
    pct == 99.9 || pct == 100.0 || pct == 100.1
  }

  lemma RungsTotal(a: nat, b: nat, c: nat, whole: nat)
    requires a + b + c == whole > 0
    ensures AboutHundred(PctOf(a, whole) + PctOf(b, whole) + PctOf(c, whole))
  {
    ShareParts(a as real, b as real, c as real, whole as real);
    var x, y, z := a as real / whole as real * 100.0, b as real / whole as real * 100.0, c as real / whole as real * 100.0;
    ThreeParts(x * 10.0, y * 10.0, z * 10.0, 1000);
    var tenths := Round(x * 10.0) + Round(y * 10.0) + Round(z * 10.0);
    assert PctOf(a, whole) + PctOf(b, whole) + PctOf(c, whole) == tenths as real / 10.0;
    assert tenths == 999 || tenths == 1000 || tenths == 1001;
  }

  /** The rounded percentages of the three rungs total 99.9, 100.0 or 100.1. */
  lemma LadderTotals(r: Trend, rows: seq<Row>, maxWeeks: int)
    requires IsReport(r, rows, maxWeeks) && r.Measured?
    ensures AboutHundred(r.person.pct + r.keyProject.pct + r.account.pct)
  {
    DisplayedSpanIsUsed(r.trend, rows, maxWeeks);
    LadderOfReport(r.trend, DaysBetween(rows, r.trend[0].weekStart, r.trend[|r.trend|-1].weekStart + 7));
  }

  lemma LadderOfReport(trend: seq<Point>, days: Counts)
    requires trend != [] && days.Total() > 0
    ensures var r := Report(trend, days.Total(), days.person, days);
            AboutHundred(r.person.pct + r.keyProject.pct + r.account.pct)
  {
    RungsTotal(days.person, days.keyProject, days.account, days.Total());
  }

  lemma DisplayedSpanIsUsed(trend: seq<Point>, rows: seq<Row>, maxWeeks: int)
    requires IsTrend(trend, rows, maxWeeks) && trend != []
    ensures DaysBetween(rows, trend[0].weekStart, trend[|trend|-1].weekStart + 7).Total() > 0
  {
    var first, last := trend[0].weekStart, trend[|trend|-1].weekStart;
    assert trend[|trend|-1] in trend;
    UsedWeeksAreNotEmpty(rows, last);
    CountsAddUp(rows, first, last, last + 7);
  }

  /** Each of the three totals occurs. */
  lemma EachTotalOccurs()
    ensures PctOf(1, 3) + PctOf(1, 3) + PctOf(1, 3) == 99.9
    ensures PctOf(1, 2) + PctOf(1, 4) + PctOf(1, 4) == 100.0
    ensures PctOf(1, 6) + PctOf(1, 6) + PctOf(4, 6) == 100.1
  {
    assert Round(1000.0 / 3.0) == 333;
    assert Round(500.0) == 500 && Round(250.0) == 250;
    assert Round(1000.0 / 6.0) == 167 && Round(4000.0 / 6.0) == 667;
  }

  // ---------- Usage-days are conserved ----------

  function SharesOf(trend: seq<Point>): (shares: seq<Share>)
    ensures |shares| == |trend|
    ensures forall i | 0 <= i < |trend| :: shares[i] == Share(trend[i].personDays, trend[i].totalDays)
  {
    seq(|trend|, i requires 0 <= i < |trend| => Share(trend[i].personDays, trend[i].totalDays))
  }

  lemma {:induction false} SumsOfBuckets(shown: seq<Bucket>, shares: seq<Share>)
    requires |shown| == |shares|
    requires forall i | 0 <= i < |shown| :: shares[i] == Share(shown[i].person, shown[i].total)
    ensures SumParts(shares) == SumBuckets(shown).person && SumWholes(shares) == SumBuckets(shown).total
  {
    if shown != [] {
      SumsOfBuckets(shown[..|shown|-1], shares[..|shown|-1]);
      SumLast(shares);
    }
  }

  function BucketsOf(trend: seq<Point>, rows: seq<Row>): (shown: seq<Bucket>)
    ensures |shown| == |trend|
    ensures forall i | 0 <= i < |trend| :: shown[i] == BucketFor(rows, trend[i].weekStart)
  {
    seq(|trend|, i requires 0 <= i < |trend| => BucketFor(rows, trend[i].weekStart))
  }

  lemma WeeksOfTrend(trend: seq<Point>, rows: seq<Row>, maxWeeks: int)
    requires trend != [] && IsTrend(trend, rows, maxWeeks)
    ensures var days := DaysBetween(rows, trend[0].weekStart, trend[|trend|-1].weekStart + 7);
            SumParts(SharesOf(trend)) == days.person && SumWholes(SharesOf(trend)) == days.Total()
  {
    var shown := BucketsOf(trend, rows);
    forall i | 0 <= i < |trend| ensures SharesOf(trend)[i] == Share(shown[i].person, shown[i].total) {
      assert trend[i] in trend;
    }
    SumsOfBuckets(shown, SharesOf(trend));
    AggregateIsSpan(shown, trend, rows, maxWeeks);
  }

  // A report is fixed by its trend and the counts of the displayed span.
  lemma ReportCounts(r: Trend, rows: seq<Row>, maxWeeks: int) returns (days: Counts)
    requires IsReport(r, rows, maxWeeks) && r.Measured?
    ensures r.trend != [] && IsTrend(r.trend, rows, maxWeeks)
    ensures days == DaysBetween(rows, r.trend[0].weekStart, r.trend[|r.trend|-1].weekStart + 7)
    ensures r == Report(r.trend, days.Total(), days.person, days)
  {
    days := DaysBetween(rows, r.trend[0].weekStart, r.trend[|r.trend|-1].weekStart + 7);
  }

  /** Usage-days are conserved: the weeks add up to the totals, and to the rungs of the ladder. */
  lemma UsageDaysAreConserved(r: Trend, rows: seq<Row>, maxWeeks: int)
    requires IsReport(r, rows, maxWeeks) && r.Measured?
    ensures SumParts(SharesOf(r.trend)) == r.personDays == r.person.days
    ensures SumWholes(SharesOf(r.trend)) == r.totalDays == r.person.days + r.keyProject.days + r.account.days
    ensures r.totalDays > 0
  {
    var days := ReportCounts(r, rows, maxWeeks);
    var person, total := SpanCounts(r.trend, rows, maxWeeks, days);
    DaysOfReport(r, days);
  }

  lemma SpanCounts(trend: seq<Point>, rows: seq<Row>, maxWeeks: int, days: Counts) returns (person: nat, total: nat)
    requires trend != [] && IsTrend(trend, rows, maxWeeks)
    requires days == DaysBetween(rows, trend[0].weekStart, trend[|trend|-1].weekStart + 7)
    ensures person == SumParts(SharesOf(trend)) == days.person
    ensures total == SumWholes(SharesOf(trend)) == days.Total() > 0
  {
    WeeksOfTrend(trend, rows, maxWeeks);
    DisplayedSpanIsUsed(trend, rows, maxWeeks);
    person, total := days.person, days.Total();
  }

  lemma DaysOfReport(r: Trend, days: Counts)
    requires r.Measured? && r.trend != [] && r == Report(r.trend, days.Total(), days.person, days)
    ensures days.person == r.personDays == r.person.days
    ensures days.Total() == r.totalDays == r.person.days + r.keyProject.days + r.account.days
  {
  }

  lemma LatestWeekEndsLast(trend: seq<Point>, rows: seq<Row>, maxWeeks: int, row: Row)
    requires trend != [] && IsTrend(trend, rows, maxWeeks) && row in rows && LevelOf(row.attribution).Some?
    ensures row.day < trend[|trend|-1].weekStart + 7
  {
    var last := trend[|trend|-1];
    var w := WeekStart(row.day);
    assert w in UsedWeeks(rows) && last in trend;
    if trend[0].weekStart <= w {
      var i :| 0 <= i < |trend| && trend[i].weekStart == w;
      assert w <= last.weekStart;
    } else {
      assert w < last.weekStart;
    }
  }

  /** A report covers the rows from its first week on: nothing it counts comes before, and no known row comes after. */
  lemma NoRowAfterTheTrend(r: Trend, rows: seq<Row>, maxWeeks: int, later: int)
    requires IsReport(r, rows, maxWeeks) && r.Measured?
    requires r.trend[|r.trend|-1].weekStart + 7 <= later
    ensures DaysBetween(rows, r.trend[0].weekStart, later) ==
            Counts(r.person.days, r.keyProject.days, r.account.days)
  {
    var first, end := r.trend[0].weekStart, r.trend[|r.trend|-1].weekStart + 7;
    forall row | row in rows && LevelOf(row.attribution).Some? ensures !(end <= row.day < later) {
      LatestWeekEndsLast(r.trend, rows, maxWeeks, row);
    }
    GapsAreEmpty(rows, end, later);
    TrendIsContiguous(r.trend, rows, maxWeeks);
    assert first <= end by {
      if |r.trend| > 1 {
        TrendIsApart(r.trend, rows, maxWeeks, 0, |r.trend| - 1);
      }
    }
    CountsAddUp(rows, first, end, later);
  }

  // ---------- Headline, window and delta ----------

  lemma PointsHaveUsage(trend: seq<Point>, rows: seq<Row>, maxWeeks: int, p: Point)
    requires IsTrend(trend, rows, maxWeeks) && p in trend
    ensures p.totalDays > 0 && p.pct == PctOf(p.personDays, p.totalDays)
  {
    UsedWeeksAreNotEmpty(rows, p.weekStart);
  }

  /**
   The headline is the last point of the trend, the window share is the person rung, and the delta
   compares the first and the last point without any loss to its rounding. One week has no delta.
   */
  lemma OneSeriesOfNumbers(r: Trend, rows: seq<Row>, maxWeeks: int)
    requires IsReport(r, rows, maxWeeks) && r.Measured?
    ensures r.currentPct == r.trend[|r.trend|-1].pct && r.windowPct == r.person.pct
    ensures r.currentWeekStart == r.trend[|r.trend|-1].weekStart
    ensures r.delta.First? <==> |r.trend| == 1
    ensures r.delta.Delta? ==>
              && r.delta.currentPct == r.currentPct
              && r.delta.previousPct == r.trend[0].pct
              && r.delta.deltaPct == r.currentPct - r.trend[0].pct
              && r.delta.previousWeekStart == r.trend[0].weekStart < r.currentWeekStart
  {
    var p, q := r.trend[0], r.trend[|r.trend|-1];
    PointsHaveUsage(r.trend, rows, maxWeeks, p);
    PointsHaveUsage(r.trend, rows, maxWeeks, q);
    RoundedDifference(p.personDays, p.totalDays, q.personDays, q.totalDays);
  }

  lemma RoundedDifference(a: nat, b: nat, c: nat, d: nat)
    requires b > 0 && d > 0
    ensures RoundTo1(PctOf(c, d) - PctOf(a, b)) == PctOf(c, d) - PctOf(a, b)
  {
    RoundTo1OfDifference(a as real / b as real * 100.0, c as real / d as real * 100.0);
  }

  /** The window share lies between the smallest and the largest weekly share. */
  lemma WindowIsAmongWeeks(r: Trend, rows: seq<Row>, maxWeeks: int) returns (low: Point, high: Point)
    requires IsReport(r, rows, maxWeeks) && r.Measured?
    ensures low in r.trend && high in r.trend
    ensures low.pct <= r.windowPct <= high.pct
  {
    forall p | p in r.trend ensures p.totalDays > 0 && p.pct == PctOf(p.personDays, p.totalDays) {
      PointsHaveUsage(r.trend, rows, maxWeeks, p);
    }
    UsageDaysAreConserved(r, rows, maxWeeks);
    low, high := AmongWeeks(r.trend, r.personDays, r.totalDays);
  }

  lemma AmongWeeks(trend: seq<Point>, person: nat, total: nat) returns (low: Point, high: Point)
    requires trend != [] && person == SumParts(SharesOf(trend)) && total == SumWholes(SharesOf(trend)) > 0
    requires forall p | p in trend :: p.totalDays > 0 && p.pct == PctOf(p.personDays, p.totalDays)
    ensures low in trend && high in trend
    ensures low.pct <= PctOf(person, total) <= high.pct
  {
    var shares := SharesOf(trend);
    var below, above := TotalIsAmong(shares, Share(person, total));
    var i :| 0 <= i < |shares| && shares[i] == below;
    var j :| 0 <= j < |shares| && shares[j] == above;
    low, high := trend[i], trend[j];
    PctFollows(below, Share(person, total));
    PctFollows(Share(person, total), above);
  }

  lemma PctFollows(a: Share, b: Share)
    requires NoHigher(a, b)
    ensures PctOf(a.part, a.whole) <= PctOf(b.part, b.whole)
  {
  }

  /** The trend has at most the requested number of weeks, and all used weeks when there are no more than that. */
  lemma TrendLength(r: Trend, rows: seq<Row>, maxWeeks: int)
    requires IsReport(r, rows, maxWeeks) && maxWeeks > 0
    ensures r.Measured? <==> UsedWeeks(rows) != {}
    ensures r.Measured? ==> |r.trend| <= maxWeeks && |r.trend| <= |UsedWeeks(rows)|
    ensures r.Measured? && |r.trend| < maxWeeks ==> |r.trend| == |UsedWeeks(rows)|
  {
    assert UsedWeeks(rows) != {} ==> |UsedWeeks(rows)| > 0;
  }

  /**
   The length for every option: the number of used weeks, or the option when that is positive and smaller. An
   option of zero shows all of them, and a negative one drops as many of the earliest.
   */
  lemma TrendLengthExactly(r: Trend, rows: seq<Row>, maxWeeks: int)
    requires IsReport(r, rows, maxWeeks) && r.Measured?
    ensures |r.trend| == if 0 < maxWeeks < |UsedWeeks(rows)| then maxWeeks
                         else if maxWeeks < 0 then |UsedWeeks(rows)| + maxWeeks else |UsedWeeks(rows)|
  {
  }

  // ---------- The numbers of a report, from its rows ----------

  // The rows of one level from lo up to, but not including, hi.
  function RowsOfLevel(rows: seq<Row>, level: string, lo: int, hi: int): set<int> {
    set i | 0 <= i < |rows| && rows[i].attribution == level && lo <= rows[i].day < hi
  }

  lemma RowsOfLevelExtend(rows: seq<Row>, level: string, lo: int, hi: int)
    requires rows != []
    ensures var last := rows[|rows|-1];
            |RowsOfLevel(rows, level, lo, hi)| == |RowsOfLevel(rows[..|rows|-1], level, lo, hi)|
            + if last.attribution == level && lo <= last.day < hi then 1 else 0
  {
    var n := |rows| - 1;
    var before := RowsOfLevel(rows[..n], level, lo, hi);
    if rows[n].attribution == level && lo <= rows[n].day < hi {
      assert RowsOfLevel(rows, level, lo, hi) == before + {n};
    } else {
      assert RowsOfLevel(rows, level, lo, hi) == before;
    }
  }

  /** The counts of an interval of days are the numbers of its rows of the three levels. */
  lemma {:induction false} CountsExactly(rows: seq<Row>, lo: int, hi: int)
    ensures DaysBetween(rows, lo, hi) ==
            Counts(|RowsOfLevel(rows, "person", lo, hi)|, |RowsOfLevel(rows, "key_project", lo, hi)|,
                   |RowsOfLevel(rows, "account", lo, hi)|)
  {
    if rows != [] {
      CountsExactly(rows[..|rows|-1], lo, hi);
      RowsOfLevelExtend(rows, "person", lo, hi);
      RowsOfLevelExtend(rows, "key_project", lo, hi);
      RowsOfLevelExtend(rows, "account", lo, hi);
    }
  }

  /** A week is used exactly when a row of one of the three levels falls on one of its days. */
  lemma UsedExactly(rows: seq<Row>, monday: int)
    ensures monday in UsedWeeks(rows) <==>
            DayOfWeek(monday) == 1 &&
            exists r | r in rows :: (r.attribution == "person" || r.attribution == "key_project" || r.attribution == "account")
                                    && monday <= r.day <= monday + 6
  {
    if r :| r in rows && (r.attribution == "person" || r.attribution == "key_project" || r.attribution == "account")
            && monday <= r.day <= monday + 6 && DayOfWeek(monday) == 1 {
      SameWeek(r.day, monday);
      assert LevelOf(r.attribution).Some?;
    }
  }

  // A percentage with one decimal: the whole number of tenths nearest to the share, with halves going up.
  ghost predicate IsShare(pct: real, part: nat, whole: nat) {
    exists t: int :: pct == t as real / 10.0 && IsNearest(t, 1000 * part, whole)
  }

  lemma PctIsShare(part: nat, whole: nat)
    requires whole > 0
    ensures IsShare(PctOf(part, whole), part, whole)
  {
    var x := part as real / whole as real;
    var y := (1000 * part) as real / whole as real;
    assert x * whole as real == part as real && y * whole as real == 1000.0 * part as real;
    assert (1000.0 * x - y) * whole as real == 0.0;
    assert x * 100.0 * 10.0 == y;
    RoundIsNearest(1000 * part, whole);
    assert PctOf(part, whole) == Round(y) as real / 10.0;
  }

  // The point counts the rows of its week, and its percentage is their share.
  ghost predicate PointIsExact(p: Point, rows: seq<Row>) {
    var lo, hi := p.weekStart, p.weekStart + 7;
    && p.personDays == |RowsOfLevel(rows, "person", lo, hi)|
    && p.totalDays == p.personDays + |RowsOfLevel(rows, "key_project", lo, hi)| + |RowsOfLevel(rows, "account", lo, hi)| > 0
    && IsShare(p.pct, p.personDays, p.totalDays)
  }

  lemma PointExactly(trend: seq<Point>, rows: seq<Row>, maxWeeks: int, p: Point)
    requires IsTrend(trend, rows, maxWeeks) && p in trend
    ensures PointIsExact(p, rows)
  {
    PointsHaveUsage(trend, rows, maxWeeks, p);
    CountsExactly(rows, p.weekStart, p.weekStart + 7);
    PctIsShare(p.personDays, p.totalDays);
  }

  lemma PointsExactly(trend: seq<Point>, rows: seq<Row>, maxWeeks: int)
    requires IsTrend(trend, rows, maxWeeks)
    ensures forall p | p in trend :: PointIsExact(p, rows)
  {
    forall p | p in trend ensures PointIsExact(p, rows) {
      PointExactly(trend, rows, maxWeeks, p);
    }
  }

  // The totals and rungs count the rows of the span, and the percentages are their shares.
  ghost predicate SpanIsExact(r: Trend, rows: seq<Row>, lo: int, hi: int)
    requires r.Measured?
  {
    && r.person.days == r.personDays == |RowsOfLevel(rows, "person", lo, hi)|
    && r.keyProject.days == |RowsOfLevel(rows, "key_project", lo, hi)|
    && r.account.days == |RowsOfLevel(rows, "account", lo, hi)|
    && r.totalDays == r.person.days + r.keyProject.days + r.account.days > 0
    && IsShare(r.windowPct, r.personDays, r.totalDays)
    && IsShare(r.person.pct, r.person.days, r.totalDays)
    && IsShare(r.keyProject.pct, r.keyProject.days, r.totalDays)
    && IsShare(r.account.pct, r.account.days, r.totalDays)
  }

  lemma SpanExactly(trend: seq<Point>, rows: seq<Row>, days: Counts, lo: int, hi: int)
    requires trend != [] && days == DaysBetween(rows, lo, hi) && days.Total() > 0
    ensures SpanIsExact(Report(trend, days.Total(), days.person, days), rows, lo, hi)
  {
    CountsExactly(rows, lo, hi);
    PctIsShare(days.person, days.Total());
    PctIsShare(days.keyProject, days.Total());
    PctIsShare(days.account, days.Total());
  }

  lemma SpanOfReport(r: Trend, rows: seq<Row>, maxWeeks: int)
    requires IsReport(r, rows, maxWeeks) && r.Measured?
    ensures r.trend != [] && SpanIsExact(r, rows, r.trend[0].weekStart, r.trend[|r.trend|-1].weekStart + 7)
  {
    var lo, hi := r.trend[0].weekStart, r.trend[|r.trend|-1].weekStart + 7;
    DisplayedSpanIsUsed(r.trend, rows, maxWeeks);
    SpanExactly(r.trend, rows, DaysBetween(rows, lo, hi), lo, hi);
  }

  /**
   Every number of a measured report, from the rows: each point counts the rows of its week and reports their
   person share; the totals and the three rungs count the rows from the first displayed Monday to the end of
   the last displayed week; and every percentage is the nearest tenth, with halves going up.
   */
  lemma ReportExactly(r: Trend, rows: seq<Row>, maxWeeks: int)
    requires IsReport(r, rows, maxWeeks) && r.Measured?
    ensures r.trend != [] && forall p | p in r.trend :: PointIsExact(p, rows)
    ensures SpanIsExact(r, rows, r.trend[0].weekStart, r.trend[|r.trend|-1].weekStart + 7)
  {
    PointsExactly(r.trend, rows, maxWeeks);
    SpanOfReport(r, rows, maxWeeks);
  }

  /** The source promises a report for any rows; it keeps that promise unless a negative option drops every used week. */
  lemma FailsExactlyWhen(r: Trend, rows: seq<Row>, maxWeeks: int)
    requires IsReport(r, rows, maxWeeks)
    ensures r.Failed? <==> 0 < |UsedWeeks(rows)| <= -maxWeeks
  {
    if UsedWeeks(rows) != {} {
      assert |UsedWeeks(rows)| > 0;
    }
  }

  /** It occurs: with one used week and a weeks option of -1, the report fails. */
  lemma NegativeWeeksFail() returns (rows: seq<Row>)
    ensures UsedWeeks(rows) != {} && IsReport(Failed, rows, -1)
  {
    rows := [Row(4, "person")];
    OneUsedWeek(rows[0]);
  }

  lemma OneUsedWeek(row: Row)
    requires row.attribution == "person"
    ensures UsedWeeks([row]) == {WeekStart(row.day)} && |UsedWeeks([row])| == 1
  {
    assert row in [row] && LevelOf(row.attribution).Some?;
    assert UsedWeeks([row]) == {WeekStart(row.day)};
  }

  // ---------- Rows in any order ----------

  // rows has the counts of rest and those of r.
  ghost predicate Adds(rows: seq<Row>, rest: seq<Row>, r: Row, lo: int, hi: int) {
    DaysBetween(rows, lo, hi) == DaysBetween(rest, lo, hi).Plus(RowCounts(r, lo, hi))
  }

  lemma LastAdds(front: seq<Row>, last: Row, lo: int, hi: int)
    ensures Adds(front + [last], front, last, lo, hi)
  {
    assert (front + [last])[..|front|] == front;
  }

  lemma AddsBeneath(front: seq<Row>, rest: seq<Row>, r: Row, last: Row, lo: int, hi: int)
    requires Adds(front, rest, r, lo, hi)
    ensures Adds(front + [last], rest + [last], r, lo, hi)
  {
    LastAdds(front, last, lo, hi);
    LastAdds(rest, last, lo, hi);
    SwapAdded(DaysBetween(rest, lo, hi), RowCounts(r, lo, hi), RowCounts(last, lo, hi));
  }

  lemma SwapAdded(a: Counts, b: Counts, c: Counts)
    ensures a.Plus(b).Plus(c) == a.Plus(c).Plus(b)
  {
  }

  lemma {:induction false} RemoveRow(rows: seq<Row>, k: nat, lo: int, hi: int)
    requires k < |rows|
    ensures Adds(rows, rows[..k] + rows[k+1..], rows[k], lo, hi)
  {
    var front, last := rows[..|rows|-1], rows[|rows|-1];
    assert rows == front + [last];
    if k == |rows| - 1 {
      assert rows[..k] + rows[k+1..] == front;
      LastAdds(front, last, lo, hi);
    } else {
      RemoveRow(front, k, lo, hi);
      AddsBeneath(front, front[..k] + front[k+1..], rows[k], last, lo, hi);
      assert rows[..k] + rows[k+1..] == (front[..k] + front[k+1..]) + [last];
    }
  }

  lemma {:induction false} CountsIgnoreOrder(rows: seq<Row>, rows': seq<Row>, lo: int, hi: int)
    requires multiset(rows) == multiset(rows')
    ensures DaysBetween(rows, lo, hi) == DaysBetween(rows', lo, hi)
  {
    assert |multiset(rows)| == |rows| && |multiset(rows')| == |rows'|;
    if rows != [] {
      var last, front := rows[|rows|-1], rows[..|rows|-1];
      assert rows == front + [last];
      assert last in multiset(rows');
      var k :| 0 <= k < |rows'| && rows'[k] == last;
      var rest := rows'[..k] + rows'[k+1..];
      assert rows' == rows'[..k] + [last] + rows'[k+1..];
      assert multiset(rest) == multiset(rows') - multiset{last};
      CountsIgnoreOrder(front, rest, lo, hi);
      RemoveRow(rows', k, lo, hi);
      LastAdds(front, last, lo, hi);
    }
  }

  lemma UsedWeeksIgnoreOrder(rows: seq<Row>, rows': seq<Row>)
    requires multiset(rows) == multiset(rows')
    ensures UsedWeeks(rows) == UsedWeeks(rows')
  {
    forall r ensures r in rows <==> r in rows' {
      assert r in multiset(rows) <==> r in multiset(rows');
    }
  }

  // The rows count the same between any two days.
  ghost predicate SameCounts(rows: seq<Row>, rows': seq<Row>) {
    forall lo, hi :: DaysBetween(rows, lo, hi) == DaysBetween(rows', lo, hi)
  }

  lemma SamePoint(rows: seq<Row>, rows': seq<Row>, monday: int)
    requires SameCounts(rows, rows')
    ensures PointFor(rows', monday) == PointFor(rows, monday)
  {
    assert DaysBetween(rows, monday, monday + 7) == DaysBetween(rows', monday, monday + 7);
  }

  lemma SameTrend(trend: seq<Point>, rows: seq<Row>, rows': seq<Row>, maxWeeks: int)
    requires IsTrend(trend, rows, maxWeeks) && UsedWeeks(rows) == UsedWeeks(rows') && SameCounts(rows, rows')
    ensures IsTrend(trend, rows', maxWeeks)
  {
    forall p | p in trend ensures p == PointFor(rows', p.weekStart) {
      SamePoint(rows, rows', p.weekStart);
    }
  }

  // A report depends on the rows only through the used weeks and the counts.
  lemma SameReport(r: Trend, rows: seq<Row>, rows': seq<Row>, maxWeeks: int)
    requires IsReport(r, rows, maxWeeks) && UsedWeeks(rows) == UsedWeeks(rows') && SameCounts(rows, rows')
    ensures IsReport(r, rows', maxWeeks)
  {
    if r.Measured? {
      var first, end := r.trend[0].weekStart, r.trend[|r.trend|-1].weekStart + 7;
      SameTrend(r.trend, rows, rows', maxWeeks);
      assert DaysBetween(rows, first, end) == DaysBetween(rows', first, end);
    }
  }

  /** The order in which rows arrive does not matter: a report of some rows is the report of them in any order. */
  lemma RowOrderDoesNotMatter(r: Trend, rows: seq<Row>, rows': seq<Row>, maxWeeks: int)
    requires multiset(rows) == multiset(rows') && IsReport(r, rows, maxWeeks)
    ensures IsReport(r, rows', maxWeeks)
  {
    UsedWeeksIgnoreOrder(rows, rows');
    forall lo, hi ensures DaysBetween(rows, lo, hi) == DaysBetween(rows', lo, hi) {
      CountsIgnoreOrder(rows, rows', lo, hi);
    }
    SameReport(r, rows, rows', maxWeeks);
  }

  lemma UnknownCountsNothing(rows: seq<Row>, unknown: Row, lo: int, hi: int)
    requires LevelOf(unknown.attribution).None?
    ensures DaysBetween(rows + [unknown], lo, hi) == DaysBetween(rows, lo, hi)
  {
    assert (rows + [unknown])[..|rows|] == rows;
  }

  lemma UnknownUsesNoWeek(rows: seq<Row>, unknown: Row)
    requires LevelOf(unknown.attribution).None?
    ensures UsedWeeks(rows + [unknown]) == UsedWeeks(rows)
  {
    var more := rows + [unknown];
    assert more[..|rows|] == rows;
    assert more[..|rows|+1] == more;
    UsedWeeksExtend(more, |rows|);
  }

  /** A row of an unknown level changes nothing. */
  lemma UnknownLevelsAreIgnored(r: Trend, rows: seq<Row>, unknown: Row, maxWeeks: int)
    requires LevelOf(unknown.attribution).None? && IsReport(r, rows, maxWeeks)
    ensures IsReport(r, rows + [unknown], maxWeeks)
  {
    UnknownUsesNoWeek(rows, unknown);
    forall lo, hi ensures DaysBetween(rows, lo, hi) == DaysBetween(rows + [unknown], lo, hi) {
      UnknownCountsNothing(rows, unknown, lo, hi);
    }
    SameReport(r, rows, rows + [unknown], maxWeeks);
  }
}
