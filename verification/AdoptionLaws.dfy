/** What every agentic-adoption report satisfies (src/lib/agentic-adoption.ts). */
module AdoptionLaws {
  import opened Wrappers
  import opened Calendar
  import opened Rounding
  import opened Shares
  import opened Adoption
  import Strings

  // Every point of a report: the complete weeks and the week to date.
  function Points(trend: seq<Point>, weekToDate: Option<Point>): seq<Point> {
    trend + if weekToDate.Some? then [weekToDate.value] else []
  }

  function SharesOf(points: seq<Point>): (shares: seq<Share>)
    ensures |shares| == |points|
    ensures forall i | 0 <= i < |points| :: shares[i] == Share(points[i].agenticDays, points[i].activeDays)
  {
    seq(|points|, i requires 0 <= i < |points| => Share(points[i].agenticDays, points[i].activeDays))
  }

  function WeekSum(points: seq<Point>, days: set<PersonDay>): nat {
    if points == [] then 0 else |InWeek(days, points[0].weekStart)| + WeekSum(points[1..], days)
  }

  ghost predicate DistinctWeeks(points: seq<Point>) {
    forall i, j | 0 <= i < j < |points| :: points[i].weekStart != points[j].weekStart
  }

  ghost predicate Covers(points: seq<Point>, days: set<PersonDay>) {
    forall k | k in days :: exists p :: p in points && p.weekStart == WeekStart(k.day)
  }

  lemma {:induction false} OtherWeeksOnly(points: seq<Point>, days: set<PersonDay>, monday: int)
    requires forall p | p in points :: p.weekStart != monday
    ensures WeekSum(points, days - InWeek(days, monday)) == WeekSum(points, days)
  {
    if points != [] {
      var p := points[0];
      assert p in points && p.weekStart != monday;
      OtherWeeksOnly(points[1..], days, monday);
      assert InWeek(days - InWeek(days, monday), p.weekStart) == InWeek(days, p.weekStart);
    }
  }

  // Weeks partition the days they cover.
  lemma {:induction false} WeeksPartition(points: seq<Point>, days: set<PersonDay>)
    requires DistinctWeeks(points) && Covers(points, days)
    ensures WeekSum(points, days) == |days|
  {
    if points == [] {
      assert days == {};
    } else {
      var week := InWeek(days, points[0].weekStart);
      var rest := points[1..];
      forall k | k in days - week ensures exists p :: p in rest && p.weekStart == WeekStart(k.day) {
        var p :| p in points && p.weekStart == WeekStart(k.day);
        assert p in rest;
      }
      WeeksPartition(rest, days - week);
      OtherWeeksOnly(rest, days, points[0].weekStart);
      assert days == (days - week) + week;
    }
  }

  lemma {:induction false} SumsAreWeekSums(points: seq<Point>, agentic: set<PersonDay>, active: set<PersonDay>)
    requires forall p | p in points :: IsPoint(p, agentic, active)
    ensures SumWholes(SharesOf(points)) == WeekSum(points, active)
    ensures SumParts(SharesOf(points)) == WeekSum(points, agentic)
  {
    if points != [] {
      assert IsPoint(points[0], agentic, active);
      SumsAreWeekSums(points[1..], agentic, active);
      assert SharesOf(points)[1..] == SharesOf(points[1..]);
    }
  }

  lemma PointsOfTrend(trend: seq<Point>, weekToDate: Option<Point>, agentic: set<PersonDay>, active: set<PersonDay>,
                      windowTo: int)
    requires IsTrend(trend, weekToDate, agentic, active, windowTo)
    ensures var points := Points(trend, weekToDate);
            && DistinctWeeks(points)
            && Covers(points, active)
            && (forall p | p in points :: IsPoint(p, agentic, active))
  {
    var points := Points(trend, weekToDate);
    forall k | k in active ensures exists p :: p in points && p.weekStart == WeekStart(k.day) {
      if Complete(WeekStart(k.day), windowTo) {
        var p :| p in trend && p.weekStart == WeekStart(k.day);
        assert p in points;
      } else {
        assert weekToDate.value in points;
      }
    }
    forall i, j | 0 <= i < j < |points| ensures points[i].weekStart != points[j].weekStart {
      assert points[i] in trend;
    }
  }

  /** Person-days are conserved: the weekly counts add up to the headline counts. */
  lemma PersonDaysAreConserved(result: Adoption, agentic: set<PersonDay>, active: set<PersonDay>, windowTo: int)
    requires IsMeasured(result, agentic, active, windowTo) && agentic <= active
    ensures SumWholes(SharesOf(Points(result.trend, result.weekToDate))) == result.activeDays
    ensures SumParts(SharesOf(Points(result.trend, result.weekToDate))) == result.agenticDays
  {
    var points := Points(result.trend, result.weekToDate);
    PointsOfTrend(result.trend, result.weekToDate, agentic, active, windowTo);
    SumsAreWeekSums(points, agentic, active);
    WeeksPartition(points, active);
    WeeksPartition(points, agentic);
  }

  // ---------- The headline rate lies among the weekly rates ----------

  lemma AmongPoints(points: seq<Point>, agentic: nat, active: nat) returns (low: Point, high: Point)
    requires points != [] && agentic == SumParts(SharesOf(points)) && active == SumWholes(SharesOf(points)) > 0
    requires forall p | p in points :: p.activeDays > 0 && p.ratePct == RatePct(p.agenticDays, p.activeDays)
    ensures low in points && high in points
    ensures low.ratePct <= RatePct(agentic, active) <= high.ratePct
    ensures NoHigher(Share(low.agenticDays, low.activeDays), Share(agentic, active))
    ensures NoHigher(Share(agentic, active), Share(high.agenticDays, high.activeDays))
  {
    var shares := SharesOf(points);
    var below, above := TotalIsAmong(shares, Share(agentic, active));
    var i :| 0 <= i < |shares| && shares[i] == below;
    var j :| 0 <= j < |shares| && shares[j] == above;
    low, high := points[i], points[j];
  }

  /**
   The headline rate lies between the smallest and the largest weekly rate, before and after
   rounding.
   */
  lemma HeadlineIsAmongWeeks(result: Adoption, agentic: set<PersonDay>, active: set<PersonDay>, windowTo: int)
    returns (low: Point, high: Point)
    requires IsMeasured(result, agentic, active, windowTo) && agentic <= active
    ensures low in Points(result.trend, result.weekToDate) && high in Points(result.trend, result.weekToDate)
    ensures low.ratePct <= result.ratePct <= high.ratePct
    ensures NoHigher(Share(low.agenticDays, low.activeDays), Share(result.agenticDays, result.activeDays))
    ensures NoHigher(Share(result.agenticDays, result.activeDays), Share(high.agenticDays, high.activeDays))
  {
    var points := Points(result.trend, result.weekToDate);
    PersonDaysAreConserved(result, agentic, active, windowTo);
    PointsOfTrend(result.trend, result.weekToDate, agentic, active, windowTo);
    forall p | p in points ensures p.activeDays > 0 && p.ratePct == RatePct(p.agenticDays, p.activeDays) {
      assert IsPoint(p, agentic, active);
    }
    low, high := AmongPoints(points, result.agenticDays, result.activeDays);
  }

  /** Agentic days are active days, so every measured rate is a percentage. */
  lemma RateIsAPercentage(result: Adoption, agentic: set<PersonDay>, active: set<PersonDay>, windowTo: int)
    requires IsMeasured(result, agentic, active, windowTo) && agentic <= active
    ensures result.agenticDays <= result.activeDays
    ensures 0.0 <= result.ratePct <= 100.0
    ensures result.agenticDays == result.activeDays ==> result.ratePct == 100.0
  {
    SubsetSize(agentic, active);
    PercentageRange(result.agenticDays, result.activeDays);
  }

  lemma PercentageRange(agentic: nat, active: nat)
    requires agentic <= active && active > 0
    ensures 0.0 <= RatePct(agentic, active) <= 100.0
    ensures agentic == active ==> RatePct(agentic, active) == 100.0
  {
    AtMostOrdersPercents(Share(agentic, active), Share(1, 1));
    AtMostOrdersPercents(Share(0, 1), Share(agentic, active));
    WholeRates();
    if agentic == active {
      AtMostOrdersPercents(Share(1, 1), Share(agentic, active));
    }
  }

  lemma WholeRates()
    ensures RatePct(0, 1) == 0.0 && RatePct(1, 1) == 100.0
  {
    RoundOfInteger(0);
    RoundOfInteger(10000);
    assert RoundTo2(0.0) == 0.0 && RoundTo2(100.0) == 100.0;
  }

  // A percentage with two decimals: a whole number of hundredths, the one nearest to the share, with halves going up.
  ghost predicate IsRate(ratePct: real, agentic: nat, active: nat) {
    exists h: int :: ratePct == h as real / 100.0 && IsNearest(h, 10000 * agentic, active)
  }

  lemma RatePctIsRate(agentic: nat, active: nat)
    requires active > 0
    ensures IsRate(RatePct(agentic, active), agentic, active)
  {
    var x := agentic as real / active as real;
    var y := (10000 * agentic) as real / active as real;
    assert x * active as real == agentic as real && y * active as real == 10000.0 * agentic as real;
    assert (10000.0 * x - y) * active as real == 0.0;
    assert x * 100.0 * 100.0 == y;
    RoundIsNearest(10000 * agentic, active);
    assert RatePct(agentic, active) == Round(y) as real / 100.0;
  }

  /**
   Every reported rate, of the window, of each complete week and of the week to date, is the share of its own
   agentic days in its own active days as a percentage with two decimals.
   */
  lemma RatesAreShares(result: Adoption, agentic: set<PersonDay>, active: set<PersonDay>, windowTo: int)
    requires IsMeasured(result, agentic, active, windowTo)
    ensures result.activeDays > 0 && IsRate(result.ratePct, result.agenticDays, result.activeDays)
    ensures forall p | p in result.trend :: p.activeDays > 0 && IsRate(p.ratePct, p.agenticDays, p.activeDays)
    ensures result.weekToDate.Some? ==>
              var p := result.weekToDate.value; p.activeDays > 0 && IsRate(p.ratePct, p.agenticDays, p.activeDays)
  {
    RatePctIsRate(result.agenticDays, result.activeDays);
    forall p | p in result.trend ensures p.activeDays > 0 && IsRate(p.ratePct, p.agenticDays, p.activeDays) {
      assert IsPoint(p, agentic, active);
      RatePctIsRate(p.agenticDays, p.activeDays);
    }
    if result.weekToDate.Some? {
      RatePctIsRate(result.weekToDate.value.agenticDays, result.weekToDate.value.activeDays);
    }
  }

  // ---------- The window holds at most twelve complete weeks ----------

  lemma {:induction false} SevenDaysApart(trend: seq<Point>, n: nat)
    requires n < |trend|
    requires forall p | p in trend :: DayOfWeek(p.weekStart) == 1
    requires forall i, j | 0 <= i < j < |trend| :: trend[i].weekStart < trend[j].weekStart
    ensures trend[n].weekStart >= trend[0].weekStart + 7 * n
  {
    if n > 0 {
      SevenDaysApart(trend, n - 1);
      assert trend[n-1] in trend && trend[n] in trend;
      MondaysAreWeeksApart(trend[n-1].weekStart, trend[n].weekStart);
    }
  }

  ghost predicate InWindow(days: set<PersonDay>, windowTo: int) {
    forall k | k in days :: windowTo - (WINDOW_DAYS - 1) <= k.day <= windowTo
  }

  // A complete week with a person-day of the window.
  lemma WeekIsInWindow(p: Point, agentic: set<PersonDay>, active: set<PersonDay>, windowTo: int)
    requires InWindow(active, windowTo)
    requires IsPoint(p, agentic, active) && Complete(p.weekStart, windowTo) && p.endDay == p.weekStart + 6
    ensures DayOfWeek(p.weekStart) == 1
    ensures WeekStart(windowTo - 83) <= p.weekStart <= WeekStart(windowTo) && p.endDay <= windowTo
    ensures p.weekStart == WeekStart(windowTo) || p.endDay < WeekStart(windowTo)
  {
    var k := Pick(InWeek(active, p.weekStart));
    assert k in active;
    WeekStartIsMonotone(windowTo - 83, k.day);
    WeekStartIsMonotone(k.day, windowTo);
    if p.weekStart < WeekStart(windowTo) {
      MondaysAreWeeksApart(p.weekStart, WeekStart(windowTo));
    }
  }

  lemma TwelveWeeksOfTrend(trend: seq<Point>, weekToDate: Option<Point>, agentic: set<PersonDay>, active: set<PersonDay>,
                           windowTo: int)
    requires InWindow(active, windowTo)
    requires IsTrend(trend, weekToDate, agentic, active, windowTo)
    ensures |trend| <= 12
    ensures forall p | p in trend :: DayOfWeek(p.weekStart) == 1 && p.endDay <= windowTo
    ensures weekToDate.Some? ==> forall p | p in trend :: p.endDay < WeekStart(windowTo)
  {
    forall p | p in trend
      ensures DayOfWeek(p.weekStart) == 1 && p.endDay <= windowTo && p.endDay == p.weekStart + 6
      ensures WeekStart(windowTo - 83) <= p.weekStart <= WeekStart(windowTo)
      ensures p.weekStart == WeekStart(windowTo) || p.endDay < WeekStart(windowTo)
    {
      WeekIsInWindow(p, agentic, active, windowTo);
    }
    if trend != [] {
      var first, last := trend[0], trend[|trend|-1];
      assert first in trend && last in trend;
      SevenDaysApart(trend, |trend| - 1);
    }
  }

  /** The trend has at most twelve points, on strictly increasing Mondays, none later than the window. */
  lemma AtMostTwelveWeeks(result: Adoption, agentic: set<PersonDay>, active: set<PersonDay>, windowTo: int)
    requires IsMeasured(result, agentic, active, windowTo) && InWindow(active, windowTo)
    ensures |result.trend| <= 12
    ensures forall i, j | 0 <= i < j < |result.trend| :: result.trend[i].weekStart < result.trend[j].weekStart
    ensures forall p | p in result.trend :: DayOfWeek(p.weekStart) == 1 && p.endDay <= windowTo
    ensures result.weekToDate.Some? ==> forall p | p in result.trend :: p.endDay < WeekStart(windowTo)
  {
    TwelveWeeksOfTrend(result.trend, result.weekToDate, agentic, active, windowTo);
  }

  // ---------- Coverage by connector ----------

  function SumCoverage(coverage: seq<Coverage>): nat {
    if coverage == [] then 0 else coverage[0].agenticDays + SumCoverage(coverage[1..])
  }

  lemma {:induction false} UnionBound(coverage: seq<Coverage>, rows: seq<Row>, links: seq<Link>, windowTo: int,
                                      days: set<PersonDay>)
    requires forall c | c in coverage :: c.agenticDays == |ConnectorDays(rows, links, windowTo, c.connector)|
    requires forall k | k in days ::
               exists c :: c in coverage && k in ConnectorDays(rows, links, windowTo, c.connector)
    ensures SumCoverage(coverage) >= |days|
  {
    if coverage == [] {
      assert days == {};
    } else {
      var mine := ConnectorDays(rows, links, windowTo, coverage[0].connector);
      assert coverage[0] in coverage;
      forall k | k in days - mine
        ensures exists c :: c in coverage[1..] && k in ConnectorDays(rows, links, windowTo, c.connector)
      {
        var c :| c in coverage && k in ConnectorDays(rows, links, windowTo, c.connector);
        assert c in coverage[1..];
      }
      UnionBound(coverage[1..], rows, links, windowTo, days - mine);
      SubsetSize(days, (days - mine) + mine);
    }
  }

  /** Each connector contributes at most the number of agentic days, and together they contribute at least it. */
  lemma CoverageBounds(coverage: seq<Coverage>, agentRows: seq<Row>, links: seq<Link>, windowTo: int)
    requires IsCoverage(coverage, agentRows, links, windowTo)
    ensures var agenticDays := |PersonDays(agentRows, links, windowTo)|;
            && (forall c | c in coverage :: 0 < c.agenticDays <= agenticDays)
            && SumCoverage(coverage) >= agenticDays
  {
    var agentic := PersonDays(agentRows, links, windowTo);
    forall c | c in coverage ensures 0 < c.agenticDays <= |agentic| {
      SubsetSize(ConnectorDays(agentRows, links, windowTo, c.connector), agentic);
    }
    forall k | k in agentic
      ensures exists c :: c in coverage && k in ConnectorDays(agentRows, links, windowTo, c.connector)
    {
      var r :| r in agentRows && Resolved(r, links, windowTo) && DayFor(r, links) == k;
      var c :| c in coverage && c.connector == ConnectorOf(r);
    }
    UnionBound(coverage, agentRows, links, windowTo, agentic);
  }

  // ---------- Person-days, not rows or subjects ----------

  /** A further row for a person-day that is already counted changes no set of the report, whatever its subject. */
  lemma SamePersonDayCountsOnce(rows: seq<Row>, links: seq<Link>, windowTo: int, r: Row, again: Row)
    requires r in rows && Resolved(r, links, windowTo) && Resolved(again, links, windowTo)
    requires PersonOf(links, r.subject) == PersonOf(links, again.subject) && r.day == again.day
    ensures PersonDays(rows + [again], links, windowTo) == PersonDays(rows, links, windowTo)
    ensures Unresolved(rows + [again], links, windowTo) == Unresolved(rows, links, windowTo)
  {
    var more := rows + [again];
    assert more[..|rows|] == rows && more[..|rows|+1] == more;
    RowsExtend(more, |rows|, links, windowTo, "");
    assert DayFor(r, links) in PersonDays(rows, links, windowTo);
  }

  lemma DeltaOfTrend(trend: seq<Point>, agentic: set<PersonDay>, active: set<PersonDay>)
    requires forall p | p in trend :: IsPoint(p, agentic, active)
    ensures WeeklyDelta(trend).First? <==> |trend| < 2
    ensures WeeklyDelta(trend).Delta? ==>
              var delta := WeeklyDelta(trend);
              && delta.current == trend[|trend|-1].ratePct
              && delta.previous == trend[|trend|-2].ratePct
              && delta.delta == delta.current - delta.previous
              && delta.previousWeek == trend[|trend|-2].weekStart && delta.previousEnd == trend[|trend|-2].endDay
  {
    if |trend| >= 2 {
      var p, q := trend[|trend|-2], trend[|trend|-1];
      assert p in trend && q in trend;
      RoundTo2OfDifference(p.agenticDays as real / p.activeDays as real * 100.0,
                           q.agenticDays as real / q.activeDays as real * 100.0);
    }
  }

  /** The delta is exactly the change between the last two complete weeks: its rounding loses nothing. */
  lemma DeltaIsExact(result: Adoption, agentic: set<PersonDay>, active: set<PersonDay>, windowTo: int)
    requires IsMeasured(result, agentic, active, windowTo)
    ensures result.delta.First? <==> |result.trend| < 2
    ensures result.delta.Delta? ==>
              && result.delta.current == result.trend[|result.trend|-1].ratePct
              && result.delta.previous == result.trend[|result.trend|-2].ratePct
              && result.delta.delta == result.delta.current - result.delta.previous
              && result.delta.previousWeek == result.trend[|result.trend|-2].weekStart
              && result.delta.previousEnd == result.trend[|result.trend|-2].endDay
  {
    DeltaOfTrend(result.trend, agentic, active);
  }

  /**
   Every measured report is one of the reports the laws above are about: they hold of whatever
   ComputeAgenticAdoption returns.
   */
  lemma LawsApply(result: Adoption, agentRows: seq<Row>, activeRows: seq<Row>, links: seq<Link>, windowTo: int)
    returns (agentic: set<PersonDay>, active: set<PersonDay>)
    requires IsAdoption(result, agentRows, activeRows, links, windowTo) && result.Measured?
    ensures agentic == PersonDays(agentRows, links, windowTo) != {}
    ensures active == PersonDays(activeRows, links, windowTo) + agentic
    ensures IsMeasured(result, agentic, active, windowTo) && InWindow(active, windowTo)
    ensures IsCoverage(result.coverage, agentRows, links, windowTo)
  {
    agentic := PersonDays(agentRows, links, windowTo);
    active := PersonDays(activeRows, links, windowTo) + agentic;
  }

  // ---------- The report, from its rows ----------

  // The last link of a subject.
  ghost predicate LastLink(links: seq<Link>, i: int, subject: string) {
    0 <= i < |links| && links[i].subject == subject && forall j | i < j < |links| :: links[j].subject != subject
  }

  lemma {:induction false} PersonOfExactly(links: seq<Link>, subject: string)
    ensures PersonOf(links, subject).None? <==> forall l | l in links :: l.subject != subject
    ensures forall i | LastLink(links, i, subject) :: PersonOf(links, subject) == Some(links[i].person)
    ensures PersonOf(links, subject).Some? ==> exists i :: LastLink(links, i, subject)
  {
    if links != [] {
      var n := |links| - 1;
      var front := links[..n];
      assert links == front + [links[n]];
      if links[n].subject == subject {
        assert LastLink(links, n, subject);
      } else {
        PersonOfExactly(front, subject);
        forall i | LastLink(links, i, subject) ensures PersonOf(links, subject) == Some(links[i].person) {
          assert LastLink(front, i, subject);
        }
        if PersonOf(links, subject).Some? {
          var i :| LastLink(front, i, subject);
          assert LastLink(links, i, subject);
        }
      }
    }
  }

  // The row shows that the person was active on the day: a positive value on one of the 84 days that end with
  // the window, of a subject whose last link names the person.
  ghost predicate Shows(r: Row, k: PersonDay, links: seq<Link>, windowTo: int) {
    && r.value > 0.0 && windowTo - 83 <= r.day <= windowTo && r.day == k.day
    && exists i :: LastLink(links, i, r.subject) && links[i].person == k.person
  }

  lemma ShowsExactly(r: Row, k: PersonDay, links: seq<Link>, windowTo: int)
    ensures Shows(r, k, links, windowTo) <==> Resolved(r, links, windowTo) && DayFor(r, links) == k
  {
    PersonOfExactly(links, r.subject);
  }

  /** Which person-days count: those that some row shows. */
  lemma PersonDaysExactly(rows: seq<Row>, links: seq<Link>, windowTo: int, k: PersonDay)
    ensures k in PersonDays(rows, links, windowTo) <==> exists r | r in rows :: Shows(r, k, links, windowTo)
  {
    forall r ensures Shows(r, k, links, windowTo) <==> Resolved(r, links, windowTo) && DayFor(r, links) == k {
      ShowsExactly(r, k, links, windowTo);
    }
  }

  /** Which belong to a connector: those that a row of it shows, where a row without a connector is of an unknown one. */
  lemma ConnectorDaysExactly(rows: seq<Row>, links: seq<Link>, windowTo: int, connector: string, k: PersonDay)
    ensures k in ConnectorDays(rows, links, windowTo, connector) <==>
            exists r | r in rows :: Shows(r, k, links, windowTo)
                                    && connector == if r.connector.Some? then r.connector.value else "unknown"
  {
    forall r ensures Shows(r, k, links, windowTo) <==> Resolved(r, links, windowTo) && DayFor(r, links) == k {
      ShowsExactly(r, k, links, windowTo);
    }
  }

  /** Which subjects are unresolved: those with a row that counts and no link at all. */
  lemma UnresolvedExactly(rows: seq<Row>, links: seq<Link>, windowTo: int, subject: string)
    ensures subject in Unresolved(rows, links, windowTo) <==>
            && (forall l | l in links :: l.subject != subject)
            && exists r | r in rows :: r.subject == subject && r.value > 0.0 && windowTo - 83 <= r.day <= windowTo
  {
    PersonOfExactly(links, subject);
  }

  /** Which of the three kinds of report it is, and the counts it carries. */
  lemma KindExactly(result: Adoption, agentRows: seq<Row>, activeRows: seq<Row>, links: seq<Link>, windowTo: int)
    requires IsAdoption(result, agentRows, activeRows, links, windowTo)
    ensures var agentic := PersonDays(agentRows, links, windowTo);
            var active := PersonDays(activeRows, links, windowTo) + agentic;
            && (result.NoActivity? <==> active == {})
            && (result.NoAgenticData? <==> active != {} && agentic == {})
            && (result.NoAgenticData? ==> result.activeDays == |active|)
            && (result.Measured? ==> result.activeDays == |active| && result.agenticDays == |agentic|)
            && result.unresolved == |Unresolved(activeRows, links, windowTo) + Unresolved(agentRows, links, windowTo)|
  {
  }

  // The days of the seven from the Monday on.
  function DaysOfWeek(days: set<PersonDay>, monday: int): set<PersonDay> {
    set k | k in days && monday <= k.day <= monday + 6
  }

  lemma DaysOfWeekExactly(days: set<PersonDay>, p: Point, active: set<PersonDay>, agentic: set<PersonDay>)
    requires IsPoint(p, agentic, active)
    ensures DayOfWeek(p.weekStart) == 1
    ensures InWeek(days, p.weekStart) == DaysOfWeek(days, p.weekStart)
  {
    var one := Pick(InWeek(active, p.weekStart));
    forall k ensures WeekStart(k) == p.weekStart <==> p.weekStart <= k <= p.weekStart + 6 {
      SameWeek(k, WeekStart(one.day));
    }
  }

  // The point counts the person-days of its week, of which there is one.
  ghost predicate CountsWeek(p: Point, agentic: set<PersonDay>, active: set<PersonDay>) {
    && DayOfWeek(p.weekStart) == 1
    && p.agenticDays == |DaysOfWeek(agentic, p.weekStart)| && p.activeDays == |DaysOfWeek(active, p.weekStart)| > 0
  }

  lemma PointCountsWeek(p: Point, agentic: set<PersonDay>, active: set<PersonDay>)
    requires IsPoint(p, agentic, active)
    ensures CountsWeek(p, agentic, active)
  {
    DaysOfWeekExactly(agentic, p, active, agentic);
    DaysOfWeekExactly(active, p, active, agentic);
  }

  // The day is on the trend, or in the current week when that is not over.
  ghost predicate IsPlotted(k: PersonDay, result: Adoption)
    requires result.Measured?
  {
    || (exists p | p in result.trend :: p.weekStart <= k.day <= p.weekStart + 6)
    || (result.weekToDate.Some? && result.weekToDate.value.weekStart <= k.day <= result.weekToDate.value.weekStart + 6)
  }

  /**
   The trend in full: a point for each whole week of the window with a person-day, from its Monday to its Sunday,
   with the person-days of those seven days; a week that the window cuts off is reported apart, up to the end of
   the window; and every person-day is in one of them.
   */
  lemma TrendExactly(result: Adoption, agentic: set<PersonDay>, active: set<PersonDay>, windowTo: int)
    requires IsMeasured(result, agentic, active, windowTo) && InWindow(active, windowTo)
    ensures forall p | p in result.trend ::
              CountsWeek(p, agentic, active) && p.endDay == p.weekStart + 6 <= windowTo
    ensures result.weekToDate.Some? ==>
              var w := result.weekToDate.value;
              CountsWeek(w, agentic, active) && w.weekStart <= windowTo == w.endDay < w.weekStart + 6
    ensures forall k | k in active :: IsPlotted(k, result)
  {
    forall p | p in result.trend ensures CountsWeek(p, agentic, active) && p.endDay == p.weekStart + 6 <= windowTo {
      PointCountsWeek(p, agentic, active);
      WeekIsInWindow(p, agentic, active, windowTo);
    }
    if result.weekToDate.Some? {
      PointCountsWeek(result.weekToDate.value, agentic, active);
    }
    forall k | k in active ensures IsPlotted(k, result) {
      if Complete(WeekStart(k.day), windowTo) {
        var p :| p in result.trend && p.weekStart == WeekStart(k.day);
      } else {
        assert result.weekToDate.value.weekStart == WeekStart(windowTo);
      }
    }
  }

  /** Coverage in full: each connector with an agentic person-day once, with their number, the largest first and then by name. */
  lemma CoverageExactly(coverage: seq<Coverage>, rows: seq<Row>, links: seq<Link>, windowTo: int)
    requires IsCoverage(coverage, rows, links, windowTo)
    ensures forall c | c in coverage :: c.agenticDays == |ConnectorDays(rows, links, windowTo, c.connector)|
    ensures forall v :: (exists c | c in coverage :: c.connector == v) <==> ConnectorDays(rows, links, windowTo, v) != {}
    ensures forall i, j | 0 <= i < j < |coverage| ::
              && coverage[i].connector != coverage[j].connector
              && coverage[i].agenticDays >= coverage[j].agenticDays
              && (coverage[i].agenticDays == coverage[j].agenticDays ==>
                    Strings.Less(coverage[i].connector, coverage[j].connector))
  {
    forall v | ConnectorDays(rows, links, windowTo, v) != {} ensures exists c | c in coverage :: c.connector == v {
      var r :| r in rows && Resolved(r, links, windowTo) && ConnectorOf(r) == v;
    }
    forall v, c | c in coverage && c.connector == v ensures ConnectorDays(rows, links, windowTo, v) != {} {
      assert |ConnectorDays(rows, links, windowTo, c.connector)| > 0;
    }
    forall i, j | 0 <= i < j < |coverage| ensures CoverageBefore(coverage[i], coverage[j]) {
    }
  }
}
