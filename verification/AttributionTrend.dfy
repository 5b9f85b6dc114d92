/**
 The share of usage-days that vendors attribute to a person, week by week
 (src/lib/attribution-trend.ts and the ladder of src/contracts/attribution.ts).
 */
module AttributionTrend {
  import opened Attribution
  import opened Wrappers
  import opened Calendar
  import opened Rounding
  import opened Sorting

  const DEFAULT_TREND_WEEKS := 12

  datatype Row = Row(day: int, attribution: string)

  datatype Counts = Counts(person: nat, keyProject: nat, account: nat) {
    function At(level: Level): nat {
      match level
      case Person => person
      case KeyProject => keyProject
      case Account => account
    }

    function Plus(other: Counts): Counts {
      Counts(person + other.person, keyProject + other.keyProject, account + other.account)
    }

    function Total(): nat {
      person + keyProject + account
    }
  }

  datatype Bucket = Bucket(total: nat, person: nat, byLevel: Counts)

  datatype Point = Point(weekStart: int, pct: real, personDays: nat, totalDays: nat)

  datatype Delta = First | Delta(currentPct: real, previousPct: real, deltaPct: real, previousWeekStart: int)

  datatype Rung = Rung(days: nat, pct: real)

  // Failed stands for the exception of reading the last point of an empty trend.
  datatype Trend =
    | Empty
    | Failed
    | Measured(currentPct: real, currentWeekStart: int, windowPct: real, personDays: nat, totalDays: nat,
               person: Rung, keyProject: Rung, account: Rung, trend: seq<Point>, delta: Delta)

  function LevelOf(attribution: string): Option<Level> {
    if attribution == "person" then Some(Person)
    else if attribution == "key_project" then Some(KeyProject)
    else if attribution == "account" then Some(Account)
    else None
  }

  function PctOf(numerator: nat, denominator: nat): real {
    if denominator == 0 then 0.0 else RoundTo1(numerator as real / denominator as real * 100.0)
  }

  // ---------- The definition the loops are checked against ----------

  function One(level: Level): Counts {
    match level
    case Person => Counts(1, 0, 0)
    case KeyProject => Counts(0, 1, 0)
    case Account => Counts(0, 0, 1)
  }

  // What one row adds to the days from lo up to, but not including, hi.
  function RowCounts(r: Row, lo: int, hi: int): Counts {
    if LevelOf(r.attribution).Some? && lo <= r.day < hi then One(LevelOf(r.attribution).value) else Counts(0, 0, 0)
  }

  function DaysBetween(rows: seq<Row>, lo: int, hi: int): Counts {
    if rows == [] then Counts(0, 0, 0)
    else DaysBetween(rows[..|rows|-1], lo, hi).Plus(RowCounts(rows[|rows|-1], lo, hi))
  }

  function BucketFor(rows: seq<Row>, monday: int): Bucket {
    var days := DaysBetween(rows, monday, monday + 7);
    Bucket(days.Total(), days.person, days)
  }

  function UsedWeeks(rows: seq<Row>): set<int> {
    set r | r in rows && LevelOf(r.attribution).Some? :: WeekStart(r.day)
  }

  // The length of a slice that starts at minus maxWeeks: a start that is not negative counts from the front.
  function Shown(used: nat, maxWeeks: int): nat {
    if maxWeeks > 0 then (if maxWeeks < used then maxWeeks else used)
    else if used + maxWeeks < 0 then 0
    else used + maxWeeks
  }

  function PointFor(rows: seq<Row>, monday: int): Point {
    var b := BucketFor(rows, monday);
    Point(monday, PctOf(b.person, b.total), b.person, b.total)
  }

  // The latest of the used weeks, in order.
  ghost predicate IsTrend(trend: seq<Point>, rows: seq<Row>, maxWeeks: int) {
    && |trend| == Shown(|UsedWeeks(rows)|, maxWeeks)
    && (forall i, j | 0 <= i < j < |trend| :: trend[i].weekStart < trend[j].weekStart)
    && (forall p | p in trend :: p.weekStart in UsedWeeks(rows) && p == PointFor(rows, p.weekStart))
    && (forall w, p | w in UsedWeeks(rows) && p in trend && trend[0].weekStart <= w ::
          exists q :: q in trend && q.weekStart == w)
  }

  function DeltaOf(trend: seq<Point>): Delta {
    if |trend| < 2 then First
    else
      var first, latest := trend[0], trend[|trend|-1];
      Delta(latest.pct, first.pct, RoundTo1(latest.pct - first.pct), first.weekStart)
  }

  ghost predicate IsReport(r: Trend, rows: seq<Row>, maxWeeks: int) {
    if UsedWeeks(rows) == {} then r == Empty
    else if Shown(|UsedWeeks(rows)|, maxWeeks) == 0 then r == Failed
    else
      && r.Measured?
      && r.trend != []
      && IsTrend(r.trend, rows, maxWeeks)
      && var days := DaysBetween(rows, r.trend[0].weekStart, r.trend[|r.trend|-1].weekStart + 7);
      r == Report(r.trend, days.Total(), days.person, days)
  }

  // ---------- Counting rows by interval ----------

  lemma RowCountsAddUp(r: Row, lo: int, mid: int, hi: int)
    requires lo <= mid <= hi
    ensures RowCounts(r, lo, hi) == RowCounts(r, lo, mid).Plus(RowCounts(r, mid, hi))
  {
  }

  lemma PlusCommutes(a: Counts, b: Counts, c: Counts, d: Counts)
    ensures a.Plus(b).Plus(c.Plus(d)) == a.Plus(c).Plus(b.Plus(d))
  {
  }

  lemma {:induction false} CountsAddUp(rows: seq<Row>, lo: int, mid: int, hi: int)
    requires lo <= mid <= hi
    ensures DaysBetween(rows, lo, hi) == DaysBetween(rows, lo, mid).Plus(DaysBetween(rows, mid, hi))
  {
    if rows != [] {
      var front, last := rows[..|rows|-1], rows[|rows|-1];
      CountsAddUp(front, lo, mid, hi);
      RowCountsAddUp(last, lo, mid, hi);
      PlusCommutes(DaysBetween(front, lo, mid), DaysBetween(front, mid, hi), RowCounts(last, lo, mid), RowCounts(last, mid, hi));
    }
  }

  lemma {:induction false} GapsAreEmpty(rows: seq<Row>, lo: int, hi: int)
    requires forall r | r in rows && LevelOf(r.attribution).Some? :: !(lo <= r.day < hi)
    ensures DaysBetween(rows, lo, hi) == Counts(0, 0, 0)
  {
    if rows != [] {
      var last := rows[|rows|-1];
      assert last in rows;
      assert forall r | r in rows[..|rows|-1] :: r in rows;
      GapsAreEmpty(rows[..|rows|-1], lo, hi);
    }
  }

  lemma {:induction false} KnownRowsCount(rows: seq<Row>, r: Row, lo: int, hi: int)
    requires r in rows && LevelOf(r.attribution).Some? && lo <= r.day < hi
    ensures DaysBetween(rows, lo, hi).Total() > 0
  {
    var front, last := rows[..|rows|-1], rows[|rows|-1];
    if last == r {
      assert RowCounts(r, lo, hi) == One(LevelOf(r.attribution).value);
    } else {
      assert rows == front + [last];
      KnownRowsCount(front, r, lo, hi);
    }
  }

  lemma UsedWeeksAreNotEmpty(rows: seq<Row>, monday: int)
    requires monday in UsedWeeks(rows)
    ensures DaysBetween(rows, monday, monday + 7).Total() > 0
  {
    var r := RowOfWeek(rows, monday);
    KnownRowsCount(rows, r, monday, monday + 7);
  }

  lemma RowOfWeek(rows: seq<Row>, monday: int) returns (r: Row)
    requires monday in UsedWeeks(rows)
    ensures r in rows && LevelOf(r.attribution).Some? && monday <= r.day < monday + 7
  {
    r :| r in rows && LevelOf(r.attribution).Some? && WeekStart(r.day) == monday;
  }

  // ---------- The loops ----------

  ghost predicate HoldsBuckets(buckets: map<int, Bucket>, rows: seq<Row>) {
    && buckets.Keys == UsedWeeks(rows)
    && (forall w | w in buckets :: buckets[w] == BucketFor(rows, w))
  }

  lemma UsedWeeksExtend(rows: seq<Row>, i: nat)
    requires i < |rows|
    ensures UsedWeeks(rows[..i+1]) ==
            UsedWeeks(rows[..i]) + if LevelOf(rows[i].attribution).Some? then {WeekStart(rows[i].day)} else {}
  {
    assert rows[..i+1] == rows[..i] + [rows[i]];
    assert forall r :: r in rows[..i+1] <==> r in rows[..i] || r == rows[i];
  }

  function Increment(b: Bucket, level: Level): Bucket {
    Bucket(b.total + 1, if level == Person then b.person + 1 else b.person, b.byLevel.Plus(One(level)))
  }

  function AddRow(buckets: map<int, Bucket>, wk: int, level: Level): map<int, Bucket> {
    buckets[wk := Increment(Get(buckets, wk), level)]
  }

  function Get(buckets: map<int, Bucket>, w: int): Bucket {
    if w in buckets then buckets[w] else Bucket(0, 0, Counts(0, 0, 0))
  }

  predicate In(r: Row, w: int) {
    LevelOf(r.attribution).Some? && w <= r.day < w + 7
  }

  // A used week is a Monday, so a day is in it exactly when it is the week of that day.
  lemma InIsSameWeek(rows: seq<Row>, w: int, r: Row)
    requires w in UsedWeeks(rows)
    ensures In(r, w) <==> LevelOf(r.attribution).Some? && WeekStart(r.day) == w
  {
    var s :| s in rows && LevelOf(s.attribution).Some? && WeekStart(s.day) == w;
    SameWeek(r.day, WeekStart(s.day));
  }

  lemma BucketForNext(rows: seq<Row>, i: nat, w: int)
    requires i < |rows|
    ensures In(rows[i], w) ==>
              BucketFor(rows[..i+1], w) == Increment(BucketFor(rows[..i], w), LevelOf(rows[i].attribution).value)
    ensures !In(rows[i], w) ==> BucketFor(rows[..i+1], w) == BucketFor(rows[..i], w)
  {
    assert rows[..i+1][..i] == rows[..i];
  }

  // A week that other rows use and these do not has an empty bucket.
  lemma UnusedBucket(rows: seq<Row>, others: seq<Row>, w: int)
    requires w in UsedWeeks(others) && w !in UsedWeeks(rows)
    ensures BucketFor(rows, w) == Bucket(0, 0, Counts(0, 0, 0))
  {
    forall r | r in rows && LevelOf(r.attribution).Some? ensures !(w <= r.day < w + 7) {
      InIsSameWeek(others, w, r);
      assert WeekStart(r.day) in UsedWeeks(rows);
    }
    GapsAreEmpty(rows, w, w + 7);
  }

  lemma BucketsExtend(buckets: map<int, Bucket>, rows: seq<Row>, i: nat)
    requires i < |rows| && HoldsBuckets(buckets, rows[..i])
    ensures var known := LevelOf(rows[i].attribution);
            HoldsBuckets(if known.Some? then AddRow(buckets, WeekStart(rows[i].day), known.value) else buckets, rows[..i+1])
  {
    var known, wk := LevelOf(rows[i].attribution), WeekStart(rows[i].day);
    var after := if known.Some? then AddRow(buckets, wk, known.value) else buckets;
    UsedWeeksExtend(rows, i);
    assert forall w :: w in after <==> w in UsedWeeks(rows[..i+1]);
    forall w | w in after ensures after[w] == BucketFor(rows[..i+1], w) {
      InIsSameWeek(rows[..i+1], w, rows[i]);
      BucketForNext(rows, i, w);
      if w !in buckets {
        UnusedBucket(rows[..i], rows[..i+1], w);
      }
    }
  }

  method Buckets(rows: seq<Row>) returns (order: seq<int>, weekMap: map<int, Bucket>)
    ensures Keyed(order, weekMap) && HoldsBuckets(weekMap, rows)
  {
    order, weekMap := [], map[];
    for i := 0 to |rows|
      invariant Keyed(order, weekMap) && HoldsBuckets(weekMap, rows[..i])
    {
      var row := rows[i];
      var known := LevelOf(row.attribution);
      BucketsExtend(weekMap, rows, i);
      if known.Some? {
        var wk := WeekStart(row.day);
        order := if wk in weekMap then order else order + [wk];
        weekMap := AddRow(weekMap, wk, known.value);
      }
    }
    assert rows[..|rows|] == rows;
  }

  // The first index kept by a slice that starts at minus maxWeeks.
  function SliceStart(length: nat, maxWeeks: int): nat {
    var start := -maxWeeks;
    if start < 0 then (if length + start < 0 then 0 else length + start)
    else if start < length then start
    else length
  }

  lemma NoneBetween(rows: seq<Row>, a: int, b: int)
    requires forall w | w in UsedWeeks(rows) :: w <= a || b <= w
    ensures DaysBetween(rows, a + 7, b) == Counts(0, 0, 0)
  {
    forall r | r in rows && LevelOf(r.attribution).Some? ensures !(a + 7 <= r.day < b) {
      var w := WeekStart(r.day);
      assert w in UsedWeeks(rows);
    }
    GapsAreEmpty(rows, a + 7, b);
  }

  lemma BridgeGap(rows: seq<Row>, first: int, a: int, b: int, end: int)
    requires first <= a <= b <= end && DaysBetween(rows, a, b) == Counts(0, 0, 0)
    ensures DaysBetween(rows, first, end) == DaysBetween(rows, first, a).Plus(DaysBetween(rows, b, end))
  {
    CountsAddUp(rows, first, a, end);
    CountsAddUp(rows, a, b, end);
  }

  lemma UsedWeeksAreApart(rows: seq<Row>, a: int, b: int)
    requires a in UsedWeeks(rows) && b in UsedWeeks(rows) && a < b
    ensures a + 7 <= b
  {
    var r :| r in rows && LevelOf(r.attribution).Some? && WeekStart(r.day) == a;
    var s :| s in rows && LevelOf(s.attribution).Some? && WeekStart(s.day) == b;
    MondaysAreWeeksApart(WeekStart(r.day), WeekStart(s.day));
  }

  // Consecutive used weeks in ascending order, up to the last one.
  ghost predicate Latest(weeks: seq<int>, rows: seq<Row>) {
    && (forall i, j | 0 <= i < j < |weeks| :: weeks[i] < weeks[j])
    && (forall i | 0 <= i < |weeks| :: weeks[i] in UsedWeeks(rows))
    && (forall w | w in UsedWeeks(rows) && |weeks| > 0 && weeks[0] <= w :: w in weeks)
  }

  // Weeks that hold every row from the first of them to the last.
  ghost predicate Contiguous(trend: seq<Point>, rows: seq<Row>) {
    forall i, j | 0 <= i < j == i + 1 < |trend| :: Adjacent(rows, trend[0], trend[i], trend[j])
  }

  ghost predicate Adjacent(rows: seq<Row>, first: Point, p: Point, q: Point) {
    && first.weekStart <= p.weekStart <= q.weekStart - 7
    && DaysBetween(rows, p.weekStart + 7, q.weekStart) == Counts(0, 0, 0)
  }

  lemma TrendIsApart(trend: seq<Point>, rows: seq<Row>, maxWeeks: int, i: nat, j: nat)
    requires IsTrend(trend, rows, maxWeeks) && i < j < |trend|
    ensures trend[i].weekStart + 7 <= trend[j].weekStart
  {
    assert trend[i] in trend && trend[j] in trend;
    UsedWeeksAreApart(rows, trend[i].weekStart, trend[j].weekStart);
  }

  lemma NothingBetween(trend: seq<Point>, rows: seq<Row>, maxWeeks: int, i: nat)
    requires IsTrend(trend, rows, maxWeeks) && i + 1 < |trend|
    ensures DaysBetween(rows, trend[i].weekStart + 7, trend[i+1].weekStart) == Counts(0, 0, 0)
  {
    var p, q := trend[i].weekStart, trend[i+1].weekStart;
    assert trend[i] in trend && trend[0].weekStart <= p;
    forall w | w in UsedWeeks(rows) && p < w ensures q <= w {
      var k :| 0 <= k < |trend| && trend[k].weekStart == w;
    }
    NoneBetween(rows, p, q);
  }

  lemma TrendIsContiguous(trend: seq<Point>, rows: seq<Row>, maxWeeks: int)
    requires IsTrend(trend, rows, maxWeeks)
    ensures Contiguous(trend, rows)
  {
    forall i, j | 0 <= i < j == i + 1 < |trend| ensures Adjacent(rows, trend[0], trend[i], trend[j]) {
      TrendIsApart(trend, rows, maxWeeks, i, j);
      NothingBetween(trend, rows, maxWeeks, i);
    }
  }

  function Window(rows: seq<Row>, trend: seq<Point>, n: nat): Counts
    requires n <= |trend|
  {
    if n == 0 then Counts(0, 0, 0) else DaysBetween(rows, trend[0].weekStart, trend[n-1].weekStart + 7)
  }

  ghost predicate Grows(shown: seq<Bucket>, trend: seq<Point>, rows: seq<Row>, n: nat)
    requires n < |trend| == |shown|
  {
    Window(rows, trend, n + 1) == Window(rows, trend, n).Plus(shown[n].byLevel)
  }

  lemma NextWeek(shown: seq<Bucket>, trend: seq<Point>, rows: seq<Row>, n: nat)
    requires n < |trend| == |shown| && Contiguous(trend, rows) && shown[n] == BucketFor(rows, trend[n].weekStart)
    ensures Grows(shown, trend, rows, n)
  {
    if n > 0 {
      var previous, w := trend[n-1].weekStart, trend[n].weekStart;
      assert Adjacent(rows, trend[0], trend[n-1], trend[n]);
      BridgeGap(rows, trend[0].weekStart, previous + 7, w, w + 7);
    }
  }

  function AddBuckets(a: Bucket, b: Bucket): Bucket {
    Bucket(a.total + b.total, a.person + b.person, a.byLevel.Plus(b.byLevel))
  }

  function SumBuckets(shown: seq<Bucket>): Bucket {
    if shown == [] then Bucket(0, 0, Counts(0, 0, 0)) else AddBuckets(SumBuckets(shown[..|shown|-1]), shown[|shown|-1])
  }

  lemma {:induction false} SumOfChain(shown: seq<Bucket>, windows: seq<Counts>)
    requires |windows| == |shown| + 1 && windows[0] == Counts(0, 0, 0)
    requires forall i | 0 <= i < |shown| :: windows[i+1] == windows[i].Plus(shown[i].byLevel)
    ensures SumBuckets(shown).byLevel == windows[|shown|]
  {
    if shown != [] {
      SumOfChain(shown[..|shown|-1], windows[..|shown|]);
    }
  }

  function Windows(rows: seq<Row>, trend: seq<Point>, n: nat): (windows: seq<Counts>)
    requires n <= |trend|
    ensures |windows| == n + 1
    ensures forall i | 0 <= i <= n :: windows[i] == Window(rows, trend, i)
  {
    if n == 0 then [Window(rows, trend, 0)] else Windows(rows, trend, n - 1) + [Window(rows, trend, n)]
  }

  lemma SumFollowsWindows(shown: seq<Bucket>, trend: seq<Point>, rows: seq<Row>)
    requires |trend| == |shown|
    requires forall n: nat | n < |trend| :: Grows(shown, trend, rows, n)
    ensures SumBuckets(shown).byLevel == Window(rows, trend, |trend|)
  {
    var windows := Windows(rows, trend, |trend|);
    forall i | 0 <= i < |shown| ensures windows[i+1] == windows[i].Plus(shown[i].byLevel) {
      assert Grows(shown, trend, rows, i);
    }
    SumOfChain(shown, windows);
  }

  // The running totals of the displayed weeks count every row of the displayed span.
  lemma SumIsWindow(shown: seq<Bucket>, trend: seq<Point>, rows: seq<Row>)
    requires |trend| == |shown| && Contiguous(trend, rows)
    requires forall i | 0 <= i < |trend| :: shown[i] == BucketFor(rows, trend[i].weekStart)
    ensures SumBuckets(shown).byLevel == Window(rows, trend, |trend|)
  {
    forall n: nat | n < |trend| ensures Grows(shown, trend, rows, n) {
      NextWeek(shown, trend, rows, n);
    }
    SumFollowsWindows(shown, trend, rows);
  }

  predicate Sound(b: Bucket) {
    b.total == b.byLevel.Total() && b.person == b.byLevel.person
  }

  lemma {:induction false} SumIsSound(shown: seq<Bucket>)
    requires forall b | b in shown :: Sound(b)
    ensures Sound(SumBuckets(shown))
  {
    if shown != [] {
      assert shown[|shown|-1] in shown;
      SumIsSound(shown[..|shown|-1]);
    }
  }

  method Aggregate(shown: seq<Bucket>) returns (totalDays: nat, personDays: nat, levelDays: Counts)
    ensures Bucket(totalDays, personDays, levelDays) == SumBuckets(shown)
  {
    totalDays, personDays, levelDays := 0, 0, Counts(0, 0, 0);
    for i := 0 to |shown|
      invariant Bucket(totalDays, personDays, levelDays) == SumBuckets(shown[..i])
    {
      var b := shown[i];
      totalDays := totalDays + b.total;
      personDays := personDays + b.person;
      levelDays := levelDays.Plus(b.byLevel);
      assert shown[..i+1][..i] == shown[..i];
    }
    assert shown[..|shown|] == shown;
  }

  lemma AggregateIsSpan(shown: seq<Bucket>, trend: seq<Point>, rows: seq<Row>, maxWeeks: int)
    requires trend != [] && |shown| == |trend| && IsTrend(trend, rows, maxWeeks)
    requires forall i | 0 <= i < |trend| :: shown[i] == BucketFor(rows, trend[i].weekStart)
    ensures var days := DaysBetween(rows, trend[0].weekStart, trend[|trend|-1].weekStart + 7);
            SumBuckets(shown) == Bucket(days.Total(), days.person, days)
  {
    TrendIsContiguous(trend, rows, maxWeeks);
    SumIsWindow(shown, trend, rows);
    SumIsSound(shown);
  }

  method ComputeAttributionTrend(rows: seq<Row>, weeksOption: Option<int>) returns (result: Trend)
    ensures IsReport(result, rows, if weeksOption.Some? then weeksOption.value else 12)
  {
    var maxWeeks := weeksOption.GetOr(DEFAULT_TREND_WEEKS);
    var order, weekMap := Buckets(rows);
    UsedWeeksSize(order, weekMap, rows);
    if |weekMap| == 0 {
      return Empty;
    }
    result := Summarize(order, weekMap, rows, maxWeeks);
  }

  lemma UsedWeeksSize(order: seq<int>, weekMap: map<int, Bucket>, rows: seq<Row>)
    requires Keyed(order, weekMap) && HoldsBuckets(weekMap, rows)
    ensures |order| == |weekMap| == |UsedWeeks(rows)|
    ensures forall w :: w in order <==> w in UsedWeeks(rows)
  {
    KeyedSize(order, weekMap);
  }

  method Summarize(order: seq<int>, weekMap: map<int, Bucket>, ghost rows: seq<Row>, maxWeeks: int) returns (result: Trend)
    requires Distinct(order) && (forall w :: w in order <==> w in UsedWeeks(rows)) && |order| == |UsedWeeks(rows)| > 0
    requires HoldsBuckets(weekMap, rows)
    ensures IsReport(result, rows, maxWeeks)
  {
    var weeks := DisplayedWeeks(order, rows, maxWeeks);
    var shown, trend := TrendPoints(weeks, weekMap, rows, maxWeeks);
    result := ReportFor(shown, trend, rows, maxWeeks);
  }

  method ReportFor(shown: seq<Bucket>, trend: seq<Point>, ghost rows: seq<Row>, ghost maxWeeks: int) returns (result: Trend)
    requires UsedWeeks(rows) != {}
    requires IsTrend(trend, rows, maxWeeks) && |shown| == |trend|
    requires forall i | 0 <= i < |trend| :: shown[i] == BucketFor(rows, trend[i].weekStart)
    ensures IsReport(result, rows, maxWeeks)
  {
    if trend == [] {
      return Failed;
    }
    var totalDays, personDays, levelDays := Aggregate(shown);
    AggregateIsSpan(shown, trend, rows, maxWeeks);
    result := Report(trend, totalDays, personDays, levelDays);
  }

  function Report(trend: seq<Point>, totalDays: nat, personDays: nat, levelDays: Counts): Trend
    requires trend != []
  {
    var latest := trend[|trend|-1];
    Measured(latest.pct, latest.weekStart, PctOf(personDays, totalDays), personDays, totalDays,
             Rung(levelDays.person, PctOf(levelDays.person, totalDays)),
             Rung(levelDays.keyProject, PctOf(levelDays.keyProject, totalDays)),
             Rung(levelDays.account, PctOf(levelDays.account, totalDays)),
             trend, DeltaOf(trend))
  }

  // Most recent weeks that have usage, in chronological order.
  method DisplayedWeeks(order: seq<int>, ghost rows: seq<Row>, maxWeeks: int) returns (weeks: seq<int>)
    requires Distinct(order) && (forall w :: w in order <==> w in UsedWeeks(rows)) && |order| == |UsedWeeks(rows)|
    ensures Latest(weeks, rows) && |weeks| == Shown(|UsedWeeks(rows)|, maxWeeks)
  {
    var sorted := SortDays(order);
    weeks := sorted[SliceStart(|sorted|, maxWeeks)..];
    SliceIsLatest(sorted, SliceStart(|sorted|, maxWeeks), rows);
  }

  method TrendPoints(weeks: seq<int>, weekMap: map<int, Bucket>, ghost rows: seq<Row>, ghost maxWeeks: int)
    returns (shown: seq<Bucket>, trend: seq<Point>)
    requires Latest(weeks, rows) && |weeks| == Shown(|UsedWeeks(rows)|, maxWeeks) && HoldsBuckets(weekMap, rows)
    ensures IsTrend(trend, rows, maxWeeks) && |shown| == |trend|
    ensures forall i | 0 <= i < |trend| :: shown[i] == BucketFor(rows, trend[i].weekStart)
  {
    LatestAreHeld(weeks, weekMap, rows);
    shown, trend := LookUp(weeks, weekMap);
    TrendOfLatest(weeks, trend, rows, maxWeeks);
  }

  method LookUp(weeks: seq<int>, weekMap: map<int, Bucket>) returns (shown: seq<Bucket>, trend: seq<Point>)
    ensures |shown| == |trend| == |weeks|
    ensures forall i | 0 <= i < |weeks| ::
              && shown[i] == Get(weekMap, weeks[i])
              && trend[i] == Point(weeks[i], PctOf(shown[i].person, shown[i].total), shown[i].person, shown[i].total)
  {
    shown := seq(|weeks|, i requires 0 <= i < |weeks| => Get(weekMap, weeks[i]));
    trend := seq(|weeks|, i requires 0 <= i < |weeks| =>
      Point(weeks[i], PctOf(shown[i].person, shown[i].total), shown[i].person, shown[i].total));
  }

  lemma LatestAreHeld(weeks: seq<int>, weekMap: map<int, Bucket>, rows: seq<Row>)
    requires Latest(weeks, rows) && HoldsBuckets(weekMap, rows)
    ensures forall i | 0 <= i < |weeks| :: Get(weekMap, weeks[i]) == BucketFor(rows, weeks[i])
  {
    forall i | 0 <= i < |weeks| ensures Get(weekMap, weeks[i]) == BucketFor(rows, weeks[i]) {
      var w := weeks[i];
      assert w in UsedWeeks(rows);
      assert w in weekMap.Keys;
    }
  }

  lemma SliceIsLatest(sorted: seq<int>, from: nat, rows: seq<Row>)
    requires from <= |sorted|
    requires forall i, j | 0 <= i < j < |sorted| :: sorted[i] < sorted[j]
    requires forall w :: w in sorted <==> w in UsedWeeks(rows)
    ensures Latest(sorted[from..], rows)
  {
    var weeks := sorted[from..];
    forall i | 0 <= i < |weeks| ensures weeks[i] in UsedWeeks(rows) {
      var w := weeks[i];
      assert w == sorted[from + i];
      assert w in sorted;
    }
    forall w | w in UsedWeeks(rows) && |weeks| > 0 && weeks[0] <= w ensures w in weeks {
      assert w in sorted;
      var i :| 0 <= i < |sorted| && sorted[i] == w;
      assert weeks[0] == sorted[from];
      assert weeks[i - from] == w;
    }
  }

  lemma TrendOfLatest(weeks: seq<int>, trend: seq<Point>, rows: seq<Row>, maxWeeks: int)
    requires Latest(weeks, rows) && |weeks| == |trend| == Shown(|UsedWeeks(rows)|, maxWeeks)
    requires forall i | 0 <= i < |weeks| :: trend[i] == PointFor(rows, weeks[i])
    ensures IsTrend(trend, rows, maxWeeks)
  {
    forall w, p | w in UsedWeeks(rows) && p in trend && trend[0].weekStart <= w
      ensures exists q :: q in trend && q.weekStart == w
    {
      var i :| 0 <= i < |weeks| && weeks[i] == w;
      assert trend[i] in trend;
    }
  }
}
