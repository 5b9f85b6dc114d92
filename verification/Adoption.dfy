/**
 Agentic adoption (src/lib/agentic-adoption.ts): metric rows are resolved to person-days, and the
 share of agentic person-days is reported for the window and week by week. A person-day is a pair;
 week labels are represented by the days they span.
 */
module Adoption {
  import opened Wrappers
  import opened Calendar
  import opened Rounding
  import opened Sorting
  import Strings

  const WINDOW_DAYS := 84

  datatype Row = Row(subject: string, day: int, value: real, connector: Option<string>)

  datatype Link = Link(subject: string, person: string)

  datatype PersonDay = PersonDay(person: string, day: int)

  datatype Point = Point(weekStart: int, endDay: int, ratePct: real, agenticDays: nat, activeDays: nat)

  datatype Delta = First | Delta(current: real, previous: real, delta: real, previousWeek: int, previousEnd: int)

  datatype Coverage = Coverage(connector: string, agenticDays: nat)

  datatype Adoption =
    | NoActivity(unresolved: nat)
    | NoAgenticData(activeDays: nat, unresolved: nat)
    | Measured(ratePct: real, agenticDays: nat, activeDays: nat, trend: seq<Point>, weekToDate: Option<Point>,
               delta: Delta, coverage: seq<Coverage>, unresolved: nat)

  datatype Week = Week(active: set<PersonDay>, agentic: set<PersonDay>)

  // ---------- The definition the loops are checked against ----------

  predicate Counts(r: Row, windowTo: int) {
    r.value > 0.0 && windowTo - (WINDOW_DAYS - 1) <= r.day <= windowTo
  }

  // The last identity link of a subject decides.
  function PersonOf(links: seq<Link>, subject: string): Option<string> {
    if links == [] then None
    else if links[|links|-1].subject == subject then Some(links[|links|-1].person)
    else PersonOf(links[..|links|-1], subject)
  }

  predicate Resolved(r: Row, links: seq<Link>, windowTo: int) {
    Counts(r, windowTo) && PersonOf(links, r.subject).Some?
  }

  function DayFor(r: Row, links: seq<Link>): PersonDay {
    PersonDay(PersonOf(links, r.subject).GetOr(""), r.day)
  }

  function PersonDays(rows: seq<Row>, links: seq<Link>, windowTo: int): set<PersonDay> {
    set r | r in rows && Resolved(r, links, windowTo) :: DayFor(r, links)
  }

  function Unresolved(rows: seq<Row>, links: seq<Link>, windowTo: int): set<string> {
    set r | r in rows && Counts(r, windowTo) && PersonOf(links, r.subject).None? :: r.subject
  }

  function ConnectorOf(r: Row): string {
    r.connector.GetOr("unknown")
  }

  function ConnectorDays(rows: seq<Row>, links: seq<Link>, windowTo: int, connector: string): set<PersonDay> {
    set r | r in rows && Resolved(r, links, windowTo) && ConnectorOf(r) == connector :: DayFor(r, links)
  }

  function InWeek(days: set<PersonDay>, monday: int): set<PersonDay> {
    set k | k in days && WeekStart(k.day) == monday
  }

  function RatePct(agentic: nat, active: nat): real
    requires active > 0
  {
    RoundTo2(agentic as real / active as real * 100.0)
  }

  predicate Complete(monday: int, windowTo: int) {
    monday != WeekStart(windowTo) || monday + 6 <= windowTo
  }

  predicate IsPoint(p: Point, agentic: set<PersonDay>, active: set<PersonDay>) {
    && p.agenticDays == |InWeek(agentic, p.weekStart)|
    && p.activeDays == |InWeek(active, p.weekStart)| > 0
    && p.ratePct == RatePct(p.agenticDays, p.activeDays)
  }

  // One point for each complete week that has a person-day, in order, and one for the current
  // week when it is incomplete.
  ghost predicate IsTrend(trend: seq<Point>, weekToDate: Option<Point>, agentic: set<PersonDay>, active: set<PersonDay>,
                          windowTo: int) {
    && (forall i, j | 0 <= i < j < |trend| :: trend[i].weekStart < trend[j].weekStart)
    && (forall p | p in trend ::
          IsPoint(p, agentic, active) && Complete(p.weekStart, windowTo) && p.endDay == p.weekStart + 6)
    && (weekToDate.Some? ==>
          var p := weekToDate.value;
          IsPoint(p, agentic, active) && !Complete(p.weekStart, windowTo) && p.endDay == windowTo)
    && (forall k | k in active ::
          if Complete(WeekStart(k.day), windowTo) then exists p :: p in trend && p.weekStart == WeekStart(k.day)
          else weekToDate.Some?)
  }

  function WeeklyDelta(trend: seq<Point>): Delta {
    if |trend| < 2 then First
    else
      var previous := trend[|trend|-2];
      var current := trend[|trend|-1];
      Delta(current.ratePct, previous.ratePct, RoundTo2(current.ratePct - previous.ratePct), previous.weekStart,
            previous.endDay)
  }

  predicate CoverageBefore(a: Coverage, b: Coverage) {
    a.agenticDays > b.agenticDays || (a.agenticDays == b.agenticDays && Strings.Less(a.connector, b.connector))
  }

  // One entry for each connector with an agentic person-day, the largest first.
  ghost predicate IsCoverage(coverage: seq<Coverage>, rows: seq<Row>, links: seq<Link>, windowTo: int) {
    && (forall i, j | 0 <= i < j < |coverage| :: CoverageBefore(coverage[i], coverage[j]))
    && (forall i, j | 0 <= i < j < |coverage| :: coverage[i].connector != coverage[j].connector)
    && (forall c | c in coverage :: c.agenticDays == |ConnectorDays(rows, links, windowTo, c.connector)| > 0)
    && (forall r | r in rows && Resolved(r, links, windowTo) ::
          exists c :: c in coverage && c.connector == ConnectorOf(r))
  }

  ghost predicate IsMeasured(result: Adoption, agentic: set<PersonDay>, active: set<PersonDay>, windowTo: int) {
    && result.Measured?
    && result.agenticDays == |agentic|
    && result.activeDays == |active| > 0
    && result.ratePct == RatePct(|agentic|, |active|)
    && IsTrend(result.trend, result.weekToDate, agentic, active, windowTo)
    && result.delta == WeeklyDelta(result.trend)
  }

  ghost predicate IsAdoption(result: Adoption, agentRows: seq<Row>, activeRows: seq<Row>, links: seq<Link>, windowTo: int) {
    var agentic := PersonDays(agentRows, links, windowTo);
    var active := PersonDays(activeRows, links, windowTo) + agentic;
    var unresolved := |Unresolved(activeRows, links, windowTo) + Unresolved(agentRows, links, windowTo)|;
    if active == {} then result == NoActivity(unresolved)
    else if agentic == {} then result == NoAgenticData(|active|, unresolved)
    else
      && IsMeasured(result, agentic, active, windowTo)
      && result.unresolved == unresolved
      && IsCoverage(result.coverage, agentRows, links, windowTo)
  }

  // ---------- The loops ----------

  method PersonBySubject(links: seq<Link>) returns (personBySubject: map<string, string>)
    ensures forall s :: PersonOf(links, s) == if s in personBySubject then Some(personBySubject[s]) else None
  {
    personBySubject := map[];
    for i := 0 to |links|
      invariant forall s :: PersonOf(links[..i], s) == if s in personBySubject then Some(personBySubject[s]) else None
    {
      assert links[..i+1][..i] == links[..i];
      personBySubject := personBySubject[links[i].subject := links[i].person];
    }
    assert links[..|links|] == links;
  }

  // Collects into keys and adds to the unresolved subjects seen so far.
  method Resolve(rows: seq<Row>, links: seq<Link>, personBySubject: map<string, string>, windowTo: int,
                 seen: set<string>)
    returns (keys: set<PersonDay>, unresolved: set<string>)
    requires forall s :: PersonOf(links, s) == if s in personBySubject then Some(personBySubject[s]) else None
    ensures keys == PersonDays(rows, links, windowTo)
    ensures unresolved == seen + Unresolved(rows, links, windowTo)
  {
    keys, unresolved := {}, seen;
    for i := 0 to |rows|
      invariant keys == PersonDays(rows[..i], links, windowTo)
      invariant unresolved == seen + Unresolved(rows[..i], links, windowTo)
    {
      var r := rows[i];
      RowsExtend(rows, i, links, windowTo, ConnectorOf(r));
      if Counts(r, windowTo) {
        if r.subject !in personBySubject {
          unresolved := unresolved + {r.subject};
        } else {
          keys := keys + {PersonDay(personBySubject[r.subject], r.day)};
        }
      }
    }
    assert rows[..|rows|] == rows;
  }

  lemma RowsExtend(rows: seq<Row>, i: nat, links: seq<Link>, windowTo: int, connector: string)
    requires i < |rows|
    ensures var r := rows[i];
            && PersonDays(rows[..i+1], links, windowTo) ==
               PersonDays(rows[..i], links, windowTo) + (if Resolved(r, links, windowTo) then {DayFor(r, links)} else {})
            && Unresolved(rows[..i+1], links, windowTo) ==
               Unresolved(rows[..i], links, windowTo) +
               (if Counts(r, windowTo) && PersonOf(links, r.subject).None? then {r.subject} else {})
            && ConnectorDays(rows[..i+1], links, windowTo, connector) ==
               ConnectorDays(rows[..i], links, windowTo, connector) +
               (if Resolved(r, links, windowTo) && ConnectorOf(r) == connector then {DayFor(r, links)} else {})
  {
    var next := rows[..i+1];
    assert next == rows[..i] + [rows[i]];
    assert forall x :: x in next <==> x in rows[..i] || x == rows[i];
  }

  ghost predicate HoldsDays(perVendor: map<string, set<PersonDay>>, rows: seq<Row>, links: seq<Link>, windowTo: int) {
    && (forall v | v !in perVendor :: ConnectorDays(rows, links, windowTo, v) == {})
    && (forall v | v in perVendor :: ConnectorDays(rows, links, windowTo, v) == perVendor[v] != {})
  }

  function AddTo(perVendor: map<string, set<PersonDay>>, vendor: string, key: PersonDay): map<string, set<PersonDay>> {
    perVendor[vendor := (if vendor in perVendor then perVendor[vendor] else {}) + {key}]
  }

  method GroupByVendor(rows: seq<Row>, links: seq<Link>, personBySubject: map<string, string>, windowTo: int,
                       agenticKeys: set<PersonDay>)
    returns (order: seq<string>, perVendor: map<string, set<PersonDay>>)
    requires forall s :: PersonOf(links, s) == if s in personBySubject then Some(personBySubject[s]) else None
    requires agenticKeys == PersonDays(rows, links, windowTo)
    ensures Keyed(order, perVendor) && HoldsDays(perVendor, rows, links, windowTo)
  {
    order, perVendor := [], map[];
    for i := 0 to |rows|
      invariant Keyed(order, perVendor) && HoldsDays(perVendor, rows[..i], links, windowTo)
    {
      var r := rows[i];
      DaysExtend(perVendor, rows, i, links, windowTo);
      if Counts(r, windowTo) && r.subject in personBySubject {
        var key := PersonDay(personBySubject[r.subject], r.day);
        assert key == DayFor(r, links);
        if key in agenticKeys {
          var vendor := ConnectorOf(r);
          if vendor !in perVendor {
            order := order + [vendor];
          }
          perVendor := AddTo(perVendor, vendor, key);
        }
      }
    }
    assert rows[..|rows|] == rows;
  }

  lemma DaysExtend(perVendor: map<string, set<PersonDay>>, rows: seq<Row>, i: nat, links: seq<Link>, windowTo: int)
    requires i < |rows| && HoldsDays(perVendor, rows[..i], links, windowTo)
    ensures var r := rows[i];
            HoldsDays(if Resolved(r, links, windowTo) then AddTo(perVendor, ConnectorOf(r), DayFor(r, links)) else perVendor,
                      rows[..i+1], links, windowTo)
  {
    var r := rows[i];
    var after := if Resolved(r, links, windowTo) then AddTo(perVendor, ConnectorOf(r), DayFor(r, links)) else perVendor;
    forall v ensures ConnectorDays(rows[..i+1], links, windowTo, v) == if v in after then after[v] else {} {
      RowsExtend(rows, i, links, windowTo, v);
    }
  }

  method CoveragePerVendor(rows: seq<Row>, links: seq<Link>, personBySubject: map<string, string>, windowTo: int,
                           agenticKeys: set<PersonDay>)
    returns (coverage: seq<Coverage>)
    requires forall s :: PersonOf(links, s) == if s in personBySubject then Some(personBySubject[s]) else None
    requires agenticKeys == PersonDays(rows, links, windowTo)
    ensures IsCoverage(coverage, rows, links, windowTo)
  {
    var order, perVendor := GroupByVendor(rows, links, personBySubject, windowTo, agenticKeys);
    var listed := Entries(order, perVendor);
    coverage := Sort(listed, CoverageBefore);
    SortedEntries(order, perVendor, rows, links, windowTo);
  }

  lemma SortedEntries(order: seq<string>, perVendor: map<string, set<PersonDay>>, rows: seq<Row>, links: seq<Link>,
                      windowTo: int)
    requires Keyed(order, perVendor) && HoldsDays(perVendor, rows, links, windowTo)
    ensures IsCoverage(Sort(Entries(order, perVendor), CoverageBefore), rows, links, windowTo)
  {
    var listed := Entries(order, perVendor);
    var coverage := Sort(listed, CoverageBefore);
    CoverageOrder();
    SortIsAscending(listed, CoverageBefore);
    OneEntryEach(listed, coverage);
    forall r | r in rows && Resolved(r, links, windowTo)
      ensures exists c :: c in coverage && c.connector == ConnectorOf(r)
    {
      assert DayFor(r, links) in ConnectorDays(rows, links, windowTo, ConnectorOf(r));
      assert Coverage(ConnectorOf(r), |perVendor[ConnectorOf(r)]|) in coverage;
    }
  }

  function Entries(order: seq<string>, perVendor: map<string, set<PersonDay>>): (entries: seq<Coverage>)
    requires forall v | v in order :: v in perVendor
    ensures |entries| == |order|
    ensures forall i | 0 <= i < |order| :: entries[i] == Coverage(order[i], |perVendor[order[i]]|)
    ensures forall c :: c in entries <==> c.connector in order && c == Coverage(c.connector, |perVendor[c.connector]|)
  {
    seq(|order|, i requires 0 <= i < |order| => Coverage(order[i], |perVendor[order[i]]|))
  }

  // Sorting keeps one entry for each connector.
  lemma OneEntryEach(listed: seq<Coverage>, coverage: seq<Coverage>)
    requires forall c :: c in coverage <==> c in listed
    requires forall i, j | 0 <= i < j < |listed| :: listed[i].connector != listed[j].connector
    requires forall i, j | 0 <= i < j < |coverage| :: CoverageBefore(coverage[i], coverage[j])
    ensures forall i, j | 0 <= i < j < |coverage| :: coverage[i].connector != coverage[j].connector
  {
    forall i, j | 0 <= i < j < |coverage| ensures coverage[i].connector != coverage[j].connector {
      assert coverage[i] in listed && coverage[j] in listed;
      assert CoverageBefore(coverage[i], coverage[j]);
      Strings.LessIsIrreflexive(coverage[i].connector);
    }
  }

  lemma CoverageOrder()
    ensures StrictOrder(CoverageBefore)
  {
    forall a: Coverage ensures !CoverageBefore(a, a) {
      Strings.LessIsIrreflexive(a.connector);
    }
    forall a: Coverage, b: Coverage ensures a == b || CoverageBefore(a, b) || CoverageBefore(b, a) {
      Strings.LessIsTotal(a.connector, b.connector);
    }
    forall a: Coverage, b: Coverage, c: Coverage | CoverageBefore(a, b) && CoverageBefore(b, c)
      ensures CoverageBefore(a, c)
    {
      if a.agenticDays == b.agenticDays == c.agenticDays {
        Strings.LessIsTransitive(a.connector, b.connector, c.connector);
      }
    }
  }

  ghost predicate HoldsWeeks(weeks: map<int, Week>, active: set<PersonDay>, agentic: set<PersonDay>) {
    && (forall w | w in weeks :: weeks[w] == Week(InWeek(active, w), InWeek(agentic, w)))
    && (forall k | k in active + agentic :: WeekStart(k.day) in weeks)
  }

  function Bucket(weeks: map<int, Week>, w: int): Week {
    if w in weeks then weeks[w] else Week({}, {})
  }

  lemma BucketExtends(weeks: map<int, Week>, active: set<PersonDay>, agentic: set<PersonDay>, k: PersonDay)
    requires HoldsWeeks(weeks, active, agentic)
    ensures var w := WeekStart(k.day);
            var b := Bucket(weeks, w);
            && HoldsWeeks(weeks[w := b.(active := b.active + {k})], active + {k}, agentic)
            && HoldsWeeks(weeks[w := b.(agentic := b.agentic + {k})], active, agentic + {k})
  {
    var week := WeekStart(k.day);
    assert Bucket(weeks, week) == Week(InWeek(active, week), InWeek(agentic, week));
    forall w
      ensures InWeek(active + {k}, w) == InWeek(active, w) + if w == week then {k} else {}
      ensures InWeek(agentic + {k}, w) == InWeek(agentic, w) + if w == week then {k} else {}
    {
    }
  }

  method WeeklyBuckets(unionKeys: set<PersonDay>, agenticKeys: set<PersonDay>)
    returns (order: seq<int>, weeks: map<int, Week>)
    ensures Keyed(order, weeks) && HoldsWeeks(weeks, unionKeys, agenticKeys)
  {
    order, weeks := [], map[];
    var left := unionKeys;
    while left != {}
      invariant left <= unionKeys
      invariant Keyed(order, weeks) && HoldsWeeks(weeks, unionKeys - left, {})
    {
      var k :| k in left;
      var w := WeekStart(k.day);
      BucketExtends(weeks, unionKeys - left, {}, k);
      assert unionKeys - (left - {k}) == (unionKeys - left) + {k};
      KeyedInsert(order, weeks, w, Bucket(weeks, w).(active := Bucket(weeks, w).active + {k}));
      order := if w in weeks then order else order + [w];
      weeks := weeks[w := Bucket(weeks, w).(active := Bucket(weeks, w).active + {k})];
      left := left - {k};
    }
    assert unionKeys - {} == unionKeys;
    left := agenticKeys;
    while left != {}
      invariant left <= agenticKeys
      invariant Keyed(order, weeks) && HoldsWeeks(weeks, unionKeys, agenticKeys - left)
    {
      var k :| k in left;
      var w := WeekStart(k.day);
      BucketExtends(weeks, unionKeys, agenticKeys - left, k);
      assert agenticKeys - (left - {k}) == (agenticKeys - left) + {k};
      KeyedInsert(order, weeks, w, Bucket(weeks, w).(agentic := Bucket(weeks, w).agentic + {k}));
      order := if w in weeks then order else order + [w];
      weeks := weeks[w := Bucket(weeks, w).(agentic := Bucket(weeks, w).agentic + {k})];
      left := left - {k};
    }
    assert agenticKeys - {} == agenticKeys;
  }

  function PointFor(monday: int, w: Week, endDay: int): Point
    requires w.active != {}
  {
    Point(monday, endDay, RatePct(|w.agentic|, |w.active|), |w.agentic|, |w.active|)
  }

  method Trend(unionKeys: set<PersonDay>, agenticKeys: set<PersonDay>, windowTo: int)
    returns (trend: seq<Point>, weekToDate: Option<Point>)
    ensures IsTrend(trend, weekToDate, agenticKeys, unionKeys, windowTo)
  {
    var order, weeks := WeeklyBuckets(unionKeys, agenticKeys);
    var sorted := SortDays(order);
    var currentWeekStart := WeekStart(windowTo);
    var currentWeekComplete := currentWeekStart + 6 <= windowTo;
    trend, weekToDate := [], None;
    for n := 0 to |sorted|
      invariant forall i, j | 0 <= i < j < |trend| :: trend[i].weekStart < trend[j].weekStart
      invariant forall i, j | 0 <= i < |trend| && n <= j < |sorted| :: trend[i].weekStart < sorted[j]
      invariant forall p | p in trend ::
          IsPoint(p, agenticKeys, unionKeys) && Complete(p.weekStart, windowTo) && p.endDay == p.weekStart + 6
      invariant weekToDate.Some? ==>
          var p := weekToDate.value;
          IsPoint(p, agenticKeys, unionKeys) && !Complete(p.weekStart, windowTo) && p.endDay == windowTo
      invariant forall m | 0 <= m < n && InWeek(unionKeys, sorted[m]) != {} ::
          if Complete(sorted[m], windowTo) then exists p :: p in trend && p.weekStart == sorted[m]
          else weekToDate.Some?
    {
      var monday := sorted[n];
      assert monday in sorted;
      var w := weeks[monday];
      if |w.active| != 0 {
        if monday == currentWeekStart && !currentWeekComplete {
          weekToDate := Some(PointFor(monday, w, windowTo));
        } else {
          var p := PointFor(monday, w, monday + 6);
          assert p in trend + [p];
          trend := trend + [p];
        }
      }
    }
    forall k | k in unionKeys
      ensures if Complete(WeekStart(k.day), windowTo) then exists p :: p in trend && p.weekStart == WeekStart(k.day)
              else weekToDate.Some?
    {
      assert WeekStart(k.day) in sorted;
      assert k in InWeek(unionKeys, WeekStart(k.day));
    }
  }

  // The report once there is an agentic person-day.
  method MeasuredAdoption(agentRows: seq<Row>, ghost activeRows: seq<Row>, links: seq<Link>,
                          personBySubject: map<string, string>, windowTo: int, unionKeys: set<PersonDay>,
                          agenticKeys: set<PersonDay>, unresolved: set<string>)
    returns (result: Adoption)
    requires forall s :: PersonOf(links, s) == if s in personBySubject then Some(personBySubject[s]) else None
    requires agenticKeys == PersonDays(agentRows, links, windowTo) != {}
    requires unionKeys == PersonDays(activeRows, links, windowTo) + agenticKeys
    requires unresolved == Unresolved(activeRows, links, windowTo) + Unresolved(agentRows, links, windowTo)
    ensures IsAdoption(result, agentRows, activeRows, links, windowTo)
  {
    var coverage := CoveragePerVendor(agentRows, links, personBySubject, windowTo, agenticKeys);
    var trend, weekToDate := Trend(unionKeys, agenticKeys, windowTo);
    result := Measured(RatePct(|agenticKeys|, |unionKeys|), |agenticKeys|, |unionKeys|, trend, weekToDate,
                       WeeklyDelta(trend), coverage, |unresolved|);
  }

  method ComputeAgenticAdoption(agentActiveRows: seq<Row>, activeDayRows: seq<Row>, identityLinks: seq<Link>, windowTo: int)
    returns (result: Adoption)
    ensures IsAdoption(result, agentActiveRows, activeDayRows, identityLinks, windowTo)
  {
    var personBySubject := PersonBySubject(identityLinks);
    var activeKeys, unresolved := Resolve(activeDayRows, identityLinks, personBySubject, windowTo, {});
    var agenticKeys;
    agenticKeys, unresolved := Resolve(agentActiveRows, identityLinks, personBySubject, windowTo, unresolved);
    var unionKeys := activeKeys + agenticKeys;
    if |unionKeys| == 0 {
      return NoActivity(|unresolved|);
    }
    if |agenticKeys| == 0 {
      return NoAgenticData(|unionKeys|, |unresolved|);
    }
    result := MeasuredAdoption(agentActiveRows, activeDayRows, identityLinks, personBySubject, windowTo, unionKeys,
                               agenticKeys, unresolved);
  }
}
