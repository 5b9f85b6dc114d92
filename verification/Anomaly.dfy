/**
 Request-time spike detection (src/lib/anomaly.ts). Days are UTC day numbers, instants are
 milliseconds since the epoch, and values are exact reals. The test `z >= 3` is stated on
 squares, so no square root is taken.
 */
module Anomaly {
  import opened Sorting
  import opened Wrappers

  const ANOMALY_BASELINE_DAYS := 28
  const ANOMALY_MIN_BASELINE_DAYS := 14
  const ANOMALY_Z_THRESHOLD := 3.0
  const ANOMALY_FACTOR_FLOOR := 2.0
  const ANOMALY_STALE_AFTER_DAYS := 2
  const DAY_MS := 86_400_000

  type Day = int

  datatype SpikeMetric = Spend | Prompts

  function MinAbsDelta(metric: SpikeMetric): real {
    match metric
    case Spend => 500.0
    case Prompts => 20.0
  }

  datatype DailyRow = DailyRow(day: Day, value: real)

  datatype Status = Pending | Active | Error | Paused

  // `lastSuccessAt` is None for a null and for an unparsable date.
  datatype Connection = Connection(status: Status, lastSuccessAt: Option<int>)

  datatype Verdict =
    | Spike(day: Day, value: real, mean: real, variance: real, baselineDays: nat)
    | NoSpike
    | Insufficient(measuredDays: nat)
    | Suppressed

  // ---------------------------------------------------------------- staleness

  predicate IsUsableConnection(c: Connection) {
    c.status != Error && c.status != Paused
  }

  predicate HasSynced(c: Connection) {
    IsUsableConnection(c) && c.lastSuccessAt.Some?
  }

  method FreshestSync(connections: seq<Connection>) returns (freshest: Option<int>)
    ensures freshest.None? <==> forall c | c in connections :: !HasSynced(c)
    ensures freshest.Some? ==> exists c | c in connections :: HasSynced(c) && c.lastSuccessAt == freshest
    ensures forall c | c in connections :: HasSynced(c) ==> freshest.Some? && c.lastSuccessAt.value <= freshest.value
  {
    freshest := None;
    for i := 0 to |connections|
      invariant freshest.None? <==> forall c | c in connections[..i] :: !HasSynced(c)
      invariant freshest.Some? ==> exists c | c in connections[..i] :: HasSynced(c) && c.lastSuccessAt == freshest
      invariant forall c | c in connections[..i] :: HasSynced(c) ==> freshest.Some? && c.lastSuccessAt.value <= freshest.value
    {
      var c := connections[i];
      assert connections[..i+1] == connections[..i] + [c];
      assert forall d | d in connections[..i+1] :: d in connections[..i] || d == c;
      assert c in connections[..i+1];
      if IsUsableConnection(c) && c.lastSuccessAt.Some? {
        if freshest.None? || c.lastSuccessAt.value > freshest.value {
          freshest := c.lastSuccessAt;
        }
      }
    }
    assert connections[..|connections|] == connections;
  }

  // A channel is current as long as one usable connection synced on or after the cutoff day.
  ghost predicate Current(connections: seq<Connection>, today: Day, staleAfterDays: int) {
    exists c | c in connections ::
      HasSynced(c) && c.lastSuccessAt.value >= (today - staleAfterDays) * DAY_MS
  }

  /** The check is suppressed unless some connection that is neither in error nor paused synced on or after the day before yesterday. */
  lemma CurrentExactly(connections: seq<Connection>, today: Day)
    ensures Current(connections, today, ANOMALY_STALE_AFTER_DAYS) <==>
            exists c | c in connections :: (c.status == Pending || c.status == Active) && c.lastSuccessAt.Some?
                                           && c.lastSuccessAt.value >= (today - 2) * 86_400_000
  {
  }

  method IsChannelStale(connections: seq<Connection>, today: Day, staleAfterDays: int) returns (stale: bool)
    ensures stale <==> !Current(connections, today, staleAfterDays)
  {
    var freshest := FreshestSync(connections);
    if freshest.None? {
      return true;
    }
    return freshest.value < (today - staleAfterDays) * DAY_MS;
  }

  // ------------------------------------------------------------- daily totals

  function Totals(rows: seq<DailyRow>): map<Day, real> {
    if rows == [] then map[]
    else
      var before := Totals(rows[..|rows| - 1]);
      var r := rows[|rows| - 1];
      before[r.day := (if r.day in before then before[r.day] else 0.0) + r.value]
  }

  function ValuesOn(rows: seq<DailyRow>, day: Day): seq<real> {
    if rows == [] then []
    else if rows[0].day == day then [rows[0].value] + ValuesOn(rows[1..], day)
    else ValuesOn(rows[1..], day)
  }

  function Sum(xs: seq<real>): real {
    if xs == [] then 0.0 else Sum(xs[..|xs| - 1]) + xs[|xs| - 1]
  }

  lemma {:induction false} ValuesOnAppend(rows: seq<DailyRow>, r: DailyRow, day: Day)
    ensures ValuesOn(rows + [r], day) == ValuesOn(rows, day) + (if r.day == day then [r.value] else [])
  {
    if rows == [] {
      assert (rows + [r])[1..] == [];
    } else {
      assert (rows + [r])[1..] == rows[1..] + [r];
      ValuesOnAppend(rows[1..], r, day);
    }
  }

  lemma SumAppend(xs: seq<real>, x: real)
    ensures Sum(xs + [x]) == Sum(xs) + x
  {
    assert (xs + [x])[..|xs|] == xs;
  }

  /** The totals hold one entry for each day that has rows: the sum of that day's values. */
  lemma {:induction false} TotalsMeaning(rows: seq<DailyRow>, day: Day)
    ensures day in Totals(rows) <==> exists r | r in rows :: r.day == day
    ensures day in Totals(rows) ==> Totals(rows)[day] == Sum(ValuesOn(rows, day))
    ensures day !in Totals(rows) ==> ValuesOn(rows, day) == []
  {
    if rows != [] {
      var front, r := rows[..|rows| - 1], rows[|rows| - 1];
      assert rows == front + [r];
      TotalsMeaning(front, day);
      assert rows[..|rows| - 1] == front;
      assert forall q | q in rows :: q in front || q == r;
      ValuesOnAppend(front, r, day);
      assert ValuesOn(front, day) + [] == ValuesOn(front, day);
      SumAppend(ValuesOn(front, day), r.value);
    }
  }

  // The source's Map keeps its keys in insertion order; `keys` is that order.
  method DailyTotals(rows: seq<DailyRow>) returns (keys: seq<Day>, totals: map<Day, real>)
    ensures totals == Totals(rows)
    ensures Distinct(keys)
    ensures forall d :: d in keys <==> d in totals
  {
    keys, totals := [], map[];
    for i := 0 to |rows|
      invariant totals == Totals(rows[..i])
      invariant Distinct(keys)
      invariant forall d :: d in keys <==> d in totals
    {
      assert rows[..i+1][..i] == rows[..i];
      var r := rows[i];
      if r.day !in totals {
        keys := keys + [r.day];
      }
      totals := totals[r.day := (if r.day in totals then totals[r.day] else 0.0) + r.value];
    }
    assert rows[..|rows|] == rows;
  }

  // --------------------------------------------------------------- statistics

  function Times(x: real, y: real): real {
    x * y
  }

  function Square(x: real): (y: real)
    ensures y >= 0.0
  {
    SquareIsNonNegative(x);
    Times(x, x)
  }

  lemma SquareIsNonNegative(x: real)
    ensures x * x >= 0.0
  {
    if x < 0.0 {
      assert x * x == (-x) * (-x);
    }
  }

  // Sum of the squared deviations from m.
  function Squares(xs: seq<real>, m: real): (y: real)
    ensures y >= 0.0
  {
    if xs == [] then 0.0 else Squares(xs[..|xs| - 1], m) + Square(xs[|xs| - 1] - m)
  }

  function Mean(xs: seq<real>): real
    requires |xs| > 0
  {
    Sum(xs) / |xs| as real
  }

  // The sample variance, with divisor n - 1.
  function Variance(xs: seq<real>): real
    requires |xs| > 1
  {
    Squares(xs, Mean(xs)) / (|xs| - 1) as real
  }

  // The gates of one evaluated value against a baseline's mean and variance.
  predicate Fires(metric: SpikeMetric, v: real, mean: real, variance: real)
    requires mean > 0.0
  {
    && v > mean
    && (variance > 0.0 ==> Square(v - mean) >= ANOMALY_Z_THRESHOLD * ANOMALY_Z_THRESHOLD * variance)
    && v / mean >= ANOMALY_FACTOR_FLOOR
    && v - mean >= MinAbsDelta(metric)
  }

  predicate Covered<K>(t: map<K, real>, keys: seq<K>) {
    forall i | 0 <= i < |keys| :: keys[i] in t
  }

  function ValuesAt<K>(t: map<K, real>, keys: seq<K>): (xs: seq<real>)
    requires Covered(t, keys)
    ensures |xs| == |keys| && forall i | 0 <= i < |xs| :: xs[i] == t[keys[i]]
  {
    seq(|keys|, i requires 0 <= i < |keys| => t[keys[i]])
  }

  // The days of [from, to] that have a total, in calendar order.
  function MeasuredDays(t: map<Day, real>, from: Day, to: Day): (days: seq<Day>)
    ensures forall d :: d in days <==> from <= d <= to && d in t
    ensures Distinct(days)
    ensures |days| <= if from <= to then to - from + 1 else 0
    decreases if from <= to then to - from + 1 else 0
  {
    if to < from then []
    else if to in t then MeasuredDays(t, from, to - 1) + [to]
    else MeasuredDays(t, from, to - 1)
  }

  function BaselineDays(t: map<Day, real>, evalDay: Day): (days: seq<Day>)
    ensures |days| <= ANOMALY_BASELINE_DAYS && Covered(t, days)
  {
    var days := MeasuredDays(t, evalDay - ANOMALY_BASELINE_DAYS, evalDay - 1);
    assert forall i | 0 <= i < |days| :: days[i] in days;
    days
  }

  function Baseline(t: map<Day, real>, evalDay: Day): (xs: seq<real>)
    ensures |xs| <= ANOMALY_BASELINE_DAYS
  {
    ValuesAt(t, BaselineDays(t, evalDay))
  }

  // The decision about a value and the totals of its baseline days.
  function Decide(metric: SpikeMetric, day: Day, v: real, xs: seq<real>): Verdict {
    if v <= 0.0 then NoSpike
    else if |xs| < ANOMALY_MIN_BASELINE_DAYS then Insufficient(|xs|)
    else if Mean(xs) <= 0.0 then NoSpike
    else if Fires(metric, v, Mean(xs), Variance(xs)) then Spike(day, v, Mean(xs), Variance(xs), |xs|)
    else NoSpike
  }

  function ValueOn(t: map<Day, real>, day: Day): real {
    if day in t then t[day] else 0.0
  }

  // What the detector decides, with the baseline read in calendar order.
  function Judge(metric: SpikeMetric, t: map<Day, real>, evalDay: Day): Verdict {
    Decide(metric, evalDay, ValueOn(t, evalDay), Baseline(t, evalDay))
  }

  lemma MultisetWithout<T>(s: seq<T>, i: nat)
    requires i < |s|
    ensures multiset(s) == multiset(s[..i] + s[i+1..]) + multiset{s[i]}
    ensures multiset(s[..i] + s[i+1..]) == multiset(s) - multiset{s[i]}
  {
    assert s == s[..i] + [s[i]] + s[i+1..];
  }

  lemma {:induction false} TakeOut(xs: seq<real>, i: nat, m: real)
    requires i < |xs|
    ensures Sum(xs) == Sum(xs[..i] + xs[i+1..]) + xs[i]
    ensures Squares(xs, m) == Squares(xs[..i] + xs[i+1..], m) + Square(xs[i] - m)
  {
    var n := |xs| - 1;
    var rest := xs[..i] + xs[i+1..];
    if i == n {
      assert rest == xs[..n];
    } else {
      TakeOut(xs[..n], i, m);
      assert xs[..n][..i] + xs[..n][i+1..] == rest[..n-1];
      assert rest[n-1] == xs[n];
    }
  }

  // Where the last element of xs occurs in a permutation of xs.
  lemma FindLast<T>(xs: seq<T>, ys: seq<T>) returns (j: nat)
    requires multiset(xs) == multiset(ys) && xs != []
    ensures j < |ys| && ys[j] == xs[|xs| - 1]
    ensures multiset(xs[..|xs| - 1]) == multiset(ys[..j] + ys[j+1..])
  {
    var n := |xs| - 1;
    var last := xs[n];
    MultisetWithout(xs, n);
    assert last in multiset(ys);
    j :| 0 <= j < |ys| && ys[j] == last;
    MultisetWithout(ys, j);
    assert xs[..n] + xs[n+1..] == xs[..n];
  }

  lemma EmptyPermutation<T>(xs: seq<T>, ys: seq<T>)
    requires multiset(xs) == multiset(ys) && xs == []
    ensures ys == []
  {
    assert |ys| == |multiset(ys)|;
  }

  /** The sums depend on which values there are, not on their order. */
  lemma {:induction false} SumsOfPermutation(xs: seq<real>, ys: seq<real>, m: real)
    requires multiset(xs) == multiset(ys)
    ensures |xs| == |ys| && Sum(xs) == Sum(ys) && Squares(xs, m) == Squares(ys, m)
  {
    if xs == [] {
      EmptyPermutation(xs, ys);
    } else {
      var j := FindLast(xs, ys);
      SumsOfPermutation(xs[..|xs| - 1], ys[..j] + ys[j+1..], m);
      TakeOut(ys, j, m);
    }
  }

  lemma {:induction false} DistinctCount<T>(s: seq<T>, x: T)
    requires Distinct(s)
    ensures multiset(s)[x] == if x in s then 1 else 0
  {
    if s != [] {
      var n := |s| - 1;
      assert s == s[..n] + [s[n]];
      DistinctCount(s[..n], x);
    }
  }

  lemma {:induction false} SameKeysSameValues<K>(t: map<K, real>, a: seq<K>, b: seq<K>)
    requires multiset(a) == multiset(b)
    requires Covered(t, a) && Covered(t, b)
    ensures multiset(ValuesAt(t, a)) == multiset(ValuesAt(t, b))
  {
    if a == [] {
      EmptyPermutation(a, b);
    } else {
      var n := |a| - 1;
      var j := FindLast(a, b);
      assert a[..n] + a[n+1..] == a[..n];
      ValuesWithout(t, a, n);
      ValuesWithout(t, b, j);
      SameKeysSameValues(t, a[..n], b[..j] + b[j+1..]);
    }
  }

  lemma ValuesWithout<K>(t: map<K, real>, s: seq<K>, i: nat)
    requires Covered(t, s) && i < |s|
    ensures Covered(t, s[..i] + s[i+1..])
    ensures multiset(ValuesAt(t, s)) == multiset(ValuesAt(t, s[..i] + s[i+1..])) + multiset{t[s[i]]}
  {
    var xs := ValuesAt(t, s);
    assert ValuesAt(t, s[..i] + s[i+1..]) == xs[..i] + xs[i+1..];
    assert xs == xs[..i] + [xs[i]] + xs[i+1..];
  }

  lemma SameDaysSameValues<K>(t: map<K, real>, a: seq<K>, b: seq<K>)
    requires Distinct(a) && Distinct(b)
    requires forall d :: d in a <==> d in b
    requires Covered(t, a) && Covered(t, b)
    ensures multiset(ValuesAt(t, a)) == multiset(ValuesAt(t, b))
  {
    forall d ensures multiset(a)[d] == multiset(b)[d] {
      DistinctCount(a, d);
      DistinctCount(b, d);
    }
    SameKeysSameValues(t, a, b);
  }

  // The totals of the measured days of a window, in the order of the keys.
  method CollectBaseline(keys: seq<Day>, totals: map<Day, real>, from: Day, to: Day) returns (baseline: seq<real>)
    requires Distinct(keys) && Covered(totals, keys) && forall d :: d in keys <==> d in totals
    ensures Covered(totals, MeasuredDays(totals, from, to))
    ensures multiset(baseline) == multiset(ValuesAt(totals, MeasuredDays(totals, from, to)))
  {
    baseline := [];
    ghost var days: seq<Day> := [];
    for i := 0 to |keys|
      invariant Distinct(days) && Covered(totals, days) && baseline == ValuesAt(totals, days)
      invariant forall d :: d in days <==> d in keys[..i] && from <= d <= to
    {
      assert keys[..i+1] == keys[..i] + [keys[i]];
      assert keys[i] !in keys[..i];
      if from <= keys[i] <= to {
        baseline, days := baseline + [totals[keys[i]]], days + [keys[i]];
      }
    }
    assert keys[..|keys|] == keys;
    MeasuredAreCovered(totals, from, to);
    SameDaysSameValues(totals, days, MeasuredDays(totals, from, to));
  }

  lemma MeasuredAreCovered(t: map<Day, real>, from: Day, to: Day)
    ensures Covered(t, MeasuredDays(t, from, to))
  {
    var days := MeasuredDays(t, from, to);
    forall i | 0 <= i < |days| ensures days[i] in t {
      var d := days[i];
      assert d in days;
    }
  }

  lemma KeysAreCovered(t: map<Day, real>, keys: seq<Day>)
    requires forall d :: d in keys <==> d in t
    ensures Covered(t, keys)
  {
    forall i | 0 <= i < |keys| ensures keys[i] in t {
      var d := keys[i];
      assert d in keys;
    }
  }

  method DetectDailySpike(metric: SpikeMetric, records: seq<DailyRow>, today: Day, connections: seq<Connection>)
    returns (r: Verdict)
    ensures r == if Current(connections, today, ANOMALY_STALE_AFTER_DAYS) then Judge(metric, Totals(records), today - 1) else Suppressed
  {
    var stale := IsChannelStale(connections, today, ANOMALY_STALE_AFTER_DAYS);
    if stale {
      return Suppressed;
    }
    var evalDay := today - 1;
    var keys, totals := DailyTotals(records);
    var v := if evalDay in totals then totals[evalDay] else 0.0;
    if v <= 0.0 {
      return NoSpike;
    }
    KeysAreCovered(totals, keys);
    var baseline := CollectBaseline(keys, totals, evalDay - ANOMALY_BASELINE_DAYS, evalDay - 1);
    SameDecision(metric, evalDay, v, baseline, Baseline(totals, evalDay));
    if |baseline| < ANOMALY_MIN_BASELINE_DAYS {
      return Insufficient(|baseline|);
    }
    var mean := Mean(baseline);
    if mean <= 0.0 {
      return NoSpike;
    }
    var variance := Variance(baseline);
    if !Fires(metric, v, mean, variance) {
      return NoSpike;
    }
    return Spike(evalDay, v, mean, variance, |baseline|);
  }

  // The days of the 28 before the evaluated one that have a total.
  function WindowDays(t: map<Day, real>, evalDay: Day): set<Day> {
    set d | d in t && evalDay - 28 <= d < evalDay
  }

  lemma BaselineCountsDays(t: map<Day, real>, evalDay: Day)
    ensures |Baseline(t, evalDay)| == |WindowDays(t, evalDay)|
  {
    DistinctSize(BaselineDays(t, evalDay), WindowDays(t, evalDay));
  }

  /**
   The verdict in full. With v the total of the day, n measured days among the 28 before it, and their mean m
   and sample variance s: a spike exactly when v is positive, n is at least 14, m is positive, v is at least
   three deviations above m, at least twice m, and above m by 500 cents or 20 prompts. Fewer days are
   reported as such, with their number.
   */
  lemma JudgeExactly(metric: SpikeMetric, t: map<Day, real>, evalDay: Day)
    ensures var v, n, xs := if evalDay in t then t[evalDay] else 0.0, |WindowDays(t, evalDay)|, Baseline(t, evalDay);
            && |xs| == n
            && !Judge(metric, t, evalDay).Suppressed?
            && (Judge(metric, t, evalDay).Insufficient? <==> v > 0.0 && n < 14)
            && (v > 0.0 && n < 14 ==> Judge(metric, t, evalDay) == Insufficient(n))
            && (Judge(metric, t, evalDay).Spike? <==>
                && v > 0.0 && n >= 14 && Mean(xs) > 0.0
                && (v - Mean(xs)) * (v - Mean(xs)) >= 9.0 * Variance(xs)
                && v >= 2.0 * Mean(xs)
                && v - Mean(xs) >= if metric == Spend then 500.0 else 20.0)
            && (Judge(metric, t, evalDay).Spike? ==>
                  Judge(metric, t, evalDay) == Spike(evalDay, v, Mean(xs), Variance(xs), n))
  {
    var v, xs := ValueOn(t, evalDay), Baseline(t, evalDay);
    BaselineCountsDays(t, evalDay);
    if v > 0.0 && |xs| >= 14 && Mean(xs) > 0.0 {
      FiresExactly(metric, v, Mean(xs), Variance(xs));
    }
  }

  lemma FiresExactly(metric: SpikeMetric, v: real, m: real, s: real)
    requires m > 0.0 && s >= 0.0
    ensures Fires(metric, v, m, s) <==>
            && (v - m) * (v - m) >= 9.0 * s
            && v >= 2.0 * m
            && v - m >= if metric == Spend then 500.0 else 20.0
  {
    AtLeastTwice(v, m);
    SquareIsNonNegative(v - m);
    assert Square(v - m) == (v - m) * (v - m);
  }

  lemma AtLeastTwice(v: real, m: real)
    requires m > 0.0
    ensures v / m >= 2.0 <==> v >= 2.0 * m
  {
    Quotient(v, m);
    if v / m >= 2.0 {
      ScaleUp(v / m, 2.0, m);
    } else {
      ProductIsPositive(2.0 - v / m, m);
    }
  }

  lemma SameDecision(metric: SpikeMetric, day: Day, v: real, xs: seq<real>, ys: seq<real>)
    requires multiset(xs) == multiset(ys)
    ensures Decide(metric, day, v, xs) == Decide(metric, day, v, ys)
  {
    SumsOfPermutation(xs, ys, 0.0);
    if |xs| > 0 {
      SumsOfPermutation(xs, ys, Mean(xs));
    }
  }

  // ------------------------------------------------- when a spike cannot fire

  // The values that reached v, and the others.
  function Reached(xs: seq<real>, v: real): (ys: seq<real>)
    ensures |ys| <= |xs|
  {
    if xs == [] then []
    else Reached(xs[..|xs| - 1], v) + if xs[|xs| - 1] >= v then [xs[|xs| - 1]] else []
  }

  function Below(xs: seq<real>, v: real): (ys: seq<real>) {
    if xs == [] then []
    else Below(xs[..|xs| - 1], v) + if xs[|xs| - 1] >= v then [] else [xs[|xs| - 1]]
  }

  lemma {:induction false} SumsSplit(xs: seq<real>, v: real, m: real)
    ensures |xs| == |Reached(xs, v)| + |Below(xs, v)|
    ensures Deviation(xs, m) == Deviation(Reached(xs, v), m) + Deviation(Below(xs, v), m)
    ensures Squares(xs, m) == Squares(Reached(xs, v), m) + Squares(Below(xs, v), m)
  {
    if xs != [] {
      var front, x := xs[..|xs| - 1], xs[|xs| - 1];
      SumsSplit(front, v, m);
      var reached, below := Reached(front, v), Below(front, v);
      assert (reached + [x])[..|reached|] == reached;
      assert (below + [x])[..|below|] == below;
      assert reached + [] == reached && below + [] == below;
    }
  }

  // Sum of the deviations from m.
  function Deviation(xs: seq<real>, m: real): real {
    if xs == [] then 0.0 else Deviation(xs[..|xs| - 1], m) + (xs[|xs| - 1] - m)
  }

  lemma {:induction false} DeviationIsSum(xs: seq<real>, m: real)
    ensures Deviation(xs, m) == Sum(xs) - |xs| as real * m
  {
    if xs != [] {
      DeviationIsSum(xs[..|xs| - 1], m);
      OneMore((|xs| - 1) as real, m);
    }
  }

  lemma OneMore(n: real, x: real)
    ensures (n + 1.0) * x == n * x + x
  {
  }

  ghost predicate StandsOut(sum: real, k: real, d: real) {
    sum >= k * d
  }

  lemma {:induction false} ReachedStandOut(xs: seq<real>, m: real, v: real)
    ensures StandsOut(Deviation(Reached(xs, v), m), |Reached(xs, v)| as real, v - m)
  {
    if xs != [] {
      var front, x := xs[..|xs| - 1], xs[|xs| - 1];
      var reached := Reached(front, v);
      ReachedStandOut(front, m, v);
      if x >= v {
        assert (reached + [x])[..|reached|] == reached;
        OneMore(|reached| as real, v - m);
      } else {
        assert reached + [] == reached;
      }
    }
  }

  ghost predicate Dominates(squares: real, n: real, sum: real) {
    squares * n >= Square(sum)
  }

  /** The Cauchy-Schwarz inequality: n times the sum of squares is at least the square of the sum. */
  lemma {:induction false} CauchySchwarz(xs: seq<real>, m: real)
    ensures Dominates(Squares(xs, m), |xs| as real, Deviation(xs, m))
  {
    if xs != [] {
      var front := xs[..|xs| - 1];
      CauchySchwarz(front, m);
      CauchyStep(Squares(front, m), Deviation(front, m), |front| as real, xs[|xs| - 1] - m);
    }
  }

  lemma CauchyStep(squares: real, sum: real, n: real, y: real)
    requires squares >= 0.0 && (n == 0.0 ==> squares == 0.0 && sum == 0.0) && (n != 0.0 ==> n >= 1.0)
    requires Dominates(squares, n, sum)
    ensures Dominates(squares + Square(y), n + 1.0, sum + y)
  {
    if n >= 1.0 {
      SumGap(squares, sum, n, y);
    }
    SquareOfSum(sum, y);
    assert (squares + Square(y)) * (n + 1.0) == squares * n + squares + n * Square(y) + Square(y);
  }

  lemma SumGap(squares: real, sum: real, n: real, y: real)
    requires n >= 1.0 && Dominates(squares, n, sum)
    ensures squares + n * Square(y) >= 2.0 * (sum * y)
  {
    SquareOfSum(sum, -(n * y));
    assert Square(-(n * y)) == n * (n * Square(y));
    assert sum * -(n * y) == -(n * (sum * y));
    AverageGap(squares, n, Square(sum), Square(y), sum * y);
  }

  lemma SquareOfSum(x: real, y: real)
    ensures Square(x + y) == Square(x) + 2.0 * (x * y) + Square(y)
  {
  }

  lemma AverageGap(squares: real, n: real, s2: real, y2: real, sy: real)
    requires n >= 1.0 && squares * n >= s2
    requires s2 - 2.0 * (n * sy) + n * (n * y2) >= 0.0
    ensures squares + n * y2 >= 2.0 * sy
  {
    var gap := squares + n * y2 - 2.0 * sy;
    assert gap * n == squares * n + n * (n * y2) - 2.0 * (n * sy);
    if gap < 0.0 {
      ProductIsPositive(-gap, n);
    }
  }

  lemma ProductIsPositive(x: real, y: real)
    requires x > 0.0 && y > 0.0
    ensures x * y > 0.0 && Times(x, y) > 0.0
  {
  }

  lemma SquareIsPositive(d: real)
    requires d > 0.0
    ensures Square(d) > 0.0
  {
    ProductIsPositive(d, d);
  }

  lemma ScaleUp(x: real, y: real, z: real)
    requires x >= y && z >= 0.0
    ensures x * z >= y * z && Times(x, z) >= Times(y, z)
  {
  }

  lemma MeanCentres(xs: seq<real>)
    requires |xs| > 0
    ensures Deviation(xs, Mean(xs)) == 0.0
  {
    DeviationIsSum(xs, Mean(xs));
    Quotient(Sum(xs), |xs| as real);
  }

  lemma Quotient(x: real, y: real)
    requires y > 0.0
    ensures y * (x / y) == x
  {
  }

  lemma NotAllReached(xs: seq<real>, m: real, v: real)
    requires |Reached(xs, v)| > 0 && v > m && Deviation(xs, m) == 0.0
    ensures |Reached(xs, v)| < |xs|
  {
    SumsSplit(xs, v, m);
    ReachedStandOut(xs, m, v);
    ProductIsPositive(|Reached(xs, v)| as real, v - m);
    assert |Reached(xs, v)| == |xs| ==> Below(xs, v) == [];
  }

  // k of n values lie at least d above the mean, the other w values below: squares * w >= k * n * d^2.
  ghost predicate ZBounded(squares: real, k: real, w: real, n: real, d: real) {
    squares * w >= k * n * Square(d)
  }

  /**
   The z-score bound. When k > 0 of the n values reached v and v is above their mean m, then k < n
   and squares * (n-k) >= k * n * (v-m)^2, that is z^2 <= (n-1)(n-k) / (nk): n-k values are below v.
   */
  lemma ZScoreBound(xs: seq<real>, m: real, v: real)
    requires |Reached(xs, v)| > 0 && v > m && Deviation(xs, m) == 0.0
    ensures |Reached(xs, v)| < |xs|
    ensures ZBounded(Squares(xs, m), |Reached(xs, v)| as real, |Below(xs, v)| as real, |xs| as real, v - m)
  {
    var reached, below := Reached(xs, v), Below(xs, v);
    NotAllReached(xs, m, v);
    SumsSplit(xs, v, m);
    CauchySchwarz(reached, m);
    CauchySchwarz(below, m);
    ReachedStandOut(xs, m, v);
    CombineHalves(Squares(reached, m), Squares(below, m), Squares(xs, m), Deviation(reached, m),
                  Deviation(below, m), |reached| as real, |below| as real, |xs| as real, v - m);
  }

  lemma CombineHalves(p: real, q: real, all: real, s: real, s': real, k: real, w: real, n: real, d: real)
    requires all == p + q && n == k + w
    requires k > 0.0 && w > 0.0 && d > 0.0 && StandsOut(s, k, d) && s' == -s
    requires Dominates(p, k, s) && Dominates(q, w, s')
    ensures ZBounded(all, k, w, n, d)
  {
    var e := k * d;
    ProductIsPositive(k, d);
    ScaleUp(s, e, s);
    ScaleUp(s, e, e);
    assert Square(s) >= e * e == k * (k * (d * d));
    var gap := (p + q) * w - k * (k + w) * (d * d);
    assert gap * k == (p * k) * w + (q * w) * k - (k * (k * (d * d))) * (k + w);
    ScaleUp(p * k, e * e, w);
    ScaleUp(q * w, e * e, k);
    if gap < 0.0 {
      ProductIsPositive(-gap, k);
    }
  }

  // With at most 28 values, three of which reached v, the z-score is below 3.
  lemma ThreePeersBound(xs: seq<real>, v: real)
    requires ANOMALY_MIN_BASELINE_DAYS <= |xs| <= ANOMALY_BASELINE_DAYS
    requires |Reached(xs, v)| >= 3 && v > Mean(xs)
    ensures Variance(xs) > 0.0 && Square(v - Mean(xs)) < 9.0 * Variance(xs)
  {
    MeanCentres(xs);
    ZScoreBound(xs, Mean(xs), v);
    SumsSplit(xs, v, Mean(xs));
    BelowThree(Squares(xs, Mean(xs)), |Reached(xs, v)| as real, |Below(xs, v)| as real, |xs| as real,
               v - Mean(xs), (|xs| - 1) as real);
  }

  lemma BelowThree(squares: real, k: real, w: real, n: real, d: real, a: real)
    requires 14.0 <= n <= 28.0 && 3.0 <= k && w > 0.0 && d > 0.0
    requires w == n - k && a == n - 1.0
    requires ZBounded(squares, k, w, n, d)
    ensures squares / a > 0.0 && Square(d) < 9.0 * (squares / a)
  {
    PairCount(n, k);
    ScaleUp(28.0, n, n);
    LinearGap(n, k, a, w);
    CancelWidth(squares, k, w, n, d, a);
  }

  ghost predicate Narrow(a: real, w: real, k: real, n: real) {
    a * w < 9.0 * (k * n)
  }

  lemma PairCount(n: real, k: real)
    requires 14.0 <= n && 3.0 <= k
    ensures 10.0 * (k * n) - k >= 30.0 * n - 3.0
  {
    ScaleUp(k, 3.0, 10.0 * n - 1.0);
    assert k * (10.0 * n - 1.0) == 10.0 * (k * n) - k;
  }

  lemma LinearGap(n: real, k: real, a: real, w: real)
    requires n > 1.0 && n * n <= 28.0 * n && w == n - k && a == n - 1.0
    requires 10.0 * (k * n) - k >= 30.0 * n - 3.0
    ensures Narrow(a, w, k, n)
  {
    assert a * w == n * n - n - k * n + k;
  }

  // From squares * w >= k * n * d^2 and a * w < 9 * k * n: d^2 is below nine times squares / a.
  lemma CancelWidth(squares: real, k: real, w: real, n: real, d: real, a: real)
    requires d > 0.0 && a > 0.0 && w > 0.0 && k > 0.0 && n > 0.0
    requires ZBounded(squares, k, w, n, d) && Narrow(a, w, k, n)
    ensures squares / a > 0.0 && Square(d) < 9.0 * (squares / a)
  {
    var x, kn, aw := Square(d), k * n, a * w;
    SquareIsPositive(d);
    ProductIsPositive(k, n);
    ProductIsPositive(a, w);
    assert Exceeds(squares, w, kn, x);
    assert Exceeds(9.0, kn, a, w) && 9.0 * kn != aw;
    QuotientBound(squares, x, a, w, kn, aw);
  }

  ghost predicate Exceeds(x: real, y: real, x': real, y': real) {
    x * y >= x' * y'
  }

  lemma QuotientBound(squares: real, x: real, a: real, w: real, kn: real, aw: real)
    requires x > 0.0 && a > 0.0 && kn > 0.0 && aw > 0.0 && aw == a * w
    requires Exceeds(squares, w, kn, x) && Exceeds(9.0, kn, a, w) && 9.0 * kn != aw
    ensures squares / a > 0.0 && x < 9.0 * (squares / a)
  {
    var q := squares / a;
    assert squares == q * a;
    assert squares * w == q * aw;
    ProductIsPositive(kn, x);
    ProductIsPositive(9.0 * kn - aw, x);
    if q <= 0.0 {
      ScaleUp(0.0, q, aw);
    }
    if x >= 9.0 * q {
      ScaleUp(x, 9.0 * q, aw);
    }
  }

  lemma ReachedAtLast(t: map<Day, real>, days: seq<Day>, v: real)
    requires Covered(t, days) && days != []
    ensures var front, d := days[..|days| - 1], days[|days| - 1];
            |Reached(ValuesAt(t, days), v)| == |Reached(ValuesAt(t, front), v)| + if t[d] >= v then 1 else 0
  {
    assert ValuesAt(t, days)[..|days| - 1] == ValuesAt(t, days[..|days| - 1]);
  }

  lemma {:induction false} PeersCountAtLeast(t: map<Day, real>, days: seq<Day>, v: real, peers: set<Day>)
    requires Covered(t, days)
    requires forall d | d in peers :: d in days && t[d] >= v
    ensures |peers| <= |Reached(ValuesAt(t, days), v)|
  {
    if peers != {} {
      var first := Pick(peers);
      assert first in days;
      var front, d := days[..|days| - 1], days[|days| - 1];
      assert forall e | e in peers - {d} :: e in front;
      PeersCountAtLeast(t, front, v, peers - {d});
      ReachedAtLast(t, days, v);
      if d in peers {
        assert |peers - {d}| == |peers| - 1;
      } else {
        assert peers - {d} == peers;
      }
    }
  }

  /**
   If three or more days of the trailing window reached the evaluated day's total, the detector
   never reports a spike: 28 days leave no room for a z-score of 3.
   */
  lemma ThreePeersSilence(metric: SpikeMetric, t: map<Day, real>, evalDay: Day, peers: set<Day>)
    requires |peers| >= 3 && evalDay in t
    requires forall d | d in peers :: evalDay - ANOMALY_BASELINE_DAYS <= d < evalDay && d in t && t[d] >= t[evalDay]
    ensures !Judge(metric, t, evalDay).Spike?
  {
    var v, xs := t[evalDay], Baseline(t, evalDay);
    PeersCountAtLeast(t, BaselineDays(t, evalDay), v, peers);
    if |xs| >= ANOMALY_MIN_BASELINE_DAYS && v > Mean(xs) {
      ThreePeersBound(xs, v);
    }
  }

  // -------------------------------------------------------- what an outlier does

  lemma {:induction false} Replace(xs: seq<real>, i: nat, x: real, m: real)
    requires i < |xs|
    ensures Sum(xs[i := x]) == Sum(xs) - xs[i] + x
    ensures Squares(xs[i := x], m) == Squares(xs, m) - Square(xs[i] - m) + Square(x - m)
  {
    var n := |xs| - 1;
    if i == n {
      assert xs[i := x][..n] == xs[..n];
    } else {
      Replace(xs[..n], i, x, m);
      assert xs[i := x][..n] == xs[..n][i := x];
    }
  }

  // A sum of squares around a centre at distance e: its value around m, plus 2e times the
  // deviation from m, plus n * e^2.
  ghost predicate Moved(moved: real, squares: real, e: real, deviation: real, n: real) {
    moved == squares + 2.0 * (e * deviation) + n * Square(e)
  }

  lemma {:induction false} MoveCentre(xs: seq<real>, m: real, c: real)
    ensures Moved(Squares(xs, c), Squares(xs, m), m - c, Deviation(xs, m), |xs| as real)
  {
    if xs != [] {
      var front, x := xs[..|xs| - 1], xs[|xs| - 1];
      var e, y := m - c, x - m;
      MoveCentre(front, m, c);
      MoveStep(Squares(front, c), Squares(front, m), e, Deviation(front, m), |front| as real, y);
      assert x - c == e + y;
      assert Squares(xs, c) == Squares(front, c) + Square(e + y);
      assert Squares(xs, m) == Squares(front, m) + Square(y);
      assert |xs| as real == |front| as real + 1.0;
    }
  }

  lemma MoveStep(moved: real, squares: real, e: real, deviation: real, n: real, y: real)
    requires Moved(moved, squares, e, deviation, n)
    ensures Moved(moved + Square(e + y), squares + Square(y), e, deviation + y, n + 1.0)
  {
    SquareOfSum(e, y);
    OneMore(n, Square(e));
    assert e * (deviation + y) == e * deviation + e * y;
  }

  // n times the change of the sum of squares when a value that lies gap below the mean moves by d.
  ghost predicate SquaresChange(before: real, after: real, n: real, d: real, gap: real) {
    n * (after - before) == d * ((n - 1.0) * d - 2.0 * (n * gap))
  }

  /** What replacing one value does to the mean and to the sum of squares around it. */
  lemma ReplaceMoves(xs: seq<real>, i: nat, x: real)
    requires i < |xs|
    ensures IsQuotient(Mean(xs[i := x]) - Mean(xs), x - xs[i], |xs| as real)
    ensures SquaresChange(Squares(xs, Mean(xs)), Squares(xs[i := x], Mean(xs[i := x])), |xs| as real, x - xs[i],
                          Mean(xs) - xs[i])
  {
    var ys, n, m, m' := xs[i := x], |xs| as real, Mean(xs), Mean(xs[i := x]);
    Replace(xs, i, x, m);
    MeanCentres(ys);
    MoveCentre(ys, m', m);
    MeansDiffer(Sum(xs), Sum(ys), n);
    ReplaceScalars(Squares(xs, m), Squares(ys, m), Squares(ys, m'), n, m' - m, xs[i] - m, x - xs[i]);
    assert x - m == (xs[i] - m) + (x - xs[i]);
  }

  ghost predicate IsQuotient(e: real, delta: real, n: real) {
    n * e == delta
  }

  lemma MeansDiffer(s: real, s': real, n: real)
    requires n > 0.0
    ensures IsQuotient(s' / n - s / n, s' - s, n)
  {
    Quotient(s, n);
    Quotient(s', n);
  }

  lemma ReplaceScalars(before: real, shifted: real, after: real, n: real, e: real, y: real, d: real)
    requires n >= 1.0 && IsQuotient(e, d, n)
    requires shifted == before - Square(y) + Square(y + d) && Moved(shifted, after, e, 0.0, n)
    ensures SquaresChange(before, after, n, d, -y)
  {
    SquareOfSum(y, d);
    assert Square(d) == n * (n * Square(e));
    assert after - before == 2.0 * (y * d) + Square(d) - n * Square(e);
    assert n * (after - before) == 2.0 * (n * (y * d)) + n * Square(d) - n * (n * Square(e));
    assert d * ((n - 1.0) * d - 2.0 * (n * -y)) == n * Square(d) - Square(d) + 2.0 * (n * (y * d));
  }

  // The value is raised by d, but by too little to make up for lying gap below the mean.
  ghost predicate Tightens(n: real, d: real, gap: real) {
    d > 0.0 && (n - 1.0) * d < 2.0 * (n * gap)
  }

  /** Raising a value lowers the sum of squares exactly when it starts below the mean and moves less than 2n/(n-1) of the gap. */
  lemma SquaresFallExactly(xs: seq<real>, i: nat, x: real)
    requires i < |xs| && xs[i] <= x
    ensures Mean(xs) <= Mean(xs[i := x])
    ensures Squares(xs[i := x], Mean(xs[i := x])) < Squares(xs, Mean(xs))
       <==> Tightens(|xs| as real, x - xs[i], Mean(xs) - xs[i])
  {
    ReplaceMoves(xs, i, x);
    FallScalars(Squares(xs, Mean(xs)), Squares(xs[i := x], Mean(xs[i := x])), |xs| as real, x - xs[i],
                Mean(xs) - xs[i], Mean(xs[i := x]) - Mean(xs));
  }

  /** The variance falls under the same condition. */
  lemma VarianceFallsExactly(xs: seq<real>, i: nat, x: real)
    requires i < |xs| && |xs| > 1 && xs[i] <= x
    ensures Variance(xs[i := x]) < Variance(xs) <==> Tightens(|xs| as real, x - xs[i], Mean(xs) - xs[i])
  {
    SquaresFallExactly(xs, i, x);
    DivisionKeepsOrder(Squares(xs[i := x], Mean(xs[i := x])), Squares(xs, Mean(xs)), (|xs| - 1) as real);
  }

  lemma DivisionKeepsOrder(p: real, q: real, a: real)
    requires a > 0.0
    ensures p / a < q / a <==> p < q
  {
    Quotient(p, a);
    Quotient(q, a);
    if p < q {
      VarianceGrows(p, q, a);
    } else {
      VarianceGrows(q, p, a);
    }
  }

  lemma FallScalars(before: real, after: real, n: real, d: real, gap: real, e: real)
    requires n >= 1.0 && d >= 0.0 && SquaresChange(before, after, n, d, gap) && IsQuotient(e, d, n)
    ensures e >= 0.0
    ensures after < before <==> Tightens(n, d, gap)
  {
    var w := (n - 1.0) * d - 2.0 * (n * gap);
    SignOfProduct(n, e);
    SignOfProduct(n, after - before);
    SignOfProduct(d, w);
  }

  // A product with a positive factor has the sign of the other factor.
  lemma SignOfProduct(x: real, y: real)
    requires x >= 0.0
    ensures x > 0.0 ==> (x * y < 0.0 <==> y < 0.0)
    ensures y >= 0.0 ==> x * y >= 0.0
    ensures x == 0.0 ==> x * y == 0.0
  {
    if x > 0.0 && y < 0.0 {
      ProductIsPositive(x, -y);
    }
  }

  lemma VarianceGrows(p: real, q: real, a: real)
    requires p <= q && a > 0.0
    ensures p / a <= q / a
  {
    if p / a > q / a {
      ProductIsPositive(p / a - q / a, a);
    }
  }

  // The gates get harder when the mean and the variance rise, and easier when the value rises.
  lemma GatesAreMonotone(metric: SpikeMetric, v: real, v': real, m: real, m': real, s: real, s': real)
    requires 0.0 < m <= m' && s' >= s >= 0.0 && v' <= v
    requires Fires(metric, v', m', s')
    ensures Fires(metric, v, m, s)
  {
    var d, d' := v - m, v' - m';
    SquareIsMonotone(d', d);
    FactorIsMonotone(v', m', v, m);
    if s > 0.0 {
      assert Square(d) >= Square(d') >= ANOMALY_Z_THRESHOLD * ANOMALY_Z_THRESHOLD * s';
    }
  }

  lemma SquareIsMonotone(x: real, y: real)
    requires 0.0 <= x <= y
    ensures Square(x) <= Square(y)
  {
    ScaleUp(y, x, y);
    ScaleUp(y, x, x);
    assert Times(x, y) == Times(y, x);
  }

  lemma FactorIsMonotone(v': real, m': real, v: real, m: real)
    requires 0.0 < m <= m' && v' <= v && v' / m' >= ANOMALY_FACTOR_FLOOR
    ensures v / m >= ANOMALY_FACTOR_FLOOR
  {
    Quotient(v', m');
    Quotient(v, m);
    ScaleUp(v' / m', ANOMALY_FACTOR_FLOOR, m');
    if v / m < ANOMALY_FACTOR_FLOOR {
      ProductIsPositive(ANOMALY_FACTOR_FLOOR - v / m, m);
    }
  }

  // Raising one day leaves the other days of the baseline as they are.
  lemma BaselineAfterRaise(t: map<Day, real>, evalDay: Day, day: Day, total: real) returns (i: nat)
    requires day in t && evalDay - ANOMALY_BASELINE_DAYS <= day < evalDay
    ensures i < |Baseline(t, evalDay)| && Baseline(t, evalDay)[i] == t[day]
    ensures Baseline(t[day := total], evalDay) == Baseline(t, evalDay)[i := total]
  {
    var t', days := t[day := total], BaselineDays(t, evalDay);
    SameMeasuredDays(t, t', evalDay - ANOMALY_BASELINE_DAYS, evalDay - 1);
    assert day in days;
    i :| 0 <= i < |days| && days[i] == day;
    assert Baseline(t', evalDay) == Baseline(t, evalDay)[i := total];
  }

  /**
   Outliers only suppress. With a positive baseline mean, raising the total of a baseline day never turns
   "no spike" into a spike unless the raise tightens the baseline: a day at or above the mean may be raised
   by anything, and a day below it by at least 2n/(n-1) times the gap.
   */
  lemma OutliersOnlySuppress(metric: SpikeMetric, t: map<Day, real>, evalDay: Day, day: Day, total: real)
    requires day in t && evalDay - ANOMALY_BASELINE_DAYS <= day < evalDay && t[day] <= total
    requires |Baseline(t, evalDay)| > 0 && 0.0 < Mean(Baseline(t, evalDay))
    requires !Tightens(|Baseline(t, evalDay)| as real, total - t[day], Mean(Baseline(t, evalDay)) - t[day])
    requires Judge(metric, t[day := total], evalDay).Spike?
    ensures Judge(metric, t, evalDay).Spike?
  {
    var i := BaselineAfterRaise(t, evalDay, day, total);
    RaisedDecision(metric, evalDay, ValueOn(t, evalDay), Baseline(t, evalDay), i, total);
  }

  lemma RaisedDecision(metric: SpikeMetric, day: Day, v: real, xs: seq<real>, i: nat, x: real)
    requires i < |xs| && xs[i] <= x && 0.0 < Mean(xs) && !Tightens(|xs| as real, x - xs[i], Mean(xs) - xs[i])
    requires Decide(metric, day, v, xs[i := x]).Spike?
    ensures Decide(metric, day, v, xs).Spike?
  {
    var xs' := xs[i := x];
    SquaresFallExactly(xs, i, x);
    VarianceGrows(Squares(xs, Mean(xs)), Squares(xs', Mean(xs')), (|xs| - 1) as real);
    VarianceGrows(0.0, Squares(xs, Mean(xs)), (|xs| - 1) as real);
    GatesAreMonotone(metric, v, v, Mean(xs), Mean(xs'), Variance(xs), Variance(xs'));
  }

  lemma {:induction false} SameMeasuredDays(t: map<Day, real>, t': map<Day, real>, from: Day, to: Day)
    requires forall d | from <= d <= to :: d in t <==> d in t'
    ensures MeasuredDays(t, from, to) == MeasuredDays(t', from, to)
    decreases if from <= to then to - from + 1 else 0
  {
    if from <= to {
      SameMeasuredDays(t, t', from, to - 1);
    }
  }

  /** Raising the evaluated day's own total never turns a spike into "no spike". */
  lemma MoreOnTheDayStillFires(metric: SpikeMetric, t: map<Day, real>, evalDay: Day, total: real)
    requires Judge(metric, t, evalDay).Spike? && total >= ValueOn(t, evalDay)
    ensures Judge(metric, t[evalDay := total], evalDay).Spike?
  {
    var xs := Baseline(t, evalDay);
    SameMeasuredDays(t, t[evalDay := total], evalDay - ANOMALY_BASELINE_DAYS, evalDay - 1);
    assert Baseline(t[evalDay := total], evalDay) == xs;
    VarianceGrows(0.0, Squares(xs, Mean(xs)), (|xs| - 1) as real);
    GatesAreMonotone(metric, total, ValueOn(t, evalDay), Mean(xs), Mean(xs), Variance(xs), Variance(xs));
  }

  // ---------------------------------------------------------------- witnesses

  // The totals of n consecutive days from day 0: the first k are a, the others b.
  function TwoLevels(n: nat, k: nat, a: real, b: real): (t: map<Day, real>)
    ensures forall d :: d in t <==> 0 <= d < n
    ensures forall d | 0 <= d < n :: t[d] == if d < k then a else b
  {
    if n == 0 then map[] else TwoLevels(n - 1, k, a, b)[n - 1 := if n - 1 < k then a else b]
  }

  lemma {:induction false} ConsecutiveDays(t: map<Day, real>, from: Day, to: Day)
    requires from <= to + 1
    requires forall d | from <= d <= to :: d in t
    ensures |MeasuredDays(t, from, to)| == to - from + 1
    ensures forall i | 0 <= i <= to - from :: MeasuredDays(t, from, to)[i] == from + i
    decreases if from <= to then to - from + 1 else 0
  {
    if from <= to {
      ConsecutiveDays(t, from, to - 1);
    }
  }

  lemma {:induction false} LevelSums(xs: seq<real>, k: nat, a: real, b: real, m: real)
    requires k <= |xs| && forall i | 0 <= i < |xs| :: xs[i] == if i < k then a else b
    ensures Sum(xs) == k as real * a + (|xs| - k) as real * b
    ensures Squares(xs, m) == k as real * Square(a - m) + (|xs| - k) as real * Square(b - m)
  {
    if xs != [] {
      var front := xs[..|xs| - 1];
      LevelSums(front, if k == |xs| then k - 1 else k, a, b, m);
      if k == |xs| {
        OneMore((k - 1) as real, a);
        OneMore((k - 1) as real, Square(a - m));
      } else {
        OneMore((|front| - k) as real, b);
        OneMore((|front| - k) as real, Square(b - m));
      }
    }
  }

  lemma BaselineOfLevels(n: nat, k: nat, a: real, b: real, v: real) returns (t: map<Day, real>, xs: seq<real>)
    requires k <= n <= ANOMALY_BASELINE_DAYS
    ensures t == TwoLevels(n, k, a, b)[n := v] && xs == Baseline(t, n) && |xs| == n
    ensures forall i | 0 <= i < n :: xs[i] == if i < k then a else b
    ensures n in t && t[n] == v && Judge(Spend, t, n) == Decide(Spend, n, v, xs)
  {
    t := TwoLevels(n, k, a, b)[n := v];
    xs := Baseline(t, n);
    ConsecutiveDays(t, 0, n - 1);
    SkipUnmeasured(t, n - ANOMALY_BASELINE_DAYS, 0, n - 1);
  }

  lemma {:induction false} SkipUnmeasured(t: map<Day, real>, from: Day, start: Day, to: Day)
    requires from <= start && forall d | from <= d < start :: d !in t
    ensures MeasuredDays(t, from, to) == MeasuredDays(t, start, to)
    decreases if from <= to then to - from + 1 else 0
  {
    if from <= to {
      SkipUnmeasured(t, from, start, to - 1);
    }
  }

  lemma LevelStatistics(xs: seq<real>, k: nat, a: real, b: real, m: real, squares: real)
    requires k <= |xs| && |xs| > 1 && forall i | 0 <= i < |xs| :: xs[i] == if i < k then a else b
    requires k as real * a + (|xs| - k) as real * b == |xs| as real * m
    requires k as real * Square(a - m) + (|xs| - k) as real * Square(b - m) == squares
    ensures Mean(xs) == m && Variance(xs) == squares / (|xs| - 1) as real
  {
    LevelSums(xs, k, a, b, m);
    Quotient(Sum(xs), |xs| as real);
    var gap := Mean(xs) - m;
    assert |xs| as real * gap == 0.0;
  }

  /** The number three is tight: with two of 28 days at the evaluated total, a spike is reported. */
  lemma TwoPeersCanFire() returns (t: map<Day, real>, evalDay: Day, p: Day, q: Day)
    ensures evalDay - ANOMALY_BASELINE_DAYS <= p < q < evalDay && p in t && q in t && evalDay in t
    ensures t[p] >= t[evalDay] && t[q] >= t[evalDay] && Judge(Spend, t, evalDay).Spike?
  {
    var n := ANOMALY_BASELINE_DAYS;
    var xs;
    t, xs := BaselineOfLevels(n, 2, 1400.0, 0.0, 1400.0);
    evalDay, p, q := n, 0, 1;
    FireTwo(xs);
  }

  lemma FireTwo(xs: seq<real>)
    requires |xs| == 28 && forall i | 0 <= i < |xs| :: xs[i] == if i < 2 then 1400.0 else 0.0
    ensures forall day :: Decide(Spend, day, 1400.0, xs).Spike?
  {
    LevelStatistics(xs, 2, 1400.0, 0.0, 100.0, 3_640_000.0);
    assert Fires(Spend, 1400.0, 100.0, 3_640_000.0 / 27.0);
  }

  /**
   A raise that tightens the baseline can turn "no spike" into a spike: a low day raised to the level of
   the high ones.
   */
  lemma RaisingLowDayCanFire() returns (t: map<Day, real>, evalDay: Day, day: Day, total: real)
    ensures day in t && evalDay - ANOMALY_BASELINE_DAYS <= day < evalDay && |Baseline(t, evalDay)| > 0
    ensures t[day] < Mean(Baseline(t, evalDay)) < total && |Baseline(t, evalDay)| > 0
    ensures Tightens(|Baseline(t, evalDay)| as real, total - t[day], Mean(Baseline(t, evalDay)) - t[day])
    ensures Judge(Spend, t, evalDay) == NoSpike && Judge(Spend, t[day := total], evalDay).Spike?
  {
    var n := ANOMALY_MIN_BASELINE_DAYS;
    var xs, t', xs';
    evalDay, day, total := n, 10, 1400.0;
    t, xs := BaselineOfLevels(n, 10, 1400.0, 0.0, 2940.0);
    t', xs' := BaselineOfLevels(n, 11, 1400.0, 0.0, 2940.0);
    FireAfterRaise(xs, xs');
    RaiseLevel(n, 10, 1400.0, 0.0, 2940.0);
  }

  // Raising the first of the low days makes one more high day.
  lemma RaiseLevel(n: nat, k: nat, a: real, b: real, v: real)
    requires k < n
    ensures TwoLevels(n, k, a, b)[n := v][k] == b
    ensures TwoLevels(n, k, a, b)[n := v][k := a] == TwoLevels(n, k + 1, a, b)[n := v]
  {
  }

  lemma FireAfterRaise(xs: seq<real>, xs': seq<real>)
    requires |xs| == |xs'| == 14
    requires forall i | 0 <= i < |xs| :: xs[i] == if i < 10 then 1400.0 else 0.0
    requires forall i | 0 <= i < |xs'| :: xs'[i] == if i < 11 then 1400.0 else 0.0
    ensures Mean(xs) == 1000.0 && Tightens(|xs| as real, 1400.0, 1000.0)
    ensures forall day :: Decide(Spend, day, 2940.0, xs) == NoSpike
    ensures forall day :: Decide(Spend, day, 2940.0, xs').Spike?
  {
    LevelStatistics(xs, 10, 1400.0, 0.0, 1000.0, 5_600_000.0);
    assert !Fires(Spend, 2940.0, 1000.0, 5_600_000.0 / 13.0);
    LevelStatistics(xs', 11, 1400.0, 0.0, 1100.0, 4_620_000.0);
    assert Fires(Spend, 2940.0, 1100.0, 4_620_000.0 / 13.0);
  }

  /**
   A baseline of nothing but zeros keeps the detector silent, and a single huge outlier in it ends that: the
   same total of the day is then a spike, although the raise tightens nothing.
   */
  lemma RaisingFromZeroCanFire() returns (t: map<Day, real>, evalDay: Day, day: Day, total: real)
    ensures day in t && evalDay - ANOMALY_BASELINE_DAYS <= day < evalDay && |Baseline(t, evalDay)| > 0
    ensures Mean(Baseline(t, evalDay)) == t[day] == 0.0 < total
    ensures !Tightens(|Baseline(t, evalDay)| as real, total - t[day], Mean(Baseline(t, evalDay)) - t[day])
    ensures Judge(Spend, t, evalDay) == NoSpike && Judge(Spend, t[day := total], evalDay).Spike?
  {
    evalDay := ANOMALY_MIN_BASELINE_DAYS;
    t := ZeroLevels(evalDay);
    day, total := 0, 7000.0;
    ZerosDoNotTighten(Baseline(t, evalDay));
  }

  // Fourteen zeros, and the same with the first day raised.
  lemma ZeroLevels(n: nat) returns (t: map<Day, real>)
    requires n == 14
    ensures 0 in t && t[0] == 0.0
    ensures |Baseline(t, n)| == 14 && Mean(Baseline(t, n)) == 0.0
    ensures Judge(Spend, t, n) == NoSpike && Judge(Spend, t[0 := 7000.0], n).Spike?
  {
    var xs, t', xs';
    t, xs := BaselineOfLevels(n, 0, 7000.0, 0.0, 6200.0);
    t', xs' := BaselineOfLevels(n, 1, 7000.0, 0.0, 6200.0);
    FireAfterZeros(xs, xs', n);
    RaiseLevel(n, 0, 7000.0, 0.0, 6200.0);
  }

  lemma ZerosDoNotTighten(xs: seq<real>)
    requires |xs| == 14 && Mean(xs) == 0.0
    ensures !Tightens(|xs| as real, 7000.0 - 0.0, Mean(xs) - 0.0)
  {
  }

  lemma FireAfterZeros(xs: seq<real>, xs': seq<real>, day: Day)
    requires |xs| == |xs'| == 14
    requires forall i | 0 <= i < |xs| :: xs[i] == 0.0
    requires forall i | 0 <= i < |xs'| :: xs'[i] == if i < 1 then 7000.0 else 0.0
    ensures Mean(xs) == 0.0
    ensures Decide(Spend, day, 6200.0, xs) == NoSpike
    ensures Decide(Spend, day, 6200.0, xs').Spike?
  {
    LevelStatistics(xs, 0, 7000.0, 0.0, 0.0, 0.0);
    LevelStatistics(xs', 1, 7000.0, 0.0, 500.0, 45_500_000.0);
    assert Fires(Spend, 6200.0, 500.0, 45_500_000.0 / 13.0);
  }
}
