/**
 When a changed baseline day can only silence the spike detector of src/lib/anomaly.ts. The evaluated
 value fires when it reaches the largest of three thresholds: three deviations above the mean, twice the
 mean, and the mean plus the absolute floor. Deviations are compared on squares.
 */
module Outliers {
  import opened Anomaly

  function Max(x: real, y: real): real {
    if x >= y then x else y
  }

  // The part of the threshold that does not depend on the variance.
  function Floor(mean: real, delta: real): real {
    Max(2.0 * mean, mean + delta)
  }

  // v reaches the threshold of a baseline; bound is nine times its variance.
  ghost predicate Reaches(v: real, mean: real, bound: real, delta: real) {
    v >= Floor(mean, delta) && Square(v - mean) >= bound
  }

  lemma FiresMeaning(metric: SpikeMetric, v: real, mean: real, variance: real)
    requires mean > 0.0 && variance >= 0.0
    ensures Fires(metric, v, mean, variance) <==> Reaches(v, mean, 9.0 * variance, MinAbsDelta(metric))
  {
    AtLeastTwice(v, mean);
  }

  /**
   The new threshold, for a mean raised by e, is at least the old one: its floor is already three old
   deviations above the old mean, or e plus three new deviations is at least three old ones. The bounds are
   nine times the variances, so the second case compares e + sqrt(bound') with sqrt(bound).
   */
  ghost predicate NoLower(mean: real, bound: real, mean': real, bound': real, delta: real) {
    var e := mean' - mean;
    var gap := bound - bound' - Square(e);
    Square(Floor(mean', delta) - mean) >= bound || gap <= 0.0 || 4.0 * Times(Square(e), bound') >= Square(gap)
  }

  // ---------- A threshold that is no lower admits nothing new ----------

  lemma SquareReflects(x: real, y: real)
    requires x >= 0.0 && Square(x) >= Square(y)
    ensures x >= y
  {
    assert (y - x) * (y + x) == Square(y) - Square(x);
    if x < y {
      ProductIsPositive(y - x, y + x);
    }
  }

  lemma NoLowerAdmitsNothing(v: real, mean: real, bound: real, mean': real, bound': real, delta: real)
    requires 0.0 < mean <= mean' && delta > 0.0 && bound >= 0.0 && bound' >= 0.0
    requires NoLower(mean, bound, mean', bound', delta) && Reaches(v, mean', bound', delta)
    ensures Reaches(v, mean, bound, delta)
  {
    var e, y := mean' - mean, v - mean';
    if Square(Floor(mean', delta) - mean) >= bound {
      SquareIsMonotone(Floor(mean', delta) - mean, v - mean);
    } else {
      assert v - mean == e + y;
      SumReaches(e, y, bound, bound');
    }
  }

  lemma SumReaches(e: real, y: real, bound: real, bound': real)
    requires e >= 0.0 && y >= 0.0 && Square(y) >= bound' >= 0.0
    requires var gap := bound - bound' - Square(e); gap <= 0.0 || 4.0 * Times(Square(e), bound') >= Square(gap)
    ensures Square(e + y) >= bound
  {
    var gap := bound - bound' - Square(e);
    SquareOfSum(e, y);
    ScaleUp(e, 0.0, y);
    if gap > 0.0 {
      ScaleUp(Square(y), bound', Square(e));
      SquareOfTwice(e, y);
      SquareReflects(2.0 * (e * y), gap);
    }
  }

  lemma SquareOfTwice(e: real, y: real)
    ensures Square(2.0 * (e * y)) == 4.0 * Times(Square(e), Square(y))
    ensures Times(Square(y), Square(e)) == Times(Square(e), Square(y))
  {
    var p := e * y;
    assert Square(2.0 * p) == 4.0 * (p * p);
    assert p * p == (e * e) * (y * y);
  }

  // ---------- A lower threshold admits a value ----------

  // y is at most k steps of width h away from zero.
  ghost predicate WithinSteps(y: real, h: real, k: nat) {
    y <= k as real * h
  }

  lemma StepDown(y: real, h: real, k: nat)
    requires k > 0 && WithinSteps(y, h, k)
    ensures WithinSteps(y - h, h, k - 1)
  {
    var n := k as real;
    assert (n - 1.0) * h == n * h - h;
    assert (k - 1) as real == n - 1.0;
  }

  // The square of y reaches a by a margin that shrinks with h.
  ghost predicate NearRoot(y: real, a: real, h: real) {
    a <= Square(y) <= a + h * (2.0 * a + 3.0)
  }

  // Going down from start in steps of h: the last point whose square still reaches a.
  lemma {:induction false} GridRoot(a: real, h: real, start: real, k: nat) returns (y: real)
    requires a >= 0.0 && 0.0 < h <= 1.0 && start >= 0.0 && Square(start) >= a && WithinSteps(start, h, k)
    ensures y >= 0.0 && NearRoot(y, a, h)
    decreases k
  {
    y := start;
    if start < h || k == 0 {
      SmallRoot(a, h, start, k);
    } else {
      var p := start - h;
      StepDown(start, h, k);
      if Square(p) >= a {
        y := GridRoot(a, h, p, k - 1);
      } else {
        NextPoint(a, h, p, start);
      }
    }
  }

  lemma SmallRoot(a: real, h: real, y: real, k: nat)
    requires a >= 0.0 && 0.0 < h <= 1.0 && y >= 0.0 && (y < h || k == 0) && WithinSteps(y, h, k) && Square(y) >= a
    ensures NearRoot(y, a, h)
  {
    assert k == 0 ==> k as real * h == 0.0;
    SquareIsMonotone(y, h);
    ScaleUp(1.0, h, h);
    ScaleUp(2.0 * a + 3.0, 1.0, h);
    assert Square(h) == Times(h, h);
  }

  lemma NextPoint(a: real, h: real, p: real, y: real)
    requires a >= 0.0 && 0.0 < h <= 1.0 && p >= 0.0 && Square(p) < a <= Square(y) && y == p + h
    ensures NearRoot(y, a, h)
  {
    RootIsBelow(a, p);
    SquareOfSum(p, h);
    ScaleUp(a + 1.0, p, h);
    ScaleUp(1.0, h, h);
    StepBound(a, h, p * h, Square(p), Square(h));
  }

  lemma RootIsBelow(a: real, p: real)
    requires a >= 0.0 && Square(p) < a
    ensures p <= a + 1.0
  {
    SquareOfSum(a, 1.0);
    assert Square(1.0) == 1.0 && a * 1.0 == a;
    if p > a + 1.0 {
      SquareIsMonotone(a + 1.0, p);
    }
  }

  lemma StepBound(a: real, h: real, ph: real, p2: real, h2: real)
    requires p2 < a && ph <= (a + 1.0) * h && h2 <= 1.0 * h
    ensures p2 + 2.0 * ph + h2 <= a + h * (2.0 * a + 3.0)
  {
    var ah := a * h;
    assert (a + 1.0) * h == ah + h && h * (2.0 * a + 3.0) == 2.0 * ah + 3.0 * h;
  }

  /** Between any two bounds lies the square of a number. */
  lemma SquareBetween(a: real, b: real) returns (y: real)
    requires 0.0 <= a < b
    ensures y >= 0.0 && a <= Square(y) <= b
  {
    var width := 2.0 * a + 3.0;
    var h := if (b - a) / width <= 1.0 then (b - a) / width else 1.0;
    Quotient(b - a, width);
    QuotientIsPositive(b - a, width);
    ScaleUp((b - a) / width, h, width);
    var k := ReachWithSteps(a + 1.0, h);
    SquareOfSum(a, 1.0);
    assert Square(1.0) == 1.0;
    y := GridRoot(a, h, a + 1.0, k);
  }

  lemma QuotientIsPositive(x: real, y: real)
    requires x > 0.0 && y > 0.0
    ensures x / y > 0.0
  {
  }

  lemma ReachWithSteps(target: real, h: real) returns (k: nat)
    requires target >= 0.0 && h > 0.0
    ensures WithinSteps(target, h, k)
  {
    var q := target / h;
    assert q >= 0.0;
    k := q.Floor + 1;
    Quotient(target, h);
    ScaleUp(k as real, q, h);
  }

  lemma SumMisses(e: real, bound: real, bound': real) returns (y: real)
    requires e >= 0.0 && bound' >= 0.0
    requires var gap := bound - bound' - Square(e); gap > 0.0 && 4.0 * Times(Square(e), bound') < Square(gap)
    ensures y >= 0.0 && Square(y) >= bound' && Square(e + y) < bound
  {
    var gap := bound - bound' - Square(e);
    var room := Square(gap) - 4.0 * Times(Square(e), bound');
    var width := 8.0 * Square(e) + 4.0 * gap;
    var slack := room / width;
    Quotient(room, width);
    QuotientIsPositive(room, width);
    y := SquareBetween(bound', bound' + slack);
    SlackIsSmall(gap, Square(e), bound', slack);
    TwiceIsLess(e, y, gap, slack, bound');
    SquareOfSum(e, y);
  }

  // slack * (8 e2 + 4 gap) == gap^2 - 4 e2 bound'
  lemma SlackIsSmall(gap: real, e2: real, bound': real, slack: real)
    requires gap > 0.0 && e2 >= 0.0 && bound' >= 0.0 && slack > 0.0
    requires (8.0 * e2 + 4.0 * gap) * slack == Square(gap) - 4.0 * Times(e2, bound')
    ensures 2.0 * slack <= gap
    ensures 4.0 * Times(e2, bound' + slack) < Square(gap - slack)
  {
    ScaleUp(bound', 0.0, e2);
    ScaleUp(e2, 0.0, slack);
    ProductIsPositive(gap, slack);
    var product := gap * slack;
    assert (8.0 * e2 + 4.0 * gap) * slack == 8.0 * (e2 * slack) + 4.0 * product;
    assert 4.0 * product <= Square(gap);
    if 2.0 * slack > gap {
      ProductIsPositive(2.0 * slack - gap, gap);
      assert (2.0 * slack - gap) * gap == 2.0 * product - Square(gap);
      SquareIsPositive(gap);
    }
    assert Times(e2, bound' + slack) == Times(e2, bound') + e2 * slack;
    SquareOfSum(gap, -slack);
    assert gap * -slack == -product;
    assert Square(-slack) >= 0.0;
  }

  lemma TwiceIsLess(e: real, y: real, gap: real, slack: real, bound': real)
    requires e >= 0.0 && y >= 0.0 && slack > 0.0 && 2.0 * slack <= gap
    requires Square(y) <= bound' + slack && 4.0 * Times(Square(e), bound' + slack) < Square(gap - slack)
    ensures 2.0 * (e * y) < gap - slack
  {
    ScaleUp(bound' + slack, Square(y), Square(e));
    assert Times(bound' + slack, Square(e)) == Times(Square(e), bound' + slack);
    SquareOfTwice(e, y);
    ScaleUp(e, 0.0, y);
    if 2.0 * (e * y) >= gap - slack {
      SquareIsMonotone(gap - slack, 2.0 * (e * y));
    }
  }

  lemma LowerAdmits(mean: real, bound: real, mean': real, bound': real, delta: real) returns (v: real)
    requires 0.0 < mean <= mean' && delta > 0.0 && bound >= 0.0 && bound' >= 0.0
    requires !NoLower(mean, bound, mean', bound', delta)
    ensures Reaches(v, mean', bound', delta) && !Reaches(v, mean, bound, delta)
  {
    v := Floor(mean', delta);
    if Square(v - mean') < bound' {
      var e := mean' - mean;
      var y := SumMisses(e, bound, bound');
      SquareReflects(y, v - mean');
      v := mean' + y;
      assert v - mean == e + y && v - mean' == y;
    }
  }

  // A baseline with a positive mean fires for a large enough value.
  lemma SomeValueReaches(mean: real, bound: real, delta: real) returns (v: real)
    requires mean > 0.0 && delta > 0.0 && bound >= 0.0
    ensures Reaches(v, mean, bound, delta)
  {
    var y := mean + delta + bound + 1.0;
    v := mean + y;
    ScaleUp(y, 1.0, y);
    assert Times(y, y) == Square(y);
  }

  // ---------- Raising one baseline day ----------

  // No evaluated value can turn from silence to a spike when the baseline xs becomes ys: too few days are
  // measured, the new mean is not positive, or the new threshold is at least the old one.
  ghost predicate OnlySuppresses(metric: SpikeMetric, xs: seq<real>, ys: seq<real>)
    requires |xs| == |ys| > 0
  {
    || |xs| < ANOMALY_MIN_BASELINE_DAYS
    || Mean(ys) <= 0.0
    || (Mean(xs) > 0.0 &&
        NoLower(Mean(xs), 9.0 * Variance(xs), Mean(ys), 9.0 * Variance(ys), MinAbsDelta(metric)))
  }

  lemma VarianceIsNotNegative(xs: seq<real>)
    requires |xs| > 1
    ensures Variance(xs) >= 0.0
  {
    VarianceGrows(0.0, Squares(xs, Mean(xs)), (|xs| - 1) as real);
  }

  lemma DecideMeaning(metric: SpikeMetric, day: Day, v: real, xs: seq<real>)
    requires |xs| >= ANOMALY_MIN_BASELINE_DAYS
    ensures Decide(metric, day, v, xs).Spike? <==>
            Mean(xs) > 0.0 && Reaches(v, Mean(xs), 9.0 * Variance(xs), MinAbsDelta(metric))
  {
    VarianceIsNotNegative(xs);
    if Mean(xs) > 0.0 {
      FiresMeaning(metric, v, Mean(xs), Variance(xs));
    }
  }

  lemma SuppressedValue(metric: SpikeMetric, day: Day, v: real, xs: seq<real>, ys: seq<real>)
    requires |xs| == |ys| > 0 && Mean(xs) <= Mean(ys) && OnlySuppresses(metric, xs, ys)
    requires Decide(metric, day, v, ys).Spike?
    ensures Decide(metric, day, v, xs).Spike?
  {
    DecideMeaning(metric, day, v, xs);
    DecideMeaning(metric, day, v, ys);
    VarianceIsNotNegative(xs);
    VarianceIsNotNegative(ys);
    NoLowerAdmitsNothing(v, Mean(xs), 9.0 * Variance(xs), Mean(ys), 9.0 * Variance(ys), MinAbsDelta(metric));
  }

  lemma FabricatedValue(metric: SpikeMetric, day: Day, xs: seq<real>, ys: seq<real>) returns (v: real)
    requires |xs| == |ys| > 0 && Mean(xs) <= Mean(ys) && !OnlySuppresses(metric, xs, ys)
    ensures Decide(metric, day, v, ys).Spike? && !Decide(metric, day, v, xs).Spike?
  {
    var delta := MinAbsDelta(metric);
    VarianceIsNotNegative(xs);
    VarianceIsNotNegative(ys);
    if Mean(xs) <= 0.0 {
      v := SomeValueReaches(Mean(ys), 9.0 * Variance(ys), delta);
    } else {
      v := LowerAdmits(Mean(xs), 9.0 * Variance(xs), Mean(ys), 9.0 * Variance(ys), delta);
    }
    DecideMeaning(metric, day, v, xs);
    DecideMeaning(metric, day, v, ys);
  }

  // With total on day instead, the evaluated value v is a spike that it was not before.
  ghost predicate Fabricates(metric: SpikeMetric, t: map<Day, real>, evalDay: Day, day: Day, total: real, v: real) {
    && Judge(metric, t[day := total][evalDay := v], evalDay).Spike?
    && !Judge(metric, t[evalDay := v], evalDay).Spike?
  }

  /**
   Exactly when raising a baseline day only suppresses: no total of the evaluated day, whatever it is,
   turns from silence to a spike if and only if the new threshold is at least the old one (or the detector
   stays silent on the new baseline).
   */
  lemma RaiseOnlySuppressesExactly(metric: SpikeMetric, t: map<Day, real>, evalDay: Day, day: Day, total: real)
    requires day in t && evalDay - ANOMALY_BASELINE_DAYS <= day < evalDay && t[day] <= total
    ensures |Baseline(t, evalDay)| == |Baseline(t[day := total], evalDay)| > 0
    ensures (forall v: real :: !Fabricates(metric, t, evalDay, day, total, v))
       <==> OnlySuppresses(metric, Baseline(t, evalDay), Baseline(t[day := total], evalDay))
  {
    var xs, ys := Baseline(t, evalDay), Baseline(t[day := total], evalDay);
    var i := BaselineAfterRaise(t, evalDay, day, total);
    SquaresFallExactly(xs, i, total);
    if OnlySuppresses(metric, xs, ys) {
      forall v: real ensures !Fabricates(metric, t, evalDay, day, total, v) {
        JudgeOn(metric, t, evalDay, v);
        JudgeOn(metric, t[day := total], evalDay, v);
        if Decide(metric, evalDay, v, ys).Spike? {
          SuppressedValue(metric, evalDay, v, xs, ys);
        }
      }
    } else {
      var v := FabricatedValue(metric, evalDay, xs, ys);
      JudgeOn(metric, t, evalDay, v);
      JudgeOn(metric, t[day := total], evalDay, v);
      assert Fabricates(metric, t, evalDay, day, total, v);
    }
  }

  lemma JudgeOn(metric: SpikeMetric, t: map<Day, real>, evalDay: Day, v: real)
    ensures Judge(metric, t[evalDay := v], evalDay) == Decide(metric, evalDay, v, Baseline(t, evalDay))
  {
    SameMeasuredDays(t, t[evalDay := v], evalDay - ANOMALY_BASELINE_DAYS, evalDay - 1);
    assert Baseline(t[evalDay := v], evalDay) == Baseline(t, evalDay);
  }

  /** A raise that does not tighten the baseline meets that condition. */
  lemma LooserOnlySuppresses(metric: SpikeMetric, xs: seq<real>, i: nat, x: real)
    requires i < |xs| && xs[i] <= x && Mean(xs) > 0.0
    requires !Tightens(|xs| as real, x - xs[i], Mean(xs) - xs[i])
    ensures OnlySuppresses(metric, xs, xs[i := x])
  {
    SquaresFallExactly(xs, i, x);
    if |xs| >= ANOMALY_MIN_BASELINE_DAYS {
      VarianceGrows(Squares(xs, Mean(xs)), Squares(xs[i := x], Mean(xs[i := x])), (|xs| - 1) as real);
    }
  }

  /**
   In terms of standard deviations, the condition says that the largest of the three new thresholds is at
   least the largest of the old ones.
   */
  lemma NoLowerOnDeviations(mean: real, sd: real, mean': real, sd': real, delta: real)
    requires 0.0 < mean <= mean' && sd >= 0.0 && sd' >= 0.0 && delta > 0.0
    ensures NoLower(mean, 9.0 * Square(sd), mean', 9.0 * Square(sd'), delta) <==>
            Max(mean' + 3.0 * sd', Floor(mean', delta)) >= Max(mean + 3.0 * sd, Floor(mean, delta))
  {
    var top := Max(mean' + 3.0 * sd', Floor(mean', delta));
    if NoLower(mean, 9.0 * Square(sd), mean', 9.0 * Square(sd'), delta) {
      ReachesThreshold(top, mean', sd', delta);
      NoLowerAdmitsNothing(top, mean, 9.0 * Square(sd), mean', 9.0 * Square(sd'), delta);
      ReachesThreshold(top, mean, sd, delta);
    } else {
      var v := LowerAdmits(mean, 9.0 * Square(sd), mean', 9.0 * Square(sd'), delta);
      ReachesThreshold(v, mean, sd, delta);
      ReachesThreshold(v, mean', sd', delta);
    }
  }

  lemma ThreeDeviations(sd: real)
    ensures 9.0 * Square(sd) == Square(3.0 * sd)
  {
    assert (3.0 * sd) * (3.0 * sd) == 9.0 * (sd * sd);
  }

  lemma ReachesThreshold(v: real, mean: real, sd: real, delta: real)
    requires mean > 0.0 && sd >= 0.0 && delta > 0.0
    ensures Reaches(v, mean, 9.0 * Square(sd), delta) <==> v >= Max(mean + 3.0 * sd, Floor(mean, delta))
  {
    ThreeDeviations(sd);
    if v >= Floor(mean, delta) {
      if Square(v - mean) >= Square(3.0 * sd) {
        SquareReflects(v - mean, 3.0 * sd);
      } else if v >= mean + 3.0 * sd {
        SquareIsMonotone(3.0 * sd, v - mean);
      }
    }
  }
}
