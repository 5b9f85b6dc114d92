/**
 The day lists and hour histograms of the seed generator (scripts/seed/activity.ts), for every stream of
 random draws. Days are day numbers; the first day of the anchor's month is an input.
 */
module SeedActivity {
  import opened Calendar
  import opened Random
  import opened Rounding
  import opened Sorting
  import opened Wrappers

  const COMPLETE_WEEKS := 13

  // How many items a slice from the start to the given end keeps: a negative end counts from the back.
  function Kept(length: nat, end: int): nat {
    if end >= 0 then Min(end, length) else Max(0, length + end)
  }

  // ---------- Hour histograms ----------

  function Sum(s: seq<int>): int {
    if s == [] then 0 else s[0] + Sum(s[1..])
  }

  function NonZero(s: seq<int>): nat {
    if s == [] then 0 else (if s[0] != 0 then 1 else 0) + NonZero(s[1..])
  }

  lemma {:induction false} UpdateSums(s: seq<int>, h: nat, v: int)
    requires h < |s|
    ensures Sum(s[h := v]) == Sum(s) - s[h] + v
    ensures s[h] == 0 && v != 0 ==> NonZero(s[h := v]) == NonZero(s) + 1
  {
    if h == 0 {
      assert s[h := v][1..] == s[1..];
    } else {
      UpdateSums(s[1..], h - 1, v);
      assert s[h := v][1..] == s[1..][h - 1 := v];
    }
  }

  lemma {:induction false} ZeroSums(s: seq<int>)
    requires forall i | 0 <= i < |s| :: s[i] == 0
    ensures Sum(s) == 0 && NonZero(s) == 0
  {
    if s != [] {
      ZeroSums(s[1..]);
    }
  }

  // The amount of one slot when more slots follow.
  function Amount(share: real, factor: real): int {
    Max(1, Round(share * factor))
  }

  lemma ShareBound(remaining: int, slots: int)
    requires remaining >= slots >= 2
    ensures remaining as real / slots as real <= 1.0 + (remaining - slots) as real / 2.0
  {
    var d, k := (remaining - slots) as real, slots as real;
    HalfScale(d, k);
    DivideBelow(k + d, k, 1.0 + d / 2.0);
  }

  lemma HalfScale(d: real, k: real)
    requires d >= 0.0 && k >= 2.0
    ensures (1.0 + d / 2.0) * k >= k + d
  {
    assert (1.0 + d / 2.0) * k == k + d / 2.0 * k;
    assert d / 2.0 * (k - 2.0) >= 0.0;
    assert d / 2.0 * (k - 2.0) == d / 2.0 * k - d;
  }

  lemma FactorBound(share: real, factor: real, d: real)
    requires 0.0 <= share <= 1.0 + d / 2.0 && d >= 0.0 && 0.6 <= factor < 1.4
    ensures 0.0 <= share * factor <= 1.4 + 0.7 * d
  {
    var slack := 1.4 - factor;
    ProductIsNotNegative(share, slack);
    ProductIsNotNegative(share, factor);
    assert share * factor == share * 1.4 - share * slack;
  }

  /** One slot takes at least one unit and leaves at least one for each slot that follows. */
  lemma SlotLeavesEnough(remaining: int, slots: int, factor: real)
    requires remaining >= slots >= 2 && 0.6 <= factor < 1.4
    ensures var amount := Amount(remaining as real / slots as real, factor);
            1 <= amount <= remaining - (slots - 1)
  {
    var share, d := remaining as real / slots as real, (remaining - slots) as real;
    ShareBound(remaining, slots);
    FactorBound(share, factor, d);
    RoundWithin(share * factor, remaining - slots);
  }

  lemma RoundWithin(x: real, d: int)
    requires d >= 0 && x <= 1.4 + 0.7 * d as real
    ensures Round(x) <= d + 1
  {
    if d >= 1 {
      assert x + 0.5 < (d + 2) as real;
    }
  }

  predicate AreHours(hours: seq<int>) {
    forall i | 0 <= i < |hours| :: 0 <= hours[i] < 24
  }

  // What the chosen slots receive, in their order: but for the last, between 0.6 and 1.4 of an equal share each.
  function Amounts(slots: nat, remaining: int, draws: nat -> Unit, next: nat): (amounts: seq<int>)
    ensures |amounts| == slots
  {
    if slots == 0 then []
    else if slots == 1 then [remaining]
    else
      var first := Min(Amount(remaining as real / slots as real, Scaled(draws(next), 0.6, 1.4)), remaining);
      [first] + Amounts(slots - 1, remaining - first, draws, next + 1)
  }

  /** The first of several slots takes its share of what is left, give or take 40 per cent and at least one unit. */
  lemma AmountsNearShare(slots: nat, remaining: int, draws: nat -> Unit, next: nat)
    requires remaining >= slots >= 2
    ensures var share, first := remaining as real / slots as real, Amounts(slots, remaining, draws, next)[0];
            && 1 <= first <= remaining - (slots - 1)
            && Round(share * 0.6) <= first && (first == 1 || first <= Round(share * 1.4))
  {
    FirstOfSeveral(slots, remaining, draws, next);
    SlotLeavesEnough(remaining, slots, Scaled(draws(next), 0.6, 1.4));
    ShareIsNotNegative(remaining, slots);
    AmountBounds(remaining as real / slots as real, Scaled(draws(next), 0.6, 1.4));
  }

  lemma FirstOfSeveral(slots: nat, remaining: int, draws: nat -> Unit, next: nat)
    requires remaining >= slots >= 2
    ensures Amounts(slots, remaining, draws, next)[0] == Amount(remaining as real / slots as real, Scaled(draws(next), 0.6, 1.4))
  {
    SlotLeavesEnough(remaining, slots, Scaled(draws(next), 0.6, 1.4));
  }

  lemma AmountBounds(share: real, factor: real)
    requires share >= 0.0 && 0.6 <= factor <= 1.4
    ensures Round(share * 0.6) <= Amount(share, factor) && (Amount(share, factor) == 1 || Amount(share, factor) <= Round(share * 1.4))
  {
    RoundBetween(share, factor);
  }

  lemma RoundBetween(share: real, factor: real)
    requires share >= 0.0 && 0.6 <= factor <= 1.4
    ensures Round(share * 0.6) <= Round(share * factor) <= Round(share * 1.4)
  {
    var lower := Distance(share, factor, 0.6);
    var upper := Distance(share, 1.4, factor);
    RoundIsMonotone(share * 0.6, share * factor);
    RoundIsMonotone(share * factor, share * 1.4);
  }

  lemma Distance(share: real, high: real, low: real) returns (distance: real)
    requires share >= 0.0 && high >= low
    ensures distance == share * high - share * low && distance >= 0.0
  {
    distance := share * (high - low);
    ProductIsNotNegative(share, high - low);
  }

  lemma ShareIsNotNegative(remaining: int, slots: int)
    requires remaining >= slots >= 2
    ensures remaining as real / slots as real >= 0.0
  {
  }

  lemma {:induction false} AmountsAddUp(slots: nat, remaining: int, draws: nat -> Unit, next: nat)
    requires remaining >= slots
    ensures slots > 0 ==> Sum(Amounts(slots, remaining, draws, next)) == remaining
    ensures forall i | 0 <= i < slots :: Amounts(slots, remaining, draws, next)[i] >= 1
  {
    var amounts := Amounts(slots, remaining, draws, next);
    if slots == 1 {
      assert Sum([remaining]) == remaining + Sum([]);
    } else if slots > 1 {
      SlotLeavesEnough(remaining, slots, Scaled(draws(next), 0.6, 1.4));
      AmountsAddUp(slots - 1, remaining - amounts[0], draws, next + 1);
      assert amounts[1..] == Amounts(slots - 1, remaining - amounts[0], draws, next + 1);
    }
  }

  lemma {:induction false} SumLast(s: seq<int>, x: int)
    ensures Sum(s + [x]) == Sum(s) + x
  {
    if s == [] {
      assert Sum([x]) == x + Sum([]);
    } else {
      assert (s + [x])[1..] == s[1..] + [x];
      SumLast(s[1..], x);
    }
  }

  function Zeros(): (zeros: seq<int>)
    ensures |zeros| == 24 && forall i | 0 <= i < 24 :: zeros[i] == 0
  {
    seq(24, _ => 0)
  }

  // The hours after the first n amounts were added to their hours.
  function Pour(chosen: seq<int>, amounts: seq<int>, n: nat): (r: seq<int>)
    requires AreHours(chosen) && n <= |chosen| == |amounts|
    ensures |r| == 24
  {
    if n == 0 then Zeros()
    else
      var before := Pour(chosen, amounts, n - 1);
      before[chosen[n-1] := before[chosen[n-1]] + amounts[n-1]]
  }

  lemma {:induction false} PourSums(chosen: seq<int>, amounts: seq<int>, n: nat)
    requires AreHours(chosen) && n <= |chosen| == |amounts|
    ensures Sum(Pour(chosen, amounts, n)) == Sum(amounts[..n])
  {
    if n == 0 {
      ZeroSums(Zeros());
    } else {
      var before := Pour(chosen, amounts, n - 1);
      PourSums(chosen, amounts, n - 1);
      UpdateSums(before, chosen[n-1], before[chosen[n-1]] + amounts[n-1]);
      SumLast(amounts[..n-1], amounts[n-1]);
      assert amounts[..n-1] + [amounts[n-1]] == amounts[..n];
    }
  }

  // The hour is among the first n chosen ones.
  ghost predicate ChosenBefore(h: int, chosen: seq<int>, n: nat)
    requires n <= |chosen|
  {
    exists i :: 0 <= i < n && chosen[i] == h
  }

  lemma ChosenLast(h: int, chosen: seq<int>, n: nat)
    requires 0 < n <= |chosen|
    ensures ChosenBefore(h, chosen, n) <==> chosen[n-1] == h || ChosenBefore(h, chosen, n - 1)
  {
  }

  // Positive amounts fill exactly the chosen hours.
  lemma {:induction false} PourFills(chosen: seq<int>, amounts: seq<int>, n: nat)
    requires AreHours(chosen) && n <= |chosen| == |amounts| && forall i | 0 <= i < |amounts| :: amounts[i] >= 1
    ensures forall h | 0 <= h < 24 :: Pour(chosen, amounts, n)[h] >= 0
    ensures forall h | 0 <= h < 24 :: Pour(chosen, amounts, n)[h] > 0 <==> ChosenBefore(h, chosen, n)
  {
    if n > 0 {
      PourFills(chosen, amounts, n - 1);
      forall h | 0 <= h < 24 ensures Pour(chosen, amounts, n)[h] > 0 <==> ChosenBefore(h, chosen, n) {
        ChosenLast(h, chosen, n);
      }
    }
  }

  // Each of different hours is filled once, with its own amount.
  lemma {:induction false} PourOnce(chosen: seq<int>, amounts: seq<int>, n: nat)
    requires AreHours(chosen) && n <= |chosen| == |amounts| && (forall i | 0 <= i < |amounts| :: amounts[i] >= 1)
    requires Distinct(chosen)
    ensures NonZero(Pour(chosen, amounts, n)) == n
    ensures forall i | 0 <= i < n :: Pour(chosen, amounts, n)[chosen[i]] == amounts[i]
  {
    if n == 0 {
      ZeroSums(Zeros());
    } else {
      var before := Pour(chosen, amounts, n - 1);
      PourOnce(chosen, amounts, n - 1);
      PourFills(chosen, amounts, n - 1);
      assert !ChosenBefore(chosen[n-1], chosen, n - 1);
      UpdateSums(before, chosen[n-1], before[chosen[n-1]] + amounts[n-1]);
    }
  }

  lemma ChosenAreHours(candidateHours: seq<int>, draws: nat -> Unit, next: nat, slots: nat)
    requires AreHours(candidateHours) && slots <= |candidateHours|
    ensures AreHours(Shuffled(candidateHours, |candidateHours| - 1, draws, next)[..slots])
  {
    var shuffled := Shuffled(candidateHours, |candidateHours| - 1, draws, next);
    ShuffledPermutes(candidateHours, |candidateHours| - 1, draws, next);
    forall i | 0 <= i < slots ensures 0 <= shuffled[i] < 24 {
      var j := ComesFrom(shuffled, candidateHours, i);
    }
  }

  // The histogram that a stream of draws decides.
  function Histogram(activeSlots: int, totalUnits: int, candidateHours: seq<int>, draws: nat -> Unit, next: nat): (hours: seq<int>)
    requires AreHours(candidateHours)
    ensures |hours| == 24
  {
    var slots := Kept(|candidateHours|, Min(activeSlots, |candidateHours|));
    ChosenAreHours(candidateHours, draws, next, slots);
    if slots == 0 then Zeros()
    else Pour(Shuffled(candidateHours, |candidateHours| - 1, draws, next)[..slots],
              Amounts(slots, Max(totalUnits, slots), draws, next + |candidateHours| - 1), slots)
  }

  /**
   For every stream the units are conserved: the hours sum to the larger of units and slots. They are filled at
   candidate hours only, and when these differ, as many as there are slots.
   */
  lemma HistogramConserves(activeSlots: int, totalUnits: int, candidateHours: seq<int>, draws: nat -> Unit, next: nat)
    requires AreHours(candidateHours)
    ensures var hours := Histogram(activeSlots, totalUnits, candidateHours, draws, next);
            var slots := if activeSlots >= 0 then Min(activeSlots, |candidateHours|) else Max(0, |candidateHours| + activeSlots);
            && Sum(hours) == (if slots == 0 then 0 else Max(totalUnits, slots))
            && (Distinct(candidateHours) ==> NonZero(hours) == slots)
            && forall h | 0 <= h < 24 :: hours[h] >= 0
                                         && (hours[h] > 0 ==> Occurs(h, candidateHours))
  {
    var slots := Kept(|candidateHours|, Min(activeSlots, |candidateHours|));
    if slots == 0 {
      ZeroSums(Zeros());
    } else {
      var chosen, amounts := HistogramPours(activeSlots, totalUnits, candidateHours, draws, next, slots);
      PouredConserves(chosen, amounts, candidateHours);
    }
  }

  // The chosen hours and their amounts.
  lemma HistogramPours(activeSlots: int, totalUnits: int, candidateHours: seq<int>, draws: nat -> Unit, next: nat, slots: nat)
    returns (chosen: seq<int>, amounts: seq<int>)
    requires AreHours(candidateHours) && slots == Kept(|candidateHours|, Min(activeSlots, |candidateHours|)) > 0
    ensures AreHours(chosen) && |chosen| == |amounts| == slots
    ensures Histogram(activeSlots, totalUnits, candidateHours, draws, next) == Pour(chosen, amounts, slots)
    ensures Sum(amounts) == Max(totalUnits, slots) && forall i | 0 <= i < slots :: amounts[i] >= 1
    ensures (Distinct(candidateHours) ==> Distinct(chosen)) && forall i | 0 <= i < slots :: Occurs(chosen[i], candidateHours)
  {
    chosen := ChosenLaws(candidateHours, draws, next, slots);
    amounts := Amounts(slots, Max(totalUnits, slots), draws, next + |candidateHours| - 1);
    AmountsAddUp(slots, Max(totalUnits, slots), draws, next + |candidateHours| - 1);
    HistogramIs(activeSlots, totalUnits, candidateHours, draws, next, slots, chosen, amounts);
  }

  lemma HistogramIs(activeSlots: int, totalUnits: int, candidateHours: seq<int>, draws: nat -> Unit, next: nat, slots: nat,
                    chosen: seq<int>, amounts: seq<int>)
    requires AreHours(candidateHours) && slots == Kept(|candidateHours|, Min(activeSlots, |candidateHours|)) > 0
    requires AreHours(chosen) && chosen == Shuffled(candidateHours, |candidateHours| - 1, draws, next)[..slots]
    requires amounts == Amounts(slots, Max(totalUnits, slots), draws, next + |candidateHours| - 1)
    ensures Histogram(activeSlots, totalUnits, candidateHours, draws, next) == Pour(chosen, amounts, slots)
  {
  }

  lemma ChosenLaws(candidateHours: seq<int>, draws: nat -> Unit, next: nat, slots: nat) returns (chosen: seq<int>)
    requires AreHours(candidateHours) && slots <= |candidateHours|
    ensures AreHours(chosen) && chosen == Shuffled(candidateHours, |candidateHours| - 1, draws, next)[..slots]
    ensures (Distinct(candidateHours) ==> Distinct(chosen)) && forall i | 0 <= i < slots :: Occurs(chosen[i], candidateHours)
  {
    var shuffled := Shuffled(candidateHours, |candidateHours| - 1, draws, next);
    chosen := shuffled[..slots];
    ChosenAreHours(candidateHours, draws, next, slots);
    ShuffledPermutes(candidateHours, |candidateHours| - 1, draws, next);
    FilledAreCandidates(shuffled, candidateHours, slots);
  }

  lemma PouredConserves(chosen: seq<int>, amounts: seq<int>, candidateHours: seq<int>)
    requires AreHours(chosen) && |amounts| == |chosen| && forall i | 0 <= i < |amounts| :: amounts[i] >= 1
    requires forall i | 0 <= i < |chosen| :: Occurs(chosen[i], candidateHours)
    ensures var hours := Pour(chosen, amounts, |chosen|);
            && Sum(hours) == Sum(amounts) && (Distinct(chosen) ==> NonZero(hours) == |chosen|)
            && forall h | 0 <= h < 24 :: hours[h] >= 0 && (hours[h] > 0 ==> Occurs(h, candidateHours))
  {
    PourSums(chosen, amounts, |chosen|);
    PourFills(chosen, amounts, |chosen|);
    assert amounts[..|chosen|] == amounts;
    if Distinct(chosen) {
      PourOnce(chosen, amounts, |chosen|);
    }
    forall h | 0 <= h < 24 && Pour(chosen, amounts, |chosen|)[h] > 0 ensures Occurs(h, candidateHours) {
      var i :| 0 <= i < |chosen| && chosen[i] == h;
    }
  }

  lemma FilledAreCandidates<T>(shuffled: seq<T>, candidateHours: seq<T>, slots: nat)
    requires IsPermutation(shuffled, candidateHours) && slots <= |shuffled|
    ensures forall i | 0 <= i < slots :: Occurs(shuffled[..slots][i], candidateHours)
  {
    forall i | 0 <= i < slots ensures Occurs(shuffled[..slots][i], candidateHours) {
      var j := ComesFrom(shuffled, candidateHours, i);
      assert shuffled[..slots][i] == shuffled[i];
    }
  }

  ghost predicate Occurs<T>(x: T, s: seq<T>) {
    exists i :: 0 <= i < |s| && s[i] == x
  }

  method BuildHours(rng: Rng, activeSlots: int, totalUnits: int, candidateHours: seq<int>) returns (hours: array<int>)
    requires AreHours(candidateHours)
    modifies rng
    ensures fresh(hours) && hours[..] == Histogram(activeSlots, totalUnits, candidateHours, rng.draws, old(rng.next))
  {
    hours := new int[24](_ => 0);
    assert hours[..] == Zeros();
    var chosen := ChooseHours(rng, activeSlots, candidateHours);
    if |chosen| == 0 {
      return;
    }
    FillHours(rng, hours, chosen, Max(totalUnits, |chosen|));
  }

  method ChooseHours(rng: Rng, activeSlots: int, candidateHours: seq<int>) returns (chosen: seq<int>)
    requires AreHours(candidateHours)
    modifies rng
    ensures var slots := Kept(|candidateHours|, Min(activeSlots, |candidateHours|));
            |chosen| == slots && chosen == Shuffled(candidateHours, |candidateHours| - 1, rng.draws, old(rng.next))[..slots]
    ensures AreHours(chosen) && (candidateHours != [] ==> rng.next == old(rng.next) + |candidateHours| - 1)
  {
    var shuffled := Shuffle(rng, candidateHours);
    chosen := shuffled[..Kept(|shuffled|, Min(activeSlots, |candidateHours|))];
    ChosenAreHours(candidateHours, rng.draws, old(rng.next), |chosen|);
  }

  // Gives each chosen hour in turn its share of the units that remain, and the last one the rest.
  method FillHours(rng: Rng, hours: array<int>, chosen: seq<int>, units: int)
    requires hours.Length == 24 && hours[..] == Zeros() && AreHours(chosen) && units >= |chosen| > 0
    modifies rng, hours
    ensures hours[..] == Pour(chosen, Amounts(|chosen|, units, rng.draws, old(rng.next)), |chosen|)
  {
    var remaining := units;
    ghost var amounts := Amounts(|chosen|, units, rng.draws, rng.next);
    var i := 0;
    while i < |chosen|
      invariant i <= |chosen| && hours[..] == Pour(chosen, amounts, i)
      invariant IsTail(amounts, i, remaining, rng.draws, rng.next)
    {
      remaining := FillOne(rng, hours, chosen, i, remaining, amounts);
      i := i + 1;
    }
  }

  method FillOne(rng: Rng, hours: array<int>, chosen: seq<int>, i: nat, remaining: int, ghost amounts: seq<int>) returns (left: int)
    requires hours.Length == 24 && AreHours(chosen) && i < |chosen| == |amounts|
    requires hours[..] == Pour(chosen, amounts, i) && IsTail(amounts, i, remaining, rng.draws, rng.next)
    modifies rng, hours
    ensures hours[..] == Pour(chosen, amounts, i + 1)
    ensures IsTail(amounts, i + 1, left, rng.draws, rng.next)
  {
    var capped := NextAmount(rng, |chosen| - i, remaining, amounts, i);
    var h := chosen[i];
    hours[h] := hours[h] + capped;
    left := remaining - capped;
  }

  // From place i on, the amounts are those of that many slots and the remaining units.
  ghost predicate IsTail(amounts: seq<int>, i: nat, remaining: int, draws: nat -> Unit, next: nat) {
    && i <= |amounts| && remaining >= |amounts| - i
    && amounts[i..] == Amounts(|amounts| - i, remaining, draws, next)
  }

  lemma TailFollows(amounts: seq<int>, i: nat, remaining: int, draws: nat -> Unit, next: nat)
    requires i < |amounts| && IsTail(amounts, i, remaining, draws, next)
    ensures |amounts| - i == 1 ==> amounts[i] == remaining && IsTail(amounts, i + 1, 0, draws, next)
    ensures |amounts| - i > 1 ==>
              var amount := Amount(remaining as real / (|amounts| - i) as real, Scaled(draws(next), 0.6, 1.4));
              && amounts[i] == Min(amount, remaining)
              && IsTail(amounts, i + 1, remaining - amounts[i], draws, next + 1)
  {
    assert amounts[i..][1..] == amounts[i+1..] && amounts[i..][0] == amounts[i];
    if |amounts| - i > 1 {
      SlotLeavesEnough(remaining, |amounts| - i, Scaled(draws(next), 0.6, 1.4));
    }
  }

  method NextAmount(rng: Rng, slots: nat, remaining: int, ghost amounts: seq<int>, ghost i: nat) returns (capped: int)
    requires i < |amounts| && slots == |amounts| - i && IsTail(amounts, i, remaining, rng.draws, rng.next)
    modifies rng
    ensures capped == amounts[i] && IsTail(amounts, i + 1, remaining - capped, rng.draws, rng.next)
  {
    TailFollows(amounts, i, remaining, rng.draws, rng.next);
    var isLast := slots == 1;
    var amt := remaining;
    if !isLast {
      var share := remaining as real / slots as real;
      var factor := RandFloat(rng, 0.6, 1.4);
      amt := Amount(share, factor);
    }
    capped := Min(amt, remaining);
  }

  // ---------- Picking days ----------

  function DayOfWeekMon0(day: int): int {
    (DayOfWeek(day) + 6) % 7
  }

  ghost predicate Increasing(days: seq<int>) {
    forall i, j | 0 <= i < j < |days| :: days[i] < days[j]
  }

  ghost predicate Within(days: seq<int>, start: int, end: int) {
    forall i | 0 <= i < |days| :: start <= days[i] <= end
  }

  // Distinct days between the bounds: a pick of n of them.
  ghost predicate IsPick(days: seq<int>, start: int, end: int, n: int) {
    |days| == n && Distinct(days) && Within(days, start, end)
  }

  lemma IncreasingFits(days: seq<int>, start: int, end: int)
    requires Increasing(days) && Within(days, start, end) && start <= end + 1
    ensures |days| <= end - start + 1
    decreases |days|
  {
    if days != [] {
      var last := days[|days|-1];
      var front := days[..|days|-1];
      IncreasingFits(front, start, last - 1);
    }
  }

  lemma PickOfShuffled(shuffled: seq<int>, days: seq<int>, start: int, end: int, n: nat)
    requires IsPermutation(shuffled, days) && |shuffled| == |days| && Distinct(shuffled)
    requires Within(days, start, end) && n <= |days|
    ensures IsPick(shuffled[..n], start, end, n)
  {
    forall i | 0 <= i < n ensures start <= shuffled[i] <= end {
      var j := ComesFrom(shuffled, days, i);
    }
  }

  lemma IncreasingIsDistinct(days: seq<int>)
    requires Increasing(days)
    ensures Distinct(days)
  {
  }

  lemma AreListed(candidates: seq<int>, start: int, end: int, draws: nat -> Unit, next: nat)
    requires Distinct(candidates) && Within(candidates, start, end)
    requires forall d | start <= d <= end :: IsCandidate(d, start, draws, next) <==> Occurs(d, candidates)
    ensures |candidates| == |Candidates(start, end, draws, next)|
    ensures forall i | 0 <= i < |candidates| :: IsCandidate(candidates[i], start, draws, next)
  {
    forall i | 0 <= i < |candidates| ensures IsCandidate(candidates[i], start, draws, next) {
      assert Occurs(candidates[i], candidates);
    }
    CandidatesListed(candidates, Candidates(start, end, draws, next));
  }

  // The candidates of a range.
  ghost function Candidates(start: int, end: int, draws: nat -> Unit, next: nat): set<int> {
    set d | start <= d <= end && IsCandidate(d, start, draws, next)
  }

  lemma CandidatesListed<T>(listed: seq<T>, candidates: set<T>)
    requires Distinct(listed) && forall x | x in candidates :: Occurs(x, listed)
    requires forall i | 0 <= i < |listed| :: listed[i] in candidates
    ensures |listed| == |candidates|
  {
    DistinctSize(listed, candidates);
  }

  // The candidates, or every day when they are too few.
  function Pool(start: int, end: int, count: int, draws: nat -> Unit, next: nat): seq<int> {
    var candidates := CandidateList(start, end, draws, next);
    if |candidates| < count then DayList(start, end) else candidates
  }

  // The first of the shuffled pool.
  function Picked(start: int, end: int, count: int, draws: nat -> Unit, next: nat): seq<int> {
    if start > end || count <= 0 then []
    else
      var pool := Pool(start, end, count, draws, next);
      Shuffled(pool, |pool| - 1, draws, next + WeekendDays(start, end + 1))[..Min(count, |pool|)]
  }

  // Where the stream is after a pick.
  function AfterPick(start: int, end: int, count: int, draws: nat -> Unit, next: nat): nat {
    if start > end || count <= 0 then next
    else
      var pool := Pool(start, end, count, draws, next);
      next + WeekendDays(start, end + 1) + if pool == [] then 0 else |pool| - 1
  }

  lemma {:induction false} DayListLaws(start: int, end: int)
    requires start <= end + 1
    ensures |DayList(start, end)| == end - start + 1 && Increasing(DayList(start, end)) && Within(DayList(start, end), start, end)
    decreases end + 1 - start
  {
    if start <= end {
      DayListLaws(start, end - 1);
    }
  }

  lemma PoolLaws(start: int, end: int, count: int, draws: nat -> Unit, next: nat)
    requires start <= end && count > 0
    ensures var pool := Pool(start, end, count, draws, next);
            && Distinct(pool) && Within(pool, start, end) && Min(count, |pool|) == Min(count, end - start + 1)
            && (|Candidates(start, end, draws, next)| >= count ==>
                  forall i | 0 <= i < |pool| :: IsCandidate(pool[i], start, draws, next))
  {
    var candidates := CandidateList(start, end, draws, next);
    CandidateListLaws(start, end, draws, next);
    IncreasingIsDistinct(candidates);
    AreListed(candidates, start, end, draws, next);
    IncreasingFits(candidates, start, end);
    DayListLaws(start, end);
    IncreasingIsDistinct(DayList(start, end));
  }

  /**
   For every stream a pick is of distinct days of the range: as many as asked for, or all of them when there are
   fewer. Only candidates are picked, unless there are fewer candidates than asked for.
   */
  lemma PickedExactly(start: int, end: int, count: int, draws: nat -> Unit, next: nat)
    ensures IsPick(Picked(start, end, count, draws, next), start, end,
                   if start > end || count <= 0 then 0 else Min(count, end - start + 1))
    ensures |Candidates(start, end, draws, next)| >= count ==>
              forall i | 0 <= i < |Picked(start, end, count, draws, next)| ::
                IsCandidate(Picked(start, end, count, draws, next)[i], start, draws, next)
  {
    if start <= end && count > 0 {
      var pool := Pool(start, end, count, draws, next);
      var shuffled := Shuffled(pool, |pool| - 1, draws, next + WeekendDays(start, end + 1));
      PoolLaws(start, end, count, draws, next);
      ShuffledPermutes(pool, |pool| - 1, draws, next + WeekendDays(start, end + 1));
      PickOfShuffled(shuffled, pool, start, end, Min(count, |pool|));
      forall i | 0 <= i < Min(count, |pool|) && |Candidates(start, end, draws, next)| >= count
        ensures IsCandidate(shuffled[..Min(count, |pool|)][i], start, draws, next)
      {
        var j := ComesFrom(shuffled, pool, i);
      }
    }
  }

  method PickWeekdayDays(rng: Rng, start: int, end: int, count: int) returns (days: seq<int>)
    modifies rng
    ensures days == Picked(start, end, count, rng.draws, old(rng.next))
    ensures rng.next == AfterPick(start, end, count, rng.draws, old(rng.next))
  {
    if start > end || count <= 0 {
      return [];
    }
    var candidates := WeekdayCandidates(rng, start, end);
    if |candidates| < count {
      var all := AllDays(start, end);
      days := FirstShuffled(rng, all, Min(count, |all|));
    } else {
      days := FirstShuffled(rng, candidates, count);
    }
  }

  method FirstShuffled(rng: Rng, pool: seq<int>, n: nat) returns (days: seq<int>)
    requires n <= |pool|
    modifies rng
    ensures days == Shuffled(pool, |pool| - 1, rng.draws, old(rng.next))[..n]
    ensures rng.next == old(rng.next) + if pool == [] then 0 else |pool| - 1
  {
    var shuffled := Shuffle(rng, pool);
    days := shuffled[..n];
  }

  // How many Saturdays and Sundays there are from start up to, but not including, day.
  function WeekendDays(start: int, day: int): nat
    decreases if start < day then day - start else 0
  {
    if day <= start then 0 else WeekendDays(start, day - 1) + if DayOfWeek(day - 1) in {6, 0} then 1 else 0
  }

  // A day is a candidate when it is a weekday, or when the draw of its turn is below 0.12.
  predicate IsCandidate(d: int, start: int, draws: nat -> Unit, next: nat) {
    DayOfWeek(d) in {1, 2, 3, 4, 5} || draws(next + WeekendDays(start, d)) < 0.12
  }

  function CandidateList(start: int, end: int, draws: nat -> Unit, next: nat): seq<int>
    decreases if start <= end then end - start + 1 else 0
  {
    if end < start then []
    else CandidateList(start, end - 1, draws, next) + if IsCandidate(end, start, draws, next) then [end] else []
  }

  function DayList(start: int, end: int): seq<int>
    decreases if start <= end then end - start + 1 else 0
  {
    if end < start then [] else DayList(start, end - 1) + [end]
  }

  lemma {:induction false} CandidateListLaws(start: int, end: int, draws: nat -> Unit, next: nat)
    ensures Increasing(CandidateList(start, end, draws, next)) && Within(CandidateList(start, end, draws, next), start, end)
    ensures forall d | start <= d <= end :: IsCandidate(d, start, draws, next) <==> Occurs(d, CandidateList(start, end, draws, next))
    decreases if start <= end then end - start + 1 else 0
  {
    if start <= end {
      var before, all := CandidateList(start, end - 1, draws, next), CandidateList(start, end, draws, next);
      CandidateListLaws(start, end - 1, draws, next);
      forall d | start <= d <= end ensures IsCandidate(d, start, draws, next) <==> Occurs(d, all) {
        OneMoreCandidate(before, all, start, end, d, draws, next);
      }
    }
  }

  lemma OneMoreCandidate(before: seq<int>, all: seq<int>, start: int, end: int, d: int, draws: nat -> Unit, next: nat)
    requires all == before + if IsCandidate(end, start, draws, next) then [end] else []
    requires start <= d <= end && Within(before, start, end - 1)
    requires d < end ==> (IsCandidate(d, start, draws, next) <==> Occurs(d, before))
    ensures IsCandidate(d, start, draws, next) <==> Occurs(d, all)
  {
    if d == end && IsCandidate(d, start, draws, next) {
      assert all[|before|] == d;
    } else if d < end && Occurs(d, before) {
      var i :| 0 <= i < |before| && before[i] == d;
      assert all[i] == d;
    }
  }

  // The weekdays of a range, and now and then a weekend day.
  method WeekdayCandidates(rng: Rng, start: int, end: int) returns (candidates: seq<int>)
    modifies rng
    ensures candidates == CandidateList(start, end, rng.draws, old(rng.next))
    ensures rng.next == old(rng.next) + WeekendDays(start, end + 1)
  {
    candidates := [];
    var d := start;
    while d <= end
      invariant start <= d && (d <= end + 1 || d == start)
      invariant rng.next == old(rng.next) + WeekendDays(start, d)
      invariant candidates == CandidateList(start, d - 1, rng.draws, old(rng.next))
      decreases end - d
    {
      var taken := DayOfWeekMon0(d) < 5;
      if !taken {
        taken := Chance(rng, 0.12);
      }
      if taken {
        candidates := candidates + [d];
      }
      d := d + 1;
    }
  }

  method AllDays(start: int, end: int) returns (all: seq<int>)
    requires start <= end
    ensures |all| == end - start + 1 && Increasing(all) && Within(all, start, end)
    ensures all == DayList(start, end)
  {
    all := [];
    var d := start;
    while d <= end
      invariant start <= d <= end + 1 && |all| == d - start
      invariant forall i | 0 <= i < |all| :: all[i] == start + i
      invariant all == DayList(start, d - 1)
    {
      all := all + [d];
      d := d + 1;
    }
  }

  // ---------- The window of thirteen complete weeks ----------

  datatype WeekWindow = WeekWindow(index: int, monday: int, sunday: int)

  datatype WindowCtx = WindowCtx(anchorDay: int, windowStart: int, currentWeekMonday: int, weeks: seq<WeekWindow>,
                                 trailing28Start: int, monthStartCurrent: int)

  ghost predicate IsWindow(ctx: WindowCtx, anchorDay: int, monthStart: int) {
    && ctx.anchorDay == anchorDay
    && ctx.currentWeekMonday == WeekStart(anchorDay)
    && ctx.windowStart == WeekStart(anchorDay) - 7 * COMPLETE_WEEKS
    && ctx.trailing28Start == anchorDay - 27
    && ctx.monthStartCurrent == monthStart
    && |ctx.weeks| == COMPLETE_WEEKS
    && forall i | 0 <= i < COMPLETE_WEEKS ::
         ctx.weeks[i] == WeekWindow(i + 1, ctx.windowStart + 7 * i, ctx.windowStart + 7 * i + 6)
  }

  method BuildWindowCtx(anchorDay: int, monthStart: int) returns (ctx: WindowCtx)
    ensures IsWindow(ctx, anchorDay, monthStart)
  {
    var currentWeekMonday := WeekStart(anchorDay);
    var weeks: seq<WeekWindow> := [];
    for i := 1 to 14
      invariant |weeks| == i - 1
      invariant forall k | 0 <= k < i - 1 ::
          weeks[k] == WeekWindow(k + 1, currentWeekMonday - 91 + 7 * k, currentWeekMonday - 91 + 7 * k + 6)
    {
      var monday := currentWeekMonday - 7 * (14 - i);
      weeks := weeks + [WeekWindow(i, monday, monday + 6)];
    }
    ctx := WindowCtx(anchorDay, weeks[0].monday, currentWeekMonday, weeks, anchorDay - 27, monthStart);
  }

  // The index of the week of a day; a day before the window throws.
  method WeekIndexForDay(day: int, ctx: WindowCtx, ghost anchorDay: int, ghost monthStart: int) returns (index: Option<int>)
    requires IsWindow(ctx, anchorDay, monthStart)
    ensures index == WeekIndex(day, anchorDay)
  {
    for i := 0 to |ctx.weeks|
      invariant day < ctx.windowStart || day >= ctx.windowStart + 7 * i
    {
      var w := ctx.weeks[i];
      if day >= w.monday && day <= w.sunday {
        WeekOfOffset(day, anchorDay, i);
        return Some(w.index);
      }
    }
    if day < ctx.windowStart {
      return None;
    }
    return Some(14);
  }

  // Weeks are numbered from the Monday thirteen weeks before the current one; from the current Monday on the number is 14.
  function WeekIndex(day: int, anchorDay: int): Option<int> {
    var windowStart := WeekStart(anchorDay) - 7 * COMPLETE_WEEKS;
    if day < windowStart then None
    else if day >= WeekStart(anchorDay) then Some(14)
    else Some((day - windowStart) / 7 + 1)
  }

  lemma WeekOfOffset(day: int, anchorDay: int, i: nat)
    requires i < 13 && WeekStart(anchorDay) - 91 + 7 * i <= day <= WeekStart(anchorDay) - 91 + 7 * i + 6
    ensures WeekIndex(day, anchorDay) == Some(i + 1)
  {
  }

  // ---------- The days of a persona ----------

  datatype PersonaDaySpec = PersonaDaySpec(currentMonthActiveDays: int, trailing28ActiveDays: int,
                                           historyWeeklyActiveDays: real, activeSince: Option<int>, activeUntil: Option<int>)

  function EligibleStart(spec: PersonaDaySpec, ctx: WindowCtx): int {
    if spec.activeSince.Some? then ctx.anchorDay - spec.activeSince.value else ctx.windowStart
  }

  function EligibleEnd(spec: PersonaDaySpec, ctx: WindowCtx): int {
    if spec.activeUntil.Some? then ctx.anchorDay - spec.activeUntil.value else ctx.anchorDay
  }

  function Lerp(from: real, to: real, t: real): real {
    var clamped := if t < 0.0 then 0.0 else if t > 1.0 then 1.0 else t;
    from + (to - from) * clamped
  }

  function HistoryRampFactor(weekIndex: int): real {
    Lerp(0.3, 1.3, (weekIndex - 1) as real / 12.0)
  }

  /** Over the thirteen complete weeks the ramp rises evenly from 0.3 to 1.3. */
  lemma RampExactly(weekIndex: int)
    requires 1 <= weekIndex <= 13
    ensures HistoryRampFactor(weekIndex) == 0.3 + (weekIndex - 1) as real / 12.0
  {
  }

  lemma RampIsPositive(weekIndex: int)
    ensures HistoryRampFactor(weekIndex) >= 0.3
  {
  }

  function ToSet<T>(s: seq<T>): set<T> {
    set x | x in s
  }

  lemma {:induction false} DistinctAdds<T>(members: set<T>, more: seq<T>)
    requires Distinct(more) && (forall x | x in more :: x !in members)
    ensures |members + ToSet(more)| == |members| + |more|
  {
    if more == [] {
      assert members + ToSet(more) == members;
    } else {
      var last, front := more[|more|-1], more[..|more|-1];
      assert more == front + [last];
      DistinctAdds(members, front);
      assert last !in front && last in more;
      assert members + ToSet(more) == (members + ToSet(front)) + {last};
    }
  }

  ghost predicate AllWithin(days: set<int>, start: int, end: int) {
    forall d | d in days :: start <= d <= end
  }

  // How many days a segment is asked to contribute.
  function Quota(start: int, end: int, count: int): nat {
    if start > end || count <= 0 then 0 else Min(count, end - start + 1)
  }

  lemma PickIsWithin(days: seq<int>, start: int, end: int, n: nat)
    requires IsPick(days, start, end, n)
    ensures AllWithin(ToSet(days), start, end)
  {
  }

  // The days from lo to hi.
  function Between(days: set<int>, lo: int, hi: int): set<int> {
    set d | d in days && lo <= d <= hi
  }

  lemma PickedBetween(days: set<int>, picked: seq<int>, start: int, end: int)
    requires Distinct(picked) && Within(picked, start, end)
    ensures |Between(days + ToSet(picked), start, end)| >= |picked|
    ensures Between(days, start, end) == {} ==> |Between(days + ToSet(picked), start, end)| == |picked|
  {
    DistinctAdds({}, picked);
    assert {} + ToSet(picked) == ToSet(picked);
    var all := Between(days + ToSet(picked), start, end);
    assert ToSet(picked) <= all by {
      forall d | d in ToSet(picked) ensures d in all {
        var i :| 0 <= i < |picked| && picked[i] == d;
      }
    }
    SubsetSize(ToSet(picked), all);
    if Between(days, start, end) == {} {
      assert forall d | d in all && d in days :: d in Between(days, start, end);
      assert all == ToSet(picked);
    }
  }

  // The days so far and where the stream is.
  datatype Days = Days(days: set<int>, next: nat)

  // A segment with its picks added.
  function Segment(start: int, end: int, count: int, draws: nat -> Unit, so: Days): Days {
    Days(so.days + ToSet(Picked(start, end, count, draws, so.next)), AfterPick(start, end, count, draws, so.next))
  }

  // The picks of the current month, and then of the rest of the trailing 28 days.
  function Recent(spec: PersonaDaySpec, ctx: WindowCtx, draws: nat -> Unit, next: nat): Days {
    var since, until := EligibleStart(spec, ctx), EligibleEnd(spec, ctx);
    var month := Segment(Max(ctx.monthStartCurrent, since), Min(ctx.anchorDay, until), spec.currentMonthActiveDays, draws,
                         Days({}, next));
    Segment(Max(ctx.trailing28Start, since), Min(ctx.monthStartCurrent - 1, until),
            Max(0, spec.trailing28ActiveDays - spec.currentMonthActiveDays), draws, month)
  }

  // The picks of one complete week before the trailing 28 days, a jittered number of them.
  function Week(spec: PersonaDaySpec, ctx: WindowCtx, week: WeekWindow, draws: nat -> Unit, so: Days): Days
    requires spec.historyWeeklyActiveDays > 0.0
  {
    var lo := Max(week.monday, EligibleStart(spec, ctx));
    var hi := Min(Min(week.sunday, ctx.trailing28Start - 1), EligibleEnd(spec, ctx));
    if lo > hi then so
    else Segment(lo, hi, JitteredInt(HistoryBase(spec.historyWeeklyActiveDays, week.index), 0.3, 0, draws(so.next)), draws,
                 so.(next := so.next + 1))
  }

  function History(spec: PersonaDaySpec, ctx: WindowCtx, n: nat, draws: nat -> Unit, so: Days): Days
    requires n <= |ctx.weeks| && spec.historyWeeklyActiveDays > 0.0
  {
    if n == 0 then so else Week(spec, ctx, ctx.weeks[n-1], draws, History(spec, ctx, n - 1, draws, so))
  }

  // The days of a persona, as the draws decide.
  function PersonaDays(spec: PersonaDaySpec, ctx: WindowCtx, draws: nat -> Unit, next: nat): Days {
    var recent := Recent(spec, ctx, draws, next);
    if spec.historyWeeklyActiveDays > 0.0 then History(spec, ctx, |ctx.weeks|, draws, recent) else recent
  }

  // The days of the segment are added and no others, as many as asked for unless some were there before.
  lemma SegmentLaws(start: int, end: int, count: int, draws: nat -> Unit, so: Days)
    ensures var all := Segment(start, end, count, draws, so).days;
            && so.days <= all && (forall d | d in all :: d in so.days || start <= d <= end)
            && |Between(all, start, end)| >= Quota(start, end, count)
            && (Between(so.days, start, end) == {} ==>
                  |Between(all, start, end)| == Quota(start, end, count) && |all| == |so.days| + Quota(start, end, count))
  {
    var picked := Picked(start, end, count, draws, so.next);
    PickedExactly(start, end, count, draws, so.next);
    PickIsWithin(picked, start, end, |picked|);
    PickedBetween(so.days, picked, start, end);
    if Between(so.days, start, end) == {} {
      forall d | d in picked ensures d !in so.days {
        assert d in ToSet(picked);
        assert d in so.days ==> d in Between(so.days, start, end);
      }
      DistinctAdds(so.days, picked);
    }
  }

  // Adds the days picked from a segment to the days so far.
  method AddSegment(rng: Rng, days: set<int>, start: int, end: int, count: int) returns (all: set<int>)
    modifies rng
    ensures Days(all, rng.next) == Segment(start, end, count, rng.draws, Days(days, old(rng.next)))
  {
    var picked: seq<int> := [];
    if start <= end && count > 0 {
      picked := PickWeekdayDays(rng, start, end, count);
    }
    all := days + ToSet(picked);
  }

  lemma WindowBounds(ctx: WindowCtx, anchorDay: int, monthStart: int)
    requires IsWindow(ctx, anchorDay, monthStart)
    ensures ctx.windowStart < anchorDay - 30
    ensures forall i | 0 <= i < |ctx.weeks| :: ctx.windowStart <= ctx.weeks[i].monday
  {
  }

  // The picks of the current month and of the rest of the trailing 28 days.
  method RecentDays(rng: Rng, spec: PersonaDaySpec, ctx: WindowCtx) returns (days: set<int>)
    modifies rng
    ensures Days(days, rng.next) == Recent(spec, ctx, rng.draws, old(rng.next))
  {
    var eligibleStart, eligibleEnd := EligibleStart(spec, ctx), EligibleEnd(spec, ctx);
    var curStart, curEnd := Max(ctx.monthStartCurrent, eligibleStart), Min(ctx.anchorDay, eligibleEnd);
    days := AddSegment(rng, {}, curStart, curEnd, spec.currentMonthActiveDays);
    var restCount := Max(0, spec.trailing28ActiveDays - spec.currentMonthActiveDays);
    var restStart, restEnd := Max(ctx.trailing28Start, eligibleStart), Min(ctx.monthStartCurrent - 1, eligibleEnd);
    days := AddSegment(rng, days, restStart, restEnd, restCount);
  }

  // The two segments never meet.
  lemma RecentLaws(spec: PersonaDaySpec, ctx: WindowCtx, draws: nat -> Unit, next: nat)
    requires ctx.windowStart <= ctx.trailing28Start && ctx.windowStart <= ctx.monthStartCurrent <= ctx.anchorDay
    ensures var days := Recent(spec, ctx, draws, next).days;
            && AllWithin(days, Max(ctx.windowStart, EligibleStart(spec, ctx)), Min(ctx.anchorDay, EligibleEnd(spec, ctx)))
            && |days| == AskedDays(spec, ctx) && MonthIsDense(days, spec, ctx) && RestIsDense(days, spec, ctx)
            && (forall d | d in days :: d >= Min(ctx.monthStartCurrent, ctx.trailing28Start))
  {
    var since, until := EligibleStart(spec, ctx), EligibleEnd(spec, ctx);
    var lo, hi := Max(ctx.monthStartCurrent, since), Min(ctx.anchorDay, until);
    var restLo, restHi := Max(ctx.trailing28Start, since), Min(ctx.monthStartCurrent - 1, until);
    var restCount := Max(0, spec.trailing28ActiveDays - spec.currentMonthActiveDays);
    var days := Segment(restLo, restHi, restCount, draws, Segment(lo, hi, spec.currentMonthActiveDays, draws, Days({}, next))).days;
    RecentIs(spec, ctx, draws, next, lo, hi, restLo, restHi, restCount);
    TwoSegments(lo, hi, spec.currentMonthActiveDays, restLo, restHi, restCount, draws, next);
    RecentIsDense(days, spec, ctx, lo, hi, restLo, restHi, restCount);
    InBounds(days, lo, hi, restLo, restHi, Max(ctx.windowStart, since), Min(ctx.anchorDay, until),
             Min(ctx.monthStartCurrent, ctx.trailing28Start));
  }

  lemma RecentIs(spec: PersonaDaySpec, ctx: WindowCtx, draws: nat -> Unit, next: nat, lo: int, hi: int, restLo: int, restHi: int,
                 restCount: int)
    requires lo == Max(ctx.monthStartCurrent, EligibleStart(spec, ctx)) && hi == Min(ctx.anchorDay, EligibleEnd(spec, ctx))
    requires restLo == Max(ctx.trailing28Start, EligibleStart(spec, ctx))
    requires restHi == Min(ctx.monthStartCurrent - 1, EligibleEnd(spec, ctx))
    requires restCount == Max(0, spec.trailing28ActiveDays - spec.currentMonthActiveDays)
    ensures Recent(spec, ctx, draws, next) ==
            Segment(restLo, restHi, restCount, draws, Segment(lo, hi, spec.currentMonthActiveDays, draws, Days({}, next)))
  {
  }

  lemma RecentIsDense(days: set<int>, spec: PersonaDaySpec, ctx: WindowCtx, lo: int, hi: int, restLo: int, restHi: int, restCount: int)
    requires lo == Max(ctx.monthStartCurrent, EligibleStart(spec, ctx)) && hi == Min(ctx.anchorDay, EligibleEnd(spec, ctx))
    requires restLo == Max(ctx.trailing28Start, EligibleStart(spec, ctx))
    requires restHi == Min(ctx.monthStartCurrent - 1, EligibleEnd(spec, ctx))
    requires restCount == Max(0, spec.trailing28ActiveDays - spec.currentMonthActiveDays)
    requires |days| == Quota(lo, hi, spec.currentMonthActiveDays) + Quota(restLo, restHi, restCount)
    requires |Between(days, lo, hi)| == Quota(lo, hi, spec.currentMonthActiveDays)
    requires |Between(days, restLo, restHi)| == Quota(restLo, restHi, restCount)
    ensures |days| == AskedDays(spec, ctx) && MonthIsDense(days, spec, ctx) && RestIsDense(days, spec, ctx)
  {
  }

  lemma InBounds(days: set<int>, lo: int, hi: int, restLo: int, restHi: int, from: int, to: int, floor: int)
    requires forall d | d in days :: lo <= d <= hi || restLo <= d <= restHi
    requires from <= lo && hi <= to && from <= restLo && restHi <= to && floor <= lo && floor <= restLo
    ensures AllWithin(days, from, to) && forall d | d in days :: d >= floor
  {
  }

  // Two segments of which the second ends before the first begins.
  lemma TwoSegments(lo: int, hi: int, count: int, restLo: int, restHi: int, restCount: int, draws: nat -> Unit, next: nat)
    requires restHi < lo
    ensures var days := Segment(restLo, restHi, restCount, draws, Segment(lo, hi, count, draws, Days({}, next))).days;
            && (forall d | d in days :: lo <= d <= hi || restLo <= d <= restHi)
            && |days| == Quota(lo, hi, count) + Quota(restLo, restHi, restCount)
            && |Between(days, lo, hi)| == Quota(lo, hi, count) && |Between(days, restLo, restHi)| == Quota(restLo, restHi, restCount)
  {
    var month := Segment(lo, hi, count, draws, Days({}, next));
    SegmentLaws(lo, hi, count, draws, Days({}, next));
    assert Between({}, lo, hi) == {};
    assert Between(month.days, restLo, restHi) == {};
    SegmentLaws(restLo, restHi, restCount, draws, month);
    var days := Segment(restLo, restHi, restCount, draws, month).days;
    assert Between(days, lo, hi) == Between(month.days, lo, hi);
  }

  // The current month has the days asked for.
  ghost predicate MonthIsDense(days: set<int>, spec: PersonaDaySpec, ctx: WindowCtx) {
    var lo, hi := Max(ctx.monthStartCurrent, EligibleStart(spec, ctx)), Min(ctx.anchorDay, EligibleEnd(spec, ctx));
    |Between(days, lo, hi)| == Quota(lo, hi, spec.currentMonthActiveDays)
  }

  // So has the rest of the trailing 28 days.
  ghost predicate RestIsDense(days: set<int>, spec: PersonaDaySpec, ctx: WindowCtx) {
    var lo := Max(ctx.trailing28Start, EligibleStart(spec, ctx));
    var hi := Min(ctx.monthStartCurrent - 1, EligibleEnd(spec, ctx));
    |Between(days, lo, hi)| == Quota(lo, hi, Max(0, spec.trailing28ActiveDays - spec.currentMonthActiveDays))
  }

  // A jittered number of days: within 30 per cent of the base, rounded.
  ghost predicate IsJittered(n: int, base: real) {
    n >= 0 && Round(base - base * 0.3) <= n && (n == 0 || n <= Round(base + base * 0.3))
  }

  // A complete week, as far as it lies before the trailing 28 days, has a jittered number of days. Days of the
  // current month may come on top.
  ghost predicate WeekIsDense(days: set<int>, recent: set<int>, spec: PersonaDaySpec, ctx: WindowCtx, i: nat)
    requires i < |ctx.weeks| && spec.historyWeeklyActiveDays > 0.0
  {
    var lo := Max(ctx.weeks[i].monday, EligibleStart(spec, ctx));
    var hi := Min(Min(ctx.weeks[i].sunday, ctx.trailing28Start - 1), EligibleEnd(spec, ctx));
    lo <= hi ==>
      exists n :: IsJittered(n, HistoryBase(spec.historyWeeklyActiveDays, ctx.weeks[i].index))
                  && HasQuota(Between(days, lo, hi), Between(recent, lo, hi), Quota(lo, hi, n))
  }

  ghost predicate HasQuota(days: set<int>, recent: set<int>, quota: nat) {
    |days| >= quota && (recent == {} ==> |days| == quota)
  }

  function AskedDays(spec: PersonaDaySpec, ctx: WindowCtx): nat {
    Quota(Max(ctx.monthStartCurrent, EligibleStart(spec, ctx)), Min(ctx.anchorDay, EligibleEnd(spec, ctx)),
          spec.currentMonthActiveDays)
    + Quota(Max(ctx.trailing28Start, EligibleStart(spec, ctx)), Min(ctx.monthStartCurrent - 1, EligibleEnd(spec, ctx)),
            Max(0, spec.trailing28ActiveDays - spec.currentMonthActiveDays))
  }

  // The days that are not recent lie before the trailing 28 days, and before the given week.
  ghost predicate HistoryBefore(days: set<int>, recent: set<int>, ctx: WindowCtx, i: nat) {
    recent <= days && forall d | d in days && d !in recent :: d < ctx.trailing28Start && d < ctx.windowStart + 7 * i
  }

  ghost predicate AreWeeks(ctx: WindowCtx) {
    forall i | 0 <= i < |ctx.weeks| :: ctx.weeks[i] == WeekWindow(i + 1, ctx.windowStart + 7 * i, ctx.windowStart + 7 * i + 6)
  }

  lemma EarlierWeekStays(days: set<int>, all: set<int>, recent: set<int>, spec: PersonaDaySpec, ctx: WindowCtx, k: nat, i: nat)
    requires k < i < |ctx.weeks| && AreWeeks(ctx) && spec.historyWeeklyActiveDays > 0.0
    requires WeekIsDense(days, recent, spec, ctx, k)
    requires days <= all && forall d | d in all && d !in days :: d >= ctx.windowStart + 7 * i
    ensures WeekIsDense(all, recent, spec, ctx, k)
  {
    var lo := Max(ctx.weeks[k].monday, EligibleStart(spec, ctx));
    var hi := Min(Min(ctx.weeks[k].sunday, ctx.trailing28Start - 1), EligibleEnd(spec, ctx));
    assert hi < ctx.windowStart + 7 * i;
    assert Between(all, lo, hi) == Between(days, lo, hi);
  }

  // A segment inside one week and before the trailing 28 days.
  lemma InsideWeek(days: set<int>, all: set<int>, recent: set<int>, ctx: WindowCtx, i: nat, lo: int, hi: int, from: int, to: int)
    requires HistoryBefore(days, recent, ctx, i) && AllWithin(days, from, to) && from <= lo && hi <= to
    requires ctx.windowStart + 7 * i <= lo && hi <= ctx.windowStart + 7 * i + 6 && hi < ctx.trailing28Start
    requires days <= all && forall d | d in all :: d in days || lo <= d <= hi
    ensures AllWithin(all, from, to) && HistoryBefore(all, recent, ctx, i + 1)
    ensures forall d | d in all && d !in days :: d >= ctx.windowStart + 7 * i
    ensures Between(days, lo, hi) == Between(recent, lo, hi)
  {
  }

  lemma WeekSegment(spec: PersonaDaySpec, ctx: WindowCtx, i: nat, draws: nat -> Unit, so: Days, recent: set<int>, lo: int, hi: int)
    requires i < |ctx.weeks| && AreWeeks(ctx) && ctx.trailing28Start <= ctx.anchorDay
    requires spec.historyWeeklyActiveDays > 0.0 && HistoryBefore(so.days, recent, ctx, i)
    requires AllWithin(so.days, Max(ctx.windowStart, EligibleStart(spec, ctx)), Min(ctx.anchorDay, EligibleEnd(spec, ctx)))
    requires lo == Max(ctx.weeks[i].monday, EligibleStart(spec, ctx)) && lo <= hi
    requires hi == Min(Min(ctx.weeks[i].sunday, ctx.trailing28Start - 1), EligibleEnd(spec, ctx))
    ensures var n := JitteredInt(HistoryBase(spec.historyWeeklyActiveDays, ctx.weeks[i].index), 0.3, 0, draws(so.next));
            var all := Segment(lo, hi, n, draws, so.(next := so.next + 1)).days;
            && AllWithin(all, Max(ctx.windowStart, EligibleStart(spec, ctx)), Min(ctx.anchorDay, EligibleEnd(spec, ctx)))
            && so.days <= all && HistoryBefore(all, recent, ctx, i + 1)
            && (forall d | d in all && d !in so.days :: d >= ctx.windowStart + 7 * i)
            && HasQuota(Between(all, lo, hi), Between(recent, lo, hi), Quota(lo, hi, n))
  {
    var n := JitteredInt(HistoryBase(spec.historyWeeklyActiveDays, ctx.weeks[i].index), 0.3, 0, draws(so.next));
    SegmentLaws(lo, hi, n, draws, so.(next := so.next + 1));
    InsideWeek(so.days, Segment(lo, hi, n, draws, so.(next := so.next + 1)).days, recent, ctx, i, lo, hi,
               Max(ctx.windowStart, EligibleStart(spec, ctx)), Min(ctx.anchorDay, EligibleEnd(spec, ctx)));
  }

  lemma DrawsAreJittered(base: real, draw: Unit)
    requires base >= 0.0
    ensures IsJittered(JitteredInt(base, 0.3, 0, draw), base)
  {
    JitteredBounds(base, 0.3, 0, draw);
  }

  lemma DenseWeek(all: set<int>, recent: set<int>, spec: PersonaDaySpec, ctx: WindowCtx, i: nat, lo: int, hi: int, n: int)
    requires i < |ctx.weeks| && spec.historyWeeklyActiveDays > 0.0
    requires lo == Max(ctx.weeks[i].monday, EligibleStart(spec, ctx))
    requires hi == Min(Min(ctx.weeks[i].sunday, ctx.trailing28Start - 1), EligibleEnd(spec, ctx))
    requires IsJittered(n, HistoryBase(spec.historyWeeklyActiveDays, ctx.weeks[i].index))
    requires HasQuota(Between(all, lo, hi), Between(recent, lo, hi), Quota(lo, hi, n))
    ensures WeekIsDense(all, recent, spec, ctx, i)
  {
  }

  lemma EmptyWeek(spec: PersonaDaySpec, ctx: WindowCtx, i: nat, draws: nat -> Unit, so: Days, recent: set<int>, lo: int, hi: int)
    requires i < |ctx.weeks| && spec.historyWeeklyActiveDays > 0.0 && HistoryBefore(so.days, recent, ctx, i)
    requires lo == Max(ctx.weeks[i].monday, EligibleStart(spec, ctx)) && lo > hi
    requires hi == Min(Min(ctx.weeks[i].sunday, ctx.trailing28Start - 1), EligibleEnd(spec, ctx))
    ensures Week(spec, ctx, ctx.weeks[i], draws, so) == so
    ensures HistoryBefore(so.days, recent, ctx, i + 1) && WeekIsDense(so.days, recent, spec, ctx, i)
  {
  }

  lemma WeekLaws(spec: PersonaDaySpec, ctx: WindowCtx, i: nat, draws: nat -> Unit, so: Days, recent: set<int>)
    requires i < |ctx.weeks| && AreWeeks(ctx) && ctx.trailing28Start <= ctx.anchorDay
    requires spec.historyWeeklyActiveDays > 0.0 && HistoryBefore(so.days, recent, ctx, i)
    requires AllWithin(so.days, Max(ctx.windowStart, EligibleStart(spec, ctx)), Min(ctx.anchorDay, EligibleEnd(spec, ctx)))
    ensures var all := Week(spec, ctx, ctx.weeks[i], draws, so).days;
            && AllWithin(all, Max(ctx.windowStart, EligibleStart(spec, ctx)), Min(ctx.anchorDay, EligibleEnd(spec, ctx)))
            && so.days <= all && HistoryBefore(all, recent, ctx, i + 1) && WeekIsDense(all, recent, spec, ctx, i)
            && (forall d | d in all && d !in so.days :: d >= ctx.windowStart + 7 * i)
  {
    var lo := Max(ctx.weeks[i].monday, EligibleStart(spec, ctx));
    var hi := Min(Min(ctx.weeks[i].sunday, ctx.trailing28Start - 1), EligibleEnd(spec, ctx));
    if lo <= hi {
      var base := HistoryBase(spec.historyWeeklyActiveDays, ctx.weeks[i].index);
      DrawsAreJittered(base, draws(so.next));
      WeekSegment(spec, ctx, i, draws, so, recent, lo, hi);
      DenseWeek(Week(spec, ctx, ctx.weeks[i], draws, so).days, recent, spec, ctx, i, lo, hi,
                JitteredInt(base, 0.3, 0, draws(so.next)));
    } else {
      EmptyWeek(spec, ctx, i, draws, so, recent, lo, hi);
    }
  }

  lemma {:induction false} HistoryLaws(spec: PersonaDaySpec, ctx: WindowCtx, n: nat, draws: nat -> Unit, so: Days)
    requires n <= |ctx.weeks| && AreWeeks(ctx) && ctx.trailing28Start <= ctx.anchorDay && spec.historyWeeklyActiveDays > 0.0
    requires AllWithin(so.days, Max(ctx.windowStart, EligibleStart(spec, ctx)), Min(ctx.anchorDay, EligibleEnd(spec, ctx)))
    ensures var all := History(spec, ctx, n, draws, so).days;
            && AllWithin(all, Max(ctx.windowStart, EligibleStart(spec, ctx)), Min(ctx.anchorDay, EligibleEnd(spec, ctx)))
            && HistoryBefore(all, so.days, ctx, n)
            && (forall i | 0 <= i < n :: WeekIsDense(all, so.days, spec, ctx, i))
  {
    if n > 0 {
      var before := History(spec, ctx, n - 1, draws, so);
      var all := History(spec, ctx, n, draws, so).days;
      HistoryLaws(spec, ctx, n - 1, draws, so);
      WeekLaws(spec, ctx, n - 1, draws, before, so.days);
      forall i | 0 <= i < n - 1 ensures WeekIsDense(all, so.days, spec, ctx, i) {
        EarlierWeekStays(before.days, all, so.days, spec, ctx, i, n - 1);
      }
    }
  }

  // The picks of the complete weeks before the trailing 28 days.
  method HistoryDays(rng: Rng, spec: PersonaDaySpec, ctx: WindowCtx, recent: set<int>) returns (days: set<int>)
    requires spec.historyWeeklyActiveDays > 0.0
    modifies rng
    ensures Days(days, rng.next) == History(spec, ctx, |ctx.weeks|, rng.draws, Days(recent, old(rng.next)))
  {
    days := recent;
    for i := 0 to |ctx.weeks|
      invariant Days(days, rng.next) == History(spec, ctx, i, rng.draws, Days(recent, old(rng.next)))
    {
      days := AddWeek(rng, spec, ctx, ctx.weeks[i], days);
    }
  }

  method AddWeek(rng: Rng, spec: PersonaDaySpec, ctx: WindowCtx, week: WeekWindow, days: set<int>) returns (all: set<int>)
    requires spec.historyWeeklyActiveDays > 0.0
    modifies rng
    ensures Days(all, rng.next) == Week(spec, ctx, week, rng.draws, Days(days, old(rng.next)))
  {
    var wStart := Max(week.monday, EligibleStart(spec, ctx));
    var wEnd := Min(Min(week.sunday, ctx.trailing28Start - 1), EligibleEnd(spec, ctx));
    all := days;
    if wStart <= wEnd {
      var n := JitterInt(rng, HistoryBase(spec.historyWeeklyActiveDays, week.index), 0.3, 0);
      all := AddSegment(rng, days, wStart, wEnd, n);
    }
  }

  // The densities of a persona's days, written out. Where the month begins before the trailing 28 days, its first
  // days may also be picked for their week.
  ghost predicate HasDensities(days: set<int>, spec: PersonaDaySpec, anchorDay: int, monthStart: int) {
    var start := WeekStart(anchorDay) - 91;
    var since := if spec.activeSince.Some? then anchorDay - spec.activeSince.value else start;
    var until := if spec.activeUntil.Some? then anchorDay - spec.activeUntil.value else anchorDay;
    var month := Quota(Max(monthStart, since), Min(anchorDay, until), spec.currentMonthActiveDays);
    var rest := Quota(Max(anchorDay - 27, since), Min(monthStart - 1, until),
                      Max(0, spec.trailing28ActiveDays - spec.currentMonthActiveDays));
    && (forall d | d in days :: Max(start, since) <= d <= Min(anchorDay, until))
    && |Between(days, Max(monthStart, since), Min(anchorDay, until))| >= month
    && (monthStart >= anchorDay - 27 || spec.historyWeeklyActiveDays <= 0.0 ==>
          |Between(days, Max(monthStart, since), Min(anchorDay, until))| == month)
    && |Between(days, Max(anchorDay - 27, since), Min(monthStart - 1, until))| == rest
    && |days| >= month + rest && (spec.historyWeeklyActiveDays <= 0.0 ==> |days| == month + rest)
    && (spec.historyWeeklyActiveDays > 0.0 ==>
          HasWeekDensities(days, spec.historyWeeklyActiveDays, start, since, until, anchorDay, monthStart))
  }

  // Week i of the thirteen, written out.
  ghost predicate WeekIHolds(days: set<int>, weekly: real, start: int, since: int, until: int, anchorDay: int, monthStart: int,
                             i: nat)
  {
    WeekHasDensity(days, weekly * Ramp(i), Max(start + 7 * i, since), Min(Min(start + 7 * i + 6, anchorDay - 28), until),
                   monthStart)
  }

  // In each of the thirteen complete weeks the base rises evenly, from 0.3 to 1.3 of the weekly number.
  ghost predicate HasWeekDensities(days: set<int>, weekly: real, start: int, since: int, until: int, anchorDay: int,
                                   monthStart: int)
  {
    forall i: nat | i < 13 :: WeekIHolds(days, weekly, start, since, until, anchorDay, monthStart, i)
  }

  function Ramp(i: nat): real {
    0.3 + i as real / 12.0
  }

  ghost predicate WeekHasDensity(days: set<int>, base: real, lo: int, hi: int, monthStart: int) {
    lo <= hi ==>
      exists n :: IsJittered(n, base)
                  && |Between(days, lo, hi)| >= Quota(lo, hi, n)
                  && (hi < monthStart ==> |Between(days, lo, hi)| == Quota(lo, hi, n))
  }

  lemma HistoryBaseExactly(weekly: real, i: nat)
    requires weekly > 0.0 && i < 13
    ensures HistoryBase(weekly, i + 1) == weekly * Ramp(i)
  {
    RampExactly(i + 1);
  }

  lemma WeekDensity(days: set<int>, recent: set<int>, spec: PersonaDaySpec, ctx: WindowCtx, i: nat, base: real, lo: int, hi: int)
    requires i < |ctx.weeks| && spec.historyWeeklyActiveDays > 0.0 && WeekIsDense(days, recent, spec, ctx, i)
    requires base == HistoryBase(spec.historyWeeklyActiveDays, ctx.weeks[i].index)
    requires lo == Max(ctx.weeks[i].monday, EligibleStart(spec, ctx))
    requires hi == Min(Min(ctx.weeks[i].sunday, ctx.trailing28Start - 1), EligibleEnd(spec, ctx))
    requires forall d | d in recent :: d >= Min(ctx.monthStartCurrent, ctx.trailing28Start)
    ensures WeekHasDensity(days, base, lo, hi, ctx.monthStartCurrent)
  {
    if lo <= hi {
      var n :| IsJittered(n, base) && HasQuota(Between(days, lo, hi), Between(recent, lo, hi), Quota(lo, hi, n));
      if hi < ctx.monthStartCurrent {
        assert Between(recent, lo, hi) == {};
      }
    }
  }

  lemma RecentStays(days: set<int>, recent: set<int>, ctx: WindowCtx, lo: int, hi: int)
    requires HistoryBefore(days, recent, ctx, |ctx.weeks|)
    ensures |Between(days, lo, hi)| >= |Between(recent, lo, hi)|
    ensures lo >= ctx.trailing28Start ==> Between(days, lo, hi) == Between(recent, lo, hi)
  {
    SubsetSize(Between(recent, lo, hi), Between(days, lo, hi));
  }

  lemma OneWeekHolds(days: set<int>, recent: set<int>, spec: PersonaDaySpec, ctx: WindowCtx, anchorDay: int, monthStart: int,
                     i: nat)
    requires IsWindow(ctx, anchorDay, monthStart) && AreWeeks(ctx) && spec.historyWeeklyActiveDays > 0.0 && i < 13
    requires forall d | d in recent :: d >= Min(ctx.monthStartCurrent, ctx.trailing28Start)
    requires WeekIsDense(days, recent, spec, ctx, i)
    ensures WeekIHolds(days, spec.historyWeeklyActiveDays, ctx.windowStart, EligibleStart(spec, ctx), EligibleEnd(spec, ctx),
                       anchorDay, monthStart, i)
  {
    var week := ctx.weeks[i];
    assert week == WeekWindow(i + 1, ctx.windowStart + 7 * i, ctx.windowStart + 7 * i + 6);
    HistoryBaseExactly(spec.historyWeeklyActiveDays, i);
    WeekDensity(days, recent, spec, ctx, i, spec.historyWeeklyActiveDays * Ramp(i),
                Max(ctx.windowStart + 7 * i, EligibleStart(spec, ctx)),
                Min(Min(ctx.windowStart + 7 * i + 6, anchorDay - 28), EligibleEnd(spec, ctx)));
  }

  lemma WeeksHold(days: set<int>, recent: set<int>, spec: PersonaDaySpec, ctx: WindowCtx, anchorDay: int, monthStart: int)
    requires IsWindow(ctx, anchorDay, monthStart) && AreWeeks(ctx) && spec.historyWeeklyActiveDays > 0.0
    requires forall d | d in recent :: d >= Min(ctx.monthStartCurrent, ctx.trailing28Start)
    requires forall i | 0 <= i < |ctx.weeks| :: WeekIsDense(days, recent, spec, ctx, i)
    ensures HasWeekDensities(days, spec.historyWeeklyActiveDays, ctx.windowStart, EligibleStart(spec, ctx), EligibleEnd(spec, ctx),
                             anchorDay, monthStart)
  {
    forall i: nat | i < 13
      ensures WeekIHolds(days, spec.historyWeeklyActiveDays, ctx.windowStart, EligibleStart(spec, ctx), EligibleEnd(spec, ctx),
                         anchorDay, monthStart, i)
    {
      OneWeekHolds(days, recent, spec, ctx, anchorDay, monthStart, i);
    }
  }

  lemma DensitiesHold(days: set<int>, recent: set<int>, spec: PersonaDaySpec, ctx: WindowCtx, anchorDay: int, monthStart: int)
    requires IsWindow(ctx, anchorDay, monthStart) && HistoryBefore(days, recent, ctx, |ctx.weeks|)
    requires AllWithin(days, Max(ctx.windowStart, EligibleStart(spec, ctx)), Min(ctx.anchorDay, EligibleEnd(spec, ctx)))
    requires MonthIsDense(recent, spec, ctx) && RestIsDense(recent, spec, ctx) && |recent| == AskedDays(spec, ctx)
    requires if spec.historyWeeklyActiveDays > 0.0
             then HasWeekDensities(days, spec.historyWeeklyActiveDays, ctx.windowStart, EligibleStart(spec, ctx),
                                   EligibleEnd(spec, ctx), anchorDay, monthStart)
             else days == recent
    ensures HasDensities(days, spec, anchorDay, monthStart)
  {
    var since, until := EligibleStart(spec, ctx), EligibleEnd(spec, ctx);
    RecentStays(days, recent, ctx, Max(monthStart, since), Min(anchorDay, until));
    RecentStays(days, recent, ctx, Max(anchorDay - 27, since), Min(monthStart - 1, until));
    SubsetSize(recent, days);
  }

  /**
   For every stream the days of a persona lie inside the eligibility bounds and the window, and have the asked
   densities in the current month, the rest of the trailing 28 days and every complete week.
   */
  lemma PersonaHasDensities(spec: PersonaDaySpec, ctx: WindowCtx, draws: nat -> Unit, next: nat, anchorDay: int, monthStart: int)
    requires IsWindow(ctx, anchorDay, monthStart) && anchorDay - 30 <= monthStart <= anchorDay
    ensures HasDensities(PersonaDays(spec, ctx, draws, next).days, spec, anchorDay, monthStart)
    ensures AllWithin(PersonaDays(spec, ctx, draws, next).days, Max(ctx.windowStart, EligibleStart(spec, ctx)),
                      Min(ctx.anchorDay, EligibleEnd(spec, ctx)))
  {
    var recent := Recent(spec, ctx, draws, next);
    var days := PersonaDays(spec, ctx, draws, next).days;
    WindowBounds(ctx, anchorDay, monthStart);
    RecentLaws(spec, ctx, draws, next);
    if spec.historyWeeklyActiveDays > 0.0 {
      HistoryLaws(spec, ctx, |ctx.weeks|, draws, recent);
      WeeksHold(days, recent.days, spec, ctx, anchorDay, monthStart);
    }
    DensitiesHold(days, recent.days, spec, ctx, anchorDay, monthStart);
  }

  // The days of a persona, sorted.
  method BuildPersonaDays(rng: Rng, spec: PersonaDaySpec, ctx: WindowCtx) returns (result: seq<int>)
    modifies rng
    ensures Increasing(result) && |result| == |ToSet(result)|
    ensures Days(ToSet(result), rng.next) == PersonaDays(spec, ctx, rng.draws, old(rng.next))
  {
    var days := RecentDays(rng, spec, ctx);
    if spec.historyWeeklyActiveDays > 0.0 {
      days := HistoryDays(rng, spec, ctx, days);
    }
    result := SortedDays(days);
  }

  function HistoryBase(weekly: real, weekIndex: int): (base: real)
    requires weekly > 0.0
    ensures base >= 0.0
  {
    RampIsPositive(weekIndex);
    ProductIsNotNegative(weekly, HistoryRampFactor(weekIndex));
    weekly * HistoryRampFactor(weekIndex)
  }

  lemma SameDays(sorted: seq<int>, days: set<int>)
    requires forall d :: d in sorted <==> d in days
    ensures ToSet(sorted) == days
  {
    forall d ensures d in ToSet(sorted) <==> d in days {
      assert d in ToSet(sorted) <==> d in sorted;
    }
  }

  method SortedDays(days: set<int>) returns (sorted: seq<int>)
    ensures Increasing(sorted) && ToSet(sorted) == days && |sorted| == |days|
  {
    var listed := Elements(days);
    sorted := SortDays(listed);
    assert forall d :: d in sorted <==> d in days;
    SameDays(sorted, days);
  }

  /** No day of a persona precedes the window, and its week is 14 exactly from the current Monday on. */
  lemma PersonaDaysHaveWeeks(spec: PersonaDaySpec, ctx: WindowCtx, draws: nat -> Unit, next: nat, anchorDay: int, monthStart: int,
                             d: int)
    requires IsWindow(ctx, anchorDay, monthStart) && anchorDay - 30 <= monthStart <= anchorDay
    requires d in PersonaDays(spec, ctx, draws, next).days
    ensures WeekIndex(d, anchorDay).Some? && 1 <= WeekIndex(d, anchorDay).value <= 14
    ensures WeekIndex(d, anchorDay) == Some(14) <==> d >= WeekStart(anchorDay)
  {
    PersonaHasDensities(spec, ctx, draws, next, anchorDay, monthStart);
  }

  /** Exactly the days before the window have no week, and weeks are numbered in the order of their days. */
  lemma WeekIndexMeaning(day: int, later: int, anchorDay: int)
    requires day <= later
    ensures WeekIndex(day, anchorDay).None? <==> day < WeekStart(anchorDay) - 91
    ensures WeekIndex(day, anchorDay).Some? ==>
              && WeekIndex(later, anchorDay).Some?
              && WeekIndex(day, anchorDay).value <= WeekIndex(later, anchorDay).value
    ensures WeekIndex(day, anchorDay).Some? && later < WeekStart(anchorDay) ==>
              (WeekIndex(day, anchorDay) == WeekIndex(later, anchorDay) <==> WeekStart(day) == WeekStart(later))
  {
    if WeekIndex(day, anchorDay).Some? && later < WeekStart(anchorDay) {
      var windowStart := WeekStart(anchorDay) - 7 * COMPLETE_WEEKS;
      var k := (day - windowStart) / 7;
      assert DayOfWeek(windowStart + 7 * k) == 1;
      SameWeek(day, windowStart + 7 * k);
      SameWeek(later, windowStart + 7 * k);
    }
  }
}
