/**
 The helpers of the seed generator that draw random numbers (scripts/seed/rng.ts). The generator is an
 arbitrary stream of numbers from 0 up to, but not including, 1.
 */
module Random {
  import opened Rounding
  import opened Sorting
  import opened Wrappers

  type Unit = r: real | 0.0 <= r < 1.0

  class Rng {
    const draws: nat -> Unit
    var next: nat

    constructor (draws: nat -> Unit)
      ensures this.draws == draws && next == 0
    {
      this.draws, next := draws, 0;
    }

    method Draw() returns (r: Unit)
      modifies this
      ensures r == draws(old(next)) && next == old(next) + 1
    {
      r := draws(next);
      next := next + 1;
    }
  }

  // The integer a draw stands for.
  function Spread(r: Unit, min: int, max: int): int
    requires min <= max
  {
    (r * (max - min + 1) as real).Floor + min
  }

  lemma SpreadIsInRange(r: Unit, min: int, max: int)
    requires min <= max
    ensures min <= Spread(r, min, max) <= max
  {
    var n := (max - min + 1) as real;
    ScaleUnit(r, n);
  }

  lemma ScaleUnit(r: real, n: real)
    requires 0.0 <= r < 1.0 && n > 0.0
    ensures 0.0 <= r * n < n
  {
    assert (1.0 - r) * n > 0.0;
    assert (1.0 - r) * n == n - r * n;
  }

  /** An integer between the bounds, both inclusive; reversed bounds throw. */
  method RandInt(rng: Rng, min: int, max: int) returns (n: Option<int>)
    modifies rng
    ensures n.None? <==> max < min
    ensures n.Some? ==> min <= n.value <= max && n.value == Spread(rng.draws(old(rng.next)), min, max)
    ensures n.Some? ==> rng.next == old(rng.next) + 1
  {
    if max < min {
      return None;
    }
    var r := rng.Draw();
    SpreadIsInRange(r, min, max);
    n := Some((r * (max - min + 1) as real).Floor + min);
  }

  // The number a draw stands for.
  function Scaled(r: Unit, min: real, max: real): real {
    Part(r, max - min) + min
  }

  function Part(r: Unit, width: real): real {
    r * width
  }

  lemma ScaledRange(r: Unit, min: real, max: real)
    ensures min < max ==> min <= Scaled(r, min, max) < max
    ensures min == max ==> Scaled(r, min, max) == min
  {
    PartRange(r, max - min);
  }

  lemma PartRange(r: Unit, width: real)
    ensures width > 0.0 ==> 0.0 <= Part(r, width) < width
    ensures width == 0.0 ==> Part(r, width) == 0.0
  {
    if width > 0.0 {
      ScaleUnit(r, width);
    }
  }

  /** A number from min up to, but not including, max. */
  method RandFloat(rng: Rng, min: real, max: real) returns (x: real)
    modifies rng
    ensures min < max ==> min <= x < max
    ensures min == max ==> x == min
    ensures x == Scaled(rng.draws(old(rng.next)), min, max) && rng.next == old(rng.next) + 1
  {
    var r := rng.Draw();
    ScaledRange(r, min, max);
    x := Scaled(r, min, max);
  }

  method Chance(rng: Rng, probability: real) returns (hit: bool)
    modifies rng
    ensures (hit <==> rng.draws(old(rng.next)) < probability) && rng.next == old(rng.next) + 1
  {
    var r := rng.Draw();
    hit := r < probability;
  }

  // The jittered base: never negative, and as far from the base as the draw decides.
  function Jittered(base: real, fraction: real, draw: Unit): real {
    Around(base, base * fraction, draw)
  }

  function Around(base: real, delta: real, draw: Unit): real {
    var x := base + Scaled(draw, -delta, delta);
    if x < 0.0 then 0.0 else x
  }

  lemma AroundIs(base: real, delta: real, draw: Unit, shift: real)
    requires shift == Scaled(draw, -delta, delta)
    ensures Around(base, delta, draw) == if base + shift < 0.0 then 0.0 else base + shift
  {
  }

  function JitteredInt(base: real, fraction: real, min: int, draw: Unit): int {
    var n := Round(Jittered(base, fraction, draw));
    if n < min then min else n
  }

  /** Never negative, and within the fraction of a base on either side when neither is negative. */
  lemma JitteredBounds(base: real, fraction: real, min: int, draw: Unit)
    ensures Jittered(base, fraction, draw) >= 0.0 && JitteredInt(base, fraction, min, draw) >= Max(min, 0)
    ensures base >= 0.0 && fraction >= 0.0 ==>
              && base - base * fraction <= Jittered(base, fraction, draw) <= base + base * fraction
              && Round(base - base * fraction) <= JitteredInt(base, fraction, min, draw)
              && (JitteredInt(base, fraction, min, draw) == min
                  || JitteredInt(base, fraction, min, draw) <= Round(base + base * fraction))
  {
    var delta, x := base * fraction, Jittered(base, fraction, draw);
    RoundIsMonotone(0.0, x);
    RoundOfInteger(0);
    if base >= 0.0 && fraction >= 0.0 {
      ProductIsNotNegative(base, fraction);
      AroundBounds(base, delta, draw);
      RoundIsMonotone(x, base + delta);
      RoundIsMonotone(base - delta, x);
    }
  }

  lemma AroundBounds(base: real, delta: real, draw: Unit)
    requires base >= 0.0 && delta >= 0.0
    ensures base - delta <= Around(base, delta, draw) <= base + delta
  {
    ScaledRange(draw, -delta, delta);
  }

  lemma ProductIsNotNegative(x: real, y: real)
    requires x >= 0.0 && y >= 0.0
    ensures x * y >= 0.0
  {
  }

  method Jitter(rng: Rng, base: real, fraction: real) returns (x: real)
    modifies rng
    ensures x == Jittered(base, fraction, rng.draws(old(rng.next))) && rng.next == old(rng.next) + 1
  {
    var delta := base * fraction;
    var shift := RandFloat(rng, -delta, delta);
    AroundIs(base, delta, rng.draws(old(rng.next)), shift);
    x := if base + shift < 0.0 then 0.0 else base + shift;
  }

  // The rounded jitter, but never below min.
  method JitterInt(rng: Rng, base: real, fraction: real, min: int) returns (n: int)
    modifies rng
    ensures n == JitteredInt(base, fraction, min, rng.draws(old(rng.next))) && rng.next == old(rng.next) + 1
  {
    var x := Jitter(rng, base, fraction);
    var rounded := Round(x);
    n := if rounded < min then min else rounded;
  }

  // ---------- Shuffling ----------

  ghost predicate IsPermutation<T>(a: seq<T>, b: seq<T>) {
    multiset(a) == multiset(b)
  }

  lemma SwapPermutes<T>(s: seq<T>, i: nat, j: nat)
    requires i < |s| && j < |s|
    ensures IsPermutation(s[i := s[j]][j := s[i]], s)
  {
  }

  lemma SwapKeepsDistinct<T>(s: seq<T>, i: nat, j: nat)
    requires i < |s| && j < |s| && Distinct(s)
    ensures Distinct(s[i := s[j]][j := s[i]])
  {
  }

  lemma ComesFrom<T>(a: seq<T>, b: seq<T>, i: nat) returns (j: nat)
    requires IsPermutation(a, b) && i < |a|
    ensures j < |b| && a[i] == b[j]
  {
    assert a[i] in multiset(a);
    j :| j < |b| && b[j] == a[i];
  }

  function Swap<T>(s: seq<T>, i: nat, j: nat): (r: seq<T>)
    requires i < |s| && j < |s|
    ensures |r| == |s|
  {
    s[i := s[j]][j := s[i]]
  }

  function SwapAt<T>(s: seq<T>, i: nat, draw: Unit): (r: seq<T>)
    requires i < |s|
    ensures |r| == |s|
  {
    SpreadIsInRange(draw, 0, i);
    Swap(s, i, Spread(draw, 0, i))
  }

  // From the last position down, each item changes places with a drawn one at or before it.
  function Shuffled<T>(s: seq<T>, i: int, draws: nat -> Unit, next: nat): (r: seq<T>)
    requires i < |s|
    ensures |r| == |s|
    decreases if i <= 0 then 0 else i
  {
    if i <= 0 then s
    else
      Shuffled(SwapAt(s, i, draws(next)), i - 1, draws, next + 1)
  }

  lemma {:induction false} ShuffledPermutes<T>(s: seq<T>, i: int, draws: nat -> Unit, next: nat)
    requires i < |s|
    ensures IsPermutation(Shuffled(s, i, draws, next), s)
    ensures Distinct(s) ==> Distinct(Shuffled(s, i, draws, next))
    decreases if i <= 0 then 0 else i
  {
    if i > 0 {
      SpreadIsInRange(draws(next), 0, i);
      var j := Spread(draws(next), 0, i);
      SwapPermutes(s, i, j);
      if Distinct(s) {
        SwapKeepsDistinct(s, i, j);
      }
      ShuffledPermutes(Swap(s, i, j), i - 1, draws, next + 1);
    }
  }

  method SwapDrawn<T>(rng: Rng, arr: array<T>, i: nat)
    requires i < arr.Length
    modifies rng, arr
    ensures arr[..] == SwapAt(old(arr[..]), i, rng.draws(old(rng.next))) && rng.next == old(rng.next) + 1
  {
    var draw := RandInt(rng, 0, i);
    var j := draw.value;
    var tmp := arr[i];
    arr[i] := arr[j];
    arr[j] := tmp;
  }

  /** The shuffle of a copy holds the same items, as often as before, in the order that the draws decide. */
  method Shuffle<T>(rng: Rng, items: seq<T>) returns (shuffled: seq<T>)
    modifies rng
    ensures IsPermutation(shuffled, items) && |shuffled| == |items|
    ensures Distinct(items) ==> Distinct(shuffled)
    ensures shuffled == Shuffled(items, |items| - 1, rng.draws, old(rng.next))
    ensures rng.next == old(rng.next) + if items == [] then 0 else |items| - 1
  {
    var arr := new T[|items|](i requires 0 <= i < |items| => items[i]);
    assert arr[..] == items;
    var i := arr.Length - 1;
    while i > 0
      invariant -1 <= i < arr.Length && (i == -1 ==> items == [])
      invariant rng.next == old(rng.next) + arr.Length - 1 - i
      invariant Shuffled(items, |items| - 1, rng.draws, old(rng.next)) == Shuffled(arr[..], i, rng.draws, rng.next)
    {
      SwapDrawn(rng, arr, i);
      i := i - 1;
    }
    shuffled := arr[..];
    ShuffledPermutes(items, |items| - 1, rng.draws, old(rng.next));
  }

  // ---------- Every order can come up ----------

  lemma DrawFor(j: nat, i: nat) returns (r: Unit)
    requires j <= i
    ensures Spread(r, 0, i) == j
  {
    var n := (i + 1) as real;
    var x := j as real / n;
    assert x * n == j as real;
    ScaleStrictly(0.0, x, n);
    ScaleStrictly(x, 1.0, n);
    assert x == 1.0 ==> x * n == n;
    r := x;
  }

  // The draws are those of the list, and then anything.
  ghost predicate Begins(draws: nat -> Unit, next: nat, list: seq<Unit>) {
    forall k | 0 <= k < |list| :: draws(next + k) == list[k]
  }

  lemma PermutedPrefix<T>(a: seq<T>, b: seq<T>, i: nat)
    requires i < |a| == |b| && a[i+1..] == b[i+1..] && IsPermutation(a, b)
    ensures IsPermutation(a[..i+1], b[..i+1])
  {
    assert a == a[..i+1] + a[i+1..] && b == b[..i+1] + b[i+1..];
    assert multiset(a[..i+1]) == multiset(a) - multiset(a[i+1..]);
    assert multiset(b[..i+1]) == multiset(b) - multiset(b[i+1..]);
  }

  // Whichever stream begins with the list, it puts the items of the first i + 1 places in the wanted order.
  ghost predicate Arranges<T(!new)>(list: seq<Unit>, s: seq<T>, wanted: seq<T>, i: nat)
    requires i < |s|
  {
    forall draws: nat -> Unit, next: nat | Begins(draws, next, list) :: Shuffled(s, i, draws, next) == wanted
  }

  lemma OneMoreDraw<T(!new)>(s: seq<T>, wanted: seq<T>, i: nat, j: nat, r: Unit, rest: seq<Unit>)
    requires 0 < i < |s| && j <= i && Spread(r, 0, i) == j && Arranges(rest, Swap(s, i, j), wanted, i - 1)
    ensures Arranges([r] + rest, s, wanted, i)
  {
    var list := [r] + rest;
    forall draws: nat -> Unit, next: nat | Begins(draws, next, list) ensures Shuffled(s, i, draws, next) == wanted {
      assert draws(next + 0) == list[0];
      forall k | 0 <= k < |rest| ensures draws(next + 1 + k) == rest[k] {
        assert draws(next + (k + 1)) == list[k + 1];
      }
      assert Begins(draws, next + 1, rest);
    }
  }

  lemma NothingToArrange<T>(s: seq<T>, wanted: seq<T>)
    requires 0 < |s| == |wanted| && s[1..] == wanted[1..] && IsPermutation(s, wanted)
    ensures s == wanted
  {
    PermutedPrefix(s, wanted, 0);
    assert s[..1] == [s[0]] && wanted[..1] == [wanted[0]];
    assert s[0] in multiset(wanted[..1]);
  }

  lemma SwapPlaces<T>(s: seq<T>, wanted: seq<T>, i: nat) returns (j: nat)
    requires i < |s| == |wanted| && s[i+1..] == wanted[i+1..] && IsPermutation(s, wanted)
    ensures j <= i && Swap(s, i, j)[i..] == wanted[i..] && IsPermutation(Swap(s, i, j), wanted)
  {
    PermutedPrefix(s, wanted, i);
    assert wanted[i] == wanted[..i+1][i];
    j := ComesFrom(wanted[..i+1], s[..i+1], i);
    SwapPermutes(s, i, j);
    var swapped := Swap(s, i, j);
    forall k | i <= k < |s| ensures swapped[k] == wanted[k] {
      if k > i {
        assert swapped[k] == s[i+1..][k - i - 1] == wanted[i+1..][k - i - 1];
      }
    }
  }

  lemma {:induction false} DrawsForPrefix<T(!new)>(s: seq<T>, wanted: seq<T>, i: nat) returns (list: seq<Unit>)
    requires i < |s| == |wanted| && s[i+1..] == wanted[i+1..] && IsPermutation(s, wanted)
    ensures |list| == i && Arranges(list, s, wanted, i)
    decreases i
  {
    if i == 0 {
      list := [];
      NothingToArrange(s, wanted);
    } else {
      var j := SwapPlaces(s, wanted, i);
      var r := DrawFor(j, i);
      var rest := DrawsForPrefix(Swap(s, i, j), wanted, i - 1);
      OneMoreDraw(s, wanted, i, j, r, rest);
      list := [r] + rest;
    }
  }

  /** Every order of the items comes up for some stream of draws. */
  lemma EveryOrderCanCome<T(!new)>(items: seq<T>, wanted: seq<T>) returns (draws: nat -> Unit)
    requires IsPermutation(items, wanted)
    ensures Shuffled(items, |items| - 1, draws, 0) == wanted
  {
    assert |multiset(items)| == |items| && |multiset(wanted)| == |wanted|;
    if items == [] {
      draws := k => 0.0;
    } else {
      var list := DrawsForPrefix(items, wanted, |items| - 1);
      draws := (k: nat) => if k < |list| then list[k] else 0.0;
      assert Begins(draws, 0, list);
    }
  }
}
