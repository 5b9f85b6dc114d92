/** The rounding of the source: halves go up, as in the built-in rounding of its language. */
module Rounding {
  function Round(x: real): int {
    (x + 0.5).Floor
  }

  function RoundTo1(x: real): real {
    Round(x * 10.0) as real / 10.0
  }

  function RoundTo2(x: real): real {
    Round(x * 100.0) as real / 100.0
  }

  // k is the whole number nearest to part / whole, and the larger one of two.
  ghost predicate IsNearest(k: int, part: int, whole: int) {
    -whole < 2 * (k * whole - part) <= whole
  }

  lemma RoundIsNearest(part: int, whole: int)
    requires whole > 0
    ensures IsNearest(Round(part as real / whole as real), part, whole)
  {
    var x := part as real / whole as real;
    Undivide(part as real, whole as real);
    RoundIsWithinHalf(x);
    NearestFrom(Round(x), x, part, whole);
  }

  lemma Undivide(x: real, w: real)
    requires w > 0.0
    ensures x / w * w == x
  {
  }

  lemma RoundIsWithinHalf(x: real)
    ensures -0.5 < Round(x) as real - x <= 0.5
  {
  }

  lemma NearestFrom(k: int, x: real, part: int, whole: int)
    requires whole > 0 && x * whole as real == part as real && -0.5 < k as real - x <= 0.5
    ensures IsNearest(k, part, whole)
  {
    var miss := ScaledMiss(k as real, x, whole as real);
    var product := WholeProduct(k, whole);
    assert miss == product as real - part as real;
    assert (product - part) as real == miss;
  }

  // The miss of k, scaled by a positive number.
  lemma ScaledMiss(k: real, x: real, w: real) returns (miss: real)
    requires -0.5 < k - x <= 0.5 && w > 0.0
    ensures miss == k * w - x * w && -w < 2.0 * miss <= w
  {
    var gap := k - x;
    miss := gap * w;
    var above := Room(0.5 - gap, w);
    var below := Room(gap + 0.5, w);
    assert above == 0.5 * w - miss && below == miss + 0.5 * w;
  }

  lemma Room(gap: real, w: real) returns (room: real)
    requires gap >= 0.0 && w > 0.0
    ensures room == gap * w && room >= 0.0 && (gap > 0.0 ==> room > 0.0)
  {
    room := gap * w;
  }

  lemma WholeProduct(k: int, whole: int) returns (product: int)
    ensures product == k * whole && product as real == k as real * whole as real
  {
    product := k * whole;
  }

  lemma RoundIsMonotone(x: real, y: real)
    requires x <= y
    ensures Round(x) <= Round(y)
  {
  }

  lemma RoundTo1IsMonotone(x: real, y: real)
    requires x <= y
    ensures RoundTo1(x) <= RoundTo1(y)
  {
    RoundIsMonotone(x * 10.0, y * 10.0);
  }

  lemma RoundTo2IsMonotone(x: real, y: real)
    requires x <= y
    ensures RoundTo2(x) <= RoundTo2(y)
  {
    RoundIsMonotone(x * 100.0, y * 100.0);
  }

  lemma RoundOfInteger(n: int)
    ensures Round(n as real) == n
  {
  }

  /** The difference of two rounded values is already rounded. */
  lemma RoundTo1OfDifference(x: real, y: real)
    ensures RoundTo1(RoundTo1(y) - RoundTo1(x)) == RoundTo1(y) - RoundTo1(x)
  {
    var a, b := Round(x * 10.0), Round(y * 10.0);
    assert (RoundTo1(y) - RoundTo1(x)) * 10.0 == (b - a) as real;
    RoundOfInteger(b - a);
  }

  lemma RoundTo2OfDifference(x: real, y: real)
    ensures RoundTo2(RoundTo2(y) - RoundTo2(x)) == RoundTo2(y) - RoundTo2(x)
  {
    var a, b := Round(x * 100.0), Round(y * 100.0);
    assert (RoundTo2(y) - RoundTo2(x)) * 100.0 == (b - a) as real;
    RoundOfInteger(b - a);
  }

  // Three rounded parts of a whole number miss it by at most one.
  lemma ThreeParts(x: real, y: real, z: real, whole: int)
    requires x + y + z == whole as real
    ensures whole - 1 <= Round(x) + Round(y) + Round(z) <= whole + 1
  {
  }

  // Multiplying by a positive number keeps a strict order.
  lemma ScaleStrictly(x: real, y: real, scale: real)
    requires scale > 0.0
    ensures x > y ==> x * scale > y * scale
  {
    assert (x - y) * scale == x * scale - y * scale;
    assert x - y > 0.0 ==> (x - y) * scale > 0.0;
  }

  lemma DivideBelow(x: real, k: real, y: real)
    requires k > 0.0 && x <= y * k
    ensures x / k <= y
  {
    var q := x / k;
    assert q * k == x;
    ScaleStrictly(q, y, k);
  }
}
