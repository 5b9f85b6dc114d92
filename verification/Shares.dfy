/** Shares of whole numbers, and the share of their totals. */
module Shares {
  import opened Rounding

  datatype Share = Share(part: nat, whole: nat)

  function SumParts(shares: seq<Share>): nat {
    if shares == [] then 0 else shares[0].part + SumParts(shares[1..])
  }

  function SumWholes(shares: seq<Share>): nat {
    if shares == [] then 0 else shares[0].whole + SumWholes(shares[1..])
  }

  lemma {:induction false} SumLast(shares: seq<Share>)
    requires shares != []
    ensures SumParts(shares) == SumParts(shares[..|shares|-1]) + shares[|shares|-1].part
    ensures SumWholes(shares) == SumWholes(shares[..|shares|-1]) + shares[|shares|-1].whole
  {
    if |shares| > 1 {
      SumLast(shares[1..]);
      assert shares[1..][..|shares|-2] == shares[..|shares|-1][1..];
    }
  }

  function Percent(s: Share): real
    requires s.whole > 0
  {
    s.part as real / s.whole as real * 100.0
  }

  ghost predicate AtMost(a: Share, b: Share) {
    a.part * b.whole <= b.part * a.whole
  }

  function Add(a: Share, b: Share): Share {
    Share(a.part + b.part, a.whole + b.whole)
  }

  lemma AddShares(a: Share, a': Share, b: Share)
    ensures !AtMost(a, b) && !AtMost(a', b) ==> !AtMost(Add(a, a'), b)
    ensures !AtMost(b, a) && !AtMost(b, a') ==> !AtMost(b, Add(a, a'))
  {
    assert (a.part + a'.part) * b.whole == a.part * b.whole + a'.part * b.whole;
    assert b.part * (a.whole + a'.whole) == b.part * a.whole + b.part * a'.whole;
  }

  // Shares that are all above another add up to one above it, and likewise below.
  lemma {:induction false} NotAllOnOneSide(shares: seq<Share>, total: Share)
    requires shares != []
    ensures var sum := Share(SumParts(shares), SumWholes(shares));
            && ((forall s | s in shares :: !AtMost(s, total)) ==> !AtMost(sum, total))
            && ((forall s | s in shares :: !AtMost(total, s)) ==> !AtMost(total, sum))
  {
    var first, rest := shares[0], shares[1..];
    assert first in shares;
    if rest != [] {
      NotAllOnOneSide(rest, total);
      AddShares(first, Share(SumParts(rest), SumWholes(rest)), total);
      assert forall s | s in rest :: s in shares;
    }
  }

  lemma CrossMultiply(a: real, b: real, c: real, d: real)
    requires b > 0.0 && d > 0.0 && a * d <= c * b
    ensures a / b <= c / d
  {
    var x, y := a / b, c / d;
    assert a == x * b && c == y * d;
    assert a * d == x * (b * d) && c * b == y * (b * d);
    ScaleStrictly(x, y, b * d);
  }

  lemma AtMostOrdersPercents(a: Share, b: Share)
    requires a.whole > 0 && b.whole > 0 && AtMost(a, b)
    ensures Percent(a) <= Percent(b)
    ensures RoundTo1(Percent(a)) <= RoundTo1(Percent(b))
    ensures RoundTo2(Percent(a)) <= RoundTo2(Percent(b))
  {
    assert (a.part * b.whole) as real == a.part as real * b.whole as real;
    assert (b.part * a.whole) as real == b.part as real * a.whole as real;
    CrossMultiply(a.part as real, a.whole as real, b.part as real, b.whole as real);
    RoundTo1IsMonotone(Percent(a), Percent(b));
    RoundTo2IsMonotone(Percent(a), Percent(b));
  }

  // The unrounded and the rounded percentages of one share are at most those of another.
  ghost predicate NoHigher(a: Share, b: Share) {
    && a.whole > 0
    && b.whole > 0
    && Percent(a) <= Percent(b)
    && RoundTo1(Percent(a)) <= RoundTo1(Percent(b))
    && RoundTo2(Percent(a)) <= RoundTo2(Percent(b))
  }

  /** The share of the totals lies between two of the shares. */
  lemma TotalIsAmong(shares: seq<Share>, total: Share) returns (low: Share, high: Share)
    requires shares != [] && total == Share(SumParts(shares), SumWholes(shares))
    requires forall s | s in shares :: s.whole > 0
    ensures low in shares && NoHigher(low, total)
    ensures high in shares && NoHigher(total, high)
  {
    assert shares[0] in shares;
    NotAllOnOneSide(shares, total);
    low :| low in shares && AtMost(low, total);
    high :| high in shares && AtMost(total, high);
    AtMostOrdersPercents(low, total);
    AtMostOrdersPercents(total, high);
  }
}
