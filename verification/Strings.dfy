/** The source's string comparison: lexicographic by character. */
module Strings {
  predicate Less(a: string, b: string) {
    b != [] && (a == [] || a[0] < b[0] || (a[0] == b[0] && Less(a[1..], b[1..])))
  }

  lemma {:induction false} LessIsIrreflexive(a: string)
    ensures !Less(a, a)
  {
    if a != [] {
      LessIsIrreflexive(a[1..]);
    }
  }

  lemma {:induction false} LessIsTransitive(a: string, b: string, c: string)
    requires Less(a, b) && Less(b, c)
    ensures Less(a, c)
  {
    if a != [] && a[0] == b[0] == c[0] {
      LessIsTransitive(a[1..], b[1..], c[1..]);
    }
  }

  lemma {:induction false} LessIsTotal(a: string, b: string)
    ensures a == b || Less(a, b) || Less(b, a)
  {
    if a != [] && b != [] && a[0] == b[0] {
      LessIsTotal(a[1..], b[1..]);
      assert a == [a[0]] + a[1..] && b == [b[0]] + b[1..];
    }
  }

  lemma LessIsAsymmetric(a: string, b: string)
    requires Less(a, b)
    ensures !Less(b, a)
  {
    if Less(b, a) {
      LessIsTransitive(a, b, a);
      LessIsIrreflexive(a);
    }
  }

  /** The order in words: at the first difference the smaller character comes first, and a prefix comes before what extends it. */
  lemma {:induction false} LessExactly(a: string, b: string)
    ensures Less(a, b) <==> exists n :: IsFirstDifference(a, b, n)
  {
    if b != [] {
      if a == [] {
        assert IsFirstDifference(a, b, 0);
      } else if a[0] != b[0] {
        assert a[0] < b[0] ==> IsFirstDifference(a, b, 0);
      } else {
        LessExactly(a[1..], b[1..]);
        if Less(a, b) {
          var n :| IsFirstDifference(a[1..], b[1..], n);
          assert a[..n+1] == [a[0]] + a[1..][..n] && b[..n+1] == [b[0]] + b[1..][..n];
          assert IsFirstDifference(a, b, n + 1);
        }
        if n :| IsFirstDifference(a, b, n) {
          assert n > 0;
          assert a[1..][..n-1] == a[..n][1..] && b[1..][..n-1] == b[..n][1..];
          assert IsFirstDifference(a[1..], b[1..], n - 1);
        }
      }
    }
  }

  // The first n characters agree, and then a ends or has the smaller character.
  ghost predicate IsFirstDifference(a: string, b: string, n: int) {
    0 <= n <= |a| && n < |b| && a[..n] == b[..n] && (n == |a| || a[n] < b[n])
  }
}
