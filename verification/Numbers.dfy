/** A few facts about natural numbers. */
module Numbers {
  /** A finite set of numbers below `n` has at most `n` of them. */
  lemma {:induction false} SizeBelow(xs: set<nat>, n: nat)
    requires forall x :: x in xs ==> x < n
    ensures |xs| <= n
  {
    if n == 0 {
      assert xs == {};
    } else {
      SizeBelow(xs - {n - 1}, n - 1);
      if n - 1 !in xs {
        assert xs - {n - 1} == xs;
      }
    }
  }

  lemma Multiplied(a: nat, b: nat, c: nat)
    requires a <= b
    ensures a * c <= b * c
  {
  }

  lemma Divided(n: nat, d: nat, length: nat)
    requires d > 0 && n * d <= length
    ensures n <= length / d
  {
    if n > length / d {
      Multiplied(length / d + 1, n, d);
    }
  }

  lemma Difference(a: nat, b: nat, c: nat)
    requires a < b
    ensures b * c - a * c >= c
  {
    assert b * c == a * c + (b - a) * c;
    Multiplied(1, b - a, c);
  }

  /** Quotient and remainder are unique. */
  lemma Remainder(n: nat, d: nat, quotient: nat, remainder: nat)
    requires n == quotient * d + remainder && remainder < d
    ensures n / d == quotient && n % d == remainder
  {
    if n / d < quotient {
      Difference(n / d, quotient, d);
    } else if n / d > quotient {
      Difference(quotient, n / d, d);
    }
  }
}
