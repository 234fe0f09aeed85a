/**
 * Integer and exact-rational arithmetic used by the constraint-model
 * compiler: the two accumulator loops of the utility region (factorial and
 * the number of combinations), and the finite sums that the solver receives
 * as n-ary additions (host totals, the transitive average, the cost total).
 */
module Arith {

  /** n! as the usual recursive definition (0! = 1). */
  function Fact(n: nat): (r: nat)
    ensures r >= 1
  {
    if n == 0 then 1 else n * Fact(n - 1)
  }

  /**
   * The accumulator loop of `factorial`: multiplies 2, 3, ..., n into 1.
   * For n <= 1 the loop body never runs and the result is 1.
   */
  method Factorial(n: int) returns (res: int)
    ensures res == Fact(if n < 0 then 0 else n)
  {
    res := 1;
    var i := 2;
    while i <= n
      invariant 2 <= i <= (if n < 2 then 2 else n + 1)
      invariant res == Fact(i - 1)
    {
      res := res * i;
      i := i + 1;
    }
    assert Fact(0) == 1 && Fact(1) == 1;
  }

  /** Binomial coefficient by Pascal's rule; zero when k > n. */
  function Binomial(n: nat, k: nat): nat
  {
    if k == 0 then 1
    else if n == 0 then 0
    else Binomial(n - 1, k - 1) + Binomial(n - 1, k)
  }

  /** Choosing more items than there are gives zero combinations. */
  lemma {:induction false} BinomialAbove(n: nat, k: nat)
    requires k > n
    ensures Binomial(n, k) == 0
  {
    if n > 0 {
      BinomialAbove(n - 1, k - 1);
      BinomialAbove(n - 1, k);
    }
  }

  /** The ring identity behind the inductive step of Absorption, on plain integers. */
  lemma AbsorptionAlgebra(n: int, k: int, a: int, b: int, c: int, d: int)
    requires c == a + b
    requires k * d == (n - 1) * b
    requires (k - 1) * c == (n - 1) * a
    ensures k * (c + d) == n * c
  {
    calc {
      k * (c + d);
      k * c + k * d;
      { assert k * c == (k - 1) * c + c; }
      (k - 1) * c + c + (n - 1) * b;
      (n - 1) * a + (n - 1) * b + c;
      { assert (n - 1) * (a + b) == (n - 1) * a + (n - 1) * b; }
      (n - 1) * c + c;
      n * c;
    }
  }

  /** Absorption: k * C(n, k) == n * C(n-1, k-1). */
  lemma {:induction false} Absorption(n: nat, k: nat)
    requires n >= 1 && k >= 1
    ensures k * Binomial(n, k) == n * Binomial(n - 1, k - 1)
  {
    if n == 1 {
      if k >= 2 {
        BinomialAbove(1, k);
        BinomialAbove(0, k - 1);
      }
    } else if k == 1 {
      Absorption(n - 1, 1);
      assert Binomial(n - 1, 1) == n - 1;
      assert Binomial(n, 1) == Binomial(n - 1, 0) + Binomial(n - 1, 1);
    } else {
      Absorption(n - 1, k);
      Absorption(n - 1, k - 1);
      AbsorptionAlgebra(n, k, Binomial(n - 2, k - 2), Binomial(n - 2, k - 1),
                        Binomial(n - 1, k - 1), Binomial(n - 1, k));
    }
  }

  /** The ring identity behind BinomialStep, on plain integers. */
  lemma StepAlgebra(n: int, j: int, x: int, y: int, z: int)
    requires x == y + z
    requires j * x == n * y
    ensures x * (n - j) == n * z
  {
    calc {
      x * (n - j);
      n * x - j * x;
      n * (y + z) - n * y;
      n * z;
    }
  }

  /** The step of the `nCr` loop is exact: C(n, k-1) * (n-k+1) == k * C(n, k). */
  lemma BinomialStep(n: nat, k: nat)
    requires k >= 1
    ensures Binomial(n, k - 1) * (n - k + 1) == k * Binomial(n, k)
  {
    if k > n + 1 {
      BinomialAbove(n, k - 1);
      BinomialAbove(n, k);
    } else if k == n + 1 {
      BinomialAbove(n, k);
    } else {
      // 1 <= k <= n, so C(n, k-1) * (n-(k-1)) == n * C(n-1, k-1) == k * C(n, k)
      Absorption(n, k);
      var j := k - 1;
      if j == 0 {
        assert Binomial(n, 0) == 1 && Binomial(n - 1, 0) == 1;
      } else {
        Absorption(n, j);
        StepAlgebra(n, j, Binomial(n, j), Binomial(n - 1, j - 1), Binomial(n - 1, j));
      }
    }
  }

  /** The absolute value. */
  function Abs(x: int): nat
  {
    if x < 0 then -x else x
  }

  /** The Euclidean quotient of naturals brackets the dividend. */
  lemma QuotientBrackets(x: nat, y: nat)
    requires y > 0
    ensures (x / y) * y <= x < (x / y + 1) * y
  {
    assert x == (x / y) * y + x % y;
  }

  /**
   * Integer division as C# does it: the quotient is truncated toward zero,
   * so it has the sign of a / b, or is 0.
   */
  function TruncDiv(a: int, b: int): (q: int)
    requires b != 0
    ensures a >= 0 && b > 0 ==> q == a / b
    ensures (a >= 0) == (b > 0) || a == 0 ==> q >= 0
    ensures (a < 0) != (b < 0) ==> q <= 0
  {
    var m := Abs(a) / Abs(b);
    if (a < 0) != (b < 0) then -m else m
  }

  /** The magnitude of the truncated quotient is the largest whose multiple of |b| does not exceed |a|. */
  lemma TruncDivMagnitude(a: int, b: int)
    requires b != 0
    ensures Abs(TruncDiv(a, b)) * Abs(b) <= Abs(a) < (Abs(TruncDiv(a, b)) + 1) * Abs(b)
  {
    QuotientBrackets(Abs(a), Abs(b));
    assert Abs(TruncDiv(a, b)) == Abs(a) / Abs(b);
  }

  /** Dividing an exact multiple gives back the factor. */
  lemma ExactQuotient(p: int, i: int, q: int)
    requires i > 0 && p == i * q
    ensures p / i == q
  {
    var r, m := p / i, p % i;
    assert p == r * i + m && 0 <= m < i;
    assert i * (q - r) == m;
    if q - r >= 1 {
      assert false;
    } else if q - r <= -1 {
      assert false;
    }
  }

  /**
   * The accumulator loop of `nCr`: res := res * (n - i + 1) / i for i = 1..r.
   * Every intermediate value is a binomial coefficient, so the division is
   * exact and truncating and Euclidean division agree.
   */
  method Choose(n: nat, r: int) returns (res: int)
    ensures res == Binomial(n, if r < 0 then 0 else r)
  {
    res := 1;
    var i := 1;
    while i <= r
      invariant 1 <= i <= (if r < 0 then 1 else r + 1)
      invariant res == Binomial(n, i - 1)
    {
      BinomialStep(n, i);
      ExactQuotient(res * (n - i + 1), i, Binomial(n, i));
      res := res * (n - i + 1) / i;
      i := i + 1;
    }
    if r < 0 {
      assert i == 1;
    } else {
      assert i == r + 1;
    }
  }

  /** C(n, 1) == n. */
  lemma {:induction false} BinomialOne(n: nat)
    ensures Binomial(n, 1) == n
  {
    if n > 0 {
      BinomialOne(n - 1);
    }
  }

  /** nCr(n, 2) * 2! is the number of ordered pairs of distinct hosts. */
  lemma OrderedPairs(n: nat)
    ensures Binomial(n, 2) * Fact(2) == n * (n - 1)
  {
    if n == 0 {
    } else {
      Absorption(n, 2);
      BinomialOne(n - 1);
    }
  }

  // ---------------------------------------------------------------------
  // Finite sums over an index range, with some indices left out
  // ---------------------------------------------------------------------

  /** Sum of f(k) over lo <= k <= hi with k not in ex. */
  function SumExcept(lo: int, hi: int, ex: set<int>, f: int -> real): real
    decreases if hi < lo then 0 else hi - lo + 1
  {
    if hi < lo then 0.0
    else SumExcept(lo, hi - 1, ex, f) + (if hi in ex then 0.0 else f(hi))
  }

  /** Number of indices lo <= k <= hi with k not in ex. */
  function CountExcept(lo: int, hi: int, ex: set<int>): nat
    decreases if hi < lo then 0 else hi - lo + 1
  {
    if hi < lo then 0
    else CountExcept(lo, hi - 1, ex) + (if hi in ex then 0 else 1)
  }

  /** Every index of the range is counted except those in ex. */
  lemma {:induction false} CountExceptSize(lo: int, hi: int, ex: set<int>)
    requires lo <= hi + 1
    ensures CountExcept(lo, hi, ex) + |set k | k in ex && lo <= k <= hi| == hi - lo + 1
    decreases hi - lo + 1
  {
    var inRange := set k | k in ex && lo <= k <= hi;
    if hi < lo {
      assert inRange == {};
    } else {
      CountExceptSize(lo, hi - 1, ex);
      var before := set k | k in ex && lo <= k <= hi - 1;
      assert hi !in before;
      if hi in ex {
        assert inRange == before + {hi};
      } else {
        assert inRange == before;
      }
    }
  }

  /** Leaving out nothing counts the whole range. */
  lemma {:induction false} CountAll(lo: int, hi: int)
    requires lo <= hi + 1
    ensures CountExcept(lo, hi, {}) == hi - lo + 1
    decreases hi - lo + 1
  {
    if hi >= lo {
      CountAll(lo, hi - 1);
    }
  }

  /** Leaving out one or two distinct indices of [1, n]. */
  lemma CountOthers(n: nat, i: int, j: int)
    requires 1 <= i <= n && 1 <= j <= n
    ensures CountExcept(1, n, {i, j}) == if i == j then n - 1 else n - 2
  {
    var ex := {i, j};
    CountExceptSize(1, n, ex);
    assert (set k | k in ex && 1 <= k <= n) == ex;
    assert |ex| == if i == j then 1 else 2;
  }

  /** Leaving out one index of [1, n]. */
  lemma CountOne(n: nat, i: int)
    requires 1 <= i <= n
    ensures CountExcept(1, n, {i}) == n - 1
  {
    CountOthers(n, i, i);
    assert {i, i} == {i};
  }

  /** Sums that agree on every summed index are equal. */
  lemma {:induction false} SumExceptCongruent(lo: int, hi: int, ex: set<int>, f: int -> real, g: int -> real)
    requires forall k :: lo <= k <= hi && k !in ex ==> f(k) == g(k)
    ensures SumExcept(lo, hi, ex, f) == SumExcept(lo, hi, ex, g)
    decreases if hi < lo then 0 else hi - lo + 1
  {
    if hi >= lo {
      SumExceptCongruent(lo, hi - 1, ex, f, g);
    }
  }

  /** The constant term b. */
  function Constant(b: real): int -> real
  {
    k => b
  }

  /** A sum of a constant is the constant times the number of terms. */
  lemma {:induction false} SumOfConstant(lo: int, hi: int, ex: set<int>, b: real)
    ensures SumExcept(lo, hi, ex, Constant(b)) == b * CountExcept(lo, hi, ex) as real
    decreases if hi < lo then 0 else hi - lo + 1
  {
    if hi >= lo {
      SumOfConstant(lo, hi - 1, ex, b);
      if hi !in ex {
        Distribute(b, CountExcept(lo, hi - 1, ex) as real);
      }
    }
  }

  /** b * (c + 1) = b * c + b. */
  lemma Distribute(b: real, c: real)
    ensures b * (c + 1.0) == b * c + b
  {
  }

  /** A sum of c terms, each in [0, b], lies in [0, b * c]. */
  lemma SumExceptBelow(lo: int, hi: int, ex: set<int>, f: int -> real, b: real, c: int)
    requires forall k :: lo <= k <= hi && k !in ex ==> 0.0 <= f(k) <= b
    requires CountExcept(lo, hi, ex) == c
    ensures 0.0 <= SumExcept(lo, hi, ex, f) <= b * c as real
  {
    SumExceptNonNegative(lo, hi, ex, f);
    SumExceptMonotone(lo, hi, ex, f, Constant(b));
    SumOfConstant(lo, hi, ex, b);
  }

  /** Every term f(k), k in 1..n but i, lies in [0, b]. */
  ghost predicate OthersWithin(n: nat, i: int, f: int -> real, b: real)
  {
    forall k :: 1 <= k <= n && k != i ==> 0.0 <= f(k) <= b
  }

  /** A sum over 1..n but i of terms in [0, b] lies in [0, b * (n - 1)]. */
  lemma SumOthersBelow(n: nat, i: int, f: int -> real, b: real)
    requires 1 <= i <= n
    requires OthersWithin(n, i, f, b)
    ensures 0.0 <= SumExcept(1, n, {i}, f) <= b * (n - 1) as real
  {
    CountOne(n, i);
    SumExceptBelow(1, n, {i}, f, b, n - 1);
  }

  /** An average over 1..n but i and j of terms in [0, 2m], taken over 2(n - 2), lies in [0, m]. */
  lemma AverageOfOthers(n: nat, i: int, j: int, f: int -> real, m: real)
    requires n >= 3 && 1 <= i <= n && 1 <= j <= n && i != j
    requires forall k :: 1 <= k <= n && k !in {i, j} ==> 0.0 <= f(k) <= 2.0 * m
    ensures 0.0 <= SumExcept(1, n, {i, j}, f) / (2 * (n - 2)) as real <= m
  {
    CountOthers(n, i, j);
    SumExceptBelow(1, n, {i, j}, f, 2.0 * m, n - 2);
    DoubledCount(m, n - 2);
    Averaged(SumExcept(1, n, {i, j}, f), m, (2 * (n - 2)) as real);
  }

  /** 2m * k, as a product with the doubled count. */
  lemma DoubledCount(m: real, k: int)
    ensures 2.0 * m * k as real == m * (2 * k) as real
  {
  }

  /** s in [0, m * e] divided by e > 0 lies in [0, m]. */
  lemma Averaged(s: real, m: real, e: real)
    requires e > 0.0 && 0.0 <= s <= m * e
    ensures 0.0 <= s / e <= m
  {
    assert s / e * e == s;
  }

  /** A sum of non-negative terms is non-negative. */
  lemma {:induction false} SumExceptNonNegative(lo: int, hi: int, ex: set<int>, f: int -> real)
    requires forall k :: lo <= k <= hi && k !in ex ==> 0.0 <= f(k)
    ensures 0.0 <= SumExcept(lo, hi, ex, f)
    decreases if hi < lo then 0 else hi - lo + 1
  {
    if hi >= lo {
      SumExceptNonNegative(lo, hi - 1, ex, f);
    }
  }

  /** A sum whose every summed term is zero is zero. */
  lemma {:induction false} SumExceptZero(lo: int, hi: int, ex: set<int>, f: int -> real)
    requires forall k :: lo <= k <= hi && k !in ex ==> f(k) == 0.0
    ensures SumExcept(lo, hi, ex, f) == 0.0
    decreases if hi < lo then 0 else hi - lo + 1
  {
    if hi >= lo {
      SumExceptZero(lo, hi - 1, ex, f);
    }
  }

  /** A sum is monotone in its terms. */
  lemma {:induction false} SumExceptMonotone(lo: int, hi: int, ex: set<int>, f: int -> real, g: int -> real)
    requires forall k :: lo <= k <= hi && k !in ex ==> f(k) <= g(k)
    ensures SumExcept(lo, hi, ex, f) <= SumExcept(lo, hi, ex, g)
    decreases if hi < lo then 0 else hi - lo + 1
  {
    if hi >= lo {
      SumExceptMonotone(lo, hi - 1, ex, f, g);
    }
  }
}
