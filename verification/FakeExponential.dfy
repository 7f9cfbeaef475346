/**
 The integer approximation of `factor * e^(numerator / denominator)` used for withdrawal-request fees and
 for blob base fees.
 */
module FakeExponential {
  import opened Wrappers
  import opened Words

  const ITERATIONS: nat := 256

  /** The term after `accum`, the `i`-th. */
  function NextTerm(accum: nat, numerator: nat, denominator: nat, i: nat): nat
    requires denominator > 0 && i > 0
  {
    DivShrinks(accum * numerator, denominator * i);
    accum * numerator / (denominator * i)
  }

  /** The `k`-th term of the series, rounded down at every step. */
  function Term(factor: nat, numerator: nat, denominator: nat, k: nat): nat
    requires denominator > 0
  {
    if k == 0 then factor * denominator
    else NextTerm(Term(factor, numerator, denominator, k - 1), numerator, denominator, k)
  }

  /** The sum of the first `k` terms. */
  function Sum(factor: nat, numerator: nat, denominator: nat, k: nat): nat
    requires denominator > 0
  {
    if k == 0 then 0
    else Sum(factor, numerator, denominator, k - 1) + Term(factor, numerator, denominator, k - 1)
  }

  /** The value on unbounded integers. */
  function Value(factor: nat, numerator: nat, denominator: nat): nat
    requires denominator > 0
  {
    DivShrinks(Sum(factor, numerator, denominator, ITERATIONS), denominator);
    Sum(factor, numerator, denominator, ITERATIONS) / denominator
  }

  // ----- the loop -----

  /** A turn of the loop at these values computes nothing that needs more than 256 bits. */
  predicate StepFits(output: nat, accum: nat, numerator: nat, denominator: nat, i: nat) {
    output + accum < TWO_256 && accum * numerator < TWO_256 && denominator * i < TWO_256
  }

  /** The `k`-th turn of the loop, if it takes place, does not overflow. */
  predicate TurnFits(factor: nat, numerator: nat, denominator: nat, k: nat)
    requires denominator > 0
  {
    Term(factor, numerator, denominator, k) > 0 ==>
      StepFits(Sum(factor, numerator, denominator, k), Term(factor, numerator, denominator, k), numerator, denominator, k + 1)
  }

  /** No step overflows. */
  predicate Fits(factor: nat, numerator: nat, denominator: nat)
    requires denominator > 0
  {
    factor * denominator < TWO_256 && forall k :: 0 <= k < ITERATIONS ==> TurnFits(factor, numerator, denominator, k)
  }

  lemma {:induction false} ZeroStays(factor: nat, numerator: nat, denominator: nat, k: nat, n: nat)
    requires denominator > 0 && k <= n && Term(factor, numerator, denominator, k) == 0
    ensures Term(factor, numerator, denominator, n) == 0
    ensures Sum(factor, numerator, denominator, n) == Sum(factor, numerator, denominator, k)
  {
    if k < n {
      ZeroStays(factor, numerator, denominator, k, n - 1);
    }
  }

  /** One turn with its overflow checks. */
  method Turn(output: nat, accum: nat, numerator: nat, denominator: nat, i: nat) returns (r: Option<(nat, nat)>)
    requires denominator > 0 && i > 0
    ensures r == if StepFits(output, accum, numerator, denominator, i)
                 then Some((output + accum, NextTerm(accum, numerator, denominator, i))) else None
  {
    if output + accum >= TWO_256 { return None; }
    if accum * numerator >= TWO_256 || denominator * i >= TWO_256 { return None; }
    DivShrinks(accum * numerator, denominator * i);
    return Some((output + accum, accum * numerator / (denominator * i)));
  }

  lemma FinishedEarly(factor: nat, numerator: nat, denominator: nat, n: nat)
    requires denominator > 0 && n <= ITERATIONS && factor * denominator < TWO_256
    requires forall k :: 0 <= k < n ==> TurnFits(factor, numerator, denominator, k)
    requires n == ITERATIONS || Term(factor, numerator, denominator, n) == 0
    ensures Fits(factor, numerator, denominator)
    ensures Sum(factor, numerator, denominator, ITERATIONS) == Sum(factor, numerator, denominator, n)
  {
    if n < ITERATIONS {
      ZeroStays(factor, numerator, denominator, n, ITERATIONS);
      forall k | n <= k < ITERATIONS
        ensures TurnFits(factor, numerator, denominator, k)
      {
        ZeroStays(factor, numerator, denominator, n, k);
      }
    }
  }

  /**
   The loop, with every overflow and the division by zero as `None`. It stops early when the term is zero
   and after 256 turns in any case.
   */
  method Compute(factor: Word, numerator: Word, denominator: Word) returns (r: Option<nat>)
    ensures denominator > 0 ==>
              r == if Fits(factor, numerator, denominator) then Some(Value(factor, numerator, denominator)) else None
    ensures denominator == 0 ==> r == None
  {
    hide NextTerm, StepFits;
    var output, accum := 0, factor * denominator;
    if accum >= TWO_256 || denominator == 0 { return None; }
    var i := 1;
    while accum > 0
      invariant 1 <= i <= ITERATIONS
      invariant accum == Term(factor, numerator, denominator, i - 1)
      invariant output == Sum(factor, numerator, denominator, i - 1)
      invariant forall k :: 0 <= k < i - 1 ==> TurnFits(factor, numerator, denominator, k)
      decreases ITERATIONS - i
    {
      var next := Turn(output, accum, numerator, denominator, i);
      if next == None {
        assert !TurnFits(factor, numerator, denominator, i - 1);
        return None;
      }
      output, accum := next.value.0, next.value.1;
      i := i + 1;
      if i > ITERATIONS { break; }
    }
    FinishedEarly(factor, numerator, denominator, i - 1);
    DivShrinks(output, denominator);
    return Some(output / denominator);
  }

  // ----- monotone in the numerator -----

  lemma DivMonotone(x: nat, y: nat, d: nat)
    requires x <= y && d > 0
    ensures x / d <= y / d
  {
    DivModParts(x, d);
    DivModParts(y, d);
    if x / d > y / d {
      MulMonotone(y / d + 1, x / d, d);
    }
  }

  lemma DivModParts(x: nat, d: nat)
    requires d > 0
    ensures x == x / d * d + x % d && 0 <= x % d < d && x / d >= 0
  {
    DivShrinks(x, d);
  }

  lemma ProductMonotone(a: nat, b: nat, a': nat, b': nat)
    requires a <= a' && b <= b'
    ensures a * b <= a' * b'
  {
    MulMonotone(a, a', b);
    MulMonotone(b, b', a');
    assert a' * b == b * a' && a' * b' == b' * a';
  }

  lemma NextTermMonotone(a: nat, n: nat, a': nat, n': nat, d: nat, i: nat)
    requires a <= a' && n <= n' && d > 0 && i > 0
    ensures NextTerm(a, n, d, i) <= NextTerm(a', n', d, i)
  {
    ProductMonotone(a, n, a', n');
    DivMonotone(a * n, a' * n', d * i);
  }

  lemma {:induction false} TermMonotone(factor: nat, n: nat, n': nat, d: nat, k: nat)
    requires d > 0 && n <= n'
    ensures Term(factor, n, d, k) <= Term(factor, n', d, k)
  {
    if k > 0 {
      TermMonotone(factor, n, n', d, k - 1);
      NextTermMonotone(Term(factor, n, d, k - 1), n, Term(factor, n', d, k - 1), n', d, k);
    }
  }

  lemma {:induction false} SumMonotone(factor: nat, n: nat, n': nat, d: nat, k: nat)
    requires d > 0 && n <= n'
    ensures Sum(factor, n, d, k) <= Sum(factor, n', d, k)
  {
    if k > 0 {
      SumMonotone(factor, n, n', d, k - 1);
      TermMonotone(factor, n, n', d, k - 1);
    }
  }

  /**
   A larger numerator never gives a smaller value, although every term is rounded down and the loops may
   have different lengths; and if the larger one does not overflow, neither does the smaller.
   */
  lemma ValueMonotone(factor: nat, n: nat, n': nat, d: nat)
    requires d > 0 && n <= n'
    ensures Value(factor, n, d) <= Value(factor, n', d)
    ensures Fits(factor, n', d) ==> Fits(factor, n, d)
  {
    SumMonotone(factor, n, n', d, ITERATIONS);
    DivMonotone(Sum(factor, n, d, ITERATIONS), Sum(factor, n', d, ITERATIONS), d);
    if Fits(factor, n', d) {
      forall k | 0 <= k < ITERATIONS
        ensures TurnFits(factor, n, d, k)
      {
        assert TurnFits(factor, n', d, k);
        SumMonotone(factor, n, n', d, k);
        TermMonotone(factor, n, n', d, k);
        ProductMonotone(Term(factor, n, d, k), n, Term(factor, n', d, k), n');
      }
    }
  }

  // ----- numerators up to sixteen denominators -----

  lemma CancelDivisor(q: nat, i: nat, a: nat, d: nat)
    requires d > 0 && q * (d * i) <= 16 * a * d
    ensures q * i <= 16 * a
  {
    assert q * (d * i) == (q * i) * d;
    if q * i > 16 * a {
      MulMonotone(16 * a + 1, q * i, d);
    }
  }

  /** How a term compares with the one before it. */
  lemma TermRatio(a: nat, n: nat, d: nat, i: nat)
    requires d > 0 && i > 0 && n <= 16 * d
    ensures NextTerm(a, n, d, i) * i <= 16 * a
  {
    var q := NextTerm(a, n, d, i);
    DivModParts(a * n, d * i);
    assert a * n <= 16 * a * d by { MulMonotone(n, 16 * d, a); assert a * n == n * a && 16 * d * a == 16 * a * d; }
    CancelDivisor(q, i, a, d);
  }

  /** The bits a term may need: four more per step up to the sixteenth, and none after. */
  function TermBits(k: nat): nat {
    if k < 16 then 128 + 4 * k else 192
  }

  lemma RatioAtMost(q: nat, i: nat, c: nat, a: nat)
    requires q * i <= 16 * a && c <= i
    ensures c * q <= 16 * a
  {
    MulMonotone(c, i, q);
    assert q * i == i * q;
  }

  lemma {:induction false} TermFitsBits(factor: nat, n: nat, d: nat, k: nat)
    requires d > 0 && n <= 16 * d && factor * d < Pow2(128)
    ensures Term(factor, n, d, k) < Pow2(TermBits(k))
  {
    hide NextTerm;
    if k > 0 {
      TermFitsBits(factor, n, d, k - 1);
      var a, q := Term(factor, n, d, k - 1), Term(factor, n, d, k);
      TermRatio(a, n, d, k);
      if k <= 16 {
        RatioAtMost(q, k, 1, a);
        SixteenTimes(TermBits(k - 1));
      } else {
        RatioAtMost(q, k, 16, a);
      }
    }
  }

  lemma SixteenTimes(x: nat)
    ensures Pow2(x + 4) == 16 * Pow2(x)
  {
    Pow2Add(x, 4);
    assert Pow2(4) == 16;
  }

  lemma {:induction false} TermsHalve(factor: nat, n: nat, d: nat, j: nat)
    requires d > 0 && n <= 16 * d
    ensures Term(factor, n, d, 32 + j) * Pow2(j) <= Term(factor, n, d, 32)
  {
    hide NextTerm;
    if j > 0 {
      TermsHalve(factor, n, d, j - 1);
      var a, q, k := Term(factor, n, d, 31 + j), Term(factor, n, d, 32 + j), 32 + j;
      TermRatio(a, n, d, k);
      RatioAtMost(q, k, 32, a);
      MulMonotone(2 * q, a, Pow2(j - 1));
      assert q * Pow2(j) == 2 * q * Pow2(j - 1);
    }
  }

  lemma TermZero(factor: nat, n: nat, d: nat)
    requires d > 0 && n <= 16 * d && factor * d < Pow2(128)
    ensures Term(factor, n, d, 224) == 0
  {
    var q, p := Term(factor, n, d, 224), Pow2(192);
    TermsHalve(factor, n, d, 192);
    TermBelow(factor, n, d, 32);
    if q > 0 { MulMonotone(1, q, p); }
  }

  lemma TermBelow(factor: nat, n: nat, d: nat, k: nat)
    requires d > 0 && n <= 16 * d && factor * d < Pow2(128)
    ensures Term(factor, n, d, k) < Pow2(192)
  {
    TermFitsBits(factor, n, d, k);
    Pow2Monotone(TermBits(k), 192);
  }

  lemma {:induction false} SumBelow(factor: nat, n: nat, d: nat, k: nat, p: nat)
    requires d > 0 && n <= 16 * d && factor * d < Pow2(128) && p == Pow2(192)
    ensures Sum(factor, n, d, k) <= k * p
  {
    hide NextTerm, Pow2;
    if k > 0 {
      SumBelow(factor, n, d, k - 1, p);
      TermBelow(factor, n, d, k - 1);
      DistributeMinusOne(k, p);
    }
  }

  /**
   Up to sixteen denominators the loop ends because a term is zero, at the latest the 225th, never by its
   cap, and no intermediate value reaches 2^256.
   */
  lemma SmallNumeratorsFit(factor: nat, n: nat, d: nat)
    requires d > 0 && n <= 16 * d && factor * d < Pow2(128) && n < Pow2(56)
    ensures Term(factor, n, d, 224) == 0
    ensures Fits(factor, n, d)
  {
    TermZero(factor, n, d);
    assert factor * d < TWO_256 by { Pow2Monotone(128, 256); Pow2Values(); }
    forall k | 0 <= k < 224
      ensures TurnFits(factor, n, d, k)
    {
      if Term(factor, n, d, k) > 0 { TurnBelow(factor, n, d, k); }
    }
    FinishedEarly(factor, n, d, 224);
  }

  lemma ProductFits(x: nat, y: nat, e: nat, f: nat)
    requires x <= Pow2(e) && y <= Pow2(f) && e + f <= 255
    ensures x * y < TWO_256
  {
    hide Pow2;
    ProductMonotone(x, y, Pow2(e), Pow2(f));
    Pow2Add(e, f);
    Pow2Monotone(e + f, 255);
    Pow2Values();
  }

  lemma TurnBelow(factor: nat, n: nat, d: nat, k: nat)
    requires d > 0 && n <= 16 * d && factor * d < Pow2(128) && n < Pow2(56) && k < 224
    requires Term(factor, n, d, k) > 0
    ensures StepFits(Sum(factor, n, d, k), Term(factor, n, d, k), n, d, k + 1)
  {
    hide Term, Sum;
    var t, p := Term(factor, n, d, k), Pow2(192);
    assert Pow2(8) == 256;
    SumBelow(factor, n, d, k, p);
    TermBelow(factor, n, d, k);
    assert Sum(factor, n, d, k) + t <= (k + 1) * p by { DistributeMinusOne(k + 1, p); }
    ProductFits(k + 1, p, 8, 192);
    ProductFits(t, n, 192, 56);
    DenominatorBelow(factor, n, d, k);
    ProductFits(d, k + 1, 128, 8);
  }

  lemma DenominatorBelow(factor: nat, n: nat, d: nat, k: nat)
    requires d > 0 && factor * d < Pow2(128) && Term(factor, n, d, k) > 0
    ensures d < Pow2(128)
  {
    if factor == 0 {
      ZeroStays(factor, n, d, 0, k);
    } else {
      MulMonotone(1, factor, d);
    }
  }
}
