/**
 256-bit machine words, their bits and their two's-complement reading.

 A word is the unsigned integer it denotes. Bitwise operators are defined bit by bit, so that every
 arithmetic reading of a mask below is a theorem and not a definition.
 */
module Words {

  const TWO_160: nat := 0x1_00000000_00000000_00000000_00000000_00000000
  const TWO_255: nat := 0x80000000_00000000_00000000_00000000_00000000_00000000_00000000_00000000
  const TWO_256: nat := 0x1_00000000_00000000_00000000_00000000_00000000_00000000_00000000_00000000
  const MAX_WORD: nat := TWO_256 - 1
  const TWO_64: nat := 0x1_00000000_00000000
  const U64_MAX: nat := TWO_64 - 1

  /** The most bytes a vector can hold: isize::MAX. Asking for more aborts. */
  const MAX_VEC: nat := 0x7FFFFFFF_FFFFFFFF

  type Byte = b: int | 0 <= b < 256
  type Word = w: int | 0 <= w < TWO_256
  type Address = a: int | 0 <= a < TWO_160
  type U64 = n: int | 0 <= n < TWO_64

  // ----- powers of two -----

  function Pow2(n: nat): (p: nat)
    ensures p >= 1
  {
    if n == 0 then 1 else 2 * Pow2(n - 1)
  }

  lemma {:induction false} Pow2Add(m: nat, n: nat)
    ensures Pow2(m + n) == Pow2(m) * Pow2(n)
  {
    if m > 0 {
      Pow2Add(m - 1, n);
      assert Pow2(m + n) == 2 * Pow2(m - 1 + n);
    }
  }

  lemma {:induction false} Pow2Monotone(m: nat, n: nat)
    requires m <= n
    ensures Pow2(m) <= Pow2(n)
  {
    if m < n { Pow2Monotone(m, n - 1); }
  }

  lemma {:induction false} Pow2Square(n: nat, p: nat)
    requires Pow2(n) == p
    ensures Pow2(2 * n) == p * p
  {
    Pow2Add(n, n);
  }

  lemma Pow2Values()
    ensures Pow2(8) == 256 && Pow2(64) == TWO_64 && Pow2(160) == TWO_160
    ensures Pow2(255) == TWO_255 && Pow2(256) == TWO_256
  {
    Pow2Square(8, 256);
    Pow2Square(16, 0x1_0000);
    Pow2Square(32, 0x1_00000000);
    Pow2Square(64, TWO_64);
    Pow2Square(128, 0x1_00000000_00000000_00000000_00000000);
    Pow2Add(128, 32);
  }

  // ----- division helpers -----

  function Power(base: nat, exponent: nat): nat {
    if exponent == 0 then 1 else base * Power(base, exponent - 1)
  }

  lemma MulAtLeast(k: int, d: int)
    requires k >= 1 && d > 0
    ensures k * d >= d
  {
  }

  lemma DistributeMinusOne(e: int, d: int)
    ensures (e - 1) * d == e * d - d
  {
  }

  lemma DivModUnique(x: int, d: int, q: int, r: int)
    requires d > 0 && x == q * d + r && 0 <= r < d
    ensures x / d == q && x % d == r
  {
    var k := q - x / d;
    assert k * d == q * d - x / d * d;
    assert x == x / d * d + x % d;
    if k >= 1 {
      MulAtLeast(k, d);
    } else if k <= -1 {
      MulAtLeast(-k, d);
    }
  }

  lemma MulMonotone(a: int, b: int, d: int)
    requires a <= b && d >= 0
    ensures a * d <= b * d
  {
    assert b * d == a * d + (b - a) * d;
  }

  lemma DivShrinks(x: nat, d: nat)
    requires d > 0
    ensures 0 <= x / d <= x
  {
    var q, r := x / d, x % d;
    assert x == q * d + r;
    if q < 0 {
      MulAtLeast(-q, d);
    } else {
      MulMonotone(1, d, q);
    }
  }

  lemma DivBelow(x: nat, d: nat, e: nat)
    requires d > 0 && x < e * d
    ensures 0 <= x / d < e
  {
    DivShrinks(x, d);
    var q := x / d;
    assert x == q * d + x % d;
    if q >= e {
      MulMonotone(e, q, d);
    }
  }

  // ----- bits -----

  predicate Bit(x: nat, i: nat) {
    x / Pow2(i) % 2 == 1
  }

  function And(x: nat, y: nat): nat {
    if x == 0 || y == 0 then 0
    else 2 * And(x / 2, y / 2) + (if x % 2 == 1 && y % 2 == 1 then 1 else 0)
  }

  function Or(x: nat, y: nat): nat
    decreases x + y
  {
    if x == 0 then y
    else if y == 0 then x
    else 2 * Or(x / 2, y / 2) + (if x % 2 == 1 || y % 2 == 1 then 1 else 0)
  }

  function Xor(x: nat, y: nat): nat
    decreases x + y
  {
    if x == 0 then y
    else if y == 0 then x
    else 2 * Xor(x / 2, y / 2) + (if x % 2 != y % 2 then 1 else 0)
  }

  lemma OrStep(x: nat, y: nat)
    ensures Or(x, y) == 2 * Or(x / 2, y / 2) + (if x % 2 == 1 || y % 2 == 1 then 1 else 0)
  {
  }

  lemma AndStep(x: nat, y: nat)
    ensures And(x, y) == 2 * And(x / 2, y / 2) + (if x % 2 == 1 && y % 2 == 1 then 1 else 0)
  {
  }

  lemma XorStep(x: nat, y: nat)
    ensures Xor(x, y) == 2 * Xor(x / 2, y / 2) + (if x % 2 != y % 2 then 1 else 0)
  {
  }

  /** The three operators on `k`-bit operands give `k`-bit results. */
  lemma {:induction false} BitwiseBound(x: nat, y: nat, k: nat)
    requires x < Pow2(k) && y < Pow2(k)
    ensures And(x, y) < Pow2(k) && Or(x, y) < Pow2(k) && Xor(x, y) < Pow2(k)
  {
    if k > 0 {
      BitwiseBound(x / 2, y / 2, k - 1);
      AndStep(x, y);
      OrStep(x, y);
      XorStep(x, y);
    }
  }

  lemma {:induction false} OrOnes(x: nat, m: nat)
    requires x < Pow2(m)
    ensures Or(x, Pow2(m) - 1) == Pow2(m) - 1
  {
    if m > 0 {
      OrOnes(x / 2, m - 1);
      OrStep(x, Pow2(m) - 1);
      assert (Pow2(m) - 1) / 2 == Pow2(m - 1) - 1;
    }
  }

  /** The number made of the low `k` bits of `x`. */
  function LowBits(x: nat, k: nat): nat {
    if k == 0 then 0 else 2 * LowBits(x / 2, k - 1) + x % 2
  }

  lemma ModDouble(x: nat, d: nat)
    requires d > 0
    ensures x % (2 * d) == 2 * (x / 2 % d) + x % 2
  {
    var q, r := x / 2 / d, x / 2 % d;
    assert x / 2 == q * d + r;
    assert q * (2 * d) == 2 * (q * d);
    DivModUnique(x, 2 * d, q, 2 * r + x % 2);
  }

  lemma {:induction false} LowBitsIsMod(x: nat, k: nat)
    ensures LowBits(x, k) == x % Pow2(k)
  {
    if k > 0 {
      LowBitsIsMod(x / 2, k - 1);
      ModDouble(x, Pow2(k - 1));
    }
  }

  /** Conjunction with a mask of `k` ones keeps the low `k` bits. */
  lemma {:induction false} AndMask(x: nat, k: nat)
    ensures And(x, Pow2(k) - 1) == LowBits(x, k)
  {
    if k > 0 {
      AndMask(x / 2, k - 1);
      AndStep(x, Pow2(k) - 1);
    }
  }

  /** Disjunction with all bits from `k` up to `n` set keeps the low `k` bits and sets the others. */
  lemma {:induction false} OrHighMask(x: nat, k: nat, n: nat)
    requires k <= n && x < Pow2(n)
    ensures Pow2(k) <= Pow2(n)
    ensures Or(x, Pow2(n) - Pow2(k)) == LowBits(x, k) + (Pow2(n) - Pow2(k))
  {
    Pow2Monotone(k, n);
    if k == 0 {
      OrOnes(x, n);
    } else {
      OrHighMask(x / 2, k - 1, n - 1);
      var y := Pow2(n) - Pow2(k);
      assert y / 2 == Pow2(n - 1) - Pow2(k - 1) && y % 2 == 0;
      OrStep(x, y);
    }
  }

  lemma DivTwice(x: nat, d: nat)
    requires d > 0
    ensures x / (2 * d) == x / 2 / d
  {
    DivShrinks(x / 2, d);
    var q, r := x / 2 / d, x / 2 % d;
    assert x / 2 == q * d + r;
    assert q * (2 * d) == 2 * (q * d);
    DivModUnique(x, 2 * d, q, 2 * r + x % 2);
  }

  lemma BitStep(x: nat, i: nat)
    requires i > 0
    ensures Bit(x, i) <==> Bit(x / 2, i - 1)
  {
    DivTwice(x, Pow2(i - 1));
  }

  lemma Halves(x: nat, y: nat)
    ensures And(x, y) / 2 == And(x / 2, y / 2) && (And(x, y) % 2 == 1 <==> x % 2 == 1 && y % 2 == 1)
    ensures Or(x, y) / 2 == Or(x / 2, y / 2) && (Or(x, y) % 2 == 1 <==> x % 2 == 1 || y % 2 == 1)
    ensures Xor(x, y) / 2 == Xor(x / 2, y / 2) && (Xor(x, y) % 2 == 1 <==> x % 2 != y % 2)
  {
    AndStep(x, y);
    OrStep(x, y);
    XorStep(x, y);
  }

  /** The operators work bit by bit. */
  lemma {:induction false} BitwiseMeaning(x: nat, y: nat, i: nat)
    ensures Bit(And(x, y), i) <==> Bit(x, i) && Bit(y, i)
    ensures Bit(Or(x, y), i) <==> Bit(x, i) || Bit(y, i)
    ensures Bit(Xor(x, y), i) <==> Bit(x, i) != Bit(y, i)
  {
    hide And, Or, Xor;
    Halves(x, y);
    if i > 0 {
      hide Bit;
      BitwiseMeaning(x / 2, y / 2, i - 1);
      BitStep(x, i);
      BitStep(y, i);
      BitStep(And(x, y), i);
      BitStep(Or(x, y), i);
      BitStep(Xor(x, y), i);
    }
  }
}
