/**
 The signed operations of the interpreter, written as the source writes them (with absolute values,
 complements and masks), and what they mean for the two's-complement value of a word.
 */
module SignedWords {
  import opened Wrappers
  import opened Words

  // ----- the source's expressions -----

  predicate IsNegative(w: Word) {
    Bit(w, 255)
  }

  function Not(w: Word): Word {
    MAX_WORD - w
  }

  function TwosComplement(w: Word): Word {
    (Not(w) + 1) % TWO_256
  }

  /** `w << n` keeps the low 256 bits; a shift by 256 or more leaves none. */
  function ShiftLeft(w: Word, n: nat): Word {
    if n >= 256 then 0 else w * Pow2(n) % TWO_256
  }

  function ShiftRight(w: Word, n: nat): (r: Word)
    ensures r <= w
  {
    if n >= 256 then 0 else DivShrinks(w, Pow2(n)); w / Pow2(n)
  }

  function WordOr(x: Word, y: Word): Word {
    Pow2Values();
    BitwiseBound(x, y, 256);
    Or(x, y)
  }

  function WordAnd(x: Word, y: Word): Word {
    Pow2Values();
    BitwiseBound(x, y, 256);
    And(x, y)
  }

  function WordXor(x: Word, y: Word): Word {
    Pow2Values();
    BitwiseBound(x, y, 256);
    Xor(x, y)
  }

  function Div(a: Word, b: Word): Word
    requires b != 0
  {
    DivShrinks(a, b);
    a / b
  }

  /** The word's absolute value as the source takes it: the complement of a word whose sign bit is set. */
  function Magnitude(w: Word): (m: Word)
    ensures w != 0 ==> m != 0
  {
    if IsNegative(w) then TwosComplement(w) else w
  }

  function SignedDiv(a: Word, b: Word): Word {
    if b == 0 then 0
    else
      var result := Div(Magnitude(a), Magnitude(b));
      if IsNegative(a) != IsNegative(b) then TwosComplement(result) else result
  }

  function SignedMod(a: Word, b: Word): Word {
    if b == 0 then 0
    else
      var result := Magnitude(a) % Magnitude(b);
      if IsNegative(a) && result != 0 then TwosComplement(result) else result
  }

  /**
   Sign extension from byte `ext`. For `ext == 31` the source computes `(1 << 256) - 1`, that is 0 - 1 on
   words, which aborts; `None` stands for that.
   */
  function SignExtend(ext: Word, x: Word): Option<Word> {
    if ext >= 32 then Some(x)
    else if ext == 31 then None
    else
      var k := ext * 8 + 8;
      Pow2Values();
      Pow2Monotone(k, 256);
      var mask: Word := Pow2(k) - 1;
      Some(if Bit(x, k - 1) then WordOr(x, Not(mask)) else WordAnd(x, mask))
  }

  function ArithmeticShiftRight(value: Word, shift: Word): Word {
    if shift >= 256 then (if IsNegative(value) then MAX_WORD else 0)
    else if IsNegative(value) then WordOr(ShiftRight(value, shift), ShiftLeft(MAX_WORD, 256 - shift))
    else ShiftRight(value, shift)
  }

  predicate SignedLess(a: Word, b: Word) {
    if IsNegative(a) == IsNegative(b) then a < b else IsNegative(a)
  }

  predicate SignedGreater(a: Word, b: Word) {
    if IsNegative(a) == IsNegative(b) then a > b else IsNegative(b)
  }

  // ----- the integers they stand for -----

  /** The two's-complement value of a word. */
  function Signed(w: Word): (i: int)
    ensures -(TWO_255 as int) <= i < TWO_255
  {
    if w < TWO_255 then w else w - TWO_256
  }

  function Abs(x: int): nat {
    if x < 0 then -x else x
  }

  /** `q` and `r` are quotient and remainder of `x` by `y`, rounding toward zero. */
  predicate TruncatedDivision(x: int, y: int, q: int, r: int) {
    x == q * y + r && Abs(r) < Abs(y) && (r != 0 ==> (r < 0 <==> x < 0))
  }

  lemma AbsProduct(k: int, y: int)
    requires k != 0 && y != 0
    ensures Abs(k * y) >= Abs(y)
  {
    if k > 0 {
      if y > 0 { MulAtLeast(k, y); } else { MulAtLeast(k, -y); assert k * -y == -(k * y); }
    } else {
      if y > 0 { MulAtLeast(-k, y); assert -k * y == -(k * y); } else { MulAtLeast(-k, -y); assert -k * -y == k * y; }
    }
  }

  /** Rounding toward zero fixes quotient and remainder. */
  lemma TruncatedDivisionUnique(x: int, y: int, q: int, r: int, q': int, r': int)
    requires TruncatedDivision(x, y, q, r) && TruncatedDivision(x, y, q', r')
    ensures q == q' && r == r'
  {
    var k := q - q';
    assert k * y == q * y - q' * y;
    if k != 0 {
      AbsProduct(k, y);
    }
  }

  lemma NegativeIsHigh(w: Word)
    ensures IsNegative(w) <==> w >= TWO_255
    ensures IsNegative(w) <==> Signed(w) < 0
  {
    Pow2Values();
  }

  /** Negation of a word is negation of its value, except at -2^255, which it leaves alone. */
  lemma TwosComplementNegates(w: Word)
    ensures w != TWO_255 ==> Signed(TwosComplement(w)) == -Signed(w)
    ensures w == TWO_255 ==> TwosComplement(w) == w
  {
  }

  lemma MagnitudeIsAbs(w: Word)
    ensures Magnitude(w) == Abs(Signed(w))
  {
    NegativeIsHigh(w);
    hide IsNegative;
  }

  lemma QuotientBoundedBy(x: nat, y: nat)
    requires 0 < y && x <= TWO_255
    ensures x / y <= TWO_255
    ensures x / y == TWO_255 <==> x == TWO_255 && y == 1
  {
    DivShrinks(x, y);
    if y > 1 && x / y > 0 {
      assert x == x / y * y + x % y;
      MulAtLeast(y - 1, x / y);
      DistributeMinusOne(y, x / y);
    }
  }

  /** The quotient of the absolute values, with the sign the operands' signs give it. */
  lemma SignedDivValue(a: Word, b: Word)
    requires b != 0 && !(a == TWO_255 && b == MAX_WORD)
    ensures Signed(b) != 0
    ensures var q: int := Abs(Signed(a)) / Abs(Signed(b));
            Signed(SignedDiv(a, b)) == if Signed(a) < 0 <==> Signed(b) < 0 then q else -q
  {
    MagnitudeIsAbs(a);
    MagnitudeIsAbs(b);
    NegativeIsHigh(a);
    NegativeIsHigh(b);
    QuotientBoundedBy(Abs(Signed(a)), Abs(Signed(b)));
    TwosComplementNegates(Div(Magnitude(a), Magnitude(b)));
  }

  lemma SignedModValue(a: Word, b: Word)
    requires b != 0
    ensures Signed(b) != 0
    ensures var r: int := Abs(Signed(a)) % Abs(Signed(b));
            Signed(SignedMod(a, b)) == if Signed(a) < 0 then -r else r
  {
    MagnitudeIsAbs(a);
    MagnitudeIsAbs(b);
    NegativeIsHigh(a);
    TwosComplementNegates(Magnitude(a) % Magnitude(b));
  }

  lemma SignsOfParts(x: int, y: int, q: int, r: int)
    requires y != 0 && q >= 0 && r >= 0 && Abs(x) == q * Abs(y) + r && r < Abs(y)
    ensures TruncatedDivision(x, y, if x < 0 <==> y < 0 then q else -q, if x < 0 then -r else r)
  {
    assert q * -y == -(q * y) && -q * y == -(q * y);
  }

  lemma AbsoluteParts(x: int, y: int)
    requires y != 0
    ensures var q: int, r: int := Abs(x) / Abs(y), Abs(x) % Abs(y);
            TruncatedDivision(x, y, if x < 0 <==> y < 0 then q else -q, if x < 0 then -r else r)
  {
    var q, r := Abs(x) / Abs(y), Abs(x) % Abs(y);
    assert Abs(x) == q * Abs(y) + r;
    SignsOfParts(x, y, q, r);
  }

  /** `SignedDiv` and `SignedMod` round toward zero on the signed values, wherever the quotient is one. */
  lemma SignedDivModMeaning(a: Word, b: Word)
    requires b != 0 && !(a == TWO_255 && b == MAX_WORD)
    ensures TruncatedDivision(Signed(a), Signed(b), Signed(SignedDiv(a, b)), Signed(SignedMod(a, b)))
  {
    SignedDivValue(a, b);
    SignedModValue(a, b);
    AbsoluteParts(Signed(a), Signed(b));
  }

  /** The remaining inputs: division by zero gives zero, and -2^255 / -1 wraps round to -2^255. */
  lemma SignedDivModEdges(a: Word)
    ensures SignedDiv(a, 0) == 0 && SignedMod(a, 0) == 0
    ensures SignedDiv(TWO_255, MAX_WORD) == TWO_255 && SignedMod(TWO_255, MAX_WORD) == 0
  {
    MagnitudeIsAbs(TWO_255);
    MagnitudeIsAbs(MAX_WORD);
    NegativeIsHigh(TWO_255);
    NegativeIsHigh(MAX_WORD);
  }

  /** SLT and SGT compare the signed values. */
  lemma SignedOrderMeaning(a: Word, b: Word)
    ensures SignedLess(a, b) <==> Signed(a) < Signed(b)
    ensures SignedGreater(a, b) <==> Signed(a) > Signed(b)
  {
    NegativeIsHigh(a);
    NegativeIsHigh(b);
  }

  // ----- arithmetic shift -----

  lemma OnesTimes(p: int, m: int)
    requires 0 < p <= m
    ensures (m - 1) * p % m == m - p
  {
    assert (m - 1) * p == m * p - p;
    assert (p - 1) * m == p * m - m;
    DivModUnique((m - 1) * p, m, p - 1, m - p);
  }

  lemma AllOnesShifted(n: nat)
    requires n < 256
    ensures ShiftLeft(MAX_WORD, n) == TWO_256 - Pow2(n)
  {
    Pow2Values();
    Pow2Monotone(n, 255);
    OnesTimes(Pow2(n), TWO_256);
  }

  lemma FloorOfNegative(v: nat, d: nat, e: nat, m: nat)
    requires d > 0 && m == e * d
    ensures (v - m) / d == v / d - e
  {
    assert (v / d - e) * d == v / d * d - e * d;
    DivModUnique(v - m, d, v / d - e, v % d);
  }

  lemma HighPartBound(x: nat, k: nat, n: nat)
    requires k <= n && x < Pow2(n)
    ensures 0 <= x / Pow2(k) < Pow2(n - k)
  {
    Pow2Add(n - k, k);
    DivBelow(x, Pow2(k), Pow2(n - k));
  }

  /** Filling the `s` high bits left free by a shift to the right. */
  lemma ShiftAndFill(v: nat, s: nat, n: nat)
    requires s <= n && v < Pow2(n)
    ensures 0 <= v / Pow2(s) && Pow2(n - s) <= Pow2(n)
    ensures Or(v / Pow2(s), Pow2(n) - Pow2(n - s)) == v / Pow2(s) + (Pow2(n) - Pow2(n - s))
  {
    HighPartBound(v, s, n);
    var x, k := v / Pow2(s), n - s;
    OrHighMask(x, k, n);
    LowBitsIsMod(x, k);
    DivModUnique(x, Pow2(k), 0, x);
  }

  lemma FloorShift(v: nat, s: nat, n: nat)
    requires s <= n
    ensures (v - Pow2(n)) / Pow2(s) == v / Pow2(s) - Pow2(n - s)
  {
    Pow2Add(n - s, s);
    FloorOfNegative(v, Pow2(s), Pow2(n - s), Pow2(n));
  }

  lemma NegativeShiftValue(value: Word, shift: nat)
    requires value >= TWO_255 && 0 < shift < 256
    ensures ArithmeticShiftRight(value, shift) == value / Pow2(shift) + (TWO_256 - Pow2(256 - shift))
  {
    NegativeIsHigh(value);
    AllOnesShifted(256 - shift);
    assert Pow2(256) == TWO_256 by { Pow2Values(); }
    ShiftAndFill(value, shift, 256);
  }

  lemma FilledShiftSigned(w: Word, value: Word, shift: nat)
    requires value >= TWO_255 && 0 < shift < 256
    requires w == value / Pow2(shift) + (TWO_256 - Pow2(256 - shift))
    ensures Signed(w) == Signed(value) / Pow2(shift)
  {
    assert Pow2(256) == TWO_256 && Pow2(255) == TWO_255 by { Pow2Values(); }
    FloorShift(value, shift, 256);
    Pow2Monotone(256 - shift, 255);
    DivShrinks(value, Pow2(shift));
  }

  lemma LongShift(x: int, d: int)
    requires -d <= x < d
    ensures x / d == if x < 0 then -1 else 0
  {
    DivModUnique(x, d, if x < 0 then -1 else 0, if x < 0 then x + d else x);
  }

  /** SAR divides the signed value by a power of two, rounding toward minus infinity, for every shift. */
  lemma ArithmeticShiftMeaning(value: Word, shift: Word)
    ensures Signed(ArithmeticShiftRight(value, shift)) == Signed(value) / Pow2(shift)
  {
    NegativeIsHigh(value);
    if shift >= 256 {
      assert Pow2(shift) >= TWO_256 by { Pow2Values(); Pow2Monotone(256, shift); }
      LongShift(Signed(value), Pow2(shift));
    } else if value >= TWO_255 && shift > 0 {
      NegativeShiftValue(value, shift);
      FilledShiftSigned(ArithmeticShiftRight(value, shift), value, shift);
    } else if value < TWO_255 {
      assert ArithmeticShiftRight(value, shift) == ShiftRight(value, shift);
    }
  }

  // ----- sign extension -----

  /** The two's-complement value of the low `k` bits. */
  function SignedLow(x: Word, k: nat): int
    requires k > 0
  {
    var low := x % Pow2(k);
    if low < Pow2(k - 1) then low else low - Pow2(k)
  }

  lemma TopBitOfLow(x: nat, k: nat)
    requires k > 0
    ensures Bit(x, k - 1) <==> x % Pow2(k) >= Pow2(k - 1)
  {
    var d := Pow2(k - 1);
    var q, r := x / d, x % d;
    assert x == q * d + r;
    var m, b := q / 2, q % 2;
    assert q * d == m * (2 * d) + b * d by { assert q == 2 * m + b; assert (2 * m + b) * d == m * (2 * d) + b * d; }
    assert 0 <= b * d <= d by { if b == 0 { assert b * d == 0; } else { assert b * d == d; } }
    DivModUnique(x, 2 * d, m, b * d + r);
  }

  lemma ExtendOnes(x: Word, k: nat)
    requires 0 < k < 256 && Bit(x, k - 1)
    ensures 0 < Pow2(k) < TWO_256
    ensures Signed(WordOr(x, Not(Pow2(k) - 1))) == SignedLow(x, k)
  {
    assert Pow2(256) == TWO_256 && Pow2(255) == TWO_255 by { Pow2Values(); }
    Pow2Monotone(k, 255);
    var w := WordOr(x, Not(Pow2(k) - 1));
    assert w == LowBits(x, k) + (TWO_256 - Pow2(k)) by { OrHighMask(x, k, 256); }
    LowBitsIsMod(x, k);
    TopBitOfLow(x, k);
  }

  lemma ExtendZeros(x: Word, k: nat)
    requires 0 < k < 256 && !Bit(x, k - 1)
    ensures 0 < Pow2(k) < TWO_256
    ensures Signed(WordAnd(x, Pow2(k) - 1)) == SignedLow(x, k)
  {
    Pow2Values();
    Pow2Monotone(k, 255);
    TopBitOfLow(x, k);
    AndMask(x, k);
    LowBitsIsMod(x, k);
  }

  /** SIGNEXTEND: identity from byte 32 on, and below byte 31 the signed value of the low `ext + 1` bytes. */
  lemma SignExtendMeaning(ext: Word, x: Word)
    ensures ext >= 32 ==> SignExtend(ext, x) == Some(x)
    ensures ext < 31 ==> SignExtend(ext, x).Some? && Signed(SignExtend(ext, x).value) == SignedLow(x, ext * 8 + 8)
    ensures ext == 31 ==> SignExtend(ext, x) == None
  {
    if ext < 31 {
      var k := ext * 8 + 8;
      if Bit(x, k - 1) { ExtendOnes(x, k); } else { ExtendZeros(x, k); }
    }
  }
}
