/** What the arithmetic, comparison and bit instructions leave on the stack, in terms of the words they find there. */
module EvmArithmetic {
  import opened Wrappers
  import opened Words
  import opened SignedWords
  import opened EvmTypes
  import opened EvmMemory
  import opened Opcodes
  import opened EvmMachine

  /** The instruction replaces its operands on top of `rest` by `v` and goes on to the next byte. */
  predicate Leaves(ctx: Context, op: Opcode, m: Machine, rest: seq<Word>, v: Word) {
    && StackInputs(op) <= |m.stack| && m.pc < |ctx.code|
    && Effect(ctx, op, m) == Ok(m.(stack := rest + [v], pc := m.pc + 1))
  }

  /** Two operands `x` and, above it, `y`. */
  predicate Two(ctx: Context, m: Machine, rest: seq<Word>, x: Word, y: Word) {
    m.stack == rest + [x, y] && m.pc < |ctx.code|
  }

  lemma TakesTwo(ctx: Context, o: BinaryOp, m: Machine, rest: seq<Word>, x: Word, y: Word)
    requires Two(ctx, m, rest, x, y) && BinaryValue(o, x, y).Ok?
    ensures Leaves(ctx, Binary(o), m, rest, BinaryValue(o, x, y).value)
  {
    assert Arg(m.stack, 0) == y && Arg(m.stack, 1) == x && Drop(m.stack, 2) == rest;
    hide BinaryValue;
  }

  // ----- sums, differences, products -----

  /** ADD leaves the sum or, if that has no 256 bits, what is left of it. */
  lemma AddLaw(ctx: Context, m: Machine, rest: seq<Word>, x: Word, y: Word) returns (v: Word)
    requires Two(ctx, m, rest, x, y)
    ensures Leaves(ctx, Binary(ADD), m, rest, v) && (v == x + y || v == x + y - TWO_256)
  {
    hide Leaves;
    v := BinaryValue(ADD, x, y).value;
    TakesTwo(ctx, ADD, m, rest, x, y);
    if x + y < TWO_256 { DivModUnique(x + y, TWO_256, 0, x + y); } else { DivModUnique(x + y, TWO_256, 1, x + y - TWO_256); }
  }

  /** SUB takes the top from the word below: adding it again gives that word. */
  lemma SubLaw(ctx: Context, m: Machine, rest: seq<Word>, x: Word, y: Word) returns (v: Word)
    requires Two(ctx, m, rest, x, y)
    ensures Leaves(ctx, Binary(SUB), m, rest, v) && (v + y == x || v + y == x + TWO_256)
  {
    hide Leaves;
    v := BinaryValue(SUB, x, y).value;
    TakesTwo(ctx, SUB, m, rest, x, y);
    if x >= y { DivModUnique(x - y, TWO_256, 0, x - y); } else { DivModUnique(x - y, TWO_256, -1, x - y + TWO_256); }
  }

  /** SUB undoes ADD and ADD undoes SUB. */
  lemma AddAndSubAreInverse(ctx: Context, m: Machine, m': Machine, rest: seq<Word>, x: Word, y: Word, v: Word, op: BinaryOp, inverse: BinaryOp)
    requires (op == ADD && inverse == SUB) || (op == SUB && inverse == ADD)
    requires Two(ctx, m, rest, x, y) && Leaves(ctx, Binary(op), m, rest, v) && Two(ctx, m', rest, v, y)
    ensures Leaves(ctx, Binary(inverse), m', rest, x)
  {
    var a, s;
    if op == ADD {
      a := AddLaw(ctx, m, rest, x, y);
      s := SubLaw(ctx, m', rest, v, y);
    } else {
      s := SubLaw(ctx, m, rest, x, y);
      a := AddLaw(ctx, m', rest, v, y);
    }
    hide Effect;
    assert (rest + [v])[|rest|] == v;
    assert (rest + [a])[|rest|] == a && (rest + [s])[|rest|] == s;
  }

  /** MUL leaves the word that differs from the product by a multiple of 2^256. */
  lemma MulLaw(ctx: Context, m: Machine, rest: seq<Word>, x: Word, y: Word) returns (v: Word, k: nat)
    requires Two(ctx, m, rest, x, y)
    ensures Leaves(ctx, Binary(MUL), m, rest, v) && x * y == k * TWO_256 + v
  {
    hide Leaves;
    v := BinaryValue(MUL, x, y).value;
    TakesTwo(ctx, MUL, m, rest, x, y);
    MulMonotone(0, x, y);
    DivShrinks(x * y, TWO_256);
    k := x * y / TWO_256;
  }

  /** DIV and MOD divide the word below by the top, and give zero for a zero divisor. */
  lemma DivModLaw(ctx: Context, m: Machine, rest: seq<Word>, x: Word, y: Word) returns (q: Word, r: Word)
    requires Two(ctx, m, rest, x, y)
    ensures Leaves(ctx, Binary(DIV), m, rest, q) && Leaves(ctx, Binary(MOD), m, rest, r)
    ensures if y == 0 then q == r == 0 else x == q * y + r && r < y
  {
    hide Leaves;
    q, r := BinaryValue(DIV, x, y).value, BinaryValue(MOD, x, y).value;
    TakesTwo(ctx, DIV, m, rest, x, y);
    TakesTwo(ctx, MOD, m, rest, x, y);
  }

  /** SDIV and SMOD do so for the signed values, rounding toward zero; -2^255 by -1 wraps round. */
  lemma SignedDivModLaw(ctx: Context, m: Machine, rest: seq<Word>, x: Word, y: Word) returns (q: Word, r: Word)
    requires Two(ctx, m, rest, x, y)
    ensures Leaves(ctx, Binary(SDIV), m, rest, q) && Leaves(ctx, Binary(SMOD), m, rest, r)
    ensures if y == 0 then q == r == 0
            else if x == TWO_255 && y == MAX_WORD then q == TWO_255 && r == 0
            else TruncatedDivision(Signed(x), Signed(y), Signed(q), Signed(r))
  {
    hide Leaves, SignedDiv, SignedMod;
    q, r := BinaryValue(SDIV, x, y).value, BinaryValue(SMOD, x, y).value;
    TakesTwo(ctx, SDIV, m, rest, x, y);
    TakesTwo(ctx, SMOD, m, rest, x, y);
    SignedDivModEdges(x);
    if y != 0 && !(x == TWO_255 && y == MAX_WORD) { SignedDivModMeaning(x, y); }
  }

  // ----- comparisons -----

  /** The word a comparison leaves. */
  function Truth(b: bool): Word {
    if b then 1 else 0
  }

  /** The comparisons compare the word below with the top. */
  lemma CompareLaw(ctx: Context, m: Machine, rest: seq<Word>, x: Word, y: Word)
    requires Two(ctx, m, rest, x, y)
    ensures Leaves(ctx, Binary(LT), m, rest, Truth(x < y)) && Leaves(ctx, Binary(GT), m, rest, Truth(x > y))
    ensures Leaves(ctx, Binary(SLT), m, rest, Truth(Signed(x) < Signed(y)))
    ensures Leaves(ctx, Binary(SGT), m, rest, Truth(Signed(x) > Signed(y)))
    ensures Leaves(ctx, Binary(EQ), m, rest, Truth(x == y))
  {
    hide Leaves, SignedLess, SignedGreater;
    TakesTwo(ctx, LT, m, rest, x, y);
    TakesTwo(ctx, GT, m, rest, x, y);
    TakesTwo(ctx, SLT, m, rest, x, y);
    TakesTwo(ctx, SGT, m, rest, x, y);
    TakesTwo(ctx, EQ, m, rest, x, y);
    SignedOrderMeaning(x, y);
  }

  // ----- bits -----

  lemma LowBitsHalves(x: nat, k: nat)
    requires k > 0
    ensures LowBits(x, k) / 2 == LowBits(x / 2, k - 1) && LowBits(x, k) % 2 == x % 2
  {
  }

  lemma LastBit(x: nat)
    ensures Bit(x, 0) <==> x % 2 == 1
  {
  }

  lemma {:induction false} BitOfLow(x: nat, k: nat, i: nat)
    ensures Bit(LowBits(x, k), i) <==> i < k && Bit(x, i)
  {
    hide Bit;
    if k == 0 {
      ZeroHasNoBits(i);
    } else {
      LowBitsHalves(x, k);
      hide LowBits;
      if i == 0 {
        LastBit(x);
        LastBit(LowBits(x, k));
      } else {
        BitOfLow(x / 2, k - 1, i - 1);
        BitStep(LowBits(x, k), i);
        BitStep(x, i);
      }
    }
  }

  lemma ZeroHasNoBits(i: nat)
    ensures !Bit(0, i)
  {
    DivModUnique(0, Pow2(i), 0, 0);
  }

  lemma {:induction false} BitOfProduct(x: nat, n: nat, i: nat)
    ensures Bit(x * Pow2(n), i) <==> n <= i && Bit(x, i - n)
  {
    if n > 0 {
      var half := x * Pow2(n - 1);
      assert x * Pow2(n) == 2 * half;
      if i > 0 {
        hide Bit;
        BitOfProduct(x, n - 1, i - 1);
        BitStep(2 * half, i);
      }
    } else {
      assert x * Pow2(0) == x;
    }
  }

  lemma {:induction false} BitOfQuotient(x: nat, n: nat, i: nat)
    ensures x / Pow2(n) >= 0 && (Bit(x / Pow2(n), i) <==> Bit(x, i + n))
  {
    DivShrinks(x, Pow2(n));
    if n > 0 {
      BitOfQuotient(x / 2, n - 1, i);
      DivTwice(x, Pow2(n - 1));
      BitStep(x, i + n);
    }
  }

  lemma {:induction false} BitOfComplement(x: nat, k: nat, i: nat)
    requires x < Pow2(k)
    ensures Bit(Pow2(k) - 1 - x, i) <==> i < k && !Bit(x, i)
  {
    if k == 0 {
      ZeroHasNoBits(i);
    } else {
      var c := Pow2(k) - 1 - x;
      assert c / 2 == Pow2(k - 1) - 1 - x / 2 && c % 2 == 1 - x % 2;
      if i > 0 {
        hide Bit;
        BitOfComplement(x / 2, k - 1, i - 1);
        BitStep(c, i);
        BitStep(x, i);
      }
    }
  }

  lemma {:induction false} NoBitsAbove(x: nat, k: nat, i: nat)
    requires x < Pow2(k) && k <= i
    ensures !Bit(x, i)
  {
    Pow2Monotone(k, i);
    DivModUnique(x, Pow2(i), 0, x);
  }

  /** AND, OR and XOR work bit by bit. */
  lemma BitwiseLaw(ctx: Context, m: Machine, rest: seq<Word>, x: Word, y: Word, i: nat) returns (a: Word, o: Word, e: Word)
    requires Two(ctx, m, rest, x, y)
    ensures Leaves(ctx, Binary(AND), m, rest, a) && (Bit(a, i) <==> Bit(x, i) && Bit(y, i))
    ensures Leaves(ctx, Binary(OR), m, rest, o) && (Bit(o, i) <==> Bit(x, i) || Bit(y, i))
    ensures Leaves(ctx, Binary(XOR), m, rest, e) && (Bit(e, i) <==> Bit(x, i) != Bit(y, i))
  {
    hide Leaves, Bit, And, Or, Xor;
    a, o, e := BinaryValue(AND, x, y).value, BinaryValue(OR, x, y).value, BinaryValue(XOR, x, y).value;
    TakesTwo(ctx, AND, m, rest, x, y);
    TakesTwo(ctx, OR, m, rest, x, y);
    TakesTwo(ctx, XOR, m, rest, x, y);
    BitwiseMeaning(x, y, i);
  }

  /** SHL and SHR move the bits of the word below by the top, and what leaves the word is lost. */
  lemma ShiftLaw(ctx: Context, m: Machine, rest: seq<Word>, x: Word, y: Word, i: nat) returns (l: Word, r: Word)
    requires Two(ctx, m, rest, x, y)
    ensures Leaves(ctx, Binary(SHL), m, rest, l) && (Bit(l, i) <==> y <= i < 256 && Bit(x, i - y))
    ensures Leaves(ctx, Binary(SHR), m, rest, r) && (Bit(r, i) <==> Bit(x, i + y))
  {
    hide Leaves, Bit, ShiftLeft, ShiftRight;
    l, r := BinaryValue(SHL, x, y).value, BinaryValue(SHR, x, y).value;
    TakesTwo(ctx, SHL, m, rest, x, y);
    TakesTwo(ctx, SHR, m, rest, x, y);
    ZeroHasNoBits(i);
    if y >= 256 {
      WordHasNoBitsAbove(x, i + y);
    } else {
      LeftShiftBits(x, y, i);
      RightShiftBits(x, y, i);
    }
  }

  lemma WordHasNoBitsAbove(x: Word, i: nat)
    requires i >= 256
    ensures !Bit(x, i)
  {
    hide Bit;
    Pow2Values();
    NoBitsAbove(x, 256, i);
  }

  lemma LeftShiftBits(x: Word, y: nat, i: nat)
    requires y < 256
    ensures Bit(ShiftLeft(x, y), i) <==> y <= i < 256 && Bit(x, i - y)
  {
    hide Bit, LowBits, Pow2;
    Pow2Values();
    LowBitsIsMod(x * Pow2(y), 256);
    BitOfLow(x * Pow2(y), 256, i);
    BitOfProduct(x, y, i);
  }

  lemma RightShiftBits(x: Word, y: nat, i: nat)
    requires y < 256
    ensures Bit(ShiftRight(x, y), i) <==> Bit(x, i + y)
  {
    hide Bit, Pow2;
    BitOfQuotient(x, y, i);
  }

  /** SAR divides the signed value of the word below by 2 to the top, rounding down. */
  lemma SarLaw(ctx: Context, m: Machine, rest: seq<Word>, x: Word, y: Word) returns (v: Word)
    requires Two(ctx, m, rest, x, y)
    ensures Leaves(ctx, Binary(SAR), m, rest, v) && Signed(v) == Signed(x) / Pow2(y)
  {
    hide Leaves, ArithmeticShiftRight;
    v := BinaryValue(SAR, x, y).value;
    TakesTwo(ctx, SAR, m, rest, x, y);
    ArithmeticShiftMeaning(x, y);
  }

  /** BYTE takes byte number top of the word below, from the most significant one, and zero from the 32nd on. */
  lemma ByteLaw(ctx: Context, m: Machine, rest: seq<Word>, x: Word, y: Word)
    requires Two(ctx, m, rest, x, y)
    ensures Leaves(ctx, Binary(BYTE), m, rest, if y < 32 then ToBigEndian(x, 32)[y] else 0)
  {
    TakesTwo(ctx, BYTE, m, rest, x, y);
    hide Effect;
    if y < 32 { ByteInstructions(x, y); }
  }

  /** SIGNEXTEND reads the low top-and-one bytes of the word below as signed; at 31 it aborts. */
  lemma SignExtendLaw(ctx: Context, m: Machine, rest: seq<Word>, x: Word, y: Word) returns (v: Word)
    requires Two(ctx, m, rest, x, y)
    ensures y != 31 ==> Leaves(ctx, Binary(SIGNEXTEND), m, rest, v)
    ensures y < 31 ==> Signed(v) == SignedLow(x, 8 * y + 8)
    ensures y > 31 ==> v == x
    ensures y == 31 ==> Effect(ctx, Binary(SIGNEXTEND), m) == Err(Panic)
  {
    SignExtendMeaning(y, x);
    hide SignExtend;
    v := 0;
    if y == 31 {
      assert Arg(m.stack, 0) == y && Arg(m.stack, 1) == x;
    } else {
      v := BinaryValue(SIGNEXTEND, x, y).value;
      TakesTwo(ctx, SIGNEXTEND, m, rest, x, y);
    }
  }

  /** ISZERO tells whether the top is zero, and NOT turns every bit of it. */
  lemma UnaryLaw(ctx: Context, m: Machine, rest: seq<Word>, x: Word, i: nat) returns (v: Word)
    requires m.stack == rest + [x] && m.pc < |ctx.code|
    ensures Leaves(ctx, Lookup(ISZERO), m, rest, Truth(x == 0))
    ensures Leaves(ctx, Lookup(NOT), m, rest, v) && (Bit(v, i) <==> i < 256 && !Bit(x, i))
  {
    v := Not(x);
    assert Arg(m.stack, 0) == x && Drop(m.stack, 1) == rest;
    assert Leaves(ctx, Lookup(ISZERO), m, rest, Truth(x == 0));
    assert Leaves(ctx, Lookup(NOT), m, rest, v);
    hide Effect, Bit;
    Pow2Values();
    BitOfComplement(x, 256, i);
  }

  // ----- three operands, and powers -----

  /** ADDMOD and MULMOD reduce the untruncated sum or product by the top, and give zero for a zero modulus. */
  lemma TernaryLaw(ctx: Context, m: Machine, rest: seq<Word>, a: Word, b: Word, n: Word)
    returns (s: Word, p: Word, j: nat, k: nat)
    requires m.stack == rest + [a, b, n] && m.pc < |ctx.code|
    ensures Leaves(ctx, Ternary(ADDMOD), m, rest, s) && Leaves(ctx, Ternary(MULMOD), m, rest, p)
    ensures if n == 0 then s == p == 0 else s < n && p < n && a + b == j * n + s && a * b == k * n + p
  {
    assert Arg(m.stack, 0) == n && Arg(m.stack, 1) == b && Arg(m.stack, 2) == a && Drop(m.stack, 3) == rest;
    s, p, j, k := TernaryValue(ADDMOD, a, b, n), TernaryValue(MULMOD, a, b, n), 0, 0;
    assert Leaves(ctx, Ternary(ADDMOD), m, rest, s) && Leaves(ctx, Ternary(MULMOD), m, rest, p);
    hide Effect;
    if n > 0 {
      MulMonotone(0, a, b);
      DivShrinks(a + b, n);
      DivShrinks(a * b, n);
      j, k := (a + b) / n, a * b / n;
    }
  }

  lemma {:induction false} PowerAdds(x: nat, a: nat, b: nat)
    ensures Power(x, a + b) == Power(x, a) * Power(x, b)
  {
    if a > 0 {
      PowerAdds(x, a - 1, b);
      assert Power(x, a + b) == x * Power(x, a - 1 + b);
      assert x * (Power(x, a - 1) * Power(x, b)) == (x * Power(x, a - 1)) * Power(x, b);
    }
  }

  /**
   EXP raises the word below to the top: one for exponent zero, the word itself for one, and for a sum of
   exponents the product.
   */
  lemma ExpLaw(ctx: Context, m: Machine, rest: seq<Word>, x: Word, y: Word) returns (v: Word)
    requires Two(ctx, m, rest, x, y)
    ensures Leaves(ctx, EXP, m, rest, v) && v == Power(x, y) % TWO_256
    ensures Power(x, 0) == 1 && Power(x, 1) == x && forall a, b :: 0 <= a && 0 <= b ==> Power(x, a + b) == Power(x, a) * Power(x, b)
  {
    assert Arg(m.stack, 0) == y && Arg(m.stack, 1) == x && Drop(m.stack, 2) == rest;
    v := Power(x, y) % TWO_256;
    assert Leaves(ctx, EXP, m, rest, v);
    hide Effect;
    assert Power(x, 1) == x * Power(x, 0);
    forall a, b | 0 <= a && 0 <= b ensures Power(x, a + b) == Power(x, a) * Power(x, b) { PowerAdds(x, a, b); }
  }
}
