/** Operators whose operands come in the other order than the standard has them, and when that matters. */
module EvmOperands {
  import opened Words
  import opened SignedWords
  import opened EvmTypes
  import opened Opcodes
  import opened EvmMachine

  lemma SubWraps(a: Word, b: Word)
    requires b <= a
    ensures (a - b) % TWO_256 == a - b && (b - a) % TWO_256 == if a == b then 0 else TWO_256 - (a - b)
  {
    DivModUnique(a - b, TWO_256, 0, a - b);
    if a > b { DivModUnique(b - a, TWO_256, -1, TWO_256 - (a - b)); }
  }

  /** A smaller word into a larger one goes at least once, and not the other way round. */
  lemma DivideUneven(a: Word, b: Word)
    requires a > b > 0
    ensures a / b >= 1 && b / a == 0 && a % b < b && b % a == b
  {
    DivModUnique(b, a, 0, b);
    if a / b <= 0 { MulMonotone(a / b, 0, b); }
  }

  /** Differences and comparisons give the same in either order exactly for these pairs. */
  lemma OperandOrder(a: Word, b: Word)
    ensures BinaryValue(SUB, a, b) == BinaryValue(SUB, b, a) <==> a == b || a == b + TWO_255 || b == a + TWO_255
    ensures BinaryValue(LT, a, b) == BinaryValue(LT, b, a) <==> a == b
    ensures BinaryValue(GT, a, b) == BinaryValue(GT, b, a) <==> a == b
  {
    if a < b { SubWraps(b, a); } else { SubWraps(a, b); }
  }

  /** Unsigned division gives the same in either order exactly for these pairs. */
  lemma DivisionOrder(a: Word, b: Word)
    ensures BinaryValue(DIV, a, b) == BinaryValue(DIV, b, a) <==> a == b || a == 0 || b == 0
    ensures BinaryValue(MOD, a, b) == BinaryValue(MOD, b, a) <==> a == b || a == 0 || b == 0
  {
    if a == 0 || b == 0 {
      if a > 0 { DivModUnique(0, a, 0, 0); }
      if b > 0 { DivModUnique(0, b, 0, 0); }
    } else if a > b {
      DivideUneven(a, b);
    } else if b > a {
      DivideUneven(b, a);
    }
  }

  lemma SignedInjective(a: Word, b: Word)
    requires Signed(a) == Signed(b)
    ensures a == b
  {
  }

  /** Quotient and remainder of words of different size, the edge of -2^255 and -1 included. */
  lemma SignedUneven(a: Word, b: Word)
    requires Abs(Signed(a)) > Abs(Signed(b)) > 0
    ensures SignedDiv(a, b) != 0 && SignedDiv(b, a) == 0
    ensures SignedMod(a, b) != b && SignedMod(b, a) == b
  {
    hide SignedDiv, SignedMod;
    var x, y := Signed(a), Signed(b);
    assert a != 0 && b != 0 && !(b == TWO_255 && a == MAX_WORD);
    SignedDivModMeaning(b, a);
    TruncatedDivisionUnique(y, x, 0, y, Signed(SignedDiv(b, a)), Signed(SignedMod(b, a)));
    SignedInjective(SignedMod(b, a), b);
    if a == TWO_255 && b == MAX_WORD {
      SignedDivModEdges(a);
    } else {
      SignedDivModMeaning(a, b);
    }
  }

  lemma SignedEven(a: Word, b: Word)
    requires b != 0 && (a == 0 || (a != b && Abs(Signed(a)) == Abs(Signed(b))))
    ensures SignedMod(a, b) == 0 && Signed(SignedDiv(a, b)) == if a == 0 then 0 else -1
  {
    hide SignedDiv, SignedMod;
    var x, y := Signed(a), Signed(b);
    SignedDivModMeaning(a, b);
    TruncatedDivisionUnique(x, y, if a == 0 then 0 else -1, 0, Signed(SignedDiv(a, b)), Signed(SignedMod(a, b)));
    SignedInjective(SignedMod(a, b), 0);
  }

  /** The signed operators give the same in either order exactly for these pairs. */
  lemma SignedOperandOrder(a: Word, b: Word)
    ensures BinaryValue(SLT, a, b) == BinaryValue(SLT, b, a) <==> a == b
    ensures BinaryValue(SGT, a, b) == BinaryValue(SGT, b, a) <==> a == b
    ensures BinaryValue(SDIV, a, b) == BinaryValue(SDIV, b, a) <==> a == 0 || b == 0 || Abs(Signed(a)) == Abs(Signed(b))
    ensures BinaryValue(SMOD, a, b) == BinaryValue(SMOD, b, a) <==> a == 0 || b == 0 || Abs(Signed(a)) == Abs(Signed(b))
  {
    hide SignedDiv, SignedMod, SignedLess, SignedGreater;
    SignedOrderMeaning(a, b);
    SignedOrderMeaning(b, a);
    if Signed(a) == Signed(b) { SignedInjective(a, b); }
    if a == 0 || b == 0 {
      SignedDivModEdges(a);
      SignedDivModEdges(b);
      if a == 0 && b != 0 { SignedEven(a, b); SignedInjective(SignedDiv(a, b), 0); }
      if b == 0 && a != 0 { SignedEven(b, a); SignedInjective(SignedDiv(b, a), 0); }
    } else if Abs(Signed(a)) > Abs(Signed(b)) {
      SignedUneven(a, b);
    } else if Abs(Signed(a)) < Abs(Signed(b)) {
      SignedUneven(b, a);
    } else if a != b {
      SignedEven(a, b);
      SignedEven(b, a);
      SignedInjective(SignedDiv(a, b), SignedDiv(b, a));
    }
  }

  /** The modulus is on top: with 5, 1 and 3 pushed in turn, (5 + 1) % 3 and (5 * 1) % 3 instead of modulo 5. */
  lemma TernaryOrder()
    ensures TernaryValue(ADDMOD, 5, 1, 3) == 0 && TernaryValue(ADDMOD, 3, 1, 5) == 4
    ensures TernaryValue(MULMOD, 5, 1, 3) == 2 && TernaryValue(MULMOD, 3, 1, 5) == 3
  {
  }

  /** The exponent is on top: 2 and then 3 pushed give 2 to the 3rd, and in the other order 3 to the 2nd. */
  lemma ExpOrder(ctx: Context, m: Machine)
    requires m.pc < |ctx.code|
    ensures m.stack == [2, 3] ==> Effect(ctx, EXP, m).Ok? && Effect(ctx, EXP, m).value.stack == [8]
    ensures m.stack == [3, 2] ==> Effect(ctx, EXP, m).Ok? && Effect(ctx, EXP, m).value.stack == [9]
  {
    assert Power(2, 3) == 8 && Power(3, 2) == 9;
  }
}
