/** The base fee of a block from its parent, as the payload builder and the MEV block builder compute it. */
module BaseFee {
  import opened Wrappers
  import opened Words

  const DEFAULT_FEE: nat := 1_000_000_000

  datatype Parent = Parent(baseFee: Option<Word>, gasUsed: Word, gasLimit: Word)

  function ParentFee(p: Parent): Word {
    if p.baseFee.Some? then p.baseFee.value else DEFAULT_FEE
  }

  function Target(limit: nat): nat {
    limit / 2
  }

  /** How far the gas used is from the target, either way. */
  function Distance(used: nat, target: nat): nat {
    if used > target then used - target else target - used
  }

  /** An eighth of the fee, in proportion to the distance, rounded down twice. */
  function Delta(fee: nat, used: nat, target: nat): nat
    requires target > 0
  {
    DivShrinks(fee * Distance(used, target), target);
    fee * Distance(used, target) / target / 8
  }

  /** The payload builder's rule on unbounded integers. */
  function EngineNext(fee: nat, used: nat, target: nat): nat
    requires used == target || target > 0
  {
    if used == target then fee
    else if used > target then fee + Delta(fee, used, target)
    else if fee > Delta(fee, used, target) then fee - Delta(fee, used, target)
    else 1
  }

  /** The MEV block builder's rule on unbounded integers. */
  function BuilderNext(fee: nat, used: nat, target: nat): nat
    requires used == target || target > 0
  {
    if used == target then fee
    else
      var delta := Delta(fee, used, target);
      if used > target then fee + (if delta > 1 then delta else 1)
      else
        var lower := if fee > delta then fee - delta else 0;
        if lower > 1 then lower else 1
  }

  /** A step that neither divides by zero nor leaves 256 bits. */
  predicate StepFits(p: Parent, next: nat) {
    p.gasUsed == Target(p.gasLimit) ||
    (ParentFee(p) * Distance(p.gasUsed, Target(p.gasLimit)) < TWO_256 && next < TWO_256)
  }

  /** `None` is an abort. */
  function EngineBaseFee(p: Parent): Option<nat> {
    var target := Target(p.gasLimit);
    if p.gasUsed != target && target == 0 then None
    else
      var next := EngineNext(ParentFee(p), p.gasUsed, target);
      if StepFits(p, next) then Some(next) else None
  }

  function BuilderBaseFee(p: Parent): Option<nat> {
    var target := Target(p.gasLimit);
    if p.gasUsed != target && target == 0 then None
    else
      var next := BuilderNext(ParentFee(p), p.gasUsed, target);
      if StepFits(p, next) then Some(next) else None
  }

  /** On unbounded integers the builder's rule is one higher when an increase rounds to nothing. */
  lemma NextRulesAgree(fee: nat, used: nat, target: nat)
    requires used == target || target > 0
    ensures BuilderNext(fee, used, target) ==
            EngineNext(fee, used, target) + (if used > target && Delta(fee, used, target) == 0 then 1 else 0)
  {
  }

  /**
   The two rules agree, aborts included, except that the builder's is one higher when an increase rounds to
   nothing, and aborts if that one is too much for 256 bits.
   */
  lemma RulesAgree(p: Parent)
    ensures var target := Target(p.gasLimit);
            var bump := if p.gasUsed > target > 0 && ParentFee(p) * (p.gasUsed - target) < 8 * target then 1 else 0;
            match EngineBaseFee(p)
            case None => BuilderBaseFee(p) == None
            case Some(fee) => BuilderBaseFee(p) == if fee + bump < TWO_256 then Some(fee + bump) else None
  {
    hide EngineNext, BuilderNext, Delta;
    var target := Target(p.gasLimit);
    if p.gasUsed == target || target > 0 {
      NextRulesAgree(ParentFee(p), p.gasUsed, target);
      if p.gasUsed > target {
        DeltaWhole(ParentFee(p), p.gasUsed, target);
        NoWholePart(ParentFee(p), p.gasUsed - target, target, Delta(ParentFee(p), p.gasUsed, target));
      }
      EngineFallFits(p);
    }
  }

  /** The engine's rule leaves 256 bits only by the product or by a rise. */
  lemma EngineFallFits(p: Parent)
    requires p.gasUsed == Target(p.gasLimit) || Target(p.gasLimit) > 0
    ensures p.gasUsed <= Target(p.gasLimit) ==> EngineNext(ParentFee(p), p.gasUsed, Target(p.gasLimit)) < TWO_256
  {
  }

  // ----- how large a step is -----

  lemma DivInTwoSteps(x: nat, t: nat)
    requires t > 0
    ensures 0 <= x / t && 8 * t * (x / t / 8) <= x < 8 * t * (x / t / 8 + 1)
  {
    DivShrinks(x, t);
    var q, r := x / t, x % t;
    var d, e := q / 8, q % 8;
    assert x == q * t + r && q == 8 * d + e;
    assert q * t == 8 * t * d + e * t;
    MulMonotone(e, 7, t);
    MulMonotone(0, e, t);
    assert 8 * t * (d + 1) == 8 * t * d + 8 * t;
  }

  /** The step `n` is the whole part of `fee * gap / (8 * target)`. */
  predicate WholePart(fee: nat, gap: nat, target: nat, n: int) {
    8 * target * n <= fee * gap < 8 * target * (n + 1)
  }

  lemma WholePartUnique(fee: nat, gap: nat, target: nat, n: int, n': int)
    requires target > 0 && WholePart(fee, gap, target, n) && WholePart(fee, gap, target, n')
    ensures n == n'
  {
    if n < n' { ScaledLess(n, n', 8 * target); }
    if n' < n { ScaledLess(n', n, 8 * target); }
  }

  lemma ScaledLess(n: int, n': int, d: nat)
    requires n < n'
    ensures d * (n + 1) <= d * n'
  {
    MulMonotone(n + 1, n', d);
  }

  lemma NoWholePart(fee: nat, gap: nat, target: nat, n: nat)
    requires target > 0 && WholePart(fee, gap, target, n)
    ensures n == 0 <==> fee * gap < 8 * target
  {
    if n > 0 { MulMonotone(1, n, 8 * target); assert n * (8 * target) == 8 * target * n; }
  }

  /** What a header without a base fee counts as, and the target of a gas limit. */
  lemma ParentDefaults(used: Word, limit: Word, fee: Word)
    ensures ParentFee(Parent(None, used, limit)) == 1_000_000_000 && ParentFee(Parent(Some(fee), used, limit)) == fee
    ensures 2 * Target(limit) <= limit <= 2 * Target(limit) + 1
  {
  }

  /** The fee is computed exactly when there is no division by zero and neither product nor result leaves 256 bits. */
  lemma EngineAborts(p: Parent)
    ensures var target, fee := Target(p.gasLimit), ParentFee(p);
            EngineBaseFee(p) == None <==>
            p.gasUsed != target && (target == 0 || fee * Distance(p.gasUsed, target) >= TWO_256
                                    || (p.gasUsed > target && fee + fee * (p.gasUsed - target) / target / 8 >= TWO_256))
    ensures EngineBaseFee(p).Some? ==> EngineBaseFee(p).value == EngineNext(ParentFee(p), p.gasUsed, Target(p.gasLimit))
  {
    if p.gasUsed == Target(p.gasLimit) || Target(p.gasLimit) > 0 { EngineFallFits(p); }
  }

  /**
   The payload builder's fee rises and, from a fee of at least 1, falls by the whole part of an eighth in
   proportion to the distance from the target; a rise has no bound, and a fall is from within the target.
   */
  lemma EngineStep(fee: nat, used: nat, target: nat)
    requires target > 0
    ensures used > target ==> WholePart(fee, used - target, target, EngineNext(fee, used, target) - fee)
    ensures used < target && fee >= 1 ==> WholePart(fee, target - used, target, fee - EngineNext(fee, used, target))
    ensures used == target ==> EngineNext(fee, used, target) == fee
    ensures used < target && fee == 0 ==> EngineNext(fee, used, target) == 1
  {
    MulMonotone(0, fee, Distance(used, target));
    DivInTwoSteps(fee * Distance(used, target), target);
    if used < target && fee >= 1 { DeltaAtMostEighth(fee, used, target); }
    if fee == 0 { assert 0 * Distance(used, target) == 0; DivModUnique(0, target, 0, 0); }
  }

  /** The block builder's does so too, but a rise is at least 1. */
  lemma BuilderStep(fee: nat, used: nat, target: nat)
    requires target > 0
    ensures var up := BuilderNext(fee, used, target) - fee;
            used > target ==> (up > 1 && WholePart(fee, used - target, target, up)) ||
                              (up == 1 && fee * (used - target) < 16 * target)
    ensures used < target && fee >= 1 ==> WholePart(fee, target - used, target, fee - BuilderNext(fee, used, target))
    ensures used == target ==> BuilderNext(fee, used, target) == fee
    ensures used < target && fee == 0 ==> BuilderNext(fee, used, target) == 1
  {
    hide EngineNext, BuilderNext, Delta;
    EngineStep(fee, used, target);
    NextRulesAgree(fee, used, target);
    DeltaWhole(fee, used, target);
    if fee == 0 || used == target { SmallCases(fee, used, target); }
  }

  lemma SmallCases(fee: nat, used: nat, target: nat)
    requires target > 0 && (fee == 0 || used == target)
    ensures used <= target ==> BuilderNext(fee, used, target) == if used == target then fee else 1
  {
    if fee == 0 { assert 0 * Distance(used, target) == 0; DivModUnique(0, target, 0, 0); }
  }

  lemma DeltaWhole(fee: nat, used: nat, target: nat)
    requires target > 0
    ensures WholePart(fee, Distance(used, target), target, Delta(fee, used, target))
    ensures used > target ==> EngineNext(fee, used, target) == fee + Delta(fee, used, target)
  {
    MulMonotone(0, fee, Distance(used, target));
    DivInTwoSteps(fee * Distance(used, target), target);
  }

  /** An empty block takes off exactly an eighth, and a block of twice its target adds exactly that. */
  lemma EighthExactly(fee: nat, target: nat)
    requires target > 0 && fee >= 1
    ensures EngineNext(fee, 0, target) == fee - fee / 8 && EngineNext(fee, 2 * target, target) == fee + fee / 8
  {
    hide EngineNext, WholePart;
    EngineStep(fee, 0, target);
    EngineStep(fee, 2 * target, target);
    EighthIsWhole(fee, target);
    assert target - 0 == target && 2 * target - target == target;
    WholePartUnique(fee, target, target, fee / 8, fee - EngineNext(fee, 0, target));
    WholePartUnique(fee, target, target, fee / 8, EngineNext(fee, 2 * target, target) - fee);
  }

  lemma EighthIsWhole(fee: nat, target: nat)
    ensures target > 0 ==> WholePart(fee, target, target, fee / 8)
  {
    var n, r := fee / 8, fee % 8;
    assert fee == 8 * n + r;
    assert fee * target == 8 * target * n + r * target;
    MulMonotone(r, 7, target);
    MulMonotone(0, r, target);
    assert 8 * target * (n + 1) == 8 * target * n + 8 * target;
  }

  // ----- one block -----

  lemma QuotientAtMost(x: nat, d: nat, m: nat)
    requires d > 0 && x <= m * d
    ensures 0 <= x / d <= m
  {
    DivShrinks(x, d);
    var q := x / d;
    assert x == q * d + x % d;
    if q > m { MulMonotone(m + 1, q, d); DistributeMinusOne(m + 1, d); }
  }

  /** Up to twice the target the change is at most an eighth. */
  lemma DeltaAtMostEighth(fee: nat, used: nat, target: nat)
    requires target > 0 && used <= 2 * target
    ensures 8 * Delta(fee, used, target) <= fee
  {
    var gap := Distance(used, target);
    assert fee * gap <= fee * target by { MulMonotone(gap, target, fee); assert gap * fee == fee * gap && target * fee == fee * target; }
    QuotientAtMost(fee * gap, target, fee);
  }

  lemma StepBounds(fee: nat, used: nat, target: nat)
    requires fee >= 1 && used <= 2 * target && (used == target || target > 0)
    ensures EngineNext(fee, used, target) >= 1
    ensures 7 * fee <= 8 * EngineNext(fee, used, target) <= 9 * fee
  {
    if used != target { DeltaAtMostEighth(fee, used, target); }
  }

  /** A fee of eight targets moves by exactly the distance. */
  lemma DeltaExact(used: nat, target: nat)
    requires target > 0
    ensures Delta(8 * target, used, target) == Distance(used, target)
  {
    var gap := Distance(used, target);
    assert 8 * target * gap == 8 * gap * target;
    DivModUnique(8 * target * gap, target, 8 * gap, 0);
  }

  /**
   The rise is held to an eighth for every fee exactly when the gas used is at most twice the target, which
   a block within an odd limit can exceed by one.
   */
  lemma RiseIsAnEighthExactly(used: nat, target: nat)
    requires target > 0
    ensures (forall fee: nat :: fee >= 1 ==> 8 * EngineNext(fee, used, target) <= 9 * fee) <==> used <= 2 * target
  {
    if used <= 2 * target {
      forall fee: nat | fee >= 1
        ensures 8 * EngineNext(fee, used, target) <= 9 * fee
      {
        StepBounds(fee, used, target);
      }
    } else {
      DeltaExact(used, target);
      assert 8 * EngineNext(8 * target, used, target) > 9 * (8 * target);
    }
  }

  // ----- many blocks -----

  datatype Gas = Gas(used: Word, limit: Word)

  /** The fee after the blocks, each computed from the one before; `None` if some step aborts. */
  function EngineRun(fee: Word, blocks: seq<Gas>): Option<nat> {
    if blocks == [] then Some(fee)
    else
      var n := |blocks| - 1;
      match EngineRun(fee, blocks[..n])
      case None => None
      case Some(f) =>
        if f >= TWO_256 then None else EngineBaseFee(Parent(Some(f), blocks[n].used, blocks[n].limit))
  }

  predicate WithinTwiceTarget(blocks: seq<Gas>) {
    forall i :: 0 <= i < |blocks| ==> blocks[i].used <= 2 * Target(blocks[i].limit)
  }

  /** Chains two scaled bounds. */
  lemma ChainBounds(p: nat, q: nat, x: nat, y: nat, z: nat, c: nat, d: nat)
    requires p * x <= q * y && c * y <= d * z
    ensures (c * p) * x <= (d * q) * z
  {
    MulMonotone(p * x, q * y, c);
    MulMonotone(c * y, d * z, q);
    assert (c * p) * x == p * x * c;
    assert q * y * c == c * y * q;
    assert d * z * q == (d * q) * z;
  }

  /**
   Over any number of blocks that use at most twice their target, a fee of at least 1 stays at least 1 and
   changes by at most a factor between 7/8 and 9/8 for each block.
   */
  lemma {:induction false} FeeOverManyBlocks(fee: Word, blocks: seq<Gas>)
    requires fee >= 1 && WithinTwiceTarget(blocks) && EngineRun(fee, blocks).Some?
    ensures var k, last := |blocks|, EngineRun(fee, blocks).value;
            last >= 1 && Power(7, k) * fee <= Power(8, k) * last && Power(8, k) * last <= Power(9, k) * fee
  {
    if blocks != [] {
      var n := |blocks| - 1;
      FeeOverManyBlocks(fee, blocks[..n]);
      var before, last := EngineRun(fee, blocks[..n]).value, EngineRun(fee, blocks).value;
      StepBounds(before, blocks[n].used, Target(blocks[n].limit));
      ChainBounds(Power(7, n), Power(8, n), fee, before, last, 7, 8);
      UpperChain(Power(8, n), Power(9, n), fee, before, last);
    }
  }

  lemma UpperChain(e: nat, n: nat, fee: nat, before: nat, last: nat)
    requires e * before <= n * fee && 8 * last <= 9 * before
    ensures (8 * e) * last <= (9 * n) * fee
  {
    MulMonotone(8 * last, 9 * before, e);
    assert (8 * e) * last == 8 * last * e;
    assert 9 * before * e == 9 * (e * before);
    assert (9 * n) * fee == 9 * (n * fee);
  }

  lemma {:induction false} SmallFeesAreStuck(fee: Word, blocks: seq<Gas>)
    requires 1 <= fee < 8 && WithinTwiceTarget(blocks) && EngineRun(fee, blocks).Some?
    ensures EngineRun(fee, blocks) == Some(fee)
  {
    if blocks != [] {
      var n := |blocks| - 1;
      SmallFeesAreStuck(fee, blocks[..n]);
      var used, target := blocks[n].used, Target(blocks[n].limit);
      if used != target { DeltaAtMostEighth(fee, used, target); }
    }
  }

  /** One empty block with a limit of 2 takes an eighth off, or lifts a fee of zero to one. */
  lemma EmptyBlockMoves(fee: Word)
    requires fee == 0 || fee >= 8
    ensures EngineRun(fee, [Gas(0, 2)]).Some? && EngineRun(fee, [Gas(0, 2)]) != Some(fee)
  {
    var b := Gas(0, 2);
    assert [b][..0] == [];
    assert Delta(fee, 0, 1) == fee / 8;
  }

  /** No blocks that use at most twice their target can move the fee. */
  ghost predicate NeverMoves(fee: Word) {
    forall blocks :: WithinTwiceTarget(blocks) && EngineRun(fee, blocks).Some? ==> EngineRun(fee, blocks) == Some(fee)
  }

  /** Exactly the fees from 1 to 7 never move again: every change rounds to nothing. */
  lemma StuckFees(fee: Word)
    ensures NeverMoves(fee) <==> 1 <= fee < 8
  {
    hide EngineRun;
    if 1 <= fee < 8 {
      forall blocks | WithinTwiceTarget(blocks) && EngineRun(fee, blocks).Some?
        ensures EngineRun(fee, blocks) == Some(fee)
      {
        SmallFeesAreStuck(fee, blocks);
      }
    } else {
      EmptyBlockMoves(fee);
      assert WithinTwiceTarget([Gas(0, 2)]);
    }
  }

  /** A block that uses its whole odd limit goes beyond twice its target and can move even a fee of 4. */
  lemma OddLimitMoves()
    ensures EngineRun(4, [Gas(3, 3)]) == Some(5)
  {
    var b := Gas(3, 3);
    assert [b][..0] == [];
    assert Delta(4, 3, 1) == 1;
  }
}
