/**
 Fees that follow load: the excess over a target carried from block to block, the withdrawal-request
 contract and queue, and blob gas.
 */
module RequestFees {
  import opened Wrappers
  import opened Words
  import Exp = FakeExponential

  const MAX_REQUESTS: nat := 16
  const TARGET_REQUESTS: nat := 2
  const MIN_FEE: nat := 1
  const FEE_FRACTION: nat := 17

  // ----- the running excess -----

  /** The excess after a block with `count` over or under `target`. */
  function Excess(excess: nat, count: nat, target: nat): nat {
    if excess + count > target then excess + count - target else 0
  }

  /** The excess after blocks with these counts, from none. */
  function RunningExcess(counts: seq<nat>, target: nat): nat {
    if counts == [] then 0
    else Excess(RunningExcess(counts[..|counts| - 1], target), counts[|counts| - 1], target)
  }

  lemma RunningAppend(counts: seq<nat>, c: nat, target: nat)
    ensures RunningExcess(counts + [c], target) == Excess(RunningExcess(counts, target), c, target)
  {
    assert (counts + [c])[..|counts|] == counts;
  }

  /** By how much the blocks from `k` on exceeded their target in total. */
  function SuffixSum(counts: seq<nat>, target: nat, k: nat): int
    requires k <= |counts|
    decreases |counts| - k
  {
    if k == |counts| then 0 else counts[k] - target + SuffixSum(counts, target, k + 1)
  }

  lemma {:induction false} SuffixSumAppend(counts: seq<nat>, c: nat, target: nat, k: nat)
    requires k <= |counts|
    ensures SuffixSum(counts + [c], target, k) == SuffixSum(counts, target, k) + c - target
    decreases |counts| - k
  {
    if k == |counts| {
      assert SuffixSum(counts + [c], target, k + 1) == 0;
    } else {
      SuffixSumAppend(counts, c, target, k + 1);
    }
  }

  /** The running excess is the largest of all suffix sums, the empty one included. */
  lemma {:induction false} ExcessIsLargestSuffix(counts: seq<nat>, target: nat)
    ensures forall k :: 0 <= k <= |counts| ==> SuffixSum(counts, target, k) <= RunningExcess(counts, target)
    ensures exists k :: 0 <= k <= |counts| && SuffixSum(counts, target, k) == RunningExcess(counts, target)
  {
    if counts == [] {
      assert SuffixSum(counts, target, 0) == 0;
    } else {
      var n := |counts| - 1;
      var before, c := counts[..n], counts[n];
      assert counts == before + [c];
      ExcessIsLargestSuffix(before, target);
      forall k | 0 <= k <= |counts|
        ensures SuffixSum(counts, target, k) <= RunningExcess(counts, target)
      {
        if k <= n { SuffixSumAppend(before, c, target, k); }
      }
      if RunningExcess(counts, target) == 0 {
        assert SuffixSum(counts, target, |counts|) == 0;
      } else {
        var k :| 0 <= k <= n && SuffixSum(before, target, k) == RunningExcess(before, target);
        SuffixSumAppend(before, c, target, k);
      }
    }
  }

  // ----- fees -----

  function Fee(excess: nat): nat {
    Exp.Value(MIN_FEE, excess, FEE_FRACTION)
  }

  predicate FeeFits(excess: nat) {
    Exp.Fits(MIN_FEE, excess, FEE_FRACTION)
  }

  method CalculateWithdrawalRequestFee(excess: U64) returns (r: Option<nat>)
    ensures r == if FeeFits(excess) then Some(Fee(excess)) else None
  {
    r := Exp.Compute(MIN_FEE, excess, FEE_FRACTION);
  }

  /** One block of 10 requests leaves an excess of 8, and one of 2 or fewer after it takes back what it is short of 2. */
  lemma ExcessByTwo(excess: nat, count: nat)
    ensures Excess(0, 10, TARGET_REQUESTS) == 8
    ensures excess + count >= 2 ==> Excess(excess, count, TARGET_REQUESTS) + 2 == excess + count
    ensures excess + count < 2 ==> Excess(excess, count, TARGET_REQUESTS) == 0
  {
  }

  /** A fee never falls after a block at or above its target and never rises after one at or below it. */
  lemma FeeFollowsLoad(excess: nat, count: nat)
    ensures count >= TARGET_REQUESTS ==> Fee(excess) <= Fee(Excess(excess, count, TARGET_REQUESTS))
    ensures count <= TARGET_REQUESTS ==> Fee(Excess(excess, count, TARGET_REQUESTS)) <= Fee(excess)
  {
    var next := Excess(excess, count, TARGET_REQUESTS);
    if excess <= next { Exp.ValueMonotone(MIN_FEE, excess, next, FEE_FRACTION); }
    if next <= excess { Exp.ValueMonotone(MIN_FEE, next, excess, FEE_FRACTION); }
  }

  lemma SmallConstants()
    ensures 0x1_0000_0000 <= Pow2(56) && 0x1_0000_0000 <= Pow2(128)
  {
    hide Pow2;
    Pow2Values();
    Pow2Square(8, 256);
    Pow2Square(16, 0x1_0000);
    Pow2Monotone(32, 56);
    Pow2Monotone(32, 128);
  }

  /** Up to an excess of 272, sixteen times the fraction, the fee is computed without overflow. */
  lemma FeeFitsUpTo272(excess: nat)
    requires excess <= 272
    ensures FeeFits(excess)
  {
    hide Pow2;
    SmallConstants();
    Exp.SmallNumeratorsFit(MIN_FEE, excess, FEE_FRACTION);
  }

  /** One more term of the fee's series, by its quotient and remainder. */
  lemma Series(excess: nat, k: nat, sum: nat, term: nat, next: nat, rest: nat)
    requires Exp.Sum(MIN_FEE, excess, FEE_FRACTION, k) == sum && Exp.Term(MIN_FEE, excess, FEE_FRACTION, k) == term
    requires term * excess == next * (FEE_FRACTION * (k + 1)) + rest && rest < FEE_FRACTION * (k + 1)
    ensures Exp.Sum(MIN_FEE, excess, FEE_FRACTION, k + 1) == sum + term
    ensures Exp.Term(MIN_FEE, excess, FEE_FRACTION, k + 1) == next
  {
    DivModUnique(term * excess, FEE_FRACTION * (k + 1), next, rest);
  }

  lemma FeeFromSeries(excess: nat, k: nat, sum: nat)
    requires k <= Exp.ITERATIONS
    requires Exp.Sum(MIN_FEE, excess, FEE_FRACTION, k) == sum && Exp.Term(MIN_FEE, excess, FEE_FRACTION, k) == 0
    ensures Fee(excess) == sum / FEE_FRACTION
  {
    Exp.ZeroStays(MIN_FEE, excess, FEE_FRACTION, k, Exp.ITERATIONS);
  }

  lemma FeeAtZero()
    ensures Fee(0) == 1
  {
    Series(0, 0, 0, 17, 0, 0);
    FeeFromSeries(0, 1, 17);
  }

  lemma FeeAt12()
    ensures Fee(12) == 1
  {
    Series(12, 0, 0, 17, 12, 0);
    Series(12, 1, 17, 12, 4, 8);
    Series(12, 2, 29, 4, 0, 48);
    FeeFromSeries(12, 3, 33);
  }

  lemma FeeAt13()
    ensures Fee(13) == 2
  {
    Series(13, 0, 0, 17, 13, 0);
    Series(13, 1, 17, 13, 4, 33);
    Series(13, 2, 30, 4, 1, 1);
    Series(13, 3, 34, 1, 0, 13);
    FeeFromSeries(13, 4, 35);
  }

  /**
   The fee stays at its minimum up to an excess of 12. The unit tests that expect a higher fee at an excess
   of 10, or after one block of 10 requests (an excess of 8), expect what the code does not do.
   */
  lemma FeeIsMinimalUpTo12(excess: nat)
    ensures Fee(excess) >= MIN_FEE
    ensures Fee(excess) == MIN_FEE <==> excess <= 12
  {
    FeeAtZero();
    FeeAt12();
    FeeAt13();
    Exp.ValueMonotone(MIN_FEE, 0, excess, FEE_FRACTION);
    if excess <= 12 {
      Exp.ValueMonotone(MIN_FEE, excess, 12, FEE_FRACTION);
    } else {
      Exp.ValueMonotone(MIN_FEE, 13, excess, FEE_FRACTION);
    }
  }

  // ----- the contract -----

  datatype RequestError = InsufficientFee(required: nat, provided: nat) | TooManyRequests

  class Contract<Request> {
    var requests: seq<Request>
    var excess: U64
    var currentFee: nat
    /** The block counts so far. */
    ghost var counts: seq<nat>

    /** The fee is the fee of the excess, and the excess is the running excess of every block so far. */
    ghost predicate Valid()
      reads this
    {
      && |requests| <= MAX_REQUESTS
      && currentFee == Fee(excess)
      && excess == RunningExcess(counts, TARGET_REQUESTS)
    }

    constructor ()
      ensures Valid() && requests == [] && excess == 0 && counts == []
    {
      requests := [];
      excess := 0;
      currentFee := MIN_FEE;
      counts := [];
      FeeAtZero();
    }

    method AddRequest(request: Request, fee: Word) returns (r: Result<(), RequestError>)
      requires Valid()
      modifies this
      ensures Valid() && excess == old(excess) && counts == old(counts) && currentFee == old(currentFee)
      ensures r == if fee < Fee(excess) then Failure(InsufficientFee(Fee(excess), fee))
                   else if |old(requests)| >= 16 then Failure(TooManyRequests)
                   else Success(())
      ensures requests == if r.Success? then old(requests) + [request] else old(requests)
    {
      if fee < currentFee { return Failure(InsufficientFee(currentFee, fee)); }
      if |requests| >= MAX_REQUESTS { return Failure(TooManyRequests); }
      requests := requests + [request];
      return Success(());
    }

    /** Ends a block. `None` is an abort: the excess or the fee's computation overflowed. */
    method ProcessRequests() returns (r: Option<seq<Request>>)
      requires Valid()
      modifies this
      ensures var next := Excess(old(excess), |old(requests)|, TARGET_REQUESTS);
              if old(excess) + |old(requests)| < TWO_64 && FeeFits(next)
              then Valid() && r == Some(old(requests)) && requests == [] && excess == next
                   && counts == old(counts) + [|old(requests)|]
              else r == None
    {
      hide RunningExcess, Fee, FeeFits;
      var taken := requests;
      requests := [];
      if excess + |taken| >= TWO_64 { return None; }
      if excess + |taken| > TARGET_REQUESTS {
        excess := excess + |taken| - TARGET_REQUESTS;
      } else {
        excess := 0;
      }
      var fee := CalculateWithdrawalRequestFee(excess);
      if fee == None { return None; }
      currentFee := fee.value;
      RunningAppend(counts, |taken|, TARGET_REQUESTS);
      counts := counts + [|taken|];
      return Some(taken);
    }
  }

  // ----- the queue -----

  class Queue<Request> {
    var head: U64
    var tail: U64
    var count: U64
    var excess: U64
    var requests: seq<Request>

    ghost predicate Valid()
      reads this
    {
      count == |requests| <= MAX_REQUESTS && tail == head + count
    }

    constructor ()
      ensures Valid() && requests == [] && excess == 0
    {
      head, tail, count, excess := 0, 0, 0, 0;
      requests := [];
    }

    /** `None` is an abort: the index of the end leaves 64 bits. */
    method Enqueue(request: Request) returns (ok: Option<bool>)
      requires Valid()
      modifies this
      ensures ok == if |old(requests)| >= 16 then Some(false)
                    else if old(tail) == U64_MAX then None else Some(true)
      ensures ok.Some? ==> Valid() && head == old(head) && excess == old(excess)
      ensures ok.Some? ==> requests == if ok.value then old(requests) + [request] else old(requests)
    {
      if count >= MAX_REQUESTS { return Some(false); }
      requests := requests + [request];
      if tail == U64_MAX { return None; }
      tail, count := tail + 1, count + 1;
      return Some(true);
    }

    method Dequeue() returns (r: Option<Request>)
      requires Valid()
      modifies this
      ensures Valid() && tail == old(tail) && excess == old(excess)
      ensures if old(requests) == [] then r == None && requests == [] && head == old(head)
              else r == Some(old(requests)[0]) && requests == old(requests)[1..]
    {
      if count == 0 { return None; }
      var request := requests[0];
      requests := requests[1..];
      head, count := head + 1, count - 1;
      return Some(request);
    }

    /** The oldest requests in order, and the same excess step as the contract's; not `ok` is an abort. */
    method DequeueUpTo(maxCount: U64) returns (result: seq<Request>, ok: bool)
      requires Valid()
      modifies this
      ensures Valid() && tail == old(tail)
      ensures result + requests == old(requests)
      ensures |result| == if |old(requests)| < maxCount then |old(requests)| else maxCount
      ensures ok <==> Excess(old(excess), |result|, TARGET_REQUESTS) <= U64_MAX
      ensures ok ==> excess == Excess(old(excess), |result|, TARGET_REQUESTS)
    {
      result, ok := [], true;
      var n := if count < maxCount then count else maxCount;
      for i := 0 to n
        invariant Valid() && excess == old(excess) && tail == old(tail)
        invariant result == old(requests)[..i] && requests == old(requests)[i..]
      {
        var request := Dequeue();
        if request.Some? { result := result + [request.value]; }
      }
      if |result| > TARGET_REQUESTS {
        if excess + (|result| - TARGET_REQUESTS) > U64_MAX { return result, false; }
        excess := excess + (|result| - TARGET_REQUESTS);
      } else if excess > 0 {
        var down := TARGET_REQUESTS - |result|;
        excess := if excess > down then excess - down else 0;
      }
    }
  }

  // ----- blob gas -----

  const BLOB_FEE_FRACTION: nat := 3338477
  const OLD_TARGET_BLOB_GAS: nat := 393216
  const TARGET_BLOB_GAS: nat := 786432

  datatype BlobGasConfig = BlobGasConfig(target: U64, minFee: U64, fraction: U64)

  const PRE_7691 := BlobGasConfig(OLD_TARGET_BLOB_GAS, 1, BLOB_FEE_FRACTION)
  const POST_7691 := BlobGasConfig(TARGET_BLOB_GAS, 1, BLOB_FEE_FRACTION)

  method CalculateExcessBlobGas(parentExcess: U64, parentUsed: U64, config: BlobGasConfig) returns (r: Option<U64>)
    ensures if parentExcess + parentUsed < TWO_64
            then r.Some? && r.value == Excess(parentExcess, parentUsed, config.target) else r == None
  {
    if parentExcess + parentUsed >= TWO_64 { return None; }
    var excess: U64 := parentExcess + parentUsed;
    if excess < config.target { return Some(0); }
    return Some(excess - config.target);
  }

  method CalculateBlobBaseFee(excess: U64, config: BlobGasConfig) returns (r: Option<nat>)
    ensures config.fraction > 0 ==>
              r == if Exp.Fits(config.minFee, excess, config.fraction)
                   then Some(Exp.Value(config.minFee, excess, config.fraction)) else None
    ensures config.fraction == 0 ==> r == None
  {
    r := Exp.Compute(config.minFee, excess, config.fraction);
  }

  /** A block of `blobs` blobs of 131072 gas moves the excess by its blobs less 3, or less 6 since the increase. */
  lemma ExcessByBlobs(excess: nat, blobs: nat)
    ensures Excess(131_072 * excess, 131_072 * blobs, PRE_7691.target) == if excess + blobs < 3 then 0 else 131_072 * (excess + blobs - 3)
    ensures Excess(131_072 * excess, 131_072 * blobs, POST_7691.target) == if excess + blobs < 6 then 0 else 131_072 * (excess + blobs - 6)
  {
  }

  /** With either configuration the blob base fee is computed without overflow up to 16 fractions. */
  lemma BlobFeeFits(excess: nat, config: BlobGasConfig)
    requires (config == PRE_7691 || config == POST_7691) && excess <= 53_415_632
    ensures config.minFee == 1 && 16 * config.fraction == 53_415_632 && Exp.Fits(1, excess, config.fraction)
  {
    hide Pow2;
    SmallConstants();
    Exp.SmallNumeratorsFit(1, excess, BLOB_FEE_FRACTION);
  }
}
