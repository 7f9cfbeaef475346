/** The block assembler: the auction's winners first, then mempool transactions that still fit. */
module BlockBuilder {
  import opened Wrappers
  import opened Words
  import S = Sorting
  import opened Auction
  import BaseFee

  type Transactions = seq<Transaction>

  /** The winners' transactions, bundle after bundle. */
  function Flatten(bs: seq<Bundle>): Transactions {
    if bs == [] then [] else Flatten(bs[..|bs| - 1]) + bs[|bs| - 1].transactions
  }

  lemma {:induction false} GasOfConcat(a: Transactions, b: Transactions)
    ensures GasOf(a + b) == GasOf(a) + GasOf(b)
  {
    if b == [] {
      assert a + b == a;
    } else {
      var n := |b| - 1;
      assert (a + b)[..|a + b| - 1] == a + b[..n];
      GasOfConcat(a, b[..n]);
    }
  }

  lemma {:induction false} FlattenGas(bs: seq<Bundle>)
    ensures GasOf(Flatten(bs)) == SumGas(bs)
  {
    if bs != [] {
      FlattenGas(bs[..|bs| - 1]);
      GasOfConcat(Flatten(bs[..|bs| - 1]), bs[|bs| - 1].transactions);
    }
  }

  lemma {:induction false} PrefixGas(bs: seq<Bundle>, i: nat)
    requires i <= |bs|
    ensures SumGas(bs[..i]) <= SumGas(bs)
  {
    if i == |bs| {
      assert bs[..i] == bs;
    } else {
      PrefixGas(bs[..|bs| - 1], i);
      assert bs[..|bs| - 1][..i] == bs[..i];
    }
  }

  // ----- the mempool -----

  predicate ByPriority(txs: Transactions) {
    forall i, j :: 0 <= i < j < |txs| ==> txs[i].priority >= txs[j].priority
  }

  function PriorityRank(tx: Transaction): int { -(tx.priority as int) }

  /** The stable sort by falling priority fee. */
  function SortByPriority(txs: Transactions): Transactions {
    S.Sort(txs, PriorityRank)
  }

  lemma SortByPrioritySorts(txs: Transactions)
    ensures ByPriority(SortByPriority(txs)) && multiset(SortByPriority(txs)) == multiset(txs)
  {
    S.SortSorts(txs, PriorityRank);
    var r := SortByPriority(txs);
    forall i, j | 0 <= i < j < |r|
      ensures r[i].priority >= r[j].priority
    {
      assert PriorityRank(r[i]) <= PriorityRank(r[j]);
    }
  }

  /** The transactions taken, in order, when `used` gas is gone already and at most `limit` may be. */
  function Fill(txs: Transactions, used: nat, limit: nat): Transactions {
    if txs == [] then []
    else
      var taken, tx := Fill(txs[..|txs| - 1], used, limit), txs[|txs| - 1];
      if used + GasOf(taken) + tx.gasLimit <= limit then taken + [tx] else taken
  }

  /** The transactions passed over. */
  function PassedOver(txs: Transactions, used: nat, limit: nat): Transactions {
    if txs == [] then []
    else
      var taken, tx := Fill(txs[..|txs| - 1], used, limit), txs[|txs| - 1];
      var rest := PassedOver(txs[..|txs| - 1], used, limit);
      if used + GasOf(taken) + tx.gasLimit <= limit then rest else rest + [tx]
  }

  lemma GasOfAppend(txs: Transactions, tx: Transaction)
    ensures GasOf(txs + [tx]) == GasOf(txs) + tx.gasLimit
  {
    assert (txs + [tx])[..|txs|] == txs;
  }

  /** What is taken fits, and nothing passed over would still fit beside it. */
  lemma {:induction false} FillIsMaximal(txs: Transactions, used: nat, limit: nat)
    requires used <= limit
    ensures used + GasOf(Fill(txs, used, limit)) <= limit
    ensures forall i :: 0 <= i < |PassedOver(txs, used, limit)| ==>
              used + GasOf(Fill(txs, used, limit)) + PassedOver(txs, used, limit)[i].gasLimit > limit
  {
    if txs != [] {
      var n := |txs| - 1;
      FillIsMaximal(txs[..n], used, limit);
      GasOfAppend(Fill(txs[..n], used, limit), txs[n]);
    }
  }

  /** Taken and passed over are together the whole mempool. */
  lemma {:induction false} FillConserves(txs: Transactions, used: nat, limit: nat)
    ensures multiset(Fill(txs, used, limit)) + multiset(PassedOver(txs, used, limit)) == multiset(txs)
  {
    hide GasOf;
    if txs != [] {
      var n := |txs| - 1;
      FillConserves(txs[..n], used, limit);
      assert txs == txs[..n] + [txs[n]];
    }
  }

  /** What is taken keeps the order it had, and nothing else gets in. */
  lemma {:induction false} FillKeepsOrder(txs: Transactions, used: nat, limit: nat)
    requires ByPriority(txs)
    ensures ByPriority(Fill(txs, used, limit))
    ensures forall tx :: tx in Fill(txs, used, limit) ==> tx in txs
  {
    hide GasOf;
    if txs != [] {
      var n := |txs| - 1;
      var taken := Fill(txs[..n], used, limit);
      FillKeepsOrder(txs[..n], used, limit);
      forall i | 0 <= i < |taken|
        ensures taken[i].priority >= txs[n].priority
      {
        assert taken[i] in txs[..n];
      }
    }
  }

  // ----- assembling -----

  datatype Built = Built(transactions: Transactions, gasUsed: nat)

  method EstimateBundleGas(b: Bundle) returns (gas: Option<nat>)
    ensures gas == if Gas(b) <= U64_MAX then Some(Gas(b)) else None
  {
    gas := TotalGas(b);
  }

  method ApplyBundle(txs: Transactions, b: Bundle) returns (r: Transactions)
    ensures r == txs + b.transactions
  {
    r := txs;
    for i := 0 to |b.transactions|
      invariant r == txs + b.transactions[..i]
    {
      r := r + [b.transactions[i]];
    }
  }

  /** Phase one never leaves a winner out, because the auction kept to the same limit. */
  method IncludeWinners(winners: seq<Bundle>, limit: nat) returns (txs: Transactions, gasUsed: nat)
    requires SumGas(winners) <= limit <= U64_MAX
    ensures txs == Flatten(winners) && gasUsed == SumGas(winners)
  {
    txs, gasUsed := [], 0;
    for i := 0 to |winners|
      invariant txs == Flatten(winners[..i]) && gasUsed == SumGas(winners[..i])
    {
      var gas := EstimateBundleGas(winners[i]);
      assert winners[..i + 1][..i] == winners[..i];
      PrefixGas(winners, i + 1);
      if gasUsed + gas.value <= limit {
        txs := ApplyBundle(txs, winners[i]);
        gasUsed := gasUsed + gas.value;
      }
    }
    assert winners[..|winners|] == winners;
  }

  /** Adding the gas of some transaction considered leaves 64 bits, which aborts. */
  predicate FillAborts(txs: Transactions, used: nat, limit: nat) {
    txs != [] &&
    (FillAborts(txs[..|txs| - 1], used, limit) ||
     used + GasOf(Fill(txs[..|txs| - 1], used, limit)) + txs[|txs| - 1].gasLimit > U64_MAX)
  }

  lemma {:induction false} FillAbortPersists(txs: Transactions, used: nat, limit: nat, i: nat)
    requires i <= |txs| && FillAborts(txs[..i], used, limit)
    ensures FillAborts(txs, used, limit)
  {
    hide GasOf, Fill;
    if i == |txs| {
      assert txs[..i] == txs;
    } else {
      assert txs[..|txs| - 1][..i] == txs[..i];
      FillAbortPersists(txs[..|txs| - 1], used, limit, i);
    }
  }

  /** It does not when every transaction's gas fits 64 bits beside the limit. */
  lemma {:induction false} FillFits(txs: Transactions, used: nat, limit: nat)
    requires used <= limit && forall i :: 0 <= i < |txs| ==> limit + txs[i].gasLimit <= U64_MAX
    ensures !FillAborts(txs, used, limit)
  {
    if txs != [] {
      FillFits(txs[..|txs| - 1], used, limit);
      FillIsMaximal(txs[..|txs| - 1], used, limit);
    }
  }

  lemma FillStep(txs: Transactions, used: nat, limit: nat, i: nat)
    requires i < |txs|
    ensures var taken := Fill(txs[..i], used, limit);
            && Fill(txs[..i + 1], used, limit) ==
               (if used + GasOf(taken) + txs[i].gasLimit <= limit then taken + [txs[i]] else taken)
            && (FillAborts(txs[..i + 1], used, limit) <==>
                FillAborts(txs[..i], used, limit) || used + GasOf(taken) + txs[i].gasLimit > U64_MAX)
  {
    hide GasOf;
    assert txs[..i + 1][..i] == txs[..i];
  }

  /** The second phase; `None` is an abort. */
  method FillFromMempool(sorted: Transactions, used: nat, limit: nat) returns (r: Option<(Transactions, nat)>)
    ensures r == if FillAborts(sorted, used, limit) then None
                 else Some((Fill(sorted, used, limit), used + GasOf(Fill(sorted, used, limit))))
  {
    var txs: Transactions, gasUsed := [], used;
    assert sorted[..0] == [] && sorted[..|sorted|] == sorted;
    assert Fill([], used, limit) == [] && !FillAborts([], used, limit) && GasOf([]) == 0;
    hide Fill, FillAborts, GasOf;
    for i := 0 to |sorted|
      invariant txs == Fill(sorted[..i], used, limit) && gasUsed == used + GasOf(txs)
      invariant !FillAborts(sorted[..i], used, limit)
    {
      FillStep(sorted, used, limit, i);
      if gasUsed + sorted[i].gasLimit > U64_MAX {
        FillAbortPersists(sorted, used, limit, i + 1);
        return None;
      }
      if gasUsed + sorted[i].gasLimit <= limit {
        GasOfAppend(txs, sorted[i]);
        txs := txs + [sorted[i]];
        gasUsed := gasUsed + sorted[i].gasLimit;
      }
    }
    return Some((txs, gasUsed));
  }

  /** The block the assembler makes of these winners. */
  function Assembled(winners: seq<Bundle>, mempool: Transactions, limit: nat): Built {
    var txs := Flatten(winners) + Fill(SortByPriority(mempool), SumGas(winners), limit);
    Built(txs, GasOf(txs))
  }

  /**
   The header's gas is the sum over the included transactions and within the limit; after the winners come
   mempool transactions in order of priority; and none that was passed over would still fit.
   */
  lemma AssembledIsRight(winners: seq<Bundle>, mempool: Transactions, limit: nat)
    requires SumGas(winners) <= limit
    ensures var block, sorted := Assembled(winners, mempool, limit), SortByPriority(mempool);
            var rest := PassedOver(sorted, SumGas(winners), limit);
            && block.gasUsed == GasOf(block.transactions) <= limit
            && Flatten(winners) <= block.transactions
            && ByPriority(block.transactions[|Flatten(winners)|..])
            && multiset(block.transactions[|Flatten(winners)|..]) + multiset(rest) == multiset(mempool)
            && forall i :: 0 <= i < |rest| ==> block.gasUsed + rest[i].gasLimit > limit
  {
    var sorted, used := SortByPriority(mempool), SumGas(winners);
    var taken := Fill(sorted, used, limit);
    SortByPrioritySorts(mempool);
    FlattenGas(winners);
    GasOfConcat(Flatten(winners), taken);
    FillIsMaximal(sorted, used, limit);
    FillConserves(sorted, used, limit);
    FillKeepsOrder(sorted, used, limit);
    assert (Flatten(winners) + taken)[|Flatten(winners)|..] == taken;
  }

  // ----- transactions in a block twice -----

  predicate NoRepeats(txs: Transactions) {
    forall i, j :: 0 <= i < j < |txs| ==> txs[i] != txs[j]
  }

  lemma RepeatsConcat(a: Transactions, b: Transactions)
    ensures NoRepeats(a + b) <==> NoRepeats(a) && NoRepeats(b) && forall tx :: tx in b ==> tx !in a
  {
    var s := a + b;
    if NoRepeats(s) {
      forall i, j | 0 <= i < j < |a| ensures a[i] != a[j] { assert s[i] == a[i] && s[j] == a[j]; }
      forall i, j | 0 <= i < j < |b| ensures b[i] != b[j] { assert s[|a| + i] == b[i] && s[|a| + j] == b[j]; }
      forall i, j | 0 <= i < |a| && 0 <= j < |b| ensures a[i] != b[j] { assert s[i] == a[i] && s[|a| + j] == b[j]; }
    }
    if NoRepeats(a) && NoRepeats(b) && forall tx :: tx in b ==> tx !in a {
      forall i, j | 0 <= i < j < |s|
        ensures s[i] != s[j]
      {
        if j >= |a| { assert s[j] == b[j - |a|]; }
        if i < |a| { assert s[i] in a; } else { assert s[i] == b[i - |a|]; }
      }
    }
  }

  lemma {:induction false} FlattenMember(bs: seq<Bundle>, tx: Transaction) returns (i: nat)
    requires tx in Flatten(bs)
    ensures i < |bs| && tx in bs[i].transactions
  {
    var n := |bs| - 1;
    if tx in bs[n].transactions { i := n; } else { i := FlattenMember(bs[..n], tx); }
  }

  lemma SenderOf(b: Bundle, tx: Transaction)
    requires tx in b.transactions && AllRecovered(b)
    ensures tx.sender.Some? && tx.sender.value in Senders(b)
  {
    var i :| 0 <= i < |b.transactions| && b.transactions[i] == tx;
    assert b.transactions[i].sender.Some?;
  }

  /** The winners of an auction share no transaction, because they share no sender. */
  lemma {:induction false} WinnersDoNotRepeat(bs: seq<Bundle>)
    requires DisjointSenders(bs) && forall i :: 0 <= i < |bs| ==> ValidBundle(bs[i]) && AllRecovered(bs[i])
    ensures NoRepeats(Flatten(bs))
  {
    hide Senders, AllRecovered;
    if bs != [] {
      var n := |bs| - 1;
      WinnersDoNotRepeat(bs[..n]);
      RepeatsConcat(Flatten(bs[..n]), bs[n].transactions);
      assert NoRepeats(bs[n].transactions);
      forall tx | tx in bs[n].transactions
        ensures tx !in Flatten(bs[..n])
      {
        if tx in Flatten(bs[..n]) {
          var i := FlattenMember(bs[..n], tx);
          SenderOf(bs[i], tx);
          SenderOf(bs[n], tx);
        }
      }
    }
  }

  /**
   A block has a transaction twice exactly when one is taken from the mempool twice, or one taken from it is in
   a winning bundle as well.
   */
  lemma RepeatsExactly(a: Config, pool: seq<Bundle>, mempool: Transactions, limit: nat, r: AuctionResult)
    requires FairResult(a, pool, limit, r)
    ensures var taken := Fill(SortByPriority(mempool), SumGas(r.winners), limit);
            NoRepeats(Assembled(r.winners, mempool, limit).transactions) <==>
            NoRepeats(taken) && forall tx :: tx in taken ==> tx !in Flatten(r.winners)
  {
    hide Flatten, Fill, SortByPriority, SumGas, NoRepeats;
    WinnersDoNotRepeat(r.winners);
    RepeatsConcat(Flatten(r.winners), Fill(SortByPriority(mempool), SumGas(r.winners), limit));
  }

  /** A transaction in a bundle and in the mempool, and room for both. */
  lemma BundledAndPooled(tx: Transaction)
    requires tx.gasLimit == 1
    ensures Assembled([Bundle([tx], 0, 0)], [tx], 2).transactions == [tx, tx]
  {
    var b := Bundle([tx], 0, 0);
    assert [b][..0] == [] && [tx][..0] == [];
    assert GasOf([]) == 0 && SumGas([]) == 0 && Flatten([]) == [] && [] + [tx] == [tx];
    assert GasOf([tx]) == 1;
    assert SumGas([b]) == 1;
    assert Flatten([b]) == [tx];
    S.SortedIsFixed([tx], PriorityRank);
    assert Fill([], 1, 2) == [] && Fill([tx], 1, 2) == [tx];
  }

  lemma FairWithinLimit(a: Config, pool: seq<Bundle>, limit: nat, r: AuctionResult)
    requires FairResult(a, pool, limit, r)
    ensures SumGas(r.winners) <= limit
  {
  }

  /** The header fields that are computed and not copied, apart from the gas used. */
  datatype Header = Header(number: Word, gasLimit: U64, baseFee: nat)

  /** How assembling ends: a block, a failed auction, or an overflow. */
  datatype BuildEnd = Block(header: Header, built: Built) | AuctionFailed | BuildAborted

  /** The empty block's header; `None` is an abort. */
  function EmptyHeader(parent: BaseFee.Parent, parentNumber: Word, gasLimit: U64): Option<Header> {
    match BaseFee.BuilderBaseFee(parent)
    case None => None
    case Some(fee) => if parentNumber + 1 < TWO_256 then Some(Header(parentNumber + 1, gasLimit, fee)) else None
  }

  /**
   The block: every winner of the auction in order, then the mempool as far as it fits.
   */
  method BuildOptimalBlock(
    a: Config, parent: BaseFee.Parent, parentNumber: Word, pool: seq<Bundle>, mempool: Transactions,
    maxGasLimit: U64, gasLimit: U64, cut: nat)
    returns (r: BuildEnd)
    ensures EmptyHeader(parent, parentNumber, gasLimit) == None ==> r == BuildAborted
    ensures EmptyHeader(parent, parentNumber, gasLimit).Some? ==>
            var limit := if maxGasLimit < gasLimit then maxGasLimit else gasLimit;
            match Outcome(a, pool, limit, cut)
            case Aborted => r == BuildAborted
            case Failed => r == AuctionFailed
            case Done(auction) =>
              && SumGas(auction.winners) <= limit
              && r == if FillAborts(SortByPriority(mempool), SumGas(auction.winners), limit) then BuildAborted
                      else Block(EmptyHeader(parent, parentNumber, gasLimit).value, Assembled(auction.winners, mempool, limit))
  {
    hide Outcome, FairResult, GasOf, SumGas, Fill, Flatten, SortByPriority, FillAborts, EmptyHeader;
    var header := EmptyHeader(parent, parentNumber, gasLimit);
    if header == None { return BuildAborted; }
    var limit := if maxGasLimit < gasLimit then maxGasLimit else gasLimit;
    var end := Auction.Run(a, pool, limit, cut);
    if end == Failed { return AuctionFailed; }
    if end == Aborted { return BuildAborted; }
    FairWithinLimit(a, pool, limit, end.result);
    var winners := end.result.winners;
    var txs, used := IncludeWinners(winners, limit);
    var filled := FillFromMempool(SortByPriority(mempool), used, limit);
    if filled == None { return BuildAborted; }
    FlattenGas(winners);
    GasOfConcat(txs, filled.value.0);
    return Block(header.value, Built(txs + filled.value.0, filled.value.1));
  }
}
