/** What a score is worth, why bundles are excluded, when the auction stops and when it fails. */
module AuctionLaws {
  import opened Wrappers
  import opened Words
  import opened Auction

  /** A transaction priced at or below 30 gwei adds nothing to a score, and each wei above adds its gas limit. */
  lemma ScoreLaw(txs: seq<Transaction>, tx: Transaction, min: nat, max: nat)
    ensures Score(Bundle([], min, max)) == 0 && Gas(Bundle([], min, max)) == 0
    ensures Score(Bundle(txs + [tx], min, max)) ==
            Score(Bundle(txs, min, max)) + (if tx.gasPrice <= 30_000_000_000 then 0 else (tx.gasPrice - 30_000_000_000) * tx.gasLimit)
    ensures Gas(Bundle(txs + [tx], min, max)) == Gas(Bundle(txs, min, max)) + tx.gasLimit
  {
    assert (txs + [tx])[..|txs|] == txs;
  }

  /** The order of the transactions does not matter to score and gas: both are sums. */
  lemma {:induction false} SumsSplit(a: seq<Transaction>, b: seq<Transaction>, baseFee: nat)
    ensures ValueOf(a + b, baseFee) == ValueOf(a, baseFee) + ValueOf(b, baseFee) && GasOf(a + b) == GasOf(a) + GasOf(b)
  {
    hide EffectiveTip;
    if b == [] {
      assert a + b == a;
    } else {
      var n := |b| - 1;
      SumsSplit(a, b[..n], baseFee);
      assert (a + b)[..|a + b| - 1] == a + b[..n];
    }
  }

  /** Some transaction of `b` has a known sender that is also the sender of one of the winners' transactions. */
  ghost predicate SharesSender(b: Bundle, winners: seq<Bundle>) {
    exists i, j, k :: && 0 <= i < |b.transactions| && 0 <= j < |winners| && 0 <= k < |winners[j].transactions|
                      && b.transactions[i].sender.Some? && b.transactions[i].sender == winners[j].transactions[k].sender
  }

  lemma {:induction false} SendersOfAll(bs: seq<Bundle>, a: Address)
    ensures a in AllSenders(bs) <==> exists j, k :: 0 <= j < |bs| && 0 <= k < |bs[j].transactions| && bs[j].transactions[k].sender == Some(a)
  {
    if bs != [] {
      var n := |bs| - 1;
      SendersOfAll(bs[..n], a);
      if a in AllSenders(bs[..n]) {
        var j, k :| 0 <= j < n && 0 <= k < |bs[..n][j].transactions| && bs[..n][j].transactions[k].sender == Some(a);
        assert bs[j].transactions[k].sender == Some(a);
      }
      if a in Senders(bs[n]) {
        var k :| 0 <= k < |bs[n].transactions| && bs[n].transactions[k].sender.Some? && bs[n].transactions[k].sender.value == a;
        assert bs[n].transactions[k].sender == Some(a);
      }
      if j, k :| 0 <= j < |bs| && 0 <= k < |bs[j].transactions| && bs[j].transactions[k].sender == Some(a) {
        if j < n {
          assert bs[..n][j].transactions[k].sender == Some(a);
        } else {
          assert bs[n].transactions[k].sender.Some?;
        }
      }
    }
  }

  lemma ConflictIsShared(b: Bundle, winners: seq<Bundle>)
    ensures Senders(b) * AllSenders(winners) != {} <==> SharesSender(b, winners)
  {
    if a :| a in Senders(b) * AllSenders(winners) {
      SendersOfAll(winners, a);
      var i :| 0 <= i < |b.transactions| && b.transactions[i].sender.Some? && b.transactions[i].sender.value == a;
      assert b.transactions[i].sender == Some(a);
    }
    if i, j, k :| && 0 <= i < |b.transactions| && 0 <= j < |winners| && 0 <= k < |winners[j].transactions|
                  && b.transactions[i].sender.Some? && b.transactions[i].sender == winners[j].transactions[k].sender {
      var a := b.transactions[i].sender.value;
      SendersOfAll(winners, a);
      assert winners[j].transactions[k].sender == Some(a);
      assert a in Senders(b) * AllSenders(winners);
    }
  }

  /**
   What becomes of the next bundle, said of the winners so far: too much gas, else a shared sender, else too little
   value, else the whole auction fails on an unknown sender, else it is the next winner.
   */
  lemma ConsiderLaw(a: Config, limit: nat, t: Tally, b: Bundle)
    requires Sound(a, limit, t)
    ensures var r := Consider(a, limit, t, b);
            var fits, shares := SumGas(t.selected) + Gas(b) <= limit, SharesSender(b, t.selected);
            && (r == Some(t.(excluded := t.excluded + [(b, GasLimit)], seen := t.seen + 1)) <==> !fits)
            && (r == Some(t.(excluded := t.excluded + [(b, Conflict)], seen := t.seen + 1)) <==> fits && shares)
            && (r == Some(t.(excluded := t.excluded + [(b, InsufficientValue)], seen := t.seen + 1)) <==>
                fits && !shares && Score(b) < a.minBidIncrement)
            && (r == None <==> fits && !shares && Score(b) >= a.minBidIncrement && exists i :: 0 <= i < |b.transactions| && b.transactions[i].sender == None)
            && (r.Some? && fits && !shares && Score(b) >= a.minBidIncrement ==>
                  && r.value.selected == t.selected + [b] && r.value.excluded == t.excluded && r.value.seen == t.seen + 1
                  && r.value.gas == SumGas(t.selected) + Gas(b) && r.value.value == SumScore(t.selected) + Score(b))
  {
    ConflictIsShared(b, t.selected);
    assert forall r, r' :: r != r' ==> (t.excluded + [(b, r)])[|t.excluded|] != (t.excluded + [(b, r')])[|t.excluded|];
    assert forall r :: |t.excluded + [(b, r)]| == |t.excluded| + 1;
    hide Senders, Gas, Score, SumGas, SumScore, AllSenders, SharesSender, DisjointSenders;
  }

  /** At every moment at most the cap and at least one are selected; and it is only the cap that stops the loop. */
  lemma {:induction false} CapLaw(a: Config, limit: nat, bs: seq<Bundle>, start: Tally, k: nat)
    requires k <= |bs| && start.selected == [] && start.seen == 0 && Select(a, limit, bs, start, k).Some?
    ensures var t := Select(a, limit, bs, start, k).value;
            && |t.selected| <= (if a.maxBundles > 1 then a.maxBundles else 1)
            && t.seen <= k && (t.seen < k ==> |t.selected| == if a.maxBundles > 1 then a.maxBundles else 1)
  {
    hide Senders, Gas, Score, AllRecovered;
    if k > 0 { CapLaw(a, limit, bs, start, k - 1); }
  }

  /**
   The auction fails exactly when some bundle reached before the cap and the deadline has the gas, shares no sender
   with the winners before it, is worth enough, and has an unknown sender.
   */
  lemma {:induction false} FailsExactly(a: Config, limit: nat, bs: seq<Bundle>, start: Tally, k: nat)
    requires k <= |bs| && Sound(a, limit, start)
    ensures Select(a, limit, bs, start, k) == None <==>
            exists i :: && 0 <= i < k && Select(a, limit, bs, start, i).Some?
                        && Refuses(a, limit, Select(a, limit, bs, start, i).value, bs[i])
  {
    hide Consider, Sound, Refuses, Stopped;
    if k > 0 {
      FailsExactly(a, limit, bs, start, k - 1);
      var before := Select(a, limit, bs, start, k - 1);
      if before.Some? {
        SelectionIsSound(a, limit, bs, start, k - 1);
        RefusesExactly(a, limit, before.value, bs[k - 1]);
      }
    }
  }

  lemma RefusesExactly(a: Config, limit: nat, t: Tally, b: Bundle)
    requires Sound(a, limit, t)
    ensures Refuses(a, limit, t, b) <==> !Stopped(a, t) && Consider(a, limit, t, b) == None
  {
    hide Consider, Sound, SharesSender, SumGas, Gas, Score;
    ConsiderLaw(a, limit, t, b);
  }

  /** `b` would be taken next, but for an unknown sender. */
  ghost predicate Refuses(a: Config, limit: nat, t: Tally, b: Bundle) {
    && (t.selected == [] || |t.selected| < a.maxBundles)
    && SumGas(t.selected) + Gas(b) <= limit && !SharesSender(b, t.selected) && Score(b) >= a.minBidIncrement
    && exists i :: 0 <= i < |b.transactions| && b.transactions[i].sender == None
  }

  /** Winners have transactions, a block range, no transaction hash twice and known senders. */
  lemma WinnersAreValid(a: Config, bundles: seq<Bundle>, limit: nat, r: AuctionResult, i: nat)
    requires FairResult(a, bundles, limit, r) && i < |r.winners|
    ensures var b := r.winners[i];
            && |b.transactions| > 0 && b.minBlock <= b.maxBlock
            && (forall j, k :: 0 <= j < k < |b.transactions| ==> b.transactions[j].hash != b.transactions[k].hash)
            && (forall j :: 0 <= j < |b.transactions| ==> b.transactions[j].sender.Some?)
  {
  }

  /** A bundle is invalid, and excluded as such, exactly when one of the three tests fails. */
  lemma InvalidExactly(bs: seq<Bundle>, b: Bundle)
    ensures var bad := b.transactions == [] || b.maxBlock < b.minBlock
                       || exists j, k :: 0 <= j < k < |b.transactions| && b.transactions[j].hash == b.transactions[k].hash;
            if bad then InvalidOnes(bs + [b]) == InvalidOnes(bs) + [(b, Invalid)] && ValidOnes(bs + [b]) == ValidOnes(bs)
            else InvalidOnes(bs + [b]) == InvalidOnes(bs) && ValidOnes(bs + [b]) == ValidOnes(bs) + [b]
  {
    assert (bs + [b])[..|bs|] == bs;
  }
}
