/** The bundle auction: validate, sort by value, and take bundles greedily under gas, sender and value rules. */
module Auction {
  import opened Wrappers
  import opened Words
  import S = Sorting

  const BASE_FEE_ESTIMATE: nat := 30_000_000_000

  /** `sender` is the stated signer or the one recovered from the signature, if that succeeds. */
  datatype Transaction = Transaction(hash: Word, gasLimit: Word, gasPrice: Word, priority: Word, sender: Option<Address>)

  datatype Bundle = Bundle(transactions: seq<Transaction>, minBlock: nat, maxBlock: nat)

  datatype Config = Config(minBidIncrement: Word, maxBundles: nat)

  datatype Reason = Conflict | InsufficientValue | GasLimit | Invalid

  type Exclusion = (Bundle, Reason)

  // ----- bundles -----

  function GasOf(txs: seq<Transaction>): nat {
    if txs == [] then 0 else GasOf(txs[..|txs| - 1]) + txs[|txs| - 1].gasLimit
  }

  function EffectiveTip(tx: Transaction, baseFee: nat): nat {
    if tx.gasPrice > baseFee then tx.gasPrice - baseFee else 0
  }

  function ValueOf(txs: seq<Transaction>, baseFee: nat): nat {
    if txs == [] then 0
    else ValueOf(txs[..|txs| - 1], baseFee) + EffectiveTip(txs[|txs| - 1], baseFee) * txs[|txs| - 1].gasLimit
  }

  function Gas(b: Bundle): nat { GasOf(b.transactions) }

  function Score(b: Bundle): nat { ValueOf(b.transactions, BASE_FEE_ESTIMATE) }

  function Senders(b: Bundle): set<Address> {
    set i | 0 <= i < |b.transactions| && b.transactions[i].sender.Some? :: b.transactions[i].sender.value
  }

  predicate AllRecovered(b: Bundle) {
    forall i :: 0 <= i < |b.transactions| ==> b.transactions[i].sender.Some?
  }

  predicate DistinctHashes(txs: seq<Transaction>) {
    forall i, j :: 0 <= i < j < |txs| ==> txs[i].hash != txs[j].hash
  }

  predicate ValidBundle(b: Bundle) {
    b.transactions != [] && b.minBlock <= b.maxBlock && DistinctHashes(b.transactions)
  }

  lemma {:induction false} ValueOfPrefix(txs: seq<Transaction>, baseFee: nat, i: nat)
    requires i <= |txs|
    ensures ValueOf(txs[..i], baseFee) <= ValueOf(txs, baseFee)
  {
    hide EffectiveTip;
    if i == |txs| {
      assert txs[..i] == txs;
    } else {
      ValueOfPrefix(txs[..|txs| - 1], baseFee, i);
      assert txs[..|txs| - 1][..i] == txs[..i];
    }
  }

  lemma {:induction false} GasOfPrefix(txs: seq<Transaction>, i: nat)
    requires i <= |txs|
    ensures GasOf(txs[..i]) <= GasOf(txs)
  {
    if i == |txs| {
      assert txs[..i] == txs;
    } else {
      GasOfPrefix(txs[..|txs| - 1], i);
      assert txs[..|txs| - 1][..i] == txs[..i];
    }
  }

  /** The score needs no more than 256 bits; `None` is an abort. */
  method ScoringValue(b: Bundle, baseFee: nat) returns (value: Option<nat>)
    ensures value == if ValueOf(b.transactions, baseFee) < TWO_256 then Some(ValueOf(b.transactions, baseFee)) else None
  {
    hide EffectiveTip;
    var sum := 0;
    for i := 0 to |b.transactions|
      invariant sum == ValueOf(b.transactions[..i], baseFee) < TWO_256
    {
      var more := EffectiveTip(b.transactions[i], baseFee) * b.transactions[i].gasLimit;
      assert b.transactions[..i + 1][..i] == b.transactions[..i];
      ValueOfPrefix(b.transactions, baseFee, i + 1);
      if more >= TWO_256 || sum + more >= TWO_256 { return None; }
      sum := sum + more;
    }
    assert b.transactions[..|b.transactions|] == b.transactions;
    return Some(sum);
  }

  /** The gas needs no more than 64 bits; `None` is an abort. */
  method TotalGas(b: Bundle) returns (gas: Option<nat>)
    ensures gas == if Gas(b) <= U64_MAX then Some(Gas(b)) else None
  {
    var sum := 0;
    for i := 0 to |b.transactions|
      invariant sum == GasOf(b.transactions[..i]) <= U64_MAX
    {
      assert b.transactions[..i + 1][..i] == b.transactions[..i];
      GasOfPrefix(b.transactions, i + 1);
      if sum + b.transactions[i].gasLimit > U64_MAX { return None; }
      sum := sum + b.transactions[i].gasLimit;
    }
    assert b.transactions[..|b.transactions|] == b.transactions;
    return Some(sum);
  }

  method Validate(b: Bundle) returns (ok: bool)
    ensures ok == ValidBundle(b)
  {
    if b.transactions == [] || b.maxBlock < b.minBlock { return false; }
    var seen: set<Word> := {};
    for i := 0 to |b.transactions|
      invariant forall j :: 0 <= j < i ==> b.transactions[j].hash in seen
      invariant forall h :: h in seen ==> exists j :: 0 <= j < i && b.transactions[j].hash == h
      invariant forall j, k :: 0 <= j < k < i ==> b.transactions[j].hash != b.transactions[k].hash
    {
      if b.transactions[i].hash in seen { return false; }
      seen := seen + {b.transactions[i].hash};
    }
    return true;
  }

  // ----- sorting -----

  predicate Descending(bs: seq<Bundle>) {
    forall i, j :: 0 <= i < j < |bs| ==> Score(bs[i]) >= Score(bs[j])
  }

  function ScoreRank(b: Bundle): int { -(Score(b) as int) }

  /** The stable sort by falling score. */
  function SortByScore(bs: seq<Bundle>): seq<Bundle> {
    S.Sort(bs, ScoreRank)
  }

  lemma SortDescending(bs: seq<Bundle>)
    ensures Descending(SortByScore(bs)) && multiset(SortByScore(bs)) == multiset(bs)
  {
    hide Score;
    S.SortSorts(bs, ScoreRank);
    var r := SortByScore(bs);
    forall i, j | 0 <= i < j < |r|
      ensures Score(r[i]) >= Score(r[j])
    {
      assert ScoreRank(r[i]) <= ScoreRank(r[j]);
    }
  }

  // ----- greedy selection -----

  /** `seen` counts the bundles considered. */
  datatype Tally = Tally(selected: seq<Bundle>, excluded: seq<Exclusion>, gas: nat, value: nat, used: set<Address>, seen: nat)

  function Excluded(t: Tally, b: Bundle, r: Reason): Tally {
    t.(excluded := t.excluded + [(b, r)], seen := t.seen + 1)
  }

  function Selected(t: Tally, b: Bundle): Tally {
    Tally(t.selected + [b], t.excluded, t.gas + Gas(b), t.value + Score(b), t.used + Senders(b), t.seen + 1)
  }

  /** One bundle; `None` when a bundle to be taken has a sender that cannot be recovered, which fails the auction. */
  function Consider(a: Config, limit: nat, t: Tally, b: Bundle): Option<Tally> {
    if t.gas + Gas(b) > limit then Some(Excluded(t, b, GasLimit))
    else if Senders(b) * t.used != {} then Some(Excluded(t, b, Conflict))
    else if Score(b) < a.minBidIncrement then Some(Excluded(t, b, InsufficientValue))
    else if !AllRecovered(b) then None
    else Some(Selected(t, b))
  }

  /** The loop has stopped: enough bundles are selected. It only looks after taking one. */
  predicate Stopped(a: Config, t: Tally) {
    t.selected != [] && |t.selected| >= a.maxBundles
  }

  /** The tally when the deadline strikes before the bundle with index `k`. */
  function Select(a: Config, limit: nat, bs: seq<Bundle>, start: Tally, k: nat): Option<Tally>
    requires k <= |bs|
  {
    if k == 0 then Some(start)
    else
      match Select(a, limit, bs, start, k - 1)
      case None => None
      case Some(t) => if Stopped(a, t) then Some(t) else Consider(a, limit, t, bs[k - 1])
  }

  // ----- what every selection satisfies -----

  function SumGas(bs: seq<Bundle>): nat {
    if bs == [] then 0 else SumGas(bs[..|bs| - 1]) + Gas(bs[|bs| - 1])
  }

  function SumScore(bs: seq<Bundle>): nat {
    if bs == [] then 0 else SumScore(bs[..|bs| - 1]) + Score(bs[|bs| - 1])
  }

  function AllSenders(bs: seq<Bundle>): set<Address> {
    if bs == [] then {} else AllSenders(bs[..|bs| - 1]) + Senders(bs[|bs| - 1])
  }

  function BundlesOf(es: seq<Exclusion>): seq<Bundle> {
    if es == [] then [] else BundlesOf(es[..|es| - 1]) + [es[|es| - 1].0]
  }

  predicate DisjointSenders(bs: seq<Bundle>) {
    forall i, j :: 0 <= i < j < |bs| ==> Senders(bs[i]) !! Senders(bs[j])
  }

  /** The exclusion holds against a selection with this gas total and these senders. */
  predicate Justified(a: Config, limit: nat, gas: nat, used: set<Address>, e: Exclusion) {
    match e.1
    case GasLimit => gas + Gas(e.0) > limit
    case Conflict => Senders(e.0) * used != {}
    case InsufficientValue => Score(e.0) < a.minBidIncrement
    case Invalid => !ValidBundle(e.0)
  }

  ghost predicate Sound(a: Config, limit: nat, t: Tally) {
    && t.gas == SumGas(t.selected) <= limit
    && t.value == SumScore(t.selected)
    && t.used == AllSenders(t.selected)
    && DisjointSenders(t.selected)
    && (forall i :: 0 <= i < |t.selected| ==> Score(t.selected[i]) >= a.minBidIncrement && AllRecovered(t.selected[i]))
    && (forall i :: 0 <= i < |t.excluded| ==> Justified(a, limit, t.gas, t.used, t.excluded[i]))
  }

  lemma {:induction false} SendersOfMember(bs: seq<Bundle>, i: nat)
    requires i < |bs|
    ensures Senders(bs[i]) <= AllSenders(bs)
  {
    hide Senders;
    var n := |bs| - 1;
    if i < n { SendersOfMember(bs[..n], i); assert bs[..n][i] == bs[i]; }
  }

  lemma DisjointAppend(bs: seq<Bundle>, b: Bundle)
    requires DisjointSenders(bs) && Senders(b) * AllSenders(bs) == {}
    ensures DisjointSenders(bs + [b])
  {
    hide Senders;
    var s := bs + [b];
    forall i, j | 0 <= i < j < |s|
      ensures Senders(s[i]) !! Senders(s[j])
    {
      if j == |bs| {
        SendersOfMember(bs, i);
        assert forall x :: x in Senders(bs[i]) ==> x !in Senders(b) * AllSenders(bs);
      } else {
        assert Senders(bs[i]) !! Senders(bs[j]);
      }
    }
  }

  lemma SelectedIsSound(a: Config, limit: nat, t: Tally, b: Bundle)
    requires Sound(a, limit, t)
    requires t.gas + Gas(b) <= limit && Senders(b) * t.used == {} && Score(b) >= a.minBidIncrement && AllRecovered(b)
    ensures Sound(a, limit, Selected(t, b))
  {
    hide Senders, Gas, Score, AllRecovered, ValidBundle;
    var s := t.selected + [b];
    assert s[..|s| - 1] == t.selected;
    DisjointAppend(t.selected, b);
    forall i | 0 <= i < |t.excluded|
      ensures Justified(a, limit, t.gas + Gas(b), t.used + Senders(b), t.excluded[i])
    {
      assert Justified(a, limit, t.gas, t.used, t.excluded[i]);
    }
  }

  lemma ConsiderIsSound(a: Config, limit: nat, t: Tally, b: Bundle)
    requires Sound(a, limit, t) && Consider(a, limit, t, b).Some?
    ensures Sound(a, limit, Consider(a, limit, t, b).value)
  {
    hide Senders, Gas, Score, AllRecovered, ValidBundle;
    if t.gas + Gas(b) <= limit && Senders(b) * t.used == {} && Score(b) >= a.minBidIncrement {
      SelectedIsSound(a, limit, t, b);
    }
  }

  lemma {:induction false} SelectionIsSound(a: Config, limit: nat, bs: seq<Bundle>, start: Tally, k: nat)
    requires k <= |bs| && Sound(a, limit, start) && Select(a, limit, bs, start, k).Some?
    ensures Sound(a, limit, Select(a, limit, bs, start, k).value)
  {
    hide Sound, Consider;
    if k > 0 {
      SelectionIsSound(a, limit, bs, start, k - 1);
      var t := Select(a, limit, bs, start, k - 1).value;
      if !Stopped(a, t) { ConsiderIsSound(a, limit, t, bs[k - 1]); }
    }
  }

  /** Winners come in order of falling score, ahead of everything not yet considered. */
  ghost predicate Ordered(bs: seq<Bundle>, t: Tally) {
    && Descending(t.selected)
    && (forall i, j :: 0 <= i < |t.selected| && t.seen <= j < |bs| ==> Score(t.selected[i]) >= Score(bs[j]))
    && (forall i :: 0 <= i < |t.selected| ==> t.selected[i] in bs)
  }

  /** Nothing considered is lost. */
  ghost predicate Conserved(bs: seq<Bundle>, before: seq<Exclusion>, t: Tally) {
    && t.seen <= |bs|
    && multiset(t.selected) + multiset(BundlesOf(t.excluded)) == multiset(bs[..t.seen]) + multiset(BundlesOf(before))
  }

  lemma BundlesOfAppend(es: seq<Exclusion>, e: Exclusion)
    ensures BundlesOf(es + [e]) == BundlesOf(es) + [e.0]
  {
    assert (es + [e])[..|es|] == es;
  }

  lemma AddToBoth(p: multiset<Bundle>, q: multiset<Bundle>, x: multiset<Bundle>, y: multiset<Bundle>, b: Bundle)
    requires p + q == x + y
    ensures (p + multiset{b}) + q == (x + multiset{b}) + y && p + (q + multiset{b}) == (x + multiset{b}) + y
  {
    assert (p + multiset{b}) + q == (p + q) + multiset{b} && p + (q + multiset{b}) == (p + q) + multiset{b};
    assert (x + multiset{b}) + y == (x + y) + multiset{b};
  }

  lemma PrefixMultiset(bs: seq<Bundle>, k: nat)
    requires k < |bs|
    ensures multiset(bs[..k + 1]) == multiset(bs[..k]) + multiset{bs[k]}
  {
    assert bs[..k + 1] == bs[..k] + [bs[k]];
  }

  lemma ExcludedKeeps(bs: seq<Bundle>, before: seq<Exclusion>, t: Tally, r: Reason)
    requires t.seen < |bs| && Ordered(bs, t) && Conserved(bs, before, t)
    ensures Ordered(bs, Excluded(t, bs[t.seen], r)) && Conserved(bs, before, Excluded(t, bs[t.seen], r))
  {
    hide Score, BundlesOf;
    BundlesOfAppend(t.excluded, (bs[t.seen], r));
    PrefixMultiset(bs, t.seen);
    var b, t' := bs[t.seen], Excluded(t, bs[t.seen], r);
    assert multiset(BundlesOf(t'.excluded)) == multiset(BundlesOf(t.excluded)) + multiset{b};
    AddToBoth(multiset(t.selected), multiset(BundlesOf(t.excluded)), multiset(bs[..t.seen]), multiset(BundlesOf(before)), b);
  }

  lemma SelectedKeeps(bs: seq<Bundle>, before: seq<Exclusion>, t: Tally)
    requires t.seen < |bs| && Descending(bs) && Ordered(bs, t) && Conserved(bs, before, t)
    ensures Ordered(bs, Selected(t, bs[t.seen])) && Conserved(bs, before, Selected(t, bs[t.seen]))
  {
    hide Score, Gas, Senders, BundlesOf;
    PrefixMultiset(bs, t.seen);
    var b, t' := bs[t.seen], Selected(t, bs[t.seen]);
    assert multiset(t'.selected) == multiset(t.selected) + multiset{b};
    AddToBoth(multiset(t.selected), multiset(BundlesOf(t.excluded)), multiset(bs[..t.seen]), multiset(BundlesOf(before)), b);
  }

  lemma ConsiderKeeps(a: Config, limit: nat, bs: seq<Bundle>, before: seq<Exclusion>, t: Tally)
    requires t.seen < |bs| && Descending(bs) && Ordered(bs, t) && Conserved(bs, before, t)
    requires Consider(a, limit, t, bs[t.seen]).Some?
    ensures var t' := Consider(a, limit, t, bs[t.seen]).value;
            t'.seen == t.seen + 1 && Ordered(bs, t') && Conserved(bs, before, t')
  {
    hide Senders, Gas, Score, AllRecovered, Ordered, Conserved;
    ExcludedKeeps(bs, before, t, GasLimit);
    ExcludedKeeps(bs, before, t, Conflict);
    ExcludedKeeps(bs, before, t, InsufficientValue);
    SelectedKeeps(bs, before, t);
  }

  lemma StartIsAccounted(bs: seq<Bundle>, start: Tally)
    requires start.selected == [] && start.seen == 0
    ensures Ordered(bs, start) && Conserved(bs, start.excluded, start)
  {
    assert bs[..0] == [];
  }

  lemma {:induction false} SelectionIsAccounted(a: Config, limit: nat, bs: seq<Bundle>, start: Tally, k: nat)
    requires k <= |bs| && Descending(bs) && start.selected == [] && start.seen == 0
    requires Select(a, limit, bs, start, k).Some?
    ensures var t := Select(a, limit, bs, start, k).value;
            && Ordered(bs, t) && Conserved(bs, start.excluded, t)
            && t.seen <= k && (t.seen < k ==> Stopped(a, t))
  {
    hide Consider, Ordered, Conserved;
    if k == 0 {
      StartIsAccounted(bs, start);
    } else {
      SelectionIsAccounted(a, limit, bs, start, k - 1);
      var t := Select(a, limit, bs, start, k - 1).value;
      if !Stopped(a, t) { ConsiderKeeps(a, limit, bs, start.excluded, t); }
    }
  }

  // ----- the auction -----

  datatype AuctionResult = AuctionResult(winners: seq<Bundle>, totalValue: nat, gasUsed: nat, excluded: seq<Exclusion>)

  function ValidOnes(bs: seq<Bundle>): seq<Bundle> {
    if bs == [] then []
    else
      var rest, b := ValidOnes(bs[..|bs| - 1]), bs[|bs| - 1];
      if ValidBundle(b) then rest + [b] else rest
  }

  function InvalidOnes(bs: seq<Bundle>): seq<Exclusion> {
    if bs == [] then []
    else
      var rest, b := InvalidOnes(bs[..|bs| - 1]), bs[|bs| - 1];
      if ValidBundle(b) then rest else rest + [(b, Invalid)]
  }

  lemma {:induction false} PartitionIsWhole(bs: seq<Bundle>)
    ensures multiset(ValidOnes(bs)) + multiset(BundlesOf(InvalidOnes(bs))) == multiset(bs)
  {
    hide ValidBundle;
    if bs != [] {
      var n := |bs| - 1;
      PartitionIsWhole(bs[..n]);
      assert bs == bs[..n] + [bs[n]];
      if !ValidBundle(bs[n]) { BundlesOfAppend(InvalidOnes(bs[..n]), (bs[n], Invalid)); }
    }
  }

  lemma {:induction false} PartitionIsRight(bs: seq<Bundle>)
    ensures forall i :: 0 <= i < |ValidOnes(bs)| ==> ValidBundle(ValidOnes(bs)[i])
    ensures forall i :: 0 <= i < |InvalidOnes(bs)| ==> !ValidBundle(InvalidOnes(bs)[i].0) && InvalidOnes(bs)[i].1 == Invalid
  {
    hide ValidBundle;
    if bs != [] { PartitionIsRight(bs[..|bs| - 1]); }
  }

  function Start(bundles: seq<Bundle>): Tally {
    Tally([], InvalidOnes(bundles), 0, 0, {}, 0)
  }

  /** What the source promises of any successful auction, whenever its deadline strikes. */
  ghost predicate FairResult(a: Config, bundles: seq<Bundle>, limit: nat, r: AuctionResult) {
    && Descending(r.winners) && DisjointSenders(r.winners)
    && r.gasUsed == SumGas(r.winners) <= limit && r.totalValue == SumScore(r.winners)
    && (forall i :: 0 <= i < |r.winners| ==>
          ValidBundle(r.winners[i]) && AllRecovered(r.winners[i]) && Score(r.winners[i]) >= a.minBidIncrement)
    && (forall i :: 0 <= i < |r.excluded| ==>
          Justified(a, limit, SumGas(r.winners), AllSenders(r.winners), r.excluded[i]))
    && multiset(r.winners) + multiset(BundlesOf(r.excluded)) <= multiset(bundles)
  }

  // ----- overflow -----

  /** Every score can be computed, which sorting two or more bundles does. */
  predicate SortFits(bs: seq<Bundle>) {
    |bs| >= 2 ==> forall i :: 0 <= i < |bs| ==> Scorable(bs[i])
  }

  predicate Scorable(b: Bundle) {
    Score(b) < TWO_256 && forall i :: 0 <= i < |b.transactions| ==> b.transactions[i].gasLimit <= U64_MAX
  }

  /** Considering `b` overflows nowhere: not in its gas, the running gas, its score or the running value. */
  predicate StepFits(a: Config, limit: U64, t: Tally, b: Bundle) {
    && Gas(b) <= U64_MAX && t.gas + Gas(b) <= U64_MAX
    && (t.gas + Gas(b) <= limit && Senders(b) * t.used == {} ==>
          && Score(b) < TWO_256
          && (Score(b) >= a.minBidIncrement && AllRecovered(b) ==> t.value + Score(b) < TWO_256))
  }

  /** Some bundle considered before the one with index `k` overflows. */
  predicate Aborts(a: Config, limit: U64, bs: seq<Bundle>, start: Tally, k: nat)
    requires k <= |bs|
  {
    k > 0 &&
    (Aborts(a, limit, bs, start, k - 1) ||
     match Select(a, limit, bs, start, k - 1)
     case None => false
     case Some(t) => !Stopped(a, t) && !StepFits(a, limit, t, bs[k - 1]))
  }

  /** `Failed` is a sender of a bundle to be taken that cannot be recovered, `Aborted` an overflow. */
  datatype AuctionEnd = Done(result: AuctionResult) | Failed | Aborted

  /** How the auction ends when the deadline strikes before the bundle with index `cut` of the sorted list. */
  function Outcome(a: Config, bundles: seq<Bundle>, limit: U64, cut: nat): AuctionEnd {
    var bs := SortByScore(ValidOnes(bundles));
    var k := if cut < |bs| then cut else |bs|;
    if !SortFits(ValidOnes(bundles)) || Aborts(a, limit, bs, Start(bundles), k) then Aborted
    else
      match Select(a, limit, bs, Start(bundles), k)
      case None => Failed
      case Some(t) => Done(AuctionResult(t.selected, t.value, t.gas, t.excluded))
  }

  /** The selection among the first `k` valid bundles in order of score gives a fair result. */
  lemma SelectionIsFair(a: Config, bundles: seq<Bundle>, limit: nat, k: nat)
    requires k <= |SortByScore(ValidOnes(bundles))|
    requires Select(a, limit, SortByScore(ValidOnes(bundles)), Start(bundles), k).Some?
    ensures var t := Select(a, limit, SortByScore(ValidOnes(bundles)), Start(bundles), k).value;
            && FairResult(a, bundles, limit, AuctionResult(t.selected, t.value, t.gas, t.excluded))
            && (k == |SortByScore(ValidOnes(bundles))| && !Stopped(a, t) ==>
                  multiset(t.selected) + multiset(BundlesOf(t.excluded)) == multiset(bundles))
  {
    hide Senders, Gas, Score, AllRecovered, ValidBundle, Select, SortByScore, ValidOnes, InvalidOnes;
    var bs := SortByScore(ValidOnes(bundles));
    PartitionIsRight(bundles);
    SortDescending(ValidOnes(bundles));
    SelectionIsSound(a, limit, bs, Start(bundles), k);
    SelectionIsAccounted(a, limit, bs, Start(bundles), k);
    var t := Select(a, limit, bs, Start(bundles), k).value;
    WinnersAreValid(bundles, bs, t.selected);
    ConservedOverall(bundles, bs, t);
  }

  lemma WinnersAreValid(bundles: seq<Bundle>, bs: seq<Bundle>, winners: seq<Bundle>)
    requires multiset(bs) == multiset(ValidOnes(bundles)) && forall i :: 0 <= i < |winners| ==> winners[i] in bs
    ensures forall i :: 0 <= i < |winners| ==> ValidBundle(winners[i])
  {
    hide ValidBundle, ValidOnes;
    PartitionIsRight(bundles);
    forall i | 0 <= i < |winners|
      ensures ValidBundle(winners[i])
    {
      assert winners[i] in multiset(bs);
      assert winners[i] in ValidOnes(bundles);
    }
  }

  lemma ConservedOverall(bundles: seq<Bundle>, bs: seq<Bundle>, t: Tally)
    requires multiset(bs) == multiset(ValidOnes(bundles)) && Conserved(bs, InvalidOnes(bundles), t)
    ensures multiset(t.selected) + multiset(BundlesOf(t.excluded)) <= multiset(bundles)
    ensures t.seen == |bs| ==> multiset(t.selected) + multiset(BundlesOf(t.excluded)) == multiset(bundles)
  {
    hide ValidOnes, InvalidOnes, BundlesOf;
    PartitionIsWhole(bundles);
    assert bs == bs[..t.seen] + bs[t.seen..];
    if t.seen == |bs| { assert bs[..t.seen] == bs; }
  }

  method HasConflict(b: Bundle, used: set<Address>) returns (r: bool)
    ensures r == (Senders(b) * used != {})
  {
    for i := 0 to |b.transactions|
      invariant forall j :: 0 <= j < i && b.transactions[j].sender.Some? ==> b.transactions[j].sender.value !in used
    {
      var s := b.transactions[i].sender;
      if s.Some? && s.value in used {
        assert s.value in Senders(b) * used;
        return true;
      }
    }
    return false;
  }

  method UpdateUsedAddresses(b: Bundle, used: set<Address>) returns (r: Option<set<Address>>)
    ensures r == if AllRecovered(b) then Some(used + Senders(b)) else None
  {
    var now := used;
    for i := 0 to |b.transactions|
      invariant forall j :: 0 <= j < i ==> b.transactions[j].sender.Some? && b.transactions[j].sender.value in now
      invariant used <= now <= used + Senders(b)
    {
      var s := b.transactions[i].sender;
      if s == None { return None; }
      assert s.value in Senders(b);
      now := now + {s.value};
    }
    assert now == used + Senders(b);
    return Some(now);
  }

  /** Scoring every bundle, as the comparisons of the sort do. */
  method ScoreAll(bs: seq<Bundle>) returns (ok: bool)
    ensures ok == SortFits(bs)
  {
    if |bs| < 2 { return true; }
    for i := 0 to |bs|
      invariant forall j :: 0 <= j < i ==> Scorable(bs[j])
    {
      for k := 0 to |bs[i].transactions|
        invariant forall j :: 0 <= j < k ==> bs[i].transactions[j].gasLimit <= U64_MAX
      {
        if bs[i].transactions[k].gasLimit > U64_MAX { return false; }
      }
      var score := ScoringValue(bs[i], BASE_FEE_ESTIMATE);
      if score == None { return false; }
    }
    return true;
  }

  /** The auction; every clause holds for every moment `cut` at which the deadline may strike. */
  method Run(a: Config, bundles: seq<Bundle>, limit: U64, cut: nat) returns (r: AuctionEnd)
    ensures r == Outcome(a, bundles, limit, cut)
    ensures r.Done? ==> FairResult(a, bundles, limit, r.result)
  {
    hide Senders, Gas, Score, AllRecovered, ValidBundle, SortByScore, FairResult, StepFits, SortFits, Consider;
    var valid: seq<Bundle>, excluded: seq<Exclusion> := [], [];
    for i := 0 to |bundles|
      invariant valid == ValidOnes(bundles[..i]) && excluded == InvalidOnes(bundles[..i])
    {
      var ok := Validate(bundles[i]);
      if ok { valid := valid + [bundles[i]]; } else { excluded := excluded + [(bundles[i], Invalid)]; }
      assert bundles[..i + 1][..i] == bundles[..i];
    }
    assert bundles[..|bundles|] == bundles;
    var sortable := ScoreAll(valid);
    if !sortable { return Aborted; }
    var bs := SortByScore(valid);
    var n := if cut < |bs| then cut else |bs|;
    var t := Tally([], excluded, 0, 0, {}, 0);
    for i := 0 to n
      invariant Select(a, limit, bs, Start(bundles), i) == Some(t) && !Stopped(a, t)
      invariant !Aborts(a, limit, bs, Start(bundles), i)
    {
      var next, ok := ConsiderNext(a, limit, t, bs[i]);
      if !ok {
        AbortPersists(a, limit, bs, Start(bundles), i + 1, n);
        return Aborted;
      }
      if next == None {
        SelectFails(a, limit, bs, Start(bundles), i + 1, n);
        return Failed;
      }
      t := next.value;
      if |t.selected| > 0 && |t.selected| >= a.maxBundles {
        SelectStops(a, limit, bs, Start(bundles), i + 1, n);
        break;
      }
    }
    assert Select(a, limit, bs, Start(bundles), n) == Some(t);
    SelectionIsFair(a, bundles, limit, n);
    return Done(AuctionResult(t.selected, t.value, t.gas, t.excluded));
  }

  /** One bundle; not `ok` is an abort. */
  method ConsiderNext(a: Config, limit: U64, t: Tally, b: Bundle) returns (r: Option<Tally>, ok: bool)
    ensures ok == StepFits(a, limit, t, b)
    ensures ok ==> r == Consider(a, limit, t, b)
  {
    hide Senders, Score, AllRecovered, Gas;
    var gas := TotalGas(b);
    if gas == None || t.gas + gas.value > U64_MAX { return None, false; }
    if t.gas + gas.value > limit { return Some(Excluded(t, b, GasLimit)), true; }
    var conflict := HasConflict(b, t.used);
    if conflict { return Some(Excluded(t, b, Conflict)), true; }
    var value := ScoringValue(b, BASE_FEE_ESTIMATE);
    assert Score(b) == ValueOf(b.transactions, BASE_FEE_ESTIMATE) by { ScoreIs(b); }
    if value == None { return None, false; }
    if value.value < a.minBidIncrement { return Some(Excluded(t, b, InsufficientValue)), true; }
    var used := UpdateUsedAddresses(b, t.used);
    if used == None { return None, true; }
    if t.value + value.value >= TWO_256 { return None, false; }
    return Some(Tally(t.selected + [b], t.excluded, t.gas + gas.value, t.value + value.value, used.value, t.seen + 1)), true;
  }

  lemma ScoreIs(b: Bundle)
    ensures Score(b) == ValueOf(b.transactions, BASE_FEE_ESTIMATE)
  {
  }

  lemma {:induction false} AbortPersists(a: Config, limit: U64, bs: seq<Bundle>, start: Tally, i: nat, n: nat)
    requires i <= n <= |bs| && Aborts(a, limit, bs, start, i)
    ensures Aborts(a, limit, bs, start, n)
  {
    if i < n { AbortPersists(a, limit, bs, start, i, n - 1); }
  }

  lemma {:induction false} SelectFails(a: Config, limit: U64, bs: seq<Bundle>, start: Tally, i: nat, n: nat)
    requires i <= n <= |bs| && Select(a, limit, bs, start, i) == None && !Aborts(a, limit, bs, start, i)
    ensures Select(a, limit, bs, start, n) == None && !Aborts(a, limit, bs, start, n)
  {
    if i < n { SelectFails(a, limit, bs, start, i, n - 1); }
  }

  lemma {:induction false} SelectStops(a: Config, limit: U64, bs: seq<Bundle>, start: Tally, i: nat, n: nat)
    requires i <= n <= |bs| && Select(a, limit, bs, start, i).Some? && Stopped(a, Select(a, limit, bs, start, i).value)
    requires !Aborts(a, limit, bs, start, i)
    ensures Select(a, limit, bs, start, n) == Select(a, limit, bs, start, i) && !Aborts(a, limit, bs, start, n)
  {
    if i < n { SelectStops(a, limit, bs, start, i, n - 1); }
  }

  // ----- inputs that cannot overflow -----

  lemma GasLimitWithin(txs: seq<Transaction>, i: nat)
    requires i < |txs|
    ensures txs[i].gasLimit <= GasOf(txs)
  {
    GasOfPrefix(txs, i + 1);
    assert txs[..i + 1][..i] == txs[..i];
  }

  lemma SumScoreAppend(bs: seq<Bundle>, b: Bundle)
    ensures SumScore(bs + [b]) == SumScore(bs) + Score(b)
  {
    hide Score;
    assert (bs + [b])[..|bs|] == bs;
  }

  lemma {:induction false} SumScorePrefix(bs: seq<Bundle>, k: nat)
    requires k < |bs|
    ensures SumScore(bs[..k]) + Score(bs[k]) == SumScore(bs[..k + 1]) <= SumScore(bs)
    ensures Score(bs[k]) <= SumScore(bs)
  {
    hide Score;
    assert bs[..k + 1][..k] == bs[..k];
    if k + 1 < |bs| {
      var n := |bs| - 1;
      SumScorePrefix(bs[..n], k);
      assert bs[..n][..k] == bs[..k] && bs[..n][..k + 1] == bs[..k + 1] && bs[..n][k] == bs[k];
    } else {
      assert bs[..k + 1] == bs;
    }
  }

  lemma {:induction false} InsertScore(bs: seq<Bundle>, b: Bundle)
    ensures SumScore(S.Insert(bs, ScoreRank, b)) == SumScore(bs) + Score(b)
  {
    hide Score;
    if bs != [] && ScoreRank(bs[|bs| - 1]) > ScoreRank(b) {
      var n := |bs| - 1;
      InsertScore(bs[..n], b);
      SumScoreAppend(S.Insert(bs[..n], ScoreRank, b), bs[n]);
    } else {
      SumScoreAppend(bs, b);
    }
  }

  lemma {:induction false} SortScore(bs: seq<Bundle>)
    ensures SumScore(SortByScore(bs)) == SumScore(bs)
  {
    hide Score;
    if bs != [] {
      SortScore(bs[..|bs| - 1]);
      InsertScore(SortByScore(bs[..|bs| - 1]), bs[|bs| - 1]);
    }
  }

  lemma {:induction false} ValidScore(bs: seq<Bundle>)
    ensures SumScore(ValidOnes(bs)) <= SumScore(bs)
    ensures forall i :: 0 <= i < |ValidOnes(bs)| ==> ValidOnes(bs)[i] in bs
  {
    hide Score, ValidBundle;
    if bs != [] {
      ValidScore(bs[..|bs| - 1]);
      SumScoreAppend(ValidOnes(bs[..|bs| - 1]), bs[|bs| - 1]);
    }
  }

  lemma {:induction false} StepsFit(a: Config, limit: U64, bs: seq<Bundle>, start: Tally, k: nat)
    requires k <= |bs| && start.gas == start.value == 0
    requires SumScore(bs) < TWO_256 && forall i :: 0 <= i < |bs| ==> limit + Gas(bs[i]) <= U64_MAX
    ensures !Aborts(a, limit, bs, start, k)
    ensures var t := Select(a, limit, bs, start, k); t.Some? ==> t.value.gas <= limit && t.value.value <= SumScore(bs[..k])
  {
    hide Score, Gas, Senders, AllRecovered;
    if k > 0 {
      StepsFit(a, limit, bs, start, k - 1);
      SumScorePrefix(bs, k - 1);
    }
  }

  /**
   No auction aborts if each bundle's gas fits 64 bits beside the limit and all scores together fit 256
   bits.
   */
  lemma NothingOverflows(a: Config, bundles: seq<Bundle>, limit: U64, cut: nat)
    requires forall i :: 0 <= i < |bundles| ==> limit + Gas(bundles[i]) <= U64_MAX
    requires SumScore(bundles) < TWO_256
    ensures Outcome(a, bundles, limit, cut) != Aborted
  {
    hide Score, Gas, Select, SortByScore, ValidOnes, SumScore, Aborts, Scorable;
    var valid := ValidOnes(bundles);
    var bs := SortByScore(valid);
    SortDescending(valid);
    SortScore(valid);
    ValidScore(bundles);
    forall i | 0 <= i < |bs|
      ensures limit + Gas(bs[i]) <= U64_MAX
    {
      assert bs[i] in multiset(bs);
      assert bs[i] in valid;
    }
    forall i | 0 <= i < |valid|
      ensures Scorable(valid[i])
    {
      SumScorePrefix(valid, i);
      MemberScorable(valid[i]);
    }
    StepsFit(a, limit, bs, Start(bundles), if cut < |bs| then cut else |bs|);
  }

  lemma MemberScorable(b: Bundle)
    requires Gas(b) <= U64_MAX && Score(b) < TWO_256
    ensures Scorable(b)
  {
    forall i | 0 <= i < |b.transactions|
      ensures b.transactions[i].gasLimit <= U64_MAX
    {
      GasLimitWithin(b.transactions, i);
    }
  }

  /** Two transactions of 2^63 gas in one bundle: their sum does not fit, and the auction aborts. */
  lemma GasOverflowAborts(a: Config, limit: U64)
    ensures var half := 0x8000_0000_0000_0000;
            var b := Bundle([Transaction(1, half, 0, 0, None), Transaction(2, half, 0, 0, None)], 0, 0);
            Outcome(a, [b], limit, 1) == Aborted
  {
    var half := 0x8000_0000_0000_0000;
    var b := Bundle([Transaction(1, half, 0, 0, None), Transaction(2, half, 0, 0, None)], 0, 0);
    assert ValidBundle(b);
    assert [b][..0] == [];
    assert ValidOnes([b]) == [b];
    S.SortedIsFixed([b], ScoreRank);
    var txs := b.transactions;
    assert txs[..1][..0] == [];
    assert GasOf(txs[..1]) == half;
    assert Gas(b) == 2 * half;
    hide GasOf, Score, Senders, ValidOnes, SortByScore;
    assert !StepFits(a, limit, Start([b]), b);
    assert Aborts(a, limit, [b], Start([b]), 1);
  }
}
