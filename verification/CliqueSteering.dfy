/** Chains built on purpose: what votes can carry, which lists can get stuck, and votes of departed signers. */
module CliqueSteering {
  import opened Wrappers
  import opened Words
  import opened Clique
  import opened CliqueRuns

  // ----- blocks in a row over an unchanged list -----

  /** The list has been the same since before the last `k` blocks. */
  predicate Steady(init: seq<Address>, base: nat, h: History, k: nat) {
    k <= |h| && forall j :: |h| - k <= j <= |h| ==> After(init, base, h[..j]).signers == After(init, base, h).signers
  }

  /** Nobody in `idle` ever signed. */
  predicate Able(h: History, idle: set<Address>) {
    forall i :: 0 <= i < |h| ==> h[i].signer !in idle
  }

  lemma SteadyStep(init: seq<Address>, base: nat, h: History, k: nat, b: Block)
    requires Steady(init, base, h, k) && After(init, base, h + [b]).signers == After(init, base, h).signers
    ensures Steady(init, base, h + [b], k + 1)
  {
    hide After;
    var h' := h + [b];
    forall j | |h'| - (k + 1) <= j <= |h'|
      ensures After(init, base, h'[..j]).signers == After(init, base, h').signers
    {
      if j == |h'| { assert h'[..j] == h'; } else { assert h'[..j] == h[..j]; }
    }
  }

  lemma SteadyNow(init: seq<Address>, base: nat, h: History)
    ensures Steady(init, base, h, 0)
  {
    assert h[..|h|] == h;
  }

  /** While the list stays the same, up to N/2 + 1 blocks in a row have different, listed signers. */
  lemma SteadyTail(init: seq<Address>, base: nat, h: History, k: nat, idle: set<Address>)
    requires Gated(init, base, h) && Able(h, idle)
    requires Steady(init, base, h, k) && k <= Limit(After(init, base, h).signers) + 1
    ensures |Elements(Tail(h, k))| == k <= |Elements(After(init, base, h).signers) - idle|
  {
    hide After;
    var last, signers := Tail(h, k), After(init, base, h).signers;
    forall i, j | 0 <= i < j < k
      ensures last[i] != last[j]
    {
      assert After(init, base, h[..|h| - k + j]).signers == signers;
      FixedSignersRotate(init, base, h, |signers|, |h| - k + i, |h| - k + j);
    }
    DistinctSize(last);
    forall i | 0 <= i < k
      ensures last[i] in signers && last[i] !in idle
    {
      var n := |h| - k + i;
      assert MaySign(After(init, base, h[..n]), h[n].signer, base + n);
      assert After(init, base, h[..n]).signers == signers;
    }
    SubsetSize(Elements(last), Elements(signers) - idle);
  }

  /** A block without a vote leaves the list alone. */
  lemma NoVoteKeepsList(init: seq<Address>, base: nat, h: History, a: Address)
    ensures After(init, base, h + [Block(a, NO_ADDRESS, false)]).signers == After(init, base, h).signers
  {
    AfterStep(init, base, h, Block(a, NO_ADDRESS, false));
  }

  /** Blocks without votes, each by somebody who may sign, until nobody may. */
  lemma {:induction false} Exhaust(init: seq<Address>, base: nat, h: History, k: nat, idle: set<Address>) returns (h': History)
    requires Gated(init, base, h) && Able(h, idle) && Steady(init, base, h, k)
    requires var signers := After(init, base, h).signers;
             |Elements(signers) - idle| <= Limit(signers) && k <= Limit(signers)
    ensures Gated(init, base, h') && Able(h', idle) && After(init, base, h').signers == After(init, base, h).signers
    ensures !SomeoneMaySign(After(init, base, h'), base + |h'|, idle)
    decreases Limit(After(init, base, h).signers) - k
  {
    hide After, MaySign, Gated, Steady, Elements, Tail;
    var signers := After(init, base, h).signers;
    if !SomeoneMaySign(After(init, base, h), base + |h|, idle) {
      h' := h;
    } else {
      var a :| a !in idle && MaySign(After(init, base, h), a, base + |h|);
      var b := Block(a, NO_ADDRESS, false);
      NoVoteKeepsList(init, base, h, a);
      GatedStep(init, base, h, b);
      SteadyStep(init, base, h, k, b);
      SteadyTail(init, base, h + [b], k + 1, idle);
      h' := Exhaust(init, base, h + [b], k + 1, idle);
    }
  }

  // ----- any proposal can be carried -----

  /** The list with `y` voted in or out. */
  function Revised(signers: seq<Address>, y: Address, add: bool): seq<Address> {
    if add then signers + [y] else Without(signers, y)
  }

  /** The last `k` blocks' signers are on record for `add` on `y`. */
  predicate AllFor(init: seq<Address>, base: nat, h: History, k: nat, y: Address, add: bool) {
    k <= |h| && forall i :: |h| - k <= i < |h| ==> VoteIn(After(init, base, h).votes, h[i].signer, y) == Some(add)
  }

  /** The votes on everybody but `y` are the same. */
  ghost predicate SameElsewhere(votes: Votes, votes': Votes, y: Address) {
    forall v, p :: p != y ==> VoteIn(votes', v, p) == VoteIn(votes, v, p)
  }

  lemma RecordedBackers(votes: Votes, a: Address, y: Address, add: bool)
    ensures Backers(Recorded(votes, a, y, add), y, add) == Backers(votes, y, add) + {a}
    ensures SameElsewhere(votes, Recorded(votes, a, y, add), y)
  {
  }

  /** A vote revises the list, if it makes enough backers, or is recorded and nothing else. */
  lemma CarryStep(init: seq<Address>, base: nat, h: History, a: Address, y: Address, add: bool)
    requires y != NO_ADDRESS && (y in After(init, base, h).signers) != add
    ensures var s, s' := After(init, base, h), After(init, base, h + [Block(a, y, add)]);
            var now := Recorded(s.votes, a, y, add);
            && (s'.signers, s'.votes) == (if |Backers(now, y, add)| >= Threshold(s.signers)
                                          then (Revised(s.signers, y, add), Cleared(now, y)) else (s.signers, now))
            && SameElsewhere(s.votes, s'.votes, y)
  {
    var s, b := After(init, base, h), Block(a, y, add);
    AfterStep(init, base, h, b);
    RecordedBackers(s.votes, a, y, add);
  }

  lemma AllForStep(init: seq<Address>, base: nat, h: History, k: nat, a: Address, y: Address, add: bool)
    requires AllFor(init, base, h, k, y, add)
    requires After(init, base, h + [Block(a, y, add)]).votes == Recorded(After(init, base, h).votes, a, y, add)
    ensures AllFor(init, base, h + [Block(a, y, add)], k + 1, y, add)
  {
    hide After;
    var h' := h + [Block(a, y, add)];
    forall i | |h'| - (k + 1) <= i < |h'|
      ensures VoteIn(After(init, base, h').votes, h'[i].signer, y) == Some(add)
    {
      VoteAfterRecording(After(init, base, h).votes, a, y, add, h'[i].signer, y);
      if i < |h| { assert h'[i] == h[i]; }
    }
  }

  lemma TailBacks(init: seq<Address>, base: nat, h: History, k: nat, y: Address, add: bool)
    requires AllFor(init, base, h, k, y, add) && |Elements(Tail(h, k))| == k
    ensures k <= |Backers(After(init, base, h).votes, y, add)|
  {
    hide After;
    var backers := Backers(After(init, base, h).votes, y, add);
    forall v | v in Elements(Tail(h, k))
      ensures v in backers
    {
      var i :| 0 <= i < k && Tail(h, k)[i] == v;
      assert h[|h| - k + i].signer == v;
    }
    SubsetSize(Elements(Tail(h, k)), backers);
  }

  /** What carrying a proposal does besides: `h'` are the blocks before the one, `b`, that carries it. */
  ghost predicate Carried(init: seq<Address>, base: nat, h: History, h': History, b: Block, y: Address, add: bool) {
    var s, s' := After(init, base, h), After(init, base, h');
    && h <= h' && s'.signers == s.signers && b == Block(b.signer, y, add)
    && After(init, base, h' + [b]).signers == Revised(s.signers, y, add)
    && (forall i :: |h| <= i < |h' + [b]| ==> (h' + [b])[i].signer in s.signers)
    && SameElsewhere(s.votes, After(init, base, h' + [b]).votes, y)
    && (|Backers(s.votes, y, add)| < Threshold(s.signers) ==>
          |Backers(s'.votes, y, add) + {b.signer}| == Threshold(s.signers))
    && Backers(s.votes, y, add) <= Backers(s'.votes, y, add)
  }

  lemma CarriedNow(init: seq<Address>, base: nat, h: History, b: Block, y: Address, add: bool)
    requires y != NO_ADDRESS && (y in After(init, base, h).signers) != add && b == Block(b.signer, y, add)
    requires MaySign(After(init, base, h), b.signer, base + |h|)
    requires After(init, base, h + [b]).signers != After(init, base, h).signers
    ensures Carried(init, base, h, h, b, y, add)
  {
    hide After;
    CarryStep(init, base, h, b.signer, y, add);
    RecordedBackers(After(init, base, h).votes, b.signer, y, add);
  }

  lemma CarriedLater(init: seq<Address>, base: nat, h: History, a: Address, h': History, b: Block, y: Address, add: bool)
    requires y != NO_ADDRESS && (y in After(init, base, h).signers) != add
    requires MaySign(After(init, base, h), a, base + |h|)
    requires After(init, base, h + [Block(a, y, add)]).signers == After(init, base, h).signers
    requires Carried(init, base, h + [Block(a, y, add)], h', b, y, add)
    ensures Carried(init, base, h, h', b, y, add)
  {
    hide After;
    var h1 := h + [Block(a, y, add)];
    CarryStep(init, base, h, a, y, add);
    RevisedDiffers(After(init, base, h).signers, y, add);
    RecordedBackers(After(init, base, h).votes, a, y, add);
    forall i | |h| <= i < |h' + [b]|
      ensures (h' + [b])[i].signer in After(init, base, h).signers
    {
      if i == |h| { assert h1[i] == (h' + [b])[i]; }
    }
  }

  lemma RevisedDiffers(signers: seq<Address>, y: Address, add: bool)
    requires (y in signers) != add
    ensures Revised(signers, y, add) != signers
  {
    WithoutMembers(signers, y);
    assert add ==> |Revised(signers, y, add)| == |signers| + 1;
  }

  /**
   While more different addresses outside `idle` are listed than half the list's length, any proposal on an
   address but zero can be carried, to add one not listed or to remove one listed: N/2 + 1 blocks in a row have
   different signers, and all of them vote for it. The last of them makes the threshold and no more.
   */
  lemma {:induction false} Carry(
    init: seq<Address>, base: nat, h: History, k: nat, y: Address, add: bool, idle: set<Address>)
    returns (h': History, b: Block)
    requires Gated(init, base, h) && Able(h, idle) && Steady(init, base, h, k) && AllFor(init, base, h, k, y, add)
    requires var signers := After(init, base, h).signers;
             |Elements(signers) - idle| > Limit(signers) >= k && (y in signers) != add && y != NO_ADDRESS
    ensures Gated(init, base, h' + [b]) && Able(h' + [b], idle) && Carried(init, base, h, h', b, y, add)
    decreases Limit(After(init, base, h).signers) - k
  {
    hide After, MaySign, AllFor, Carried, Gated, Steady;
    var signers := After(init, base, h).signers;
    NeverStuck(init, base, h, idle);
    var a :| a !in idle && MaySign(After(init, base, h), a, base + |h|);
    b := Block(a, y, add);
    GatedStep(init, base, h, b);
    if After(init, base, h + [b]).signers != signers {
      h' := h;
      CarriedNow(init, base, h, b, y, add);
    } else {
      var h1 := h + [b];
      CarryStep(init, base, h, a, y, add);
      RevisedDiffers(signers, y, add);
      AllForStep(init, base, h, k, a, y, add);
      SteadyStep(init, base, h, k, b);
      SteadyTail(init, base, h1, k + 1, idle);
      TailBacks(init, base, h1, k + 1, y, add);
      h', b := Carry(init, base, h1, k + 1, y, add, idle);
      CarriedLater(init, base, h, a, h', b, y, add);
    }
  }

  /** In particular any listed address but zero can be voted out. */
  lemma VoteOut(init: seq<Address>, base: nat, h: History, y: Address, idle: set<Address>) returns (h': History)
    requires Gated(init, base, h) && Able(h, idle)
    requires var signers := After(init, base, h).signers;
             |Elements(signers) - idle| > Limit(signers) && y in signers && y != NO_ADDRESS
    ensures Gated(init, base, h') && Able(h', idle)
    ensures After(init, base, h').signers == Without(After(init, base, h).signers, y)
  {
    hide After, Gated, Elements, Able, Steady;
    SteadyNow(init, base, h);
    var h1, b := Carry(init, base, h, 0, y, false, idle);
    h' := h1 + [b];
  }

  // ----- which configured lists can get stuck -----

  /** How many entries of the list are in `keep`. */
  function Occurrences(s: seq<Address>, keep: set<Address>): nat {
    if s == [] then 0 else (if s[0] in keep then 1 else 0) + Occurrences(s[1..], keep)
  }

  lemma {:induction false} OccurrencesWithout(s: seq<Address>, keep: set<Address>, y: Address)
    requires y !in keep
    ensures Occurrences(Without(s, y), keep) == Occurrences(s, keep)
  {
    if s != [] {
      OccurrencesWithout(s[1..], keep, y);
      assert s[0] != y ==> Without(s, y)[1..] == Without(s[1..], y);
    }
  }

  lemma {:induction false} OccurrencesOfAll(s: seq<Address>, keep: set<Address>)
    requires forall a :: a in s ==> a in keep
    ensures Occurrences(s, keep) == |s|
  {
    if s != [] { OccurrencesOfAll(s[1..], keep); }
  }

  lemma {:induction false} OccurrencesAdd(s: seq<Address>, keep: set<Address>, a: Address)
    requires a !in keep
    ensures Occurrences(s, keep + {a}) == Occurrences(s, keep) + multiset(s)[a]
    ensures keep == {} ==> Occurrences(s, keep) == 0
  {
    if s != [] {
      OccurrencesAdd(s[1..], keep, a);
      assert s == [s[0]] + s[1..];
    }
  }

  /** While most entries are different, somebody outside `keep` is listed and can go without changing the rest. */
  lemma Expendable(signers: seq<Address>, keep: set<Address>, idle: set<Address>) returns (y: Address)
    requires keep !! idle && keep <= Elements(signers) && 2 * |keep| <= Occurrences(signers, keep + idle)
    requires |Elements(signers) - idle| > Limit(signers)
    ensures y in signers && y !in keep + idle
    ensures Elements(Without(signers, y)) == Elements(signers) - {y}
    ensures |Elements(Without(signers, y))| < |Elements(signers)|
    ensures Occurrences(Without(signers, y), keep + idle) == Occurrences(signers, keep + idle)
  {
    hide Occurrences, Without;
    if Elements(signers) - idle <= keep {
      assert Elements(signers) - idle == keep;
      OccurrencesOfAll(signers, keep + idle);
    }
    y :| y in Elements(signers) - idle && y !in keep;
    WithoutMembers(signers, y);
    OccurrencesWithout(signers, keep + idle, y);
    assert Elements(Without(signers, y)) == Elements(signers) - {y};
  }

  /**
   If some addresses and the idle ones, the zero address among them if it is listed, fill the list twice over
   as often as the former are, the others can be voted out one by one until the chain gets stuck.
   */
  lemma {:induction false} Whittle(init: seq<Address>, base: nat, h: History, keep: set<Address>, idle: set<Address>)
    returns (h': History)
    requires Gated(init, base, h) && Able(h, idle) && keep != {} && keep !! idle
    requires var signers := After(init, base, h).signers;
             && keep <= Elements(signers) && (NO_ADDRESS in signers ==> NO_ADDRESS in keep + idle)
             && 2 * |keep| <= Occurrences(signers, keep + idle)
    ensures Gated(init, base, h') && Able(h', idle) && keep <= Elements(After(init, base, h').signers)
    ensures !SomeoneMaySign(After(init, base, h'), base + |h'|, idle)
    decreases |Elements(After(init, base, h).signers)|
  {
    hide After, MaySign, Gated, Elements, Occurrences, Able, Steady, SomeoneMaySign, Without;
    var signers := After(init, base, h).signers;
    SteadyNow(init, base, h);
    if |Elements(signers) - idle| <= Limit(signers) {
      h' := Exhaust(init, base, h, 0, idle);
    } else {
      var y := Expendable(signers, keep, idle);
      var h1 := VoteOut(init, base, h, y, idle);
      h' := Whittle(init, base, h1, keep, idle);
    }
  }

  /**
   A configured list that never gets stuck: no address twice, or the zero address, which no vote can remove,
   exactly once and no other more than twice.
   */
  predicate Rotates(init: seq<Address>) {
    Distinct(init) || (multiset(init)[NO_ADDRESS] == 1 && forall a :: a in init ==> multiset(init)[a] <= 2)
  }

  lemma {:induction false} RepeatedOrDistinct(s: seq<Address>)
    requires forall a :: a in s ==> multiset(s)[a] <= 1
    ensures Distinct(s)
  {
    if s != [] {
      assert s == [s[0]] + s[1..];
      assert forall a :: a in s[1..] ==> multiset(s[1..])[a] <= multiset(s)[a];
      RepeatedOrDistinct(s[1..]);
      assert multiset(s)[s[0]] == 1 + multiset(s[1..])[s[0]];
    }
  }

  lemma OccurrencesOfOne(s: seq<Address>, a: Address)
    ensures Occurrences(s, {a}) == multiset(s)[a]
  {
    OccurrencesAdd(s, {}, a);
    assert {} + {a} == {a};
  }

  /** Every other list has addresses that fill it at least twice over and cannot be forced apart by votes. */
  lemma Entrenched(init: seq<Address>) returns (keep: set<Address>)
    requires !Rotates(init)
    ensures keep != {} && keep <= Elements(init) && (NO_ADDRESS in init ==> NO_ADDRESS in keep)
    ensures 2 * |keep| <= Occurrences(init, keep)
  {
    hide Occurrences;
    var zeros := multiset(init)[NO_ADDRESS];
    OccurrencesOfOne(init, NO_ADDRESS);
    if zeros >= 2 {
      keep := {NO_ADDRESS};
    } else if zeros == 1 {
      var x :| x in init && multiset(init)[x] > 2;
      OccurrencesAdd(init, {NO_ADDRESS}, x);
      keep := {NO_ADDRESS} + {x};
    } else {
      if forall a :: a in init ==> multiset(init)[a] <= 1 { RepeatedOrDistinct(init); }
      var x :| x in init && multiset(init)[x] > 1;
      OccurrencesOfOne(init, x);
      keep := {x};
    }
  }

  /** So it has an accepted chain after which nobody on the list may sign. */
  lemma DuplicatesGetStuck(init: seq<Address>, base: nat) returns (h: History)
    requires !Rotates(init)
    ensures Gated(init, base, h) && After(init, base, h).signers != []
    ensures !SomeoneMaySign(After(init, base, h), base + |h|, {})
  {
    hide Rotates, Occurrences;
    var keep := Entrenched(init);
    assert keep + {} == keep;
    h := Whittle(init, base, [], keep, {});
    var a :| a in keep;
    assert a in Elements(After(init, base, h).signers);
  }

  lemma {:induction false} WithoutCounts(s: seq<Address>, a: Address)
    ensures multiset(Without(s, a)) == multiset(s)[a := 0]
    ensures |Without(s, a)| + multiset(s)[a] == |s|
  {
    if s != [] {
      WithoutCounts(s[1..], a);
      assert s == [s[0]] + s[1..];
    }
  }

  lemma {:induction false} AtMostTwice(s: seq<Address>)
    requires forall a :: a in s ==> multiset(s)[a] <= 2
    ensures |s| <= 2 * |Elements(s)|
    decreases |s|
  {
    if s != [] {
      var a := s[0];
      WithoutCounts(s, a);
      WithoutMembers(s, a);
      assert Elements(Without(s, a)) == Elements(s) - {a};
      forall b | b in Without(s, a)
        ensures multiset(Without(s, a))[b] <= 2
      {
        assert b in s;
      }
      AtMostTwice(Without(s, a));
    }
  }

  /** Votes keep the zero address single and every other at most double. */
  lemma {:induction false} StaysAtMostTwice(init: seq<Address>, base: nat, h: History)
    requires multiset(init)[NO_ADDRESS] == 1 && forall a :: a in init ==> multiset(init)[a] <= 2
    ensures var s := After(init, base, h).signers;
            multiset(s)[NO_ADDRESS] == 1 && forall a :: a in s ==> multiset(s)[a] <= 2
  {
    if h != [] {
      var n := |h| - 1;
      StaysAtMostTwice(init, base, h[..n]);
      var s := After(init, base, h[..n]).signers;
      WithoutCounts(s, h[n].author);
      WithoutMembers(s, h[n].author);
    }
  }

  /** So on every chain more than half the list's length are different addresses. */
  lemma SingleZeroNeverStuck(init: seq<Address>, base: nat, h: History)
    requires multiset(init)[NO_ADDRESS] == 1 && forall a :: a in init ==> multiset(init)[a] <= 2
    ensures SomeoneMaySign(After(init, base, h), base + |h|, {})
  {
    StaysAtMostTwice(init, base, h);
    var s := After(init, base, h).signers;
    var rest := Without(s, NO_ADDRESS);
    WithoutCounts(s, NO_ADDRESS);
    WithoutMembers(s, NO_ADDRESS);
    forall a | a in rest
      ensures multiset(rest)[a] <= 2
    {
      assert a in s;
    }
    AtMostTwice(rest);
    assert NO_ADDRESS in multiset(s);
    assert Elements(rest) == Elements(s) - {NO_ADDRESS};
    assert Elements(s) - {} == Elements(s);
    NeverStuck(init, base, h, {});
  }

  /** On every chain without blocks by `idle`, somebody else may sign next, if anybody else is listed. */
  ghost predicate NeverGetsStuck(init: seq<Address>, base: nat, idle: set<Address>) {
    forall h :: Gated(init, base, h) && Able(h, idle) && Elements(After(init, base, h).signers) - idle != {} ==>
                  SomeoneMaySign(After(init, base, h), base + |h|, idle)
  }

  /** Exactly the lists that never get stuck, if every listed address may sign. */
  lemma StuckUnlessRotates(init: seq<Address>, base: nat)
    ensures NeverGetsStuck(init, base, {}) <==> Rotates(init)
    ensures NO_ADDRESS !in init ==> (NeverGetsStuck(init, base, {}) <==> Distinct(init))
  {
    hide After, Gated, MaySign;
    if Distinct(init) {
      forall h: History | Elements(After(init, base, h).signers) - {} != {}
        ensures SomeoneMaySign(After(init, base, h), base + |h|, {})
      {
        DistinctNeverStuck(init, base, h);
      }
    } else if Rotates(init) {
      forall h: History { SingleZeroNeverStuck(init, base, h); }
    } else {
      var h := DuplicatesGetStuck(init, base);
      assert After(init, base, h).signers[0] in Elements(After(init, base, h).signers) - {};
    }
    assert NO_ADDRESS !in init ==> multiset(init)[NO_ADDRESS] == 0;
  }

  // ----- if the zero address never signs -----

  lemma {:induction false} ZeroNeverJoins(init: seq<Address>, base: nat, h: History)
    ensures NO_ADDRESS in After(init, base, h).signers <==> NO_ADDRESS in init
  {
    if h != [] {
      var n := |h| - 1;
      ZeroNeverJoins(init, base, h[..n]);
      var s := After(init, base, h[..n]);
      VotedChanges(s.signers, s.votes, h[n].author, h[n].add, h[n].signer);
    }
  }

  /** Somebody who can sign, who with the zero address fills two entries of the list. */
  lemma EntrenchedBesideZero(init: seq<Address>) returns (x: Address)
    requires Elements(init) - {NO_ADDRESS} != {} && !(Distinct(init) && NO_ADDRESS !in init)
    ensures x in init && x != NO_ADDRESS && 2 <= Occurrences(init, {x} + {NO_ADDRESS})
  {
    hide Occurrences;
    if NO_ADDRESS in init {
      x :| x in Elements(init) - {NO_ADDRESS};
    } else {
      if forall a :: a in init ==> multiset(init)[a] <= 1 { RepeatedOrDistinct(init); }
      x :| x in init && multiset(init)[x] > 1;
    }
    OccurrencesOfOne(init, x);
    OccurrencesAdd(init, {x}, NO_ADDRESS);
    assert x in multiset(init);
  }

  /**
   No key has the zero address. If it never signs, the lists that never get stuck are those without it and
   without duplicates, and those with nobody else on them.
   */
  lemma StuckUnlessDistinct(init: seq<Address>, base: nat)
    ensures NeverGetsStuck(init, base, {NO_ADDRESS}) <==>
            Elements(init) <= {NO_ADDRESS} || (Distinct(init) && NO_ADDRESS !in init)
  {
    hide Occurrences, After, MaySign, Distinct;
    var idle := {NO_ADDRESS};
    if Elements(init) - idle == {} {
      forall h: History | Gated(init, base, h) && Able(h, idle)
        ensures Elements(After(init, base, h).signers) - idle == {}
      {
        NobodyStarts(init, base, h);
      }
    } else if Distinct(init) && NO_ADDRESS !in init {
      forall h: History | Elements(After(init, base, h).signers) - idle != {}
        ensures SomeoneMaySign(After(init, base, h), base + |h|, idle)
      {
        var signers := After(init, base, h).signers;
        ZeroNeverJoins(init, base, h);
        SignersStayDistinct(init, base, h);
        DistinctSize(signers);
        assert Elements(signers) - idle == Elements(signers);
        NeverStuck(init, base, h, idle);
      }
    } else {
      var x := EntrenchedBesideZero(init);
      NothingYet(init, base);
      var h := Whittle(init, base, [], {x}, idle);
      assert x in Elements(After(init, base, h).signers) - idle;
    }
  }

  lemma NothingYet(init: seq<Address>, base: nat)
    ensures After(init, base, []) == State(init, [], map[])
  {
  }

  lemma FirstIsListed(init: seq<Address>, base: nat, h: History)
    requires Gated(init, base, h) && h != []
    ensures h[0].signer in init
  {
    assert MaySign(After(init, base, h[..0]), h[0].signer, base);
    assert h[..0] == [];
  }

  lemma NobodyStarts(init: seq<Address>, base: nat, h: History)
    requires Elements(init) <= {NO_ADDRESS} && Gated(init, base, h) && Able(h, {NO_ADDRESS})
    ensures h == [] && Elements(After(init, base, h).signers) <= {NO_ADDRESS}
  {
    NothingYet(init, base);
    if h != [] { FirstIsListed(init, base, h); }
  }

  lemma SmallLists()
    ensures Rotates([1, 1, NO_ADDRESS]) && !Rotates([1, 1, 2])
    ensures NO_ADDRESS in [1, 1, NO_ADDRESS] && !Distinct([1, 1, 2]) && 1 in [1, 1, 2] && 1 in [1, 1, NO_ADDRESS]
  {
    assert [1, 1, 2][0] == [1, 1, 2][1] && [1, 1, NO_ADDRESS][2] == NO_ADDRESS;
  }

  /** `[1, 1, 0]` is kept going only by the zero address; `[1, 1, 2]` gets stuck either way. */
  lemma ZeroAddressMatters(base: nat)
    ensures NeverGetsStuck([1, 1, NO_ADDRESS], base, {}) && !NeverGetsStuck([1, 1, NO_ADDRESS], base, {NO_ADDRESS})
    ensures !NeverGetsStuck([1, 1, 2], base, {}) && !NeverGetsStuck([1, 1, 2], base, {NO_ADDRESS})
  {
    hide NeverGetsStuck, Rotates, Distinct;
    SmallLists();
    StuckUnlessRotates([1, 1, NO_ADDRESS], base);
    StuckUnlessRotates([1, 1, 2], base);
    StuckUnlessDistinct([1, 1, NO_ADDRESS], base);
    StuckUnlessDistinct([1, 1, 2], base);
    assert 1 in Elements([1, 1, 2]) && 1 in Elements([1, 1, NO_ADDRESS]);
  }

  // ----- votes of departed signers -----

  /** Every block that changes the list has N/2 + 1 backers on the list at that time. */
  ghost predicate ListedCarryChanges(init: seq<Address>, base: nat) {
    forall h: History, b: Block :: Gated(init, base, h + [b]) && Changed(init, base, h + [b], |h|, b.author) ==>
      var before := After(init, base, h).signers;
      |BackersOnChain(init, base, h, b, b.author !in before) * Elements(before)| >= Threshold(before)
  }

  /** With at most half the list's length different addresses no vote is ever carried. */
  lemma {:induction false} NothingCarried(init: seq<Address>, base: nat, h: History)
    requires |Elements(init)| <= Limit(init) && Gated(init, base, h)
    ensures After(init, base, h).signers == init && After(init, base, h).votes.Keys <= Elements(init)
  {
    if h != [] {
      var n := |h| - 1;
      GatedPrefix(init, base, h, n);
      NothingCarried(init, base, h[..n]);
      var s, b := After(init, base, h[..n]), h[n];
      assert MaySign(s, b.signer, base + n);
      var now := Recorded(s.votes, b.signer, b.author, b.add);
      SubsetSize(Backers(now, b.author, true), Elements(init));
      SubsetSize(Backers(now, b.author, false), Elements(init));
    }
  }

  function Numbers(n: nat): (r: set<Address>)
    requires n < TWO_160
    ensures |r| == n && forall a :: a in r <==> 1 <= a <= n
  {
    if n == 0 then {} else Numbers(n - 1) + {n}
  }

  lemma FreshAddress(used: set<Address>) returns (a: Address)
    requires |used| + 1 < TWO_160
    ensures a != NO_ADDRESS && a !in used
  {
    var some := Numbers(|used| + 1);
    if some <= used { SubsetSize(some, used); }
    a :| a in some && a !in used;
  }

  lemma {:induction false} WithoutLast(s: seq<Address>, x: Address)
    requires x !in s
    ensures Without(s + [x], x) == s
  {
    if s != [] {
      WithoutLast(s[1..], x);
      assert (s + [x])[1..] == s[1..] + [x];
    } else {
      assert (s + [x])[1..] == [];
    }
  }

  lemma ElementsAppend(s: seq<Address>, x: Address)
    requires x !in s
    ensures |Elements(s + [x])| == |Elements(s)| + 1 && |Elements(s) - {}| == |Elements(s)|
    ensures |Elements(s)| > Limit(s) ==> |Elements(s + [x]) - {}| > Limit(s + [x])
  {
    assert Elements(s + [x]) == Elements(s) + {x} && Elements(s) - {} == Elements(s);
    assert Elements(s + [x]) - {} == Elements(s + [x]);
  }

  /** A fresh address is voted in; its own vote on `z` then is the only one there is. */
  lemma VoteFreshIn(init: seq<Address>, base: nat, h: History, x: Address, z: Address) returns (h': History)
    requires Gated(init, base, h) && x != NO_ADDRESS && z != x
    requires var s := After(init, base, h);
             && |Elements(s.signers)| > Limit(s.signers) && x !in s.signers
             && (forall i :: 0 <= i < |h| ==> h[i].signer != x) && Backers(s.votes, z, true) == {}
    ensures Gated(init, base, h') && After(init, base, h').signers == After(init, base, h).signers + [x]
    ensures (forall i :: 0 <= i < |h'| ==> h'[i].signer != x) && Backers(After(init, base, h').votes, z, true) == {}
    ensures forall i :: |h| <= i < |h'| ==> h'[i].signer in After(init, base, h).signers
    ensures h <= h'
  {
    hide After, MaySign, Gated, Steady;
    SteadyNow(init, base, h);
    assert Elements(After(init, base, h).signers) - {} == Elements(After(init, base, h).signers);
    var h1, b := Carry(init, base, h, 0, x, true, {});
    h' := h1 + [b];
    assert forall i :: 0 <= i < |h| ==> h'[i] == h[i];
  }

  /** A listed signer who never signed votes to add `z`, alone. */
  lemma VoteAlone(init: seq<Address>, base: nat, h: History, x: Address, z: Address)
    requires var s := After(init, base, h);
             && Gated(init, base, h) && x in s.signers && (forall i :: 0 <= i < |h| ==> h[i].signer != x)
             && |s.signers| >= 2 && z != NO_ADDRESS && z !in s.signers && Backers(s.votes, z, true) == {}
    ensures var h' := h + [Block(x, z, true)];
            && Gated(init, base, h') && After(init, base, h').signers == After(init, base, h).signers
            && Backers(After(init, base, h').votes, z, true) == {x}
  {
    hide After, Gated, Backers, Recorded;
    MaySignOnChain(init, base, h, x);
    GatedStep(init, base, h, Block(x, z, true));
    CarryStep(init, base, h, x, z, true);
    RecordedBackers(After(init, base, h).votes, x, z, true);
  }

  lemma BackersElsewhere(votes: Votes, votes': Votes, y: Address, z: Address)
    requires SameElsewhere(votes, votes', y) && z != y
    ensures Backers(votes', z, true) == Backers(votes, z, true)
  {
    forall v ensures v in Backers(votes', z, true) <==> v in Backers(votes, z, true) {
      assert VoteIn(votes', v, z) == VoteIn(votes, v, z);
    }
  }

  /** The signer `x` votes to add `z` and is voted off; then `z` is voted in, and `x` is one of the N/2 + 1. */
  lemma TippedByDeparted(init: seq<Address>, base: nat, h: History, list: seq<Address>, x: Address, z: Address)
    returns (h': History, b: Block)
    requires Gated(init, base, h) && After(init, base, h).signers == list + [x] && x !in list && z !in list + [x]
    requires x != NO_ADDRESS && z != NO_ADDRESS && |list| >= 2 && |Elements(list)| > Limit(list)
    requires Backers(After(init, base, h).votes, z, true) == {x}
    ensures Gated(init, base, h' + [b]) && After(init, base, h').signers == list && b == Block(b.signer, z, true)
    ensures After(init, base, h' + [b]).signers == list + [z]
    ensures var backers := Backers(After(init, base, h').votes, z, true) + {b.signer};
            |backers| == Threshold(list) && x in backers
  {
    hide After, MaySign, Gated, Steady, Elements, Backers;
    ElementsAppend(list, x);
    SteadyNow(init, base, h);
    var h1, b1 := Carry(init, base, h, 0, x, false, {});
    var h2 := h1 + [b1];
    WithoutLast(list, x);
    BackersElsewhere(After(init, base, h).votes, After(init, base, h2).votes, x, z);
    SteadyNow(init, base, h2);
    h', b := Carry(init, base, h2, 0, z, true, {});
  }

  lemma {:induction false} DepartedTip(init: seq<Address>, base: nat) returns (h: History, b: Block)
    requires |Elements(init)| > Limit(init) && |init| <= MAX_VEC
    ensures Gated(init, base, h + [b]) && Changed(init, base, h + [b], |h|, b.author)
    ensures var before := After(init, base, h).signers;
            b.author !in before && |BackersOnChain(init, base, h, b, true) * Elements(before)| < Threshold(before)
  {
    hide After, Gated, MaySign, BackersOnChain;
    ElementsBound(init);
    NothingYet(init, base);
    var w := FreshAddress(Elements(init));
    var x := FreshAddress(Elements(init) + {w});
    var z := FreshAddress(Elements(init) + {w, x});
    StartIsGated(init, base);
    var h1 := VoteFreshIn(init, base, [], w, z);
    var list := init + [w];
    ElementsAppend(init, w);
    assert forall i :: 0 <= i < |h1| ==> h1[i].signer in init;
    var h2 := VoteFreshIn(init, base, h1, x, z);
    VoteAlone(init, base, h2, x, z);
    h, b := TippedByDeparted(init, base, h2 + [Block(x, z, true)], list, x, z);
    OneShort(init, base, h, b, list, x, z);
  }

  lemma StartIsGated(init: seq<Address>, base: nat)
    ensures Gated(init, base, []) && Able([], {})
  {
  }

  lemma OneShort(init: seq<Address>, base: nat, h: History, b: Block, list: seq<Address>, x: Address, z: Address)
    requires After(init, base, h).signers == list && b == Block(b.signer, z, true) && x !in list && z !in list
    requires After(init, base, h + [b]).signers == list + [z]
    requires var backers := Backers(After(init, base, h).votes, z, true) + {b.signer};
             |backers| == Threshold(list) && x in backers
    ensures Changed(init, base, h + [b], |h|, z)
    ensures |BackersOnChain(init, base, h, b, true) * Elements(list)| < Threshold(list)
  {
    hide After, BackersOnChain, Backers, Recorded;
    BackersMatch(init, base, h, b, true);
    RecordedBackers(After(init, base, h).votes, b.signer, z, true);
    var backers := BackersOnChain(init, base, h, b, true);
    SubsetSize(backers * Elements(list), backers - {x});
    assert (h + [b])[..|h|] == h && (h + [b])[..|h| + 1] == h + [b];
  }

  /**
   Every change is carried by signers listed at that time, exactly when no change is possible at all: when the
   different addresses of the configured list are at most half its length.
   */
  lemma ListedCarryChangesUnless(init: seq<Address>, base: nat)
    requires |init| <= MAX_VEC
    ensures ListedCarryChanges(init, base) <==> |Elements(init)| <= Limit(init)
  {
    hide After, BackersOnChain;
    if |Elements(init)| <= Limit(init) {
      forall h: History, b: Block | Gated(init, base, h + [b])
        ensures !Changed(init, base, h + [b], |h|, b.author)
      {
        assert (h + [b])[..|h|] == h && (h + [b])[..|h| + 1] == h + [b];
        GatedPrefix(init, base, h + [b], |h|);
        NothingCarried(init, base, h);
        NothingCarried(init, base, h + [b]);
      }
    } else {
      var h, b := DepartedTip(init, base);
    }
  }

  /** 3 votes to add 4 and is voted off by 1 and 2. */
  const STALE: History := [Block(3, 4, true), Block(1, 3, false), Block(2, 3, false)]

  lemma StaleFirst()
    ensures Voted([1, 2, 3], map[], 4, true, 3) == ([1, 2, 3], map[3 := map[4 := true]])
  {
    var now := Recorded(map[], 3, 4, true);
    assert now == map[3 := map[4 := true]];
    assert Backers(now, 4, true) == {3};
  }

  lemma StaleSecond()
    ensures Voted([1, 2, 3], map[3 := map[4 := true]], 3, false, 1)
            == ([1, 2, 3], map[3 := map[4 := true], 1 := map[3 := false]])
  {
    var now := Recorded(map[3 := map[4 := true]], 1, 3, false);
    assert now == map[3 := map[4 := true], 1 := map[3 := false]];
    assert Backers(now, 3, false) == {1};
  }

  lemma StaleThirdCleared()
    ensures var now := Recorded(map[3 := map[4 := true], 1 := map[3 := false]], 2, 3, false);
            Cleared(now, 3) == map[3 := map[4 := true], 1 := map[], 2 := map[]]
  {
    var now := Recorded(map[3 := map[4 := true], 1 := map[3 := false]], 2, 3, false);
    assert map[4 := true] - {3} == map[4 := true] && map[3 := false] - {3} == map[];
    assert now.Keys == {1, 2, 3} && now[1] == map[3 := false] && now[2] == map[3 := false];
  }

  lemma StaleThird()
    ensures Voted([1, 2, 3], map[3 := map[4 := true], 1 := map[3 := false]], 3, false, 2)
            == ([1, 2], map[3 := map[4 := true], 1 := map[], 2 := map[]])
  {
    var now := Recorded(map[3 := map[4 := true], 1 := map[3 := false]], 2, 3, false);
    assert Backers(now, 3, false) == {1, 2};
    WithoutLast([1, 2], 3);
    assert [1, 2] + [3] == [1, 2, 3];
    StaleThirdCleared();
    hide Backers, Cleared, Recorded, Without;
  }

  lemma StaleStates(base: nat)
    ensures After([1, 2, 3], base, STALE[..1]) == State([1, 2, 3], [(base, 3)], map[3 := map[4 := true]])
    ensures After([1, 2, 3], base, STALE[..2])
            == State([1, 2, 3], [(base, 3), (base + 1, 1)], map[3 := map[4 := true], 1 := map[3 := false]])
  {
    hide Voted;
    StaleFirst();
    StaleSecond();
    assert STALE[..1] == [] + [STALE[0]] && STALE[..2] == STALE[..1] + [STALE[1]];
    AfterStep([1, 2, 3], base, [], STALE[0]);
    AfterStep([1, 2, 3], base, STALE[..1], STALE[1]);
  }

  lemma StaleEnd(base: nat)
    ensures After([1, 2, 3], base, STALE)
            == State([1, 2], [(base + 1, 1), (base + 2, 2)], map[3 := map[4 := true], 1 := map[], 2 := map[]])
  {
    hide Voted, After;
    StaleStates(base);
    StaleThird();
    assert STALE == STALE[..2] + [STALE[2]];
    AfterStep([1, 2, 3], base, STALE[..2], STALE[2]);
    var entries := [(base, 3), (base + 1, 1)] + [(base + 2, 2)];
    assert entries[1..] == [(base + 1, 1), (base + 2, 2)];
    assert Pruned(entries[1..], base + 2, 1) == entries[1..];
    assert Pruned(entries, base + 2, 1) == entries[1..];
  }

  lemma StaleIsGated(base: nat)
    ensures Gated([1, 2, 3], base, STALE + [Block(1, 4, true)])
  {
    hide After;
    StaleStates(base);
    StaleEnd(base);
    var h := STALE + [Block(1, 4, true)];
    assert h[..0] == [] && h[..1] == STALE[..1] && h[..2] == STALE[..2] && h[..3] == STALE;
    StaleStart(base);
  }

  lemma StaleStart(base: nat)
    ensures After([1, 2, 3], base, []) == State([1, 2, 3], [], map[])
  {
  }

  /** Votes of signers since voted off still count: 4 joins with one backer on a list of two. */
  lemma DepartedVotesCount(base: nat)
    ensures var b := Block(1, 4, true);
            var before, after := After([1, 2, 3], base, STALE).signers, After([1, 2, 3], base, STALE + [b]).signers;
            && Gated([1, 2, 3], base, STALE + [b]) && 4 !in before && 4 in after
            && |BackersOnChain([1, 2, 3], base, STALE, b, true) * Elements(before)| < Threshold(before)
  {
    hide After, Gated, BackersOnChain;
    var init, b := [1, 2, 3], Block(1, 4, true);
    StaleIsGated(base);
    StaleEnd(base);
    BackersMatch(init, base, STALE, b, true);
    DepartedBackers();
    ChangesAreBacked(init, base, STALE, b);
    assert {1, 3} * Elements([1, 2]) == {1};
  }

  lemma DepartedBackers()
    ensures Backers(Recorded(map[3 := map[4 := true], 1 := map[], 2 := map[]], 1, 4, true), 4, true) == {1, 3}
  {
  }
}
