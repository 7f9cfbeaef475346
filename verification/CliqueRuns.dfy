/** Whole chains under Clique: the recency window, the rotation of signers, and votes on the signer list. */
module CliqueRuns {
  import opened Wrappers
  import opened Words
  import opened Clique

  /** An accepted block: its signer, the address its header votes on, and the direction of the vote. */
  datatype Block = Block(signer: Address, author: Address, add: bool)

  type History = seq<Block>

  /** The engine's state after the blocks numbered `base`, `base + 1`, and so on. */
  function After(init: seq<Address>, base: nat, h: History): State {
    if h == [] then State(init, [], map[])
    else
      var n := |h| - 1;
      Accepted(After(init, base, h[..n]), base + n, h[n].author, h[n].add, h[n].signer)
  }

  lemma AfterStep(init: seq<Address>, base: nat, h: History, b: Block)
    ensures After(init, base, h + [b]) ==
            Accepted(After(init, base, h), base + |h|, b.author, b.add, b.signer)
  {
    assert (h + [b])[..|h|] == h;
  }

  /** The block passes the two signer checks of `ValidateBlock`. */
  ghost predicate MaySign(s: State, signer: Address, number: nat) {
    signer in s.signers && !Within(s.recent, signer, number, Limit(s.signers))
  }

  /** Every block was let through when it came. */
  ghost predicate Gated(init: seq<Address>, base: nat, h: History) {
    forall i :: 0 <= i < |h| ==> MaySign(After(init, base, h[..i]), h[i].signer, base + i)
  }

  lemma GatedPrefix(init: seq<Address>, base: nat, h: History, n: nat)
    requires Gated(init, base, h) && n <= |h|
    ensures Gated(init, base, h[..n])
  {
    forall i | 0 <= i < n
      ensures MaySign(After(init, base, h[..n][..i]), h[..n][i].signer, base + i)
    {
      assert h[..n][..i] == h[..i];
    }
  }

  lemma GatedStep(init: seq<Address>, base: nat, h: History, b: Block)
    requires Gated(init, base, h) && MaySign(After(init, base, h), b.signer, base + |h|)
    ensures Gated(init, base, h + [b])
  {
    hide After, MaySign;
    var h' := h + [b];
    forall i | 0 <= i < |h'|
      ensures MaySign(After(init, base, h'[..i]), h'[i].signer, base + i)
    {
      assert h'[..i] == h[..i];
      if i == |h| { assert h[..i] == h; }
    }
  }

  // ----- the pruned window answers like the whole history -----

  /** All blocks so far, as window entries. */
  function Whole(base: nat, h: History): (r: Recent)
    ensures |r| == |h| && forall i :: 0 <= i < |h| ==> r[i] == (base + i, h[i].signer)
  {
    seq(|h|, i requires 0 <= i < |h| => (base + i, h[i].signer))
  }

  lemma {:induction false} PrunedIsSuffix(r: Recent, number: nat, limit: nat) returns (k: nat)
    ensures k <= |r| && Pruned(r, number, limit) == r[k..]
    ensures k > 0 ==> number - r[k - 1].0 > limit
  {
    if r != [] && number - r[0].0 > limit {
      var k' := PrunedIsSuffix(r[1..], number, limit);
      k := k' + 1;
    } else {
      k := 0;
    }
  }

  /** One vote lengthens the signer list by at most one. */
  lemma LimitGrowsSlowly(signers: seq<Address>, votes: Votes, author: Address, add: bool, signer: Address)
    ensures Limit(Voted(signers, votes, author, add, signer).0) <= Limit(signers) + 1
  {
    WithoutIsShorter(signers, author);
  }

  lemma WithoutIsShorter(signers: seq<Address>, a: Address)
    ensures |Without(signers, a)| <= |signers|
  {
  }

  lemma WindowStep(w: Recent, w': Recent, k0: nat, entry: (nat, Address), number: nat, limit: nat) returns (k: nat)
    requires k0 <= |w| && w' == w + [entry]
    ensures k0 <= k <= |w'| && Pruned(w[k0..] + [entry], number, limit) == w'[k..]
    ensures k > k0 ==> number - w'[k - 1].0 > limit
  {
    var r := w[k0..] + [entry];
    assert r == w'[k0..];
    var k1 := PrunedIsSuffix(r, number, limit);
    k := k0 + k1;
    assert r[k1..] == w'[k..];
  }

  /**
   The window is a suffix of the history, and what was pruned lies outside the recency limit for the next
   block even though the limit may have grown since.
   */
  lemma {:induction false} WindowIsSuffix(init: seq<Address>, base: nat, h: History) returns (k: nat)
    ensures k <= |h| && After(init, base, h).recent == Whole(base, h)[k..]
    ensures k > 0 ==> |h| - (k - 1) > Limit(After(init, base, h).signers)
  {
    if h == [] {
      k := 0;
    } else {
      var n := |h| - 1;
      var s, b := After(init, base, h[..n]), h[n];
      var k0 := WindowIsSuffix(init, base, h[..n]);
      assert Whole(base, h) == Whole(base, h[..n]) + [(base + n, b.signer)];
      k := WindowStep(Whole(base, h[..n]), Whole(base, h), k0, (base + n, b.signer), base + n, Limit(s.signers));
      LimitGrowsSlowly(s.signers, s.votes, b.author, b.add, b.signer);
    }
  }

  /**
   Pruning loses nothing: along every chain, whatever the votes do to the signer list, the recency test on
   the pruned window gives for every address what it would give on the whole history. And no entry is
   later than the next block, so the test never aborts.
   */
  lemma WindowLosesNothing(init: seq<Address>, base: nat, h: History, signer: Address)
    ensures var s := After(init, base, h);
            Within(s.recent, signer, base + |h|, Limit(s.signers))
            == Within(Whole(base, h), signer, base + |h|, Limit(s.signers))
    ensures var r := After(init, base, h).recent; forall i :: 0 <= i < |r| ==> r[i].0 <= base + |h|
  {
    var s, w := After(init, base, h), Whole(base, h);
    var k := WindowIsSuffix(init, base, h);
    if Within(w, signer, base + |h|, Limit(s.signers)) {
      var i :| 0 <= i < |w| && base + |h| - w[i].0 <= Limit(s.signers) && w[i].1 == signer;
      assert i >= k;
      assert s.recent[i - k] == w[i];
    }
  }

  /**
   Who may sign next, said of the chain alone: a listed signer none of whose blocks is among the last half
   of the signer list's length.
   */
  lemma MaySignOnChain(init: seq<Address>, base: nat, h: History, signer: Address)
    ensures var s := After(init, base, h);
            MaySign(s, signer, base + |h|) <==>
            signer in s.signers && forall i :: 0 <= i < |h| && h[i].signer == signer ==> |h| - i > |s.signers| / 2
  {
    var s, w := After(init, base, h), Whole(base, h);
    WindowLosesNothing(init, base, h, signer);
    if i :| 0 <= i < |h| && h[i].signer == signer && |h| - i <= |s.signers| / 2 {
      assert w[i] == (base + i, signer);
    }
  }

  /** Two blocks by one signer are more than half the signer list apart, as it stood before the second. */
  lemma NoEarlyRepeat(init: seq<Address>, base: nat, h: History, i: nat, j: nat)
    requires Gated(init, base, h) && i < j < |h| && h[i].signer == h[j].signer
    ensures j - i > |After(init, base, h[..j]).signers| / 2
  {
    assert MaySign(After(init, base, h[..j]), h[j].signer, base + j);
    MaySignOnChain(init, base, h[..j], h[j].signer);
    assert h[..j][i] == h[i];
  }

  /** While there are `n` signers, any `n / 2 + 1` consecutive blocks have different signers. */
  lemma FixedSignersRotate(init: seq<Address>, base: nat, h: History, n: nat, i: nat, j: nat)
    requires Gated(init, base, h) && i < j < |h| && j < i + n / 2 + 1
    requires |After(init, base, h[..j]).signers| == n
    ensures h[i].signer != h[j].signer
  {
    if h[i].signer == h[j].signer { NoEarlyRepeat(init, base, h, i, j); }
  }

  // ----- somebody may always sign -----

  function Elements(s: seq<Address>): (r: set<Address>)
    ensures forall a :: a in r <==> a in s
  {
    set a | a in s
  }

  lemma {:induction false} ElementsBound(s: seq<Address>)
    ensures |Elements(s)| <= |s|
  {
    if s != [] {
      ElementsBound(s[1..]);
      assert s == [s[0]] + s[1..];
      assert Elements(s) == {s[0]} + Elements(s[1..]);
    }
  }

  lemma SubsetSize(a: set<Address>, b: set<Address>)
    requires a <= b
    ensures |a| <= |b|
  {
    assert b == a + (b - a);
  }

  /** The signers of the last `k` blocks, in order. */
  function Tail(h: History, k: nat): (r: seq<Address>)
    requires k <= |h|
    ensures |r| == k && forall i :: 0 <= i < k ==> r[i] == h[|h| - k + i].signer
  {
    if k == 0 then [] else Tail(h[..|h| - 1], k - 1) + [h[|h| - 1].signer]
  }

  /** Somebody outside `idle` may sign. */
  ghost predicate SomeoneMaySign(s: State, number: nat, idle: set<Address>) {
    exists a :: a !in idle && MaySign(s, a, number)
  }

  /** A chain whose list holds more different addresses outside `idle` than half its length is not stuck. */
  lemma NeverStuck(init: seq<Address>, base: nat, h: History, idle: set<Address>)
    requires var signers := After(init, base, h).signers; |Elements(signers) - idle| > |signers| / 2
    ensures SomeoneMaySign(After(init, base, h), base + |h|, idle)
  {
    var signers := After(init, base, h).signers;
    var k := if |signers| / 2 <= |h| then |signers| / 2 else |h|;
    var last := Tail(h, k);
    ElementsBound(last);
    if Elements(signers) - idle <= Elements(last) {
      SubsetSize(Elements(signers) - idle, Elements(last));
    } else {
      var a :| a in Elements(signers) - idle && a !in Elements(last);
      MaySignOnChain(init, base, h, a);
      assert forall i :: |h| - k <= i < |h| ==> last[i - (|h| - k)] == h[i].signer;
    }
  }

  predicate Distinct(s: seq<Address>) {
    forall i, j :: 0 <= i < j < |s| ==> s[i] != s[j]
  }

  lemma {:induction false} DistinctSize(s: seq<Address>)
    requires Distinct(s)
    ensures |Elements(s)| == |s|
  {
    if s != [] {
      DistinctSize(s[1..]);
      assert s == [s[0]] + s[1..];
      assert Elements(s) == {s[0]} + Elements(s[1..]);
    }
  }

  lemma {:induction false} WithoutMembers(s: seq<Address>, a: Address)
    ensures a !in Without(s, a)
    ensures forall b :: b != a ==> (b in Without(s, a) <==> b in s)
    ensures Distinct(s) ==> Distinct(Without(s, a))
  {
    if s != [] {
      WithoutMembers(s[1..], a);
      assert s == [s[0]] + s[1..];
      if Distinct(s) { assert s[0] !in s[1..]; }
    }
  }

  /** Votes never put an address on the list twice. */
  lemma {:induction false} SignersStayDistinct(init: seq<Address>, base: nat, h: History)
    requires Distinct(init)
    ensures Distinct(After(init, base, h).signers)
  {
    if h != [] {
      var n := |h| - 1;
      SignersStayDistinct(init, base, h[..n]);
      WithoutMembers(After(init, base, h[..n]).signers, h[n].author);
    }
  }

  /** So a chain started from a list without duplicates is stuck only when voted down to no signers at all. */
  lemma DistinctNeverStuck(init: seq<Address>, base: nat, h: History)
    requires Distinct(init)
    ensures SomeoneMaySign(After(init, base, h), base + |h|, {}) <==> After(init, base, h).signers != []
  {
    var signers := After(init, base, h).signers;
    SignersStayDistinct(init, base, h);
    DistinctSize(signers);
    assert Elements(signers) - {} == Elements(signers);
    if signers != [] { NeverStuck(init, base, h, {}); }
  }

  // ----- votes -----

  /** `p` joined or left the list at block `n`. */
  predicate Changed(init: seq<Address>, base: nat, h: History, n: nat, p: Address)
    requires n < |h|
  {
    (p in After(init, base, h[..n]).signers) != (p in After(init, base, h[..n + 1]).signers)
  }

  /** The latest vote of `v` on `p` since `p` last joined or left, read off the chain. */
  function VoteOnChain(init: seq<Address>, base: nat, h: History, v: Address, p: Address): Option<bool> {
    if h == [] then None
    else
      var n := |h| - 1;
      if h[n].author != p || p == NO_ADDRESS then VoteOnChain(init, base, h[..n], v, p)
      else if Changed(init, base, h, n, p) then None
      else if h[n].signer == v then Some(h[n].add)
      else VoteOnChain(init, base, h[..n], v, p)
  }

  lemma VoteAfterRecording(votes: Votes, voter: Address, proposal: Address, add: bool, v: Address, p: Address)
    ensures VoteIn(Recorded(votes, voter, proposal, add), v, p) ==
            if v == voter && p == proposal then Some(add) else VoteIn(votes, v, p)
  {
  }

  lemma VoteAfterClearing(votes: Votes, proposal: Address, v: Address, p: Address)
    ensures VoteIn(Cleared(votes, proposal), v, p) == if p == proposal then None else VoteIn(votes, v, p)
  {
  }

  /** How one vote changes the list: only at the address voted on, and when it does, its votes are cleared. */
  lemma VotedChanges(signers: seq<Address>, votes: Votes, author: Address, add: bool, signer: Address)
    ensures var (signers', votes') := Voted(signers, votes, author, add, signer);
            && (forall a :: a != author || a == NO_ADDRESS ==> (a in signers' <==> a in signers))
            && (author != NO_ADDRESS ==>
                  votes' == if (author in signers) != (author in signers')
                            then Cleared(Recorded(votes, signer, author, add), author)
                            else Recorded(votes, signer, author, add))
  {
    WithoutMembers(signers, author);
  }

  lemma VotedLookup(signers: seq<Address>, votes: Votes, author: Address, add: bool, signer: Address, v: Address, p: Address)
    ensures var (signers', votes') := Voted(signers, votes, author, add, signer);
            VoteIn(votes', v, p) ==
            if author != p || p == NO_ADDRESS then VoteIn(votes, v, p)
            else if (p in signers) != (p in signers') then None
            else if signer == v then Some(add)
            else VoteIn(votes, v, p)
  {
    VotedChanges(signers, votes, author, add, signer);
    var now := Recorded(votes, signer, author, add);
    VoteAfterRecording(votes, signer, author, add, v, p);
    VoteAfterClearing(now, author, v, p);
  }

  /** The recorded votes are exactly the latest ones on the chain. */
  lemma {:induction false} VotesAreLatest(init: seq<Address>, base: nat, h: History, v: Address, p: Address)
    ensures VoteIn(After(init, base, h).votes, v, p) == VoteOnChain(init, base, h, v, p)
  {
    if h != [] {
      var n := |h| - 1;
      VotesAreLatest(init, base, h[..n], v, p);
      var s := After(init, base, h[..n]);
      assert h[..n + 1] == h;
      VotedLookup(s.signers, s.votes, h[n].author, h[n].add, h[n].signer, v, p);
    }
  }

  /** Everyone who signed a block. */
  function SignersOf(h: History): set<Address> {
    set i | 0 <= i < |h| :: h[i].signer
  }

  /** Those whose latest vote on `b.author`, counting the one in `b`, is `add`. */
  function BackersOnChain(init: seq<Address>, base: nat, h: History, b: Block, add: bool): set<Address> {
    set v | v in SignersOf(h) + {b.signer} &&
            (if v == b.signer then b.add == add else VoteOnChain(init, base, h, v, b.author) == Some(add))
  }

  /** `h[i]` is where `v` last voted on `p`, while on the list, and `p` has not joined or left since. */
  ghost predicate CastAt(init: seq<Address>, base: nat, h: History, i: nat, v: Address, p: Address, add: bool) {
    && i < |h| && h[i] == Block(v, p, add) && v in After(init, base, h[..i]).signers
    && forall j :: i <= j < |h| ==> !Changed(init, base, h, j, p) && (h[j].signer == v && h[j].author == p ==> j == i)
  }

  lemma ChangedOnlyByVote(init: seq<Address>, base: nat, h: History, n: nat, p: Address)
    requires n < |h| && h[n].author != p
    ensures !Changed(init, base, h, n, p)
  {
    var s, b := After(init, base, h[..n]), h[n];
    assert h[..n + 1] == h[..n] + [b];
    AfterStep(init, base, h[..n], b);
    VotedChanges(s.signers, s.votes, b.author, b.add, b.signer);
  }

  lemma CastAtExtends(init: seq<Address>, base: nat, h: History, i: nat, v: Address, p: Address, add: bool)
    requires h != [] && CastAt(init, base, h[..|h| - 1], i, v, p, add)
    requires !Changed(init, base, h, |h| - 1, p) && !(h[|h| - 1].signer == v && h[|h| - 1].author == p)
    ensures CastAt(init, base, h, i, v, p, add)
  {
    hide After;
    var n := |h| - 1;
    var h' := h[..n];
    assert h'[..i] == h[..i];
    forall j | i <= j < |h|
      ensures !Changed(init, base, h, j, p) && (h[j].signer == v && h[j].author == p ==> j == i)
    {
      if j < n {
        assert h'[..j] == h[..j] && h'[..j + 1] == h[..j + 1];
        assert !Changed(init, base, h', j, p) && h'[j] == h[j];
      }
    }
  }

  /** A vote that counts was cast by a listed signer, is its latest, and is not stale. */
  lemma {:induction false} VoteWasCast(init: seq<Address>, base: nat, h: History, v: Address, p: Address) returns (i: nat)
    requires Gated(init, base, h) && p != NO_ADDRESS && VoteOnChain(init, base, h, v, p).Some?
    ensures CastAt(init, base, h, i, v, p, VoteOnChain(init, base, h, v, p).value)
  {
    var n := |h| - 1;
    if h[n].author == p && h[n].signer == v {
      i := n;
      assert MaySign(After(init, base, h[..n]), h[n].signer, base + n);
    } else {
      GatedPrefix(init, base, h, n);
      i := VoteWasCast(init, base, h[..n], v, p);
      if h[n].author != p { ChangedOnlyByVote(init, base, h, n, p); }
      CastAtExtends(init, base, h, i, v, p, VoteOnChain(init, base, h, v, p).value);
    }
  }

  lemma BackersMatch(init: seq<Address>, base: nat, h: History, b: Block, add: bool)
    ensures Backers(Recorded(After(init, base, h).votes, b.signer, b.author, b.add), b.author, add)
            == BackersOnChain(init, base, h, b, add)
  {
    var votes := After(init, base, h).votes;
    var now := Recorded(votes, b.signer, b.author, b.add);
    forall v
      ensures v in Backers(now, b.author, add) <==> v in BackersOnChain(init, base, h, b, add)
    {
      VoteAfterRecording(votes, b.signer, b.author, b.add, v, b.author);
      VotesAreLatest(init, base, h, v, b.author);
      if VoteOnChain(init, base, h, v, b.author).Some? { VoterSigned(init, base, h, v, b.author); }
    }
  }

  lemma {:induction false} VoterSigned(init: seq<Address>, base: nat, h: History, v: Address, p: Address)
    requires VoteOnChain(init, base, h, v, p).Some?
    ensures v in SignersOf(h)
  {
    var n := |h| - 1;
    if h[n].signer != v || h[n].author != p {
      VoterSigned(init, base, h[..n], v, p);
      var i :| 0 <= i < n && h[..n][i].signer == v;
      assert h[i].signer == v;
    }
  }

  /**
   What one block does to the signer list, said of the chain alone: nobody but the address voted on can
   join or leave; it joins exactly when it is not listed and at least N/2 + 1 different voters' latest
   votes since it last changed are to add it, and leaves exactly when it is listed and as many are to
   remove it, N being the length of the list before the block.
   */
  lemma ChangesAreBacked(init: seq<Address>, base: nat, h: History, b: Block)
    ensures var before, after := After(init, base, h).signers, After(init, base, h + [b]).signers;
            && (forall a :: a != b.author || a == NO_ADDRESS ==> (a in after <==> a in before))
            && (b.author != NO_ADDRESS && b.author !in before ==>
                  (b.author in after <==> |BackersOnChain(init, base, h, b, true)| >= |before| / 2 + 1))
            && (b.author != NO_ADDRESS && b.author in before ==>
                  (b.author !in after <==> |BackersOnChain(init, base, h, b, false)| >= |before| / 2 + 1))
  {
    var s := After(init, base, h);
    AfterStep(init, base, h, b);
    VotedChanges(s.signers, s.votes, b.author, b.add, b.signer);
    BackersMatch(init, base, h, b, true);
    BackersMatch(init, base, h, b, false);
    WithoutMembers(s.signers, b.author);
  }

  /** Each backer's vote was cast by a signer listed at the time, is its latest, and is not stale. */
  lemma BackersWereListed(init: seq<Address>, base: nat, h: History, b: Block, add: bool, v: Address)
    requires Gated(init, base, h + [b]) && b.author != NO_ADDRESS
    requires v in BackersOnChain(init, base, h, b, add)
    ensures (v == b.signer && b.add == add && v in After(init, base, h).signers)
            || exists i :: CastAt(init, base, h, i, v, b.author, add)
  {
    if v == b.signer {
      assert (h + [b])[..|h|] == h;
      assert MaySign(After(init, base, (h + [b])[..|h|]), (h + [b])[|h|].signer, base + |h|);
    } else {
      GatedPrefix(init, base, h + [b], |h|);
      assert (h + [b])[..|h|] == h;
      var i := VoteWasCast(init, base, h, v, b.author);
    }
  }

  /** `v` was voted off the list at block `j`. */
  predicate LeftAt(init: seq<Address>, base: nat, h: History, j: nat, v: Address)
    requires j < |h|
  {
    v in After(init, base, h[..j]).signers && v !in After(init, base, h[..j + 1]).signers
  }

  lemma {:induction false} MustHaveLeft(init: seq<Address>, base: nat, h: History, i: nat, v: Address) returns (j: nat)
    requires i <= |h| && v in After(init, base, h[..i]).signers && v !in After(init, base, h).signers
    ensures i <= j < |h| && LeftAt(init, base, h, j, v)
    decreases |h| - i
  {
    hide After;
    assert h[..|h|] == h;
    if LeftAt(init, base, h, i, v) { j := i; } else { j := MustHaveLeft(init, base, h, i + 1, v); }
  }

  /** A backer who is no longer listed has been voted off since casting that vote. */
  lemma UnlistedBackersLeft(init: seq<Address>, base: nat, h: History, b: Block, add: bool, v: Address)
    returns (i: nat, j: nat)
    requires Gated(init, base, h + [b]) && b.author != NO_ADDRESS
    requires v in BackersOnChain(init, base, h, b, add) && v !in After(init, base, h).signers
    ensures CastAt(init, base, h, i, v, b.author, add) && i <= j < |h| && LeftAt(init, base, h, j, v)
  {
    hide After, BackersOnChain;
    BackersWereListed(init, base, h, b, add, v);
    i :| CastAt(init, base, h, i, v, b.author, add);
    j := MustHaveLeft(init, base, h, i, v);
  }

  /** While nobody has been voted off, every change has N/2 + 1 backers on the list at that time. */
  lemma ListedBackers(init: seq<Address>, base: nat, h: History, b: Block, add: bool)
    requires Gated(init, base, h + [b]) && b.author != NO_ADDRESS
    requires forall j, v :: 0 <= j < |h| ==> !LeftAt(init, base, h, j, v)
    ensures BackersOnChain(init, base, h, b, add) <= Elements(After(init, base, h).signers)
  {
    hide After, BackersOnChain, LeftAt;
    forall v | v in BackersOnChain(init, base, h, b, add)
      ensures v in After(init, base, h).signers
    {
      if v !in After(init, base, h).signers { var i, j := UnlistedBackersLeft(init, base, h, b, add, v); }
    }
  }
}
