/** Headers through the engine: which are let through, and what chain the accepted ones make. */
module CliqueImport {
  import opened Wrappers
  import opened Words
  import opened Clique
  import opened CliqueRuns

  /**
   A header is let through exactly when it is signed by somebody who may sign, is not earlier than one period
   unless it is the first block, and has difficulty 1 or 2.
   */
  lemma AcceptedExactly(s: State, period: U64, h: Header)
    ensures Verdict(s, period, h) == Success(()) <==>
            && h.signer.Some? && MaySign(s, h.signer.value, h.number)
            && (h.number == 0 || h.timestamp >= period) && (h.difficulty == 1 || h.difficulty == 2)
  {
  }

  /** Why a header is refused: the first of the tests it fails. */
  lemma RefusedBecause(s: State, period: U64, h: Header)
    ensures Verdict(s, period, h) == Failure(InvalidSignature) <==> h.signer == None
    ensures Verdict(s, period, h) == Failure(Unauthorized) <==> h.signer.Some? && h.signer.value !in s.signers
    ensures Verdict(s, period, h) == Failure(SignedRecently) <==>
            h.signer.Some? && h.signer.value in s.signers && !MaySign(s, h.signer.value, h.number)
    ensures Verdict(s, period, h) == Failure(TooEarly) <==>
            h.signer.Some? && MaySign(s, h.signer.value, h.number) && h.number > 0 && h.timestamp < period
    ensures Verdict(s, period, h) == Failure(InvalidDifficulty) <==>
            && h.signer.Some? && MaySign(s, h.signer.value, h.number)
            && (h.number == 0 || h.timestamp >= period) && h.difficulty != 1 && h.difficulty != 2
  {
  }

  /** The block a header stands for: its vote is to add exactly when its nonce is not zero. */
  function AsBlock(h: Header): Block
    requires h.signer.Some?
  {
    Block(h.signer.value, h.author, h.nonce != 0)
  }

  /** A header that may come after the blocks `h`: the signer may sign, and the other two tests pass. */
  ghost predicate LetThrough(init: seq<Address>, base: nat, period: U64, h: History, x: Header) {
    && x.signer.Some? && MaySign(After(init, base, h), x.signer.value, base + |h|)
    && (base + |h| == 0 || x.timestamp >= period) && (x.difficulty == 1 || x.difficulty == 2)
  }

  /** The blocks of the headers that are let through, each after those before it. */
  ghost function Chosen(init: seq<Address>, base: nat, period: U64, headers: seq<Header>): History {
    if headers == [] then []
    else
      var h, x := Chosen(init, base, period, headers[..|headers| - 1]), headers[|headers| - 1];
      if LetThrough(init, base, period, h, x) then h + [AsBlock(x)] else h
  }

  /** Every header has the number of the next block. */
  ghost predicate Consecutive(init: seq<Address>, base: nat, period: U64, headers: seq<Header>) {
    forall i :: 0 <= i < |headers| ==> headers[i].number == base + |Chosen(init, base, period, headers[..i])|
  }

  lemma NoAbortOnChain(init: seq<Address>, base: nat, h: History, signer: Address)
    ensures var s := After(init, base, h); !ScanAborts(s.recent, signer, base + |h|, Limit(s.signers))
  {
    hide After, Within;
    WindowLosesNothing(init, base, h, signer);
  }

  /**
   Any headers with consecutive numbers, one after the other: the engine ends in the state after the chain of
   those let through, and every block of that chain was let through by the signer checks when it came.
   */
  method ImportAll(e: Engine, base: nat, headers: seq<Header>) returns (ghost h: History)
    requires e.recent == [] && e.votes == map[]
    requires Consecutive(e.signers, base, e.blockPeriod, headers)
    modifies e
    ensures h == Chosen(old(e.signers), base, e.blockPeriod, headers)
    ensures e.View() == After(old(e.signers), base, h) && Gated(old(e.signers), base, h)
  {
    hide Accepted, Gated, MaySign, ScanAborts, Verdict;
    ghost var init := e.signers;
    h := [];
    FreshIsGated(init, base);
    for k := 0 to |headers|
      invariant h == Chosen(init, base, e.blockPeriod, headers[..k])
      invariant e.View() == After(init, base, h) && Gated(init, base, h)
    {
      ghost var x := headers[k];
      assert headers[..k + 1][..k] == headers[..k];
      if x.signer.Some? { NoAbortOnChain(init, base, h, x.signer.value); }
      AcceptedExactly(e.View(), e.blockPeriod, x);
      var r := e.ImportBlock(headers[k]);
      if LetThrough(init, base, e.blockPeriod, h, x) {
        AfterStep(init, base, h, AsBlock(x));
        GatedStep(init, base, h, AsBlock(x));
        h := h + [AsBlock(x)];
      }
    }
    assert headers[..|headers|] == headers;
  }

  lemma FreshIsGated(init: seq<Address>, base: nat)
    ensures Gated(init, base, []) && After(init, base, []) == State(init, [], map[])
  {
  }

  // ----- the window holds no more than it needs -----

  /** Of entries with consecutive numbers up to `number`, those within the limit are kept and no more. */
  lemma {:induction false} PrunedIsTight(recent: Recent, first: nat, number: nat, limit: nat)
    requires forall i :: 0 <= i < |recent| ==> recent[i].0 == first + i
    requires recent != [] ==> first + |recent| == number + 1
    ensures var r := Pruned(recent, number, limit);
            |r| <= limit + 1 && forall i :: 0 <= i < |r| ==> number - r[i].0 <= limit
  {
    if recent != [] && number - recent[0].0 > limit {
      assert forall i :: 0 <= i < |recent[1..]| ==> recent[1..][i] == recent[i + 1];
      PrunedIsTight(recent[1..], first + 1, number, limit);
    }
  }

  /** Along every chain the window holds blocks of the last N/2 and the latest only, N the length before that. */
  lemma WindowIsTight(init: seq<Address>, base: nat, h: History, b: Block)
    ensures var r, n := After(init, base, h + [b]).recent, |After(init, base, h).signers|;
            |r| <= n / 2 + 1 && forall i :: 0 <= i < |r| ==> base + |h| - r[i].0 <= n / 2
  {
    hide After;
    var s := After(init, base, h);
    AfterStep(init, base, h, b);
    var k := WindowIsSuffix(init, base, h);
    var entries := s.recent + [(base + |h|, b.signer)];
    forall i | 0 <= i < |entries|
      ensures entries[i].0 == base + k + i
    {
      if i < |s.recent| { assert s.recent[i] == Whole(base, h)[k + i]; }
    }
    PrunedIsTight(entries, base + k, base + |h|, Limit(s.signers));
    hide Voted;
  }

  /** Removing an address removes it from every part of the list, and leaves everything else where it was. */
  lemma {:induction false} WithoutParts(s: seq<Address>, t: seq<Address>, a: Address)
    ensures Without(s + t, a) == Without(s, a) + Without(t, a)
    ensures forall b :: b != a ==> Without([b], a) == [b]
    ensures Without([a], a) == []
  {
    if s == [] {
      assert s + t == t;
    } else {
      WithoutParts(s[1..], t, a);
      assert (s + t)[1..] == s[1..] + t;
    }
    forall b | b != a ensures Without([b], a) == [b] { assert [b][1..] == []; }
    assert [a][1..] == [];
  }
}
