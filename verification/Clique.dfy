/** Clique proof of authority: who may sign, who signed recently, and votes on the signer list. */
module Clique {
  import opened Wrappers
  import opened Words

  const NO_ADDRESS: Address := 0

  /** What a header says to this engine. `signer` is the address recovered from its signature, if there is one. */
  datatype Header = Header(
    number: nat,
    timestamp: U64,
    difficulty: Word,
    author: Address,
    nonce: U64,
    signer: Option<Address>)
  {
    /** A vote to add (`true`) or to remove (`false`) the author. */
    predicate Adds() { nonce != 0 }
  }

  datatype BlockError = InvalidSignature | Unauthorized | SignedRecently | TooEarly | InvalidDifficulty

  type Recent = seq<(nat, Address)>
  type Votes = map<Address, map<Address, bool>>

  datatype State = State(signers: seq<Address>, recent: Recent, votes: Votes)

  // ----- recent signers -----

  function Limit(signers: seq<Address>): nat {
    |signers| / 2
  }

  /** `signer` is among the entries that are at most `limit` blocks back. */
  ghost predicate Within(recent: Recent, signer: Address, number: int, limit: nat) {
    exists i :: 0 <= i < |recent| && number - recent[i].0 <= limit && recent[i].1 == signer
  }

  /** The scan for `signer` meets an entry later than `number` before it finds a match. */
  ghost predicate ScanAborts(recent: Recent, signer: Address, number: nat, limit: nat) {
    exists k :: 0 <= k < |recent| && recent[k].0 > number && !Within(recent[..k], signer, number, limit)
                && forall i :: 0 <= i < k ==> recent[i].0 <= number
  }

  /** Dropping entries from the front meets one later than `number`. */
  predicate PruningAborts(recent: Recent, number: nat, limit: nat) {
    recent != [] &&
    (recent[0].0 > number || (number - recent[0].0 > limit && PruningAborts(recent[1..], number, limit)))
  }

  lemma {:induction false} OrderedPruningCompletes(recent: Recent, number: nat, limit: nat)
    requires forall i :: 0 <= i < |recent| ==> recent[i].0 <= number
    ensures !PruningAborts(recent, number, limit)
  {
    if recent != [] {
      OrderedPruningCompletes(recent[1..], number, limit);
    }
  }

  function Pruned(recent: Recent, number: nat, limit: nat): Recent {
    if recent != [] && number - recent[0].0 > limit then Pruned(recent[1..], number, limit) else recent
  }

  // ----- votes -----

  function VoteIn(votes: Votes, voter: Address, proposal: Address): Option<bool> {
    if voter in votes && proposal in votes[voter] then Some(votes[voter][proposal]) else None
  }

  function Recorded(votes: Votes, voter: Address, proposal: Address, add: bool): Votes {
    votes[voter := (if voter in votes then votes[voter] else map[])[proposal := add]]
  }

  /** The voters whose recorded vote on `proposal` is `add`. */
  function Backers(votes: Votes, proposal: Address, add: bool): set<Address> {
    set v | v in votes && VoteIn(votes, v, proposal) == Some(add)
  }

  function Cleared(votes: Votes, proposal: Address): Votes {
    map v | v in votes :: votes[v] - {proposal}
  }

  function Without(signers: seq<Address>, a: Address): seq<Address> {
    if signers == [] then []
    else if signers[0] == a then Without(signers[1..], a)
    else [signers[0]] + Without(signers[1..], a)
  }

  function Threshold(signers: seq<Address>): nat {
    |signers| / 2 + 1
  }

  /** Signers and votes after a block by `signer` whose header votes on `author`. */
  function Voted(signers: seq<Address>, votes: Votes, author: Address, add: bool, signer: Address): (seq<Address>, Votes) {
    if author == NO_ADDRESS then (signers, votes)
    else
      var now := Recorded(votes, signer, author, add);
      if |Backers(now, author, true)| >= Threshold(signers) && author !in signers then
        (signers + [author], Cleared(now, author))
      else if |Backers(now, author, false)| >= Threshold(signers) && author in signers then
        (Without(signers, author), Cleared(now, author))
      else (signers, now)
  }

  /** The state after accepting a block: the recency window first, with the old signers, then the vote. */
  function Accepted(s: State, number: nat, author: Address, add: bool, signer: Address): State {
    var recent := Pruned(s.recent + [(number, signer)], number, Limit(s.signers));
    var (signers, votes) := Voted(s.signers, s.votes, author, add, signer);
    State(signers, recent, votes)
  }

  class Engine {
    const blockPeriod: U64
    var signers: seq<Address>
    var recent: Recent
    var votes: Votes

    constructor (validators: seq<Address>, blockPeriod: U64)
      ensures View() == State(validators, [], map[]) && this.blockPeriod == blockPeriod
    {
      this.blockPeriod := blockPeriod;
      signers := validators;
      recent := [];
      votes := map[];
    }

    ghost function View(): State
      reads this
    {
      State(signers, recent, votes)
    }

    /**
     The read-only scan of the window. Subtracting a later number from an earlier one aborts; `None` is that.
     */
    method HasSignedRecently(signer: Address, number: nat) returns (r: Option<bool>)
      ensures r == None <==> ScanAborts(recent, signer, number, Limit(signers))
      ensures r.Some? ==> r.value == Within(recent, signer, number, Limit(signers))
      ensures r == Some(false) ==> forall i :: 0 <= i < |recent| ==> recent[i].0 <= number
    {
      var limit := |signers| / 2;
      for k := 0 to |recent|
        invariant forall i :: 0 <= i < k ==>
                    recent[i].0 <= number && !(number - recent[i].0 <= limit && recent[i].1 == signer)
      {
        if recent[k].0 > number {
          assert !Within(recent[..k], signer, number, limit);
          return None;
        }
        if number - recent[k].0 <= limit && recent[k].1 == signer {
          MatchStopsScan(recent, k, signer, number, limit);
          return Some(true);
        }
      }
      return Some(false);
    }

    /** `false` is an abort: the loop reached an entry later than the new block. */
    method UpdateRecentSigners(number: nat, signer: Address) returns (ok: bool)
      modifies this`recent
      ensures ok <==> !PruningAborts(old(recent) + [(number, signer)], number, Limit(signers))
      ensures ok ==> recent == Pruned(old(recent) + [(number, signer)], number, Limit(signers))
    {
      recent := recent + [(number, signer)];
      var limit := |signers| / 2;
      while recent != []
        invariant Pruned(recent, number, limit) == Pruned(old(recent) + [(number, signer)], number, limit)
        invariant PruningAborts(recent, number, limit) == PruningAborts(old(recent) + [(number, signer)], number, limit)
        decreases |recent|
      {
        if recent[0].0 > number { return false; }
        if number - recent[0].0 <= limit { break; }
        recent := recent[1..];
      }
      return true;
    }

    /** The tally: one pass over the voters, in any order. */
    method CountVotes(proposal: Address) returns (adds: nat, removes: nat)
      ensures adds == |Backers(votes, proposal, true)| && removes == |Backers(votes, proposal, false)|
    {
      ghost var yes, no := Backers(votes, proposal, true), Backers(votes, proposal, false);
      BackersAre(votes, proposal);
      hide Backers;
      ghost var done: set<Address> := {};
      var rest := votes.Keys;
      adds, removes := 0, 0;
      while rest != {}
        invariant rest <= votes.Keys && rest !! done && votes.Keys <= rest + done
        invariant adds == |yes * done| && removes == |no * done|
        decreases |rest|
      {
        var v :| v in rest;
        CountStep(yes, done, v);
        CountStep(no, done, v);
        var vote := VoteIn(votes, v, proposal);
        if vote == Some(true) { adds := adds + 1; } else if vote == Some(false) { removes := removes + 1; }
        rest, done := rest - {v}, done + {v};
      }
      AllCounted(yes, votes.Keys, done);
      AllCounted(no, votes.Keys, done);
    }

    method ClearVotesFor(address: Address)
      modifies this`votes
      ensures votes == Cleared(old(votes), address)
    {
      var rest := votes.Keys;
      while rest != {}
        invariant rest <= votes.Keys == old(votes).Keys
        invariant forall v :: v in votes ==> votes[v] == if v in rest then old(votes)[v] else old(votes)[v] - {address}
        decreases |rest|
      {
        var v :| v in rest;
        votes := votes[v := votes[v] - {address}];
        rest := rest - {v};
      }
    }

    method Retain(address: Address)
      modifies this`signers
      ensures signers == Without(old(signers), address)
    {
      var kept: seq<Address> := [];
      var all := signers;
      for k := 0 to |all|
        invariant kept + Without(all[k..], address) == Without(all, address)
        invariant signers == all
      {
        if all[k] != address { kept := kept + [all[k]]; }
      }
      signers := kept;
    }

    method ProcessVote(author: Address, add: bool, signer: Address)
      modifies this`signers, this`votes
      ensures (signers, votes) == Voted(old(signers), old(votes), author, add, signer)
    {
      if author == NO_ADDRESS { return; }
      votes := Recorded(votes, signer, author, add);
      var threshold := |signers| / 2 + 1;
      var adds, removes := CountVotes(author);
      if adds >= threshold && author !in signers {
        signers := signers + [author];
        ClearVotesFor(author);
      } else if removes >= threshold && author in signers {
        Retain(author);
        ClearVotesFor(author);
      }
    }

    /**
     The checks on a header, in order. The parent the source looks up has a made-up timestamp, the header's
     own less one period but not below zero, so the period check refuses exactly timestamps below one period.
     */
    method ValidateBlock(h: Header) returns (r: Option<Result<(), BlockError>>)
      ensures r == if h.signer.Some? && h.signer.value in signers
                      && ScanAborts(recent, h.signer.value, h.number, Limit(signers))
                   then None else Some(Verdict(View(), blockPeriod, h))
      ensures r == Some(Success(())) ==> forall i :: 0 <= i < |recent| ==> recent[i].0 <= h.number
    {
      if h.signer == None { return Some(Failure(InvalidSignature)); }
      var signer := h.signer.value;
      if signer !in signers { return Some(Failure(Unauthorized)); }
      var recently := HasSignedRecently(signer, h.number);
      if recently == None { return None; }
      if recently.value { return Some(Failure(SignedRecently)); }
      if h.number > 0 {
        var parentTime := if h.timestamp > blockPeriod then h.timestamp - blockPeriod else 0;
        if h.timestamp < parentTime + blockPeriod { return Some(Failure(TooEarly)); }
      }
      if h.difficulty != 1 && h.difficulty != 2 { return Some(Failure(InvalidDifficulty)); }
      return Some(Success(()));
    }

    /** One block through the engine: its checks, then the two updates. `None` is an abort in the checks. */
    method ImportBlock(h: Header) returns (r: Option<Result<(), BlockError>>)
      modifies this
      ensures r == if h.signer.Some? && h.signer.value in old(signers)
                      && ScanAborts(old(recent), h.signer.value, h.number, Limit(old(signers)))
                   then None else Some(Verdict(old(View()), blockPeriod, h))
      ensures View() == if r == Some(Success(()))
                        then Accepted(old(View()), h.number, h.author, h.Adds(), h.signer.value)
                        else old(View())
    {
      r := ValidateBlock(h);
      if r == Some(Success(())) {
        OrderedPruningCompletes(recent + [(h.number, h.signer.value)], h.number, Limit(signers));
        var ok := UpdateRecentSigners(h.number, h.signer.value);
        ProcessVote(h.author, h.Adds(), h.signer.value);
      }
    }
  }

  ghost function Verdict(s: State, period: U64, h: Header): Result<(), BlockError> {
    if h.signer == None then Failure(InvalidSignature)
    else if h.signer.value !in s.signers then Failure(Unauthorized)
    else if Within(s.recent, h.signer.value, h.number, Limit(s.signers)) then Failure(SignedRecently)
    else if h.number > 0 && h.timestamp < period then Failure(TooEarly)
    else if h.difficulty != 1 && h.difficulty != 2 then Failure(InvalidDifficulty)
    else Success(())
  }

  lemma MatchStopsScan(recent: Recent, m: nat, signer: Address, number: nat, limit: nat)
    requires m < |recent| && number - recent[m].0 <= limit && recent[m].1 == signer
    requires forall i :: 0 <= i <= m ==> recent[i].0 <= number
    ensures !ScanAborts(recent, signer, number, limit)
  {
    forall k | m < k < |recent|
      ensures Within(recent[..k], signer, number, limit)
    {
      assert recent[..k][m] == recent[m];
    }
  }

  lemma BackersAre(votes: Votes, proposal: Address)
    ensures forall add, v :: v in Backers(votes, proposal, add) <==> v in votes && VoteIn(votes, v, proposal) == Some(add)
    ensures forall add :: Backers(votes, proposal, add) <= votes.Keys
  {
  }

  lemma AllCounted(s: set<Address>, keys: set<Address>, done: set<Address>)
    requires s <= keys <= done
    ensures s * done == s
  {
  }

  lemma CountStep(s: set<Address>, done: set<Address>, v: Address)
    requires v !in done
    ensures |s * (done + {v})| == |s * done| + (if v in s then 1 else 0)
  {
    if v in s {
      assert s * (done + {v}) == s * done + {v};
    } else {
      assert s * (done + {v}) == s * done;
    }
  }
}
