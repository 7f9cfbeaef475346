/** The validator exit queue: exits are scheduled at the earliest epoch with room, a bounded number per epoch. */
module ExitQueue {
  import opened Words
  import S = Sorting

  const MIN_EXIT_DELAY: nat := 4
  const WITHDRAWABILITY_DELAY: nat := 256

  datatype Initiator = Validator | ExecutionLayer | Protocol

  datatype Exit = Exit(validator: nat, pubkey: seq<Byte>, exitEpoch: nat, withdrawableEpoch: nat, initiator: Initiator)

  type Exits = seq<Exit>

  function CountAt(exits: Exits, epoch: nat): nat {
    if exits == [] then 0
    else CountAt(exits[..|exits| - 1], epoch) + (if exits[|exits| - 1].exitEpoch == epoch then 1 else 0)
  }

  function CountFrom(exits: Exits, epoch: nat): nat {
    if exits == [] then 0
    else CountFrom(exits[..|exits| - 1], epoch) + (if exits[|exits| - 1].exitEpoch >= epoch then 1 else 0)
  }

  lemma {:induction false} CountFromSplit(exits: Exits, epoch: nat)
    ensures CountFrom(exits, epoch) == CountAt(exits, epoch) + CountFrom(exits, epoch + 1)
    ensures CountFrom(exits, epoch) <= |exits|
  {
    if exits != [] { CountFromSplit(exits[..|exits| - 1], epoch); }
  }

  /** The first epoch from `epoch` on that has fewer than `limit` exits. */
  function EarliestFree(exits: Exits, limit: nat, epoch: nat): nat
    requires limit > 0
    decreases CountFrom(exits, epoch)
  {
    if CountAt(exits, epoch) < limit then epoch
    else
      CountFromSplit(exits, epoch);
      EarliestFree(exits, limit, epoch + 1)
  }

  /** Every epoch passed over is full, the epoch found has room, and only so many epochs can be full. */
  lemma {:induction false} EarliestFreeIsEarliest(exits: Exits, limit: nat, epoch: nat)
    requires limit > 0
    ensures var e := EarliestFree(exits, limit, epoch);
            && epoch <= e && CountAt(exits, e) < limit
            && (forall k :: epoch <= k < e ==> CountAt(exits, k) >= limit)
            && (e - epoch) * limit <= CountFrom(exits, epoch)
    decreases CountFrom(exits, epoch)
  {
    if CountAt(exits, epoch) >= limit {
      CountFromSplit(exits, epoch);
      EarliestFreeIsEarliest(exits, limit, epoch + 1);
      var e := EarliestFree(exits, limit, epoch);
      DistributeMinusOne(e - epoch, limit);
    }
  }

  /** There is an epoch with room, so that the search can end, exactly when the limit is not zero. */
  lemma RoomUnlessZero(exits: Exits, limit: nat, epoch: nat)
    ensures (exists e: nat :: epoch <= e && CountAt(exits, e) < limit) <==> limit > 0
  {
    if limit > 0 { EarliestFreeIsEarliest(exits, limit, epoch); }
  }

  lemma AtMostQuotient(w: nat, n: nat, limit: nat)
    requires limit > 0 && w * limit <= n
    ensures w <= n / limit
  {
    var q := n / limit;
    assert n == q * limit + n % limit;
    if w > q {
      MulMonotone(q + 1, w, limit);
      DistributeMinusOne(q + 1, limit);
    }
  }

  /** So a new exit waits at most one epoch more for every `limit` exits already pending. */
  lemma WaitIsBounded(exits: Exits, limit: nat, epoch: nat)
    requires limit > 0
    ensures EarliestFree(exits, limit, epoch) <= epoch + |exits| / limit
  {
    var e := EarliestFree(exits, limit, epoch);
    EarliestFreeIsEarliest(exits, limit, epoch);
    CountFromSplit(exits, epoch);
    AtMostQuotient(e - epoch, |exits|, limit);
  }

  // ----- order -----

  function EpochOf(x: Exit): int { x.exitEpoch }

  function Insert(exits: Exits, x: Exit): Exits {
    S.Insert(exits, EpochOf, x)
  }

  predicate DistinctValidators(exits: Exits) {
    forall i, j :: 0 <= i < j < |exits| ==> exits[i].validator != exits[j].validator
  }

  lemma {:induction false} InsertDistinct(exits: Exits, x: Exit)
    requires DistinctValidators(exits) && forall i :: 0 <= i < |exits| ==> exits[i].validator != x.validator
    ensures DistinctValidators(Insert(exits, x))
  {
    if exits != [] && exits[|exits| - 1].exitEpoch > x.exitEpoch {
      InsertDistinct(exits[..|exits| - 1], x);
      S.InsertMembers(exits[..|exits| - 1], EpochOf, x);
    }
  }

  lemma {:induction false} InsertCount(exits: Exits, x: Exit, epoch: nat)
    ensures CountAt(Insert(exits, x), epoch) == CountAt(exits, epoch) + (if x.exitEpoch == epoch then 1 else 0)
  {
    var r := Insert(exits, x);
    if exits == [] || exits[|exits| - 1].exitEpoch <= x.exitEpoch {
      assert r[..|r| - 1] == exits;
    } else {
      var n := |exits| - 1;
      InsertCount(exits[..n], x, epoch);
      assert r[..|r| - 1] == Insert(exits[..n], x);
    }
  }

  // ----- operations -----

  datatype State = State(pending: Exits, processed: Exits)

  datatype Op =
    | Request(validator: nat, pubkey: seq<Byte>, initiator: Initiator, epoch: nat)
    | Process(epoch: nat)

  predicate HasPending(pending: Exits, validator: nat) {
    exists i :: 0 <= i < |pending| && pending[i].validator == validator
  }

  function NewExit(pending: Exits, limit: nat, op: Op): Exit
    requires limit > 0 && op.Request?
  {
    var e := EarliestFree(pending, limit, op.epoch + MIN_EXIT_DELAY);
    Exit(op.validator, op.pubkey, e, e + WITHDRAWABILITY_DELAY, op.initiator)
  }

  function Due(pending: Exits, epoch: nat): Exits {
    if pending == [] then []
    else
      var x := pending[|pending| - 1];
      var rest := Due(pending[..|pending| - 1], epoch);
      if x.exitEpoch <= epoch then rest + [x] else rest
  }

  function NotDue(pending: Exits, epoch: nat): Exits {
    if pending == [] then []
    else
      var x := pending[|pending| - 1];
      var rest := NotDue(pending[..|pending| - 1], epoch);
      if x.exitEpoch <= epoch then rest else rest + [x]
  }

  function Apply(s: State, limit: nat, op: Op): State
    requires limit > 0
  {
    match op
    case Request(validator, _, _, _) =>
      if HasPending(s.pending, validator) then s
      else s.(pending := S.Sort(s.pending + [NewExit(s.pending, limit, op)], EpochOf))
    case Process(epoch) => State(NotDue(s.pending, epoch), s.processed + Due(s.pending, epoch))
  }

  class Manager {
    var pending: Exits
    var processed: Exits
    const limit: nat

    ghost function View(): State
      reads this
    {
      State(pending, processed)
    }

    constructor (limit: nat)
      ensures View() == State([], []) && this.limit == limit
    {
      pending, processed := [], [];
      this.limit := limit;
    }

    method CountExits(epoch: nat) returns (n: nat)
      ensures n == CountAt(pending, epoch)
    {
      n := 0;
      for i := 0 to |pending|
        invariant n == CountAt(pending[..i], epoch)
      {
        if pending[i].exitEpoch == epoch { n := n + 1; }
        assert pending[..i + 1][..i] == pending[..i];
      }
      assert pending[..|pending|] == pending;
    }

    /** With a limit of zero the search has no end. */
    method CalculateExitEpoch(current: nat) returns (epoch: nat)
      requires limit > 0
      ensures epoch == EarliestFree(pending, limit, current + MIN_EXIT_DELAY)
    {
      epoch := current + MIN_EXIT_DELAY;
      while true
        invariant EarliestFree(pending, limit, epoch) == EarliestFree(pending, limit, current + MIN_EXIT_DELAY)
        decreases CountFrom(pending, epoch)
      {
        var n := CountExits(epoch);
        if n < limit { break; }
        CountFromSplit(pending, epoch);
        epoch := epoch + 1;
      }
    }

    method AddExitRequest(validator: nat, pubkey: seq<Byte>, current: nat, initiator: Initiator) returns (ok: bool)
      requires limit > 0
      modifies this
      ensures ok <==> !HasPending(old(pending), validator)
      ensures View() == Apply(old(View()), limit, Request(validator, pubkey, initiator, current))
    {
      for i := 0 to |pending|
        invariant forall j :: 0 <= j < i ==> pending[j].validator != validator
        invariant View() == old(View())
      {
        if pending[i].validator == validator { return false; }
      }
      var epoch := CalculateExitEpoch(current);
      pending := S.Sort(pending + [Exit(validator, pubkey, epoch, epoch + WITHDRAWABILITY_DELAY, initiator)], EpochOf);
      return true;
    }

    method ProcessEpoch(current: nat) returns (done: Exits)
      modifies this
      ensures View() == Apply(old(View()), 1, Process(current)) && done == Due(old(pending), current)
      ensures forall i :: 0 <= i < |pending| ==> pending[i].exitEpoch > current
      ensures forall i :: 0 <= i < |done| ==> done[i].exitEpoch <= current
    {
      done := [];
      var kept: Exits := [];
      assert pending[..0] == [] && Due([], current) == [] && NotDue([], current) == [];
      hide Due, NotDue;
      for i := 0 to |pending|
        invariant pending == old(pending)
        invariant done == Due(pending[..i], current) && kept == NotDue(pending[..i], current)
        invariant processed == old(processed) + done
      {
        SplitStep(pending, i, current);
        if pending[i].exitEpoch <= current {
          done := done + [pending[i]];
          processed := processed + [pending[i]];
        } else {
          kept := kept + [pending[i]];
        }
      }
      assert pending[..|pending|] == pending;
      ProcessTakesDue(pending, current);
      pending := kept;
    }
  }

  lemma SplitStep(pending: Exits, i: nat, epoch: nat)
    requires i < |pending|
    ensures var x := pending[i];
            && Due(pending[..i + 1], epoch) == (if x.exitEpoch <= epoch then Due(pending[..i], epoch) + [x] else Due(pending[..i], epoch))
            && NotDue(pending[..i + 1], epoch) == if x.exitEpoch <= epoch then NotDue(pending[..i], epoch) else NotDue(pending[..i], epoch) + [x]
  {
    assert pending[..i + 1][..i] == pending[..i];
  }

  // ----- whole histories -----

  function After(limit: nat, ops: seq<Op>): State
    requires limit > 0
  {
    if ops == [] then State([], []) else Apply(After(limit, ops[..|ops| - 1]), limit, ops[|ops| - 1])
  }

  /** The epochs the operations were called with never go back. */
  predicate ClockRuns(ops: seq<Op>) {
    forall i, j :: 0 <= i < j < |ops| ==> ops[i].epoch <= ops[j].epoch
  }

  function Clock(ops: seq<Op>): nat {
    if ops == [] then 0 else ops[|ops| - 1].epoch
  }

  ghost predicate Inv(s: State, limit: nat, clock: nat) {
    && S.Sorted(s.pending, EpochOf) && DistinctValidators(s.pending)
    && (forall e :: CountAt(s.pending, e) + CountAt(s.processed, e) <= limit)
    && (forall i :: 0 <= i < |s.processed| ==> s.processed[i].exitEpoch <= clock)
  }

  lemma {:induction false} NothingLater(exits: Exits, clock: nat, e: nat)
    requires (forall i :: 0 <= i < |exits| ==> exits[i].exitEpoch <= clock) && e > clock
    ensures CountAt(exits, e) == 0
  {
    if exits != [] { NothingLater(exits[..|exits| - 1], clock, e); }
  }

  lemma InsertKeepsLimit(pending: Exits, processed: Exits, limit: nat, x: Exit, e: nat)
    requires CountAt(pending, e) + CountAt(processed, e) <= limit
    requires CountAt(pending, x.exitEpoch) < limit && CountAt(processed, x.exitEpoch) == 0
    ensures CountAt(Insert(pending, x), e) + CountAt(processed, e) <= limit
  {
    InsertCount(pending, x, e);
  }

  lemma InsertKeepsInv(s: State, limit: nat, clock: nat, x: Exit)
    requires Inv(s, limit, clock) && clock < x.exitEpoch && CountAt(s.pending, x.exitEpoch) < limit
    requires forall i :: 0 <= i < |s.pending| ==> s.pending[i].validator != x.validator
    ensures Inv(s.(pending := Insert(s.pending, x)), limit, clock)
  {
    S.InsertSorted(s.pending, EpochOf, x);
    InsertDistinct(s.pending, x);
    NothingLater(s.processed, clock, x.exitEpoch);
    forall e
      ensures CountAt(Insert(s.pending, x), e) + CountAt(s.processed, e) <= limit
    {
      InsertKeepsLimit(s.pending, s.processed, limit, x, e);
    }
  }

  lemma RequestKeepsInv(s: State, limit: nat, clock: nat, op: Op)
    requires limit > 0 && Inv(s, limit, clock) && op.Request? && clock <= op.epoch
    ensures Inv(Apply(s, limit, op), limit, op.epoch)
  {
    hide EarliestFree, CountAt;
    if !HasPending(s.pending, op.validator) {
      var x := NewExit(s.pending, limit, op);
      S.SortAppended(s.pending, EpochOf, x);
      EarliestFreeIsEarliest(s.pending, limit, op.epoch + MIN_EXIT_DELAY);
      InsertKeepsInv(s, limit, clock, x);
    }
  }

  lemma {:induction false} SplitCounts(pending: Exits, epoch: nat, e: nat)
    ensures CountAt(Due(pending, epoch), e) + CountAt(NotDue(pending, epoch), e) == CountAt(pending, e)
  {
    if pending == [] {
      assert Due(pending, epoch) == [] && NotDue(pending, epoch) == [];
    } else {
      hide CountAt, Due, NotDue;
      var n := |pending| - 1;
      SplitCounts(pending[..n], epoch, e);
      SplitStep(pending, n, epoch);
      assert pending[..n + 1] == pending;
      if pending[n].exitEpoch <= epoch {
        CountAppend(Due(pending[..n], epoch), pending[n], e);
      } else {
        CountAppend(NotDue(pending[..n], epoch), pending[n], e);
      }
      CountAppend(pending[..n], pending[n], e);
      assert pending == pending[..n] + [pending[n]];
    }
  }

  lemma CountAppend(exits: Exits, x: Exit, e: nat)
    ensures CountAt(exits + [x], e) == CountAt(exits, e) + if x.exitEpoch == e then 1 else 0
  {
    assert (exits + [x])[..|exits|] == exits;
  }

  lemma {:induction false} CountConcat(a: Exits, b: Exits, e: nat)
    ensures CountAt(a + b, e) == CountAt(a, e) + CountAt(b, e)
  {
    if b == [] {
      assert a + b == a;
    } else {
      var n := |b| - 1;
      assert (a + b)[..|a + b| - 1] == a + b[..n];
      CountConcat(a, b[..n], e);
    }
  }

  lemma {:induction false} SplitMembers(pending: Exits, epoch: nat)
    ensures forall i :: 0 <= i < |NotDue(pending, epoch)| ==> NotDue(pending, epoch)[i] in pending
    ensures forall i :: 0 <= i < |Due(pending, epoch)| ==> Due(pending, epoch)[i].exitEpoch <= epoch
  {
    if pending != [] { SplitMembers(pending[..|pending| - 1], epoch); }
  }

  /** Processing takes every exit up to the epoch and leaves every later one, in order. */
  lemma {:induction false} ProcessTakesDue(pending: Exits, epoch: nat)
    ensures forall x :: x in Due(pending, epoch) <==> x in pending && x.exitEpoch <= epoch
    ensures forall x :: x in NotDue(pending, epoch) <==> x in pending && x.exitEpoch > epoch
  {
    if pending != [] {
      var n := |pending| - 1;
      ProcessTakesDue(pending[..n], epoch);
      assert pending == pending[..n] + [pending[n]];
    }
  }

  /** The order among those taken and among those left is the one they had. */
  lemma {:induction false} ProcessKeepsOrder(a: Exits, b: Exits, epoch: nat)
    ensures Due(a + b, epoch) == Due(a, epoch) + Due(b, epoch) && NotDue(a + b, epoch) == NotDue(a, epoch) + NotDue(b, epoch)
  {
    if b == [] {
      assert a + b == a;
    } else {
      var n := |b| - 1;
      ProcessKeepsOrder(a, b[..n], epoch);
      assert (a + b)[..|a + b| - 1] == a + b[..n];
    }
  }

  lemma {:induction false} NotDueKeeps(pending: Exits, epoch: nat)
    requires S.Sorted(pending, EpochOf) && DistinctValidators(pending)
    ensures S.Sorted(NotDue(pending, epoch), EpochOf) && DistinctValidators(NotDue(pending, epoch))
  {
    if pending != [] {
      NotDueKeeps(pending[..|pending| - 1], epoch);
      SplitMembers(pending[..|pending| - 1], epoch);
    }
  }

  lemma {:induction false} SplitMultiset(pending: Exits, epoch: nat)
    ensures multiset(Due(pending, epoch)) + multiset(NotDue(pending, epoch)) == multiset(pending)
  {
    if pending != [] {
      var n := |pending| - 1;
      SplitMultiset(pending[..n], epoch);
      assert pending == pending[..n] + [pending[n]];
    }
  }

  lemma ProcessKeepsInv(s: State, limit: nat, clock: nat, op: Op)
    requires limit > 0 && Inv(s, limit, clock) && op.Process? && clock <= op.epoch
    ensures Inv(Apply(s, limit, op), limit, op.epoch)
  {
    NotDueKeeps(s.pending, op.epoch);
    SplitMembers(s.pending, op.epoch);
    forall e
      ensures CountAt(NotDue(s.pending, op.epoch), e) + CountAt(s.processed + Due(s.pending, op.epoch), e) <= limit
    {
      SplitCounts(s.pending, op.epoch, e);
      CountConcat(s.processed, Due(s.pending, op.epoch), e);
    }
  }

  /**
   Over every history with a clock that does not go back: no epoch ever has more than `limit` exits, pending
   and processed together; the pending list stays sorted and has no validator twice.
   */
  lemma {:induction false} NeverOverbooked(limit: nat, ops: seq<Op>)
    requires limit > 0 && ClockRuns(ops)
    ensures Inv(After(limit, ops), limit, Clock(ops))
  {
    if ops != [] {
      var n := |ops| - 1;
      NeverOverbooked(limit, ops[..n]);
      var s, op := After(limit, ops[..n]), ops[n];
      if op.Request? { RequestKeepsInv(s, limit, Clock(ops[..n]), op); } else { ProcessKeepsInv(s, limit, Clock(ops[..n]), op); }
    }
  }

  /** The exits of the requests that were accepted, in order. */
  function AcceptedExits(limit: nat, ops: seq<Op>): Exits
    requires limit > 0
  {
    if ops == [] then []
    else
      var n := |ops| - 1;
      var s, op := After(limit, ops[..n]), ops[n];
      AcceptedExits(limit, ops[..n]) +
      (if op.Request? && !HasPending(s.pending, op.validator) then [NewExit(s.pending, limit, op)] else [])
  }

  lemma RequestConserves(s: State, limit: nat, op: Op)
    requires limit > 0 && op.Request? && !HasPending(s.pending, op.validator)
    ensures multiset(Apply(s, limit, op).pending) == multiset(s.pending) + multiset{NewExit(s.pending, limit, op)}
    ensures Apply(s, limit, op).processed == s.processed
  {
    S.SortSorts(s.pending + [NewExit(s.pending, limit, op)], EpochOf);
  }

  /** No exit is lost or made up: pending and processed are together the accepted ones. */
  lemma {:induction false} ExitsAreConserved(limit: nat, ops: seq<Op>)
    requires limit > 0
    ensures multiset(After(limit, ops).pending) + multiset(After(limit, ops).processed) == multiset(AcceptedExits(limit, ops))
  {
    if ops != [] {
      var n := |ops| - 1;
      hide S.Sort, NewExit, NotDue, Due;
      ExitsAreConserved(limit, ops[..n]);
      var s, op := After(limit, ops[..n]), ops[n];
      if op.Process? {
        SplitMultiset(s.pending, op.epoch);
      } else if !HasPending(s.pending, op.validator) {
        RequestConserves(s, limit, op);
      }
    }
  }

  // ----- what is counted and what is scheduled -----

  /** The positions of the exits in an epoch. */
  function PlacesAt(exits: Exits, epoch: nat): set<nat> {
    set i: nat | i < |exits| && exits[i].exitEpoch == epoch
  }

  lemma {:induction false} CountIsNumber(exits: Exits, epoch: nat)
    ensures CountAt(exits, epoch) == |PlacesAt(exits, epoch)|
  {
    if exits != [] {
      var n := |exits| - 1;
      CountIsNumber(exits[..n], epoch);
      assert PlacesAt(exits, epoch) == PlacesAt(exits[..n], epoch) + (if exits[n].exitEpoch == epoch then {n} else {});
    }
  }

  /**
   A new exit is that validator's, at the first epoch at least 4 after the request with fewer exits than the limit,
   and withdrawable 256 epochs after that.
   */
  lemma NewExitLaw(pending: Exits, limit: nat, op: Op)
    requires limit > 0 && op.Request?
    ensures var x := NewExit(pending, limit, op);
            && x.validator == op.validator && x.pubkey == op.pubkey && x.initiator == op.initiator
            && x.exitEpoch >= op.epoch + 4 && x.withdrawableEpoch == x.exitEpoch + 256
            && |PlacesAt(pending, x.exitEpoch)| < limit
            && forall e :: op.epoch + 4 <= e < x.exitEpoch ==> |PlacesAt(pending, e)| >= limit
  {
    EarliestFreeIsEarliest(pending, limit, op.epoch + MIN_EXIT_DELAY);
    CountIsNumber(pending, NewExit(pending, limit, op).exitEpoch);
    forall e | op.epoch + 4 <= e < NewExit(pending, limit, op).exitEpoch
      ensures |PlacesAt(pending, e)| >= limit
    {
      CountIsNumber(pending, e);
      assert CountAt(pending, e) >= limit;
    }
  }

  // ----- exits of one validator -----

  /** A request is accepted for a validator with an earlier exit exactly when all of its exits were processed. */
  lemma ExitsAgain(limit: nat, ops: seq<Op>, validator: nat)
    requires limit > 0
    ensures var s := After(limit, ops);
            HasPending(AcceptedExits(limit, ops), validator) && !HasPending(s.pending, validator)
            <==> HasPending(s.processed, validator) && !HasPending(s.pending, validator)
  {
    hide After, AcceptedExits;
    ExitsAreConserved(limit, ops);
    var s, all := After(limit, ops), AcceptedExits(limit, ops);
    if HasPending(all, validator) {
      var i :| 0 <= i < |all| && all[i].validator == validator;
      assert all[i] in multiset(s.pending) + multiset(s.processed);
      assert all[i] in s.pending || all[i] in s.processed;
    }
    if HasPending(s.processed, validator) {
      var i :| 0 <= i < |s.processed| && s.processed[i].validator == validator;
      assert s.processed[i] in multiset(s.processed);
      assert s.processed[i] in multiset(all);
      assert s.processed[i] in all;
    }
  }

  /** Another exit of a validator is at least the delay after any that was processed. */
  lemma AnotherExitIsLater(limit: nat, ops: seq<Op>, op: Op, i: nat)
    requires limit > 0 && ClockRuns(ops + [op]) && op.Request? && i < |After(limit, ops).processed|
    ensures NewExit(After(limit, ops).pending, limit, op).exitEpoch >= After(limit, ops).processed[i].exitEpoch + MIN_EXIT_DELAY
  {
    var s := After(limit, ops);
    assert forall j :: 0 <= j < |ops| ==> ops[j] == (ops + [op])[j];
    assert (ops + [op])[|ops|] == op;
    NeverOverbooked(limit, ops);
    EarliestFreeIsEarliest(s.pending, limit, op.epoch + MIN_EXIT_DELAY);
  }

  /** A request to an empty queue is scheduled right after the delay. */
  lemma OnlyRequest(s: State, v: nat, epoch: nat)
    requires s.pending == []
    ensures var op, x := Request(v, [], Validator, epoch), Exit(v, [], epoch + 4, epoch + 260, Validator);
            NewExit([], 1, op) == x && Apply(s, 1, op) == State([x], s.processed)
  {
    var op, x := Request(v, [], Validator, epoch), Exit(v, [], epoch + 4, epoch + 260, Validator);
    EarliestFreeIsEarliest([], 1, epoch + 4);
    assert EarliestFree([], 1, epoch + 4) == epoch + 4;
    S.SortedIsFixed([x], EpochOf);
    assert [] + [x] == [x];
  }

  lemma OnlyProcess(x: Exit)
    ensures Apply(State([x], []), 1, Process(x.exitEpoch)) == State([], [x])
  {
    assert [x][..0] == [];
    assert Due([], x.exitEpoch) == [] && NotDue([], x.exitEpoch) == [];
    assert [] + [x] == [x];
  }

  /** An exit requested at epoch 0 and processed at 4, and the same validator's again at 5. */
  lemma ValidatorExitsTwice(v: nat)
    ensures AcceptedExits(1, [Request(v, [], Validator, 0), Process(4), Request(v, [], Validator, 5)])
            == [Exit(v, [], 4, 260, Validator), Exit(v, [], 9, 265, Validator)]
  {
    hide Apply, NewExit, S.Sort;
    var ops: seq<Op> := [Request(v, [], Validator, 0), Process(4), Request(v, [], Validator, 5)];
    var first := Exit(v, [], 4, 260, Validator);
    OnlyRequest(State([], []), v, 0);
    OnlyProcess(first);
    OnlyRequest(State([], [first]), v, 5);
    assert ops[..2][..1] == ops[..1] && ops[..1][..0] == [];
    assert After(1, ops[..1]) == State([first], []);
    assert After(1, ops[..2]) == State([], [first]);
    assert AcceptedExits(1, ops[..1]) == [first];
    assert AcceptedExits(1, ops[..2]) == [first];
  }
}
