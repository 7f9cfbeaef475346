/** A log filter over time: polls of a growing chain and clients taking what is pending. */
module LogPolling {
  import opened Wrappers
  import opened Words
  import opened LogFilter

  /** What happens to a filter: a poll of the database as it then is, or a client taking the pending logs. */
  datatype Event = Poll(db: Database) | Drain

  /** Everything delivered so far, everything pending, and how far polls got. */
  datatype Progress = Progress(delivered: seq<PlacedLog>, pending: seq<PlacedLog>, lastPoll: nat)

  ghost function Step(c: Criteria, p: Progress, e: Event): Progress {
    match e
    case Drain => Progress(p.delivered + p.pending, [], p.lastPoll)
    case Poll(db) =>
      var (r, pending, lastPoll) := Polled(db, c, p.pending, p.lastPoll);
      Progress(p.delivered, pending, lastPoll)
  }

  ghost function AfterEvents(c: Criteria, events: seq<Event>): Progress {
    if events == [] then Progress([], [], 0)
    else Step(c, AfterEvents(c, events[..|events| - 1]), events[|events| - 1])
  }

  /** Every poll saw part of `world`: the chain only grew. */
  ghost predicate SeenIn(events: seq<Event>, world: Database) {
    forall i :: 0 <= i < |events| && events[i].Poll? ==> events[i].db.blocks.Items <= world.blocks.Items
  }

  // ----- which polls repeat logs -----

  /** Every block after `from` up to `last` can be read. */
  ghost predicate Complete(db: Database, c: Criteria, from: nat, last: nat) {
    ReadableRange(db, c, from + 1, if from < last then last - from else 0)
  }

  /** Block `k` is the first after `from` that cannot be read. */
  ghost predicate FirstGap(db: Database, c: Criteria, from: nat, k: nat) {
    from < k && Complete(db, c, from, k - 1) && !Readable(db, c, k)
  }

  /** Polling on from `from`, there is a first block that cannot be read, and a matching log up to there. */
  ghost predicate Repeats(db: Database, c: Criteria, from: nat) {
    db.latest <= U64_MAX &&
    exists k, j :: from < j <= k <= db.latest && FirstGap(db, c, from, k) && j in db.blocks && HasLogs(c, db.blocks[j])
  }

  /** How far the polls got, from the databases alone. */
  ghost function PolledUpTo(c: Criteria, events: seq<Event>): nat {
    if events == [] then 0
    else
      var from, e := PolledUpTo(c, events[..|events| - 1]), events[|events| - 1];
      if e.Poll? && from < e.db.latest <= U64_MAX && Complete(e.db, c, from, e.db.latest) then e.db.latest else from
  }

  /** No poll had a gap to stop at after a matching log. */
  ghost predicate NeverRepeats(c: Criteria, events: seq<Event>) {
    forall i :: 0 <= i < |events| && events[i].Poll? ==> !Repeats(events[i].db, c, PolledUpTo(c, events[..i]))
  }

  // ----- scans -----

  lemma {:induction false} FindGap(db: Database, c: Criteria, first: nat, n: nat) returns (i: nat)
    requires Scan(db, c, first, n).Failure?
    ensures i < n && Scan(db, c, first, i).Success? && !Readable(db, c, first + i)
  {
    hide Logs, Overruns;
    if Scan(db, c, first, n - 1).Failure? { i := FindGap(db, c, first, n - 1); } else { i := n - 1; }
  }

  lemma OneFirstGap(db: Database, c: Criteria, from: nat, k: nat, k': nat)
    requires FirstGap(db, c, from, k) && FirstGap(db, c, from, k')
    ensures k == k'
  {
  }

  /** A failing poll leaves logs pending exactly when it repeats. */
  lemma FailedPollFinds(db: Database, c: Criteria, from: nat)
    requires from < db.latest <= U64_MAX && Scan(db, c, from + 1, db.latest - from).Failure?
    ensures Found(db, c, from + 1, db.latest - from) != [] <==> Repeats(db, c, from)
  {
    hide Scan, Found, HasLogs, Logs, Readable;
    var n := db.latest - from;
    var i := FindGap(db, c, from + 1, n);
    var gap := from + 1 + i;
    FoundAtFailure(db, c, from + 1, i, n);
    ScanSucceeds(db, c, from + 1, i);
    ScanFinds(db, c, from + 1, i);
    if gap in db.blocks { LogsEmpty(c, db.blocks[gap]); }
    assert FirstGap(db, c, from, gap);
    forall k: nat | k <= db.latest && FirstGap(db, c, from, k)
      ensures k == gap
    {
      OneFirstGap(db, c, from, k, gap);
    }
  }

  lemma {:induction false} ScanGrows(db: Database, world: Database, c: Criteria, first: nat, n: nat)
    requires db.blocks.Items <= world.blocks.Items && Scan(db, c, first, n).Success?
    ensures Scan(world, c, first, n) == Scan(db, c, first, n)
  {
    hide Logs, Overruns;
    if n > 0 {
      ScanGrows(db, world, c, first, n - 1);
      var k := first + n - 1;
      assert (k, db.blocks[k]) in db.blocks.Items;
    }
  }

  lemma {:induction false} ScanConcat(db: Database, c: Criteria, first: nat, n: nat, m: nat)
    requires Scan(db, c, first, n).Success? && Scan(db, c, first + n, m).Success?
    ensures Scan(db, c, first, n + m) == Success(Scan(db, c, first, n).value + Scan(db, c, first + n, m).value)
  {
    hide Logs, Overruns;
    var a := Scan(db, c, first, n).value;
    if m == 0 {
      assert a + [] == a;
    } else {
      ScanConcat(db, c, first, n, m - 1);
      var k := first + n + m - 1;
      var logs := Logs(c, db.blocks[k]);
      assert a + (Scan(db, c, first + n, m - 1).value + logs) == (a + Scan(db, c, first + n, m - 1).value) + logs;
    }
  }

  // ----- delivery -----

  /** Delivered and pending logs are the matching ones so far, or more of them than there are. */
  ghost predicate Caught(world: Database, c: Criteria, p: Progress, exact: bool) {
    var whole := Scan(world, c, 1, p.lastPoll);
    && whole.Success?
    && (exact ==> p.delivered + p.pending == whole.value)
    && (!exact ==> |p.delivered + p.pending| > |whole.value|)
  }

  lemma PollStepKeeps(world: Database, c: Criteria, p: Progress, db: Database, exact: bool)
    requires db.blocks.Items <= world.blocks.Items && Caught(world, c, p, exact)
    ensures Caught(world, c, Step(c, p, Poll(db)), exact && !Repeats(db, c, p.lastPoll))
    ensures Step(c, p, Poll(db)).lastPoll ==
            if p.lastPoll < db.latest <= U64_MAX && Complete(db, c, p.lastPoll, db.latest) then db.latest else p.lastPoll
  {
    hide Scan, Found, HasLogs, Readable;
    if p.lastPoll < db.latest && db.latest <= U64_MAX {
      var n := db.latest - p.lastPoll;
      ScanSucceeds(db, c, p.lastPoll + 1, n);
      var found := Found(db, c, p.lastPoll + 1, n);
      assert p.delivered + (p.pending + found) == (p.delivered + p.pending) + found;
      if Scan(db, c, p.lastPoll + 1, n).Success? {
        FoundIsWhole(db, c, p.lastPoll + 1, n);
        ScanGrows(db, world, c, p.lastPoll + 1, n);
        ScanConcat(world, c, 1, p.lastPoll, n);
      } else {
        FailedPollFinds(db, c, p.lastPoll);
      }
    }
  }

  lemma NeverRepeatsStep(c: Criteria, events: seq<Event>)
    requires events != []
    ensures var n := |events| - 1;
            NeverRepeats(c, events) <==>
            NeverRepeats(c, events[..n]) && !(events[n].Poll? && Repeats(events[n].db, c, PolledUpTo(c, events[..n])))
  {
    hide PolledUpTo, Repeats;
    var n := |events| - 1;
    assert forall i :: 0 <= i < n ==> events[..n][..i] == events[..i];
  }

  lemma {:induction false} EventsKeep(world: Database, c: Criteria, events: seq<Event>)
    requires SeenIn(events, world)
    ensures AfterEvents(c, events).lastPoll == PolledUpTo(c, events)
    ensures Caught(world, c, AfterEvents(c, events), NeverRepeats(c, events))
  {
    hide Repeats, NeverRepeats, Complete, Polled;
    if events == [] {
      NoEvents(world, c);
    } else {
      var n := |events| - 1;
      EventsKeep(world, c, events[..n]);
      NeverRepeatsStep(c, events);
      var p := AfterEvents(c, events[..n]);
      if events[n].Poll? {
        PollStepKeeps(world, c, p, events[n].db, NeverRepeats(c, events[..n]));
      } else {
        assert (p.delivered + p.pending) + [] == p.delivered + p.pending;
      }
    }
  }

  lemma NoEvents(world: Database, c: Criteria)
    ensures NeverRepeats(c, []) && Caught(world, c, AfterEvents(c, []), true)
  {
  }

  /**
   Polling loses and repeats nothing: over any interleaving of polls and drains on a growing chain, what was
   delivered followed by what is pending is exactly the matching logs of blocks 1 up to the last polled
   one, in order, if and only if no poll met a first block it could not read with a matching log up to
   there. In any other case there are more logs than that.
   */
  lemma PollingIsExact(world: Database, c: Criteria, events: seq<Event>)
    requires SeenIn(events, world)
    ensures var p := AfterEvents(c, events);
            && p.lastPoll == PolledUpTo(c, events)
            && (Scan(world, c, 1, p.lastPoll) == Success(p.delivered + p.pending) <==> NeverRepeats(c, events))
  {
    EventsKeep(world, c, events);
  }

  /** Databases that hold every block up to their latest are delivered exactly once. */
  lemma CompleteIsExact(world: Database, c: Criteria, events: seq<Event>)
    requires SeenIn(events, world)
    requires forall i :: 0 <= i < |events| && events[i].Poll? ==> Complete(events[i].db, c, 0, events[i].db.latest)
    ensures var p := AfterEvents(c, events);
            Scan(world, c, 1, p.lastPoll) == Success(p.delivered + p.pending)
  {
    hide AfterEvents, Scan, PolledUpTo, Readable, HasLogs;
    PollingIsExact(world, c, events);
    forall i | 0 <= i < |events| && events[i].Poll?
      ensures !Repeats(events[i].db, c, PolledUpTo(c, events[..i]))
    {
      var db := events[i].db;
      assert forall k :: 0 < k <= db.latest ==> Readable(db, c, k);
    }
  }

  // ----- a log delivered twice -----

  lemma OneLogPoll(keccak: Keccak, c: Criteria, pending: seq<PlacedLog>)
    requires c == Everything(None)
    ensures Polled(OneLogDb(keccak, 2), c, pending, 0)
            == (Failure(InvalidCriteria), pending + [PlacedLog(Log(5, [], []), 7, 1, 9, 0, 0)], 0)
  {
    hide Scan, Found, Logs;
    var db := OneLogDb(keccak, 2);
    OneLogScan(keccak, 2, None);
    FoundAtFailure(db, c, 1, 1, 2);
  }

  /** Block 2 is announced but missing: two polls, each followed by a drain, deliver the log of block 1 twice. */
  lemma FailedPollsDeliverTwice(keccak: Keccak)
    ensures var poll, log := Poll(OneLogDb(keccak, 2)), PlacedLog(Log(5, [], []), 7, 1, 9, 0, 0);
            AfterEvents(Everything(None), [poll, Drain, poll, Drain]) == Progress([log, log], [], 0)
  {
    hide Polled, OneLogDb, AfterEvents;
    var c, poll, log := Everything(None), Poll(OneLogDb(keccak, 2)), PlacedLog(Log(5, [], []), 7, 1, 9, 0, 0);
    OneLogPoll(keccak, c, []);
    assert [] + [log] == [log] && [log] + [log] == [log, log];
    NothingHappened(c);
    var e1, e2, e3: seq<Event> := [poll], [poll, Drain], [poll, Drain, poll];
    EventStep(c, [], poll);
    assert [] + [poll] == e1;
    assert AfterEvents(c, e1) == Progress([], [log], 0);
    EventStep(c, e1, Drain);
    assert e1 + [Drain] == e2;
    assert AfterEvents(c, e2) == Progress([log], [], 0);
    EventStep(c, e2, poll);
    assert e2 + [poll] == e3;
    assert AfterEvents(c, e3) == Progress([log], [log], 0);
    EventStep(c, e3, Drain);
    assert e3 + [Drain] == [poll, Drain, poll, Drain];
  }

  lemma NothingHappened(c: Criteria)
    ensures AfterEvents(c, []) == Progress([], [], 0)
  {
  }

  lemma EventStep(c: Criteria, events: seq<Event>, e: Event)
    ensures AfterEvents(c, events + [e]) == Step(c, AfterEvents(c, events), e)
  {
    assert (events + [e])[..|events|] == events;
  }
}
