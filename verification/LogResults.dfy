/** What a filter delivers, said of the stored blocks and of the criteria alone. */
module LogResults {
  import opened Wrappers
  import opened Words
  import opened LogFilter
  import opened LogPolling

  /**
   A log is wanted: no addresses or an empty list are given or its address is listed, and at every position with
   a non-empty list of topics it has one of these topics.
   */
  predicate Wanted(c: Criteria, log: Log) {
    && (c.address == None || c.address == Some([]) || (exists i :: 0 <= i < |c.address.value| && c.address.value[i] == log.address))
    && forall i :: 0 <= i < |c.topics| && c.topics[i] != None && c.topics[i] != Some([]) ==>
         i < |log.topics| && exists j :: 0 <= j < |c.topics[i].value| && c.topics[i].value[j] == log.topics[i]
  }

  lemma WantedIsMatched(c: Criteria, log: Log)
    ensures MatchesLog(c, log) <==> Wanted(c, log)
  {
    if Wanted(c, log) {
      forall i | 0 <= i < |c.topics| ensures TopicMatches(c, log, i) { }
    }
    if MatchesLog(c, log) {
      forall i | 0 <= i < |c.topics| && c.topics[i] != None && c.topics[i] != Some([])
        ensures i < |log.topics| && exists j :: 0 <= j < |c.topics[i].value| && c.topics[i].value[j] == log.topics[i]
      {
        assert TopicMatches(c, log, i);
      }
    }
  }

  /** `p` is the log at its position in `b`, and the block's and the transaction's hash are `b`'s. */
  predicate FoundAt(b: Block, p: PlacedLog) {
    && p.txIndex < |b.receipts| && p.txIndex < |b.txHashes| && p.logIndex < |b.receipts[p.txIndex]|
    && b.receipts[p.txIndex][p.logIndex] == p.log
    && p.blockHash == b.hash && p.blockNumber == b.number && p.txHash == b.txHashes[p.txIndex]
  }

  lemma {:induction false} TxLogsAre(c: Criteria, b: Block, tx: nat, k: nat, p: PlacedLog)
    requires tx < |b.receipts| && k <= |b.receipts[tx]|
    ensures p in TxLogs(c, b, tx, k) <==> FoundAt(b, p) && p.txIndex == tx && p.logIndex < k && Wanted(c, p.log)
  {
    hide MatchesLog, Wanted;
    if k > 0 && tx < |b.txHashes| {
      TxLogsAre(c, b, tx, k - 1, p);
      WantedIsMatched(c, b.receipts[tx][k - 1]);
    }
  }

  lemma {:induction false} BlockLogsAre(c: Criteria, b: Block, t: nat, p: PlacedLog)
    requires t <= |b.receipts|
    ensures p in BlockLogs(c, b, t) <==> FoundAt(b, p) && p.txIndex < t && Wanted(c, p.log)
  {
    hide Wanted, TxLogs;
    if t > 0 {
      BlockLogsAre(c, b, t - 1, p);
      TxLogsAre(c, b, t - 1, |b.receipts[t - 1]|, p);
    }
  }

  /** The logs a scan finds are the wanted ones of the blocks it read. */
  lemma {:induction false} ScanIs(db: Database, c: Criteria, first: nat, n: nat, p: PlacedLog)
    requires Scan(db, c, first, n).Success?
    ensures p in Scan(db, c, first, n).value <==>
            Wanted(c, p.log) && exists k :: first <= k < first + n && k in db.blocks && FoundAt(db.blocks[k], p)
  {
    hide Wanted, FoundAt, BlockLogs, Overruns;
    if n > 0 {
      ScanIs(db, c, first, n - 1, p);
      var last := first + n - 1;
      BlockLogsAre(c, db.blocks[last], |db.blocks[last].receipts|, p);
      FoundIsWithin(db.blocks[last], p);
    }
  }

  lemma FoundIsWithin(b: Block, p: PlacedLog)
    ensures FoundAt(b, p) ==> p.txIndex < |b.receipts|
  {
  }

  // ----- order -----

  /** By block number, then transaction, then position. */
  predicate Precedes(p: PlacedLog, q: PlacedLog) {
    || p.blockNumber < q.blockNumber
    || (p.blockNumber == q.blockNumber && p.txIndex < q.txIndex)
    || (p.blockNumber == q.blockNumber && p.txIndex == q.txIndex && p.logIndex < q.logIndex)
  }

  predicate InOrder(logs: seq<PlacedLog>) {
    forall i, j :: 0 <= i < j < |logs| ==> Precedes(logs[i], logs[j])
  }

  /** Every block is stored under its number. */
  ghost predicate Numbered(db: Database) {
    forall n :: n in db.blocks ==> db.blocks[n].number == n
  }

  lemma InOrderConcat(a: seq<PlacedLog>, b: seq<PlacedLog>)
    requires InOrder(a) && InOrder(b) && forall p, q :: p in a && q in b ==> Precedes(p, q)
    ensures InOrder(a + b)
  {
    hide Precedes;
    var s := a + b;
    forall i, j | 0 <= i < j < |s|
      ensures Precedes(s[i], s[j])
    {
      if i < |a| && j >= |a| { assert s[i] in a && s[j] in b; }
      if i >= |a| { assert s[i] == b[i - |a|] && s[j] == b[j - |a|]; }
    }
  }

  lemma {:induction false} TxLogsInOrder(c: Criteria, b: Block, tx: nat, k: nat)
    requires tx < |b.receipts| && k <= |b.receipts[tx]|
    ensures InOrder(TxLogs(c, b, tx, k))
  {
    hide MatchesLog, InOrder, Precedes;
    if k == 0 || tx >= |b.txHashes| {
      EmptyInOrder();
    } else {
      TxLogsInOrder(c, b, tx, k - 1);
      var last := Place(b, tx, k - 1);
      OneInOrder(last);
      forall p, q | p in TxLogs(c, b, tx, k - 1) && q in [last]
        ensures Precedes(p, q)
      {
        TxLogsAre(c, b, tx, k - 1, p);
        PlacedBefore(b, tx, k - 1, p);
      }
      InOrderConcat(TxLogs(c, b, tx, k - 1), [last]);
    }
  }

  lemma PlacedBefore(b: Block, tx: nat, k: nat, p: PlacedLog)
    requires tx < |b.receipts| && tx < |b.txHashes| && k < |b.receipts[tx]|
    requires FoundAt(b, p) && p.txIndex == tx && p.logIndex < k
    ensures Precedes(p, Place(b, tx, k))
  {
  }

  lemma EmptyInOrder()
    ensures InOrder([])
  {
  }

  lemma OneInOrder(p: PlacedLog)
    ensures InOrder([p])
  {
  }

  lemma {:induction false} BlockLogsInOrder(c: Criteria, b: Block, t: nat)
    requires t <= |b.receipts|
    ensures InOrder(BlockLogs(c, b, t))
  {
    hide TxLogs, InOrder, Wanted;
    if t == 0 {
      EmptyInOrder();
    } else {
      BlockLogsInOrder(c, b, t - 1);
      var n := |b.receipts[t - 1]|;
      TxLogsInOrder(c, b, t - 1, n);
      forall p, q | p in BlockLogs(c, b, t - 1) && q in TxLogs(c, b, t - 1, n)
        ensures Precedes(p, q)
      {
        BlockLogsAre(c, b, t - 1, p);
        TxLogsAre(c, b, t - 1, n, q);
      }
      InOrderConcat(BlockLogs(c, b, t - 1), TxLogs(c, b, t - 1, n));
    }
  }

  /** The logs a scan finds come in order of block, transaction and position, and none twice. */
  lemma {:induction false} ScanInOrder(db: Database, c: Criteria, first: nat, n: nat)
    requires Numbered(db) && Scan(db, c, first, n).Success?
    ensures InOrder(Scan(db, c, first, n).value)
  {
    hide BlockLogs, Overruns, InOrder, Wanted;
    if n == 0 {
      EmptyInOrder();
    } else {
      ScanInOrder(db, c, first, n - 1);
      var last := first + n - 1;
      var b := db.blocks[last];
      BlockLogsInOrder(c, b, |b.receipts|);
      forall p, q | p in Scan(db, c, first, n - 1).value && q in Logs(c, b)
        ensures Precedes(p, q)
      {
        ScanIs(db, c, first, n - 1, p);
        BlockLogsAre(c, b, |b.receipts|, q);
      }
      InOrderConcat(Scan(db, c, first, n - 1).value, Logs(c, b));
    }
  }

  // ----- what is delivered -----

  /** The first and last block of a range: a number as given, the earliest as zero, all else the latest stored. */
  lemma RangeEnds(db: Database, n: nat)
    ensures Resolve(db, Some(Number(n))) == n && Resolve(db, Some(Earliest)) == 0
    ensures Resolve(db, Some(Latest)) == Resolve(db, Some(Pending)) == Resolve(db, None) == db.latest
  {
  }

  /**
   A filter with an absent or non-empty list of addresses returns, of a database whose header filters cover their
   logs, exactly the wanted logs of the stored blocks in its range, each with its position and hashes, in
   order.
   */
  lemma AllLogsAre(keccak: Keccak, db: Database, c: Criteria, p: PlacedLog)
    requires SoundBlooms(keccak, db) && c.address != Some([]) && AllLogs(keccak, db, c).Success?
    ensures p in AllLogs(keccak, db, c).value <==>
            && Wanted(c, p.log)
            && exists k :: Resolve(db, c.fromBlock) <= k <= Resolve(db, c.toBlock) && k in db.blocks && FoundAt(db.blocks[k], p)
    ensures Numbered(db) ==> InOrder(AllLogs(keccak, db, c).value)
  {
    hide Scan, FastScan, Wanted, FoundAt, InOrder, MissingFirst, NothingThere;
    ShortcutIsExact(keccak, db, c);
    ScanIs(db, c, Resolve(db, c.fromBlock), RangeSize(db, c), p);
    if Numbered(db) { ScanInOrder(db, c, Resolve(db, c.fromBlock), RangeSize(db, c)); }
  }

  /** The criteria built give an absent or non-empty list, and one list of topics for each of four positions. */
  lemma BuiltLogsAre(keccak: Keccak, db: Database, calls: seq<BuilderCall>, p: PlacedLog)
    requires SoundBlooms(keccak, db) && AllLogs(keccak, db, BuilderAfter(calls).Build()).Success?
    ensures var c := BuilderAfter(calls).Build();
            && |c.topics| == 4
            && (p in AllLogs(keccak, db, c).value <==>
                && Wanted(c, p.log)
                && exists k :: Resolve(db, c.fromBlock) <= k <= Resolve(db, c.toBlock) && k in db.blocks && FoundAt(db.blocks[k], p))
  {
    hide AllLogs, Wanted, FoundAt;
    AllLogsAre(keccak, db, BuilderAfter(calls).Build(), p);
  }

  /** The builder starts with nothing set. */
  lemma BuilderStarts()
    ensures BuilderAfter([]) == Builder(None, None, [], [None, None, None, None])
  {
  }

  /** A range end or a list of addresses given replaces the one before, and a single address is added. */
  lemma RangeAndAddressCalls(calls: seq<BuilderCall>, n: BlockNumber, a: Address, list: seq<Address>)
    ensures BuilderAfter(calls + [SetFrom(n)]) == BuilderAfter(calls).(fromBlock := Some(n))
    ensures BuilderAfter(calls + [SetTo(n)]) == BuilderAfter(calls).(toBlock := Some(n))
    ensures BuilderAfter(calls + [AddOne(a)]) == BuilderAfter(calls).(addresses := BuilderAfter(calls).addresses + [a])
    ensures BuilderAfter(calls + [SetAll(list)]) == BuilderAfter(calls).(addresses := list)
  {
    assert (calls + [SetFrom(n)])[..|calls|] == calls && (calls + [SetTo(n)])[..|calls|] == calls;
    assert (calls + [AddOne(a)])[..|calls|] == calls && (calls + [SetAll(list)])[..|calls|] == calls;
  }

  /** A list of topics replaces the one at its position, a single topic is added to it, and a fifth position is ignored. */
  lemma TopicCalls(calls: seq<BuilderCall>, i: nat, t: Hash, list: seq<Hash>)
    ensures var b := BuilderAfter(calls);
            if i >= 4 then BuilderAfter(calls + [AddTopicAt(i, t)]) == BuilderAfter(calls + [SetTopicsAt(i, list)]) == b
            else
              && BuilderAfter(calls + [SetTopicsAt(i, list)]) == b.(topics := b.topics[i := Some(list)])
              && BuilderAfter(calls + [AddTopicAt(i, t)]) ==
                 match b.topics[i]
                 case None => b.(topics := b.topics[i := Some([t])])
                 case Some(before) => b.(topics := b.topics[i := Some(before + [t])])
  {
    assert (calls + [AddTopicAt(i, t)])[..|calls|] == calls && (calls + [SetTopicsAt(i, list)])[..|calls|] == calls;
    assert [] + [t] == [t];
  }

  /** What polls delivered and have pending, if none of them repeats, are the wanted logs up to the last block polled. */
  lemma PolledLogsAre(world: Database, c: Criteria, events: seq<Event>, p: PlacedLog)
    requires SeenIn(events, world) && NeverRepeats(c, events)
    ensures var s := AfterEvents(c, events);
            && (p in s.delivered + s.pending <==>
                Wanted(c, p.log) && exists k :: 1 <= k <= s.lastPoll && k in world.blocks && FoundAt(world.blocks[k], p))
            && (Numbered(world) ==> InOrder(s.delivered + s.pending))
  {
    hide AfterEvents, Wanted, FoundAt, NeverRepeats, Scan, PolledUpTo, InOrder;
    PollingIsExact(world, c, events);
    var s := AfterEvents(c, events);
    ScanIs(world, c, 1, s.lastPoll, p);
    if Numbered(world) { ScanInOrder(world, c, 1, s.lastPoll); }
  }
}
