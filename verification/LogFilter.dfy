/** Log filters: scanning a range of blocks with a bloom shortcut, and polling for new matching logs. */
module LogFilter {
  import opened Wrappers
  import opened Words
  import Bloom
  import EvmMemory

  type Hash = Word

  datatype Log = Log(address: Address, topics: seq<Hash>, data: seq<Byte>)

  /** A log with the position the filter fills in. */
  datatype PlacedLog = PlacedLog(log: Log, blockHash: Hash, blockNumber: nat, txHash: Hash, txIndex: nat, logIndex: nat)

  /** A stored block with the logs of its receipts, one sequence per transaction. */
  datatype Block = Block(hash: Hash, number: nat, bloom: Bloom.Bytes, txHashes: seq<Hash>, receipts: seq<seq<Log>>)

  /** The database: the latest block number and the blocks found under their numbers. */
  datatype Database = Database(latest: nat, blocks: map<nat, Block>)

  datatype BlockNumber = Number(n: nat) | Latest | Earliest | Pending

  datatype Criteria = Criteria(
    fromBlock: Option<BlockNumber>,
    toBlock: Option<BlockNumber>,
    address: Option<seq<Address>>,
    topics: seq<Option<seq<Hash>>>)

  datatype FilterError = InvalidCriteria | Panic

  // ----- matching -----

  predicate AddressMatches(c: Criteria, log: Log) {
    c.address.Some? && c.address.value != [] ==> log.address in c.address.value
  }

  predicate TopicMatches(c: Criteria, log: Log, i: nat)
    requires i < |c.topics|
  {
    c.topics[i].Some? && c.topics[i].value != [] ==> i < |log.topics| && log.topics[i] in c.topics[i].value
  }

  predicate MatchesLog(c: Criteria, log: Log) {
    AddressMatches(c, log) && forall i :: 0 <= i < |c.topics| ==> TopicMatches(c, log, i)
  }

  // ----- the plain scan -----

  function Place(b: Block, tx: nat, k: nat): PlacedLog
    requires tx < |b.receipts| && tx < |b.txHashes| && k < |b.receipts[tx]|
  {
    PlacedLog(b.receipts[tx][k], b.hash, b.number, b.txHashes[tx], tx, k)
  }

  /** The matching ones among the first `k` logs of a receipt, if the block has a transaction for it. */
  function TxLogs(c: Criteria, b: Block, tx: nat, k: nat): seq<PlacedLog>
    requires tx < |b.receipts| && k <= |b.receipts[tx]|
  {
    if k == 0 || tx >= |b.txHashes| then []
    else if MatchesLog(c, b.receipts[tx][k - 1]) then TxLogs(c, b, tx, k - 1) + [Place(b, tx, k - 1)]
    else TxLogs(c, b, tx, k - 1)
  }

  /** The matching logs of the first `t` receipts. */
  function BlockLogs(c: Criteria, b: Block, t: nat): seq<PlacedLog>
    requires t <= |b.receipts|
  {
    if t == 0 then [] else BlockLogs(c, b, t - 1) + TxLogs(c, b, t - 1, |b.receipts[t - 1]|)
  }

  function Logs(c: Criteria, b: Block): seq<PlacedLog> {
    BlockLogs(c, b, |b.receipts|)
  }

  /** A matching log has no transaction: looking that up aborts. */
  ghost predicate Overruns(c: Criteria, b: Block) {
    exists tx, k :: |b.txHashes| <= tx < |b.receipts| && 0 <= k < |b.receipts[tx]| && MatchesLog(c, b.receipts[tx][k])
  }

  /** The block is there and every matching log in it has its transaction. */
  ghost predicate Readable(db: Database, c: Criteria, number: nat) {
    number in db.blocks && !Overruns(c, db.blocks[number])
  }

  /** The matching logs of the `n` blocks from `first` on; an error if one is missing, an abort if one overruns. */
  ghost function Scan(db: Database, c: Criteria, first: nat, n: nat): Result<seq<PlacedLog>, FilterError> {
    if n == 0 then Success([])
    else
      var logs :- Scan(db, c, first, n - 1);
      var number := first + n - 1;
      if number !in db.blocks then Failure(InvalidCriteria)
      else if Overruns(c, db.blocks[number]) then Failure(Panic)
      else Success(logs + Logs(c, db.blocks[number]))
  }

  function Resolve(db: Database, n: Option<BlockNumber>): nat {
    match n
    case Some(Number(k)) => k
    case Some(Earliest) => 0
    case _ => db.latest
  }

  /** Both ends are 64-bit numbers; others abort. */
  predicate RangeFits(db: Database, c: Criteria) {
    Resolve(db, c.fromBlock) <= U64_MAX && Resolve(db, c.toBlock) <= U64_MAX
  }

  /** The blocks of the inclusive range, block by block. */
  ghost function PlainScan(db: Database, c: Criteria): Result<seq<PlacedLog>, FilterError> {
    var first := Resolve(db, c.fromBlock);
    if !RangeFits(db, c) then Failure(Panic)
    else Scan(db, c, first, RangeSize(db, c))
  }

  // ----- the shortcut -----

  type Keccak = seq<Byte> -> Bloom.Digest

  function AddressDigest(keccak: Keccak, a: Address): Bloom.Digest {
    keccak(EvmMemory.ToBigEndian(a, 20))
  }

  /** The block is passed over: a list of addresses is given and the filter denies each of them. */
  ghost predicate Skipped(keccak: Keccak, c: Criteria, b: Block) {
    c.address.Some? && forall a :: a in c.address.value ==> !Bloom.ContainsHash(b.bloom, AddressDigest(keccak, a))
  }

  ghost function FastScan(keccak: Keccak, db: Database, c: Criteria, first: nat, n: nat): Result<seq<PlacedLog>, FilterError> {
    if n == 0 then Success([])
    else
      var logs :- FastScan(keccak, db, c, first, n - 1);
      var number := first + n - 1;
      if number !in db.blocks then Failure(InvalidCriteria)
      else if Skipped(keccak, c, db.blocks[number]) then Success(logs)
      else if Overruns(c, db.blocks[number]) then Failure(Panic)
      else Success(logs + Logs(c, db.blocks[number]))
  }

  ghost function AllLogs(keccak: Keccak, db: Database, c: Criteria): Result<seq<PlacedLog>, FilterError> {
    var first := Resolve(db, c.fromBlock);
    if !RangeFits(db, c) then Failure(Panic)
    else FastScan(keccak, db, c, first, RangeSize(db, c))
  }

  /** The header filter was built by adding, among other things, the address of every log of the block. */
  ghost predicate CoversLogs(keccak: Keccak, b: Block) {
    exists hashes: seq<Bloom.Digest>, start: Bloom.Bytes ::
      b.bloom == Bloom.AddAll(start, hashes) &&
      forall tx, k :: 0 <= tx < |b.receipts| && 0 <= k < |b.receipts[tx]| ==>
        AddressDigest(keccak, b.receipts[tx][k].address) in hashes
  }

  ghost predicate SoundBlooms(keccak: Keccak, db: Database) {
    forall n :: n in db.blocks ==> CoversLogs(keccak, db.blocks[n])
  }

  lemma CoveredAddressFound(keccak: Keccak, b: Block, tx: nat, k: nat)
    requires CoversLogs(keccak, b) && tx < |b.receipts| && k < |b.receipts[tx]|
    ensures Bloom.ContainsHash(b.bloom, AddressDigest(keccak, b.receipts[tx][k].address))
  {
    var hashes: seq<Bloom.Digest>, start: Bloom.Bytes :|
      b.bloom == Bloom.AddAll(start, hashes) &&
      forall tx, k :: 0 <= tx < |b.receipts| && 0 <= k < |b.receipts[tx]| ==>
        AddressDigest(keccak, b.receipts[tx][k].address) in hashes;
    Bloom.NoFalseNegatives(start, hashes, AddressDigest(keccak, b.receipts[tx][k].address));
  }

  lemma SkippedNoMatch(keccak: Keccak, c: Criteria, b: Block, tx: nat, k: nat)
    requires CoversLogs(keccak, b) && Skipped(keccak, c, b) && c.address != Some([])
    requires tx < |b.receipts| && k < |b.receipts[tx]|
    ensures !MatchesLog(c, b.receipts[tx][k])
  {
    hide CoversLogs, AddressDigest, TopicMatches;
    CoveredAddressFound(keccak, b, tx, k);
  }

  lemma {:induction false} NoMatchNoTxLogs(c: Criteria, b: Block, tx: nat, k: nat)
    requires tx < |b.receipts| && k <= |b.receipts[tx]|
    requires forall i :: 0 <= i < k ==> !MatchesLog(c, b.receipts[tx][i])
    ensures TxLogs(c, b, tx, k) == []
  {
    hide MatchesLog;
    if k > 0 { NoMatchNoTxLogs(c, b, tx, k - 1); }
  }

  /** A block passed over has no matching log. */
  lemma {:induction false} SkippedBlockEmpty(keccak: Keccak, c: Criteria, b: Block, t: nat)
    requires CoversLogs(keccak, b) && Skipped(keccak, c, b) && c.address != Some([]) && t <= |b.receipts|
    ensures BlockLogs(c, b, t) == [] && !Overruns(c, b)
  {
    hide CoversLogs, Skipped, TxLogs, MatchesLog;
    forall tx, k | 0 <= tx < |b.receipts| && 0 <= k < |b.receipts[tx]|
      ensures !MatchesLog(c, b.receipts[tx][k])
    {
      SkippedNoMatch(keccak, c, b, tx, k);
    }
    if t > 0 {
      SkippedBlockEmpty(keccak, c, b, t - 1);
      NoMatchNoTxLogs(c, b, t - 1, |b.receipts[t - 1]|);
    }
  }

  lemma {:induction false} FastScanIsScan(keccak: Keccak, db: Database, c: Criteria, first: nat, n: nat)
    requires SoundBlooms(keccak, db) && c.address != Some([])
    ensures FastScan(keccak, db, c, first, n) == Scan(db, c, first, n)
  {
    hide CoversLogs, BlockLogs, Skipped, Overruns;
    if n > 0 {
      FastScanIsScan(keccak, db, c, first, n - 1);
      var number := first + n - 1;
      if number in db.blocks && Skipped(keccak, c, db.blocks[number]) {
        SkippedBlockEmpty(keccak, c, db.blocks[number], |db.blocks[number].receipts|);
        if Scan(db, c, first, n - 1).Success? {
          var logs := Scan(db, c, first, n - 1).value;
          assert logs + [] == logs;
        }
      }
    }
  }

  /** With an empty list of addresses every block is passed over, so all that matters is that it is there. */
  lemma {:induction false} EmptyListFindsNothing(keccak: Keccak, db: Database, c: Criteria, first: nat, n: nat)
    requires c.address == Some([])
    ensures var r := FastScan(keccak, db, c, first, n);
            && (r == Success([]) || r == Failure(InvalidCriteria))
            && (Scan(db, c, first, n).Success? ==> r == Success([]))
            && (Scan(db, c, first, n) == Failure(InvalidCriteria) ==> r == Failure(InvalidCriteria))
  {
    hide BlockLogs, Overruns;
    if n > 0 { EmptyListFindsNothing(keccak, db, c, first, n - 1); }
  }

  // ----- what a scan says of the blocks -----

  /** The `n` blocks from `first` on can all be read. */
  ghost predicate ReadableRange(db: Database, c: Criteria, first: nat, n: nat) {
    forall k :: first <= k < first + n ==> Readable(db, c, k)
  }

  /** The first of these blocks that cannot be read is missing. */
  ghost predicate MissingFirst(db: Database, c: Criteria, first: nat, n: nat) {
    exists k :: first <= k < first + n && k !in db.blocks && ReadableRange(db, c, first, k - first)
  }

  /** A log in it matches and has its transaction. */
  ghost predicate HasLogs(c: Criteria, b: Block) {
    exists tx, k :: 0 <= tx < |b.receipts| && tx < |b.txHashes| && 0 <= k < |b.receipts[tx]| && MatchesLog(c, b.receipts[tx][k])
  }

  lemma {:induction false} ScanSucceeds(db: Database, c: Criteria, first: nat, n: nat)
    ensures Scan(db, c, first, n).Success? <==> ReadableRange(db, c, first, n)
  {
    hide Logs, Overruns;
    if n > 0 {
      ScanSucceeds(db, c, first, n - 1);
      assert Scan(db, c, first, n).Success? <==> Scan(db, c, first, n - 1).Success? && Readable(db, c, first + n - 1);
    }
  }

  lemma MissingFirstStep(db: Database, c: Criteria, first: nat, n: nat)
    requires n > 0
    ensures MissingFirst(db, c, first, n) <==>
            MissingFirst(db, c, first, n - 1) || (first + n - 1 !in db.blocks && ReadableRange(db, c, first, n - 1))
  {
    hide ReadableRange;
    var last := first + n - 1;
    assert last - first == n - 1;
  }

  /** A scan answers that a block is missing exactly when the first it cannot read is. */
  lemma {:induction false} ScanMissesBlock(db: Database, c: Criteria, first: nat, n: nat)
    ensures Scan(db, c, first, n) == Failure(InvalidCriteria) <==> MissingFirst(db, c, first, n)
  {
    hide Logs, Overruns, ReadableRange, MissingFirst;
    if n > 0 {
      ScanMissesBlock(db, c, first, n - 1);
      MissingFirstStep(db, c, first, n);
      ScanSucceeds(db, c, first, n - 1);
    } else {
      NoneMissing(db, c, first);
    }
  }

  lemma NoneMissing(db: Database, c: Criteria, first: nat)
    ensures !MissingFirst(db, c, first, 0)
  {
  }

  lemma {:induction false} TxLogsEmpty(c: Criteria, b: Block, tx: nat, k: nat)
    requires tx < |b.receipts| && k <= |b.receipts[tx]|
    ensures TxLogs(c, b, tx, k) != [] <==> tx < |b.txHashes| && exists i :: 0 <= i < k && MatchesLog(c, b.receipts[tx][i])
  {
    hide MatchesLog;
    if k > 0 { TxLogsEmpty(c, b, tx, k - 1); }
  }

  lemma {:induction false} BlockLogsEmpty(c: Criteria, b: Block, t: nat)
    requires t <= |b.receipts|
    ensures BlockLogs(c, b, t) != [] <==>
            exists tx, k :: 0 <= tx < t && tx < |b.txHashes| && 0 <= k < |b.receipts[tx]| && MatchesLog(c, b.receipts[tx][k])
  {
    hide MatchesLog, TxLogs;
    if t > 0 {
      BlockLogsEmpty(c, b, t - 1);
      TxLogsEmpty(c, b, t - 1, |b.receipts[t - 1]|);
    }
  }

  lemma LogsEmpty(c: Criteria, b: Block)
    ensures Logs(c, b) != [] <==> HasLogs(c, b)
  {
    BlockLogsEmpty(c, b, |b.receipts|);
  }

  lemma {:induction false} ScanFinds(db: Database, c: Criteria, first: nat, n: nat)
    requires Scan(db, c, first, n).Success?
    ensures Scan(db, c, first, n).value != [] <==>
            exists j :: first <= j < first + n && j in db.blocks && HasLogs(c, db.blocks[j])
  {
    hide Logs, Overruns, HasLogs;
    if n > 0 {
      ScanFinds(db, c, first, n - 1);
      LogsEmpty(c, db.blocks[first + n - 1]);
    }
  }

  /** The number of blocks in the inclusive range. */
  function RangeSize(db: Database, c: Criteria): nat {
    var first, last := Resolve(db, c.fromBlock), Resolve(db, c.toBlock);
    if first <= last then last - first + 1 else 0
  }

  /** All blocks of the range can be read, and no log in them matches. */
  ghost predicate NothingThere(db: Database, c: Criteria, first: nat, n: nat) {
    ReadableRange(db, c, first, n) && forall k :: first <= k < first + n && k in db.blocks ==> !HasLogs(c, db.blocks[k])
  }

  lemma ScanFindsNothing(db: Database, c: Criteria, first: nat, n: nat)
    ensures Scan(db, c, first, n) == Success([]) <==> NothingThere(db, c, first, n)
  {
    hide Scan, HasLogs, ReadableRange;
    ScanSucceeds(db, c, first, n);
    if Scan(db, c, first, n).Success? { ScanFinds(db, c, first, n); }
  }

  /**
   The shortcut changes nothing, on every database whose header filters cover their logs: except that an
   empty list of addresses, which matches every address log by log, makes it find nothing at all.
   */
  lemma ShortcutIsExact(keccak: Keccak, db: Database, c: Criteria)
    requires SoundBlooms(keccak, db)
    ensures AllLogs(keccak, db, c) == PlainScan(db, c) <==>
            || c.address != Some([]) || !RangeFits(db, c)
            || MissingFirst(db, c, Resolve(db, c.fromBlock), RangeSize(db, c))
            || NothingThere(db, c, Resolve(db, c.fromBlock), RangeSize(db, c))
  {
    hide FastScan, Scan, MissingFirst, NothingThere;
    var first, n := Resolve(db, c.fromBlock), RangeSize(db, c);
    ScanMissesBlock(db, c, first, n);
    ScanFindsNothing(db, c, first, n);
    if c.address == Some([]) {
      EmptyListFindsNothing(keccak, db, c, first, n);
    } else {
      FastScanIsScan(keccak, db, c, first, n);
    }
  }

  // ----- one log that is not found -----

  /** A block with one transaction and one log, and a header filter that covers it. */
  function OneLogBlock(keccak: Keccak): Block {
    Block(7, 1, Bloom.AddAll(Bloom.EmptyFilter(), [AddressDigest(keccak, 5)]), [9], [[Log(5, [], [])]])
  }

  /** Block 1 alone is stored, whatever the latest number says. */
  function OneLogDb(keccak: Keccak, latest: nat): Database {
    Database(latest, map[1 := OneLogBlock(keccak)])
  }

  function Everything(address: Option<seq<Address>>): Criteria {
    Criteria(Some(Number(1)), None, address, [])
  }

  lemma OneLogScan(keccak: Keccak, latest: nat, address: Option<seq<Address>>)
    requires address == None || address == Some([])
    ensures Logs(Everything(address), OneLogBlock(keccak)) == [PlacedLog(Log(5, [], []), 7, 1, 9, 0, 0)]
    ensures Scan(OneLogDb(keccak, latest), Everything(address), 1, 1) == Success([PlacedLog(Log(5, [], []), 7, 1, 9, 0, 0)])
  {
    var c, b := Everything(address), OneLogBlock(keccak);
    assert MatchesLog(c, b.receipts[0][0]);
    assert TxLogs(c, b, 0, 0) == [];
    assert TxLogs(c, b, 0, 1) == [Place(b, 0, 0)];
    assert BlockLogs(c, b, 0) == [];
    assert BlockLogs(c, b, 1) == [Place(b, 0, 0)];
    assert Scan(OneLogDb(keccak, latest), c, 1, 0) == Success([]);
  }

  /** An empty list of addresses: the log matches, and the scan with the shortcut does not find it. */
  lemma EmptyListMissesLog(keccak: Keccak)
    ensures var db, c := OneLogDb(keccak, 1), Everything(Some([]));
            && SoundBlooms(keccak, db) && |OneLogBlock(keccak).bloom| == Bloom.FILTER_BYTES
            && AllLogs(keccak, db, c) == Success([])
            && PlainScan(db, c) == Success([PlacedLog(Log(5, [], []), 7, 1, 9, 0, 0)])
  {
    hide Scan, FastScan, Logs;
    var db, c := OneLogDb(keccak, 1), Everything(Some([]));
    OneLogScan(keccak, 1, Some([]));
    EmptyListFindsNothing(keccak, db, c, 1, 1);
    OneLogCovered(keccak);
  }

  lemma OneLogCovered(keccak: Keccak)
    ensures CoversLogs(keccak, OneLogBlock(keccak)) && |OneLogBlock(keccak).bloom| == Bloom.FILTER_BYTES
  {
    hide AddressDigest;
    Bloom.AddAllLength(Bloom.EmptyFilter(), [AddressDigest(keccak, 5)]);
    var b, hashes := OneLogBlock(keccak), [AddressDigest(keccak, 5)];
    assert b.bloom == Bloom.AddAll(Bloom.EmptyFilter(), hashes);
    assert forall tx, k :: 0 <= tx < |b.receipts| && 0 <= k < |b.receipts[tx]| ==>
             AddressDigest(keccak, b.receipts[tx][k].address) in hashes;
  }

  // ----- the builder -----

  datatype Builder = Builder(
    fromBlock: Option<BlockNumber>,
    toBlock: Option<BlockNumber>,
    addresses: seq<Address>,
    topics: seq<Option<seq<Hash>>>)
  {
    static function New(): Builder {
      Builder(None, None, [], [None, None, None, None])
    }

    function AddAddress(a: Address): Builder {
      this.(addresses := addresses + [a])
    }

    function WithAddresses(list: seq<Address>): Builder {
      this.(addresses := list)
    }

    function AddTopic(index: nat, topic: Hash): Builder
      requires |topics| == 4
    {
      if index >= 4 then this
      else this.(topics := topics[index := Some((if topics[index].Some? then topics[index].value else []) + [topic])])
    }

    function WithTopics(index: nat, list: seq<Hash>): Builder
      requires |topics| == 4
    {
      if index >= 4 then this else this.(topics := topics[index := Some(list)])
    }

    function Build(): Criteria {
      Criteria(fromBlock, toBlock, if addresses == [] then None else Some(addresses), topics)
    }
  }

  /** A call on the builder. */
  datatype BuilderCall =
    | SetFrom(from: BlockNumber)
    | SetTo(to: BlockNumber)
    | AddOne(address: Address)
    | SetAll(addresses: seq<Address>)
    | AddTopicAt(index: nat, topic: Hash)
    | SetTopicsAt(index: nat, topics: seq<Hash>)

  /** The builder after these calls. */
  function BuilderAfter(calls: seq<BuilderCall>): (b: Builder)
    ensures |b.topics| == 4
  {
    if calls == [] then Builder.New()
    else
      var b := BuilderAfter(calls[..|calls| - 1]);
      match calls[|calls| - 1]
      case SetFrom(n) => b.(fromBlock := Some(n))
      case SetTo(n) => b.(toBlock := Some(n))
      case AddOne(a) => b.AddAddress(a)
      case SetAll(list) => b.WithAddresses(list)
      case AddTopicAt(i, t) => b.AddTopic(i, t)
      case SetTopicsAt(i, list) => b.WithTopics(i, list)
  }

  /** For every criteria any calls on the builder can make, the shortcut is exact. */
  lemma BuiltFiltersAreExact(keccak: Keccak, db: Database, calls: seq<BuilderCall>)
    requires SoundBlooms(keccak, db)
    ensures AllLogs(keccak, db, BuilderAfter(calls).Build()) == PlainScan(db, BuilderAfter(calls).Build())
  {
    hide AllLogs, PlainScan, MissingFirst, NothingThere;
    ShortcutIsExact(keccak, db, BuilderAfter(calls).Build());
  }

  // ----- the filter -----

  class Filter {
    const criteria: Criteria
    const keccak: Keccak
    var pending: seq<PlacedLog>
    var lastPoll: nat

    constructor (criteria: Criteria, keccak: Keccak)
      ensures this.criteria == criteria && this.keccak == keccak && pending == [] && lastPoll == 0
    {
      this.criteria := criteria;
      this.keccak := keccak;
      pending := [];
      lastPoll := 0;
    }

    method Matches(log: Log) returns (r: bool)
      ensures r == MatchesLog(criteria, log)
    {
      if criteria.address.Some? && criteria.address.value != [] && log.address !in criteria.address.value {
        return false;
      }
      for i := 0 to |criteria.topics|
        invariant forall j :: 0 <= j < i ==> TopicMatches(criteria, log, j)
      {
        if criteria.topics[i].Some? && criteria.topics[i].value != [] {
          if i >= |log.topics| || log.topics[i] !in criteria.topics[i].value {
            assert !TopicMatches(criteria, log, i);
            return false;
          }
        }
      }
      return true;
    }

    /** The inner loops over receipts and logs, which both scans share; not `ok` is an abort. */
    method CollectBlock(b: Block, acc: seq<PlacedLog>) returns (r: seq<PlacedLog>, ok: bool)
      ensures r == acc + Logs(criteria, b) && (ok <==> !Overruns(criteria, b))
    {
      r := acc;
      for tx := 0 to |b.receipts|
        invariant r == acc + BlockLogs(criteria, b, tx)
        invariant forall t, k :: |b.txHashes| <= t < tx && 0 <= k < |b.receipts[t]| ==> !MatchesLog(criteria, b.receipts[t][k])
      {
        ghost var before := r;
        for k := 0 to |b.receipts[tx]|
          invariant r == before + TxLogs(criteria, b, tx, k)
          invariant tx >= |b.txHashes| ==> forall i :: 0 <= i < k ==> !MatchesLog(criteria, b.receipts[tx][i])
        {
          var m := Matches(b.receipts[tx][k]);
          if m {
            if tx >= |b.txHashes| {
              NothingBeyond(criteria, b, tx, |b.receipts|);
              return r, false;
            }
            r := r + [Place(b, tx, k)];
          }
        }
      }
      return r, true;
    }

    method PassesBloom(b: Block) returns (r: bool)
      ensures r == !Skipped(keccak, criteria, b)
    {
      if criteria.address == None { return true; }
      var list := criteria.address.value;
      for i := 0 to |list|
        invariant forall j :: 0 <= j < i ==> !Bloom.ContainsHash(b.bloom, AddressDigest(keccak, list[j]))
      {
        if Bloom.ContainsHash(b.bloom, AddressDigest(keccak, list[i])) {
          assert list[i] in list;
          return true;
        }
      }
      return false;
    }

    method GetAllLogs(db: Database) returns (r: Result<seq<PlacedLog>, FilterError>)
      ensures r == AllLogs(keccak, db, criteria)
    {
      hide BlockLogs, Skipped, Overruns;
      var first, last := Resolve(db, criteria.fromBlock), Resolve(db, criteria.toBlock);
      if first > U64_MAX || last > U64_MAX { return Failure(Panic); }
      var all: seq<PlacedLog> := [];
      var n := RangeSize(db, criteria);
      for i := 0 to n
        invariant FastScan(keccak, db, criteria, first, i) == Success(all)
      {
        if first + i !in db.blocks {
          FailurePersists(keccak, db, criteria, first, i + 1, n);
          return Failure(InvalidCriteria);
        }
        var b := db.blocks[first + i];
        var passes := PassesBloom(b);
        if passes {
          var more, ok := CollectBlock(b, all);
          if !ok {
            FailurePersists(keccak, db, criteria, first, i + 1, n);
            return Failure(Panic);
          }
          all := more;
        }
      }
      return Success(all);
    }

    method GetChanges() returns (logs: seq<PlacedLog>)
      modifies this
      ensures logs == old(pending) && pending == [] && lastPoll == old(lastPoll)
    {
      logs := pending;
      pending := [];
    }

    /** New blocks since the last successful poll. When it fails the logs found so far stay pending. */
    method PollForChanges(db: Database) returns (r: Result<(), FilterError>)
      modifies this
      ensures (r, pending, lastPoll) == Polled(db, criteria, old(pending), old(lastPoll))
    {
      hide BlockLogs, Overruns, Logs;
      var current := db.latest;
      if current <= lastPoll { return Success(()); }
      if lastPoll > U64_MAX || current > U64_MAX { return Failure(Panic); }
      for i := 0 to current - lastPoll
        invariant lastPoll == old(lastPoll)
        invariant Scan(db, criteria, lastPoll + 1, i).Success?
        invariant pending == old(pending) + Scan(db, criteria, lastPoll + 1, i).value
      {
        var number := lastPoll + 1 + i;
        FoundAtFailure(db, criteria, lastPoll + 1, i, current - lastPoll);
        if number !in db.blocks { return Failure(InvalidCriteria); }
        ghost var found, logs := Scan(db, criteria, lastPoll + 1, i).value, Logs(criteria, db.blocks[number]);
        assert old(pending) + (found + logs) == (old(pending) + found) + logs;
        var ok;
        pending, ok := CollectBlock(db.blocks[number], pending);
        if !ok { return Failure(Panic); }
      }
      FoundIsWhole(db, criteria, lastPoll + 1, current - lastPoll);
      lastPoll := current;
      return Success(());
    }
  }

  /** Receipts without a transaction add no log. */
  lemma {:induction false} NothingBeyond(c: Criteria, b: Block, t: nat, t': nat)
    requires |b.txHashes| <= t <= t' <= |b.receipts|
    ensures BlockLogs(c, b, t') == BlockLogs(c, b, t)
  {
    if t < t' { NothingBeyond(c, b, t, t' - 1); }
  }

  lemma {:induction false} FailurePersists(keccak: Keccak, db: Database, c: Criteria, first: nat, i: nat, n: nat)
    requires i <= n && FastScan(keccak, db, c, first, i).Failure?
    ensures FastScan(keccak, db, c, first, n) == FastScan(keccak, db, c, first, i)
  {
    hide BlockLogs, Skipped, Overruns;
    if i < n { FailurePersists(keccak, db, c, first, i, n - 1); }
  }

  ghost function FoundIn(db: Database, c: Criteria, logs: seq<PlacedLog>, number: nat): seq<PlacedLog> {
    if number in db.blocks then logs + Logs(c, db.blocks[number]) else logs
  }

  /** The logs found before the scan ends or fails; one that overruns is found up to there. */
  ghost function Found(db: Database, c: Criteria, first: nat, n: nat): seq<PlacedLog> {
    if n == 0 then []
    else if Scan(db, c, first, n - 1).Failure? then Found(db, c, first, n - 1)
    else FoundIn(db, c, Scan(db, c, first, n - 1).value, first + n - 1)
  }

  /** What a scan that fails at the block with index `i` answers and has found. */
  lemma {:induction false} FoundAtFailure(db: Database, c: Criteria, first: nat, i: nat, n: nat)
    requires i < n && Scan(db, c, first, i).Success?
    ensures !Readable(db, c, first + i) ==>
              && Scan(db, c, first, n) == Failure(if first + i in db.blocks then Panic else InvalidCriteria)
              && Found(db, c, first, n) == FoundIn(db, c, Scan(db, c, first, i).value, first + i)
  {
    hide Logs, Overruns;
    if i + 1 < n { FoundAtFailure(db, c, first, i, n - 1); }
  }

  lemma FoundIsWhole(db: Database, c: Criteria, first: nat, n: nat)
    requires Scan(db, c, first, n).Success?
    ensures Found(db, c, first, n) == Scan(db, c, first, n).value
  {
  }

  /** What a poll answers, what is pending after it, and the block it is up to. */
  ghost function Polled(db: Database, c: Criteria, pending: seq<PlacedLog>, lastPoll: nat)
    : (Result<(), FilterError>, seq<PlacedLog>, nat)
  {
    if db.latest <= lastPoll then (Success(()), pending, lastPoll)
    else if lastPoll > U64_MAX || db.latest > U64_MAX then (Failure(Panic), pending, lastPoll)
    else
      var n := db.latest - lastPoll;
      var found := pending + Found(db, c, lastPoll + 1, n);
      match Scan(db, c, lastPoll + 1, n)
      case Success(_) => (Success(()), found, db.latest)
      case Failure(e) => (Failure(e), found, lastPoll)
  }
}
