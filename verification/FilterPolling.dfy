/** Stored filters and their polling (client/rpc/src/eth.rs). */
module FilterPolling {
  import opened Prelude
  import opened EthTypes
  import opened LogFilter
  import opened LogNumbering

  datatype FilterType = BlockFilter | PendingTransactionFilter | LogsFilter(filter: Filter)

  datatype PoolItem = PoolItem(lastPoll: nat, filterType: FilterType, atBlock: nat)

  datatype Changes = Hashes(hashes: seq<Hash>) | Logs(logs: seq<RichLog>)

  datatype PollError = PoolFull | NoSuchFilter | NotAvailable | RuntimeError

  /** What the runtime answers for a height: an error, nothing, or a block with its statuses. */
  type Reader = nat -> Result<Option<(Block, seq<Status>)>, nat>

  /** Substrate block numbers have 32 bits; conversions into them saturate. */
  function Sat32(n: nat): nat { Min(n, TWO_32 - 1) }

  // ---- The heights one poll reads ----

  /** The heights `lo`, `lo + 1`, ..., `hi - 1`. */
  function Up(lo: nat, hi: nat): seq<nat>
    decreases hi
  {
    if hi <= lo then [] else Up(lo, hi - 1) + [hi - 1]
  }

  /** The heights `hi`, `hi - 1`, ..., `lo`. */
  function Down(hi: int, lo: nat): seq<nat>
    decreases hi - lo + 1
  {
    if hi < lo then [] else [hi] + Down(hi - 1, lo)
  }

  function Bound(limit: Option<BlockNumber>): Option<nat>
  {
    if limit.Some? && limit.value.ToMinBlockNum().Some? then Some(Sat32(limit.value.ToMinBlockNum().value)) else None
  }

  /** The last height a log poll reads when the chain's best number is `best`. */
  function ScanTo(f: Filter, best: nat): nat
  {
    var to := Bound(f.toBlock);
    if to.Some? then Min(to.value, best) else best
  }

  /** The first height a log poll reads. */
  function ScanFrom(f: Filter, lastPoll: nat): nat
  {
    var from := Bound(f.fromBlock);
    if from.Some? then Max(Sat32(lastPoll), from.value) else Sat32(lastPoll)
  }

  /** The blocks found at the given heights, or `None` if the runtime fails at one of them. */
  function Collect(read: Reader, heights: seq<nat>): Option<seq<(Block, seq<Status>)>>
  {
    if heights == [] then Some([])
    else
      match Collect(read, Init(heights))
      case None => None
      case Some(found) =>
        match read(Last(heights))
        case Err(_) => None
        case Ok(None) => Some(found)
        case Ok(Some(b)) => Some(found + [b])
  }

  function HeaderHashes(crypto: Crypto, blocks: seq<(Block, seq<Status>)>): seq<Hash>
  {
    if blocks == [] then [] else HeaderHashes(crypto, Init(blocks)) + [crypto.headerHash(Last(blocks).0.header)]
  }

  datatype Polled = Polled(item: PoolItem, changes: Changes)

  /** One poll that reads the best number twice: `first` for the cursor, `second` for the range. */
  function Poll(crypto: Crypto, read: Reader, item: PoolItem, first: nat, second: nat): Result<Polled, PollError>
  {
    match item.filterType
    case PendingTransactionFilter => Err(NotAvailable)
    case BlockFilter =>
      (match Collect(read, Up(item.lastPoll, first + 1))
       case None => Err(RuntimeError)
       case Some(blocks) => Ok(Polled(item.(lastPoll := first + 1), Hashes(HeaderHashes(crypto, blocks)))))
    case LogsFilter(f) =>
      (match Collect(read, Down(ScanTo(f, second), ScanFrom(f, item.lastPoll)))
       case None => Err(RuntimeError)
       case Some(blocks) =>
         Ok(Polled(item.(lastPoll := first + 1), Logs(AllBlockLogs(crypto, ByFilter(f), blocks)))))
  }

  // ---- Ranges of heights ----

  lemma {:induction false} UpConcat(lo: nat, mid: nat, hi: nat)
    requires lo <= mid <= hi
    ensures Up(lo, mid) + Up(mid, hi) == Up(lo, hi)
    decreases hi
  {
    if mid < hi {
      UpConcat(lo, mid, hi - 1);
    }
  }

  /** `Up` lists each height once, in increasing order. */
  lemma {:induction false} UpAt(lo: nat, hi: nat, i: nat)
    requires lo <= hi && i < hi - lo
    ensures |Up(lo, hi)| == hi - lo && Up(lo, hi)[i] == lo + i
    decreases hi
  {
    if lo < hi - 1 {
      UpAt(lo, hi - 1, if i < hi - 1 - lo then i else 0);
    }
  }

  // ---- Runs of a log filter ----

  /** The two best numbers one poll sees. */
  datatype Reading = Reading(first: nat, second: nat)

  predicate Growing(created: nat, polls: seq<Reading>)
  {
    && (polls != [] ==> created <= polls[0].first)
    && (forall i :: 0 <= i < |polls| ==> polls[i].first <= polls[i].second < TWO_32 - 1)
    && (forall i :: 0 <= i < |polls| - 1 ==> polls[i].second <= polls[i + 1].first)
  }

  function LogCursor(created: nat, polls: seq<Reading>): nat
  {
    if polls == [] then created else Last(polls).first + 1
  }

  function Occurrences(s: seq<nat>, h: nat): nat
  {
    if s == [] then 0 else (if s[0] == h then 1 else 0) + Occurrences(s[1..], h)
  }

  /** How often a height is scanned over a run. */
  function Scans(f: Filter, created: nat, polls: seq<Reading>, h: nat): nat
  {
    if polls == [] then 0
    else
      var heights := Down(ScanTo(f, Last(polls).second), ScanFrom(f, LogCursor(created, Init(polls))));
      Scans(f, created, Init(polls), h) + Occurrences(heights, h)
  }

  /** How many polls saw the chain grow past a height between their two readings. */
  function GrewPast(polls: seq<Reading>, h: nat): nat
  {
    if polls == [] then 0
    else GrewPast(Init(polls), h) + (if Last(polls).first < h <= Last(polls).second then 1 else 0)
  }

  /** No poll sees the chain grow between its two readings. */
  predicate Quiet(polls: seq<Reading>)
  {
    forall i :: 0 <= i < |polls| ==> polls[i].first == polls[i].second
  }

  lemma {:induction false} DownCounts(hi: int, lo: nat, h: nat)
    ensures Occurrences(Down(hi, lo), h) == if lo <= h <= hi then 1 else 0
    decreases hi - lo + 1
  {
    if hi >= lo {
      DownCounts(hi - 1, lo, h);
      assert Down(hi, lo)[1..] == Down(hi - 1, lo);
    }
  }

  /** The heights a filter is about, from its creation on: only numeric limits restrict them. */
  predicate InRange(f: Filter, created: nat, h: nat)
  {
    && created <= h
    && (f.fromBlock.Some? && f.fromBlock.value.Num? ==> f.fromBlock.value.number <= h)
    && (f.toBlock.Some? && f.toBlock.value.Num? ==> h <= f.toBlock.value.number)
  }

  /** One poll scans exactly the in-range heights between the cursor and its second reading. */
  lemma {:induction false} ScanHits(f: Filter, created: nat, cursor: nat, second: nat, h: nat)
    requires created <= cursor < TWO_32 && second < TWO_32 - 1
    ensures Occurrences(Down(ScanTo(f, second), ScanFrom(f, cursor)), h)
            == if InRange(f, created, h) && cursor <= h <= second then 1 else 0
  {
    DownCounts(ScanTo(f, second), ScanFrom(f, cursor), h);
  }

  lemma {:induction false} GrowingInit(created: nat, polls: seq<Reading>)
    requires Growing(created, polls) && polls != []
    ensures Growing(created, Init(polls))
    ensures |polls| > 1 ==> Last(Init(polls)).second <= Last(polls).first
    ensures |polls| > 1 ==> LogCursor(created, Init(polls)) < TWO_32
  {
    var before := Init(polls);
    assert forall i :: 0 <= i < |before| ==> before[i] == polls[i];
    assert |polls| > 1 ==> Last(before) == polls[|polls| - 2];
  }

  lemma {:induction false} LogCursorAfterCreation(created: nat, polls: seq<Reading>)
    requires Growing(created, polls)
    ensures created <= LogCursor(created, polls)
  {
    if polls != [] {
      GrowingInit(created, polls);
      LogCursorAfterCreation(created, Init(polls));
    }
  }

  lemma {:induction false} NoGrowthAbove(created: nat, polls: seq<Reading>, h: nat)
    requires polls != [] && Growing(created, polls) && h > Last(polls).second
    ensures GrewPast(polls, h) == 0
  {
    GrowingInit(created, polls);
    if |polls| > 1 {
      NoGrowthAbove(created, Init(polls), h);
    }
  }

  /**
   * A height in the filter's range is scanned once as soon as a poll's second reading reaches it, and
   * once more for each earlier poll during which the chain grew past it; all others never.
   */
  lemma {:induction false} ScansExactly(f: Filter, created: nat, polls: seq<Reading>, h: nat)
    requires Growing(created, polls) && created < TWO_32
    ensures Scans(f, created, polls, h) ==
            if !InRange(f, created, h) || polls == [] || h > Last(polls).second then 0
            else 1 + GrewPast(Init(polls), h)
  {
    if polls != [] {
      var before, now := Init(polls), Last(polls);
      GrowingInit(created, polls);
      ScansExactly(f, created, before, h);
      LogCursorAfterCreation(created, before);
      ScanHits(f, created, LogCursor(created, before), now.second, h);
      if before != [] && h > Last(before).second {
        NoGrowthAbove(created, before, h);
      }
    }
  }

  /** No height in range up to the last reading is skipped, even if the chain grows during a poll. */
  lemma {:induction false} NeverSkips(f: Filter, created: nat, polls: seq<Reading>, h: nat)
    requires Growing(created, polls) && created < TWO_32 && polls != []
    requires InRange(f, created, h) && h <= Last(polls).second
    ensures Scans(f, created, polls, h) >= 1
  {
    ScansExactly(f, created, polls, h);
  }

  lemma {:induction false} QuietPolls(polls: seq<Reading>, h: nat)
    requires Quiet(polls)
    ensures GrewPast(polls, h) == 0
  {
    if polls != [] {
      QuietPolls(Init(polls), h);
    }
  }

  /** If every poll sees one best number, each height in range is scanned exactly once. */
  lemma {:induction false} OncePerHeight(f: Filter, created: nat, polls: seq<Reading>, h: nat)
    requires Growing(created, polls) && created < TWO_32 && polls != []
    requires Quiet(polls)
    ensures Scans(f, created, polls, h) == if InRange(f, created, h) && h <= Last(polls).first then 1 else 0
  {
    ScansExactly(f, created, polls, h);
    QuietPolls(Init(polls), h);
  }

  // ---- What a client receives over a run ----

  /** What each height holds. */
  type Truth = nat -> Option<(Block, seq<Status>)>

  /** What a runtime answers; where it fails it holds nothing. */
  function Content(read: Reader): Truth
  {
    (n: nat) => if read(n).Ok? then read(n).value else None
  }

  /** One poll: the best numbers it sees and the runtime it reads from. */
  datatype Attempt = Attempt(reading: Reading, read: Reader)

  function Readings(attempts: seq<Attempt>): (r: seq<Reading>)
    ensures |r| == |attempts| && forall i :: 0 <= i < |r| ==> r[i] == attempts[i].reading
  {
    seq<Reading>(|attempts|, i requires 0 <= i < |attempts| => attempts[i].reading)
  }

  /**
   * The best number grows from poll to poll. Nothing is asked of the runtimes: each poll may fail at any
   * height, and may read other blocks than the polls before it, as after a reorganisation.
   */
  predicate Run(created: nat, attempts: seq<Attempt>)
  {
    Growing(created, Readings(attempts))
  }

  /** A stored filter and everything handed to its client so far. */
  datatype Session = Session(item: PoolItem, hashes: seq<Hash>, logs: seq<RichLog>)

  function PollOnce(crypto: Crypto, s: Session, a: Attempt): Result<Polled, PollError>
  {
    Poll(crypto, a.read, s.item, a.reading.first, a.reading.second)
  }

  /** Polls that fail hand out nothing and leave the filter as it was. */
  function RunPolls(crypto: Crypto, item: PoolItem, attempts: seq<Attempt>): Session
  {
    if attempts == [] then Session(item, [], [])
    else
      var s := RunPolls(crypto, item, Init(attempts));
      match PollOnce(crypto, s, Last(attempts))
      case Err(_) => s
      case Ok(polled) =>
        match polled.changes
        case Hashes(h) => Session(polled.item, s.hashes + h, s.logs)
        case Logs(l) => Session(polled.item, s.hashes, s.logs + l)
  }

  /** The readings of the polls that succeeded. */
  function Good(crypto: Crypto, item: PoolItem, attempts: seq<Attempt>): seq<Reading>
  {
    if attempts == [] then []
    else
      var before := Good(crypto, item, Init(attempts));
      if PollOnce(crypto, RunPolls(crypto, item, Init(attempts)), Last(attempts)).Ok?
      then before + [Last(attempts).reading]
      else before
  }

  /** The heights a poll asks for. */
  predicate Covers(item: PoolItem, r: Reading, h: nat)
  {
    match item.filterType
    case PendingTransactionFilter => false
    case BlockFilter => item.lastPoll <= h <= r.first
    case LogsFilter(f) => ScanFrom(f, item.lastPoll) <= h <= ScanTo(f, r.second)
  }

  /** The successful polls that asked for a height, in order. */
  function ScannedBy(crypto: Crypto, item: PoolItem, attempts: seq<Attempt>, h: nat): seq<Attempt>
  {
    if attempts == [] then []
    else
      var before, s := ScannedBy(crypto, item, Init(attempts), h), RunPolls(crypto, item, Init(attempts));
      if PollOnce(crypto, s, Last(attempts)).Ok? && Covers(s.item, Last(attempts).reading, h)
      then before + [Last(attempts)]
      else before
  }

  /** What the last successful poll that asked for a height read there. */
  function SeenAt(crypto: Crypto, item: PoolItem, attempts: seq<Attempt>, h: nat): Option<(Block, seq<Status>)>
  {
    var polls := ScannedBy(crypto, item, attempts, h);
    if polls == [] then None else Content(Last(polls).read)(h)
  }

  function Seen(crypto: Crypto, item: PoolItem, attempts: seq<Attempt>): Truth
  {
    (h: nat) => SeenAt(crypto, item, attempts, h)
  }

  /** Collecting succeeds exactly when the runtime answers at every height asked for. */
  lemma {:induction false} CollectSucceedsExactly(read: Reader, heights: seq<nat>)
    ensures Collect(read, heights).Some? <==> forall n :: n in heights ==> read(n).Ok?
  {
    if heights != [] {
      CollectSucceedsExactly(read, Init(heights));
      assert forall n :: n in heights <==> n in Init(heights) || n == Last(heights);
    }
  }

  lemma {:induction false} UpHolds(lo: nat, hi: nat, n: nat)
    ensures n in Up(lo, hi) <==> lo <= n < hi
    decreases hi
  {
    if lo < hi {
      UpHolds(lo, hi - 1, n);
    }
  }

  lemma {:induction false} DownHolds(hi: int, lo: nat, n: nat)
    ensures n in Down(hi, lo) <==> lo <= n <= hi
    decreases hi - lo + 1
  {
    if lo <= hi {
      DownHolds(hi - 1, lo, n);
    }
  }

  /** A poll fails exactly when the runtime fails at one of the heights of its range, or for pending transactions. */
  lemma {:induction false} PollSucceedsExactly(crypto: Crypto, read: Reader, item: PoolItem, first: nat, second: nat)
    ensures !item.filterType.PendingTransactionFilter? ==>
              (Poll(crypto, read, item, first, second).Ok? <==>
                 forall n: nat :: Covers(item, Reading(first, second), n) ==> read(n).Ok?)
    ensures var r := Poll(crypto, read, item, first, second);
            && (item.filterType.PendingTransactionFilter? <==> r == Err(NotAvailable))
            && (r.Err? && !item.filterType.PendingTransactionFilter? ==> r == Err(RuntimeError))
  {
    match item.filterType
    case PendingTransactionFilter =>
    case BlockFilter =>
      var heights := Up(item.lastPoll, first + 1);
      CollectSucceedsExactly(read, heights);
      forall n: nat ensures n in heights <==> item.lastPoll <= n <= first {
        UpHolds(item.lastPoll, first + 1, n);
      }
    case LogsFilter(f) =>
      var hi, lo := ScanTo(f, second), ScanFrom(f, item.lastPoll);
      var heights := Down(hi, lo);
      CollectSucceedsExactly(read, heights);
      forall n: nat ensures n in heights <==> lo <= n <= hi {
        DownHolds(hi, lo, n);
      }
  }

  lemma {:induction false} SameFilter(crypto: Crypto, item: PoolItem, attempts: seq<Attempt>)
    ensures RunPolls(crypto, item, attempts).item.filterType == item.filterType
  {
    if attempts != [] {
      SameFilter(crypto, item, Init(attempts));
    }
  }

  /** Every poll that scanned a height is one of the run, reached the height, and got an answer for it. */
  lemma {:induction false} ScannedByMeans(crypto: Crypto, item: PoolItem, attempts: seq<Attempt>, h: nat, i: nat)
    returns (j: nat)
    requires i < |ScannedBy(crypto, item, attempts, h)| && Growing(item.lastPoll, Readings(attempts))
    ensures j < |attempts| && ScannedBy(crypto, item, attempts, h)[i] == attempts[j]
    ensures attempts[j].read(h).Ok? && h <= attempts[j].reading.second
    ensures item.filterType.BlockFilter? ==> h <= attempts[j].reading.first
  {
    var s, now := RunPolls(crypto, item, Init(attempts)), Last(attempts);
    assert Readings(Init(attempts)) == Init(Readings(attempts));
    GrowingInit(item.lastPoll, Readings(attempts));
    SameFilter(crypto, item, Init(attempts));
    if i < |ScannedBy(crypto, item, Init(attempts), h)| {
      j := ScannedByMeans(crypto, item, Init(attempts), h, i);
    } else {
      j := |attempts| - 1;
      PollSucceedsExactly(crypto, now.read, s.item, now.reading.first, now.reading.second);
      assert Covers(s.item, Reading(now.reading.first, now.reading.second), h);
      assert now.reading == Last(Readings(attempts));
    }
  }

  // ---- The cursor ----

  lemma {:induction false} GrowingSnoc(created: nat, polls: seq<Reading>, r: Reading)
    requires Growing(created, polls) && r.first <= r.second < TWO_32 - 1
    requires if polls == [] then created <= r.first else Last(polls).second <= r.first
    ensures Growing(created, polls + [r])
  {
  }

  lemma {:induction false} CreatedBelow(created: nat, polls: seq<Reading>)
    requires Growing(created, polls) && polls != []
    ensures created <= Last(polls).first
  {
    GrowingInit(created, polls);
    if |polls| > 1 {
      CreatedBelow(created, Init(polls));
    }
  }

  lemma {:induction false} RunInit(created: nat, attempts: seq<Attempt>)
    requires Run(created, attempts) && attempts != []
    ensures Run(created, Init(attempts))
    ensures created <= Last(attempts).reading.first <= Last(attempts).reading.second < TWO_32 - 1
    ensures |attempts| > 1 ==> Last(Init(attempts)).reading.second <= Last(attempts).reading.first
  {
    GrowingInit(created, Readings(attempts));
    CreatedBelow(created, Readings(attempts));
    assert Readings(Init(attempts)) == Init(Readings(attempts));
  }

  /** A successful poll moves the cursor past the first best number it saw, and changes nothing else. */
  lemma {:induction false} PollMovesCursor(crypto: Crypto, s: Session, a: Attempt)
    requires PollOnce(crypto, s, a).Ok?
    ensures PollOnce(crypto, s, a).value.item == s.item.(lastPoll := a.reading.first + 1)
  {
  }

  /** The successful polls are a growing run of their own, and the cursor follows the last of them. */
  lemma {:induction false} GoodPolls(crypto: Crypto, item: PoolItem, attempts: seq<Attempt>)
    requires Run(item.lastPoll, attempts)
    ensures var good := Good(crypto, item, attempts);
            && Growing(item.lastPoll, good)
            && (good != [] ==> attempts != [] && Last(good).second <= Last(attempts).reading.second)
            && RunPolls(crypto, item, attempts).item == item.(lastPoll := LogCursor(item.lastPoll, good))
  {
    if attempts != [] {
      var before := Good(crypto, item, Init(attempts));
      RunInit(item.lastPoll, attempts);
      GoodPolls(crypto, item, Init(attempts));
      if PollOnce(crypto, RunPolls(crypto, item, Init(attempts)), Last(attempts)).Ok? {
        PollMovesCursor(crypto, RunPolls(crypto, item, Init(attempts)), Last(attempts));
        GrowingSnoc(item.lastPoll, before, Last(attempts).reading);
      }
    }
  }

  /** The cursor a poll starts from is not before the creation and not beyond what was seen. */
  lemma {:induction false} CursorBounds(crypto: Crypto, item: PoolItem, attempts: seq<Attempt>)
    requires Run(item.lastPoll, attempts) && attempts != []
    ensures var cursor := RunPolls(crypto, item, Init(attempts)).item.lastPoll;
            item.lastPoll <= cursor <= Last(attempts).reading.first + 1
  {
    RunInit(item.lastPoll, attempts);
    GoodPolls(crypto, item, Init(attempts));
    LogCursorAfterCreation(item.lastPoll, Good(crypto, item, Init(attempts)));
  }

  lemma {:induction false} CursorBelow(crypto: Crypto, item: PoolItem, attempts: seq<Attempt>, top: nat)
    requires Run(item.lastPoll, attempts)
    requires top == if attempts == [] then item.lastPoll else Last(attempts).reading.second
    ensures RunPolls(crypto, item, attempts).item.lastPoll <= top + 1
  {
    GoodPolls(crypto, item, attempts);
    if Good(crypto, item, attempts) == [] && attempts != [] {
      RunInit(item.lastPoll, attempts);
    }
  }

  // ---- Block filters ----

  /** The hash of the block at each height, in height order. */
  function HashesBetween(crypto: Crypto, truth: Truth, lo: nat, hi: nat): seq<Hash>
    decreases hi
  {
    if hi <= lo then []
    else
      var before := HashesBetween(crypto, truth, lo, hi - 1);
      match truth(hi - 1)
      case None => before
      case Some(b) => before + [crypto.headerHash(b.0.header)]
  }

  lemma {:induction false} AppendAssociates(a: seq<Hash>, b: seq<Hash>, h: Hash)
    ensures (a + b) + [h] == a + (b + [h])
  {
  }

  lemma {:induction false} HashesConcat(crypto: Crypto, truth: Truth, lo: nat, mid: nat, hi: nat)
    requires lo <= mid <= hi
    ensures HashesBetween(crypto, truth, lo, mid) + HashesBetween(crypto, truth, mid, hi)
            == HashesBetween(crypto, truth, lo, hi)
    decreases hi
  {
    if mid < hi {
      HashesConcat(crypto, truth, lo, mid, hi - 1);
      if truth(hi - 1).Some? {
        AppendAssociates(HashesBetween(crypto, truth, lo, mid), HashesBetween(crypto, truth, mid, hi - 1),
                         crypto.headerHash(truth(hi - 1).value.0.header));
      }
    }
  }

  /** The hashes depend only on what lies at the heights asked for. */
  lemma {:induction false} HashesSame(crypto: Crypto, a: Truth, b: Truth, lo: nat, hi: nat)
    requires forall h: nat :: lo <= h < hi ==> a(h) == b(h)
    ensures HashesBetween(crypto, a, lo, hi) == HashesBetween(crypto, b, lo, hi)
    decreases hi
  {
    if lo < hi {
      HashesSame(crypto, a, b, lo, hi - 1);
      assert a(hi - 1) == b(hi - 1);
    }
  }

  lemma {:induction false} CollectedHashes(crypto: Crypto, read: Reader, lo: nat, hi: nat)
    requires Collect(read, Up(lo, hi)).Some?
    ensures HeaderHashes(crypto, Collect(read, Up(lo, hi)).value) == HashesBetween(crypto, Content(read), lo, hi)
    decreases hi
  {
    if lo < hi {
      assert Init(Up(lo, hi)) == Up(lo, hi - 1) && Last(Up(lo, hi)) == hi - 1;
      CollectedHashes(crypto, read, lo, hi - 1);
      var found := Collect(read, Up(lo, hi - 1)).value;
      if Content(read)(hi - 1).Some? {
        assert Init(found + [Content(read)(hi - 1).value]) == found;
      }
    }
  }

  /** A successful poll hands out the hashes it reads from the cursor to its best number. */
  lemma {:induction false} PollHashes(crypto: Crypto, s: Session, a: Attempt)
    requires s.item.filterType.BlockFilter? && PollOnce(crypto, s, a).Ok?
    ensures PollOnce(crypto, s, a).value.changes.Hashes?
    ensures PollOnce(crypto, s, a).value.changes.hashes
            == HashesBetween(crypto, Content(a.read), s.item.lastPoll, a.reading.first + 1)
  {
    CollectedHashes(crypto, a.read, s.item.lastPoll, a.reading.first + 1);
  }

  /** The heights of a block filter are scanned once each, up to the cursor. */
  lemma {:induction false} BlockScans(crypto: Crypto, item: PoolItem, attempts: seq<Attempt>, h: nat)
    requires item.filterType.BlockFilter? && Run(item.lastPoll, attempts)
    ensures |ScannedBy(crypto, item, attempts, h)|
            == if item.lastPoll <= h < RunPolls(crypto, item, attempts).item.lastPoll then 1 else 0
  {
    if attempts != [] {
      var s, now := RunPolls(crypto, item, Init(attempts)), Last(attempts);
      RunInit(item.lastPoll, attempts);
      BlockScans(crypto, item, Init(attempts), h);
      SameFilter(crypto, item, Init(attempts));
      CursorBounds(crypto, item, attempts);
      if PollOnce(crypto, s, now).Ok? {
        PollMovesCursor(crypto, s, now);
      }
    }
  }

  /** What one more poll changes in what was seen. */
  lemma {:induction false} SeenNext(crypto: Crypto, item: PoolItem, attempts: seq<Attempt>, h: nat)
    requires attempts != []
    ensures var s, now := RunPolls(crypto, item, Init(attempts)), Last(attempts);
            SeenAt(crypto, item, attempts, h)
            == if PollOnce(crypto, s, now).Ok? && Covers(s.item, now.reading, h) then Content(now.read)(h)
               else SeenAt(crypto, item, Init(attempts), h)
  {
    var s, now := RunPolls(crypto, item, Init(attempts)), Last(attempts);
    if PollOnce(crypto, s, now).Ok? && Covers(s.item, now.reading, h) {
      assert Last(ScannedBy(crypto, item, attempts, h)) == now;
    }
  }

  /** The hashes handed out so far are those of what was seen up to the cursor. */
  ghost predicate HandedOut(crypto: Crypto, item: PoolItem, attempts: seq<Attempt>)
  {
    var s := RunPolls(crypto, item, attempts);
    s.hashes == HashesBetween(crypto, Seen(crypto, item, attempts), item.lastPoll, s.item.lastPoll)
  }

  /** Heights below the cursor are not asked for again. */
  lemma {:induction false} SeenBelow(crypto: Crypto, item: PoolItem, attempts: seq<Attempt>)
    requires attempts != [] && RunPolls(crypto, item, Init(attempts)).item.filterType.BlockFilter?
    ensures var cursor := RunPolls(crypto, item, Init(attempts)).item.lastPoll;
            HashesBetween(crypto, Seen(crypto, item, attempts), item.lastPoll, cursor)
            == HashesBetween(crypto, Seen(crypto, item, Init(attempts)), item.lastPoll, cursor)
  {
    var cursor := RunPolls(crypto, item, Init(attempts)).item.lastPoll;
    var before, after := Seen(crypto, item, Init(attempts)), Seen(crypto, item, attempts);
    forall h: nat | h < cursor ensures after(h) == before(h) {
      SeenNext(crypto, item, attempts, h);
    }
    HashesSame(crypto, after, before, item.lastPoll, cursor);
  }

  /** From the cursor on, a successful poll hands out what it reads. */
  lemma {:induction false} SeenAbove(crypto: Crypto, item: PoolItem, attempts: seq<Attempt>)
    requires attempts != [] && RunPolls(crypto, item, Init(attempts)).item.filterType.BlockFilter?
    requires PollOnce(crypto, RunPolls(crypto, item, Init(attempts)), Last(attempts)).Ok?
    ensures var s, now := RunPolls(crypto, item, Init(attempts)), Last(attempts);
            && PollOnce(crypto, s, now).value.changes.Hashes?
            && PollOnce(crypto, s, now).value.changes.hashes
               == HashesBetween(crypto, Seen(crypto, item, attempts), s.item.lastPoll, now.reading.first + 1)
  {
    var s, now := RunPolls(crypto, item, Init(attempts)), Last(attempts);
    var after, next := Seen(crypto, item, attempts), now.reading.first + 1;
    forall h: nat | s.item.lastPoll <= h < next ensures after(h) == Content(now.read)(h) {
      SeenNext(crypto, item, attempts, h);
    }
    HashesSame(crypto, after, Content(now.read), s.item.lastPoll, next);
    PollHashes(crypto, s, now);
  }

  lemma {:induction false} HashesUpToCursor(crypto: Crypto, item: PoolItem, attempts: seq<Attempt>)
    requires item.filterType.BlockFilter? && Run(item.lastPoll, attempts)
    ensures HandedOut(crypto, item, attempts)
  {
    if attempts != [] {
      var s, now := RunPolls(crypto, item, Init(attempts)), Last(attempts);
      RunInit(item.lastPoll, attempts);
      HashesUpToCursor(crypto, item, Init(attempts));
      SameFilter(crypto, item, Init(attempts));
      CursorBounds(crypto, item, attempts);
      SeenBelow(crypto, item, attempts);
      if PollOnce(crypto, s, now).Ok? {
        SeenAbove(crypto, item, attempts);
        PollMovesCursor(crypto, s, now);
        HashesConcat(crypto, Seen(crypto, item, attempts), item.lastPoll, s.item.lastPoll, now.reading.first + 1);
      }
    }
  }

  /**
   * Whatever polls fail and however the chain is reorganised between polls, the client of a block filter
   * has received, all polls together, one hash for every height from the filter's creation to the cursor
   * that held a block, in order: each height was scanned by exactly one successful poll (`ScannedByMeans`
   * says by which), and the hash is that of the block this poll read. The cursor is one past the best
   * number of the last poll that succeeded.
   */
  lemma {:induction false} BlockSessionDeliversOnce(crypto: Crypto, created: nat, attempts: seq<Attempt>)
    requires Run(created, attempts)
    ensures var item := PoolItem(created, BlockFilter, created);
            var s := RunPolls(crypto, item, attempts);
            && s.item == item.(lastPoll := LogCursor(created, Good(crypto, item, attempts)))
            && s.hashes == HashesBetween(crypto, Seen(crypto, item, attempts), created, s.item.lastPoll)
            && forall h: nat ::
                 |ScannedBy(crypto, item, attempts, h)| == if created <= h < s.item.lastPoll then 1 else 0
  {
    var item := PoolItem(created, BlockFilter, created);
    GoodPolls(crypto, item, attempts);
    HashesUpToCursor(crypto, item, attempts);
    forall h: nat ensures |ScannedBy(crypto, item, attempts, h)|
                     == if created <= h < RunPolls(crypto, item, attempts).item.lastPoll then 1 else 0 {
      BlockScans(crypto, item, attempts, h);
    }
  }

  // ---- Sums over heights ----

  /** The multiset sum of a family of multisets over the heights `lo` to `hi`. */
  function SumOver<T>(at: nat -> multiset<T>, lo: nat, hi: int): multiset<T>
    decreases hi - lo + 1
  {
    if hi < lo then multiset{} else SumOver(at, lo, hi - 1) + at(hi)
  }

  /** Up to `hi` the third family is the sum of the other two. */
  ghost predicate AddUp<T>(a: nat -> multiset<T>, b: nat -> multiset<T>, c: nat -> multiset<T>, hi: int)
  {
    forall h: nat {:trigger c(h)} :: h <= hi ==> c(h) == a(h) + b(h)
  }

  lemma {:induction false} SumAdds<T>(a: nat -> multiset<T>, b: nat -> multiset<T>, c: nat -> multiset<T>, hi: int)
    requires AddUp(a, b, c, hi)
    ensures SumOver(c, 0, hi) == SumOver(a, 0, hi) + SumOver(b, 0, hi)
    decreases hi + 1
  {
    if hi >= 0 {
      SumAdds(a, b, c, hi - 1);
      assert c(hi) == a(hi) + b(hi);
    }
  }

  lemma {:induction false} SumSame<T>(a: nat -> multiset<T>, b: nat -> multiset<T>, hi: int)
    requires forall h: nat :: h <= hi ==> a(h) == b(h)
    ensures SumOver(a, 0, hi) == SumOver(b, 0, hi)
    decreases hi + 1
  {
    if hi >= 0 {
      SumSame(a, b, hi - 1);
      assert a(hi) == b(hi);
    }
  }

  /** Heights at which nothing lies add nothing. */
  lemma {:induction false} SumBeyond<T>(at: nat -> multiset<T>, low: int, high: int)
    requires low <= high && forall h: nat :: low < h <= high ==> at(h) == multiset{}
    ensures SumOver(at, 0, low) == SumOver(at, 0, high)
    decreases high - low
  {
    if low < high && high >= 0 {
      SumBeyond(at, low, high - 1);
      assert at(high) == multiset{};
    }
  }

  /** The first family is the second cut off above `last`. */
  ghost predicate CutOff<T>(a: nat -> multiset<T>, b: nat -> multiset<T>, last: int)
  {
    forall h: nat {:trigger a(h)} :: a(h) == if h <= last then b(h) else multiset{}
  }

  lemma {:induction false} SumCut<T>(a: nat -> multiset<T>, b: nat -> multiset<T>, last: int, top: int)
    requires CutOff(a, b, last) && last <= top
    ensures SumOver(a, 0, top) == SumOver(b, 0, last)
  {
    SumBeyond(a, last, top);
    SumSame(a, b, last);
  }

  /** A family cut down to the heights `lo` to `hi`. */
  function Window<T>(at: nat -> multiset<T>, lo: nat, hi: int): nat -> multiset<T>
  {
    (h: nat) => if lo <= h <= hi then at(h) else multiset{}
  }

  lemma {:induction false} SumWindow<T>(at: nat -> multiset<T>, lo: nat, hi: int, top: int)
    ensures SumOver(Window(at, lo, hi), 0, top) == SumOver(at, lo, if top <= hi then top else hi)
    decreases top + 1
  {
    if top >= 0 {
      SumWindow(at, lo, hi, top - 1);
    }
  }

  // ---- Log filters ----

  /** The wanted logs of the block at one height. */
  function LogsAt(crypto: Crypto, truth: Truth, f: Filter, n: nat): seq<RichLog>
  {
    match truth(n)
    case None => []
    case Some(b) => BlockLogs(crypto, ByFilter(f), b.0, b.1)
  }

  function PerHeight(crypto: Crypto, truth: Truth, f: Filter): nat -> multiset<RichLog>
  {
    (n: nat) => multiset(LogsAt(crypto, truth, f, n))
  }

  /** The wanted logs that a list of polls reads at one height. */
  function LogsRead(crypto: Crypto, f: Filter, polls: seq<Attempt>, h: nat): multiset<RichLog>
  {
    if polls == [] then multiset{}
    else LogsRead(crypto, f, Init(polls), h) + multiset(LogsAt(crypto, Content(Last(polls).read), f, h))
  }

  /** The wanted logs of each height, once for every successful poll that scans it, as that poll read them. */
  function PerScan(crypto: Crypto, f: Filter, item: PoolItem, attempts: seq<Attempt>): nat -> multiset<RichLog>
  {
    (h: nat) => LogsRead(crypto, f, ScannedBy(crypto, item, attempts, h), h)
  }

  lemma {:induction false} DownSplit(hi: int, mid: nat, lo: nat)
    requires lo <= mid && mid <= hi + 1
    ensures Down(hi, lo) == Down(hi, mid) + Down(mid - 1, lo)
    decreases hi + 1 - mid
  {
    if mid <= hi {
      DownSplit(hi - 1, mid, lo);
    }
  }

  lemma {:induction false} DownSnoc(hi: int, n: nat)
    requires n <= hi
    ensures Down(hi, n) == Down(hi, n + 1) + [n]
  {
    DownSplit(hi, n + 1, n);
    assert Down(n - 1, n) == [];
    assert Down(n, n) == [n] + Down(n - 1, n);
  }

  lemma {:induction false} FoundAppend(crypto: Crypto, read: Reader, f: Filter, heights: seq<nat>, n: nat)
    requires Collect(read, heights + [n]).Some?
    ensures Collect(read, heights).Some?
    ensures AllBlockLogs(crypto, ByFilter(f), Collect(read, heights + [n]).value)
            == AllBlockLogs(crypto, ByFilter(f), Collect(read, heights).value) + LogsAt(crypto, Content(read), f, n)
  {
    assert Init(heights + [n]) == heights;
    var found := Collect(read, heights).value;
    if Content(read)(n).Some? {
      assert Init(found + [Content(read)(n).value]) == found;
    }
  }

  lemma {:induction false} SumFirst<T>(at: nat -> multiset<T>, lo: nat, hi: int)
    requires lo <= hi
    ensures SumOver(at, lo, hi) == SumOver(at, lo + 1, hi) + at(lo)
    decreases hi - lo
  {
    if lo < hi {
      SumFirst(at, lo, hi - 1);
    } else {
      assert SumOver(at, lo, hi - 1) == multiset{} && SumOver(at, lo + 1, hi) == multiset{};
    }
  }

  /** One scan delivers the logs of its heights. */
  lemma {:induction false} ScanDelivers(crypto: Crypto, read: Reader, f: Filter, hi: int, lo: nat)
    requires Collect(read, Down(hi, lo)).Some?
    ensures multiset(AllBlockLogs(crypto, ByFilter(f), Collect(read, Down(hi, lo)).value))
            == SumOver(PerHeight(crypto, Content(read), f), lo, hi)
    decreases hi - lo + 1
  {
    if hi >= lo {
      var at := PerHeight(crypto, Content(read), f);
      DownSnoc(hi, lo);
      FoundAppend(crypto, read, f, Down(hi, lo + 1), lo);
      ScanDelivers(crypto, read, f, hi, lo + 1);
      SumFirst(at, lo, hi);
    }
  }

  /** What one poll of a log filter hands out. */
  lemma {:induction false} PollLogs(crypto: Crypto, s: Session, a: Attempt)
    requires s.item.filterType.LogsFilter? && PollOnce(crypto, s, a).Ok?
    ensures PollOnce(crypto, s, a).value.changes.Logs?
    ensures var f := s.item.filterType.filter;
            multiset(PollOnce(crypto, s, a).value.changes.logs)
            == SumOver(PerHeight(crypto, Content(a.read), f), ScanFrom(f, s.item.lastPoll), ScanTo(f, a.reading.second))
  {
    var f := s.item.filterType.filter;
    ScanDelivers(crypto, a.read, f, ScanTo(f, a.reading.second), ScanFrom(f, s.item.lastPoll));
  }

  lemma {:induction false} LogsReadSnoc(crypto: Crypto, f: Filter, polls: seq<Attempt>, a: Attempt, h: nat)
    ensures LogsRead(crypto, f, polls + [a], h)
            == LogsRead(crypto, f, polls, h) + multiset(LogsAt(crypto, Content(a.read), f, h))
  {
    assert Init(polls + [a]) == polls;
  }

  lemma {:induction false} ScanAddsAt(crypto: Crypto, f: Filter, item: PoolItem, attempts: seq<Attempt>, h: nat)
    requires attempts != []
    ensures var s, now := RunPolls(crypto, item, Init(attempts)), Last(attempts);
            LogsRead(crypto, f, ScannedBy(crypto, item, attempts, h), h)
            == LogsRead(crypto, f, ScannedBy(crypto, item, Init(attempts), h), h)
               + if PollOnce(crypto, s, now).Ok? && Covers(s.item, now.reading, h)
                 then multiset(LogsAt(crypto, Content(now.read), f, h))
                 else multiset{}
  {
    LogsReadSnoc(crypto, f, ScannedBy(crypto, item, Init(attempts), h), Last(attempts), h);
  }

  /** What the last poll reads at the heights it covers. */
  function LastRead(crypto: Crypto, f: Filter, item: PoolItem, attempts: seq<Attempt>): nat -> multiset<RichLog>
    requires attempts != []
  {
    var s, now := RunPolls(crypto, item, Init(attempts)), Last(attempts);
    Window(PerHeight(crypto, Content(now.read), f), ScanFrom(f, s.item.lastPoll), ScanTo(f, now.reading.second))
  }

  lemma {:induction false} ScansAddUp(crypto: Crypto, f: Filter, item: PoolItem, attempts: seq<Attempt>, top: nat)
    requires attempts != []
    requires var s := RunPolls(crypto, item, Init(attempts));
             s.item.filterType == LogsFilter(f) && PollOnce(crypto, s, Last(attempts)).Ok?
    ensures AddUp(PerScan(crypto, f, item, Init(attempts)), LastRead(crypto, f, item, attempts),
                  PerScan(crypto, f, item, attempts), top)
  {
    forall h: nat | h <= top
      ensures PerScan(crypto, f, item, attempts)(h)
              == PerScan(crypto, f, item, Init(attempts))(h) + LastRead(crypto, f, item, attempts)(h)
    {
      ScanAddsAt(crypto, f, item, attempts, h);
    }
  }

  /** One more successful poll adds one copy of the logs of each height it scans, as it read them. */
  lemma {:induction false} ScanAdds(crypto: Crypto, f: Filter, item: PoolItem, attempts: seq<Attempt>, top: nat)
    requires attempts != [] && Last(attempts).reading.second <= top
    requires var s := RunPolls(crypto, item, Init(attempts));
             s.item.filterType == LogsFilter(f) && PollOnce(crypto, s, Last(attempts)).Ok?
    ensures var s, now := RunPolls(crypto, item, Init(attempts)), Last(attempts);
            SumOver(PerScan(crypto, f, item, attempts), 0, top)
            == SumOver(PerScan(crypto, f, item, Init(attempts)), 0, top)
               + SumOver(PerHeight(crypto, Content(now.read), f), ScanFrom(f, s.item.lastPoll),
                         ScanTo(f, now.reading.second))
  {
    var s, now := RunPolls(crypto, item, Init(attempts)), Last(attempts);
    ScansAddUp(crypto, f, item, attempts, top);
    SumAdds(PerScan(crypto, f, item, Init(attempts)), LastRead(crypto, f, item, attempts),
            PerScan(crypto, f, item, attempts), top);
    SumWindow(PerHeight(crypto, Content(now.read), f), ScanFrom(f, s.item.lastPoll), ScanTo(f, now.reading.second),
              top);
  }

  lemma {:induction false} NoScans(crypto: Crypto, f: Filter, item: PoolItem, top: int)
    ensures SumOver(PerScan(crypto, f, item, []), 0, top) == multiset{}
    decreases top + 1
  {
    if top >= 0 {
      NoScans(crypto, f, item, top - 1);
    }
  }

  lemma {:induction false} ScansSnoc(f: Filter, created: nat, polls: seq<Reading>, r: Reading, h: nat)
    ensures Scans(f, created, polls + [r], h)
            == Scans(f, created, polls, h)
               + if ScanFrom(f, LogCursor(created, polls)) <= h <= ScanTo(f, r.second) then 1 else 0
  {
    assert Init(polls + [r]) == polls;
    DownCounts(ScanTo(f, r.second), ScanFrom(f, LogCursor(created, polls)), h);
  }

  /** What one more poll adds to the polls that scanned a height. */
  lemma {:induction false} ScannedNext(crypto: Crypto, item: PoolItem, attempts: seq<Attempt>, h: nat)
    requires attempts != []
    ensures var s, now := RunPolls(crypto, item, Init(attempts)), Last(attempts);
            |ScannedBy(crypto, item, attempts, h)|
            == |ScannedBy(crypto, item, Init(attempts), h)|
               + if PollOnce(crypto, s, now).Ok? && Covers(s.item, now.reading, h) then 1 else 0
  {
  }

  /** The number of polls that scan a height is the one `ScansExactly` computes from their readings. */
  lemma {:induction false} LogScans(crypto: Crypto, f: Filter, item: PoolItem, attempts: seq<Attempt>, h: nat)
    requires item.filterType == LogsFilter(f) && Run(item.lastPoll, attempts)
    ensures |ScannedBy(crypto, item, attempts, h)| == Scans(f, item.lastPoll, Good(crypto, item, attempts), h)
  {
    if attempts != [] {
      RunInit(item.lastPoll, attempts);
      LogScans(crypto, f, item, Init(attempts), h);
      GoodPolls(crypto, item, Init(attempts));
      ScannedNext(crypto, item, attempts, h);
      ScansSnoc(f, item.lastPoll, Good(crypto, item, Init(attempts)), Last(attempts).reading, h);
    }
  }

  /** All wanted logs, each height counted for every successful poll that scanned it, as that poll read it. */
  ghost predicate DeliveredByScans(crypto: Crypto, f: Filter, item: PoolItem, attempts: seq<Attempt>, top: nat)
  {
    multiset(RunPolls(crypto, item, attempts).logs) == SumOver(PerScan(crypto, f, item, attempts), 0, top)
  }

  lemma {:induction false} LogsByScans(crypto: Crypto, f: Filter, item: PoolItem, attempts: seq<Attempt>, top: nat)
    requires item.filterType == LogsFilter(f) && Run(item.lastPoll, attempts)
    requires attempts != [] ==> Last(attempts).reading.second <= top
    ensures DeliveredByScans(crypto, f, item, attempts, top)
  {
    if attempts == [] {
      NoScans(crypto, f, item, top);
    } else {
      var s, now := RunPolls(crypto, item, Init(attempts)), Last(attempts);
      RunInit(item.lastPoll, attempts);
      SameFilter(crypto, item, Init(attempts));
      LogsByScans(crypto, f, item, Init(attempts), top);
      if PollOnce(crypto, s, now).Ok? {
        PollLogs(crypto, s, now);
        ScanAdds(crypto, f, item, attempts, top);
      } else {
        SumSame(PerScan(crypto, f, item, attempts), PerScan(crypto, f, item, Init(attempts)), top);
      }
    }
  }

  /**
   * Whatever polls fail, however the chain grows during a poll and is reorganised between polls, the client
   * of a log filter has received the wanted logs of each height once for every successful poll that scanned
   * it, as that poll read them; and the number of those polls is the one `ScansExactly` gives.
   */
  lemma {:induction false} LogSessionDelivers(
    crypto: Crypto, f: Filter, created: nat, attempts: seq<Attempt>, top: nat)
    requires Run(created, attempts)
    requires attempts != [] ==> Last(attempts).reading.second <= top
    ensures var item := PoolItem(created, LogsFilter(f), created);
            && DeliveredByScans(crypto, f, item, attempts, top)
            && forall h: nat ::
                 |ScannedBy(crypto, item, attempts, h)| == Scans(f, created, Good(crypto, item, attempts), h)
  {
    var item := PoolItem(created, LogsFilter(f), created);
    LogsByScans(crypto, f, item, attempts, top);
    forall h: nat ensures |ScannedBy(crypto, item, attempts, h)| == Scans(f, created, Good(crypto, item, attempts), h) {
      LogScans(crypto, f, item, attempts, h);
    }
  }

  /** The wanted logs of a height the filter is about. */
  function InRangeLogs(crypto: Crypto, truth: Truth, f: Filter, created: nat): nat -> multiset<RichLog>
  {
    (h: nat) => if InRange(f, created, h) then multiset(LogsAt(crypto, truth, f, h)) else multiset{}
  }

  lemma {:induction false} GoodAreQuiet(crypto: Crypto, item: PoolItem, attempts: seq<Attempt>)
    requires Quiet(Readings(attempts))
    ensures Quiet(Good(crypto, item, attempts))
  {
    if attempts != [] {
      assert Readings(Init(attempts)) == Init(Readings(attempts));
      GoodAreQuiet(crypto, item, Init(attempts));
      assert Last(attempts).reading == Last(Readings(attempts));
    }
  }

  /** Quiet polls scan a height once if it is in range and below the cursor, and never otherwise. */
  lemma {:induction false} QuietScans(crypto: Crypto, f: Filter, item: PoolItem, attempts: seq<Attempt>, h: nat)
    requires item.filterType == LogsFilter(f) && Run(item.lastPoll, attempts) && Quiet(Readings(attempts))
    ensures |ScannedBy(crypto, item, attempts, h)|
            == if InRange(f, item.lastPoll, h) && h < RunPolls(crypto, item, attempts).item.lastPoll then 1 else 0
  {
    var good := Good(crypto, item, attempts);
    LogScans(crypto, f, item, attempts, h);
    GoodPolls(crypto, item, attempts);
    GoodAreQuiet(crypto, item, attempts);
    if good != [] {
      CreatedBelow(item.lastPoll, good);
      OncePerHeight(f, item.lastPoll, good, h);
    }
  }

  lemma {:induction false} ScannedOnce(crypto: Crypto, f: Filter, item: PoolItem, attempts: seq<Attempt>, h: nat)
    requires item.filterType == LogsFilter(f) && Run(item.lastPoll, attempts) && Quiet(Readings(attempts))
    ensures PerScan(crypto, f, item, attempts)(h)
            == if h < RunPolls(crypto, item, attempts).item.lastPoll
               then InRangeLogs(crypto, Seen(crypto, item, attempts), f, item.lastPoll)(h)
               else multiset{}
  {
    QuietScans(crypto, f, item, attempts, h);
    var polls := ScannedBy(crypto, item, attempts, h);
    if |polls| == 1 {
      assert Init(polls) == [];
      assert LogsRead(crypto, f, polls, h) == multiset{} + multiset(LogsAt(crypto, Content(polls[0].read), f, h));
    }
  }

  lemma {:induction false} ScansCutOff(crypto: Crypto, f: Filter, item: PoolItem, attempts: seq<Attempt>)
    requires item.filterType == LogsFilter(f) && Run(item.lastPoll, attempts) && Quiet(Readings(attempts))
    ensures CutOff(PerScan(crypto, f, item, attempts),
                   InRangeLogs(crypto, Seen(crypto, item, attempts), f, item.lastPoll),
                   RunPolls(crypto, item, attempts).item.lastPoll - 1)
  {
    forall h: nat
      ensures PerScan(crypto, f, item, attempts)(h)
              == if h <= RunPolls(crypto, item, attempts).item.lastPoll - 1
                 then InRangeLogs(crypto, Seen(crypto, item, attempts), f, item.lastPoll)(h)
                 else multiset{}
    {
      ScannedOnce(crypto, f, item, attempts, h);
    }
  }

  /** Every wanted log of the filter's range from the creation to the cursor, each exactly once. */
  ghost predicate DeliveredOnce(crypto: Crypto, truth: Truth, f: Filter, created: nat, s: Session)
  {
    multiset(s.logs) == SumOver(InRangeLogs(crypto, truth, f, created), 0, s.item.lastPoll - 1)
  }

  lemma {:induction false} OnceFromScans(crypto: Crypto, f: Filter, item: PoolItem, attempts: seq<Attempt>, top: nat)
    requires item.filterType == LogsFilter(f) && Run(item.lastPoll, attempts) && Quiet(Readings(attempts))
    requires DeliveredByScans(crypto, f, item, attempts, top)
    requires RunPolls(crypto, item, attempts).item.lastPoll <= top + 1
    ensures DeliveredOnce(crypto, Seen(crypto, item, attempts), f, item.lastPoll, RunPolls(crypto, item, attempts))
  {
    ScansCutOff(crypto, f, item, attempts);
    SumCut(PerScan(crypto, f, item, attempts), InRangeLogs(crypto, Seen(crypto, item, attempts), f, item.lastPoll),
           RunPolls(crypto, item, attempts).item.lastPoll - 1, top);
  }

  /**
   * If every poll sees one best number, the client has received every wanted log of the filter's range from
   * the creation to the cursor, each exactly once, whatever polls failed and however the chain was
   * reorganised in between: each such height was scanned by exactly one successful poll, and its logs are
   * those of the block this poll read. The cursor is one past the best number of the last successful poll.
   */
  lemma {:induction false} LogSessionDeliversOnce(crypto: Crypto, f: Filter, created: nat, attempts: seq<Attempt>)
    requires Run(created, attempts) && Quiet(Readings(attempts))
    ensures var item := PoolItem(created, LogsFilter(f), created);
            var s := RunPolls(crypto, item, attempts);
            && s.item == item.(lastPoll := LogCursor(created, Good(crypto, item, attempts)))
            && DeliveredOnce(crypto, Seen(crypto, item, attempts), f, created, s)
            && forall h: nat :: |ScannedBy(crypto, item, attempts, h)|
                           == if InRange(f, created, h) && h < s.item.lastPoll then 1 else 0
  {
    var item := PoolItem(created, LogsFilter(f), created);
    var top := if attempts == [] then created else Last(attempts).reading.second;
    GoodPolls(crypto, item, attempts);
    LogsByScans(crypto, f, item, attempts, top);
    CursorBelow(crypto, item, attempts, top);
    OnceFromScans(crypto, f, item, attempts, top);
    forall h: nat ensures |ScannedBy(crypto, item, attempts, h)|
                     == if InRange(f, created, h) && h < RunPolls(crypto, item, attempts).item.lastPoll then 1 else 0 {
      QuietScans(crypto, f, item, attempts, h);
    }
  }

  // ---- Polls over one chain ----

  /** A runtime that answers with the content of one fixed chain wherever it answers. */
  ghost predicate Honest(truth: Truth, read: Reader)
  {
    forall n: nat :: read(n).Ok? ==> read(n).value == truth(n)
  }

  lemma {:induction false} PollReads(crypto: Crypto, truth: Truth, s: Session, a: Attempt, h: nat)
    requires PollOnce(crypto, s, a).Ok? && Covers(s.item, a.reading, h) && Honest(truth, a.read)
    ensures Content(a.read)(h) == truth(h)
  {
    PollSucceedsExactly(crypto, a.read, s.item, a.reading.first, a.reading.second);
    assert Covers(s.item, Reading(a.reading.first, a.reading.second), h);
  }

  /** Without a reorganisation, what was seen at a scanned height is what the chain holds there. */
  lemma {:induction false} SeenOfOneChain(crypto: Crypto, truth: Truth, item: PoolItem, attempts: seq<Attempt>,
                                          h: nat)
    requires forall i :: 0 <= i < |attempts| ==> Honest(truth, attempts[i].read)
    requires |ScannedBy(crypto, item, attempts, h)| > 0
    ensures SeenAt(crypto, item, attempts, h) == truth(h)
  {
    var s, now := RunPolls(crypto, item, Init(attempts)), Last(attempts);
    SeenNext(crypto, item, attempts, h);
    ScannedNext(crypto, item, attempts, h);
    if PollOnce(crypto, s, now).Ok? && Covers(s.item, now.reading, h) {
      PollReads(crypto, truth, s, now, h);
    } else {
      SeenOfOneChain(crypto, truth, item, Init(attempts), h);
    }
  }

  lemma {:induction false} HashesOfOneChain(crypto: Crypto, truth: Truth, created: nat, attempts: seq<Attempt>)
    requires Run(created, attempts)
    requires forall i :: 0 <= i < |attempts| ==> Honest(truth, attempts[i].read)
    ensures var s := RunPolls(crypto, PoolItem(created, BlockFilter, created), attempts);
            s.hashes == HashesBetween(crypto, truth, created, s.item.lastPoll)
  {
    var item := PoolItem(created, BlockFilter, created);
    var cursor := RunPolls(crypto, item, attempts).item.lastPoll;
    HashesUpToCursor(crypto, item, attempts);
    forall h: nat | created <= h < cursor ensures Seen(crypto, item, attempts)(h) == truth(h) {
      BlockScans(crypto, item, attempts, h);
      SeenOfOneChain(crypto, truth, item, attempts, h);
    }
    HashesSame(crypto, Seen(crypto, item, attempts), truth, created, cursor);
  }

  lemma {:induction false} LogsOfOneChain(crypto: Crypto, truth: Truth, f: Filter, created: nat, attempts: seq<Attempt>)
    requires Run(created, attempts) && Quiet(Readings(attempts))
    requires forall i :: 0 <= i < |attempts| ==> Honest(truth, attempts[i].read)
    ensures var item := PoolItem(created, LogsFilter(f), created);
            DeliveredOnce(crypto, truth, f, created, RunPolls(crypto, item, attempts))
  {
    var item := PoolItem(created, LogsFilter(f), created);
    var seen, last := Seen(crypto, item, attempts), RunPolls(crypto, item, attempts).item.lastPoll - 1;
    LogSessionDeliversOnce(crypto, f, created, attempts);
    forall h: nat | h <= last
      ensures InRangeLogs(crypto, seen, f, created)(h) == InRangeLogs(crypto, truth, f, created)(h)
    {
      if InRange(f, created, h) {
        QuietScans(crypto, f, item, attempts, h);
        SeenOfOneChain(crypto, truth, item, attempts, h);
      }
    }
    SumSame(InRangeLogs(crypto, seen, f, created), InRangeLogs(crypto, truth, f, created), last);
  }

  /** So a block filter hands out the hashes of the chain, and a log filter its logs. */
  lemma {:induction false} OneChainDelivers(
    crypto: Crypto, truth: Truth, f: Filter, created: nat, attempts: seq<Attempt>)
    requires Run(created, attempts)
    requires forall i :: 0 <= i < |attempts| ==> Honest(truth, attempts[i].read)
    ensures var s := RunPolls(crypto, PoolItem(created, BlockFilter, created), attempts);
            s.hashes == HashesBetween(crypto, truth, created, s.item.lastPoll)
    ensures var item := PoolItem(created, LogsFilter(f), created);
            Quiet(Readings(attempts)) ==> DeliveredOnce(crypto, truth, f, created, RunPolls(crypto, item, attempts))
  {
    HashesOfOneChain(crypto, truth, created, attempts);
    if Quiet(Readings(attempts)) {
      LogsOfOneChain(crypto, truth, f, created, attempts);
    }
  }

  // ---- The read loops ----

  lemma {:induction false} CollectPrefix(read: Reader, heights: seq<nat>, i: nat)
    requires i <= |heights| && Collect(read, heights[..i]).None?
    ensures Collect(read, heights).None?
    decreases |heights|
  {
    if i == |heights| {
      assert heights[..i] == heights;
    } else {
      assert Init(heights)[..i] == heights[..i];
      CollectPrefix(read, Init(heights), i);
    }
  }

  lemma {:induction false} UpPrefix(lo: nat, mid: nat, hi: nat)
    requires lo <= mid <= hi
    ensures |Up(lo, mid)| <= |Up(lo, hi)| && Up(lo, hi)[..|Up(lo, mid)|] == Up(lo, mid)
  {
    UpConcat(lo, mid, hi);
  }

  lemma {:induction false} ReadUpStep(crypto: Crypto, read: Reader, lo: nat, n: nat)
    requires lo <= n && Collect(read, Up(lo, n)).Some?
    ensures read(n).Err? ==> Collect(read, Up(lo, n + 1)).None?
    ensures read(n).Ok? ==>
              && Collect(read, Up(lo, n + 1)).Some?
              && HeaderHashes(crypto, Collect(read, Up(lo, n + 1)).value)
                 == HeaderHashes(crypto, Collect(read, Up(lo, n)).value)
                    + (if read(n).value.Some? then [crypto.headerHash(read(n).value.value.0.header)] else [])
  {
    assert Init(Up(lo, n + 1)) == Up(lo, n) && Last(Up(lo, n + 1)) == n;
    var found := Collect(read, Up(lo, n)).value;
    if read(n).Ok? && read(n).value.Some? {
      assert Init(found + [read(n).value.value]) == found;
    }
  }

  /** The ascending read loop of block filters. */
  method ReadUp(crypto: Crypto, read: Reader, lo: nat, hi: nat) returns (r: Option<seq<Hash>>)
    ensures match Collect(read, Up(lo, hi))
            case None => r.None?
            case Some(blocks) => r == Some(HeaderHashes(crypto, blocks))
  {
    var hashes: seq<Hash> := [];
    var n := lo;
    while n < hi
      invariant lo <= n && n <= Max(lo, hi)
      invariant Collect(read, Up(lo, n)).Some? && hashes == HeaderHashes(crypto, Collect(read, Up(lo, n)).value)
    {
      ReadUpStep(crypto, read, lo, n);
      var answer := read(n);
      if answer.Err? {
        UpPrefix(lo, n + 1, hi);
        CollectPrefix(read, Up(lo, hi), |Up(lo, n + 1)|);
        return None;
      }
      if answer.value.Some? {
        hashes := hashes + [crypto.headerHash(answer.value.value.0.header)];
      }
      n := n + 1;
    }
    assert Up(lo, n) == Up(lo, hi);
    return Some(hashes);
  }

  lemma {:induction false} ReadDownStep(read: Reader, hi: int, n: nat, lo: nat, blocks: seq<(Block, seq<Status>)>)
    requires lo <= n <= hi && Collect(read, Down(hi, n + 1)) == Some(blocks)
    ensures read(n).Err? ==> Collect(read, Down(hi, lo)).None?
    ensures read(n) == Ok(None) ==> Collect(read, Down(hi, n)) == Some(blocks)
    ensures read(n).Ok? && read(n).value.Some? ==> Collect(read, Down(hi, n)) == Some(blocks + [read(n).value.value])
  {
    DownSnoc(hi, n);
    assert Init(Down(hi, n)) == Down(hi, n + 1) && Last(Down(hi, n)) == n;
    if read(n).Err? {
      DownSplit(hi, n, lo);
      assert Down(hi, lo)[..|Down(hi, n)|] == Down(hi, n);
      CollectPrefix(read, Down(hi, lo), |Down(hi, n)|);
    }
  }

  /** The descending read loop of log filters, which stops at height zero. */
  method ReadDown(read: Reader, hi: nat, lo: nat) returns (r: Option<seq<(Block, seq<Status>)>>)
    ensures r == Collect(read, Down(hi, lo))
  {
    var blocks: seq<(Block, seq<Status>)> := [];
    var current := hi;
    assert Down(hi, hi + 1) == [];
    while current >= lo
      invariant 0 <= current <= hi
      invariant hi < lo ==> current == hi
      invariant lo <= hi ==> lo <= current + 1
      invariant Collect(read, Down(hi, current + 1)) == Some(blocks)
      decreases current
    {
      ReadDownStep(read, hi, current, lo, blocks);
      var answer := read(current);
      if answer.Err? {
        return None;
      }
      if answer.value.Some? {
        blocks := blocks + [answer.value.value];
      }
      assert Collect(read, Down(hi, current)) == Some(blocks);
      if current == 0 {
        return Some(blocks);
      }
      current := current - 1;
    }
    if hi < lo {
      assert Down(hi, lo) == [] && Down(hi, current + 1) == [];
    } else {
      assert current + 1 == lo;
    }
    return Some(blocks);
  }

  /** No block's logs outgrow a 32-bit counter. */
  ghost predicate Countable(read: Reader)
  {
    forall n: nat :: read(n).Ok? && read(n).value.Some? ==> LogCount(StatusViews(read(n).value.value.1)) < TWO_32
  }

  lemma {:induction false} CollectCountable(read: Reader, heights: seq<nat>)
    requires Countable(read) && Collect(read, heights).Some?
    ensures forall b :: 0 <= b < |Collect(read, heights).value| ==>
              LogCount(StatusViews(Collect(read, heights).value[b].1)) < TWO_32
  {
    if heights != [] {
      CollectCountable(read, Init(heights));
      assert read(Last(heights)).Ok?;
    }
  }

  // ---- The pool ----

  class EthFilterApi {
    const maxStored: nat
    var pool: map<nat, PoolItem>

    constructor (maxStored: nat)
      ensures this.maxStored == maxStored && pool == map[]
    {
      this.maxStored, pool := maxStored, map[];
    }

    /** The largest key, or zero. */
    method LastKey() returns (k: nat)
      ensures pool == map[] ==> k == 0
      ensures forall j :: j in pool ==> j <= k
      ensures k > 0 ==> k in pool
    {
      k := 0;
      var left := pool.Keys;
      while left != {}
        invariant left <= pool.Keys
        invariant forall j :: j in pool && j !in left ==> j <= k
        invariant k > 0 ==> k in pool
        decreases |left|
      {
        var j :| j in left;
        if j > k {
          k := j;
        }
        left := left - {j};
      }
    }

    method CreateFilter(filterType: FilterType, best: nat) returns (r: Result<nat, PollError>)
      modifies this
      ensures r.Ok? <==> |old(pool)| < maxStored
      ensures r.Err? ==> r == Err(PoolFull) && pool == old(pool)
      ensures r.Ok? ==> forall j :: j in old(pool) ==> j < r.value
      ensures r.Ok? ==> r.value == 1 || (r.value > 0 && r.value - 1 in old(pool))
      ensures r.Ok? ==> r.value !in old(pool) && pool == old(pool)[r.value := PoolItem(best, filterType, best)]
      ensures |old(pool)| <= maxStored ==> |pool| <= maxStored
    {
      if |pool| >= maxStored {
        return Err(PoolFull);
      }
      var last := LastKey();
      var key := last + 1;
      pool := pool[key := PoolItem(best, filterType, best)];
      assert pool.Keys == old(pool).Keys + {key};
      return Ok(key);
    }

    /** `first` and `second` are the best numbers at the two reads. */
    method FilterChanges(crypto: Crypto, read: Reader, key: nat, first: nat, second: nat)
      returns (r: Result<Changes, PollError>)
      requires Countable(read)
      modifies this
      ensures key !in old(pool) ==> r == Err(NoSuchFilter) && pool == old(pool)
      ensures key in old(pool) ==>
                match Poll(crypto, read, old(pool)[key], first, second)
                case Err(e) => r == Err(e) && pool == old(pool)
                case Ok(polled) => r == Ok(polled.changes) && pool == old(pool)[key := polled.item]
    {
      if key !in pool {
        return Err(NoSuchFilter);
      }
      var item := pool[key];
      match item.filterType
      case PendingTransactionFilter =>
        return Err(NotAvailable);
      case BlockFilter =>
        var hashes := ReadUp(crypto, read, item.lastPoll, first + 1);
        if hashes.None? {
          return Err(RuntimeError);
        }
        pool := pool[key := item.(lastPoll := first + 1)];
        return Ok(Hashes(hashes.value));
      case LogsFilter(filter) =>
        var current := second;
        var to := Bound(filter.toBlock);
        if to.Some? {
          current := to.value;
        }
        if current > second {
          current := second;
        }
        var lastPoll := Sat32(item.lastPoll);
        var from := Bound(filter.fromBlock);
        var filterFrom := if from.Some? then from.value else lastPoll;
        var blocks := ReadDown(read, current, Max(lastPoll, filterFrom));
        if blocks.None? {
          return Err(RuntimeError);
        }
        pool := pool[key := item.(lastPoll := first + 1)];
        CollectCountable(read, Down(ScanTo(filter, second), ScanFrom(filter, item.lastPoll)));
        var logs := LogsBuild(crypto, filter, blocks.value);
        return Ok(Logs(logs));
    }

    method UninstallFilter(key: nat) returns (r: bool)
      modifies this
      ensures r == (key in old(pool)) && pool == old(pool) - {key}
    {
      r := key in pool;
      pool := pool - {key};
    }

    /** On import of block `imported`, drop the filters older than the threshold. */
    method DropStale(imported: nat, threshold: nat)
      modifies this
      ensures pool == map k | k in old(pool) && old(pool)[k].atBlock + threshold > imported :: old(pool)[k]
    {
      var stale := set k | k in pool && pool[k].atBlock + threshold <= imported;
      pool := pool - stale;
    }
  }
}
