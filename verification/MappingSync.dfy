/**
 * The resumable walk over the block tree that fills the index
 * (client/mapping-sync/src/lib.rs).
 */
module MappingSync {
  import opened Prelude
  import opened EthTypes
  import opened Consensus
  import opened MappingDb

  datatype SubHeader = SubHeader(number: nat, parent: Hash, digest: Digest)

  /** The node's view: headers, current leaves, and the Ethereum block each genesis state holds. */
  datatype Chain = Chain(headers: map<Hash, SubHeader>, leaves: seq<Hash>, genesis: map<Hash, Block>)

  datatype SyncError = HeaderNotFound | NoLog(e: FindLogError) | NoGenesisBlock | Database

  /** What a step or a round reports: whether it indexed a block, or why it stopped. */
  datatype Report = Synced(any: bool) | Failed(error: SyncError)

  /** Which of the two commits of a step the database accepts. */
  datatype Commits = Commits(mapping: bool, tips: bool)

  const HEALTHY := Commits(true, true)

  predicate HasChild(chain: Chain, h: Hash)
  {
    exists c :: c in chain.headers && chain.headers[c].number > 0 && chain.headers[c].parent == h
  }

  /** The parent is present one number below, and a block that is no leaf has a child. */
  predicate WellPlaced(chain: Chain, h: Hash)
    requires h in chain.headers
  {
    var header := chain.headers[h];
    && (header.number > 0 ==>
          header.parent in chain.headers && chain.headers[header.parent].number == header.number - 1)
    && (h !in chain.leaves ==> HasChild(chain, h))
  }

  ghost predicate ValidChain(chain: Chain)
  {
    && (forall h {:trigger WellPlaced(chain, h)} :: h in chain.headers ==> WellPlaced(chain, h))
    && (forall h :: h in chain.leaves ==> h in chain.headers)
  }

  predicate Extends(before: Chain, after: Chain)
  {
    && (forall h :: h in before.headers ==> h in after.headers && after.headers[h] == before.headers[h])
    && (forall h :: h in before.genesis ==> h in after.genesis && after.genesis[h] == before.genesis[h])
    && (forall h :: h in before.headers && h !in before.genesis ==> h !in after.genesis)
  }

  /** What `sync_block` or `sync_genesis_block` would write for a header. */
  function CommitmentOf(crypto: Crypto, chain: Chain, h: Hash): Result<Commitment, SyncError>
  {
    if h !in chain.headers then Err(HeaderNotFound)
    else if chain.headers[h].number == 0 then
      if h in chain.genesis then Ok(Commitment(h, BlockHash(crypto, chain.genesis[h]), [])) else Err(NoGenesisBlock)
    else
      match TheOnly(Logs(chain.headers[h].digest))
      case Err(e) => Err(NoLog(e))
      case Ok(log) =>
        var hashes := IntoHashes(crypto, log);
        Ok(Commitment(h, hashes.blockHash, hashes.transactionHashes))
  }

  // ---- One step ----

  /** Where the walk resumes: the persisted tips, or the leaves when there are none. */
  function Worklist(chain: Chain, db: Db): seq<Hash>
  {
    if db.tips == [] then chain.leaves else db.tips
  }

  /** The tips left after popping those already synced; the last one, if any, is worked on. */
  function PopSynced(db: Db, tips: seq<Hash>): (r: seq<Hash>)
    ensures r <= tips
    ensures r != [] ==> !IsSynced(db, Last(r))
    ensures forall i :: |r| <= i < |tips| ==> IsSynced(db, tips[i])
  {
    if tips == [] then []
    else if IsSynced(db, Last(tips)) then PopSynced(db, Init(tips))
    else tips
  }

  function NextTips(chain: Chain, left: seq<Hash>): seq<Hash>
    requires left != [] && Last(left) in chain.headers
  {
    var header := chain.headers[Last(left)];
    if header.number == 0 then Init(left) else Init(left) + [header.parent]
  }

  datatype Step = Step(db: Db, result: Report, written: Option<Commitment>)

  /** Index the last of the tips that are left, and persist the stack with its parent in its place. */
  function WorkOn(crypto: Crypto, chain: Chain, db: Db, left: seq<Hash>, ok: Commits): Step
    requires left != []
  {
    match CommitmentOf(crypto, chain, Last(left))
    case Err(e) => Step(db, Failed(e), None)
    case Ok(c) =>
      if !ok.mapping then Step(db, Failed(Database), None)
      else if !ok.tips then Step(WriteHashes(db, c), Failed(Database), Some(c))
      else Step(WriteHashes(db, c).(tips := NextTips(chain, left)), Synced(true), Some(c))
  }

  function SyncOne(crypto: Crypto, chain: Chain, db: Db, ok: Commits): Step
  {
    var tips := Worklist(chain, db);
    var left := PopSynced(db, tips);
    if tips == [] then Step(db, Synced(false), None)
    else if left != [] then WorkOn(crypto, chain, db, left, ok)
    else if ok.tips then Step(db.(tips := []), Synced(false), None)
    else Step(db, Failed(Database), None)
  }

  /** When a header can be indexed, under which hashes, and which error it gives otherwise. */
  lemma {:induction false} CommitmentExactly(crypto: Crypto, chain: Chain, h: Hash)
    ensures var c := CommitmentOf(crypto, chain, h);
            && (c.Ok? ==> c.value.blockHash == h)
            && (h !in chain.headers <==> c == Err(HeaderNotFound))
            && (h in chain.headers && chain.headers[h].number == 0 ==>
                  && (h !in chain.genesis <==> c == Err(NoGenesisBlock))
                  && (h in chain.genesis ==>
                        c == Ok(Commitment(h, crypto.headerHash(chain.genesis[h].header), []))))
            && (h in chain.headers && chain.headers[h].number > 0 ==>
                  var log := TheOnly(Logs(chain.headers[h].digest));
                  && (forall e :: log == Err(e) <==> c == Err(NoLog(e)))
                  && (log.Ok? ==>
                        var hashes := IntoHashes(crypto, log.value);
                        c == Ok(Commitment(h, hashes.blockHash, hashes.transactionHashes))))
  {
  }

  lemma {:induction false} PopsTo(db: Db, tips: seq<Hash>, k: nat)
    requires k < |tips| && !IsSynced(db, tips[k])
    requires forall j :: k < j < |tips| ==> IsSynced(db, tips[j])
    ensures PopSynced(db, tips) == tips[..k + 1]
  {
    var r := PopSynced(db, tips);
    assert |r| == k + 1;
  }

  /** A step with nothing to index: an empty stack over no leaves changes nothing, a synced one is cleared. */
  lemma {:induction false} IdleStep(crypto: Crypto, chain: Chain, db: Db, ok: Commits)
    ensures var work, s := Worklist(chain, db), SyncOne(crypto, chain, db, ok);
            && (work == [] ==> s == Step(db, Synced(false), None))
            && (work != [] && (forall h :: h in work ==> IsSynced(db, h)) ==>
                  s == if ok.tips then Step(db.(tips := []), Synced(false), None) else Step(db, Failed(Database), None))
  {
    var left := PopSynced(db, Worklist(chain, db));
    assert left != [] ==> Last(left) in Worklist(chain, db);
  }

  /** A step works on the last tip that is not synced; its parent takes the place of the tips from there on. */
  lemma {:induction false} WorkingStep(crypto: Crypto, chain: Chain, db: Db, ok: Commits, k: nat)
    requires var work := Worklist(chain, db);
             && k < |work| && !IsSynced(db, work[k])
             && forall j :: k < j < |work| ==> IsSynced(db, work[j])
    ensures var work, s := Worklist(chain, db), SyncOne(crypto, chain, db, ok);
            match CommitmentOf(crypto, chain, work[k])
            case Err(e) => s == Step(db, Failed(e), None)
            case Ok(c) =>
              && (!ok.mapping ==> s == Step(db, Failed(Database), None))
              && (ok.mapping && !ok.tips ==> s == Step(WriteHashes(db, c), Failed(Database), Some(c)))
              && (ok.mapping && ok.tips ==>
                    && s.result == Synced(true) && s.written == Some(c)
                    && s.db.(tips := db.tips) == WriteHashes(db, c)
                    && s.db.tips == work[..k] + (if chain.headers[work[k]].number == 0 then []
                                                 else [chain.headers[work[k]].parent]))
  {
    var work := Worklist(chain, db);
    PopsTo(db, work, k);
    assert Init(work[..k + 1]) == work[..k];
    if CommitmentOf(crypto, chain, work[k]).Ok? {
      WriteHashesColumns(db, CommitmentOf(crypto, chain, work[k]).value, 0);
    }
  }

  datatype Round = Round(db: Db, result: Report)

  /**
   * `sync_blocks`: at most `limit` steps, none after the first that indexed something or failed.
   * `ok(i)` is the database's answer to the commits of the step with `i` steps left.
   */
  function SyncBlocks(crypto: Crypto, chain: Chain, db: Db, limit: nat, ok: nat -> Commits): Round
    decreases limit
  {
    if limit == 0 then Round(db, Synced(false))
    else
      var s := SyncOne(crypto, chain, db, ok(limit));
      if s.result == Synced(false) then SyncBlocks(crypto, chain, s.db, limit - 1, ok) else Round(s.db, s.result)
  }

  function Recorded(history: seq<Commitment>, s: Step): seq<Commitment>
  {
    if s.written.Some? then history + [s.written.value] else history
  }

  // ---- Invariants ----

  /** The index is the scan of `history`, which lists distinct blocks of the chain. */
  ghost predicate IndexInv(crypto: Crypto, chain: Chain, db: Db, history: seq<Commitment>)
  {
    && Agrees(db, history)
    && DistinctBlocks(history)
    && (forall i :: 0 <= i < |history| ==>
          CommitmentOf(crypto, chain, history[i].blockHash) == Ok(history[i]))
  }

  /** The parent of an indexed block is indexed or waiting on the persisted stack of tips. */
  predicate Covered(chain: Chain, db: Db, h: Hash)
    requires h in chain.headers
  {
    var header := chain.headers[h];
    IsSynced(db, h) && header.number > 0 ==> IsSynced(db, header.parent) || header.parent in db.tips
  }

  /** The persisted tips are blocks of the tree. */
  predicate TipsInChain(chain: Chain, db: Db)
  {
    forall i :: 0 <= i < |db.tips| ==> db.tips[i] in chain.headers
  }

  ghost predicate CoverInv(chain: Chain, db: Db)
  {
    && TipsInChain(chain, db)
    && (forall h {:trigger Covered(chain, db, h)} :: h in chain.headers ==> Covered(chain, db, h))
  }

  lemma {:induction false} SyncedAfterWrite(db: Db, c: Commitment, h: Hash)
    ensures IsSynced(WriteHashes(db, c), h) <==> IsSynced(db, h) || h == c.blockHash
    ensures WriteHashes(db, c).tips == db.tips
  {
    WriteHashesColumns(db, c, 0);
  }

  lemma {:induction false} WriteKeepsIndex(crypto: Crypto, chain: Chain, db: Db,
                                           history: seq<Commitment>, c: Commitment)
    requires IndexInv(crypto, chain, db, history)
    requires CommitmentOf(crypto, chain, c.blockHash) == Ok(c) && !IsSynced(db, c.blockHash)
    ensures IndexInv(crypto, chain, WriteHashes(db, c), history + [c])
  {
    WriteHashesAppends(db, history, c);
    assert !Indexed(history, c.blockHash);
  }

  lemma {:induction false} TipsDoNotMatter(a: Db, b: Db, history: seq<Commitment>)
    requires Agrees(a, history)
    requires a.blocks == b.blocks && a.transactions == b.transactions && a.synced == b.synced
    ensures Agrees(b, history)
  {
    forall e ensures BlockHashes(b, e) == ScanBlocks(history, e) {
      assert BlockHashes(a, e) == BlockHashes(b, e);
    }
    forall t ensures TransactionMetadata(b, t) == ScanTransactions(history, t) {
      assert TransactionMetadata(a, t) == TransactionMetadata(b, t);
    }
    forall h ensures IsSynced(b, h) <==> Indexed(history, h) {
      assert IsSynced(a, h) <==> IsSynced(b, h);
    }
  }

  lemma {:induction false} TipsKeepIndex(crypto: Crypto, chain: Chain, a: Db, b: Db, history: seq<Commitment>)
    requires IndexInv(crypto, chain, a, history) && a.(tips := []) == b.(tips := [])
    ensures IndexInv(crypto, chain, b, history)
  {
    TipsDoNotMatter(a, b, history);
  }

  /** What a step does to the index: it writes the commitment of a block not indexed yet, or nothing. */
  lemma {:induction false} StepWrites(crypto: Crypto, chain: Chain, db: Db, ok: Commits)
    ensures var s := SyncOne(crypto, chain, db, ok);
            match s.written
            case None => s.db.(tips := []) == db.(tips := [])
            case Some(c) =>
              && CommitmentOf(crypto, chain, c.blockHash) == Ok(c) && !IsSynced(db, c.blockHash)
              && s.db.(tips := []) == WriteHashes(db, c).(tips := [])
  {
  }

  /** Index agreement survives every step, whatever the database accepts. */
  lemma {:induction false} StepKeepsIndex(crypto: Crypto, chain: Chain, db: Db, history: seq<Commitment>, ok: Commits)
    requires IndexInv(crypto, chain, db, history)
    ensures var s := SyncOne(crypto, chain, db, ok);
            IndexInv(crypto, chain, s.db, Recorded(history, s))
  {
    var s := SyncOne(crypto, chain, db, ok);
    StepWrites(crypto, chain, db, ok);
    if s.written.Some? {
      WriteKeepsIndex(crypto, chain, db, history, s.written.value);
      TipsKeepIndex(crypto, chain, WriteHashes(db, s.written.value), s.db, history + [s.written.value]);
    } else {
      TipsKeepIndex(crypto, chain, db, s.db, history);
    }
  }
  lemma {:induction false} WorklistInChain(chain: Chain, db: Db, i: nat)
    requires ValidChain(chain) && TipsInChain(chain, db) && i < |Worklist(chain, db)|
    ensures Worklist(chain, db)[i] in chain.headers
  {
    assert Worklist(chain, db)[i] in Worklist(chain, db);
  }

  /** Every step, whatever the database accepts, leaves only blocks of the tree on the stack. */
  lemma {:induction false} StepKeepsTips(crypto: Crypto, chain: Chain, db: Db, ok: Commits)
    requires ValidChain(chain) && TipsInChain(chain, db)
    ensures TipsInChain(chain, SyncOne(crypto, chain, db, ok).db)
  {
    var s := SyncOne(crypto, chain, db, ok);
    var left := PopSynced(db, Worklist(chain, db));
    if s.written.Some? {
      SyncedAfterWrite(db, s.written.value, 0);
      assert WellPlaced(chain, Last(left));
      forall i | 0 <= i < |s.db.tips| ensures s.db.tips[i] in chain.headers {
        if ok.tips && i < |left| - 1 {
          WorklistInChain(chain, db, i);
        }
      }
    }
  }

  /**
   * The step indexes a block whose parent is neither indexed nor on the stack, while the database
   * accepts the mapping and loses the new stack.
   */
  predicate LosesParent(crypto: Crypto, chain: Chain, db: Db, ok: Commits)
  {
    var left := PopSynced(db, Worklist(chain, db));
    && ok.mapping && !ok.tips && left != []
    && CommitmentOf(crypto, chain, Last(left)).Ok?
    && var header := chain.headers[Last(left)];
       header.number > 0 && !IsSynced(db, header.parent) && header.parent !in db.tips
  }

  lemma {:induction false} DrainKeepsCover(chain: Chain, db: Db)
    requires CoverInv(chain, db) && PopSynced(db, Worklist(chain, db)) == []
    ensures CoverInv(chain, db.(tips := []))
  {
    var after := db.(tips := []);
    forall h | h in chain.headers ensures Covered(chain, after, h) {
      assert Covered(chain, db, h);
      assert forall i :: 0 <= i < |db.tips| ==> IsSynced(db, db.tips[i]);
    }
  }

  lemma {:induction false} LostTipsCover(chain: Chain, db: Db, c: Commitment)
    requires ValidChain(chain) && CoverInv(chain, db)
    requires c.blockHash in chain.headers && !IsSynced(db, c.blockHash)
    ensures var header := chain.headers[c.blockHash];
            CoverInv(chain, WriteHashes(db, c)) <==>
              header.number == 0 || IsSynced(db, header.parent) || header.parent in db.tips
  {
    var op, after := c.blockHash, WriteHashes(db, c);
    var header := chain.headers[op];
    SyncedAfterWrite(db, c, op);
    assert WellPlaced(chain, op);
    if header.number > 0 {
      assert header.parent != op;
      SyncedAfterWrite(db, c, header.parent);
    }
    forall h | h in chain.headers && h != op ensures Covered(chain, after, h) {
      assert Covered(chain, db, h);
      SyncedAfterWrite(db, c, h);
      SyncedAfterWrite(db, c, chain.headers[h].parent);
    }
    assert Covered(chain, after, op)
      <==> header.number == 0 || IsSynced(db, header.parent) || header.parent in db.tips;
  }

  lemma {:induction false} AdvanceCovers(chain: Chain, db: Db, left: seq<Hash>, after: Db, c: Commitment, h: Hash)
    requires ValidChain(chain) && CoverInv(chain, db)
    requires left == PopSynced(db, Worklist(chain, db)) && left != []
    requires Last(left) == c.blockHash && c.blockHash in chain.headers
    requires after == WriteHashes(db, c).(tips := NextTips(chain, left))
    requires h in chain.headers && chain.headers[h].number > 0
    requires IsSynced(db, h) || h == c.blockHash
    ensures IsSynced(after, chain.headers[h].parent) || chain.headers[h].parent in after.tips
  {
    var p := chain.headers[h].parent;
    assert Covered(chain, db, h);
    SyncedAfterWrite(db, c, p);
    if h == c.blockHash {
      assert Last(after.tips) == p;
    } else if !IsSynced(db, p) && p != c.blockHash {
      var i :| 0 <= i < |db.tips| && db.tips[i] == p;
      assert Worklist(chain, db) == db.tips;
      assert i < |left| && left[i] == p && i < |left| - 1;
      assert after.tips[i] == p;
    }
  }

  lemma {:induction false} AdvanceKeepsCover(chain: Chain, db: Db, left: seq<Hash>, after: Db, c: Commitment)
    requires ValidChain(chain) && CoverInv(chain, db)
    requires left == PopSynced(db, Worklist(chain, db)) && left != []
    requires Last(left) == c.blockHash && c.blockHash in chain.headers
    requires after == WriteHashes(db, c).(tips := NextTips(chain, left))
    ensures CoverInv(chain, after)
  {
    assert WellPlaced(chain, c.blockHash);
    forall i | 0 <= i < |after.tips| ensures after.tips[i] in chain.headers {
      if i < |left| - 1 {
        WorklistInChain(chain, db, i);
      }
    }
    forall h | h in chain.headers ensures Covered(chain, after, h) {
      SyncedAfterWrite(db, c, h);
      if IsSynced(after, h) && chain.headers[h].number > 0 {
        AdvanceCovers(chain, db, left, after, c, h);
      }
    }
  }

  /** Coverage survives a step exactly when the step does not lose the parent it just uncovered. */
  lemma {:induction false} StepKeepsCoverExactly(crypto: Crypto, chain: Chain, db: Db, ok: Commits)
    requires ValidChain(chain) && CoverInv(chain, db)
    ensures var s := SyncOne(crypto, chain, db, ok);
            CoverInv(chain, s.db) <==> !LosesParent(crypto, chain, db, ok)
  {
    var s := SyncOne(crypto, chain, db, ok);
    var left := PopSynced(db, Worklist(chain, db));
    if s.written.Some? {
      if ok.tips {
        AdvanceKeepsCover(chain, db, left, s.db, s.written.value);
      } else {
        LostTipsCover(chain, db, s.written.value);
      }
    } else if left == [] && ok.tips {
      DrainKeepsCover(chain, db);
    }
  }

  // ---- Runs with imports in between ----

  datatype Event = Import(chain: Chain) | Sync(ok: Commits)

  datatype State = State(chain: Chain, db: Db, history: seq<Commitment>)

  ghost function Next(crypto: Crypto, s: State, e: Event): State
  {
    match e
    case Import(chain') =>
      if ValidChain(chain') && Extends(s.chain, chain') then s.(chain := chain') else s
    case Sync(ok) =>
      var step := SyncOne(crypto, s.chain, s.db, ok);
      State(s.chain, step.db, Recorded(s.history, step))
  }

  ghost function RunEvents(crypto: Crypto, s: State, events: seq<Event>): State
  {
    if events == [] then s else Next(crypto, RunEvents(crypto, s, Init(events)), Last(events))
  }

  lemma {:induction false} ImportKeeps(crypto: Crypto, s: State, chain': Chain)
    requires ValidChain(s.chain) && ValidChain(chain') && Extends(s.chain, chain')
    requires IndexInv(crypto, s.chain, s.db, s.history)
    ensures IndexInv(crypto, chain', s.db, s.history)
    ensures CoverInv(s.chain, s.db) ==> CoverInv(chain', s.db)
    ensures Next(crypto, s, Import(chain')) == s.(chain := chain')
  {
    forall i | 0 <= i < |s.history|
      ensures CommitmentOf(crypto, chain', s.history[i].blockHash) == Ok(s.history[i])
    {
      assert CommitmentOf(crypto, s.chain, s.history[i].blockHash) == Ok(s.history[i]);
    }
    if CoverInv(s.chain, s.db) {
      forall h | h in chain'.headers ensures Covered(chain', s.db, h) {
        if IsSynced(s.db, h) {
          assert Indexed(s.history, h);
          var i :| 0 <= i < |s.history| && s.history[i].blockHash == h;
          assert CommitmentOf(crypto, s.chain, h).Ok?;
          assert Covered(s.chain, s.db, h);
        }
      }
    }
  }

  /**
   * In every reachable state, with blocks and forks imported between steps and commits failing at
   * will, the index equals the scan of the indexed blocks.
   */
  lemma {:induction false} ReachableIndex(crypto: Crypto, chain: Chain, events: seq<Event>)
    requires ValidChain(chain)
    ensures var s := RunEvents(crypto, State(chain, EMPTY, []), events);
            ValidChain(s.chain) && IndexInv(crypto, s.chain, s.db, s.history)
  {
    var s0 := State(chain, EMPTY, []);
    if events == [] {
      assert Agrees(EMPTY, []);
    } else {
      ReachableIndex(crypto, chain, Init(events));
      var s := RunEvents(crypto, s0, Init(events));
      match Last(events)
      case Import(chain') =>
        if ValidChain(chain') && Extends(s.chain, chain') {
          ImportKeeps(crypto, s, chain');
        }
      case Sync(ok) =>
        StepKeepsIndex(crypto, s.chain, s.db, s.history, ok);
    }
  }

  /** In every reachable state, whatever commits failed, the persisted tips are blocks of the tree. */
  lemma {:induction false} ReachableTips(crypto: Crypto, chain: Chain, events: seq<Event>)
    requires ValidChain(chain)
    ensures var s := RunEvents(crypto, State(chain, EMPTY, []), events);
            ValidChain(s.chain) && TipsInChain(s.chain, s.db)
  {
    if events != [] {
      ReachableTips(crypto, chain, Init(events));
      var s := RunEvents(crypto, State(chain, EMPTY, []), Init(events));
      if Last(events).Sync? {
        StepKeepsTips(crypto, s.chain, s.db, Last(events).ok);
      }
    }
  }

  /** If no step lost its stack of tips, every reachable state is also covered. */
  lemma {:induction false} ReachableCover(crypto: Crypto, chain: Chain, events: seq<Event>)
    requires ValidChain(chain)
    requires forall i :: 0 <= i < |events| && events[i].Sync? ==> events[i].ok.tips
    ensures var s := RunEvents(crypto, State(chain, EMPTY, []), events);
            CoverInv(s.chain, s.db)
  {
    var s0 := State(chain, EMPTY, []);
    if events != [] {
      ReachableCover(crypto, chain, Init(events));
      ReachableIndex(crypto, chain, Init(events));
      var s := RunEvents(crypto, s0, Init(events));
      match Last(events)
      case Import(chain') =>
        if ValidChain(chain') && Extends(s.chain, chain') {
          ImportKeeps(crypto, s, chain');
        }
      case Sync(ok) =>
        StepKeepsCoverExactly(crypto, s.chain, s.db, ok);
    }
  }

  /**
   * What the scan means for the database: a block is under its own Ethereum hash once and under no
   * other, and each of its transactions has one entry for it, carrying its last position; a block that
   * is not indexed is nowhere.
   */
  lemma {:induction false} IndexIsExact(crypto: Crypto, chain: Chain, db: Db, history: seq<Commitment>,
                                        h: Hash, e: Hash, t: Hash)
    requires IndexInv(crypto, chain, db, history)
    ensures IsSynced(db, h) ==>
              && CommitmentOf(crypto, chain, h).Ok?
              && var c := CommitmentOf(crypto, chain, h).value;
                 && multiset(BlockHashes(db, e))[h] == (if c.ethereumBlockHash == e then 1 else 0)
                 && EntriesOf(TransactionMetadata(db, t), h) == (if t in c.transactionHashes then [Entry(c, t)] else [])
    ensures !IsSynced(db, h) ==> h !in BlockHashes(db, e) && EntriesOf(TransactionMetadata(db, t), h) == []
  {
    assert BlockHashes(db, e) == ScanBlocks(history, e);
    assert TransactionMetadata(db, t) == ScanTransactions(history, t);
    assert IsSynced(db, h) <==> Indexed(history, h);
    if IsSynced(db, h) {
      var k :| 0 <= k < |history| && history[k].blockHash == h;
      assert CommitmentOf(crypto, chain, h) == Ok(history[k]);
      IndexedExactlyOnce(history, k, e, t);
    } else {
      NeverIndexed(history, h, e, t);
    }
  }

  // ---- The code ----

  /** Pop tips until one is found that is not synced yet. */
  method NextTip(db: Db, tips: seq<Hash>) returns (operating: Option<Hash>, left: seq<Hash>)
    ensures PopSynced(db, tips) == if operating.Some? then left + [operating.value] else []
    ensures operating.None? ==> left == []
  {
    operating, left := None, tips;
    while left != []
      invariant PopSynced(db, left) == PopSynced(db, tips)
      decreases |left|
    {
      var checking := Last(left);
      left := Init(left);
      if !IsSynced(db, checking) {
        return Some(checking), left;
      }
    }
  }

  method SyncBlock(crypto: Crypto, chain: Chain, backend: Backend, h: Hash, committed: bool)
    returns (r: Result<(), SyncError>)
    requires h in chain.headers && chain.headers[h].number > 0
    modifies backend
    ensures match CommitmentOf(crypto, chain, h)
            case Err(e) => r == Err(e) && backend.db == old(backend.db)
            case Ok(c) =>
              if committed then r == Ok(()) && backend.db == WriteHashes(old(backend.db), c)
              else r == Err(Database) && backend.db == old(backend.db)
  {
    var log := FindLog(chain.headers[h].digest);
    if log.Err? {
      return Err(NoLog(log.error));
    }
    var hashes := IntoHashes(crypto, log.value);
    var w := backend.WriteMapping(Commitment(h, hashes.blockHash, hashes.transactionHashes), committed);
    return if w.Ok? then Ok(()) else Err(Database);
  }

  method SyncGenesisBlock(crypto: Crypto, chain: Chain, backend: Backend, h: Hash, committed: bool)
    returns (r: Result<(), SyncError>)
    requires h in chain.headers && chain.headers[h].number == 0
    modifies backend
    ensures match CommitmentOf(crypto, chain, h)
            case Err(e) => r == Err(e) && backend.db == old(backend.db)
            case Ok(c) =>
              if committed then r == Ok(()) && backend.db == WriteHashes(old(backend.db), c)
              else r == Err(Database) && backend.db == old(backend.db)
  {
    if h !in chain.genesis {
      return Err(NoGenesisBlock);
    }
    var w := backend.WriteMapping(Commitment(h, BlockHash(crypto, chain.genesis[h]), []), committed);
    return if w.Ok? then Ok(()) else Err(Database);
  }

  /** Index the tip that was popped and persist the stack below it, its parent on top. */
  method SyncTip(crypto: Crypto, chain: Chain, backend: Backend, tip: Hash, below: seq<Hash>, ok: Commits)
    returns (r: Report)
    modifies backend
    ensures var s := WorkOn(crypto, chain, old(backend.db), below + [tip], ok);
            backend.db == s.db && r == s.result
  {
    assert Last(below + [tip]) == tip && Init(below + [tip]) == below;
    if tip !in chain.headers {
      return Failed(HeaderNotFound);
    }
    var header := chain.headers[tip];
    var tips := below;
    if header.number == 0 {
      var w := SyncGenesisBlock(crypto, chain, backend, tip, ok.mapping);
      if w.Err? {
        return Failed(w.error);
      }
    } else {
      var w := SyncBlock(crypto, chain, backend, tip, ok.mapping);
      if w.Err? {
        return Failed(w.error);
      }
      tips := tips + [header.parent];
    }
    var w := backend.WriteCurrentSyncingTips(tips, ok.tips);
    return if w.Ok? then Synced(true) else Failed(Database);
  }

  method SyncOneBlock(crypto: Crypto, chain: Chain, backend: Backend, ok: Commits)
    returns (r: Report)
    modifies backend
    ensures var s := SyncOne(crypto, chain, old(backend.db), ok);
            backend.db == s.db && r == s.result
  {
    var tips := backend.db.tips;
    if tips == [] {
      if chain.leaves == [] {
        return Synced(false);
      }
      tips := tips + chain.leaves;
    }
    assert tips == Worklist(chain, backend.db);
    var operating;
    operating, tips := NextTip(backend.db, tips);
    if operating.None? {
      var w := backend.WriteCurrentSyncingTips(tips, ok.tips);
      return if w.Ok? then Synced(false) else Failed(Database);
    }
    assert PopSynced(backend.db, Worklist(chain, backend.db)) == tips + [operating.value];
    r := SyncTip(crypto, chain, backend, operating.value, tips, ok);
  }

  /** What is left of a round: nothing once a block was indexed, otherwise `left` more steps from `now`. */
  ghost predicate RestOfRound(crypto: Crypto, chain: Chain, ok: nat -> Commits, round: Round, now: Db, left: nat,
                              syncedAny: bool)
  {
    round == if syncedAny then Round(now, Synced(true)) else SyncBlocks(crypto, chain, now, left, ok)
  }

  lemma {:induction false} RoundGoesOn(crypto: Crypto, chain: Chain, ok: nat -> Commits, round: Round, now: Db,
                                       left: nat, s: Step)
    requires left > 0 && RestOfRound(crypto, chain, ok, round, now, left, false)
    requires s == SyncOne(crypto, chain, now, ok(left))
    ensures s.result.Failed? ==> round == Round(s.db, s.result)
    ensures s.result.Synced? ==> RestOfRound(crypto, chain, ok, round, s.db, left - 1, s.result.any)
  {
  }

  method SyncManyBlocks(crypto: Crypto, chain: Chain, backend: Backend, limit: nat, ok: nat -> Commits)
    returns (r: Report)
    modifies backend
    ensures var s := SyncBlocks(crypto, chain, old(backend.db), limit, ok);
            backend.db == s.db && r == s.result
  {
    ghost var round := SyncBlocks(crypto, chain, backend.db, limit, ok);
    var syncedAny := false;
    for i := limit downto 0
      invariant RestOfRound(crypto, chain, ok, round, backend.db, i, syncedAny)
    {
      if !syncedAny {
        RoundGoesOn(crypto, chain, ok, round, backend.db, i + 1, SyncOne(crypto, chain, backend.db, ok(i + 1)));
        var one := SyncOneBlock(crypto, chain, backend, ok(i + 1));
        if one.Failed? {
          return one;
        }
        syncedAny := one.any;
      }
    }
    return Synced(syncedAny);
  }
}
