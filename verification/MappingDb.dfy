/** The index from Ethereum hashes to Substrate blocks (client/db/src/lib.rs). */
module MappingDb {
  import opened Prelude

  datatype Metadata = Metadata(blockHash: Hash, ethereumBlockHash: Hash, ethereumIndex: nat)

  datatype Commitment = Commitment(blockHash: Hash, ethereumBlockHash: Hash, transactionHashes: seq<Hash>)

  /** The four database columns. An absent key reads as the empty list, or as "not synced". */
  datatype Db = Db(
    tips: seq<Hash>,
    blocks: map<Hash, seq<Hash>>,
    transactions: map<Hash, seq<Metadata>>,
    synced: map<Hash, bool>)

  const EMPTY := Db([], map[], map[], map[])

  predicate IsSynced(db: Db, h: Hash) { h in db.synced && db.synced[h] }

  function BlockHashes(db: Db, e: Hash): seq<Hash> { if e in db.blocks then db.blocks[e] else [] }

  function TransactionMetadata(db: Db, t: Hash): seq<Metadata>
  {
    if t in db.transactions then db.transactions[t] else []
  }

  // ---- Batches: writes become visible together, at commit ----

  datatype Write =
    | SetBlocks(key: Hash, hashes: seq<Hash>)
    | SetTransactions(key: Hash, metadata: seq<Metadata>)
    | SetSynced(key: Hash, flag: bool)

  function Apply(db: Db, w: Write): Db
  {
    match w
    case SetBlocks(k, v) => db.(blocks := db.blocks[k := v])
    case SetTransactions(k, v) => db.(transactions := db.transactions[k := v])
    case SetSynced(k, v) => db.(synced := db.synced[k := v])
  }

  function ApplyAll(db: Db, batch: seq<Write>): Db
  {
    if batch == [] then db else Apply(ApplyAll(db, Init(batch)), Last(batch))
  }

  // ---- Specification: the index as a plain scan of the commitments written so far ----

  function LastIndex(txs: seq<Hash>, t: Hash): (i: nat)
    requires t in txs
    ensures i < |txs| && txs[i] == t && forall j :: i < j < |txs| ==> txs[j] != t
  {
    if Last(txs) == t then |txs| - 1 else LastIndex(Init(txs), t)
  }

  /** The entry a commitment contributes for one of its transactions; the index is a `u32`. */
  function Entry(c: Commitment, t: Hash): Metadata
    requires t in c.transactionHashes
  {
    Metadata(c.blockHash, c.ethereumBlockHash, LastIndex(c.transactionHashes, t) % TWO_32)
  }

  function ScanBlocks(history: seq<Commitment>, e: Hash): seq<Hash>
  {
    if history == [] then []
    else
      var before := ScanBlocks(Init(history), e);
      if Last(history).ethereumBlockHash == e then before + [Last(history).blockHash] else before
  }

  function ScanTransactions(history: seq<Commitment>, t: Hash): seq<Metadata>
  {
    if history == [] then []
    else
      var before := ScanTransactions(Init(history), t);
      if t in Last(history).transactionHashes then before + [Entry(Last(history), t)] else before
  }

  predicate Indexed(history: seq<Commitment>, h: Hash)
  {
    exists i :: 0 <= i < |history| && history[i].blockHash == h
  }

  /** The three mapping columns answer every query as the scan does. */
  ghost predicate Agrees(db: Db, history: seq<Commitment>)
  {
    && (forall e :: BlockHashes(db, e) == ScanBlocks(history, e))
    && (forall t :: TransactionMetadata(db, t) == ScanTransactions(history, t))
    && (forall h :: IsSynced(db, h) <==> Indexed(history, h))
  }

  // ---- write_hashes ----

  /** The transaction part of the batch: every list is read from the database, not from the batch. */
  function TransactionWrites(db: Db, c: Commitment, n: nat): (batch: seq<Write>)
    requires n <= |c.transactionHashes|
    ensures |batch| == n
  {
    if n == 0 then []
    else
      var t := c.transactionHashes[n - 1];
      TransactionWrites(db, c, n - 1)
      + [SetTransactions(t, TransactionMetadata(db, t)
                            + [Metadata(c.blockHash, c.ethereumBlockHash, (n - 1) % TWO_32)])]
  }

  function FirstWrite(db: Db, c: Commitment): Write
  {
    SetBlocks(c.ethereumBlockHash, BlockHashes(db, c.ethereumBlockHash) + [c.blockHash])
  }

  function Batch(db: Db, c: Commitment): seq<Write>
  {
    [FirstWrite(db, c)]
    + TransactionWrites(db, c, |c.transactionHashes|)
    + [SetSynced(c.blockHash, true)]
  }

  function WriteHashes(db: Db, c: Commitment): Db { ApplyAll(db, Batch(db, c)) }

  /** After the first `n` transactions, the list of `t` has at most one entry more. */
  lemma {:induction false} ApplyTransactionWrites(db: Db, c: Commitment, n: nat, t: Hash)
    requires n <= |c.transactionHashes|
    ensures var r := ApplyAll(db, [FirstWrite(db, c)] + TransactionWrites(db, c, n));
            && r.tips == db.tips && r.synced == db.synced
            && r.blocks == db.blocks[c.ethereumBlockHash := FirstWrite(db, c).hashes]
            && TransactionMetadata(r, t) ==
                  if t in c.transactionHashes[..n] then
                    TransactionMetadata(db, t)
                    + [Metadata(c.blockHash, c.ethereumBlockHash, LastIndex(c.transactionHashes[..n], t) % TWO_32)]
                  else TransactionMetadata(db, t)
  {
    var first := FirstWrite(db, c);
    var batch := [first] + TransactionWrites(db, c, n);
    if n == 0 {
      assert batch == [first] && Init(batch) == [];
      assert ApplyAll(db, batch) == Apply(db, first);
    } else {
      ApplyTransactionWrites(db, c, n - 1, t);
      assert Init(batch) == [first] + TransactionWrites(db, c, n - 1);
      assert Init(c.transactionHashes[..n]) == c.transactionHashes[..n - 1];
    }
  }

  /** The columns after a commit, for any transaction hash `t`. */
  lemma {:induction false} WriteHashesColumns(db: Db, c: Commitment, t: Hash)
    ensures var r := WriteHashes(db, c);
            && r.tips == db.tips
            && r.synced == db.synced[c.blockHash := true]
            && r.blocks == db.blocks[c.ethereumBlockHash := BlockHashes(db, c.ethereumBlockHash) + [c.blockHash]]
            && TransactionMetadata(r, t) ==
               if t in c.transactionHashes then TransactionMetadata(db, t) + [Entry(c, t)]
               else TransactionMetadata(db, t)
  {
    var n := |c.transactionHashes|;
    ApplyTransactionWrites(db, c, n, t);
    assert c.transactionHashes[..n] == c.transactionHashes;
    assert Init(Batch(db, c)) == [FirstWrite(db, c)] + TransactionWrites(db, c, n);
  }

  lemma {:induction false} IndexedSnoc(history: seq<Commitment>, c: Commitment, h: Hash)
    ensures Indexed(history + [c], h) <==> Indexed(history, h) || h == c.blockHash
  {
    var h' := history + [c];
    assert h'[|history|] == c;
    assert forall i :: 0 <= i < |history| ==> h'[i] == history[i];
  }

  /**
   * One commit appends exactly one commitment to the scan, even when a transaction hash occurs
   * several times in the block.
   */
  lemma {:induction false} WriteHashesAppends(db: Db, history: seq<Commitment>, c: Commitment)
    requires Agrees(db, history)
    ensures Agrees(WriteHashes(db, c), history + [c])
    ensures WriteHashes(db, c).tips == db.tips
  {
    var h', r := history + [c], WriteHashes(db, c);
    assert Init(h') == history && Last(h') == c;
    WriteHashesColumns(db, c, 0);
    forall t ensures TransactionMetadata(r, t) == ScanTransactions(h', t) {
      WriteHashesColumns(db, c, t);
    }
    forall h ensures IsSynced(r, h) <==> Indexed(h', h) {
      IndexedSnoc(history, c, h);
      assert IsSynced(db, h) <==> Indexed(history, h);
    }
    forall e ensures BlockHashes(r, e) == ScanBlocks(h', e) {
      assert BlockHashes(db, e) == ScanBlocks(history, e);
    }
  }

  // ---- What the scan means, one block and one transaction at a time ----

  predicate DistinctBlocks(history: seq<Commitment>)
  {
    forall i, j :: 0 <= i < j < |history| ==> history[i].blockHash != history[j].blockHash
  }

  function EntriesOf(s: seq<Metadata>, h: Hash): seq<Metadata>
  {
    if s == [] then []
    else if Last(s).blockHash == h then EntriesOf(Init(s), h) + [Last(s)]
    else EntriesOf(Init(s), h)
  }

  lemma {:induction false} EntriesOfSnoc(s: seq<Metadata>, m: Metadata, h: Hash)
    ensures EntriesOf(s + [m], h) == if m.blockHash == h then EntriesOf(s, h) + [m] else EntriesOf(s, h)
  {
    assert Init(s + [m]) == s;
  }

  /** A block that was not indexed is nowhere in the index. */
  lemma {:induction false} NeverIndexed(history: seq<Commitment>, h: Hash, e: Hash, t: Hash)
    requires !Indexed(history, h)
    ensures h !in ScanBlocks(history, e)
    ensures EntriesOf(ScanTransactions(history, t), h) == []
  {
    if history != [] {
      var before, last := Init(history), Last(history);
      assert forall i :: 0 <= i < |before| ==> history[i] == before[i];
      assert history[|history| - 1] == last;
      assert !Indexed(before, h);
      NeverIndexed(before, h, e, t);
      if t in last.transactionHashes {
        EntriesOfSnoc(ScanTransactions(before, t), Entry(last, t), h);
      }
    }
  }

  /**
   * A block that was indexed as commitment `k` occurs once under its Ethereum hash and never under
   * another; each of its transactions has one entry for it, others have none.
   */
  lemma {:induction false} IndexedExactlyOnce(history: seq<Commitment>, k: nat, e: Hash, t: Hash)
    requires DistinctBlocks(history) && k < |history|
    ensures multiset(ScanBlocks(history, e))[history[k].blockHash] == if history[k].ethereumBlockHash == e then 1 else 0
    ensures EntriesOf(ScanTransactions(history, t), history[k].blockHash)
            == if t in history[k].transactionHashes then [Entry(history[k], t)] else []
  {
    var c, last := history[k], Last(history);
    var before := Init(history);
    if k == |history| - 1 {
      assert !Indexed(before, c.blockHash);
      NeverIndexed(before, c.blockHash, e, t);
    } else {
      IndexedExactlyOnce(before, k, e, t);
    }
    if t in last.transactionHashes {
      EntriesOfSnoc(ScanTransactions(before, t), Entry(last, t), c.blockHash);
    }
  }

  // ---- The database object ----

  datatype DbError = CommitFailed

  class Backend {
    var db: Db

    constructor ()
      ensures db == EMPTY
    {
      db := EMPTY;
    }

    /** `committed` is the database's answer to the commit. */
    method WriteCurrentSyncingTips(tips: seq<Hash>, committed: bool) returns (r: Result<(), DbError>)
      modifies this
      ensures r.Ok? == committed
      ensures db == if committed then old(db).(tips := tips) else old(db)
    {
      if !committed {
        return Err(CommitFailed);
      }
      db := db.(tips := tips);
      return Ok(());
    }

    method WriteMapping(c: Commitment, committed: bool) returns (r: Result<(), DbError>)
      modifies this
      ensures r.Ok? == committed
      ensures db == if committed then WriteHashes(old(db), c) else old(db)
    {
      var blockHashes := BlockHashes(db, c.ethereumBlockHash);
      blockHashes := blockHashes + [c.blockHash];
      var batch := [SetBlocks(c.ethereumBlockHash, blockHashes)];
      ghost var first := batch;
      for i := 0 to |c.transactionHashes|
        invariant db == old(db)
        invariant batch == first + TransactionWrites(db, c, i)
      {
        var t := c.transactionHashes[i];
        var metadata := TransactionMetadata(db, t);
        metadata := metadata + [Metadata(c.blockHash, c.ethereumBlockHash, i % TWO_32)];
        batch := batch + [SetTransactions(t, metadata)];
      }
      batch := batch + [SetSynced(c.blockHash, true)];
      assert batch == Batch(db, c);
      if !committed {
        return Err(CommitFailed);
      }
      db := ApplyAll(db, batch);
      return Ok(());
    }
  }
}
