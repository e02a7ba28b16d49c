/** Resolving a transaction hash through the index (client/rpc/src/eth.rs). */
module TransactionLookup {
  import opened Prelude
  import opened EthTypes
  import opened Consensus
  import opened MappingDb
  import opened MappingSync
  import opened SyncProgress
  import Pallet = EthereumPallet

  /** The node behind the RPC server: the chain, its canonical blocks by number, and each block's state. */
  datatype Node = Node(chain: Chain, canonical: map<nat, Hash>, state: map<Hash, Pallet.Cells>)

  predicate IsCanon(node: Node, h: Hash)
  {
    && h in node.chain.headers
    && node.chain.headers[h].number in node.canonical
    && node.canonical[node.chain.headers[h].number] == h
  }

  function Canonical(node: Node, hashes: seq<Hash>): (r: seq<Hash>)
    ensures forall h :: h in r <==> h in hashes && IsCanon(node, h)
  {
    if hashes == [] then []
    else if IsCanon(node, Last(hashes)) then Canonical(node, Init(hashes)) + [Last(hashes)]
    else Canonical(node, Init(hashes))
  }

  function LoadHash(node: Node, db: Db, e: Hash): Option<Hash>
  {
    var out := Canonical(node, BlockHashes(db, e));
    if |out| == 1 then Some(out[0]) else None
  }

  function LoadTransactions(db: Db, t: Hash): Option<(Hash, nat)>
  {
    var metadata := TransactionMetadata(db, t);
    if |metadata| == 1 then Some((metadata[0].ethereumBlockHash, metadata[0].ethereumIndex)) else None
  }

  /** `transaction_by_hash` up to the state it reads: the canonical block and the index in it. */
  function Lookup(node: Node, db: Db, t: Hash): Option<(Hash, nat)>
  {
    match LoadTransactions(db, t)
    case None => None
    case Some((e, i)) =>
      match LoadHash(node, db, e)
      case None => None
      case Some(h) => Some((h, i))
  }

  // ---- Where the stored blocks come from ----

  /** The state of a genesis block: stored without a log and without transactions. */
  ghost predicate GenesisState(crypto: Crypto, cells: Pallet.Cells)
  {
    exists env :: cells == Pallet.Store(crypto, env, Pallet.Cells([], None, None, None, []), false)
  }

  /**
   * The state after a completed block run, whatever its digest held at first, within the 32-bit
   * transaction index.
   */
  ghost predicate BlockState(crypto: Crypto, cells: Pallet.Cells, digest: Digest)
  {
    exists env, c: Pallet.Cells, calls ::
      && Pallet.ForeignDeposits(calls)
      && Pallet.RunBlock(crypto, env, c, calls) == Some(cells)
      && |cells.pending| <= TWO_32
      && digest == cells.digest
  }

  ghost predicate Produced(crypto: Crypto, node: Node, h: Hash)
  {
    && h in node.chain.headers && h in node.state
    && var header, cells := node.chain.headers[h], node.state[h];
       if header.number == 0 then
         && GenesisState(crypto, cells)
         && h in node.chain.genesis && cells.block == Some(node.chain.genesis[h])
       else BlockState(crypto, cells, header.digest)
  }

  /** The state of `h` holds a block, statuses and receipts that line up. */
  ghost predicate Stored(crypto: Crypto, node: Node, h: Hash)
  {
    && h in node.state
    && var cells := node.state[h];
       && cells.block.Some? && cells.statuses.Some? && cells.receipts.Some?
       && Pallet.Aligned(crypto, cells.block.value, cells.statuses.value, cells.receipts.value)
       && |cells.block.value.transactions| <= TWO_32
  }

  /** The index records exactly the hashes of the block that the state of `h` holds. */
  ghost predicate Faithful(crypto: Crypto, node: Node, h: Hash)
  {
    && Stored(crypto, node, h)
    && var block := node.state[h].block.value;
       CommitmentOf(crypto, node.chain, h) ==
       Ok(Commitment(h, BlockHash(crypto, block), TxHashes(crypto, block.transactions)))
  }

  /** The pre-log in the header of `h`, under whose Ethereum header the block is indexed. */
  function PreLogOf(node: Node, h: Hash): Option<Block>
  {
    if h !in node.chain.headers || node.chain.headers[h].number == 0 || PreLogs(node.chain.headers[h].digest) == []
    then None
    else Some(PreLogs(node.chain.headers[h].digest)[0].block)
  }

  lemma {:induction false} OnlyPreLog(d: Digest)
    requires |PreLogs(d)| == 1 && |PostLogs(d)| == 0
    ensures Logs(d) == [Pre(PreLogs(d)[0])]
  {
    LogCount(Init(d));
    LogCount(d);
    if TryPre(Last(d)).None? {
      OnlyPreLog(Init(d));
    } else {
      assert PreLogs(Init(d)) == [] && Logs(Init(d)) == [];
    }
  }

  /** With a pre-log: what the run stores, and what the indexer reads. */
  lemma {:induction false} PreLogRun(crypto: Crypto, env: Pallet.Env, c: Pallet.Cells, calls: seq<Pallet.Call>)
    requires Pallet.ForeignDeposits(calls) && Pallet.RunBlock(crypto, env, c, calls).Some?
    requires |PreLogs(c.digest)| == 1 && |PostLogs(c.digest)| == 0
    ensures var cells := Pallet.RunBlock(crypto, env, c, calls).value;
            && PreLogs(cells.digest) == PreLogs(c.digest)
            && TheOnly(Logs(cells.digest)) == Ok(Pre(PreLogs(c.digest)[0]))
            && PreLogs(c.digest)[0].block.transactions == []
            && cells.block.Some? && cells.block.value.transactions == []
  {
    Pallet.PreLogBlockIsEmpty(crypto, env, c, calls);
    Pallet.CallsKeepLogs(crypto, Pallet.Initialize(c).value, calls);
    OnlyPreLog(c.digest);
  }

  /** Without one: the post-log of the run is the only log it leaves. */
  lemma {:induction false} PostLogRun(crypto: Crypto, env: Pallet.Env, c: Pallet.Cells, calls: seq<Pallet.Call>)
    requires Pallet.ForeignDeposits(calls) && |PreLogs(c.digest)| == 0 && |PostLogs(c.digest)| == 0
    ensures Pallet.RunBlock(crypto, env, c, calls).Some?
    ensures var cells := Pallet.RunBlock(crypto, env, c, calls).value;
            && PreLogs(cells.digest) == [] && cells.block.Some?
            && TheOnly(Logs(cells.digest)) == Ok(Post(PostHashes(HashesOf(crypto, cells.block.value))))
  {
    LogCount(c.digest);
    Pallet.FreshBlockLog(crypto, env, c, calls);
    Pallet.CallsKeepLogs(crypto, Pallet.Initialize(c).value, calls);
    var ready := Pallet.RunCalls(crypto, Pallet.Initialize(c).value, calls);
    assert Init(Pallet.Finalize(crypto, env, ready).digest) == ready.digest;
  }

  /**
   * Every completed block that can be indexed is stored aligned, and indexed under its own hashes
   * unless it carries a pre-log; one with a pre-log stores no transaction, and is indexed without any
   * under the hash of the header inside the pre-log.
   */
  lemma {:induction false} ProducedIsIndexedFaithfully(crypto: Crypto, node: Node, h: Hash)
    requires Produced(crypto, node, h) && CommitmentOf(crypto, node.chain, h).Ok?
    ensures Stored(crypto, node, h)
    ensures PreLogOf(node, h).None? ==> Faithful(crypto, node, h)
    ensures PreLogOf(node, h).Some? ==>
              && node.state[h].block.value.transactions == []
              && CommitmentOf(crypto, node.chain, h)
                 == Ok(Commitment(h, BlockHash(crypto, PreLogOf(node, h).value), []))
    ensures Faithful(crypto, node, h) <==>
              (PreLogOf(node, h).Some? ==>
                 BlockHash(crypto, PreLogOf(node, h).value) == BlockHash(crypto, node.state[h].block.value))
  {
    var header, cells := node.chain.headers[h], node.state[h];
    if header.number > 0 {
      var env, c: Pallet.Cells, calls :|
        && Pallet.ForeignDeposits(calls)
        && Pallet.RunBlock(crypto, env, c, calls) == Some(cells)
        && |cells.pending| <= TWO_32
        && header.digest == cells.digest;
      Pallet.BlockAligned(crypto, env, c, calls);
      Pallet.CompletedBlockHasOneLog(crypto, env, c, calls);
      if |PreLogs(c.digest)| == 1 {
        PreLogRun(crypto, env, c, calls);
        assert TxHashes(crypto, PreLogs(c.digest)[0].block.transactions) == [];
        assert TxHashes(crypto, cells.block.value.transactions) == [];
      } else {
        PostLogRun(crypto, env, c, calls);
      }
    }
  }

  // ---- Entries of the scan ----

  /** The indexed blocks that contain a transaction. */
  function Containing(history: seq<Commitment>, t: Hash): (r: seq<Commitment>)
    ensures forall c :: c in r <==> c in history && t in c.transactionHashes
  {
    if history == [] then []
    else if t in Last(history).transactionHashes then Containing(Init(history), t) + [Last(history)]
    else Containing(Init(history), t)
  }

  lemma {:induction false} NoneContaining(history: seq<Commitment>, t: Hash, i: nat)
    requires Containing(history, t) == [] && i < |history|
    ensures t !in history[i].transactionHashes
  {
    assert history[i] in history;
    assert history[i] !in Containing(history, t);
  }

  /** The one indexed block that contains `t`, and that no other does. */
  lemma {:induction false} SingleContaining(history: seq<Commitment>, t: Hash) returns (k: nat)
    requires |Containing(history, t)| == 1
    ensures k < |history| && t in history[k].transactionHashes && Containing(history, t) == [history[k]]
    ensures forall i :: 0 <= i < |history| && i != k ==> t !in history[i].transactionHashes
  {
    var before := Init(history);
    if t in Last(history).transactionHashes {
      k := |history| - 1;
      assert Containing(before, t) == [];
      forall i | 0 <= i < |before| ensures t !in before[i].transactionHashes {
        NoneContaining(before, t, i);
      }
    } else {
      assert Containing(before, t) == Containing(history, t);
      k := SingleContaining(before, t);
    }
    assert forall i :: 0 <= i < |before| ==> before[i] == history[i];
  }

  lemma {:induction false} ScanLength(history: seq<Commitment>, t: Hash)
    ensures |ScanTransactions(history, t)| == |Containing(history, t)|
  {
    if history != [] {
      ScanLength(Init(history), t);
    }
  }

  /** A hash resolves exactly when one indexed block, on any fork, contains it. */
  lemma {:induction false} ResolvesWhenUnique(db: Db, history: seq<Commitment>, t: Hash)
    requires Agrees(db, history)
    ensures LoadTransactions(db, t).Some? <==> |Containing(history, t)| == 1
  {
    ScanLength(history, t);
    assert TransactionMetadata(db, t) == ScanTransactions(history, t);
  }

  // ---- The theorem ----

  lemma {:induction false} SameHashSameTransactions(crypto: Crypto, node: Node, a: Hash, b: Hash)
    requires CollisionFree(crypto) && Faithful(crypto, node, a) && Faithful(crypto, node, b)
    requires BlockHash(crypto, node.state[a].block.value) == BlockHash(crypto, node.state[b].block.value)
    ensures node.state[a].block.value.transactions == node.state[b].block.value.transactions
  {
    var x, y := node.state[a].block.value, node.state[b].block.value;
    assert crypto.headerHash(x.header) == crypto.headerHash(y.header);
    assert crypto.txRoot(x.transactions) == crypto.txRoot(y.transactions);
  }

  /** At index `i` the state holds the transaction, the status and the receipt of hash `t`. */
  ghost predicate Serves(crypto: Crypto, cells: Pallet.Cells, i: nat, t: Hash)
  {
    && cells.block.Some? && cells.statuses.Some? && cells.receipts.Some?
    && i < |cells.block.value.transactions| == |cells.statuses.value| == |cells.receipts.value|
    && crypto.txHash(cells.block.value.transactions[i]) == t
    && cells.statuses.value[i].transactionHash == t
    && cells.statuses.value[i].transactionIndex == i
  }

  lemma {:induction false} ServesLastIndex(crypto: Crypto, cells: Pallet.Cells, t: Hash)
    requires cells.block.Some? && cells.statuses.Some? && cells.receipts.Some?
    requires Pallet.Aligned(crypto, cells.block.value, cells.statuses.value, cells.receipts.value)
    requires |cells.block.value.transactions| <= TWO_32
    requires t in TxHashes(crypto, cells.block.value.transactions)
    ensures Serves(crypto, cells, LastIndex(TxHashes(crypto, cells.block.value.transactions), t) % TWO_32, t)
  {
    var last := LastIndex(TxHashes(crypto, cells.block.value.transactions), t);
    Fits32(last);
    assert cells.statuses.value[last].transactionHash == crypto.txHash(cells.block.value.transactions[last]);
  }

  /** The entry of block `b` also fits any other block `h` with the same Ethereum hash. */
  lemma {:induction false} EntryFits(crypto: Crypto, node: Node, b: Hash, h: Hash, c: Commitment, t: Hash)
    requires CollisionFree(crypto) && Faithful(crypto, node, b) && Faithful(crypto, node, h)
    requires BlockHash(crypto, node.state[b].block.value) == BlockHash(crypto, node.state[h].block.value)
    requires CommitmentOf(crypto, node.chain, b) == Ok(c) && t in c.transactionHashes
    ensures Serves(crypto, node.state[h], Entry(c, t).ethereumIndex, t)
  {
    SameHashSameTransactions(crypto, node, b, h);
    ServesLastIndex(crypto, node.state[h], t);
  }

  lemma {:induction false} NoneContains(history: seq<Commitment>, t: Hash)
    requires forall i :: 0 <= i < |history| ==> t !in history[i].transactionHashes
    ensures ScanTransactions(history, t) == []
  {
    if history != [] {
      NoneContains(Init(history), t);
    }
  }

  lemma {:induction false} OnlyOneContains(history: seq<Commitment>, k: nat, t: Hash)
    requires k < |history| && t in history[k].transactionHashes
    requires forall i :: 0 <= i < |history| && i != k ==> t !in history[i].transactionHashes
    ensures ScanTransactions(history, t) == [Entry(history[k], t)]
  {
    if k == |history| - 1 {
      NoneContains(Init(history), t);
    } else {
      OnlyOneContains(Init(history), k, t);
    }
  }

  /** Blocks under one Ethereum hash contain the same transactions. */
  lemma {:induction false} SharedHashSharesTransactions(
    crypto: Crypto, node: Node, history: seq<Commitment>, i: nat, k: nat, t: Hash)
    requires CollisionFree(crypto) && i < |history| && k < |history|
    requires Faithful(crypto, node, history[i].blockHash) && Faithful(crypto, node, history[k].blockHash)
    requires CommitmentOf(crypto, node.chain, history[i].blockHash) == Ok(history[i])
    requires CommitmentOf(crypto, node.chain, history[k].blockHash) == Ok(history[k])
    requires history[i].ethereumBlockHash == history[k].ethereumBlockHash && t in history[k].transactionHashes
    ensures t in history[i].transactionHashes
  {
    SameHashSameTransactions(crypto, node, history[i].blockHash, history[k].blockHash);
  }

  /** The indexed canonical blocks under an Ethereum hash. */
  function CanonicalUnder(node: Node, history: seq<Commitment>, e: Hash): (r: seq<Commitment>)
    ensures forall c :: c in r <==> c in history && c.ethereumBlockHash == e && IsCanon(node, c.blockHash)
  {
    if history == [] then []
    else if Last(history).ethereumBlockHash == e && IsCanon(node, Last(history).blockHash)
      then CanonicalUnder(node, Init(history), e) + [Last(history)]
    else CanonicalUnder(node, Init(history), e)
  }

  lemma {:induction false} CanonicalSnoc(node: Node, hashes: seq<Hash>, h: Hash)
    ensures Canonical(node, hashes + [h])
            == if IsCanon(node, h) then Canonical(node, hashes) + [h] else Canonical(node, hashes)
  {
    assert Init(hashes + [h]) == hashes;
  }

  lemma {:induction false} CanonicalScan(node: Node, history: seq<Commitment>, e: Hash)
    ensures var out, blocks := Canonical(node, ScanBlocks(history, e)), CanonicalUnder(node, history, e);
            |out| == |blocks| && forall i :: 0 <= i < |out| ==> out[i] == blocks[i].blockHash
  {
    if history != [] {
      CanonicalScan(node, Init(history), e);
      if Last(history).ethereumBlockHash == e {
        CanonicalSnoc(node, ScanBlocks(Init(history), e), Last(history).blockHash);
      }
    }
  }

  lemma {:induction false} LoadHashExactly(node: Node, db: Db, history: seq<Commitment>, e: Hash)
    requires Agrees(db, history)
    ensures LoadHash(node, db, e) ==
            var blocks := CanonicalUnder(node, history, e);
            if |blocks| == 1 then Some(blocks[0].blockHash) else None
  {
    CanonicalScan(node, history, e);
    assert BlockHashes(db, e) == ScanBlocks(history, e);
  }

  /**
   * The whole lookup, for blocks of any kind: it succeeds if and only if exactly one indexed block
   * contains the hash and exactly one block indexed under its Ethereum hash is canonical; it then answers
   * with that canonical block and the last position of the transaction in the block that contains it.
   */
  lemma {:induction false} LookupExactly(node: Node, db: Db, history: seq<Commitment>, t: Hash)
    requires Agrees(db, history)
    ensures var blocks := Containing(history, t);
            && (Lookup(node, db, t).Some? <==>
                  |blocks| == 1 && |CanonicalUnder(node, history, blocks[0].ethereumBlockHash)| == 1)
            && (Lookup(node, db, t).Some? ==>
                  && t in blocks[0].transactionHashes
                  && Lookup(node, db, t).value ==
                       (CanonicalUnder(node, history, blocks[0].ethereumBlockHash)[0].blockHash,
                        Entry(blocks[0], t).ethereumIndex))
  {
    ResolvesWhenUnique(db, history, t);
    if |Containing(history, t)| == 1 {
      var k := SingleContaining(history, t);
      OnlyOneContains(history, k, t);
      assert TransactionMetadata(db, t) == ScanTransactions(history, t);
      LoadHashExactly(node, db, history, history[k].ethereumBlockHash);
    }
  }

  lemma {:induction false} InHistory(crypto: Crypto, node: Node, db: Db, history: seq<Commitment>, c: Commitment)
    requires IndexInv(crypto, node.chain, db, history) && c in history
    ensures CommitmentOf(crypto, node.chain, c.blockHash) == Ok(c) && Indexed(history, c.blockHash)
  {
    var i :| 0 <= i < |history| && history[i] == c;
    assert CommitmentOf(crypto, node.chain, history[i].blockHash) == Ok(history[i]);
  }

  /** The blocks behind an answer of the lookup: the one that contains `t`, and the canonical one. */
  lemma {:induction false} LookupBlocks(crypto: Crypto, node: Node, db: Db, history: seq<Commitment>, t: Hash)
    returns (b: Commitment, c: Commitment)
    requires IndexInv(crypto, node.chain, db, history) && Lookup(node, db, t).Some?
    ensures Containing(history, t) == [b] && t in b.transactionHashes && b.ethereumBlockHash == c.ethereumBlockHash
    ensures CommitmentOf(crypto, node.chain, b.blockHash) == Ok(b) && Indexed(history, b.blockHash)
    ensures CommitmentOf(crypto, node.chain, c.blockHash) == Ok(c) && Indexed(history, c.blockHash)
    ensures CanonicalUnder(node, history, b.ethereumBlockHash) == [c]
    ensures IsCanon(node, c.blockHash) && Lookup(node, db, t).value == (c.blockHash, Entry(b, t).ethereumIndex)
  {
    LookupExactly(node, db, history, t);
    b := Containing(history, t)[0];
    c := CanonicalUnder(node, history, b.ethereumBlockHash)[0];
    assert b in Containing(history, t) && c in CanonicalUnder(node, history, b.ethereumBlockHash);
    InHistory(crypto, node, db, history, b);
    InHistory(crypto, node, db, history, c);
  }

  /**
   * An answer of the lookup is right, that is, the index is in bounds in the canonical block and the
   * transaction and the status found at it are those of the hash asked for, if and only if that block
   * carries no pre-log; and then it is the block that contains the transaction.
   */
  lemma {:induction false} LookupFindsTheTransaction(
    crypto: Crypto, node: Node, db: Db, history: seq<Commitment>, t: Hash)
    requires CollisionFree(crypto)
    requires IndexInv(crypto, node.chain, db, history)
    requires forall h :: Indexed(history, h) ==> Produced(crypto, node, h)
    requires Lookup(node, db, t).Some?
    ensures var (h, i) := Lookup(node, db, t).value;
            && IsCanon(node, h) && h in node.state
            && (Serves(crypto, node.state[h], i, t) <==> PreLogOf(node, h).None?)
            && |Containing(history, t)| == 1
            && (PreLogOf(node, h).None? ==> h == Containing(history, t)[0].blockHash)
  {
    var b, c := LookupBlocks(crypto, node, db, history, t);
    ProducedIsIndexedFaithfully(crypto, node, b.blockHash);
    ProducedIsIndexedFaithfully(crypto, node, c.blockHash);
    assert PreLogOf(node, b.blockHash).None?;
    if PreLogOf(node, c.blockHash).None? {
      EntryFits(crypto, node, b.blockHash, c.blockHash, b, t);
      SameHashSameTransactions(crypto, node, b.blockHash, c.blockHash);
      assert c in history && t in c.transactionHashes;
      assert c in Containing(history, t);
    }
  }

  // ---- The answer of `transaction_by_hash` ----

  datatype Answer = Absent | Panicked | Answered(transaction: Transaction, status: Status)

  /** The answer from the index; `Panicked` is an index out of bounds. */
  function TransactionByHash(node: Node, db: Db, t: Hash): Answer
  {
    match Lookup(node, db, t)
    case None => Absent
    case Some((h, i)) =>
      if h !in node.state || node.state[h].block.None? || node.state[h].statuses.None? then Absent
      else
        var txs, statuses := node.state[h].block.value.transactions, node.state[h].statuses.value;
        if i < |txs| && i < |statuses| then Answered(txs[i], statuses[i]) else Panicked
  }

  /** Reading an index that serves the transaction. */
  lemma {:induction false} ServedAnswer(crypto: Crypto, node: Node, db: Db, t: Hash)
    requires Lookup(node, db, t).Some?
    requires var (h, i) := Lookup(node, db, t).value; h in node.state && Serves(crypto, node.state[h], i, t)
    ensures var answer := TransactionByHash(node, db, t);
            answer.Answered? && crypto.txHash(answer.transaction) == t && answer.status.transactionHash == t
  {
  }

  /** Reading any index of an empty block. */
  lemma {:induction false} EmptyAnswer(crypto: Crypto, node: Node, db: Db, t: Hash)
    requires Lookup(node, db, t).Some?
    requires var h := Lookup(node, db, t).value.0;
             Stored(crypto, node, h) && node.state[h].block.value.transactions == []
    ensures TransactionByHash(node, db, t) == Panicked
  {
  }

  /**
   * A transaction is answered if and only if exactly one indexed block contains it, that block is
   * canonical, and no other canonical block is indexed under its Ethereum hash; the answer is then that
   * transaction. The call panics if and only if the one canonical block under that hash carries a pre-log.
   */
  lemma {:induction false} AnswersExactly(crypto: Crypto, node: Node, db: Db, history: seq<Commitment>, t: Hash)
    requires CollisionFree(crypto)
    requires IndexInv(crypto, node.chain, db, history)
    requires forall h :: Indexed(history, h) ==> Produced(crypto, node, h)
    ensures var blocks, answer := Containing(history, t), TransactionByHash(node, db, t);
            && (answer.Answered? <==>
                  |blocks| == 1 && CanonicalUnder(node, history, blocks[0].ethereumBlockHash) == [blocks[0]])
            && (answer.Answered? ==>
                  crypto.txHash(answer.transaction) == t && answer.status.transactionHash == t)
            && (answer.Panicked? <==>
                  && |blocks| == 1
                  && |CanonicalUnder(node, history, blocks[0].ethereumBlockHash)| == 1
                  && CanonicalUnder(node, history, blocks[0].ethereumBlockHash)[0] != blocks[0])
            && (answer.Panicked? <==>
                  Lookup(node, db, t).Some? && PreLogOf(node, Lookup(node, db, t).value.0).Some?)
  {
    LookupExactly(node, db, history, t);
    if Lookup(node, db, t).Some? {
      LookupFindsTheTransaction(crypto, node, db, history, t);
      var b, c := LookupBlocks(crypto, node, db, history, t);
      ProducedIsIndexedFaithfully(crypto, node, b.blockHash);
      ProducedIsIndexedFaithfully(crypto, node, c.blockHash);
      if PreLogOf(node, c.blockHash).None? {
        ServedAnswer(crypto, node, db, t);
        assert c == b;
      } else {
        EmptyAnswer(crypto, node, db, t);
        assert c != b;
      }
    }
  }

  lemma {:induction false} OtherCarriesPreLog(
    crypto: Crypto, node: Node, db: Db, history: seq<Commitment>, i: nat, k: nat, t: Hash)
    requires CollisionFree(crypto)
    requires IndexInv(crypto, node.chain, db, history)
    requires forall h :: Indexed(history, h) ==> Produced(crypto, node, h)
    requires i < |history| && k < |history| && history[i].ethereumBlockHash == history[k].ethereumBlockHash
    requires t in history[k].transactionHashes && t !in history[i].transactionHashes
    ensures PreLogOf(node, history[i].blockHash).Some?
  {
    InHistory(crypto, node, db, history, history[i]);
    InHistory(crypto, node, db, history, history[k]);
    ProducedIsIndexedFaithfully(crypto, node, history[i].blockHash);
    ProducedIsIndexedFaithfully(crypto, node, history[k].blockHash);
    if PreLogOf(node, history[i].blockHash).None? {
      SharedHashSharesTransactions(crypto, node, history, i, k, t);
    }
  }

  /**
   * A canonical block that alone contains a transaction always resolves through the transaction column;
   * the block column resolves to it if and only if no other block under its Ethereum hash is canonical,
   * and every other block under that hash carries a pre-log.
   */
  lemma {:induction false} UniqueCanonicalTransactionResolves(
    crypto: Crypto, node: Node, db: Db, history: seq<Commitment>, k: nat, t: Hash)
    requires CollisionFree(crypto)
    requires IndexInv(crypto, node.chain, db, history)
    requires forall h :: Indexed(history, h) ==> Produced(crypto, node, h)
    requires k < |history| && t in history[k].transactionHashes && IsCanon(node, history[k].blockHash)
    requires forall i :: 0 <= i < |history| && i != k ==> t !in history[i].transactionHashes
    ensures LoadTransactions(db, t) == Some((history[k].ethereumBlockHash, Entry(history[k], t).ethereumIndex))
    ensures LoadHash(node, db, history[k].ethereumBlockHash) == Some(history[k].blockHash) <==>
              CanonicalUnder(node, history, history[k].ethereumBlockHash) == [history[k]]
    ensures LoadHash(node, db, history[k].ethereumBlockHash) == None <==>
              CanonicalUnder(node, history, history[k].ethereumBlockHash) != [history[k]]
    ensures forall i :: 0 <= i < |history| && i != k && history[i].ethereumBlockHash == history[k].ethereumBlockHash ==>
              PreLogOf(node, history[i].blockHash).Some?
  {
    var e := history[k].ethereumBlockHash;
    OnlyOneContains(history, k, t);
    assert TransactionMetadata(db, t) == ScanTransactions(history, t);
    LoadHashExactly(node, db, history, e);
    assert history[k] in CanonicalUnder(node, history, e);
    forall i | 0 <= i < |history| && i != k && history[i].ethereumBlockHash == e
      ensures PreLogOf(node, history[i].blockHash).Some?
    {
      OtherCarriesPreLog(crypto, node, db, history, i, k, t);
    }
  }

  // ---- Readable trees ----

  /**
   * For a block run that completed, the indexer finds its log if and only if the digest the run
   * started from held no post-log and at most one pre-log.
   */
  lemma {:induction false} ReadableExactly(
    crypto: Crypto, chain: Chain, h: Hash, env: Pallet.Env, c: Pallet.Cells, calls: seq<Pallet.Call>)
    requires h in chain.headers && chain.headers[h].number > 0
    requires Pallet.ForeignDeposits(calls) && Pallet.RunBlock(crypto, env, c, calls).Some?
    requires chain.headers[h].digest == Pallet.RunBlock(crypto, env, c, calls).value.digest
    ensures CommitmentOf(crypto, chain, h).Ok? <==> |PostLogs(c.digest)| == 0 && |PreLogs(c.digest)| <= 1
  {
    Pallet.CompletedBlockHasOneLog(crypto, env, c, calls);
  }

  /** A genesis block with an Ethereum block, or a block completed from a digest with at most one pre-log. */
  ghost predicate Completed(crypto: Crypto, chain: Chain, h: Hash)
    requires h in chain.headers
  {
    var header := chain.headers[h];
    if header.number == 0 then h in chain.genesis
    else
      exists env, c: Pallet.Cells, calls ::
        && Pallet.ForeignDeposits(calls) && |PostLogs(c.digest)| == 0 && |PreLogs(c.digest)| <= 1
        && Pallet.RunBlock(crypto, env, c, calls).Some?
        && header.digest == Pallet.RunBlock(crypto, env, c, calls).value.digest
  }

  /**
   * A tree of completed blocks is readable, so indexing never fails to find a log: from any reachable
   * covered database the rounds index the whole tree.
   */
  lemma {:induction false} CompletedTreeIsIndexed(crypto: Crypto, chain: Chain, db: Db, limit: nat, n: nat)
    requires ValidChain(chain) && forall h :: h in chain.headers ==> Completed(crypto, chain, h)
    ensures AllReadable(crypto, chain)
    ensures CoverInv(chain, db) && limit >= 2 && n >= |Unindexed(chain, db)| ==>
              forall h :: h in chain.headers ==> IsSynced(AfterRounds(crypto, chain, db, limit, n), h)
  {
    forall h | h in chain.headers ensures CommitmentOf(crypto, chain, h).Ok? {
      if chain.headers[h].number > 0 {
        var env, c: Pallet.Cells, calls :|
          && Pallet.ForeignDeposits(calls) && |PostLogs(c.digest)| == 0 && |PreLogs(c.digest)| <= 1
          && Pallet.RunBlock(crypto, env, c, calls).Some?
          && chain.headers[h].digest == Pallet.RunBlock(crypto, env, c, calls).value.digest;
        ReadableExactly(crypto, chain, h, env, c, calls);
      }
    }
    if CoverInv(chain, db) && limit >= 2 {
      RoundsCountUnindexed(crypto, chain, db, limit, n);
    }
  }
}
