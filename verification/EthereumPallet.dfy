/** Building an Ethereum block inside a Substrate block (frame/ethereum/src/lib.rs). */
module EthereumPallet {
  import opened Prelude
  import opened EthTypes
  import opened Consensus

  /** What the EVM reports for a transaction it executed. */
  datatype ExecInfo = ExecInfo(succeeded: bool, usedGas: nat, logs: seq<EvmLog>, created: Address)

  datatype TransactError = PreLogExists | InvalidSignature | NotExecuted(e: nat)

  datatype Pending = Pending(transaction: Transaction, status: Status, receipt: Receipt)

  /** Header fields taken from the environment when the block is stored. */
  datatype Env = Env(number: nat, extra: nat)

  /** The pallet's storage cells and the digest of the Substrate block being built. */
  datatype Cells = Cells(
    pending: seq<Pending>,
    block: Option<Block>,
    receipts: Option<seq<Receipt>>,
    statuses: Option<seq<Status>>,
    digest: Digest)

  // ---- Specification of the hooks and of do_transact ----

  function Built(crypto: Crypto, tx: Transaction, source: Address, index: nat, info: ExecInfo): Pending
  {
    var to := if tx.action.Call? then Some(tx.action.target) else None;
    var contract := if tx.action.Create? then Some(info.created) else None;
    Pending(tx,
            Status(crypto.txHash(tx), index % TWO_32, source, to, contract, info.logs),
            Receipt(if info.succeeded then 1 else 0, info.usedGas, info.logs))
  }

  datatype Transacted = Transacted(cells: Cells, result: Result<(), TransactError>)

  function Transact(crypto: Crypto, c: Cells, tx: Transaction, exec: Result<ExecInfo, nat>): Transacted
  {
    if TheOnly(PreLogs(c.digest)).Ok? then Transacted(c, Err(PreLogExists))
    else
      match crypto.recover(tx)
      case None => Transacted(c, Err(InvalidSignature))
      case Some(source) =>
        match exec
        case Err(e) => Transacted(c, Err(NotExecuted(e)))
        case Ok(info) =>
          Transacted(c.(pending := c.pending + [Built(crypto, tx, source, |c.pending|, info)]), Ok(()))
  }

  /** What `do_transact` answers and when it changes the cells: only a success appends, and only one entry. */
  lemma {:induction false} TransactExactly(crypto: Crypto, c: Cells, tx: Transaction, exec: Result<ExecInfo, nat>)
    ensures var t := Transact(crypto, c, tx, exec);
            && (|PreLogs(c.digest)| == 1 <==> t.result == Err(PreLogExists))
            && (|PreLogs(c.digest)| != 1 && crypto.recover(tx).None? <==> t.result == Err(InvalidSignature))
            && (|PreLogs(c.digest)| != 1 && crypto.recover(tx).Some? ==>
                  && (exec.Err? <==> t.result.Err?) && (exec.Err? ==> t.result == Err(NotExecuted(exec.error))))
            && (t.result.Err? ==> t.cells == c)
            && (t.result.Ok? ==>
                  && |t.cells.pending| == |c.pending| + 1 && c.pending <= t.cells.pending
                  && t.cells.(pending := c.pending) == c)
  {
  }

  function Transactions(pending: seq<Pending>): (r: seq<Transaction>)
    ensures |r| == |pending| && forall i :: 0 <= i < |r| ==> r[i] == pending[i].transaction
  {
    seq(|pending|, i requires 0 <= i < |pending| => pending[i].transaction)
  }

  function Statuses(pending: seq<Pending>): (r: seq<Status>)
    ensures |r| == |pending| && forall i :: 0 <= i < |r| ==> r[i] == pending[i].status
  {
    seq(|pending|, i requires 0 <= i < |pending| => pending[i].status)
  }

  function Receipts(pending: seq<Pending>): (r: seq<Receipt>)
    ensures |r| == |pending| && forall i :: 0 <= i < |r| ==> r[i] == pending[i].receipt
  {
    seq(|pending|, i requires 0 <= i < |pending| => pending[i].receipt)
  }

  function GasSum(receipts: seq<Receipt>): nat
  {
    if receipts == [] then 0 else GasSum(Init(receipts)) + Last(receipts).usedGas
  }

  /** The gas of a list is the sum over any split of it, and of one receipt its own. */
  lemma {:induction false} GasAddsUp(a: seq<Receipt>, b: seq<Receipt>)
    ensures GasSum(a + b) == GasSum(a) + GasSum(b)
    ensures |a| == 1 ==> GasSum(a) == a[0].usedGas
  {
    assert |a| == 1 ==> Init(a) == [];
    if b == [] {
      assert a + b == a;
    } else {
      assert Init(a + b) == a + Init(b) && Last(a + b) == Last(b);
      GasAddsUp(a, Init(b));
    }
  }

  function NewBlock(crypto: Crypto, env: Env, c: Cells): Block
  {
    var txs := Transactions(c.pending);
    var parent := if c.block.Some? then BlockHash(crypto, c.block.value) else 0;
    Block(Header(parent, env.number, GasSum(Receipts(c.pending)), crypto.txRoot(txs), env.extra), txs)
  }

  function Store(crypto: Crypto, env: Env, c: Cells, postLog: bool): Cells
  {
    var block := NewBlock(crypto, env, c);
    var log := Consensus.Consensus(ENGINE_ID, Some(PostHashes(HashesOf(crypto, block))));
    var digest := if postLog then c.digest + [log] else c.digest;
    Cells(c.pending, Some(block), Some(Receipts(c.pending)), Some(Statuses(c.pending)), digest)
  }

  function Finalize(crypto: Crypto, env: Env, c: Cells): Cells
  {
    Store(crypto, env, c, TheOnly(PreLogs(c.digest)).Err?)
  }

  /** `None` is the panic of `expect` on a pre-block transaction that cannot be applied. */
  function Initialize(c: Cells): Option<Cells>
  {
    var killed := c.(pending := []);
    match TheOnly(PreLogs(c.digest))
    case Ok(pre) => if pre.block.transactions == [] then Some(killed) else None
    case Err(_) => Some(killed)
  }

  // ---- The body of a block ----

  /** A transaction, or a digest item deposited by another pallet. */
  datatype Call = TransactCall(tx: Transaction, exec: Result<ExecInfo, nat>) | Deposit(item: DigestItem)

  function RunCalls(crypto: Crypto, c: Cells, calls: seq<Call>): Cells
  {
    if calls == [] then c
    else
      var before := RunCalls(crypto, c, Init(calls));
      match Last(calls)
      case TransactCall(tx, exec) => Transact(crypto, before, tx, exec).cells
      case Deposit(item) => before.(digest := before.digest + [item])
  }

  /** A whole block from the cells the previous one left and the initial digest. */
  function RunBlock(crypto: Crypto, env: Env, c: Cells, calls: seq<Call>): Option<Cells>
  {
    match Initialize(c)
    case None => None
    case Some(begun) => Some(Finalize(crypto, env, RunCalls(crypto, begun, calls)))
  }

  /** Other pallets deposit nothing under this engine identifier. */
  predicate ForeignDeposits(calls: seq<Call>)
  {
    forall i :: 0 <= i < |calls| && calls[i].Deposit? ==> Foreign(calls[i].item)
  }

  // ---- Calls and digest logs ----

  lemma {:induction false} ForeignItemAddsNoLog(d: Digest, item: DigestItem)
    requires Foreign(item)
    ensures PreLogs(d + [item]) == PreLogs(d) && PostLogs(d + [item]) == PostLogs(d) && Logs(d + [item]) == Logs(d)
  {
    assert Init(d + [item]) == d;
  }

  lemma {:induction false} PostItemAddsOneLog(d: Digest, post: PostLog)
    ensures Logs(d + [Consensus.Consensus(ENGINE_ID, Some(post))]) == Logs(d) + [Post(post)]
  {
    assert Init(d + [Consensus.Consensus(ENGINE_ID, Some(post))]) == d;
  }

  lemma {:induction false} CallsKeepLogs(crypto: Crypto, c: Cells, calls: seq<Call>)
    requires ForeignDeposits(calls)
    ensures var r := RunCalls(crypto, c, calls);
            PreLogs(r.digest) == PreLogs(c.digest) && PostLogs(r.digest) == PostLogs(c.digest)
            && Logs(r.digest) == Logs(c.digest)
  {
    if calls != [] {
      CallsKeepLogs(crypto, c, Init(calls));
      if Last(calls).Deposit? {
        ForeignItemAddsNoLog(RunCalls(crypto, c, Init(calls)).digest, Last(calls).item);
      }
    }
  }

  // ---- Stored lists line up ----

  ghost predicate PendingAligned(crypto: Crypto, pending: seq<Pending>)
  {
    forall i :: 0 <= i < |pending| ==>
      && pending[i].status.transactionHash == crypto.txHash(pending[i].transaction)
      && pending[i].status.transactionIndex == i % TWO_32
      && pending[i].status.logs == pending[i].receipt.logs
      && crypto.recover(pending[i].transaction) == Some(pending[i].status.from)
  }

  /** The stored block, statuses and receipts agree index by index. */
  ghost predicate Aligned(crypto: Crypto, block: Block, statuses: seq<Status>, receipts: seq<Receipt>)
  {
    && |block.transactions| == |statuses| == |receipts|
    && (forall i :: 0 <= i < |statuses| ==>
          && statuses[i].transactionHash == crypto.txHash(block.transactions[i])
          && statuses[i].transactionIndex == i % TWO_32
          && statuses[i].logs == receipts[i].logs
          && crypto.recover(block.transactions[i]) == Some(statuses[i].from))
    && block.header.gasUsed == GasSum(receipts)
    && block.header.transactionsRoot == crypto.txRoot(block.transactions)
  }

  lemma {:induction false} CallsKeepAligned(crypto: Crypto, c: Cells, calls: seq<Call>)
    requires PendingAligned(crypto, c.pending)
    ensures PendingAligned(crypto, RunCalls(crypto, c, calls).pending)
  {
    if calls != [] {
      CallsKeepAligned(crypto, c, Init(calls));
    }
  }

  /** After any run of a block, whatever failed in between, the stored lists line up. */
  lemma {:induction false} BlockAligned(crypto: Crypto, env: Env, c: Cells, calls: seq<Call>)
    requires RunBlock(crypto, env, c, calls).Some?
    ensures var r := RunBlock(crypto, env, c, calls).value;
            && r.block.Some? && r.statuses.Some? && r.receipts.Some?
            && Aligned(crypto, r.block.value, r.statuses.value, r.receipts.value)
  {
    CallsKeepAligned(crypto, Initialize(c).value, calls);
  }

  /** The transactions that were signed and that the EVM executed, in order. */
  function Executed(crypto: Crypto, calls: seq<Call>): seq<Call>
  {
    if calls == [] then []
    else if Last(calls).TransactCall? && crypto.recover(Last(calls).tx).Some? && Last(calls).exec.Ok?
      then Executed(crypto, Init(calls)) + [Last(calls)]
    else Executed(crypto, Init(calls))
  }

  /** What is stored for a transaction says what happened to its call. */
  ghost predicate Reports(crypto: Crypto, tx: Transaction, status: Status, receipt: Receipt, call: Call)
  {
    && call.TransactCall? && call.exec.Ok? && crypto.recover(call.tx) == Some(status.from)
    && var info := call.exec.value;
       && tx == call.tx && status.transactionHash == crypto.txHash(tx)
       && receipt.usedGas == info.usedGas && receipt.logs == info.logs && status.logs == info.logs
       && (receipt.stateRoot == 1 <==> info.succeeded) && receipt.stateRoot <= 1
       && (status.contractAddress.Some? <==> call.tx.action.Create?)
       && (status.contractAddress.Some? ==> status.contractAddress.value == info.created)
       && (status.to.Some? <==> call.tx.action.Call?)
       && (status.to.Some? ==> status.to.value == call.tx.action.target)
  }

  lemma {:induction false} PendingIsExecuted(crypto: Crypto, c: Cells, calls: seq<Call>)
    requires ForeignDeposits(calls) && |PreLogs(c.digest)| != 1 && c.pending == []
    ensures var pending, executed := RunCalls(crypto, c, calls).pending, Executed(crypto, calls);
            && |pending| == |executed|
            && forall i :: 0 <= i < |pending| ==>
                 Reports(crypto, pending[i].transaction, pending[i].status, pending[i].receipt, executed[i])
  {
    if calls != [] {
      PendingIsExecuted(crypto, c, Init(calls));
      CallsKeepLogs(crypto, c, Init(calls));
    }
  }

  /**
   * Unless there is exactly one pre-log, the block is completed and stores exactly the executed
   * transactions, in order, each with a status and a receipt that say what its execution reported.
   */
  lemma {:induction false} StoresWhatWasExecuted(crypto: Crypto, env: Env, c: Cells, calls: seq<Call>)
    requires ForeignDeposits(calls) && |PreLogs(c.digest)| != 1
    ensures RunBlock(crypto, env, c, calls).Some?
    ensures var r, executed := RunBlock(crypto, env, c, calls).value, Executed(crypto, calls);
            && r.block.Some? && r.statuses.Some? && r.receipts.Some?
            && var txs, statuses, receipts := r.block.value.transactions, r.statuses.value, r.receipts.value;
               && |txs| == |statuses| == |receipts| == |executed|
               && forall i :: 0 <= i < |executed| ==> Reports(crypto, txs[i], statuses[i], receipts[i], executed[i])
  {
    PendingIsExecuted(crypto, c.(pending := []), calls);
  }

  // ---- The log a block leaves ----

  /**
   * A block run that completes ends with exactly one log, the one the indexer looks for, if and
   * only if its initial digest held no post-log and at most one pre-log.
   */
  lemma {:induction false} CompletedBlockHasOneLog(crypto: Crypto, env: Env, c: Cells, calls: seq<Call>)
    requires ForeignDeposits(calls) && RunBlock(crypto, env, c, calls).Some?
    ensures TheOnly(Logs(RunBlock(crypto, env, c, calls).value.digest)).Ok?
            <==> |PostLogs(c.digest)| == 0 && |PreLogs(c.digest)| <= 1
  {
    var begun := Initialize(c).value;
    var ready := RunCalls(crypto, begun, calls);
    var done := Finalize(crypto, env, ready);
    CallsKeepLogs(crypto, begun, calls);
    LogCount(c.digest);
    PostItemAddsOneLog(ready.digest, PostHashes(HashesOf(crypto, done.block.value)));
  }

  /** Without an initial log, the one log names the stored block and its transactions. */
  lemma {:induction false} FreshBlockLog(crypto: Crypto, env: Env, c: Cells, calls: seq<Call>)
    requires ForeignDeposits(calls) && Logs(c.digest) == []
    ensures RunBlock(crypto, env, c, calls).Some?
    ensures var r := RunBlock(crypto, env, c, calls).value;
            r.block.Some? && TheOnly(Logs(r.digest)) == Ok(Post(PostHashes(HashesOf(crypto, r.block.value))))
  {
    LogCount(c.digest);
    var begun := Initialize(c).value;
    var ready := RunCalls(crypto, begun, calls);
    var done := Finalize(crypto, env, ready);
    CallsKeepLogs(crypto, begun, calls);
    PostItemAddsOneLog(ready.digest, PostHashes(HashesOf(crypto, done.block.value)));
  }

  lemma {:induction false} NoPendingUnderPreLog(crypto: Crypto, c: Cells, calls: seq<Call>)
    requires ForeignDeposits(calls) && |PreLogs(c.digest)| == 1 && c.pending == []
    ensures RunCalls(crypto, c, calls).pending == []
  {
    if calls != [] {
      NoPendingUnderPreLog(crypto, c, Init(calls));
      CallsKeepLogs(crypto, c, Init(calls));
    }
  }

  /** With a pre-log, a block completes only if the pre-block is empty, and then it stores no transaction. */
  lemma {:induction false} PreLogBlockIsEmpty(crypto: Crypto, env: Env, c: Cells, calls: seq<Call>)
    requires ForeignDeposits(calls) && |PreLogs(c.digest)| == 1
    ensures RunBlock(crypto, env, c, calls).Some? <==> PreLogs(c.digest)[0].block.transactions == []
    ensures RunBlock(crypto, env, c, calls).Some? ==>
              RunBlock(crypto, env, c, calls).value.block.value.transactions == []
  {
    if Initialize(c).Some? {
      NoPendingUnderPreLog(crypto, Initialize(c).value, calls);
    }
  }

  /** The digest items that other pallets deposited, in order. */
  function Deposited(calls: seq<Call>): Digest
  {
    if calls == [] then []
    else if Last(calls).Deposit? then Deposited(Init(calls)) + [Last(calls).item]
    else Deposited(Init(calls))
  }

  lemma {:induction false} CallsDeposit(crypto: Crypto, c: Cells, calls: seq<Call>)
    ensures RunCalls(crypto, c, calls).digest == c.digest + Deposited(calls)
  {
    if calls != [] {
      CallsDeposit(crypto, c, Init(calls));
    }
  }

  /**
   * The whole digest of a completed block: what it started with, what other pallets deposited, and at the
   * end, unless there was exactly one pre-log, the hashes of the stored block under this engine.
   */
  lemma {:induction false} DigestExactly(crypto: Crypto, env: Env, c: Cells, calls: seq<Call>)
    requires ForeignDeposits(calls) && RunBlock(crypto, env, c, calls).Some?
    ensures var r := RunBlock(crypto, env, c, calls).value;
            && r.block.Some?
            && var log := Consensus.Consensus(0x66_72_6f_6e, Some(PostHashes(
                 Hashes(crypto.headerHash(r.block.value.header), TxHashes(crypto, r.block.value.transactions)))));
               r.digest == c.digest + Deposited(calls) + if |PreLogs(c.digest)| == 1 then [] else [log]
  {
    CallsDeposit(crypto, Initialize(c).value, calls);
    CallsKeepLogs(crypto, Initialize(c).value, calls);
  }

  // ---- Block after block ----

  /** What one block starts from: its environment, its initial digest, and what is called in it. */
  datatype BlockInput = BlockInput(env: Env, digest: Digest, calls: seq<Call>)

  /** Consecutive blocks that all complete, each from the cells its predecessor left and its own initial digest. */
  predicate RunsInTurn(crypto: Crypto, c: Cells, inputs: seq<BlockInput>, cells: seq<Cells>)
  {
    && |cells| == |inputs|
    && forall i :: 0 <= i < |inputs| ==>
         var before := if i == 0 then c else cells[i - 1];
         RunBlock(crypto, inputs[i].env, before.(digest := inputs[i].digest), inputs[i].calls) == Some(cells[i])
  }

  lemma {:induction false} CallsKeepBlock(crypto: Crypto, c: Cells, calls: seq<Call>)
    ensures RunCalls(crypto, c, calls).block == c.block
  {
    if calls != [] {
      CallsKeepBlock(crypto, c, Init(calls));
    }
  }

  /**
   * Over any list of consecutive blocks, the stored headers form a chain: each names the hash of the header
   * stored before it, zero only when none was stored, and carries the number and fields of its environment.
   */
  lemma {:induction false} HeadersFormAChain(
    crypto: Crypto, c: Cells, inputs: seq<BlockInput>, cells: seq<Cells>, i: nat)
    requires RunsInTurn(crypto, c, inputs, cells) && i < |inputs|
    ensures var last := if i == 0 then c.block else cells[i - 1].block;
            && cells[i].block.Some?
            && var header := cells[i].block.value.header;
               && header.parentHash == (if last.Some? then crypto.headerHash(last.value.header) else 0)
               && header.number == inputs[i].env.number && header.extra == inputs[i].env.extra
  {
    var start := (if i == 0 then c else cells[i - 1]).(digest := inputs[i].digest);
    assert RunBlock(crypto, inputs[i].env, start, inputs[i].calls) == Some(cells[i]);
    CallsKeepBlock(crypto, Initialize(start).value, inputs[i].calls);
  }

  // ---- The pallet ----

  class Module {
    const crypto: Crypto
    var pending: seq<Pending>
    var currentBlock: Option<Block>
    var currentReceipts: Option<seq<Receipt>>
    var currentStatuses: Option<seq<Status>>
    var digest: Digest

    constructor (crypto: Crypto)
      ensures this.crypto == crypto && State() == Cells([], None, None, None, [])
    {
      this.crypto := crypto;
      pending, currentBlock, currentReceipts, currentStatuses, digest := [], None, None, None, [];
    }

    function State(): Cells
      reads this
    {
      Cells(pending, currentBlock, currentReceipts, currentStatuses, digest)
    }

    method DoTransact(tx: Transaction, exec: Result<ExecInfo, nat>) returns (r: Result<(), TransactError>)
      modifies this
      ensures Transacted(State(), r) == Transact(crypto, old(State()), tx, exec)
    {
      var pre := FindPreLog(digest);
      if pre.Ok? {
        return Err(PreLogExists);
      }
      var source := crypto.recover(tx);
      if source.None? {
        return Err(InvalidSignature);
      }
      var hash := crypto.txHash(tx);
      var index := |pending| % TWO_32;
      if exec.Err? {
        return Err(NotExecuted(exec.error));
      }
      var info := exec.value;
      var status;
      match tx.action {
        case Call(target) =>
          status := Status(hash, index, source.value, Some(target), None, info.logs);
        case Create =>
          status := Status(hash, index, source.value, None, Some(info.created), info.logs);
      }
      var receipt := Receipt(if info.succeeded then 1 else 0, info.usedGas, status.logs);
      pending := pending + [Pending(tx, status, receipt)];
      return Ok(());
    }

    method StoreBlock(env: Env, postLog: bool)
      modifies this
      ensures State() == Store(crypto, env, old(State()), postLog)
    {
      var transactions: seq<Transaction> := [];
      var statuses: seq<Status> := [];
      var receipts: seq<Receipt> := [];
      var gasUsed := 0;
      for i := 0 to |pending|
        invariant unchanged(this)
        invariant transactions == Transactions(pending)[..i]
        invariant statuses == Statuses(pending)[..i]
        invariant receipts == Receipts(pending)[..i]
      {
        transactions := transactions + [pending[i].transaction];
        statuses := statuses + [pending[i].status];
        receipts := receipts + [pending[i].receipt];
      }
      for i := 0 to |receipts|
        invariant unchanged(this)
        invariant gasUsed == GasSum(receipts[..i])
      {
        assert Init(receipts[..i + 1]) == receipts[..i];
        gasUsed := gasUsed + receipts[i].usedGas;
      }
      assert receipts[..|receipts|] == receipts == Receipts(pending);
      assert transactions == Transactions(pending) && statuses == Statuses(pending);
      var parent := if currentBlock.Some? then BlockHash(crypto, currentBlock.value) else 0;
      var header := Header(parent, env.number, gasUsed, crypto.txRoot(transactions), env.extra);
      var block := Block(header, transactions);
      assert block == NewBlock(crypto, env, old(State()));
      currentBlock := Some(block);
      currentReceipts := Some(receipts);
      currentStatuses := Some(statuses);
      if postLog {
        var hashes := FromBlock(crypto, block);
        digest := digest + [Consensus.Consensus(ENGINE_ID, Some(PostHashes(hashes)))];
      }
    }

    method OnFinalize(env: Env)
      modifies this
      ensures State() == Finalize(crypto, env, old(State()))
    {
      var pre := FindPreLog(digest);
      StoreBlock(env, pre.Err?);
    }

    /** `ok` is false when the node would panic; `exec` is what the EVM would answer, were it asked. */
    method OnInitialize(exec: Result<ExecInfo, nat>) returns (ok: bool)
      modifies this
      ensures ok <==> Initialize(old(State())).Some?
      ensures ok ==> State() == Initialize(old(State())).value
    {
      pending := [];
      var pre := FindPreLog(digest);
      if pre.Ok? {
        var transactions := pre.value.block.transactions;
        for i := 0 to |transactions|
          invariant State() == old(State()).(pending := [])
          invariant i == 0
        {
          var r := DoTransact(transactions[i], exec);
          if r.Err? {
            return false;
          }
        }
      }
      return true;
    }
  }
}
