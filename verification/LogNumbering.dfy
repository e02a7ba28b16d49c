/**
 * The three places that number logs: `logs_build` and `transaction_receipt` in
 * client/rpc/src/eth.rs, and the subscription in client/rpc/src/eth_pubsub.rs.
 */
module LogNumbering {
  import opened Prelude
  import opened EthTypes
  import opened LogFilter
  import Pallet = EthereumPallet

  /** A log with its place in the chain, as the RPC server returns it. */
  datatype RichLog = RichLog(
    log: EvmLog, blockHash: Hash, blockNumber: nat, transactionHash: Hash,
    transactionIndex: nat, logIndex: nat, transactionLogIndex: nat)

  // ---- Specification: all logs of a block, numbered ----

  /** What numbering needs to know of a transaction. */
  datatype TxView = TxView(hash: Hash, index: nat, logs: seq<EvmLog>)

  function StatusViews(statuses: seq<Status>): (r: seq<TxView>)
    ensures |r| == |statuses|
    ensures forall i :: 0 <= i < |r| ==>
              r[i] == TxView(statuses[i].transactionHash, statuses[i].transactionIndex, statuses[i].logs)
  {
    seq(|statuses|, i requires 0 <= i < |statuses| =>
      TxView(statuses[i].transactionHash, statuses[i].transactionIndex, statuses[i].logs))
  }

  function ReceiptViews(crypto: Crypto, block: Block, receipts: seq<Receipt>): (r: seq<TxView>)
    requires |receipts| <= |block.transactions|
    ensures |r| == |receipts|
    ensures forall i :: 0 <= i < |r| ==>
              r[i] == TxView(crypto.txHash(block.transactions[i]), i % TWO_32, receipts[i].logs)
  {
    seq(|receipts|, i requires 0 <= i < |receipts| =>
      TxView(crypto.txHash(block.transactions[i]), i % TWO_32, receipts[i].logs))
  }

  /** The number of logs in the given transactions. */
  function LogCount(txs: seq<TxView>): nat
  {
    if txs == [] then 0 else LogCount(Init(txs)) + |Last(txs).logs|
  }

  function TxLogs(crypto: Crypto, header: Header, tx: TxView, offset: nat): (r: seq<RichLog>)
    ensures |r| == |tx.logs|
    ensures forall i :: 0 <= i < |r| ==>
              r[i] == RichLog(tx.logs[i], crypto.headerHash(header), header.number, tx.hash, tx.index, offset + i, i)
  {
    seq(|tx.logs|, i requires 0 <= i < |tx.logs| =>
      RichLog(tx.logs[i], crypto.headerHash(header), header.number, tx.hash, tx.index, offset + i, i))
  }

  /** Every log of the block: numbered across the block and within its transaction. */
  function Numbered(crypto: Crypto, header: Header, txs: seq<TxView>): (r: seq<RichLog>)
    ensures |r| == LogCount(txs)
  {
    if txs == [] then []
    else Numbered(crypto, header, Init(txs)) + TxLogs(crypto, header, Last(txs), LogCount(Init(txs)))
  }

  lemma {:induction false} LogCountPrefix(txs: seq<TxView>, t: nat)
    requires t <= |txs|
    ensures LogCount(txs[..t]) <= LogCount(txs)
    ensures t < |txs| ==> LogCount(txs[..t]) + |txs[t].logs| <= LogCount(txs)
    decreases |txs|
  {
    if t == |txs| {
      assert txs[..t] == txs;
    } else if t == |txs| - 1 {
      assert txs[..t] == Init(txs);
    } else {
      LogCountPrefix(Init(txs), t);
      assert Init(txs)[..t] == txs[..t];
    }
  }

  /** Log `i` of transaction `t`, numbered. */
  function PlaceOf(crypto: Crypto, header: Header, txs: seq<TxView>, t: nat, i: nat): RichLog
    requires t < |txs| && i < |txs[t].logs|
  {
    RichLog(txs[t].logs[i], crypto.headerHash(header), header.number, txs[t].hash, txs[t].index,
            LogCount(txs[..t]) + i, i)
  }

  /** Log `i` of transaction `t` stands at the count of the logs before it, and nowhere else. */
  lemma {:induction false} NumberedAt(crypto: Crypto, header: Header, txs: seq<TxView>, t: nat, i: nat)
    requires t < |txs| && i < |txs[t].logs|
    ensures var n := LogCount(txs[..t]) + i;
            n < LogCount(txs) && Numbered(crypto, header, txs)[n] == PlaceOf(crypto, header, txs, t, i)
    decreases |txs|
  {
    LogCountPrefix(txs, t);
    if t == |txs| - 1 {
      assert txs[..t] == Init(txs);
    } else {
      NumberedAt(crypto, header, Init(txs), t, i);
      assert Init(txs)[..t] == txs[..t];
    }
  }

  lemma {:induction false} NumberedPrefix(crypto: Crypto, header: Header, txs: seq<TxView>, t: nat)
    requires t < |txs|
    ensures Numbered(crypto, header, txs[..t + 1])
            == Numbered(crypto, header, txs[..t]) + TxLogs(crypto, header, txs[t], LogCount(txs[..t]))
    ensures LogCount(txs[..t + 1]) == LogCount(txs[..t]) + |txs[t].logs| <= LogCount(txs)
  {
    assert Init(txs[..t + 1]) == txs[..t] && Last(txs[..t + 1]) == txs[t];
    LogCountPrefix(txs, t);
  }

  // ---- Selecting ----

  /** Which logs a request wants: an RPC filter, or a subscription's with the block it is applied to. */
  datatype Query = ByFilter(filter: Filter) | Subscription(params: Option<Filter>, blockHash: Hash, number: nat)

  predicate Wants(q: Query, log: EvmLog)
  {
    match q
    case ByFilter(f) => AddressWanted(f.address, log.address) && TopicsWanted(f.topics, log.topics)
    case Subscription(None, _, _) => true
    case Subscription(Some(f), h, n) =>
      && RangeWanted(f, n) && HashWanted(f, h)
      && AddressWanted(f.address, log.address) && TopicsWanted(f.topics, log.topics)
  }

  /** What each kind of query asks of a log, on the fields of its filter. */
  lemma {:induction false} WantsExactly(q: Query, log: EvmLog)
    ensures var f := if q.ByFilter? then Some(q.filter) else q.params;
            f.None? ==> Wants(q, log)
    ensures var f := if q.ByFilter? then Some(q.filter) else q.params;
            f.Some? ==>
              (Wants(q, log) <==>
                 && (forall a :: f.value.address == Some(Single(a)) ==> log.address == a)
                 && (forall l :: f.value.address == Some(Multiple(l)) ==> log.address in l)
                 && (forall t :: f.value.topics == Some(t) ==> FilterTopics(t, log.topics))
                 && (q.Subscription? ==>
                       && (forall n: nat :: f.value.fromBlock == Some(Num(n)) ==> n <= q.number)
                       && (forall n: nat :: f.value.toBlock == Some(Num(n)) ==> q.number <= n)
                       && f.value.toBlock != Some(Earliest)
                       && (forall h :: f.value.blockHash == Some(h) ==> h == q.blockHash)))
  {
  }

  function Select(q: Query, logs: seq<RichLog>): seq<RichLog>
  {
    if logs == [] then []
    else if Wants(q, Last(logs).log) then Select(q, Init(logs)) + [Last(logs)]
    else Select(q, Init(logs))
  }

  lemma {:induction false} SelectConcat(q: Query, a: seq<RichLog>, b: seq<RichLog>)
    ensures Select(q, a + b) == Select(q, a) + Select(q, b)
  {
    if b == [] {
      assert a + b == a;
    } else {
      assert Init(a + b) == a + Init(b) && Last(a + b) == Last(b);
      SelectConcat(q, a, Init(b));
    }
  }

  lemma {:induction false} SelectPrefix(crypto: Crypto, q: Query, header: Header, txs: seq<TxView>, t: nat)
    requires t < |txs|
    ensures Select(q, Numbered(crypto, header, txs[..t + 1]))
            == Select(q, Numbered(crypto, header, txs[..t]))
               + Select(q, TxLogs(crypto, header, txs[t], LogCount(txs[..t])))
    ensures LogCount(txs[..t + 1]) == LogCount(txs[..t]) + |txs[t].logs| <= LogCount(txs)
  {
    NumberedPrefix(crypto, header, txs, t);
    SelectConcat(q, Numbered(crypto, header, txs[..t]), TxLogs(crypto, header, txs[t], LogCount(txs[..t])));
  }

  lemma {:induction false} SelectStep(q: Query, logs: seq<RichLog>, i: nat)
    requires i < |logs|
    ensures Select(q, logs[..i + 1])
            == if Wants(q, logs[i].log) then Select(q, logs[..i]) + [logs[i]] else Select(q, logs[..i])
  {
    assert Init(logs[..i + 1]) == logs[..i] && Last(logs[..i + 1]) == logs[i];
  }

  // ---- logs_build ----

  function BlockLogs(crypto: Crypto, q: Query, block: Block, statuses: seq<Status>): seq<RichLog>
  {
    Select(q, Numbered(crypto, block.header, StatusViews(statuses)))
  }

  function AllBlockLogs(crypto: Crypto, q: Query, blocks: seq<(Block, seq<Status>)>): seq<RichLog>
  {
    if blocks == [] then []
    else AllBlockLogs(crypto, q, Init(blocks)) + BlockLogs(crypto, q, Last(blocks).0, Last(blocks).1)
  }

  /** The chain of tests `logs_build` makes before it keeps a log. */
  method Keep(filter: Filter, params: FilteredParams, log: EvmLog) returns (add: bool)
    requires params == Compiled(Some(filter))
    ensures add == Wants(ByFilter(filter), log)
  {
    add := true;
    var topicsOk := MatchTopics(params.flatTopics, log.topics);
    var addressOk := FilterAddress(filter.address, log.address);
    if filter.address.Some? && filter.topics.Some? {
      if !addressOk || !topicsOk {
        add := false;
      }
    } else if filter.address.Some? {
      if !addressOk {
        add := false;
      }
    } else if filter.topics.Some? {
      if !topicsOk {
        add := false;
      }
    }
  }

  /** The innermost loop, over the logs of one transaction, starting at block-wide number `start`. */
  method BuildTransaction(crypto: Crypto, filter: Filter, params: FilteredParams, header: Header, tx: TxView,
                          start: nat)
    returns (ret: seq<RichLog>, next: nat)
    requires params == Compiled(Some(filter)) && start + |tx.logs| < TWO_32
    ensures ret == Select(ByFilter(filter), TxLogs(crypto, header, tx, start))
    ensures next == start + |tx.logs|
  {
    ghost var mine := TxLogs(crypto, header, tx, start);
    ret, next := [], start;
    var blockHash := crypto.headerHash(header);
    var transactionLogIndex := 0;
    for i := 0 to |tx.logs|
      invariant transactionLogIndex == i && next == start + i
      invariant ret == Select(ByFilter(filter), mine[..i])
    {
      SelectStep(ByFilter(filter), mine, i);
      var add := Keep(filter, params, tx.logs[i]);
      if add {
        ret := ret + [RichLog(tx.logs[i], blockHash, header.number, tx.hash, tx.index, next, transactionLogIndex)];
      }
      transactionLogIndex := transactionLogIndex + 1;
      next := next + 1;
    }
    assert mine[..|mine|] == mine;
  }

  method BuildBlock(crypto: Crypto, filter: Filter, params: FilteredParams, block: Block, statuses: seq<Status>)
    returns (ret: seq<RichLog>)
    requires params == Compiled(Some(filter))
    requires LogCount(StatusViews(statuses)) < TWO_32
    ensures ret == BlockLogs(crypto, ByFilter(filter), block, statuses)
  {
    ret := [];
    ghost var views := StatusViews(statuses);
    var blockLogIndex := 0;
    for t := 0 to |statuses|
      invariant blockLogIndex == LogCount(views[..t])
      invariant ret == Select(ByFilter(filter), Numbered(crypto, block.header, views[..t]))
    {
      var status := statuses[t];
      var tx := TxView(status.transactionHash, status.transactionIndex, status.logs);
      assert tx == views[t];
      SelectPrefix(crypto, ByFilter(filter), block.header, views, t);
      var more;
      more, blockLogIndex := BuildTransaction(crypto, filter, params, block.header, tx, blockLogIndex);
      ret := ret + more;
    }
    assert views[..|views|] == views;
  }

  method NewParams(f: Option<Filter>) returns (p: FilteredParams)
    ensures p == Compiled(f)
  {
    if f.None? || f.value.topics.None? {
      return FilteredParams(f, []);
    }
    var flat := ComputeFlatten(f.value.topics.value);
    return FilteredParams(f, flat);
  }

  method LogsBuild(crypto: Crypto, filter: Filter, blocks: seq<(Block, seq<Status>)>) returns (ret: seq<RichLog>)
    requires forall b :: 0 <= b < |blocks| ==> LogCount(StatusViews(blocks[b].1)) < TWO_32
    ensures ret == AllBlockLogs(crypto, ByFilter(filter), blocks)
  {
    ret := [];
    var params := NewParams(Some(filter));
    for b := 0 to |blocks|
      invariant ret == AllBlockLogs(crypto, ByFilter(filter), blocks[..b])
    {
      var more := BuildBlock(crypto, filter, params, blocks[b].0, blocks[b].1);
      ret := ret + more;
      assert Init(blocks[..b + 1]) == blocks[..b];
    }
    assert blocks[..|blocks|] == blocks;
  }

  // ---- The subscription ----

  method AddLog(params: FilteredParams, blockHash: Hash, number: nat, log: EvmLog) returns (r: bool)
    requires params == Compiled(params.filter)
    ensures r == Wants(Subscription(params.filter, blockHash, number), log)
  {
    if params.filter.Some? {
      var f := params.filter.value;
      var topicsOk := MatchTopics(params.flatTopics, log.topics);
      var rangeOk := FilterBlockRange(f, number);
      var hashOk := FilterBlockHash(f, blockHash);
      var addressOk := FilterAddress(f.address, log.address);
      if !rangeOk || !hashOk || !addressOk || !topicsOk {
        return false;
      }
    }
    return true;
  }

  /** The subscription reports the block-wide log number in the transaction-index field. */
  function AsSubscribed(logs: seq<RichLog>): (r: seq<RichLog>)
    ensures |r| == |logs|
  {
    if logs == [] then []
    else AsSubscribed(Init(logs)) + [Last(logs).(transactionIndex := Last(logs).logIndex)]
  }

  lemma {:induction false} AsSubscribedAt(logs: seq<RichLog>, i: nat)
    requires i < |logs|
    ensures AsSubscribed(logs)[i] == logs[i].(transactionIndex := logs[i].logIndex)
  {
    if i < |logs| - 1 {
      AsSubscribedAt(Init(logs), i);
    }
  }

  lemma {:induction false} AsSubscribedConcat(a: seq<RichLog>, b: seq<RichLog>)
    ensures AsSubscribed(a + b) == AsSubscribed(a) + AsSubscribed(b)
  {
    if b == [] {
      assert a + b == a;
    } else {
      assert Init(a + b) == a + Init(b) && Last(a + b) == Last(b);
      AsSubscribedConcat(a, Init(b));
    }
  }

  lemma {:induction false} SubscribedStep(q: Query, logs: seq<RichLog>, i: nat)
    requires i < |logs|
    ensures var now := AsSubscribed(Select(q, logs[..i]));
            AsSubscribed(Select(q, logs[..i + 1]))
            == if Wants(q, logs[i].log) then now + [logs[i].(transactionIndex := logs[i].logIndex)] else now
  {
    SelectStep(q, logs, i);
    if Wants(q, logs[i].log) {
      assert Init(Select(q, logs[..i]) + [logs[i]]) == Select(q, logs[..i]);
    }
  }

  /** The inner loop of the subscription, over the logs of one receipt; the number it tests saturates at 64 bits. */
  method SubscribeReceipt(crypto: Crypto, header: Header, params: FilteredParams, tx: TxView, start: nat)
    returns (logs: seq<RichLog>, next: nat)
    requires params == Compiled(params.filter) && start + |tx.logs| < TWO_32
    ensures var q := Subscription(params.filter, crypto.headerHash(header), Min(header.number, TWO_64 - 1));
            logs == AsSubscribed(Select(q, TxLogs(crypto, header, tx, start)))
    ensures next == start + |tx.logs|
  {
    ghost var q := Subscription(params.filter, crypto.headerHash(header), Min(header.number, TWO_64 - 1));
    ghost var mine := TxLogs(crypto, header, tx, start);
    logs, next := [], start;
    var blockHash := crypto.headerHash(header);
    var transactionLogIndex := 0;
    for i := 0 to |tx.logs|
      invariant transactionLogIndex == i && next == start + i
      invariant logs == AsSubscribed(Select(q, mine[..i]))
    {
      SubscribedStep(q, mine, i);
      assert mine[i] == RichLog(tx.logs[i], blockHash, header.number, tx.hash, tx.index, next, transactionLogIndex);
      var add := AddLog(params, blockHash, Min(header.number, TWO_64 - 1), tx.logs[i]);
      if add {
        logs := logs + [RichLog(tx.logs[i], blockHash, header.number, tx.hash, next, next, transactionLogIndex)];
      }
      next := next + 1;
      transactionLogIndex := transactionLogIndex + 1;
    }
    assert mine[..|mine|] == mine;
  }

  lemma {:induction false} SubscribedConcat(q: Query, a: seq<RichLog>, b: seq<RichLog>)
    ensures AsSubscribed(Select(q, a + b)) == AsSubscribed(Select(q, a)) + AsSubscribed(Select(q, b))
  {
    SelectConcat(q, a, b);
    AsSubscribedConcat(Select(q, a), Select(q, b));
  }

  /** What a subscription receives of a block's transactions. */
  function Subscribed(crypto: Crypto, q: Query, header: Header, txs: seq<TxView>): seq<RichLog>
  {
    AsSubscribed(Select(q, Numbered(crypto, header, txs)))
  }

  lemma {:induction false} SubscribedPrefix(
    crypto: Crypto, q: Query, header: Header, txs: seq<TxView>, t: nat, logs: seq<RichLog>, more: seq<RichLog>)
    requires t < |txs| && logs == Subscribed(crypto, q, header, txs[..t])
    requires more == AsSubscribed(Select(q, TxLogs(crypto, header, txs[t], LogCount(txs[..t]))))
    ensures logs + more == Subscribed(crypto, q, header, txs[..t + 1])
  {
    NumberedPrefix(crypto, header, txs, t);
    SubscribedConcat(q, Numbered(crypto, header, txs[..t]), TxLogs(crypto, header, txs[t], LogCount(txs[..t])));
  }

  method SubscriptionLogs(crypto: Crypto, block: Block, receipts: seq<Receipt>, params: FilteredParams)
    returns (logs: seq<RichLog>)
    requires params == Compiled(params.filter)
    requires |receipts| <= |block.transactions|
    requires LogCount(ReceiptViews(crypto, block, receipts)) < TWO_32
    ensures var q := Subscription(
                       params.filter, crypto.headerHash(block.header), Min(block.header.number, TWO_64 - 1));
            logs == Subscribed(crypto, q, block.header, ReceiptViews(crypto, block, receipts))
  {
    logs := [];
    ghost var q := Subscription(
      params.filter, crypto.headerHash(block.header), Min(block.header.number, TWO_64 - 1));
    ghost var views := ReceiptViews(crypto, block, receipts);
    var logIndex := 0;
    for t := 0 to |receipts|
      invariant logIndex == LogCount(views[..t])
      invariant logs == Subscribed(crypto, q, block.header, views[..t])
    {
      var tx := TxView(crypto.txHash(block.transactions[t]), t % TWO_32, receipts[t].logs);
      assert tx == views[t];
      NumberedPrefix(crypto, block.header, views, t);
      var more;
      more, logIndex := SubscribeReceipt(crypto, block.header, params, tx, logIndex);
      SubscribedPrefix(crypto, q, block.header, views, t, logs, more);
      logs := logs + more;
    }
    assert views[..|views|] == views;
  }

  // ---- The receipt ----

  datatype RichReceipt = RichReceipt(
    transactionHash: Hash, transactionIndex: nat, from: Address,
    cumulativeGasUsed: nat, gasUsed: nat, logs: seq<RichLog>)

  lemma {:induction false} GasPrefix(receipts: seq<Receipt>, t: nat)
    requires t <= |receipts|
    ensures Pallet.GasSum(receipts[..t]) <= Pallet.GasSum(receipts)
    decreases |receipts|
  {
    if t < |receipts| {
      GasPrefix(Init(receipts), t);
      assert Init(receipts)[..t] == receipts[..t];
    } else {
      assert receipts[..t] == receipts;
    }
  }

  /** The given logs are those of the block-wide numbering from `start` on. */
  ghost predicate NumberedFrom(crypto: Crypto, header: Header, txs: seq<TxView>, start: nat, logs: seq<RichLog>)
  {
    && start + |logs| <= LogCount(txs)
    && forall i :: 0 <= i < |logs| ==> logs[i] == Numbered(crypto, header, txs)[start + i]
  }

  /** What the receipt of transaction `index` must say, in terms of the whole block. */
  ghost predicate ReceiptFor(crypto: Crypto, block: Block, receipts: seq<Receipt>, index: nat, r: RichReceipt)
    requires index < |receipts| <= |block.transactions|
  {
    var views := ReceiptViews(crypto, block, receipts);
    && r.transactionHash == crypto.txHash(block.transactions[index])
    && r.transactionIndex == index
    && r.gasUsed == receipts[index].usedGas
    && r.cumulativeGasUsed == Pallet.GasSum(receipts[..index + 1])
    && (index == |receipts| - 1 ==> r.cumulativeGasUsed == block.header.gasUsed)
    && |r.logs| == |receipts[index].logs|
    && NumberedFrom(crypto, block.header, views, LogCount(views[..index]), r.logs)
  }

  /** The 32-bit sum of the gas used by a list of receipts. */
  method SumGas(receipts: seq<Receipt>) returns (gas: nat)
    requires Pallet.GasSum(receipts) < TWO_32
    ensures gas == Pallet.GasSum(receipts)
  {
    gas := 0;
    for i := 0 to |receipts|
      invariant gas == Pallet.GasSum(receipts[..i]) < TWO_32
    {
      assert Init(receipts[..i + 1]) == receipts[..i];
      GasPrefix(receipts, i + 1);
      gas := gas + receipts[i].usedGas;
    }
    assert receipts[..|receipts|] == receipts;
  }

  /** The 32-bit sum of the log counts of the first `n` receipts. */
  method SumLogs(receipts: seq<Receipt>, ghost views: seq<TxView>) returns (count: nat)
    requires |receipts| <= |views| && LogCount(views) < TWO_32
    requires forall i :: 0 <= i < |receipts| ==> views[i].logs == receipts[i].logs
    ensures count == LogCount(views[..|receipts|]) < TWO_32
  {
    count := 0;
    LogCountPrefix(views, 0);
    for i := 0 to |receipts|
      invariant count == LogCount(views[..i]) < TWO_32
    {
      assert Init(views[..i + 1]) == views[..i];
      LogCountPrefix(views, i + 1);
      count := count + |receipts[i].logs|;
    }
  }

  method ReceiptLogs(crypto: Crypto, header: Header, tx: TxView, start: nat) returns (logs: seq<RichLog>)
    ensures logs == TxLogs(crypto, header, tx, start)
  {
    var blockHash := crypto.headerHash(header);
    logs := [];
    for i := 0 to |tx.logs|
      invariant logs == TxLogs(crypto, header, tx, start)[..i]
    {
      logs := logs + [RichLog(tx.logs[i], blockHash, header.number, tx.hash, tx.index, start + i, i)];
    }
  }

  lemma {:induction false} ReceiptLogsAreNumbered(crypto: Crypto, header: Header, txs: seq<TxView>, t: nat)
    requires t < |txs|
    ensures NumberedFrom(crypto, header, txs, LogCount(txs[..t]), TxLogs(crypto, header, txs[t], LogCount(txs[..t])))
  {
    LogCountPrefix(txs, t);
    var start := LogCount(txs[..t]);
    var logs := TxLogs(crypto, header, txs[t], start);
    forall i | 0 <= i < |logs| ensures logs[i] == Numbered(crypto, header, txs)[start + i] {
      NumberedAt(crypto, header, txs, t, i);
    }
  }

  lemma {:induction false} ReceiptComplete(crypto: Crypto, block: Block, receipts: seq<Receipt>, index: nat,
                                           r: RichReceipt)
    requires index < |receipts| <= |block.transactions|
    requires block.header.gasUsed == Pallet.GasSum(receipts)
    requires r.transactionHash == crypto.txHash(block.transactions[index]) && r.transactionIndex == index
    requires r.gasUsed == receipts[index].usedGas && r.cumulativeGasUsed == Pallet.GasSum(receipts[..index + 1])
    requires var views := ReceiptViews(crypto, block, receipts);
             r.logs == TxLogs(crypto, block.header, views[index], LogCount(views[..index]))
    ensures ReceiptFor(crypto, block, receipts, index, r)
  {
    ReceiptLogsAreNumbered(crypto, block.header, ReceiptViews(crypto, block, receipts), index);
    assert index == |receipts| - 1 ==> receipts[..index + 1] == receipts;
  }

  /** The receipt from the status and the receipts up to it. */
  method BuildReceipt(crypto: Crypto, stored: StoredBlock, index: nat) returns (r: RichReceipt)
    requires index < |stored.receipts| <= |stored.block.transactions|
    requires |stored.receipts| < TWO_32 && |stored.statuses| == |stored.receipts|
    requires stored.statuses[index].transactionIndex == index
    requires stored.statuses[index].transactionHash == crypto.txHash(stored.block.transactions[index])
    requires stored.block.header.gasUsed == Pallet.GasSum(stored.receipts) < TWO_32
    requires LogCount(ReceiptViews(crypto, stored.block, stored.receipts)) < TWO_32
    ensures ReceiptFor(crypto, stored.block, stored.receipts, index, r) && r.from == stored.statuses[index].from
  {
    var block, receipts, status := stored.block, stored.receipts, stored.statuses[index];
    ghost var views := ReceiptViews(crypto, block, receipts);
    var receipt := receipts[index];
    var cumulative := receipts[..status.transactionIndex + 1];
    GasPrefix(receipts, index + 1);
    var gas := SumGas(cumulative);
    cumulative := cumulative[..|cumulative| - 1];
    var preLogIndex := SumLogs(cumulative, views);
    var tx := TxView(status.transactionHash, status.transactionIndex, receipt.logs);
    Fits32(index);
    assert tx == views[index];
    var logs := ReceiptLogs(crypto, block.header, tx, preLogIndex);
    r := RichReceipt(status.transactionHash, status.transactionIndex, status.from, gas, receipt.usedGas, logs);
    ReceiptComplete(crypto, block, receipts, index, r);
  }

  method TransactionReceipt(crypto: Crypto, stored: StoredBlock, index: nat) returns (r: RichReceipt)
    requires Pallet.Aligned(crypto, stored.block, stored.statuses, stored.receipts)
    requires index < |stored.receipts| < TWO_32
    requires Pallet.GasSum(stored.receipts) < TWO_32
    requires LogCount(ReceiptViews(crypto, stored.block, stored.receipts)) < TWO_32
    ensures ReceiptFor(crypto, stored.block, stored.receipts, index, r) && r.from == stored.statuses[index].from
  {
    Fits32(index);
    assert stored.statuses[index].transactionIndex == index;
    r := BuildReceipt(crypto, stored, index);
  }

  // ---- Agreement ----

  lemma {:induction false} AlignedViews(crypto: Crypto, block: Block, statuses: seq<Status>, receipts: seq<Receipt>)
    requires Pallet.Aligned(crypto, block, statuses, receipts)
    ensures StatusViews(statuses) == ReceiptViews(crypto, block, receipts)
  {
    var a, b := StatusViews(statuses), ReceiptViews(crypto, block, receipts);
    assert forall i :: 0 <= i < |a| ==> a[i] == b[i];
  }

  lemma {:induction false} SameLogs(crypto: Crypto, block: Block, statuses: seq<Status>, receipts: seq<Receipt>, t: nat)
    requires Pallet.Aligned(crypto, block, statuses, receipts) && t < |receipts|
    ensures statuses[t].logs == receipts[t].logs
  {
  }

  lemma {:induction false} NumberingOfViews(crypto: Crypto, header: Header, views: seq<TxView>, t: nat, i: nat)
    requires t < |views| && i < |views[t].logs|
    ensures var n := LogCount(views[..t]) + i;
            && n < LogCount(views)
            && Numbered(crypto, header, views)[n] == PlaceOf(crypto, header, views, t, i)
            && AsSubscribed(Numbered(crypto, header, views))[n]
               == PlaceOf(crypto, header, views, t, i).(transactionIndex := n)
  {
    NumberedAt(crypto, header, views, t, i);
    AsSubscribedAt(Numbered(crypto, header, views), LogCount(views[..t]) + i);
  }

  /** Log `i` of the receipt of transaction `t` is that log of the block. */
  lemma {:induction false} ReceiptLogAt(crypto: Crypto, block: Block, receipts: seq<Receipt>, t: nat, i: nat,
                                        r: RichReceipt)
    requires t < |receipts| <= |block.transactions| && ReceiptFor(crypto, block, receipts, t, r)
    requires i < |receipts[t].logs|
    ensures r.logs[i] == PlaceOf(crypto, block.header, ReceiptViews(crypto, block, receipts), t, i)
  {
    NumberedAt(crypto, block.header, ReceiptViews(crypto, block, receipts), t, i);
  }

  /**
   * On a block as the pallet stores it, `logs_build`, the subscription and the receipts draw on one
   * numbering: for log `i` of transaction `t` all three give the same block-wide number, the same number
   * within the transaction, the same log and the same transaction.
   */
  lemma {:induction false} NumberingAgrees(
    crypto: Crypto, block: Block, statuses: seq<Status>, receipts: seq<Receipt>, r: RichReceipt, t: nat, i: nat)
    requires Pallet.Aligned(crypto, block, statuses, receipts)
    requires t < |receipts| && ReceiptFor(crypto, block, receipts, t, r) && i < |receipts[t].logs|
    ensures StatusViews(statuses) == ReceiptViews(crypto, block, receipts)
    ensures var views := ReceiptViews(crypto, block, receipts);
            var n := LogCount(views[..t]) + i;
            && n < LogCount(views)
            && Numbered(crypto, block.header, StatusViews(statuses))[n] == r.logs[i]
            && AsSubscribed(Numbered(crypto, block.header, views))[n] == r.logs[i].(transactionIndex := n)
            && r.logs[i].logIndex == n && r.logs[i].transactionLogIndex == i
            && r.logs[i].log == receipts[t].logs[i] == statuses[t].logs[i]
            && r.logs[i].transactionHash == crypto.txHash(block.transactions[t])
            && r.logs[i].transactionIndex == t % TWO_32
  {
    var views := ReceiptViews(crypto, block, receipts);
    AlignedViews(crypto, block, statuses, receipts);
    assert Numbered(crypto, block.header, StatusViews(statuses)) == Numbered(crypto, block.header, views);
    NumberingOfViews(crypto, block.header, views, t, i);
    ReceiptLogAt(crypto, block, receipts, t, i, r);
    SameLogs(crypto, block, statuses, receipts, t);
  }

  lemma {:induction false} SelectedBelow(q: Query, logs: seq<RichLog>)
    ensures (forall j :: 0 <= j < |logs| ==> logs[j].logIndex == j) ==>
              forall a :: 0 <= a < |Select(q, logs)| ==> Select(q, logs)[a].logIndex < |logs|
  {
    if logs != [] {
      SelectedBelow(q, Init(logs));
    }
  }

  /** Filtering keeps exactly the wanted logs, in order and with their numbers. */
  lemma {:induction false} SelectKeepsNumbers(q: Query, logs: seq<RichLog>, r: RichLog)
    ensures r in Select(q, logs) <==> r in logs && Wants(q, r.log)
    ensures (forall j :: 0 <= j < |logs| ==> logs[j].logIndex == j) ==>
              forall a, b :: 0 <= a < b < |Select(q, logs)| ==>
                Select(q, logs)[a].logIndex < Select(q, logs)[b].logIndex < |logs|
  {
    if logs != [] {
      SelectKeepsNumbers(q, Init(logs), r);
      SelectedBelow(q, Init(logs));
    }
  }

  lemma {:induction false} AsSubscribedKeeps(logs: seq<RichLog>, x: RichLog)
    ensures x in AsSubscribed(logs) <==> exists y :: y in logs && x == y.(transactionIndex := y.logIndex)
  {
    if logs == [] {
      assert AsSubscribed(logs) == [];
    } else {
      AsSubscribedKeeps(Init(logs), x);
      assert forall y :: y in logs <==> y in Init(logs) || y == Last(logs);
    }
  }

  /** Every number below the count is that of some log of some transaction. */
  lemma {:induction false} NumberedPlace(crypto: Crypto, header: Header, txs: seq<TxView>, n: nat)
    returns (t: nat, i: nat)
    requires n < LogCount(txs)
    ensures t < |txs| && i < |txs[t].logs| && n == LogCount(txs[..t]) + i
    ensures Numbered(crypto, header, txs)[n].logIndex == n
    decreases |txs|
  {
    if n >= LogCount(Init(txs)) {
      t, i := |txs| - 1, n - LogCount(Init(txs));
      assert txs[..t] == Init(txs);
    } else {
      t, i := NumberedPlace(crypto, header, Init(txs), n);
      assert Init(txs)[..t] == txs[..t];
    }
    NumberedAt(crypto, header, txs, t, i);
  }

  /** A log of the numbering is found in the subscription's list exactly when it is wanted. */
  lemma {:induction false} SubscribedExactly(crypto: Crypto, s: Query, header: Header, txs: seq<TxView>, n: nat)
    requires n < LogCount(txs)
    ensures var y := Numbered(crypto, header, txs)[n];
            y.(transactionIndex := y.logIndex) in Subscribed(crypto, s, header, txs) <==> Wants(s, y.log)
  {
    var all := Numbered(crypto, header, txs);
    var y := all[n];
    var x := y.(transactionIndex := y.logIndex);
    SelectKeepsNumbers(s, all, y);
    AsSubscribedKeeps(Select(s, all), x);
    var t, i := NumberedPlace(crypto, header, txs, n);
    if x in Subscribed(crypto, s, header, txs) {
      var z :| z in Select(s, all) && x == z.(transactionIndex := z.logIndex);
      SelectKeepsNumbers(s, all, z);
      assert z.log == y.log;
    }
  }

  lemma {:induction false} PlaceSelected(crypto: Crypto, header: Header, views: seq<TxView>, q: Query, t: nat, i: nat)
    requires t < |views| && i < |views[t].logs|
    ensures PlaceOf(crypto, header, views, t, i) in Select(q, Numbered(crypto, header, views))
            <==> Wants(q, views[t].logs[i])
  {
    NumberedAt(crypto, header, views, t, i);
    var y, all := PlaceOf(crypto, header, views, t, i), Numbered(crypto, header, views);
    assert y in all;
    SelectKeepsNumbers(q, all, y);
  }

  lemma {:induction false} PlaceSubscribed(crypto: Crypto, header: Header, views: seq<TxView>, s: Query, t: nat, i: nat)
    requires t < |views| && i < |views[t].logs|
    ensures var y := PlaceOf(crypto, header, views, t, i);
            y.(transactionIndex := y.logIndex) in Subscribed(crypto, s, header, views)
            <==> Wants(s, views[t].logs[i])
  {
    NumberedAt(crypto, header, views, t, i);
    SubscribedExactly(crypto, s, header, views, LogCount(views[..t]) + i);
  }

  /**
   * The same with both paths filtering, for any two queries: a log of a receipt is in the result of
   * `logs_build` exactly when its filter wants it, and in what the subscription receives, with its
   * block-wide number in the transaction-index field, exactly when the subscription wants it.
   */
  lemma {:induction false} FilteredNumberingAgrees(
    crypto: Crypto, stored: StoredBlock, q: Query, s: Query, r: RichReceipt, t: nat, i: nat)
    requires Pallet.Aligned(crypto, stored.block, stored.statuses, stored.receipts)
    requires t < |stored.receipts| && ReceiptFor(crypto, stored.block, stored.receipts, t, r)
    requires i < |stored.receipts[t].logs|
    ensures r.logs[i] in BlockLogs(crypto, q, stored.block, stored.statuses)
            <==> Wants(q, stored.receipts[t].logs[i])
    ensures r.logs[i].(transactionIndex := r.logs[i].logIndex)
              in Subscribed(crypto, s, stored.block.header, ReceiptViews(crypto, stored.block, stored.receipts))
            <==> Wants(s, stored.receipts[t].logs[i])
  {
    var views := ReceiptViews(crypto, stored.block, stored.receipts);
    assert StatusViews(stored.statuses) == views by {
      AlignedViews(crypto, stored.block, stored.statuses, stored.receipts);
    }
    ReceiptLogAt(crypto, stored.block, stored.receipts, t, i, r);
    PlaceSelected(crypto, stored.block.header, views, q, t, i);
    PlaceSubscribed(crypto, stored.block.header, views, s, t, i);
  }

  lemma {:induction false} SelectedPlace(crypto: Crypto, header: Header, txs: seq<TxView>, q: Query, x: RichLog)
    returns (t: nat, i: nat)
    requires x in Select(q, Numbered(crypto, header, txs))
    ensures t < |txs| && i < |txs[t].logs| && x == PlaceOf(crypto, header, txs, t, i) && Wants(q, x.log)
  {
    var all := Numbered(crypto, header, txs);
    SelectKeepsNumbers(q, all, x);
    var n: nat :| n < |all| && all[n] == x;
    t, i := NumberedPlace(crypto, header, txs, n);
    NumberedAt(crypto, header, txs, t, i);
  }

  /** Conversely every log `logs_build` returns is a wanted log of some receipt. */
  lemma {:induction false} BuiltLogIsAReceipts(crypto: Crypto, stored: StoredBlock, q: Query, x: RichLog)
    returns (t: nat, i: nat)
    requires Pallet.Aligned(crypto, stored.block, stored.statuses, stored.receipts)
    requires x in BlockLogs(crypto, q, stored.block, stored.statuses)
    ensures t < |stored.receipts| && i < |stored.receipts[t].logs| && Wants(q, stored.receipts[t].logs[i])
    ensures x == PlaceOf(crypto, stored.block.header, ReceiptViews(crypto, stored.block, stored.receipts), t, i)
  {
    AlignedViews(crypto, stored.block, stored.statuses, stored.receipts);
    t, i := SelectedPlace(crypto, stored.block.header, StatusViews(stored.statuses), q, x);
  }

  /** And every log a subscription receives is a wanted log of some receipt, but for one field. */
  lemma {:induction false} SubscribedLogIsAReceipts(crypto: Crypto, stored: StoredBlock, s: Query, x: RichLog)
    returns (t: nat, i: nat)
    requires Pallet.Aligned(crypto, stored.block, stored.statuses, stored.receipts)
    requires x in Subscribed(crypto, s, stored.block.header, ReceiptViews(crypto, stored.block, stored.receipts))
    ensures t < |stored.receipts| && i < |stored.receipts[t].logs| && Wants(s, stored.receipts[t].logs[i])
    ensures var y := PlaceOf(crypto, stored.block.header, ReceiptViews(crypto, stored.block, stored.receipts), t, i);
            x == y.(transactionIndex := y.logIndex)
  {
    AlignedViews(crypto, stored.block, stored.statuses, stored.receipts);
    var all := Numbered(crypto, stored.block.header, StatusViews(stored.statuses));
    AsSubscribedKeeps(Select(s, all), x);
    var y :| y in Select(s, all) && x == y.(transactionIndex := y.logIndex);
    t, i := BuiltLogIsAReceipts(crypto, stored, s, y);
  }
}
