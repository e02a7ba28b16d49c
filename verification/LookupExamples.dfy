/** Lookups that go wrong (client/rpc/src/eth.rs): the same transaction on two forks, and copied headers. */
module LookupExamples {
  import opened Prelude
  import opened EthTypes
  import opened Consensus
  import opened MappingDb
  import opened MappingSync
  import opened SyncCrash
  import opened SyncProgress
  import opened TransactionLookup
  import Pallet = EthereumPallet

  // ---- A transaction on two forks ----

  const THREE_STEPS: seq<Event> := [Sync(HEALTHY), Sync(HEALTHY), Sync(HEALTHY)]

  lemma {:induction false} RunThreeSteps(crypto: Crypto, s: State)
    ensures RunEvents(crypto, s, THREE_STEPS)
            == Next(crypto, Next(crypto, Next(crypto, s, Sync(HEALTHY)), Sync(HEALTHY)), Sync(HEALTHY))
  {
    var one, two: seq<Event> := [Sync(HEALTHY)], [Sync(HEALTHY), Sync(HEALTHY)];
    assert Init(THREE_STEPS) == two && Init(two) == one && Init(one) == [];
    assert RunEvents(crypto, s, one) == Next(crypto, s, Sync(HEALTHY));
    assert RunEvents(crypto, s, two) == Next(crypto, RunEvents(crypto, s, one), Sync(HEALTHY));
  }

  /** The tips and the indexed blocks of a database. */
  ghost predicate At(db: Db, tips: seq<Hash>, indexed: set<Hash>)
  {
    db.tips == tips && forall h {:trigger IsSynced(db, h)} :: IsSynced(db, h) <==> h in indexed
  }

  /** A healthy step on the last tip, which is not indexed yet. */
  lemma {:induction false} StepAt(crypto: Crypto, chain: Chain, db: Db, left: seq<Hash>, indexed: set<Hash>)
    requires ValidChain(chain) && AllReadable(crypto, chain) && TipsInChain(chain, db)
    requires At(db, db.tips, indexed) && left != [] && Worklist(chain, db) == left
    requires Last(left) !in indexed && Last(left) in chain.headers
    ensures At(SyncOne(crypto, chain, db, HEALTHY).db, NextTips(chain, left), indexed + {Last(left)})
  {
    var op := Last(left);
    assert !IsSynced(db, op);
    assert PopSynced(db, Worklist(chain, db)) == left;
    StepCases(crypto, chain, db);
    assert CommitmentOf(crypto, chain, op).Ok?;
    var after := SyncOne(crypto, chain, db, HEALTHY).db;
    forall h ensures IsSynced(after, h) <==> h in indexed + {op} {
      assert IsSynced(after, h) <==> IsSynced(db, h) || h == op;
    }
  }

  lemma {:induction false} ForkStepOne(crypto: Crypto, f: Fork, db: Db)
    requires OneLogEach(f) && At(db, [], {})
    ensures At(SyncOne(crypto, ThreeBlocks(f), db, HEALTHY).db, [3, 1], {2})
  {
    ExampleTrees(crypto, f);
    StepAt(crypto, ThreeBlocks(f), db, [3, 2], {});
    assert NextTips(ThreeBlocks(f), [3, 2]) == [3, 1] && {} + {2} == {2};
  }

  lemma {:induction false} ForkStepTwo(crypto: Crypto, f: Fork, db: Db)
    requires OneLogEach(f) && At(db, [3, 1], {2})
    ensures At(SyncOne(crypto, ThreeBlocks(f), db, HEALTHY).db, [3], {2, 1})
  {
    ExampleTrees(crypto, f);
    StepAt(crypto, ThreeBlocks(f), db, [3, 1], {2});
    assert NextTips(ThreeBlocks(f), [3, 1]) == [3] && {2} + {1} == {2, 1};
  }

  lemma {:induction false} ForkStepThree(crypto: Crypto, f: Fork, db: Db)
    requires OneLogEach(f) && At(db, [3], {2, 1})
    ensures At(SyncOne(crypto, ThreeBlocks(f), db, HEALTHY).db, [1], {2, 1, 3})
  {
    ExampleTrees(crypto, f);
    StepAt(crypto, ThreeBlocks(f), db, [3], {2, 1});
    assert NextTips(ThreeBlocks(f), [3]) == [1] && {2, 1} + {3} == {2, 1, 3};
  }

  /** Three healthy steps index both siblings and their parent. */
  lemma {:induction false} ForkIsIndexed(crypto: Crypto, f: Fork)
    requires OneLogEach(f)
    ensures var s := RunEvents(crypto, State(ThreeBlocks(f), EMPTY, []), THREE_STEPS);
            s.chain == ThreeBlocks(f) && At(s.db, [1], {2, 1, 3})
  {
    var s0 := State(ThreeBlocks(f), EMPTY, []);
    RunThreeSteps(crypto, s0);
    var s1 := Next(crypto, s0, Sync(HEALTHY));
    var s2 := Next(crypto, s1, Sync(HEALTHY));
    assert At(s0.db, [], {});
    ForkStepOne(crypto, f, s0.db);
    ForkStepTwo(crypto, f, s1.db);
    ForkStepThree(crypto, f, s2.db);
  }

  lemma {:induction false} TwiceContained(db: Db, history: seq<Commitment>, i: nat, j: nat, t: Hash)
    requires Agrees(db, history) && i < |history| && j < |history| && i != j
    requires t in history[i].transactionHashes && t in history[j].transactionHashes
    ensures LoadTransactions(db, t) == None
  {
    ResolvesWhenUnique(db, history, t);
    if |Containing(history, t)| == 1 {
      var k := SingleContaining(history, t);
    }
  }

  /** A transaction that two indexed blocks contain does not resolve. */
  lemma {:induction false} TwoContain(crypto: Crypto, s: State, x: Hash, y: Hash, t: Hash)
    requires IndexInv(crypto, s.chain, s.db, s.history) && IsSynced(s.db, x) && IsSynced(s.db, y) && x != y
    requires CommitmentOf(crypto, s.chain, x).Ok? && t in CommitmentOf(crypto, s.chain, x).value.transactionHashes
    requires CommitmentOf(crypto, s.chain, y).Ok? && t in CommitmentOf(crypto, s.chain, y).value.transactionHashes
    ensures LoadTransactions(s.db, t) == None
  {
    assert Indexed(s.history, x) && Indexed(s.history, y);
    var i: nat :| i < |s.history| && s.history[i].blockHash == x;
    var j: nat :| j < |s.history| && s.history[j].blockHash == y;
    assert CommitmentOf(crypto, s.chain, x) == Ok(s.history[i]);
    assert CommitmentOf(crypto, s.chain, y) == Ok(s.history[j]);
    TwiceContained(s.db, s.history, i, j, t);
  }

  /** The transaction hashes a digest with one log announces. */
  function Announced(crypto: Crypto, d: Digest): seq<Hash>
    requires TheOnly(Logs(d)).Ok?
  {
    IntoHashes(crypto, TheOnly(Logs(d)).value).transactionHashes
  }

  /**
   * The two siblings contain the same transaction and one of them is canonical, yet the transaction
   * does not resolve.
   */
  lemma {:induction false} ForkedTransactionIsNotFound(
    crypto: Crypto, f: Fork, state: map<Hash, Pallet.Cells>, t: Hash)
    requires OneLogEach(f) && t in Announced(crypto, f.child) && t in Announced(crypto, f.sibling)
    ensures var s := RunEvents(crypto, State(ThreeBlocks(f), EMPTY, []), THREE_STEPS);
            var node := Node(s.chain, map[0 := 1, 1 := 2], state);
            && IsCanon(node, 2) && IsSynced(s.db, 2)
            && CommitmentOf(crypto, s.chain, 2).Ok?
            && t in CommitmentOf(crypto, s.chain, 2).value.transactionHashes
            && Lookup(node, s.db, t) == None
  {
    var s := RunEvents(crypto, State(ThreeBlocks(f), EMPTY, []), THREE_STEPS);
    ExampleTrees(crypto, f);
    ForkIsIndexed(crypto, f);
    assert IsSynced(s.db, 2) && IsSynced(s.db, 3);
    ReachableIndex(crypto, ThreeBlocks(f), THREE_STEPS);
    TwoContain(crypto, s, 2, 3, t);
  }

  // ---- A pre-log that copies a header ----

  /** The environment and the transaction of the examples. */
  datatype Example = Example(env: Pallet.Env, tx: Transaction, info: Pallet.ExecInfo)

  /** What the three blocks of an example leave in their states. */
  datatype Trio = Trio(genesis: Pallet.Cells, first: Pallet.Cells, copy: Pallet.Cells)

  /** A digest with one pre-log: the given header over an empty list of transactions. */
  function CopyOf(header: Header): Digest
  {
    [PreRuntime(ENGINE_ID, Some(PreBlock(Block(header, []))))]
  }

  /**
   * The genesis state; a block run on it with the one transaction; and an empty block run, on `parent`,
   * from a digest whose pre-log copies the header of the first.
   */
  predicate Runs(crypto: Crypto, x: Example, parent: Pallet.Cells, s: Trio)
  {
    && s.genesis == Pallet.Store(crypto, x.env, Pallet.Cells([], None, None, None, []), false)
    && Pallet.RunBlock(crypto, x.env, s.genesis, [Pallet.TransactCall(x.tx, Ok(x.info))]) == Some(s.first)
    && s.first.block.Some?
    && Pallet.RunBlock(crypto, x.env, parent.(digest := CopyOf(s.first.block.value.header)), []) == Some(s.copy)
  }

  /** The state of a genesis block without transactions. */
  ghost predicate GenesisFacts(crypto: Crypto, genesis: Pallet.Cells)
  {
    && GenesisState(crypto, genesis)
    && genesis.block.Some? && genesis.block.value.header.transactionsRoot == crypto.txRoot([])
  }

  /** A produced state with one transaction and a post-log. */
  ghost predicate FirstFacts(crypto: Crypto, tx: Transaction, first: Pallet.Cells)
  {
    && BlockState(crypto, first, first.digest)
    && first.block.Some? && first.block.value.transactions == [tx]
    && first.block.value.header.transactionsRoot == crypto.txRoot([tx])
    && TheOnly(Logs(first.digest)) == Ok(Post(PostHashes(HashesOf(crypto, first.block.value))))
  }

  /** A produced empty state with a pre-log that copies `header`. */
  ghost predicate CopyFacts(crypto: Crypto, header: Header, copy: Pallet.Cells)
  {
    && BlockState(crypto, copy, copy.digest)
    && copy.block.Some? && copy.block.value.transactions == [] && copy.statuses.Some?
    && TheOnly(Logs(copy.digest)) == Ok(Pre(PreBlock(Block(header, []))))
  }

  ghost predicate TrioFacts(crypto: Crypto, tx: Transaction, s: Trio)
  {
    && GenesisFacts(crypto, s.genesis) && FirstFacts(crypto, tx, s.first)
    && CopyFacts(crypto, s.first.block.value.header, s.copy)
  }

  lemma {:induction false} RunIsState(
    crypto: Crypto, cells: Pallet.Cells, env: Pallet.Env, c: Pallet.Cells, calls: seq<Pallet.Call>)
    requires Pallet.ForeignDeposits(calls) && Pallet.RunBlock(crypto, env, c, calls) == Some(cells)
    requires |cells.pending| <= TWO_32
    ensures BlockState(crypto, cells, cells.digest)
  {
  }

  lemma {:induction false} GenesisHolds(crypto: Crypto, env: Pallet.Env)
    ensures GenesisFacts(crypto, Pallet.Store(crypto, env, Pallet.Cells([], None, None, None, []), false))
    ensures Pallet.Store(crypto, env, Pallet.Cells([], None, None, None, []), false).digest == []
  {
    assert Pallet.Transactions([]) == [];
  }

  lemma {:induction false} FirstHolds(crypto: Crypto, x: Example, genesis: Pallet.Cells) returns (first: Pallet.Cells)
    requires crypto.recover(x.tx).Some? && genesis.digest == []
    ensures Pallet.RunBlock(crypto, x.env, genesis, [Pallet.TransactCall(x.tx, Ok(x.info))]) == Some(first)
    ensures FirstFacts(crypto, x.tx, first)
  {
    var calls := [Pallet.TransactCall(x.tx, Ok(x.info))];
    var begun := genesis.(pending := []);
    assert Init(calls) == [];
    assert Pallet.RunCalls(crypto, begun, []) == begun;
    PostLogRun(crypto, x.env, genesis, calls);
    first := Pallet.RunBlock(crypto, x.env, genesis, calls).value;
    var ready := Pallet.RunCalls(crypto, begun, calls);
    assert |ready.pending| == 1 && ready.pending[0].transaction == x.tx;
    assert Pallet.Transactions(ready.pending) == [x.tx];
    RunIsState(crypto, first, x.env, genesis, calls);
  }

  lemma {:induction false} CopyHolds(crypto: Crypto, env: Pallet.Env, parent: Pallet.Cells, header: Header)
    returns (copy: Pallet.Cells)
    ensures Pallet.RunBlock(crypto, env, parent.(digest := CopyOf(header)), []) == Some(copy)
    ensures CopyFacts(crypto, header, copy)
  {
    var d := CopyOf(header);
    assert Init(d) == [];
    assert PreLogs(d) == [] + [PreBlock(Block(header, []))];
    assert PostLogs(d) == PostLogs(Init(d));
    Pallet.PreLogBlockIsEmpty(crypto, env, parent.(digest := d), []);
    PreLogRun(crypto, env, parent.(digest := d), []);
    copy := Pallet.RunBlock(crypto, env, parent.(digest := d), []).value;
    RunIsState(crypto, copy, env, parent.(digest := d), []);
  }

  /** Both examples exist: the copy run on the genesis state, and on the first block. */
  lemma {:induction false} BothRun(crypto: Crypto, x: Example) returns (onGenesis: Trio, onFirst: Trio)
    requires crypto.recover(x.tx).Some?
    ensures Runs(crypto, x, onGenesis.genesis, onGenesis) && TrioFacts(crypto, x.tx, onGenesis)
    ensures Runs(crypto, x, onFirst.first, onFirst) && TrioFacts(crypto, x.tx, onFirst)
  {
    var genesis := Pallet.Store(crypto, x.env, Pallet.Cells([], None, None, None, []), false);
    GenesisHolds(crypto, x.env);
    var first := FirstHolds(crypto, x, genesis);
    var fork := CopyHolds(crypto, x.env, genesis, first.block.value.header);
    var line := CopyHolds(crypto, x.env, first, first.block.value.header);
    onGenesis, onFirst := Trio(genesis, first, fork), Trio(genesis, first, line);
  }

  /** A genesis block, 1, its child 2, and the child 3 of that. */
  function LineOfThree(f: Fork): Chain
  {
    TwoBlocks(f).(headers := TwoBlocks(f).headers[3 := SubHeader(2, 2, f.sibling)], leaves := [3])
  }

  lemma {:induction false} LineIsReadable(crypto: Crypto, f: Fork)
    requires OneLogEach(f)
    ensures ValidChain(LineOfThree(f)) && AllReadable(crypto, LineOfThree(f))
  {
    var line := LineOfThree(f);
    assert line.headers[2].parent == 1 && HasChild(line, 1);
    assert line.headers[3].parent == 2 && HasChild(line, 2);
  }

  lemma {:induction false} LineStepOne(crypto: Crypto, f: Fork, db: Db)
    requires OneLogEach(f) && At(db, [], {})
    ensures At(SyncOne(crypto, LineOfThree(f), db, HEALTHY).db, [2], {3})
  {
    LineIsReadable(crypto, f);
    StepAt(crypto, LineOfThree(f), db, [3], {});
    assert NextTips(LineOfThree(f), [3]) == [2] && {} + {3} == {3};
  }

  lemma {:induction false} LineStepTwo(crypto: Crypto, f: Fork, db: Db)
    requires OneLogEach(f) && At(db, [2], {3})
    ensures At(SyncOne(crypto, LineOfThree(f), db, HEALTHY).db, [1], {3, 2})
  {
    LineIsReadable(crypto, f);
    StepAt(crypto, LineOfThree(f), db, [2], {3});
    assert NextTips(LineOfThree(f), [2]) == [1] && {3} + {2} == {3, 2};
  }

  lemma {:induction false} LineStepThree(crypto: Crypto, f: Fork, db: Db)
    requires OneLogEach(f) && At(db, [1], {3, 2})
    ensures At(SyncOne(crypto, LineOfThree(f), db, HEALTHY).db, [], {3, 2, 1})
  {
    LineIsReadable(crypto, f);
    StepAt(crypto, LineOfThree(f), db, [1], {3, 2});
    assert NextTips(LineOfThree(f), [1]) == [] && {3, 2} + {1} == {3, 2, 1};
  }

  /** Three healthy steps index the whole line. */
  lemma {:induction false} LineIsIndexed(crypto: Crypto, f: Fork)
    requires OneLogEach(f)
    ensures var s := RunEvents(crypto, State(LineOfThree(f), EMPTY, []), THREE_STEPS);
            s.chain == LineOfThree(f) && At(s.db, [], {3, 2, 1})
  {
    var s0 := State(LineOfThree(f), EMPTY, []);
    RunThreeSteps(crypto, s0);
    var s1 := Next(crypto, s0, Sync(HEALTHY));
    var s2 := Next(crypto, s1, Sync(HEALTHY));
    assert At(s0.db, [], {});
    LineStepOne(crypto, f, s0.db);
    LineStepTwo(crypto, f, s1.db);
    LineStepThree(crypto, f, s2.db);
  }

  function DigestsOf(s: Trio): Fork
    requires s.genesis.block.Some?
  {
    Fork(s.first.digest, s.copy.digest, s.genesis.block.value)
  }

  /** A node over a tree of the three blocks. */
  function NodeOf(chain: Chain, canonical: map<nat, Hash>, s: Trio): Node
  {
    Node(chain, canonical, map[1 := s.genesis, 2 := s.first, 3 := s.copy])
  }

  /** Block 3, the canonical one, is a sibling of block 2. */
  function ForkNode(s: Trio): Node
    requires s.genesis.block.Some?
  {
    NodeOf(ThreeBlocks(DigestsOf(s)), map[0 := 1, 1 := 3], s)
  }

  /** Block 3 is a child of block 2; all are canonical. */
  function LineNode(s: Trio): Node
    requires s.genesis.block.Some?
  {
    NodeOf(LineOfThree(DigestsOf(s)), map[0 := 1, 1 := 2, 2 := 3], s)
  }

  ghost predicate AllProduced(crypto: Crypto, node: Node)
  {
    Produced(crypto, node, 1) && Produced(crypto, node, 2) && Produced(crypto, node, 3)
  }

  /** All blocks of the examples are blocks the pallet completed. */
  lemma {:induction false} TrioIsProduced(crypto: Crypto, tx: Transaction, s: Trio)
    requires TrioFacts(crypto, tx, s)
    ensures AllProduced(crypto, ForkNode(s)) && AllProduced(crypto, LineNode(s))
  {
  }

  /** Block 2 is indexed with the transaction, its copy under the same Ethereum hash without any. */
  ghost predicate CopyIndexed(crypto: Crypto, chain: Chain, genesis: Hash, e: Hash, t: Hash)
  {
    && CommitmentOf(crypto, chain, 1) == Ok(Commitment(1, genesis, [])) && genesis != e
    && CommitmentOf(crypto, chain, 2) == Ok(Commitment(2, e, [t]))
    && CommitmentOf(crypto, chain, 3) == Ok(Commitment(3, e, []))
  }

  lemma {:induction false} DifferentRoots(crypto: Crypto, tx: Transaction, a: Block, b: Block)
    requires CollisionFree(crypto)
    requires a.header.transactionsRoot == crypto.txRoot([]) && b.header.transactionsRoot == crypto.txRoot([tx])
    ensures BlockHash(crypto, a) != BlockHash(crypto, b)
  {
    assert |[tx]| != 0;
  }

  lemma {:induction false} CopiesShareTheHash(crypto: Crypto, tx: Transaction, s: Trio) returns (genesis: Hash, e: Hash)
    requires CollisionFree(crypto) && TrioFacts(crypto, tx, s)
    ensures CopyIndexed(crypto, ForkNode(s).chain, genesis, e, crypto.txHash(tx))
    ensures CopyIndexed(crypto, LineNode(s).chain, genesis, e, crypto.txHash(tx))
  {
    DifferentRoots(crypto, tx, s.genesis.block.value, s.first.block.value);
    genesis, e := BlockHash(crypto, s.genesis.block.value), BlockHash(crypto, s.first.block.value);
    assert TxHashes(crypto, [tx]) == [crypto.txHash(tx)] && TxHashes(crypto, []) == [];
  }

  lemma {:induction false} ContainingNone(history: seq<Commitment>, t: Hash)
    requires forall i :: 0 <= i < |history| ==> t !in history[i].transactionHashes
    ensures Containing(history, t) == []
  {
    if history != [] {
      ContainingNone(Init(history), t);
    }
  }

  lemma {:induction false} ContainingOne(history: seq<Commitment>, k: nat, t: Hash)
    requires k < |history| && t in history[k].transactionHashes
    requires forall i :: 0 <= i < |history| && i != k ==> t !in history[i].transactionHashes
    ensures Containing(history, t) == [history[k]]
  {
    if k == |history| - 1 {
      ContainingNone(Init(history), t);
    } else {
      ContainingOne(Init(history), k, t);
    }
  }

  lemma {:induction false} CanonicalUnderNone(node: Node, history: seq<Commitment>, e: Hash)
    requires forall i :: 0 <= i < |history| ==>
               history[i].ethereumBlockHash != e || !IsCanon(node, history[i].blockHash)
    ensures CanonicalUnder(node, history, e) == []
  {
    if history != [] {
      CanonicalUnderNone(node, Init(history), e);
    }
  }

  lemma {:induction false} CanonicalUnderOne(node: Node, history: seq<Commitment>, k: nat, e: Hash)
    requires k < |history| && history[k].ethereumBlockHash == e && IsCanon(node, history[k].blockHash)
    requires forall i :: 0 <= i < |history| && i != k ==>
               history[i].ethereumBlockHash != e || !IsCanon(node, history[i].blockHash)
    ensures CanonicalUnder(node, history, e) == [history[k]]
  {
    if k == |history| - 1 {
      CanonicalUnderNone(node, Init(history), e);
    } else {
      CanonicalUnderOne(node, Init(history), k, e);
    }
  }

  lemma {:induction false} DistinctAt(history: seq<Commitment>, i: nat, k: nat)
    requires DistinctBlocks(history) && i < |history| && k < |history| && i != k
    ensures history[i].blockHash != history[k].blockHash
  {
    if i < k {
      assert history[i].blockHash != history[k].blockHash;
    } else {
      assert history[k].blockHash != history[i].blockHash;
    }
  }

  /** The history of either example: block 2, its copy 3, and otherwise only the genesis block. */
  lemma {:induction false} CopyHistory(
    crypto: Crypto, node: Node, db: Db, history: seq<Commitment>, genesis: Hash, e: Hash, t: Hash)
    returns (k: nat, j: nat)
    requires IndexInv(crypto, node.chain, db, history) && CopyIndexed(crypto, node.chain, genesis, e, t)
    requires At(db, db.tips, {1, 2, 3})
    ensures k < |history| && history[k] == Commitment(2, e, [t])
    ensures j < |history| && history[j] == Commitment(3, e, [])
    ensures forall i :: 0 <= i < |history| && i != k && i != j ==> history[i] == Commitment(1, genesis, [])
  {
    assert IsSynced(db, 2) && IsSynced(db, 3);
    assert Indexed(history, 2) && Indexed(history, 3);
    k :| k < |history| && history[k].blockHash == 2;
    j :| j < |history| && history[j].blockHash == 3;
    forall i: nat | i < |history| ensures CommitmentOf(crypto, node.chain, history[i].blockHash) == Ok(history[i]) {
    }
    forall i: nat | i < |history| && i != k && i != j ensures history[i] == Commitment(1, genesis, []) {
      assert Indexed(history, history[i].blockHash) && IsSynced(db, history[i].blockHash);
      DistinctAt(history, i, k);
      DistinctAt(history, i, j);
    }
  }

  lemma {:induction false} BothUnder(node: Node, history: seq<Commitment>, k: nat, j: nat, e: Hash)
    requires k < |history| && j < |history| && history[k] != history[j]
    requires history[k].ethereumBlockHash == e && IsCanon(node, history[k].blockHash)
    requires history[j].ethereumBlockHash == e && IsCanon(node, history[j].blockHash)
    ensures |CanonicalUnder(node, history, e)| != 1
  {
    assert history[k] in CanonicalUnder(node, history, e) && history[j] in CanonicalUnder(node, history, e);
  }

  /** What the index of either example answers. */
  lemma {:induction false} CopyLookup(
    crypto: Crypto, node: Node, db: Db, history: seq<Commitment>, genesis: Hash, e: Hash, t: Hash)
    requires IndexInv(crypto, node.chain, db, history) && CopyIndexed(crypto, node.chain, genesis, e, t)
    requires At(db, db.tips, {1, 2, 3}) && IsCanon(node, 3)
    ensures Lookup(node, db, t) == if IsCanon(node, 2) then None else Some((3, 0))
  {
    var k, j := CopyHistory(crypto, node, db, history, genesis, e, t);
    ContainingOne(history, k, t);
    LookupExactly(node, db, history, t);
    if IsCanon(node, 2) {
      BothUnder(node, history, k, j, e);
    } else {
      CanonicalUnderOne(node, history, j, e);
      assert LastIndex([t], t) == 0;
    }
  }

  /** The node and what it has indexed after three healthy steps from an empty database. */
  ghost function Indexing(crypto: Crypto, node: Node): State
  {
    RunEvents(crypto, State(node.chain, EMPTY, []), THREE_STEPS)
  }

  ghost predicate AllIndexed(crypto: Crypto, node: Node)
  {
    var s := Indexing(crypto, node);
    && ValidChain(node.chain) && s.chain == node.chain
    && At(s.db, s.db.tips, {1, 2, 3}) && IndexInv(crypto, s.chain, s.db, s.history)
  }

  lemma {:induction false} ForkNodeIndexed(crypto: Crypto, tx: Transaction, s: Trio)
    requires TrioFacts(crypto, tx, s)
    ensures AllIndexed(crypto, ForkNode(s)) && IsCanon(ForkNode(s), 3) && !IsCanon(ForkNode(s), 2)
  {
    ExampleTrees(crypto, DigestsOf(s));
    ForkIsIndexed(crypto, DigestsOf(s));
    assert {2, 1, 3} == {1, 2, 3};
    ReachableIndex(crypto, ForkNode(s).chain, THREE_STEPS);
  }

  lemma {:induction false} LineNodeIndexed(crypto: Crypto, tx: Transaction, s: Trio)
    requires TrioFacts(crypto, tx, s)
    ensures AllIndexed(crypto, LineNode(s)) && IsCanon(LineNode(s), 2) && IsCanon(LineNode(s), 3)
  {
    LineIsReadable(crypto, DigestsOf(s));
    LineIsIndexed(crypto, DigestsOf(s));
    assert {3, 2, 1} == {1, 2, 3};
    ReachableIndex(crypto, LineNode(s).chain, THREE_STEPS);
  }

  /**
   * Block 2 holds a transaction and is not canonical; its canonical sibling, block 3, is empty and its
   * pre-log copies the header of block 2. Both were completed by the pallet and indexed. The lookup
   * answers with block 3, and reading the transaction there is out of bounds.
   */
  lemma {:induction false} CopiedHeaderPanics(crypto: Crypto, x: Example) returns (s: Trio)
    requires CollisionFree(crypto) && crypto.recover(x.tx).Some?
    ensures Runs(crypto, x, s.genesis, s) && s.genesis.block.Some?
    ensures AllProduced(crypto, ForkNode(s)) && AllIndexed(crypto, ForkNode(s))
    ensures IsCanon(ForkNode(s), 3) && !IsCanon(ForkNode(s), 2)
    ensures var db, t := Indexing(crypto, ForkNode(s)).db, crypto.txHash(x.tx);
            && Lookup(ForkNode(s), db, t) == Some((3, 0))
            && TransactionByHash(ForkNode(s), db, t) == Panicked
  {
    var unused;
    s, unused := BothRun(crypto, x);
    TrioIsProduced(crypto, x.tx, s);
    ForkNodeIndexed(crypto, x.tx, s);
    var genesis, e := CopiesShareTheHash(crypto, x.tx, s);
    var now := Indexing(crypto, ForkNode(s));
    CopyLookup(crypto, ForkNode(s), now.db, now.history, genesis, e, crypto.txHash(x.tx));
  }

  /**
   * With block 3 a child of block 2 and both canonical, the transaction of block 2 is not found, although
   * no other block contains it.
   */
  lemma {:induction false} CopiedHeaderHides(crypto: Crypto, x: Example) returns (s: Trio)
    requires CollisionFree(crypto) && crypto.recover(x.tx).Some?
    ensures Runs(crypto, x, s.first, s) && s.genesis.block.Some?
    ensures AllProduced(crypto, LineNode(s)) && AllIndexed(crypto, LineNode(s))
    ensures IsCanon(LineNode(s), 2) && IsCanon(LineNode(s), 3)
    ensures Lookup(LineNode(s), Indexing(crypto, LineNode(s)).db, crypto.txHash(x.tx)) == None
  {
    var unused;
    unused, s := BothRun(crypto, x);
    TrioIsProduced(crypto, x.tx, s);
    LineNodeIndexed(crypto, x.tx, s);
    var genesis, e := CopiesShareTheHash(crypto, x.tx, s);
    var now := Indexing(crypto, LineNode(s));
    CopyLookup(crypto, LineNode(s), now.db, now.history, genesis, e, crypto.txHash(x.tx));
  }
}
