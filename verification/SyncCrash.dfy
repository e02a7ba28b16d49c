/** What a crash between the two commits of a step costs (client/mapping-sync/src/lib.rs). */
module SyncCrash {
  import opened Prelude
  import opened EthTypes
  import opened Consensus
  import opened MappingDb
  import opened MappingSync
  import opened SyncProgress

  // ---- What a lost stack costs ----

  /** Every climb from a tip or a leaf to `h` goes through `op`, which lies strictly below it. */
  ghost predicate OnlyThrough(chain: Chain, db: Db, op: Hash, h: Hash)
  {
    forall s, n: nat :: Start(chain, db, s) && Climbs(chain, db, s, h, n) ==>
      exists k: nat :: k < n && Climbs(chain, db, s, op, k)
  }

  /** Indexing `op` while keeping the old stack leaves reached exactly what is reached around `op`. */
  lemma {:induction false} LostStackReaches(chain: Chain, db: Db, after: Db, op: Hash, h: Hash)
    requires ValidChain(chain) && Adds(db, after, op) && after.tips == db.tips && h != op
    ensures Reached(chain, after, h) <==> !OnlyThrough(chain, db, op, h)
  {
    if Reached(chain, after, h) {
      var s, n: nat :| Start(chain, after, s) && Climbs(chain, after, s, h, n);
      ClimbBefore(chain, db, after, op, s, h, n);
      assert Start(chain, db, s);
    }
    if !OnlyThrough(chain, db, op, h) {
      var s, n: nat :| Start(chain, db, s) && Climbs(chain, db, s, h, n)
        && !exists k: nat :: k < n && Climbs(chain, db, s, op, k);
      forall k: nat | k <= n ensures !Climbs(chain, db, s, op, k) {
        if k == n && Climbs(chain, db, s, op, k) {
          ClimbRest(chain, db, s, op, h, n, n);
        }
      }
      ClimbAround(chain, db, after, op, s, h, n);
      assert Start(chain, after, s);
    }
  }

  lemma {:induction false} SubsetSize(a: set<Hash>, b: set<Hash>)
    requires a <= b
    ensures |a| <= |b|
  {
    assert b == a + (b - a);
  }

  /** Losing the new stack never makes more blocks reached. */
  lemma {:induction false} LostStackReachesLess(chain: Chain, db: Db, after: Db, op: Hash)
    requires ValidChain(chain) && Adds(db, after, op) && after.tips == db.tips
    ensures ReachedSet(chain, after) <= ReachedSet(chain, db)
    ensures |ReachedSet(chain, after)| <= |ReachedSet(chain, db)|
  {
    forall h | h in ReachedSet(chain, after) ensures h in ReachedSet(chain, db) {
      var s, n: nat :| Start(chain, after, s) && Climbs(chain, after, s, h, n);
      ClimbBefore(chain, db, after, op, s, h, n);
      assert Start(chain, db, s);
    }
    SubsetSize(ReachedSet(chain, after), ReachedSet(chain, db));
  }

  /** The blocks a crash in the step on `op` leaves out: those reached only through `op`. */
  ghost predicate Lost(chain: Chain, db: Db, op: Hash, h: Hash)
  {
    Reached(chain, db, h) && h != op && OnlyThrough(chain, db, op, h)
  }

  lemma {:induction false} CrashedDestiny(chain: Chain, db: Db, after: Db, op: Hash, h: Hash)
    requires ValidChain(chain) && Adds(db, after, op) && after.tips == db.tips && Reached(chain, db, op)
    ensures Destined(chain, after, h) <==> Destined(chain, db, h) && !Lost(chain, db, op, h)
  {
    assert IsSynced(after, h) <==> IsSynced(db, h) || h == op;
    if h != op {
      LostStackReaches(chain, db, after, op, h);
      LostStackReachesLess(chain, db, after, op);
      if Reached(chain, after, h) {
        ReachedOnce(chain, after, h);
        assert h in ReachedSet(chain, db);
      }
      if Reached(chain, db, h) {
        ReachedOnce(chain, db, h);
      }
    }
  }

  lemma {:induction false} HealthyEnd(crypto: Crypto, chain: Chain, db: Db, limit: nat, n: nat, h: Hash)
    requires ValidChain(chain) && TipsInChain(chain, db) && AllReadable(crypto, chain) && limit >= 2
    requires n >= |ReachedSet(chain, db)|
    ensures var healthy := SyncOne(crypto, chain, db, HEALTHY).db;
            IsSynced(AfterRounds(crypto, chain, healthy, limit, n), h) <==> Destined(chain, db, h)
  {
    var healthy := SyncOne(crypto, chain, db, HEALTHY).db;
    StepKeepsDestiny(crypto, chain, db);
    RoundsIndexReached(crypto, chain, healthy, limit, n);
    assert Destined(chain, healthy, h) <==> Destined(chain, db, h);
  }

  lemma {:induction false} CrashedEnd(crypto: Crypto, chain: Chain, db: Db, limit: nat, n: nat, h: Hash)
    requires ValidChain(chain) && TipsInChain(chain, db) && AllReadable(crypto, chain) && limit >= 2
    requires PopSynced(db, Worklist(chain, db)) != [] && n >= |ReachedSet(chain, db)|
    ensures var op := Last(PopSynced(db, Worklist(chain, db)));
            var crashed := SyncOne(crypto, chain, db, Commits(true, false)).db;
            IsSynced(AfterRounds(crypto, chain, crashed, limit, n), h) <==>
              Destined(chain, db, h) && !Lost(chain, db, op, h)
  {
    var op := Last(PopSynced(db, Worklist(chain, db)));
    var crashed := SyncOne(crypto, chain, db, Commits(true, false)).db;
    StepCases(crypto, chain, db);
    WriteAdds(db, CommitmentOf(crypto, chain, op).value, []);
    LostStackReachesLess(chain, db, crashed, op);
    RoundsIndexReached(crypto, chain, crashed, limit, n);
    CrashedDestiny(chain, db, crashed, op, h);
  }

  /**
   * Exactly which blocks a crash between the two commits of a step costs, over a fixed tree: those
   * that were reached only through the block of that step. All others end up as without the crash.
   */
  lemma {:induction false} LostStackLosesExactly(crypto: Crypto, chain: Chain, db: Db, limit: nat, n: nat, h: Hash)
    requires ValidChain(chain) && TipsInChain(chain, db) && AllReadable(crypto, chain) && limit >= 2
    requires PopSynced(db, Worklist(chain, db)) != [] && n >= |ReachedSet(chain, db)|
    ensures var op := Last(PopSynced(db, Worklist(chain, db)));
            var healthy := SyncOne(crypto, chain, db, HEALTHY).db;
            var crashed := SyncOne(crypto, chain, db, Commits(true, false)).db;
            && (IsSynced(AfterRounds(crypto, chain, healthy, limit, n), h) <==> Destined(chain, db, h))
            && (IsSynced(AfterRounds(crypto, chain, crashed, limit, n), h) <==>
                  Destined(chain, db, h) && !Lost(chain, db, op, h))
  {
    HealthyEnd(crypto, chain, db, limit, n, h);
    CrashedEnd(crypto, chain, db, limit, n, h);
  }

  // ---- A crash at work ----

  lemma {:induction false} AnyRoundKeepsDestiny(crypto: Crypto, chain: Chain, db: Db, limit: nat, h: Hash)
    requires ValidChain(chain) && TipsInChain(chain, db)
    ensures var r := SyncBlocks(crypto, chain, db, limit, ALL_HEALTHY);
            TipsInChain(chain, r.db) && (Destined(chain, r.db, h) <==> Destined(chain, db, h))
    decreases limit
  {
    if limit > 0 {
      StepKeepsDestiny(crypto, chain, db);
      var s := SyncOne(crypto, chain, db, HEALTHY);
      assert Destined(chain, s.db, h) <==> Destined(chain, db, h);
      AnyRoundKeepsDestiny(crypto, chain, s.db, limit - 1, h);
    }
  }

  /** Over a fixed tree, readable or not, a block that is neither indexed nor reached is never indexed. */
  lemma {:induction false} LostParentStaysLost(crypto: Crypto, chain: Chain, db: Db, limit: nat, n: nat, p: Hash)
    requires ValidChain(chain) && TipsInChain(chain, db) && !IsSynced(db, p) && !Reached(chain, db, p)
    ensures !IsSynced(AfterRounds(crypto, chain, db, limit, n), p)
    decreases n
  {
    if n > 0 {
      var next := SyncBlocks(crypto, chain, db, limit, ALL_HEALTHY).db;
      AnyRoundKeepsDestiny(crypto, chain, db, limit, p);
      assert !Destined(chain, next, p);
      LostParentStaysLost(crypto, chain, next, limit, n - 1, p);
    }
  }

  /** The digests of two sibling blocks, and the Ethereum block of the genesis state below them. */
  datatype Fork = Fork(child: Digest, sibling: Digest, genesis: Block)

  /** Each sibling carries exactly one log. */
  predicate OneLogEach(f: Fork)
  {
    TheOnly(Logs(f.child)).Ok? && TheOnly(Logs(f.sibling)).Ok?
  }

  /** A genesis block, 1, with one child, 2. */
  function TwoBlocks(f: Fork): Chain
  {
    Chain(map[1 := SubHeader(0, 0, []), 2 := SubHeader(1, 1, f.child)], [2], map[1 := f.genesis])
  }

  /** The same with a second child, 3. */
  function ThreeBlocks(f: Fork): Chain
  {
    TwoBlocks(f).(headers := TwoBlocks(f).headers[3 := SubHeader(1, 1, f.sibling)], leaves := [3, 2])
  }

  lemma {:induction false} ExampleTrees(crypto: Crypto, f: Fork)
    requires OneLogEach(f)
    ensures ValidChain(TwoBlocks(f)) && AllReadable(crypto, TwoBlocks(f))
    ensures ValidChain(ThreeBlocks(f)) && AllReadable(crypto, ThreeBlocks(f)) && Extends(TwoBlocks(f), ThreeBlocks(f))
  {
    var two, three := TwoBlocks(f), ThreeBlocks(f);
    assert two.headers[2].parent == 1 && HasChild(two, 1);
    assert three.headers[2].parent == 1 && HasChild(three, 1);
  }

  /** What the crash between the two commits of the very first step leaves behind, on either tree. */
  lemma {:induction false} CrashedFirstStep(crypto: Crypto, f: Fork, chain: Chain)
    requires OneLogEach(f) && (chain == TwoBlocks(f) || chain == ThreeBlocks(f))
    ensures var crashed := SyncOne(crypto, chain, EMPTY, Commits(true, false)).db;
            && crashed.tips == [] && Adds(EMPTY, crashed, 2)
            && LosesParent(crypto, chain, EMPTY, Commits(true, false))
  {
    ExampleTrees(crypto, f);
    assert Last(chain.leaves) == 2 && PopSynced(EMPTY, chain.leaves) == chain.leaves;
    assert CommitmentOf(crypto, chain, 2).Ok?;
    WriteAdds(EMPTY, CommitmentOf(crypto, chain, 2).value, []);
  }

  /**
   * The healthy run indexes both blocks of the two-block tree; after a crash between the two commits
   * of the very first step no number of rounds over that tree indexes the genesis block.
   */
  lemma {:induction false} CrashLosesParent(crypto: Crypto, f: Fork, n: nat)
    requires OneLogEach(f)
    ensures var chain := TwoBlocks(f);
            var crashed := SyncOne(crypto, chain, EMPTY, Commits(true, false)).db;
            && ValidChain(chain) && AllReadable(crypto, chain)
            && (n >= 2 ==> forall h :: h in chain.headers ==> IsSynced(AfterRounds(crypto, chain, EMPTY, LIMIT, n), h))
            && !IsSynced(AfterRounds(crypto, chain, crashed, LIMIT, n), 1)
  {
    var chain := TwoBlocks(f);
    var crashed := SyncOne(crypto, chain, EMPTY, Commits(true, false)).db;
    ExampleTrees(crypto, f);
    assert Unindexed(chain, EMPTY) == {1, 2};
    RoundsCountUnindexed(crypto, chain, EMPTY, LIMIT, n);
    CrashedFirstStep(crypto, f, chain);
    assert !IsSynced(crashed, 1) && IsSynced(crashed, 2);
    LostParentStaysLost(crypto, chain, crashed, LIMIT, n, 1);
  }

  lemma {:induction false} IndexedInTheEnd(crypto: Crypto, chain: Chain, db: Db, limit: nat, n: nat, h: Hash)
    requires ValidChain(chain) && TipsInChain(chain, db) && AllReadable(crypto, chain) && limit >= 2
    requires n >= |ReachedSet(chain, db)| && Destined(chain, db, h)
    ensures IsSynced(AfterRounds(crypto, chain, db, limit, n), h)
  {
    RoundsIndexReached(crypto, chain, db, limit, n);
  }

  lemma {:induction false} SiblingReaches(f: Fork, db: Db, h: Hash)
    requires db.tips == [] && Adds(EMPTY, db, 2) && h in ThreeBlocks(f).headers
    ensures Destined(ThreeBlocks(f), db, h)
  {
    var three := ThreeBlocks(f);
    assert !IsSynced(db, 1) && IsSynced(db, 2) && !IsSynced(db, 3);
    assert Climbs(three, db, 1, 1, 0) && Climbs(three, db, 3, 3, 0) && Climbs(three, db, 3, 1, 1);
    assert Start(three, db, 3);
  }

  lemma {:induction false} SiblingIndexes(crypto: Crypto, f: Fork, db: Db, n: nat, h: Hash)
    requires OneLogEach(f)
    requires db.tips == [] && Adds(EMPTY, db, 2) && n >= 3 && h in ThreeBlocks(f).headers
    ensures IsSynced(AfterRounds(crypto, ThreeBlocks(f), db, LIMIT, n), h)
  {
    ExampleTrees(crypto, f);
    SiblingReaches(f, db, h);
    SubsetSize(ReachedSet(ThreeBlocks(f), db), {1, 2, 3});
    IndexedInTheEnd(crypto, ThreeBlocks(f), db, LIMIT, n, h);
  }

  /**
   * The loss is not for good: importing a sibling of the indexed block makes the rounds reach the
   * parent again. And a crash with that sibling already there loses nothing, although it too breaks
   * the cover invariant.
   */
  lemma {:induction false} SiblingRecoversParent(crypto: Crypto, f: Fork, n: nat, h: Hash)
    requires OneLogEach(f) && n >= 3 && h in ThreeBlocks(f).headers
    ensures var two, three := TwoBlocks(f), ThreeBlocks(f);
            var before := SyncOne(crypto, two, EMPTY, Commits(true, false)).db;
            var after := SyncOne(crypto, three, EMPTY, Commits(true, false)).db;
            && ValidChain(three) && Extends(two, three)
            && LosesParent(crypto, three, EMPTY, Commits(true, false))
            && IsSynced(AfterRounds(crypto, three, before, LIMIT, n), h)
            && IsSynced(AfterRounds(crypto, three, after, LIMIT, n), h)
  {
    ExampleTrees(crypto, f);
    CrashedFirstStep(crypto, f, TwoBlocks(f));
    CrashedFirstStep(crypto, f, ThreeBlocks(f));
    SiblingIndexes(crypto, f, SyncOne(crypto, TwoBlocks(f), EMPTY, Commits(true, false)).db, n, h);
    SiblingIndexes(crypto, f, SyncOne(crypto, ThreeBlocks(f), EMPTY, Commits(true, false)).db, n, h);
  }
}
