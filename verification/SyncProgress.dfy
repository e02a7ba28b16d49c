/**
 * What calls of `sync_blocks` index in the end (client/mapping-sync/src/lib.rs): exactly the blocks
 * reached upward from a persisted tip or a leaf.
 */
module SyncProgress {
  import opened Prelude
  import opened EthTypes
  import opened Consensus
  import opened MappingDb
  import opened MappingSync

  const ALL_HEALTHY: nat -> Commits := i => HEALTHY

  /** The number of `sync_one_block` calls in one round of the worker. */
  const LIMIT: nat := 8

  function Unindexed(chain: Chain, db: Db): set<Hash>
  {
    set h | h in chain.headers && !IsSynced(db, h)
  }

  /** Every header carries exactly one log and every genesis its Ethereum block. */
  ghost predicate AllReadable(crypto: Crypto, chain: Chain)
  {
    forall h {:trigger CommitmentOf(crypto, chain, h)} :: h in chain.headers ==> CommitmentOf(crypto, chain, h).Ok?
  }

  // ---- Climbing from the tips and leaves ----

  /** Following `n` parent links from `s`, only through blocks not indexed yet, leads to `h`. */
  predicate Climbs(chain: Chain, db: Db, s: Hash, h: Hash, n: nat)
    decreases n
  {
    && s in chain.headers && !IsSynced(db, s)
    && if n == 0 then s == h
       else chain.headers[s].number > 0 && Climbs(chain, db, chain.headers[s].parent, h, n - 1)
  }

  predicate Start(chain: Chain, db: Db, s: Hash)
  {
    s in db.tips || s in chain.leaves
  }

  /** Some persisted tip or leaf climbs to `h`. */
  ghost predicate Reached(chain: Chain, db: Db, h: Hash)
  {
    exists s, n: nat :: Start(chain, db, s) && Climbs(chain, db, s, h, n)
  }

  ghost function ReachedSet(chain: Chain, db: Db): set<Hash>
  {
    set h | h in chain.headers && Reached(chain, db, h)
  }

  lemma {:induction false} ClimbArrives(chain: Chain, db: Db, s: Hash, h: Hash, n: nat)
    requires ValidChain(chain) && Climbs(chain, db, s, h, n)
    ensures h in chain.headers && !IsSynced(db, h) && chain.headers[h].number == chain.headers[s].number - n
    decreases n
  {
    if n > 0 {
      assert WellPlaced(chain, s);
      ClimbArrives(chain, db, chain.headers[s].parent, h, n - 1);
    }
  }

  lemma {:induction false} ClimbOneMore(chain: Chain, db: Db, s: Hash, h: Hash, n: nat)
    requires ValidChain(chain) && Climbs(chain, db, s, h, n) && h in chain.headers
    requires chain.headers[h].number > 0 && !IsSynced(db, chain.headers[h].parent)
    ensures Climbs(chain, db, s, chain.headers[h].parent, n + 1)
    decreases n
  {
    assert WellPlaced(chain, h);
    if n > 0 {
      ClimbOneMore(chain, db, chain.headers[s].parent, h, n - 1);
    } else {
      assert Climbs(chain, db, chain.headers[h].parent, chain.headers[h].parent, 0);
    }
  }

  lemma {:induction false} ReachedOnce(chain: Chain, db: Db, h: Hash)
    requires ValidChain(chain) && Reached(chain, db, h)
    ensures h in Unindexed(chain, db) && h in ReachedSet(chain, db)
  {
    var s, n: nat :| Start(chain, db, s) && Climbs(chain, db, s, h, n);
    ClimbArrives(chain, db, s, h, n);
  }

  /** `after` has indexed `op` and nothing else. */
  ghost predicate Adds(db: Db, after: Db, op: Hash)
  {
    forall h {:trigger IsSynced(after, h)} :: IsSynced(after, h) <==> IsSynced(db, h) || h == op
  }

  lemma {:induction false} WriteAdds(db: Db, c: Commitment, tips: seq<Hash>)
    ensures Adds(db, WriteHashes(db, c).(tips := tips), c.blockHash)
    ensures Adds(db, WriteHashes(db, c), c.blockHash) && WriteHashes(db, c).tips == db.tips
  {
    SyncedAfterWrite(db, c, c.blockHash);
    forall h ensures IsSynced(WriteHashes(db, c), h) <==> IsSynced(db, h) || h == c.blockHash {
      SyncedAfterWrite(db, c, h);
    }
  }

  /** A climb that is possible after `op` was indexed was possible before and did not touch `op`. */
  lemma {:induction false} ClimbBefore(chain: Chain, db: Db, after: Db, op: Hash, s: Hash, h: Hash, n: nat)
    requires Adds(db, after, op) && Climbs(chain, after, s, h, n)
    ensures Climbs(chain, db, s, h, n)
    ensures h != op && forall k: nat :: k <= n ==> !Climbs(chain, db, s, op, k)
    decreases n
  {
    assert !IsSynced(after, s);
    if n > 0 {
      var p := chain.headers[s].parent;
      ClimbBefore(chain, db, after, op, p, h, n - 1);
      forall k: nat | k <= n ensures !Climbs(chain, db, s, op, k) {
        assert k > 0 ==> !Climbs(chain, db, p, op, k - 1);
      }
    }
  }

  /** A climb that does not go through `op` stays possible once `op` is indexed. */
  lemma {:induction false} ClimbAround(chain: Chain, db: Db, after: Db, op: Hash, s: Hash, h: Hash, n: nat)
    requires Adds(db, after, op) && Climbs(chain, db, s, h, n)
    requires forall k: nat :: k <= n ==> !Climbs(chain, db, s, op, k)
    ensures Climbs(chain, after, s, h, n)
    decreases n
  {
    assert !Climbs(chain, db, s, op, 0);
    assert !IsSynced(after, s);
    if n > 0 {
      var p := chain.headers[s].parent;
      forall k: nat | k <= n - 1 ensures !Climbs(chain, db, p, op, k) {
        assert !Climbs(chain, db, s, op, k + 1);
      }
      ClimbAround(chain, db, after, op, p, h, n - 1);
    }
  }

  /** The rest of a climb, above a block it goes through. */
  lemma {:induction false} ClimbRest(chain: Chain, db: Db, s: Hash, m: Hash, h: Hash, k: nat, n: nat)
    requires Climbs(chain, db, s, m, k) && Climbs(chain, db, s, h, n) && k <= n
    ensures Climbs(chain, db, m, h, n - k)
    decreases k
  {
    if k > 0 {
      ClimbRest(chain, db, chain.headers[s].parent, m, h, k - 1, n - 1);
    }
  }

  /** Above `op` a climb never meets `op` again. */
  lemma {:induction false} ClimbAbove(chain: Chain, db: Db, after: Db, op: Hash, h: Hash, n: nat)
    requires ValidChain(chain) && Adds(db, after, op) && Climbs(chain, db, op, h, n) && n > 0
    ensures Climbs(chain, after, chain.headers[op].parent, h, n - 1)
  {
    var p := chain.headers[op].parent;
    assert WellPlaced(chain, op);
    forall k: nat | k <= n - 1 ensures !Climbs(chain, db, p, op, k) {
      if Climbs(chain, db, p, op, k) {
        ClimbArrives(chain, db, p, op, k);
      }
    }
    ClimbAround(chain, db, after, op, p, h, n - 1);
  }

  // ---- One step ----

  /** A healthy step either drains the worklist, or works on its last unindexed entry. */
  lemma {:induction false} StepCases(crypto: Crypto, chain: Chain, db: Db)
    requires ValidChain(chain) && TipsInChain(chain, db)
    ensures var s := SyncOne(crypto, chain, db, HEALTHY);
            var left := PopSynced(db, Worklist(chain, db));
            && (left == [] ==> s.result == Synced(false) && s.db == db.(tips := []))
            && (left != [] ==>
                  && Last(left) in Unindexed(chain, db) && Reached(chain, db, Last(left))
                  && match CommitmentOf(crypto, chain, Last(left))
                     case Err(e) => s.result == Failed(e) && s.db == db
                     case Ok(c) =>
                       && s.result == Synced(true) && Adds(db, s.db, Last(left))
                       && s.db.tips == NextTips(chain, left))
  {
    var s := SyncOne(crypto, chain, db, HEALTHY);
    var left := PopSynced(db, Worklist(chain, db));
    if left != [] {
      WorklistInChain(chain, db, |left| - 1);
      assert Worklist(chain, db)[|left| - 1] in Worklist(chain, db);
      assert Climbs(chain, db, Last(left), Last(left), 0);
      if s.written.Some? {
        WriteAdds(db, s.written.value, NextTips(chain, left));
      }
    }
  }

  lemma {:induction false} SameClimb(chain: Chain, a: Db, b: Db, s: Hash, h: Hash, n: nat)
    requires a.synced == b.synced
    ensures Climbs(chain, a, s, h, n) <==> Climbs(chain, b, s, h, n)
    decreases n
  {
    assert IsSynced(a, s) <==> IsSynced(b, s);
    if n > 0 && s in chain.headers {
      SameClimb(chain, a, b, chain.headers[s].parent, h, n - 1);
    }
  }

  lemma {:induction false} DrainKeepsReached(chain: Chain, db: Db, h: Hash)
    requires PopSynced(db, Worklist(chain, db)) == []
    ensures Reached(chain, db.(tips := []), h) <==> Reached(chain, db, h)
    ensures db.tips == [] ==> !Reached(chain, db, h)
  {
    var after := db.(tips := []);
    assert forall i :: 0 <= i < |Worklist(chain, db)| ==> IsSynced(db, Worklist(chain, db)[i]);
    if Reached(chain, db, h) {
      var s, n: nat :| Start(chain, db, s) && Climbs(chain, db, s, h, n);
      SameClimb(chain, db, after, s, h, n);
      assert Start(chain, after, s);
    }
    if Reached(chain, after, h) {
      var s, n: nat :| Start(chain, after, s) && Climbs(chain, after, s, h, n);
      SameClimb(chain, db, after, s, h, n);
      assert Start(chain, db, s);
    }
  }

  lemma {:induction false} AdvanceReachesNoMore(chain: Chain, db: Db, left: seq<Hash>, after: Db,
                                                s: Hash, h: Hash, n: nat)
    requires ValidChain(chain) && TipsInChain(chain, db)
    requires left == PopSynced(db, Worklist(chain, db)) && left != [] && Last(left) in chain.headers
    requires Adds(db, after, Last(left)) && after.tips == NextTips(chain, left)
    requires Start(chain, after, s) && Climbs(chain, after, s, h, n)
    ensures Reached(chain, db, h) && h != Last(left)
  {
    var op, list := Last(left), Worklist(chain, db);
    ClimbBefore(chain, db, after, op, s, h, n);
    assert list[|left| - 1] == op && Start(chain, db, op);
    if s in Init(left) {
      assert s in list;
      assert Start(chain, db, s);
    } else if s !in chain.leaves {
      assert s == chain.headers[op].parent;
      assert Climbs(chain, db, op, h, n + 1);
    }
  }

  lemma {:induction false} AdvanceReachesTheRest(chain: Chain, db: Db, left: seq<Hash>, after: Db,
                                                 s: Hash, h: Hash, n: nat)
    requires ValidChain(chain) && TipsInChain(chain, db)
    requires left == PopSynced(db, Worklist(chain, db)) && left != [] && Last(left) in chain.headers
    requires Adds(db, after, Last(left)) && after.tips == NextTips(chain, left)
    requires Start(chain, db, s) && Climbs(chain, db, s, h, n) && h != Last(left)
    ensures Reached(chain, after, h)
  {
    var op := Last(left);
    if k: nat :| k <= n && Climbs(chain, db, s, op, k) {
      ClimbRest(chain, db, s, op, h, k, n);
      ClimbAbove(chain, db, after, op, h, n - k);
      assert Last(after.tips) == chain.headers[op].parent;
      assert Start(chain, after, chain.headers[op].parent);
    } else {
      ClimbAround(chain, db, after, op, s, h, n);
      assert !Climbs(chain, db, s, op, 0);
      assert s != op;
      if s !in chain.leaves {
        var i :| 0 <= i < |db.tips| && db.tips[i] == s;
        assert Worklist(chain, db) == db.tips;
        assert i < |left| && left[i] == s && i < |left| - 1;
        assert after.tips[i] == s;
      }
      assert Start(chain, after, s);
    }
  }

  /** Working on `op` and pushing its parent takes exactly `op` out of what is reached. */
  lemma {:induction false} AdvanceTakesOne(chain: Chain, db: Db, left: seq<Hash>, after: Db, h: Hash)
    requires ValidChain(chain) && TipsInChain(chain, db)
    requires left == PopSynced(db, Worklist(chain, db)) && left != [] && Last(left) in chain.headers
    requires Adds(db, after, Last(left)) && after.tips == NextTips(chain, left)
    ensures Reached(chain, after, h) <==> Reached(chain, db, h) && h != Last(left)
  {
    if Reached(chain, after, h) {
      var s, n: nat :| Start(chain, after, s) && Climbs(chain, after, s, h, n);
      AdvanceReachesNoMore(chain, db, left, after, s, h, n);
    }
    if Reached(chain, db, h) && h != Last(left) {
      var s, n: nat :| Start(chain, db, s) && Climbs(chain, db, s, h, n);
      AdvanceReachesTheRest(chain, db, left, after, s, h, n);
    }
  }

  /** Indexed now, or reached: what the rounds will have indexed in the end. */
  ghost predicate Destined(chain: Chain, db: Db, h: Hash)
  {
    IsSynced(db, h) || Reached(chain, db, h)
  }

  ghost predicate SameDestiny(chain: Chain, a: Db, b: Db)
  {
    forall h {:trigger Destined(chain, a, h)} :: Destined(chain, a, h) <==> Destined(chain, b, h)
  }

  lemma {:induction false} AdvanceShrinks(chain: Chain, db: Db, left: seq<Hash>, after: Db)
    requires ValidChain(chain) && TipsInChain(chain, db)
    requires left == PopSynced(db, Worklist(chain, db)) && left != [] && Last(left) in ReachedSet(chain, db)
    requires Adds(db, after, Last(left)) && after.tips == NextTips(chain, left)
    ensures SameDestiny(chain, after, db)
    ensures ReachedSet(chain, after) == ReachedSet(chain, db) - {Last(left)}
    ensures |ReachedSet(chain, after)| == |ReachedSet(chain, db)| - 1
  {
    forall h ensures Reached(chain, after, h) <==> Reached(chain, db, h) && h != Last(left) {
      AdvanceTakesOne(chain, db, left, after, h);
    }
    assert ReachedSet(chain, after) == ReachedSet(chain, db) - {Last(left)};
    forall h ensures Destined(chain, after, h) <==> Destined(chain, db, h) {
      assert IsSynced(after, h) <==> IsSynced(db, h) || h == Last(left);
    }
  }

  /** A healthy step moves at most one block from reached to indexed, and changes no block's destiny. */
  lemma {:induction false} StepKeepsDestiny(crypto: Crypto, chain: Chain, db: Db)
    requires ValidChain(chain) && TipsInChain(chain, db)
    ensures var s := SyncOne(crypto, chain, db, HEALTHY);
            && TipsInChain(chain, s.db)
            && SameDestiny(chain, s.db, db)
            && (s.result == Synced(true) ==> |ReachedSet(chain, s.db)| == |ReachedSet(chain, db)| - 1)
            && (s.result != Synced(true) ==>
                  s.db.synced == db.synced && ReachedSet(chain, s.db) == ReachedSet(chain, db))
            && (s.result == Synced(false) ==> s.db.tips == [])
            && (s.result == Synced(false) && db.tips == [] ==> ReachedSet(chain, db) == {})
            && (ReachedSet(chain, db) == {} ==> s.result == Synced(false))
            && (AllReadable(crypto, chain) ==> s.result.Synced?)
  {
    StepCases(crypto, chain, db);
    StepKeepsTips(crypto, chain, db, HEALTHY);
    var s := SyncOne(crypto, chain, db, HEALTHY);
    var left := PopSynced(db, Worklist(chain, db));
    if left == [] {
      forall h ensures Reached(chain, s.db, h) <==> Reached(chain, db, h)
               ensures db.tips == [] ==> !Reached(chain, db, h) {
        DrainKeepsReached(chain, db, h);
      }
    } else {
      ReachedOnce(chain, db, Last(left));
      if s.result == Synced(true) {
        AdvanceShrinks(chain, db, left, s.db);
      }
    }
  }

  // ---- Rounds ----

  /**
   * One healthy `sync_blocks` call with room for two steps: it moves at most one block from reached to
   * indexed, changes no block's destiny, and answers "nothing left" exactly when nothing is reached.
   */
  lemma {:induction false} RoundKeepsDestiny(crypto: Crypto, chain: Chain, db: Db, limit: nat)
    requires ValidChain(chain) && TipsInChain(chain, db)
    requires limit >= 2 || (limit >= 1 && db.tips == []) || (limit == 0 && ReachedSet(chain, db) == {})
    ensures var r := SyncBlocks(crypto, chain, db, limit, ALL_HEALTHY);
            && TipsInChain(chain, r.db)
            && SameDestiny(chain, r.db, db)
            && (r.result == Synced(true) ==> |ReachedSet(chain, r.db)| == |ReachedSet(chain, db)| - 1)
            && (r.result != Synced(true) ==>
                  r.db.synced == db.synced && ReachedSet(chain, r.db) == ReachedSet(chain, db))
            && (r.result == Synced(false) <==> ReachedSet(chain, db) == {})
            && (AllReadable(crypto, chain) ==> r.result.Synced?)
    decreases limit
  {
    if limit > 0 {
      StepKeepsDestiny(crypto, chain, db);
      var s := SyncOne(crypto, chain, db, HEALTHY);
      if s.result == Synced(false) {
        RoundKeepsDestiny(crypto, chain, s.db, limit - 1);
      }
    }
  }

  /** Rounds over a readable tree never fail while the database accepts their commits. */
  lemma {:induction false} RoundsDoNotFail(crypto: Crypto, chain: Chain, db: Db, limit: nat)
    requires ValidChain(chain) && TipsInChain(chain, db) && AllReadable(crypto, chain)
    ensures SyncBlocks(crypto, chain, db, limit, ALL_HEALTHY).result.Synced?
    decreases limit
  {
    if limit > 0 {
      StepKeepsDestiny(crypto, chain, db);
      RoundsDoNotFail(crypto, chain, SyncOne(crypto, chain, db, HEALTHY).db, limit - 1);
    }
  }

  /** A round whose commits fail anywhere either fails itself or is the healthy round. */
  lemma {:induction false} SucceedingRoundIsHealthy(crypto: Crypto, chain: Chain, db: Db, limit: nat,
                                                    ok: nat -> Commits)
    requires SyncBlocks(crypto, chain, db, limit, ok).result.Synced?
    ensures SyncBlocks(crypto, chain, db, limit, ok) == SyncBlocks(crypto, chain, db, limit, ALL_HEALTHY)
    decreases limit
  {
    if limit > 0 {
      var s := SyncOne(crypto, chain, db, ok(limit));
      assert s == SyncOne(crypto, chain, db, HEALTHY);
      if s.result == Synced(false) {
        SucceedingRoundIsHealthy(crypto, chain, s.db, limit - 1, ok);
      }
    }
  }

  lemma {:induction false} HealthyAnswers(crypto: Crypto, chain: Chain, db: Db, limit: nat, ok: nat -> Commits)
    requires forall i: nat :: ok(i) == HEALTHY
    ensures SyncBlocks(crypto, chain, db, limit, ok) == SyncBlocks(crypto, chain, db, limit, ALL_HEALTHY)
    decreases limit
  {
    if limit > 0 {
      HealthyAnswers(crypto, chain, SyncOne(crypto, chain, db, HEALTHY).db, limit - 1, ok);
    }
  }

  lemma {:induction false} AnyRoundKeepsTips(crypto: Crypto, chain: Chain, db: Db, limit: nat, ok: nat -> Commits)
    requires ValidChain(chain) && TipsInChain(chain, db)
    ensures TipsInChain(chain, SyncBlocks(crypto, chain, db, limit, ok).db)
    decreases limit
  {
    if limit > 0 {
      StepKeepsTips(crypto, chain, db, ok(limit));
      AnyRoundKeepsTips(crypto, chain, SyncOne(crypto, chain, db, ok(limit)).db, limit - 1, ok);
    }
  }

  /** Whatever commits fail inside a round, the index stays the scan of a longer history. */
  lemma {:induction false} RoundKeepsIndex(crypto: Crypto, chain: Chain, db: Db, history: seq<Commitment>,
                                           limit: nat, ok: nat -> Commits) returns (history': seq<Commitment>)
    requires IndexInv(crypto, chain, db, history)
    ensures history <= history'
    ensures IndexInv(crypto, chain, SyncBlocks(crypto, chain, db, limit, ok).db, history')
    decreases limit
  {
    history' := history;
    if limit > 0 {
      StepKeepsIndex(crypto, chain, db, history, ok(limit));
      var s := SyncOne(crypto, chain, db, ok(limit));
      history' := Recorded(history, s);
      if s.result == Synced(false) {
        history' := RoundKeepsIndex(crypto, chain, s.db, history', limit - 1, ok);
      }
    }
  }

  /** The database after `n` healthy calls of `sync_blocks` over a fixed tree. */
  function AfterRounds(crypto: Crypto, chain: Chain, db: Db, limit: nat, n: nat): Db
    decreases n
  {
    if n == 0 then db
    else AfterRounds(crypto, chain, SyncBlocks(crypto, chain, db, limit, ALL_HEALTHY).db, limit, n - 1)
  }

  function Less(k: nat, n: nat): nat { if n <= k then k - n else 0 }

  /** `k` blocks are reached; `destined` says whether `h` is indexed or among them. */
  ghost predicate Todo(chain: Chain, db: Db, k: nat, h: Hash, destined: bool)
  {
    && TipsInChain(chain, db)
    && |ReachedSet(chain, db)| == k
    && Destined(chain, db, h) == destined
  }

  lemma {:induction false} RoundStep(crypto: Crypto, chain: Chain, db: Db, limit: nat, k: nat, h: Hash, destined: bool)
    requires ValidChain(chain) && AllReadable(crypto, chain) && limit >= 2 && Todo(chain, db, k, h, destined)
    ensures var r := SyncBlocks(crypto, chain, db, limit, ALL_HEALTHY);
            r.result == Synced(k > 0) && Todo(chain, r.db, Less(k, 1), h, destined)
  {
    RoundKeepsDestiny(crypto, chain, db, limit);
    assert |ReachedSet(chain, db)| == 0 <==> ReachedSet(chain, db) == {};
    assert Destined(chain, SyncBlocks(crypto, chain, db, limit, ALL_HEALTHY).db, h) <==> Destined(chain, db, h);
  }

  lemma {:induction false} RoundsShrink(crypto: Crypto, chain: Chain, db: Db, limit: nat, k: nat, n: nat,
                                        h: Hash, destined: bool)
    requires ValidChain(chain) && AllReadable(crypto, chain) && limit >= 2 && Todo(chain, db, k, h, destined)
    ensures Todo(chain, AfterRounds(crypto, chain, db, limit, n), Less(k, n), h, destined)
    decreases n
  {
    if n == 0 {
      assert AfterRounds(crypto, chain, db, limit, n) == db;
    } else {
      RoundStep(crypto, chain, db, limit, k, h, destined);
      var next := SyncBlocks(crypto, chain, db, limit, ALL_HEALTHY).db;
      RoundsShrink(crypto, chain, next, limit, Less(k, 1), n - 1, h, destined);
      assert AfterRounds(crypto, chain, db, limit, n) == AfterRounds(crypto, chain, next, limit, n - 1);
    }
  }

  lemma {:induction false} NothingReached(chain: Chain, db: Db, h: Hash)
    requires ValidChain(chain) && |ReachedSet(chain, db)| == 0
    ensures !Reached(chain, db, h)
  {
    assert ReachedSet(chain, db) == {};
    if Reached(chain, db, h) {
      ReachedOnce(chain, db, h);
    }
  }

  /**
   * From any database whose tips lie in a readable tree, whatever was lost before: the rounds that
   * report progress are exactly the first `|ReachedSet|` ones, and from then on a block is indexed if
   * and only if it was indexed at the start, or some tip or leaf climbed to it through unindexed blocks.
   */
  lemma {:induction false} RoundsIndexReached(crypto: Crypto, chain: Chain, db: Db, limit: nat, n: nat)
    requires ValidChain(chain) && TipsInChain(chain, db) && AllReadable(crypto, chain) && limit >= 2
    ensures var u := |ReachedSet(chain, db)|;
            var now := AfterRounds(crypto, chain, db, limit, n);
            && SyncBlocks(crypto, chain, now, limit, ALL_HEALTHY).result == Synced(n < u)
            && (n >= u ==> forall h :: IsSynced(now, h) <==> IsSynced(db, h) || Reached(chain, db, h))
  {
    var u := |ReachedSet(chain, db)|;
    var now := AfterRounds(crypto, chain, db, limit, n);
    forall h ensures Todo(chain, now, Less(u, n), h, Destined(chain, db, h)) {
      RoundsShrink(crypto, chain, db, limit, u, n, h, Destined(chain, db, h));
    }
    RoundStep(crypto, chain, now, limit, Less(u, n), 0, Destined(chain, db, 0));
    if n >= u {
      forall h ensures IsSynced(now, h) <==> Destined(chain, db, h) {
        assert Todo(chain, now, 0, h, Destined(chain, db, h));
        NothingReached(chain, now, h);
      }
    }
  }

  /**
   * The same for every reachable state: after any imports and any commits failing in between, once
   * the rounds report nothing left, exactly the indexed and the reached blocks are indexed.
   */
  lemma {:induction false} EveryRunEndsWithReached(crypto: Crypto, chain: Chain, events: seq<Event>,
                                                   limit: nat, n: nat, h: Hash)
    requires ValidChain(chain) && limit >= 2
    requires AllReadable(crypto, RunEvents(crypto, State(chain, EMPTY, []), events).chain)
    ensures var s := RunEvents(crypto, State(chain, EMPTY, []), events);
            var now := AfterRounds(crypto, s.chain, s.db, limit, n);
            SyncBlocks(crypto, s.chain, now, limit, ALL_HEALTHY).result == Synced(false) ==>
              (IsSynced(now, h) <==> IsSynced(s.db, h) || Reached(s.chain, s.db, h))
  {
    var s := RunEvents(crypto, State(chain, EMPTY, []), events);
    ReachableTips(crypto, chain, events);
    RoundsIndexReached(crypto, s.chain, s.db, limit, n);
  }

  // ---- Unreadable blocks ----

  /** The next block to work on cannot be read. */
  predicate Stuck(crypto: Crypto, chain: Chain, db: Db)
  {
    var left := PopSynced(db, Worklist(chain, db));
    left != [] && CommitmentOf(crypto, chain, Last(left)).Err?
  }

  /** Over that tree every round then fails and changes nothing, for good. */
  lemma {:induction false} StuckForever(crypto: Crypto, chain: Chain, db: Db, limit: nat, n: nat)
    requires Stuck(crypto, chain, db) && limit > 0
    ensures SyncBlocks(crypto, chain, db, limit, ALL_HEALTHY).result.Failed?
    ensures AfterRounds(crypto, chain, db, limit, n) == db
    decreases n
  {
    if n > 0 {
      StuckForever(crypto, chain, db, limit, n - 1);
    }
  }

  /** A round keeps what is indexed, adds only readable blocks, and fails only by getting stuck. */
  lemma {:induction false} RoundAddsReadable(crypto: Crypto, chain: Chain, db: Db, limit: nat, h: Hash)
    requires ValidChain(chain) && TipsInChain(chain, db)
    ensures var r := SyncBlocks(crypto, chain, db, limit, ALL_HEALTHY);
            && (IsSynced(db, h) ==> IsSynced(r.db, h))
            && (IsSynced(r.db, h) && !IsSynced(db, h) ==> CommitmentOf(crypto, chain, h).Ok?)
            && (r.result.Failed? ==> Stuck(crypto, chain, r.db))
    decreases limit
  {
    if limit > 0 {
      StepCases(crypto, chain, db);
      StepKeepsTips(crypto, chain, db, HEALTHY);
      var s := SyncOne(crypto, chain, db, HEALTHY);
      if s.result == Synced(false) {
        RoundAddsReadable(crypto, chain, s.db, limit - 1, h);
      } else if s.result == Synced(true) {
        assert IsSynced(s.db, h) <==> IsSynced(db, h) || h == Last(PopSynced(db, Worklist(chain, db)));
      }
    }
  }

  /** `h` was not lost on the way, and is in the index only if it was there or is readable. */
  predicate Grew(crypto: Crypto, chain: Chain, db: Db, now: Db, h: Hash)
  {
    && (IsSynced(db, h) ==> IsSynced(now, h))
    && (IsSynced(now, h) && !IsSynced(db, h) ==> CommitmentOf(crypto, chain, h).Ok?)
  }

  /** What rounds from `db` keep on the way to `now`. */
  ghost predicate Leads(crypto: Crypto, chain: Chain, db: Db, now: Db)
  {
    && TipsInChain(chain, now) && SameDestiny(chain, now, db)
    && forall h {:trigger Grew(crypto, chain, db, now, h)} :: Grew(crypto, chain, db, now, h)
  }

  /** Stuck, or with nothing reached any more. */
  ghost predicate Over(crypto: Crypto, chain: Chain, now: Db)
  {
    Stuck(crypto, chain, now) || ReachedSet(chain, now) == {}
  }

  lemma {:induction false} LeadsNowhere(crypto: Crypto, chain: Chain, db: Db)
    requires TipsInChain(chain, db)
    ensures Leads(crypto, chain, db, db)
  {
  }

  lemma {:induction false} LeadsOn(crypto: Crypto, chain: Chain, db: Db, next: Db, now: Db)
    requires Leads(crypto, chain, db, next) && Leads(crypto, chain, next, now)
    ensures Leads(crypto, chain, db, now)
  {
    forall h ensures Destined(chain, now, h) <==> Destined(chain, db, h) {
      assert Destined(chain, now, h) <==> Destined(chain, next, h);
      assert Destined(chain, next, h) <==> Destined(chain, db, h);
    }
    forall h ensures Grew(crypto, chain, db, now, h) {
      assert Grew(crypto, chain, db, next, h) && Grew(crypto, chain, next, now, h);
    }
  }

  /** One round leads on; if it does not get stuck, fewer blocks are reached after it. */
  lemma {:induction false} RoundLeads(crypto: Crypto, chain: Chain, db: Db, limit: nat)
    requires ValidChain(chain) && TipsInChain(chain, db) && limit >= 2 && ReachedSet(chain, db) != {}
    ensures var next := SyncBlocks(crypto, chain, db, limit, ALL_HEALTHY).db;
            && Leads(crypto, chain, db, next) && |ReachedSet(chain, db)| >= 1
            && (Stuck(crypto, chain, next) || |ReachedSet(chain, next)| < |ReachedSet(chain, db)|)
  {
    RoundKeepsDestiny(crypto, chain, db, limit);
    RoundAddsReadable(crypto, chain, db, limit, 0);
    var next := SyncBlocks(crypto, chain, db, limit, ALL_HEALTHY).db;
    forall h ensures Grew(crypto, chain, db, next, h) {
      RoundAddsReadable(crypto, chain, db, limit, h);
    }
  }

  lemma {:induction false} OneRound(crypto: Crypto, chain: Chain, db: Db, limit: nat, n: nat)
    requires n > 0
    ensures AfterRounds(crypto, chain, db, limit, n)
            == AfterRounds(crypto, chain, SyncBlocks(crypto, chain, db, limit, ALL_HEALTHY).db, limit, n - 1)
    ensures AfterRounds(crypto, chain, db, limit, 0) == db
  {
  }

  lemma {:induction false} RoundsEnd(crypto: Crypto, chain: Chain, db: Db, limit: nat) returns (n: nat, now: Db)
    requires ValidChain(chain) && TipsInChain(chain, db) && limit >= 2
    ensures n <= |ReachedSet(chain, db)| && now == AfterRounds(crypto, chain, db, limit, n)
    ensures Leads(crypto, chain, db, now) && Over(crypto, chain, now)
    decreases |ReachedSet(chain, db)|
  {
    if Over(crypto, chain, db) {
      n, now := 0, db;
      LeadsNowhere(crypto, chain, db);
    } else {
      RoundLeads(crypto, chain, db, limit);
      var next := SyncBlocks(crypto, chain, db, limit, ALL_HEALTHY).db;
      if Stuck(crypto, chain, next) {
        n, now := 1, next;
      } else {
        n, now := RoundsEnd(crypto, chain, next, limit);
        n := n + 1;
        LeadsOn(crypto, chain, db, next, now);
      }
      OneRound(crypto, chain, db, limit, n);
      OneRound(crypto, chain, next, limit, 1);
    }
  }

  /** Nothing is reached, and the index is the given one. */
  ghost predicate DoneAt(chain: Chain, db: Db, synced: map<Hash, bool>)
  {
    TipsInChain(chain, db) && ReachedSet(chain, db) == {} && db.synced == synced
  }

  lemma {:induction false} RoundStaysDone(crypto: Crypto, chain: Chain, db: Db, limit: nat)
    requires ValidChain(chain) && limit >= 2 && DoneAt(chain, db, db.synced)
    ensures DoneAt(chain, SyncBlocks(crypto, chain, db, limit, ALL_HEALTHY).db, db.synced)
  {
    RoundKeepsDestiny(crypto, chain, db, limit);
  }

  /** Once nothing is reached, rounds index nothing more. */
  lemma {:induction false} DoneForever(crypto: Crypto, chain: Chain, db: Db, limit: nat, n: nat)
    requires ValidChain(chain) && limit >= 2 && DoneAt(chain, db, db.synced)
    ensures AfterRounds(crypto, chain, db, limit, n).synced == db.synced
    decreases n
  {
    if n > 0 {
      RoundStaysDone(crypto, chain, db, limit);
      OneRound(crypto, chain, db, limit, n);
      DoneForever(crypto, chain, SyncBlocks(crypto, chain, db, limit, ALL_HEALTHY).db, limit, n - 1);
    }
  }

  lemma {:induction false} StuckAtReached(crypto: Crypto, chain: Chain, db: Db, now: Db)
    requires ValidChain(chain) && Leads(crypto, chain, db, now) && Stuck(crypto, chain, now)
    ensures exists h :: Reached(chain, db, h) && CommitmentOf(crypto, chain, h).Err?
  {
    var op := Last(PopSynced(now, Worklist(chain, now)));
    StepCases(crypto, chain, now);
    assert Destined(chain, now, op) <==> Destined(chain, db, op);
    assert Grew(crypto, chain, db, now, op);
    assert Reached(chain, db, op);
  }

  lemma {:induction false} DoneReadable(crypto: Crypto, chain: Chain, db: Db, now: Db, h: Hash)
    requires ValidChain(chain) && Leads(crypto, chain, db, now) && ReachedSet(chain, now) == {}
    requires Reached(chain, db, h)
    ensures CommitmentOf(crypto, chain, h).Ok?
  {
    ReachedOnce(chain, db, h);
    assert Destined(chain, now, h) <==> Destined(chain, db, h);
    NothingReached(chain, now, h);
    assert Grew(crypto, chain, db, now, h);
  }

  lemma {:induction false} LeftOut(crypto: Crypto, chain: Chain, db: Db, now: Db, h: Hash)
    requires ValidChain(chain) && Leads(crypto, chain, db, now)
    ensures IsSynced(now, h) <==> Destined(chain, db, h) && !Reached(chain, now, h)
  {
    assert Destined(chain, now, h) <==> Destined(chain, db, h);
    if Reached(chain, now, h) {
      ReachedOnce(chain, now, h);
    }
  }

  /**
   * Over any tree, readable or not: after at most as many rounds as there are reached blocks the index
   * stays as it is for good. It is then stuck if and only if some reached block is unreadable, and what it
   * leaves out of the destined blocks are exactly those still reached; if it is not stuck, there are none.
   */
  lemma {:induction false} RoundsEndOrStall(crypto: Crypto, chain: Chain, db: Db, limit: nat, m: nat)
    returns (n: nat, now: Db)
    requires ValidChain(chain) && TipsInChain(chain, db) && limit >= 2
    ensures n <= |ReachedSet(chain, db)| && now == AfterRounds(crypto, chain, db, limit, n)
    ensures Stuck(crypto, chain, now) <==> exists h :: Reached(chain, db, h) && CommitmentOf(crypto, chain, h).Err?
    ensures !Stuck(crypto, chain, now) ==> ReachedSet(chain, now) == {}
    ensures forall h :: IsSynced(now, h) <==> Destined(chain, db, h) && !Reached(chain, now, h)
    ensures AfterRounds(crypto, chain, now, limit, m).synced == now.synced
  {
    n, now := RoundsEnd(crypto, chain, db, limit);
    if Stuck(crypto, chain, now) {
      StuckForever(crypto, chain, now, limit, m);
      StuckAtReached(crypto, chain, db, now);
    } else {
      DoneForever(crypto, chain, now, limit, m);
      forall h | Reached(chain, db, h) ensures CommitmentOf(crypto, chain, h).Ok? {
        DoneReadable(crypto, chain, db, now, h);
      }
    }
    forall h ensures IsSynced(now, h) <==> Destined(chain, db, h) && !Reached(chain, now, h) {
      LeftOut(crypto, chain, db, now, h);
    }
  }

  // ---- Covered databases: everything is reached ----

  /** In a covered database some tip or leaf climbs to every block not indexed yet. */
  lemma {:induction false} CoveredReaches(chain: Chain, db: Db, h: Hash)
    requires ValidChain(chain) && CoverInv(chain, db) && h in Unindexed(chain, db)
    ensures Reached(chain, db, h)
    decreases set x | x in chain.headers && chain.headers[x].number > chain.headers[h].number
  {
    if Start(chain, db, h) {
      assert Climbs(chain, db, h, h, 0);
    } else {
      assert WellPlaced(chain, h);
      var c :| c in chain.headers && chain.headers[c].number > 0 && chain.headers[c].parent == h;
      assert WellPlaced(chain, c) && Covered(chain, db, c);
      var above := set x | x in chain.headers && chain.headers[x].number > chain.headers[h].number;
      var higher := set x | x in chain.headers && chain.headers[x].number > chain.headers[c].number;
      assert c in above && c !in higher && higher <= above;
      CoveredReaches(chain, db, c);
      var s, n: nat :| Start(chain, db, s) && Climbs(chain, db, s, c, n);
      ClimbOneMore(chain, db, s, c, n);
    }
  }

  lemma {:induction false} CoveredReachesAll(chain: Chain, db: Db)
    requires ValidChain(chain) && CoverInv(chain, db)
    ensures ReachedSet(chain, db) == Unindexed(chain, db)
  {
    forall h | h in chain.headers ensures Reached(chain, db, h) <==> h in Unindexed(chain, db) {
      if h in Unindexed(chain, db) {
        CoveredReaches(chain, db, h);
      } else if Reached(chain, db, h) {
        ReachedOnce(chain, db, h);
      }
    }
  }

  /** With an empty stack and all leaves indexed, a covered database has indexed everything. */
  lemma {:induction false} LeavesCoverTree(chain: Chain, db: Db, h: Hash)
    requires ValidChain(chain) && CoverInv(chain, db) && db.tips == []
    requires forall l :: l in chain.leaves ==> IsSynced(db, l)
    requires h in chain.headers
    ensures IsSynced(db, h)
  {
    if !IsSynced(db, h) {
      CoveredReaches(chain, db, h);
    }
  }

  /** The block `n` generations up. */
  ghost function Ancestor(chain: Chain, h: Hash, n: nat): (a: Hash)
    requires ValidChain(chain) && h in chain.headers && n <= chain.headers[h].number
    ensures a in chain.headers && chain.headers[a].number == chain.headers[h].number - n
    decreases n
  {
    assert WellPlaced(chain, h);
    if n == 0 then h else Ancestor(chain, chain.headers[h].parent, n - 1)
  }

  /** When the stack of tips is empty, the indexed set is closed under ancestors. */
  lemma {:induction false} EmptyStackClosed(chain: Chain, db: Db, h: Hash, n: nat)
    requires ValidChain(chain) && CoverInv(chain, db) && db.tips == []
    requires h in chain.headers && IsSynced(db, h) && n <= chain.headers[h].number
    ensures IsSynced(db, Ancestor(chain, h, n))
    decreases n
  {
    if n > 0 {
      assert Covered(chain, db, h) && WellPlaced(chain, h);
      EmptyStackClosed(chain, db, chain.headers[h].parent, n - 1);
    }
  }

  lemma {:induction false} RoundKeepsCover(crypto: Crypto, chain: Chain, db: Db, limit: nat)
    requires ValidChain(chain) && CoverInv(chain, db)
    ensures CoverInv(chain, SyncBlocks(crypto, chain, db, limit, ALL_HEALTHY).db)
    decreases limit
  {
    if limit > 0 {
      StepKeepsCoverExactly(crypto, chain, db, HEALTHY);
      RoundKeepsCover(crypto, chain, SyncOne(crypto, chain, db, HEALTHY).db, limit - 1);
    }
  }

  /**
   * One round from a covered database: it indexes at most one block, and answers "nothing left"
   * exactly when every block of the tree is indexed.
   */
  lemma {:induction false} RoundProgress(crypto: Crypto, chain: Chain, db: Db, limit: nat)
    requires ValidChain(chain) && CoverInv(chain, db) && limit >= 2
    ensures var r := SyncBlocks(crypto, chain, db, limit, ALL_HEALTHY);
            && CoverInv(chain, r.db)
            && (r.result == Synced(true) ==> |Unindexed(chain, r.db)| == |Unindexed(chain, db)| - 1)
            && (r.result != Synced(true) ==> Unindexed(chain, r.db) == Unindexed(chain, db))
            && (r.result == Synced(false) <==> Unindexed(chain, db) == {})
            && (AllReadable(crypto, chain) ==> r.result.Synced?)
  {
    RoundKeepsDestiny(crypto, chain, db, limit);
    RoundKeepsCover(crypto, chain, db, limit);
    CoveredReachesAll(chain, db);
    CoveredReachesAll(chain, SyncBlocks(crypto, chain, db, limit, ALL_HEALTHY).db);
  }

  /**
   * From any covered state over a fixed, readable tree, the rounds that report progress are exactly
   * the first `|Unindexed|` ones; from then on every block is indexed.
   */
  lemma {:induction false} RoundsCountUnindexed(crypto: Crypto, chain: Chain, db: Db, limit: nat, n: nat)
    requires ValidChain(chain) && CoverInv(chain, db) && AllReadable(crypto, chain) && limit >= 2
    ensures var u := |Unindexed(chain, db)|;
            var now := AfterRounds(crypto, chain, db, limit, n);
            && SyncBlocks(crypto, chain, now, limit, ALL_HEALTHY).result == Synced(n < u)
            && (n >= u ==> forall h :: h in chain.headers ==> IsSynced(now, h))
  {
    RoundsIndexReached(crypto, chain, db, limit, n);
    CoveredReachesAll(chain, db);
    forall h | h in chain.headers ensures IsSynced(db, h) || Reached(chain, db, h) {
      assert h in Unindexed(chain, db) <==> h in ReachedSet(chain, db);
    }
  }
}
