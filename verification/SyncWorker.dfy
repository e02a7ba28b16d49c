/** The worker that calls `sync_blocks` when woken (client/mapping-sync/src/worker.rs). */
module SyncWorker {
  import opened Prelude
  import opened EthTypes
  import opened MappingDb
  import opened MappingSync
  import opened SyncProgress

  /** A round of the worker, whatever the database answers. */
  lemma {:induction false} RoundOutcome(crypto: Crypto, chain: Chain, db: Db, ok: nat -> Commits)
    requires ValidChain(chain) && TipsInChain(chain, db)
    ensures var r := SyncBlocks(crypto, chain, db, LIMIT, ok);
            && TipsInChain(chain, r.db)
            && (r.result == Synced(true) ==> |ReachedSet(chain, r.db)| == |ReachedSet(chain, db)| - 1)
            && (r.result.Synced? ==> r.result.any == (ReachedSet(chain, db) != {}))
            && (r.result == Synced(false) ==> ReachedSet(chain, r.db) == {})
            && (r.result.Failed? && AllReadable(crypto, chain) ==> exists i: nat :: ok(i) != HEALTHY)
            && (r.result.Synced? && CoverInv(chain, db) ==>
                  CoverInv(chain, r.db) && ReachedSet(chain, r.db) == Unindexed(chain, r.db))
  {
    var r := SyncBlocks(crypto, chain, db, LIMIT, ok);
    AnyRoundKeepsTips(crypto, chain, db, LIMIT, ok);
    RoundKeepsDestiny(crypto, chain, db, LIMIT);
    if r.result.Synced? {
      SucceedingRoundIsHealthy(crypto, chain, db, LIMIT, ok);
      if CoverInv(chain, db) {
        RoundKeepsCover(crypto, chain, db, LIMIT);
        CoveredReachesAll(chain, r.db);
      }
    } else if forall i: nat :: ok(i) == HEALTHY {
      HealthyAnswers(crypto, chain, db, LIMIT, ok);
    }
  }

  datatype Poll = Pending | Item | Closed

  class MappingSyncWorker {
    const backend: Backend
    var delayArmed: bool
    var haveNext: bool
    /** Whether the last sync round ended in an error. */
    ghost var failed: bool

    constructor (backend: Backend)
      ensures this.backend == backend && haveNext && !failed
    {
      this.backend := backend;
      delayArmed, haveNext, failed := false, true, false;
    }

    /** When the worker has nothing scheduled and did not fail, no block is left that its rounds reach. */
    ghost predicate IdleMeansDone(chain: Chain)
      reads this, backend
    {
      !haveNext && !failed ==> ReachedSet(chain, backend.db) == {}
    }

    /**
     * One poll. `imports` is the number of import notifications waiting, `open` whether the
     * notification stream is still open behind them, `elapsed` whether the armed delay has run out,
     * `ok` the database's answers to the commits of the round.
     */
    method PollNext(crypto: Crypto, chain: Chain, imports: nat, open: bool, elapsed: bool, ok: nat -> Commits)
      returns (p: Poll)
      requires ValidChain(chain) && TipsInChain(chain, backend.db)
      modifies this, backend
      ensures TipsInChain(chain, backend.db)
      ensures p.Item? || old(IdleMeansDone(chain)) ==> IdleMeansDone(chain)
      ensures p.Closed? <==> !open
      ensures p.Closed? ==> backend.db == old(backend.db) && haveNext == old(haveNext)
      ensures p.Pending? <==> open && imports == 0 && !elapsed && !old(haveNext)
      ensures p.Pending? ==> backend.db == old(backend.db) && haveNext == old(haveNext) && failed == old(failed)
      ensures p.Pending? ==> delayArmed
      ensures p.Item? ==> !delayArmed
      ensures p.Item? ==>
                var round := SyncBlocks(crypto, chain, old(backend.db), LIMIT, ok);
                && backend.db == round.db && haveNext == (round.result == Synced(true))
                && failed == round.result.Failed?
      ensures p.Item? && !failed ==>
                && haveNext == (ReachedSet(chain, old(backend.db)) != {})
                && (haveNext ==> |ReachedSet(chain, backend.db)| == |ReachedSet(chain, old(backend.db))| - 1)
      ensures p.Item? && failed && AllReadable(crypto, chain) ==> exists i: nat :: ok(i) != HEALTHY
      ensures old(CoverInv(chain, backend.db)) && (p.Item? ==> !failed) ==>
                && CoverInv(chain, backend.db)
                && (IdleMeansDone(chain) && !haveNext && !failed ==> Unindexed(chain, backend.db) == {})
    {
      ghost var before := backend.db;
      var fire := false;
      var waiting: nat := imports;
      while waiting > 0
        invariant fire <==> waiting < imports
        invariant waiting <= imports
        invariant haveNext == old(haveNext) && failed == old(failed) && unchanged(backend)
      {
        fire := true;
        waiting := waiting - 1;
      }
      if CoverInv(chain, before) {
        CoveredReachesAll(chain, before);
      }
      if !open {
        return Closed;
      }
      delayArmed := true;
      if elapsed {
        fire := true;
      }
      if haveNext {
        fire := true;
      }
      if !fire {
        return Pending;
      }
      delayArmed := false;
      RoundOutcome(crypto, chain, before, ok);
      var r := SyncManyBlocks(crypto, chain, backend, LIMIT, ok);
      haveNext := r.Synced? && r.any;
      failed := r.Failed?;
      return Item;
    }
  }
}
