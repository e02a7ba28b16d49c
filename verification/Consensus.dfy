/** Digest logs of the Ethereum layer (primitives/consensus/src/lib.rs). */
module Consensus {
  import opened Prelude
  import opened EthTypes

  /** The engine identifier: the four bytes of "fron", big-endian. */
  const ENGINE_ID: nat := 0x66_72_6f_6e

  datatype Hashes = Hashes(blockHash: Hash, transactionHashes: seq<Hash>)

  datatype PreLog = PreBlock(block: Block)

  datatype PostLog = PostHashes(hashes: Hashes) | PostBlock(block: Block)

  datatype Log = Pre(pre: PreLog) | Post(post: PostLog)

  /** A digest item; the option is what its bytes decode to, if they decode at all. */
  datatype DigestItem =
    | PreRuntime(engine: nat, pre: Option<PreLog>)
    | Consensus(engine: nat, post: Option<PostLog>)
    | Unrelated(id: nat)

  type Digest = seq<DigestItem>

  datatype FindLogError = NotFound | MultipleLogs

  function TryPre(item: DigestItem): Option<PreLog>
  {
    if item.PreRuntime? && item.engine == ENGINE_ID then item.pre else None
  }

  function TryPost(item: DigestItem): Option<PostLog>
  {
    if item.Consensus? && item.engine == ENGINE_ID then item.post else None
  }

  // ---- Specification: the logs a digest holds, in order ----

  function PreLogs(d: Digest): seq<PreLog>
  {
    if d == [] then []
    else if TryPre(Last(d)).Some? then PreLogs(Init(d)) + [TryPre(Last(d)).value]
    else PreLogs(Init(d))
  }

  function PostLogs(d: Digest): seq<PostLog>
  {
    if d == [] then []
    else if TryPost(Last(d)).Some? then PostLogs(Init(d)) + [TryPost(Last(d)).value]
    else PostLogs(Init(d))
  }

  function Logs(d: Digest): seq<Log>
  {
    if d == [] then []
    else if TryPre(Last(d)).Some? then Logs(Init(d)) + [Pre(TryPre(Last(d)).value)]
    else if TryPost(Last(d)).Some? then Logs(Init(d)) + [Post(TryPost(Last(d)).value)]
    else Logs(Init(d))
  }

  /** An item that carries no log of this engine. */
  predicate Foreign(item: DigestItem)
  {
    TryPre(item).None? && TryPost(item).None?
  }

  /** The items that carry a pre-log and a post-log: the kind, the four bytes "fron", and bytes that decode. */
  predicate CarriesPre(item: DigestItem) { item.PreRuntime? && item.engine == 0x66_72_6f_6e && item.pre.Some? }

  predicate CarriesPost(item: DigestItem) { item.Consensus? && item.engine == 0x66_72_6f_6e && item.post.Some? }

  /** The only log there is, or the reason there is not exactly one. */
  function TheOnly<T>(logs: seq<T>): Result<T, FindLogError>
  {
    if |logs| == 0 then Err(NotFound) else if |logs| == 1 then Ok(logs[0]) else Err(MultipleLogs)
  }

  lemma {:induction false} LogsPrefix(d: Digest, i: nat)
    requires i <= |d|
    ensures Logs(d[..i]) <= Logs(d) && PreLogs(d[..i]) <= PreLogs(d) && PostLogs(d[..i]) <= PostLogs(d)
    decreases |d|
  {
    if i < |d| {
      LogsPrefix(Init(d), i);
      assert Init(d)[..i] == d[..i];
    } else {
      assert d[..i] == d;
    }
  }

  /** Every log is either a pre-log or a post-log. */
  lemma {:induction false} LogCount(d: Digest)
    ensures |Logs(d)| == |PreLogs(d)| + |PostLogs(d)|
  {
    if d != [] {
      LogCount(Init(d));
    }
  }

  /** A log list is empty exactly if no item carries a log of its kind. */
  lemma {:induction false} NoLogs(d: Digest)
    ensures PreLogs(d) == [] <==> forall i :: 0 <= i < |d| ==> !CarriesPre(d[i])
    ensures PostLogs(d) == [] <==> forall i :: 0 <= i < |d| ==> !CarriesPost(d[i])
    ensures Logs(d) == [] <==> forall i :: 0 <= i < |d| ==> !CarriesPre(d[i]) && !CarriesPost(d[i])
  {
    if d != [] {
      NoLogs(Init(d));
      assert CarriesPre(Last(d)) <==> CarriesPre(d[|d| - 1]);
      assert CarriesPost(Last(d)) <==> CarriesPost(d[|d| - 1]);
    }
  }

  /** Position `i` carries a pre-log and no other does. */
  predicate OnlyPreAt(d: Digest, i: nat)
  {
    i < |d| && CarriesPre(d[i]) && forall j :: 0 <= j < |d| && j != i ==> !CarriesPre(d[j])
  }

  predicate OnlyPostAt(d: Digest, i: nat)
  {
    i < |d| && CarriesPost(d[i]) && forall j :: 0 <= j < |d| && j != i ==> !CarriesPost(d[j])
  }

  /** Position `i` carries a log of either kind and no other does. */
  predicate OnlyLogAt(d: Digest, i: nat)
  {
    && i < |d| && (CarriesPre(d[i]) || CarriesPost(d[i]))
    && forall j :: 0 <= j < |d| && j != i ==> !CarriesPre(d[j]) && !CarriesPost(d[j])
  }

  /** The only pre-log is found if and only if one position alone carries one, and then it is that one. */
  lemma {:induction false} OnlyPreLogExactly(d: Digest)
    ensures TheOnly(PreLogs(d)).Ok? <==> exists i: nat :: OnlyPreAt(d, i)
    ensures forall i: nat :: OnlyPreAt(d, i) ==> TheOnly(PreLogs(d)) == Ok(d[i].pre.value)
  {
    if d == [] {
      assert PreLogs(d) == [];
    } else {
      var init := Init(d);
      OnlyPreLogExactly(init);
      NoLogs(init);
      assert forall i: nat :: i < |init| ==> init[i] == d[i];
      if CarriesPre(Last(d)) {
        assert PreLogs(init) == [] ==> OnlyPreAt(d, |d| - 1);
        assert forall i: nat :: OnlyPreAt(d, i) ==> i == |d| - 1;
      } else {
        assert !CarriesPre(d[|d| - 1]);
        assert forall i: nat :: OnlyPreAt(d, i) <==> OnlyPreAt(init, i);
      }
    }
  }

  lemma {:induction false} OnlyPostLogExactly(d: Digest)
    ensures TheOnly(PostLogs(d)).Ok? <==> exists i: nat :: OnlyPostAt(d, i)
    ensures forall i: nat :: OnlyPostAt(d, i) ==> TheOnly(PostLogs(d)) == Ok(d[i].post.value)
  {
    if d == [] {
      assert PostLogs(d) == [];
    } else {
      var init := Init(d);
      OnlyPostLogExactly(init);
      NoLogs(init);
      assert forall i: nat :: i < |init| ==> init[i] == d[i];
      if CarriesPost(Last(d)) {
        assert PostLogs(init) == [] ==> OnlyPostAt(d, |d| - 1);
        assert forall i: nat :: OnlyPostAt(d, i) ==> i == |d| - 1;
      } else {
        assert !CarriesPost(d[|d| - 1]);
        assert forall i: nat :: OnlyPostAt(d, i) <==> OnlyPostAt(init, i);
      }
    }
  }

  /** The log of an item that carries one. */
  function LogAt(item: DigestItem): Log
    requires CarriesPre(item) || CarriesPost(item)
  {
    if item.PreRuntime? then Pre(item.pre.value) else Post(item.post.value)
  }

  lemma {:induction false} OnlyLogFound(d: Digest)
    ensures TheOnly(Logs(d)).Ok? <==> exists i: nat :: OnlyLogAt(d, i)
    ensures forall i: nat :: OnlyLogAt(d, i) ==> TheOnly(Logs(d)) == Ok(LogAt(d[i]))
  {
    if d == [] {
      assert Logs(d) == [];
    } else {
      var init := Init(d);
      OnlyLogFound(init);
      NoLogs(init);
      assert forall i: nat :: i < |init| ==> init[i] == d[i];
      if CarriesPre(Last(d)) || CarriesPost(Last(d)) {
        assert Logs(init) == [] ==> OnlyLogAt(d, |d| - 1);
        assert forall i: nat :: OnlyLogAt(d, i) ==> i == |d| - 1;
      } else {
        assert !CarriesPre(d[|d| - 1]) && !CarriesPost(d[|d| - 1]);
        assert forall i: nat :: OnlyLogAt(d, i) <==> OnlyLogAt(init, i);
      }
    }
  }

  lemma {:induction false} OnlyLogExactly(d: Digest)
    ensures TheOnly(Logs(d)).Ok? <==> exists i: nat :: OnlyLogAt(d, i)
    ensures forall i: nat :: OnlyLogAt(d, i) ==> TheOnly(Logs(d)) == Ok(LogAt(d[i]))
    ensures TheOnly(Logs(d)) == Err(NotFound) <==> forall i :: 0 <= i < |d| ==> !CarriesPre(d[i]) && !CarriesPost(d[i])
  {
    NoLogs(d);
    OnlyLogFound(d);
  }

  // ---- The searches ----

  method FindPreLog(d: Digest) returns (r: Result<PreLog, FindLogError>)
    ensures r == TheOnly(PreLogs(d))
  {
    var found: Option<PreLog> := None;
    for i := 0 to |d|
      invariant PreLogs(d[..i]) == if found.Some? then [found.value] else []
    {
      assert Init(d[..i + 1]) == d[..i];
      LogsPrefix(d, i + 1);
      var log := TryPre(d[i]);
      if log.Some? {
        if found.Some? {
          return Err(MultipleLogs);
        }
        found := log;
      }
    }
    assert d[..|d|] == d;
    return if found.Some? then Ok(found.value) else Err(NotFound);
  }

  method FindPostLog(d: Digest) returns (r: Result<PostLog, FindLogError>)
    ensures r == TheOnly(PostLogs(d))
  {
    var found: Option<PostLog> := None;
    for i := 0 to |d|
      invariant PostLogs(d[..i]) == if found.Some? then [found.value] else []
    {
      assert Init(d[..i + 1]) == d[..i];
      LogsPrefix(d, i + 1);
      var log := TryPost(d[i]);
      if log.Some? {
        if found.Some? {
          return Err(MultipleLogs);
        }
        found := log;
      }
    }
    assert d[..|d|] == d;
    return if found.Some? then Ok(found.value) else Err(NotFound);
  }

  method FindLog(d: Digest) returns (r: Result<Log, FindLogError>)
    ensures r == TheOnly(Logs(d))
  {
    var found: Option<Log> := None;
    for i := 0 to |d|
      invariant Logs(d[..i]) == if found.Some? then [found.value] else []
    {
      assert Init(d[..i + 1]) == d[..i];
      LogsPrefix(d, i + 1);
      var pre := TryPre(d[i]);
      if pre.Some? {
        if found.Some? {
          return Err(MultipleLogs);
        }
        found := Some(Pre(pre.value));
      }
      var post := TryPost(d[i]);
      if post.Some? {
        if found.Some? {
          return Err(MultipleLogs);
        }
        found := Some(Post(post.value));
      }
    }
    assert d[..|d|] == d;
    return if found.Some? then Ok(found.value) else Err(NotFound);
  }

  /** Succeeds, and fails with the same error, exactly as `FindLog` does. */
  method EnsureLog(d: Digest) returns (r: Result<(), FindLogError>)
    ensures r.Ok? <==> TheOnly(Logs(d)).Ok?
    ensures r.Ok? <==> |PreLogs(d)| + |PostLogs(d)| == 1
    ensures r.Err? ==> TheOnly(Logs(d)) == Err(r.error)
  {
    LogCount(d);
    var found := false;
    for i := 0 to |d|
      invariant |Logs(d[..i])| == if found then 1 else 0
    {
      assert Init(d[..i + 1]) == d[..i];
      LogsPrefix(d, i + 1);
      if TryPre(d[i]).Some? {
        if found {
          return Err(MultipleLogs);
        }
        found := true;
      }
      if TryPost(d[i]).Some? {
        if found {
          return Err(MultipleLogs);
        }
        found := true;
      }
    }
    assert d[..|d|] == d;
    return if found then Ok(()) else Err(NotFound);
  }

  // ---- Hashes of a block ----

  /** What `from_block` must produce: the header hash and the transaction hashes in order. */
  function HashesOf(c: Crypto, b: Block): Hashes
  {
    Hashes(BlockHash(c, b), TxHashes(c, b.transactions))
  }

  method FromBlock(c: Crypto, b: Block) returns (r: Hashes)
    ensures r == HashesOf(c, b)
  {
    var hashes: seq<Hash> := [];
    for i := 0 to |b.transactions|
      invariant hashes == TxHashes(c, b.transactions)[..i]
    {
      hashes := hashes + [c.txHash(b.transactions[i])];
    }
    r := Hashes(c.headerHash(b.header), hashes);
  }

  function IntoHashes(c: Crypto, log: Log): Hashes
  {
    match log
    case Post(PostHashes(h)) => h
    case Post(PostBlock(b)) => HashesOf(c, b)
    case Pre(PreBlock(b)) => HashesOf(c, b)
  }

  /** Whatever kind the log is: the hash of the header it announces and the transaction hashes in order. */
  lemma {:induction false} IntoHashesExactly(c: Crypto, log: Log)
    ensures forall b :: log == Pre(PreBlock(b)) || log == Post(PostBlock(b)) ==>
              && IntoHashes(c, log).blockHash == c.headerHash(b.header)
              && |IntoHashes(c, log).transactionHashes| == |b.transactions|
              && forall i :: 0 <= i < |b.transactions| ==>
                   IntoHashes(c, log).transactionHashes[i] == c.txHash(b.transactions[i])
    ensures forall h :: log == Post(PostHashes(h)) ==> IntoHashes(c, log) == h
  {
  }
}
