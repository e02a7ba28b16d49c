/**
 * The EVM substate: a linked stack of call frames kept in lock-step with the host's
 * stack of storage transactions (frame/evm/src/runner/stack.rs).
 */
module SubstateStack {
  import opened Prelude

  /** Host storage: contract slots, contract code, and every other key (nonces, balances, ...). */
  datatype Storage = Storage(slots: map<(Address, Hash), Hash>, codes: map<Address, seq<nat>>, rest: map<nat, nat>)

  /**
   * Gas metadata is opaque. `spit` makes a child's metadata; each `swallow` folds a finished
   * child into its parent, giving the parent's new metadata and whether it succeeded.
   */
  datatype Meter<!M> = Meter(
    spit: (M, nat, bool) -> M,
    swallowCommit: (M, M) -> (M, bool),
    swallowRevert: (M, M) -> (M, bool),
    swallowDiscard: (M, M) -> (M, bool))

  /** A call frame; `parent` is owned (a `Box`), hence a value. */
  datatype Frame<M> = Frame(metadata: M, deletes: set<Address>, logs: seq<EvmLog>, parent: Option<Frame<M>>)

  /** The frame stack together with the host's storage layers, the innermost one last. */
  datatype World<M> = World(frame: Frame<M>, layers: seq<Storage>)

  datatype Op<M> =
    | Enter(gasLimit: nat, isStatic: bool)
    | ExitCommit
    | ExitRevert
    | ExitDiscard
    | SetMetadata(metadata: M)
    | EmitLog(log: EvmLog)
    | SetDeleted(address: Address)
    | SetStorage(address: Address, index: Hash, value: Hash)
    | ResetStorage(address: Address)
    | SetCode(address: Address, code: seq<nat>)
    | HostWrite(key: nat, value: nat)
  {
    /** Operations that stay inside the current frame. */
    predicate Leaf() {
      !Enter? && !ExitCommit? && !ExitRevert? && !ExitDiscard?
    }
  }

  type Trace<M> = seq<Op<M>>

  /** `expect` on the root frame, or closing a storage transaction that is not open, panics. */
  datatype Outcome<M> = Panicked | Done(world: World<M>, failures: nat)

  function Depth<M>(f: Frame<M>): nat
  {
    match f.parent
    case None => 0
    case Some(p) => 1 + Depth(p)
  }

  /** `deleted`: is the address marked in this frame or in one below it? */
  predicate Deleted<M>(f: Frame<M>, address: Address)
  {
    address in f.deletes || (f.parent.Some? && Deleted(f.parent.value, address))
  }

  /** All logs of the frame stack, the outermost frame's first. */
  function AllLogs<M>(f: Frame<M>): seq<EvmLog>
  {
    match f.parent
    case None => f.logs
    case Some(p) => AllLogs(p) + f.logs
  }

  // ---- The host: set_storage, reset_storage, create_account and plain writes ----

  function WriteStorage<M>(s: Storage, op: Op<M>): Storage
  {
    match op
    case SetStorage(a, i, v) =>
      // a zero word removes the slot
      if v == 0 then s.(slots := s.slots - {(a, i)}) else s.(slots := s.slots[(a, i) := v])
    case ResetStorage(a) => s.(slots := map k | k in s.slots && k.0 != a :: s.slots[k])
    case SetCode(a, code) =>
      if code == [] then s else s.(codes := s.codes[a := code])
    case HostWrite(k, v) => s.(rest := s.rest[k := v])
    case _ => s
  }

  /** `storage`: an absent slot reads as the zero word. */
  function ReadSlot(s: Storage, a: Address, i: Hash): Hash { if (a, i) in s.slots then s.slots[(a, i)] else 0 }

  /** The value under a key, if there is one. */
  function Get<K, V>(m: map<K, V>, k: K): Option<V> { if k in m then Some(m[k]) else None }

  /**
   * What any write does to any slot, any code and any other key: it reads back what was written to it, and
   * everything else, absence included, is untouched.
   */
  lemma {:induction false} WritesReadBack<M>(s: Storage, op: Op<M>, a: Address, i: Hash, key: nat)
    ensures ReadSlot(WriteStorage(s, op), a, i) ==
            if op.SetStorage? && (a, i) == (op.address, op.index) then op.value
            else if op.ResetStorage? && a == op.address then 0
            else ReadSlot(s, a, i)
    ensures Get(WriteStorage(s, op).codes, a) ==
            if op.SetCode? && op.code != [] && op.address == a then Some(op.code) else Get(s.codes, a)
    ensures Get(WriteStorage(s, op).rest, key) ==
            if op.HostWrite? && op.key == key then Some(op.value) else Get(s.rest, key)
  {
  }

  /** Zero words are never stored. */
  predicate ZeroFree(s: Storage)
  {
    forall k :: k in s.slots ==> s.slots[k] != 0
  }

  function WriteTop<M>(layers: seq<Storage>, op: Op<M>): seq<Storage>
    requires layers != []
  {
    Init(layers) + [WriteStorage(Last(layers), op)]
  }

  // ---- One operation, and a run ----

  function LeafFrame<M>(f: Frame<M>, op: Op<M>): Frame<M>
  {
    match op
    case SetMetadata(m) => f.(metadata := m)
    case EmitLog(l) => f.(logs := f.logs + [l])
    case SetDeleted(a) => f.(deletes := f.deletes + {a})
    case _ => f
  }

  /** Leaving a frame. A failing swallow returns before the storage transaction is closed. */
  function ExitStep<M>(meter: Meter<M>, w: World<M>, op: Op<M>): (o: Outcome<M>)
    requires w.frame.parent.Some? && |w.layers| >= 2
    requires op.ExitCommit? || op.ExitRevert? || op.ExitDiscard?
    ensures o.Done? && o.world.layers != []
  {
    var parent, exited := w.frame.parent.value, w.frame;
    var n := |w.layers|;
    var swallow :=
      if op.ExitCommit? then meter.swallowCommit(parent.metadata, exited.metadata)
      else if op.ExitRevert? then meter.swallowRevert(parent.metadata, exited.metadata)
      else meter.swallowDiscard(parent.metadata, exited.metadata);
    var back := parent.(metadata := swallow.0);
    if !swallow.1 then
      Done(World(back, w.layers), 1)
    else if op.ExitCommit? then
      Done(World(back.(logs := parent.logs + exited.logs, deletes := parent.deletes + exited.deletes),
                 w.layers[..n - 2] + [w.layers[n - 1]]), 0)
    else
      Done(World(back, w.layers[..n - 1]), 0)
  }

  function Step<M>(meter: Meter<M>, w: World<M>, op: Op<M>): (o: Outcome<M>)
    requires w.layers != []
    ensures o.Done? ==> o.world.layers != []
  {
    if op.Leaf() then
      Done(World(LeafFrame(w.frame, op), WriteTop(w.layers, op)), 0)
    else if op.Enter? then
      var child := Frame(meter.spit(w.frame.metadata, op.gasLimit, op.isStatic), {}, [], Some(w.frame));
      Done(World(child, w.layers + [Last(w.layers)]), 0)
    else if w.frame.parent.None? || |w.layers| < 2 then
      Panicked
    else
      ExitStep(meter, w, op)
  }

  function Run<M>(meter: Meter<M>, w: World<M>, trace: Trace<M>): (o: Outcome<M>)
    requires w.layers != []
    ensures o.Done? ==> o.world.layers != []
  {
    if trace == [] then Done(w, 0)
    else
      match Run(meter, w, Init(trace))
      case Panicked => Panicked
      case Done(w', f) =>
        match Step(meter, w', Last(trace))
        case Panicked => Panicked
        case Done(w'', f') => Done(w'', f + f')
  }

  /**
   * Leaving a frame, with the swallow spelled out: the parent takes the swallow's metadata. If the swallow
   * fails, nothing else of the child or of the storage layers reaches it; otherwise a commit appends the
   * child's logs and deletes and keeps its layer, and a revert or discard drops all three.
   */
  lemma {:induction false} ExitExactly<M>(meter: Meter<M>, w: World<M>, op: Op<M>)
    requires w.frame.parent.Some? && |w.layers| >= 2
    requires op.ExitCommit? || op.ExitRevert? || op.ExitDiscard?
    ensures var o, parent, child := Step(meter, w, op), w.frame.parent.value, w.frame;
            var n := |w.layers|;
            var swallow := match op {
              case ExitCommit => meter.swallowCommit(parent.metadata, child.metadata)
              case ExitRevert => meter.swallowRevert(parent.metadata, child.metadata)
              case _ => meter.swallowDiscard(parent.metadata, child.metadata)
            };
            && o.Done? && o.failures == (if swallow.1 then 0 else 1)
            && o.world.frame.metadata == swallow.0 && o.world.frame.parent == parent.parent
            && (swallow.1 && op.ExitCommit? ==>
                  && o.world.frame.logs == parent.logs + child.logs
                  && o.world.frame.deletes == parent.deletes + child.deletes
                  && |o.world.layers| == n - 1 && Last(o.world.layers) == w.layers[n - 1])
            && (!(swallow.1 && op.ExitCommit?) ==>
                  o.world.frame.logs == parent.logs && o.world.frame.deletes == parent.deletes)
            && (swallow.1 && !op.ExitCommit? ==> o.world.layers == w.layers[..n - 1])
            && (!swallow.1 ==> o.world.layers == w.layers)
  {
  }

  // ---- Lock-step of frames and storage transactions ----

  /** What one operation does to the frame depth and to the number of layers. */
  lemma {:induction false} StepCounts<M>(meter: Meter<M>, w: World<M>, op: Op<M>)
    requires w.layers != []
    ensures var o := Step(meter, w, op);
            && (o.Panicked? <==> !op.Leaf() && !op.Enter? && (Depth(w.frame) == 0 || |w.layers| < 2))
            && (o.Done? ==>
                  && Depth(o.world.frame) == Depth(w.frame) + (if op.Enter? then 1 else if op.Leaf() then 0 else -1)
                  && |o.world.layers| == |w.layers| + (Depth(o.world.frame) - Depth(w.frame)) + o.failures)
  {
  }

  /**
   * Over every run, each failed swallow leaves exactly one storage transaction open for good;
   * hence frame depth and open transactions stay in lock-step exactly when no swallow fails.
   */
  lemma {:induction false} LockStep<M>(meter: Meter<M>, w: World<M>, trace: Trace<M>)
    requires w.layers != []
    requires Run(meter, w, trace).Done?
    ensures var o := Run(meter, w, trace);
            |o.world.layers| - Depth(o.world.frame) == |w.layers| - Depth(w.frame) + o.failures
    ensures var o := Run(meter, w, trace);
            |w.layers| == Depth(w.frame) + 1 ==>
              (|o.world.layers| == Depth(o.world.frame) + 1 <==> o.failures == 0)
  {
    if trace != [] {
      LockStep(meter, w, Init(trace));
      StepCounts(meter, Run(meter, w, Init(trace)).world, Last(trace));
    }
  }

  predicate AllZeroFree(layers: seq<Storage>)
  {
    forall i :: 0 <= i < |layers| ==> ZeroFree(layers[i])
  }

  lemma {:induction false} WriteKeepsZeroFree<M>(s: Storage, op: Op<M>)
    requires ZeroFree(s)
    ensures ZeroFree(WriteStorage(s, op))
  {
  }

  lemma {:induction false} StepKeepsZeroFree<M>(meter: Meter<M>, w: World<M>, op: Op<M>)
    requires w.layers != [] && AllZeroFree(w.layers) && Step(meter, w, op).Done?
    ensures AllZeroFree(Step(meter, w, op).world.layers)
  {
    WriteKeepsZeroFree(Last(w.layers), op);
  }

  /** No layer ever holds a zero word, whatever the run does. */
  lemma {:induction false} NoZeroStored<M>(meter: Meter<M>, w: World<M>, trace: Trace<M>)
    requires w.layers != [] && AllZeroFree(w.layers) && Run(meter, w, trace).Done?
    ensures AllZeroFree(Run(meter, w, trace).world.layers)
  {
    if trace != [] {
      NoZeroStored(meter, w, Init(trace));
      StepKeepsZeroFree(meter, Run(meter, w, Init(trace)).world, Last(trace));
    }
  }

  /** Exits minus enters over a trace. */
  function Descent<M>(trace: Trace<M>): int
  {
    if trace == [] then 0
    else Descent(Init(trace)) + (if Last(trace).Enter? then -1 else if Last(trace).Leaf() then 0 else 1)
  }

  lemma {:induction false} DepthFollowsTrace<M>(meter: Meter<M>, w: World<M>, trace: Trace<M>)
    requires w.layers != [] && Run(meter, w, trace).Done?
    ensures Depth(Run(meter, w, trace).world.frame) == Depth(w.frame) - Descent(trace)
  {
    if trace != [] {
      DepthFollowsTrace(meter, w, Init(trace));
    }
  }

  /** With enough open transactions, a run panics exactly when some prefix exits the root frame. */
  lemma {:induction false} PanicsExactlyAtRoot<M>(meter: Meter<M>, w: World<M>, trace: Trace<M>)
    requires |w.layers| > Depth(w.frame)
    ensures Run(meter, w, trace).Panicked? <==> exists k :: 0 <= k <= |trace| && Descent(trace[..k]) > Depth(w.frame)
  {
    if trace == [] {
      assert trace[..0] == trace;
    } else {
      var before := Init(trace);
      PanicsExactlyAtRoot(meter, w, before);
      assert forall k :: 0 <= k <= |before| ==> before[..k] == trace[..k];
      assert trace[..|trace|] == trace;
      if Run(meter, w, before).Done? {
        LockStep(meter, w, before);
        DepthFollowsTrace(meter, w, before);
        assert Descent(trace) > Depth(w.frame) <==> Run(meter, w, trace).Panicked?;
      }
    }
  }

  // ---- Which swallows fail ----

  /** The gas metadata of the frame stack, the outermost first. */
  function MetaStack<M>(f: Frame<M>): (r: seq<M>)
    ensures |r| == Depth(f) + 1 && Last(r) == f.metadata
  {
    match f.parent
    case None => [f.metadata]
    case Some(p) => MetaStack(p) + [f.metadata]
  }

  /** What a trace does to the gas metadata alone. */
  datatype Metered<M> = LeftRoot | Metered(stack: seq<M>, failures: nat)

  function MeterStep<M>(meter: Meter<M>, stack: seq<M>, op: Op<M>): (r: Metered<M>)
    requires stack != []
    ensures r.Metered? ==> r.stack != []
  {
    var n := |stack|;
    if op.SetMetadata? then Metered(Init(stack) + [op.metadata], 0)
    else if op.Leaf() then Metered(stack, 0)
    else if op.Enter? then Metered(stack + [meter.spit(Last(stack), op.gasLimit, op.isStatic)], 0)
    else if n == 1 then LeftRoot
    else
      var swallow :=
        if op.ExitCommit? then meter.swallowCommit(stack[n - 2], stack[n - 1])
        else if op.ExitRevert? then meter.swallowRevert(stack[n - 2], stack[n - 1])
        else meter.swallowDiscard(stack[n - 2], stack[n - 1]);
      Metered(stack[..n - 2] + [swallow.0], if swallow.1 then 0 else 1)
  }

  /** The metadata and the number of failing swallows, from the meter and the trace without any storage. */
  function MeterRun<M>(meter: Meter<M>, stack: seq<M>, trace: Trace<M>): (r: Metered<M>)
    requires stack != []
    ensures r.Metered? ==> r.stack != []
  {
    if trace == [] then Metered(stack, 0)
    else
      match MeterRun(meter, stack, Init(trace))
      case LeftRoot => LeftRoot
      case Metered(s, f) =>
        match MeterStep(meter, s, Last(trace))
        case LeftRoot => LeftRoot
        case Metered(s', f') => Metered(s', f + f')
  }

  predicate AllSwallowed<M>(meter: Meter<M>, stack: seq<M>, trace: Trace<M>)
    requires stack != []
  {
    var r := MeterRun(meter, stack, trace);
    r.Metered? && r.failures == 0
  }

  /** A frame differing only in its own entries has the same stack but for the last element. */
  lemma {:induction false} NewMetadata<M>(f: Frame<M>, g: Frame<M>)
    requires f.parent == g.parent
    ensures MetaStack(g) == Init(MetaStack(f)) + [g.metadata]
  {
  }

  lemma {:induction false} LeafMeters<M>(f: Frame<M>, op: Op<M>)
    requires op.Leaf()
    ensures MetaStack(LeafFrame(f, op))
            == if op.SetMetadata? then Init(MetaStack(f)) + [op.metadata] else MetaStack(f)
  {
    NewMetadata(f, LeafFrame(f, op));
    assert Init(MetaStack(f)) + [Last(MetaStack(f))] == MetaStack(f);
  }

  lemma {:induction false} StepMeters<M>(meter: Meter<M>, w: World<M>, op: Op<M>)
    requires w.layers != [] && Step(meter, w, op).Done?
    ensures var o := Step(meter, w, op);
            MeterStep(meter, MetaStack(w.frame), op) == Metered(MetaStack(o.world.frame), o.failures)
  {
    var stack := MetaStack(w.frame);
    if op.Leaf() {
      LeafMeters(w.frame, op);
    } else if !op.Enter? {
      var below := MetaStack(w.frame.parent.value);
      assert stack == below + [w.frame.metadata] && stack[|stack| - 2] == Last(below);
      assert stack[..|stack| - 2] == Init(below);
      NewMetadata(w.frame.parent.value, Step(meter, w, op).world.frame);
    }
  }

  /** Which swallows of a run fail is decided by the metadata of its frames, the meter and the trace. */
  lemma {:induction false} MetadataDecides<M>(meter: Meter<M>, w: World<M>, trace: Trace<M>)
    requires w.layers != [] && Run(meter, w, trace).Done?
    ensures var o := Run(meter, w, trace);
            MeterRun(meter, MetaStack(w.frame), trace) == Metered(MetaStack(o.world.frame), o.failures)
  {
    if trace != [] {
      MetadataDecides(meter, w, Init(trace));
      StepMeters(meter, Run(meter, w, Init(trace)).world, Last(trace));
    }
  }

  // ---- Normal forms ----

  /**
   * The open segments of a trace, outermost first: entering opens a segment, committing joins it
   * to the one below, reverting or discarding throws it away. `None` when the trace leaves the
   * frame it started in.
   */
  function Segments<M>(trace: Trace<M>): (s: Option<seq<Trace<M>>>)
    ensures s.Some? ==> s.value != []
  {
    if trace == [] then Some([[]])
    else
      var op := Last(trace);
      match Segments(Init(trace))
      case None => None
      case Some(s) =>
        var n := |s|;
        if op.Leaf() then Some(s[..n - 1] + [s[n - 1] + [op]])
        else if op.Enter? then Some(s + [[]])
        else if n == 1 then None
        else if op.ExitCommit? then Some(s[..n - 2] + [s[n - 2] + s[n - 1]])
        else Some(s[..n - 1])
  }

  predicate Balanced<M>(trace: Trace<M>)
  {
    Segments(trace).Some? && |Segments(trace).value| == 1
  }

  predicate NeverBelow<M>(trace: Trace<M>)
  {
    forall k :: 0 <= k <= |trace| ==> Descent(trace[..k]) <= 0
  }

  /** The segments exist exactly when no prefix has more exits than entries, and count the brackets left open. */
  lemma {:induction false} SegmentsExactly<M>(trace: Trace<M>)
    ensures Segments(trace).Some? <==> NeverBelow(trace)
    ensures Segments(trace).Some? ==> |Segments(trace).value| == 1 - Descent(trace)
    ensures Balanced(trace) <==> NeverBelow(trace) && Descent(trace) == 0
  {
    assert trace[..|trace|] == trace;
    if trace != [] {
      SegmentsExactly(Init(trace));
      assert forall k :: 0 <= k < |trace| ==> trace[..k] == Init(trace)[..k];
      assert NeverBelow(trace) <==> NeverBelow(Init(trace)) && Descent(trace) <= 0;
    }
  }

  /** The normal form: reverted and discarded segments erased, committed brackets dropped. */
  function NormalForm<M>(trace: Trace<M>): Trace<M>
    requires Balanced(trace)
  {
    Segments(trace).value[0]
  }

  function Concat<M>(s: seq<Trace<M>>): Trace<M>
  {
    if s == [] then [] else Concat(Init(s)) + Last(s)
  }

  // What a bracket-free trace does to a frame and to a storage.

  function LogsOf<M>(t: Trace<M>): seq<EvmLog>
  {
    if t == [] then []
    else if Last(t).EmitLog? then LogsOf(Init(t)) + [Last(t).log]
    else LogsOf(Init(t))
  }

  function DeletesOf<M>(t: Trace<M>): set<Address>
  {
    set i | 0 <= i < |t| && t[i].SetDeleted? :: t[i].address
  }

  function WriteAll<M>(s: Storage, t: Trace<M>): Storage
  {
    if t == [] then s else WriteStorage(WriteAll(s, Init(t)), Last(t))
  }

  // The last write to a slot, to the code of an account, and to any other key.

  function LastSlot<M>(t: Trace<M>, a: Address, i: Hash): Option<Hash>
  {
    if t == [] then None
    else
      match Last(t)
      case SetStorage(b, j, v) => if (a, i) == (b, j) then Some(v) else LastSlot(Init(t), a, i)
      case ResetStorage(b) => if a == b then Some(0) else LastSlot(Init(t), a, i)
      case _ => LastSlot(Init(t), a, i)
  }

  function LastCode<M>(t: Trace<M>, a: Address): Option<seq<nat>>
  {
    if t == [] then None
    else if Last(t).SetCode? && Last(t).address == a && Last(t).code != [] then Some(Last(t).code)
    else LastCode(Init(t), a)
  }

  function LastHostWrite<M>(t: Trace<M>, key: nat): Option<nat>
  {
    if t == [] then None
    else if Last(t).HostWrite? && Last(t).key == key then Some(Last(t).value)
    else LastHostWrite(Init(t), key)
  }

  function OrElse<T>(a: Option<T>, b: Option<T>): Option<T> { if a.Some? then a else b }

  /** After a bracket-free trace every slot, code and other key holds the last write to it, or the base's. */
  lemma {:induction false} LastWriteWins<M>(s: Storage, t: Trace<M>, a: Address, i: Hash, key: nat)
    ensures ReadSlot(WriteAll(s, t), a, i)
            == if LastSlot(t, a, i).Some? then LastSlot(t, a, i).value else ReadSlot(s, a, i)
    ensures Get(WriteAll(s, t).codes, a) == OrElse(LastCode(t, a), Get(s.codes, a))
    ensures Get(WriteAll(s, t).rest, key) == OrElse(LastHostWrite(t, key), Get(s.rest, key))
  {
    if t != [] {
      LastWriteWins(s, Init(t), a, i, key);
      WritesReadBack(WriteAll(s, Init(t)), Last(t), a, i, key);
    }
  }

  lemma {:induction false} WriteAllConcat<M>(s: Storage, a: Trace<M>, b: Trace<M>)
    ensures WriteAll(s, a + b) == WriteAll(WriteAll(s, a), b)
  {
    if b == [] {
      assert a + b == a;
    } else {
      assert Init(a + b) == a + Init(b) && Last(a + b) == Last(b);
      WriteAllConcat(s, a, Init(b));
    }
  }

  lemma {:induction false} LogsOfConcat<M>(a: Trace<M>, b: Trace<M>)
    ensures LogsOf(a + b) == LogsOf(a) + LogsOf(b)
  {
    if b == [] {
      assert a + b == a;
    } else {
      assert Init(a + b) == a + Init(b) && Last(a + b) == Last(b);
      LogsOfConcat(a, Init(b));
    }
  }

  lemma {:induction false} DeletesOfConcat<M>(a: Trace<M>, b: Trace<M>)
    ensures DeletesOf(a + b) == DeletesOf(a) + DeletesOf(b)
  {
    var c := a + b;
    forall x | x in DeletesOf(a) ensures x in DeletesOf(c) {
      var i :| 0 <= i < |a| && a[i].SetDeleted? && a[i].address == x;
      assert c[i] == a[i];
    }
    forall x | x in DeletesOf(b) ensures x in DeletesOf(c) {
      var i :| 0 <= i < |b| && b[i].SetDeleted? && b[i].address == x;
      assert c[|a| + i] == b[i];
    }
  }

  lemma {:induction false} DeletesOfSnoc<M>(a: Trace<M>, op: Op<M>)
    ensures DeletesOf(a + [op]) == DeletesOf(a) + (if op.SetDeleted? then {op.address} else {})
  {
    DeletesOfConcat(a, [op]);
    assert forall x :: x in DeletesOf([op]) ==> op.SetDeleted? && x == op.address;
    assert op.SetDeleted? ==> [op][0].address in DeletesOf([op]);
  }

  /** Frame `f` is what the open segments make of the frame `f0` the trace started in. */
  ghost predicate FrameMatches<M>(f: Frame<M>, f0: Frame<M>, s: seq<Trace<M>>)
    requires s != []
    decreases |s|
  {
    var top := Last(s);
    if |s| == 1 then
      f.logs == f0.logs + LogsOf(top) && f.deletes == f0.deletes + DeletesOf(top) && f.parent == f0.parent
    else
      && f.logs == LogsOf(top) && f.deletes == DeletesOf(top)
      && f.parent.Some? && FrameMatches(f.parent.value, f0, Init(s))
  }

  /** The storage layers the open segments make of the layers the trace started with. */
  function LayersOf<M>(layers: seq<Storage>, s: seq<Trace<M>>): (r: seq<Storage>)
    requires layers != [] && s != []
    ensures |r| == |layers| + |s| - 1
    decreases |s|
  {
    if |s| == 1 then Init(layers) + [WriteAll(Last(layers), s[0])]
    else
      var below := LayersOf(layers, Init(s));
      below + [WriteAll(Last(below), Last(s))]
  }

  lemma {:induction false} LeafFrames<M>(f0: Frame<M>, f: Frame<M>, s: seq<Trace<M>>, s': seq<Trace<M>>, op: Op<M>)
    requires s != [] && op.Leaf() && FrameMatches(f, f0, s)
    requires s' == Init(s) + [Last(s) + [op]]
    ensures FrameMatches(LeafFrame(f, op), f0, s')
  {
    var top := Last(s);
    assert Init(s') == Init(s) && Last(s') == top + [op];
    assert Init(top + [op]) == top;
    DeletesOfSnoc(top, op);
    assert LogsOf(top + [op]) == if op.EmitLog? then LogsOf(top) + [op.log] else LogsOf(top);
    if |s| == 1 && op.EmitLog? {
      assert (f0.logs + LogsOf(top)) + [op.log] == f0.logs + (LogsOf(top) + [op.log]);
    }
  }

  lemma {:induction false} LeafLayers<M>(layers: seq<Storage>, s: seq<Trace<M>>, s': seq<Trace<M>>, op: Op<M>)
    requires layers != [] && s != [] && s' == Init(s) + [Last(s) + [op]]
    ensures WriteTop(LayersOf(layers, s), op) == LayersOf(layers, s')
  {
    var top := Last(s);
    assert Init(s') == Init(s) && Last(s') == top + [op];
    assert Init(top + [op]) == top;
    var now := LayersOf(layers, s);
    var below := if |s| == 1 then Init(layers) else LayersOf(layers, Init(s));
    assert Init(now) == below;
  }

  lemma {:induction false} LeafSegment<M>(meter: Meter<M>, w0: World<M>, w: World<M>, s: seq<Trace<M>>,
                                          s': seq<Trace<M>>, op: Op<M>)
    requires w0.layers != [] && s != [] && op.Leaf()
    requires FrameMatches(w.frame, w0.frame, s) && w.layers == LayersOf(w0.layers, s)
    requires s' == Init(s) + [Last(s) + [op]]
    ensures var o := Step(meter, w, op);
            && o.Done? && o.failures == 0
            && FrameMatches(o.world.frame, w0.frame, s') && o.world.layers == LayersOf(w0.layers, s')
  {
    LeafFrames(w0.frame, w.frame, s, s', op);
    LeafLayers(w0.layers, s, s', op);
  }

  lemma {:induction false} CommitFrames<M>(meter: Meter<M>, w0: World<M>, w: World<M>, s: seq<Trace<M>>,
                                           s': seq<Trace<M>>)
    requires |s| > 1 && |w.layers| >= 2 && FrameMatches(w.frame, w0.frame, s)
    requires s' == s[..|s| - 2] + [s[|s| - 2] + s[|s| - 1]]
    ensures var o := ExitStep(meter, w, ExitCommit);
            o.failures == 0 ==> FrameMatches(o.world.frame, w0.frame, s')
  {
    var a, b := s[|s| - 2], s[|s| - 1];
    LogsOfConcat(a, b);
    DeletesOfConcat(a, b);
    assert Last(Init(s)) == a && Last(s') == a + b;
    assert Init(s') == Init(Init(s));
  }

  lemma {:induction false} CommitLayers<M>(layers: seq<Storage>, s: seq<Trace<M>>, s': seq<Trace<M>>)
    requires layers != [] && |s| > 1
    requires s' == s[..|s| - 2] + [s[|s| - 2] + s[|s| - 1]]
    ensures var now := LayersOf(layers, s);
            now[..|now| - 2] + [Last(now)] == LayersOf(layers, s')
  {
    var a, b := s[|s| - 2], s[|s| - 1];
    var below := LayersOf(layers, Init(s));
    assert Last(Init(s)) == a && Last(s') == a + b;
    if |s| == 2 {
      assert Init(s) == [a];
      WriteAllConcat(Last(layers), a, b);
      assert below == Init(layers) + [WriteAll(Last(layers), a)];
    } else {
      assert Init(s') == Init(Init(s));
      var lower := LayersOf(layers, Init(s'));
      assert below == lower + [WriteAll(Last(lower), a)];
      WriteAllConcat(Last(lower), a, b);
    }
  }

  lemma {:induction false} CommitSegment<M>(meter: Meter<M>, w0: World<M>, w: World<M>, s: seq<Trace<M>>,
                                            s': seq<Trace<M>>)
    requires w0.layers != [] && |s| > 1
    requires FrameMatches(w.frame, w0.frame, s) && w.layers == LayersOf(w0.layers, s)
    requires s' == s[..|s| - 2] + [s[|s| - 2] + s[|s| - 1]]
    ensures var o := Step(meter, w, ExitCommit);
            && o.Done?
            && (o.failures == 0 ==>
                  FrameMatches(o.world.frame, w0.frame, s') && o.world.layers == LayersOf(w0.layers, s'))
  {
    CommitFrames(meter, w0, w, s, s');
    CommitLayers(w0.layers, s, s');
  }

  lemma {:induction false} SegmentStep<M>(meter: Meter<M>, w0: World<M>, w: World<M>, s: seq<Trace<M>>,
                                          s': seq<Trace<M>>, op: Op<M>)
    requires w0.layers != [] && s != []
    requires FrameMatches(w.frame, w0.frame, s) && w.layers == LayersOf(w0.layers, s)
    requires var n := |s|;
             if op.Leaf() then s' == s[..n - 1] + [s[n - 1] + [op]]
             else if op.Enter? then s' == s + [[]]
             else if op.ExitCommit? then n > 1 && s' == s[..n - 2] + [s[n - 2] + s[n - 1]]
             else n > 1 && s' == s[..n - 1]
    ensures var o := Step(meter, w, op);
            && o.Done?
            && (o.failures == 0 ==>
                  FrameMatches(o.world.frame, w0.frame, s') && o.world.layers == LayersOf(w0.layers, s'))
  {
    if op.Leaf() {
      LeafSegment(meter, w0, w, s, s', op);
    } else if op.Enter? {
      assert Init(s') == s && Last(s') == [];
    } else if op.ExitCommit? {
      CommitSegment(meter, w0, w, s, s');
    } else {
      assert s' == Init(s);
      assert |w.layers| >= 2;
    }
  }

  /** A trace that never leaves its starting frame never panics. */
  lemma {:induction false} StaysInside<M>(meter: Meter<M>, w: World<M>, trace: Trace<M>)
    requires w.layers != [] && Segments(trace).Some?
    ensures var o := Run(meter, w, trace);
            && o.Done?
            && Depth(o.world.frame) == Depth(w.frame) + |Segments(trace).value| - 1
            && |o.world.layers| >= |w.layers| + |Segments(trace).value| - 1
  {
    if trace != [] {
      StaysInside(meter, w, Init(trace));
      StepCounts(meter, Run(meter, w, Init(trace)).world, Last(trace));
    }
  }

  lemma {:induction false} EmptySegment<M>(w: World<M>)
    requires w.layers != []
    ensures FrameMatches(w.frame, w.frame, [[]])
    ensures w.layers == LayersOf<M>(w.layers, [[]])
  {
    var s: seq<Trace<M>> := [[]];
    assert Last(s) == [] && LogsOf<M>([]) == [];
    assert LayersOf(w.layers, s) == Init(w.layers) + [Last(w.layers)];
  }

  /** Every run without a failing swallow is described by its open segments, whatever they are. */
  lemma {:induction false} RunFollowsSegments<M>(meter: Meter<M>, w: World<M>, trace: Trace<M>)
    requires w.layers != [] && Segments(trace).Some?
    requires Run(meter, w, trace).Done? && Run(meter, w, trace).failures == 0
    ensures FrameMatches(Run(meter, w, trace).world.frame, w.frame, Segments(trace).value)
    ensures Run(meter, w, trace).world.layers == LayersOf(w.layers, Segments(trace).value)
  {
    if trace == [] {
      EmptySegment(w);
    } else {
      RunFollowsSegments(meter, w, Init(trace));
      var before := Run(meter, w, Init(trace)).world;
      SegmentStep(meter, w, before, Segments(Init(trace)).value, Segments(trace).value, Last(trace));
    }
  }

  // ---- The theorems ----

  /** Equal in everything but gas metadata of the current frame. */
  ghost predicate SameSubstate<M>(a: World<M>, b: World<M>)
  {
    && a.layers == b.layers && a.frame.logs == b.frame.logs
    && a.frame.deletes == b.frame.deletes && a.frame.parent == b.frame.parent
  }

  /** No enter and no exit. */
  predicate Flat<M>(t: Trace<M>)
  {
    forall j :: 0 <= j < |t| ==> t[j].Leaf()
  }

  predicate AllFlat<M>(s: seq<Trace<M>>)
  {
    forall i :: 0 <= i < |s| ==> Flat(s[i])
  }

  lemma {:induction false} FlatConcat<M>(a: Trace<M>, b: Trace<M>)
    requires Flat(a) && Flat(b)
    ensures Flat(a + b)
  {
  }

  /** Replacing the last elements of a list of flat segments by one flat segment. */
  lemma {:induction false} AllFlatWith<M>(s: seq<Trace<M>>, n: nat, t: Trace<M>)
    requires AllFlat(s) && n <= |s| && Flat(t)
    ensures AllFlat(s[..n]) && AllFlat(s[..n] + [t])
  {
  }

  lemma {:induction false} NormalFormIsFlat<M>(trace: Trace<M>)
    requires Segments(trace).Some?
    ensures AllFlat(Segments(trace).value)
  {
    if trace != [] {
      NormalFormIsFlat(Init(trace));
      var s, op := Segments(Init(trace)).value, Last(trace);
      var n := |s|;
      if op.Leaf() {
        FlatConcat(s[n - 1], [op]);
        AllFlatWith(s, n - 1, s[n - 1] + [op]);
      } else if op.Enter? {
        AllFlatWith(s, n, []);
        assert s[..n] == s;
      } else if op.ExitCommit? {
        FlatConcat(s[n - 2], s[n - 1]);
        AllFlatWith(s, n - 2, s[n - 2] + s[n - 1]);
      } else {
        AllFlatWith(s, n - 1, []);
      }
    }
  }

  lemma {:induction false} FlatIsItsOwnSegment<M>(t: Trace<M>)
    requires Flat(t)
    ensures Segments(t) == Some([t])
  {
    if t != [] {
      FlatIsItsOwnSegment(Init(t));
      assert Init(t) + [Last(t)] == t;
      assert [Init(t)][..0] + [[Init(t)][0] + [Last(t)]] == [t];
    }
  }

  lemma {:induction false} FlatRunsDoNotFail<M>(meter: Meter<M>, w: World<M>, t: Trace<M>)
    requires w.layers != [] && Flat(t)
    ensures Run(meter, w, t).Done? && Run(meter, w, t).failures == 0
  {
    if t != [] {
      FlatRunsDoNotFail(meter, w, Init(t));
    }
  }

  /**
   * A balanced trace never panics, and it leaves the same storage layers, logs, delete set and parent
   * frames as its bracket-free normal form if and only if all its swallows succeed, which the gas metadata
   * alone decides; then the `deleted` answers are the same, too.
   */
  lemma {:induction false} BalancedTraceEqualsNormalForm<M>(meter: Meter<M>, w: World<M>, trace: Trace<M>)
    requires w.layers != [] && Balanced(trace)
    ensures Run(meter, w, trace).Done? && Run(meter, w, NormalForm(trace)).Done?
    ensures SameSubstate(Run(meter, w, trace).world, Run(meter, w, NormalForm(trace)).world)
            <==> AllSwallowed(meter, MetaStack(w.frame), trace)
    ensures Run(meter, w, trace).failures == 0 <==> AllSwallowed(meter, MetaStack(w.frame), trace)
    ensures AllSwallowed(meter, MetaStack(w.frame), trace) ==>
              forall a :: Deleted(Run(meter, w, trace).world.frame, a)
                          <==> Deleted(Run(meter, w, NormalForm(trace)).world.frame, a)
    ensures Flat(NormalForm(trace))
  {
    var nf := NormalForm(trace);
    NormalFormIsFlat(trace);
    assert Segments(trace).value == [nf];
    FlatIsItsOwnSegment(nf);
    FlatRunsDoNotFail(meter, w, nf);
    StaysInside(meter, w, trace);
    MetadataDecides(meter, w, trace);
    StaysInside(meter, w, nf);
    LockStep(meter, w, trace);
    LockStep(meter, w, nf);
    RunFollowsSegments(meter, w, nf);
    if Run(meter, w, trace).failures == 0 {
      RunFollowsSegments(meter, w, trace);
    }
  }

  lemma {:induction false} TopOfLayers<M>(layers: seq<Storage>, s: seq<Trace<M>>)
    requires layers != [] && s != []
    ensures Last(LayersOf(layers, s)) == WriteAll(Last(layers), Concat(s))
    decreases |s|
  {
    if |s| == 1 {
      assert Init(s) == [] && Concat(s) == [] + s[0] == s[0];
    } else {
      TopOfLayers(layers, Init(s));
      WriteAllConcat(Last(layers), Concat(Init(s)), Last(s));
    }
  }

  lemma {:induction false} Associate(a: seq<EvmLog>, b: seq<EvmLog>, c: seq<EvmLog>)
    ensures (a + b) + c == a + (b + c)
  {
  }

  lemma {:induction false} MoreLogs<M>(f: Frame<M>, f0: Frame<M>, more: seq<EvmLog>)
    requires f.parent == f0.parent && f.logs == f0.logs + more
    ensures AllLogs(f) == AllLogs(f0) + more
  {
    if f0.parent.Some? {
      Associate(AllLogs(f0.parent.value), f0.logs, more);
    }
  }

  lemma {:induction false} LogsOfFrames<M>(f: Frame<M>, f0: Frame<M>, s: seq<Trace<M>>)
    requires s != [] && FrameMatches(f, f0, s)
    ensures AllLogs(f) == AllLogs(f0) + LogsOf(Concat(s))
    decreases |s|
  {
    var top := LogsOf(Last(s));
    if |s| == 1 {
      assert Init(s) == [] && Concat(s) == [] + s[0] == s[0];
      MoreLogs(f, f0, top);
    } else {
      LogsOfConcat(Concat(Init(s)), Last(s));
      LogsOfFrames(f.parent.value, f0, Init(s));
      Associate(AllLogs(f0), LogsOf(Concat(Init(s))), top);
    }
  }

  lemma {:induction false} DeletedInFrames<M>(f: Frame<M>, f0: Frame<M>, s: seq<Trace<M>>, a: Address)
    requires s != [] && FrameMatches(f, f0, s)
    ensures Deleted(f, a) <==> Deleted(f0, a) || a in DeletesOf(Concat(s))
    decreases |s|
  {
    DeletesOfConcat(Concat(Init(s)), Last(s));
    if |s| == 1 {
      assert Init(s) == [] && Concat(s) == [] + s[0] == s[0];
    } else {
      DeletedInFrames(f.parent.value, f0, Init(s), a);
    }
  }

  lemma {:induction false} ConcatIsFlat<M>(s: seq<Trace<M>>)
    requires AllFlat(s)
    ensures Flat(Concat(s))
  {
    if s != [] {
      ConcatIsFlat(Init(s));
      FlatConcat(Concat(Init(s)), Last(s));
    }
  }

  /**
   * In the middle of any trace, with frames still open, what the EVM can observe (current storage,
   * `deleted` answers, the logs of the whole frame stack) is what the surviving operations alone,
   * run without any bracket, produce.
   */
  lemma {:induction false} OpenTraceView<M>(meter: Meter<M>, w: World<M>, trace: Trace<M>)
    requires w.layers != [] && Segments(trace).Some? && AllSwallowed(meter, MetaStack(w.frame), trace)
    ensures var flat := Concat(Segments(trace).value);
            var a, b := Run(meter, w, trace), Run(meter, w, flat);
            && a.Done? && b.Done?
            && Last(a.world.layers) == Last(b.world.layers)
            && AllLogs(a.world.frame) == AllLogs(b.world.frame)
            && (forall x :: Deleted(a.world.frame, x) <==> Deleted(b.world.frame, x))
            && |a.world.layers| - Depth(a.world.frame) == |w.layers| - Depth(w.frame)
  {
    var s := Segments(trace).value;
    var flat := Concat(s);
    NormalFormIsFlat(trace);
    ConcatIsFlat(s);
    FlatIsItsOwnSegment(flat);
    FlatRunsDoNotFail(meter, w, flat);
    StaysInside(meter, w, trace);
    MetadataDecides(meter, w, trace);
    RunFollowsSegments(meter, w, trace);
    RunFollowsSegments(meter, w, flat);
    LockStep(meter, w, trace);
    TopOfLayers(w.layers, s);
    TopOfLayers(w.layers, [flat]);
    assert Init([flat]) == [] && Concat([flat]) == [] + flat == flat;
    var a, b := Run(meter, w, trace).world.frame, Run(meter, w, flat).world.frame;
    LogsOfFrames(a, w.frame, s);
    LogsOfFrames(b, w.frame, [flat]);
    forall x ensures Deleted(a, x) <==> Deleted(b, x) {
      DeletedInFrames(a, w.frame, s, x);
      DeletedInFrames(b, w.frame, [flat], x);
    }
  }

  /** A meter whose parent refuses the gas of a reverted child. */
  function StingyMeter(): Meter<nat>
  {
    Meter((m, g, s) => 0, (m, c) => (0, true), (m, c) => (0, false), (m, c) => (0, true))
  }

  /** Enter, write one slot, revert. */
  function WriteAndRevert(): Trace<nat> { [Enter(0, false), SetStorage(0, 0, 1), ExitRevert] }

  lemma {:induction false} WriteAndRevertIsBalanced()
    ensures Balanced(WriteAndRevert()) && NormalForm(WriteAndRevert()) == []
  {
    var t := WriteAndRevert();
    assert Init(t) == [Enter(0, false), SetStorage(0, 0, 1)] && Init(Init(t)) == [Enter(0, false)];
    assert Init(Init(Init(t))) == [];
    assert Segments<nat>([]) == Some([[]]);
  }

  /** When the swallow fails, a revert keeps the writes it should have undone. */
  lemma {:induction false} FailedRevertKeepsWrites(w: World<nat>)
    requires w.layers != [] && (0, 0) !in Last(w.layers).slots
    ensures Balanced(WriteAndRevert()) && NormalForm(WriteAndRevert()) == []
    ensures var o := Run(StingyMeter(), w, WriteAndRevert());
            o.Done? && (0, 0) in Last(o.world.layers).slots
  {
    WriteAndRevertIsBalanced();
    var meter, t := StingyMeter(), WriteAndRevert();
    assert Init(t) == [Enter(0, false), SetStorage(0, 0, 1)] && Init(Init(t)) == [Enter(0, false)];
    assert Init(Init(Init(t))) == [] && Run(meter, w, []) == Done(w, 0);
    assert Run(meter, w, Init(Init(t))).Done?;
    assert Run(meter, w, Init(t)).Done?;
  }

  // ---- The mutable substate and host ----

  /** The host's transactional storage. */
  class Host {
    var layers: seq<Storage>

    ghost predicate Valid()
      reads this
    {
      layers != []
    }

    constructor (base: Storage)
      ensures Valid() && layers == [base]
    {
      layers := [base];
    }

    method StartTransaction()
      requires Valid()
      modifies this
      ensures layers == old(layers) + [Last(old(layers))]
    {
      layers := layers + [Last(layers)];
    }

    method CommitTransaction()
      requires |layers| >= 2
      modifies this
      ensures layers == old(layers)[..|old(layers)| - 2] + [Last(old(layers))]
    {
      layers := layers[..|layers| - 2] + [layers[|layers| - 1]];
    }

    method RollbackTransaction()
      requires |layers| >= 2
      modifies this
      ensures layers == Init(old(layers))
    {
      layers := layers[..|layers| - 1];
    }

    method Put(s: Storage)
      requires Valid()
      modifies this
      ensures layers == Init(old(layers)) + [s]
    {
      layers := layers[|layers| - 1 := s];
    }
  }

  /** The substate of the running frame; frames are swapped in and out of `this` in place. */
  class SubstrateStackSubstate<M> {
    const meter: Meter<M>
    const host: Host
    var metadata: M
    var deletes: set<Address>
    var logs: seq<EvmLog>
    var parent: Option<Frame<M>>

    constructor (meter: Meter<M>, host: Host, metadata: M)
      ensures this.meter == meter && this.host == host
      ensures Current() == Frame(metadata, {}, [], None)
    {
      this.meter, this.host, this.metadata := meter, host, metadata;
      deletes, logs, parent := {}, [], None;
    }

    function Current(): Frame<M>
      reads this
    {
      Frame(metadata, deletes, logs, parent)
    }

    function State(): World<M>
      reads this, host
    {
      World(Current(), host.layers)
    }

    /** `mem::swap` of the substate with another frame. */
    method Swap(other: Frame<M>) returns (mine: Frame<M>)
      modifies this
      ensures Current() == other && mine == old(Current())
    {
      mine := Frame(metadata, deletes, logs, parent);
      metadata, deletes, logs, parent := other.metadata, other.deletes, other.logs, other.parent;
    }

    method EnterFrame(gasLimit: nat, isStatic: bool)
      requires host.Valid()
      modifies this, host
      ensures Step(meter, old(State()), Enter(gasLimit, isStatic)) == Done(State(), 0)
    {
      var entering := Swap(Frame(meter.spit(metadata, gasLimit, isStatic), {}, [], None));
      parent := Some(entering);
      host.StartTransaction();
    }

    method Commit() returns (r: Result<(), ()>)
      requires parent.Some? && |host.layers| >= 2
      modifies this, host
      ensures Step(meter, old(State()), ExitCommit) == Done(State(), if r.Ok? then 0 else 1)
    {
      var taken := parent.value;
      var exited := Swap(taken);
      var swallowed := meter.swallowCommit(metadata, exited.metadata);
      metadata := swallowed.0;
      if !swallowed.1 {
        return Err(());
      }
      logs := logs + exited.logs;
      deletes := deletes + exited.deletes;
      host.CommitTransaction();
      return Ok(());
    }

    method Revert() returns (r: Result<(), ()>)
      requires parent.Some? && |host.layers| >= 2
      modifies this, host
      ensures Step(meter, old(State()), ExitRevert) == Done(State(), if r.Ok? then 0 else 1)
    {
      var taken := parent.value;
      var exited := Swap(taken);
      var swallowed := meter.swallowRevert(metadata, exited.metadata);
      metadata := swallowed.0;
      if !swallowed.1 {
        return Err(());
      }
      host.RollbackTransaction();
      return Ok(());
    }

    method Discard() returns (r: Result<(), ()>)
      requires parent.Some? && |host.layers| >= 2
      modifies this, host
      ensures Step(meter, old(State()), ExitDiscard) == Done(State(), if r.Ok? then 0 else 1)
    {
      var taken := parent.value;
      var exited := Swap(taken);
      var swallowed := meter.swallowDiscard(metadata, exited.metadata);
      metadata := swallowed.0;
      if !swallowed.1 {
        return Err(());
      }
      host.RollbackTransaction();
      return Ok(());
    }

    /** `deleted`, walking the owned parents. */
    method IsDeleted(address: Address) returns (r: bool)
      ensures r == Deleted(Current(), address)
    {
      if address in deletes {
        return true;
      }
      var at := parent;
      while at.Some?
        invariant Deleted(Current(), address) <==> at.Some? && Deleted(at.value, address)
        decreases at
      {
        if address in at.value.deletes {
          return true;
        }
        at := at.value.parent;
      }
      return false;
    }

    method MarkDeleted(address: Address)
      requires host.Valid()
      modifies this
      ensures Step(meter, old(State()), SetDeleted(address)) == Done(State(), 0)
    {
      deletes := deletes + {address};
      assert WriteTop<M>(host.layers, SetDeleted(address)) == host.layers;
    }

    method Emit(log: EvmLog)
      requires host.Valid()
      modifies this
      ensures Step(meter, old(State()), EmitLog(log)) == Done(State(), 0)
    {
      logs := logs + [log];
      assert WriteTop<M>(host.layers, EmitLog(log)) == host.layers;
    }

    /** The writes that go straight to the host: set_storage, reset_storage, set_code. */
    method Write(op: Op<M>)
      requires op.SetStorage? || op.ResetStorage? || op.SetCode? || op.HostWrite?
      requires host.Valid()
      modifies host
      ensures Step(meter, old(State()), op) == Done(State(), 0)
    {
      host.Put(WriteStorage(Last(host.layers), op));
    }
  }
}
