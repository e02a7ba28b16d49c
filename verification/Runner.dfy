/**
 * Charging for an EVM execution: the checks and the withdraw/refund protocol
 * (frame/evm/src/runner/stack.rs, frame/evm/src/lib.rs).
 */
module Runner {
  import opened Prelude
  import opened SubstateStack

  datatype RunnerError = GasPriceTooLow | FeeOverflow | PaymentOverflow | BalanceLow | InvalidNonce

  datatype Account = Account(nonce: nat, balance: nat)

  // ---- The checks before execution ----

  /** A request as `execute` sees it; the gas limit already fits 64 bits. */
  datatype Request = Request(
    source: Address, value: nat, gasLimit: nat, gasPrice: Option<nat>, nonce: Option<nat>)

  function Price(r: Request): nat { if r.gasPrice.Some? then r.gasPrice.value else 0 }

  /** The fee to withdraw, or the first check that fails. */
  function Checks(r: Request, account: Account, minPrice: nat): Result<nat, RunnerError>
  {
    if r.gasPrice.Some? && r.gasPrice.value < minPrice then Err(GasPriceTooLow)
    else if Price(r) * r.gasLimit >= TWO_256 then Err(FeeOverflow)
    else if r.value + Price(r) * r.gasLimit >= TWO_256 then Err(PaymentOverflow)
    else if account.balance < r.value + Price(r) * r.gasLimit then Err(BalanceLow)
    else if r.nonce.Some? && account.nonce != r.nonce.value then Err(InvalidNonce)
    else Ok(Price(r) * r.gasLimit)
  }

  /**
   * When the checks pass, with which fee, and which error they give otherwise, on the fields of the request:
   * without a gas price nothing is charged and no minimum applies.
   */
  lemma {:induction false} ChecksExactly(r: Request, account: Account, minPrice: nat)
    ensures var checks := Checks(r, account, minPrice);
            var nonceFits := forall n :: r.nonce == Some(n) ==> n == account.nonce;
            match r.gasPrice
            case None =>
              && (checks.Ok? <==> r.value < TWO_256 && r.value <= account.balance && nonceFits)
              && (checks.Ok? ==> checks == Ok(0))
              && (r.value >= TWO_256 <==> checks == Err(PaymentOverflow))
              && (r.value < TWO_256 && account.balance < r.value <==> checks == Err(BalanceLow))
              && (r.value < TWO_256 && r.value <= account.balance && !nonceFits <==> checks == Err(InvalidNonce))
            case Some(p) =>
              var fee := p * r.gasLimit;
              && (checks.Ok? <==>
                    p >= minPrice && r.value + fee < TWO_256 && r.value + fee <= account.balance && nonceFits)
              && (checks.Ok? ==> checks == Ok(fee))
              && (p < minPrice <==> checks == Err(GasPriceTooLow))
              && (p >= minPrice && fee >= TWO_256 <==> checks == Err(FeeOverflow))
              && (p >= minPrice && fee < TWO_256 <= r.value + fee <==> checks == Err(PaymentOverflow))
              && (p >= minPrice && account.balance < r.value + fee < TWO_256 <==> checks == Err(BalanceLow))
              && (p >= minPrice && r.value + fee < TWO_256 && r.value + fee <= account.balance && !nonceFits
                  <==> checks == Err(InvalidNonce))
  {
  }

  // ---- The currency ----

  /** Existing accounts with their free balance, dust removed so far, and what the fee handler holds. */
  datatype Ledger = Ledger(accounts: map<Address, nat>, dust: nat, handled: nat)

  function Balance(l: Ledger, who: Address): nat { if who in l.accounts then l.accounts[who] else 0 }

  ghost function Total(m: map<Address, nat>): nat
  {
    if m == map[] then 0
    else
      var k :| k in m;
      m[k] + Total(m - {k})
  }

  ghost function Issuance(l: Ledger): nat { Total(l.accounts) + l.dust + l.handled }

  lemma {:induction false} TotalSplit(m: map<Address, nat>, k: Address)
    requires k in m
    ensures Total(m) == m[k] + Total(m - {k})
    decreases |m|
  {
    var j :| j in m && Total(m) == m[j] + Total(m - {j});
    if j != k {
      var a, b := m - {j}, m - {k};
      assert |a.Keys| == |m.Keys| - 1 by { assert a.Keys == m.Keys - {j}; }
      assert |b.Keys| == |m.Keys| - 1 by { assert b.Keys == m.Keys - {k}; }
      TotalSplit(a, k);
      TotalSplit(b, j);
      assert a - {k} == b - {j};
    }
  }

  lemma {:induction false} TotalUpdate(m: map<Address, nat>, k: Address, v: nat)
    ensures Total(m[k := v]) == Total(m - {k}) + v
  {
    TotalSplit(m[k := v], k);
    assert m[k := v] - {k} == m - {k};
  }

  lemma {:induction false} BalanceBounded(l: Ledger, who: Address)
    ensures Balance(l, who) <= Total(l.accounts)
    ensures Total(l.accounts) == Balance(l, who) + Total(l.accounts - {who})
  {
    if who in l.accounts {
      TotalSplit(l.accounts, who);
    } else {
      assert l.accounts - {who} == l.accounts;
    }
  }

  /** Take `amount` out; an account left below the existential deposit dies and its rest is dust. */
  function Withdraw(l: Ledger, ed: nat, who: Address, amount: nat): Option<Ledger>
  {
    if amount == 0 then Some(l)
    else if Balance(l, who) < amount then None
    else
      var rest := Balance(l, who) - amount;
      if rest < ed then Some(l.(accounts := l.accounts - {who}, dust := l.dust + rest))
      else Some(l.(accounts := l.accounts[who := rest]))
  }

  /** Put `amount` in, unless the account does not exist or would overflow. */
  function DepositIntoExisting(l: Ledger, who: Address, amount: nat): Option<Ledger>
  {
    if amount == 0 then Some(l)
    else if who !in l.accounts || l.accounts[who] + amount >= TWO_128 then None
    else Some(l.(accounts := l.accounts[who := l.accounts[who] + amount]))
  }

  lemma {:induction false} WithdrawConserves(l: Ledger, ed: nat, who: Address, amount: nat)
    requires Withdraw(l, ed, who, amount).Some?
    ensures Issuance(Withdraw(l, ed, who, amount).value) + amount == Issuance(l)
  {
    BalanceBounded(l, who);
    TotalUpdate(l.accounts, who, if Balance(l, who) >= amount then Balance(l, who) - amount else 0);
  }

  lemma {:induction false} DepositConserves(l: Ledger, who: Address, amount: nat)
    requires DepositIntoExisting(l, who, amount).Some?
    ensures Issuance(DepositIntoExisting(l, who, amount).value) == Issuance(l) + amount
  {
    BalanceBounded(l, who);
    TotalUpdate(l.accounts, who, Balance(l, who) + amount);
  }

  /** When a withdrawal succeeds, what it leaves to the account, and that no other account is touched. */
  lemma {:induction false} WithdrawExactly(l: Ledger, ed: nat, who: Address, amount: nat, other: Address)
    ensures Withdraw(l, ed, who, amount).Some? <==> amount == 0 || amount <= Balance(l, who)
    ensures var after := Withdraw(l, ed, who, amount);
            after.Some? ==>
              && after.value.handled == l.handled
              && (other != who || amount == 0 ==>
                    Balance(after.value, other) == Balance(l, other)
                    && (other in after.value.accounts <==> other in l.accounts))
              && (amount > 0 ==>
                    (who in after.value.accounts <==> Balance(l, who) >= amount + ed)
                    && Balance(after.value, who)
                       == if Balance(l, who) >= amount + ed then Balance(l, who) - amount else 0)
  {
  }

  /** A refund reaches existing accounts only, and no other account is touched. */
  lemma {:induction false} DepositExactly(l: Ledger, who: Address, amount: nat, other: Address)
    ensures DepositIntoExisting(l, who, amount).Some? <==>
              amount == 0 || (who in l.accounts && Balance(l, who) + amount < TWO_128)
    ensures var after := DepositIntoExisting(l, who, amount);
            after.Some? ==>
              && after.value.handled == l.handled && after.value.dust == l.dust
              && Balance(after.value, other) == Balance(l, other) + (if other == who then amount else 0)
              && (other in after.value.accounts <==> other in l.accounts)
  {
  }

  // ---- The fee adapter ----

  datatype Settled = Settled(ledger: Ledger, refunded: nat, charged: nat)

  /** Refund what was overpaid if the account is still there; hand the rest to the fee handler. */
  function Correct(l: Ledger, who: Address, actualFee: nat, paid: nat): Option<Settled>
  {
    var due := actualFee % TWO_128;
    var refund := if paid >= due then paid - due else 0;
    var deposit := DepositIntoExisting(l, who, refund);
    var refunded, after := if deposit.Some? then refund else 0, if deposit.Some? then deposit.value else l;
    if refunded > paid then None
    else Some(Settled(after.(handled := after.handled + (paid - refunded)), refunded, paid - refunded))
  }

  /** The correction never errors and splits what was withdrawn into refund and charge. */
  lemma {:induction false} CorrectSplitsPayment(l: Ledger, who: Address, actualFee: nat, paid: nat)
    requires Issuance(l) + paid < TWO_128
    ensures Correct(l, who, actualFee, paid).Some?
    ensures var s := Correct(l, who, actualFee, paid).value;
            && s.refunded + s.charged == paid
            && s.ledger.handled == l.handled + s.charged
            && Issuance(s.ledger) == Issuance(l) + paid
            && Balance(s.ledger, who) == Balance(l, who) + s.refunded
            && (who in l.accounts ==> s.charged == Min(paid, actualFee % TWO_128))
            && (who !in l.accounts ==> s.charged == paid)
            && forall other :: other != who ==> Balance(s.ledger, other) == Balance(l, other)
  {
    var due := actualFee % TWO_128;
    var refund := if paid >= due then paid - due else 0;
    BalanceBounded(l, who);
    if DepositIntoExisting(l, who, refund).Some? {
      DepositConserves(l, who, refund);
    }
  }

  /** The 128-bit cut of the actual fee is harmless exactly when the fee fits or the cut still covers the payment. */
  lemma {:induction false} TruncatedChargeExact(paid: nat, actualFee: nat)
    requires paid < TWO_128
    ensures Min(paid, actualFee % TWO_128) == Min(paid, actualFee)
            <==> actualFee < TWO_128 || actualFee % TWO_128 >= paid
  {
    if actualFee < TWO_128 {
      assert actualFee % TWO_128 == actualFee;
    }
  }

  // ---- A whole execution ----

  /** What the EVM may leave behind: gas used within the limit, money moved but not made. */
  datatype Evm = Evm(usedGas: nat, after: Ledger)

  ghost predicate Plausible(evm: Evm, before: Ledger, gasLimit: nat)
  {
    && evm.usedGas <= gasLimit
    && evm.after.handled == before.handled
    && Total(evm.after.accounts) + evm.after.dust == Total(before.accounts) + before.dust
  }

  /**
   * For every plausible execution outcome after the checks passed: the withdrawal takes exactly the
   * total fee (the 128-bit cut loses nothing), the correction succeeds, the source pays the actual fee
   * if its account survived and the whole fee otherwise, and no money is made or lost.
   */
  lemma {:induction false} FeesAreConserved(
    r: Request, l: Ledger, nonce: nat, minPrice: nat, ed: nat, evm: Evm)
    requires Issuance(l) < TWO_128
    requires Checks(r, Account(nonce, Balance(l, r.source)), minPrice).Ok?
    ensures var fee := Price(r) * r.gasLimit;
            && fee % TWO_128 == fee
            && Withdraw(l, ed, r.source, fee % TWO_128).Some?
            && (Plausible(evm, Withdraw(l, ed, r.source, fee % TWO_128).value, r.gasLimit) ==>
                  var actual := Price(r) * evm.usedGas;
                  var settled := Correct(evm.after, r.source, actual, fee);
                  && settled.Some?
                  && settled.value.refunded + settled.value.charged == fee
                  && settled.value.charged == (if r.source in evm.after.accounts then actual else fee)
                  && Balance(settled.value.ledger, r.source) == Balance(evm.after, r.source) + settled.value.refunded
                  && Issuance(settled.value.ledger) == Issuance(l))
  {
    var fee := Price(r) * r.gasLimit;
    BalanceBounded(l, r.source);
    assert fee <= Balance(l, r.source);
    WithdrawConserves(l, ed, r.source, fee);
    var paidFrom := Withdraw(l, ed, r.source, fee).value;
    if Plausible(evm, paidFrom, r.gasLimit) {
      var actual := Price(r) * evm.usedGas;
      MulMonotone(Price(r), evm.usedGas, r.gasLimit);
      CorrectSplitsPayment(evm.after, r.source, actual, fee);
      assert actual % TWO_128 == actual;
    }
  }

  // ---- Accounts scheduled for deletion ----

  /** Code and every slot of the given addresses gone, nothing else touched. */
  function Purged(s: Storage, deletes: set<Address>): Storage
  {
    Storage(map k | k in s.slots && k.0 !in deletes :: s.slots[k], s.codes - deletes, s.rest)
  }

  /** Every slot and every code is there afterwards exactly if it was before and its account is not deleted. */
  lemma {:induction false} PurgedExactly(s: Storage, deletes: set<Address>, a: Address, i: Hash)
    ensures Get(Purged(s, deletes).slots, (a, i)) == if a in deletes then None else Get(s.slots, (a, i))
    ensures Get(Purged(s, deletes).codes, a) == if a in deletes then None else Get(s.codes, a)
    ensures Purged(s, deletes).rest == s.rest
  {
  }

  /** `remove_account` on code and slots. */
  function RemoveAccount(s: Storage, a: Address): Storage
  {
    Storage(map k | k in s.slots && k.0 != a :: s.slots[k], s.codes - {a}, s.rest)
  }

  lemma {:induction false} PurgeNone(s: Storage)
    ensures Purged(s, {}) == s
  {
    assert Purged(s, {}).slots == s.slots;
  }

  lemma {:induction false} PurgeOneMore(s: Storage, done: set<Address>, a: Address)
    ensures RemoveAccount(Purged(s, done), a) == Purged(s, done + {a})
  {
    assert RemoveAccount(Purged(s, done), a).slots == Purged(s, done + {a}).slots;
  }

  method RemoveAccounts(s: Storage, deletes: set<Address>) returns (r: Storage)
    ensures r == Purged(s, deletes)
  {
    r := s;
    var left := deletes;
    ghost var done: set<Address> := {};
    PurgeNone(s);
    while left != {}
      invariant done + left == deletes && r == Purged(s, done)
      decreases |left|
    {
      var a :| a in left;
      PurgeOneMore(s, done, a);
      r := RemoveAccount(r, a);
      done := done + {a};
      left := left - {a};
    }
    assert done == deletes;
  }

  // ---- What an execution leaves in storage ----

  /** A root frame without logs and deletes over the given storage. */
  function Root<M>(metadata: M, base: Storage): World<M>
  {
    World(Frame(metadata, {}, [], None), [base])
  }

  /**
   * What a balanced execution from the root frame leaves, if all swallows succeed: the base storage after
   * the surviving operations, with their logs and deletes.
   */
  lemma {:induction false} RootExecution<M>(meter: Meter<M>, metadata: M, base: Storage, trace: Trace<M>)
    requires Balanced(trace)
    ensures var o := Run(meter, Root(metadata, base), trace);
            && o.Done?
            && (AllSwallowed(meter, [metadata], trace) ==>
                  && o.world.layers == [WriteAll(base, NormalForm(trace))]
                  && o.world.frame.logs == LogsOf(NormalForm(trace))
                  && o.world.frame.deletes == DeletesOf(NormalForm(trace)))
  {
    var w, nf := Root(metadata, base), NormalForm(trace);
    StaysInside(meter, w, trace);
    MetadataDecides(meter, w, trace);
    if AllSwallowed(meter, [metadata], trace) {
      assert Segments(trace).value == [nf];
      RunFollowsSegments(meter, w, trace);
      assert LayersOf([base], [nf]) == [] + [WriteAll(base, nf)];
    }
  }

  /** The substate and the storage when the executor is done. */
  function EndOf<M>(meter: Meter<M>, metadata: M, base: Storage, trace: Trace<M>): (w: World<M>)
    requires Balanced(trace)
    ensures w.layers != []
  {
    RootExecution(meter, metadata, base, trace);
    Run(meter, Root(metadata, base), trace).world
  }

  /** What `execute` reports. */
  datatype ExecutionInfo = ExecutionInfo(usedGas: nat, logs: seq<EvmLog>)

  // ---- The runner ----

  class Engine {
    const ed: nat
    var ledger: Ledger
    var storage: Storage

    constructor (ed: nat, ledger: Ledger, storage: Storage)
      ensures this.ed == ed && this.ledger == ledger && this.storage == storage
    {
      this.ed, this.ledger, this.storage := ed, ledger, storage;
    }

    method WithdrawFee(who: Address, fee: nat) returns (paid: Option<nat>)
      modifies this`ledger
      ensures match Withdraw(old(ledger), ed, who, fee % TWO_128)
              case None => paid.None? && ledger == old(ledger)
              case Some(l) => paid == Some(fee % TWO_128) && ledger == l
    {
      var amount := fee % TWO_128;
      var imbalance := Withdraw(ledger, ed, who, amount);
      if imbalance.None? {
        return None;
      }
      ledger := imbalance.value;
      return Some(amount);
    }

    method CorrectAndDepositFee(who: Address, corrected: nat, paid: nat) returns (ok: bool)
      modifies this`ledger
      ensures ok == Correct(old(ledger), who, corrected, paid).Some?
      ensures ok ==> ledger == Correct(old(ledger), who, corrected, paid).value.ledger
    {
      var due := corrected % TWO_128;
      var refundAmount := if paid >= due then paid - due else 0;
      var refunded := 0;
      var deposit := DepositIntoExisting(ledger, who, refundAmount);
      if deposit.Some? {
        ledger := deposit.value;
        refunded := refundAmount;
      }
      if paid < refunded {
        return false;
      }
      ledger := ledger.(handled := ledger.handled + (paid - refunded));
      return true;
    }

    /** The checks, in the order they are made. */
    method Check(r: Request, nonce: nat, minPrice: nat) returns (fee: Result<nat, RunnerError>)
      ensures fee == Checks(r, Account(nonce, Balance(ledger, r.source)), minPrice)
    {
      if r.gasPrice.Some? && r.gasPrice.value < minPrice {
        return Err(GasPriceTooLow);
      }
      var totalFee := Price(r) * r.gasLimit;
      if totalFee >= TWO_256 {
        return Err(FeeOverflow);
      }
      var totalPayment := r.value + totalFee;
      if totalPayment >= TWO_256 {
        return Err(PaymentOverflow);
      }
      if Balance(ledger, r.source) < totalPayment {
        return Err(BalanceLow);
      }
      if r.nonce.Some? && nonce != r.nonce.value {
        return Err(InvalidNonce);
      }
      return Ok(totalFee);
    }

    /** The executor's work on the substate and the storage. */
    method RunExecutor<M>(meter: Meter<M>, metadata: M, trace: Trace<M>) returns (substate: Frame<M>)
      requires Balanced(trace)
      modifies this`storage
      ensures var end := EndOf(meter, metadata, old(storage), trace);
              substate == end.frame && storage == Last(end.layers)
      ensures AllSwallowed(meter, [metadata], trace) ==>
                var nf := NormalForm(trace);
                && substate.logs == LogsOf(nf) && substate.deletes == DeletesOf(nf)
                && storage == WriteAll(old(storage), nf)
    {
      RootExecution(meter, metadata, storage, trace);
      var end := EndOf(meter, metadata, storage, trace);
      storage := Last(end.layers);
      return end.frame;
    }

    /**
     * `execute`: check, withdraw, let the EVM run, settle, delete. The run is given: `trace` is what the
     * executor, which leaves every frame it enters, does to the substate, and `evm` what it does to the
     * currency.
     */
    method Execute<M>(r: Request, nonce: nat, minPrice: nat, evm: Evm, meter: Meter<M>, metadata: M, trace: Trace<M>)
      returns (result: Result<ExecutionInfo, RunnerError>)
      requires Issuance(ledger) < TWO_128 && Balanced(trace)
      requires Checks(r, Account(nonce, Balance(ledger, r.source)), minPrice).Ok? ==>
                 var fee := Price(r) * r.gasLimit;
                 Withdraw(ledger, ed, r.source, fee % TWO_128).Some? ==>
                   Plausible(evm, Withdraw(ledger, ed, r.source, fee % TWO_128).value, r.gasLimit)
      modifies this
      ensures var checked := Checks(r, Account(nonce, Balance(old(ledger), r.source)), minPrice);
              match checked
              case Err(e) => result == Err(e) && ledger == old(ledger) && storage == old(storage)
              case Ok(fee) =>
                var paid := if r.source in evm.after.accounts then Price(r) * evm.usedGas else fee;
                var end := EndOf(meter, metadata, old(storage), trace);
                && result == Ok(ExecutionInfo(evm.usedGas, end.frame.logs))
                && ledger.handled == old(ledger).handled + paid
                && Balance(ledger, r.source) == Balance(evm.after, r.source) + (fee - paid)
                && Issuance(ledger) == Issuance(old(ledger))
                && storage == Purged(Last(end.layers), end.frame.deletes)
      ensures result.Ok? && r.gasPrice.None? ==> ledger == evm.after && ledger.handled == old(ledger).handled
      ensures result.Ok? && AllSwallowed(meter, [metadata], trace) ==>
                var nf := NormalForm(trace);
                && result.value.logs == LogsOf(nf)
                && storage == Purged(WriteAll(old(storage), nf), DeletesOf(nf))
    {
      var checked := Check(r, nonce, minPrice);
      if checked.Err? {
        return Err(checked.error);
      }
      FeesAreConserved(r, ledger, nonce, minPrice, ed, evm);
      var fee := WithdrawFee(r.source, checked.value);
      var substate := RunExecutor(meter, metadata, trace);
      ledger := evm.after;
      var actualFee := Price(r) * evm.usedGas;
      var ok := CorrectAndDepositFee(r.source, actualFee, fee.value);
      assert ok;  // neither `?` of the protocol can be taken once the checks passed
      storage := RemoveAccounts(storage, substate.deletes);
      return Ok(ExecutionInfo(evm.usedGas, substate.logs));
    }
  }
}
