/**
 * Admission of transactions to the pool and the pending nonce
 * (frame/ethereum/src/lib.rs, client/rpc/src/eth.rs).
 */
module Admission {
  import opened Prelude
  import opened EthTypes
  import R = Runner

  // ---- 256-bit arithmetic ----

  function SaturatingMul(a: nat, b: nat): nat { Min(a * b, TWO_256 - 1) }

  function SaturatingAdd(a: nat, b: nat): nat { Min(a + b, TWO_256 - 1) }

  // ---- validate_unsigned ----

  datatype Invalid = InvalidChainId | InvalidSignature | Stale | Payment

  /** A pool tag; every other pallet's tags are opaque. */
  datatype Tag = Nonce(origin: Address, nonce: nat) | Foreign(id: nat)

  datatype Valid = Valid(gives: seq<Tag>, needs: seq<Tag>)

  function Validate(crypto: Crypto, chainId: nat, minPrice: nat, accounts: Address -> R.Account, tx: Transaction)
    : Result<Valid, Invalid>
  {
    if tx.chainId.Some? && tx.chainId.value != chainId then Err(InvalidChainId)
    else
      match crypto.recover(tx)
      case None => Err(InvalidSignature)
      case Some(origin) =>
        var account := accounts(origin);
        if tx.nonce < account.nonce then Err(Stale)
        else
          var fee := SaturatingMul(tx.gasPrice, tx.gasLimit);
          if account.balance < SaturatingAdd(tx.value, fee) then Err(Payment)
          else if tx.gasPrice < minPrice then Err(Payment)
          else
            var previous := if tx.nonce > account.nonce then [Nonce(origin, tx.nonce - 1)] else [];
            Ok(Valid([Nonce(origin, tx.nonce)], previous))
  }

  /**
   * When validation accepts a transaction of any nonce, and which error it gives otherwise, for any balance
   * below 2^128, without the saturating arithmetic.
   */
  lemma {:induction false} ValidateExactly(
    crypto: Crypto, chainId: nat, minPrice: nat, accounts: Address -> R.Account, tx: Transaction)
    requires crypto.recover(tx).Some? ==> accounts(crypto.recover(tx).value).balance < TWO_128
    ensures var v := Validate(crypto, chainId, minPrice, accounts, tx);
            var rightChain := tx.chainId == None || tx.chainId == Some(chainId);
            && (!rightChain <==> v == Err(InvalidChainId))
            && (rightChain && crypto.recover(tx).None? <==> v == Err(InvalidSignature))
            && (rightChain && crypto.recover(tx).Some? ==>
                  var account := accounts(crypto.recover(tx).value);
                  var paid := tx.value + tx.gasPrice * tx.gasLimit <= account.balance;
                  && (tx.nonce < account.nonce <==> v == Err(Stale))
                  && (tx.nonce >= account.nonce && !(paid && tx.gasPrice >= minPrice) <==> v == Err(Payment))
                  && (tx.nonce >= account.nonce && paid && tx.gasPrice >= minPrice <==> v.Ok?))
  {
  }

  /** What `do_transact` asks the runner for: the gas limit is cut to its low 64 bits. */
  function AsRequest(tx: Transaction, source: Address): R.Request
  {
    R.Request(source, tx.value, tx.gasLimit % TWO_64, Some(tx.gasPrice), Some(tx.nonce))
  }

  /** The runner's checks on that request, on the fields of the transaction; it is charged to the signer. */
  lemma {:induction false} TransactionChecks(tx: Transaction, source: Address, account: R.Account, minPrice: nat)
    ensures AsRequest(tx, source).source == source
    ensures var fee := tx.gasPrice * (tx.gasLimit % TWO_64);
            var checks := R.Checks(AsRequest(tx, source), account, minPrice);
            && (checks.Ok? <==>
                  && tx.gasPrice >= minPrice && tx.nonce == account.nonce
                  && tx.value + fee < TWO_256 && tx.value + fee <= account.balance)
            && (checks.Ok? ==> checks == Ok(fee))
  {
    R.ChecksExactly(AsRequest(tx, source), account, minPrice);
  }

  lemma {:induction false} CutGasCostsLess(price: nat, gas: nat)
    ensures price * (gas % TWO_64) <= price * gas
  {
    MulMonotone(price, gas % TWO_64, gas);
  }

  /**
   * A transaction that validation accepts and whose turn has come passes every check of `execute` on
   * the same state, although one side saturates and the other checks for overflow and cuts the gas limit.
   */
  lemma {:induction false} AcceptedThenExecutable(
    crypto: Crypto, chainId: nat, minPrice: nat, accounts: Address -> R.Account, tx: Transaction)
    requires crypto.recover(tx).Some? ==> accounts(crypto.recover(tx).value).balance < TWO_128
    requires Validate(crypto, chainId, minPrice, accounts, tx).Ok?
    requires tx.nonce == accounts(crypto.recover(tx).value).nonce
    ensures var source := crypto.recover(tx).value;
            R.Checks(AsRequest(tx, source), accounts(source), minPrice) == Ok(tx.gasPrice * (tx.gasLimit % TWO_64))
  {
    CutGasCostsLess(tx.gasPrice, tx.gasLimit);
  }

  /**
   * Conversely: validation accepts at the account nonce if and only if the runner's checks pass, the
   * signature names no other chain, and the balance covers the value and the uncut gas limit at the
   * gas price. The last condition is implied by the checks when the gas limit fits 64 bits.
   */
  lemma {:induction false} ExecutableIffAccepted(
    crypto: Crypto, chainId: nat, minPrice: nat, accounts: Address -> R.Account, tx: Transaction)
    requires crypto.recover(tx).Some?
    requires accounts(crypto.recover(tx).value).balance < TWO_128
    ensures var source := crypto.recover(tx).value;
            var account := accounts(source);
            var checks := R.Checks(AsRequest(tx, source), account, minPrice);
            && (Validate(crypto, chainId, minPrice, accounts, tx).Ok? && tx.nonce == account.nonce <==>
                  && checks.Ok? && tx.chainId in {None, Some(chainId)}
                  && tx.value + tx.gasPrice * tx.gasLimit <= account.balance)
            && (checks.Ok? && tx.gasLimit < TWO_64 ==> tx.value + tx.gasPrice * tx.gasLimit <= account.balance)
  {
    CutGasCostsLess(tx.gasPrice, tx.gasLimit);
    assert tx.gasLimit < TWO_64 ==> tx.gasLimit % TWO_64 == tx.gasLimit;
  }

  /** An empty account that asks for 2^64 gas: refused by validation, accepted by the runner at no fee. */
  lemma {:induction false} CutGasLimitDiffers(
    crypto: Crypto, chainId: nat, accounts: Address -> R.Account, tx: Transaction, source: Address)
    requires tx.gasLimit == TWO_64 && tx.gasPrice == 1 && tx.value == 0 && tx.chainId in {None, Some(chainId)}
    requires crypto.recover(tx) == Some(source) && accounts(source) == R.Account(tx.nonce, 0)
    ensures Validate(crypto, chainId, 1, accounts, tx) == Err(Payment)
    ensures R.Checks(AsRequest(tx, source), accounts(source), 1) == Ok(0)
  {
    assert TWO_64 % TWO_64 == 0;
  }

  // ---- The ready pool ----

  predicate ProvidedBefore(pool: seq<Valid>, k: nat, tag: Tag)
    requires k <= |pool|
  {
    exists j :: 0 <= j < k && tag in pool[j].gives
  }

  /** Entry `k` needs only tags provided earlier, and provides none of those. */
  ghost predicate ReadyAt(pool: seq<Valid>, k: nat)
    requires k < |pool|
  {
    && (forall tag :: tag in pool[k].needs ==> ProvidedBefore(pool, k, tag))
    && (forall tag :: tag in pool[k].gives ==> !ProvidedBefore(pool, k, tag))
  }

  ghost predicate ReadyOrder(pool: seq<Valid>)
  {
    forall k {:trigger ReadyAt(pool, k)} :: 0 <= k < |pool| ==> ReadyAt(pool, k)
  }

  /** An entry of the pool that is an Ethereum transaction of `who` with the given nonce. */
  predicate IsFrom(v: Valid, who: Address)
  {
    |v.gives| == 1 && v.gives[0].Nonce? && v.gives[0].origin == who
  }

  /** An entry of `who` was validated at account nonce `base`; any other provides none of its tags. */
  ghost predicate EntryAt(v: Valid, who: Address, base: nat)
  {
    if IsFrom(v, who) then
      var n := v.gives[0].nonce;
      base <= n && v.needs == if n > base then [Nonce(who, n - 1)] else []
    else
      forall n: nat :: Nonce(who, n) !in v.gives
  }

  ghost predicate ValidatedAt(pool: seq<Valid>, who: Address, base: nat)
  {
    forall k {:trigger EntryAt(pool[k], who, base)} :: 0 <= k < |pool| ==> EntryAt(pool[k], who, base)
  }

  /** What validation produced is what `EntryAt` describes. */
  lemma {:induction false} ValidationShape(
    crypto: Crypto, chainId: nat, minPrice: nat, accounts: Address -> R.Account, tx: Transaction, who: Address)
    requires Validate(crypto, chainId, minPrice, accounts, tx).Ok?
    ensures var v := Validate(crypto, chainId, minPrice, accounts, tx).value;
            EntryAt(v, who, accounts(who).nonce)
            && (IsFrom(v, who) <==> crypto.recover(tx) == Some(who))
  {
  }

  function CountFrom(pool: seq<Valid>, who: Address): nat
  {
    if pool == [] then 0 else CountFrom(Init(pool), who) + (if IsFrom(Last(pool), who) then 1 else 0)
  }

  lemma {:induction false} ProvidedSnoc(pool: seq<Valid>, k: nat, tag: Tag)
    requires k < |pool|
    ensures ProvidedBefore(pool, k + 1, tag) <==> ProvidedBefore(pool, k, tag) || tag in pool[k].gives
  {
  }

  /** Before position `k` the nonces provided for `who` are exactly the `count` ones from `base` on. */
  ghost predicate Run(pool: seq<Valid>, who: Address, base: nat, k: nat, count: nat)
    requires k <= |pool|
  {
    forall n: nat :: ProvidedBefore(pool, k, Nonce(who, n)) <==> base <= n < base + count
  }

  lemma {:induction false} NextNonce(pool: seq<Valid>, who: Address, base: nat, k: nat, count: nat)
    requires ReadyOrder(pool) && ValidatedAt(pool, who, base) && k < |pool| && IsFrom(pool[k], who)
    requires Run(pool, who, base, k, count)
    ensures pool[k].gives == [Nonce(who, base + count)]
  {
    var n := pool[k].gives[0].nonce;
    assert EntryAt(pool[k], who, base) && ReadyAt(pool, k);
    assert Nonce(who, n) in pool[k].gives;
    assert ProvidedBefore(pool, k, Nonce(who, n)) <==> base <= n < base + count;
    if n > base {
      var previous := Nonce(who, n - 1);
      assert previous in pool[k].needs;
      assert ProvidedBefore(pool, k, previous);
      assert base <= n - 1 < base + count;
    }
  }

  lemma {:induction false} NoncesBefore(pool: seq<Valid>, who: Address, base: nat, k: nat)
    requires ReadyOrder(pool) && ValidatedAt(pool, who, base) && k <= |pool|
    ensures Run(pool, who, base, k, CountFrom(pool[..k], who))
  {
    if k > 0 {
      NoncesBefore(pool, who, base, k - 1);
      var count := CountFrom(pool[..k - 1], who);
      assert Init(pool[..k]) == pool[..k - 1];
      assert EntryAt(pool[k - 1], who, base);
      if IsFrom(pool[k - 1], who) {
        NextNonce(pool, who, base, k - 1, count);
      }
      forall n: nat
        ensures ProvidedBefore(pool, k, Nonce(who, n)) <==> base <= n < base + CountFrom(pool[..k], who)
      {
        ProvidedSnoc(pool, k - 1, Nonce(who, n));
        assert ProvidedBefore(pool, k - 1, Nonce(who, n)) <==> base <= n < base + count;
      }
    }
  }

  /**
   * In any ready pool, interleaved with other signers and other pallets, the transactions of one signer
   * appear with consecutive nonces starting at the account nonce.
   */
  lemma {:induction false} ConsecutiveNonces(pool: seq<Valid>, who: Address, base: nat, k: nat)
    requires ReadyOrder(pool) && ValidatedAt(pool, who, base) && k < |pool| && IsFrom(pool[k], who)
    ensures pool[k].gives == [Nonce(who, base + CountFrom(pool[..k], who))]
  {
    NoncesBefore(pool, who, base, k);
    NextNonce(pool, who, base, k, CountFrom(pool[..k], who));
  }

  /** `transaction_count` for the pending block: the account nonce plus the signer's ready transactions. */
  method PendingTransactionCount(pool: seq<Valid>, who: Address, nonce: nat) returns (r: nat)
    requires ReadyOrder(pool) && ValidatedAt(pool, who, nonce) && nonce < TWO_256
    requires forall k :: 0 <= k < |pool| && IsFrom(pool[k], who) ==> pool[k].gives[0].nonce < TWO_256
    ensures r == SaturatingAdd(nonce, CountFrom(pool, who))
  {
    var current := nonce;
    var tag := Nonce(who, nonce);
    for k := 0 to |pool|
      invariant current == SaturatingAdd(nonce, CountFrom(pool[..k], who))
      invariant tag == Nonce(who, current)
    {
      assert Init(pool[..k + 1]) == pool[..k];
      NoncesBefore(pool, who, nonce, k);
      assert EntryAt(pool[k], who, nonce);
      if IsFrom(pool[k], who) {
        ConsecutiveNonces(pool, who, nonce, k);
      }
      if |pool[k].gives| > 0 && pool[k].gives[0] == tag {
        assert tag in pool[k].gives;
        current := SaturatingAdd(current, 1);
        tag := Nonce(who, current);
      }
    }
    assert pool[..|pool|] == pool;
    return current;
  }
}
