/** The minimum gas price that follows a noted target (frame/dynamic-fee/src/lib.rs). */
module DynamicFee {
  import opened Prelude

  function Bound(price: nat, divisor: nat): nat
    requires divisor > 0
  {
    price / divisor + 1
  }

  /** `on_finalize` with a noted target; `None` is the panic of a division by zero or an overflow. */
  function Adjust(price: nat, divisor: nat, target: nat): Option<nat>
  {
    if divisor == 0 || Bound(price, divisor) >= TWO_256 then None
    else
      var bound := Bound(price, divisor);
      var upper := Min(price + bound, TWO_256 - 1);
      var lower := if price >= bound then price - bound else 0;
      Some(Min(upper, Max(lower, target)))
  }

  /** The distance still to go. */
  function Gap(price: nat, target: nat): nat
  {
    if price <= target then target - price else price - target
  }

  lemma {:induction false} QuotientSmaller(price: nat, divisor: nat)
    requires divisor >= 2 && price > 0
    ensures price / divisor < price
  {
    var q := price / divisor;
    assert price == q * divisor + price % divisor;
    MulMonotone(q, 2, divisor);
  }

  /** The update fails only for a zero divisor, or a divisor of one at the largest price. */
  lemma {:induction false} AdjustPanicsExactly(price: nat, divisor: nat, target: nat)
    requires price < TWO_256
    ensures Adjust(price, divisor, target).None? <==> divisor == 0 || (divisor == 1 && price == TWO_256 - 1)
  {
    if divisor >= 2 && price > 0 {
      QuotientSmaller(price, divisor);
    }
  }

  /** One block: toward the target, never past it, by the bound or all the way. */
  lemma {:induction false} AdjustStep(price: nat, divisor: nat, target: nat)
    requires price < TWO_256 && target < TWO_256
    requires Adjust(price, divisor, target).Some?
    ensures var next := Adjust(price, divisor, target).value;
            && next < TWO_256
            && (price <= target ==> price <= next <= target)
            && (price >= target ==> target <= next <= price)
            && (Gap(price, target) <= price / divisor + 1 ==> next == target)
            && (Gap(price, target) > price / divisor + 1 ==> Gap(next, price) == price / divisor + 1)
            && Gap(next, target) == Gap(price, target) - Gap(next, price)
  {
  }

  /** Neither this update nor any later one toward the same target can fail. */
  predicate Safe(price: nat, divisor: nat, target: nat)
  {
    && divisor > 0 && price < TWO_256 && target < TWO_256
    && (divisor == 1 ==> price < TWO_256 - 1 && target < TWO_256 - 1)
  }

  /** Every block that is not there yet gets at least one closer. */
  lemma {:induction false} Approaches(price: nat, divisor: nat, target: nat)
    requires Safe(price, divisor, target)
    ensures Adjust(price, divisor, target).Some?
    ensures var next := Adjust(price, divisor, target).value;
            && next < TWO_256
            && (price <= target ==> price <= next <= target)
            && (price >= target ==> target <= next <= price)
            && Gap(next, target) <= (if price == target then 0 else Gap(price, target) - 1)
  {
    AdjustPanicsExactly(price, divisor, target);
    AdjustStep(price, divisor, target);
  }

  /** The price after `n` blocks that all note the same target. */
  function After(price: nat, divisor: nat, target: nat, n: nat): (p: nat)
    requires Safe(price, divisor, target)
    ensures Safe(p, divisor, target)
  {
    if n == 0 then price
    else
      var before := After(price, divisor, target, n - 1);
      Approaches(before, divisor, target);
      Adjust(before, divisor, target).value
  }

  /**
   * Over any number of blocks the price moves monotonically toward the target without passing it, gets
   * closer by at least one per block, and once there stays.
   */
  lemma {:induction false} PriceConverges(price: nat, divisor: nat, target: nat, n: nat)
    requires Safe(price, divisor, target)
    ensures var p := After(price, divisor, target, n);
            && (price <= target ==> price <= p <= target)
            && (price >= target ==> target <= p <= price)
            && Gap(p, target) <= (if n <= Gap(price, target) then Gap(price, target) - n else 0)
            && (n >= Gap(price, target) ==> p == target)
  {
    if n > 0 {
      PriceConverges(price, divisor, target, n - 1);
      Approaches(After(price, divisor, target, n - 1), divisor, target);
    }
  }

  class Module {
    const divisor: nat
    var minGasPrice: nat
    var targetMinGasPrice: Option<nat>

    constructor (divisor: nat, price: nat)
      requires price < TWO_256
      ensures this.divisor == divisor && minGasPrice == price && targetMinGasPrice == None
    {
      this.divisor, minGasPrice, targetMinGasPrice := divisor, price, None;
    }

    method NoteMinGasPriceTarget(target: nat)
      modifies this`targetMinGasPrice
      ensures targetMinGasPrice == Some(target)
    {
      targetMinGasPrice := Some(target);
    }

    /** `ok` is false when the node would panic. */
    method OnFinalize() returns (ok: bool)
      modifies this
      ensures ok <==> (old(targetMinGasPrice).Some? ==>
                         Adjust(old(minGasPrice), divisor, old(targetMinGasPrice).value).Some?)
      ensures ok ==> targetMinGasPrice == None
      ensures ok ==> minGasPrice == if old(targetMinGasPrice).Some?
                                    then Adjust(old(minGasPrice), divisor, old(targetMinGasPrice).value).value
                                    else old(minGasPrice)
    {
      if targetMinGasPrice.Some? {
        if divisor == 0 || minGasPrice / divisor + 1 >= TWO_256 {
          return false;
        }
        var bound := minGasPrice / divisor + 1;
        var upperLimit := Min(minGasPrice + bound, TWO_256 - 1);
        var lowerLimit := if minGasPrice >= bound then minGasPrice - bound else 0;
        minGasPrice := Min(upperLimit, Max(lowerLimit, targetMinGasPrice.value));
      }
      targetMinGasPrice := None;
      return true;
    }
  }
}
