/** The binary-search gas estimator (client/rpc/src/eth.rs). */
module GasEstimate {
  import opened Prelude

  const LOWER: nat := 21_000
  const UPPER: nat := 1_000_000_000
  const THRESHOLD: nat := 10

  /** A dry run with the given gas limit: the gas it used, or `None` if it failed. */
  type Oracle = nat -> Option<nat>

  // ---- The search as a list of probed limits ----

  datatype Bounds = Bounds(lower: nat, upper: nat)

  /** A success lowers the upper bound to the probed limit, a failure raises the lower bound to it. */
  function BoundsAfter(run: Oracle, probes: seq<nat>): Bounds
  {
    if probes == [] then Bounds(LOWER, UPPER)
    else
      var before := BoundsAfter(run, Init(probes));
      if run(Last(probes)).Some? then before.(upper := Last(probes)) else before.(lower := Last(probes))
  }

  /** The gas used at the last successful probe, or the upper bound before any succeeded. */
  function BestAfter(run: Oracle, probes: seq<nat>): nat
  {
    if probes == [] then UPPER
    else if run(Last(probes)).Some? then run(Last(probes)).value
    else BestAfter(run, Init(probes))
  }

  function NextProbe(run: Oracle, probes: seq<nat>): nat
  {
    var b := BoundsAfter(run, probes);
    if probes == [] then UPPER else (b.lower + b.upper + 1) / 2
  }

  /**
   * The last probe succeeded, and used more gas than the best so far or the best so far is zero:
   * `old_best - best` is below zero, or its quotient divides by zero.
   */
  predicate Panics(run: Oracle, probes: seq<nat>)
    requires probes != []
  {
    var best := BestAfter(run, Init(probes));
    run(Last(probes)).Some? && (run(Last(probes)).value > best || best == 0)
  }

  /** The change in percent between two best values. */
  function ChangePct(oldBest: nat, best: nat): nat
    requires best <= oldBest && oldBest > 0
  {
    (100 * (oldBest - best)) / oldBest
  }

  predicate Stops(run: Oracle, probes: seq<nat>)
    requires probes != []
  {
    if run(Last(probes)).Some? then
      Panics(run, probes) || ChangePct(BestAfter(run, Init(probes)), BestAfter(run, probes)) <= THRESHOLD
    else NextProbe(run, probes) == Last(probes)
  }

  /** Each probe is the next one, and the search did not stop before the last. */
  ghost predicate Probing(run: Oracle, probes: seq<nat>)
  {
    && (forall i :: 0 <= i < |probes| ==> probes[i] == NextProbe(run, probes[..i]))
    && (forall i :: 0 < i < |probes| ==> !Stops(run, probes[..i]))
  }

  /** The probes of a whole search. */
  ghost predicate Searched(run: Oracle, probes: seq<nat>)
  {
    probes != [] && Probing(run, probes) && Stops(run, probes)
  }

  lemma {:induction false} ProbingInit(run: Oracle, probes: seq<nat>)
    requires Probing(run, probes) && probes != []
    ensures Probing(run, Init(probes)) && Last(probes) == NextProbe(run, Init(probes))
    ensures Init(probes) != [] ==> !Stops(run, Init(probes))
  {
    var init := Init(probes);
    forall i | 0 <= i < |init| ensures init[i] == NextProbe(run, init[..i]) {
      assert init[..i] == probes[..i];
    }
    forall i | 0 < i < |init| ensures !Stops(run, init[..i]) {
      assert init[..i] == probes[..i];
    }
    assert init == probes[..|probes| - 1];
  }

  lemma {:induction false} ProbingSnoc(run: Oracle, probes: seq<nat>)
    requires Probing(run, probes) && (probes != [] ==> !Stops(run, probes))
    ensures Probing(run, probes + [NextProbe(run, probes)])
  {
    var more := probes + [NextProbe(run, probes)];
    forall i | 0 <= i < |more| ensures more[i] == NextProbe(run, more[..i]) {
      assert more[..i] == probes[..i];
      assert probes[..|probes|] == probes;
    }
    forall i | 0 < i < |more| ensures !Stops(run, more[..i]) {
      assert more[..i] == probes[..i];
      assert probes[..|probes|] == probes;
    }
  }

  lemma {:induction false} SameProbe(run: Oracle, a: seq<nat>, b: seq<nat>, n: nat)
    requires Probing(run, a) && Probing(run, b) && n < |a| && n < |b| && a[..n] == b[..n]
    ensures a[..n + 1] == b[..n + 1]
  {
    assert a[n] == NextProbe(run, a[..n]) && b[n] == NextProbe(run, b[..n]);
    assert a[..n + 1] == a[..n] + [a[n]] && b[..n + 1] == b[..n] + [b[n]];
  }

  lemma {:induction false} SamePrefix(run: Oracle, a: seq<nat>, b: seq<nat>, n: nat)
    requires Probing(run, a) && Probing(run, b) && n <= |a| && n <= |b|
    ensures a[..n] == b[..n]
  {
    if n > 0 {
      SamePrefix(run, a, b, n - 1);
      SameProbe(run, a, b, n - 1);
    }
  }

  lemma {:induction false} NoLonger(run: Oracle, a: seq<nat>, b: seq<nat>)
    requires Searched(run, a) && Searched(run, b) && |a| <= |b|
    ensures a == b
  {
    SamePrefix(run, a, b, |a|);
    assert a[..|a|] == a;
    assert Stops(run, b[..|a|]);
    assert b[..|b|] == b;
  }

  /** The oracle determines its search: of two lists of probes neither is longer or different. */
  lemma {:induction false} SearchIsUnique(run: Oracle, a: seq<nat>, b: seq<nat>)
    requires Searched(run, a) && Searched(run, b)
    ensures a == b
  {
    if |a| <= |b| {
      NoLonger(run, a, b);
    } else {
      NoLonger(run, b, a);
    }
  }

  // ---- Every search ends within 32 probes ----

  /** The number of halvings, rounding up, that bring a width down to one. */
  function Halvings(width: nat): nat
  {
    if width <= 1 then 0 else 1 + Halvings((width + 1) / 2)
  }

  function Pow2(k: nat): nat { if k == 0 then 1 else 2 * Pow2(k - 1) }

  lemma {:induction false} HalvingsBounded(width: nat, k: nat)
    requires width <= Pow2(k)
    ensures Halvings(width) <= k
    decreases k
  {
    if width > 1 {
      HalvingsBounded((width + 1) / 2, k - 1);
    }
  }

  lemma {:induction false} HalvingsMonotone(a: nat, b: nat)
    requires a <= b
    ensures Halvings(a) <= Halvings(b)
    decreases b
  {
    if a > 1 {
      HalvingsMonotone((a + 1) / 2, (b + 1) / 2);
    }
  }

  lemma {:induction false} InitialHalvings()
    ensures Halvings(UPPER - LOWER) <= 30
  {
    assert Pow2(10) == 1024;
    assert Pow2(20) == 1024 * 1024 by {
      assert Pow2(12) == 4 * 1024 && Pow2(14) == 16 * 1024 && Pow2(16) == 64 * 1024 && Pow2(18) == 256 * 1024;
    }
    assert Pow2(22) == 4 * Pow2(20) && Pow2(24) == 16 * Pow2(20) && Pow2(26) == 64 * Pow2(20);
    assert Pow2(28) == 256 * Pow2(20) && Pow2(30) == 1024 * Pow2(20);
    HalvingsBounded(UPPER - LOWER, 30);
  }

  /** What holds while the search goes on, for every oracle. */
  ghost predicate Narrowing(run: Oracle, probes: seq<nat>)
  {
    var b := BoundsAfter(run, probes);
    && LOWER <= b.lower < b.upper <= UPPER
    && (probes != [] ==> run(UPPER).Some? && run(b.upper) == Some(BestAfter(run, probes)) && b.upper in probes)
    && |probes| + Halvings(b.upper - b.lower) <= (if probes == [] then 30 else 31)
    && (forall j :: 0 <= j < |probes| ==> LOWER <= probes[j] <= UPPER)
    && (forall j :: 0 <= j < |probes| && run(probes[j]).Some? ==> b.upper <= probes[j])
  }

  lemma {:induction false} NarrowStep(run: Oracle, probes: seq<nat>)
    requires probes != [] && Narrowing(run, Init(probes)) && Last(probes) == NextProbe(run, Init(probes))
    requires !Stops(run, probes)
    ensures Narrowing(run, probes)
  {
    var before, after := BoundsAfter(run, Init(probes)), BoundsAfter(run, probes);
    var width := before.upper - before.lower;
    if Init(probes) != [] {
      assert Last(probes) != before.upper;
      HalvingsMonotone(after.upper - after.lower, (width + 1) / 2);
    }
    assert forall j :: 0 <= j < |probes| - 1 ==> probes[j] == Init(probes)[j];
  }

  lemma {:induction false} SearchNarrows(run: Oracle, probes: seq<nat>)
    requires Probing(run, probes) && (probes != [] ==> !Stops(run, probes))
    ensures Narrowing(run, probes)
  {
    if probes == [] {
      InitialHalvings();
    } else {
      ProbingInit(run, probes);
      SearchNarrows(run, Init(probes));
      NarrowStep(run, probes);
    }
  }

  /** `limit` is the lowest probed limit that succeeded. */
  predicate LowestSuccess(run: Oracle, probes: seq<nat>, limit: nat)
  {
    limit in probes && run(limit).Some? && forall g :: g in probes && run(g).Some? ==> limit <= g
  }

  /** `limit` is the highest probed limit that failed, or 21 000 if none did. */
  predicate HighestFailure(run: Oracle, probes: seq<nat>, limit: nat)
  {
    && (forall g :: g in probes && run(g).None? ==> g <= limit)
    && (limit == 21_000 || (limit in probes && run(limit).None?))
  }

  lemma {:induction false} HigherFailure(run: Oracle, probes: seq<nat>)
    requires probes != [] && HighestFailure(run, Init(probes), BoundsAfter(run, Init(probes)).lower)
    requires BoundsAfter(run, Init(probes)).lower <= Last(probes)
    ensures HighestFailure(run, probes, BoundsAfter(run, probes).lower)
  {
    assert forall g :: g in probes <==> g in Init(probes) || g == Last(probes);
  }

  lemma {:induction false} LowerIsHighestFailure(run: Oracle, probes: seq<nat>)
    requires Probing(run, probes) && (probes != [] ==> !Stops(run, probes))
    ensures HighestFailure(run, probes, BoundsAfter(run, probes).lower)
  {
    if probes != [] {
      ProbingInit(run, probes);
      SearchNarrows(run, Init(probes));
      LowerIsHighestFailure(run, Init(probes));
      HigherFailure(run, probes);
    }
  }

  lemma {:induction false} PercentExactly(oldBest: nat, best: nat)
    requires best <= oldBest && oldBest > 0
    ensures ChangePct(oldBest, best) <= THRESHOLD <==> 100 * (oldBest - best) < 11 * oldBest
  {
    var x := 100 * (oldBest - best);
    var q := x / oldBest;
    assert x == q * oldBest + x % oldBest;
    if q <= 10 {
      MulMonotone(oldBest, q, 10);
    } else {
      MulMonotone(oldBest, 11, q);
    }
  }

  /** Where the best value comes from. */
  lemma {:induction false} BestIsLowest(run: Oracle, probes: seq<nat>)
    requires probes != [] && Narrowing(run, Init(probes)) && Last(probes) == NextProbe(run, Init(probes))
    requires run(UPPER).Some?
    ensures exists g :: LowestSuccess(run, probes, g) && run(g) == Some(BestAfter(run, probes))
  {
    var upper := BoundsAfter(run, Init(probes)).upper;
    assert forall g :: g in probes <==> g in Init(probes) || g == Last(probes);
    var g := if run(Last(probes)).Some? then Last(probes) else upper;
    assert LowestSuccess(run, probes, g);
  }

  lemma {:induction false} ProbesInside(run: Oracle, probes: seq<nat>)
    requires probes != [] && Narrowing(run, Init(probes)) && Last(probes) == NextProbe(run, Init(probes))
    ensures |probes| <= 32 && forall g :: g in probes ==> LOWER <= g <= UPPER
  {
    assert forall g :: g in probes <==> g in Init(probes) || g == Last(probes);
  }

  /**
   * Every search, for every oracle: at most 32 probes, all within the bounds, the first at the upper
   * bound; and the best value is the gas used at the lowest limit that succeeded, if any did.
   */
  lemma {:induction false} SearchEnds(run: Oracle, probes: seq<nat>)
    requires Searched(run, probes)
    ensures |probes| <= 32 && probes[0] == UPPER
    ensures forall g :: g in probes ==> LOWER <= g <= UPPER
    ensures run(UPPER).None? ==> probes == [UPPER] && BestAfter(run, probes) == UPPER
    ensures run(UPPER).Some? ==> exists g :: LowestSuccess(run, probes, g) && run(g) == Some(BestAfter(run, probes))
  {
    ProbingInit(run, probes);
    SearchNarrows(run, Init(probes));
    assert probes[0] == NextProbe(run, probes[..0]);
    ProbesInside(run, probes);
    if run(UPPER).Some? {
      BestIsLowest(run, probes);
    } else {
      assert Init(probes) == [];
    }
  }

  /**
   * The search in plain numbers, for every oracle. It starts at 1 000 000 000. While it goes on, the next
   * limit is the middle, rounded up, between the highest limit that failed (21 000 if none did) and the lowest
   * that succeeded; and it goes on after a success exactly while the gas used fell by at least 11 percent.
   */
  lemma {:induction false} SearchInNumbers(run: Oracle, probes: seq<nat>)
    requires Probing(run, probes)
    ensures probes == [] ==> NextProbe(run, probes) == 1_000_000_000
    ensures probes != [] && !Stops(run, probes) ==>
              var b := BoundsAfter(run, probes);
              && b.lower + b.upper <= NextProbe(run, probes) * 2 <= b.lower + b.upper + 1
              && LowestSuccess(run, probes, b.upper) && HighestFailure(run, probes, b.lower)
    ensures probes != [] && run(Last(probes)).Some? && !Panics(run, probes) ==>
              var before := BestAfter(run, Init(probes));
              (Stops(run, probes) <==> 100 * (before - run(Last(probes)).value) < 11 * before)
  {
    if probes != [] {
      if !Stops(run, probes) {
        SearchNarrows(run, probes);
        LowerIsHighestFailure(run, probes);
      }
      if run(Last(probes)).Some? && !Panics(run, probes) {
        PercentExactly(BestAfter(run, Init(probes)), run(Last(probes)).value);
      }
    }
  }

  // ---- When it panics ----

  lemma {:induction false} PanicsOnlyAtEnd(run: Oracle, probes: seq<nat>)
    requires Searched(run, probes)
    ensures (exists i :: 0 < i <= |probes| && Panics(run, probes[..i])) <==> Panics(run, probes)
  {
    assert probes[..|probes|] == probes;
    assert forall i :: 0 < i < |probes| ==> !Stops(run, probes[..i]);
  }

  /** Used gas is positive, within the limit, and does not grow when the limit shrinks. */
  ghost predicate WellBehaved(run: Oracle)
  {
    && (forall g: nat :: run(g).Some? ==> 0 < run(g).value <= g)
    && (forall g: nat, h: nat :: g <= h && run(g).Some? && run(h).Some? ==> run(g).value <= run(h).value)
  }

  /** A well-behaved dry run never makes the search panic. */
  lemma {:induction false} WellBehavedNeverPanics(run: Oracle, probes: seq<nat>)
    requires WellBehaved(run) && Searched(run, probes)
    ensures !Panics(run, probes)
  {
    ProbingInit(run, probes);
    SearchNarrows(run, Init(probes));
    var upper := BoundsAfter(run, Init(probes)).upper;
    assert Last(probes) <= upper;
  }

  lemma {:induction false} SearchOutcome(run: Oracle, probes: seq<nat>)
    requires Searched(run, probes)
    ensures |probes| <= 32
    ensures (exists i :: 0 < i <= |probes| && Panics(run, probes[..i])) <==> Panics(run, probes)
    ensures run(UPPER).None? ==> probes == [UPPER] && BestAfter(run, probes) == UPPER && !Panics(run, probes)
    ensures run(UPPER).Some? ==> exists g :: LowestSuccess(run, probes, g) && run(g) == Some(BestAfter(run, probes))
    ensures WellBehaved(run) ==> !Panics(run, probes)
  {
    SearchEnds(run, probes);
    PanicsOnlyAtEnd(run, probes);
    if WellBehaved(run) {
      WellBehavedNeverPanics(run, probes);
    }
  }

  // ---- The code ----

  /** What one more probe does to the bounds, the best value and the verdict. */
  lemma {:induction false} OneMoreProbe(run: Oracle, probes: seq<nat>)
    requires Probing(run, probes) && (probes != [] ==> !Stops(run, probes))
    ensures var mid, more := NextProbe(run, probes), probes + [NextProbe(run, probes)];
            var before, best := BoundsAfter(run, probes), BestAfter(run, probes);
            && Probing(run, more) && |more| <= 32
            && (run(mid).Some? ==>
                  && BoundsAfter(run, more) == before.(upper := mid) && BestAfter(run, more) == run(mid).value
                  && (Panics(run, more) <==> best < run(mid).value || best == 0)
                  && (!Panics(run, more) ==> (Stops(run, more) <==> ChangePct(best, run(mid).value) <= THRESHOLD)))
            && (run(mid).None? ==>
                  && BoundsAfter(run, more) == before.(lower := mid) && BestAfter(run, more) == best
                  && !Panics(run, more) && (Stops(run, more) <==> NextProbe(run, more) == mid))
  {
    var more := probes + [NextProbe(run, probes)];
    assert Init(more) == probes;
    SearchNarrows(run, probes);
    ProbingSnoc(run, probes);
  }

  /**
   * The loop of `estimate_gas`, which also records the limits it probed; `None` is the panic of the
   * 256-bit subtraction or division. It panics exactly if its last probe does.
   */
  method Estimate(run: Oracle) returns (r: Option<nat>, probes: seq<nat>)
    ensures Searched(run, probes) && 1 <= |probes| <= 32
    ensures r.None? <==> exists i :: 0 < i <= |probes| && Panics(run, probes[..i])
    ensures r.Some? ==> r.value == BestAfter(run, probes)
    ensures run(UPPER).None? ==> r == Some(UPPER) && probes == [UPPER]
    ensures r.Some? && run(UPPER).Some? ==> exists g :: LowestSuccess(run, probes, g) && run(g) == r
    ensures WellBehaved(run) ==> r.Some?
  {
    var lower, upper := LOWER, UPPER;
    var mid := upper;
    var best := mid;
    var changePct := 100;
    probes := [];
    while changePct > THRESHOLD
      invariant Bounds(lower, upper) == BoundsAfter(run, probes)
      invariant best == BestAfter(run, probes)
      invariant mid == NextProbe(run, probes)
      invariant Probing(run, probes)
      invariant probes == [] ==> changePct > THRESHOLD
      invariant probes != [] ==> (changePct > THRESHOLD <==> !Stops(run, probes)) && !Panics(run, probes)
      decreases changePct > THRESHOLD, 32 - |probes|
    {
      OneMoreProbe(run, probes);
      var answer := run(mid);
      probes := probes + [mid];
      if answer.Some? {
        var oldBest := best;
        best := answer.value;
        if oldBest < best || oldBest == 0 {
          SearchOutcome(run, probes);
          return None, probes;
        }
        changePct := ChangePct(oldBest, best);
        upper := mid;
        mid := (lower + upper + 1) / 2;
      } else {
        lower := mid;
        mid := (lower + upper + 1) / 2;
        if mid == lower {
          break;
        }
      }
    }
    SearchOutcome(run, probes);
    return Some(best), probes;
  }

  // ---- An oracle that makes it panic ----

  /** An oracle that uses more gas under a smaller limit. */
  function Perverse(g: nat): Option<nat> { if g == UPPER then Some(1000) else Some(2000) }

  const SECOND_PROBE: nat := (LOWER + UPPER + 1) / 2

  lemma {:induction false} PerverseFirstProbe()
    ensures BoundsAfter(Perverse, [UPPER]) == Bounds(LOWER, UPPER) && BestAfter(Perverse, [UPPER]) == 1000
    ensures NextProbe(Perverse, [UPPER]) == SECOND_PROBE && !Stops(Perverse, [UPPER])
  {
    assert Init([UPPER]) == [] && Last([UPPER]) == UPPER;
    assert ChangePct(UPPER, 1000) == 99;
  }

  lemma {:induction false} PerverseSearch()
    ensures Searched(Perverse, [UPPER, SECOND_PROBE]) && Panics(Perverse, [UPPER, SECOND_PROBE])
  {
    var two := [UPPER, SECOND_PROBE];
    PerverseFirstProbe();
    assert Init(two) == [UPPER] && Last(two) == SECOND_PROBE != UPPER;
    assert two[..0] == [] && two[..1] == [UPPER];
    assert Panics(Perverse, two);
    forall i | 0 <= i < |two| ensures two[i] == NextProbe(Perverse, two[..i]) {
      assert i == 0 || i == 1;
    }
    forall i | 0 < i < |two| ensures !Stops(Perverse, two[..i]) {
      assert i == 1;
    }
  }

  /** The search of the perverse oracle panics at its second probe. */
  lemma {:induction false} PerversePanics(probes: seq<nat>)
    requires Searched(Perverse, probes)
    ensures probes == [UPPER, SECOND_PROBE] && Panics(Perverse, probes)
  {
    PerverseSearch();
    SearchIsUnique(Perverse, probes, [UPPER, SECOND_PROBE]);
  }
}
