/**
 The search for the infeasibility threshold in scx/rust/scx_utils/src/infeasible.rs, over exact reals:
 weights are given up from the largest down until the threshold computed from the rest reaches the next one.
 */
module InfeasibleWeights {
  import opened LoadSums

  const TOLERANCE: real := 0.0001

  function Abs(a: real): real { if a < 0.0 then -a else a }

  predicate ApproxEq(a: real, b: real) { Abs(a - b) <= TOLERANCE }

  predicate ApproxGe(a: real, b: real) { a > b || ApproxEq(a, b) }

  lemma ApproxGeIff(a: real, b: real)
    ensures ApproxGe(a, b) <==> a >= b - 0.0001
  {
  }

  // ---------- one step, as arithmetic ----------

  lemma StrictProduct(a: real, b: real, c: real)
    requires a < b && c > 0.0
    ensures a * c < b * c
  {
  }

  lemma CancelFactor(a: real, b: real, w: real)
    requires w > 0.0 && w * a < w * b
    ensures a < b
  {
  }

  /** The divisor stays positive: the largest remaining weight cannot carry all the capacity that is left. */
  lemma DivisorStaysPositive(lambdaX: real, w: real, d: real, load: real, capacity: real)
    requires capacity > 0.0 && lambdaX * capacity == load && 0.0 < w && lambdaX < w && w * d <= load
    ensures d < capacity
  {
    StrictProduct(lambdaX, w, capacity);
    CancelFactor(d, capacity, w);
  }

  /** Giving up a weight that is above the threshold never raises the threshold. */
  lemma ThresholdFalls(lambdaX: real, lambdaX': real, w: real, d: real, load: real, capacity: real, left: real)
    requires lambdaX * capacity == load && lambdaX' * left == load - w * d && left == capacity - d && left > 0.0
    requires d >= 0.0 && lambdaX <= w
    ensures lambdaX' <= lambdaX
  {
    ProductMonotone(lambdaX, w, d);
    assert lambdaX * left == lambdaX * capacity - lambdaX * d;
    if lambdaX' > lambdaX {
      StrictProduct(lambdaX, lambdaX', left);
    }
  }

  lemma QuotientTimes(x: real, y: real)
    requires y > 0.0
    ensures x / y * y == x
  {
  }

  // ---------- the loop ----------

  /** `rest` holds the weights not given up yet; the sums are those of the two halves. */
  ghost predicate Searching(g: map<nat, real>, rest: map<nat, real>, p: real, dcycles: real, load: real, lambdaX: real) {
    && (forall k :: k in rest ==> k in g && rest[k] == g[k])
    && dcycles == Total(g, One) - Total(rest, One)
    && load == Total(rest, AsReal)
    && p - dcycles > 0.0 && lambdaX * (p - dcycles) == load
    && (forall k :: k in g && k !in rest ==> k as real > lambdaX + TOLERANCE)
  }

  ghost predicate IsLargest(rest: map<nat, real>, w: nat) {
    w in rest && forall k :: k in rest ==> k <= w
  }

  lemma {:induction false} LargestExists(s: set<nat>) returns (w: nat)
    requires s != {}
    ensures w in s && forall k :: k in s ==> k <= w
    decreases |s|
  {
    var u :| u in s;
    w := u;
    if s != {u} {
      var t := s - {u};
      assert |t| < |s|;
      var v := LargestExists(t);
      w := if v > u then v else u;
      assert forall k :: k in s ==> k in t || k == u;
    }
  }

  ghost function Nothing(): (nat, real) -> real {
    (k: nat, d: real) => 0.0
  }

  lemma ProductNonNegative(a: real, b: real)
    requires a >= 0.0 && b >= 0.0
    ensures a * b >= 0.0
  {
  }

  lemma {:induction false} SumNothing(m: map<nat, real>)
    ensures SumOf(m, Nothing()) == 0.0
    decreases |m|
  {
    if m != map[] {
      var k :| k in m;
      SumRemove(m, Nothing(), k);
      RemoveShrinks(m, k);
      SumNothing(m - {k});
    }
  }

  /** The load of the other weights is not negative, so the largest one's load is at most the whole. */
  lemma LargestLoad(rest: map<nat, real>, w: nat)
    requires NonNegativeMap(rest) && w in rest
    ensures w as real * rest[w] <= Total(rest, AsReal)
  {
    var rest' := rest - {w};
    TotalRemove(rest, AsReal, w);
    forall k | k in rest' ensures Nothing()(k, rest'[k]) <= Weighted(AsReal)(k, rest'[k]) {
      assert k in rest && rest'[k] == rest[k];
      ProductNonNegative(AsReal(k), rest'[k]);
    }
    SumMonotone(rest', Nothing(), Weighted(AsReal));
    SumNothing(rest');
  }

  /** The divisor of the next threshold is positive. */
  lemma NextDivisor(g: map<nat, real>, rest: map<nat, real>, p: real, dcycles: real, load: real, lambdaX: real, w: nat)
    requires Searching(g, rest, p, dcycles, load, lambdaX) && NonNegativeMap(g)
    requires IsLargest(rest, w) && w >= 1 && !ApproxGe(lambdaX, w as real)
    ensures p - (dcycles + rest[w]) > 0.0
  {
    ApproxGeIff(lambdaX, w as real);
    LargestLoad(rest, w);
    DivisorStaysPositive(lambdaX, w as real, rest[w], load, p - dcycles);
  }

  /** Giving up one weight moves its duty cycles and its load over. */
  lemma SumsWithout(g: map<nat, real>, rest: map<nat, real>, w: nat)
    requires w in rest
    ensures Total(g, One) - Total(rest - {w}, One) == Total(g, One) - Total(rest, One) + rest[w]
    ensures Total(rest - {w}, AsReal) == Total(rest, AsReal) - w as real * rest[w]
  {
    TotalRemove(rest, One, w);
    TotalRemove(rest, AsReal, w);
  }

  /** Giving up the largest remaining weight goes on with a threshold that is not higher. */
  lemma GiveUpOne(g: map<nat, real>, rest: map<nat, real>, p: real, dcycles: real, load: real, lambdaX: real, w: nat,
                  dcycles': real, load': real, lambdaX': real)
    requires Searching(g, rest, p, dcycles, load, lambdaX) && NonNegativeMap(g)
    requires IsLargest(rest, w) && w >= 1 && !ApproxGe(lambdaX, w as real)
    requires dcycles' == dcycles + rest[w] && load' == load - w as real * rest[w]
    requires p - dcycles' > 0.0 && lambdaX' * (p - dcycles') == load'
    ensures lambdaX' <= lambdaX && Searching(g, rest - {w}, p, dcycles', load', lambdaX')
  {
    hide Total;
    ApproxGeIff(lambdaX, w as real);
    ThresholdFalls(lambdaX, lambdaX', w as real, rest[w], load, p - dcycles, p - dcycles');
    SumsWithout(g, rest, w);
  }

  /** When every weight has been given up the machine is under-utilized. */
  lemma FellThrough(g: map<nat, real>, p: real, dcycles: real, load: real, lambdaX: real)
    requires Searching(g, map[], p, dcycles, load, lambdaX)
    ensures Total(g, One) < p
  {
  }

  // ---------- when a threshold is found ----------

  /** The part of the weights up to one of them. */
  ghost function UpTo(g: map<nat, real>, w: nat): map<nat, real> {
    map k | k in g && k <= w :: g[k]
  }

  /**
   With every weight above `w` given its duty cycles, the load up to `w`, shared by the CPUs that are
   left, reaches `w` within the tolerance.
   */
  ghost predicate Reaches(g: map<nat, real>, p: real, w: nat) {
    var above := Total(g, One) - Total(UpTo(g, w), One);
    Total(UpTo(g, w), AsReal) >= (w as real - TOLERANCE) * (p - above)
  }

  ghost predicate Passed(g: map<nat, real>, p: real, w: nat) {
    !Reaches(g, p, w)
  }

  /** The weights given up are the largest ones, and none of them was reached. */
  ghost predicate Descended(g: map<nat, real>, rest: map<nat, real>, p: real) {
    && (forall k :: k in rest ==> k in g && rest[k] == g[k])
    && (forall k, j :: k in g && k !in rest && j in rest ==> j < k)
    && (forall k {:trigger Passed(g, p, k)} :: k in g && k !in rest ==> Passed(g, p, k))
  }

  lemma RestIsUpTo(g: map<nat, real>, rest: map<nat, real>, p: real, w: nat)
    requires Descended(g, rest, p) && IsLargest(rest, w)
    ensures rest == UpTo(g, w)
  {
    assert forall k :: k in rest <==> k in UpTo(g, w);
  }

  lemma QuotientReaches(lambdaX: real, capacity: real, load: real, x: real)
    requires capacity > 0.0 && lambdaX * capacity == load
    ensures lambdaX >= x <==> load >= x * capacity
  {
    if lambdaX >= x {
      ProductMonotone(x, lambdaX, capacity);
    } else {
      StrictProduct(lambdaX, x, capacity);
    }
  }

  lemma GuardAt(all: real, kept: real, p: real, dcycles: real, load: real, lambdaX: real, w: real)
    requires dcycles == all - kept && p - dcycles > 0.0 && lambdaX * (p - dcycles) == load
    ensures ApproxGe(lambdaX, w) <==> load >= (w - TOLERANCE) * (p - (all - kept))
  {
    ApproxGeIff(lambdaX, w);
    QuotientReaches(lambdaX, p - dcycles, load, w - TOLERANCE);
  }

  /** The loop's guard at the largest remaining weight, in terms of the recorded duty cycles alone. */
  lemma GuardIsReaches(g: map<nat, real>, rest: map<nat, real>, p: real, dcycles: real, load: real, lambdaX: real, w: nat)
    requires Searching(g, rest, p, dcycles, load, lambdaX) && Descended(g, rest, p) && IsLargest(rest, w)
    ensures ApproxGe(lambdaX, w as real) <==> Reaches(g, p, w)
  {
    RestIsUpTo(g, rest, p, w);
    GuardAt(Total(g, One), Total(rest, One), p, dcycles, load, lambdaX, w as real);
  }

  lemma DescendStep(g: map<nat, real>, rest: map<nat, real>, p: real, w: nat)
    requires Descended(g, rest, p) && IsLargest(rest, w) && Passed(g, p, w)
    ensures Descended(g, rest - {w}, p)
  {
  }

  lemma NoneReached(g: map<nat, real>, p: real)
    requires Descended(g, map[], p)
    ensures !exists w :: w in g && Reaches(g, p, w)
  {
    forall w | w in g ensures !Reaches(g, p, w) {
      assert Passed(g, p, w);
    }
  }

  /**
   One CPU used half the time by one task: although its weight is above the initial threshold, no
   threshold is found.
   */
  lemma HalfUsedCpuHasNoThreshold()
    ensures var g := map[1 := 0.5];
            ApproxGe(1.0, Total(g, AsReal) / 1.0) && !exists w :: w in g && Reaches(g, 1.0, w)
  {
    var g: map<nat, real> := map[1 := 0.5];
    assert g - {1} == map[];
    TotalRemove(g, AsReal, 1);
    TotalRemove(g, One, 1);
    assert UpTo(g, 1) == g;
  }

  // ---------- what a threshold achieves ----------

  lemma {:induction false} TotalSplit(g: map<nat, real>, rest: map<nat, real>, f: nat -> real)
    requires forall k :: k in rest ==> k in g && rest[k] == g[k]
    ensures Total(g, f) == Total(g - rest.Keys, f) + Total(rest, f)
    decreases |rest|
  {
    hide Total;
    if rest == map[] {
      assert g - rest.Keys == g;
      TotalOfNone(f);
    } else {
      var k :| k in rest;
      var rest' := rest - {k};
      RemoveShrinks(rest, k);
      TotalSplit(g, rest', f);
      TotalRemove(rest, f, k);
      var outside := g - rest'.Keys;
      TotalRemove(outside, f, k);
      assert outside - {k} == g - rest.Keys;
    }
  }

  /** No recorded weight lies just above the threshold, within the tolerance. */
  ghost predicate NoneJustAbove(g: map<nat, real>, lambdaX: real) {
    forall k :: k in g ==> !(lambdaX < k as real <= lambdaX + TOLERANCE)
  }

  /**
   A load is balanced at a threshold: it is the threshold times the capacity, short of it by at most the
   tolerance on every duty cycle, and exact when no recorded weight lies within the tolerance above it.
   */
  ghost predicate BalancedAt(g: map<nat, real>, p: real, lambdaX: real, load: real) {
    && lambdaX * p - TOLERANCE * Total(g, One) <= load <= lambdaX * p
    && (NoneJustAbove(g, lambdaX) ==> load == lambdaX * p)
  }

  lemma LowerOnce(w: real, x: real, d: real)
    requires x == w - TOLERANCE
    ensures x * d == w * d + -TOLERANCE * d
  {
  }

  lemma LoweredRest(rest: map<nat, real>, lowered: nat -> real)
    requires forall k: nat :: lowered(k) == k as real - TOLERANCE
    ensures Total(rest, lowered) == Total(rest, AsReal) - TOLERANCE * Total(rest, One)
  {
    var shift: nat -> real := (k: nat) => -TOLERANCE;
    TotalScales(rest, -TOLERANCE, shift);
    forall k | k in rest ensures Weighted(lowered)(k, rest[k]) == Weighted(AsReal)(k, rest[k]) + Weighted(shift)(k, rest[k]) {
      LowerOnce(k as real, lowered(k), rest[k]);
      assert Weighted(lowered)(k, rest[k]) == lowered(k) * rest[k];
      assert Weighted(AsReal)(k, rest[k]) == k as real * rest[k];
      assert Weighted(shift)(k, rest[k]) == -TOLERANCE * rest[k];
    }
    SumAdds(rest, Weighted(AsReal), Weighted(shift), Weighted(lowered));
  }

  /** Clamping the weights not given up changes their load by at most the tolerance. */
  lemma ClampedRest(rest: map<nat, real>, lambdaX: real)
    requires NonNegativeMap(rest) && forall k :: k in rest ==> k as real <= lambdaX + TOLERANCE
    ensures Total(rest, AsReal) - TOLERANCE * Total(rest, One) <= Total(rest, Clamp(lambdaX)) <= Total(rest, AsReal)
    ensures NoneJustAbove(rest, lambdaX) ==> Total(rest, Clamp(lambdaX)) == Total(rest, AsReal)
  {
    TotalMonotone(rest, Clamp(lambdaX), AsReal);
    var lowered: nat -> real := (k: nat) => k as real - TOLERANCE;
    TotalMonotone(rest, lowered, Clamp(lambdaX));
    LoweredRest(rest, lowered);
    if NoneJustAbove(rest, lambdaX) {
      TotalMonotone(rest, AsReal, Clamp(lambdaX));
    }
  }

  lemma OnesNonNegative(m: map<nat, real>)
    requires NonNegativeMap(m)
    ensures Total(m, One) >= 0.0
  {
    SumMonotone(m, Nothing(), Weighted(One));
    SumNothing(m);
  }

  /** The clamped load of the weights given up is the threshold times their duty cycles. */
  lemma SplitSums(g: map<nat, real>, rest: map<nat, real>, lambdaX: real, gone: real)
    requires NonNegativeMap(g) && forall k :: k in rest ==> k in g && rest[k] == g[k]
    requires forall k :: k in g && k !in rest ==> k as real > lambdaX
    requires gone == Total(g, One) - Total(rest, One)
    ensures gone >= 0.0 && Total(g, Clamp(lambdaX)) == lambdaX * gone + Total(rest, Clamp(lambdaX))
  {
    var dropped := g - rest.Keys;
    assert Total(g, Clamp(lambdaX)) == Total(dropped, Clamp(lambdaX)) + Total(rest, Clamp(lambdaX)) by {
      TotalSplit(g, rest, Clamp(lambdaX));
    }
    assert Total(dropped, One) == gone by { TotalSplit(g, rest, One); }
    assert Total(dropped, Clamp(lambdaX)) == lambdaX * gone by { TotalScales(dropped, lambdaX, Clamp(lambdaX)); }
    OnesNonNegative(dropped);
  }

  lemma AddUp(lambdaX: real, p: real, gone: real, kept: real, all: real, load: real, keptLoad: real, allLoad: real)
    requires load == lambdaX * (p - gone) && all == gone + kept && allLoad == lambdaX * gone + keptLoad && gone >= 0.0
    requires load - TOLERANCE * kept <= keptLoad <= load
    ensures lambdaX * p - TOLERANCE * all <= allLoad <= lambdaX * p
    ensures keptLoad == load ==> allLoad == lambdaX * p
  {
    assert lambdaX * (p - gone) == lambdaX * p - lambdaX * gone;
  }

  /** The load after clamping at the threshold found is the threshold times the capacity, up to the tolerance. */
  lemma ClampedLoad(g: map<nat, real>, rest: map<nat, real>, p: real, dcycles: real, load: real, lambdaX: real, w: nat)
    requires Searching(g, rest, p, dcycles, load, lambdaX) && NonNegativeMap(g)
    requires IsLargest(rest, w) && ApproxGe(lambdaX, w as real)
    ensures BalancedAt(g, p, lambdaX, Total(g, Clamp(lambdaX)))
  {
    ApproxGeIff(lambdaX, w as real);
    SplitSums(g, rest, lambdaX, dcycles);
    ClampedRest(rest, lambdaX);
    AddUp(lambdaX, p, dcycles, Total(rest, One), Total(g, One), load, Total(rest, Clamp(lambdaX)), Total(g, Clamp(lambdaX)));
  }
}
