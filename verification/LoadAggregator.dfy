/**
 `LoadAggregator` of scx/rust/scx_utils/src/infeasible.rs, over exact reals.  The ghost field `log` is the
 sequence of accepted records; the maps and sums are kept consistent with it.
 */
module LoadAggregator {
  import opened DomainRecords
  import opened InfeasibleWeights
  import opened LoadSums

  const MIN_WEIGHT := 1

  datatype RecordResult = Recorded | TooLight | Duplicate

  /** The sums of the domains are listed in the order of their ids. */
  datatype LoadLedger = LoadLedger(
    domLoadSums: seq<real>,
    domDcycleSums: seq<real>,
    globalDcycleSum: real,
    globalLoadSum: real,
    effectiveMaxWeight: real)

  /** Per-domain and per-weight sums are the log's sums, for every function of the weight. */
  ghost predicate Regroups(doms: map<nat, Domain>, globalLoads: map<nat, real>, log: seq<Record>) {
    && (forall f: nat -> real {:trigger DomTotal(doms, f)} :: DomTotal(doms, f) == LogTotal(log, f))
    && (forall f: nat -> real {:trigger Total(globalLoads, f)} :: Total(globalLoads, f) == LogTotal(log, f))
  }

  ghost function WeightsOf(log: seq<Record>): set<nat> {
    set i | 0 <= i < |log| :: log[i].weight
  }

  lemma WeightsOfAppend(log: seq<Record>, r: Record)
    ensures WeightsOf(log + [r]) == WeightsOf(log) + {r.weight}
  {
    var log' := log + [r];
    assert log'[|log|] == r;
    forall i | 0 <= i < |log| ensures log[i].weight in WeightsOf(log') {
      assert log'[i] == log[i];
    }
  }

  /** The weights are the recorded ones, and `maxWeight` is the largest of them. */
  ghost predicate WeightsKnown(globalLoads: map<nat, real>, maxWeight: nat, log: seq<Record>) {
    && globalLoads.Keys == WeightsOf(log)
    && (forall w :: w in globalLoads ==> 1 <= w <= maxWeight)
    && (if log == [] then maxWeight == 0 else maxWeight in WeightsOf(log))
  }

  ghost predicate RawSums(doms: map<nat, Domain>, globalLoadSum: real, log: seq<Record>) {
    && globalLoadSum == LogTotal(log, AsReal)
    && forall d :: d in doms ==> doms[d].dcycleSum == Total(doms[d].loads, One) && doms[d].loadSum == Total(doms[d].loads, AsReal)
  }

  lemma TotalOfOne(m: map<nat, real>, w: nat, only: nat -> real)
    requires w in m && forall k: nat :: only(k) == if k == w then 1.0 else 0.0
    ensures Total(m, only) == m[w]
  {
    TotalRemove(m, only, w);
    TotalScales(m - {w}, 0.0, only);
  }

  /** A duty cycle per weight that is a sum of non-negative ones is non-negative. */
  lemma WeightsNonNegative(doms: map<nat, Domain>, globalLoads: map<nat, real>, log: seq<Record>)
    requires Regroups(doms, globalLoads, log) && NonNegative(log)
    ensures NonNegativeMap(globalLoads)
  {
    forall w | w in globalLoads ensures globalLoads[w] >= 0.0 {
      var only: nat -> real := (k: nat) => if k == w then 1.0 else 0.0;
      TotalOfOne(globalLoads, w, only);
      LogTotalNonNegative(log, only);
      assert Total(globalLoads, only) == LogTotal(log, only);
    }
  }

  lemma RecordAddsToDomains(doms: map<nat, Domain>, f: nat -> real, r: Record, dom: Domain, dom': Domain)
    requires dom == (if r.dom in doms then doms[r.dom] else EMPTY_DOMAIN)
    requires r.weight !in dom.loads && dom'.loads == dom.loads[r.weight := r.dcycle]
    ensures DomTotal(doms[r.dom := dom'], f) == DomTotal(doms, f) + f(r.weight) * r.dcycle
  {
    TotalPut(dom.loads, f, r.weight, r.dcycle);
    DomTotalPut(doms, f, r.dom, dom');
  }

  function Accumulate(m: map<nat, real>, w: nat, d: real): map<nat, real> {
    m[w := (if w in m then m[w] else 0.0) + d]
  }

  lemma AccumulateAdds(m: map<nat, real>, f: nat -> real, w: nat, d: real)
    ensures Total(Accumulate(m, w, d), f) == Total(m, f) + f(w) * d
  {
    var before := if w in m then m[w] else 0.0;
    TotalPut(m, f, w, before + d);
    assert f(w) * (before + d) == f(w) * before + f(w) * d;
  }

  /** An accepted record adds its share to both groupings. */
  lemma RecordRegroups(doms: map<nat, Domain>, globalLoads: map<nat, real>, log: seq<Record>, r: Record,
                       dom: Domain, dom': Domain)
    requires Regroups(doms, globalLoads, log)
    requires dom == (if r.dom in doms then doms[r.dom] else EMPTY_DOMAIN)
    requires r.weight !in dom.loads && dom'.loads == dom.loads[r.weight := r.dcycle]
    ensures Regroups(doms[r.dom := dom'], Accumulate(globalLoads, r.weight, r.dcycle), log + [r])
  {
    hide Total, DomTotal, LogTotal;
    var doms', global' := doms[r.dom := dom'], Accumulate(globalLoads, r.weight, r.dcycle);
    forall f: nat -> real ensures DomTotal(doms', f) == LogTotal(log + [r], f) {
      LogTotalAppend(log, f, r);
      RecordAddsToDomains(doms, f, r, dom, dom');
      assert DomTotal(doms, f) == LogTotal(log, f);
    }
    forall f: nat -> real ensures Total(global', f) == LogTotal(log + [r], f) {
      LogTotalAppend(log, f, r);
      AccumulateAdds(globalLoads, f, r.weight, r.dcycle);
      assert Total(globalLoads, f) == LogTotal(log, f);
    }
  }

  /** The domain after an accepted record. */
  function Extended(dom: Domain, weight: nat, dcycle: real, load: real): Domain {
    Domain(dom.loads[weight := dcycle], dom.dcycleSum + dcycle, dom.loadSum + load)
  }

  lemma RecordKeepsRawSums(doms: map<nat, Domain>, globalLoadSum: real, log: seq<Record>, r: Record, dom: Domain, load: real)
    requires RawSums(doms, globalLoadSum, log) && load == r.weight as real * r.dcycle
    requires dom == (if r.dom in doms then doms[r.dom] else EMPTY_DOMAIN) && r.weight !in dom.loads
    ensures RawSums(doms[r.dom := Extended(dom, r.weight, r.dcycle, load)], globalLoadSum + load, log + [r])
  {
    LogTotalAppend(log, AsReal, r);
    TotalPut(dom.loads, One, r.weight, r.dcycle);
    TotalPut(dom.loads, AsReal, r.weight, r.dcycle);
  }

  lemma RecordKeepsWeights(globalLoads: map<nat, real>, maxWeight: nat, log: seq<Record>, r: Record)
    requires WeightsKnown(globalLoads, maxWeight, log) && r.weight >= MIN_WEIGHT
    ensures WeightsKnown(Accumulate(globalLoads, r.weight, r.dcycle), if r.weight > maxWeight then r.weight else maxWeight, log + [r])
  {
    WeightsOfAppend(log, r);
    assert Accumulate(globalLoads, r.weight, r.dcycle).Keys == globalLoads.Keys + {r.weight};
  }

  function Overwritten(doms: map<nat, Domain>, k: nat, w: nat, d: real): map<nat, Domain>
    requires k in doms
  {
    doms[k := doms[k].(loads := doms[k].loads[w := d])]
  }

  /** Overwriting a recorded duty cycle keeps the groupings equal only if it does not change it. */
  lemma OverwriteRegroupsIff(doms: map<nat, Domain>, globalLoads: map<nat, real>, log: seq<Record>, k: nat, w: nat, d: real)
    requires Regroups(doms, globalLoads, log) && k in doms && w in doms[k].loads
    ensures Regroups(Overwritten(doms, k, w, d), globalLoads, log) <==> d == doms[k].loads[w]
  {
    var dom' := doms[k].(loads := doms[k].loads[w := d]);
    var doms' := doms[k := dom'];
    if d == doms[k].loads[w] {
      assert dom'.loads == doms[k].loads;
      assert doms' == doms;
    } else {
      TotalPut(doms[k].loads, One, w, d);
      DomTotalPut(doms, One, k, dom');
      assert DomTotal(doms, One) == LogTotal(log, One);
      assert DomTotal(doms', One) != LogTotal(log, One);
    }
  }

  ghost predicate ConsistentWith(doms: map<nat, Domain>, globalLoads: map<nat, real>, maxWeight: nat, dcycles: real, load: real,
                                 started: set<nat>, log: seq<Record>)
  {
    && Placed(doms, started, log) && Regroups(doms, globalLoads, log) && WeightsKnown(globalLoads, maxWeight, log)
    && dcycles == LogTotal(log, One) && RawSums(doms, load, log)
  }

  lemma AcceptKeepsConsistent(doms: map<nat, Domain>, globalLoads: map<nat, real>, maxWeight: nat, dcycles: real, loads: real,
                              started: set<nat>, log: seq<Record>, r: Record, dom: Domain, load: real)
    requires ConsistentWith(doms, globalLoads, maxWeight, dcycles, loads, started, log)
    requires r.weight >= MIN_WEIGHT && load == r.weight as real * r.dcycle
    requires dom == (if r.dom in doms then doms[r.dom] else EMPTY_DOMAIN) && r.weight !in dom.loads
    ensures ConsistentWith(doms[r.dom := Extended(dom, r.weight, r.dcycle, load)], Accumulate(globalLoads, r.weight, r.dcycle),
                           if r.weight > maxWeight then r.weight else maxWeight, dcycles + r.dcycle, loads + load, started, log + [r])
  {
    hide Placed, Regroups, RawSums, WeightsKnown;
    RecordIsPlaced(doms, started, log, r, Extended(dom, r.weight, r.dcycle, load));
    RecordRegroups(doms, globalLoads, log, r, dom, Extended(dom, r.weight, r.dcycle, load));
    RecordKeepsRawSums(doms, loads, log, r, dom, load);
    RecordKeepsWeights(globalLoads, maxWeight, log, r);
    LogTotalAppend(log, One, r);
  }

  /** A domain without records changes no sum. */
  lemma StartKeepsConsistent(doms: map<nat, Domain>, globalLoads: map<nat, real>, maxWeight: nat, dcycles: real, load: real,
                             started: set<nat>, log: seq<Record>, d: nat)
    requires ConsistentWith(doms, globalLoads, maxWeight, dcycles, load, started, log) && d !in doms
    ensures ConsistentWith(doms[d := EMPTY_DOMAIN], globalLoads, maxWeight, dcycles, load, started + {d}, log)
  {
    hide Placed, Total, DomTotal, LogTotal;
    StartIsPlaced(doms, started, log, d, EMPTY_DOMAIN);
    TotalOfNone(One);
    TotalOfNone(AsReal);
    forall f: nat -> real {:trigger DomTotal(doms[d := EMPTY_DOMAIN], f)}
      ensures DomTotal(doms[d := EMPTY_DOMAIN], f) == LogTotal(log, f)
    {
      assert DomTotal(doms, f) == LogTotal(log, f);
      DomTotalPut(doms, f, d, EMPTY_DOMAIN);
      TotalOfNone(f);
    }
  }

  /** The clamped load of one domain. */
  method SumClamped(loads: map<nat, real>, lambdaX: real) returns (sum: real)
    ensures sum == Total(loads, Clamp(lambdaX))
  {
    hide Total;
    sum := 0.0;
    var todo := loads;
    while todo != map[]
      invariant sum + Total(todo, Clamp(lambdaX)) == Total(loads, Clamp(lambdaX))
      decreases |todo|
    {
      var w :| w in todo;
      ghost var before := sum + Total(todo, Clamp(lambdaX));
      var term := Min(w as real, lambdaX) * todo[w];
      assert sum + term + Total(todo - {w}, Clamp(lambdaX)) == before by {
        TotalRemove(todo, Clamp(lambdaX), w);
      }
      RemoveShrinks(todo, w);
      sum, todo := sum + term, todo - {w};
    }
    TotalOfNone(Clamp(lambdaX));
  }

  /** Every domain's sums are those of the records made for it. */
  ghost predicate DomainSums(doms: map<nat, Domain>, log: seq<Record>, f: nat -> real) {
    forall d :: d in doms ==>
      doms[d].dcycleSum == LogTotal(OfDomain(log, d), One) && doms[d].loadSum == LogTotal(OfDomain(log, d), f)
  }

  lemma DomainSumsHold(doms: map<nat, Domain>, started: set<nat>, log: seq<Record>, f: nat -> real)
    requires Placed(doms, started, log)
    requires forall d :: d in doms ==> doms[d].dcycleSum == Total(doms[d].loads, One) && doms[d].loadSum == Total(doms[d].loads, f)
    ensures DomainSums(doms, log, f)
  {
    hide Total, LogTotal, Placed;
    forall d | d in doms
      ensures doms[d].dcycleSum == LogTotal(OfDomain(log, d), One) && doms[d].loadSum == LogTotal(OfDomain(log, d), f)
    {
      DomainSum(doms, started, log, d, One);
      DomainSum(doms, started, log, d, f);
    }
  }

  /** The state after a threshold has been applied. */
  ghost predicate Clamped(doms: map<nat, Domain>, globalLoads: map<nat, real>, log: seq<Record>, p: real, lambdaX: real,
                          load: real)
  {
    && lambdaX > 0.0
    && load == LogTotal(log, Clamp(lambdaX))
    && BalancedAt(globalLoads, p, lambdaX, load)
    && (forall d :: d in doms ==> doms[d].loadSum == Total(doms[d].loads, Clamp(lambdaX)))
  }

  /** CPUs granted to one record when capacity is shared in proportion to clamped load. */
  function Granted(p: real, lambdaX: real, load: real, r: Record): real
    requires load > 0.0
  {
    p * (Clamp(lambdaX)(r.weight) * r.dcycle) / load
  }

  /**
   What a record is granted, against its duty cycle `d`: at least `d` if its weight is clamped, at most `d`
   up to the tolerance, and both exactly when no recorded weight lies just above the threshold.
   */
  ghost predicate FairGrant(p: real, lambdaX: real, load: real, dcycles: real, exact: bool, r: Record)
    requires load > 0.0
  {
    var granted := Granted(p, lambdaX, load, r);
    && (r.weight as real >= lambdaX ==> granted >= r.dcycle)
    && granted * (lambdaX * p - TOLERANCE * dcycles) <= r.dcycle * (lambdaX * p)
    && (exact ==> granted <= r.dcycle)
  }

  ghost predicate FairGrants(globalLoads: map<nat, real>, log: seq<Record>, p: real, lambdaX: real, load: real) {
    && load > 0.0
    && forall i :: 0 <= i < |log| ==>
         FairGrant(p, lambdaX, load, Total(globalLoads, One), NoneJustAbove(globalLoads, lambdaX), log[i])
  }

  /** The body of the loop below: a weight above the threshold is granted its duty cycles. */
  method GiveUp(ghost globalLoads: map<nat, real>, rest: map<nat, real>, p: real, dcycles0: real, load0: real, lambda0: real, w: nat)
    returns (dcycles: real, load: real, lambdaX: real)
    requires Searching(globalLoads, rest, p, dcycles0, load0, lambda0) && NonNegativeMap(globalLoads)
    requires IsLargest(rest, w) && w >= 1 && !ApproxGe(lambda0, w as real)
    ensures lambdaX <= lambda0 && Searching(globalLoads, rest - {w}, p, dcycles, load, lambdaX)
  {
    NextDivisor(globalLoads, rest, p, dcycles0, load0, lambda0, w);
    dcycles := dcycles0 + rest[w];
    load := load0 - w as real * rest[w];
    lambdaX := load / (p - dcycles);
    assert lambdaX * (p - dcycles) == load by { QuotientTimes(load, p - dcycles); }
    GiveUpOne(globalLoads, rest, p, dcycles0, load0, lambda0, w, dcycles, load, lambdaX);
  }

  /**
   Where the loop stops: at the largest weight that is reached.  The threshold shares the load up to it by
   the CPUs that are left; it is at least every weight up to it, less 0.0001, and below all others by more.
   */
  ghost predicate StopsAt(g: map<nat, real>, p: real, top: nat, lambdaX: real) {
    var left := p - (Total(g, One) - Total(UpTo(g, top), One));
    && top in g && Reaches(g, p, top) && (forall k :: k in g && k > top ==> !Reaches(g, p, k))
    && left > 0.0 && lambdaX * left == Total(UpTo(g, top), AsReal)
    && forall k :: k in g ==> (k <= top <==> lambdaX >= k as real - 0.0001)
  }

  lemma StoppedAt(g: map<nat, real>, rest: map<nat, real>, p: real, dcycles: real, load: real, lambdaX: real, top: nat)
    requires Searching(g, rest, p, dcycles, load, lambdaX) && Descended(g, rest, p) && IsLargest(rest, top)
    requires ApproxGe(lambdaX, top as real)
    ensures StopsAt(g, p, top, lambdaX)
  {
    hide Total, UpTo, Reaches;
    GuardIsReaches(g, rest, p, dcycles, load, lambdaX, top);
    RestIsUpTo(g, rest, p, top);
    ApproxGeIff(lambdaX, top as real);
    forall k | k in g && k > top ensures !Reaches(g, p, k) {
      assert Passed(g, p, k);
    }
  }

  /**
   The loop over the weights from the largest down.  The divisor never reaches zero, the threshold never
   rises, and if no weight stops the loop then the duty cycles sum to less than the CPUs.  A threshold is
   found exactly if some weight is reached by the load up to it.
   */
  method FindThreshold(globalLoads: map<nat, real>, globalLoadSum: real, p: real) returns (found: bool, lambdaX: real, ghost top: nat)
    requires p > 0.0 && NonNegativeMap(globalLoads) && globalLoadSum == Total(globalLoads, AsReal)
    requires forall w :: w in globalLoads ==> w >= MIN_WEIGHT
    ensures lambdaX <= globalLoadSum / p
    ensures found ==> lambdaX > 0.0 && BalancedAt(globalLoads, p, lambdaX, Total(globalLoads, Clamp(lambdaX)))
    ensures found ==> StopsAt(globalLoads, p, top, lambdaX)
    ensures !found ==> Total(globalLoads, One) < p
    ensures found <==> exists w :: w in globalLoads && Reaches(globalLoads, p, w)
  {
    var dcycles, load := 0.0, globalLoadSum;
    lambdaX := load / p;
    var rest := globalLoads;
    assert Searching(globalLoads, rest, p, dcycles, load, lambdaX) by { QuotientTimes(load, p); }
    while rest != map[]
      invariant Searching(globalLoads, rest, p, dcycles, load, lambdaX)
      invariant Descended(globalLoads, rest, p)
      invariant lambdaX <= globalLoadSum / p
      decreases |rest|
    {
      ghost var _ := LargestExists(rest.Keys);
      var w :| w in rest && forall k :: k in rest ==> k <= w;
      GuardIsReaches(globalLoads, rest, p, dcycles, load, lambdaX, w);
      if ApproxGe(lambdaX, w as real) {
        assert lambdaX > 0.0 by { ApproxGeIff(lambdaX, w as real); }
        ClampedLoad(globalLoads, rest, p, dcycles, load, lambdaX, w);
        StoppedAt(globalLoads, rest, p, dcycles, load, lambdaX, w);
        return true, lambdaX, w;
      }
      dcycles, load, lambdaX := GiveUp(globalLoads, rest, p, dcycles, load, lambdaX, w);
      RemoveShrinks(rest, w);
      DescendStep(globalLoads, rest, p, w);
      rest := rest - {w};
    }
    FellThrough(globalLoads, p, dcycles, load, lambdaX);
    NoneReached(globalLoads, p);
    return false, lambdaX, 0;
  }

  lemma PositiveAnyway(m: real, dcycles: real, lambdaX: real, p: real, load: real)
    requires m > 0.0 && dcycles >= 0.0 && lambdaX > 0.0 && p > 0.0
    requires load >= m * dcycles && load >= lambdaX * p - TOLERANCE * dcycles
    ensures load > 0.0
  {
    StrictProduct(0.0, lambdaX, p);
    if dcycles > 0.0 {
      StrictProduct(0.0, m, dcycles);
    }
  }

  /** The clamped load is positive, so that the shares are defined. */
  lemma ClampedLoadPositive(g: map<nat, real>, p: real, lambdaX: real, load: real)
    requires NonNegativeMap(g) && p > 0.0 && lambdaX > 0.0 && (forall w :: w in g ==> w >= 1)
    requires load == Total(g, Clamp(lambdaX)) && BalancedAt(g, p, lambdaX, load)
    ensures load > 0.0
  {
    var least: nat -> real := (k: nat) => Min(1.0, lambdaX);
    TotalMonotone(g, least, Clamp(lambdaX));
    TotalScales(g, Min(1.0, lambdaX), least);
    OnesNonNegative(g);
    PositiveAnyway(Min(1.0, lambdaX), Total(g, One), lambdaX, p, load);
  }

  lemma GrantAgainst(granted: real, d: real, load: real, most: real, least: real, full: real)
    requires load > 0.0 && d >= 0.0 && least <= load <= most && full == d * most && 0.0 <= granted * load <= full
    ensures granted * load == full ==> granted >= d
    ensures granted * least <= full
    ensures load == most ==> granted <= d
  {
    if granted < d {
      StrictProduct(granted, d, load);
      ProductMonotone(load, most, d);
    }
    if granted < 0.0 {
      StrictProduct(granted, 0.0, load);
    }
    ProductMonotone(least, load, if granted >= 0.0 then granted else 0.0);
    if load == most && granted > d {
      StrictProduct(d, granted, load);
    }
  }

  lemma ShareIsFair(p: real, x: real, lambdaX: real, d: real, load: real, least: real, granted: real)
    requires p > 0.0 && lambdaX > 0.0 && load > 0.0 && d >= 0.0 && 0.0 <= x <= lambdaX * d
    requires least <= load <= lambdaX * p && granted == p * x / load
    ensures x == lambdaX * d ==> granted >= d
    ensures granted * least <= d * (lambdaX * p)
    ensures load == lambdaX * p ==> granted <= d
  {
    var full := d * (lambdaX * p);
    assert granted * load == p * x by { QuotientTimes(p * x, load); }
    assert p * x <= full && (x == lambdaX * d ==> p * x == full) by {
      ProductMonotone(x, lambdaX * d, p);
      assert lambdaX * d * p == full;
    }
    GrantAgainst(granted, d, load, lambdaX * p, least, full);
  }

  lemma ClampedShare(lambdaX: real, r: Record, x: real)
    requires lambdaX > 0.0 && r.dcycle >= 0.0 && x == Clamp(lambdaX)(r.weight) * r.dcycle
    ensures 0.0 <= x <= lambdaX * r.dcycle && (r.weight as real >= lambdaX ==> x == lambdaX * r.dcycle)
  {
    ProductMonotone(Clamp(lambdaX)(r.weight), lambdaX, r.dcycle);
  }

  lemma FairFrom(p: real, lambdaX: real, load: real, dcycles: real, exact: bool, r: Record, granted: real, least: real)
    requires load > 0.0 && granted == Granted(p, lambdaX, load, r) && least == lambdaX * p - TOLERANCE * dcycles
    requires r.weight as real >= lambdaX ==> granted >= r.dcycle
    requires granted * least <= r.dcycle * (lambdaX * p) && (exact ==> granted <= r.dcycle)
    ensures FairGrant(p, lambdaX, load, dcycles, exact, r)
  {
    hide Granted;
  }

  lemma GrantIsFair(p: real, lambdaX: real, load: real, dcycles: real, exact: bool, r: Record)
    requires p > 0.0 && lambdaX > 0.0 && load > 0.0 && r.dcycle >= 0.0
    requires lambdaX * p - TOLERANCE * dcycles <= load <= lambdaX * p && (exact ==> load == lambdaX * p)
    ensures FairGrant(p, lambdaX, load, dcycles, exact, r)
  {
    var x, least := Clamp(lambdaX)(r.weight) * r.dcycle, lambdaX * p - TOLERANCE * dcycles;
    var granted := p * x / load;
    assert granted == Granted(p, lambdaX, load, r);
    hide Granted, FairGrant, Clamp;
    ClampedShare(lambdaX, r, x);
    ShareIsFair(p, x, lambdaX, r.dcycle, load, least, granted);
    FairFrom(p, lambdaX, load, dcycles, exact, r, granted, least);
  }

  /** Every record's grant, once a threshold has been applied. */
  lemma ClampedGrantsAreFair(doms: map<nat, Domain>, globalLoads: map<nat, real>, log: seq<Record>, p: real, lambdaX: real, load: real)
    requires Clamped(doms, globalLoads, log, p, lambdaX, load) && load == Total(globalLoads, Clamp(lambdaX))
    requires NonNegative(log) && NonNegativeMap(globalLoads) && p > 0.0 && forall w :: w in globalLoads ==> w >= MIN_WEIGHT
    ensures FairGrants(globalLoads, log, p, lambdaX, load)
  {
    ClampedLoadPositive(globalLoads, p, lambdaX, load);
    forall i | 0 <= i < |log|
      ensures FairGrant(p, lambdaX, load, Total(globalLoads, One), NoneJustAbove(globalLoads, lambdaX), log[i])
    {
      GrantIsFair(p, lambdaX, load, Total(globalLoads, One), NoneJustAbove(globalLoads, lambdaX), log[i]);
    }
  }

  /** The domains with the loads clamped. */
  ghost predicate Reloaded(doms: map<nat, Domain>, doms': map<nat, Domain>, lambdaX: real) {
    && doms'.Keys == doms.Keys
    && forall d :: d in doms' ==> doms'[d] == doms[d].(loadSum := Total(doms[d].loads, Clamp(lambdaX)))
  }

  lemma ClampedSums(doms: map<nat, Domain>, started: set<nat>, log: seq<Record>, raw: real, doms': map<nat, Domain>, lambdaX: real)
    requires Placed(doms, started, log) && RawSums(doms, raw, log) && Reloaded(doms, doms', lambdaX)
    ensures DomainSums(doms', log, Clamp(lambdaX))
    ensures forall d :: d in doms' ==> doms'[d].loadSum == Total(doms'[d].loads, Clamp(lambdaX))
  {
    hide Total, LogTotal, Placed, DomainSums;
    SameLoadsPlaced(doms, doms', started, log);
    DomainSumsHold(doms', started, log, Clamp(lambdaX));
  }

  /** What applying the threshold found makes of consistent domains. */
  lemma ThresholdApplied(doms: map<nat, Domain>, globalLoads: map<nat, real>, maxWeight: nat, dcycles: real, raw: real,
                         started: set<nat>, log: seq<Record>, doms': map<nat, Domain>, p: real, lambdaX: real, load: real)
    requires ConsistentWith(doms, globalLoads, maxWeight, dcycles, raw, started, log) && NonNegative(log) && p > 0.0
    requires Reloaded(doms, doms', lambdaX) && load == DomTotal(doms, Clamp(lambdaX)) && lambdaX > 0.0
    requires BalancedAt(globalLoads, p, lambdaX, Total(globalLoads, Clamp(lambdaX))) && NonNegativeMap(globalLoads)
    ensures Clamped(doms', globalLoads, log, p, lambdaX, load) && FairGrants(globalLoads, log, p, lambdaX, load)
    ensures DomainSums(doms', log, Clamp(lambdaX))
  {
    hide Total, LogTotal, DomTotal, Placed, FairGrants, BalancedAt, DomainSums, Reloaded;
    assert load == LogTotal(log, Clamp(lambdaX)) == Total(globalLoads, Clamp(lambdaX));
    ClampedSums(doms, started, log, raw, doms', lambdaX);
    ClampedGrantsAreFair(doms', globalLoads, log, p, lambdaX, load);
  }

  /** The sums the search works with, by the log. */
  lemma SearchSums(doms: map<nat, Domain>, globalLoads: map<nat, real>, maxWeight: nat, dcycles: real, load: real,
                   started: set<nat>, log: seq<Record>)
    requires ConsistentWith(doms, globalLoads, maxWeight, dcycles, load, started, log) && NonNegative(log)
    ensures NonNegativeMap(globalLoads) && (forall w :: w in globalLoads ==> w >= MIN_WEIGHT)
    ensures load == Total(globalLoads, AsReal) == LogTotal(log, AsReal) && Total(globalLoads, One) == LogTotal(log, One) == dcycles
    ensures doms.Keys == started + DomainsOf(log) && DomainSums(doms, log, AsReal)
  {
    hide Total, LogTotal, DomTotal, DomainSums;
    WeightsNonNegative(doms, globalLoads, log);
    DomainSumsHold(doms, started, log, AsReal);
  }

  class Aggregator {
    const nrCpus: nat
    const dcycleOnly: bool
    var doms: map<nat, Domain>
    var globalLoads: map<nat, real>
    var maxWeight: nat
    var globalDcycleSum: real
    var globalLoadSum: real
    var effectiveMaxWeight: real
    ghost var started: set<nat>
    ghost var log: seq<Record>

    /** The maps and sums agree with the log, and no threshold has been applied. */
    ghost predicate Consistent()
      reads this
    {
      ConsistentWith(doms, globalLoads, maxWeight, globalDcycleSum, globalLoadSum, started, log)
    }

    constructor (nrCpus: nat, dcycleOnly: bool)
      ensures Consistent() && log == [] && started == {} && this.nrCpus == nrCpus && this.dcycleOnly == dcycleOnly
      ensures effectiveMaxWeight == 10000.0
    {
      this.nrCpus, this.dcycleOnly := nrCpus, dcycleOnly;
      doms, globalLoads, maxWeight := map[], map[], 0;
      globalDcycleSum, globalLoadSum, effectiveMaxWeight := 0.0, 0.0, 10000.0;
      started, log := {}, [];
    }

    /** Starts a domain without records; nothing happens to one that is there. */
    method InitDomain(domId: nat)
      requires Consistent()
      modifies this`doms, this`started
      ensures Consistent() && started + DomainsOf(log) == old(started) + DomainsOf(log) + {domId}
      ensures domId in old(doms) ==> doms == old(doms)
    {
      if domId !in doms {
        StartKeepsConsistent(doms, globalLoads, maxWeight, globalDcycleSum, globalLoadSum, started, log, domId);
        doms, started := doms[domId := EMPTY_DOMAIN], started + {domId};
      }
    }

    method Overwrite(domId: nat, weight: nat, dcycle: real)
      requires Consistent() && domId in doms && weight in doms[domId].loads
      modifies this`doms
      ensures Consistent() <==> dcycle == old(doms)[domId].loads[weight]
      ensures doms == Overwritten(old(doms), domId, weight, dcycle)
    {
      OverwriteRegroupsIff(doms, globalLoads, log, domId, weight, dcycle);
      ghost var doms0 := doms;
      doms := Overwritten(doms, domId, weight, dcycle);
      if dcycle == doms0[domId].loads[weight] {
        assert doms[domId].loads == doms0[domId].loads;
        assert doms == doms0;
      }
    }

    method Accept(domId: nat, weight: nat, dcycle: real, domain: Domain)
      requires Consistent() && weight >= MIN_WEIGHT
      requires domain == (if domId in doms then doms[domId] else EMPTY_DOMAIN) && weight !in domain.loads
      modifies this
      ensures Consistent() && log == old(log) + [Record(domId, weight, dcycle)] && started == old(started)
      ensures effectiveMaxWeight == old(effectiveMaxWeight)
    {
      hide ConsistentWith;
      ghost var r := Record(domId, weight, dcycle);
      var load := weight as real * dcycle;
      AcceptKeepsConsistent(doms, globalLoads, maxWeight, globalDcycleSum, globalLoadSum, started, log, r, domain, load);
      doms := doms[domId := Extended(domain, weight, dcycle, load)];
      globalLoads := Accumulate(globalLoads, weight, dcycle);
      globalDcycleSum := globalDcycleSum + dcycle;
      globalLoadSum := globalLoadSum + load;
      if weight > maxWeight {
        maxWeight := weight;
      }
      log := log + [r];
    }

    /**
     Records a duty cycle for a (domain, weight) pair.  A pair recorded before is refused, but its entry
     has been overwritten by then: the aggregator stays consistent exactly if the value is the same.
     */
    method RecordDomLoad(domId: nat, weight: nat, dcycle: real) returns (result: RecordResult)
      requires Consistent()
      modifies this
      ensures result == if weight < 1 then TooLight else if HasPair(old(log), domId, weight) then Duplicate else Recorded
      ensures result.Duplicate? <==> weight >= 1 && domId in old(doms) && weight in old(doms)[domId].loads
      ensures result.Recorded? ==> Consistent() && log == old(log) + [Record(domId, weight, dcycle)]
      ensures result.TooLight? ==> Consistent() && log == old(log) && doms == old(doms)
      ensures result.Duplicate? ==> log == old(log) && (Consistent() <==> dcycle == old(doms)[domId].loads[weight])
      ensures result.Duplicate? ==> doms == Overwritten(old(doms), domId, weight, dcycle)
                                    && globalLoads == old(globalLoads) && maxWeight == old(maxWeight)
                                    && globalDcycleSum == old(globalDcycleSum) && globalLoadSum == old(globalLoadSum)
      ensures effectiveMaxWeight == old(effectiveMaxWeight) && started == old(started)
    {
      PairIffHeld(doms, started, log, domId, weight);
      if weight < MIN_WEIGHT {
        return TooLight;
      }
      var domain := if domId in doms then doms[domId] else EMPTY_DOMAIN;
      if weight in domain.loads {
        Overwrite(domId, weight, dcycle);
        return Duplicate;
      }
      Accept(domId, weight, dcycle, domain);
      return Recorded;
    }

    /** Recomputes every load with weights clamped at `lambdaX`. */
    method ApplyInfeasibleThreshold(lambdaX: real)
      modifies this`doms, this`globalLoadSum, this`effectiveMaxWeight
      ensures effectiveMaxWeight == lambdaX
      ensures globalLoadSum == DomTotal(old(doms), Clamp(lambdaX))
      ensures Reloaded(old(doms), doms, lambdaX)
    {
      hide Total, DomTotal, Clamp;
      effectiveMaxWeight := lambdaX;
      globalLoadSum := 0.0;
      var todo := doms;
      while todo != map[]
        invariant doms.Keys == old(doms).Keys
        invariant forall d :: d in todo ==> d in old(doms) && todo[d] == old(doms)[d] == doms[d]
        invariant forall d :: d in doms && d !in todo ==>
                    doms[d] == old(doms)[d].(loadSum := Total(old(doms)[d].loads, Clamp(lambdaX)))
        invariant globalLoadSum + DomTotal(todo, Clamp(lambdaX)) == DomTotal(old(doms), Clamp(lambdaX))
        invariant effectiveMaxWeight == lambdaX
        decreases |todo|
      {
        var d :| d in todo;
        DomTotalRemove(todo, Clamp(lambdaX), d);
        RemoveShrinks(todo, d);
        var sum := SumClamped(todo[d].loads, lambdaX);
        doms := doms[d := doms[d].(loadSum := sum)];
        globalLoadSum := globalLoadSum + sum;
        todo := todo - {d};
      }
      DomTotalOfNone(Clamp(lambdaX));
    }

    /** Clamps the infeasible weights if a threshold is found; otherwise the machine is under-utilized. */
    method AdjustInfeasWeights() returns (found: bool, ghost top: nat)
      requires Consistent() && nrCpus >= 1 && NonNegative(log)
      modifies this`doms, this`globalLoadSum, this`effectiveMaxWeight
      ensures found ==> Clamped(doms, globalLoads, log, nrCpus as real, effectiveMaxWeight, globalLoadSum)
                        && FairGrants(globalLoads, log, nrCpus as real, effectiveMaxWeight, globalLoadSum)
                        && effectiveMaxWeight <= old(globalLoadSum) / nrCpus as real
                        && StopsAt(globalLoads, nrCpus as real, top, effectiveMaxWeight)
                        && DomainSums(doms, log, Clamp(effectiveMaxWeight))
      ensures !found ==> Consistent() && effectiveMaxWeight == old(effectiveMaxWeight) && LogTotal(log, One) < nrCpus as real
      ensures found <==> exists w :: w in globalLoads && Reaches(globalLoads, nrCpus as real, w)
      ensures doms.Keys == old(doms.Keys)
    {
      hide ConsistentWith, Total, LogTotal, DomTotal, Reaches, StopsAt, FairGrants, Clamped, BalancedAt, DomainSums;
      ghost var doms0, raw := doms, globalLoadSum;
      SearchSums(doms, globalLoads, maxWeight, globalDcycleSum, globalLoadSum, started, log);
      var lambdaX;
      found, lambdaX, top := FindThreshold(globalLoads, globalLoadSum, nrCpus as real);
      if found {
        ApplyInfeasibleThreshold(lambdaX);
        ThresholdApplied(doms0, globalLoads, maxWeight, globalDcycleSum, raw, started, log, doms, nrCpus as real, lambdaX, globalLoadSum);
      }
    }

    /** The sums of the domains, in the order of their ids. */
    method ListSums() returns (domLoadSums: seq<real>, domDcycleSums: seq<real>, ghost ids: seq<nat>)
      ensures Enumerates(ids, doms.Keys) && |domLoadSums| == |domDcycleSums| == |ids|
      ensures forall i :: 0 <= i < |ids| ==>
                ids[i] in doms && domLoadSums[i] == doms[ids[i]].loadSum && domDcycleSums[i] == doms[ids[i]].dcycleSum
    {
      domLoadSums, domDcycleSums, ids := [], [], [];
      var rest := doms.Keys;
      while rest != {}
        invariant rest <= doms.Keys && Enumerates(ids, doms.Keys - rest)
        invariant forall i, k :: 0 <= i < |ids| && k in rest ==> ids[i] < k
        invariant |domLoadSums| == |domDcycleSums| == |ids|
        invariant forall i :: 0 <= i < |ids| ==>
                    ids[i] in doms && domLoadSums[i] == doms[ids[i]].loadSum && domDcycleSums[i] == doms[ids[i]].dcycleSum
        decreases rest
      {
        ghost var _ := LeastExists(rest);
        var d :| d in rest && forall k :: k in rest ==> d <= k;
        EnumerateNext(ids, doms.Keys, rest, d);
        domLoadSums, domDcycleSums := domLoadSums + [doms[d].loadSum], domDcycleSums + [doms[d].dcycleSum];
        ids, rest := ids + [d], rest - {d};
      }
    }

    /**
     The ledger of the recorded loads, adjusted if the largest weight may be infeasible.  Its entries are
     the sums of each domain's own records, in the order of the ids.
     */
    method Calculate() returns (ledger: LoadLedger, adjusted: bool, ghost ids: seq<nat>, ghost top: nat)
      requires Consistent() && nrCpus >= 1 && NonNegative(log)
      modifies this`doms, this`globalLoadSum, this`effectiveMaxWeight
      ensures ledger.globalLoadSum == globalLoadSum && ledger.effectiveMaxWeight == effectiveMaxWeight
      ensures ledger.globalDcycleSum == globalDcycleSum == LogTotal(log, One)
      ensures Enumerates(ids, started + DomainsOf(log)) && |ledger.domLoadSums| == |ledger.domDcycleSums| == |ids|
      ensures forall i :: 0 <= i < |ids| ==>
                && ledger.domDcycleSums[i] == LogTotal(OfDomain(log, ids[i]), One)
                && ledger.domLoadSums[i] == LogTotal(OfDomain(log, ids[i]), if adjusted then Clamp(effectiveMaxWeight) else AsReal)
      ensures adjusted ==> Clamped(doms, globalLoads, log, nrCpus as real, effectiveMaxWeight, globalLoadSum)
                           && FairGrants(globalLoads, log, nrCpus as real, effectiveMaxWeight, globalLoadSum)
                           && StopsAt(globalLoads, nrCpus as real, top, effectiveMaxWeight)
      ensures !adjusted ==> Consistent() && effectiveMaxWeight == old(effectiveMaxWeight)
      ensures adjusted <==>
                && !dcycleOnly && maxWeight as real >= LogTotal(log, AsReal) / nrCpus as real - 0.0001
                && exists w :: w in globalLoads && Reaches(globalLoads, nrCpus as real, w)
      ensures LogTotal(log, One) >= nrCpus as real ==>
                (adjusted <==> !dcycleOnly && maxWeight as real >= LogTotal(log, AsReal) / nrCpus as real - 0.0001)
    {
      adjusted, top := false, 0;
      hide ConsistentWith, Total, LogTotal, Reaches, StopsAt, FairGrants, Clamped, Enumerates;
      SearchSums(doms, globalLoads, maxWeight, globalDcycleSum, globalLoadSum, started, log);
      ApproxGeIff(maxWeight as real, globalLoadSum / nrCpus as real);
      if !dcycleOnly && ApproxGe(maxWeight as real, globalLoadSum / nrCpus as real) {
        adjusted, top := AdjustInfeasWeights();
        if !adjusted { SearchSums(doms, globalLoads, maxWeight, globalDcycleSum, globalLoadSum, started, log); }
      }
      var domLoadSums, domDcycleSums;
      domLoadSums, domDcycleSums, ids := ListSums();
      ledger := LoadLedger(domLoadSums, domDcycleSums, globalDcycleSum, globalLoadSum, effectiveMaxWeight);
    }
  }

  // ---------- what the ledger grants ----------

  /** The sum of a quantity over the records. */
  ghost function SumBy(log: seq<Record>, f: Record -> real): real {
    if log == [] then 0.0 else SumBy(log[..|log| - 1], f) + f(log[|log| - 1])
  }

  lemma Combine(a: real, x: real, b: real, y: real, load: real, p: real)
    requires a * load == p * b && x * load == p * y
    ensures (a + x) * load == p * (b + y)
  {
    assert (a + x) * load == a * load + x * load;
    assert p * (b + y) == p * b + p * y;
  }

  /** Shares in proportion to load sum to the capacity shared. */
  lemma {:induction false} SharesAddUp(log: seq<Record>, share: Record -> real, f: nat -> real, p: real, load: real)
    requires forall r {:trigger share(r)} :: share(r) * load == p * (f(r.weight) * r.dcycle)
    ensures SumBy(log, share) * load == p * LogTotal(log, f)
  {
    if log != [] {
      var front, last := log[..|log| - 1], log[|log| - 1];
      SharesAddUp(front, share, f, p, load);
      Combine(SumBy(front, share), share(last), LogTotal(front, f), f(last.weight) * last.dcycle, load, p);
    }
  }

  lemma EqualFactor(a: real, b: real, c: real, d: real)
    requires c > 0.0 && a * c == b * d && d == c
    ensures a == b
  {
  }

  lemma SharesAreAll(log: seq<Record>, share: Record -> real, f: nat -> real, p: real, load: real)
    requires forall r {:trigger share(r)} :: share(r) * load == p * (f(r.weight) * r.dcycle)
    requires load == LogTotal(log, f) && load > 0.0
    ensures SumBy(log, share) == p
  {
    SharesAddUp(log, share, f, p, load);
    EqualFactor(SumBy(log, share), p, load, LogTotal(log, f));
  }

  lemma GrantTimes(p: real, lambdaX: real, load: real, r: Record)
    requires load > 0.0
    ensures Granted(p, lambdaX, load, r) * load == p * (Clamp(lambdaX)(r.weight) * r.dcycle)
  {
    QuotientTimes(p * (Clamp(lambdaX)(r.weight) * r.dcycle), load);
  }

  /** All the capacity is shared out: the grants of all records sum to the CPUs. */
  lemma CapacityIsShared(log: seq<Record>, p: real, lambdaX: real, load: real, share: Record -> real)
    requires load == LogTotal(log, Clamp(lambdaX)) && load > 0.0
    requires forall r {:trigger share(r)} :: share(r) == Granted(p, lambdaX, load, r)
    ensures SumBy(log, share) == p
  {
    hide SumBy, LogTotal;
    forall r {:trigger share(r)} ensures share(r) * load == p * (Clamp(lambdaX)(r.weight) * r.dcycle) {
      GrantTimes(p, lambdaX, load, r);
    }
    SharesAreAll(log, share, Clamp(lambdaX), p, load);
  }

  lemma OnlyId(ids: seq<nat>, d: nat)
    requires Enumerates(ids, {d})
    ensures ids == [d]
  {
    assert d in ids;
    var last := |ids| - 1;
    assert ids[0] in ids && ids[last] in ids;
  }

  lemma OneRecord(r: Record)
    ensures DomainsOf([] + [r]) == {r.dom} && OfDomain([] + [r], r.dom) == [] + [r]
    ensures LogTotal([] + [r], One) == r.dcycle && !HasPair([], r.dom, r.weight)
  {
    DomainsOfAppend([], r);
    OfDomainAppend([], r.dom, r);
    LogTotalAppend([], One, r);
  }

  /** A load recorded for domain 1 alone stands at position 0 of the ledger. */
  method LoneDomainStandsFirst() returns (ledger: LoadLedger)
    ensures ledger.domDcycleSums == [0.5]
  {
    hide ConsistentWith, Total, LogTotal, OfDomain, DomainsOf, HasPair, Enumerates, Clamped, FairGrants, StopsAt, Reaches;
    OneRecord(Record(1, 1, 0.5));
    var aggregator := new Aggregator(1, true);
    var result := aggregator.RecordDomLoad(1, 1, 0.5);
    var adjusted;
    ghost var ids, top;
    ledger, adjusted, ids, top := aggregator.Calculate();
    assert aggregator.started + DomainsOf(aggregator.log) == {1};
    OnlyId(ids, 1);
  }
}
