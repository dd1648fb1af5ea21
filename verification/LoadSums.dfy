/**
 Weighted sums of duty cycles (scx/rust/scx_utils/src/infeasible.rs): per domain, per weight, and over
 the log of what was recorded.  All are taken with an arbitrary function `f` of the weight, so that one
 statement covers duty cycles (`f` constantly 1), loads (`f` the weight) and clamped loads.
 */
module LoadSums {
  datatype Domain = Domain(loads: map<nat, real>, dcycleSum: real, loadSum: real)

  const EMPTY_DOMAIN := Domain(map[], 0.0, 0.0)

  datatype Record = Record(dom: nat, weight: nat, dcycle: real)

  function One(w: nat): real { 1.0 }

  function AsReal(w: nat): real { w as real }

  function Min(a: real, b: real): real { if a <= b then a else b }

  function Clamp(lambdaX: real): nat -> real {
    (w: nat) => Min(w as real, lambdaX)
  }

  lemma RemoveShrinks<V>(m: map<nat, V>, k: nat)
    requires k in m
    ensures |m - {k}| == |m| - 1
  {
    assert (m - {k}).Keys == m.Keys - {k};
  }

  /** Sum of a value per entry over a map. */
  ghost function SumOf<V>(m: map<nat, V>, g: (nat, V) -> real): real
    decreases |m|
  {
    if m == map[] then 0.0
    else
      var k :| k in m;
      assert |m - {k}| < |m| by { RemoveShrinks(m, k); }
      g(k, m[k]) + SumOf(m - {k}, g)
  }

  lemma {:induction false} SumRemove<V>(m: map<nat, V>, g: (nat, V) -> real, k: nat)
    requires k in m
    ensures SumOf(m, g) == g(k, m[k]) + SumOf(m - {k}, g)
    decreases |m|
  {
    var j :| j in m && SumOf(m, g) == g(j, m[j]) + SumOf(m - {j}, g);
    if j != k {
      RemoveShrinks(m, j);
      RemoveShrinks(m, k);
      SumRemove(m - {j}, g, k);
      SumRemove(m - {k}, g, j);
      assert m - {j} - {k} == m - {k} - {j};
    }
  }

  /** Putting one entry moves the sum by that entry alone. */
  lemma SumPut<V>(m: map<nat, V>, g: (nat, V) -> real, k: nat, v: V)
    ensures SumOf(m[k := v], g) == SumOf(m, g) + g(k, v) - (if k in m then g(k, m[k]) else 0.0)
  {
    SumRemove(m[k := v], g, k);
    if k in m {
      SumRemove(m, g, k);
      assert m[k := v] - {k} == m - {k};
    } else {
      assert m[k := v] - {k} == m;
    }
  }

  ghost function Weighted(f: nat -> real): (nat, real) -> real {
    (k: nat, d: real) => f(k) * d
  }

  /** Sum over a map from weights to duty cycles. */
  ghost function Total(m: map<nat, real>, f: nat -> real): real {
    SumOf(m, Weighted(f))
  }

  ghost function PerDomain(f: nat -> real): (nat, Domain) -> real {
    (k: nat, dom: Domain) => Total(dom.loads, f)
  }

  /** Sum over all domains. */
  ghost function DomTotal(doms: map<nat, Domain>, f: nat -> real): real {
    SumOf(doms, PerDomain(f))
  }

  lemma DomTotalOfNone(f: nat -> real)
    ensures DomTotal(map[], f) == 0.0
  {
  }

  lemma TotalOfNone(f: nat -> real)
    ensures Total(map[], f) == 0.0
  {
  }

  lemma TotalPut(m: map<nat, real>, f: nat -> real, k: nat, d: real)
    ensures Total(m[k := d], f) == Total(m, f) + f(k) * d - (if k in m then f(k) * m[k] else 0.0)
  {
    hide SumOf;
    SumPut(m, Weighted(f), k, d);
  }

  lemma TotalRemove(m: map<nat, real>, f: nat -> real, k: nat)
    requires k in m
    ensures Total(m, f) == f(k) * m[k] + Total(m - {k}, f)
  {
    SumRemove(m, Weighted(f), k);
  }

  lemma DomTotalPut(doms: map<nat, Domain>, f: nat -> real, k: nat, dom: Domain)
    ensures DomTotal(doms[k := dom], f) ==
            DomTotal(doms, f) + Total(dom.loads, f) - (if k in doms then Total(doms[k].loads, f) else 0.0)
  {
    SumPut(doms, PerDomain(f), k, dom);
  }

  lemma DomTotalRemove(doms: map<nat, Domain>, f: nat -> real, k: nat)
    requires k in doms
    ensures DomTotal(doms, f) == Total(doms[k].loads, f) + DomTotal(doms - {k}, f)
  {
    SumRemove(doms, PerDomain(f), k);
  }

  /** Sum over the log of successful records. */
  ghost function LogTotal(log: seq<Record>, f: nat -> real): real {
    if log == [] then 0.0
    else LogTotal(log[..|log| - 1], f) + f(log[|log| - 1].weight) * log[|log| - 1].dcycle
  }

  lemma LogTotalAppend(log: seq<Record>, f: nat -> real, r: Record)
    ensures LogTotal(log + [r], f) == LogTotal(log, f) + f(r.weight) * r.dcycle
  {
    assert (log + [r])[..|log|] == log;
  }

  ghost predicate NonNegative(log: seq<Record>) {
    forall i :: 0 <= i < |log| ==> log[i].dcycle >= 0.0
  }

  // ---------- comparing sums ----------

  /** Entry by entry larger values give a larger sum. */
  lemma {:induction false} SumMonotone<V>(m: map<nat, V>, g: (nat, V) -> real, h: (nat, V) -> real)
    requires forall k :: k in m ==> g(k, m[k]) <= h(k, m[k])
    ensures SumOf(m, g) <= SumOf(m, h)
    decreases |m|
  {
    if m != map[] {
      var k :| k in m;
      SumRemove(m, g, k);
      SumRemove(m, h, k);
      RemoveShrinks(m, k);
      SumMonotone(m - {k}, g, h);
    }
  }

  /** A sum of entries that are sums is the sum of the sums. */
  lemma {:induction false} SumAdds<V>(m: map<nat, V>, g: (nat, V) -> real, h: (nat, V) -> real, r: (nat, V) -> real)
    requires forall k :: k in m ==> r(k, m[k]) == g(k, m[k]) + h(k, m[k])
    ensures SumOf(m, r) == SumOf(m, g) + SumOf(m, h)
    decreases |m|
  {
    if m != map[] {
      var k :| k in m;
      SumRemove(m, g, k);
      SumRemove(m, h, k);
      SumRemove(m, r, k);
      RemoveShrinks(m, k);
      SumAdds(m - {k}, g, h, r);
    }
  }

  lemma Distribute(c: real, a: real, b: real)
    ensures c * (1.0 * a + b) == c * a + c * b
  {
  }

  lemma {:induction false} TotalScales(m: map<nat, real>, c: real, f: nat -> real)
    requires forall k :: k in m ==> f(k) == c
    ensures Total(m, f) == c * Total(m, One)
    decreases |m|
  {
    if m != map[] {
      var k :| k in m;
      TotalRemove(m, f, k);
      TotalRemove(m, One, k);
      RemoveShrinks(m, k);
      TotalScales(m - {k}, c, f);
      Distribute(c, m[k], Total(m - {k}, One));
    }
  }

  ghost predicate NonNegativeMap(m: map<nat, real>) {
    forall k :: k in m ==> m[k] >= 0.0
  }

  lemma ProductMonotone(a: real, b: real, d: real)
    requires a <= b && d >= 0.0
    ensures a * d <= b * d
  {
  }

  lemma TotalMonotone(m: map<nat, real>, f: nat -> real, g: nat -> real)
    requires NonNegativeMap(m) && forall k :: k in m ==> f(k) <= g(k)
    ensures Total(m, f) <= Total(m, g)
  {
    forall k | k in m ensures Weighted(f)(k, m[k]) <= Weighted(g)(k, m[k]) {
      ProductMonotone(f(k), g(k), m[k]);
    }
    SumMonotone(m, Weighted(f), Weighted(g));
  }

  lemma {:induction false} LogTotalNonNegative(log: seq<Record>, f: nat -> real)
    requires NonNegative(log) && forall w: nat :: f(w) >= 0.0
    ensures LogTotal(log, f) >= 0.0
  {
    if log != [] {
      LogTotalNonNegative(log[..|log| - 1], f);
      ProductMonotone(0.0, f(log[|log| - 1].weight), log[|log| - 1].dcycle);
    }
  }
}
