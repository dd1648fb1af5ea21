/**
 Which domain a record lands in (scx/rust/scx_utils/src/infeasible.rs:314-362), and how the ledger lists
 the domains (infeasible.rs:297-303).
 */
module DomainRecords {
  import opened LoadSums

  /** The records made for one domain, in order. */
  ghost function OfDomain(log: seq<Record>, d: nat): seq<Record> {
    if log == [] then []
    else OfDomain(log[..|log| - 1], d) + if log[|log| - 1].dom == d then [log[|log| - 1]] else []
  }

  lemma OfDomainAppend(log: seq<Record>, d: nat, r: Record)
    ensures OfDomain(log + [r], d) == OfDomain(log, d) + if r.dom == d then [r] else []
  {
    assert (log + [r])[..|log|] == log;
  }

  ghost function DomainsOf(log: seq<Record>): set<nat> {
    set i | 0 <= i < |log| :: log[i].dom
  }

  /** A record has been made for this domain and weight. */
  ghost predicate HasPair(log: seq<Record>, d: nat, w: nat) {
    exists i :: 0 <= i < |log| && log[i].dom == d && log[i].weight == w
  }

  ghost function LoadsOf(doms: map<nat, Domain>, d: nat): map<nat, real> {
    if d in doms then doms[d].loads else map[]
  }

  ghost predicate Holds(doms: map<nat, Domain>, r: Record) {
    r.weight in LoadsOf(doms, r.dom) && LoadsOf(doms, r.dom)[r.weight] == r.dcycle
  }

  /** The sums of every single domain are those of its own records, for every function of the weight. */
  ghost predicate SumsPlaced(doms: map<nat, Domain>, log: seq<Record>) {
    forall d: nat, f: nat -> real {:trigger Total(LoadsOf(doms, d), f)} ::
      Total(LoadsOf(doms, d), f) == LogTotal(OfDomain(log, d), f)
  }

  /** The domains are the started ones and those with records; each holds its own records and no others. */
  ghost predicate Placed(doms: map<nat, Domain>, started: set<nat>, log: seq<Record>) {
    && doms.Keys == started + DomainsOf(log)
    && (forall r: Record :: r in log <==> Holds(doms, r))
    && (forall i, j :: 0 <= i < j < |log| ==> !(log[i].dom == log[j].dom && log[i].weight == log[j].weight))
    && SumsPlaced(doms, log)
  }

  lemma PairIffHeld(doms: map<nat, Domain>, started: set<nat>, log: seq<Record>, d: nat, w: nat)
    requires Placed(doms, started, log)
    ensures HasPair(log, d, w) <==> d in doms && w in doms[d].loads
  {
    if HasPair(log, d, w) {
      var i :| 0 <= i < |log| && log[i].dom == d && log[i].weight == w;
      assert log[i] in log;
    }
    if d in doms && w in doms[d].loads {
      var r := Record(d, w, doms[d].loads[w]);
      assert Holds(doms, r);
      var i :| 0 <= i < |log| && log[i] == r;
    }
  }

  lemma SumsPlacedGrow(doms: map<nat, Domain>, log: seq<Record>, r: Record, dom': Domain)
    requires SumsPlaced(doms, log) && r.weight !in LoadsOf(doms, r.dom)
    requires dom'.loads == LoadsOf(doms, r.dom)[r.weight := r.dcycle]
    ensures SumsPlaced(doms[r.dom := dom'], log + [r])
  {
    hide Total, LogTotal, OfDomain;
    var doms' := doms[r.dom := dom'];
    forall d: nat, f: nat -> real {:trigger Total(LoadsOf(doms', d), f)}
      ensures Total(LoadsOf(doms', d), f) == LogTotal(OfDomain(log + [r], d), f)
    {
      OfDomainAppend(log, d, r);
      assert Total(LoadsOf(doms, d), f) == LogTotal(OfDomain(log, d), f);
      if d == r.dom {
        TotalPut(LoadsOf(doms, d), f, r.weight, r.dcycle);
        LogTotalAppend(OfDomain(log, d), f, r);
      } else {
        assert OfDomain(log, d) + [] == OfDomain(log, d);
      }
    }
  }

  lemma DomainsOfAppend(log: seq<Record>, r: Record)
    ensures DomainsOf(log + [r]) == DomainsOf(log) + {r.dom}
  {
    var log' := log + [r];
    assert log'[|log|] == r;
    forall i | 0 <= i < |log| ensures log[i].dom in DomainsOf(log') {
      assert log'[i] == log[i];
    }
  }

  lemma HoldsAppend(doms: map<nat, Domain>, log: seq<Record>, r: Record, dom': Domain)
    requires forall q: Record :: q in log <==> Holds(doms, q)
    requires r.weight !in LoadsOf(doms, r.dom) && dom'.loads == LoadsOf(doms, r.dom)[r.weight := r.dcycle]
    ensures forall q: Record :: q in log + [r] <==> Holds(doms[r.dom := dom'], q)
  {
    forall q: Record ensures q in log + [r] <==> Holds(doms[r.dom := dom'], q) {
      assert q in log + [r] <==> q in log || q == r;
      assert q in log <==> Holds(doms, q);
    }
  }

  /** An accepted record lands in its own domain and leaves the others alone. */
  lemma RecordIsPlaced(doms: map<nat, Domain>, started: set<nat>, log: seq<Record>, r: Record, dom': Domain)
    requires Placed(doms, started, log) && r.weight !in LoadsOf(doms, r.dom)
    requires dom'.loads == LoadsOf(doms, r.dom)[r.weight := r.dcycle]
    ensures Placed(doms[r.dom := dom'], started, log + [r])
  {
    hide SumsPlaced;
    SumsPlacedGrow(doms, log, r, dom');
    DomainsOfAppend(log, r);
    HoldsAppend(doms, log, r, dom');
    forall i | 0 <= i < |log| ensures !(log[i].dom == r.dom && log[i].weight == r.weight) {
      assert log[i] in log;
      assert Holds(doms, log[i]);
    }
  }

  lemma StartIsPlaced(doms: map<nat, Domain>, started: set<nat>, log: seq<Record>, d: nat, dom: Domain)
    requires Placed(doms, started, log) && d !in doms && dom.loads == map[]
    ensures Placed(doms[d := dom], started + {d}, log)
  {
    var doms' := doms[d := dom];
    forall k: nat ensures LoadsOf(doms', k) == LoadsOf(doms, k) { }
    assert forall r: Record :: Holds(doms', r) <==> Holds(doms, r);
    forall k: nat, f: nat -> real {:trigger Total(LoadsOf(doms', k), f)}
      ensures Total(LoadsOf(doms', k), f) == LogTotal(OfDomain(log, k), f)
    {
      assert Total(LoadsOf(doms, k), f) == LogTotal(OfDomain(log, k), f);
    }
  }

  /** Threshold or not, only the entries count. */
  lemma SameLoadsPlaced(doms: map<nat, Domain>, doms': map<nat, Domain>, started: set<nat>, log: seq<Record>)
    requires Placed(doms, started, log) && doms'.Keys == doms.Keys
    requires forall d :: d in doms ==> doms'[d].loads == doms[d].loads
    ensures Placed(doms', started, log)
  {
    forall k: nat ensures LoadsOf(doms', k) == LoadsOf(doms, k) { }
    assert forall r: Record :: Holds(doms', r) <==> Holds(doms, r);
    forall k: nat, f: nat -> real {:trigger Total(LoadsOf(doms', k), f)}
      ensures Total(LoadsOf(doms', k), f) == LogTotal(OfDomain(log, k), f)
    {
      assert Total(LoadsOf(doms, k), f) == LogTotal(OfDomain(log, k), f);
    }
  }

  lemma DomainSum(doms: map<nat, Domain>, started: set<nat>, log: seq<Record>, d: nat, f: nat -> real)
    requires Placed(doms, started, log) && d in doms
    ensures Total(doms[d].loads, f) == LogTotal(OfDomain(log, d), f)
  {
    assert LoadsOf(doms, d) == doms[d].loads;
  }

  // ---------- the order of the ledger ----------

  /** The ids of some domains, in increasing order. */
  ghost predicate Enumerates(ids: seq<nat>, domains: set<nat>) {
    && (forall i, j :: 0 <= i < j < |ids| ==> ids[i] < ids[j])
    && (forall d :: d in ids <==> d in domains)
  }

  lemma {:induction false} LeastExists(s: set<nat>) returns (w: nat)
    requires s != {}
    ensures w in s && forall k :: k in s ==> w <= k
    decreases |s|
  {
    var u :| u in s;
    w := u;
    if s != {u} {
      var t := s - {u};
      assert |t| < |s|;
      var v := LeastExists(t);
      w := if v < u then v else u;
      assert forall k :: k in s ==> k in t || k == u;
    }
  }

  lemma {:induction false} IdsAtLeast(ids: seq<nat>, i: nat)
    requires i < |ids| && forall i, j :: 0 <= i < j < |ids| ==> ids[i] < ids[j]
    ensures ids[i] >= i
  {
    if i > 0 { IdsAtLeast(ids, i - 1); }
  }

  lemma {:induction false} IdsAtMost(ids: seq<nat>, i: nat, n: nat)
    requires i < |ids| == n && (forall i, j :: 0 <= i < j < |ids| ==> ids[i] < ids[j]) && forall k :: 0 <= k < |ids| ==> ids[k] < n
    ensures ids[i] <= i
    decreases n - i
  {
    if i + 1 < n { IdsAtMost(ids, i + 1, n); }
  }

  /** The position of every domain in the ledger is its id exactly if no id reaches the number of domains. */
  lemma IndexedByIdIff(ids: seq<nat>, domains: set<nat>)
    requires Enumerates(ids, domains)
    ensures (forall i :: 0 <= i < |ids| ==> ids[i] == i) <==> forall d :: d in domains ==> d < |ids|
  {
    if forall i :: 0 <= i < |ids| ==> ids[i] == i {
      forall d | d in domains ensures d < |ids| {
        assert d in ids;
      }
    }
    if forall d :: d in domains ==> d < |ids| {
      forall k | 0 <= k < |ids| ensures ids[k] < |ids| {
        assert ids[k] in ids;
      }
      forall i | 0 <= i < |ids| ensures ids[i] == i {
        IdsAtLeast(ids, i);
        IdsAtMost(ids, i, |ids|);
      }
    }
  }

  /** Taking the least id of what is left goes on with the list. */
  lemma EnumerateNext(ids: seq<nat>, domains: set<nat>, rest: set<nat>, d: nat)
    requires rest <= domains && Enumerates(ids, domains - rest) && d in rest && (forall k :: k in rest ==> d <= k)
    requires forall i, k :: 0 <= i < |ids| && k in rest ==> ids[i] < k
    ensures Enumerates(ids + [d], domains - (rest - {d}))
    ensures forall i, k :: 0 <= i < |ids| + 1 && k in rest - {d} ==> (ids + [d])[i] < k
  {
    forall k ensures k in ids + [d] <==> k in domains - (rest - {d}) {
      assert k in ids + [d] <==> k in ids || k == d;
    }
  }
}
