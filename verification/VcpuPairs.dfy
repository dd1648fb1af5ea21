/**
 Choosing main/helper vCPU pairs from a detected topology (src/evset_para.c): two vCPUs of one
 socket that are not threads of one core, each vCPU used at most once.
 */
module VcpuPairs {
  import opened Common
  import opened TopologyProbe

  datatype Assignment = Assignment(mainVcpu: int, helperVcpu: int, inUse: bool)

  /** The arrays of the topology cover all its vCPUs. */
  ghost predicate WellFormed(topo: CpuTopology, nrCpus: nat) {
    && nrCpus <= |topo.cpuToSocket| && nrCpus <= |topo.relation|
    && forall i :: 0 <= i < nrCpus ==> nrCpus <= |topo.relation[i]|
  }

  predicate SmtRelated(topo: CpuTopology, nrCpus: nat, a: int, b: int)
    requires WellFormed(topo, nrCpus) && 0 <= a < nrCpus && 0 <= b < nrCpus
  {
    topo.relation[a][b] == Smt
  }

  /** Sharing a core is an equivalence, as it is for every topology `DetectVcpuTopology` reports. */
  ghost predicate SmtEquivalence(topo: CpuTopology, nrCpus: nat)
    requires WellFormed(topo, nrCpus)
  {
    && (forall a, b :: 0 <= a < nrCpus && 0 <= b < nrCpus && SmtRelated(topo, nrCpus, a, b) ==> SmtRelated(topo, nrCpus, b, a))
    && (forall a, b, c | 0 <= a < nrCpus && 0 <= b < nrCpus && 0 <= c < nrCpus ::
          SmtRelated(topo, nrCpus, a, b) && SmtRelated(topo, nrCpus, b, c) ==> SmtRelated(topo, nrCpus, a, c))
  }

  ghost predicate Member(ps: seq<Assignment>, v: int) {
    exists k :: 0 <= k < |ps| && (ps[k].mainVcpu == v || ps[k].helperVcpu == v)
  }

  /** A vCPU pair the builder may run on. */
  ghost predicate GoodPair(topo: CpuTopology, nrCpus: nat, p: Assignment)
    requires WellFormed(topo, nrCpus)
  {
    && p.inUse && p.mainVcpu != p.helperVcpu
    && 0 <= p.mainVcpu < nrCpus && 0 <= p.helperVcpu < nrCpus
    && topo.cpuToSocket[p.mainVcpu] == topo.cpuToSocket[p.helperVcpu]
    && !SmtRelated(topo, nrCpus, p.mainVcpu, p.helperVcpu)
  }

  predicate Apart(p: Assignment, q: Assignment) {
    && p.mainVcpu != q.mainVcpu && p.mainVcpu != q.helperVcpu
    && p.helperVcpu != q.mainVcpu && p.helperVcpu != q.helperVcpu
  }

  ghost predicate GoodPairs(topo: CpuTopology, nrCpus: nat, ps: seq<Assignment>)
    requires WellFormed(topo, nrCpus)
  {
    && (forall k :: 0 <= k < |ps| ==> GoodPair(topo, nrCpus, ps[k]))
    && (forall k, l :: 0 <= k < l < |ps| ==> Apart(ps[k], ps[l]))
  }

  /** The `used` flags mark exactly the members of the pairs found so far. */
  ghost predicate Tracks(used: seq<bool>, ps: seq<Assignment>) {
    forall v {:trigger Member(ps, v)} :: 0 <= v < |used| ==> (used[v] <==> Member(ps, v))
  }

  lemma AddPair(topo: CpuTopology, nrCpus: nat, ps: seq<Assignment>, p: Assignment, used: seq<bool>)
    requires WellFormed(topo, nrCpus) && GoodPairs(topo, nrCpus, ps) && GoodPair(topo, nrCpus, p)
    requires |used| == nrCpus && Tracks(used, ps) && !used[p.mainVcpu] && !used[p.helperVcpu]
    ensures GoodPairs(topo, nrCpus, ps + [p])
    ensures Tracks(used[p.mainVcpu := true][p.helperVcpu := true], ps + [p])
  {
    var ps', used' := ps + [p], used[p.mainVcpu := true][p.helperVcpu := true];
    forall k | 0 <= k < |ps| ensures Apart(ps[k], p) {
      assert Member(ps, ps[k].mainVcpu) && Member(ps, ps[k].helperVcpu);
    }
    forall v | 0 <= v < |used| ensures used'[v] <==> Member(ps', v) {
      if Member(ps, v) {
        var k :| 0 <= k < |ps| && (ps[k].mainVcpu == v || ps[k].helperVcpu == v);
        assert ps'[k] == ps[k];
      }
      assert ps'[|ps|] == p;
    }
  }

  /** A list of unused vCPUs of one socket, none twice. */
  ghost predicate SocketList(topo: CpuTopology, nrCpus: nat, socket: int, s: seq<int>)
    requires WellFormed(topo, nrCpus)
  {
    && Distinct(s)
    && forall i :: 0 <= i < |s| ==> 0 <= s[i] < nrCpus && topo.cpuToSocket[s[i]] == socket
  }

  /** Everything from position `from` on is one core. */
  ghost predicate OneCore(topo: CpuTopology, nrCpus: nat, s: seq<int>, from: int)
    requires WellFormed(topo, nrCpus) && 0 <= from
    requires forall i :: 0 <= i < |s| ==> 0 <= s[i] < nrCpus
  {
    forall i, j :: from <= i < |s| && from <= j < |s| && i != j ==> SmtRelated(topo, nrCpus, s[i], s[j])
  }

  /** No further pair can be formed from the unused vCPUs of the list. */
  ghost predicate Exhausted(topo: CpuTopology, nrCpus: nat, vcpus: multiset<int>, used: seq<bool>)
    requires WellFormed(topo, nrCpus) && |used| == nrCpus
  {
    forall a, b | 0 <= a < nrCpus && 0 <= b < nrCpus && a in vcpus && b in vcpus && a != b && !used[a] && !used[b] ::
      SmtRelated(topo, nrCpus, a, b)
  }

  ghost predicate InRange(s: seq<int>, nrCpus: nat) {
    forall i :: 0 <= i < |s| ==> 0 <= s[i] < nrCpus
  }

  predicate PairInRange(p: Assignment, nrCpus: nat) {
    0 <= p.mainVcpu < nrCpus && 0 <= p.helperVcpu < nrCpus
  }

  ghost predicate PairsInRange(ps: seq<Assignment>, nrCpus: nat) {
    forall k {:trigger PairInRange(ps[k], nrCpus)} :: 0 <= k < |ps| ==> PairInRange(ps[k], nrCpus)
  }

  // ---------- what is paired with what ----------

  /** The first position from `j` on that holds a vCPU on another core than `s[i]`, or the end of the list. */
  ghost function PartnerFrom(topo: CpuTopology, nrCpus: nat, s: seq<int>, i: nat, j: nat): (r: nat)
    requires WellFormed(topo, nrCpus) && InRange(s, nrCpus) && i < j <= |s|
    ensures j <= r <= |s|
    decreases |s| - j
  {
    if j == |s| || !SmtRelated(topo, nrCpus, s[i], s[j]) then j else PartnerFrom(topo, nrCpus, s, i, j + 1)
  }

  lemma {:induction false} PartnerIsFirst(topo: CpuTopology, nrCpus: nat, s: seq<int>, i: nat, j: nat)
    requires WellFormed(topo, nrCpus) && InRange(s, nrCpus) && i < j <= |s|
    ensures var r := PartnerFrom(topo, nrCpus, s, i, j);
            && (r < |s| ==> !SmtRelated(topo, nrCpus, s[i], s[r]))
            && forall k :: j <= k < r ==> SmtRelated(topo, nrCpus, s[i], s[k])
    decreases |s| - j
  {
    if j < |s| && SmtRelated(topo, nrCpus, s[i], s[j]) {
      PartnerIsFirst(topo, nrCpus, s, i, j + 1);
    }
  }

  /** The list after a turn of the pairing loop at `i`: the first vCPU of another core is swapped next to `s[i]`. */
  ghost function Partnered(topo: CpuTopology, nrCpus: nat, s: seq<int>, i: nat): (r: seq<int>)
    requires WellFormed(topo, nrCpus) && InRange(s, nrCpus) && i + 1 < |s|
    ensures |r| == |s| && InRange(r, nrCpus)
  {
    var j := PartnerFrom(topo, nrCpus, s, i, i + 1);
    if j == |s| then s else Swap(s, i + 1, j)
  }

  /** The pair formed in that turn, if any. */
  ghost function Taken(topo: CpuTopology, nrCpus: nat, s: seq<int>, i: nat): (p: seq<Assignment>)
    requires WellFormed(topo, nrCpus) && InRange(s, nrCpus) && i + 1 < |s|
    ensures |p| <= 1 && PairsInRange(p, nrCpus)
  {
    var j := PartnerFrom(topo, nrCpus, s, i, i + 1);
    if j == |s| then [] else [Assignment(s[i], s[j], true)]
  }

  /** The pairs formed from position `i` of a list on. */
  ghost function PairList(topo: CpuTopology, nrCpus: nat, s: seq<int>, i: nat): (l: seq<Assignment>)
    requires WellFormed(topo, nrCpus) && InRange(s, nrCpus)
    ensures PairsInRange(l, nrCpus)
    decreases |s| - i
  {
    if i + 1 >= |s| then []
    else Taken(topo, nrCpus, s, i) + PairList(topo, nrCpus, Partnered(topo, nrCpus, s, i), i + 2)
  }

  /** The list with a partner swapped into position `p` from there or from further back. */
  ghost predicate Moved(s: seq<int>, s': seq<int>, p: int)
    requires 0 <= p < |s|
  {
    exists j :: p <= j < |s| && s' == Swap(s, p, j)
  }

  /** Keeps the neighbour of position `i` if it is on another core, else swaps in the first later one that is. */
  method FindPartner(topo: CpuTopology, nrCpus: nat, list: array<int>, count: nat, i: nat) returns (found: bool)
    requires WellFormed(topo, nrCpus) && i + 1 < count <= list.Length && InRange(list[..count], nrCpus)
    modifies list
    ensures list[..count] == Partnered(topo, nrCpus, old(list[..count]), i)
    ensures found <==> Taken(topo, nrCpus, old(list[..count]), i) != []
  {
    ghost var s := list[..count];
    assert forall k :: 0 <= k < count ==> list[k] == s[k];
    ghost var r := PartnerFrom(topo, nrCpus, s, i, i + 1);
    if !SmtRelated(topo, nrCpus, list[i], list[i + 1]) {
      assert list[..count] == Swap(s, i + 1, i + 1);
      return true;
    }
    var j := i + 2;
    while j < count
      invariant i + 2 <= j <= count && list[..count] == s
      invariant PartnerFrom(topo, nrCpus, s, i, j) == r
    {
      if !SmtRelated(topo, nrCpus, list[i], list[j]) {
        var tmp := list[i + 1];
        list[i + 1] := list[j];
        list[j] := tmp;
        assert list[..count] == Swap(s, i + 1, j);
        return true;
      }
      j := j + 1;
    }
    return false;
  }

  /** The unused vCPUs of a socket below `n`, in increasing order. */
  ghost function Unused(topo: CpuTopology, socket: int, used: seq<bool>, n: nat): (s: seq<int>)
    requires n <= |used| && n <= |topo.cpuToSocket|
    ensures |s| <= n && InRange(s, n)
  {
    if n == 0 then []
    else Unused(topo, socket, used, n - 1) + if topo.cpuToSocket[n - 1] == socket && !used[n - 1] then [n - 1] else []
  }

  lemma {:induction false} UnusedAre(topo: CpuTopology, socket: int, used: seq<bool>, n: nat)
    requires n <= |used| && n <= |topo.cpuToSocket|
    ensures var s := Unused(topo, socket, used, n);
            && Distinct(s)
            && (forall k :: 0 <= k < |s| ==> topo.cpuToSocket[s[k]] == socket && !used[s[k]])
            && (forall v :: 0 <= v < n && topo.cpuToSocket[v] == socket && !used[v] ==> v in s)
  {
    if n > 0 {
      UnusedAre(topo, socket, used, n - 1);
    }
  }

  method CollectSocket(topo: CpuTopology, nrCpus: nat, socket: int, used: array<bool>)
    returns (list: array<int>, count: nat)
    requires WellFormed(topo, nrCpus) && used.Length == nrCpus
    ensures fresh(list) && count <= list.Length && list[..count] == Unused(topo, socket, used[..], nrCpus)
  {
    list := new int[nrCpus];
    count := 0;
    ghost var u := used[..];
    for i := 0 to nrCpus
      invariant count <= i && used[..] == u && list[..count] == Unused(topo, socket, u, i)
    {
      assert used[i] == u[i];
      if topo.cpuToSocket[i] == socket && !used[i] {
        ghost var s := list[..count];
        list[count] := i;
        count := count + 1;
        assert list[..count] == s + [i];
      }
    }
  }

  lemma SwapKeepsList(topo: CpuTopology, nrCpus: nat, socket: int, s: seq<int>, i: int, j: int)
    requires WellFormed(topo, nrCpus) && SocketList(topo, nrCpus, socket, s)
    requires 0 <= i < |s| && 0 <= j < |s|
    ensures SocketList(topo, nrCpus, socket, Swap(s, i, j))
  {
  }

  /** A vCPU on the same core as everything after it makes the whole rest one core. */
  lemma RestIsOneCore(topo: CpuTopology, nrCpus: nat, s: seq<int>, i: int)
    requires WellFormed(topo, nrCpus) && SmtEquivalence(topo, nrCpus) && 0 <= i < |s|
    requires forall k :: 0 <= k < |s| ==> 0 <= s[k] < nrCpus
    requires forall j :: i + 1 <= j < |s| ==> SmtRelated(topo, nrCpus, s[i], s[j])
    ensures OneCore(topo, nrCpus, s, i)
  {
    forall j, k | i <= j < |s| && i <= k < |s| && j != k ensures SmtRelated(topo, nrCpus, s[j], s[k]) {
      assert j > i ==> SmtRelated(topo, nrCpus, s[i], s[j]) && SmtRelated(topo, nrCpus, s[j], s[i]);
      assert k > i ==> SmtRelated(topo, nrCpus, s[i], s[k]);
    }
  }

  /** How far the pairing of one list has got: nothing from `i` on is used, everything before `stuck` is. */
  ghost predicate Paired(topo: CpuTopology, nrCpus: nat, s: seq<int>, used: seq<bool>, stuck: int, i: int)
    requires WellFormed(topo, nrCpus) && |used| == nrCpus
    requires forall k :: 0 <= k < |s| ==> 0 <= s[k] < nrCpus
  {
    && 0 <= stuck <= i <= |s|
    && (forall k :: 0 <= k < |s| ==> (used[s[k]] <==> k < stuck))
    && (stuck < i ==> OneCore(topo, nrCpus, s, stuck))
  }

  /** One list being paired up: the pairs so far are good, and nothing from position `i` on is used. */
  ghost predicate Pairing(topo: CpuTopology, nrCpus: nat, socket: int, s: seq<int>, used: seq<bool>,
                          ps: seq<Assignment>, i: int)
    requires WellFormed(topo, nrCpus)
  {
    && |used| == nrCpus && 0 <= i <= |s|
    && SocketList(topo, nrCpus, socket, s)
    && GoodPairs(topo, nrCpus, ps) && Tracks(used, ps)
    && forall k :: i <= k < |s| ==> !used[s[k]]
  }

  function Mark(used: seq<bool>, a: int, b: int): (r: seq<bool>)
    requires 0 <= a < |used| && 0 <= b < |used|
    ensures |r| == |used|
  {
    used[a := true][b := true]
  }

  lemma MovedKeeps(topo: CpuTopology, nrCpus: nat, socket: int, s: seq<int>, s': seq<int>, used: seq<bool>,
                   ps: seq<Assignment>, i: int)
    requires WellFormed(topo, nrCpus) && Pairing(topo, nrCpus, socket, s, used, ps, i)
    requires i + 1 < |s| && Moved(s, s', i + 1)
    ensures Pairing(topo, nrCpus, socket, s', used, ps, i) && |s'| == |s| && s'[i] == s[i]
    ensures multiset(s') == multiset(s) && (forall k :: 0 <= k < i ==> s'[k] == s[k])
  {
    var p := i + 1;
    var j :| p <= j < |s| && s' == Swap(s, p, j);
    SwapKeepsList(topo, nrCpus, socket, s, p, j);
    SwapPermutes(s, p, j);
  }

  lemma PairTaken(topo: CpuTopology, nrCpus: nat, socket: int, s: seq<int>, used: seq<bool>, ps: seq<Assignment>, i: int)
    requires WellFormed(topo, nrCpus) && Pairing(topo, nrCpus, socket, s, used, ps, i)
    requires i + 1 < |s| && !SmtRelated(topo, nrCpus, s[i], s[i + 1])
    ensures Pairing(topo, nrCpus, socket, s, Mark(used, s[i], s[i + 1]), ps + [Assignment(s[i], s[i + 1], true)], i + 2)
    ensures forall k :: 0 <= k < i ==> Mark(used, s[i], s[i + 1])[s[k]] == used[s[k]]
  {
    AddPair(topo, nrCpus, ps, Assignment(s[i], s[i + 1], true), used);
  }

  /** With sharing a core an equivalence, no pair is found after the first miss. */
  lemma TakenPaired(topo: CpuTopology, nrCpus: nat, socket: int, s: seq<int>, s': seq<int>, used: seq<bool>,
                    ps: seq<Assignment>, stuck: int, i: int)
    requires WellFormed(topo, nrCpus) && SmtEquivalence(topo, nrCpus)
    requires Pairing(topo, nrCpus, socket, s, used, ps, i) && i + 1 < |s| && Moved(s, s', i + 1)
    requires Pairing(topo, nrCpus, socket, s', used, ps, i)
    requires Paired(topo, nrCpus, s, used, stuck, i)
    requires !SmtRelated(topo, nrCpus, s'[i], s'[i + 1])
    ensures Paired(topo, nrCpus, s', Mark(used, s'[i], s'[i + 1]), i + 2, i + 2)
  {
  }

  lemma TurnPermutes(topo: CpuTopology, nrCpus: nat, s: seq<int>, i: nat)
    requires WellFormed(topo, nrCpus) && InRange(s, nrCpus) && i + 1 < |s|
    ensures multiset(Partnered(topo, nrCpus, s, i)) == multiset(s)
  {
    var j := PartnerFrom(topo, nrCpus, s, i, i + 1);
    if j < |s| {
      SwapPermutes(s, i + 1, j);
    }
  }

  /** A pair is formed with the first vCPU of another core; without one, all the rest is on the core of `s[i]`. */
  lemma TurnTakes(topo: CpuTopology, nrCpus: nat, s: seq<int>, i: nat)
    requires WellFormed(topo, nrCpus) && InRange(s, nrCpus) && i + 1 < |s|
    ensures var s', p := Partnered(topo, nrCpus, s, i), Taken(topo, nrCpus, s, i);
            if p == [] then s' == s && forall j :: i + 1 <= j < |s| ==> SmtRelated(topo, nrCpus, s[i], s[j])
            else p == [Assignment(s'[i], s'[i + 1], true)] && !SmtRelated(topo, nrCpus, s'[i], s'[i + 1]) && Moved(s, s', i + 1)
  {
    PartnerIsFirst(topo, nrCpus, s, i, i + 1);
  }

  /** The flags after all pairs of a list have been marked. */
  ghost function MarkAll(used: seq<bool>, ps: seq<Assignment>): (r: seq<bool>)
    ensures |r| == |used|
  {
    seq(|used|, v requires 0 <= v < |used| => used[v] || Member(ps, v))
  }

  lemma MemberOfJoin(ps: seq<Assignment>, qs: seq<Assignment>, v: int)
    ensures Member(ps + qs, v) <==> Member(ps, v) || Member(qs, v)
  {
    if Member(ps, v) {
      var k :| 0 <= k < |ps| && (ps[k].mainVcpu == v || ps[k].helperVcpu == v);
      assert (ps + qs)[k] == ps[k];
    }
    if Member(qs, v) {
      var k :| 0 <= k < |qs| && (qs[k].mainVcpu == v || qs[k].helperVcpu == v);
      assert (ps + qs)[|ps| + k] == qs[k];
    }
    if Member(ps + qs, v) {
      var k :| 0 <= k < |ps + qs| && ((ps + qs)[k].mainVcpu == v || (ps + qs)[k].helperVcpu == v);
      assert k >= |ps| ==> (ps + qs)[k] == qs[k - |ps|];
    }
  }

  lemma MarkAllNone(used: seq<bool>)
    ensures MarkAll(used, []) == used
  {
  }

  lemma MarkAllJoin(used: seq<bool>, ps: seq<Assignment>, qs: seq<Assignment>)
    ensures MarkAll(used, ps + qs) == MarkAll(MarkAll(used, ps), qs)
  {
    forall v | 0 <= v < |used| ensures MarkAll(used, ps + qs)[v] == MarkAll(MarkAll(used, ps), qs)[v] {
      MemberOfJoin(ps, qs, v);
    }
  }

  lemma MarkAllOne(used: seq<bool>, p: Assignment)
    requires PairInRange(p, |used|)
    ensures MarkAll(used, [p]) == Mark(used, p.mainVcpu, p.helperVcpu)
  {
    forall v | 0 <= v < |used| ensures Member([p], v) <==> v == p.mainVcpu || v == p.helperVcpu {
      assert [p][0] == p;
    }
  }

  /** One turn of the pairing of a list. */
  lemma PairingStep(topo: CpuTopology, nrCpus: nat, socket: int, s: seq<int>, used: seq<bool>,
                    ps: seq<Assignment>, stuck: int, i: nat)
    returns (stuck': int)
    requires WellFormed(topo, nrCpus) && InRange(s, nrCpus) && i + 1 < |s| && Pairing(topo, nrCpus, socket, s, used, ps, i)
    requires SmtEquivalence(topo, nrCpus) ==> Paired(topo, nrCpus, s, used, stuck, i)
    ensures var s', p := Partnered(topo, nrCpus, s, i), Taken(topo, nrCpus, s, i);
            && Pairing(topo, nrCpus, socket, s', MarkAll(used, p), ps + p, i + 2)
            && (SmtEquivalence(topo, nrCpus) ==> Paired(topo, nrCpus, s', MarkAll(used, p), stuck', i + 2))
  {
    var s', p := Partnered(topo, nrCpus, s, i), Taken(topo, nrCpus, s, i);
    TurnTakes(topo, nrCpus, s, i);
    if p != [] {
      MarkAllOne(used, p[0]);
      MovedKeeps(topo, nrCpus, socket, s, s', used, ps, i);
      PairTaken(topo, nrCpus, socket, s', used, ps, i);
      if SmtEquivalence(topo, nrCpus) {
        TakenPaired(topo, nrCpus, socket, s, s', used, ps, stuck, i);
      }
      stuck' := i + 2;
    } else {
      assert ps + p == ps;
      MarkAllNone(used);
      if SmtEquivalence(topo, nrCpus) {
        RestIsOneCore(topo, nrCpus, s, i);
      }
      stuck' := stuck;
    }
  }

  /** At the end of a list no two of its unused vCPUs can be paired. */
  lemma ListExhausted(topo: CpuTopology, nrCpus: nat, s: seq<int>, used: seq<bool>, stuck: int, i: int)
    requires WellFormed(topo, nrCpus) && |used| == nrCpus && InRange(s, nrCpus) && i + 1 >= |s|
    requires Paired(topo, nrCpus, s, used, stuck, i)
    ensures Exhausted(topo, nrCpus, multiset(s), used)
  {
    forall a, b | 0 <= a < nrCpus && 0 <= b < nrCpus && a in multiset(s) && b in multiset(s) && a != b && !used[a] && !used[b]
      ensures SmtRelated(topo, nrCpus, a, b)
    {
      assert a in s && b in s;
      var k :| 0 <= k < |s| && s[k] == a;
      var l :| 0 <= l < |s| && s[l] == b;
    }
  }

  /** A list has been paired up: the pairs are good, the flags track them, and none is missed. */
  ghost predicate ListDone(topo: CpuTopology, nrCpus: nat, vcpus: multiset<int>, used: seq<bool>, ps: seq<Assignment>)
    requires WellFormed(topo, nrCpus)
  {
    && |used| == nrCpus && GoodPairs(topo, nrCpus, ps) && Tracks(used, ps)
    && (SmtEquivalence(topo, nrCpus) ==> Exhausted(topo, nrCpus, vcpus, used))
  }

  lemma ListEnds(topo: CpuTopology, nrCpus: nat, socket: int, s: seq<int>, used: seq<bool>,
                 ps: seq<Assignment>, stuck: int, i: nat)
    requires WellFormed(topo, nrCpus) && InRange(s, nrCpus) && Pairing(topo, nrCpus, socket, s, used, ps, i) && i + 1 >= |s|
    requires SmtEquivalence(topo, nrCpus) ==> Paired(topo, nrCpus, s, used, stuck, i)
    ensures var l := PairList(topo, nrCpus, s, i); ListDone(topo, nrCpus, multiset(s), MarkAll(used, l), ps + l)
  {
    assert ps + [] == ps;
    MarkAllNone(used);
    if SmtEquivalence(topo, nrCpus) {
      ListExhausted(topo, nrCpus, s, used, stuck, i);
    }
  }

  /** One turn of the pairing of a list does not change what it ends with. */
  lemma ListStep(topo: CpuTopology, nrCpus: nat, socket: int, s: seq<int>, used: seq<bool>, ps: seq<Assignment>, stuck: int, i: nat)
    returns (s': seq<int>, used': seq<bool>, ps': seq<Assignment>, stuck': int)
    requires WellFormed(topo, nrCpus) && InRange(s, nrCpus) && i + 1 < |s| && Pairing(topo, nrCpus, socket, s, used, ps, i)
    requires SmtEquivalence(topo, nrCpus) ==> Paired(topo, nrCpus, s, used, stuck, i)
    ensures InRange(s', nrCpus) && |s'| == |s| && multiset(s') == multiset(s)
    ensures Pairing(topo, nrCpus, socket, s', used', ps', i + 2)
    ensures SmtEquivalence(topo, nrCpus) ==> Paired(topo, nrCpus, s', used', stuck', i + 2)
    ensures ps + PairList(topo, nrCpus, s, i) == ps' + PairList(topo, nrCpus, s', i + 2)
    ensures MarkAll(used, PairList(topo, nrCpus, s, i)) == MarkAll(used', PairList(topo, nrCpus, s', i + 2))
  {
    s' := Partnered(topo, nrCpus, s, i);
    var p, l := Taken(topo, nrCpus, s, i), PairList(topo, nrCpus, s', i + 2);
    used', ps' := MarkAll(used, p), ps + p;
    stuck' := PairingStep(topo, nrCpus, socket, s, used, ps, stuck, i);
    TurnPermutes(topo, nrCpus, s, i);
    MarkAllJoin(used, p, l);
    assert ps + p + l == ps + (p + l);
  }

  /** The pairs of a list are good beside earlier good ones, the flags track them, and none is missed. */
  lemma {:induction false} ListIsPaired(topo: CpuTopology, nrCpus: nat, socket: int, s: seq<int>, vcpus: multiset<int>, used: seq<bool>,
                                        ps: seq<Assignment>, stuck: int, i: nat)
    requires WellFormed(topo, nrCpus) && InRange(s, nrCpus) && Pairing(topo, nrCpus, socket, s, used, ps, i)
    requires SmtEquivalence(topo, nrCpus) ==> Paired(topo, nrCpus, s, used, stuck, i)
    requires multiset(s) == vcpus
    ensures var l := PairList(topo, nrCpus, s, i); ListDone(topo, nrCpus, vcpus, MarkAll(used, l), ps + l)
    decreases |s| - i
  {
    hide Pairing, Paired, ListDone, SmtEquivalence, MarkAll;
    if i + 1 >= |s| {
      ListEnds(topo, nrCpus, socket, s, used, ps, stuck, i);
    } else {
      var s', used', ps', stuck' := ListStep(topo, nrCpus, socket, s, used, ps, stuck, i);
      ListIsPaired(topo, nrCpus, socket, s', vcpus, used', ps', stuck', i + 2);
    }
  }

  // ---------- the loops ----------

  method Record(used: array<bool>, vcpu1: int, vcpu2: int, pairs: array<Assignment>, slot: nat)
    requires 0 <= vcpu1 < used.Length && 0 <= vcpu2 < used.Length && slot < pairs.Length
    modifies used, pairs
    ensures used[..] == Mark(old(used[..]), vcpu1, vcpu2)
    ensures pairs[..] == old(pairs[..])[slot := Assignment(vcpu1, vcpu2, true)]
  {
    pairs[slot] := Assignment(vcpu1, vcpu2, true);
    used[vcpu1] := true;
    used[vcpu2] := true;
  }

  /** The body of the pairing loop: takes the pair at `i`, or finds the rest to be on vCPU `list[i]`'s core. */
  method PairAt(topo: CpuTopology, nrCpus: nat, list: array<int>, count: nat, i: nat,
                used: array<bool>, pairs: array<Assignment>, slot: nat)
    returns (taken: bool)
    requires WellFormed(topo, nrCpus) && used.Length == nrCpus && i + 1 < count <= list.Length && slot < pairs.Length
    requires InRange(list[..count], nrCpus)
    modifies list, used, pairs
    ensures list[..count] == Partnered(topo, nrCpus, old(list[..count]), i)
    ensures var p := Taken(topo, nrCpus, old(list[..count]), i);
            && (taken <==> p != []) && used[..] == MarkAll(old(used[..]), p)
            && pairs[..] == if taken then old(pairs[..])[slot := p[0]] else old(pairs[..])
  {
    ghost var s := list[..count];
    TurnTakes(topo, nrCpus, s, i);
    MarkAllNone(used[..]);
    taken := FindPartner(topo, nrCpus, list, count, i);
    if !taken {
      return;
    }
    ghost var s', p := list[..count], Taken(topo, nrCpus, s, i);
    var vcpu1, vcpu2 := list[i], list[i + 1];
    assert s'[i] == vcpu1 && s'[i + 1] == vcpu2;
    MarkAllOne(used[..], p[0]);
    Record(used, vcpu1, vcpu2, pairs, slot);
    assert list[..count] == s';
  }

  /** The result array `ps`, which was `p0`, has a list of pairs stored from `start` on. */
  ghost predicate Stored(ps: seq<Assignment>, p0: seq<Assignment>, start: nat, done: seq<Assignment>) {
    && start + |done| <= |ps| == |p0|
    && (forall k :: 0 <= k < start || start + |done| <= k < |ps| ==> ps[k] == p0[k])
    && (forall k {:trigger done[k]} :: 0 <= k < |done| ==> ps[start + k] == done[k])
  }

  lemma StoreOne(ps: seq<Assignment>, ps': seq<Assignment>, p0: seq<Assignment>, start: nat, done: seq<Assignment>, p: seq<Assignment>)
    requires Stored(ps, p0, start, done) && start + |done| < |ps| && |p| <= 1
    requires ps' == if p == [] then ps else ps[start + |done| := p[0]]
    ensures Stored(ps', p0, start, done + p)
  {
    assert p == [] ==> done + p == done;
  }

  lemma StoredPrefix(ps: seq<Assignment>, p0: seq<Assignment>, start: nat, done: seq<Assignment>)
    requires Stored(ps, p0, start, done)
    ensures ps[..start + |done|] == p0[..start] + done
  {
    forall k | start <= k < start + |done| ensures ps[k] == done[k - start] {
      assert done[k - start] == ps[start + (k - start)];
    }
  }

  /** What is recorded so far, with what is still to come, is all of the list's pairs. */
  ghost predicate ToCome(topo: CpuTopology, nrCpus: nat, s: seq<int>, i: nat, done: seq<Assignment>, all: seq<Assignment>)
    requires WellFormed(topo, nrCpus) && InRange(s, nrCpus)
  {
    PairsInRange(done, nrCpus) && done + PairList(topo, nrCpus, s, i) == all
  }

  lemma ToComeStep(topo: CpuTopology, nrCpus: nat, s: seq<int>, i: nat, done: seq<Assignment>, all: seq<Assignment>)
    requires WellFormed(topo, nrCpus) && InRange(s, nrCpus) && i + 1 < |s| && ToCome(topo, nrCpus, s, i, done, all)
    ensures ToCome(topo, nrCpus, Partnered(topo, nrCpus, s, i), i + 2, done + Taken(topo, nrCpus, s, i), all)
  {
    var p, l := Taken(topo, nrCpus, s, i), PairList(topo, nrCpus, Partnered(topo, nrCpus, s, i), i + 2);
    assert done + (p + l) == done + p + l;
  }

  ghost predicate RecordedAs(topo: CpuTopology, nrCpus: nat, s: seq<int>, i: nat, used: seq<bool>, ps: seq<Assignment>, start: nat,
                             found: nat, u0: seq<bool>, p0: seq<Assignment>, all: seq<Assignment>, done: seq<Assignment>)
    requires WellFormed(topo, nrCpus) && InRange(s, nrCpus) && |u0| == nrCpus
  {
    && found == start + |done| <= |p0| && ToCome(topo, nrCpus, s, i, done, all)
    && used == MarkAll(u0, done) && Stored(ps, p0, start, done)
  }

  /** The pairing loop at position `i`: some first pairs of the list are recorded, the others are still to come. */
  ghost predicate PairedUpTo(topo: CpuTopology, nrCpus: nat, s: seq<int>, i: nat, used: seq<bool>, ps: seq<Assignment>,
                             start: nat, found: nat, u0: seq<bool>, p0: seq<Assignment>, all: seq<Assignment>)
    requires WellFormed(topo, nrCpus) && InRange(s, nrCpus) && |u0| == nrCpus
  {
    exists done: seq<Assignment> :: RecordedAs(topo, nrCpus, s, i, used, ps, start, found, u0, p0, all, done)
  }

  lemma PairingStarts(topo: CpuTopology, nrCpus: nat, s: seq<int>, used: seq<bool>, ps: seq<Assignment>, start: nat)
    requires WellFormed(topo, nrCpus) && InRange(s, nrCpus) && |used| == nrCpus && start <= |ps|
    ensures PairedUpTo(topo, nrCpus, s, 0, used, ps, start, start, used, ps, PairList(topo, nrCpus, s, 0))
  {
    MarkAllNone(used);
    assert RecordedAs(topo, nrCpus, s, 0, used, ps, start, start, used, ps, PairList(topo, nrCpus, s, 0), []);
  }

  lemma RecordStep(topo: CpuTopology, nrCpus: nat, s: seq<int>, s': seq<int>, i: nat, used: seq<bool>, used': seq<bool>,
                   ps: seq<Assignment>, ps': seq<Assignment>, start: nat, found: nat, u0: seq<bool>, p0: seq<Assignment>,
                   all: seq<Assignment>, done: seq<Assignment>, p: seq<Assignment>)
    requires WellFormed(topo, nrCpus) && InRange(s, nrCpus) && InRange(s', nrCpus) && |u0| == nrCpus && i + 1 < |s| && found < |ps|
    requires RecordedAs(topo, nrCpus, s, i, used, ps, start, found, u0, p0, all, done)
    requires s' == Partnered(topo, nrCpus, s, i) && p == Taken(topo, nrCpus, s, i)
    requires used' == MarkAll(used, p) && ps' == if p != [] then ps[found := p[0]] else ps
    ensures RecordedAs(topo, nrCpus, s', i + 2, used', ps', start, found + |p|, u0, p0, all, done + p)
  {
    ToComeStep(topo, nrCpus, s, i, done, all);
    MarkAllJoin(u0, done, p);
    StoreOne(ps, ps', p0, start, done, p);
  }

  lemma PairingAdvances(topo: CpuTopology, nrCpus: nat, s: seq<int>, s': seq<int>, i: nat, used: seq<bool>, used': seq<bool>,
                        ps: seq<Assignment>, ps': seq<Assignment>, start: nat, found: nat, found': nat, u0: seq<bool>, p0: seq<Assignment>,
                        all: seq<Assignment>, p: seq<Assignment>)
    requires WellFormed(topo, nrCpus) && InRange(s, nrCpus) && InRange(s', nrCpus) && |u0| == nrCpus && i + 1 < |s| && found < |ps|
    requires PairedUpTo(topo, nrCpus, s, i, used, ps, start, found, u0, p0, all)
    requires s' == Partnered(topo, nrCpus, s, i) && p == Taken(topo, nrCpus, s, i) && found' == found + |p|
    requires used' == MarkAll(used, p) && ps' == if p != [] then ps[found := p[0]] else ps
    ensures PairedUpTo(topo, nrCpus, s', i + 2, used', ps', start, found', u0, p0, all)
  {
    hide RecordedAs, WellFormed, InRange, Partnered, Taken, MarkAll;
    var done :| RecordedAs(topo, nrCpus, s, i, used, ps, start, found, u0, p0, all, done);
    RecordStep(topo, nrCpus, s, s', i, used, used', ps, ps', start, found, u0, p0, all, done, p);
  }

  lemma PairingEnds(topo: CpuTopology, nrCpus: nat, s: seq<int>, i: nat, used: seq<bool>, ps: seq<Assignment>,
                    start: nat, found: nat, u0: seq<bool>, p0: seq<Assignment>, all: seq<Assignment>)
    requires WellFormed(topo, nrCpus) && InRange(s, nrCpus) && |u0| == nrCpus
    requires PairedUpTo(topo, nrCpus, s, i, used, ps, start, found, u0, p0, all) && PairsInRange(all, nrCpus)
    ensures start <= found <= start + |all| && found <= |p0| && (i + 1 >= |s| ==> found == start + |all|)
    ensures used == MarkAll(u0, all[..found - start]) && Stored(ps, p0, start, all[..found - start])
  {
    var done :| RecordedAs(topo, nrCpus, s, i, used, ps, start, found, u0, p0, all, done);
    assert done == all[..found - start];
  }

  /** One turn of the pairing loop. */
  method PairNext(topo: CpuTopology, nrCpus: nat, list: array<int>, count: nat, i: nat, used: array<bool>, pairs: array<Assignment>,
                  ghost start: nat, found0: nat, ghost u0: seq<bool>, ghost p0: seq<Assignment>, ghost all: seq<Assignment>)
    returns (found: nat)
    requires WellFormed(topo, nrCpus) && used.Length == nrCpus == |u0| && i + 1 < count <= list.Length && found0 < pairs.Length
    requires InRange(list[..count], nrCpus)
    requires PairedUpTo(topo, nrCpus, list[..count], i, used[..], pairs[..], start, found0, u0, p0, all)
    modifies list, used, pairs
    ensures found0 <= found <= found0 + 1
    ensures InRange(list[..count], nrCpus) && multiset(list[..count]) == old(multiset(list[..count]))
    ensures PairedUpTo(topo, nrCpus, list[..count], i + 2, used[..], pairs[..], start, found, u0, p0, all)
  {
    ghost var s, u, ps := list[..count], used[..], pairs[..];
    TurnPermutes(topo, nrCpus, s, i);
    var taken := PairAt(topo, nrCpus, list, count, i, used, pairs, found0);
    found := if taken then found0 + 1 else found0;
    PairingAdvances(topo, nrCpus, s, list[..count], i, u, used[..], ps, pairs[..], start, found0, found, u0, p0, all,
                    Taken(topo, nrCpus, s, i));
  }

  /** The pairing loop: it ends at the end of the list or with enough pairs. */
  method PairLoop(topo: CpuTopology, nrCpus: nat, list: array<int>, count: nat, used: array<bool>, pairs: array<Assignment>,
                  start: nat, requested: nat, ghost u0: seq<bool>, ghost p0: seq<Assignment>, ghost all: seq<Assignment>)
    returns (found: nat, ghost s: seq<int>, i: nat)
    requires WellFormed(topo, nrCpus) && used.Length == nrCpus == |u0| && count <= list.Length && start <= requested <= pairs.Length
    requires InRange(list[..count], nrCpus)
    requires PairedUpTo(topo, nrCpus, list[..count], 0, used[..], pairs[..], start, start, u0, p0, all)
    modifies list, used, pairs
    ensures s == list[..count] && InRange(s, nrCpus) && multiset(s) == old(multiset(list[..count]))
    ensures start <= found <= requested && (i + 1 >= count || found == requested)
    ensures PairedUpTo(topo, nrCpus, s, i, used[..], pairs[..], start, found, u0, p0, all)
  {
    hide PairedUpTo, WellFormed, InRange;
    found, i := start, 0;
    s := list[..count];
    ghost var m := multiset(s);
    while i < count && found < requested
      invariant 0 <= i <= count && start <= found <= requested
      invariant s == list[..count] && InRange(s, nrCpus) && multiset(s) == m
      invariant PairedUpTo(topo, nrCpus, s, i, used[..], pairs[..], start, found, u0, p0, all)
    {
      if i + 1 >= count { break; }
      found := PairNext(topo, nrCpus, list, count, i, used, pairs, start, found, u0, p0, all);
      s := list[..count];
      i := i + 2;
    }
  }

  /** Pairs up one socket's list from front to back, each vCPU with the next one on another core. */
  method PairUpSocket(topo: CpuTopology, nrCpus: nat, list: array<int>, count: nat,
                      used: array<bool>, pairs: array<Assignment>, start: nat, requested: nat)
    returns (found: nat)
    requires WellFormed(topo, nrCpus) && used.Length == nrCpus && count <= list.Length && start <= requested <= pairs.Length
    requires InRange(list[..count], nrCpus)
    modifies list, used, pairs
    ensures multiset(list[..count]) == old(multiset(list[..count]))
    ensures var l := PairList(topo, nrCpus, old(list[..count]), 0);
            && found == (if start + |l| <= requested then start + |l| else requested)
            && Stored(pairs[..], old(pairs[..]), start, l[..found - start])
            && used[..] == MarkAll(old(used[..]), l[..found - start])
  {
    ghost var u0, p0, all := used[..], pairs[..], PairList(topo, nrCpus, list[..count], 0);
    PairingStarts(topo, nrCpus, list[..count], u0, p0, start);
    ghost var s;
    var i;
    found, s, i := PairLoop(topo, nrCpus, list, count, used, pairs, start, requested, u0, p0, all);
    PairingEnds(topo, nrCpus, s, i, used[..], pairs[..], start, found, u0, p0, all);
  }

  // ---------- all sockets ----------

  /** Any two free vCPUs of one of the first `sockets` sockets are on one core: no pair was missed. */
  ghost predicate Maximal(topo: CpuTopology, nrCpus: nat, sockets: int, ps: seq<Assignment>)
    requires WellFormed(topo, nrCpus)
  {
    forall a, b | 0 <= a < nrCpus && 0 <= b < nrCpus && a != b && !Member(ps, a) && !Member(ps, b) ::
      0 <= topo.cpuToSocket[a] == topo.cpuToSocket[b] < sockets ==> SmtRelated(topo, nrCpus, a, b)
  }

  ghost function NoneUsed(nrCpus: nat): (used: seq<bool>)
    ensures |used| == nrCpus
  {
    seq(nrCpus, _ => false)
  }

  /** All vCPUs of a socket, in increasing order. */
  ghost function OfSocket(topo: CpuTopology, nrCpus: nat, socket: int): (s: seq<int>)
    requires WellFormed(topo, nrCpus)
    ensures InRange(s, nrCpus)
  {
    Unused(topo, socket, NoneUsed(nrCpus), nrCpus)
  }

  /** The pairs formed from a socket when any number may be taken. */
  ghost function SocketPairs(topo: CpuTopology, nrCpus: nat, socket: nat): (l: seq<Assignment>)
    requires WellFormed(topo, nrCpus)
    ensures PairsInRange(l, nrCpus)
  {
    PairList(topo, nrCpus, OfSocket(topo, nrCpus, socket), 0)
  }

  /** The pairs formed from the first `sockets` sockets when any number may be taken. */
  ghost function AllPairs(topo: CpuTopology, nrCpus: nat, sockets: nat): (ps: seq<Assignment>)
    requires WellFormed(topo, nrCpus)
    ensures PairsInRange(ps, nrCpus)
  {
    if sockets == 0 then []
    else AllPairs(topo, nrCpus, sockets - 1) + SocketPairs(topo, nrCpus, sockets - 1)
  }

  lemma PrefixGrows<T>(a: seq<T>, b: seq<T>, c: seq<T>)
    requires a <= b
    ensures a <= b + c
  {
  }

  lemma {:induction false} AllPairsGrow(topo: CpuTopology, nrCpus: nat, k: nat, sockets: nat)
    requires WellFormed(topo, nrCpus) && k <= sockets
    ensures AllPairs(topo, nrCpus, k) <= AllPairs(topo, nrCpus, sockets)
    decreases sockets
  {
    if k < sockets {
      AllPairsGrow(topo, nrCpus, k, sockets - 1);
      PrefixGrows(AllPairs(topo, nrCpus, k), AllPairs(topo, nrCpus, sockets - 1),
                  SocketPairs(topo, nrCpus, sockets - 1));
    }
  }

  /** When only vCPUs of earlier sockets are used, all of a socket's are free. */
  lemma {:induction false} NoneUsedYet(topo: CpuTopology, socket: int, used: seq<bool>, free: seq<bool>, n: nat)
    requires n <= |used| == |free| <= |topo.cpuToSocket|
    requires forall v :: 0 <= v < |used| ==> !free[v] && (used[v] ==> topo.cpuToSocket[v] != socket)
    ensures Unused(topo, socket, used, n) == Unused(topo, socket, free, n)
  {
    if n > 0 { NoneUsedYet(topo, socket, used, free, n - 1); }
  }

  /** The pairs and flags when the first `sockets` sockets have been paired up. */
  ghost predicate SocketsPaired(topo: CpuTopology, nrCpus: nat, sockets: nat, used: seq<bool>, ps: seq<Assignment>)
    requires WellFormed(topo, nrCpus)
  {
    && |used| == nrCpus && Tracks(used, ps) && GoodPairs(topo, nrCpus, ps)
    && (forall v :: 0 <= v < nrCpus && used[v] ==> topo.cpuToSocket[v] < sockets)
    && (SmtEquivalence(topo, nrCpus) ==> Maximal(topo, nrCpus, sockets, ps))
  }

  /** The list a socket is paired up from: all its vCPUs. */
  lemma FreshList(topo: CpuTopology, nrCpus: nat, socket: int, used: seq<bool>)
    requires WellFormed(topo, nrCpus) && |used| == nrCpus
    requires forall v :: 0 <= v < nrCpus && used[v] ==> topo.cpuToSocket[v] < socket
    ensures Unused(topo, socket, used, nrCpus) == OfSocket(topo, nrCpus, socket)
    ensures var s := OfSocket(topo, nrCpus, socket);
            && SocketList(topo, nrCpus, socket, s) && (forall k :: 0 <= k < |s| ==> !used[s[k]])
            && forall v :: 0 <= v < nrCpus ==> (v in multiset(s) <==> topo.cpuToSocket[v] == socket)
  {
    UnusedAre(topo, socket, used, nrCpus);
    NoneUsedYet(topo, socket, used, NoneUsed(nrCpus), nrCpus);
  }

  ghost predicate PairsOn(topo: CpuTopology, nrCpus: nat, socket: int, ps: seq<Assignment>)
    requires WellFormed(topo, nrCpus)
  {
    forall k :: 0 <= k < |ps| ==>
      && PairInRange(ps[k], nrCpus)
      && topo.cpuToSocket[ps[k].mainVcpu] == topo.cpuToSocket[ps[k].helperVcpu] == socket
  }

  /** The pairs of a socket's list are on that socket. */
  lemma {:induction false} PairListOn(topo: CpuTopology, nrCpus: nat, socket: int, s: seq<int>, i: nat)
    requires WellFormed(topo, nrCpus) && InRange(s, nrCpus)
    requires forall k :: 0 <= k < |s| ==> topo.cpuToSocket[s[k]] == socket
    ensures PairsOn(topo, nrCpus, socket, PairList(topo, nrCpus, s, i))
    decreases |s| - i
  {
    if i + 1 < |s| {
      PairListOn(topo, nrCpus, socket, Partnered(topo, nrCpus, s, i), i + 2);
    }
  }

  /** One socket done: its free vCPUs are the unused ones of its list, the other sockets are as before. */
  lemma SocketDone(topo: CpuTopology, nrCpus: nat, socket: int, s: seq<int>, used: seq<bool>, used': seq<bool>,
                   ps: seq<Assignment>, ps': seq<Assignment>)
    requires WellFormed(topo, nrCpus) && |used| == |used'| == nrCpus && Tracks(used', ps')
    requires Exhausted(topo, nrCpus, multiset(s), used') && forall v :: Member(ps, v) ==> Member(ps', v)
    requires forall v :: 0 <= v < nrCpus ==> (v in multiset(s) <==> topo.cpuToSocket[v] == socket)
    requires Maximal(topo, nrCpus, socket, ps)
    ensures Maximal(topo, nrCpus, socket + 1, ps')
  {
  }

  /** One socket more: its pairs are good beside the earlier ones and none is missed on it. */
  lemma NextSocket(topo: CpuTopology, nrCpus: nat, socket: nat, used: seq<bool>, ps: seq<Assignment>, l: seq<Assignment>)
    requires WellFormed(topo, nrCpus) && SocketsPaired(topo, nrCpus, socket, used, ps)
    requires l == SocketPairs(topo, nrCpus, socket)
    ensures SocketsPaired(topo, nrCpus, socket + 1, MarkAll(used, l), ps + l)
  {
    var s := OfSocket(topo, nrCpus, socket);
    var used' := MarkAll(used, l);
    FreshList(topo, nrCpus, socket, used);
    ListIsPaired(topo, nrCpus, socket, s, multiset(s), used, ps, 0, 0);
    PairListOn(topo, nrCpus, socket, s, 0);
    if SmtEquivalence(topo, nrCpus) {
      forall v ensures Member(ps, v) ==> Member(ps + l, v) { MemberOfJoin(ps, l, v); }
      SocketDone(topo, nrCpus, socket, s, used, used', ps, ps + l);
    }
  }

  /** The pairs so far are the first ones of all pairs, and all of the sockets done if more are wanted. */
  ghost predicate PairsSoFar(topo: CpuTopology, nrCpus: nat, sockets: nat, ps: seq<Assignment>, requested: nat)
    requires WellFormed(topo, nrCpus)
  {
    && PairsInRange(ps, nrCpus) && ps <= AllPairs(topo, nrCpus, sockets)
    && (|ps| < requested ==> ps == AllPairs(topo, nrCpus, sockets))
  }

  lemma PairsDone(topo: CpuTopology, nrCpus: nat, socket: nat, ps: seq<Assignment>, requested: nat)
    requires WellFormed(topo, nrCpus) && PairsSoFar(topo, nrCpus, socket, ps, requested) && socket <= topo.nrSockets
    requires socket == topo.nrSockets || |ps| >= requested
    ensures PairsSoFar(topo, nrCpus, topo.nrSockets, ps, requested)
  {
    AllPairsGrow(topo, nrCpus, socket, topo.nrSockets);
  }

  /** One socket's pairs are added to those of the sockets before it, as many as are wanted. */
  lemma PairsAdd(topo: CpuTopology, nrCpus: nat, socket: nat, ps: seq<Assignment>, l: seq<Assignment>, n: nat, requested: nat)
    requires WellFormed(topo, nrCpus) && |ps| < requested && PairsSoFar(topo, nrCpus, socket, ps, requested)
    requires l == SocketPairs(topo, nrCpus, socket)
    requires n == if |ps| + |l| <= requested then |l| else requested - |ps|
    ensures PairsSoFar(topo, nrCpus, socket + 1, ps + l[..n], requested)
  {
    assert AllPairs(topo, nrCpus, socket + 1) == ps + l;
    assert n == |l| ==> l[..n] == l;
  }

  /** The same with the flags that mark the pairs. */
  lemma NextMarked(topo: CpuTopology, nrCpus: nat, socket: nat, ps: seq<Assignment>, l: seq<Assignment>)
    requires WellFormed(topo, nrCpus) && PairsInRange(ps, nrCpus)
    requires SocketsPaired(topo, nrCpus, socket, MarkAll(NoneUsed(nrCpus), ps), ps)
    requires l == SocketPairs(topo, nrCpus, socket)
    ensures PairsInRange(ps + l, nrCpus) && SocketsPaired(topo, nrCpus, socket + 1, MarkAll(NoneUsed(nrCpus), ps + l), ps + l)
  {
    MarkAllJoin(NoneUsed(nrCpus), ps, l);
    NextSocket(topo, nrCpus, socket, MarkAll(NoneUsed(nrCpus), ps), ps, l);
  }

  lemma NoSocketPaired(topo: CpuTopology, nrCpus: nat)
    requires WellFormed(topo, nrCpus)
    ensures SocketsPaired(topo, nrCpus, 0, NoneUsed(nrCpus), [])
  {
  }

  /** What no pair has and every socket's pairs keep, all pairs have. */
  lemma {:induction false} AllPairsInduction(topo: CpuTopology, nrCpus: nat, sockets: nat, holds: (nat, seq<Assignment>) -> bool)
    requires WellFormed(topo, nrCpus) && holds(0, [])
    requires forall k: nat, ps {:trigger ps + SocketPairs(topo, nrCpus, k)} ::
               holds(k, ps) ==> holds(k + 1, ps + SocketPairs(topo, nrCpus, k))
    ensures holds(sockets, AllPairs(topo, nrCpus, sockets))
  {
    if sockets > 0 {
      AllPairsInduction(topo, nrCpus, sockets - 1, holds);
    }
  }

  ghost predicate MarkedAndPaired(topo: CpuTopology, nrCpus: nat, sockets: nat, ps: seq<Assignment>)
    requires WellFormed(topo, nrCpus)
  {
    PairsInRange(ps, nrCpus) && SocketsPaired(topo, nrCpus, sockets, MarkAll(NoneUsed(nrCpus), ps), ps)
  }

  lemma AllPairsGood(topo: CpuTopology, nrCpus: nat, sockets: nat)
    requires WellFormed(topo, nrCpus)
    ensures MarkedAndPaired(topo, nrCpus, sockets, AllPairs(topo, nrCpus, sockets))
  {
    var holds := (k: nat, ps) => MarkedAndPaired(topo, nrCpus, k, ps);
    NoSocketPaired(topo, nrCpus);
    MarkAllNone(NoneUsed(nrCpus));
    forall k: nat, ps | holds(k, ps) ensures holds(k + 1, ps + SocketPairs(topo, nrCpus, k)) {
      NextMarked(topo, nrCpus, k, ps, SocketPairs(topo, nrCpus, k));
    }
    AllPairsInduction(topo, nrCpus, sockets, holds);
  }

  lemma SocketIsFresh(topo: CpuTopology, nrCpus: nat, socket: nat, ps: seq<Assignment>)
    requires WellFormed(topo, nrCpus) && ps == AllPairs(topo, nrCpus, socket)
    ensures Unused(topo, socket, MarkAll(NoneUsed(nrCpus), ps), nrCpus) == OfSocket(topo, nrCpus, socket)
  {
    AllPairsGood(topo, nrCpus, socket);
    FreshList(topo, nrCpus, socket, MarkAll(NoneUsed(nrCpus), ps));
  }

  lemma PairsAreGood(topo: CpuTopology, nrCpus: nat, sockets: nat, ps: seq<Assignment>, requested: nat)
    requires WellFormed(topo, nrCpus) && PairsSoFar(topo, nrCpus, sockets, ps, requested)
    ensures GoodPairs(topo, nrCpus, ps)
    ensures |ps| < requested && SmtEquivalence(topo, nrCpus) ==> Maximal(topo, nrCpus, sockets, ps)
  {
    AllPairsGood(topo, nrCpus, sockets);
  }

  /** The pairs and flags after one socket more. */
  lemma SocketAdds(topo: CpuTopology, nrCpus: nat, socket: nat, ps: seq<Assignment>, ps': seq<Assignment>, used: seq<bool>,
                   start: nat, found: nat, requested: nat)
    requires WellFormed(topo, nrCpus) && start < requested <= |ps| && PairsSoFar(topo, nrCpus, socket, ps[..start], requested)
    requires var l := SocketPairs(topo, nrCpus, socket);
             && found == (if start + |l| <= requested then start + |l| else requested)
             && Stored(ps', ps, start, l[..found - start])
             && used == MarkAll(MarkAll(NoneUsed(nrCpus), ps[..start]), l[..found - start])
    ensures found <= |ps'| && PairsSoFar(topo, nrCpus, socket + 1, ps'[..found], requested)
    ensures used == MarkAll(NoneUsed(nrCpus), ps'[..found])
  {
    var l := SocketPairs(topo, nrCpus, socket);
    StoredPrefix(ps', ps, start, l[..found - start]);
    MarkAllJoin(NoneUsed(nrCpus), ps[..start], l[..found - start]);
    PairsAdd(topo, nrCpus, socket, ps[..start], l, found - start, requested);
  }

  /** One turn of the loop over the sockets. */
  method PairSocket(topo: CpuTopology, nrCpus: nat, socket: nat, used: array<bool>, pairs: array<Assignment>,
                    start: nat, requested: nat)
    returns (found: nat)
    requires WellFormed(topo, nrCpus) && used.Length == nrCpus && start < requested <= pairs.Length
    requires PairsSoFar(topo, nrCpus, socket, pairs[..start], requested)
    requires used[..] == MarkAll(NoneUsed(nrCpus), pairs[..start])
    modifies used, pairs
    ensures start <= found <= requested
    ensures forall k :: found <= k < pairs.Length ==> pairs[k] == old(pairs[k])
    ensures PairsSoFar(topo, nrCpus, socket + 1, pairs[..found], requested)
    ensures used[..] == MarkAll(NoneUsed(nrCpus), pairs[..found])
  {
    ghost var ps := pairs[..];
    assert ps[..start] == pairs[..start];
    SocketIsFresh(topo, nrCpus, socket, ps[..start]);
    var list, count := CollectSocket(topo, nrCpus, socket, used);
    found := PairUpSocket(topo, nrCpus, list, count, used, pairs, start, requested);
    SocketAdds(topo, nrCpus, socket, ps, pairs[..], used[..], start, found, requested);
    assert pairs[..found] == pairs[..][..found];
  }

  /**
   All vCPUs of the returned pairs are distinct, each pair is on one socket and on two cores, and
   when fewer pairs than requested are found then no further pair exists among the free vCPUs.
   */
  method FindOptimalVcpuPairs(topo: CpuTopology, nrCpus: nat, requested: nat, pairs: array<Assignment>)
    returns (found: nat)
    requires WellFormed(topo, nrCpus) && requested <= pairs.Length
    modifies pairs
    ensures found <= requested
    ensures GoodPairs(topo, nrCpus, pairs[..found])
    ensures forall k :: found <= k < pairs.Length ==> pairs[k] == old(pairs[k])
    ensures PairsSoFar(topo, nrCpus, topo.nrSockets, pairs[..found], requested)
    ensures found < requested && SmtEquivalence(topo, nrCpus) ==> Maximal(topo, nrCpus, topo.nrSockets, pairs[..found])
  {
    hide GoodPairs, Maximal, SmtEquivalence, MarkAll, WellFormed;
    found := 0;
    if requested == 0 {
      PairsDone(topo, nrCpus, 0, [], 0);
      PairsAreGood(topo, nrCpus, topo.nrSockets, [], 0);
      return;
    }
    var used := new bool[nrCpus](_ => false);
    assert used[..] == NoneUsed(nrCpus);
    MarkAllNone(used[..]);
    var socket := 0;
    while socket < topo.nrSockets && found < requested
      invariant 0 <= socket <= topo.nrSockets && found <= requested
      invariant forall k :: found <= k < pairs.Length ==> pairs[k] == old(pairs[k])
      invariant PairsSoFar(topo, nrCpus, socket, pairs[..found], requested)
      invariant used[..] == MarkAll(NoneUsed(nrCpus), pairs[..found])
    {
      found := PairSocket(topo, nrCpus, socket, used, pairs, found, requested);
      socket := socket + 1;
    }
    PairsDone(topo, nrCpus, socket, pairs[..found], requested);
    PairsAreGood(topo, nrCpus, topo.nrSockets, pairs[..found], requested);
  }

  /** Every topology the detection reports meets what the pairing relies on. */
  lemma DetectedSmtIsEquivalence(topo: CpuTopology, pairIds: seq<int>, m: seq<seq<int>>)
    requires Describes(topo, pairIds, m)
    ensures WellFormed(topo, |m|) && SmtEquivalence(topo, |m|)
  {
    forall a, b | 0 <= a < |m| && 0 <= b < |m|
      ensures SmtRelated(topo, |m|, a, b) <==> topo.cpuToCore[a] == topo.cpuToCore[b]
    {
      assert topo.relation[a][b] == RelationOf(m[a][b]);
    }
  }
}
