/**
 A machine on which the pairing forms fewer pairs than exist (src/evset_para.c): one socket of six
 vCPUs, where 0, 4 and 5 are threads of one core and 1, 2 and 3 have a core each.
 */
module MissedPair {
  import opened Common
  import opened TopologyProbe
  import opened VcpuPairs

  predicate OnFirstCore(i: int) {
    i == 0 || i == 4 || i == 5
  }

  function SixLatency(i: int, j: int): int {
    if OnFirstCore(i) && OnFirstCore(j) then -1 else 5000
  }

  /** What the detection reports of it. */
  ghost predicate SixTopology(topo: CpuTopology) {
    && WellFormed(topo, 6) && topo.nrSockets == 1
    && (forall v :: 0 <= v < 6 ==> topo.cpuToSocket[v] == 0)
    && forall a, b {:trigger SmtRelated(topo, 6, a, b)} :: 0 <= a < 6 && 0 <= b < 6 && a != b ==>
         (SmtRelated(topo, 6, a, b) <==> OnFirstCore(a) && OnFirstCore(b))
  }

  lemma SixGrouping(g: seq<int>, leaders: seq<int>)
    requires |g| == 6 && Grouping(SixLatency, g, leaders)
    ensures g == [0, 0, 0, 0, 0, 0] && leaders == [0]
  {
    var zeros := [0, 0, 0, 0, 0, 0];
    assert Grouping(SixLatency, zeros, [0]) by {
      assert forall j :: 0 <= j < 6 ==> zeros[j] == 0;
    }
    GroupingIsUnique(SixLatency, g, leaders, zeros, [0]);
  }

  lemma SixRelation(topo: CpuTopology, pairIds: seq<int>, leaders: seq<int>, a: int, b: int)
    requires |leaders| == topo.nrSockets && |topo.cpuToSocket| == 6 && Grouping(SixLatency, topo.cpuToSocket, leaders)
    requires Describes(topo, pairIds, Star(SixLatency, topo.cpuToSocket, leaders)) && WellFormed(topo, 6)
    requires 0 <= a < 6 && 0 <= b < 6 && a != b
    ensures SmtRelated(topo, 6, a, b) <==> OnFirstCore(a) && OnFirstCore(b)
  {
    var m := Star(SixLatency, topo.cpuToSocket, leaders);
    SixGrouping(topo.cpuToSocket, leaders);
    OnlyLeaderCoreIsFound(SixLatency, topo.cpuToSocket, leaders, a, b);
    assert topo.relation[a][b] == RelationOf(m[a][b]);
  }

  lemma SixIsDetected(topo: CpuTopology, pairIds: seq<int>, leaders: seq<int>)
    requires |leaders| == topo.nrSockets && |topo.cpuToSocket| == 6 && Grouping(SixLatency, topo.cpuToSocket, leaders)
    requires Describes(topo, pairIds, Star(SixLatency, topo.cpuToSocket, leaders))
    ensures SixTopology(topo)
  {
    SixGrouping(topo.cpuToSocket, leaders);
    assert WellFormed(topo, 6);
    forall a, b | 0 <= a < 6 && 0 <= b < 6 && a != b
      ensures SmtRelated(topo, 6, a, b) <==> OnFirstCore(a) && OnFirstCore(b)
    {
      SixRelation(topo, pairIds, leaders, a, b);
    }
  }

  lemma SixVcpus(topo: CpuTopology)
    requires SixTopology(topo)
    ensures OfSocket(topo, 6, 0) == [0, 1, 2, 3, 4, 5]
  {
    var free := NoneUsed(6);
    assert Unused(topo, 0, free, 0) == [];
    assert Unused(topo, 0, free, 1) == [0];
    assert Unused(topo, 0, free, 2) == [0, 1];
    assert Unused(topo, 0, free, 3) == [0, 1, 2];
    assert Unused(topo, 0, free, 4) == [0, 1, 2, 3];
    assert Unused(topo, 0, free, 5) == [0, 1, 2, 3, 4];
  }

  /** A neighbour on another core is taken where it is. */
  lemma NeighbourIsTaken(topo: CpuTopology, nrCpus: nat, s: seq<int>, i: nat)
    requires WellFormed(topo, nrCpus) && InRange(s, nrCpus) && i + 1 < |s| && !SmtRelated(topo, nrCpus, s[i], s[i + 1])
    ensures PairList(topo, nrCpus, s, i) == [Assignment(s[i], s[i + 1], true)] + PairList(topo, nrCpus, s, i + 2)
  {
    assert Swap(s, i + 1, i + 1) == s;
  }

  /** Two last vCPUs on one core are left over. */
  lemma LastTwoAreLeft(topo: CpuTopology, nrCpus: nat, s: seq<int>, i: nat)
    requires WellFormed(topo, nrCpus) && InRange(s, nrCpus) && i + 2 == |s| && SmtRelated(topo, nrCpus, s[i], s[i + 1])
    ensures PairList(topo, nrCpus, s, i) == []
  {
    assert PartnerFrom(topo, nrCpus, s, i, i + 2) == |s|;
    assert PartnerFrom(topo, nrCpus, s, i, i + 1) == |s|;
    assert PairList(topo, nrCpus, s, i + 2) == [];
  }

  lemma SixPairs(topo: CpuTopology)
    requires SixTopology(topo)
    ensures |SocketPairs(topo, 6, 0)| == 2
  {
    var s := [0, 1, 2, 3, 4, 5];
    SixVcpus(topo);
    NeighbourIsTaken(topo, 6, s, 0);
    NeighbourIsTaken(topo, 6, s, 2);
    LastTwoAreLeft(topo, 6, s, 4);
  }

  lemma SixAllPairs(topo: CpuTopology)
    requires SixTopology(topo)
    ensures |AllPairs(topo, 6, 1)| == 2
  {
    SixPairs(topo);
    assert AllPairs(topo, 6, 0) == [];
  }

  lemma ThreeGoodPairs(topo: CpuTopology)
    requires SixTopology(topo)
    ensures GoodPairs(topo, 6, [Assignment(0, 1, true), Assignment(2, 4, true), Assignment(3, 5, true)])
  {
    assert !SmtRelated(topo, 6, 0, 1) && !SmtRelated(topo, 6, 2, 4) && !SmtRelated(topo, 6, 3, 5);
  }

  /** Three pairs exist on that machine, as detected, and are asked for, but only two are formed. */
  method AnotherPairExists() returns (topo: CpuTopology, found: nat)
    ensures WellFormed(topo, 6) && found == 2
    ensures GoodPairs(topo, 6, [Assignment(0, 1, true), Assignment(2, 4, true), Assignment(3, 5, true)])
  {
    var pairIds;
    topo, pairIds := DetectVcpuTopology(6, SixLatency);
    ghost var leaders :| |leaders| == topo.nrSockets && Grouping(SixLatency, topo.cpuToSocket, leaders)
      && Describes(topo, pairIds, Star(SixLatency, topo.cpuToSocket, leaders));
    SixIsDetected(topo, pairIds, leaders);
    SixAllPairs(topo);
    ThreeGoodPairs(topo);
    var pairs := new Assignment[3](_ => Assignment(0, 0, false));
    found := FindOptimalVcpuPairs(topo, 6, 3, pairs);
  }
}
