/**
 How many pairs the pairing of src/evset_para.c forms, against the most that any choice of pairs has.
 On every topology the detection reports, only the first vCPU's core of a socket has several threads.
 Reading a socket's vCPUs in order, a walk that goes up on that core and down on the others decides.
 */
module LargestPairing {
  import opened Common
  import opened LatencyClosure
  import opened TopologyProbe
  import opened VcpuPairs

  // ---------- the walk ----------

  /** The plain walk: one up for a vCPU on the first core, one down for another. */
  function Sum(x: seq<bool>, n: nat): int
    requires n <= |x|
  {
    if n == 0 then 0 else Sum(x, n - 1) + if x[n - 1] then 1 else -1
  }

  /** How far below zero the plain walk has been. */
  function Dip(x: seq<bool>, n: nat): nat
    requires n <= |x|
  {
    if n == 0 then 0 else if -Sum(x, n) > Dip(x, n - 1) then -Sum(x, n) else Dip(x, n - 1)
  }

  /**
   The pairing as a walk: its height is the number of vCPUs of the first core that wait for a partner, or
   -1 when one of another core waits.  That one takes whoever comes next, so the walk is reflected to 0.
   */
  function Move(h: int, inside: bool): int {
    if inside || h < 0 then h + 1 else h - 1
  }

  function Height(x: seq<bool>, n: nat): int
    requires n <= |x|
  {
    if n == 0 then 0 else Move(Height(x, n - 1), x[n - 1])
  }

  /** Whether the next vCPU completes a pair. */
  function Closes(h: int, inside: bool): nat {
    if h < 0 || (h > 0 && !inside) then 1 else 0
  }

  /** Pairs completed by the first `n` vCPUs. */
  function Formed(x: seq<bool>, n: nat): nat
    requires n <= |x|
  {
    if n == 0 then 0 else Formed(x, n - 1) + Closes(Height(x, n - 1), x[n - 1])
  }

  /** Pairs completed from position `j` on by a walk that is at height `h` there. */
  function FormedFrom(x: seq<bool>, j: nat, h: int): nat
    requires j <= |x|
    decreases |x| - j
  {
    if j == |x| then 0 else Closes(h, x[j]) + FormedFrom(x, j + 1, Move(h, x[j]))
  }

  function Abs(h: int): nat {
    if h < 0 then -h else h
  }

  /** The reflected walk in closed form: it is reflected once for every two steps below zero of the plain one. */
  lemma {:induction false} WalkIs(x: seq<bool>, n: nat)
    requires n <= |x|
    ensures Height(x, n) == Sum(x, n) + 2 * (Dip(x, n) / 2) >= -1
    ensures 2 * Formed(x, n) + Abs(Height(x, n)) == n
    ensures Dip(x, n) >= -Sum(x, n)
  {
    if n > 0 { WalkIs(x, n - 1); }
  }

  lemma {:induction false} FormedSplits(x: seq<bool>, j: nat)
    requires j <= |x|
    ensures Formed(x, j) + FormedFrom(x, j, Height(x, j)) == Formed(x, |x|)
    decreases |x| - j
  {
    if j < |x| { FormedSplits(x, j + 1); }
  }

  lemma {:induction false} InsideFirst(x: seq<bool>, i: nat, j: nat, h: nat)
    requires i <= j <= |x| && forall k :: i <= k < j ==> x[k]
    ensures FormedFrom(x, i, h) == FormedFrom(x, j, h + (j - i))
    decreases j - i
  {
    if i < j { InsideFirst(x, i + 1, j, h + 1); }
  }

  lemma {:induction false} SameTail(x: seq<bool>, y: seq<bool>, j: nat, h: int)
    requires j <= |x| == |y| && forall k :: j <= k < |x| ==> x[k] == y[k]
    ensures FormedFrom(x, j, h) == FormedFrom(y, j, h)
    decreases |x| - j
  {
    if j < |x| { SameTail(x, y, j + 1, Move(h, x[j])); }
  }

  // ---------- the pairing is the walk ----------

  /** The vCPUs of a list that are marked in `x`, and only they, share a core. */
  ghost predicate Shares(topo: CpuTopology, nrCpus: nat, s: seq<int>, x: seq<bool>)
    requires WellFormed(topo, nrCpus) && InRange(s, nrCpus)
  {
    && |x| == |s|
    && forall i, j {:trigger SmtRelated(topo, nrCpus, s[i], s[j])} :: 0 <= i < |s| && 0 <= j < |s| && i != j ==>
         (SmtRelated(topo, nrCpus, s[i], s[j]) <==> x[i] && x[j])
  }

  lemma SwapShares(topo: CpuTopology, nrCpus: nat, s: seq<int>, x: seq<bool>, p: nat, q: nat)
    requires WellFormed(topo, nrCpus) && InRange(s, nrCpus) && Shares(topo, nrCpus, s, x) && p < |s| && q < |s|
    ensures InRange(Swap(s, p, q), nrCpus) && Shares(topo, nrCpus, Swap(s, p, q), Swap(x, p, q))
  {
    var s', x' := Swap(s, p, q), Swap(x, p, q);
    forall i, j | 0 <= i < |s| && 0 <= j < |s| && i != j ensures SmtRelated(topo, nrCpus, s'[i], s'[j]) <==> x'[i] && x'[j] {
      var a := if i == p then q else if i == q then p else i;
      var b := if j == p then q else if j == q then p else j;
      assert s'[i] == s[a] && s'[j] == s[b] && x'[i] == x[a] && x'[j] == x[b];
    }
  }

  /** A turn at a vCPU of the first core takes the next one that is not on it: the walk goes up to there and down. */
  lemma TurnInside(x: seq<bool>, i: nat, j: nat)
    requires i < j < |x| && !x[j] && forall k :: i <= k < j ==> x[k]
    ensures FormedFrom(x, i, 0) == 1 + FormedFrom(Swap(x, i + 1, j), i + 2, 0)
  {
    var y := Swap(x, i + 1, j);
    InsideFirst(x, i, j, 0);
    InsideFirst(y, i + 2, j + 1, 0);
    SameTail(x, y, j + 1, j - i - 1);
  }

  lemma TurnIs(topo: CpuTopology, nrCpus: nat, s: seq<int>, x: seq<bool>, i: nat, j: nat)
    requires WellFormed(topo, nrCpus) && InRange(s, nrCpus) && Shares(topo, nrCpus, s, x) && i < j < |s|
    requires !SmtRelated(topo, nrCpus, s[i], s[j]) && forall k :: i + 1 <= k < j ==> SmtRelated(topo, nrCpus, s[i], s[k])
    ensures FormedFrom(x, i, 0) == 1 + FormedFrom(Swap(x, i + 1, j), i + 2, 0)
  {
    if x[i] {
      forall k | i < k < j ensures x[k] { assert SmtRelated(topo, nrCpus, s[i], s[k]); }
      TurnInside(x, i, j);
    } else {
      assert !SmtRelated(topo, nrCpus, s[i], s[i + 1]);
      assert Swap(x, i + 1, j) == x;
      assert FormedFrom(x, i + 1, -1) == 1 + FormedFrom(x, i + 2, 0);
    }
  }

  lemma NoTurn(x: seq<bool>, i: nat)
    requires i + 1 < |x| && forall k :: i <= k < |x| ==> x[k]
    ensures FormedFrom(x, i, 0) == FormedFrom(x, i + 2, 0)
  {
    InsideFirst(x, i, |x|, 0);
    InsideFirst(x, i + 2, |x|, 0);
  }

  /** One turn of the pairing forms what the walk forms on its way to the same rest. */
  lemma TurnIsWalk(topo: CpuTopology, nrCpus: nat, s: seq<int>, x: seq<bool>, i: nat) returns (y: seq<bool>)
    requires WellFormed(topo, nrCpus) && InRange(s, nrCpus) && Shares(topo, nrCpus, s, x) && i + 1 < |s|
    ensures Shares(topo, nrCpus, Partnered(topo, nrCpus, s, i), y)
    ensures FormedFrom(x, i, 0) == |Taken(topo, nrCpus, s, i)| + FormedFrom(y, i + 2, 0)
  {
    var j := PartnerFrom(topo, nrCpus, s, i, i + 1);
    PartnerIsFirst(topo, nrCpus, s, i, i + 1);
    if j == |s| {
      forall k | i < k < |s| ensures x[i] && x[k] { assert SmtRelated(topo, nrCpus, s[i], s[k]); }
      assert x[i] && x[i + 1];
      NoTurn(x, i);
      y := x;
    } else {
      SwapShares(topo, nrCpus, s, x, i + 1, j);
      TurnIs(topo, nrCpus, s, x, i, j);
      y := Swap(x, i + 1, j);
    }
  }

  /** The pairing of a list from position `i` on forms as many pairs as the walk over its marks. */
  lemma {:induction false} PairListIsWalk(topo: CpuTopology, nrCpus: nat, s: seq<int>, x: seq<bool>, i: nat)
    requires WellFormed(topo, nrCpus) && InRange(s, nrCpus) && Shares(topo, nrCpus, s, x) && i <= |s|
    ensures |PairList(topo, nrCpus, s, i)| == FormedFrom(x, i, 0)
    decreases |s| - i
  {
    hide WellFormed, InRange, Taken, Partnered;
    if i + 1 < |s| {
      var y := TurnIsWalk(topo, nrCpus, s, x, i);
      PairListIsWalk(topo, nrCpus, Partnered(topo, nrCpus, s, i), y, i + 2);
    }
  }

  /** Twice the pairs formed, and what is left over, is the whole list. */
  lemma PairCount(topo: CpuTopology, nrCpus: nat, s: seq<int>, x: seq<bool>)
    requires WellFormed(topo, nrCpus) && InRange(s, nrCpus) && Shares(topo, nrCpus, s, x)
    ensures 2 * |PairList(topo, nrCpus, s, 0)| + Abs(Sum(x, |x|) + 2 * (Dip(x, |x|) / 2)) == |s|
  {
    PairListIsWalk(topo, nrCpus, s, x, 0);
    FormedSplits(x, 0);
    WalkIs(x, |x|);
  }

  // ---------- counting pairs by their members ----------

  ghost predicate Disjoint(ps: seq<Assignment>) {
    forall k, l :: 0 <= k < l < |ps| ==> Apart(ps[k], ps[l])
  }

  /** A pair has a member in the set, both its members, or at most one. */
  predicate Hits(p: Assignment, t: set<int>) {
    p.mainVcpu in t || p.helperVcpu in t
  }

  predicate Inside(p: Assignment, t: set<int>) {
    p.mainVcpu in t && p.helperVcpu in t && p.mainVcpu != p.helperVcpu
  }

  predicate AtMostOne(p: Assignment, t: set<int>) {
    p.mainVcpu == p.helperVcpu || !(p.mainVcpu in t && p.helperVcpu in t)
  }

  lemma {:induction false} PairsHit(ps: seq<Assignment>, t: set<int>)
    requires Disjoint(ps) && forall k :: 0 <= k < |ps| ==> Hits(ps[k], t)
    ensures |ps| <= |t|
  {
    if ps != [] {
      var front, last := ps[..|ps| - 1], ps[|ps| - 1];
      var v := if last.mainVcpu in t then last.mainVcpu else last.helperVcpu;
      forall k | 0 <= k < |front| ensures Hits(front[k], t - {v}) {
        assert front[k] == ps[k] && Apart(ps[k], last) && Hits(ps[k], t);
      }
      assert Hits(last, t);
      PairsHit(front, t - {v});
    }
  }

  lemma {:induction false} PairsInside(ps: seq<Assignment>, t: set<int>)
    requires Disjoint(ps) && forall k :: 0 <= k < |ps| ==> Inside(ps[k], t)
    ensures 2 * |ps| <= |t|
  {
    if ps != [] {
      var front, last := ps[..|ps| - 1], ps[|ps| - 1];
      var t' := t - {last.mainVcpu} - {last.helperVcpu};
      forall k | 0 <= k < |front| ensures Inside(front[k], t') {
        assert front[k] == ps[k] && Apart(ps[k], last) && Inside(ps[k], t);
      }
      assert Inside(last, t);
      PairsInside(front, t');
    }
  }

  lemma RemovesOne(t: set<int>, a: int, b: int)
    requires a == b || !(a in t && b in t)
    ensures |t| <= |t - {a, b}| + 1
  {
    var c := if a in t then a else b;
    assert t - {a, b} == t - {c};
    assert c !in t ==> t - {c} == t;
  }

  lemma {:induction false} PairsCover(ps: seq<Assignment>, t: set<int>)
    requires forall k :: 0 <= k < |ps| ==> AtMostOne(ps[k], t)
    requires forall v :: v in t ==> Member(ps, v)
    ensures |t| <= |ps|
  {
    if ps == [] {
      forall v ensures v !in t { assert v in t ==> Member(ps, v); }
      assert t == {};
    } else {
      var front, last := ps[..|ps| - 1], ps[|ps| - 1];
      var t' := t - {last.mainVcpu, last.helperVcpu};
      forall k | 0 <= k < |front| ensures AtMostOne(front[k], t') {
        assert front[k] == ps[k] && AtMostOne(ps[k], t);
      }
      forall v | v in t' ensures Member(front, v) {
        var k :| 0 <= k < |ps| && (ps[k].mainVcpu == v || ps[k].helperVcpu == v);
        assert front[k] == ps[k];
      }
      PairsCover(front, t');
      assert AtMostOne(last, t);
      RemovesOne(t, last.mainVcpu, last.helperVcpu);
    }
  }

  /** The members of pairs that share none. */
  ghost function Members(ps: seq<Assignment>): set<int> {
    if ps == [] then {} else Members(ps[..|ps| - 1]) + {ps[|ps| - 1].mainVcpu, ps[|ps| - 1].helperVcpu}
  }

  lemma {:induction false} MembersAre(ps: seq<Assignment>, v: int)
    ensures v in Members(ps) <==> Member(ps, v)
  {
    if ps != [] {
      var front, last := ps[..|ps| - 1], ps[|ps| - 1];
      MembersAre(front, v);
      assert ps == front + [last];
      MemberOfJoin(front, [last], v);
      assert [last][0] == last;
    }
  }

  lemma UnionCount(s: set<int>, a: int, b: int)
    ensures |s + {a, b}| <= |s| + 2
  {
    assert s + {a, b} == s + {a} + {b};
    assert |s + {a}| <= |s| + 1 by { assert a in s ==> s + {a} == s; }
    assert |s + {a} + {b}| <= |s + {a}| + 1 by { assert b in s + {a} ==> s + {a} + {b} == s + {a}; }
  }

  lemma {:induction false} MembersCount(ps: seq<Assignment>)
    ensures |Members(ps)| <= 2 * |ps|
  {
    if ps != [] {
      MembersCount(ps[..|ps| - 1]);
      UnionCount(Members(ps[..|ps| - 1]), ps[|ps| - 1].mainVcpu, ps[|ps| - 1].helperVcpu);
    }
  }

  /** A family of pairs on the first `sockets` sockets. */
  ghost predicate OnSockets(topo: CpuTopology, nrCpus: nat, sockets: int, qs: seq<Assignment>)
    requires WellFormed(topo, nrCpus)
  {
    forall k :: 0 <= k < |qs| ==> PairInRange(qs[k], nrCpus) && 0 <= topo.cpuToSocket[qs[k].mainVcpu] < sockets
  }

  /** No pairing has more than twice as many pairs as one in which no pair was missed. */
  lemma AtLeastHalf(topo: CpuTopology, nrCpus: nat, sockets: int, ps: seq<Assignment>, qs: seq<Assignment>)
    requires WellFormed(topo, nrCpus) && Maximal(topo, nrCpus, sockets, ps)
    requires GoodPairs(topo, nrCpus, qs) && OnSockets(topo, nrCpus, sockets, qs)
    ensures |qs| <= 2 * |ps|
  {
    forall k | 0 <= k < |qs| ensures Hits(qs[k], Members(ps)) {
      assert GoodPair(topo, nrCpus, qs[k]);
      MembersAre(ps, qs[k].mainVcpu);
      MembersAre(ps, qs[k].helperVcpu);
    }
    PairsHit(qs, Members(ps));
    MembersCount(ps);
  }

  // ---------- one socket ----------

  /** The vCPUs of a socket. */
  ghost function Vcpus(topo: CpuTopology, nrCpus: nat, socket: int): set<int>
    requires WellFormed(topo, nrCpus)
  {
    set v | 0 <= v < nrCpus && topo.cpuToSocket[v] == socket
  }

  ghost function Listed(s: seq<int>): set<int> {
    set v | v in s
  }

  lemma {:induction false} ListedCount(s: seq<int>)
    requires Distinct(s)
    ensures |Listed(s)| == |s|
  {
    if s == [] {
      assert Listed(s) == {};
    } else {
      var front, last := s[..|s| - 1], s[|s| - 1];
      ListedCount(front);
      assert Listed(s) == Listed(front) + {last};
      assert last !in front;
    }
  }

  /** The listed vCPUs that are not marked. */
  ghost function Others(s: seq<int>, x: seq<bool>, n: nat): set<int>
    requires n <= |s| == |x|
  {
    if n == 0 then {} else Others(s, x, n - 1) + if x[n - 1] then {} else {s[n - 1]}
  }

  lemma {:induction false} OthersAre(s: seq<int>, x: seq<bool>, n: nat, v: int)
    requires n <= |s| == |x|
    ensures v in Others(s, x, n) <==> exists i :: 0 <= i < n && s[i] == v && !x[i]
  {
    if n > 0 { OthersAre(s, x, n - 1, v); }
  }

  lemma {:induction false} OthersCount(s: seq<int>, x: seq<bool>, n: nat)
    requires n <= |s| == |x| && Distinct(s)
    ensures 2 * |Others(s, x, n)| == n - Sum(x, n)
  {
    if n > 0 {
      OthersCount(s, x, n - 1);
      OthersAre(s, x, n - 1, s[n - 1]);
    }
  }

  /** Any two vCPUs of a socket that are in none of the pairs share a core. */
  ghost predicate NoneLeft(topo: CpuTopology, nrCpus: nat, socket: int, ps: seq<Assignment>)
    requires WellFormed(topo, nrCpus)
  {
    forall a, b | a in Vcpus(topo, nrCpus, socket) && b in Vcpus(topo, nrCpus, socket) && a != b ::
      !Member(ps, a) && !Member(ps, b) ==> SmtRelated(topo, nrCpus, a, b)
  }

  lemma SocketVcpus(topo: CpuTopology, nrCpus: nat, socket: int)
    requires WellFormed(topo, nrCpus)
    ensures var s := OfSocket(topo, nrCpus, socket); Distinct(s) && Listed(s) == Vcpus(topo, nrCpus, socket)
  {
    var s := OfSocket(topo, nrCpus, socket);
    UnusedAre(topo, socket, NoneUsed(nrCpus), nrCpus);
    assert forall v :: v in s ==> 0 <= v < nrCpus && topo.cpuToSocket[v] == socket;
  }

  lemma SocketIsPaired(topo: CpuTopology, nrCpus: nat, socket: nat)
    requires WellFormed(topo, nrCpus) && SmtEquivalence(topo, nrCpus)
    ensures var l := SocketPairs(topo, nrCpus, socket);
            && GoodPairs(topo, nrCpus, l) && PairsOn(topo, nrCpus, socket, l) && NoneLeft(topo, nrCpus, socket, l)
  {
    hide PairList, Unused, WellFormed;
    var s, l, none := OfSocket(topo, nrCpus, socket), SocketPairs(topo, nrCpus, socket), NoneUsed(nrCpus);
    FreshList(topo, nrCpus, socket, none);
    ListIsPaired(topo, nrCpus, socket, s, multiset(s), none, [], 0, 0);
    assert [] + l == l;
    PairListOn(topo, nrCpus, socket, s, 0);
    forall a, b | a in Vcpus(topo, nrCpus, socket) && b in Vcpus(topo, nrCpus, socket) && a != b && !Member(l, a) && !Member(l, b)
      ensures SmtRelated(topo, nrCpus, a, b)
    {
      assert !MarkAll(none, l)[a] && !MarkAll(none, l)[b] && a in multiset(s) && b in multiset(s);
    }
  }

  /** A good pair is not within the marked vCPUs. */
  lemma PairHitsOthers(topo: CpuTopology, nrCpus: nat, socket: int, s: seq<int>, x: seq<bool>, q: Assignment)
    requires WellFormed(topo, nrCpus) && InRange(s, nrCpus) && Shares(topo, nrCpus, s, x) && GoodPair(topo, nrCpus, q)
    requires q.mainVcpu in s && q.helperVcpu in s
    ensures Hits(q, Others(s, x, |s|))
  {
    var i :| 0 <= i < |s| && s[i] == q.mainVcpu;
    var j :| 0 <= j < |s| && s[j] == q.helperVcpu;
    assert !(x[i] && x[j]);
    OthersAre(s, x, |s|, s[i]);
    OthersAre(s, x, |s|, s[j]);
  }

  /** No family of a socket has more pairs than vCPUs outside the shared core, or than half of its vCPUs. */
  lemma SocketBound(topo: CpuTopology, nrCpus: nat, socket: int, x: seq<bool>, qs: seq<Assignment>)
    requires WellFormed(topo, nrCpus) && Shares(topo, nrCpus, OfSocket(topo, nrCpus, socket), x)
    requires GoodPairs(topo, nrCpus, qs) && PairsOn(topo, nrCpus, socket, qs)
    ensures 2 * |qs| <= |x| && 2 * |qs| <= |x| - Sum(x, |x|)
  {
    var s := OfSocket(topo, nrCpus, socket);
    SocketVcpus(topo, nrCpus, socket);
    ListedCount(s);
    OthersCount(s, x, |s|);
    forall k | 0 <= k < |qs| ensures Inside(qs[k], Listed(s)) && Hits(qs[k], Others(s, x, |s|)) {
      assert GoodPair(topo, nrCpus, qs[k]);
      assert qs[k].mainVcpu in Vcpus(topo, nrCpus, socket) && qs[k].helperVcpu in Vcpus(topo, nrCpus, socket);
      PairHitsOthers(topo, nrCpus, socket, s, x, qs[k]);
    }
    PairsInside(qs, Listed(s));
    PairsHit(qs, Others(s, x, |s|));
  }

  /** The pairing of a list with these marks forms fewer pairs than it could. */
  predicate Loses(x: seq<bool>) {
    Dip(x, |x|) >= 2 && Sum(x, |x|) + 2 * (Dip(x, |x|) / 2) >= 2
  }

  /** The pairing of a socket has as many pairs as any family of pairs on it. */
  ghost predicate LargestOn(topo: CpuTopology, nrCpus: nat, socket: nat)
    requires WellFormed(topo, nrCpus)
  {
    forall qs :: GoodPairs(topo, nrCpus, qs) && PairsOn(topo, nrCpus, socket, qs) ==> |qs| <= |SocketPairs(topo, nrCpus, socket)|
  }

  lemma LargestUnlessLoses(topo: CpuTopology, nrCpus: nat, socket: nat, x: seq<bool>)
    requires WellFormed(topo, nrCpus) && Shares(topo, nrCpus, OfSocket(topo, nrCpus, socket), x) && !Loses(x)
    ensures LargestOn(topo, nrCpus, socket)
  {
    PairCount(topo, nrCpus, OfSocket(topo, nrCpus, socket), x);
    WalkIs(x, |x|);
    forall qs | GoodPairs(topo, nrCpus, qs) && PairsOn(topo, nrCpus, socket, qs)
      ensures |qs| <= |SocketPairs(topo, nrCpus, socket)|
    {
      SocketBound(topo, nrCpus, socket, x, qs);
    }
  }

  lemma AnyOf(t: set<int>) returns (v: int)
    requires |t| > 0
    ensures v in t
  {
    assert (forall v :: v !in t) ==> t == {};
    v :| v in t;
  }

  lemma TwoLeft(all: set<int>, some: set<int>) returns (a: int, b: int)
    requires |all| >= |some| + 2
    ensures a in all - some && b in all - some && a != b
  {
    var left := all - some;
    assert all <= left + some;
    assert |left| >= 2 by {
      assert |left + some| <= |left| + |some|;
      assert left + some == all + (some - all);
    }
    a := AnyOf(left);
    b := AnyOf(left - {a});
  }

  /** One of two left-over vCPUs of the shared core goes to each member of a pair without any. */
  function Exchanged(ps: seq<Assignment>, k: nat, a: int, b: int): seq<Assignment>
    requires k < |ps|
  {
    ps[k := Assignment(ps[k].mainVcpu, a, true)] + [Assignment(ps[k].helperVcpu, b, true)]
  }

  lemma ExchangeIsGood(topo: CpuTopology, nrCpus: nat, socket: int, ps: seq<Assignment>, k: nat, a: int, b: int)
    requires WellFormed(topo, nrCpus) && GoodPairs(topo, nrCpus, ps) && PairsOn(topo, nrCpus, socket, ps) && k < |ps|
    requires a in Vcpus(topo, nrCpus, socket) && b in Vcpus(topo, nrCpus, socket) && a != b && !Member(ps, a) && !Member(ps, b)
    requires PairInRange(ps[k], nrCpus)
    requires !SmtRelated(topo, nrCpus, ps[k].mainVcpu, a) && !SmtRelated(topo, nrCpus, ps[k].helperVcpu, b)
    ensures GoodPairs(topo, nrCpus, Exchanged(ps, k, a, b)) && PairsOn(topo, nrCpus, socket, Exchanged(ps, k, a, b))
  {
    var qs := Exchanged(ps, k, a, b);
    assert GoodPair(topo, nrCpus, ps[k]);
    forall i | 0 <= i < |ps| ensures ps[i].mainVcpu != a && ps[i].mainVcpu != b && ps[i].helperVcpu != a && ps[i].helperVcpu != b {
      assert Member(ps, ps[i].mainVcpu) && Member(ps, ps[i].helperVcpu);
    }
    forall i, j | 0 <= i < j < |qs| ensures Apart(qs[i], qs[j]) {
      assert i != k ==> if i < k then Apart(ps[i], ps[k]) else Apart(ps[k], ps[i]);
      if j < |ps| { assert Apart(ps[i], ps[j]); }
    }
    forall i | 0 <= i < |qs| ensures GoodPair(topo, nrCpus, qs[i]) {
      if i < |ps| && i != k { assert GoodPair(topo, nrCpus, ps[i]); }
    }
  }

  /** Left-over vCPUs, if there are two, are on the shared core, so all others are in pairs. */
  lemma OthersArePaired(topo: CpuTopology, nrCpus: nat, socket: int, s: seq<int>, x: seq<bool>, ps: seq<Assignment>, a: int, b: int, v: int)
    requires WellFormed(topo, nrCpus) && InRange(s, nrCpus) && Shares(topo, nrCpus, s, x) && Listed(s) == Vcpus(topo, nrCpus, socket)
    requires NoneLeft(topo, nrCpus, socket, ps) && a in Vcpus(topo, nrCpus, socket) && b in Vcpus(topo, nrCpus, socket)
    requires a != b && !Member(ps, a) && !Member(ps, b) && v in Others(s, x, |s|)
    ensures Member(ps, v) && 0 <= v < nrCpus && !SmtRelated(topo, nrCpus, v, a) && !SmtRelated(topo, nrCpus, v, b)
  {
    OthersAre(s, x, |s|, v);
    var i :| 0 <= i < |s| && s[i] == v && !x[i];
    assert a in Listed(s) && b in Listed(s) && v in Listed(s);
    var j :| 0 <= j < |s| && s[j] == a;
    var k :| 0 <= k < |s| && s[k] == b;
    assert SmtRelated(topo, nrCpus, s[j], s[k]) && x[j] && x[k];
  }

  /** With two of the shared core left over and too few pairs, some pair has none of it. */
  lemma PairOfOthers(ps: seq<Assignment>, t: set<int>) returns (k: nat)
    requires |t| > |ps| && forall v :: v in t ==> Member(ps, v)
    ensures k < |ps| && Inside(ps[k], t)
  {
    if forall k :: 0 <= k < |ps| ==> AtMostOne(ps[k], t) {
      PairsCover(ps, t);
      assert false;
    }
    k :| 0 <= k < |ps| && !AtMostOne(ps[k], t);
  }

  lemma TwoLeftOver(s: seq<int>, ps: seq<Assignment>) returns (a: int, b: int)
    requires Distinct(s) && |s| >= 2 * |ps| + 2
    ensures a in Listed(s) && b in Listed(s) && a != b && !Member(ps, a) && !Member(ps, b)
  {
    ListedCount(s);
    MembersCount(ps);
    a, b := TwoLeft(Listed(s), Members(ps));
    MembersAre(ps, a);
    MembersAre(ps, b);
  }

  /** Two left-over vCPUs and fewer pairs than vCPUs outside the shared core make one pair more. */
  lemma OnePairMore(topo: CpuTopology, nrCpus: nat, socket: int, s: seq<int>, x: seq<bool>, ps: seq<Assignment>)
    returns (qs: seq<Assignment>)
    requires WellFormed(topo, nrCpus) && InRange(s, nrCpus) && Shares(topo, nrCpus, s, x)
    requires Distinct(s) && Listed(s) == Vcpus(topo, nrCpus, socket)
    requires GoodPairs(topo, nrCpus, ps) && PairsOn(topo, nrCpus, socket, ps) && NoneLeft(topo, nrCpus, socket, ps)
    requires |s| >= 2 * |ps| + 2 && |Others(s, x, |s|)| > |ps|
    ensures GoodPairs(topo, nrCpus, qs) && PairsOn(topo, nrCpus, socket, qs) && |qs| == |ps| + 1
  {
    var a, b := TwoLeftOver(s, ps);
    forall v | v in Others(s, x, |s|) ensures Member(ps, v) {
      OthersArePaired(topo, nrCpus, socket, s, x, ps, a, b, v);
    }
    var k := PairOfOthers(ps, Others(s, x, |s|));
    OthersArePaired(topo, nrCpus, socket, s, x, ps, a, b, ps[k].mainVcpu);
    OthersArePaired(topo, nrCpus, socket, s, x, ps, a, b, ps[k].helperVcpu);
    ExchangeIsGood(topo, nrCpus, socket, ps, k, a, b);
    qs := Exchanged(ps, k, a, b);
  }

  lemma LossNumbers(n: nat, p: nat, sum: int, folds: int, others: nat)
    requires 2 * p + Abs(sum + 2 * folds) == n && 2 * others == n - sum && folds >= 1 && sum + 2 * folds >= 2
    ensures n >= 2 * p + 2 && others > p
  {
  }

  /** What a loss means for the number of pairs: two vCPUs are left over, and some pair has none of the shared core. */
  lemma LossMeans(topo: CpuTopology, nrCpus: nat, s: seq<int>, x: seq<bool>, l: seq<Assignment>)
    requires WellFormed(topo, nrCpus) && InRange(s, nrCpus) && Distinct(s) && Shares(topo, nrCpus, s, x) && Loses(x)
    requires l == PairList(topo, nrCpus, s, 0)
    ensures |s| >= 2 * |l| + 2 && |Others(s, x, |s|)| > |l|
  {
    hide Distinct, InRange, PairList, Sum, Dip, Others, WellFormed;
    PairCount(topo, nrCpus, s, x);
    OthersCount(s, x, |s|);
    LossNumbers(|s|, |l|, Sum(x, |x|), Dip(x, |x|) / 2, |Others(s, x, |s|)|);
  }

  /** Where the walk says so, a larger family exists. */
  lemma LargerFamily(topo: CpuTopology, nrCpus: nat, socket: nat, x: seq<bool>) returns (qs: seq<Assignment>)
    requires WellFormed(topo, nrCpus) && SmtEquivalence(topo, nrCpus)
    requires Shares(topo, nrCpus, OfSocket(topo, nrCpus, socket), x) && Loses(x)
    ensures GoodPairs(topo, nrCpus, qs) && PairsOn(topo, nrCpus, socket, qs) && |qs| == |SocketPairs(topo, nrCpus, socket)| + 1
  {
    var s := OfSocket(topo, nrCpus, socket);
    var l := SocketPairs(topo, nrCpus, socket);
    SocketVcpus(topo, nrCpus, socket);
    SocketIsPaired(topo, nrCpus, socket);
    LossMeans(topo, nrCpus, s, x, l);
    qs := OnePairMore(topo, nrCpus, socket, s, x, l);
  }

  /** On a socket the pairing is largest exactly if the walk says so. */
  lemma SocketIsLargestIff(topo: CpuTopology, nrCpus: nat, socket: nat, x: seq<bool>)
    requires WellFormed(topo, nrCpus) && SmtEquivalence(topo, nrCpus)
    requires Shares(topo, nrCpus, OfSocket(topo, nrCpus, socket), x)
    ensures LargestOn(topo, nrCpus, socket) <==> !Loses(x)
  {
    if Loses(x) {
      var qs := LargerFamily(topo, nrCpus, socket, x);
    } else {
      LargestUnlessLoses(topo, nrCpus, socket, x);
    }
  }

  // ---------- all sockets ----------

  lemma JoinIsGood(topo: CpuTopology, nrCpus: nat, socket: nat, ps: seq<Assignment>, qs: seq<Assignment>)
    requires WellFormed(topo, nrCpus) && GoodPairs(topo, nrCpus, ps) && OnSockets(topo, nrCpus, socket, ps)
    requires GoodPairs(topo, nrCpus, qs) && PairsOn(topo, nrCpus, socket, qs)
    ensures GoodPairs(topo, nrCpus, ps + qs) && OnSockets(topo, nrCpus, socket + 1, ps + qs)
  {
    forall i, j | 0 <= i < |ps| && 0 <= j < |qs| ensures Apart(ps[i], qs[j]) {
      assert GoodPair(topo, nrCpus, ps[i]) && GoodPair(topo, nrCpus, qs[j]);
    }
  }

  lemma {:induction false} AllPairsOn(topo: CpuTopology, nrCpus: nat, sockets: nat)
    requires WellFormed(topo, nrCpus) && SmtEquivalence(topo, nrCpus)
    ensures GoodPairs(topo, nrCpus, AllPairs(topo, nrCpus, sockets)) && OnSockets(topo, nrCpus, sockets, AllPairs(topo, nrCpus, sockets))
  {
    if sockets > 0 {
      AllPairsOn(topo, nrCpus, sockets - 1);
      SocketIsPaired(topo, nrCpus, sockets - 1);
      JoinIsGood(topo, nrCpus, sockets - 1, AllPairs(topo, nrCpus, sockets - 1), SocketPairs(topo, nrCpus, sockets - 1));
    }
  }

  /** The pairs of a family on one socket, and those on the others. */
  function Picked(topo: CpuTopology, nrCpus: nat, socket: int, here: bool, qs: seq<Assignment>): (r: seq<Assignment>)
    requires WellFormed(topo, nrCpus)
    ensures forall q :: q in r ==> q in qs
  {
    if qs == [] then []
    else
      var last := qs[|qs| - 1];
      Picked(topo, nrCpus, socket, here, qs[..|qs| - 1])
      + if PairInRange(last, nrCpus) && (topo.cpuToSocket[last.mainVcpu] == socket) == here then [last] else []
  }

  lemma {:induction false} PickedIsGood(topo: CpuTopology, nrCpus: nat, socket: int, here: bool, qs: seq<Assignment>)
    requires WellFormed(topo, nrCpus) && GoodPairs(topo, nrCpus, qs)
    ensures GoodPairs(topo, nrCpus, Picked(topo, nrCpus, socket, here, qs))
    ensures forall q :: q in Picked(topo, nrCpus, socket, here, qs) ==>
              PairInRange(q, nrCpus) && ((topo.cpuToSocket[q.mainVcpu] == socket) == here)
  {
    if qs != [] {
      var front, last := qs[..|qs| - 1], qs[|qs| - 1];
      var r := Picked(topo, nrCpus, socket, here, front);
      PickedIsGood(topo, nrCpus, socket, here, front);
      forall k | 0 <= k < |r| ensures Apart(r[k], last) {
        assert r[k] in front;
        var i :| 0 <= i < |front| && front[i] == r[k];
        assert Apart(qs[i], qs[|qs| - 1]);
      }
      assert GoodPair(topo, nrCpus, last);
    }
  }

  lemma {:induction false} PickedCount(topo: CpuTopology, nrCpus: nat, socket: int, qs: seq<Assignment>)
    requires WellFormed(topo, nrCpus) && forall k :: 0 <= k < |qs| ==> PairInRange(qs[k], nrCpus)
    ensures |qs| == |Picked(topo, nrCpus, socket, true, qs)| + |Picked(topo, nrCpus, socket, false, qs)|
  {
    if qs != [] {
      PickedCount(topo, nrCpus, socket, qs[..|qs| - 1]);
      assert PairInRange(qs[|qs| - 1], nrCpus);
    }
  }

  lemma PickedOn(topo: CpuTopology, nrCpus: nat, sockets: nat, qs: seq<Assignment>, here: seq<Assignment>, there: seq<Assignment>)
    requires WellFormed(topo, nrCpus) && sockets > 0 && OnSockets(topo, nrCpus, sockets, qs)
    requires GoodPairs(topo, nrCpus, here) && forall q :: q in here ==> PairInRange(q, nrCpus) && topo.cpuToSocket[q.mainVcpu] == sockets - 1
    requires forall q :: q in there ==> q in qs && PairInRange(q, nrCpus) && topo.cpuToSocket[q.mainVcpu] != sockets - 1
    ensures PairsOn(topo, nrCpus, sockets - 1, here) && OnSockets(topo, nrCpus, sockets - 1, there)
  {
    forall k | 0 <= k < |here|
      ensures PairInRange(here[k], nrCpus) && topo.cpuToSocket[here[k].mainVcpu] == topo.cpuToSocket[here[k].helperVcpu] == sockets - 1
    {
      assert here[k] in here && GoodPair(topo, nrCpus, here[k]);
    }
    forall k | 0 <= k < |there| ensures PairInRange(there[k], nrCpus) && 0 <= topo.cpuToSocket[there[k].mainVcpu] < sockets - 1 {
      assert there[k] in there && there[k] in qs;
      var i :| 0 <= i < |qs| && qs[i] == there[k];
    }
  }

  /** A family falls into its pairs on the last socket and those on the others. */
  lemma FamilySplits(topo: CpuTopology, nrCpus: nat, sockets: nat, qs: seq<Assignment>)
    returns (here: seq<Assignment>, there: seq<Assignment>)
    requires WellFormed(topo, nrCpus) && sockets > 0 && GoodPairs(topo, nrCpus, qs) && OnSockets(topo, nrCpus, sockets, qs)
    ensures GoodPairs(topo, nrCpus, here) && PairsOn(topo, nrCpus, sockets - 1, here)
    ensures GoodPairs(topo, nrCpus, there) && OnSockets(topo, nrCpus, sockets - 1, there)
    ensures |qs| == |here| + |there|
  {
    hide GoodPairs, PairsOn, WellFormed;
    here := Picked(topo, nrCpus, sockets - 1, true, qs);
    there := Picked(topo, nrCpus, sockets - 1, false, qs);
    PickedIsGood(topo, nrCpus, sockets - 1, true, qs);
    PickedIsGood(topo, nrCpus, sockets - 1, false, qs);
    PickedCount(topo, nrCpus, sockets - 1, qs);
    PickedOn(topo, nrCpus, sockets, qs, here, there);
  }

  /** If every socket's pairing is largest, so is the whole. */
  lemma {:induction false} NoneLarger(topo: CpuTopology, nrCpus: nat, sockets: nat, qs: seq<Assignment>)
    requires WellFormed(topo, nrCpus) && GoodPairs(topo, nrCpus, qs) && OnSockets(topo, nrCpus, sockets, qs)
    requires forall k: nat :: k < sockets ==> LargestOn(topo, nrCpus, k)
    ensures |qs| <= |AllPairs(topo, nrCpus, sockets)|
  {
    hide GoodPairs, PairsOn, SocketPairs, WellFormed;
    if sockets == 0 {
      NonemptyHasMember(qs);
    } else {
      var here, there := FamilySplits(topo, nrCpus, sockets, qs);
      assert |here| <= |SocketPairs(topo, nrCpus, sockets - 1)| by { assert LargestOn(topo, nrCpus, sockets - 1); }
      NoneLarger(topo, nrCpus, sockets - 1, there);
    }
  }

  /** A larger family on one socket makes a larger one on all. */
  lemma {:induction false} LargerOnAll(topo: CpuTopology, nrCpus: nat, sockets: nat, socket: nat, better: seq<Assignment>)
    returns (qs: seq<Assignment>)
    requires WellFormed(topo, nrCpus) && SmtEquivalence(topo, nrCpus) && socket < sockets
    requires GoodPairs(topo, nrCpus, better) && PairsOn(topo, nrCpus, socket, better)
    requires |better| > |SocketPairs(topo, nrCpus, socket)|
    ensures GoodPairs(topo, nrCpus, qs) && OnSockets(topo, nrCpus, sockets, qs) && |qs| > |AllPairs(topo, nrCpus, sockets)|
    decreases sockets
  {
    hide GoodPairs, PairsOn, OnSockets, SocketPairs, SmtEquivalence, WellFormed;
    if socket == sockets - 1 {
      AllPairsOn(topo, nrCpus, socket);
      JoinIsGood(topo, nrCpus, socket, AllPairs(topo, nrCpus, socket), better);
      qs := AllPairs(topo, nrCpus, socket) + better;
    } else {
      var ps := LargerOnAll(topo, nrCpus, sockets - 1, socket, better);
      SocketIsPaired(topo, nrCpus, sockets - 1);
      JoinIsGood(topo, nrCpus, sockets - 1, ps, SocketPairs(topo, nrCpus, sockets - 1));
      qs := ps + SocketPairs(topo, nrCpus, sockets - 1);
    }
  }

  /** Which vCPUs of a list are on the core of the first one. */
  function OnFirstCore(topo: CpuTopology, nrCpus: nat, s: seq<int>): (x: seq<bool>)
    requires WellFormed(topo, nrCpus) && InRange(s, nrCpus)
    ensures |x| == |s|
  {
    seq(|s|, i requires 0 <= i < |s| => i == 0 || SmtRelated(topo, nrCpus, s[0], s[i]))
  }

  /** On the socket the pairing leaves a pair out: a condition on the reported topology alone. */
  ghost predicate LosesOn(topo: CpuTopology, nrCpus: nat, socket: nat)
    requires WellFormed(topo, nrCpus)
  {
    Loses(OnFirstCore(topo, nrCpus, OfSocket(topo, nrCpus, socket)))
  }

  /** Only the first vCPU's core of the socket has several threads. */
  ghost predicate SharesFirstCore(topo: CpuTopology, nrCpus: nat, socket: nat)
    requires WellFormed(topo, nrCpus)
  {
    var s := OfSocket(topo, nrCpus, socket);
    Shares(topo, nrCpus, s, OnFirstCore(topo, nrCpus, s))
  }

  /** No family of pairs on the first `sockets` sockets has more. */
  ghost predicate Largest(topo: CpuTopology, nrCpus: nat, sockets: nat, n: nat)
    requires WellFormed(topo, nrCpus)
  {
    forall qs :: GoodPairs(topo, nrCpus, qs) && OnSockets(topo, nrCpus, sockets, qs) ==> |qs| <= n
  }

  lemma NotLargest(topo: CpuTopology, nrCpus: nat, sockets: nat, socket: nat)
    requires WellFormed(topo, nrCpus) && SmtEquivalence(topo, nrCpus) && socket < sockets
    requires SharesFirstCore(topo, nrCpus, socket) && LosesOn(topo, nrCpus, socket)
    ensures !Largest(topo, nrCpus, sockets, |AllPairs(topo, nrCpus, sockets)|)
  {
    var s := OfSocket(topo, nrCpus, socket);
    var better := LargerFamily(topo, nrCpus, socket, OnFirstCore(topo, nrCpus, s));
    var qs := LargerOnAll(topo, nrCpus, sockets, socket, better);
  }

  /** The pairing is the largest possible if and only if no socket loses a pair. */
  lemma PairingIsLargestIff(topo: CpuTopology, nrCpus: nat, sockets: nat)
    requires WellFormed(topo, nrCpus) && SmtEquivalence(topo, nrCpus)
    requires forall k: nat :: k < sockets ==> SharesFirstCore(topo, nrCpus, k)
    ensures Largest(topo, nrCpus, sockets, |AllPairs(topo, nrCpus, sockets)|) <==>
            forall k: nat :: k < sockets ==> !LosesOn(topo, nrCpus, k)
  {
    if k: nat :| k < sockets && LosesOn(topo, nrCpus, k) {
      NotLargest(topo, nrCpus, sockets, k);
    } else {
      forall k: nat | k < sockets ensures LargestOn(topo, nrCpus, k) {
        assert SharesFirstCore(topo, nrCpus, k) && !LosesOn(topo, nrCpus, k);
        LargestUnlessLoses(topo, nrCpus, k, OnFirstCore(topo, nrCpus, OfSocket(topo, nrCpus, k)));
      }
      forall qs | GoodPairs(topo, nrCpus, qs) && OnSockets(topo, nrCpus, sockets, qs)
        ensures |qs| <= |AllPairs(topo, nrCpus, sockets)|
      {
        NoneLarger(topo, nrCpus, sockets, qs);
      }
    }
  }

  // ---------- detected topologies ----------

  lemma {:induction false} UnusedAscend(topo: CpuTopology, socket: int, used: seq<bool>, n: nat)
    requires n <= |used| && n <= |topo.cpuToSocket|
    ensures Ascending(Unused(topo, socket, used, n))
  {
    if n > 0 {
      var front := Unused(topo, socket, used, n - 1);
      UnusedAscend(topo, socket, used, n - 1);
      assert Ascending(front) && InRange(front, n - 1);
    }
  }

  /** The first vCPU of a detected socket is its leader. */
  lemma LeaderHeads(latency: Latency, topo: CpuTopology, nrCpus: nat, leaders: seq<int>, socket: nat)
    requires WellFormed(topo, nrCpus) && |topo.cpuToSocket| == nrCpus && Grouping(latency, topo.cpuToSocket, leaders)
    requires socket < |leaders|
    ensures var s := OfSocket(topo, nrCpus, socket); s != [] && s[0] == leaders[socket]
  {
    var s, l := OfSocket(topo, nrCpus, socket), leaders[socket];
    SocketVcpus(topo, nrCpus, socket);
    UnusedAscend(topo, socket, NoneUsed(nrCpus), nrCpus);
    assert l in Listed(s);
    var i :| 0 <= i < |s| && s[i] == l;
    assert s[0] in Listed(s);
    assert l <= s[0] <= s[i];
  }

  /** Sharing a core as reported, for two vCPUs of a detected socket: both are on the leader's core. */
  lemma ReportedShare(latency: Latency, topo: CpuTopology, pairIds: seq<int>, leaders: seq<int>, a: int, b: int)
    requires Grouping(latency, topo.cpuToSocket, leaders) && Describes(topo, pairIds, Star(latency, topo.cpuToSocket, leaders))
    requires WellFormed(topo, |topo.cpuToSocket|) && 0 <= a < |topo.cpuToSocket| && 0 <= b < |topo.cpuToSocket| && a != b
    requires topo.cpuToSocket[a] == topo.cpuToSocket[b]
    ensures var l := leaders[topo.cpuToSocket[a]];
            SmtRelated(topo, |topo.cpuToSocket|, a, b) <==> TrueClass(latency, l, a) < 2 && TrueClass(latency, l, b) < 2
  {
    OnlyLeaderCoreIsFound(latency, topo.cpuToSocket, leaders, a, b);
    var m := Star(latency, topo.cpuToSocket, leaders);
    assert topo.relation[a][b] == RelationOf(m[a][b]);
  }

  lemma DetectedSharesFirstCore(latency: Latency, topo: CpuTopology, pairIds: seq<int>, leaders: seq<int>, socket: nat)
    requires Grouping(latency, topo.cpuToSocket, leaders) && Describes(topo, pairIds, Star(latency, topo.cpuToSocket, leaders))
    requires WellFormed(topo, |topo.cpuToSocket|) && socket < |leaders|
    ensures SharesFirstCore(topo, |topo.cpuToSocket|, socket)
  {
    var n := |topo.cpuToSocket|;
    var s, l := OfSocket(topo, n, socket), leaders[socket];
    var x := OnFirstCore(topo, n, s);
    LeaderHeads(latency, topo, n, leaders, socket);
    SocketVcpus(topo, n, socket);
    forall i | 0 <= i < |s| ensures topo.cpuToSocket[s[i]] == socket && (x[i] <==> TrueClass(latency, l, s[i]) < 2) {
      assert s[i] in Listed(s);
      if i > 0 { ReportedShare(latency, topo, pairIds, leaders, s[0], s[i]); }
    }
    forall i, j | 0 <= i < |s| && 0 <= j < |s| && i != j ensures SmtRelated(topo, n, s[i], s[j]) <==> x[i] && x[j] {
      ReportedShare(latency, topo, pairIds, leaders, s[i], s[j]);
    }
  }

  /** No family of pairs at all has more than `n`. */
  ghost predicate MostPairs(topo: CpuTopology, nrCpus: nat, n: nat)
    requires WellFormed(topo, nrCpus)
  {
    forall qs :: GoodPairs(topo, nrCpus, qs) ==> |qs| <= n
  }

  /** Any family of pairs on a detected machine is on its sockets. */
  lemma AllOnSockets(latency: Latency, topo: CpuTopology, leaders: seq<int>, n: nat)
    requires Grouping(latency, topo.cpuToSocket, leaders) && |leaders| == topo.nrSockets && WellFormed(topo, |topo.cpuToSocket|)
    ensures MostPairs(topo, |topo.cpuToSocket|, n) <==> Largest(topo, |topo.cpuToSocket|, topo.nrSockets, n)
  {
    var nrCpus := |topo.cpuToSocket|;
    forall qs: seq<Assignment> | GoodPairs(topo, nrCpus, qs) ensures OnSockets(topo, nrCpus, topo.nrSockets, qs) {
      forall k | 0 <= k < |qs| ensures PairInRange(qs[k], nrCpus) && 0 <= topo.cpuToSocket[qs[k].mainVcpu] < topo.nrSockets {
        assert GoodPair(topo, nrCpus, qs[k]);
      }
    }
  }

  /** On every detected machine: the pairing has the most pairs possible if and only if no socket loses one. */
  lemma DetectedPairingIsLargestIff(latency: Latency, topo: CpuTopology, pairIds: seq<int>, leaders: seq<int>)
    requires Grouping(latency, topo.cpuToSocket, leaders) && Describes(topo, pairIds, Star(latency, topo.cpuToSocket, leaders))
    requires |leaders| == topo.nrSockets && WellFormed(topo, |topo.cpuToSocket|)
    ensures var n := |topo.cpuToSocket|;
            MostPairs(topo, n, |AllPairs(topo, n, topo.nrSockets)|) <==> forall k: nat :: k < topo.nrSockets ==> !LosesOn(topo, n, k)
  {
    var n := |topo.cpuToSocket|;
    DetectedSmtIsEquivalence(topo, pairIds, Star(latency, topo.cpuToSocket, leaders));
    forall k: nat | k < topo.nrSockets ensures SharesFirstCore(topo, n, k) {
      DetectedSharesFirstCore(latency, topo, pairIds, leaders, k);
    }
    PairingIsLargestIff(topo, n, topo.nrSockets);
    AllOnSockets(latency, topo, leaders, |AllPairs(topo, n, topo.nrSockets)|);
  }

  /**
   Detection and pairing together, on every machine: when fewer pairs than asked for are found, no choice
   of pairs has more if and only if no socket loses one.
   */
  method PairDetected(lastCpuId: nat, latency: Latency, requested: nat) returns (topo: CpuTopology, found: nat)
    ensures WellFormed(topo, lastCpuId) && found <= requested
    ensures found < requested ==>
              (MostPairs(topo, lastCpuId, found) <==> forall k: nat :: k < topo.nrSockets ==> !LosesOn(topo, lastCpuId, k))
  {
    var pairIds: seq<int>;
    topo, pairIds := DetectVcpuTopology(lastCpuId, latency);
    ghost var leaders :| |leaders| == topo.nrSockets && Grouping(latency, topo.cpuToSocket, leaders)
      && Describes(topo, pairIds, Star(latency, topo.cpuToSocket, leaders));
    DetectedPairingIsLargestIff(latency, topo, pairIds, leaders);
    var pairs := new Assignment[requested](_ => Assignment(0, 0, false));
    found := FindOptimalVcpuPairs(topo, lastCpuId, requested, pairs);
  }
}
