/**
 vCPU topology inference of vm_tools/vtop.c: the latency matrix that is filled and closed
 in place, the socket groups, the pair and core ids, and the relation matrix.

 The measured latency of a pair is an arbitrary function `latency`, so every result holds
 for every machine and every amount of noise.
 */
module TopologyProbe {
  import opened LatencyClosure

  type Latency = (int, int) -> int

  /** Classes: 1 same core, 2 same pair, 3 same socket, 4 remote (8500 is the default 3/4 boundary). */
  function GetLatencyClass(latency: int): (c: int)
    ensures 1 <= c <= 4
  {
    if latency < 0 || latency > 90000 then 1
    else if latency < 2000 then 2
    else if latency < 8500 then 3
    else 4
  }

  /** Readings in range are classed by their size; a reading out of range counts as the same core. */
  lemma ClassGrowsWithLatency(a: int, b: int)
    ensures 0 <= a <= b <= 90000 ==> 2 <= GetLatencyClass(a) <= GetLatencyClass(b)
    ensures GetLatencyClass(a) == 1 <==> a < 0 || a > 90000
    ensures GetLatencyClass(a) == 2 <==> 0 <= a < 2000
    ensures GetLatencyClass(a) == 3 <==> 2000 <= a < 8500
    ensures GetLatencyClass(a) == 4 <==> 8500 <= a <= 90000
  {
  }

  function Class(latency: Latency, i: int, j: int): (c: int)
    ensures 1 <= c <= 4
  {
    GetLatencyClass(latency(i, j))
  }

  /** The matrix `detect_vcpu_topology` starts from: only the diagonal is known. */
  ghost predicate DiagonalOnly(m: Matrix) {
    && Square(m)
    && (forall i, j :: 0 <= i < |m| && 0 <= j < |m| ==> m[i][j] == if i == j then 1 else 0)
  }

  // ---------- what the grouping means ----------

  ghost predicate Ascending(leaders: seq<int>) {
    forall k, l :: 0 <= k < l < |leaders| ==> leaders[k] < leaders[l]
  }

  /**
   First-fit grouping: `leaders[k]` is the vCPU that opened group `k`, in increasing order; a vCPU sits
   in the first group whose leader it measured below class 4 with.
   */
  ghost predicate Grouping(latency: Latency, g: seq<int>, leaders: seq<int>) {
    && Ascending(leaders)
    && (forall k :: 0 <= k < |leaders| ==> 0 <= leaders[k] < |g| && g[leaders[k]] == k)
    && (forall j :: 0 <= j < |g| ==> 0 <= g[j] < |leaders| && leaders[g[j]] <= j)
    && (forall j :: 0 <= j < |g| && leaders[g[j]] != j ==> Class(latency, leaders[g[j]], j) < 4)
    && (forall j, k {:trigger Class(latency, leaders[k], j)} :: 0 <= j < |g| && 0 <= k < g[j] ==> Class(latency, leaders[k], j) == 4)
  }

  /** Two groupings give the vCPUs below `n` the same groups and have the same leaders among them. */
  ghost predicate AgreeBelow(g: seq<int>, leaders: seq<int>, g': seq<int>, leaders': seq<int>, n: int)
    requires 0 <= n <= |g| == |g'|
  {
    && (forall i :: 0 <= i < n ==> g[i] == g'[i])
    && (forall k :: 0 <= k < |leaders| && leaders[k] < n ==> k < |leaders'| && leaders'[k] == leaders[k])
    && (forall k :: 0 <= k < |leaders'| && leaders'[k] < n ==> k < |leaders| && leaders[k] == leaders'[k])
  }

  /** A vCPU that joined an earlier leader joined the same one in the other grouping. */
  lemma JoinsTheSame(latency: Latency, g: seq<int>, leaders: seq<int>, g': seq<int>, leaders': seq<int>, j: int)
    requires Grouping(latency, g, leaders) && Grouping(latency, g', leaders')
    requires 0 <= j < |g| == |g'| && AgreeBelow(g, leaders, g', leaders', j) && leaders[g[j]] < j
    ensures g'[j] == g[j]
  {
    var a := g[j];
    assert leaders'[a] == leaders[a] && Class(latency, leaders'[a], j) < 4;
    assert forall k :: 0 <= k < a ==> leaders[k] < leaders[a];
    assert forall k :: 0 <= k < a ==> leaders'[k] == leaders[k] && Class(latency, leaders[k], j) == 4;
  }

  /** A vCPU that opened a group opened the one of the same number in the other grouping. */
  lemma OpensTheSame(latency: Latency, g: seq<int>, leaders: seq<int>, g': seq<int>, leaders': seq<int>, j: int)
    requires Grouping(latency, g, leaders) && Grouping(latency, g', leaders')
    requires 0 <= j < |g| == |g'| && AgreeBelow(g, leaders, g', leaders', j)
    requires leaders[g[j]] == j && leaders'[g'[j]] == j
    ensures g'[j] == g[j]
  {
    assert forall k :: 0 <= k < g[j] ==> leaders[k] < j && leaders'[k] == leaders[k];
    assert forall k :: 0 <= k < g'[j] ==> leaders'[k] < j && leaders[k] == leaders'[k];
  }

  lemma {:induction false} GroupingsAgree(latency: Latency, g: seq<int>, leaders: seq<int>, g': seq<int>, leaders': seq<int>, n: nat)
    requires Grouping(latency, g, leaders) && Grouping(latency, g', leaders') && n <= |g| == |g'|
    ensures AgreeBelow(g, leaders, g', leaders', n)
  {
    if n > 0 {
      var j := n - 1;
      GroupingsAgree(latency, g, leaders, g', leaders', j);
      if leaders[g[j]] < j {
        JoinsTheSame(latency, g, leaders, g', leaders', j);
      } else if leaders'[g'[j]] < j {
        JoinsTheSame(latency, g', leaders', g, leaders, j);
      } else {
        OpensTheSame(latency, g, leaders, g', leaders', j);
      }
    }
  }

  /** The measured classes determine the grouping: there is only one. */
  lemma GroupingIsUnique(latency: Latency, g: seq<int>, leaders: seq<int>, g': seq<int>, leaders': seq<int>)
    requires Grouping(latency, g, leaders) && Grouping(latency, g', leaders') && |g| == |g'|
    ensures g == g' && leaders == leaders'
  {
    GroupingsAgree(latency, g, leaders, g', leaders', |g|);
    assert |leaders| <= |leaders'| by {
      if |leaders| > 0 { assert leaders[|leaders| - 1] < |g|; }
    }
    assert |leaders'| <= |leaders| by {
      if |leaders'| > 0 { assert leaders'[|leaders'| - 1] < |g|; }
    }
  }

  /** The class a vCPU measured with its own group's leader. */
  ghost function LeaderClass(latency: Latency, g: seq<int>, leaders: seq<int>, j: int): (c: int)
    requires Grouping(latency, g, leaders) && 0 <= j < |g|
    ensures 1 <= c < 4
  {
    if leaders[g[j]] == j then 1 else Class(latency, leaders[g[j]], j)
  }

  ghost function StarEntry(latency: Latency, g: seq<int>, leaders: seq<int>, i: int, j: int): (c: int)
    requires Grouping(latency, g, leaders) && 0 <= i < |g| && 0 <= j < |g|
    ensures 1 <= c <= 4
  {
    if i == j then 1
    else if g[i] != g[j] then 4
    else
      var a, b := LeaderClass(latency, g, leaders, i), LeaderClass(latency, g, leaders, j);
      if a > b then a else b
  }

  /** Everything in one group is as far apart as the two hops over its leader. */
  ghost function Star(latency: Latency, g: seq<int>, leaders: seq<int>): (m: Matrix)
    requires Grouping(latency, g, leaders)
    ensures Square(m) && |m| == |g|
    ensures forall i, j :: 0 <= i < |g| && 0 <= j < |g| ==> m[i][j] == StarEntry(latency, g, leaders, i, j)
  {
    seq(|g|, i requires 0 <= i < |g| =>
      seq(|g|, j requires 0 <= j < |g| => StarEntry(latency, g, leaders, i, j)))
  }

  lemma StarIsClosed(latency: Latency, g: seq<int>, leaders: seq<int>)
    requires Grouping(latency, g, leaders)
    ensures ClassMatrix(Star(latency, g, leaders))
    ensures ClosedBelow(Star(latency, g, leaders), |g|)
  {
  }

  /** The pair (leader of `k`, `b`) was measured: `b` had no group yet when that leader's turn came. */
  ghost predicate Measured(m: Matrix, latency: Latency, g: seq<int>, leaders: seq<int>)
    requires Square(m) && |m| == |g| && Grouping(latency, g, leaders)
  {
    && (forall k, b {:trigger m[leaders[k]][b]} :: 0 <= k < |leaders| && 0 <= b < |g| && g[b] >= k && leaders[k] != b ==>
         m[leaders[k]][b] == Class(latency, leaders[k], b))
    && (forall a, b {:trigger m[a][b]} :: 0 <= a < |g| && 0 <= b < |g| && a != b && m[a][b] != 0 ==>
         (a == leaders[g[a]] && g[a] <= g[b]) || (b == leaders[g[b]] && g[b] <= g[a]))
  }

  lemma MeasuredAboveStar(m: Matrix, latency: Latency, g: seq<int>, leaders: seq<int>, v: int, a: int, b: int)
    requires Grouping(latency, g, leaders) && ClassMatrix(m) && |m| == |g| && Measured(m, latency, g, leaders)
    requires v >= 1 && 0 <= a < |g| && 0 <= b < |g| && Linked(m, v, a, b)
    ensures Linked(Star(latency, g, leaders), v, a, b)
  {
    var s := Star(latency, g, leaders);
    if a != b {
      assert m[a][b] == m[b][a];
      assert s[a][b] == StarEntry(latency, g, leaders, a, b);
      if a == leaders[g[a]] && g[a] <= g[b] {
        assert m[leaders[g[a]]][b] == Class(latency, leaders[g[a]], b);
      } else {
        assert m[leaders[g[b]]][a] == Class(latency, leaders[g[b]], a);
      }
    }
  }

  lemma StarIsReached(m: Matrix, latency: Latency, g: seq<int>, leaders: seq<int>, v: int, a: int, b: int)
    requires Grouping(latency, g, leaders) && ClassMatrix(m) && |m| == |g| && Measured(m, latency, g, leaders)
    requires v >= 1 && 0 <= a < |g| && 0 <= b < |g| && g[a] <= g[b]
    requires Linked(Star(latency, g, leaders), v, a, b)
    ensures Connected(m, v, a, b)
  {
    var s := Star(latency, g, leaders);
    assert s[a][b] == StarEntry(latency, g, leaders, a, b);
    if a == b {
      assert WalkBetween(m, v, [a], a, b);
    } else {
      var l := leaders[g[a]];
      assert a != l ==> m[l][a] == LeaderClass(latency, g, leaders, a) == m[a][l];
      assert b != l ==> m[l][b] == Class(latency, l, b);
      assert WalkBetween(m, v, [a, l, b], a, b);
    }
  }

  lemma ClosureEntryIsStar(m: Matrix, latency: Latency, g: seq<int>, leaders: seq<int>, a: int, b: int)
    requires Grouping(latency, g, leaders) && ClassMatrix(m) && |m| == |g| && Measured(m, latency, g, leaders)
    requires 0 <= a < |g| && 0 <= b < |g|
    ensures Closure(m)[a][b] == Star(latency, g, leaders)[a][b]
  {
    var c, s := Closure(m), Star(latency, g, leaders);
    var v := s[a][b];
    assert v == StarEntry(latency, g, leaders, a, b);
    assert ClassMatrix(c) by { ClosureIsUltrametric(m); }
    assert ClassMatrix(s) && ClosedBelow(s, |s|) by { StarIsClosed(latency, g, leaders); }
    assert Linked(c, v, a, b) by {
      if g[a] <= g[b] {
        StarIsReached(m, latency, g, leaders, v, a, b);
        ClosureIsMinimax(m, v, a, b);
      } else {
        assert s[b][a] == s[a][b];
        StarIsReached(m, latency, g, leaders, v, b, a);
        ClosureIsMinimax(m, v, b, a);
        assert c[b][a] == c[a][b];
      }
    }
    var w := c[a][b];
    forall x, y | 0 <= x < |g| && 0 <= y < |g| && Linked(m, w, x, y) ensures Linked(s, w, x, y) {
      MeasuredAboveStar(m, latency, g, leaders, w, x, y);
    }
    ClosureIsLargest(m, s, w, a, b);
  }

  lemma SameMatrix(m: Matrix, r: Matrix)
    requires Square(m) && Square(r) && |m| == |r|
    requires forall i, j :: 0 <= i < |m| && 0 <= j < |m| ==> m[i][j] == r[i][j]
    ensures m == r
  {
    forall i | 0 <= i < |m| ensures m[i] == r[i] {
      assert |m[i]| == |r[i]|;
    }
  }

  /** Whatever was measured, the closed matrix is the star matrix: no entry stays unknown. */
  lemma ClosureIsStar(m: Matrix, latency: Latency, g: seq<int>, leaders: seq<int>)
    requires Grouping(latency, g, leaders) && ClassMatrix(m) && |m| == |g| && Measured(m, latency, g, leaders)
    ensures Closure(m) == Star(latency, g, leaders)
  {
    var c, s := Closure(m), Star(latency, g, leaders);
    StarIsClosed(latency, g, leaders);
    ClosureIsUltrametric(m);
    forall a, b | 0 <= a < |g| && 0 <= b < |g| ensures c[a][b] == s[a][b] {
      ClosureEntryIsStar(m, latency, g, leaders, a, b);
    }
    SameMatrix(c, s);
  }

  // ---------- how far the inference is right ----------

  /** The class a noise-free measurement of the pair would give. */
  function TrueClass(latency: Latency, i: int, j: int): (c: int)
    ensures 1 <= c <= 4
  {
    if i == j then 1 else Class(latency, i, j)
  }

  /** Latencies of real hardware: symmetric, and nested (thread in core in socket in machine). */
  ghost predicate Hardware(latency: Latency, n: nat) {
    && (forall i, j :: 0 <= i < n && 0 <= j < n ==> TrueClass(latency, i, j) == TrueClass(latency, j, i))
    && (forall i, j, k :: 0 <= i < n && 0 <= j < n && 0 <= k < n ==>
         TrueClass(latency, i, j) <= TrueClass(latency, i, k) || TrueClass(latency, i, j) <= TrueClass(latency, k, j))
  }

  /** On real hardware the socket groups are always the true ones. */
  lemma SocketsAreExact(latency: Latency, g: seq<int>, leaders: seq<int>, i: int, j: int)
    requires Grouping(latency, g, leaders) && Hardware(latency, |g|)
    requires 0 <= i < |g| && 0 <= j < |g|
    ensures g[i] == g[j] <==> TrueClass(latency, i, j) < 4
  {
    var a, b := if g[i] <= g[j] then i else j, if g[i] <= g[j] then j else i;
    var l := leaders[g[a]];
    assert TrueClass(latency, l, a) < 4 && TrueClass(latency, a, l) < 4;
    assert g[a] == g[b] ==> TrueClass(latency, l, b) < 4;
    assert g[a] < g[b] ==> Class(latency, leaders[g[a]], b) == 4 && l != b;
    assert TrueClass(latency, a, b) <= TrueClass(latency, a, l) || TrueClass(latency, a, b) <= TrueClass(latency, l, b);
    assert TrueClass(latency, l, b) <= TrueClass(latency, l, a) || TrueClass(latency, l, b) <= TrueClass(latency, a, b);
  }

  /** The first vCPU from `l` on, up to `i`, that is on the socket of vCPU `i`. */
  function FirstFrom(latency: Latency, l: int, i: int): (r: int)
    requires l <= i
    ensures l <= r <= i && (r == i || Class(latency, r, i) < 4)
    ensures forall k :: l <= k < r ==> Class(latency, k, i) == 4
    decreases i - l
  {
    if l == i || Class(latency, l, i) < 4 then l else FirstFrom(latency, l + 1, i)
  }

  /** On real hardware the leader of a vCPU's group is the first vCPU of its socket. */
  lemma LeaderIsFirst(latency: Latency, g: seq<int>, leaders: seq<int>, i: int)
    requires Grouping(latency, g, leaders) && Hardware(latency, |g|) && 0 <= i < |g|
    ensures leaders[g[i]] == FirstFrom(latency, 0, i)
  {
    var l, f := leaders[g[i]], FirstFrom(latency, 0, i);
    SocketsAreExact(latency, g, leaders, f, i);
    assert f >= leaders[g[f]];
    assert l < i ==> Class(latency, l, i) < 4;
  }

  /**
   Two vCPUs of one socket that are equally far from its first vCPU but nearer to each other.
   This is the whole family on which the inferred class is wrong.
   */
  predicate HiddenFromLeader(latency: Latency, i: int, j: int)
    requires 0 <= i && 0 <= j
  {
    var l := FirstFrom(latency, 0, i);
    && i != j && Class(latency, i, j) < 4
    && TrueClass(latency, l, i) == TrueClass(latency, l, j)
    && Class(latency, i, j) < TrueClass(latency, l, i)
  }

  /** The inferred class never is too close, and is the true one except on hidden pairs. */
  lemma InferredClassIsExactIff(latency: Latency, g: seq<int>, leaders: seq<int>, i: int, j: int)
    requires Grouping(latency, g, leaders) && Hardware(latency, |g|)
    requires 0 <= i < |g| && 0 <= j < |g|
    ensures Star(latency, g, leaders)[i][j] >= TrueClass(latency, i, j)
    ensures Star(latency, g, leaders)[i][j] == TrueClass(latency, i, j) <==> !HiddenFromLeader(latency, i, j)
  {
    SocketsAreExact(latency, g, leaders, i, j);
    LeaderIsFirst(latency, g, leaders, i);
    assert Star(latency, g, leaders)[i][j] == StarEntry(latency, g, leaders, i, j);
    if i != j && g[i] == g[j] {
      var l := leaders[g[i]];
      assert LeaderClass(latency, g, leaders, i) == TrueClass(latency, l, i) == TrueClass(latency, i, l);
      assert LeaderClass(latency, g, leaders, j) == TrueClass(latency, l, j) == TrueClass(latency, j, l);
      assert TrueClass(latency, i, j) <= TrueClass(latency, i, l) || TrueClass(latency, i, j) <= TrueClass(latency, l, j);
      assert TrueClass(latency, l, i) <= TrueClass(latency, l, j) || TrueClass(latency, l, i) <= TrueClass(latency, j, i);
      assert TrueClass(latency, l, j) <= TrueClass(latency, l, i) || TrueClass(latency, l, j) <= TrueClass(latency, i, j);
    }
  }

  /** Two vCPUs are reported as threads of one core only when that core is their leader's. */
  lemma OnlyLeaderCoreIsFound(latency: Latency, g: seq<int>, leaders: seq<int>, i: int, j: int)
    requires Grouping(latency, g, leaders)
    requires 0 <= i < |g| && 0 <= j < |g| && i != j
    ensures Star(latency, g, leaders)[i][j] < 2 <==>
            g[i] == g[j] && TrueClass(latency, leaders[g[i]], i) < 2 && TrueClass(latency, leaders[g[i]], j) < 2
  {
    assert Star(latency, g, leaders)[i][j] == StarEntry(latency, g, leaders, i, j);
  }

  /** A four-thread, two-core socket: threads 0 and 1 on one core, 2 and 3 on the other. */
  function TwoCoreLatency(i: int, j: int): int {
    if i / 2 == j / 2 then -1 else 5000
  }

  lemma TwoCoreGrouping()
    ensures Grouping(TwoCoreLatency, [0, 0, 0, 0], [0])
  {
    var zeros := [0, 0, 0, 0];
    assert forall j :: 0 <= j < 4 ==> zeros[j] == 0;
  }

  lemma TwoCoresAreHardware()
    ensures Hardware(TwoCoreLatency, 4)
  {
  }

  /** Every grouping of that machine: the second core's two threads are inferred to be on different cores. */
  lemma SecondCoreIsMissed(g: seq<int>, leaders: seq<int>)
    requires Grouping(TwoCoreLatency, g, leaders) && |g| == 4
    ensures g == [0, 0, 0, 0] && leaders == [0]
    ensures TrueClass(TwoCoreLatency, 2, 3) == 1 && Star(TwoCoreLatency, g, leaders)[2][3] == 3
  {
    TwoCoreGrouping();
    GroupingIsUnique(TwoCoreLatency, g, leaders, [0, 0, 0, 0], [0]);
    assert Star(TwoCoreLatency, g, leaders)[2][3] == StarEntry(TwoCoreLatency, g, leaders, 2, 3);
  }

  // ---------- the loops ----------

  /** Leader `k` has had its turn with vCPU `b`; the last leader has got as far as `done`. */
  ghost predicate Examined(leaders: seq<int>, done: int, k: int, b: int) {
    0 <= k < |leaders| && (k < |leaders| - 1 || b < done)
  }

  ghost predicate EdgeOf(g: seq<int>, leaders: seq<int>, done: int, a: int, b: int)
    requires 0 <= a < |g| && 0 <= b < |g|
  {
    && 0 <= g[a] < |leaders| && leaders[g[a]] == a
    && (g[b] == -1 || g[a] <= g[b])
    && Examined(leaders, done, g[a], b)
  }

  /** Half-way through `find_numa_groups`: -1 marks a vCPU without a group. */
  ghost predicate Grouped(latency: Latency, g: seq<int>, leaders: seq<int>, done: int) {
    && (forall k :: 0 <= k < |leaders| ==> 0 <= leaders[k] < |g| && g[leaders[k]] == k)
    && (forall j :: 0 <= j < |g| ==> -1 <= g[j] < |leaders|)
    && (forall j :: 0 <= j < |g| && g[j] != -1 ==> leaders[g[j]] <= j)
    && (forall j :: 0 <= j < |g| && g[j] != -1 && leaders[g[j]] != j ==> Class(latency, leaders[g[j]], j) < 4)
    && (forall j, k {:trigger Examined(leaders, done, k, j)} ::
          0 <= j < |g| && Examined(leaders, done, k, j) && (g[j] == -1 || k < g[j]) ==>
         Class(latency, leaders[k], j) == 4)
    && (forall j :: done <= j < |g| && 0 <= j && g[j] != -1 && g[j] == |leaders| - 1 ==> leaders[g[j]] == j)
  }

  ghost predicate Recorded(m: Matrix, latency: Latency, g: seq<int>, leaders: seq<int>, done: int)
    requires Square(m) && |m| == |g| && Grouped(latency, g, leaders, done)
  {
    && (forall k, b {:trigger Examined(leaders, done, k, b)} ::
          0 <= b < |g| && Examined(leaders, done, k, b) && (g[b] == -1 || g[b] >= k) && leaders[k] != b ==>
         m[leaders[k]][b] == Class(latency, leaders[k], b))
    && (forall a, b :: 0 <= a < |g| && 0 <= b < |g| && a != b && m[a][b] != 0 ==>
         EdgeOf(g, leaders, done, a, b) || EdgeOf(g, leaders, done, b, a))
  }

  lemma NonemptyHasMember<T>(s: seq<T>)
    ensures s != [] ==> exists x :: x in s
  {
    if s != [] {
      assert s[0] in s;
    }
  }

  /** Everything known while leader `leaders[|leaders| - 1]` is at vCPU `done`. */
  ghost predicate Progress(m: Matrix, latency: Latency, g: seq<int>, leaders: seq<int>, done: int) {
    ClassMatrix(m) && |m| == |g| && Grouped(latency, g, leaders, done) && Recorded(m, latency, g, leaders, done)
  }

  /** A new leader takes the next group number. */
  lemma OpenGroup(m: Matrix, latency: Latency, g: seq<int>, leaders: seq<int>, i: int)
    requires Progress(m, latency, g, leaders, |g|)
    requires 0 <= i < |g| && g[i] == -1
    ensures Progress(m, latency, g[i := |leaders|], leaders + [i], 0)
  {
    var g', leaders' := g[i := |leaders|], leaders + [i];
    assert forall k, b :: Examined(leaders', 0, k, b) && 0 <= b < |g| ==> Examined(leaders, |g|, k, b) && leaders'[k] == leaders[k];
    assert forall k, b :: Examined(leaders, |g|, k, b) ==> Examined(leaders', 0, k, b);
    assert Grouped(latency, g', leaders', 0);
    forall a, b | 0 <= a < |g| && 0 <= b < |g| && a != b && m[a][b] != 0
      ensures EdgeOf(g', leaders', 0, a, b) || EdgeOf(g', leaders', 0, b, a)
    {
      assert EdgeOf(g, leaders, |g|, a, b) || EdgeOf(g, leaders, |g|, b, a);
    }
  }

  /** A vCPU that already has a group is passed over. */
  lemma PassOver(m: Matrix, latency: Latency, g: seq<int>, leaders: seq<int>, j: int)
    requires Progress(m, latency, g, leaders, j)
    requires 0 <= j < |g| && g[j] != -1
    ensures Progress(m, latency, g, leaders, j + 1)
  {
    assert forall k, b :: Examined(leaders, j, k, b) ==> Examined(leaders, j + 1, k, b);
    assert forall k, b {:trigger Examined(leaders, j + 1, k, b)} ::
        Examined(leaders, j + 1, k, b) ==> Examined(leaders, j, k, b) || (k == |leaders| - 1 && b == j);
    forall a, b | 0 <= a < |g| && 0 <= b < |g| && a != b && m[a][b] != 0
      ensures EdgeOf(g, leaders, j + 1, a, b) || EdgeOf(g, leaders, j + 1, b, a)
    {
      assert EdgeOf(g, leaders, j, a, b) || EdgeOf(g, leaders, j, b, a);
    }
  }

  /** The pair of the last leader and a vCPU without a group cannot be known yet. */
  lemma NotMeasuredYet(m: Matrix, latency: Latency, g: seq<int>, leaders: seq<int>, j: int)
    requires ClassMatrix(m) && |m| == |g| && 0 <= j < |g| && Grouped(latency, g, leaders, j)
    requires Recorded(m, latency, g, leaders, j)
    requires g[j] == -1 && leaders != []
    ensures m[leaders[|leaders| - 1]][j] == 0
  {
  }

  /** The matrix after `set_latency_pair`. */
  function SetPair(m: Matrix, x: int, y: int, c: int): (r: Matrix)
    requires Square(m) && 0 <= x < |m| && 0 <= y < |m|
    ensures Square(r) && |r| == |m|
    ensures forall a, b :: 0 <= a < |m| && 0 <= b < |m| ==>
              r[a][b] == if (a == x && b == y) || (a == y && b == x) then c else m[a][b]
  {
    var r := m[x := m[x][y := c]];
    r[y := r[y][x := c]]
  }

  lemma SetPairKeepsClassMatrix(m: Matrix, x: int, y: int, c: int)
    requires ClassMatrix(m) && 0 <= x < |m| && 0 <= y < |m| && x != y && c >= 0
    ensures ClassMatrix(SetPair(m, x, y, c))
  {
  }

  /** The groups after the last leader has measured class `c` with vCPU `j`. */
  function Join(g: seq<int>, group: int, j: int, c: int): (r: seq<int>)
    requires 0 <= j < |g|
    ensures |r| == |g|
  {
    if c < 4 then g[j := group] else g
  }

  lemma JoinGrouped(latency: Latency, g: seq<int>, leaders: seq<int>, i: int, j: int)
    requires 0 <= j < |g| && Grouped(latency, g, leaders, j)
    requires g[j] == -1 && leaders != [] && i == leaders[|leaders| - 1]
    requires forall b :: 0 <= b <= i ==> g[b] != -1
    ensures Grouped(latency, Join(g, |leaders| - 1, j, Class(latency, i, j)), leaders, j + 1)
  {
    var g' := Join(g, |leaders| - 1, j, Class(latency, i, j));
    forall b, k {:trigger Examined(leaders, j + 1, k, b)} | 0 <= b < |g'| && Examined(leaders, j + 1, k, b) && (g'[b] == -1 || k < g'[b])
      ensures Class(latency, leaders[k], b) == 4
    {
      if b != j || k != |leaders| - 1 {
        assert Examined(leaders, j, k, b);
      }
    }
  }

  lemma JoinEdge(m: Matrix, latency: Latency, g: seq<int>, leaders: seq<int>, i: int, j: int, a: int, b: int)
    requires Square(m) && |m| == |g| && 0 <= j < |g| && Grouped(latency, g, leaders, j)
    requires Recorded(m, latency, g, leaders, j)
    requires g[j] == -1 && leaders != [] && i == leaders[|leaders| - 1]
    requires 0 <= a < |g| && 0 <= b < |g| && a != b && SetPair(m, i, j, Class(latency, i, j))[a][b] != 0
    ensures var g' := Join(g, |leaders| - 1, j, Class(latency, i, j));
            EdgeOf(g', leaders, j + 1, a, b) || EdgeOf(g', leaders, j + 1, b, a)
  {
    assert g[i] == |leaders| - 1;
    if (a == i && b == j) || (a == j && b == i) {
      assert EdgeOf(Join(g, |leaders| - 1, j, Class(latency, i, j)), leaders, j + 1, i, j);
    } else {
      assert m[a][b] != 0;
      assert EdgeOf(g, leaders, j, a, b) || EdgeOf(g, leaders, j, b, a);
    }
  }

  lemma JoinValue(m: Matrix, latency: Latency, g: seq<int>, leaders: seq<int>, i: int, j: int, k: int, b: int)
    requires Square(m) && |m| == |g| && 0 <= j < |g| && Grouped(latency, g, leaders, j)
    requires Recorded(m, latency, g, leaders, j)
    requires g[j] == -1 && leaders != [] && i == leaders[|leaders| - 1]
    requires 0 <= b < |g| && Examined(leaders, j + 1, k, b) && leaders[k] != b
    requires var g' := Join(g, |leaders| - 1, j, Class(latency, i, j)); g'[b] == -1 || g'[b] >= k
    ensures SetPair(m, i, j, Class(latency, i, j))[leaders[k]][b] == Class(latency, leaders[k], b)
  {
    assert g[leaders[k]] == k && g[i] == |leaders| - 1;
    if b != j || k != |leaders| - 1 {
      assert Examined(leaders, j, k, b);
      assert m[leaders[k]][b] == Class(latency, leaders[k], b);
    }
  }

  lemma JoinRecorded(m: Matrix, latency: Latency, g: seq<int>, leaders: seq<int>, i: int, j: int)
    requires Square(m) && |m| == |g| && 0 <= j < |g| && Grouped(latency, g, leaders, j)
    requires Recorded(m, latency, g, leaders, j)
    requires g[j] == -1 && leaders != [] && i == leaders[|leaders| - 1]
    requires Grouped(latency, Join(g, |leaders| - 1, j, Class(latency, i, j)), leaders, j + 1)
    ensures Recorded(SetPair(m, i, j, Class(latency, i, j)), latency,
                     Join(g, |leaders| - 1, j, Class(latency, i, j)), leaders, j + 1)
  {
    var c := Class(latency, i, j);
    var m', g' := SetPair(m, i, j, c), Join(g, |leaders| - 1, j, c);
    forall a, b | 0 <= a < |g| && 0 <= b < |g| && a != b && m'[a][b] != 0
      ensures EdgeOf(g', leaders, j + 1, a, b) || EdgeOf(g', leaders, j + 1, b, a)
    {
      JoinEdge(m, latency, g, leaders, i, j, a, b);
    }
    forall k, b {:trigger Examined(leaders, j + 1, k, b)} |
      0 <= b < |g| && Examined(leaders, j + 1, k, b) && (g'[b] == -1 || g'[b] >= k) && leaders[k] != b
      ensures m'[leaders[k]][b] == Class(latency, leaders[k], b)
    {
      JoinValue(m, latency, g, leaders, i, j, k, b);
    }
  }

  /** The last leader measures vCPU `j`, which joins its group below class 4. */
  lemma MeasureOne(m: Matrix, latency: Latency, g: seq<int>, leaders: seq<int>, i: int, j: int)
    requires Progress(m, latency, g, leaders, j)
    requires 0 <= j < |g| && g[j] == -1 && leaders != [] && i == leaders[|leaders| - 1]
    requires forall b :: 0 <= b <= i ==> g[b] != -1
    ensures m[i][j] == 0
    ensures var c := Class(latency, i, j);
            Progress(SetPair(m, i, j, c), latency, Join(g, |leaders| - 1, j, c), leaders, j + 1)
  {
    var c := Class(latency, i, j);
    var m', g' := SetPair(m, i, j, c), Join(g, |leaders| - 1, j, c);
    NotMeasuredYet(m, latency, g, leaders, j);
    assert ClassMatrix(m') by { SetPairKeepsClassMatrix(m, i, j, c); }
    assert Grouped(latency, g', leaders, j + 1) by { JoinGrouped(latency, g, leaders, i, j); }
    JoinRecorded(m, latency, g, leaders, i, j);
  }

  /** Once everyone has a group, the bookkeeping is the first-fit grouping and its measured pairs. */
  lemma ProgressDone(m: Matrix, latency: Latency, g: seq<int>, leaders: seq<int>)
    requires Progress(m, latency, g, leaders, |g|) && Ascending(leaders)
    requires forall j :: 0 <= j < |g| ==> g[j] != -1
    ensures Grouping(latency, g, leaders) && Measured(m, latency, g, leaders)
  {
    forall j, k | 0 <= j < |g| && 0 <= k < g[j] ensures Class(latency, leaders[k], j) == 4 {
      assert Examined(leaders, |g|, k, j);
    }
    forall k, b | 0 <= k < |leaders| && 0 <= b < |g| && g[b] >= k && leaders[k] != b
      ensures m[leaders[k]][b] == Class(latency, leaders[k], b)
    {
      assert Examined(leaders, |g|, k, b);
    }
    forall a, b | 0 <= a < |g| && 0 <= b < |g| && a != b && m[a][b] != 0
      ensures (a == leaders[g[a]] && g[a] <= g[b]) || (b == leaders[g[b]] && g[b] <= g[a])
    {
      assert EdgeOf(g, leaders, |g|, a, b) || EdgeOf(g, leaders, |g|, b, a);
    }
  }

  /** The leaders so far, in increasing order, all below vCPU `n`. */
  ghost predicate LedBelow(leaders: seq<int>, n: int) {
    Ascending(leaders) && forall k :: 0 <= k < |leaders| ==> leaders[k] < n
  }

  lemma LeadersGrow(leaders: seq<int>, i: int)
    requires LedBelow(leaders, i)
    ensures LedBelow(leaders + [i], i + 1) && LedBelow(leaders, i + 1)
  {
  }

  lemma GroupsDone(m: Matrix, latency: Latency, g: seq<int>, leaders: seq<int>)
    requires Progress(m, latency, g, leaders, |g|) && LedBelow(leaders, |g|)
    requires forall j :: 0 <= j < |g| ==> g[j] != -1
    ensures Grouping(latency, g, leaders) && Closure(m) == Star(latency, g, leaders)
  {
    ProgressDone(m, latency, g, leaders);
    ClosureIsStar(m, latency, g, leaders);
  }

  datatype Probed = Probed(m: Matrix, g: seq<int>)

  /** One turn of the inner loop: leader `i` of `group` meets vCPU `j`. */
  function MeasureNext(latency: Latency, q: Probed, i: int, group: int, j: int): (r: Probed)
    requires Square(q.m) && |q.m| == |q.g| && 0 <= i < |q.g| && 0 <= j < |q.g|
    ensures Square(r.m) && |r.m| == |r.g| == |q.g|
  {
    if q.g[j] != -1 then q
    else if q.m[i][j] != 0 then Probed(q.m, Join(q.g, group, j, q.m[i][j]))
    else
      var c := Class(latency, i, j);
      Probed(SetPair(q.m, i, j, c), Join(q.g, group, j, c))
  }

  /** Matrix and groups after vCPU `i`, as leader of `group`, has been through the first `j` vCPUs. */
  function MeasureRow(latency: Latency, p: Probed, i: int, group: int, j: nat): (r: Probed)
    requires Square(p.m) && |p.m| == |p.g| && 0 <= i < |p.g| && j <= |p.g|
    ensures Square(r.m) && |r.m| == |r.g| == |p.g|
  {
    if j == 0 then p
    else MeasureNext(latency, MeasureRow(latency, p, i, group, j - 1), i, group, j - 1)
  }

  /** Progress of the row of the last leader, which is vCPU `i`; everyone up to it has a group. */
  ghost predicate RowProgress(latency: Latency, q: Probed, leaders: seq<int>, i: int, j: int) {
    && Progress(q.m, latency, q.g, leaders, j)
    && leaders != [] && leaders[|leaders| - 1] == i && 0 <= i < |q.g|
    && forall b :: 0 <= b <= i ==> q.g[b] != -1
  }

  lemma RowStep(latency: Latency, q: Probed, leaders: seq<int>, i: int, j: int)
    requires RowProgress(latency, q, leaders, i, j) && 0 <= j < |q.g|
    ensures RowProgress(latency, MeasureNext(latency, q, i, |leaders| - 1, j), leaders, i, j + 1)
  {
    if q.g[j] != -1 {
      PassOver(q.m, latency, q.g, leaders, j);
    } else {
      MeasureOne(q.m, latency, q.g, leaders, i, j);
    }
  }

  /** What every turn of the inner loop keeps holds after all of them. */
  lemma {:induction false} MeasureRowKeeps(latency: Latency, p: Probed, i: int, group: int, j: nat, keeps: (Probed, int) -> bool)
    requires Square(p.m) && |p.m| == |p.g| && 0 <= i < |p.g| && j <= |p.g| && keeps(p, 0)
    requires forall q: Probed, k: int {:trigger MeasureNext(latency, q, i, group, k)} ::
               Square(q.m) && |q.m| == |q.g| == |p.g| && 0 <= k < |p.g| && keeps(q, k)
               ==> keeps(MeasureNext(latency, q, i, group, k), k + 1)
    ensures keeps(MeasureRow(latency, p, i, group, j), j)
  {
    if j > 0 { MeasureRowKeeps(latency, p, i, group, j - 1, keeps); }
  }

  lemma MeasureRowProgress(latency: Latency, p: Probed, leaders: seq<int>, i: int)
    requires RowProgress(latency, p, leaders, i, 0)
    ensures RowProgress(latency, MeasureRow(latency, p, i, |leaders| - 1, |p.g|), leaders, i, |p.g|)
  {
    var keeps: (Probed, int) -> bool := (q, k) => RowProgress(latency, q, leaders, i, k);
    forall q: Probed, k: int {:trigger MeasureNext(latency, q, i, |leaders| - 1, k)} |
      Square(q.m) && |q.m| == |q.g| == |p.g| && 0 <= k < |p.g| && keeps(q, k)
      ensures keeps(MeasureNext(latency, q, i, |leaders| - 1, k), k + 1)
    {
      RowStep(latency, q, leaders, i, k);
    }
    MeasureRowKeeps(latency, p, i, |leaders| - 1, |p.g|, keeps);
  }

  /** A new leader's row, from the opening of its group on. */
  lemma LeaderProgress(latency: Latency, p: Probed, leaders: seq<int>, i: int)
    requires Progress(p.m, latency, p.g, leaders, |p.g|)
    requires 0 <= i < |p.g| && p.g[i] == -1 && forall b :: 0 <= b < i ==> p.g[b] != -1
    ensures var r := MeasureRow(latency, Probed(p.m, p.g[i := |leaders|]), i, |leaders|, |p.g|);
            && Progress(r.m, latency, r.g, leaders + [i], |p.g|)
            && forall b :: 0 <= b <= i ==> r.g[b] != -1
  {
    OpenGroup(p.m, latency, p.g, leaders, i);
    MeasureRowProgress(latency, Probed(p.m, p.g[i := |leaders|]), leaders + [i], i);
  }

  // ---------- ids from the closed matrix ----------

  datatype Ids = Ids(ids: seq<int>, nr: nat)

  /** The id of vCPU `x` once its turn comes: its own, or the next free one. */
  function RowId(q: Ids, x: int): int
    requires 0 <= x < |q.ids|
  {
    if q.ids[x] == -1 then q.nr else q.ids[x]
  }

  /** Ids and id count after the first `i` vCPUs have pulled everyone nearer than `limit` into their class. */
  function AssignIds(m: Matrix, limit: int, i: nat): (r: Ids)
    requires Square(m) && i <= |m|
    ensures |r.ids| == |m|
    ensures forall a :: 0 <= a < |m| ==> r.ids[a] >= -1
  {
    if i == 0 then Ids(seq(|m|, _ => -1), 0)
    else
      var q := AssignIds(m, limit, i - 1);
      var id := RowId(q, i - 1);
      Ids(
        seq(|m|, j requires 0 <= j < |m| => if m[i - 1][j] < limit || j == i - 1 then id else q.ids[j]),
        if q.ids[i - 1] == -1 then q.nr + 1 else q.nr)
  }

  /** `r` is `q` after vCPU `x` has pulled everyone near it into its class. */
  ghost predicate Pulled(m: Matrix, limit: int, x: int, q: Ids, r: Ids)
    requires Square(m) && 0 <= x < |m| == |q.ids|
  {
    && |r.ids| == |m|
    && r.nr == (if q.ids[x] == -1 then q.nr + 1 else q.nr)
    && (forall b :: 0 <= b < |m| ==> r.ids[b] == if m[x][b] < limit || b == x then RowId(q, x) else q.ids[b])
  }

  lemma AssignIdsNext(m: Matrix, limit: int, i: nat, r: Ids)
    requires Square(m) && i < |m| && Pulled(m, limit, i, AssignIds(m, limit, i), r)
    ensures r == AssignIds(m, limit, i + 1)
  {
    assert r.ids == AssignIds(m, limit, i + 1).ids;
  }

  /** Every pair is known and the matrix is closed, as `find_numa_groups` leaves it. */
  ghost predicate Complete(m: Matrix) {
    && ClassMatrix(m) && ClosedBelow(m, |m|)
    && (forall i, j {:trigger m[i][j]} :: 0 <= i < |m| && 0 <= j < |m| ==> m[i][j] > 0)
  }

  /** "Nearer than `limit`" is an equivalence on a complete matrix. */
  lemma NearIsEquivalence(m: Matrix, limit: int, a: int, b: int, c: int)
    requires Complete(m) && limit >= 2 && 0 <= a < |m| && 0 <= b < |m| && 0 <= c < |m|
    ensures m[a][a] < limit
    ensures m[a][b] < limit ==> m[b][a] < limit
    ensures m[a][b] < limit && m[b][c] < limit ==> m[a][c] < limit
  {
    if m[a][b] < limit && m[b][c] < limit {
      assert Linked(m, limit - 1, a, b) && Linked(m, limit - 1, b, c);
      assert Linked(m, limit - 1, a, c);
    }
  }

  ghost predicate ReachedBy(m: Matrix, limit: int, i: int, a: int)
    requires Square(m) && 0 <= i <= |m| && 0 <= a < |m|
  {
    exists c :: 0 <= c < i && m[c][a] < limit
  }

  ghost predicate PartialIds(m: Matrix, limit: int, i: nat, r: Ids)
    requires Square(m) && i <= |m| && |r.ids| == |m|
  {
    && (forall a :: 0 <= a < |m| ==> -1 <= r.ids[a] < r.nr)
    && (forall a {:trigger ReachedBy(m, limit, i, a)} :: 0 <= a < |m| ==> (r.ids[a] != -1 <==> ReachedBy(m, limit, i, a)))
    && (forall a, b {:trigger m[a][b]} :: 0 <= a < |m| && 0 <= b < |m| && r.ids[a] != -1 && r.ids[b] != -1 ==>
         (r.ids[a] == r.ids[b] <==> m[a][b] < limit))
    && (forall k :: 0 <= k < r.nr ==> k in r.ids)
  }

  lemma ReachedStep(m: Matrix, limit: int, i: nat, a: int)
    requires Square(m) && 0 < i <= |m| && 0 <= a < |m|
    ensures ReachedBy(m, limit, i, a) <==> ReachedBy(m, limit, i - 1, a) || m[i - 1][a] < limit
  {
    if ReachedBy(m, limit, i - 1, a) {
      var c :| 0 <= c < i - 1 && m[c][a] < limit;
      assert 0 <= c < i && m[c][a] < limit;
    }
  }

  lemma ReachedNear(m: Matrix, limit: int, i: nat, x: int, a: int)
    requires Complete(m) && limit >= 2 && i <= |m|
    requires 0 <= x < |m| && 0 <= a < |m| && m[x][a] < limit && ReachedBy(m, limit, i, x)
    ensures ReachedBy(m, limit, i, a)
  {
    var c :| 0 <= c < i && m[c][x] < limit;
    NearIsEquivalence(m, limit, c, x, a);
  }

  /** Whoever is near `x` had an id exactly when `x` had, and then the same one. */
  lemma NearShareId(m: Matrix, limit: int, i: nat, q: Ids, x: int, a: int)
    requires Complete(m) && limit >= 2 && i <= |m| && |q.ids| == |m| && PartialIds(m, limit, i, q)
    requires 0 <= x < |m| && 0 <= a < |m| && m[x][a] < limit
    ensures q.ids[a] == q.ids[x]
  {
    NearIsEquivalence(m, limit, x, a, a);
    if ReachedBy(m, limit, i, a) { ReachedNear(m, limit, i, a, x); }
    if ReachedBy(m, limit, i, x) { ReachedNear(m, limit, i, x, a); }
  }

  lemma PulledSeparates(m: Matrix, limit: int, x: nat, q: Ids, r: Ids, a: int, b: int)
    requires Complete(m) && limit >= 2 && x < |m| == |q.ids|
    requires PartialIds(m, limit, x, q) && Pulled(m, limit, x, q, r)
    requires 0 <= a < |m| && 0 <= b < |m| && r.ids[a] != -1 && r.ids[b] != -1
    ensures r.ids[a] == r.ids[b] <==> m[a][b] < limit
  {
    NearIsEquivalence(m, limit, x, a, b);
    NearIsEquivalence(m, limit, x, b, a);
    NearIsEquivalence(m, limit, a, x, b);
    NearIsEquivalence(m, limit, a, b, x);
    if m[x][a] < limit { NearShareId(m, limit, x, q, x, a); }
    if m[x][b] < limit { NearShareId(m, limit, x, q, x, b); }
    if m[a][b] < limit { NearShareId(m, limit, x, q, a, b); }
  }

  lemma PulledKeepsIds(m: Matrix, limit: int, x: nat, q: Ids, r: Ids, k: int)
    requires Complete(m) && limit >= 2 && x < |m| == |q.ids|
    requires PartialIds(m, limit, x, q) && Pulled(m, limit, x, q, r)
    requires 0 <= k < r.nr
    ensures k in r.ids
  {
    if k < q.nr {
      assert k in q.ids;
      var a :| 0 <= a < |m| && q.ids[a] == k;
      if m[x][a] < limit { NearShareId(m, limit, x, q, x, a); }
      assert r.ids[a] == k;
    } else {
      assert r.ids[x] == k;
    }
  }

  lemma PulledPartialIds(m: Matrix, limit: int, x: nat, q: Ids, r: Ids)
    requires Complete(m) && limit >= 2 && x < |m| == |q.ids|
    requires PartialIds(m, limit, x, q) && Pulled(m, limit, x, q, r)
    ensures PartialIds(m, limit, x + 1, r)
  {
    forall a | 0 <= a < |m| ensures r.ids[a] != -1 <==> ReachedBy(m, limit, x + 1, a) {
      ReachedStep(m, limit, x + 1, a);
      assert m[x][x] == 1;
    }
    forall a, b {:trigger m[a][b]} | 0 <= a < |m| && 0 <= b < |m| && r.ids[a] != -1 && r.ids[b] != -1
      ensures r.ids[a] == r.ids[b] <==> m[a][b] < limit
    {
      PulledSeparates(m, limit, x, q, r, a, b);
    }
    forall k | 0 <= k < r.nr ensures k in r.ids {
      PulledKeepsIds(m, limit, x, q, r, k);
    }
  }

  /** The ids are exactly the classes of "nearer than `limit`", numbered without gaps. */
  lemma {:induction false} AssignIdsPartition(m: Matrix, limit: int, i: nat)
    requires Complete(m) && limit >= 2 && i <= |m|
    ensures PartialIds(m, limit, i, AssignIds(m, limit, i))
  {
    if i > 0 {
      AssignIdsPartition(m, limit, i - 1);
      PulledPartialIds(m, limit, i - 1, AssignIds(m, limit, i - 1), AssignIds(m, limit, i));
    }
  }

  lemma AllIdsPartition(m: Matrix, limit: int)
    requires Complete(m) && limit >= 2
    ensures var r := AssignIds(m, limit, |m|);
            && (forall a, b :: 0 <= a < |m| && 0 <= b < |m| ==> (r.ids[a] == r.ids[b] <==> m[a][b] < limit))
            && (forall k :: k in r.ids <==> 0 <= k < r.nr)
  {
    AssignIdsPartition(m, limit, |m|);
    var r := AssignIds(m, limit, |m|);
    forall a | 0 <= a < |m| ensures r.ids[a] != -1 {
      assert m[a][a] < limit;
      assert ReachedBy(m, limit, |m|, a);
    }
  }

  // ---------- one round of the closure, in place ----------

  /** Round `k` at row `i` and column `j`: what has been visited is relaxed, with its mirror image. */
  ghost predicate RelaxedUpTo(x: Matrix, m: Matrix, k: nat, i: int, j: int) {
    && Square(m) && Square(x) && |x| == |m| && k < |m|
    && forall a, b :: 0 <= a < |m| && 0 <= b < |m| ==>
         x[a][b] == if a < i || b < i || (a == i && b < j) || (b == i && a < j) then RelaxedEntry(m, k, a, b) else m[a][b]
  }

  lemma RoundStarts(m: Matrix, k: nat)
    requires Square(m) && k < |m|
    ensures RelaxedUpTo(m, m, k, 0, 0)
  {
  }

  /** Row and column `k` do not change in round `k`, and relaxed entries mirror each other. */
  lemma RelaxedMirror(m: Matrix, k: nat, a: nat, b: nat)
    requires ClassMatrix(m) && k < |m| && a < |m| && b < |m|
    ensures RelaxedEntry(m, k, a, k) == m[a][k] && RelaxedEntry(m, k, k, b) == m[k][b]
    ensures RelaxedEntry(m, k, a, b) == RelaxedEntry(m, k, b, a)
  {
    assert m[a][b] == m[b][a] && m[a][k] == m[k][a] && m[k][b] == m[b][k];
  }

  /** What the body of the loops does to one entry and its mirror image. */
  function Relaxed(x: Matrix, k: nat, i: nat, j: nat): (r: Matrix)
    requires Square(x) && k < |x| && i < |x| && j < |x|
    ensures Square(r) && |r| == |x|
  {
    var via := if x[i][k] > x[k][j] then x[i][k] else x[k][j];
    if x[k][j] != 0 && (x[i][j] == 0 || x[i][j] > via) then SetPair(x, i, j, via) else x
  }

  lemma CellRelaxed(x: Matrix, m: Matrix, k: nat, i: nat, j: nat)
    requires ClassMatrix(m) && RelaxedUpTo(x, m, k, i, j) && i < |m| && j < |m| && x[i][k] != 0
    ensures Square(x) && |x| == |m| && k < |m| && RelaxedUpTo(Relaxed(x, k, i, j), m, k, i, j + 1)
    ensures Relaxed(x, k, i, j)[i][k] != 0
  {
    RelaxedMirror(m, k, i, j);
    RelaxedMirror(m, k, j, i);
    var r := Relaxed(x, k, i, j);
    assert x[i][k] == m[i][k] && x[k][j] == m[k][j];
    assert x[i][j] == m[i][j] || x[i][j] == RelaxedEntry(m, k, i, j);
    assert r[i][j] == r[j][i] == RelaxedEntry(m, k, i, j);
    forall a, b | 0 <= a < |m| && 0 <= b < |m| && !(a == i && b == j) && !(a == j && b == i) ensures r[a][b] == x[a][b] {
    }
  }

  lemma RowRelaxed(x: Matrix, m: Matrix, k: nat, i: nat)
    requires RelaxedUpTo(x, m, k, i, |m|)
    ensures RelaxedUpTo(x, m, k, i + 1, 0)
  {
  }

  lemma RowSkipped(x: Matrix, m: Matrix, k: nat, i: nat)
    requires ClassMatrix(m) && RelaxedUpTo(x, m, k, i, 0) && i < |m| && x[i][k] == 0
    ensures RelaxedUpTo(x, m, k, i + 1, 0)
  {
    RelaxedMirror(m, k, i, i);
    assert m[i][k] == 0 && m[k][i] == 0;
  }

  lemma RoundRelaxed(x: Matrix, m: Matrix, k: nat)
    requires RelaxedUpTo(x, m, k, |m|, 0)
    ensures x == Relax(m, k)
  {
    SameMatrix(x, Relax(m, k));
  }

  datatype Relation = Smt | Core | Socket | Remote

  /** What the closed class of a pair is reported as. */
  function RelationOf(c: int): Relation {
    if c < 2 then Smt else if c < 4 then Socket else Remote
  }

  datatype CpuTopology = CpuTopology(
    nrSockets: nat,
    nrCores: nat,
    cpuToSocket: seq<int>,
    cpuToCore: seq<int>,
    relation: seq<seq<Relation>>)

  /** Same core, else same socket, else remote. */
  ghost predicate Related(relation: seq<seq<Relation>>, cores: seq<int>, sockets: seq<int>) {
    && |relation| == |cores| == |sockets| && (forall i :: 0 <= i < |relation| ==> |relation[i]| == |relation|)
    && forall i, j {:trigger relation[i][j]} :: 0 <= i < |relation| && 0 <= j < |relation| ==>
         relation[i][j] == if cores[i] == cores[j] then Smt else if sockets[i] == sockets[j] then Socket else Remote
  }

  class Probe {
    const n: nat
    const topStack: array2<int>
    const cpuGroupId: array<int>
    const cpuPairId: array<int>
    const cpuTtId: array<int>
    var numasToCpu: seq<int>

    ghost predicate Valid() {
      && topStack.Length0 == n && topStack.Length1 == n
      && cpuGroupId.Length == n && cpuPairId.Length == n && cpuTtId.Length == n
      && cpuGroupId != cpuPairId && cpuGroupId != cpuTtId && cpuPairId != cpuTtId
    }

    ghost function Matrix(): (m: Matrix)
      requires Valid()
      reads topStack
      ensures Square(m) && |m| == n
      ensures forall i, j :: 0 <= i < n && 0 <= j < n ==> m[i][j] == topStack[i, j]
    {
      seq(n, i requires 0 <= i < n reads topStack =>
        seq(n, j requires 0 <= j < n reads topStack => topStack[i, j]))
    }

    /** All rows allocated and zeroed, then the diagonal set. */
    constructor (lastCpuId: nat)
      ensures Valid() && n == lastCpuId
      ensures fresh(topStack) && fresh(cpuGroupId) && fresh(cpuPairId) && fresh(cpuTtId)
      ensures DiagonalOnly(Matrix())
    {
      n := lastCpuId;
      topStack := new int[lastCpuId, lastCpuId]((i, j) => if i == j then 1 else 0);
      cpuGroupId := new int[lastCpuId];
      cpuPairId := new int[lastCpuId];
      cpuTtId := new int[lastCpuId];
      numasToCpu := [];
    }

    method SetLatencyPair(x: nat, y: nat, latencyClass: int)
      requires Valid() && x < n && y < n
      modifies topStack
      ensures Matrix() == SetPair(old(Matrix()), x, y, latencyClass)
    {
      ghost var r := SetPair(Matrix(), x, y, latencyClass);
      topStack[x, y] := latencyClass;
      topStack[y, x] := latencyClass;
      SameMatrix(Matrix(), r);
    }

    /** One row of round `k`, with its mirrored column. */
    method RelaxRow(ghost m: Matrix, k: nat, i: nat)
      requires Valid() && k < n && i < n && ClassMatrix(m) && |m| == n
      requires topStack[i, k] != 0 && RelaxedUpTo(Matrix(), m, k, i, 0)
      modifies topStack
      ensures RelaxedUpTo(Matrix(), m, k, i + 1, 0)
    {
      hide RelaxedUpTo, ClassMatrix;
      for j := 0 to n
        invariant RelaxedUpTo(Matrix(), m, k, i, j) && topStack[i, k] != 0
      {
        ghost var x := Matrix();
        CellRelaxed(x, m, k, i, j);
        if topStack[k, j] == 0 { continue; }
        var via := if topStack[i, k] > topStack[k, j] then topStack[i, k] else topStack[k, j];
        if topStack[i, j] == 0 || topStack[i, j] > via {
          SetLatencyPair(i, j, via);
        }
      }
      RowRelaxed(Matrix(), m, k, i);
    }

    /** One round of the outer loop: reads and mirrored writes of the same matrix do not interfere. */
    method ApplyRound(k: nat)
      requires Valid() && k < n && ClassMatrix(Matrix())
      modifies topStack
      ensures Matrix() == Relax(old(Matrix()), k)
    {
      ghost var m := Matrix();
      hide RelaxedUpTo, ClassMatrix, Relax;
      RoundStarts(m, k);
      for i := 0 to n
        invariant RelaxedUpTo(Matrix(), m, k, i, 0)
      {
        if topStack[i, k] == 0 {
          RowSkipped(Matrix(), m, k, i);
          continue;
        }
        RelaxRow(m, k, i);
      }
      RoundRelaxed(Matrix(), m, k);
    }

    /** The in-place triple loop computes the closure. */
    method ApplyOptimization()
      requires Valid() && ClassMatrix(Matrix())
      modifies topStack
      ensures Matrix() == Closure(old(Matrix()))
    {
      ghost var m0 := Matrix();
      for k := 0 to n
        invariant Matrix() == Rounds(m0, k)
      {
        ghost var m := Matrix();
        assert ClassMatrix(m) by { RoundsInvariant(m0, k); }
        ApplyRound(k);
      }
    }

    method ResetGroups()
      requires Valid()
      modifies cpuGroupId
      ensures forall j :: 0 <= j < n ==> cpuGroupId[j] == -1
    {
      for i := 0 to n
        invariant forall j :: 0 <= j < i ==> cpuGroupId[j] == -1
      {
        cpuGroupId[i] := -1;
      }
    }

    /** The outer loop of the grouping has reached vCPU `i`. */
    ghost predicate GroupedBelow(latency: Latency, i: int)
      requires Valid() && i <= n
      reads this, topStack, cpuGroupId
    {
      && Progress(Matrix(), latency, cpuGroupId[..], numasToCpu, n) && LedBelow(numasToCpu, i)
      && forall j :: 0 <= j < i ==> cpuGroupId[j] != -1
    }

    /** The inner loop: vCPU `i` opens group `group` and is measured against everyone without a group. */
    method MeasureAgainst(latency: Latency, i: nat, group: nat)
      requires Valid() && i < n
      modifies topStack, cpuGroupId
      ensures Probed(Matrix(), cpuGroupId[..]) ==
              MeasureRow(latency, Probed(old(Matrix()), old(cpuGroupId[..])[i := group]), i, group, n)
    {
      ghost var p := Probed(Matrix(), cpuGroupId[..][i := group]);
      cpuGroupId[i] := group;
      for j := 0 to n
        invariant Probed(Matrix(), cpuGroupId[..]) == MeasureRow(latency, p, i, group, j)
      {
        ghost var g := cpuGroupId[..];
        if cpuGroupId[j] != -1 { continue; }
        if topStack[i, j] == 0 {
          var measured := latency(i, j);
          SetLatencyPair(i, j, GetLatencyClass(measured));
        }
        assert topStack[i, j] == Matrix()[i][j];
        if topStack[i, j] < 4 {
          cpuGroupId[j] := group;
        }
        assert cpuGroupId[..] == Join(g, group, j, topStack[i, j]);
      }
    }

    /** vCPU `i` opens the next group and is its leader. */
    method LeadGroup(latency: Latency, i: nat, group: nat)
      requires Valid() && i < n && GroupedBelow(latency, i) && cpuGroupId[i] == -1 && group == |numasToCpu|
      modifies this`numasToCpu, topStack, cpuGroupId
      ensures GroupedBelow(latency, i + 1) && numasToCpu == old(numasToCpu) + [i]
    {
      LeaderProgress(latency, Probed(Matrix(), cpuGroupId[..]), numasToCpu, i);
      LeadersGrow(numasToCpu, i);
      MeasureAgainst(latency, i, group);
      numasToCpu := numasToCpu + [i];
    }

    /**
     Groups the vCPUs by socket, measuring only against each group's leader, then closes the matrix.
     The result is the star matrix of the grouping: every entry is known.
     */
    method FindNumaGroups(latency: Latency) returns (nrNumaGroups: nat)
      requires Valid() && DiagonalOnly(Matrix())
      modifies this`numasToCpu, topStack, cpuGroupId
      ensures nrNumaGroups == |numasToCpu|
      ensures Grouping(latency, cpuGroupId[..], numasToCpu)
      ensures Matrix() == Star(latency, cpuGroupId[..], numasToCpu)
    {
      nrNumaGroups := 0;
      ResetGroups();
      numasToCpu := [];
      for i := 0 to n
        invariant nrNumaGroups == |numasToCpu| && GroupedBelow(latency, i)
      {
        if cpuGroupId[i] != -1 { continue; }
        LeadGroup(latency, i, nrNumaGroups);
        nrNumaGroups := nrNumaGroups + 1;
      }
      GroupsDone(Matrix(), latency, cpuGroupId[..], numasToCpu);
      ApplyOptimization();
    }

    /** The pairs of one socket whose class is still unknown. */
    method UnknownPairs() returns (pairs: seq<(int, int)>)
      requires Valid()
      ensures forall p :: p in pairs <==>
                0 <= p.0 < p.1 < n && Matrix()[p.0][p.1] == 0 && cpuGroupId[p.0] == cpuGroupId[p.1]
    {
      pairs := [];
      for i := 0 to n
        invariant forall p :: p in pairs <==>
                    0 <= p.0 < i && p.0 < p.1 < n && Matrix()[p.0][p.1] == 0 && cpuGroupId[p.0] == cpuGroupId[p.1]
      {
        for j := i + 1 to n
          invariant forall p :: p in pairs <==>
                      && 0 <= p.0 <= i && p.0 < p.1 < n && (p.0 < i || p.1 < j)
                      && Matrix()[p.0][p.1] == 0 && cpuGroupId[p.0] == cpuGroupId[p.1]
        {
          assert topStack[i, j] == Matrix()[i][j];
          if topStack[i, j] == 0 && cpuGroupId[i] == cpuGroupId[j] {
            pairs := pairs + [(i, j)];
          }
        }
      }
    }

    /**
     Probing: after grouping, the pairs still unknown inside a socket would be handed to worker
     threads.  There never are any, so nothing but the leaders' rows is ever measured.
     */
    method PerformProbing(latency: Latency) returns (nrNumaGroups: nat, pairsToTest: seq<(int, int)>)
      requires Valid() && DiagonalOnly(Matrix())
      modifies this`numasToCpu, topStack, cpuGroupId
      ensures nrNumaGroups == |numasToCpu| && Grouping(latency, cpuGroupId[..], numasToCpu)
      ensures Matrix() == Star(latency, cpuGroupId[..], numasToCpu)
      ensures Complete(Matrix())
      ensures pairsToTest == []
    {
      nrNumaGroups := FindNumaGroups(latency);
      ghost var s := Star(latency, cpuGroupId[..], numasToCpu);
      assert Complete(s) by {
        StarIsClosed(latency, cpuGroupId[..], numasToCpu);
        assert forall i, j :: 0 <= i < n && 0 <= j < n ==> s[i][j] == StarEntry(latency, cpuGroupId[..], numasToCpu, i, j);
      }
      RoundsOfClosed(s, n);
      ApplyOptimization();
      assert Matrix() == s;
      pairsToTest := UnknownPairs();
      NonemptyHasMember(pairsToTest);
    }

    method ResetIds()
      requires Valid()
      modifies cpuPairId, cpuTtId
      ensures cpuPairId[..] == cpuTtId[..] == seq(n, _ => -1)
    {
      for i := 0 to n
        invariant forall j :: 0 <= j < i ==> cpuPairId[j] == -1 && cpuTtId[j] == -1
      {
        cpuPairId[i] := -1;
        cpuTtId[i] := -1;
      }
    }

    method TakeId(ids: array<int>, i: nat, nr0: nat) returns (nr: nat)
      requires i < ids.Length
      modifies ids
      ensures nr == if old(ids[i]) == -1 then nr0 + 1 else nr0
      ensures ids[i] == if old(ids[i]) == -1 then nr0 else old(ids[i])
      ensures forall b :: 0 <= b < ids.Length && b != i ==> ids[b] == old(ids[b])
    {
      nr := nr0;
      if ids[i] == -1 {
        ids[i] := nr;
        nr := nr + 1;
      }
    }

    /** Everyone near vCPU `i` takes over its pair id and its core id. */
    method PullRow(i: nat)
      requires Valid() && i < n && cpuPairId[i] >= 0 && cpuTtId[i] >= 0
      modifies cpuPairId, cpuTtId
      ensures forall b :: 0 <= b < n ==> cpuPairId[b] == if topStack[i, b] < 3 then old(cpuPairId[i]) else old(cpuPairId[b])
      ensures forall b :: 0 <= b < n ==> cpuTtId[b] == if topStack[i, b] < 2 then old(cpuTtId[i]) else old(cpuTtId[b])
    {
      ghost var pair, core := cpuPairId[i], cpuTtId[i];
      for j := 0 to n
        invariant cpuPairId[i] == pair && cpuTtId[i] == core
        invariant forall b :: 0 <= b < n ==> cpuPairId[b] == if b < j && topStack[i, b] < 3 then pair else old(cpuPairId[b])
        invariant forall b :: 0 <= b < n ==> cpuTtId[b] == if b < j && topStack[i, b] < 2 then core else old(cpuTtId[b])
      {
        if topStack[i, j] < 3 && cpuPairId[i] != -1 {
          cpuPairId[j] := cpuPairId[i];
        }
        if topStack[i, j] < 2 && cpuTtId[i] != -1 {
          cpuTtId[j] := cpuTtId[i];
        }
      }
    }

    /** vCPU `i` takes the next free ids where it has none, and pulls everyone near it in. */
    method ParseRow(i: nat, nrPairGroups0: nat, nrTtGroups0: nat) returns (nrPairGroups: nat, nrTtGroups: nat)
      requires Valid() && i < n
      requires Ids(cpuPairId[..], nrPairGroups0) == AssignIds(Matrix(), 3, i)
      requires Ids(cpuTtId[..], nrTtGroups0) == AssignIds(Matrix(), 2, i)
      modifies cpuPairId, cpuTtId
      ensures Ids(cpuPairId[..], nrPairGroups) == AssignIds(Matrix(), 3, i + 1)
      ensures Ids(cpuTtId[..], nrTtGroups) == AssignIds(Matrix(), 2, i + 1)
    {
      nrPairGroups := TakeId(cpuPairId, i, nrPairGroups0);
      nrTtGroups := TakeId(cpuTtId, i, nrTtGroups0);
      PullRow(i);
      AssignIdsNext(Matrix(), 3, i, Ids(cpuPairId[..], nrPairGroups));
      AssignIdsNext(Matrix(), 2, i, Ids(cpuTtId[..], nrTtGroups));
    }

    /** Pair ids (class below 3) and core ids (class below 2), both filled by one double loop. */
    method ParseTopology() returns (nrPairGroups: nat, nrTtGroups: nat)
      requires Valid()
      modifies cpuPairId, cpuTtId
      ensures Ids(cpuPairId[..], nrPairGroups) == AssignIds(Matrix(), 3, n)
      ensures Ids(cpuTtId[..], nrTtGroups) == AssignIds(Matrix(), 2, n)
    {
      ghost var m := Matrix();
      ResetIds();
      nrPairGroups, nrTtGroups := 0, 0;
      for i := 0 to n
        invariant Ids(cpuPairId[..], nrPairGroups) == AssignIds(m, 3, i)
        invariant Ids(cpuTtId[..], nrTtGroups) == AssignIds(m, 2, i)
      {
        nrPairGroups, nrTtGroups := ParseRow(i, nrPairGroups, nrTtGroups);
      }
    }

    /** The relation of every pair, from its core and socket ids. */
    method RelationMatrix() returns (relation: seq<seq<Relation>>)
      requires Valid()
      ensures Related(relation, cpuTtId[..], cpuGroupId[..])
    {
      relation := [];
      for i := 0 to n
        invariant |relation| == i && forall a :: 0 <= a < i ==> |relation[a]| == n
        invariant forall a, b :: 0 <= a < i && 0 <= b < n ==>
                    relation[a][b] == if cpuTtId[a] == cpuTtId[b] then Smt
                                      else if cpuGroupId[a] == cpuGroupId[b] then Socket
                                      else Remote
      {
        var row := [];
        for j := 0 to n
          invariant |row| == j
          invariant forall b :: 0 <= b < j ==>
                      row[b] == if cpuTtId[i] == cpuTtId[b] then Smt
                                else if cpuGroupId[i] == cpuGroupId[b] then Socket
                                else Remote
        {
          if cpuTtId[i] == cpuTtId[j] {
            row := row + [Smt];
          } else if cpuGroupId[i] == cpuGroupId[j] {
            row := row + [Socket];
          } else {
            row := row + [Remote];
          }
        }
        relation := relation + [row];
      }
    }
  }

  /** Two vCPUs share a socket group exactly when their closed class is below 4. */
  lemma SameSocketIffNear(latency: Latency, g: seq<int>, leaders: seq<int>, i: int, j: int)
    requires Grouping(latency, g, leaders) && 0 <= i < |g| && 0 <= j < |g|
    ensures g[i] == g[j] <==> Star(latency, g, leaders)[i][j] < 4
  {
    assert Star(latency, g, leaders)[i][j] == StarEntry(latency, g, leaders, i, j);
  }

  /** What a reported topology says of a machine: sockets, pairs and cores nest, and the relation is the closed class. */
  ghost predicate Describes(topo: CpuTopology, pairIds: seq<int>, m: Matrix) {
    && Square(m) && |topo.cpuToSocket| == |topo.cpuToCore| == |pairIds| == |topo.relation| == |m|
    && (forall i :: 0 <= i < |m| ==> |topo.relation[i]| == |m|)
    && forall i, j {:trigger m[i][j]} :: 0 <= i < |m| && 0 <= j < |m| ==>
         && (topo.cpuToSocket[i] == topo.cpuToSocket[j] <==> m[i][j] < 4)
         && (pairIds[i] == pairIds[j] <==> m[i][j] < 3)
         && (topo.cpuToCore[i] == topo.cpuToCore[j] <==> m[i][j] < 2)
         && topo.relation[i][j] == RelationOf(m[i][j])
  }

  lemma ReportDescribes(latency: Latency, topo: CpuTopology, pairIds: seq<int>, leaders: seq<int>)
    requires Grouping(latency, topo.cpuToSocket, leaders)
    requires var m := Star(latency, topo.cpuToSocket, leaders);
             && Complete(m) && pairIds == AssignIds(m, 3, |m|).ids
             && Ids(topo.cpuToCore, topo.nrCores) == AssignIds(m, 2, |m|)
    requires Related(topo.relation, topo.cpuToCore, topo.cpuToSocket)
    ensures Describes(topo, pairIds, Star(latency, topo.cpuToSocket, leaders))
    ensures forall k :: k in topo.cpuToCore <==> 0 <= k < topo.nrCores
  {
    var m := Star(latency, topo.cpuToSocket, leaders);
    AllIdsPartition(m, 3);
    AllIdsPartition(m, 2);
    forall i, j | 0 <= i < |m| && 0 <= j < |m|
      ensures topo.cpuToSocket[i] == topo.cpuToSocket[j] <==> m[i][j] < 4
    {
      SameSocketIffNear(latency, topo.cpuToSocket, leaders, i, j);
    }
  }

  /** vCPU `j` is vCPU `l`, or the latency read for the two is below `limit` or out of range. */
  predicate Within(latency: Latency, l: int, j: int, limit: int) {
    l == j || latency(l, j) < limit || latency(l, j) > 90000
  }

  /**
   The report in terms of the latencies read: a vCPU sits in the socket of the first leader within 8500
   of it; vCPUs of one socket share a pair id when both are within 2000 of their leader, and a core id
   when the readings of both with their leader are out of range.
   */
  ghost predicate ReadsAs(topo: CpuTopology, pairIds: seq<int>, latency: Latency, leaders: seq<int>) {
    var g := topo.cpuToSocket;
    && |topo.cpuToCore| == |pairIds| == |g|
    && (forall j :: 0 <= j < |g| ==>
         && 0 <= g[j] < |leaders| && Within(latency, leaders[g[j]], j, 8500)
         && forall k :: 0 <= k < g[j] ==> !Within(latency, leaders[k], j, 8500))
    && forall i, j :: 0 <= i < |g| && 0 <= j < |g| ==>
         && (pairIds[i] == pairIds[j] <==>
               i == j || (g[i] == g[j] && Within(latency, leaders[g[i]], i, 2000) && Within(latency, leaders[g[i]], j, 2000)))
         && (topo.cpuToCore[i] == topo.cpuToCore[j] <==>
               i == j || (g[i] == g[j] && Within(latency, leaders[g[i]], i, 0) && Within(latency, leaders[g[i]], j, 0)))
  }

  lemma LeaderClassIs(latency: Latency, g: seq<int>, leaders: seq<int>, j: int)
    requires Grouping(latency, g, leaders) && 0 <= j < |g|
    ensures LeaderClass(latency, g, leaders, j) < 2 <==> Within(latency, leaders[g[j]], j, 0)
    ensures LeaderClass(latency, g, leaders, j) < 3 <==> Within(latency, leaders[g[j]], j, 2000)
    ensures Within(latency, leaders[g[j]], j, 8500)
    ensures forall k :: 0 <= k < g[j] ==> !Within(latency, leaders[k], j, 8500)
  {
    var l := leaders[g[j]];
    ClassGrowsWithLatency(latency(l, j), latency(l, j));
    forall k | 0 <= k < g[j] ensures !Within(latency, leaders[k], j, 8500) {
      assert Class(latency, leaders[k], j) == 4;
      ClassGrowsWithLatency(latency(leaders[k], j), latency(leaders[k], j));
    }
  }

  lemma StarReadsAs(latency: Latency, g: seq<int>, leaders: seq<int>, i: int, j: int)
    requires Grouping(latency, g, leaders) && 0 <= i < |g| && 0 <= j < |g|
    ensures Star(latency, g, leaders)[i][j] < 3 <==>
            i == j || (g[i] == g[j] && Within(latency, leaders[g[i]], i, 2000) && Within(latency, leaders[g[i]], j, 2000))
    ensures Star(latency, g, leaders)[i][j] < 2 <==>
            i == j || (g[i] == g[j] && Within(latency, leaders[g[i]], i, 0) && Within(latency, leaders[g[i]], j, 0))
  {
    hide Within, LeaderClass, Grouping;
    assert Star(latency, g, leaders)[i][j] == StarEntry(latency, g, leaders, i, j);
    LeaderClassIs(latency, g, leaders, i);
    LeaderClassIs(latency, g, leaders, j);
  }

  lemma ReportReadsAs(latency: Latency, topo: CpuTopology, pairIds: seq<int>, leaders: seq<int>)
    requires Grouping(latency, topo.cpuToSocket, leaders)
    requires Describes(topo, pairIds, Star(latency, topo.cpuToSocket, leaders))
    ensures ReadsAs(topo, pairIds, latency, leaders)
  {
    var g := topo.cpuToSocket;
    forall j | 0 <= j < |g|
      ensures 0 <= g[j] < |leaders| && Within(latency, leaders[g[j]], j, 8500)
      ensures forall k :: 0 <= k < g[j] ==> !Within(latency, leaders[k], j, 8500)
    {
      LeaderClassIs(latency, g, leaders, j);
    }
    forall i, j | 0 <= i < |g| && 0 <= j < |g|
      ensures pairIds[i] == pairIds[j] <==>
                i == j || (g[i] == g[j] && Within(latency, leaders[g[i]], i, 2000) && Within(latency, leaders[g[i]], j, 2000))
      ensures topo.cpuToCore[i] == topo.cpuToCore[j] <==>
                i == j || (g[i] == g[j] && Within(latency, leaders[g[i]], i, 0) && Within(latency, leaders[g[i]], j, 0))
    {
      hide Within, Grouping;
      StarReadsAs(latency, g, leaders, i, j);
    }
  }

  /** The whole detection, for every machine: the reported ids and relations are those of the star matrix. */
  method DetectVcpuTopology(lastCpuId: nat, latency: Latency) returns (topo: CpuTopology, pairIds: seq<int>)
    ensures exists leaders :: |leaders| == topo.nrSockets && |topo.cpuToSocket| == lastCpuId
              && Grouping(latency, topo.cpuToSocket, leaders)
              && Describes(topo, pairIds, Star(latency, topo.cpuToSocket, leaders))
              && ReadsAs(topo, pairIds, latency, leaders)
    ensures forall k :: k in topo.cpuToCore <==> 0 <= k < topo.nrCores
  {
    var probe := new Probe(lastCpuId);
    var nrNumaGroups, pairsToTest := probe.PerformProbing(latency);
    ghost var m := probe.Matrix();
    var nrPairGroups, nrTtGroups := probe.ParseTopology();
    var relation := probe.RelationMatrix();
    topo := CpuTopology(nrNumaGroups, nrTtGroups, probe.cpuGroupId[..], probe.cpuTtId[..], relation);
    pairIds := probe.cpuPairId[..];
    ReportDescribes(latency, topo, pairIds, probe.numasToCpu);
    ReportReadsAs(latency, topo, pairIds, probe.numasToCpu);
  }

  /** What the detection returns on a socket of two cores with two threads each: the second core is not found. */
  method DetectTwoCores() returns (topo: CpuTopology)
    ensures |topo.relation| == 4 && |topo.relation[2]| == 4 && topo.relation[2][3] == Socket
    ensures TrueClass(TwoCoreLatency, 2, 3) == 1
  {
    var pairIds;
    topo, pairIds := DetectVcpuTopology(4, TwoCoreLatency);
    ghost var leaders :| |leaders| == topo.nrSockets && Grouping(TwoCoreLatency, topo.cpuToSocket, leaders)
      && Describes(topo, pairIds, Star(TwoCoreLatency, topo.cpuToSocket, leaders));
    SecondCoreIsMissed(topo.cpuToSocket, leaders);
  }
}
