/**
 The latency-class matrix of vm_tools/vtop.c as a value, and the theory of its
 (min, max) closure.

 An entry is the latency class measured or inferred for a pair of vCPUs; 0 means
 "unknown".  At a fixed class `v` the known entries of class at most `v` form an
 undirected graph, so closing the matrix closes all those graphs at once.
 */
module LatencyClosure {
  type Matrix = seq<seq<int>>

  predicate Square(m: Matrix) {
    forall i :: 0 <= i < |m| ==> |m[i]| == |m|
  }

  /** Symmetric, no negative class, and every vCPU in class 1 with itself. */
  ghost predicate ClassMatrix(m: Matrix) {
    && Square(m)
    && (forall i, j :: 0 <= i < |m| && 0 <= j < |m| ==> m[i][j] >= 0)
    && (forall i, j {:trigger m[i][j]} :: 0 <= i < |m| && 0 <= j < |m| ==> m[i][j] == m[j][i])
    && (forall i :: 0 <= i < |m| ==> m[i][i] == 1)
  }

  /** The pair is known to be in class `v` or a closer one. */
  predicate Linked(m: Matrix, v: int, i: int, j: int)
    requires Square(m) && 0 <= i < |m| && 0 <= j < |m|
  {
    0 < m[i][j] <= v
  }

  /** A walk all of whose steps are known pairs of class at most `v`. */
  ghost predicate Walk(m: Matrix, v: int, p: seq<int>)
    requires Square(m)
  {
    && |p| > 0
    && (forall k :: 0 <= k < |p| ==> 0 <= p[k] < |m|)
    && (forall k :: 0 <= k < |p| - 1 ==> Linked(m, v, p[k], p[k + 1]))
  }

  ghost predicate WalkBetween(m: Matrix, v: int, p: seq<int>, i: int, j: int)
    requires Square(m)
  {
    Walk(m, v, p) && p[0] == i && p[|p| - 1] == j
  }

  ghost predicate Connected(m: Matrix, v: int, i: int, j: int)
    requires Square(m)
  {
    exists p :: WalkBetween(m, v, p, i, j)
  }

  /** One pair after vCPU `k` has been tried as an intermediate stop. */
  function RelaxedEntry(m: Matrix, k: int, i: int, j: int): int
    requires Square(m) && 0 <= k < |m| && 0 <= i < |m| && 0 <= j < |m|
  {
    if m[i][k] == 0 || m[k][j] == 0 then m[i][j]
    else
      var via := if m[i][k] > m[k][j] then m[i][k] else m[k][j];
      if m[i][j] == 0 || m[i][j] > via then via else m[i][j]
  }

  /** The matrix after the outer loop's round `k`. */
  function Relax(m: Matrix, k: int): (r: Matrix)
    requires Square(m) && 0 <= k < |m|
    ensures Square(r) && |r| == |m|
  {
    seq(|m|, i requires 0 <= i < |m| =>
      seq(|m|, j requires 0 <= j < |m| => RelaxedEntry(m, k, i, j)))
  }

  /** The matrix after the first `k` rounds. */
  function Rounds(m: Matrix, k: nat): (r: Matrix)
    requires Square(m) && k <= |m|
    ensures Square(r) && |r| == |m|
  {
    if k == 0 then m else Relax(Rounds(m, k - 1), k - 1)
  }

  function Closure(m: Matrix): (r: Matrix)
    requires Square(m)
    ensures Square(r) && |r| == |m|
  {
    Rounds(m, |m|)
  }

  /** Going through an intermediate stop below `k` never gives a closer class. */
  ghost predicate ClosedBelow(m: Matrix, k: int)
    requires Square(m)
  {
    forall v, i, j, c | 0 <= i < |m| && 0 <= j < |m| && 0 <= c < k && c < |m| ::
      Linked(m, v, i, c) && Linked(m, v, c, j) ==> Linked(m, v, i, j)
  }

  // ---------- one round ----------

  lemma RelaxLinks(m: Matrix, k: int, v: int, i: int, j: int)
    requires ClassMatrix(m) && 0 <= k < |m| && 0 <= i < |m| && 0 <= j < |m|
    ensures Linked(Relax(m, k), v, i, j) <==>
            Linked(m, v, i, j) || (Linked(m, v, i, k) && Linked(m, v, k, j))
  {
  }

  lemma RelaxKeepsClassMatrix(m: Matrix, k: int)
    requires ClassMatrix(m) && 0 <= k < |m|
    ensures ClassMatrix(Relax(m, k))
  {
  }

  lemma RelaxCloses(m: Matrix, k: int)
    requires ClassMatrix(m) && 0 <= k < |m| && ClosedBelow(m, k)
    ensures ClosedBelow(Relax(m, k), k + 1)
  {
    var r := Relax(m, k);
    forall v, i, j, c |
      0 <= i < |m| && 0 <= j < |m| && 0 <= c < k + 1 &&
      Linked(r, v, i, c) && Linked(r, v, c, j)
      ensures Linked(r, v, i, j)
    {
      RelaxLinks(m, k, v, i, c);
      RelaxLinks(m, k, v, c, j);
      RelaxLinks(m, k, v, i, j);
      assert Linked(m, v, k, c) && Linked(m, v, c, j) && c < k ==> Linked(m, v, k, j);
      assert Linked(m, v, i, c) && Linked(m, v, c, k) && c < k ==> Linked(m, v, i, k);
    }
  }

  // ---------- all rounds ----------

  lemma ClassMatrixIsSquare(m: Matrix)
    requires ClassMatrix(m)
    ensures Square(m)
  {
  }

  lemma NoneClosed(m: Matrix)
    requires Square(m)
    ensures ClosedBelow(m, 0)
  {
  }

  lemma {:induction false} RoundsInvariant(m: Matrix, k: nat)
    requires ClassMatrix(m) && k <= |m|
    ensures ClassMatrix(Rounds(m, k)) && ClosedBelow(Rounds(m, k), k)
  {
    hide ClassMatrix, Square, ClosedBelow, Relax;
    ClassMatrixIsSquare(m);
    if k == 0 {
      NoneClosed(m);
    } else {
      var r := Rounds(m, k - 1);
      RoundsInvariant(m, k - 1);
      RelaxKeepsClassMatrix(r, k - 1);
      RelaxCloses(r, k - 1);
    }
  }

  lemma {:induction false} RoundsOnlyLower(m: Matrix, k: nat, v: int, i: int, j: int)
    requires ClassMatrix(m) && k <= |m| && 0 <= i < |m| && 0 <= j < |m|
    requires Linked(m, v, i, j)
    ensures Linked(Rounds(m, k), v, i, j)
  {
    if k > 0 {
      RoundsOnlyLower(m, k - 1, v, i, j);
      RoundsInvariant(m, k - 1);
      RelaxLinks(Rounds(m, k - 1), k - 1, v, i, j);
    }
  }

  lemma ConnectedTransitive(m: Matrix, v: int, i: int, k: int, j: int)
    requires Square(m) && Connected(m, v, i, k) && Connected(m, v, k, j)
    ensures Connected(m, v, i, j)
  {
    var p :| WalkBetween(m, v, p, i, k);
    var q :| WalkBetween(m, v, q, k, j);
    var r := p + q[1..];
    forall t | 0 <= t < |r| - 1 ensures Linked(m, v, r[t], r[t + 1]) {
      if t >= |p| - 1 {
        assert r[t] == q[t - |p| + 1] && r[t + 1] == q[t - |p| + 2];
      }
    }
    assert WalkBetween(m, v, r, i, j);
  }

  lemma LinkIsPath(m: Matrix, v: int, i: int, j: int)
    requires ClassMatrix(m) && 0 <= i < |m| && 0 <= j < |m| && Linked(m, v, i, j)
    ensures Connected(m, v, i, j)
  {
    assert WalkBetween(m, v, [i, j], i, j);
  }

  lemma {:induction false} RoundsSound(m: Matrix, k: nat, v: int, i: int, j: int)
    requires ClassMatrix(m) && k <= |m| && 0 <= i < |m| && 0 <= j < |m|
    requires Linked(Rounds(m, k), v, i, j)
    ensures Connected(m, v, i, j)
  {
    hide ClassMatrix, Square, Linked, Connected, Relax;
    ClassMatrixIsSquare(m);
    if k == 0 {
      LinkIsPath(m, v, i, j);
    } else {
      var r := Rounds(m, k - 1);
      assert ClassMatrix(r) by { RoundsInvariant(m, k - 1); }
      RelaxLinks(r, k - 1, v, i, j);
      if Linked(r, v, i, j) {
        RoundsSound(m, k - 1, v, i, j);
      } else {
        RoundsSound(m, k - 1, v, i, k - 1);
        RoundsSound(m, k - 1, v, k - 1, j);
        ConnectedTransitive(m, v, i, k - 1, j);
      }
    }
  }

  /** In a closed matrix the two ends of a walk are linked directly. */
  lemma {:induction false} WalkCollapses(m: Matrix, v: int, p: seq<int>)
    requires ClassMatrix(m) && ClosedBelow(m, |m|) && v >= 1 && Walk(m, v, p)
    ensures Linked(m, v, p[0], p[|p| - 1])
  {
    if |p| > 1 {
      var q := p[..|p| - 1];
      assert Walk(m, v, q) by {
        forall k | 0 <= k < |q| - 1 ensures Linked(m, v, q[k], q[k + 1]) {
          assert q[k] == p[k] && q[k + 1] == p[k + 1];
        }
      }
      WalkCollapses(m, v, q);
      assert Linked(m, v, p[|p| - 2], p[|p| - 2 + 1]);
    }
  }

  // ---------- main results ----------

  /**
   The closure is the minimax path value: a pair ends in class at most `v`
   exactly when some path of the initial graph uses only classes up to `v`.
   */
  lemma ClosureIsMinimax(m: Matrix, v: int, i: int, j: int)
    requires ClassMatrix(m) && v >= 1 && 0 <= i < |m| && 0 <= j < |m|
    ensures Linked(Closure(m), v, i, j) <==> Connected(m, v, i, j)
  {
    if Linked(Closure(m), v, i, j) {
      RoundsSound(m, |m|, v, i, j);
    }
    if Connected(m, v, i, j) {
      var p :| WalkBetween(m, v, p, i, j);
      var c := Closure(m);
      forall k | 0 <= k < |p| - 1 ensures Linked(c, v, p[k], p[k + 1]) {
        assert Linked(m, v, p[k], p[k + 1]);
        RoundsOnlyLower(m, |m|, v, p[k], p[k + 1]);
      }
      RoundsInvariant(m, |m|);
      assert Walk(c, v, p);
      WalkCollapses(c, v, p);
    }
  }

  /** An entry of the closure stays unknown exactly when no path joins the pair. */
  lemma ClosureUnknown(m: Matrix, i: int, j: int)
    requires ClassMatrix(m) && 0 <= i < |m| && 0 <= j < |m|
    ensures Closure(m)[i][j] == 0 <==> forall v :: v >= 1 ==> !Connected(m, v, i, j)
  {
    RoundsInvariant(m, |m|);
    var b := Closure(m)[i][j];
    forall v | v >= 1 ensures b == 0 ==> !Connected(m, v, i, j) {
      ClosureIsMinimax(m, v, i, j);
    }
    if b != 0 {
      assert b == Closure(m)[i][j] >= 0;
      ClosureIsMinimax(m, b, i, j);
    }
  }

  /** Symmetry, diagonal and the ultrametric inequality on known entries. */
  lemma ClosureIsUltrametric(m: Matrix)
    requires ClassMatrix(m)
    ensures ClassMatrix(Closure(m))
    ensures var c := Closure(m);
            forall i, j, k :: 0 <= i < |m| && 0 <= j < |m| && 0 <= k < |m| && c[i][k] > 0 && c[k][j] > 0 ==>
              0 < c[i][j] <= (if c[i][k] > c[k][j] then c[i][k] else c[k][j])
  {
    RoundsInvariant(m, |m|);
    var c := Closure(m);
    forall i, j, k | 0 <= i < |m| && 0 <= j < |m| && 0 <= k < |m| && c[i][k] > 0 && c[k][j] > 0
      ensures 0 < c[i][j] <= (if c[i][k] > c[k][j] then c[i][k] else c[k][j])
    {
      var v := if c[i][k] > c[k][j] then c[i][k] else c[k][j];
      assert Linked(c, v, i, k) && Linked(c, v, k, j);
      assert Linked(c, v, i, j);
    }
  }

  lemma RelaxClosedIsIdentity(m: Matrix, k: int)
    requires ClassMatrix(m) && ClosedBelow(m, |m|) && 0 <= k < |m|
    ensures Relax(m, k) == m
  {
    var r := Relax(m, k);
    forall i, j | 0 <= i < |m| && 0 <= j < |m| ensures r[i][j] == m[i][j] {
      if m[i][k] != 0 && m[k][j] != 0 {
        var v := if m[i][k] > m[k][j] then m[i][k] else m[k][j];
        assert Linked(m, v, i, k) && Linked(m, v, k, j);
        assert Linked(m, v, i, j);
      }
    }
    forall i | 0 <= i < |m| ensures r[i] == m[i] {
      assert |r[i]| == |m[i]|;
    }
  }

  lemma {:induction false} RoundsOfClosed(m: Matrix, k: nat)
    requires ClassMatrix(m) && ClosedBelow(m, |m|) && k <= |m|
    ensures Rounds(m, k) == m
  {
    if k > 0 {
      RoundsOfClosed(m, k - 1);
      RelaxClosedIsIdentity(m, k - 1);
    }
  }

  /** A second run changes nothing. */
  lemma ClosureIdempotent(m: Matrix)
    requires ClassMatrix(m)
    ensures Closure(Closure(m)) == Closure(m)
  {
    RoundsInvariant(m, |m|);
    RoundsOfClosed(Closure(m), |m|);
  }

  /**
   The closure is the largest closed matrix below the initial one: a closed matrix that
   links every pair the initial matrix links also links every pair the closure links.
   */
  lemma ClosureIsLargest(m: Matrix, s: Matrix, v: int, i: int, j: int)
    requires ClassMatrix(m) && ClassMatrix(s) && |s| == |m| && ClosedBelow(s, |s|)
    requires v >= 1 && 0 <= i < |m| && 0 <= j < |m|
    requires forall a, b :: 0 <= a < |m| && 0 <= b < |m| && Linked(m, v, a, b) ==> Linked(s, v, a, b)
    requires Linked(Closure(m), v, i, j)
    ensures Linked(s, v, i, j)
  {
    ClosureIsMinimax(m, v, i, j);
    var p :| WalkBetween(m, v, p, i, j);
    assert Walk(s, v, p);
    WalkCollapses(s, v, p);
  }
}
