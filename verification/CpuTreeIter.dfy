/**
 The resumable iterator of scx/lib/topology.bpf.c: a current node and, for every level of its path,
 the child position taken there.
 */
module CpuTreeIter {
  import opened Common
  import opened CpuTree

  /** The subtrees of children `i`, `i + 1`, ... of `n`, each in preorder. */
  function Below(nodes: Arena, n: nat, i: nat): (r: seq<nat>)
    requires Linked(nodes) && n < |nodes| && i <= |nodes[n].children|
    decreases MAX_LEVEL - nodes[n].level, |nodes[n].children| - i
  {
    if i == |nodes[n].children| then []
    else
      var c := nodes[n].children[i];
      assert nodes[c].parent == Some(n);
      [c] + Below(nodes, c, 0) + Below(nodes, n, i + 1)
  }

  /** The position of a node among its parent's children. */
  function Pos(nodes: Arena, n: nat): (i: nat)
    requires Linked(nodes) && 0 < n < |nodes|
    ensures var p := nodes[n].parent.value; i < |nodes[p].children| && nodes[p].children[i] == n
  {
    var p := nodes[n].parent.value;
    var i :| 0 <= i < |nodes[p].children| && nodes[p].children[i] == n;
    i
  }

  lemma PosOfChild(nodes: Arena, n: nat, i: nat)
    requires Linked(nodes) && n < |nodes| && i < |nodes[n].children|
    ensures var c := nodes[n].children[i]; 0 < c < |nodes| && nodes[c].parent == Some(n) && Pos(nodes, c) == i
  {
    var c := nodes[n].children[i];
    var k := Pos(nodes, c);
    assert nodes[n].children[k] == nodes[n].children[i];
  }

  /** What comes after the whole subtree of `n` in the preorder of the tree. */
  function RightOf(nodes: Arena, n: nat): (r: seq<nat>)
    requires Linked(nodes) && n < |nodes|
    decreases n
  {
    if n == 0 then []
    else
      var p := nodes[n].parent.value;
      Below(nodes, p, Pos(nodes, n) + 1) + RightOf(nodes, p)
  }

  /** What comes after `n` in the preorder of the tree. */
  function After(nodes: Arena, n: nat): (r: seq<nat>)
    requires Linked(nodes) && n < |nodes|
  {
    Below(nodes, n, 0) + RightOf(nodes, n)
  }

  function Preorder(nodes: Arena): (r: seq<nat>)
    requires Linked(nodes) && nodes != []
  {
    [0] + After(nodes, 0)
  }

  // ---------- the preorder lists every node once ----------

  lemma {:induction false} BelowTransitive(nodes: Arena, x: nat, y: nat, m: nat)
    requires Linked(nodes) && x < |nodes| && y < |nodes| && m < |nodes|
    requires nodes[y].parent == Some(x) && IsBelow(nodes, y, m)
    ensures IsBelow(nodes, x, m)
    decreases m
  {
    if m != y {
      BelowTransitive(nodes, x, y, nodes[m].parent.value);
    }
  }

  lemma {:induction false} BelowLists(nodes: Arena, n: nat, i: nat, m: nat)
    requires Linked(nodes) && n < |nodes| && i <= |nodes[n].children| && m < |nodes|
    ensures m in Below(nodes, n, i) <==>
            exists k: nat :: i <= k < |nodes[n].children| && nodes[n].children[k] < |nodes| && IsBelow(nodes, nodes[n].children[k], m)
    decreases MAX_LEVEL - nodes[n].level, |nodes[n].children| - i
  {
    if i < |nodes[n].children| {
      var c := nodes[n].children[i];
      assert nodes[c].parent == Some(n);
      BelowLists(nodes, c, 0, m);
      BelowLists(nodes, n, i + 1, m);
      if IsBelow(nodes, c, m) && m != c {
        var k := BelowSomeChild(nodes, c, m);
      }
      if k: nat :| k < |nodes[c].children| && nodes[c].children[k] < |nodes| && IsBelow(nodes, nodes[c].children[k], m) {
        BelowTransitive(nodes, c, nodes[c].children[k], m);
      }
    }
  }

  lemma {:induction false} BelowIsDeeper(nodes: Arena, x: nat, m: nat)
    requires Linked(nodes) && x < |nodes| && m < |nodes| && IsBelow(nodes, x, m)
    ensures x <= m && (m == x || nodes[x].level < nodes[m].level)
    decreases m
  {
    if m != x {
      BelowIsDeeper(nodes, x, nodes[m].parent.value);
    }
  }

  lemma {:induction false} OneAncestorPerLevel(nodes: Arena, a: nat, b: nat, m: nat)
    requires Linked(nodes) && a < |nodes| && b < |nodes| && m < |nodes|
    requires IsBelow(nodes, a, m) && IsBelow(nodes, b, m) && nodes[a].level == nodes[b].level
    ensures a == b
    decreases m
  {
    BelowIsDeeper(nodes, a, m);
    BelowIsDeeper(nodes, b, m);
    if m != a && m != b {
      OneAncestorPerLevel(nodes, a, b, nodes[m].parent.value);
    }
  }

  lemma ConcatDistinct(a: seq<nat>, b: seq<nat>)
    requires Distinct(a) && Distinct(b) && forall x :: x in a ==> x !in b
    ensures Distinct(a + b)
  {
    var s := a + b;
    forall i, j | 0 <= i < j < |s| ensures s[i] != s[j] {
      if i < |a| <= j {
        assert s[i] in a && s[j] in b;
      }
    }
  }

  lemma {:induction false} BelowInArena(nodes: Arena, n: nat, i: nat)
    requires Linked(nodes) && n < |nodes| && i <= |nodes[n].children|
    ensures forall m :: m in Below(nodes, n, i) ==> m < |nodes|
    decreases MAX_LEVEL - nodes[n].level, |nodes[n].children| - i
  {
    if i < |nodes[n].children| {
      var c := nodes[n].children[i];
      assert nodes[c].parent == Some(n);
      BelowInArena(nodes, c, 0);
      BelowInArena(nodes, n, i + 1);
    }
  }

  /** The subtree of child `i` and what follows it have no node in common. */
  lemma SubtreesApart(nodes: Arena, n: nat, i: nat, m: nat)
    requires Linked(nodes) && n < |nodes| && i < |nodes[n].children| && m < |nodes|
    requires m in Below(nodes, n, i + 1)
    ensures m != nodes[n].children[i] && m !in Below(nodes, nodes[n].children[i], 0)
  {
    var c := nodes[n].children[i];
    assert nodes[c].parent == Some(n);
    BelowLists(nodes, n, i + 1, m);
    BelowLists(nodes, c, 0, m);
    var k: nat :| i + 1 <= k < |nodes[n].children| && nodes[n].children[k] < |nodes| && IsBelow(nodes, nodes[n].children[k], m);
    var d := nodes[n].children[k];
    assert nodes[d].parent == Some(n) && c < d;
    BelowIsDeeper(nodes, d, m);
    if j: nat :| j < |nodes[c].children| && nodes[c].children[j] < |nodes| && IsBelow(nodes, nodes[c].children[j], m) {
      BelowTransitive(nodes, c, nodes[c].children[j], m);
      OneAncestorPerLevel(nodes, c, d, m);
    }
  }

  lemma NotBelowItself(nodes: Arena, c: nat)
    requires Linked(nodes) && c < |nodes|
    ensures c !in Below(nodes, c, 0)
  {
    BelowLists(nodes, c, 0, c);
    if j: nat :| j < |nodes[c].children| && nodes[c].children[j] < |nodes| && IsBelow(nodes, nodes[c].children[j], c) {
      BelowIsDeeper(nodes, nodes[c].children[j], c);
    }
  }

  lemma {:induction false} BelowDistinct(nodes: Arena, n: nat, i: nat)
    requires Linked(nodes) && n < |nodes| && i <= |nodes[n].children|
    ensures Distinct(Below(nodes, n, i))
    decreases MAX_LEVEL - nodes[n].level, |nodes[n].children| - i
  {
    if i < |nodes[n].children| {
      var c := nodes[n].children[i];
      assert nodes[c].parent == Some(n);
      var inner, rest := Below(nodes, c, 0), Below(nodes, n, i + 1);
      BelowDistinct(nodes, c, 0);
      BelowDistinct(nodes, n, i + 1);
      NotBelowItself(nodes, c);
      BelowInArena(nodes, n, i + 1);
      ConcatDistinct([c], inner);
      forall m | m in rest ensures m !in [c] + inner {
        SubtreesApart(nodes, n, i, m);
      }
      ConcatDistinct([c] + inner, rest);
    }
  }

  /** The preorder of the tree lists every node exactly once. */
  lemma PreorderIsComplete(nodes: Arena)
    requires Linked(nodes) && nodes != []
    ensures Distinct(Preorder(nodes))
    ensures forall m: nat :: m in Preorder(nodes) <==> m < |nodes|
  {
    BelowDistinct(nodes, 0, 0);
    NotBelowItself(nodes, 0);
    ConcatDistinct([0], Below(nodes, 0, 0));
    assert After(nodes, 0) == Below(nodes, 0, 0);
    BelowInArena(nodes, 0, 0);
    forall m: nat | m < |nodes| ensures m in Preorder(nodes) {
      if m != 0 {
        AllBelowRoot(nodes, m);
        var k := BelowSomeChild(nodes, 0, m);
        BelowLists(nodes, 0, 0, m);
      }
    }
  }

  // ---------- what follows a node ----------

  ghost predicate IsSuffix(s: seq<nat>, t: seq<nat>) {
    |s| <= |t| && t[|t| - |s|..] == s
  }

  lemma SuffixTransitive(a: seq<nat>, b: seq<nat>, c: seq<nat>)
    requires IsSuffix(a, b) && IsSuffix(b, c)
    ensures IsSuffix(a, c)
  {
    assert c[|c| - |a|..] == c[|c| - |b|..][|b| - |a|..];
  }

  lemma ConcatSuffix(a: seq<nat>, b: seq<nat>, c: seq<nat>)
    requires IsSuffix(a, b)
    ensures IsSuffix(a + c, b + c)
  {
    assert (b + c)[|b| - |a|..] == b[|b| - |a|..] + c;
  }

  lemma {:induction false} BelowSuffix(nodes: Arena, n: nat, i: nat, j: nat)
    requires Linked(nodes) && n < |nodes| && i <= j <= |nodes[n].children|
    ensures IsSuffix(Below(nodes, n, j), Below(nodes, n, i))
    decreases j - i
  {
    if i < j {
      var c := nodes[n].children[i];
      assert nodes[c].parent == Some(n);
      BelowSuffix(nodes, n, i + 1, j);
      assert IsSuffix(Below(nodes, n, i + 1), Below(nodes, n, i));
      SuffixTransitive(Below(nodes, n, j), Below(nodes, n, i + 1), Below(nodes, n, i));
    }
  }

  lemma Regroup(a: seq<nat>, b: seq<nat>, c: seq<nat>, d: seq<nat>)
    ensures a + b + c + d == a + (b + (c + d))
  {
  }

  /** A node's first child, or its right neighbour, heads what follows. */
  lemma ChildHeads(nodes: Arena, n: nat, i: nat)
    requires Linked(nodes) && n < |nodes| && i < |nodes[n].children|
    ensures var c := nodes[n].children[i];
            c < |nodes| && Below(nodes, n, i) + RightOf(nodes, n) == [c] + After(nodes, c)
  {
    PosOfChild(nodes, n, i);
    var c := nodes[n].children[i];
    assert Below(nodes, n, i) == [c] + Below(nodes, c, 0) + Below(nodes, n, i + 1);
    assert RightOf(nodes, c) == Below(nodes, n, i + 1) + RightOf(nodes, n);
    Regroup([c], Below(nodes, c, 0), Below(nodes, n, i + 1), RightOf(nodes, n));
  }

  /** What lies to the right of a node begins with its right neighbour, or else is what lies to the right of its parent. */
  lemma RightStep(nodes: Arena, n: nat)
    requires Linked(nodes) && 0 < n < |nodes|
    ensures var p, i := nodes[n].parent.value, Pos(nodes, n) + 1;
            if i < |nodes[p].children| then
              var c := nodes[p].children[i];
              c < |nodes| && RightOf(nodes, n) == [c] + After(nodes, c)
            else RightOf(nodes, n) == RightOf(nodes, p)
  {
    var p, i := nodes[n].parent.value, Pos(nodes, n) + 1;
    if i < |nodes[p].children| { ChildHeads(nodes, p, i); }
  }

  /** What follows a node is the rest of the preorder of the whole tree. */
  lemma {:induction false} AfterIsPreorderSuffix(nodes: Arena, n: nat)
    requires Linked(nodes) && n < |nodes|
    ensures IsSuffix([n] + After(nodes, n), Preorder(nodes))
    decreases n
  {
    if n > 0 {
      var p := nodes[n].parent.value;
      var i := Pos(nodes, n);
      ChildHeads(nodes, p, i);
      BelowSuffix(nodes, p, 0, i);
      ConcatSuffix(Below(nodes, p, i), Below(nodes, p, 0), RightOf(nodes, p));
      assert IsSuffix(After(nodes, p), [p] + After(nodes, p));
      SuffixTransitive([n] + After(nodes, n), After(nodes, p), [p] + After(nodes, p));
      AfterIsPreorderSuffix(nodes, p);
      SuffixTransitive([n] + After(nodes, n), [p] + After(nodes, p), Preorder(nodes));
    }
  }

  // ---------- the iterator ----------

  /** `indices[l]` names the child taken at level `l` on the way from `x` down to `n`. */
  ghost predicate PathDown(nodes: Arena, indices: seq<int>, x: nat, n: nat)
    requires Linked(nodes) && n < |nodes| && |indices| == MAX_LEVEL
    decreases n
  {
    n == x || (n > 0 && indices[nodes[n].level] == Pos(nodes, n) && PathDown(nodes, indices, x, nodes[n].parent.value))
  }

  lemma {:induction false} PathGoesBelow(nodes: Arena, indices: seq<int>, x: nat, n: nat)
    requires Linked(nodes) && n < |nodes| && |indices| == MAX_LEVEL && PathDown(nodes, indices, x, n)
    ensures IsBelow(nodes, x, n)
    decreases n
  {
    if n != x { PathGoesBelow(nodes, indices, x, nodes[n].parent.value); }
  }

  /** Changing an index below a node leaves its path alone. */
  lemma {:induction false} PathUnaffected(nodes: Arena, indices: seq<int>, n: nat, l: nat, v: int)
    requires Linked(nodes) && n < |nodes| && |indices| == MAX_LEVEL && PathDown(nodes, indices, 0, n)
    requires nodes[n].level < l < MAX_LEVEL
    ensures PathDown(nodes, indices[l := v], 0, n)
    decreases n
  {
    if n > 0 { PathUnaffected(nodes, indices, nodes[n].parent.value, l, v); }
  }

  /** Recording the position of `x` extends the path by one level upwards. */
  lemma {:induction false} PathExtends(nodes: Arena, indices: seq<int>, x: nat, n: nat)
    requires Linked(nodes) && 0 < x < |nodes| && n < |nodes| && |indices| == MAX_LEVEL && PathDown(nodes, indices, x, n)
    ensures PathDown(nodes, indices[nodes[x].level := Pos(nodes, x)], nodes[x].parent.value, n)
    decreases n
  {
    if n != x {
      PathGoesBelow(nodes, indices, x, n);
      BelowIsDeeper(nodes, x, n);
      PathExtends(nodes, indices, x, nodes[n].parent.value);
    }
  }

  lemma NothingRightOfRoot(nodes: Arena)
    requires Linked(nodes)
    ensures nodes != [] ==> RightOf(nodes, 0) == []
  {
  }

  lemma LevelZeroIsRoot(nodes: Arena, n: nat)
    requires Linked(nodes) && n < |nodes|
    ensures nodes[n].level == 0 <==> n == 0
  {
    if n > 0 {
      assert nodes[n].parent.Some?;
    }
  }

  /** No path looks at the root's own index. */
  lemma {:induction false} RootIndexUnused(nodes: Arena, indices: seq<int>, n: nat, v: int)
    requires Linked(nodes) && n < |nodes| && |indices| == MAX_LEVEL && PathDown(nodes, indices, 0, n)
    ensures PathDown(nodes, indices[0 := v], 0, n)
    decreases n
  {
    if n > 0 { RootIndexUnused(nodes, indices, nodes[n].parent.value, v); }
  }

  /** Taking child `i` of the node a path leads to extends the path. */
  lemma PathToChild(nodes: Arena, path: seq<int>, n: nat, i: nat)
    requires Linked(nodes) && n < |nodes| && |path| == MAX_LEVEL && PathDown(nodes, path, 0, n)
    requires i < |nodes[n].children|
    ensures var c := nodes[n].children[i];
            && n < c < |nodes| && nodes[c].level == nodes[n].level + 1 < MAX_LEVEL
            && PathDown(nodes, path[nodes[c].level := i], 0, c)
  {
    PosOfChild(nodes, n, i);
    var c := nodes[n].children[i];
    PathUnaffected(nodes, path, n, nodes[c].level, i);
  }

  class Iter {
    var topo: nat
    const indices: array<int>

    ghost predicate Valid(nodes: Arena)
      requires Linked(nodes)
      reads this, indices
    {
      && topo < |nodes| && indices.Length == MAX_LEVEL && indices[0] == 0
      && PathDown(nodes, indices[..], 0, topo)
      && (forall l :: nodes[topo].level < l < MAX_LEVEL ==> indices[l] == -1)
    }

    constructor ()
      ensures indices.Length == MAX_LEVEL && fresh(indices)
    {
      topo := 0;
      indices := new int[MAX_LEVEL];
    }

    /** The scan for a node among its parent's children. */
    method ChildIndex(nodes: Arena, node: nat) returns (ind: nat)
      requires Linked(nodes) && 0 < node < |nodes|
      ensures ind == Pos(nodes, node)
    {
      var parent := nodes[node].parent.value;
      ghost var pos := Pos(nodes, node);
      ind := 0;
      while ind < |nodes[parent].children|
        invariant ind <= pos
      {
        if nodes[parent].children[ind] == node {
          PosOfChild(nodes, parent, ind);
          return;
        }
        ind := ind + 1;
      }
    }

    /** Positions the iterator at any node, recording the path that leads to it. */
    method StartFrom(nodes: Arena, start: nat)
      requires Linked(nodes) && start < |nodes| && indices.Length == MAX_LEVEL
      modifies this, indices
      ensures Valid(nodes) && topo < |nodes| && topo == start
    {
      topo := start;
      for ind := 0 to MAX_LEVEL
        invariant topo == start
        invariant forall l :: 0 <= l < ind ==> indices[l] == -1
      {
        indices[ind] := -1;
      }
      var node: nat := start;
      while nodes[node].level > 0
        invariant node < |nodes| && topo == start
        invariant PathDown(nodes, indices[..], node, start)
        invariant forall l :: nodes[start].level < l < MAX_LEVEL ==> indices[l] == -1
        decreases node
      {
        ghost var path := indices[..];
        var ind := ChildIndex(nodes, node);
        PathExtends(nodes, path, node, start);
        PathGoesBelow(nodes, path, node, start);
        BelowIsDeeper(nodes, node, start);
        indices[nodes[node].level] := ind;
        assert indices[..] == path[nodes[node].level := ind];
        node := nodes[node].parent.value;
      }
      LevelZeroIsRoot(nodes, node);
      ghost var path := indices[..];
      indices[0] := 0;
      assert indices[..] == path[0 := 0];
      RootIndexUnused(nodes, path, start, 0);
    }

    /** To the right neighbour if there is one, else to the parent. */
    method StepRight(nodes: Arena) returns (moved: bool)
      requires Linked(nodes) && Valid(nodes) && topo > 0
      modifies this, indices
      ensures Valid(nodes)
      ensures var p, i := nodes[old(topo)].parent.value, Pos(nodes, old(topo)) + 1;
              && (moved <==> i < |nodes[p].children|)
              && topo == if moved then nodes[p].children[i] else p
    {
      var lvl := nodes[topo].level;
      ghost var path, i := indices[..], Pos(nodes, topo) + 1;
      indices[lvl] := indices[lvl] + 1;
      var parent := nodes[topo].parent.value;
      if indices[lvl] == |nodes[parent].children| {
        PathUnaffected(nodes, path, parent, lvl, -1);
        indices[lvl] := -1;
        topo := parent;
        assert indices[..] == path[lvl := -1];
        return false;
      }
      PathToChild(nodes, path, parent, i);
      topo := nodes[parent].children[indices[lvl]];
      assert indices[..] == path[lvl := i];
      return true;
    }

    /** Goes up until some ancestor has a right neighbour, and to that neighbour. */
    method Climb(nodes: Arena) returns (more: bool)
      requires Linked(nodes) && Valid(nodes)
      modifies this, indices
      ensures Valid(nodes)
      ensures more <==> RightOf(nodes, old(topo)) != []
      ensures more ==> RightOf(nodes, old(topo)) == [topo] + After(nodes, topo)
      ensures !more ==> topo == 0
    {
      hide RightOf, After, Below;
      ghost var rest := RightOf(nodes, topo);
      while nodes[topo].level > 0
        invariant Valid(nodes)
        invariant RightOf(nodes, topo) == rest
        decreases topo
      {
        LevelZeroIsRoot(nodes, topo);
        RightStep(nodes, topo);
        more := StepRight(nodes);
        if more { return; }
      }
      LevelZeroIsRoot(nodes, topo);
      NothingRightOfRoot(nodes);
      more := false;
    }

    /**
     One step: to the node that follows in the preorder, or, at its end, to the root with answer false.
     The path indices always name the current node.
     */
    method Next(nodes: Arena) returns (more: bool)
      requires Linked(nodes) && Valid(nodes)
      modifies this, indices
      ensures Valid(nodes) && topo < |nodes|
      ensures more <==> After(nodes, old(topo)) != []
      ensures more ==> After(nodes, old(topo)) == [topo] + After(nodes, topo)
      ensures !more ==> topo == 0
    {
      if |nodes[topo].children| > 0 {
        ghost var path, n := indices[..], topo;
        ChildHeads(nodes, n, 0);
        PathToChild(nodes, path, n, 0);
        topo := nodes[topo].children[0];
        indices[nodes[topo].level] := 0;
        assert indices[..] == path[nodes[topo].level := 0];
        return true;
      }
      assert After(nodes, topo) == RightOf(nodes, topo);
      more := Climb(nodes);
    }
  }

  /** Calling `Next` until it fails, from any node, visits exactly what follows that node, in preorder. */
  method EnumerateFrom(nodes: Arena, start: nat) returns (visited: seq<nat>)
    requires Linked(nodes) && start < |nodes|
    ensures visited == After(nodes, start)
    ensures IsSuffix([start] + visited, Preorder(nodes))
  {
    hide After, RightOf, Below, Preorder, Iter.Valid;
    var iter := new Iter();
    iter.StartFrom(nodes, start);
    visited := [];
    ghost var left := After(nodes, start);
    var more := iter.Next(nodes);
    while more
      invariant iter.Valid(nodes) && iter.topo < |nodes| && fresh(iter) && fresh(iter.indices)
      invariant visited + left == After(nodes, start)
      invariant if more then left == [iter.topo] + After(nodes, iter.topo) else left == []
      decreases |left|
    {
      visited := visited + [iter.topo];
      left := left[1..];
      more := iter.Next(nodes);
    }
    AfterIsPreorderSuffix(nodes, start);
  }
}
