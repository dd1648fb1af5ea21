/**
 The CPU topology tree of scx/lib/topology.bpf.c.  Nodes live in an arena and point at each other; the
 arena is a sequence that only grows, and a pointer is an index into it.
 */
module CpuTree {
  import opened Common
  import opened Bitmap

  const MAX_LEVEL := 5

  const MAX_CHILDREN := 16

  datatype Node = Node(parent: Option<nat>, children: seq<nat>, mask: Mask, level: nat, id: nat)

  type Arena = seq<Node>

  datatype Status = Ok | Invalid

  function CpusAt(nodes: Arena, n: nat): set<nat>
    requires n < |nodes|
  {
    Cpus(nodes[n].mask)
  }

  /** Parent and child pointers agree; a node is younger than its parent and one level below it. */
  ghost predicate Linked(nodes: Arena) {
    && (forall n {:trigger nodes[n].level} :: 0 <= n < |nodes| ==> nodes[n].level < MAX_LEVEL)
    && (forall n {:trigger nodes[n].parent} :: 0 <= n < |nodes| ==> (nodes[n].parent.None? <==> n == 0))
    && (nodes != [] ==> nodes[0].level == 0)
    && (forall n {:trigger nodes[n].parent} :: 0 < n < |nodes| ==>
         var p := nodes[n].parent.value; p < n && nodes[n].level == nodes[p].level + 1 && n in nodes[p].children)
    && (forall n, i {:trigger nodes[n].children[i]} :: 0 <= n < |nodes| && 0 <= i < |nodes[n].children| ==>
         var c := nodes[n].children[i]; n < c < |nodes| && nodes[c].parent == Some(n))
    && (forall n, i, j {:trigger nodes[n].children[i], nodes[n].children[j]} ::
         0 <= n < |nodes| && 0 <= i < j < |nodes[n].children| ==> nodes[n].children[i] < nodes[n].children[j])
  }

  /** Every child's mask is part of its parent's, and siblings share no CPU. */
  ghost predicate Laminar(nodes: Arena, words: nat)
    requires Linked(nodes)
  {
    && (forall n :: 0 <= n < |nodes| ==> |nodes[n].mask| == words)
    && (forall n {:trigger nodes[n].parent} :: 0 < n < |nodes| ==>
         CpusAt(nodes, n) <= CpusAt(nodes, nodes[n].parent.value))
    && (forall n, i, j {:trigger nodes[n].children[i], nodes[n].children[j]} ::
         0 <= n < |nodes| && 0 <= i < j < |nodes[n].children| ==>
           CpusAt(nodes, nodes[n].children[i]) !! CpusAt(nodes, nodes[n].children[j]))
  }

  ghost predicate Valid(nodes: Arena, words: nat) {
    Linked(nodes) && Laminar(nodes, words)
  }

  /** `m` is `x` or one of its descendants. */
  ghost predicate IsBelow(nodes: Arena, x: nat, m: nat)
    requires Linked(nodes) && m < |nodes|
    decreases m
  {
    m == x || (m > 0 && IsBelow(nodes, x, nodes[m].parent.value))
  }

  predicate IsLeaf(nodes: Arena, n: nat)
    requires n < |nodes|
  {
    nodes[n].children == []
  }

  // ---------- adding a node ----------

  function AddChild(nodes: Arena, p: nat, mask: Mask, id: nat): (r: Arena)
    requires p < |nodes|
  {
    nodes[p := nodes[p].(children := nodes[p].children + [|nodes|])]
    + [Node(Some(p), [], mask, nodes[p].level + 1, id)]
  }

  /** What stays and what is new after adding a child. */
  lemma AddChildFields(nodes: Arena, p: nat, mask: Mask, id: nat)
    requires p < |nodes|
    ensures var r, x := AddChild(nodes, p, mask, id), |nodes|;
            && |r| == x + 1
            && r[x] == Node(Some(p), [], mask, nodes[p].level + 1, id)
            && r[p] == nodes[p].(children := nodes[p].children + [x])
            && forall n :: 0 <= n < x && n != p ==> r[n] == nodes[n]
  {
  }

  lemma AddChildUp(nodes: Arena, p: nat, mask: Mask, id: nat, n: nat)
    requires Linked(nodes) && p < |nodes| && 0 < n <= |nodes|
    ensures var r := AddChild(nodes, p, mask, id);
            && |r| == |nodes| + 1 && r[n].parent.Some?
            && var q := r[n].parent.value; q < n && r[n].level == r[q].level + 1 && n in r[q].children
  {
    var r, x := AddChild(nodes, p, mask, id), |nodes|;
    AddChildFields(nodes, p, mask, id);
    if n < x {
      assert r[n].parent == nodes[n].parent;
    } else {
      assert r[p].children[|nodes[p].children|] == x;
    }
  }

  lemma AddChildDown(nodes: Arena, p: nat, mask: Mask, id: nat, n: nat, i: nat)
    requires Linked(nodes) && p < |nodes| && n <= |nodes| && i < |AddChild(nodes, p, mask, id)[n].children|
    ensures var r := AddChild(nodes, p, mask, id);
            var c := r[n].children[i];
            && n < c < |r| && r[c].parent == Some(n)
            && forall j :: i < j < |r[n].children| ==> r[n].children[i] < r[n].children[j]
  {
    var r, x := AddChild(nodes, p, mask, id), |nodes|;
    AddChildFields(nodes, p, mask, id);
    if n != p || i < |nodes[p].children| {
      assert r[n].children[i] == nodes[n].children[i];
      forall j | i < j < |r[n].children| ensures r[n].children[i] < r[n].children[j] {
        assert j < |nodes[n].children| ==> r[n].children[j] == nodes[n].children[j];
      }
    }
  }

  lemma AddChildLinked(nodes: Arena, p: nat, mask: Mask, id: nat)
    requires Linked(nodes) && p < |nodes| && nodes[p].level + 1 < MAX_LEVEL
    ensures Linked(AddChild(nodes, p, mask, id))
  {
    var r := AddChild(nodes, p, mask, id);
    AddChildFields(nodes, p, mask, id);
    forall n {:trigger r[n].parent} | 0 < n < |r|
      ensures r[n].parent.Some? && var q := r[n].parent.value; q < n && r[n].level == r[q].level + 1 && n in r[q].children
    {
      AddChildUp(nodes, p, mask, id, n);
    }
    forall n, i {:trigger r[n].children[i]} | 0 <= n < |r| && 0 <= i < |r[n].children|
      ensures var c := r[n].children[i]; n < c < |r| && r[c].parent == Some(n)
    {
      AddChildDown(nodes, p, mask, id, n, i);
    }
    forall n, i, j {:trigger r[n].children[i], r[n].children[j]} | 0 <= n < |r| && 0 <= i < j < |r[n].children|
      ensures r[n].children[i] < r[n].children[j]
    {
      AddChildDown(nodes, p, mask, id, n, i);
    }
  }

  lemma AddChildApart(nodes: Arena, words: nat, p: nat, mask: Mask, id: nat, n: nat, i: nat, j: nat)
    requires Valid(nodes, words) && p < |nodes| && |mask| == words
    requires Linked(AddChild(nodes, p, mask, id))
    requires forall i :: 0 <= i < |nodes[p].children| ==> CpusAt(nodes, nodes[p].children[i]) !! Cpus(mask)
    requires n <= |nodes| && i < j < |AddChild(nodes, p, mask, id)[n].children|
    ensures var r := AddChild(nodes, p, mask, id); CpusAt(r, r[n].children[i]) !! CpusAt(r, r[n].children[j])
  {
    var r, x := AddChild(nodes, p, mask, id), |nodes|;
    AddChildFields(nodes, p, mask, id);
    assert r[n].children[i] == nodes[n].children[i];
    if n != p || j < |nodes[p].children| {
      assert r[n].children[j] == nodes[n].children[j];
    }
  }

  lemma AddChildLaminar(nodes: Arena, words: nat, p: nat, mask: Mask, id: nat)
    requires Valid(nodes, words) && p < |nodes| && |mask| == words
    requires Linked(AddChild(nodes, p, mask, id))
    requires Cpus(mask) <= CpusAt(nodes, p)
    requires forall i :: 0 <= i < |nodes[p].children| ==> CpusAt(nodes, nodes[p].children[i]) !! Cpus(mask)
    ensures Laminar(AddChild(nodes, p, mask, id), words)
  {
    var r, x := AddChild(nodes, p, mask, id), |nodes|;
    AddChildFields(nodes, p, mask, id);
    assert forall n :: 0 <= n < x ==> r[n].mask == nodes[n].mask;
    forall n | 0 < n < |r| ensures CpusAt(r, n) <= CpusAt(r, r[n].parent.value) {
      if n < x {
        assert r[n].parent == nodes[n].parent;
      }
    }
    forall n, i, j | 0 <= n < |r| && 0 <= i < j < |r[n].children|
      ensures CpusAt(r, r[n].children[i]) !! CpusAt(r, r[n].children[j])
    {
      AddChildApart(nodes, words, p, mask, id, n, i, j);
    }
  }

  /** Some CPU of the mask is in node `n`, but not all are. */
  ghost predicate Crosses(nodes: Arena, n: nat, cpus: set<nat>)
    requires n < |nodes|
  {
    !(CpusAt(nodes, n) !! cpus) && !(cpus <= CpusAt(nodes, n))
  }

  lemma {:induction false} BelowIsSubset(nodes: Arena, words: nat, x: nat, m: nat)
    requires Valid(nodes, words) && x < |nodes| && m < |nodes| && IsBelow(nodes, x, m)
    ensures CpusAt(nodes, m) <= CpusAt(nodes, x)
    decreases m
  {
    if m != x {
      BelowIsSubset(nodes, words, x, nodes[m].parent.value);
    }
  }

  lemma {:induction false} AllBelowRoot(nodes: Arena, m: nat)
    requires Linked(nodes) && m < |nodes|
    ensures IsBelow(nodes, 0, m)
    decreases m
  {
    if m > 0 { AllBelowRoot(nodes, nodes[m].parent.value); }
  }

  /** A proper descendant is below one of the children. */
  lemma {:induction false} BelowSomeChild(nodes: Arena, x: nat, m: nat) returns (i: nat)
    requires Linked(nodes) && x < |nodes| && m < |nodes| && m != x && IsBelow(nodes, x, m)
    ensures i < |nodes[x].children| && nodes[x].children[i] < |nodes| && IsBelow(nodes, nodes[x].children[i], m)
    decreases m
  {
    var p := nodes[m].parent.value;
    if p == x {
      i :| 0 <= i < |nodes[x].children| && nodes[x].children[i] == m;
    } else {
      i := BelowSomeChild(nodes, x, p);
    }
  }

  /** Where a mask belongs: inside the node and outside all its children. */
  ghost predicate Host(nodes: Arena, p: nat, cpus: set<nat>)
    requires Linked(nodes) && p < |nodes|
  {
    && cpus <= CpusAt(nodes, p)
    && forall i :: 0 <= i < |nodes[p].children| ==> CpusAt(nodes, nodes[p].children[i]) !! cpus
  }

  /** Nothing outside the subtree of `x` is crossed by the mask. */
  ghost predicate ClearOutside(nodes: Arena, x: nat, cpus: set<nat>)
    requires Linked(nodes)
  {
    forall n | 0 <= n < |nodes| && !IsBelow(nodes, x, n) :: !Crosses(nodes, n, cpus)
  }

  lemma ClearAtRoot(nodes: Arena, cpus: set<nat>)
    requires Linked(nodes)
    ensures ClearOutside(nodes, 0, cpus)
  {
    forall n | 0 <= n < |nodes| ensures IsBelow(nodes, 0, n) {
      AllBelowRoot(nodes, n);
    }
  }

  /** Descending into the child that holds the whole mask leaves only untouched nodes behind. */
  lemma DescendKeepsClear(nodes: Arena, words: nat, x: nat, cpus: set<nat>, j: nat)
    requires Valid(nodes, words) && x < |nodes| && ClearOutside(nodes, x, cpus) && cpus <= CpusAt(nodes, x)
    requires j < |nodes[x].children| && cpus <= CpusAt(nodes, nodes[x].children[j])
    ensures ClearOutside(nodes, nodes[x].children[j], cpus)
  {
    var d := nodes[x].children[j];
    forall n | 0 <= n < |nodes| && !IsBelow(nodes, d, n) ensures !Crosses(nodes, n, cpus) {
      if IsBelow(nodes, x, n) && n != x {
        var i := BelowSomeChild(nodes, x, n);
        var c := nodes[x].children[i];
        BelowIsSubset(nodes, words, c, n);
        assert CpusAt(nodes, c) !! CpusAt(nodes, d) by {
          if i < j {
            assert CpusAt(nodes, nodes[x].children[i]) !! CpusAt(nodes, nodes[x].children[j]);
          } else {
            assert CpusAt(nodes, nodes[x].children[j]) !! CpusAt(nodes, nodes[x].children[i]);
          }
        }
      }
    }
  }

  lemma HostIsNotCrossed(nodes: Arena, words: nat, p: nat, cpus: set<nat>, n: nat)
    requires Valid(nodes, words) && p < |nodes| && n < |nodes|
    requires ClearOutside(nodes, p, cpus) && Host(nodes, p, cpus)
    ensures !Crosses(nodes, n, cpus)
  {
    if IsBelow(nodes, p, n) && n != p {
      var i := BelowSomeChild(nodes, p, n);
      BelowIsSubset(nodes, words, nodes[p].children[i], n);
    }
  }

  /** `r` is the one leaf below `start` that holds the CPU; no leaf does if it is empty. */
  ghost predicate OnlyLeafHolding(nodes: Arena, start: nat, cpu: nat, r: Option<nat>)
    requires Linked(nodes)
  {
    && (forall m: nat | m < |nodes| && IsBelow(nodes, start, m) && IsLeaf(nodes, m) ::
          cpu in CpusAt(nodes, m) <==> r == Some(m))
    && (r.Some? ==> r.value < |nodes| && IsBelow(nodes, start, r.value) && IsLeaf(nodes, r.value))
  }

  lemma NoLeafHolds(nodes: Arena, words: nat, x: nat, cpu: nat)
    requires Valid(nodes, words) && x < |nodes| && cpu !in CpusAt(nodes, x)
    ensures OnlyLeafHolding(nodes, x, cpu, None)
  {
    forall m: nat | m < |nodes| && IsBelow(nodes, x, m) ensures cpu !in CpusAt(nodes, m) {
      BelowIsSubset(nodes, words, x, m);
    }
  }

  /** All leaves below `start` that hold the CPU are below `x`. */
  ghost predicate OnlyBelow(nodes: Arena, start: nat, x: nat, cpu: nat)
    requires Linked(nodes)
  {
    forall m: nat | m < |nodes| && IsBelow(nodes, start, m) && IsLeaf(nodes, m) && cpu in CpusAt(nodes, m) ::
      IsBelow(nodes, x, m)
  }

  lemma LeafFound(nodes: Arena, words: nat, start: nat, x: nat, cpu: nat)
    requires Valid(nodes, words) && x < |nodes| && IsLeaf(nodes, x) && IsBelow(nodes, start, x)
    requires OnlyBelow(nodes, start, x, cpu) && cpu in CpusAt(nodes, x)
    ensures OnlyLeafHolding(nodes, start, cpu, Some(x))
  {
    forall m: nat | m < |nodes| && IsBelow(nodes, start, m) && IsLeaf(nodes, m)
      ensures cpu in CpusAt(nodes, m) <==> x == m
    {
      if IsBelow(nodes, x, m) && m != x {
        var i := BelowSomeChild(nodes, x, m);
      }
    }
  }

  lemma NoLeafBelowChildren(nodes: Arena, words: nat, start: nat, x: nat, cpu: nat)
    requires Valid(nodes, words) && x < |nodes| && !IsLeaf(nodes, x) && OnlyBelow(nodes, start, x, cpu)
    requires forall k :: 0 <= k < |nodes[x].children| ==> cpu !in CpusAt(nodes, nodes[x].children[k])
    ensures OnlyLeafHolding(nodes, start, cpu, None)
  {
    forall m: nat | m < |nodes| && IsBelow(nodes, start, m) && IsLeaf(nodes, m) ensures cpu !in CpusAt(nodes, m) {
      if IsBelow(nodes, x, m) {
        var i := BelowSomeChild(nodes, x, m);
        BelowIsSubset(nodes, words, nodes[x].children[i], m);
      }
    }
  }

  lemma FollowChild(nodes: Arena, words: nat, start: nat, x: nat, cpu: nat, i: nat)
    requires Valid(nodes, words) && x < |nodes| && start < |nodes| && OnlyBelow(nodes, start, x, cpu) && IsBelow(nodes, start, x)
    requires i < |nodes[x].children| && cpu in CpusAt(nodes, nodes[x].children[i])
    ensures var c := nodes[x].children[i];
            c < |nodes| && OnlyBelow(nodes, start, c, cpu) && IsBelow(nodes, start, c) && nodes[c].level == nodes[x].level + 1
  {
    var c := nodes[x].children[i];
    forall m: nat | m < |nodes| && IsBelow(nodes, start, m) && IsLeaf(nodes, m) && cpu in CpusAt(nodes, m)
      ensures IsBelow(nodes, c, m)
    {
      var k := BelowSomeChild(nodes, x, m);
      BelowIsSubset(nodes, words, nodes[x].children[k], m);
    }
  }

  class Topology {
    const words: nat
    const nrCpuIds: nat
    var nodes: Arena

    constructor (words: nat, nrCpuIds: nat)
      ensures Valid(nodes, this.words) && nodes == [] && this.words == words && this.nrCpuIds == nrCpuIds
    {
      this.words := words;
      this.nrCpuIds := nrCpuIds;
      nodes := [];
    }

    /** Links a new node below `p`, unless it would be too deep, its id too large or its parent full. */
    method TopoAdd(p: nat, mask: Mask, id: nat)
      requires Valid(nodes, words) && p < |nodes| && |mask| == words && Host(nodes, p, Cpus(mask))
      modifies this
      ensures Valid(nodes, words)
      ensures nodes == if old(nodes)[p].level + 1 < 5 && id < nrCpuIds && |old(nodes)[p].children| < 16
                       then AddChild(old(nodes), p, mask, id) else old(nodes)
    {
      if nodes[p].level + 1 >= MAX_LEVEL { return; }
      if id >= nrCpuIds { return; }
      if |nodes[p].children| >= MAX_CHILDREN { return; }
      AddChildLinked(nodes, p, mask, id);
      AddChildLaminar(nodes, words, p, mask, id);
      nodes := AddChild(nodes, p, mask, id);
    }

    /** The scan over a node's children: the first that holds the whole mask, or the first the mask crosses. */
    method ScanChildren(p: nat, mask: Mask) returns (j: nat, crossed: bool)
      requires Valid(nodes, words) && p < |nodes| && |mask| == words
      ensures j <= |nodes[p].children|
      ensures forall i :: 0 <= i < j ==> CpusAt(nodes, nodes[p].children[i]) !! Cpus(mask)
      ensures crossed ==> j < |nodes[p].children| && Crosses(nodes, nodes[p].children[j], Cpus(mask))
      ensures !crossed && j < |nodes[p].children| ==> Cpus(mask) <= CpusAt(nodes, nodes[p].children[j])
    {
      j, crossed := 0, false;
      while j < |nodes[p].children|
        invariant j <= |nodes[p].children|
        invariant forall i :: 0 <= i < j ==> CpusAt(nodes, nodes[p].children[i]) !! Cpus(mask)
      {
        var child := nodes[p].children[j];
        var inside := Subset(nodes[child].mask, mask);
        if inside { return; }
        var touches := Intersects(nodes[child].mask, mask);
        if touches {
          crossed := true;
          return;
        }
        j := j + 1;
      }
    }

    /**
     Adds a mask to the tree.  It is refused exactly when it is not inside the root's mask or crosses
     some node; otherwise it is linked below a node that holds it and none of whose children touch it.
     */
    method TopoInit(mask: Mask, id: nat) returns (status: Status)
      requires Valid(nodes, words) && |mask| == words
      modifies this
      ensures Valid(nodes, words)
      ensures old(nodes) == [] ==>
                status == (if id < nrCpuIds then Ok else Invalid)
                && nodes == if id < nrCpuIds then [Node(None, [], mask, 0, id)] else []
      ensures old(nodes) != [] ==>
                (status.Invalid? <==>
                  !(Cpus(mask) <= CpusAt(old(nodes), 0))
                  || exists n: nat :: n < |old(nodes)| && Crosses(old(nodes), n, Cpus(mask)))
      ensures status.Invalid? ==> nodes == old(nodes)
      ensures old(nodes) != [] && status.Ok? ==>
                exists p: nat :: p < |old(nodes)| && Host(old(nodes), p, Cpus(mask)) &&
                  nodes == if old(nodes)[p].level + 1 < 5 && id < nrCpuIds && |old(nodes)[p].children| < 16
                           then AddChild(old(nodes), p, mask, id) else old(nodes)
    {
      hide ClearOutside, IsBelow, Cpus, AddChild;
      if nodes == [] {
        if id >= nrCpuIds { return Invalid; }
        nodes := [Node(None, [], mask, 0, id)];
        return Ok;
      }
      ghost var cpus, old_ := Cpus(mask), nodes;
      ClearAtRoot(nodes, cpus);
      var topo: nat, i: nat := 0, 0;
      while i < MAX_LEVEL
        invariant i < MAX_LEVEL && nodes == old_ && topo < |nodes| && nodes[topo].level == i
        invariant topo == 0 || cpus <= CpusAt(nodes, topo)
        invariant topo != 0 ==> cpus <= CpusAt(nodes, 0)
        invariant ClearOutside(nodes, topo, cpus)
        decreases MAX_LEVEL - i
      {
        var inside := Subset(nodes[topo].mask, mask);
        if !inside { return Invalid; }
        var j, crossed := ScanChildren(topo, mask);
        if crossed { return Invalid; }
        if j == |nodes[topo].children| {
          forall n | 0 <= n < |nodes| ensures !Crosses(nodes, n, cpus) {
            HostIsNotCrossed(nodes, words, topo, cpus, n);
          }
          TopoAdd(topo, mask, id);
          return Ok;
        }
        DescendKeepsClear(nodes, words, topo, cpus, j);
        topo := nodes[topo].children[j];
        i := i + 1;
      }
      return Invalid;
    }

    method ChildHolding(topo: nat, cpu: nat) returns (i: nat)
      requires Valid(nodes, words) && topo < |nodes| && cpu < 64 * words
      ensures i <= |nodes[topo].children|
      ensures i < |nodes[topo].children| ==> cpu in CpusAt(nodes, nodes[topo].children[i])
      ensures forall k :: 0 <= k < i ==> cpu !in CpusAt(nodes, nodes[topo].children[k])
    {
      i := 0;
      while i < |nodes[topo].children|
        invariant i <= |nodes[topo].children|
        invariant forall k :: 0 <= k < i ==> cpu !in CpusAt(nodes, nodes[topo].children[k])
      {
        var held := TestCpu(cpu, nodes[nodes[topo].children[i]].mask);
        if held { return; }
        i := i + 1;
      }
    }

    /**
     The leaf below `start` that holds a CPU.  The answer is the only such leaf, and there is none
     exactly when the answer is empty.
     */
    method FindDescendant(start: nat, cpu: nat) returns (r: Option<nat>)
      requires Valid(nodes, words) && start < |nodes| && cpu < 64 * words
      ensures OnlyLeafHolding(nodes, start, cpu, r)
    {
      var topo: nat := start;
      var held := TestCpu(cpu, nodes[topo].mask);
      if !held {
        NoLeafHolds(nodes, words, start, cpu);
        return None;
      }
      var lvl: nat := 0;
      while lvl < MAX_LEVEL
        invariant topo < |nodes| && nodes[topo].level == nodes[start].level + lvl
        invariant cpu in CpusAt(nodes, topo) && IsBelow(nodes, start, topo)
        invariant OnlyBelow(nodes, start, topo, cpu)
        decreases MAX_LEVEL - lvl
      {
        if |nodes[topo].children| == 0 {
          LeafFound(nodes, words, start, topo, cpu);
          return Some(topo);
        }
        var i := ChildHolding(topo, cpu);
        if i == |nodes[topo].children| {
          NoLeafBelowChildren(nodes, words, start, topo, cpu);
          return None;
        }
        FollowChild(nodes, words, start, topo, cpu, i);
        topo := nodes[topo].children[i];
        lvl := lvl + 1;
      }
      return Some(topo);
    }
  }
}
