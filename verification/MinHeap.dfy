/**
 The array min-heap of scx/lib/minheap.bpf.c.  The two balance loops are stated as functions on the
 sequence of elements; the methods run them in place.
 */
module MinHeap {
  import opened Common

  datatype Elem = Elem(elem: nat, weight: nat)

  datatype Status = Ok | NoSpace | Invalid

  /** Indices are C `int`s in the source: below this capacity `2 * ind + 2` cannot overflow. */
  const MAX_CAPACITY := 0x3fff_ffff

  function Parent(i: nat): nat
    requires i > 0
  {
    (i - 1) / 2
  }

  ghost predicate HeapOrdered(s: seq<Elem>) {
    forall j {:trigger Parent(j)} :: 0 < j < |s| ==> s[Parent(j)].weight <= s[j].weight
  }

  // ---------- bottom up ----------

  /** The bottom-up balance loop from index `ind`. */
  function SiftUp(s: seq<Elem>, ind: nat): (r: seq<Elem>)
    requires ind < |s|
    ensures |r| == |s|
    decreases ind
  {
    if ind == 0 || s[Parent(ind)].weight <= s[ind].weight then s
    else SiftUp(Swap(s, Parent(ind), ind), Parent(ind))
  }

  lemma {:induction false} SiftUpPermutes(s: seq<Elem>, ind: nat)
    requires ind < |s|
    ensures multiset(SiftUp(s, ind)) == multiset(s)
    decreases ind
  {
    if ind > 0 && s[Parent(ind)].weight > s[ind].weight {
      SiftUpPermutes(Swap(s, Parent(ind), ind), Parent(ind));
    }
  }

  /** In heap order except that `ind` may be lighter than its parent. */
  ghost predicate OrderedAbove(s: seq<Elem>, ind: nat)
    requires ind < |s|
  {
    && (forall j {:trigger Parent(j)} :: 0 < j < |s| && j != ind ==> s[Parent(j)].weight <= s[j].weight)
    && (forall j {:trigger Parent(j)} :: 0 < j < |s| && Parent(j) == ind && ind > 0 ==> s[Parent(ind)].weight <= s[j].weight)
  }

  lemma {:induction false} SiftUpRestoresOrder(s: seq<Elem>, ind: nat)
    requires ind < |s| && OrderedAbove(s, ind)
    ensures HeapOrdered(SiftUp(s, ind))
    decreases ind
  {
    if ind > 0 && s[Parent(ind)].weight > s[ind].weight {
      var p := Parent(ind);
      var r := Swap(s, p, ind);
      assert OrderedAbove(r, p) by {
        forall j | 0 < j < |r| && j != p ensures r[Parent(j)].weight <= r[j].weight {
          assert s[Parent(j)].weight <= s[j].weight || j == ind;
        }
        forall j | 0 < j < |r| && Parent(j) == p && p > 0 ensures r[Parent(p)].weight <= r[j].weight {
          assert s[Parent(p)].weight <= s[p].weight;
          assert j != ind ==> s[Parent(j)].weight <= s[j].weight;
        }
      }
      SiftUpRestoresOrder(r, p);
    }
  }

  // ---------- top down ----------

  /** The lightest of an element and its children, the left child before the right one. */
  function Lightest(s: seq<Elem>, ind: nat): (next: nat)
    requires ind < |s|
    ensures next < |s|
    ensures next == ind || (next > 0 && Parent(next) == ind && s[next].weight < s[ind].weight)
    ensures forall j {:trigger Parent(j)} :: 0 < j < |s| && Parent(j) == ind ==> s[next].weight <= s[j].weight
  {
    var left, right := 2 * ind + 1, 2 * ind + 2;
    assert forall j :: 0 < j && Parent(j) == ind ==> j == left || j == right;
    var next := if left < |s| && s[ind].weight > s[left].weight then left else ind;
    if right < |s| && s[next].weight > s[right].weight then right else next
  }

  /** The top-down balance loop from index `ind`. */
  function SiftDown(s: seq<Elem>, ind: nat): (r: seq<Elem>)
    requires ind < |s|
    ensures |r| == |s|
    decreases |s| - ind
  {
    var next := Lightest(s, ind);
    if next == ind then s else SiftDown(Swap(s, next, ind), next)
  }

  lemma {:induction false} SiftDownPermutes(s: seq<Elem>, ind: nat)
    requires ind < |s|
    ensures multiset(SiftDown(s, ind)) == multiset(s)
    decreases |s| - ind
  {
    var next := Lightest(s, ind);
    if next != ind {
      SiftDownPermutes(Swap(s, next, ind), next);
    }
  }

  /** In heap order except that `ind` may be heavier than its children. */
  ghost predicate OrderedBelow(s: seq<Elem>, ind: nat)
    requires ind < |s|
  {
    && (forall j {:trigger Parent(j)} :: 0 < j < |s| && Parent(j) != ind ==> s[Parent(j)].weight <= s[j].weight)
    && (forall j {:trigger Parent(j)} :: 0 < j < |s| && Parent(j) == ind && ind > 0 ==> s[Parent(ind)].weight <= s[j].weight)
  }

  lemma {:induction false} SiftDownRestoresOrder(s: seq<Elem>, ind: nat)
    requires ind < |s| && OrderedBelow(s, ind)
    ensures HeapOrdered(SiftDown(s, ind))
    decreases |s| - ind
  {
    var next := Lightest(s, ind);
    if next != ind {
      var r := Swap(s, next, ind);
      assert OrderedBelow(r, next) by {
        forall j | 0 < j < |r| && Parent(j) != next ensures r[Parent(j)].weight <= r[j].weight {
          assert Parent(j) != ind ==> s[Parent(j)].weight <= s[j].weight;
          assert Parent(j) == ind ==> s[next].weight <= s[j].weight;
          assert j == ind ==> s[Parent(ind)].weight <= s[next].weight;
        }
        forall j | 0 < j < |r| && Parent(j) == next ensures r[Parent(next)].weight <= r[j].weight {
          assert s[Parent(j)].weight <= s[j].weight;
        }
      }
      SiftDownRestoresOrder(r, next);
    }
  }

  /** The first element of a heap is a lightest one. */
  lemma {:induction false} RootIsLightest(s: seq<Elem>, k: nat)
    requires HeapOrdered(s) && k < |s|
    ensures s[0].weight <= s[k].weight
    decreases k
  {
    if k > 0 { RootIsLightest(s, Parent(k)); }
  }

  lemma RootIsLeast(s: seq<Elem>)
    requires HeapOrdered(s) && s != []
    ensures forall x :: x in multiset(s) ==> s[0].weight <= x.weight
  {
    forall x | x in multiset(s) ensures s[0].weight <= x.weight {
      assert x in s;
      var k :| 0 <= k < |s| && s[k] == x;
      RootIsLightest(s, k);
    }
  }

  // ---------- the heap ----------

  /** Contents after a pop: the last element replaces the first and sinks. */
  function Popped(s: seq<Elem>): (r: seq<Elem>)
    requires s != []
    ensures |r| == |s| - 1
  {
    var n := |s| - 1;
    if n == 0 then [] else SiftDown(s[..n][0 := s[n]], 0)
  }

  lemma PopRemovesFirst(s: seq<Elem>)
    requires s != []
    ensures multiset(Popped(s)) + multiset{s[0]} == multiset(s)
  {
    hide SiftDown;
    var n := |s| - 1;
    assert s == s[..n] + [s[n]];
    if n > 0 {
      var t := s[..n][0 := s[n]];
      assert multiset(t) + multiset{s[0]} == multiset(s[..n]) + multiset{s[n]} by { assert s[..n][0] == s[0]; }
      SiftDownPermutes(t, 0);
    }
  }

  lemma PopKeepsOrder(s: seq<Elem>)
    requires s != [] && HeapOrdered(s)
    ensures HeapOrdered(Popped(s))
  {
    var n := |s| - 1;
    if n > 0 {
      var t := s[..n][0 := s[n]];
      forall j | 0 < j < |t| && Parent(j) != 0 ensures t[Parent(j)].weight <= t[j].weight {
        assert s[Parent(j)].weight <= s[j].weight;
      }
      SiftDownRestoresOrder(t, 0);
    }
  }

  lemma InsertKeepsOrder(s: seq<Elem>, e: Elem)
    requires HeapOrdered(s)
    ensures HeapOrdered(SiftUp(s + [e], |s|))
  {
    var t := s + [e];
    forall j | 0 < j < |t| && j != |s| ensures t[Parent(j)].weight <= t[j].weight {
      assert s[Parent(j)].weight <= s[j].weight;
    }
    SiftUpRestoresOrder(t, |s|);
  }

  class Heap {
    const helems: array<Elem>
    var size: nat

    ghost predicate Valid()
      reads this, helems
    {
      size <= helems.Length <= MAX_CAPACITY && HeapOrdered(helems[..size])
    }

    ghost function Contents(): (s: seq<Elem>)
      requires Valid()
      reads this, helems
    {
      helems[..size]
    }

    constructor (capacity: nat)
      requires capacity <= 0x3fff_ffff
      ensures Valid() && fresh(helems) && helems.Length == capacity && Contents() == []
    {
      helems := new Elem[capacity](_ => Elem(0, 0));
      size := 0;
    }

    method SwapElems(i: nat, j: nat)
      requires i < size <= helems.Length && j < size
      modifies helems
      ensures helems[..size] == Swap(old(helems[..size]), i, j)
    {
      var tmp := helems[i];
      helems[i] := helems[j];
      helems[j] := tmp;
    }

    method BalanceBottomUp()
      requires 0 < size <= helems.Length
      modifies helems
      ensures helems[..size] == SiftUp(old(helems[..size]), size - 1)
    {
      var ind := size - 1;
      ghost var s := helems[..size];
      ghost var sifted := SiftUp(s, ind);
      while ind > 0
        invariant 0 <= ind < size && s == helems[..size] && SiftUp(s, ind) == sifted
      {
        var parent := (ind - 1) / 2;
        if helems[parent].weight <= helems[ind].weight { break; }
        SwapElems(parent, ind);
        s, ind := Swap(s, parent, ind), parent;
      }
    }

    method BalanceTopDown()
      requires size <= helems.Length <= MAX_CAPACITY
      modifies helems
      ensures size > 0 ==> helems[..size] == SiftDown(old(helems[..size]), 0)
    {
      var ind := 0;
      while ind < size
        invariant size > 0 ==> ind < size
        invariant size > 0 ==> SiftDown(helems[..size], ind) == SiftDown(old(helems[..size]), 0)
        decreases size - ind
      {
        var next := ind;
        for off := 1 to 3
          invariant next < size
          invariant off == 1 ==> next == ind
          invariant off == 2 ==> next == if 2 * ind + 1 < size && helems[ind].weight > helems[2 * ind + 1].weight
                                         then 2 * ind + 1 else ind
          invariant off == 3 ==> next == Lightest(helems[..size], ind)
        {
          var child := 2 * ind + off;
          assert child < 0x8000_0000;
          if child < size && helems[next].weight > helems[child].weight {
            next := child;
          }
        }
        if next == ind { break; }
        SwapElems(next, ind);
        ind := next;
      }
    }

    method Insert(elem: nat, weight: nat) returns (status: Status)
      requires Valid()
      modifies this`size, helems
      ensures Valid()
      ensures status == if old(size) == helems.Length then NoSpace else Ok
      ensures status.Ok? ==> multiset(Contents()) == old(multiset(Contents())) + multiset{Elem(elem, weight)}
                             && size == old(size) + 1
      ensures status.NoSpace? ==> Contents() == old(Contents())
    {
      hide SiftUp;
      if size == helems.Length {
        return NoSpace;
      }
      ghost var s, e := Contents(), Elem(elem, weight);
      helems[size] := Elem(elem, weight);
      size := size + 1;
      assert helems[..size] == s + [e];
      BalanceBottomUp();
      InsertKeepsOrder(s, e);
      assert multiset(helems[..size]) == multiset(s) + multiset{e} by {
        SiftUpPermutes(s + [e], |s|);
      }
      return Ok;
    }

    method Pop() returns (status: Status, helem: Elem)
      requires Valid()
      modifies this`size, helems
      ensures Valid()
      ensures status == if old(size) == 0 then Invalid else Ok
      ensures status.Invalid? ==> Contents() == old(Contents())
      ensures status.Ok? ==> size == old(size) - 1
                             && multiset(Contents()) + multiset{helem} == old(multiset(Contents()))
                             && helem == old(helems[0])
                             && forall x :: x in old(multiset(Contents())) ==> helem.weight <= x.weight
    {
      if size == 0 {
        return Invalid, Elem(0, 0);
      }
      ghost var s := Contents();
      helem := helems[0];
      helems[0] := helems[size - 1];
      size := size - 1;
      assert size > 0 ==> helems[..size] == s[..size][0 := s[size]];
      BalanceTopDown();
      assert size == 0 ==> helems[..size] == [];
      assert helems[..size] == Popped(s);
      PopKeepsOrder(s);
      PopRemovesFirst(s);
      RootIsLeast(s);
      return Ok, helem;
    }
  }
}
