/**
 Candidate lines and the test they are put to (src/evset.c).  A test says whether accessing a list
 of lines evicts a target line.  It is noisy: the model lets the answer to every query be anything.
 The ideal test answers by the cache's rule: the target goes when at least as many listed lines as
 the cache has ways fall into the target's set.
 */
module CacheLines {
  import opened Common

  type Line = int

  /** Answer to the `t`-th query: does accessing `list` evict `target`? */
  type Test = (nat, Line, seq<Line>) -> bool

  /** How many listed lines fall into cache set `s`. */
  function LinesIn(setOf: Line -> int, s: int, list: seq<Line>): (n: nat)
    ensures n <= |list|
  {
    if list == [] then 0
    else LinesIn(setOf, s, list[..|list| - 1]) + if setOf(list[|list| - 1]) == s then 1 else 0
  }

  ghost predicate Ideal(test: Test, setOf: Line -> int, ways: nat) {
    forall t, target, list :: test(t, target, list) <==> LinesIn(setOf, setOf(target), list) >= ways
  }

  lemma IdealAnswer(test: Test, setOf: Line -> int, ways: nat, t: nat, target: Line, list: seq<Line>)
    requires Ideal(test, setOf, ways)
    ensures test(t, target, list) <==> LinesIn(setOf, setOf(target), list) >= ways
  {
  }

  /** A swap inside a prefix permutes that prefix. */
  lemma SwapInPrefix(s: seq<Line>, i: int, j: int, k: int)
    requires 0 <= i < k && 0 <= j < k <= |s|
    ensures multiset(Swap(s, i, j)[..k]) == multiset(s[..k])
    ensures Swap(s, i, j)[..k] == Swap(s[..k], i, j)
    ensures Swap(s, i, j)[k..] == s[k..]
  {
    assert Swap(s, i, j)[..k] == Swap(s[..k], i, j);
    SwapPermutes(s[..k], i, j);
  }

  lemma {:induction false} LinesInSplit(setOf: Line -> int, s: int, list: seq<Line>, k: nat)
    requires k <= |list|
    ensures LinesIn(setOf, s, list) == LinesIn(setOf, s, list[..k]) + LinesIn(setOf, s, list[k..])
  {
    if k == |list| {
      assert list[..k] == list;
    } else {
      var front := list[..|list| - 1];
      LinesInSplit(setOf, s, front, k);
      assert front[..k] == list[..k];
      var tail := list[k..];
      assert tail[..|tail| - 1] == list[k..|list| - 1] == front[k..];
    }
  }

  lemma {:induction false} LinesInNone(setOf: Line -> int, s: int, list: seq<Line>)
    requires forall k :: 0 <= k < |list| ==> setOf(list[k]) != s
    ensures LinesIn(setOf, s, list) == 0
  {
    if list != [] { LinesInNone(setOf, s, list[..|list| - 1]); }
  }

  lemma {:induction false} LinesInAll(setOf: Line -> int, s: int, list: seq<Line>)
    requires forall k :: 0 <= k < |list| ==> setOf(list[k]) == s
    ensures LinesIn(setOf, s, list) == |list|
  {
    if list != [] { LinesInAll(setOf, s, list[..|list| - 1]); }
  }

  lemma LinesInOne(setOf: Line -> int, s: int, x: Line)
    ensures LinesIn(setOf, s, [x]) == if setOf(x) == s then 1 else 0
  {
    assert [x][..0] == [];
  }

  /** Replacing one line moves the counts by that line alone. */
  lemma LinesInUpdate(setOf: Line -> int, s: int, list: seq<Line>, i: int, x: Line)
    requires 0 <= i < |list|
    ensures LinesIn(setOf, s, list[i := x]) ==
            LinesIn(setOf, s, list) - (if setOf(list[i]) == s then 1 else 0) + (if setOf(x) == s then 1 else 0)
  {
    var r := list[i := x];
    LinesInSplit(setOf, s, list, i);
    LinesInSplit(setOf, s, list[i..], 1);
    LinesInSplit(setOf, s, r, i);
    LinesInSplit(setOf, s, r[i..], 1);
    assert r[..i] == list[..i] && r[i..][1..] == list[i..][1..];
    assert list[i..][..1] == [list[i]] && r[i..][..1] == [x];
    LinesInOne(setOf, s, list[i]);
    LinesInOne(setOf, s, x);
  }

  lemma LinesInRemove(setOf: Line -> int, s: int, list: seq<Line>, j: int)
    requires 0 <= j < |list|
    ensures var rest := list[..j] + list[j + 1..];
            && LinesIn(setOf, s, list) == LinesIn(setOf, s, rest) + (if setOf(list[j]) == s then 1 else 0)
            && multiset(list) == multiset(rest) + multiset{list[j]}
  {
    var rest := list[..j] + list[j + 1..];
    LinesInSplit(setOf, s, list, j);
    LinesInSplit(setOf, s, list[j..], 1);
    LinesInSplit(setOf, s, rest, j);
    assert list[j..][..1] == [list[j]] && list[j..][1..] == list[j + 1..];
    assert rest[..j] == list[..j] && rest[j..] == list[j + 1..];
    LinesInOne(setOf, s, list[j]);
    assert list == list[..j] + [list[j]] + list[j + 1..];
  }

  lemma {:induction false} LinesInPermutation(setOf: Line -> int, s: int, a: seq<Line>, b: seq<Line>)
    requires multiset(a) == multiset(b)
    ensures LinesIn(setOf, s, a) == LinesIn(setOf, s, b)
  {
    if a == [] {
      assert |multiset(b)| == 0;
    } else {
      var x := a[|a| - 1];
      var front := a[..|a| - 1];
      assert a == front + [x];
      assert x in multiset(a);
      assert x in b;
      var j :| 0 <= j < |b| && b[j] == x;
      LinesInRemove(setOf, s, b, j);
      var rest := b[..j] + b[j + 1..];
      assert multiset(front) == multiset(a) - multiset{x} == multiset(rest);
      LinesInPermutation(setOf, s, front, rest);
    }
  }

  lemma LinesInPrefix(setOf: Line -> int, s: int, list: seq<Line>, i: nat, j: nat)
    requires i <= j <= |list|
    ensures LinesIn(setOf, s, list[..j]) == LinesIn(setOf, s, list[..i]) + LinesIn(setOf, s, list[i..j])
  {
    LinesInSplit(setOf, s, list[..j], i);
    assert list[..j][..i] == list[..i] && list[..j][i..] == list[i..j];
  }
}
