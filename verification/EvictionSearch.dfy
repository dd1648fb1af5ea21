/**
 The pruning of a list of candidate lines (`prune_evcands` of src/evset.c): what holds of the list
 whatever the test answers, and which lines are kept when the test is ideal.
 */
module EvictionSearch {
  import opened Common
  import opened CacheLines

  // ---------- pruning ----------

  /** Pruning keeps the lines of cache set `s` exactly when the other ones of `s`, with the target, still fill it. */
  ghost predicate KeptSet(setOf: Line -> int, ways: nat, target: Line, list: seq<Line>, s: int) {
    LinesIn(setOf, s, list) + (if s == setOf(target) then 1 else 0) >= ways + 1
  }

  ghost predicate Pruned(setOf: Line -> int, ways: nat, target: Line, list: seq<Line>, r: seq<Line>, i: int, cnt: int)
    requires 0 <= i <= cnt <= |r|
  {
    && multiset(r) == multiset(list)
    && (forall k :: 0 <= k < i ==> KeptSet(setOf, ways, target, list, setOf(r[k])))
    && (forall k :: cnt <= k < |r| ==> !KeptSet(setOf, ways, target, list, setOf(r[k])))
  }

  /** What the query about line `r[i]` counts: the lines still in, with the target in that line's place. */
  lemma QueryCount(setOf: Line -> int, ways: nat, target: Line, list: seq<Line>, r: seq<Line>, i: int, cnt: int)
    requires 0 <= i < cnt <= |r| && Pruned(setOf, ways, target, list, r, i, cnt)
    ensures LinesIn(setOf, setOf(r[i]), r[i := target][..cnt]) >= ways <==>
            KeptSet(setOf, ways, target, list, setOf(r[i]))
  {
    var s := setOf(r[i]);
    assert r[i := target][..cnt] == r[..cnt][i := target];
    LinesInUpdate(setOf, s, r[..cnt], i, target);
    LinesInSplit(setOf, s, r, cnt);
    LinesInPermutation(setOf, s, r, list);
    if KeptSet(setOf, ways, target, list, s) {
      LinesInNone(setOf, s, r[cnt..]);
    }
  }

  datatype PruneResult = PruneResult(lines: seq<Line>, cnt: nat, t: nat)

  /** The pruning loop from position `i` on, with `cnt` lines still in and query number `t` next. */
  function PruneFrom(test: Test, target: Line, lines: seq<Line>, i: nat, cnt: nat, t: nat): (r: PruneResult)
    requires i <= cnt <= |lines|
    ensures |r.lines| == |lines| && i <= r.cnt <= cnt
    decreases cnt - i
  {
    if i == cnt then PruneResult(lines, cnt, t)
    else if test(t, lines[i], lines[..cnt][i := target]) then PruneFrom(test, target, lines, i + 1, cnt, t + 1)
    else PruneFrom(test, target, Swap(lines, i, cnt - 1), i, cnt - 1, t + 1)
  }

  /** Whatever the test answers, pruning only permutes the lines it was given. */
  lemma {:induction false} PruneFromPermutes(test: Test, target: Line, lines: seq<Line>, i: nat, cnt: nat, t: nat)
    requires i <= cnt <= |lines|
    ensures multiset(PruneFrom(test, target, lines, i, cnt, t).lines) == multiset(lines)
    decreases cnt - i
  {
    hide Swap;
    if i < cnt {
      if test(t, lines[i], lines[..cnt][i := target]) {
        PruneFromPermutes(test, target, lines, i + 1, cnt, t + 1);
      } else {
        SwapPermutes(lines, i, cnt - 1);
        PruneFromPermutes(test, target, Swap(lines, i, cnt - 1), i, cnt - 1, t + 1);
      }
    }
  }

  lemma PrunedKeep(setOf: Line -> int, ways: nat, target: Line, list: seq<Line>, r: seq<Line>, i: int, cnt: int)
    requires 0 <= i < cnt <= |r| && Pruned(setOf, ways, target, list, r, i, cnt)
    requires KeptSet(setOf, ways, target, list, setOf(r[i]))
    ensures Pruned(setOf, ways, target, list, r, i + 1, cnt)
  {
  }

  lemma PrunedDrop(setOf: Line -> int, ways: nat, target: Line, list: seq<Line>, r: seq<Line>, i: int, cnt: int)
    requires 0 <= i < cnt <= |r| && Pruned(setOf, ways, target, list, r, i, cnt)
    requires !KeptSet(setOf, ways, target, list, setOf(r[i]))
    ensures Pruned(setOf, ways, target, list, Swap(r, i, cnt - 1), i, cnt - 1)
  {
    SwapPermutes(r, i, cnt - 1);
  }

  /** With the ideal test exactly the kept sets' lines end up in front. */
  lemma {:induction false} PruneFromIdeal(test: Test, setOf: Line -> int, ways: nat, target: Line, list: seq<Line>,
                                          lines: seq<Line>, i: nat, cnt: nat, t: nat)
    requires Ideal(test, setOf, ways) && i <= cnt <= |lines|
    requires Pruned(setOf, ways, target, list, lines, i, cnt)
    ensures var r := PruneFrom(test, target, lines, i, cnt, t);
            Pruned(setOf, ways, target, list, r.lines, r.cnt, r.cnt)
    decreases cnt - i
  {
    hide Pruned, KeptSet, Ideal, LinesIn, Swap;
    if i < cnt {
      var q := lines[..cnt][i := target];
      var keep, r := KeptSet(setOf, ways, target, list, setOf(lines[i])), PruneFrom(test, target, lines, i, cnt, t);
      assert test(t, lines[i], q) <==> keep by {
        IdealAnswer(test, setOf, ways, t, lines[i], q);
        QueryCount(setOf, ways, target, list, lines, i, cnt);
        assert q == lines[i := target][..cnt];
      }
      if keep {
        PrunedKeep(setOf, ways, target, list, lines, i, cnt);
        PruneFromIdeal(test, setOf, ways, target, list, lines, i + 1, cnt, t + 1);
        assert r == PruneFrom(test, target, lines, i + 1, cnt, t + 1);
      } else {
        PrunedDrop(setOf, ways, target, list, lines, i, cnt);
        PruneFromIdeal(test, setOf, ways, target, list, Swap(lines, i, cnt - 1), i, cnt - 1, t + 1);
        assert r == PruneFrom(test, target, Swap(lines, i, cnt - 1), i, cnt - 1, t + 1);
      }
    }
  }

  method SwapLines(cands: array<Line>, i: nat, j: nat)
    requires i < cands.Length && j < cands.Length
    modifies cands
    ensures cands[..] == Swap(old(cands[..]), i, j)
  {
    var tmp := cands[i];
    cands[i] := cands[j];
    cands[j] := tmp;
  }

  /** Tests line `cands[i]` against the list with the target in its place; the list is put back. */
  method TestWithout(test: Test, target: Line, cands: array<Line>, cnt: nat, i: nat, t: nat) returns (evicted: bool)
    requires i < cnt <= cands.Length
    modifies cands
    ensures cands[..] == old(cands[..])
    ensures evicted == test(t, cands[i], cands[..cnt][i := target])
  {
    ghost var list := cands[..];
    var line := cands[i];
    cands[i] := target;
    assert cands[..cnt] == list[..cnt][i := target];
    evicted := test(t, line, cands[..cnt]);
    cands[i] := line;
    assert cands[..] == list;
    assert cands[..cnt] == list[..cnt];
  }

  /** One turn of the pruning loop: keeps the line at `i`, or swaps it behind the list. */
  method PruneStep(test: Test, target: Line, cands: array<Line>, cnt: nat, i: nat, t: nat) returns (kept: bool)
    requires i < cnt <= cands.Length
    modifies cands
    ensures kept == test(t, old(cands[i]), old(cands[..cnt])[i := target])
    ensures cands[..] == if kept then old(cands[..]) else Swap(old(cands[..]), i, cnt - 1)
  {
    kept := TestWithout(test, target, cands, cnt, i, t);
    assert cands[..cnt] == cands[..][..cnt] == old(cands[..])[..cnt] == old(cands[..cnt]);
    if !kept {
      SwapLines(cands, i, cnt - 1);
    }
  }

  lemma PrefixView(lines: seq<Line>, i: nat, cnt: nat, count: nat)
    requires i < cnt <= count <= |lines|
    ensures lines[..count][..cnt] == lines[..cnt] && lines[..count][i] == lines[i]
    ensures Swap(lines, i, cnt - 1)[..count] == Swap(lines[..count], i, cnt - 1)
    ensures Swap(lines, i, cnt - 1)[count..] == lines[count..]
  {
    SwapInPrefix(lines, i, cnt - 1, count);
  }

  /** Drops every line the test does not find evicted by the target and the others. */
  method PruneEvcands(test: Test, target: Line, cands: array<Line>, count: nat, start: nat) returns (cnt: nat, t: nat)
    requires count <= cands.Length
    modifies cands
    ensures cands[count..] == old(cands[count..])
    ensures PruneResult(cands[..count], cnt, t) == PruneFrom(test, target, old(cands[..count]), 0, count, start)
  {
    t := start;
    cnt := count;
    var i := 0;
    while i < cnt
      invariant 0 <= i <= cnt <= count
      invariant cands[count..] == old(cands[count..])
      invariant PruneFrom(test, target, cands[..count], i, cnt, t) ==
                PruneFrom(test, target, old(cands[..count]), 0, count, start)
      decreases cnt - i
    {
      ghost var lines := cands[..];
      PrefixView(lines, i, cnt, count);
      var kept := PruneStep(test, target, cands, cnt, i, t);
      assert cands[..count] == cands[..][..count] && cands[count..] == cands[..][count..];
      t := t + 1;
      if kept {
        i := i + 1;
      } else {
        cnt := cnt - 1;
      }
    }
  }

  /** The lines of the target's set are in front, and nothing else is. */
  ghost predicate Exact(setOf: Line -> int, target: Line, r: seq<Line>, cnt: int) {
    forall k :: 0 <= k < |r| ==> (k < cnt <==> setOf(r[k]) == setOf(target))
  }

  /** No set but the target's has more than `ways` lines in the list. */
  ghost predicate NoRival(setOf: Line -> int, ways: nat, target: Line, list: seq<Line>) {
    forall s :: s != setOf(target) ==> LinesIn(setOf, s, list) <= ways
  }

  lemma PrunedIsExactIff(setOf: Line -> int, ways: nat, target: Line, list: seq<Line>, r: seq<Line>, cnt: int)
    requires 0 <= cnt <= |r| && Pruned(setOf, ways, target, list, r, cnt, cnt)
    requires LinesIn(setOf, setOf(target), list) >= ways
    ensures Exact(setOf, target, r, cnt) <==> NoRival(setOf, ways, target, list)
  {
    forall s | s != setOf(target) ensures Exact(setOf, target, r, cnt) ==> LinesIn(setOf, s, list) <= ways {
      LinesInPermutation(setOf, s, r, list);
      if Exact(setOf, target, r, cnt) && KeptSet(setOf, ways, target, list, s) {
        LinesInNone(setOf, s, r);
      }
    }
    forall k | 0 <= k < |r|
      ensures NoRival(setOf, ways, target, list) ==> (k < cnt <==> setOf(r[k]) == setOf(target))
    {
      assert k < cnt <==> KeptSet(setOf, ways, target, list, setOf(r[k]));
    }
  }

  /**
   With the ideal test, pruning a list that evicts the target leaves exactly the target's set in front,
   if and only if no other set has more than `ways` lines in the list.
   */
  lemma PruningIsExactIff(test: Test, setOf: Line -> int, ways: nat, target: Line, list: seq<Line>, t: nat)
    requires Ideal(test, setOf, ways) && LinesIn(setOf, setOf(target), list) >= ways
    ensures var r := PruneFrom(test, target, list, 0, |list|, t);
            && multiset(r.lines) == multiset(list)
            && (Exact(setOf, target, r.lines, r.cnt) <==> NoRival(setOf, ways, target, list))
  {
    var r := PruneFrom(test, target, list, 0, |list|, t);
    PruneFromPermutes(test, target, list, 0, |list|, t);
    PruneFromIdeal(test, setOf, ways, target, list, list, 0, |list|, t);
    PrunedIsExactIff(setOf, ways, target, list, r.lines, r.cnt);
  }

  lemma {:induction false} LinesInTwoSets(setOf: Line -> int, s: int, s': int, list: seq<Line>)
    requires s != s'
    ensures LinesIn(setOf, s, list) + LinesIn(setOf, s', list) <= |list|
  {
    if list != [] { LinesInTwoSets(setOf, s, s', list[..|list| - 1]); }
  }

  /** A list of at most twice as many lines as ways, evicting the target, is always pruned exactly. */
  lemma ShortListsPruneExactly(test: Test, setOf: Line -> int, ways: nat, target: Line, list: seq<Line>, t: nat)
    requires Ideal(test, setOf, ways) && LinesIn(setOf, setOf(target), list) >= ways && |list| <= 2 * ways
    ensures var r := PruneFrom(test, target, list, 0, |list|, t); Exact(setOf, target, r.lines, r.cnt)
  {
    forall s | s != setOf(target) ensures LinesIn(setOf, s, list) <= ways {
      LinesInTwoSets(setOf, s, setOf(target), list);
    }
    PruningIsExactIff(test, setOf, ways, target, list, t);
  }

  /** Two lines to a set. */
  function TwoToASet(line: Line): int {
    line / 2
  }

  lemma RivalsOfZero(list: seq<Line>)
    requires list == [1, 2, 3]
    ensures LinesIn(TwoToASet, 0, list) == 1 && LinesIn(TwoToASet, 1, list) == 2
  {
    var one, two := [1], [1, 2];
    assert one[..0] == [] && two[..1] == one && list[..2] == two;
    assert LinesIn(TwoToASet, 0, one) == 1 && LinesIn(TwoToASet, 1, one) == 0;
    assert LinesIn(TwoToASet, 0, two) == 1 && LinesIn(TwoToASet, 1, two) == 1;
  }

  lemma RivalSurvives(test: Test, list: seq<Line>)
    requires Ideal(test, TwoToASet, 1) && list == [1, 2, 3]
    ensures var r := PruneFrom(test, 0, list, 0, 3, 0); multiset(r.lines) == multiset(list) && !Exact(TwoToASet, 0, r.lines, r.cnt)
  {
    RivalsOfZero(list);
    PruningIsExactIff(test, TwoToASet, 1, 0, list, 0);
  }

  /** With one way, lines 2 and 3 of another set survive the pruning of 1, 2 and 3 for target 0. */
  method PruningKeepsARival() returns (lines: seq<Line>, cnt: nat)
    ensures multiset(lines) == multiset{1, 2, 3} && !Exact(TwoToASet, 0, lines, cnt)
  {
    var test: Test := (t, target, list) => LinesIn(TwoToASet, TwoToASet(target), list) >= 1;
    var cands := new Line[3](i => i + 1);
    ghost var list := cands[..3];
    assert list == [1, 2, 3];
    RivalSurvives(test, list);
    var t;
    cnt, t := PruneEvcands(test, 0, cands, 3, 0);
    lines := cands[..3];
  }
}
