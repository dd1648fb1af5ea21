/**
 The monitoring loop of src/vcolor.c: colour heat is smoothed, the colours are ordered by heat, and
 the published hottest colour changes only after three rounds that all ask for the same change.
 */
module HottestColor {
  const VCOLOR_MAX_COLORS := 16

  datatype ColorHot = ColorHot(color: nat, hot: real)

  // ---------- smoothing ----------

  function Mixed(alpha: real, before: real, rate: real): real {
    alpha * before + (1.0 - alpha) * rate
  }

  function EwmaNext(before: real, rate: real, alphaRise: real, alphaFall: real): real {
    Mixed(if rate > before then alphaRise else alphaFall, before, rate)
  }

  lemma Part(alpha: real, d: real)
    requires 0.0 <= alpha <= 1.0 && d >= 0.0
    ensures 0.0 <= alpha * d <= d
  {
  }

  lemma MixedBetween(alpha: real, before: real, rate: real)
    requires 0.0 <= alpha <= 1.0
    ensures before <= rate ==> before <= Mixed(alpha, before, rate) <= rate
    ensures rate <= before ==> rate <= Mixed(alpha, before, rate) <= before
  {
    var d := if before <= rate then rate - before else before - rate;
    Part(alpha, d);
    Part(1.0 - alpha, d);
    assert Mixed(alpha, before, rate) == before + (1.0 - alpha) * (rate - before);
    assert Mixed(alpha, before, rate) == rate - alpha * (rate - before);
  }

  /** With factors between 0 and 1 the smoothed heat lies between the old heat and the new rate. */
  lemma EwmaBetween(before: real, rate: real, alphaRise: real, alphaFall: real)
    requires 0.0 <= alphaRise <= 1.0 && 0.0 <= alphaFall <= 1.0
    ensures var r := EwmaNext(before, rate, alphaRise, alphaFall);
            if rate > before then before <= r <= rate else rate <= r <= before
  {
    MixedBetween(if rate > before then alphaRise else alphaFall, before, rate);
  }

  function Power(a: real, n: nat): real {
    if n == 0 then 1.0 else Power(a, n - 1) * a
  }

  lemma {:induction false} PowerNonNegative(a: real, n: nat)
    requires a >= 0.0
    ensures Power(a, n) >= 0.0
  {
    if n > 0 {
      PowerNonNegative(a, n - 1);
      assert Power(a, n) == Power(a, n - 1) * a;
    }
  }

  /** After `n` rounds at one rate: the distance to it has shrunk by one factor per round, by direction. */
  ghost predicate Approached(before: real, after: real, rate: real, alphaRise: real, alphaFall: real, n: nat) {
    if before < rate then after == rate - Power(alphaRise, n) * (rate - before)
    else after == rate + Power(alphaFall, n) * (before - rate)
  }

  lemma MixedFrom(alpha: real, p: real, rate: real, d: real, mid: real)
    requires mid == rate + p * d
    ensures Mixed(alpha, mid, rate) == rate + p * alpha * d
  {
    var q := p * d;
    assert alpha * (rate + q) + (1.0 - alpha) * rate == rate + alpha * q;
    assert alpha * q == p * alpha * d;
  }

  lemma ProductSign(p: real, d: real)
    requires p >= 0.0
    ensures d >= 0.0 ==> p * d >= 0.0
    ensures d <= 0.0 ==> p * d <= 0.0
  {
  }

  lemma ApproachStarts(before: real, rate: real, alphaRise: real, alphaFall: real)
    ensures Approached(before, before, rate, alphaRise, alphaFall, 0)
  {
  }

  /** One more round at the same rate. */
  lemma ApproachNext(before: real, mid: real, rate: real, alphaRise: real, alphaFall: real, n: nat)
    requires alphaRise >= 0.0 && alphaFall >= 0.0 && Approached(before, mid, rate, alphaRise, alphaFall, n)
    ensures Approached(before, EwmaNext(mid, rate, alphaRise, alphaFall), rate, alphaRise, alphaFall, n + 1)
  {
    var d := before - rate;
    var alpha := if before < rate then alphaRise else alphaFall;
    var p := Power(alpha, n);
    assert Power(alpha, n + 1) == p * alpha;
    assert mid == rate + p * d;
    PowerNonNegative(alpha, n);
    ProductSign(p, d);
    MixedFrom(alpha, p, rate, d, mid);
    if mid == rate {
      assert EwmaNext(mid, rate, alphaRise, alphaFall) == rate;
      assert p * alpha * d == alpha * (p * d);
    }
  }

  // ---------- levels ----------

  function HotLevel(h: real): (level: int)
    ensures 0 <= level <= 3
    ensures (level >= 1 <==> h >= 0.4) && (level >= 2 <==> h >= 0.65) && (level >= 3 <==> h >= 0.85)
  {
    var pct := h * 100.0;
    if pct < 40.0 then 0 else if pct < 65.0 then 1 else if pct < 85.0 then 2 else 3
  }

  lemma LevelIsMonotone(a: real, b: real)
    requires a <= b
    ensures HotLevel(a) <= HotLevel(b)
  {
  }

  // ---------- ordering the colours ----------

  /** The table that is sorted: every colour with its heat. */
  function Table(ewma: seq<real>): (tmp: seq<ColorHot>)
    ensures |tmp| == |ewma|
  {
    seq(|ewma|, i requires 0 <= i < |ewma| => ColorHot(i, ewma[i]))
  }

  ghost predicate Descending(s: seq<ColorHot>) {
    forall i, j :: 0 <= i < j < |s| ==> s[i].hot >= s[j].hot
  }

  /** What `qsort` may return: any descending rearrangement; equal heats come in any order, differently each time. */
  type Sorter = (nat, seq<ColorHot>) -> seq<ColorHot>

  ghost predicate Sorts(sorter: Sorter) {
    forall t, s :: multiset(sorter(t, s)) == multiset(s) && Descending(sorter(t, s))
  }

  ghost predicate HasColor(s: seq<ColorHot>, c: int) {
    exists i :: 0 <= i < |s| && s[i].color == c
  }

  /** Each colour occurs once, with its heat. */
  ghost predicate Lists(s: seq<ColorHot>, ewma: seq<real>) {
    && |s| == |ewma|
    && (forall i :: 0 <= i < |s| ==> s[i].color < |ewma| && s[i].hot == ewma[s[i].color])
    && (forall i, j :: 0 <= i < j < |s| ==> s[i].color != s[j].color)
    && (forall c :: 0 <= c < |ewma| ==> HasColor(s, c))
  }

  lemma {:induction false} CountAtMostOne<T>(s: seq<T>, x: T)
    requires forall i, j :: 0 <= i < j < |s| ==> s[i] != s[j]
    ensures multiset(s)[x] <= 1
  {
    if s != [] {
      var n := |s| - 1;
      assert s == s[..n] + [s[n]];
      CountAtMostOne(s[..n], x);
      if s[n] == x {
        assert x !in s[..n];
      }
    }
  }

  lemma CountTwice<T>(s: seq<T>, i: nat, j: nat)
    requires i < j < |s| && s[i] == s[j]
    ensures multiset(s)[s[i]] >= 2
  {
    assert s == s[..j] + [s[j]] + s[j + 1..];
    assert s[i] in s[..j];
  }

  lemma SortedLists(s: seq<ColorHot>, ewma: seq<real>)
    requires multiset(s) == multiset(Table(ewma))
    ensures Lists(s, ewma)
  {
    var tmp := Table(ewma);
    assert |s| == |multiset(s)| == |multiset(tmp)| == |tmp|;
    forall i | 0 <= i < |s| ensures s[i].color < |ewma| && s[i].hot == ewma[s[i].color] {
      assert s[i] in multiset(s);
      assert s[i] in tmp;
    }
    forall i, j | 0 <= i < j < |s| ensures s[i].color != s[j].color {
      CountAtMostOne(tmp, s[i]);
      if s[i].color == s[j].color {
        CountTwice(s, i, j);
      }
    }
    forall c | 0 <= c < |ewma| ensures HasColor(s, c) {
      assert tmp[c] in multiset(s);
      assert tmp[c] in s;
    }
  }

  /** The colours but one, in the order of the table. */
  function Others(s: seq<ColorHot>, hottest: nat): seq<nat> {
    if s == [] then []
    else Others(s[..|s| - 1], hottest) + if s[|s| - 1].color == hottest then [] else [s[|s| - 1].color]
  }

  lemma {:induction false} OthersAre(s: seq<ColorHot>, hottest: nat, c: nat)
    ensures c in Others(s, hottest) <==> c != hottest && HasColor(s, c)
  {
    if s != [] {
      var front := s[..|s| - 1];
      OthersAre(front, hottest, c);
      assert HasColor(s, c) <==> HasColor(front, c) || s[|s| - 1].color == c by {
        if HasColor(front, c) {
          var i :| 0 <= i < |front| && front[i].color == c;
          assert s[i].color == c;
        }
        if HasColor(s, c) && s[|s| - 1].color != c {
          var i :| 0 <= i < |s| && s[i].color == c;
          assert front[i].color == c;
        }
      }
    }
  }

  ghost predicate DistinctColors(s: seq<ColorHot>) {
    forall i, j :: 0 <= i < j < |s| ==> s[i].color != s[j].color
  }

  lemma {:induction false} OthersCount(s: seq<ColorHot>, hottest: nat)
    requires DistinctColors(s)
    ensures |Others(s, hottest)| == |s| - if HasColor(s, hottest) then 1 else 0
  {
    if s != [] {
      var front := s[..|s| - 1];
      OthersCount(front, hottest);
      if s[|s| - 1].color == hottest {
        assert !HasColor(front, hottest);
      } else if HasColor(s, hottest) {
        var i :| 0 <= i < |s| && s[i].color == hottest;
        assert front[i].color == hottest;
      }
    }
  }

  /** Two of the other colours stand in the table in the same order. */
  lemma {:induction false} OthersInOrder(s: seq<ColorHot>, hottest: nat, a: nat, b: nat) returns (i: nat, j: nat)
    requires a < b < |Others(s, hottest)|
    ensures i < j < |s| && s[i].color == Others(s, hottest)[a] && s[j].color == Others(s, hottest)[b]
  {
    var n := |s| - 1;
    var front := s[..n];
    if b < |Others(front, hottest)| {
      i, j := OthersInOrder(front, hottest, a, b);
    } else {
      OthersAre(front, hottest, Others(front, hottest)[a]);
      i :| 0 <= i < |front| && front[i].color == Others(front, hottest)[a];
      j := n;
    }
  }

  /** What is published: the hottest colour first, then the others in the order of the table. */
  function Order(s: seq<ColorHot>, hottest: nat): seq<nat> {
    [hottest] + Others(s, hottest)
  }

  /** Every colour once, the given one first, the rest by falling heat. */
  ghost predicate GoodOrder(order: seq<nat>, hottest: nat, ewma: seq<real>) {
    && |order| == |ewma| > 0 && order[0] == hottest
    && (forall a :: 0 <= a < |order| ==> order[a] < |ewma|)
    && (forall c :: 0 <= c < |ewma| ==> c in order)
    && (forall a, b :: 0 <= a < b < |order| ==> order[a] != order[b])
    && (forall a, b :: 1 <= a < b < |order| ==> ewma[order[a]] >= ewma[order[b]])
  }

  lemma OrderMembers(s: seq<ColorHot>, hottest: nat, ewma: seq<real>, c: nat)
    requires Lists(s, ewma) && hottest < |ewma|
    ensures c in Order(s, hottest) <==> c < |ewma|
  {
    OthersAre(s, hottest, c);
    if HasColor(s, c) {
      var i :| 0 <= i < |s| && s[i].color == c;
    }
  }

  lemma OrderIsGood(s: seq<ColorHot>, hottest: nat, ewma: seq<real>)
    requires Lists(s, ewma) && Descending(s) && hottest < |ewma|
    ensures GoodOrder(Order(s, hottest), hottest, ewma)
  {
    var order, rest := Order(s, hottest), Others(s, hottest);
    OthersCount(s, hottest);
    forall c | 0 <= c < |ewma| ensures c in order {
      OrderMembers(s, hottest, ewma, c);
    }
    forall a | 0 <= a < |order| ensures order[a] < |ewma| {
      OrderMembers(s, hottest, ewma, order[a]);
    }
    forall a, b | 0 <= a < b < |order|
      ensures order[a] != order[b] && (a >= 1 ==> ewma[order[a]] >= ewma[order[b]])
    {
      if a == 0 {
        OthersAre(s, hottest, rest[b - 1]);
        assert rest[b - 1] in rest;
      } else {
        var i, j := OthersInOrder(s, hottest, a - 1, b - 1);
      }
    }
  }

  lemma {:induction false} OthersPrefix(s: seq<ColorHot>, hottest: nat, k: nat)
    requires k <= |s|
    ensures Others(s[..k], hottest) <= Others(s, hottest)
    decreases |s|
  {
    if k < |s| {
      OthersPrefix(s[..|s| - 1], hottest, k);
      assert s[..|s| - 1][..k] == s[..k];
    } else {
      assert s[..k] == s;
    }
  }

  lemma OrderStep(s: seq<ColorHot>, hottest: nat, i: nat, was: seq<nat>)
    requires i < |s| && |Order(s[..i], hottest)| < |was|
    ensures var r, r' := Order(s[..i], hottest), Order(s[..i + 1], hottest);
            if s[i].color == hottest then r' == r
            else r' == r + [s[i].color] && (r + was[|r|..])[|r| := s[i].color] == r' + was[|r| + 1..]
  {
    assert s[..i + 1][..i] == s[..i];
  }

  lemma OrderDone(s: seq<ColorHot>, hottest: nat, i: nat)
    requires i <= |s| && |Order(s[..i], hottest)| <= |s| && (i == |s| || |Order(s[..i], hottest)| == |s|)
    ensures var r := Order(s, hottest);
            var n := if |r| < |s| then |r| else |s|;
            Order(s[..i], hottest) == r[..n]
  {
    OthersPrefix(s, hottest, i);
    assert i == |s| ==> s[..i] == s;
  }

  /** Fills the order in place; the loop stops when the order is full. */
  method BuildSortedOrder(sorted: seq<ColorHot>, nColors: nat, hottest: nat, order: array<nat>)
    requires |sorted| == nColors && 1 <= nColors <= order.Length
    modifies order
    ensures var r := Order(sorted, hottest);
            var n := if |r| < nColors then |r| else nColors;
            order[..] == r[..n] + old(order[..])[n..]
  {
    ghost var was := order[..];
    order[0] := hottest;
    var idx, i := 1, 0;
    while i < nColors && idx < nColors
      invariant 0 <= i <= nColors && idx == |Order(sorted[..i], hottest)| <= nColors
      invariant order[..] == Order(sorted[..i], hottest) + was[idx..]
    {
      OrderStep(sorted, hottest, i, was);
      if sorted[i].color != hottest {
        order[idx] := sorted[i].color;
        idx := idx + 1;
      }
      i := i + 1;
    }
    OrderDone(sorted, hottest, i);
  }

  // ---------- the decision ----------

  datatype Control = Control(hottest: nat, changeCnt: int, prevCand: nat)

  /** One round as the decision sees it: the top of the sorted table and the heats. */
  datatype Round = Round(cand: nat, ewma: seq<real>)

  ghost predicate Rounds(rounds: seq<Round>, nColors: nat) {
    forall i :: 0 <= i < |rounds| ==> |rounds[i].ewma| == nColors && rounds[i].cand < nColors
  }

  /** The round asks for a change: another colour is on top, at least one level above the hottest. */
  predicate Asks(r: Round, hottest: nat)
    requires r.cand < |r.ewma| && hottest < |r.ewma|
  {
    r.cand != hottest && HotLevel(r.ewma[r.cand]) - HotLevel(r.ewma[hottest]) >= 1
  }

  /** A level apart: one of the three boundaries lies between the two heats. */
  lemma AsksIff(r: Round, hottest: nat)
    requires r.cand < |r.ewma| && hottest < |r.ewma|
    ensures var low, high := r.ewma[hottest], r.ewma[r.cand];
            Asks(r, hottest) <==> r.cand != hottest && (low < 0.4 <= high || low < 0.65 <= high || low < 0.85 <= high)
  {
  }

  function Decide(k: Control, r: Round): Control
    requires r.cand < |r.ewma| && k.hottest < |r.ewma|
  {
    var cnt := if !Asks(r, k.hottest) then 0 else if r.cand == k.prevCand then k.changeCnt + 1 else 1;
    if cnt >= 3 then Control(r.cand, 0, r.cand) else Control(k.hottest, cnt, r.cand)
  }

  /** The decision state before round `t`, when colour `first` was the hottest at the start. */
  function StateAt(first: nat, rounds: seq<Round>, nColors: nat, t: nat): (k: Control)
    requires Rounds(rounds, nColors) && first < nColors && t <= |rounds|
    ensures k.hottest < nColors
  {
    if t == 0 then Control(first, 0, first) else Decide(StateAt(first, rounds, nColors, t - 1), rounds[t - 1])
  }

  /** Round `i` met colour `hottest` in force and asked for colour `c` instead. */
  predicate AskedAt(first: nat, rounds: seq<Round>, nColors: nat, i: int, hottest: nat, c: nat)
    requires Rounds(rounds, nColors) && first < nColors
  {
    && 0 <= i < |rounds| && StateAt(first, rounds, nColors, i).hottest == hottest
    && Asks(rounds[i], hottest) && rounds[i].cand == c
  }

  /** The counter counts the rounds in a row, up to two, that asked for one and the same change. */
  ghost predicate Counts(first: nat, rounds: seq<Round>, nColors: nat, t: nat)
    requires Rounds(rounds, nColors) && first < nColors && t <= |rounds|
  {
    var k := StateAt(first, rounds, nColors, t);
    && 0 <= k.changeCnt <= 2
    && forall c: nat {:trigger AskedAt(first, rounds, nColors, t - 1, k.hottest, c)} ::
         && (k.changeCnt >= 1 && k.prevCand == c <==> AskedAt(first, rounds, nColors, t - 1, k.hottest, c))
         && (k.changeCnt >= 2 && k.prevCand == c <==>
               AskedAt(first, rounds, nColors, t - 1, k.hottest, c) && AskedAt(first, rounds, nColors, t - 2, k.hottest, c))
  }

  lemma {:induction false} CounterCounts(first: nat, rounds: seq<Round>, nColors: nat, t: nat)
    requires Rounds(rounds, nColors) && first < nColors && t <= |rounds|
    ensures Counts(first, rounds, nColors, t)
  {
    if t > 0 {
      CounterCounts(first, rounds, nColors, t - 1);
      var k, k' := StateAt(first, rounds, nColors, t - 1), StateAt(first, rounds, nColors, t);
      forall c: nat {:trigger AskedAt(first, rounds, nColors, t - 1, k'.hottest, c)}
        ensures k'.changeCnt >= 1 && k'.prevCand == c <==> AskedAt(first, rounds, nColors, t - 1, k'.hottest, c)
        ensures k'.changeCnt >= 2 && k'.prevCand == c <==>
                  AskedAt(first, rounds, nColors, t - 1, k'.hottest, c) && AskedAt(first, rounds, nColors, t - 2, k'.hottest, c)
      {
        assert k.changeCnt >= 1 && k.prevCand == c <==> AskedAt(first, rounds, nColors, t - 1 - 1, k.hottest, c);
      }
    }
  }

  /**
   The hottest colour changes to `c` in round `t` if and only if rounds t-2, t-1 and t all met the same
   hottest colour and all asked for `c`: on top, and at least one level above it.
   */
  lemma SwitchIff(first: nat, rounds: seq<Round>, nColors: nat, t: nat, c: nat)
    requires Rounds(rounds, nColors) && first < nColors && t < |rounds|
    ensures var h := StateAt(first, rounds, nColors, t).hottest;
            StateAt(first, rounds, nColors, t + 1).hottest == c != h <==>
            && AskedAt(first, rounds, nColors, t, h, c)
            && AskedAt(first, rounds, nColors, t - 1, h, c)
            && AskedAt(first, rounds, nColors, t - 2, h, c)
  {
    CounterCounts(first, rounds, nColors, t);
  }

  lemma {:induction false} StateKept(first: nat, rounds: seq<Round>, nColors: nat, r: Round, t: nat)
    requires Rounds(rounds + [r], nColors) && Rounds(rounds, nColors) && first < nColors && t <= |rounds|
    ensures StateAt(first, rounds + [r], nColors, t) == StateAt(first, rounds, nColors, t)
  {
    if t > 0 {
      StateKept(first, rounds, nColors, r, t - 1);
      assert (rounds + [r])[t - 1] == rounds[t - 1];
    }
  }

  /** The state after one more round is the decision on it. */
  lemma StateNext(first: nat, rounds: seq<Round>, nColors: nat, r: Round)
    requires Rounds(rounds, nColors) && |r.ewma| == nColors && r.cand < nColors && first < nColors
    ensures Rounds(rounds + [r], nColors)
    ensures StateAt(first, rounds + [r], nColors, |rounds| + 1) == Decide(StateAt(first, rounds, nColors, |rounds|), r)
  {
    assert Rounds(rounds + [r], nColors);
    StateKept(first, rounds, nColors, r, |rounds|);
    assert (rounds + [r])[|rounds|] == r;
  }

  /** The top of the sorted table is a colour of greatest heat. */
  ghost predicate OnTop(r: Round) {
    r.cand < |r.ewma| && forall c :: 0 <= c < |r.ewma| ==> r.ewma[c] <= r.ewma[r.cand]
  }

  lemma TopIsHottest(s: seq<ColorHot>, ewma: seq<real>)
    requires Lists(s, ewma) && Descending(s) && s != []
    ensures s[0].hot == ewma[s[0].color] && OnTop(Round(s[0].color, ewma))
  {
    forall c | 0 <= c < |ewma| ensures ewma[c] <= ewma[s[0].color] {
      assert HasColor(s, c);
      var i :| 0 <= i < |s| && s[i].color == c;
    }
  }

  /** The monitor, with what it has written out and, as ghosts, the rounds it has been through. */
  class Monitor {
    const nColors: nat
    const alphaRise: real
    const alphaFall: real
    const ewma: array<real>
    const order: array<nat>
    const lastOrder: array<nat>
    var hottest: nat
    var changeCnt: int
    var prevCand: nat
    var orderFile: seq<nat>
    var hotFile: nat
    ghost var first: nat
    ghost var rounds: seq<Round>

    predicate Shape() {
      && 1 <= nColors <= VCOLOR_MAX_COLORS && ewma.Length == nColors
      && order.Length == VCOLOR_MAX_COLORS && lastOrder.Length == VCOLOR_MAX_COLORS && order != lastOrder
    }

    /** The decision state is that of the rounds so far. */
    ghost predicate Tracked()
      reads this
    {
      && Rounds(rounds, nColors) && first < nColors
      && (forall i :: 0 <= i < |rounds| ==> OnTop(rounds[i]))
      && Control(hottest, changeCnt, prevCand) == StateAt(first, rounds, nColors, |rounds|)
    }

    /** What is written out is the current order, and it is a good one. */
    ghost predicate Published()
      reads this, ewma, order, lastOrder
      requires Shape()
    {
      && hotFile == hottest
      && orderFile == order[..nColors] == lastOrder[..nColors]
      && GoodOrder(orderFile, hottest, ewma[..])
    }

    ghost predicate Valid()
      reads this, ewma, order, lastOrder
    {
      Shape() && Tracked() && Published()
    }

    /** Rebuilds the current order from the sorted table. */
    method Reorder(sorted: seq<ColorHot>)
      requires Shape() && Lists(sorted, ewma[..]) && Descending(sorted) && hottest < nColors
      modifies order
      ensures order[..nColors] == Order(sorted, hottest) && GoodOrder(order[..nColors], hottest, ewma[..])
    {
      OthersCount(sorted, hottest);
      OrderIsGood(sorted, hottest, ewma[..]);
      BuildSortedOrder(sorted, nColors, hottest, order);
    }

    /** Writes the order out and remembers it. */
    method WriteOrder()
      requires Shape()
      modifies this`orderFile, lastOrder
      ensures orderFile == order[..nColors] == lastOrder[..nColors]
    {
      orderFile := order[..nColors];
      for i := 0 to nColors
        invariant orderFile == order[..nColors]
        invariant forall k :: 0 <= k < i ==> lastOrder[k] == order[k]
      {
        lastOrder[i] := order[i];
      }
      assert lastOrder[..nColors] == order[..nColors];
    }

    /** The first round: the top colour is the hottest, and everything is written out. */
    constructor (rates: seq<real>, sorter: Sorter, alphaRise: real, alphaFall: real)
      requires 1 <= |rates| <= 16 && Sorts(sorter)
      ensures Valid() && fresh(ewma) && fresh(order) && fresh(lastOrder)
      ensures nColors == |rates| && this.alphaRise == alphaRise && this.alphaFall == alphaFall
      ensures ewma[..] == rates && rounds == [] && hottest == first && OnTop(Round(hottest, rates))
    {
      hide GoodOrder;
      nColors, this.alphaRise, this.alphaFall := |rates|, alphaRise, alphaFall;
      ewma := new real[|rates|](i requires 0 <= i < |rates| => rates[i]);
      order, lastOrder := new nat[VCOLOR_MAX_COLORS], new nat[VCOLOR_MAX_COLORS];
      var sorted := sorter(0, Table(rates));
      SortedLists(sorted, rates);
      hottest, changeCnt, prevCand := sorted[0].color, 0, sorted[0].color;
      first, rounds := sorted[0].color, [];
      hotFile := sorted[0].color;
      orderFile := [];
      new;
      TopIsHottest(sorted, rates);
      Reorder(sorted);
      WriteOrder();
    }

    method UpdateEwma(rates: seq<real>)
      requires Shape() && |rates| == nColors
      modifies ewma
      ensures forall c :: 0 <= c < nColors ==> ewma[c] == EwmaNext(old(ewma[c]), rates[c], alphaRise, alphaFall)
    {
      for c := 0 to nColors
        invariant forall k :: 0 <= k < c ==> ewma[k] == EwmaNext(old(ewma[k]), rates[k], alphaRise, alphaFall)
        invariant forall k :: c <= k < nColors ==> ewma[k] == old(ewma[k])
      {
        var before := ewma[c];
        var alpha := if rates[c] > before then alphaRise else alphaFall;
        ewma[c] := alpha * before + (1.0 - alpha) * rates[c];
      }
    }

    /** The hysteresis: counts the round, and takes over the candidate at the third one in a row. */
    method Count(cand: nat, candLvl: int, hotLvlNow: int) returns (change: bool)
      requires Shape()
      modifies this`hottest, this`changeCnt, this`prevCand
      ensures var cnt := if !(cand != old(hottest) && candLvl - hotLvlNow >= 1) then 0
                         else if cand == old(prevCand) then old(changeCnt) + 1 else 1;
              && (change <==> cnt >= 3)
              && Control(hottest, changeCnt, prevCand) ==
                 if cnt >= 3 then Control(cand, 0, cand) else Control(old(hottest), cnt, cand)
    {
      if cand != hottest && candLvl - hotLvlNow >= 1 {
        if cand == prevCand {
          changeCnt := changeCnt + 1;
        } else {
          prevCand := cand;
          changeCnt := 1;
        }
      } else {
        changeCnt := 0;
        prevCand := cand;
      }
      change := changeCnt >= 3;
      if change {
        hottest := cand;
        changeCnt := 0;
        prevCand := cand;
      }
    }

    /** Rebuilds the order and writes out what has changed. */
    method Publish(sorted: seq<ColorHot>, change: bool)
      requires Shape() && Lists(sorted, ewma[..]) && Descending(sorted) && hottest < nColors
      requires orderFile == lastOrder[..nColors] && (!change ==> hotFile == hottest)
      modifies this`orderFile, this`hotFile, order, lastOrder
      ensures Published()
    {
      Reorder(sorted);
      if change {
        WriteOrder();
        hotFile := hottest;
      } else if order[..nColors] != lastOrder[..nColors] {
        WriteOrder();
      }
    }

    /** One turn of the monitoring loop.  The order is written out whenever it changed, the colour whenever it switched. */
    method Turn(rates: seq<real>, sorter: Sorter, turn: nat) returns (ghost r: Round)
      requires Valid() && |rates| == nColors && Sorts(sorter)
      modifies this, ewma, order, lastOrder
      ensures Valid() && first == old(first)
      ensures forall c :: 0 <= c < nColors ==> ewma[c] == EwmaNext(old(ewma[c]), rates[c], alphaRise, alphaFall)
      ensures rounds == old(rounds) + [r] && r.ewma == ewma[..]
    {
      hide GoodOrder, Lists, Descending, StateAt, EwmaNext;
      UpdateEwma(rates);
      ghost var heats := ewma[..];
      var sorted := sorter(turn, Table(ewma[..]));
      SortedLists(sorted, heats);
      TopIsHottest(sorted, heats);
      var cand := sorted[0].color;
      r := Round(cand, heats);
      StateNext(first, rounds, nColors, r);
      var change := Count(cand, HotLevel(sorted[0].hot), HotLevel(ewma[hottest]));
      rounds := rounds + [r];
      Publish(sorted, change);
    }
  }

  /** The heats in force at moment `i`: the first scan's, then those of the rounds. */
  function HeatsAt(start: seq<real>, rounds: seq<Round>, i: nat): seq<real>
    requires i <= |rounds|
  {
    if i == 0 then start else rounds[i - 1].ewma
  }

  /** What has been written out at every moment so far: a good order for the colour the decision has in force. */
  ghost predicate Reported(start: seq<real>, nColors: nat, rounds: seq<Round>, hots: seq<nat>, orders: seq<seq<nat>>) {
    && |start| == nColors && Rounds(rounds, nColors) && |hots| == |orders| == |rounds| + 1 && hots[0] < nColors
    && (forall i :: 0 <= i < |rounds| ==> OnTop(rounds[i]))
    && forall i :: 0 <= i < |hots| ==>
         && hots[i] == StateAt(hots[0], rounds, nColors, i).hottest
         && GoodOrder(orders[i], hots[i], HeatsAt(start, rounds, i))
  }

  lemma ReportedGrows(start: seq<real>, nColors: nat, rounds: seq<Round>, hots: seq<nat>, orders: seq<seq<nat>>,
                      r: Round, hot: nat, order: seq<nat>)
    requires Reported(start, nColors, rounds, hots, orders) && |r.ewma| == nColors && OnTop(r) && Rounds(rounds + [r], nColors)
    requires hot == StateAt(hots[0], rounds + [r], nColors, |rounds| + 1).hottest && GoodOrder(order, hot, r.ewma)
    ensures Reported(start, nColors, rounds + [r], hots + [hot], orders + [order])
  {
    var rounds', hots', orders' := rounds + [r], hots + [hot], orders + [order];
    forall i | 0 <= i < |hots'|
      ensures hots'[i] == StateAt(hots'[0], rounds', nColors, i).hottest
      ensures GoodOrder(orders'[i], hots'[i], HeatsAt(start, rounds', i))
    {
      if i < |hots| {
        StateKept(hots[0], rounds, nColors, r, i);
        assert HeatsAt(start, rounds', i) == HeatsAt(start, rounds, i);
      } else {
        assert HeatsAt(start, rounds', i) == r.ewma;
      }
    }
  }

  predicate Scans(scans: seq<seq<real>>, nColors: nat) {
    scans != [] && forall i :: 0 <= i < |scans| ==> |scans[i]| == nColors
  }

  /** The heats of every round are those before it, smoothed with its scan. */
  ghost predicate Smoothed(scans: seq<seq<real>>, nColors: nat, rounds: seq<Round>, alphaRise: real, alphaFall: real)
    requires Scans(scans, nColors)
  {
    && |rounds| < |scans| && Rounds(rounds, nColors)
    && forall k, c {:trigger rounds[k].ewma[c]} :: 0 <= k < |rounds| && 0 <= c < nColors ==>
         rounds[k].ewma[c] == EwmaNext(HeatsAt(scans[0], rounds, k)[c], scans[k + 1][c], alphaRise, alphaFall)
  }

  lemma SmoothedGrows(scans: seq<seq<real>>, nColors: nat, rounds: seq<Round>, r: Round, alphaRise: real, alphaFall: real)
    requires Scans(scans, nColors) && Smoothed(scans, nColors, rounds, alphaRise, alphaFall)
    requires |rounds| + 1 < |scans| && Rounds(rounds + [r], nColors) && |r.ewma| == nColors
    requires forall c :: 0 <= c < nColors ==>
               r.ewma[c] == EwmaNext(HeatsAt(scans[0], rounds, |rounds|)[c], scans[|rounds| + 1][c], alphaRise, alphaFall)
    ensures Smoothed(scans, nColors, rounds + [r], alphaRise, alphaFall)
  {
    var rounds' := rounds + [r];
    forall k, c {:trigger rounds'[k].ewma[c]} | 0 <= k < |rounds'| && 0 <= c < nColors
      ensures rounds'[k].ewma[c] == EwmaNext(HeatsAt(scans[0], rounds', k)[c], scans[k + 1][c], alphaRise, alphaFall)
    {
      assert HeatsAt(scans[0], rounds', k) == HeatsAt(scans[0], rounds, k);
      if k < |rounds| {
        assert rounds'[k] == rounds[k];
      }
    }
  }

  /** The `n` scans after moment `a` all show colour `c` at `rate`. */
  ghost predicate Steady(scans: seq<seq<real>>, nColors: nat, a: nat, n: nat, c: nat, rate: real)
    requires Scans(scans, nColors)
  {
    c < nColors && a + n < |scans| && forall k :: a < k <= a + n ==> scans[k][c] == rate
  }

  /**
   Wherever a colour keeps one rate over `n` rounds, its heat approaches that rate from below by a factor
   `alphaRise` a round and from above by a factor `alphaFall` a round.
   */
  ghost predicate Settles(scans: seq<seq<real>>, nColors: nat, rounds: seq<Round>, alphaRise: real, alphaFall: real)
    requires Scans(scans, nColors) && |rounds| < |scans| && Rounds(rounds, nColors)
  {
    alphaRise >= 0.0 && alphaFall >= 0.0 ==>
      forall a: nat, n: nat, c: nat, rate: real {:trigger Steady(scans, nColors, a, n, c, rate)} ::
        a + n <= |rounds| && Steady(scans, nColors, a, n, c, rate) ==>
        Approached(HeatsAt(scans[0], rounds, a)[c], HeatsAt(scans[0], rounds, a + n)[c], rate, alphaRise, alphaFall, n)
  }

  lemma SmoothedAt(scans: seq<seq<real>>, nColors: nat, rounds: seq<Round>, alphaRise: real, alphaFall: real, k: nat, c: nat)
    requires Scans(scans, nColors) && Smoothed(scans, nColors, rounds, alphaRise, alphaFall) && k < |rounds| && c < nColors
    ensures |HeatsAt(scans[0], rounds, k)| == |HeatsAt(scans[0], rounds, k + 1)| == nColors
    ensures HeatsAt(scans[0], rounds, k + 1)[c] ==
            EwmaNext(HeatsAt(scans[0], rounds, k)[c], scans[k + 1][c], alphaRise, alphaFall)
  {
    hide EwmaNext;
    assert HeatsAt(scans[0], rounds, k + 1)[c] == rounds[k].ewma[c];
  }

  lemma {:induction false} SteadyApproaches(scans: seq<seq<real>>, nColors: nat, rounds: seq<Round>, alphaRise: real, alphaFall: real,
                                            a: nat, n: nat, c: nat, rate: real)
    requires Scans(scans, nColors) && Rounds(rounds, nColors) && Smoothed(scans, nColors, rounds, alphaRise, alphaFall) && a + n <= |rounds|
    requires alphaRise >= 0.0 && alphaFall >= 0.0 && Steady(scans, nColors, a, n, c, rate)
    ensures Approached(HeatsAt(scans[0], rounds, a)[c], HeatsAt(scans[0], rounds, a + n)[c], rate, alphaRise, alphaFall, n)
    decreases n
  {
    hide Approached, EwmaNext, Smoothed;
    if n == 0 {
      ApproachStarts(HeatsAt(scans[0], rounds, a)[c], rate, alphaRise, alphaFall);
    } else {
      SteadyApproaches(scans, nColors, rounds, alphaRise, alphaFall, a, n - 1, c, rate);
      var k := a + n - 1;
      assert scans[k + 1][c] == rate;
      SmoothedAt(scans, nColors, rounds, alphaRise, alphaFall, k, c);
      ApproachNext(HeatsAt(scans[0], rounds, a)[c], HeatsAt(scans[0], rounds, k)[c], rate, alphaRise, alphaFall, n - 1);
    }
  }

  lemma SmoothedSettles(scans: seq<seq<real>>, nColors: nat, rounds: seq<Round>, alphaRise: real, alphaFall: real)
    requires Scans(scans, nColors) && Smoothed(scans, nColors, rounds, alphaRise, alphaFall)
    ensures Settles(scans, nColors, rounds, alphaRise, alphaFall)
  {
    if alphaRise >= 0.0 && alphaFall >= 0.0 {
      forall a: nat, n: nat, c: nat, rate: real {:trigger Steady(scans, nColors, a, n, c, rate)}
        | a + n <= |rounds| && Steady(scans, nColors, a, n, c, rate)
        ensures Approached(HeatsAt(scans[0], rounds, a)[c], HeatsAt(scans[0], rounds, a + n)[c], rate, alphaRise, alphaFall, n)
      {
        SteadyApproaches(scans, nColors, rounds, alphaRise, alphaFall, a, n, c, rate);
      }
    }
  }

  /** The monitor in the middle of a run. */
  ghost predicate Watching(monitor: Monitor, scans: seq<seq<real>>, nColors: nat, rounds: seq<Round>,
                           hots: seq<nat>, orders: seq<seq<nat>>)
    requires Scans(scans, nColors)
    reads monitor, monitor.ewma, monitor.order, monitor.lastOrder
  {
    && monitor.Valid() && monitor.nColors == nColors && monitor.rounds == rounds
    && Reported(scans[0], nColors, rounds, hots, orders) && monitor.first == hots[0]
    && Smoothed(scans, nColors, rounds, monitor.alphaRise, monitor.alphaFall)
    && monitor.ewma[..] == HeatsAt(scans[0], rounds, |rounds|)
  }

  method WatchTurn(monitor: Monitor, scans: seq<seq<real>>, nColors: nat, sorter: Sorter, i: nat,
                   hots0: seq<nat>, orders0: seq<seq<nat>>, ghost rounds0: seq<Round>)
    returns (hots: seq<nat>, orders: seq<seq<nat>>, ghost rounds: seq<Round>)
    requires Scans(scans, nColors) && Sorts(sorter) && |rounds0| == i - 1 && 1 <= i < |scans|
    requires Watching(monitor, scans, nColors, rounds0, hots0, orders0)
    modifies monitor, monitor.ewma, monitor.order, monitor.lastOrder
    ensures |rounds| == i && hots != [] && hots[0] == hots0[0]
    ensures Watching(monitor, scans, nColors, rounds, hots, orders)
  {
    ghost var r := monitor.Turn(scans[i], sorter, i);
    rounds := rounds0 + [r];
    hots, orders := hots0 + [monitor.hotFile], orders0 + [monitor.orderFile];
    assert Reported(scans[0], nColors, rounds, hots, orders) by {
      ReportedGrows(scans[0], nColors, rounds0, hots0, orders0, r, monitor.hotFile, monitor.orderFile);
    }
    assert Smoothed(scans, nColors, rounds, monitor.alphaRise, monitor.alphaFall) by {
      SmoothedGrows(scans, nColors, rounds0, r, monitor.alphaRise, monitor.alphaFall);
    }
  }

  /** A whole run over any scans: what is written out in it, round by round. */
  method Watch(scans: seq<seq<real>>, nColors: nat, sorter: Sorter, alphaRise: real, alphaFall: real)
    returns (hots: seq<nat>, orders: seq<seq<nat>>, ghost rounds: seq<Round>)
    requires 1 <= nColors <= 16 && Scans(scans, nColors) && Sorts(sorter)
    ensures |rounds| == |scans| - 1
    ensures Reported(scans[0], nColors, rounds, hots, orders) && OnTop(Round(hots[0], scans[0]))
    ensures Smoothed(scans, nColors, rounds, alphaRise, alphaFall) && Settles(scans, nColors, rounds, alphaRise, alphaFall)
  {
    var monitor := new Monitor(scans[0], sorter, alphaRise, alphaFall);
    hots, orders := [monitor.hotFile], [monitor.orderFile];
    rounds := [];
    for i := 1 to |scans|
      invariant fresh(monitor) && fresh(monitor.ewma) && fresh(monitor.order) && fresh(monitor.lastOrder)
      invariant |rounds| == i - 1 && monitor.alphaRise == alphaRise && monitor.alphaFall == alphaFall
      invariant Watching(monitor, scans, nColors, rounds, hots, orders)
      invariant hots != [] && OnTop(Round(hots[0], scans[0]))
    {
      hots, orders, rounds := WatchTurn(monitor, scans, nColors, sorter, i, hots, orders, rounds);
    }
    SmoothedSettles(scans, nColors, rounds, alphaRise, alphaFall);
  }
}
