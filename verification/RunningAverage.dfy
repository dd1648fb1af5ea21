/**
 The running average of scx/rust/scx_utils/src/ravg.rs, over exact reals.  The source jumps over any
 number of half-lives with a closed form; the reference runs the clock one unit at a time.
 */
module RunningAverage {
  /** Decayed average of the finished periods, and what the current period has gathered so far. */
  datatype Ravg = Ravg(past: real, cur: real)

  const FULL_SUMS: seq<real> := [
    0.5,
    0.75,
    0.875,
    0.9375,
    0.96875,
    0.984375,
    0.9921875,
    0.99609375,
    0.998046875,
    0.9990234375,
    0.99951171875,
    0.999755859375,
    0.9998779296875,
    0.99993896484375,
    0.999969482421875,
    0.9999847412109375,
    0.99999237060546875,
    0.999996185302734375,
    0.9999980926513671875,
    0.99999904632568359375
  ]

  function Pow2(n: nat): (r: real)
    ensures r >= 1.0
  {
    if n == 0 then 1.0 else 2.0 * Pow2(n - 1)
  }

  /** Division by 2^n, as `n` halvings. */
  function Scale(x: real, n: nat): real
    decreases n
  {
    if n == 0 then x else Scale(x, n - 1) / 2.0
  }

  lemma DivideTwice(x: real, p: real)
    requires p >= 1.0
    ensures x / (2.0 * p) == x / p / 2.0
  {
  }

  lemma {:induction false} DividePow2(x: real, n: nat)
    ensures x / Pow2(n) == Scale(x, n)
    decreases n
  {
    if n > 0 {
      DividePow2(x, n - 1);
      DivideTwice(x, Pow2(n - 1));
    }
  }

  function Norm(dur: nat, halfLife: nat): real
    requires halfLife > 0
  {
    dur as real / halfLife as real
  }

  function Gathered(val: real, dur: nat, halfLife: nat): real
    requires halfLife > 0
  {
    val * Norm(dur, halfLife)
  }

  /** The 32-bit cast of the period count. */
  function AsI32(x: int): int {
    (x + 0x8000_0000) % 0x1_0000_0000 - 0x8000_0000
  }

  function TableIndex(seqDelta: int): (i: nat)
    requires seqDelta >= 2
    ensures i < |FULL_SUMS|
  {
    if seqDelta - 2 < 19 then seqDelta - 2 else 19
  }

  /**
   Decays and folds all the periods that ended at once.  `head` is gathered in what was left of the
   first one, `tail` in what has gone of the last one, and `within` in all the time that passed.
   */
  function FoldAll(val: real, s: Ravg, seqDelta: int, head: real, tail: real, within: real): Ravg {
    if seqDelta > 0 then
      var folded := Scale(s.past, seqDelta) + Scale(s.cur, seqDelta) + Scale(head, seqDelta);
      Ravg(if seqDelta >= 2 then folded + val * FULL_SUMS[TableIndex(seqDelta)] else folded, tail)
    else
      Ravg(s.past, s.cur + within)
  }

  /** The accumulating part of the read. */
  function Accumulate(val: real, valAt: nat, s: Ravg, now: nat, halfLife: nat): Ravg
    requires halfLife > 0 && valAt <= now
  {
    FoldAll(val, s, AsI32(now / halfLife - valAt / halfLife),
            Gathered(val, halfLife - valAt % halfLife, halfLife),
            Gathered(val, now % halfLife, halfLife),
            Gathered(val, now - valAt, halfLife))
  }

  /** The current period counts for the part `gone` of it. */
  function Blend(s: Ravg, gone: real): real {
    s.past * (1.0 - gone / 2.0) + s.cur / 2.0
  }

  function Later(now: nat, valAt: nat): nat {
    if now > valAt then now else valAt
  }

  /** The fixed-point fields of the tracked data as reals. */
  function Unscaled(past: nat, cur: nat, fracBits: nat): Ravg {
    Ravg(past as real / Pow2(fracBits), cur as real / Pow2(fracBits))
  }

  /** `ravg_read`. */
  function Read(val: nat, valAt: nat, past: nat, cur: nat, now: nat, halfLife: nat, fracBits: nat): real
    requires halfLife > 0 && fracBits < 31
  {
    var t := Later(now, valAt);
    Blend(Accumulate(val as real, valAt, Unscaled(past, cur, fracBits), t, halfLife), Norm(t % halfLife, halfLife))
  }

  // ---------- the reference: one unit of time after the other ----------

  /** The average at a moment `offset` units into its period. */
  datatype Clock = Clock(s: Ravg, offset: nat)

  /** One unit of time: its `share` of a full period is gathered; a period that ends is averaged into the past. */
  function Tick(share: real, c: Clock, halfLife: nat): Clock {
    var cur := c.s.cur + share;
    if c.offset + 1 == halfLife then Clock(Ravg((c.s.past + cur) / 2.0, 0.0), 0)
    else Clock(Ravg(c.s.past, cur), c.offset + 1)
  }

  function Run(share: real, c: Clock, halfLife: nat, steps: nat): Clock
    decreases steps
  {
    if steps == 0 then c else Tick(share, Run(share, c, halfLife, steps - 1), halfLife)
  }

  /** Running on from where a run stopped. */
  lemma {:induction false} RunComposes(share: real, c: Clock, halfLife: nat, a: nat, b: nat)
    ensures Run(share, c, halfLife, a + b) == Run(share, Run(share, c, halfLife, a), halfLife, b)
    decreases b
  {
    if b > 0 { RunComposes(share, c, halfLife, a, b - 1); }
  }

  /** Within one period only the current part grows. */
  lemma {:induction false} RunWithin(share: real, c: Clock, halfLife: nat, steps: nat)
    requires c.offset + steps < halfLife
    ensures Run(share, c, halfLife, steps) == Clock(Ravg(c.s.past, c.s.cur + steps as real * share), c.offset + steps)
    decreases steps
  {
    if steps > 0 { RunWithin(share, c, halfLife, steps - 1); }
  }

  /** What a period's end makes of the past: the rest of the period is gathered and averaged in. */
  function Ended(share: real, c: Clock, halfLife: nat): real
    requires c.offset < halfLife
  {
    (c.s.past + c.s.cur + (halfLife - c.offset) as real * share) / 2.0
  }

  lemma RunToEnd(share: real, c: Clock, halfLife: nat)
    requires c.offset < halfLife
    ensures Run(share, c, halfLife, halfLife - c.offset) == Clock(Ravg(Ended(share, c, halfLife), 0.0), 0)
  {
    RunWithin(share, c, halfLife, halfLife - c.offset - 1);
  }

  /** The past after `n` more periods that each gathered `full`. */
  function FoldPeriods(full: real, past: real, n: nat): real
    decreases n
  {
    if n == 0 then past else FoldPeriods(full, (past + full) / 2.0, n - 1)
  }

  function Periods(halfLife: nat, n: nat): nat {
    if n == 0 then 0 else halfLife + Periods(halfLife, n - 1)
  }

  lemma {:induction false} PeriodsAre(halfLife: nat, n: nat)
    ensures Periods(halfLife, n) == n * halfLife
  {
    if n > 0 { PeriodsAre(halfLife, n - 1); }
  }

  /** A run over `ends` period ends, into the last period by `offset`, is a fold of one half-life at a time. */
  lemma {:induction false} RunIsFold(share: real, full: real, c: Clock, halfLife: nat, steps: nat, ends: nat, offset: nat)
    requires c.offset < halfLife && offset < halfLife && ends >= 1 && full == halfLife as real * share
    requires c.offset + steps == Periods(halfLife, ends) + offset
    ensures Run(share, c, halfLife, steps) ==
            Clock(Ravg(FoldPeriods(full, Ended(share, c, halfLife), ends - 1), offset as real * share), offset)
    decreases ends
  {
    var first := halfLife - c.offset;
    var rest := steps - first;
    var next := Clock(Ravg(Ended(share, c, halfLife), 0.0), 0);
    assert Run(share, c, halfLife, steps) == Run(share, next, halfLife, rest) by {
      RunComposes(share, c, halfLife, first, rest);
      RunToEnd(share, c, halfLife);
    }
    if ends == 1 {
      assert rest == offset;
      RunWithin(share, next, halfLife, offset);
    } else {
      RunIsFold(share, full, next, halfLife, rest, ends - 1, offset);
      assert Ended(share, next, halfLife) == (Ended(share, c, halfLife) + full) / 2.0;
    }
  }

  // ---------- repeated halving ----------

  lemma {:induction false} ScaleAdds(x: real, y: real, n: nat)
    ensures Scale(x + y, n) == Scale(x, n) + Scale(y, n) && Scale(x - y, n) == Scale(x, n) - Scale(y, n)
    decreases n
  {
    if n > 0 { ScaleAdds(x, y, n - 1); }
  }

  lemma {:induction false} ScaleHalf(x: real, n: nat)
    ensures Scale(x / 2.0, n) == Scale(x, n + 1)
    decreases n
  {
    if n > 0 { ScaleHalf(x, n - 1); }
  }

  lemma {:induction false} ScaleFalls(x: real, m: nat, n: nat)
    requires x >= 0.0 && m <= n
    ensures 0.0 <= Scale(x, n) <= Scale(x, m)
    ensures x > 0.0 ==> Scale(x, n) > 0.0
    decreases n
  {
    if m < n {
      ScaleFalls(x, m, n - 1);
    } else if n > 0 {
      ScaleFalls(x, n - 1, n - 1);
    }
  }

  lemma {:induction false} FoldIsClosed(full: real, past: real, n: nat)
    ensures FoldPeriods(full, past, n) == full + Scale(past - full, n)
    decreases n
  {
    if n > 0 {
      var mid := (past + full) / 2.0;
      FoldIsClosed(full, mid, n - 1);
      assert mid - full == (past - full) / 2.0;
      ScaleHalf(past - full, n - 1);
    }
  }

  lemma TableStep(i: nat)
    requires 0 < i < 20
    ensures FULL_SUMS[i] == (FULL_SUMS[i - 1] + 1.0) / 2.0
  {
  }

  lemma AverageTimes(val: real, a: real, b: real)
    requires b == (a + 1.0) / 2.0
    ensures val * b == (val * a + val) / 2.0
  {
  }

  /** The table holds the decayed sum of `i + 1` full periods. */
  lemma {:induction false} TableTimes(val: real, i: nat)
    requires i < 20
    ensures val * FULL_SUMS[i] == val - Scale(val, i + 1)
    decreases i
  {
    if i == 0 {
      assert Scale(val, 1) == Scale(val, 0) / 2.0;
    } else {
      TableTimes(val, i - 1);
      TableStep(i);
      AverageTimes(val, FULL_SUMS[i - 1], FULL_SUMS[i]);
    }
  }

  // ---------- the closed form against the reference ----------

  /** The clock at the moment `valAt` at which the fields were written. */
  function ClockAt(s: Ravg, valAt: nat, halfLife: nat): Clock
    requires halfLife > 0
  {
    Clock(s, valAt % halfLife)
  }

  /** The reference clock at `now`. */
  function ExactClock(val: real, valAt: nat, s: Ravg, now: nat, halfLife: nat): Clock
    requires halfLife > 0 && valAt <= now
  {
    Run(val / halfLife as real, ClockAt(s, valAt, halfLife), halfLife, now - valAt)
  }

  /** The average at `now` as the reference has it. */
  function Exact(val: real, valAt: nat, s: Ravg, now: nat, halfLife: nat): Ravg
    requires halfLife > 0 && valAt <= now
  {
    ExactClock(val, valAt, s, now, halfLife).s
  }

  /** Period ends between two moments. */
  function Ends(valAt: nat, now: nat, halfLife: nat): int
    requires halfLife > 0
  {
    now / halfLife - valAt / halfLife
  }

  lemma DivMod(x: nat, m: nat)
    requires m > 0
    ensures x == (x / m) * m + x % m && x % m < m
  {
  }

  lemma ProductAtLeast(k: int, m: nat)
    requires k >= 1
    ensures k * m >= m
  {
  }

  lemma SpanSplits(x: nat, y: nat, a: int, b: int, ra: nat, rb: nat, m: nat)
    requires x == a * m + ra && y == b * m + rb && ra < m && rb < m && x <= y
    ensures a <= b && ra + (y - x) == (b - a) * m + rb
  {
    assert (b - a) * m == b * m - a * m;
    if a > b {
      ProductAtLeast(a - b, m);
    }
  }

  lemma TimeSplits(valAt: nat, now: nat, halfLife: nat)
    requires halfLife > 0 && valAt <= now
    ensures Ends(valAt, now, halfLife) >= 0
    ensures valAt % halfLife + (now - valAt) == Ends(valAt, now, halfLife) * halfLife + now % halfLife
  {
    DivMod(valAt, halfLife);
    DivMod(now, halfLife);
    SpanSplits(valAt, now, valAt / halfLife, now / halfLife, valAt % halfLife, now % halfLife, halfLife);
  }

  lemma ShareTimes(val: real, dur: nat, halfLife: nat)
    requires halfLife > 0
    ensures dur as real * (val / halfLife as real) == Gathered(val, dur, halfLife)
  {
  }

  lemma WholeShare(val: real, halfLife: nat)
    requires halfLife > 0
    ensures halfLife as real * (val / halfLife as real) == val
  {
  }

  /** The past after some period ends: the distance to `val` is halved at every one. */
  function Settled(val: real, gathered: real, ends: nat): real
    requires ends >= 1
  {
    val + Scale(gathered / 2.0 - val, ends - 1)
  }

  lemma ExactRun(val: real, valAt: nat, s: Ravg, now: nat, halfLife: nat, ends: nat)
    requires halfLife > 0 && valAt <= now && ends == Ends(valAt, now, halfLife) && ends >= 1
    ensures var share, c := val / halfLife as real, ClockAt(s, valAt, halfLife);
            ExactClock(val, valAt, s, now, halfLife) ==
            Clock(Ravg(FoldPeriods(val, Ended(share, c, halfLife), ends - 1), (now % halfLife) as real * share), now % halfLife)
  {
    var share, c := val / halfLife as real, ClockAt(s, valAt, halfLife);
    assert c.offset + (now - valAt) == Periods(halfLife, ends) + now % halfLife by {
      TimeSplits(valAt, now, halfLife);
      PeriodsAre(halfLife, ends);
    }
    assert val == halfLife as real * share by { WholeShare(val, halfLife); }
    RunIsFold(share, val, c, halfLife, now - valAt, ends, now % halfLife);
  }

  /** The reference after some period ends, in closed form. */
  lemma ExactAcross(val: real, valAt: nat, s: Ravg, now: nat, halfLife: nat, ends: nat)
    requires halfLife > 0 && valAt <= now && ends == Ends(valAt, now, halfLife) && ends >= 1
    ensures Exact(val, valAt, s, now, halfLife) ==
            Ravg(Settled(val, s.past + s.cur + Gathered(val, halfLife - valAt % halfLife, halfLife), ends),
                 Gathered(val, now % halfLife, halfLife))
  {
    var share, c := val / halfLife as real, ClockAt(s, valAt, halfLife);
    ExactRun(val, valAt, s, now, halfLife, ends);
    ShareTimes(val, now % halfLife, halfLife);
    ShareTimes(val, halfLife - valAt % halfLife, halfLife);
    FoldIsClosed(val, Ended(share, c, halfLife), ends - 1);
  }

  lemma ExactWithin(val: real, valAt: nat, s: Ravg, now: nat, halfLife: nat)
    requires halfLife > 0 && valAt <= now && Ends(valAt, now, halfLife) == 0
    ensures ExactClock(val, valAt, s, now, halfLife) ==
            Clock(Ravg(s.past, s.cur + Gathered(val, now - valAt, halfLife)), now % halfLife)
  {
    TimeSplits(valAt, now, halfLife);
    RunWithin(val / halfLife as real, ClockAt(s, valAt, halfLife), halfLife, now - valAt);
    ShareTimes(val, now - valAt, halfLife);
  }

  lemma ExactOffset(val: real, valAt: nat, s: Ravg, now: nat, halfLife: nat)
    requires halfLife > 0 && valAt <= now
    ensures ExactClock(val, valAt, s, now, halfLife).offset == now % halfLife
  {
    TimeSplits(valAt, now, halfLife);
    if Ends(valAt, now, halfLife) == 0 {
      ExactWithin(val, valAt, s, now, halfLife);
    } else {
      ExactRun(val, valAt, s, now, halfLife, Ends(valAt, now, halfLife));
    }
  }

  /** Saving the average on the way and going on from there changes nothing. */
  lemma ExactComposes(val: real, valAt: nat, s: Ravg, mid: nat, now: nat, halfLife: nat)
    requires halfLife > 0 && valAt <= mid <= now
    ensures Exact(val, mid, Exact(val, valAt, s, mid, halfLife), now, halfLife) == Exact(val, valAt, s, now, halfLife)
  {
    ExactOffset(val, valAt, s, mid, halfLife);
    RunComposes(val / halfLife as real, ClockAt(s, valAt, halfLife), halfLife, mid - valAt, now - mid);
  }

  /** What the table leaves out: nothing up to 21 period ends, and less than `val` times 2^-20 beyond. */
  function Shortfall(val: real, ends: int): real {
    if ends <= 21 then 0.0 else Scale(val, 20) - Scale(val, ends - 1)
  }

  lemma PowTwenty()
    ensures Pow2(20) == 1048576.0
  {
    assert Pow2(2) == 4.0;
    assert Pow2(4) == 16.0;
    assert Pow2(6) == 64.0;
    assert Pow2(8) == 256.0;
    assert Pow2(10) == 1024.0;
    assert Pow2(12) == 4096.0;
    assert Pow2(14) == 16384.0;
    assert Pow2(16) == 65536.0;
    assert Pow2(18) == 262144.0;
  }

  lemma ShortfallIsSmall(val: real, ends: int)
    requires val >= 0.0
    ensures 0.0 <= Shortfall(val, ends) <= val / 1048576.0
    ensures val > 0.0 ==> Shortfall(val, ends) < val / 1048576.0
  {
    ScaleFalls(val, 20, if ends > 21 then ends - 1 else 20);
    DividePow2(val, 20);
    PowTwenty();
  }

  lemma SettledIs(val: real, a: real, b: real, c: real, ends: nat)
    requires ends >= 1
    ensures Settled(val, a + b + c, ends) == Scale(a, ends) + Scale(b, ends) + Scale(c, ends) + val - Scale(val, ends - 1)
  {
    ScaleAdds(a, b, ends);
    ScaleAdds(a + b, c, ends);
    ScaleHalf(a + b + c, ends - 1);
    ScaleAdds((a + b + c) / 2.0, val, ends - 1);
  }

  lemma FoldAllSettles(val: real, s: Ravg, ends: int, head: real, tail: real, within: real)
    requires ends >= 1
    ensures FoldAll(val, s, ends, head, tail, within) ==
            Ravg(Settled(val, s.past + s.cur + head, ends) - Shortfall(val, ends), tail)
  {
    assert Scale(val, 0) == val;
    hide Scale, Settled;
    SettledIs(val, s.past, s.cur, head, ends);
    if ends >= 2 { TableTimes(val, TableIndex(ends)); }
  }

  lemma AcrossIsExact(val: real, valAt: nat, s: Ravg, now: nat, halfLife: nat, ends: nat)
    requires halfLife > 0 && valAt <= now && ends == Ends(valAt, now, halfLife) && 1 <= ends < 0x8000_0000
    ensures var r := Exact(val, valAt, s, now, halfLife);
            Accumulate(val, valAt, s, now, halfLife) == Ravg(r.past - Shortfall(val, ends), r.cur)
  {
    assert AsI32(ends) == ends;
    ExactAcross(val, valAt, s, now, halfLife, ends);
    FoldAllSettles(val, s, ends, Gathered(val, halfLife - valAt % halfLife, halfLife),
                   Gathered(val, now % halfLife, halfLife), Gathered(val, now - valAt, halfLife));
  }

  /**
   The closed form is the reference, up to what the table leaves out: exactly for at most 21 period
   ends, and short of it by less than `val` times 2^-20 for more.
   */
  lemma FitsAccumulateIsExact(val: real, valAt: nat, s: Ravg, now: nat, halfLife: nat)
    requires halfLife > 0 && valAt <= now && Ends(valAt, now, halfLife) < 0x8000_0000
    ensures var r := Exact(val, valAt, s, now, halfLife);
            Accumulate(val, valAt, s, now, halfLife) == Ravg(r.past - Shortfall(val, Ends(valAt, now, halfLife)), r.cur)
  {
    assert Ends(valAt, now, halfLife) >= 0 by { TimeSplits(valAt, now, halfLife); }
    if Ends(valAt, now, halfLife) == 0 {
      ExactWithin(val, valAt, s, now, halfLife);
    } else {
      AcrossIsExact(val, valAt, s, now, halfLife, Ends(valAt, now, halfLife));
    }
  }

  // ---------- bounds ----------

  /** Nothing gathered exceeds a constant signal whose share per unit is `top`. */
  ghost predicate Bounded(c: Clock, top: real, halfLife: nat) {
    && c.offset < halfLife
    && 0.0 <= c.s.past <= halfLife as real * top
    && 0.0 <= c.s.cur <= c.offset as real * top
  }

  lemma TickKeepsBounded(share: real, top: real, c: Clock, halfLife: nat)
    requires 0.0 <= share <= top && Bounded(c, top, halfLife)
    ensures Bounded(Tick(share, c, halfLife), top, halfLife)
  {
    assert (c.offset + 1) as real * top == c.offset as real * top + top;
  }

  lemma {:induction false} RunKeepsBounded(share: real, top: real, c: Clock, halfLife: nat, steps: nat)
    requires 0.0 <= share <= top && Bounded(c, top, halfLife)
    ensures Bounded(Run(share, c, halfLife, steps), top, halfLife)
    decreases steps
  {
    if steps > 0 {
      RunKeepsBounded(share, top, c, halfLife, steps - 1);
      TickKeepsBounded(share, top, Run(share, c, halfLife, steps - 1), halfLife);
    }
  }

  lemma FoldAllNonNegative(val: real, s: Ravg, seqDelta: int, head: real, tail: real, within: real)
    requires val >= 0.0 && s.past >= 0.0 && s.cur >= 0.0 && head >= 0.0
    ensures FoldAll(val, s, seqDelta, head, tail, within).past >= 0.0
  {
    if seqDelta > 0 {
      ScaleFalls(s.past, 0, seqDelta);
      ScaleFalls(s.cur, 0, seqDelta);
      ScaleFalls(head, 0, seqDelta);
      if seqDelta >= 2 {
        TableTimes(val, TableIndex(seqDelta));
        ScaleFalls(val, 0, TableIndex(seqDelta) + 1);
      }
    }
  }

  lemma NormRange(dur: nat, halfLife: nat)
    requires halfLife > 0
    ensures 0.0 <= Norm(dur, halfLife) && (dur < halfLife ==> Norm(dur, halfLife) < 1.0)
  {
  }

  lemma GatheredNonNegative(val: real, dur: nat, halfLife: nat)
    requires val >= 0.0 && halfLife > 0
    ensures Gathered(val, dur, halfLife) >= 0.0
  {
    NormRange(dur, halfLife);
  }

  lemma ProductBetween(a: real, b: real, g: real)
    requires 0.0 <= a <= b && g >= 0.0
    ensures 0.0 <= a * g <= b * g
  {
  }

  lemma BlendBetween(s: Ravg, gone: real, v: real)
    requires 0.0 <= gone <= 1.0 && 0.0 <= s.past <= v && 0.0 <= s.cur <= v * gone
    ensures 0.0 <= Blend(s, gone) <= v
  {
    var g := 1.0 - gone / 2.0;
    ProductBetween(s.past, v, g);
    assert v * g == v - v * gone / 2.0;
    assert Blend(s, gone) == s.past * g + s.cur / 2.0;
  }

  lemma ProductOfDifference(a: real, b: real, g: real)
    ensures (a - b) * g == a * g - b * g
  {
  }

  lemma ProductShrinks(a: real, g: real)
    requires a >= 0.0 && 0.0 <= g <= 1.0
    ensures 0.0 <= a * g <= a
  {
    assert a - a * g == a * (1.0 - g);
  }

  lemma BlendShort(s: Ravg, short: real, gone: real)
    requires 0.0 <= gone <= 1.0 && 0.0 <= short
    ensures Blend(s, gone) - short <= Blend(Ravg(s.past - short, s.cur), gone) <= Blend(s, gone)
  {
    var g := 1.0 - gone / 2.0;
    ProductOfDifference(s.past, short, g);
    ProductShrinks(short, g);
  }

  // ---------- main results ----------

  /** The average the reference reads. */
  function ExactRead(val: nat, valAt: nat, past: nat, cur: nat, now: nat, halfLife: nat, fracBits: nat): real
    requires halfLife > 0
  {
    var t := Later(now, valAt);
    Blend(Exact(val as real, valAt, Unscaled(past, cur, fracBits), t, halfLife), Norm(t % halfLife, halfLife))
  }

  lemma BlendIsExact(val: real, valAt: nat, s: Ravg, now: nat, halfLife: nat, gone: real)
    requires halfLife > 0 && valAt <= now && Ends(valAt, now, halfLife) < 0x8000_0000 && val >= 0.0
    requires gone == Norm(now % halfLife, halfLife)
    ensures var r, x := Blend(Accumulate(val, valAt, s, now, halfLife), gone), Blend(Exact(val, valAt, s, now, halfLife), gone);
            && (Ends(valAt, now, halfLife) <= 21 ==> r == x)
            && x - val / 1048576.0 <= r <= x
            && (val > 0.0 ==> x - val / 1048576.0 < r)
  {
    var short, x := Shortfall(val, Ends(valAt, now, halfLife)), Exact(val, valAt, s, now, halfLife);
    assert Accumulate(val, valAt, s, now, halfLife) == Ravg(x.past - short, x.cur) by {
      FitsAccumulateIsExact(val, valAt, s, now, halfLife);
    }
    ShortfallIsSmall(val, Ends(valAt, now, halfLife));
    assert 0.0 <= gone <= 1.0 by { NormRange(now % halfLife, halfLife); }
    BlendShort(x, short, gone);
  }

  /** Reading is exact for up to 21 elapsed half-lives, and short by less than `val` times 2^-20 beyond. */
  lemma ReadIsExact(val: nat, valAt: nat, past: nat, cur: nat, now: nat, halfLife: nat, fracBits: nat)
    requires halfLife > 0 && fracBits < 31 && Ends(valAt, Later(now, valAt), halfLife) < 0x8000_0000
    ensures var r, x := Read(val, valAt, past, cur, now, halfLife, fracBits), ExactRead(val, valAt, past, cur, now, halfLife, fracBits);
            && (Ends(valAt, Later(now, valAt), halfLife) <= 21 ==> r == x)
            && x - val as real / 1048576.0 <= r <= x
            && (val > 0 ==> x - val as real / 1048576.0 < r)
  {
    BlendIsExact(val as real, valAt, Unscaled(past, cur, fracBits), Later(now, valAt), halfLife,
                 Norm(Later(now, valAt) % halfLife, halfLife));
  }

  lemma UnscaledNonNegative(past: nat, cur: nat, fracBits: nat)
    ensures Unscaled(past, cur, fracBits).past >= 0.0 && Unscaled(past, cur, fracBits).cur >= 0.0
  {
  }

  lemma AccumulateNonNegative(val: real, valAt: nat, s: Ravg, now: nat, halfLife: nat)
    requires halfLife > 0 && valAt <= now && val >= 0.0 && s.past >= 0.0 && s.cur >= 0.0
    ensures Accumulate(val, valAt, s, now, halfLife).past >= 0.0
  {
    GatheredNonNegative(val, halfLife - valAt % halfLife, halfLife);
    FoldAllNonNegative(val, s, AsI32(now / halfLife - valAt / halfLife),
                       Gathered(val, halfLife - valAt % halfLife, halfLife),
                       Gathered(val, now % halfLife, halfLife),
                       Gathered(val, now - valAt, halfLife));
  }

  lemma SharesOrdered(val: real, v: real, halfLife: nat)
    requires halfLife > 0 && 0.0 <= val <= v
    ensures 0.0 <= val / halfLife as real <= v / halfLife as real
  {
  }

  lemma BoundedMeans(c: Clock, v: real, halfLife: nat)
    requires halfLife > 0 && c.offset < halfLife
    ensures Bounded(c, v / halfLife as real, halfLife) <==>
            0.0 <= c.s.past <= v && 0.0 <= c.s.cur <= Gathered(v, c.offset, halfLife)
  {
    WholeShare(v, halfLife);
    ShareTimes(v, c.offset, halfLife);
  }

  lemma ExactIsBounded(val: real, valAt: nat, s: Ravg, now: nat, halfLife: nat, v: real)
    requires halfLife > 0 && valAt <= now && 0.0 <= val <= v && 0.0 <= s.past <= v
    requires 0.0 <= s.cur <= Gathered(v, valAt % halfLife, halfLife)
    ensures var r := Exact(val, valAt, s, now, halfLife); 0.0 <= r.past <= v && 0.0 <= r.cur <= Gathered(v, now % halfLife, halfLife)
  {
    BoundedMeans(ClockAt(s, valAt, halfLife), v, halfLife);
    SharesOrdered(val, v, halfLife);
    RunKeepsBounded(val / halfLife as real, v / halfLife as real, ClockAt(s, valAt, halfLife), halfLife, now - valAt);
    ExactOffset(val, valAt, s, now, halfLife);
    BoundedMeans(ExactClock(val, valAt, s, now, halfLife), v, halfLife);
  }

  lemma AccumulateIsBounded(val: real, valAt: nat, s: Ravg, now: nat, halfLife: nat, v: real)
    requires halfLife > 0 && valAt <= now && Ends(valAt, now, halfLife) < 0x8000_0000
    requires 0.0 <= val <= v && 0.0 <= s.past <= v && 0.0 <= s.cur <= Gathered(v, valAt % halfLife, halfLife)
    ensures var r := Accumulate(val, valAt, s, now, halfLife);
            0.0 <= r.past <= v && 0.0 <= r.cur <= Gathered(v, now % halfLife, halfLife)
  {
    var x, short := Exact(val, valAt, s, now, halfLife), Shortfall(val, Ends(valAt, now, halfLife));
    assert Accumulate(val, valAt, s, now, halfLife) == Ravg(x.past - short, x.cur) by {
      FitsAccumulateIsExact(val, valAt, s, now, halfLife);
    }
    assert Accumulate(val, valAt, s, now, halfLife).past >= 0.0 by { AccumulateNonNegative(val, valAt, s, now, halfLife); }
    assert short >= 0.0 by { ShortfallIsSmall(val, Ends(valAt, now, halfLife)); }
    ExactIsBounded(val, valAt, s, now, halfLife, v);
  }

  lemma BlendIsBounded(r: Ravg, dur: nat, halfLife: nat, v: real)
    requires dur < halfLife && 0.0 <= r.past <= v && 0.0 <= r.cur <= Gathered(v, dur, halfLife)
    ensures 0.0 <= Blend(r, Norm(dur, halfLife)) <= v
  {
    NormRange(dur, halfLife);
    BlendBetween(r, Norm(dur, halfLife), v);
  }

  lemma FitsReadIsBounded(val: nat, valAt: nat, past: nat, cur: nat, now: nat, halfLife: nat, fracBits: nat, v: real)
    requires halfLife > 0 && fracBits < 31 && Ends(valAt, Later(now, valAt), halfLife) < 0x8000_0000
    requires val as real <= v && Unscaled(past, cur, fracBits).past <= v
    requires Unscaled(past, cur, fracBits).cur <= Gathered(v, valAt % halfLife, halfLife)
    ensures 0.0 <= Read(val, valAt, past, cur, now, halfLife, fracBits) <= v
  {
    var t, s := Later(now, valAt), Unscaled(past, cur, fracBits);
    UnscaledNonNegative(past, cur, fracBits);
    AccumulateIsBounded(val as real, valAt, s, t, halfLife, v);
    BlendIsBounded(Accumulate(val as real, valAt, s, t, halfLife), t % halfLife, halfLife, v);
  }

  // ---------- when the 32-bit period count wraps ----------

  lemma CastKeepsTurns(x: int)
    ensures -0x8000_0000 <= AsI32(x) < 0x8000_0000 && (x - AsI32(x)) % 0x1_0000_0000 == 0
    ensures x >= 0 ==> AsI32(x) <= x
    ensures x >= 0 ==> (AsI32(x) == x <==> x < 0x8000_0000)
  {
  }

  lemma QuotientIs(x: nat, m: nat, q: int, r: nat)
    requires m > 0 && x == q * m + r && r < m
    ensures x / m == q && x % m == r
  {
    DivMod(x, m);
    var d := x / m - q;
    assert d * m == (x / m) * m - q * m;
    assert (-d) * m == -(d * m);
    if d >= 1 { ProductAtLeast(d, m); }
    if d <= -1 { ProductAtLeast(-d, m); }
  }

  lemma BackByPeriods(now: nat, halfLife: nat, n: nat)
    requires halfLife > 0 && n <= now / halfLife
    ensures n * halfLife <= now
    ensures (now - n * halfLife) / halfLife == now / halfLife - n && (now - n * halfLife) % halfLife == now % halfLife
  {
    DivMod(now, halfLife);
    var q, r := now / halfLife, now % halfLife;
    assert (q - n) * halfLife == q * halfLife - n * halfLife;
    assert (q - n) * halfLife >= 0;
    QuotientIs(now - n * halfLife, halfLife, q - n, r);
  }

  /** The moment that shows the same period count as `now`: whole turns of 2^32 half-lives are forgotten. */
  function Seen(valAt: nat, now: nat, halfLife: nat): int
    requires halfLife > 0
  {
    now - (Ends(valAt, now, halfLife) - AsI32(Ends(valAt, now, halfLife))) * halfLife
  }

  lemma SeenIsEarlier(valAt: nat, now: nat, halfLife: nat)
    requires halfLife > 0 && valAt <= now && AsI32(Ends(valAt, now, halfLife)) > 0
    ensures var t := Seen(valAt, now, halfLife);
            && valAt <= t <= now && t % halfLife == now % halfLife
            && Ends(valAt, t, halfLife) == AsI32(Ends(valAt, now, halfLife))
  {
    var ends := Ends(valAt, now, halfLife);
    TimeSplits(valAt, now, halfLife);
    CastKeepsTurns(ends);
    BackByPeriods(now, halfLife, ends - AsI32(ends));
    var t := Seen(valAt, now, halfLife);
    DivMod(valAt, halfLife);
    DivMod(t, halfLife);
    ProductAtLeast(t / halfLife - valAt / halfLife, halfLife);
    assert (t / halfLife - valAt / halfLife) * halfLife == (t / halfLife) * halfLife - (valAt / halfLife) * halfLife;
  }

  /** Where periods have ended, only what was gathered in the first and the last one counts. */
  lemma FoldAllIgnoresWithin(val: real, s: Ravg, ends: int, head: real, tail: real, within: real, within': real)
    requires ends > 0
    ensures FoldAll(val, s, ends, head, tail, within) == FoldAll(val, s, ends, head, tail, within')
  {
  }

  lemma AccumulateForgetsTurns(val: real, valAt: nat, s: Ravg, now: nat, halfLife: nat, t: nat)
    requires halfLife > 0 && valAt <= now && AsI32(Ends(valAt, now, halfLife)) > 0 && t == Seen(valAt, now, halfLife) >= valAt
    ensures Accumulate(val, valAt, s, now, halfLife) == Accumulate(val, valAt, s, t, halfLife)
    ensures t % halfLife == now % halfLife
  {
    SeenIsEarlier(valAt, now, halfLife);
    CastKeepsTurns(Ends(valAt, now, halfLife));
    CastKeepsTurns(AsI32(Ends(valAt, now, halfLife)));
    FoldAllIgnoresWithin(val, s, AsI32(Ends(valAt, now, halfLife)), Gathered(val, halfLife - valAt % halfLife, halfLife),
                         Gathered(val, now % halfLife, halfLife), Gathered(val, now - valAt, halfLife), Gathered(val, t - valAt, halfLife));
  }

  /**
   The closed form at every moment: where the count is positive it is the reference at the moment seen,
   up to what the table leaves out; where the count is lost nothing decays.
   */
  lemma AccumulateIsExact(val: real, valAt: nat, s: Ravg, now: nat, halfLife: nat)
    requires halfLife > 0 && valAt <= now
    ensures var ends, t := Ends(valAt, now, halfLife), Seen(valAt, now, halfLife);
            if ends == 0 || AsI32(ends) > 0 then
              && t >= valAt
              && var r := Exact(val, valAt, s, t, halfLife);
                 Accumulate(val, valAt, s, now, halfLife) == Ravg(r.past - Shortfall(val, AsI32(ends)), r.cur)
            else Accumulate(val, valAt, s, now, halfLife) == Ravg(s.past, s.cur + Gathered(val, now - valAt, halfLife))
  {
    var ends, t := Ends(valAt, now, halfLife), Seen(valAt, now, halfLife);
    CastKeepsTurns(ends);
    if ends == 0 {
      FitsAccumulateIsExact(val, valAt, s, now, halfLife);
    } else if AsI32(ends) > 0 {
      SeenIsEarlier(valAt, now, halfLife);
      AccumulateForgetsTurns(val, valAt, s, now, halfLife, t);
      FitsAccumulateIsExact(val, valAt, s, t, halfLife);
    }
  }

  /** A positive count is taken at face value: the read is the one at the earlier moment. */
  lemma ReadForgetsTurns(val: nat, valAt: nat, past: nat, cur: nat, now: nat, halfLife: nat, fracBits: nat)
    requires halfLife > 0 && fracBits < 31 && AsI32(Ends(valAt, Later(now, valAt), halfLife)) > 0
    ensures var t := Seen(valAt, Later(now, valAt), halfLife);
            t >= valAt && Read(val, valAt, past, cur, now, halfLife, fracBits) == Read(val, valAt, past, cur, t, halfLife, fracBits)
  {
    var now' := Later(now, valAt);
    SeenIsEarlier(valAt, now', halfLife);
    AccumulateForgetsTurns(val as real, valAt, Unscaled(past, cur, fracBits), now', halfLife, Seen(valAt, now', halfLife));
  }

  /** Neither the signal nor the average ever exceeded `v`. */
  predicate NeverAbove(val: nat, valAt: nat, past: nat, cur: nat, halfLife: nat, fracBits: nat, v: real)
    requires halfLife > 0
  {
    && val as real <= v && Unscaled(past, cur, fracBits).past <= v
    && Unscaled(past, cur, fracBits).cur <= Gathered(v, valAt % halfLife, halfLife)
  }

  /** The count the read works with is not zero or negative where periods have ended. */
  predicate CountHolds(valAt: nat, now: nat, halfLife: nat)
    requires halfLife > 0
  {
    var ends := Ends(valAt, Later(now, valAt), halfLife);
    ends == 0 || AsI32(ends) > 0
  }

  /** A signal and an average that never exceeded `v` read as between 0 and `v`. */
  lemma ReadIsBounded(val: nat, valAt: nat, past: nat, cur: nat, now: nat, halfLife: nat, fracBits: nat, v: real)
    requires halfLife > 0 && fracBits < 31 && CountHolds(valAt, now, halfLife)
    requires NeverAbove(val, valAt, past, cur, halfLife, fracBits, v)
    ensures 0.0 <= Read(val, valAt, past, cur, now, halfLife, fracBits) <= v
  {
    var t := Later(now, valAt);
    if AsI32(Ends(valAt, t, halfLife)) > 0 {
      ReadForgetsTurns(val, valAt, past, cur, now, halfLife, fracBits);
      SeenIsEarlier(valAt, t, halfLife);
      CastKeepsTurns(Ends(valAt, t, halfLife));
      FitsReadIsBounded(val, valAt, past, cur, Seen(valAt, t, halfLife), halfLife, fracBits, v);
    } else {
      FitsReadIsBounded(val, valAt, past, cur, now, halfLife, fracBits, v);
    }
  }

  lemma QuotientAbove(a: real, b: real)
    requires b > 0.0 && a > 2.0 * b
    ensures a / b > 2.0
  {
    var q := a / b;
    assert q * b == a;
    assert q <= 2.0 ==> (2.0 - q) * b >= 0.0;
  }

  lemma TwoPeriodsAreMore(dur: nat, halfLife: nat)
    requires halfLife > 0 && dur > 2 * halfLife
    ensures Gathered(1.0, dur, halfLife) > 2.0
  {
    QuotientAbove(dur as real, halfLife as real);
  }

  /** A constant signal of 1 from nothing: without a positive count it reads as more than 1. */
  lemma LostCountReadsTooMuch(valAt: nat, now: nat, halfLife: nat)
    requires halfLife > 0 && !CountHolds(valAt, now, halfLife)
    ensures Read(1, valAt, 0, 0, now, halfLife, 0) > 1.0
  {
    var t := Later(now, valAt);
    var ends := Ends(valAt, t, halfLife);
    TimeSplits(valAt, t, halfLife);
    CastKeepsTurns(ends);
    assert ends >= 4;
    assert ends * halfLife == (ends - 4) * halfLife + 4 * halfLife;
    DivMod(valAt, halfLife);
    TwoPeriodsAreMore(t - valAt, halfLife);
    assert Unscaled(0, 0, 0) == Ravg(0.0, 0.0);
    assert Accumulate(1.0, valAt, Ravg(0.0, 0.0), t, halfLife) == Ravg(0.0, Gathered(1.0, t - valAt, halfLife));
  }

  ghost predicate AllReadsBounded(valAt: nat, now: nat, halfLife: nat)
    requires halfLife > 0
  {
    forall val: nat, past: nat, cur: nat, fracBits: nat, v: real {:trigger NeverAbove(val, valAt, past, cur, halfLife, fracBits, v)} ::
      fracBits < 31 && NeverAbove(val, valAt, past, cur, halfLife, fracBits, v) ==>
      0.0 <= Read(val, valAt, past, cur, now, halfLife, fracBits) <= v
  }

  /** The bound holds of all values exactly when the count is zero for no period ended and positive otherwise. */
  lemma ReadIsBoundedIff(valAt: nat, now: nat, halfLife: nat)
    requires halfLife > 0
    ensures AllReadsBounded(valAt, now, halfLife) <==> CountHolds(valAt, now, halfLife)
  {
    if CountHolds(valAt, now, halfLife) {
      forall val: nat, past: nat, cur: nat, fracBits: nat, v: real
        {:trigger NeverAbove(val, valAt, past, cur, halfLife, fracBits, v)}
        | fracBits < 31 && NeverAbove(val, valAt, past, cur, halfLife, fracBits, v)
        ensures 0.0 <= Read(val, valAt, past, cur, now, halfLife, fracBits) <= v
      {
        ReadIsBounded(val, valAt, past, cur, now, halfLife, fracBits, v);
      }
    } else {
      LostCountReadsTooMuch(valAt, now, halfLife);
      GatheredNonNegative(1.0, valAt % halfLife, halfLife);
      assert NeverAbove(1, valAt, 0, 0, halfLife, 0, 1.0);
    }
  }

  /** The read is the reference's up to 21 elapsed half-lives, and short of it by less than the value times 2^-20 beyond. */
  ghost predicate Accurate(val: nat, valAt: nat, past: nat, cur: nat, now: nat, halfLife: nat, fracBits: nat)
    requires halfLife > 0 && fracBits < 31
  {
    var r, x := Read(val, valAt, past, cur, now, halfLife, fracBits), ExactRead(val, valAt, past, cur, now, halfLife, fracBits);
    && (Ends(valAt, Later(now, valAt), halfLife) <= 21 ==> r == x)
    && x - val as real / 1048576.0 <= r <= x
    && (val > 0 ==> x - val as real / 1048576.0 < r)
  }

  lemma {:induction false} ScaleStrictlyFalls(x: real, m: nat, n: nat)
    requires x > 0.0 && m < n
    ensures Scale(x, n) < Scale(x, m)
    decreases n
  {
    ScaleFalls(x, 0, n - 1);
    if m < n - 1 {
      ScaleStrictlyFalls(x, m, n - 1);
    }
  }

  lemma BlendOfPast(p: real, q: real, gone: real)
    requires p < q && 0.0 <= gone <= 1.0
    ensures Blend(Ravg(p, 0.0), gone) < Blend(Ravg(q, 0.0), gone)
  {
    assert (q - p) * (1.0 - gone / 2.0) > 0.0;
  }

  lemma OldPastAccumulated(valAt: nat, now: nat, halfLife: nat, ends: nat)
    requires halfLife > 0 && valAt <= now && ends == AsI32(Ends(valAt, now, halfLife)) && ends >= 1
    ensures Accumulate(0.0, valAt, Ravg(1.0, 0.0), now, halfLife) == Ravg(Scale(1.0, ends), 0.0)
  {
    ScaleAdds(0.0, 0.0, ends);
  }

  lemma OldPastExact(valAt: nat, now: nat, halfLife: nat, ends: nat)
    requires halfLife > 0 && valAt <= now && ends == Ends(valAt, now, halfLife) && ends >= 1
    ensures Exact(0.0, valAt, Ravg(1.0, 0.0), now, halfLife) == Ravg(Scale(1.0, ends), 0.0)
  {
    ExactAcross(0.0, valAt, Ravg(1.0, 0.0), now, halfLife, ends);
    ScaleHalf(1.0, ends - 1);
  }

  /** An average of 1 with no signal: after a wrap it has decayed too little. */
  lemma WrappedCountReadsTooMuch(valAt: nat, now: nat, halfLife: nat)
    requires halfLife > 0 && Ends(valAt, Later(now, valAt), halfLife) >= 0x8000_0000 && CountHolds(valAt, now, halfLife)
    ensures Read(0, valAt, 1, 0, now, halfLife, 0) > ExactRead(0, valAt, 1, 0, now, halfLife, 0)
  {
    var t := Later(now, valAt);
    var ends := Ends(valAt, t, halfLife);
    CastKeepsTurns(ends);
    assert Unscaled(1, 0, 0) == Ravg(1.0, 0.0);
    OldPastAccumulated(valAt, t, halfLife, AsI32(ends));
    OldPastExact(valAt, t, halfLife, ends);
    ScaleStrictlyFalls(1.0, AsI32(ends), ends);
    NormRange(t % halfLife, halfLife);
    BlendOfPast(Scale(1.0, ends), Scale(1.0, AsI32(ends)), Norm(t % halfLife, halfLife));
  }

  lemma ExactReadOfOne(valAt: nat, now: nat, halfLife: nat)
    requires halfLife > 0
    ensures ExactRead(1, valAt, 0, 0, now, halfLife, 0) <= 1.0
  {
    var t := Later(now, valAt);
    assert Unscaled(0, 0, 0) == Ravg(0.0, 0.0);
    GatheredNonNegative(1.0, valAt % halfLife, halfLife);
    ExactIsBounded(1.0, valAt, Ravg(0.0, 0.0), t, halfLife, 1.0);
    BlendIsBounded(Exact(1.0, valAt, Ravg(0.0, 0.0), t, halfLife), t % halfLife, halfLife, 1.0);
  }

  ghost predicate AllReadsAccurate(valAt: nat, now: nat, halfLife: nat)
    requires halfLife > 0
  {
    forall val: nat, past: nat, cur: nat, fracBits: nat :: fracBits < 31 ==>
      Accurate(val, valAt, past, cur, now, halfLife, fracBits)
  }

  /** Reads are accurate for all values exactly when fewer than 2^31 half-lives have elapsed. */
  lemma ReadIsExactIff(valAt: nat, now: nat, halfLife: nat)
    requires halfLife > 0
    ensures AllReadsAccurate(valAt, now, halfLife) <==> Ends(valAt, Later(now, valAt), halfLife) < 0x8000_0000
  {
    if Ends(valAt, Later(now, valAt), halfLife) < 0x8000_0000 {
      forall val: nat, past: nat, cur: nat, fracBits: nat | fracBits < 31
        ensures Accurate(val, valAt, past, cur, now, halfLife, fracBits)
      {
        ReadIsExact(val, valAt, past, cur, now, halfLife, fracBits);
      }
    } else if CountHolds(valAt, now, halfLife) {
      WrappedCountReadsTooMuch(valAt, now, halfLife);
      assert !Accurate(0, valAt, 1, 0, now, halfLife, 0);
    } else {
      LostCountReadsTooMuch(valAt, now, halfLife);
      ExactReadOfOne(valAt, now, halfLife);
      assert !Accurate(1, valAt, 0, 0, now, halfLife, 0);
    }
  }

  // ---------- the read in its own arguments ----------

  /** An average that fades by half over a whole period, `dur` into it. */
  function Faded(x: real, dur: nat, halfLife: nat): real
    requires halfLife > 0
  {
    x * (1.0 - dur as real / (2.0 * halfLife as real))
  }

  /** A value held for `dur` units, as part of a period. */
  function Held(val: real, dur: nat, halfLife: nat): real
    requires halfLife > 0
  {
    val * dur as real / halfLife as real
  }

  lemma NormTimes(dur: nat, halfLife: nat)
    requires halfLife > 0
    ensures Norm(dur, halfLife) * halfLife as real == dur as real
  {
  }

  lemma QuotientOfProduct(v: real, q: real, d: real, h: real)
    requires h > 0.0 && q * h == d
    ensures v * d / h == v * q
  {
    assert v * q * h == v * d;
  }

  lemma HalfQuotient(d: real, h: real)
    requires h > 0.0
    ensures d / h / 2.0 == d / (2.0 * h)
  {
    var q := d / h;
    assert q * h == d;
    assert q / 2.0 * (2.0 * h) == d;
  }

  lemma BlendIs(past: real, cur: real, dur: nat, halfLife: nat)
    requires halfLife > 0
    ensures Blend(Ravg(past, cur), Norm(dur, halfLife)) == Faded(past, dur, halfLife) + cur / 2.0
  {
    HalfQuotient(dur as real, halfLife as real);
  }

  lemma GatheredIs(val: real, dur: nat, halfLife: nat)
    requires halfLife > 0
    ensures Gathered(val, dur, halfLife) == Held(val, dur, halfLife)
  {
    hide Norm;
    NormTimes(dur, halfLife);
    QuotientOfProduct(val, Norm(dur, halfLife), dur as real, halfLife as real);
  }

  lemma AccumulateWithin(val: real, valAt: nat, s: Ravg, now: nat, halfLife: nat)
    requires halfLife > 0 && valAt <= now && AsI32(now / halfLife - valAt / halfLife) <= 0
    ensures Accumulate(val, valAt, s, now, halfLife) == Ravg(s.past, s.cur + Held(val, now - valAt, halfLife))
  {
    hide Gathered, Held;
    GatheredIs(val, now - valAt, halfLife);
  }

  /** A fixed-point field as a real. */
  function Fixed(x: nat, fracBits: nat): real {
    x as real / Pow2(fracBits)
  }

  lemma UnscaledIs(past: nat, cur: nat, fracBits: nat)
    ensures Unscaled(past, cur, fracBits) == Ravg(Fixed(past, fracBits), Fixed(cur, fracBits))
  {
  }

  /**
   The read while no period end is counted: the average fades by half over a whole period, and half of
   what is gathered counts.  The moment of the last write stands in for an earlier `now`.
   */
  lemma ReadWithin(val: nat, valAt: nat, past: nat, cur: nat, now: nat, halfLife: nat, fracBits: nat, t: nat)
    requires halfLife > 0 && fracBits < 31 && t == (if now > valAt then now else valAt)
    requires AsI32(t / halfLife - valAt / halfLife) <= 0
    ensures Read(val, valAt, past, cur, now, halfLife, fracBits) ==
            Faded(Fixed(past, fracBits), t % halfLife, halfLife)
            + (Fixed(cur, fracBits) + Held(val as real, t - valAt, halfLife)) / 2.0
  {
    hide Accumulate, Blend, Faded, Held, Fixed, Unscaled;
    UnscaledIs(past, cur, fracBits);
    AccumulateWithin(val as real, valAt, Unscaled(past, cur, fracBits), t, halfLife);
    BlendIs(Fixed(past, fracBits), Fixed(cur, fracBits) + Held(val as real, t - valAt, halfLife), t % halfLife, halfLife);
  }

  /** What full periods leave after `n` period ends; the table stops at 20 of them. */
  function FullPeriods(val: real, n: int): real {
    if n <= 1 then 0.0 else val - val / Pow2(if n <= 21 then n - 1 else 20)
  }

  lemma FullSums(val: real, n: int)
    requires n >= 2
    ensures val * FULL_SUMS[TableIndex(n)] == FullPeriods(val, n)
  {
    TableTimes(val, TableIndex(n));
    DividePow2(val, TableIndex(n) + 1);
  }

  /** A quantity divided by 2^n. */
  function Decayed(x: real, n: nat): real {
    x / Pow2(n)
  }

  lemma DecayedIs(x: real, n: nat)
    ensures Decayed(x, n) == Scale(x, n)
  {
    DividePow2(x, n);
  }

  lemma ScaledSum(a: real, b: real, c: real, n: nat)
    ensures Scale(a, n) + Scale(b, n) + Scale(c, n) == Decayed(a + b + c, n)
  {
    hide Scale, Decayed;
    ScaleAdds(a, b, n);
    ScaleAdds(a + b, c, n);
    DecayedIs(a + b + c, n);
  }

  lemma FoldAllIs(val: real, s: Ravg, n: int, head: real, tail: real, within: real)
    requires n > 0
    ensures FoldAll(val, s, n, head, tail, within) == Ravg(Decayed(s.past + s.cur + head, n) + FullPeriods(val, n), tail)
  {
    assert FullPeriods(val, 1) == 0.0;
    hide Scale, Decayed, FullPeriods;
    ScaledSum(s.past, s.cur, head, n);
    if n >= 2 { FullSums(val, n); }
  }

  lemma AccumulateAcross(val: real, valAt: nat, s: Ravg, now: nat, halfLife: nat, n: int)
    requires halfLife > 0 && valAt <= now && n == AsI32(now / halfLife - valAt / halfLife) > 0
    ensures Accumulate(val, valAt, s, now, halfLife) ==
            Ravg(Decayed(s.past + s.cur + Held(val, halfLife - valAt % halfLife, halfLife), n) + FullPeriods(val, n),
                 Held(val, now % halfLife, halfLife))
  {
    hide FoldAll, Gathered, Held, Decayed, FullPeriods;
    FoldAllIs(val, s, n, Gathered(val, halfLife - valAt % halfLife, halfLife), Gathered(val, now % halfLife, halfLife),
              Gathered(val, now - valAt, halfLife));
    GatheredIs(val, halfLife - valAt % halfLife, halfLife);
    GatheredIs(val, now % halfLife, halfLife);
  }

  /**
   The read after `n` counted period ends: the average and all that the first period gathered are divided
   by 2^n, the full periods between come to the value less its 2^(n-1)-th part, and the current period
   enters as before.
   */
  lemma ReadAcross(val: nat, valAt: nat, past: nat, cur: nat, now: nat, halfLife: nat, fracBits: nat, t: nat, n: int)
    requires halfLife > 0 && fracBits < 31 && t == (if now > valAt then now else valAt)
    requires n == AsI32(t / halfLife - valAt / halfLife) > 0
    ensures var first := Fixed(past, fracBits) + Fixed(cur, fracBits) + Held(val as real, halfLife - valAt % halfLife, halfLife);
            Read(val, valAt, past, cur, now, halfLife, fracBits) ==
            Faded(Decayed(first, n) + FullPeriods(val as real, n), t % halfLife, halfLife) + Held(val as real, t % halfLife, halfLife) / 2.0
  {
    hide Accumulate, Blend, Faded, Held, Fixed, Unscaled, Decayed, FullPeriods;
    UnscaledIs(past, cur, fracBits);
    AccumulateAcross(val as real, valAt, Unscaled(past, cur, fracBits), t, halfLife, n);
    var a := Accumulate(val as real, valAt, Unscaled(past, cur, fracBits), t, halfLife);
    BlendIs(a.past, a.cur, t % halfLife, halfLife);
  }

  lemma StepWithin(past: real, cur: real, share: real, offset: real, h: real, v: real)
    requires h > 0.0 && share * h == v
    ensures Blend(Ravg(past, cur + share), (offset + 1.0) / h) - Blend(Ravg(past, cur), offset / h) == (v - past) / (2.0 * h)
  {
    var u := 1.0 / h;
    assert (offset + 1.0) / h == offset / h + u;
    assert share == v * u;
    assert (v - past) / (2.0 * h) == (v - past) * u / 2.0;
    assert past * (1.0 - (offset / h + u) / 2.0) == past * (1.0 - offset / h / 2.0) - past * u / 2.0;
  }

  lemma StepOverEnd(past: real, cur: real, share: real, offset: real, h: real, v: real)
    requires h > 0.0 && share * h == v && offset + 1.0 == h
    ensures Blend(Ravg((past + (cur + share)) / 2.0, 0.0), 0.0) - Blend(Ravg(past, cur), offset / h) == (v - past) / (2.0 * h)
  {
    var u := 1.0 / h;
    assert offset / h == 1.0 - u;
    assert share == v * u;
    assert (v - past) / (2.0 * h) == (v - past) * u / 2.0;
    assert past * (1.0 - (1.0 - u) / 2.0) == past / 2.0 + past * u / 2.0;
  }

  /** What the reference reads moves smoothly: a period's end is a unit of time like any other. */
  lemma ExactReadMoves(val: nat, valAt: nat, past: nat, cur: nat, now: nat, halfLife: nat, fracBits: nat)
    requires halfLife > 0 && valAt <= now
    ensures ExactRead(val, valAt, past, cur, now + 1, halfLife, fracBits) - ExactRead(val, valAt, past, cur, now, halfLife, fracBits)
            == (val as real - Exact(val as real, valAt, Unscaled(past, cur, fracBits), now, halfLife).past) / (2.0 * halfLife as real)
  {
    var v, s, h := val as real, Unscaled(past, cur, fracBits), halfLife as real;
    var c, share := ExactClock(v, valAt, s, now, halfLife), v / h;
    ExactOffset(v, valAt, s, now, halfLife);
    ExactOffset(v, valAt, s, now + 1, halfLife);
    assert ExactClock(v, valAt, s, now + 1, halfLife) == Tick(share, c, halfLife);
    assert share * h == v by { WholeShare(v, halfLife); }
    if c.offset + 1 == halfLife {
      StepOverEnd(c.s.past, c.s.cur, share, c.offset as real, h, v);
    } else {
      StepWithin(c.s.past, c.s.cur, share, c.offset as real, h, v);
    }
  }

  /**
   Over 21 half-lives the read has no jump: in every unit of time, a period's end or not, it moves by the
   distance of the value from the tracked average over two half-lives.
   */
  lemma ReadMoves(val: nat, valAt: nat, past: nat, cur: nat, now: nat, halfLife: nat, fracBits: nat)
    requires halfLife > 0 && fracBits < 31 && valAt <= now && (now + 1) / halfLife - valAt / halfLife <= 21
    ensures Read(val, valAt, past, cur, now + 1, halfLife, fracBits) - Read(val, valAt, past, cur, now, halfLife, fracBits)
            == (val as real - Accumulate(val as real, valAt, Unscaled(past, cur, fracBits), now, halfLife).past) / (2.0 * halfLife as real)
  {
    TimeSplits(now, now + 1, halfLife);
    ReadIsExact(val, valAt, past, cur, now, halfLife, fracBits);
    ReadIsExact(val, valAt, past, cur, now + 1, halfLife, fracBits);
    ExactReadMoves(val, valAt, past, cur, now, halfLife, fracBits);
    FitsAccumulateIsExact(val as real, valAt, Unscaled(past, cur, fracBits), now, halfLife);
  }
}
