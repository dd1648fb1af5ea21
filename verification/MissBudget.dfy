/**
 How many misses the candidates of `build_evset_zhao` (src/evset.c:930-949) allow.  After a miss fresh
 candidates come in behind the cut from the far end, a step at a time, until the two ends meet; then
 the far end starts again at the last candidate.  So every closed gap halves what is out of reach.
 */
module MissBudget {
  /** `x` over `m`, rounded up. */
  function CeilDiv(x: nat, m: nat): nat
    requires m >= 1
  {
    if x == 0 then 0 else if x <= m then 1 else 1 + CeilDiv(x - m, m)
  }

  lemma {:induction false} CeilDivIs(x: nat, m: nat)
    requires m >= 1
    ensures x <= CeilDiv(x, m) * m < x + m
  {
    if x > m {
      CeilDivIs(x - m, m);
      var c := CeilDiv(x - m, m);
      assert (1 + c) * m == m + c * m;
    }
  }

  lemma {:induction false} CeilDivGrows(x: nat, y: nat, m: nat)
    requires m >= 1 && x <= y
    ensures CeilDiv(x, m) <= CeilDiv(y, m)
  {
    if x > m { CeilDivGrows(x - m, y - m, m); }
  }

  lemma {:induction false} CeilDivBelow(x: nat, m: nat)
    requires m >= 1
    ensures CeilDiv(x, m) <= x
  {
    if x > m { CeilDivBelow(x - m, m); }
  }

  lemma {:induction false} CeilDivAdds(x: nat, y: nat, m: nat)
    requires m >= 1
    ensures CeilDiv(x, m) + CeilDiv(y, m) <= CeilDiv(x + y, m) + 1
  {
    if x <= m {
      CeilDivGrows(y, x + y, m);
    } else {
      CeilDivAdds(x - m, y, m);
    }
  }

  function Bits(n: nat): nat {
    if n == 0 then 0 else 1 + Bits(n / 2)
  }

  lemma {:induction false} BitsGrow(a: nat, b: nat)
    requires a <= b
    ensures Bits(a) <= Bits(b)
  {
    if a > 0 { BitsGrow(a / 2, b / 2); }
  }

  /** How many exchanges close a gap from both of its ends. */
  function Half(gap: nat): nat {
    (gap + 1) / 2
  }

  function Moved(step: nat, gap: nat): nat {
    if step < Half(gap) then step else Half(gap)
  }

  /** Misses until the cut reaches all candidates but one, `d` away. */
  function Turns(d: nat, step: nat): nat
    requires step >= 1
  {
    if d == 0 then 0 else CeilDiv(Half(d), step) + Turns(d / 2, step)
  }

  /** Misses left with the cut at `upper` and the far end at `migrated`. */
  function MissesLeft(upper: nat, migrated: nat, nCands: nat, step: nat): nat
    requires migrated < nCands && step >= 1
  {
    if upper < migrated then CeilDiv(Half(migrated - upper), step) + Turns(nCands - 1 - upper - Half(migrated - upper), step)
    else if upper < nCands then Turns(nCands - 1 - upper, step)
    else 0
  }

  /** The far end of the gap a miss closes from. */
  function FarEnd(upper: nat, migrated: nat, nCands: nat): nat
    requires nCands >= 1
  {
    if upper >= migrated then nCands - 1 else migrated
  }

  /** Misses left with the cut at `upper` and a gap up to `far`. */
  function FromGap(upper: nat, far: nat, nCands: nat, step: nat): nat
    requires upper < far < nCands && step >= 1
  {
    CeilDiv(Half(far - upper), step) + Turns(nCands - 1 - upper - Half(far - upper), step)
  }

  lemma GapLeft(upper: nat, migrated: nat, nCands: nat, step: nat, far: nat)
    requires upper + 1 < nCands && migrated < nCands && step >= 1 && far == FarEnd(upper, migrated, nCands)
    ensures MissesLeft(upper, migrated, nCands, step) == FromGap(upper, far, nCands, step)
  {
    if upper >= migrated {
      var d := nCands - 1 - upper;
      assert d - Half(d) == d / 2;
    }
  }

  lemma GapNarrows(upper: nat, far: nat, nCands: nat, step: nat, upper': nat, far': nat)
    requires upper < far < nCands && 1 <= step < Half(far - upper) && upper' == upper + step && far' == far - step
    ensures upper' < far' && FromGap(upper', far', nCands, step) + 1 == FromGap(upper, far, nCands, step)
  {
    assert Half(far' - upper') == Half(far - upper) - step;
  }

  lemma GapCloses(upper: nat, far: nat, nCands: nat, step: nat, upper': nat, far': nat)
    requires upper < far < nCands && step >= 1
    requires upper' == upper + Moved(step, far - upper) && far' == far - Moved(step, far - upper)
    ensures upper < upper' && MissesLeft(upper', far', nCands, step) + 1 == FromGap(upper, far, nCands, step)
  {
    if step < Half(far - upper) {
      GapNarrows(upper, far, nCands, step, upper', far');
    }
  }

  /** Every miss takes the cut one turn further. */
  lemma MissIsPaid(upper: nat, migrated: nat, nCands: nat, step: nat, far: nat, upper': nat, migrated': nat)
    requires upper + 1 < nCands && migrated < nCands && step >= 1 && far == FarEnd(upper, migrated, nCands)
    requires upper' == upper + Moved(step, far - upper) && migrated' == far - Moved(step, far - upper)
    ensures upper < upper' && MissesLeft(upper', migrated', nCands, step) + 1 == MissesLeft(upper, migrated, nCands, step)
  {
    GapLeft(upper, migrated, nCands, step, far);
    GapCloses(upper, far, nCands, step, upper', migrated');
  }

  lemma {:induction false} TurnsBound(d: nat, step: nat)
    requires step >= 1
    ensures Turns(d, step) <= CeilDiv(d, step) + Bits(d) && Turns(d, step) <= d
  {
    if d > 0 {
      TurnsBound(d / 2, step);
      CeilDivAdds(Half(d), d / 2, step);
      CeilDivBelow(Half(d), step);
      assert Half(d) + d / 2 == d;
    }
  }

  function Smaller(a: nat, b: nat): nat {
    if a < b then a else b
  }

  /** A bound on the misses between two lines found, in the number of candidates; the first turn goes with the line found. */
  function PerLine(nCands: nat, step: nat): nat
    requires step >= 1
  {
    Smaller(CeilDiv(nCands, step) + Bits(nCands), if nCands == 0 then 0 else nCands - 1)
  }

  lemma TurnsWithin(d: nat, nCands: nat, step: nat)
    requires step >= 1 && d < nCands
    ensures Turns(d, step) <= PerLine(nCands, step) + 1
  {
    TurnsBound(d, step);
    CeilDivGrows(d, nCands, step);
    BitsGrow(d, nCands);
  }

  lemma GapWithin(half: nat, rest: nat, nCands: nat, step: nat)
    requires step >= 1 && half + rest < nCands
    ensures CeilDiv(half, step) + Turns(rest, step) <= PerLine(nCands, step) + 1
  {
    TurnsBound(rest, step);
    CeilDivAdds(half, rest, step);
    CeilDivBelow(half, step);
    CeilDivGrows(half + rest, nCands, step);
    BitsGrow(rest, nCands);
  }

  lemma MissesBound(upper: nat, migrated: nat, nCands: nat, step: nat)
    requires migrated < nCands && step >= 1
    ensures MissesLeft(upper, migrated, nCands, step) <= PerLine(nCands, step) + 1
  {
    if upper < migrated {
      GapWithin(Half(migrated - upper), nCands - 1 - upper - Half(migrated - upper), nCands, step);
    } else if upper < nCands {
      TurnsWithin(nCands - 1 - upper, nCands, step);
    }
  }

  /** With the cut at the last candidate nothing is left to come in. */
  lemma NoneLeft(upper: nat, migrated: nat, nCands: nat, step: nat)
    requires migrated < nCands <= upper + 1 && step >= 1
    ensures MissesLeft(upper, migrated, nCands, step) == 0
  {
  }
}
