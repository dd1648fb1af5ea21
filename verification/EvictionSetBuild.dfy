/**
 `build_evset_zhao` of src/evset.c: repeated binary searches for the shortest prefix of the candidates
 that still evicts the target, each of which exposes one more line of the target's set.
 */
module EvictionSetBuild {
  import opened Common
  import opened CacheLines
  import opened EvictionSearch
  import opened MissBudget

  const U32_LIMIT := 0x1_0000_0000

  type u32 = x: int | 0 <= x < U32_LIMIT

  datatype Conf = Conf(
    nWays: u32,
    slack: u32,
    extraCong: u32,
    maxBacktrack: nat,
    evCap: u32,
    unknownSib: nat)

  function Pow2(k: nat): (p: nat)
    ensures p >= 1
  {
    if k == 0 then 1 else 2 * Pow2(k - 1)
  }

  /** How many placed lines each further search still relies on; unsigned, so a slack above the ways wraps around. */
  function NumCarried(conf: Conf): (c: nat) {
    if conf.slack <= conf.nWays then conf.nWays - conf.slack else U64_LIMIT + conf.nWays - conf.slack
  }

  /** The slack is in force: it is set and does not wrap. */
  predicate Slacking(conf: Conf) {
    1 <= conf.slack <= conf.nWays
  }

  /** How many placed lines the next search leaves out at the front. */
  function Offset(conf: Conf, evsz: nat): (o: nat)
    requires evsz <= conf.evCap
    ensures o <= evsz
    ensures o == if Slacking(conf) && evsz > conf.nWays - conf.slack then evsz - (conf.nWays - conf.slack) else 0
  {
    if conf.slack != 0 && evsz > NumCarried(conf) then evsz - NumCarried(conf) else 0
  }

  lemma CutProduct(lower: nat, d: nat, rem: nat)
    requires d >= 1 && rem >= 1
    ensures lower * (rem + 1) <= (lower + d) * rem + lower < (lower + d) * (rem + 1)
    ensures d > 1 ==> (lower + 1) * (rem + 1) <= (lower + d) * rem + lower
  {
    assert (lower + d) * rem == lower * rem + d * rem;
    assert lower * (rem + 1) == lower * rem + lower;
    if d > 1 {
      assert d * rem >= 2 * rem;
    }
  }

  lemma QuotientBetween(x: nat, m: nat, lo: nat, hi: nat)
    requires m >= 1 && lo * m <= x < hi * m
    ensures lo <= x / m < hi
  {
    var q := x / m;
    assert q * m <= x < (q + 1) * m;
    FactorLess(q, hi, m);
    FactorLess(lo, q + 1, m);
  }

  /** The weighted cut lies between the bounds, so the guard against `cnt == upper` never fires. */
  lemma CutInside(lower: nat, upper: nat, rem: nat)
    requires lower < upper && rem >= 1
    ensures lower <= (upper * rem + lower) / (rem + 1) < upper
    ensures upper - lower > 1 ==> lower < (upper * rem + lower) / (rem + 1)
  {
    CutProduct(lower, upper - lower, rem);
    QuotientBetween(upper * rem + lower, rem + 1, lower, upper);
    if upper - lower > 1 {
      QuotientBetween(upper * rem + lower, rem + 1, lower + 1, upper);
    }
  }

  lemma DivisionIs(x: nat, m: nat)
    requires m >= 1
    ensures x / m * m <= x < (x / m + 1) * m
  {
  }

  /** Where a search looks first: at the mean of the bounds, the upper one weighted by the lines still missing, rounded down. */
  function FirstCut(conf: Conf, evsz: nat, isReset: bool, lower: nat, upper: nat): (cnt: int)
    requires lower < upper
    ensures upper - lower > 1 ==> lower < cnt < upper
    ensures var rem := if evsz > 0 && !isReset && evsz < conf.nWays then conf.nWays - evsz else 1;
            cnt * (rem + 1) <= upper * rem + lower < (cnt + 1) * (rem + 1)
  {
    if evsz > 0 && !isReset && evsz < conf.nWays then
      var rem := conf.nWays - evsz;
      CutInside(lower, upper, rem);
      DivisionIs(upper * rem + lower, rem + 1);
      var cnt := (upper * rem + lower) / (rem + 1);
      if cnt == upper then cnt - 1 else cnt
    else
      (upper + lower) / 2
  }

  /**
   The inner binary search, over cuts of the candidates that start at `offset`.  Whatever the test
   answers it ends with neighbouring bounds.  With the ideal test the lower bound does not evict the
   target (if it did not at the start), and the upper one does (if the test ever said so).
   */
  method BinarySearch(test: Test, target: Line, cands: array<Line>, offset: nat, lower0: nat, upper0: nat, cnt0: int,
                      start: nat, ghost setOf: Line -> int, ghost ways: nat)
    returns (lower: nat, upper: nat, hasPos: bool, t: nat)
    requires offset <= lower0 < upper0 <= cands.Length
    requires upper0 - lower0 > 1 ==> lower0 < cnt0 < upper0
    ensures lower0 <= lower && lower + 1 == upper <= upper0
    ensures !hasPos ==> upper == upper0
    ensures Ideal(test, setOf, ways) ==>
              && (hasPos ==> LinesIn(setOf, setOf(target), cands[offset..upper]) >= ways)
              && (lower > lower0 ==> LinesIn(setOf, setOf(target), cands[offset..lower]) < ways)
  {
    lower, upper, hasPos, t := lower0, upper0, false, start;
    var cnt := cnt0;
    while upper - lower > 1
      invariant lower0 <= lower < upper <= upper0
      invariant upper - lower > 1 ==> lower < cnt < upper
      invariant !hasPos ==> upper == upper0
      invariant Ideal(test, setOf, ways) ==>
                  && (hasPos ==> LinesIn(setOf, setOf(target), cands[offset..upper]) >= ways)
                  && (lower > lower0 ==> LinesIn(setOf, setOf(target), cands[offset..lower]) < ways)
      decreases upper - lower
    {
      var ok := test(t, target, cands[offset..cnt]);
      if Ideal(test, setOf, ways) {
        IdealAnswer(test, setOf, ways, t, target, cands[offset..cnt]);
      }
      t := t + 1;
      if ok {
        upper := cnt;
        hasPos := true;
      } else {
        lower := cnt;
      }
      cnt := (upper + lower) / 2;
    }
  }

  datatype Migration = Migration(lines: seq<Line>, upper: nat, migrated: nat)

  /** Fresh candidates from the far end are swapped in behind the current prefix. */
  function Migrate(m: Migration, steps: nat): (r: Migration)
    requires m.migrated < |m.lines|
    ensures |r.lines| == |m.lines| && r.migrated < |r.lines|
    ensures m.upper <= r.upper && (r.upper == m.upper || r.upper < |m.lines|)
    ensures steps > 0 && m.upper < m.migrated ==> m.upper < r.upper
    decreases steps
  {
    if steps == 0 || m.upper >= m.migrated then m
    else Migrate(Migration(Swap(m.lines, m.upper, m.migrated), m.upper + 1, m.migrated - 1), steps - 1)
  }

  lemma {:induction false} MigratePermutes(m: Migration, steps: nat)
    requires m.migrated < |m.lines|
    ensures multiset(Migrate(m, steps).lines) == multiset(m.lines)
    decreases steps
  {
    hide Swap;
    if steps > 0 && m.upper < m.migrated {
      SwapPermutes(m.lines, m.upper, m.migrated);
      MigratePermutes(Migration(Swap(m.lines, m.upper, m.migrated), m.upper + 1, m.migrated - 1), steps - 1);
    }
  }

  lemma PrefixOfPrefix(a: seq<Line>, b: seq<Line>, k: nat)
    requires k < |a| && k < |b| && a[..k + 1] == b[..k + 1]
    ensures a[..k] == b[..k]
  {
    assert a[..k] == a[..k + 1][..k] && b[..k] == b[..k + 1][..k];
  }

  lemma {:induction false} MigrateKeepsPrefix(m: Migration, steps: nat)
    requires m.migrated < |m.lines| && m.upper <= |m.lines|
    ensures Migrate(m, steps).lines[..m.upper] == m.lines[..m.upper]
    decreases steps
  {
    if steps > 0 && m.upper < m.migrated {
      var next := Migration(Swap(m.lines, m.upper, m.migrated), m.upper + 1, m.migrated - 1);
      MigrateKeepsPrefix(next, steps - 1);
      PrefixOfPrefix(Migrate(next, steps - 1).lines, next.lines, m.upper);
      assert next.lines[..m.upper] == m.lines[..m.upper];
    }
  }

  method MigrateLines(cands: array<Line>, upper0: nat, migrated0: nat, steps: nat) returns (upper: nat, migrated: nat)
    requires migrated0 < cands.Length
    modifies cands
    ensures Migration(cands[..], upper, migrated) == Migrate(Migration(old(cands[..]), upper0, migrated0), steps)
  {
    upper, migrated := upper0, migrated0;
    ghost var m := Migration(cands[..], upper, migrated);
    var i := 0;
    while i < steps && upper < migrated
      invariant 0 <= i <= steps && migrated < cands.Length
      invariant Migrate(Migration(cands[..], upper, migrated), steps - i) == Migrate(m, steps)
      decreases steps - i
    {
      SwapLines(cands, upper, migrated);
      upper, migrated, i := upper + 1, migrated - 1, i + 1;
    }
  }

  /** How many fresh candidates one miss asks for. */
  function Step(conf: Conf): (step: nat)
    ensures step == if conf.unknownSib == 0 then 1 else 3 * Pow2(conf.unknownSib - 1)
  {
    3 * Pow2(conf.unknownSib) / 2
  }

  lemma {:induction false} MigrateMoves(m: Migration, steps: nat)
    requires m.migrated < |m.lines| && m.upper <= m.migrated
    ensures var r, moved := Migrate(m, steps), Moved(steps, m.migrated - m.upper);
            r.upper == m.upper + moved && r.migrated == m.migrated - moved
    decreases steps
  {
    hide Swap;
    if steps > 0 && m.upper + 1 < m.migrated {
      MigrateMoves(Migration(Swap(m.lines, m.upper, m.migrated), m.upper + 1, m.migrated - 1), steps - 1);
    }
  }

  lemma SwapAt(lines: seq<Line>, i: nat, j: nat, k: int)
    requires i < |lines| && j < |lines|
    ensures 0 <= k < |lines| ==> Swap(lines, i, j)[k] == if k == i then lines[j] else if k == j then lines[i] else lines[k]
  {
  }

  lemma MovedIs(steps: nat, gap: nat)
    ensures Moved(steps, gap) == if steps == 0 || gap == 0 then 0 else if gap == 1 then 1 else Moved(steps - 1, gap - 2) + 1
    ensures 2 * Moved(steps, gap) <= gap + 1
  {
  }

  /** What comes in behind the cut comes from the far end, and what stood there goes to the far end. */
  lemma {:induction false} MigrateBrings(m: Migration, steps: nat, k: nat)
    requires m.migrated < |m.lines| && m.upper <= m.migrated && k < |m.lines|
    ensures var r, moved := Migrate(m, steps).lines, Moved(steps, m.migrated - m.upper);
            r[k] == if m.upper <= k < m.upper + moved || m.migrated - moved < k <= m.migrated
                    then m.lines[m.upper + m.migrated - k] else m.lines[k]
    decreases steps
  {
    hide Swap, Moved;
    MovedIs(steps, m.migrated - m.upper);
    if steps > 0 && m.upper < m.migrated {
      var next := Migration(Swap(m.lines, m.upper, m.migrated), m.upper + 1, m.migrated - 1);
      SwapAt(m.lines, m.upper, m.migrated, k);
      if m.upper + 1 < m.migrated {
        SwapAt(m.lines, m.upper, m.migrated, m.upper + m.migrated - k);
        MigrateBrings(next, steps - 1, k);
      }
    }
  }

  // ---------- what the ideal test guarantees ----------

  /** Lines of the target's set among the first `k`. */
  ghost function Home(setOf: Line -> int, target: Line, lines: seq<Line>, k: nat): (n: nat)
    requires k <= |lines|
  {
    LinesIn(setOf, setOf(target), lines[..k])
  }

  /** The search goes on relying on all lines it has placed. */
  predicate CarriesAll(conf: Conf, evsz: nat) {
    Slacking(conf) ==> evsz <= conf.nWays - conf.slack
  }

  /**
   Loop invariant: only lines of the target's set are placed, none unless that set has enough lines in
   all, and as long as all placed lines are carried nothing has been missed.
   */
  ghost predicate Good(setOf: Line -> int, conf: Conf, target: Line, lines: seq<Line>, evsz: nat, upper: nat, nBctr: nat)
    requires evsz <= |lines| && upper <= |lines|
  {
    var total := Home(setOf, target, lines, |lines|);
    && (forall k :: 0 <= k < evsz ==> setOf(lines[k]) == setOf(target))
    && evsz < conf.nWays
    && (evsz > 0 ==> total >= conf.nWays)
    && (total >= conf.nWays && CarriesAll(conf, evsz) ==> nBctr == 0 && Home(setOf, target, lines, upper) >= conf.nWays)
    && (evsz > 0 && Slacking(conf) ==> evsz <= total - conf.slack + 1)
  }

  /** More backtracks are allowed than misses can occur before the candidates in reach are used up. */
  predicate AmpleBacktracks(conf: Conf, nCands: nat) {
    conf.maxBacktrack > (conf.slack - 1) * PerLine(nCands, Step(conf))
  }

  /** What is returned, by how many lines of the target's set the candidates hold. */
  ghost predicate Outcome(setOf: Line -> int, conf: Conf, target: Line, lines: seq<Line>, size: nat, backtracks: nat)
    requires size <= |lines|
  {
    var total, ways := Home(setOf, target, lines, |lines|), conf.nWays;
    && (forall k :: 0 <= k < size ==> setOf(lines[k]) == setOf(target))
    && size <= ways
    && (total < ways ==> size == 0)
    && (total >= ways && conf.slack <= 1 ==> size == ways && backtracks == 0)
    && (total >= ways && !Slacking(conf) ==> size == ways && backtracks == 0)
    && (total >= ways && Slacking(conf) ==> ways - conf.slack + 1 <= size <= total - conf.slack + 1)
    && (total >= ways && Slacking(conf) && AmpleBacktracks(conf, |lines|) ==> size == ways || size >= total - conf.slack)
    && (size < ways ==> backtracks == conf.maxBacktrack)
  }

  /** The invariant, or a complete set. */
  ghost predicate GoodOrComplete(setOf: Line -> int, conf: Conf, target: Line, lines: seq<Line>, evsz: nat, upper: nat, nBctr: nat)
    requires evsz <= |lines| && upper <= |lines|
  {
    if evsz < conf.nWays then Good(setOf, conf, target, lines, evsz, upper, nBctr)
    else evsz == conf.nWays && Outcome(setOf, conf, target, lines, evsz, nBctr)
  }

  /** The slack is in force, enough lines exist, and a cut that takes in all but one of them must still evict. */
  predicate StillSure(conf: Conf, total: int, evsz: int) {
    Slacking(conf) && total >= conf.nWays && conf.nWays - conf.slack < evsz < total - conf.slack
  }

  /** Misses so far and misses left to come, while the next line is sure to be found. */
  predicate Spent(conf: Conf, total: int, nCands: nat, evsz: int, left: nat, nBctr: int) {
    StillSure(conf, total, evsz) ==> nBctr + left <= (evsz - (conf.nWays - conf.slack)) * PerLine(nCands, Step(conf))
  }

  /** The same after a search: a miss is only paid for when fresh candidates come in, and there is room for one. */
  predicate Charged(conf: Conf, total: int, nCands: nat, evsz: int, upper: int, left: nat, nBctr: int, missed: bool) {
    if missed then
      (StillSure(conf, total, evsz) ==> upper + 1 < nCands) && Spent(conf, total, nCands, evsz, left, nBctr - 1)
    else
      forall l: nat :: l <= PerLine(nCands, Step(conf)) ==> Spent(conf, total, nCands, evsz, l, nBctr)
  }

  /** A complete set that was sure to be found took no more backtracks than the candidates allow. */
  predicate FewBacktracks(conf: Conf, total: int, nCands: nat, size: nat, backtracks: nat) {
    Slacking(conf) && size == conf.nWays && total >= conf.nWays + conf.slack ==>
      backtracks <= (conf.slack - 1) * PerLine(nCands, Step(conf))
  }

  /** Misses so far are within what the lines found allow, given where the cut and the far end are. */
  predicate Paid(conf: Conf, total: int, nCands: nat, evsz: int, upper: nat, migrated: nat, nBctr: int)
    requires migrated < nCands
  {
    Spent(conf, total, nCands, evsz, MissesLeft(upper, migrated, nCands, Step(conf)), nBctr)
  }

  /** Bringing in fresh candidates pays for a miss; after a line found everything is paid for. */
  lemma ChargedIsPaid(conf: Conf, total: int, nCands: nat, evsz: int, upper0: nat, migrated0: nat, upper: nat, migrated: nat,
                      nBctr: int, missed: bool)
    requires migrated0 < nCands && migrated < nCands
    requires Charged(conf, total, nCands, evsz, upper0, MissesLeft(upper0, migrated0, nCands, Step(conf)), nBctr, missed)
    requires upper0 <= upper
    requires (missed || (Slacking(conf) && evsz > conf.nWays - conf.slack)) && upper0 + 1 < nCands ==>
               MissesLeft(upper, migrated, nCands, Step(conf)) == MissesLeft(upper0, migrated0, nCands, Step(conf)) - 1
    ensures Paid(conf, total, nCands, evsz, upper, migrated, nBctr)
  {
    hide MissesLeft;
    MissesBound(upper0, migrated0, nCands, Step(conf));
    if upper0 + 1 >= nCands { NoneLeft(upper, migrated, nCands, Step(conf)); }
  }

  lemma HomeSplit(setOf: Line -> int, target: Line, lines: seq<Line>, i: nat, j: nat)
    requires i <= j <= |lines|
    ensures Home(setOf, target, lines, j) == Home(setOf, target, lines, i) + LinesIn(setOf, setOf(target), lines[i..j])
  {
    LinesInPrefix(setOf, setOf(target), lines, i, j);
  }

  lemma HomeOfAll(setOf: Line -> int, target: Line, a: seq<Line>, b: seq<Line>)
    requires multiset(a) == multiset(b)
    ensures |a| == |b| && Home(setOf, target, a, |a|) == Home(setOf, target, b, |b|)
  {
    assert |a| == |multiset(a)| == |multiset(b)| == |b|;
    assert a[..|a|] == a && b[..|b|] == b;
    LinesInPermutation(setOf, setOf(target), a, b);
  }

  lemma HomePlaced(setOf: Line -> int, target: Line, lines: seq<Line>, i: nat, j: nat)
    requires i <= j <= |lines| && forall k :: 0 <= k < j ==> setOf(lines[k]) == setOf(target)
    ensures LinesIn(setOf, setOf(target), lines[i..j]) == j - i && Home(setOf, target, lines, i) == i
  {
    LinesInAll(setOf, setOf(target), lines[i..j]);
    LinesInAll(setOf, setOf(target), lines[..i]);
  }

  lemma GoodStart(setOf: Line -> int, conf: Conf, target: Line, lines: seq<Line>)
    requires conf.nWays >= 1
    ensures Good(setOf, conf, target, lines, 0, |lines|, 0)
  {
  }

  /** The placed lines a search relies on never evict the target by themselves. */
  lemma CarriedAreTooFew(setOf: Line -> int, conf: Conf, target: Line, lines: seq<Line>, evsz: nat, upper: nat, nBctr: nat)
    requires evsz <= upper <= |lines| && evsz <= conf.evCap && Good(setOf, conf, target, lines, evsz, upper, nBctr)
    ensures LinesIn(setOf, setOf(target), lines[Offset(conf, evsz)..evsz]) < conf.nWays
  {
    HomePlaced(setOf, target, lines, Offset(conf, evsz), evsz);
  }

  /** The line at which the cut starts to evict the target is one of the target's set. */
  lemma CutLineIsHome(setOf: Line -> int, ways: nat, target: Line, lines: seq<Line>, offset: nat, u: nat)
    requires offset < u <= |lines|
    requires LinesIn(setOf, setOf(target), lines[offset..u]) >= ways
    requires LinesIn(setOf, setOf(target), lines[offset..u - 1]) < ways
    ensures setOf(lines[u - 1]) == setOf(target)
  {
    var cut := lines[offset..u];
    assert cut[..|cut| - 1] == lines[offset..u - 1];
  }

  lemma SwapKeepsHome(setOf: Line -> int, target: Line, lines: seq<Line>, i: nat, j: nat, k: nat)
    requires i < k && j < k <= |lines|
    ensures Home(setOf, target, Swap(lines, i, j), k) == Home(setOf, target, lines, k)
  {
    SwapInPrefix(lines, i, j, k);
    LinesInPermutation(setOf, setOf(target), Swap(lines, i, j)[..k], lines[..k]);
  }

  /** A search that evicts with a cut of length `u` needs that many lines beyond the ones it left out. */
  lemma EnoughLines(setOf: Line -> int, conf: Conf, target: Line, lines: seq<Line>, evsz: nat, upper: nat, nBctr: nat, u: nat)
    requires evsz <= upper <= |lines| && evsz <= conf.evCap && Good(setOf, conf, target, lines, evsz, upper, nBctr)
    requires Offset(conf, evsz) <= u <= |lines|
    requires LinesIn(setOf, setOf(target), lines[Offset(conf, evsz)..u]) >= conf.nWays
    ensures Home(setOf, target, lines, |lines|) >= Home(setOf, target, lines, u) >= Offset(conf, evsz) + conf.nWays
  {
    var offset := Offset(conf, evsz);
    HomeSplit(setOf, target, lines, offset, u);
    HomeSplit(setOf, target, lines, u, |lines|);
    HomePlaced(setOf, target, lines, offset, evsz);
  }

  /** Placing the line found keeps the invariant, or completes the set. */
  lemma PlaceKeepsGood(setOf: Line -> int, conf: Conf, target: Line, lines: seq<Line>, evsz: nat, upper: nat, nBctr: nat, u: nat)
    requires evsz < u <= upper <= |lines| && evsz <= conf.evCap && Good(setOf, conf, target, lines, evsz, upper, nBctr)
    requires LinesIn(setOf, setOf(target), lines[Offset(conf, evsz)..u]) >= conf.nWays
    requires setOf(lines[u - 1]) == setOf(target)
    ensures var lines' := Swap(lines, evsz, u - 1);
            GoodOrComplete(setOf, conf, target, lines', evsz + 1, u, nBctr)
  {
    hide LinesIn;
    EnoughLines(setOf, conf, target, lines, evsz, upper, nBctr, u);
    SwapKeepsHome(setOf, target, lines, evsz, u - 1, u);
    SwapKeepsHome(setOf, target, lines, evsz, u - 1, |lines|);
  }

  /** A miss can only happen once some placed lines are no longer carried, or when there are too few lines in all. */
  lemma MissKeepsGood(setOf: Line -> int, conf: Conf, target: Line, lines: seq<Line>, evsz: nat, upper: nat, nBctr: nat)
    requires evsz <= upper <= |lines| && evsz <= conf.evCap && Good(setOf, conf, target, lines, evsz, upper, nBctr)
    requires LinesIn(setOf, setOf(target), lines[Offset(conf, evsz)..upper]) < conf.nWays
    ensures Good(setOf, conf, target, lines, evsz, upper, nBctr + 1)
  {
    assert CarriesAll(conf, evsz) ==> lines[Offset(conf, evsz)..upper] == lines[..upper];
  }

  /** A cut that reaches all candidates but one finds the next line while that is sure. */
  lemma MissLeavesRoom(setOf: Line -> int, conf: Conf, target: Line, lines: seq<Line>, evsz: nat, upper: nat, nBctr: nat)
    requires evsz <= upper <= |lines| && evsz <= conf.evCap && Good(setOf, conf, target, lines, evsz, upper, nBctr)
    requires LinesIn(setOf, setOf(target), lines[Offset(conf, evsz)..upper]) < conf.nWays
    ensures StillSure(conf, Home(setOf, target, lines, |lines|), evsz) ==> upper + 1 < |lines|
  {
    var offset := Offset(conf, evsz);
    HomeSplit(setOf, target, lines, offset, upper);
    HomeSplit(setOf, target, lines, upper, |lines|);
    HomePlaced(setOf, target, lines, offset, evsz);
  }

  /** A line found passes on what was spent, whatever the cut is then. */
  lemma FoundKeepsSpent(conf: Conf, total: int, nCands: nat, evsz: nat, left: nat, l: nat, nBctr: nat)
    requires Spent(conf, total, nCands, evsz, left, nBctr) && l <= PerLine(nCands, Step(conf))
    requires Slacking(conf) && total >= conf.nWays && evsz <= conf.nWays - conf.slack ==> nBctr == 0
    ensures Spent(conf, total, nCands, evsz + 1, l, nBctr)
  {
    var k, perLine := evsz - (conf.nWays - conf.slack), PerLine(nCands, Step(conf));
    assert (k + 1) * perLine == k * perLine + perLine;
  }

  /** With enough backtracks allowed, running out of them means that the next line was no longer sure. */
  lemma SpentIsBounded(conf: Conf, total: int, nCands: nat, evsz: nat, left: nat, nBctr: nat)
    requires Spent(conf, total, nCands, evsz, left, nBctr) && evsz < conf.nWays
    requires Slacking(conf) && total >= conf.nWays && AmpleBacktracks(conf, nCands)
    requires nBctr >= conf.maxBacktrack && evsz > conf.nWays - conf.slack
    ensures evsz >= total - conf.slack
  {
    FactorMonotone(evsz - (conf.nWays - conf.slack), conf.slack - 1, PerLine(nCands, Step(conf)));
  }

  lemma GoodGrows(setOf: Line -> int, conf: Conf, target: Line, lines: seq<Line>, lines': seq<Line>,
                  evsz: nat, upper: nat, upper': nat, nBctr: nat)
    requires evsz <= upper <= upper' <= |lines| == |lines'| && Good(setOf, conf, target, lines, evsz, upper, nBctr)
    requires multiset(lines') == multiset(lines) && lines'[..upper] == lines[..upper]
    ensures Good(setOf, conf, target, lines', evsz, upper', nBctr)
  {
    assert lines[..|lines|] == lines && lines'[..|lines|] == lines';
    LinesInPermutation(setOf, setOf(target), lines', lines);
    HomeSplit(setOf, target, lines', upper, upper');
    forall k | 0 <= k < evsz ensures lines'[k] == lines[k] {
      assert lines'[k] == lines'[..upper][k] && lines[k] == lines[..upper][k];
    }
  }

  /** Out of backtracks: the invariant gives the outcome. */
  lemma GoodEnds(setOf: Line -> int, conf: Conf, target: Line, lines: seq<Line>, evsz: nat, upper: nat, left: nat, nBctr: nat)
    requires evsz <= |lines| && upper <= |lines| && Good(setOf, conf, target, lines, evsz, upper, nBctr)
    requires nBctr == conf.maxBacktrack > 0
    requires Spent(conf, Home(setOf, target, lines, |lines|), |lines|, evsz, left, nBctr)
    ensures Outcome(setOf, conf, target, lines, evsz, nBctr)
  {
    hide Home;
    var total := Home(setOf, target, lines, |lines|);
    if Slacking(conf) && total >= conf.nWays && AmpleBacktracks(conf, |lines|) {
      SpentIsBounded(conf, total, |lines|, evsz, left, nBctr);
    }
  }

  /**
   Whether the set is complete, by the number of lines of the target's set: all but the one case in
   which the line that is missing may stand at the last place, which no migration ever brings into reach.
   */
  ghost predicate CompleteIfEnough(setOf: Line -> int, conf: Conf, target: Line, lines: seq<Line>, size: nat) {
    var total := Home(setOf, target, lines, |lines|);
    Slacking(conf) && AmpleBacktracks(conf, |lines|) && total != conf.nWays + conf.slack - 1 ==>
      (size == conf.nWays <==> total >= conf.nWays + conf.slack)
  }

  lemma CompleteIffEnough(setOf: Line -> int, conf: Conf, target: Line, lines: seq<Line>, size: nat, backtracks: nat)
    requires size <= |lines| && conf.nWays >= 1 && Outcome(setOf, conf, target, lines, size, backtracks)
    ensures CompleteIfEnough(setOf, conf, target, lines, size)
  {
  }

  /** A set not yet complete never uses up the candidates. */
  lemma GoodLeavesRoom(setOf: Line -> int, conf: Conf, target: Line, lines: seq<Line>, evsz: nat, upper: nat, nBctr: nat)
    requires evsz <= |lines| && upper <= |lines| && 2 <= |lines| && Good(setOf, conf, target, lines, evsz, upper, nBctr)
    ensures evsz < |lines| && evsz < conf.nWays
  {
  }

  /** The loop before a search. */
  ghost predicate Underway(setOf: Line -> int, conf: Conf, target: Line, lines: seq<Line>, evsz: nat, upper: nat, migrated: nat, nBctr: nat)
    requires evsz <= |lines| && upper <= |lines| && migrated < |lines|
  {
    && Good(setOf, conf, target, lines, evsz, upper, nBctr) && nBctr <= conf.maxBacktrack
    && Paid(conf, Home(setOf, target, lines, |lines|), |lines|, evsz, upper, migrated, nBctr)
  }

  /** What the ideal test promises of the set that is returned. */
  ghost predicate Built(setOf: Line -> int, conf: Conf, target: Line, lines: seq<Line>, size: nat, backtracks: nat)
    requires size <= |lines|
  {
    && Outcome(setOf, conf, target, lines, size, backtracks)
    && CompleteIfEnough(setOf, conf, target, lines, size)
    && FewBacktracks(conf, Home(setOf, target, lines, |lines|), |lines|, size, backtracks)
  }

  /** A set completed while its last line was sure. */
  lemma CompleteIsFew(conf: Conf, total: int, nCands: nat, evsz: nat, left: nat, nBctr: nat)
    requires Spent(conf, total, nCands, evsz, left, nBctr) && evsz + 1 == conf.nWays
    requires Slacking(conf) && total >= conf.nWays && evsz <= conf.nWays - conf.slack ==> nBctr == 0
    ensures FewBacktracks(conf, total, nCands, conf.nWays, nBctr)
  {
  }

  lemma GoodCarries(setOf: Line -> int, conf: Conf, target: Line, lines: seq<Line>, evsz: nat, upper: nat, nBctr: nat)
    requires evsz <= |lines| && upper <= |lines| && Good(setOf, conf, target, lines, evsz, upper, nBctr)
    ensures evsz < conf.nWays
    ensures Slacking(conf) && Home(setOf, target, lines, |lines|) >= conf.nWays && evsz <= conf.nWays - conf.slack ==> nBctr == 0
  {
  }

  lemma StartsUnderway(setOf: Line -> int, conf: Conf, target: Line, lines: seq<Line>)
    requires conf.nWays >= 1 && |lines| >= 1
    ensures Underway(setOf, conf, target, lines, 0, |lines|, |lines| - 1, 0)
  {
    GoodStart(setOf, conf, target, lines);
  }

  /** The search that completes the set. */
  lemma DoneIsBuilt(setOf: Line -> int, conf: Conf, target: Line, before: seq<Line>, lines: seq<Line>, evsz: nat, upper: nat,
                    migrated: nat, nBctr: nat)
    requires evsz < |lines| == |before| && upper <= |before| && migrated < |before| && multiset(lines) == multiset(before)
    requires Underway(setOf, conf, target, before, evsz, upper, migrated, nBctr) && evsz + 1 == conf.nWays
    requires Outcome(setOf, conf, target, lines, evsz + 1, nBctr)
    ensures Built(setOf, conf, target, lines, evsz + 1, nBctr)
  {
    hide Good, Outcome, CompleteIfEnough, FewBacktracks, Spent, Home, MissesLeft;
    HomeOfAll(setOf, target, lines, before);
    GoodCarries(setOf, conf, target, before, evsz, upper, nBctr);
    CompleteIffEnough(setOf, conf, target, lines, evsz + 1, nBctr);
    CompleteIsFew(conf, Home(setOf, target, lines, |lines|), |lines|, evsz, MissesLeft(upper, migrated, |lines|, Step(conf)), nBctr);
  }

  /** Out of backtracks. */
  lemma EndsBuilt(setOf: Line -> int, conf: Conf, target: Line, lines: seq<Line>, evsz: nat, upper: nat, migrated: nat, nBctr: nat)
    requires evsz <= |lines| && upper <= |lines| && migrated < |lines| && nBctr >= conf.maxBacktrack > 0
    requires Underway(setOf, conf, target, lines, evsz, upper, migrated, nBctr)
    ensures Built(setOf, conf, target, lines, evsz, nBctr)
  {
    GoodCarries(setOf, conf, target, lines, evsz, upper, nBctr);
    hide Good, Outcome, CompleteIfEnough, Spent, Home, MissesLeft;
    GoodEnds(setOf, conf, target, lines, evsz, upper, MissesLeft(upper, migrated, |lines|, Step(conf)), nBctr);
    CompleteIffEnough(setOf, conf, target, lines, evsz, nBctr);
  }

  /** After a search that did not complete the set, and the candidates it brought in. */
  lemma StaysUnderway(setOf: Line -> int, conf: Conf, target: Line, before: seq<Line>, lines: seq<Line>, lines': seq<Line>, evsz: nat,
                      upper0: nat, migrated0: nat, upper: nat, migrated: nat, nBctr: nat, missed: bool, left: nat)
    requires |before| == |lines| == |lines'| && multiset(before) == multiset(lines) == multiset(lines')
    requires evsz <= upper0 <= upper <= |lines| && migrated0 < |lines| && migrated < |lines| && lines'[..upper0] == lines[..upper0]
    requires Good(setOf, conf, target, lines, evsz, upper0, nBctr) && nBctr <= conf.maxBacktrack
    requires Charged(conf, Home(setOf, target, before, |before|), |lines|, evsz, upper0, left, nBctr, missed)
    requires missed ==> left == MissesLeft(upper0, migrated0, |lines|, Step(conf))
    requires (missed || (Slacking(conf) && evsz > conf.nWays - conf.slack)) && upper0 + 1 < |lines| ==>
               MissesLeft(upper, migrated, |lines|, Step(conf)) == MissesLeft(upper0, migrated0, |lines|, Step(conf)) - 1
    ensures Underway(setOf, conf, target, lines', evsz, upper, migrated, nBctr)
  {
    hide Good, Paid, Spent, MissesLeft, Home;
    HomeOfAll(setOf, target, lines', before);
    GoodGrows(setOf, conf, target, lines, lines', evsz, upper0, upper, nBctr);
    ChargedIsPaid(conf, Home(setOf, target, before, |before|), |lines|, evsz, upper0, migrated0, upper, migrated, nBctr, missed);
  }

  /** Lines of one set that fill it are all kept by pruning, in place. */
  lemma {:induction false} CompleteSetIsNotPruned(test: Test, setOf: Line -> int, ways: nat, target: Line,
                                                  lines: seq<Line>, i: nat, t: nat)
    requires Ideal(test, setOf, ways) && i <= ways <= |lines|
    requires forall k :: 0 <= k < ways ==> setOf(lines[k]) == setOf(target)
    ensures PruneFrom(test, target, lines, i, ways, t).lines == lines
    ensures PruneFrom(test, target, lines, i, ways, t).cnt == ways
    decreases ways - i
  {
    if i < ways {
      var q := lines[..ways][i := target];
      LinesInAll(setOf, setOf(target), q);
      IdealAnswer(test, setOf, ways, t, lines[i], q);
      CompleteSetIsNotPruned(test, setOf, ways, target, lines, i + 1, t + 1);
    }
  }

  lemma CompleteSetPasses(test: Test, setOf: Line -> int, ways: nat, target: Line, lines: seq<Line>, t: nat)
    requires Ideal(test, setOf, ways) && |lines| == ways
    requires forall k :: 0 <= k < ways ==> setOf(lines[k]) == setOf(target)
    ensures test(t, target, lines)
    ensures PruneFrom(test, target, lines, 0, ways, t + 1).lines == lines
    ensures PruneFrom(test, target, lines, 0, ways, t + 1).cnt == ways
  {
    LinesInAll(setOf, setOf(target), lines);
    IdealAnswer(test, setOf, ways, t, target, lines);
    CompleteSetIsNotPruned(test, setOf, ways, target, lines, 0, t + 1);
  }

  lemma PermutedInFront(a: seq<Line>, b: seq<Line>, k: nat)
    requires k <= |a| == |b| && multiset(a[..k]) == multiset(b[..k]) && a[k..] == b[k..]
    ensures multiset(a) == multiset(b)
    ensures a[..k] == b[..k] ==> a == b
  {
    assert a == a[..k] + a[k..] && b == b[..k] + b[k..];
  }

  // ---------- the loop ----------

  /** What a search with the ideal test tells about the candidates it looked at. */
  ghost predicate Told(setOf: Line -> int, conf: Conf, target: Line, lines: seq<Line>, evsz: nat, placed: bool, upper: nat)
    requires evsz < upper <= |lines| && evsz <= conf.evCap
  {
    var found := LinesIn(setOf, setOf(target), lines[Offset(conf, evsz)..upper]) >= conf.nWays;
    if placed then found && setOf(lines[upper - 1]) == setOf(target) else !found
  }

  /** One search; a line it exposes is swapped behind the lines already placed. */
  method TryPlace(test: Test, target: Line, cands: array<Line>, conf: Conf, evsz: nat, upper0: nat, isReset: bool,
                  start: nat, ghost setOf: Line -> int)
    returns (placed: bool, upper: nat, t: nat)
    requires evsz < upper0 <= cands.Length && evsz <= conf.evCap
    modifies cands
    ensures evsz < upper <= upper0
    ensures cands[..] == if placed then Swap(old(cands[..]), evsz, upper - 1) else old(cands[..])
    ensures !placed ==> upper == upper0
    ensures Ideal(test, setOf, conf.nWays)
            && LinesIn(setOf, setOf(target), old(cands[..])[Offset(conf, evsz)..evsz]) < conf.nWays
            ==> Told(setOf, conf, target, old(cands[..]), evsz, placed, upper)
  {
    var offset := Offset(conf, evsz);
    ghost var lines := cands[..];
    var lower, hasPos;
    lower, upper, hasPos, t := BinarySearch(test, target, cands, offset, evsz, upper0,
                                            FirstCut(conf, evsz, isReset, evsz, upper0), start, setOf, conf.nWays);
    assert cands[offset..upper] == lines[offset..upper] && cands[offset..lower] == lines[offset..lower];
    placed := true;
    if !hasPos {
      placed := test(t, target, cands[offset..upper]);
      if Ideal(test, setOf, conf.nWays) {
        IdealAnswer(test, setOf, conf.nWays, t, target, cands[offset..upper]);
      }
      t := t + 1;
    }
    if placed {
      if Ideal(test, setOf, conf.nWays) && LinesIn(setOf, setOf(target), lines[offset..evsz]) < conf.nWays {
        CutLineIsHome(setOf, conf.nWays, target, lines, offset, upper);
      }
      SwapLines(cands, evsz, upper - 1);
    }
  }

  /** The premises under which the ideal outcome is promised. */
  ghost predicate IdealRun(test: Test, setOf: Line -> int, conf: Conf) {
    && Ideal(test, setOf, conf.nWays)
    && conf.nWays >= 1 && conf.extraCong == 0 && conf.nWays <= conf.evCap && conf.maxBacktrack > 0
  }

  /** With enough lines placed, prunes them; `done` if there still are enough, `retry` if not. */
  method CheckComplete(test: Test, target: Line, cands: array<Line>, conf: Conf, evsz0: nat, start: nat, ghost setOf: Line -> int)
    returns (evsz: nat, retry: bool, done: bool, t: nat)
    requires evsz0 <= cands.Length
    modifies cands
    ensures evsz <= evsz0 && multiset(cands[..]) == old(multiset(cands[..]))
    ensures !retry ==> evsz == evsz0 || done
    ensures evsz0 < conf.nWays + conf.extraCong ==> !retry && !done && cands[..] == old(cands[..])
    ensures evsz0 == conf.nWays && IdealRun(test, setOf, conf)
            && (forall k :: 0 <= k < evsz0 ==> setOf(old(cands[..])[k]) == setOf(target))
            ==> !retry && done && evsz == evsz0 && cands[..] == old(cands[..])
  {
    evsz, retry, done, t := evsz0, false, false, start;
    if evsz >= conf.nWays + conf.extraCong {
      ghost var lines := cands[..];
      assert cands[..evsz] == lines[..evsz];
      var complete := test(t, target, cands[..evsz]);
      if evsz == conf.nWays && IdealRun(test, setOf, conf)
         && (forall k :: 0 <= k < evsz ==> setOf(lines[k]) == setOf(target)) {
        CompleteSetPasses(test, setOf, conf.nWays, target, lines[..evsz], t);
      }
      t := t + 1;
      if complete {
        PruneFromPermutes(test, target, lines[..evsz], 0, evsz, t);
        evsz, t := PruneEvcands(test, target, cands, evsz, t);
        PermutedInFront(cands[..], lines, evsz0);
        done := evsz >= conf.nWays + conf.extraCong;
        retry := !done;
      }
    }
  }

  lemma SearchFound(setOf: Line -> int, conf: Conf, target: Line, lines: seq<Line>, evsz: nat, upper0: nat, nBctr: nat,
                    upper: nat, left: nat)
    requires evsz < upper <= upper0 <= |lines| && evsz < conf.evCap && Good(setOf, conf, target, lines, evsz, upper0, nBctr)
    requires Told(setOf, conf, target, lines, evsz, true, upper)
    ensures GoodOrComplete(setOf, conf, target, Swap(lines, evsz, upper - 1), evsz + 1, upper, nBctr)
    ensures var total := Home(setOf, target, lines, |lines|);
            Spent(conf, total, |lines|, evsz, left, nBctr) ==> Charged(conf, total, |lines|, evsz + 1, upper, left, nBctr, false)
  {
    var total := Home(setOf, target, lines, |lines|);
    PlaceKeepsGood(setOf, conf, target, lines, evsz, upper0, nBctr, upper);
    if Spent(conf, total, |lines|, evsz, left, nBctr) {
      var n := evsz + 1;
      forall l: nat | l <= PerLine(|lines|, Step(conf)) ensures Spent(conf, total, |lines|, n, l, nBctr) {
        FoundKeepsSpent(conf, total, |lines|, evsz, left, l, nBctr);
      }
    }
  }

  lemma SearchMissed(setOf: Line -> int, conf: Conf, target: Line, lines: seq<Line>, evsz: nat, upper: nat, nBctr: nat, left: nat)
    requires evsz < upper <= |lines| && evsz < conf.evCap && Good(setOf, conf, target, lines, evsz, upper, nBctr)
    requires Told(setOf, conf, target, lines, evsz, false, upper)
    ensures GoodOrComplete(setOf, conf, target, lines, evsz, upper, nBctr + 1)
    ensures var total := Home(setOf, target, lines, |lines|);
            Spent(conf, total, |lines|, evsz, left, nBctr) ==> Charged(conf, total, |lines|, evsz, upper, left, nBctr + 1, true)
  {
    MissKeepsGood(setOf, conf, target, lines, evsz, upper, nBctr);
    MissLeavesRoom(setOf, conf, target, lines, evsz, upper, nBctr);
  }

  /** One search: a line is placed, or a backtrack is counted and fresh candidates are asked for. */
  method SearchOnce(test: Test, target: Line, cands: array<Line>, conf: Conf, evsz0: nat, upper0: nat, isReset0: bool,
                    backtracks0: nat, start: nat, ghost setOf: Line -> int, ghost left: nat)
    returns (evsz: nat, upper: nat, isReset: bool, backtracks: nat, t: nat)
    requires evsz0 < upper0 <= cands.Length && evsz0 < conf.evCap
    modifies cands
    ensures evsz <= upper <= upper0
    ensures isReset ==> upper == upper0
    ensures if isReset then evsz == evsz0 && backtracks == backtracks0 + 1 else evsz == evsz0 + 1 && backtracks == backtracks0
    ensures multiset(cands[..]) == old(multiset(cands[..]))
    ensures IdealRun(test, setOf, conf) && Good(setOf, conf, target, old(cands[..]), evsz0, upper0, backtracks0) ==>
              GoodOrComplete(setOf, conf, target, cands[..], evsz, upper, backtracks)
    ensures IdealRun(test, setOf, conf) && Good(setOf, conf, target, old(cands[..]), evsz0, upper0, backtracks0)
            && Spent(conf, Home(setOf, target, old(cands[..]), cands.Length), cands.Length, evsz0, left, backtracks0) ==>
              Charged(conf, Home(setOf, target, old(cands[..]), cands.Length), cands.Length, evsz, upper, left, backtracks, isReset)
  {
    hide Good, GoodOrComplete, Told, Charged, Spent, LinesIn, Home, Ideal, Swap;
    ghost var lines := cands[..];
    ghost var ideal := IdealRun(test, setOf, conf) && Good(setOf, conf, target, lines, evsz0, upper0, backtracks0);
    if ideal { CarriedAreTooFew(setOf, conf, target, lines, evsz0, upper0, backtracks0); }
    var placed;
    placed, upper, t := TryPlace(test, target, cands, conf, evsz0, upper0, isReset0, start, setOf);
    if placed {
      evsz, isReset, backtracks := evsz0 + 1, false, backtracks0;
      SwapPermutes(lines, evsz0, upper - 1);
      if ideal { SearchFound(setOf, conf, target, lines, evsz0, upper0, backtracks0, upper, left); }
    } else {
      evsz, isReset, backtracks := evsz0, true, backtracks0 + 1;
      if ideal { SearchMissed(setOf, conf, target, lines, evsz0, upper0, backtracks0, left); }
    }
  }

  /** The first half of the loop body: one search, then the check whether the set is complete. */
  method SearchAndCheck(test: Test, target: Line, cands: array<Line>, conf: Conf, evsz0: nat, upper0: nat, isReset0: bool,
                        backtracks0: nat, start: nat, ghost setOf: Line -> int, ghost migrated: nat, ghost left: nat)
    returns (evsz: nat, upper: nat, isReset: bool, backtracks: nat, t: nat, done: bool)
    requires evsz0 < upper0 <= cands.Length && evsz0 < conf.evCap && migrated < cands.Length
    requires left == MissesLeft(upper0, migrated, cands.Length, Step(conf))
    modifies cands
    ensures evsz <= upper <= upper0 && evsz <= evsz0 + 1
    ensures multiset(cands[..]) == old(multiset(cands[..]))
    ensures backtracks >= backtracks0 && (isReset ==> upper == upper0)
    ensures !done && backtracks == backtracks0 ==> evsz == evsz0 + 1
    ensures IdealRun(test, setOf, conf) && backtracks0 < conf.maxBacktrack
            && Underway(setOf, conf, target, old(cands[..]), evsz0, upper0, migrated, backtracks0) ==>
              if done then Built(setOf, conf, target, cands[..], evsz, backtracks)
              else Good(setOf, conf, target, cands[..], evsz, upper, backtracks) && backtracks <= conf.maxBacktrack
                   && Charged(conf, Home(setOf, target, old(cands[..]), cands.Length), cands.Length, evsz, upper, left, backtracks, isReset)
  {
    hide MissesLeft, Spent, Charged, LinesIn, Home, CompleteIfEnough, Built;
    ghost var lines := cands[..];
    evsz, upper, isReset, backtracks, t := SearchOnce(test, target, cands, conf, evsz0, upper0, isReset0, backtracks0,
                                                      start, setOf, left);
    var retry;
    evsz, retry, done, t := CheckComplete(test, target, cands, conf, evsz, t, setOf);
    if retry {
      backtracks := backtracks + 1;
    }
    if IdealRun(test, setOf, conf) && backtracks0 < conf.maxBacktrack && done
       && Underway(setOf, conf, target, lines, evsz0, upper0, migrated, backtracks0) {
      DoneIsBuilt(setOf, conf, target, lines, cands[..], evsz0, upper0, migrated, backtracks0);
    }
  }

  /** The second half: after a miss, or when placed lines are left out, bring in fresh candidates. */
  method BringIn(cands: array<Line>, conf: Conf, evsz: nat, upper0: nat, migrated0: nat, isReset: bool)
    returns (upper: nat, migrated: nat, failed: bool)
    requires evsz <= upper0 <= cands.Length && migrated0 < cands.Length && evsz <= conf.evCap
    modifies cands
    ensures multiset(cands[..]) == old(multiset(cands[..]))
    ensures cands[..][..upper0] == old(cands[..])[..upper0]
    ensures migrated < cands.Length && upper0 <= upper && evsz < upper
    ensures var moved := isReset || Offset(conf, evsz) > 0;
            var m := if moved then Migrate(Migration(old(cands[..]), upper0, FarEnd(upper0, migrated0, cands.Length)), Step(conf))
                     else Migration(old(cands[..]), upper0, migrated0);
            && cands[..] == m.lines && migrated == m.migrated && upper == (if m.upper <= evsz then evsz + 1 else m.upper)
            && (moved && upper0 + 1 < cands.Length ==>
                  && upper0 < upper
                  && MissesLeft(upper, migrated, cands.Length, Step(conf)) == MissesLeft(upper0, migrated0, cands.Length, Step(conf)) - 1)
    ensures failed <==> upper > cands.Length
    ensures failed ==> evsz == cands.Length
  {
    hide MissesLeft, Moved, Migrate;
    upper, migrated, failed := upper0, migrated0, false;
    if isReset || (conf.slack != 0 && evsz > NumCarried(conf)) {
      if upper >= migrated {
        migrated := cands.Length - 1;
      }
      var step := Step(conf);
      MigratePermutes(Migration(cands[..], upper, migrated), step);
      MigrateKeepsPrefix(Migration(cands[..], upper, migrated), step);
      ghost var m := Migration(cands[..], upper, migrated);
      upper, migrated := MigrateLines(cands, upper, migrated, step);
      if upper0 + 1 < cands.Length {
        MigrateMoves(m, step);
        MissIsPaid(upper0, migrated0, cands.Length, step, m.migrated, upper, migrated);
      }
    }
    if upper <= evsz {
      upper := evsz + 1;
      failed := upper > cands.Length;
    }
  }

  /**
   Builds an eviction set for `target` in place at the front of the candidates.  Whatever the test
   answers: it terminates, stays inside the candidates, only permutes them and respects the capacity.
   With the ideal test it has the outcome described above.
   */
  method BuildEvsetZhao(test: Test, target: Line, cands: array<Line>, conf: Conf, ghost setOf: Line -> int)
    returns (err: bool, addrs: seq<Line>, backtracks: nat)
    modifies cands
    ensures multiset(cands[..]) == old(multiset(cands[..]))
    ensures err <==> cands.Length <= 1
    ensures !err ==> |addrs| <= conf.evCap && addrs <= cands[..]
    ensures !err && IdealRun(test, setOf, conf) ==> Built(setOf, conf, target, cands[..], |addrs|, backtracks)
  {
    hide Good, Underway, Built, MissesLeft, Charged, Migrate;
    backtracks := 0;
    if cands.Length <= 1 {
      return true, [], 0;
    }
    var evsz: nat, upper: nat, migrated: nat, t: nat := 0, cands.Length, cands.Length - 1, 0;
    var isReset := false;
    var done, failed := false, false;
    if conf.nWays >= 1 { StartsUnderway(setOf, conf, target, cands[..]); }
    while evsz < conf.evCap && backtracks < conf.maxBacktrack && !done && !failed
      invariant evsz <= conf.evCap && evsz <= cands.Length && migrated < cands.Length
      invariant !done && !failed ==> evsz < upper <= cands.Length
      invariant multiset(cands[..]) == old(multiset(cands[..]))
      invariant IdealRun(test, setOf, conf) ==>
                  && !failed
                  && if done then Built(setOf, conf, target, cands[..], evsz, backtracks)
                     else evsz < conf.nWays && Underway(setOf, conf, target, cands[..], evsz, upper, migrated, backtracks)
      decreases if done || failed then 0 else 1,
                if backtracks < conf.maxBacktrack then conf.maxBacktrack - backtracks else 0,
                conf.evCap - evsz
    {
      ghost var before, left := cands[..], MissesLeft(upper, migrated, cands.Length, Step(conf));
      evsz, upper, isReset, backtracks, t, done :=
        SearchAndCheck(test, target, cands, conf, evsz, upper, isReset, backtracks, t, setOf, migrated, left);
      if !done {
        ghost var lines, upper0, migrated0 := cands[..], upper, migrated;
        upper, migrated, failed := BringIn(cands, conf, evsz, upper, migrated, isReset);
        if IdealRun(test, setOf, conf) {
          GoodLeavesRoom(setOf, conf, target, lines, evsz, upper0, backtracks);
          StaysUnderway(setOf, conf, target, before, lines, cands[..], evsz, upper0, migrated0, upper, migrated, backtracks, isReset, left);
        }
      }
    }
    err, addrs := false, cands[..evsz];
    if IdealRun(test, setOf, conf) && !done {
      EndsBuilt(setOf, conf, target, cands[..], evsz, upper, migrated, backtracks);
    }
  }

  /** Two candidates, both of the target's set, fill a cache of two ways, but with slack 2 only one is found. */
  method SlackLosesALine() returns (addrs: seq<Line>)
    ensures |addrs| == 1
  {
    var setOf: Line -> int := _ => 0;
    var test: Test := (t, target, list) => LinesIn(setOf, setOf(target), list) >= 2;
    var cands := new Line[2](i => i);
    var err, backtracks;
    err, addrs, backtracks := BuildEvsetZhao(test, 7, cands, Conf(2, 2, 0, 20, 2, 0), setOf);
    ghost var lines := cands[..];
    LinesInAll(setOf, 0, lines[..2]);
  }
}
