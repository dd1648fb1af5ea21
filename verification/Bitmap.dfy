/**
 CPU masks (scx/lib/bitmap.bpf.c) and the first-set-bit search (scx/scheds/include/lib/sdt_task.h).
 A machine word is given by its 64 bits, least significant first; a mask is a list of words and
 stands for a set of CPU numbers.
 */
module Bitmap {
  type Word = w: seq<bool> | |w| == 64 witness seq(64, _ => false)

  type Mask = seq<Word>

  function Not(w: Word): (r: Word)
    ensures forall k :: 0 <= k < 64 ==> (r[k] <==> !w[k])
  {
    seq(64, k requires 0 <= k < 64 => !w[k])
  }

  function And(a: Word, b: Word): (r: Word)
    ensures forall k :: 0 <= k < 64 ==> (r[k] <==> a[k] && b[k])
  {
    seq(64, k requires 0 <= k < 64 => a[k] && b[k])
  }

  /** Bits `lo` up to `hi` are all clear. */
  predicate ClearBits(w: Word, lo: int, hi: int)
    requires 0 <= lo <= hi <= 64
  {
    forall k :: lo <= k < hi ==> !w[k]
  }

  predicate IsZero(w: Word) {
    ClearBits(w, 0, 64)
  }

  /** Halving search for the lowest set bit; the shifts of the source are kept as an offset. */
  function Ffs(word: Word): (num: nat)
    requires !IsZero(word)
    ensures num < 64 && word[num] && ClearBits(word, 0, num)
  {
    var n := if ClearBits(word, 0, 32) then 32 else 0;
    var n := if ClearBits(word, n, n + 16) then n + 16 else n;
    var n := if ClearBits(word, n, n + 8) then n + 8 else n;
    var n := if ClearBits(word, n, n + 4) then n + 4 else n;
    var n := if ClearBits(word, n, n + 2) then n + 2 else n;
    if ClearBits(word, n, n + 1) then n + 1 else n
  }

  /** Bit number `c` of a mask. */
  predicate Bit(mask: Mask, c: nat)
    requires c < 64 * |mask|
  {
    mask[c / 64][c % 64]
  }

  function Cpus(mask: Mask): set<nat> {
    set c | 0 <= c < 64 * |mask| && Bit(mask, c)
  }

  lemma BitOf(mask: Mask, i: nat, k: nat)
    requires i < |mask| && k < 64
    ensures 64 * i + k < 64 * |mask|
    ensures Bit(mask, 64 * i + k) <==> mask[i][k]
  {
  }

  method TestCpu(cpu: nat, mask: Mask) returns (r: bool)
    requires cpu < 64 * |mask|
    ensures r <==> cpu in Cpus(mask)
  {
    r := mask[cpu / 64][cpu % 64];
  }

  /** `small` is a subset of `big`, word by word. */
  method Subset(big: Mask, small: Mask) returns (r: bool)
    requires |big| == |small|
    ensures r <==> Cpus(small) <= Cpus(big)
  {
    for i := 0 to |big|
      invariant forall c :: 0 <= c < 64 * i && Bit(small, c) ==> Bit(big, c)
    {
      if !IsZero(And(Not(big[i]), small[i])) {
        ghost var k :| 0 <= k < 64 && And(Not(big[i]), small[i])[k];
        BitOf(big, i, k);
        BitOf(small, i, k);
        assert 64 * i + k in Cpus(small) && 64 * i + k !in Cpus(big);
        return false;
      }
      forall c | 64 * i <= c < 64 * (i + 1) && Bit(small, c) ensures Bit(big, c) {
        assert !And(Not(big[i]), small[i])[c % 64];
      }
    }
    return true;
  }

  /** Some CPU is in both masks. */
  method Intersects(a: Mask, b: Mask) returns (r: bool)
    requires |a| == |b|
    ensures r <==> !(Cpus(a) !! Cpus(b))
  {
    for i := 0 to |a|
      invariant forall c :: 0 <= c < 64 * i && Bit(a, c) ==> !Bit(b, c)
    {
      if !IsZero(And(a[i], b[i])) {
        ghost var k :| 0 <= k < 64 && And(a[i], b[i])[k];
        BitOf(a, i, k);
        BitOf(b, i, k);
        assert 64 * i + k in Cpus(a) && 64 * i + k in Cpus(b);
        return true;
      }
      forall c | 64 * i <= c < 64 * (i + 1) && Bit(a, c) ensures !Bit(b, c) {
        assert !And(a[i], b[i])[c % 64];
      }
    }
    return false;
  }

  // ---------- counting and changing bits ----------

  /** The mask with bit `c` set to `state`. */
  function SetBit(mask: Mask, c: nat, state: bool): (r: Mask)
    requires c < 64 * |mask|
    ensures |r| == |mask|
    ensures forall k: nat :: k < 64 * |mask| ==> (Bit(r, k) <==> if k == c then state else Bit(mask, k))
  {
    mask[c / 64 := mask[c / 64][c % 64 := state]]
  }

  /** How many of the first `n` bits are clear. */
  function ClearBelow(mask: Mask, n: nat): (r: nat)
    requires n <= 64 * |mask|
    ensures r <= n
  {
    if n == 0 then 0 else ClearBelow(mask, n - 1) + if Bit(mask, n - 1) then 0 else 1
  }

  function ClearCount(mask: Mask): nat {
    ClearBelow(mask, 64 * |mask|)
  }

  lemma {:induction false} SetBitCounts(mask: Mask, c: nat, state: bool, n: nat)
    requires c < 64 * |mask| && n <= 64 * |mask|
    ensures ClearBelow(SetBit(mask, c, state), n) ==
            ClearBelow(mask, n) + if c >= n || Bit(mask, c) == state then 0 else if state then -1 else 1
  {
    if n > 0 { SetBitCounts(mask, c, state, n - 1); }
  }

  lemma {:induction false} NoneClear(mask: Mask, n: nat)
    requires n <= 64 * |mask|
    ensures ClearBelow(mask, n) == 0 <==> forall k: nat :: k < n ==> Bit(mask, k)
  {
    if n > 0 { NoneClear(mask, n - 1); }
  }

  lemma {:induction false} AllClear(mask: Mask, n: nat)
    requires n <= 64 * |mask| && forall k: nat :: k < n ==> !Bit(mask, k)
    ensures ClearBelow(mask, n) == n
  {
    if n > 0 { AllClear(mask, n - 1); }
  }

  /** The first clear bit, or the number of bits if there is none (`chunk_find_empty`). */
  method FindEmpty(mask: Mask) returns (pos: nat)
    ensures pos <= 64 * |mask|
    ensures pos < 64 * |mask| ==> !Bit(mask, pos)
    ensures forall k: nat :: k < pos ==> Bit(mask, k)
  {
    for i := 0 to |mask|
      invariant forall k: nat :: k < 64 * i ==> Bit(mask, k)
    {
      var freeslots := Not(mask[i]);
      if !IsZero(freeslots) {
        var n := Ffs(freeslots);
        forall k: nat | k < 64 * i + n ensures Bit(mask, k) {
          if k >= 64 * i {
            BitOf(mask, i, k - 64 * i);
            assert !freeslots[k - 64 * i];
          }
        }
        BitOf(mask, i, n);
        return 64 * i + n;
      }
      forall k: nat | k < 64 * (i + 1) ensures Bit(mask, k) {
        if k >= 64 * i {
          BitOf(mask, i, k - 64 * i);
          assert !freeslots[k - 64 * i];
        }
      }
    }
    return 64 * |mask|;
  }
}
