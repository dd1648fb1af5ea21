/**
 The index allocator of scx/lib/sdt_alloc.bpf.c: a set of live indices that hands out the least free
 one, kept as a radix tree of bitmaps with free counts.  Calls run under the allocator's lock, fresh
 pages come zeroed, and page allocation does not fail.
 */
module RadixAllocator {
  import opened Common
  import opened Bitmap
  import opened RadixTree

  datatype Status = Ok | Invalid

  ghost predicate Linked(descs: seq<Desc>, lvDesc: seq<nat>, lvPos: seq<nat>, l: nat) {
    l + 1 < |lvDesc| && l < |lvPos| && Child(descs, lvDesc[l], lvPos[l], lvDesc[l + 1])
  }

  /** The descriptors from the root to the leaf of an index, and the entry taken in each. */
  ghost predicate PathOk(descs: seq<Desc>, at: seq<Place>, levels: nat, words: nat, idx: nat, lvDesc: seq<nat>, lvPos: seq<nat>)
    requires Shape(descs, at, levels, words)
  {
    && |lvDesc| == |lvPos| == levels >= 1 && lvDesc[0] == 0
    && (forall l: nat {:trigger lvDesc[l]} :: l < levels ==>
          lvDesc[l] < |descs| && at[lvDesc[l]].level == l && CoversIndex(at, levels, words, lvDesc[l], idx))
    && (forall l: nat {:trigger lvPos[l]} :: l < levels ==> lvPos[l] == Digit(levels, words, l, idx))
    && (forall l: nat {:trigger Linked(descs, lvDesc, lvPos, l)} :: l + 1 < levels ==> Linked(descs, lvDesc, lvPos, l))
  }

  /** The entry above level `l` of a path. */
  function EntryAbove(lvDesc: seq<nat>, lvPos: seq<nat>, l: nat): Pending
    requires l < |lvDesc| == |lvPos|
  {
    if l == 0 then Nowhere else Here(lvDesc[l - 1], lvPos[l - 1])
  }

  /** The state between two turns of an upward loop: below level `l` all is settled. */
  ghost predicate Climbing(descs: seq<Desc>, at: seq<Place>, levels: nat, words: nat, live: set<nat>, idx: nat,
                           lvDesc: seq<nat>, lvPos: seq<nat>, l: nat, state: bool)
  {
    && levels >= 1 && Shape(descs, at, levels, words) && PathOk(descs, at, levels, words, idx, lvDesc, lvPos) && l < levels
    && Drop(idx, Fanout(words), levels) == 0
    && if l == levels - 1 then Tree(descs, at, levels, words, live, Nowhere) && (idx in live) != state
       else
         && Tree(descs, at, levels, words, FlipLive(live, idx, state), Here(lvDesc[l], lvPos[l]))
         && Bit(descs[lvDesc[l]].bits, lvPos[l]) != state
  }

  lemma ClimbOn(descs: seq<Desc>, at: seq<Place>, levels: nat, words: nat, live: set<nat>, idx: nat,
                lvDesc: seq<nat>, lvPos: seq<nat>, l: nat, state: bool)
    requires Climbing(descs, at, levels, words, live, idx, lvDesc, lvPos, l, state) && l > 0
    requires lvDesc[l] < |descs| && lvPos[l] < Fanout(words) && |descs[lvDesc[l]].bits| == words
    requires (state ==> descs[lvDesc[l]].nrFree > 0) && Turned(descs, lvDesc[l], state)
    requires Tree(Flip(descs, lvDesc[l], lvPos[l], state), at, levels, words, FlipLive(live, idx, state), Here(lvDesc[l - 1], lvPos[l - 1]))
    ensures Climbing(Flip(descs, lvDesc[l], lvPos[l], state), at, levels, words, live, idx, lvDesc, lvPos, l - 1, state)
  {
    var r := Flip(descs, lvDesc[l], lvPos[l], state);
    var p, k := lvDesc[l - 1], lvPos[l - 1];
    assert PathOk(r, at, levels, words, idx, lvDesc, lvPos) by {
      forall m: nat | m + 1 < levels ensures Linked(r, lvDesc, lvPos, m) {
        assert Linked(descs, lvDesc, lvPos, m);
      }
    }
    assert Linked(descs, lvDesc, lvPos, l - 1);
    assert at[p].level == l - 1 && at[lvDesc[l]].level == l;
    assert r[p].children == descs[p].children;
    assert ChildFull(r, p, k) <==> state;
    assert Bit(r[p].bits, k) <==> !ChildFull(r, p, k);
  }

  /** One turn of an upward loop: it settles level `l` and either ends or moves one level up. */
  lemma ClimbStep(descs: seq<Desc>, at: seq<Place>, levels: nat, words: nat, live: set<nat>, idx: nat,
                  lvDesc: seq<nat>, lvPos: seq<nat>, l: nat, state: bool)
    requires Climbing(descs, at, levels, words, live, idx, lvDesc, lvPos, l, state)
    ensures lvDesc[l] < |descs| && lvPos[l] < Fanout(words) && |descs[lvDesc[l]].bits| == words
    ensures state ==> descs[lvDesc[l]].nrFree > 0
    ensures var r := Flip(descs, lvDesc[l], lvPos[l], state);
            if Turned(descs, lvDesc[l], state) && l > 0
            then Climbing(r, at, levels, words, live, idx, lvDesc, lvPos, l - 1, state)
            else Tree(r, at, levels, words, FlipLive(live, idx, state), Nowhere)
  {
    var d, c, up := lvDesc[l], lvPos[l], EntryAbove(lvDesc, lvPos, l);
    assert at[d].level == l && |descs[d].bits| == words;
    assert d == 0 <==> l == 0 by { assert at[0] == Place(0, 0); assert l == 0 ==> lvDesc[0] == 0; }
    if l > 0 { assert Linked(descs, lvDesc, lvPos, l - 1); }
    if l == levels - 1 {
      assert c == idx % Fanout(words);
      FlipLeaf(descs, at, levels, words, live, d, idx, state, up);
    } else {
      FlipInterior(descs, at, levels, words, FlipLive(live, idx, state), d, c, state, up);
    }
    if Turned(descs, d, state) && l > 0 {
      ClimbOn(descs, at, levels, words, live, idx, lvDesc, lvPos, l, state);
    }
  }

  /** All descriptors and entries of a path are in range. */
  ghost predicate InBounds(descs: seq<Desc>, lvDesc: seq<nat>, lvPos: seq<nat>) {
    |lvDesc| == |lvPos| && forall l: nat {:trigger lvDesc[l]} {:trigger lvPos[l]} :: l < |lvDesc| ==>
      lvDesc[l] < |descs| && lvPos[l] < 64 * |descs[lvDesc[l]].bits|
  }

  /** An upward loop from level `l`: it goes on while the free count shows that the descriptor turned. */
  ghost function MarkUp(descs: seq<Desc>, lvDesc: seq<nat>, lvPos: seq<nat>, l: nat, state: bool): seq<Desc>
    requires InBounds(descs, lvDesc, lvPos) && l < |lvDesc|
    decreases l
  {
    var r := Flip(descs, lvDesc[l], lvPos[l], state);
    if r[lvDesc[l]].nrFree > (if state then 0 else 1) || l == 0 then r else MarkUp(r, lvDesc, lvPos, l - 1, state)
  }

  lemma {:induction false} MarkUpSettles(descs: seq<Desc>, at: seq<Place>, levels: nat, words: nat, live: set<nat>, idx: nat,
                                         lvDesc: seq<nat>, lvPos: seq<nat>, l: nat, state: bool)
    requires Climbing(descs, at, levels, words, live, idx, lvDesc, lvPos, l, state)
    requires InBounds(descs, lvDesc, lvPos)
    ensures Tree(MarkUp(descs, lvDesc, lvPos, l, state), at, levels, words, FlipLive(live, idx, state), Nowhere)
    decreases l
  {
    hide Tree;
    ClimbStep(descs, at, levels, words, live, idx, lvDesc, lvPos, l, state);
    if Turned(descs, lvDesc[l], state) && l > 0 {
      MarkUpSettles(Flip(descs, lvDesc[l], lvPos[l], state), at, levels, words, live, idx, lvDesc, lvPos, l - 1, state);
    }
  }

  lemma PathInBounds(descs: seq<Desc>, at: seq<Place>, levels: nat, words: nat, idx: nat, lvDesc: seq<nat>, lvPos: seq<nat>)
    requires Shape(descs, at, levels, words) && PathOk(descs, at, levels, words, idx, lvDesc, lvPos)
    ensures InBounds(descs, lvDesc, lvPos)
  {
    forall l: nat | l < levels ensures lvDesc[l] < |descs| && lvPos[l] < 64 * |descs[lvDesc[l]].bits| {
      assert |descs[lvDesc[l]].bits| == words;
    }
  }

  // ---------- going down ----------

  /** The first `level` descriptors of a path under construction, and the descriptor it has reached. */
  ghost predicate Chain(descs: seq<Desc>, at: seq<Place>, levels: nat, words: nat, lvDesc: seq<nat>, lvPos: seq<nat>, desc: nat)
    requires Shape(descs, at, levels, words)
  {
    var level := |lvDesc|;
    && |lvPos| == level < levels && desc < |descs| && at[desc].level == level
    && (forall l: nat {:trigger lvDesc[l]} :: l < level ==> lvDesc[l] < |descs| && at[lvDesc[l]].level == l)
    && (forall l: nat {:trigger lvPos[l]} :: l < level ==> lvPos[l] < Fanout(words))
    && (if level == 0 then desc == 0 else lvDesc[0] == 0)
    && (forall l: nat {:trigger Linked(descs, lvDesc + [desc], lvPos, l)} :: l < level ==> Linked(descs, lvDesc + [desc], lvPos, l))
  }

  lemma ChainStart(descs: seq<Desc>, at: seq<Place>, levels: nat, words: nat)
    requires Shape(descs, at, levels, words) && levels >= 1
    ensures Chain(descs, at, levels, words, [], [], 0)
  {
  }

  lemma ChainStep(descs: seq<Desc>, at: seq<Place>, levels: nat, words: nat, lvDesc: seq<nat>, lvPos: seq<nat>,
                  desc: nat, pos: nat, child: nat)
    requires Shape(descs, at, levels, words) && Chain(descs, at, levels, words, lvDesc, lvPos, desc)
    requires |lvDesc| + 1 < levels && Child(descs, desc, pos, child)
    ensures Chain(descs, at, levels, words, lvDesc + [desc], lvPos + [pos], child)
  {
    var lvDesc', lvPos' := lvDesc + [desc], lvPos + [pos];
    assert |descs[desc].children| == Fanout(words);
    forall l: nat | l < |lvDesc'| ensures Linked(descs, lvDesc' + [child], lvPos', l) {
      if l < |lvDesc| {
        assert Linked(descs, lvDesc + [desc], lvPos, l);
      }
    }
  }

  lemma ChainGrows(descs: seq<Desc>, at: seq<Place>, levels: nat, words: nat, lvDesc: seq<nat>, lvPos: seq<nat>,
                   desc: nat, pos: nat)
    requires Shape(descs, at, levels, words) && Chain(descs, at, levels, words, lvDesc, lvPos, desc)
    requires pos < Fanout(words) && descs[desc].children[pos] == None
    requires Shape(Grow(descs, desc, pos, words), GrowPlaces(at, desc, pos, words), levels, words)
    ensures Chain(Grow(descs, desc, pos, words), GrowPlaces(at, desc, pos, words), levels, words, lvDesc, lvPos, desc)
  {
    forall l: nat | l < |lvDesc| ensures Linked(Grow(descs, desc, pos, words), lvDesc + [desc], lvPos, l) {
      assert Linked(descs, lvDesc + [desc], lvPos, l);
      GrowChild(descs, desc, pos, words, (lvDesc + [desc])[l], lvPos[l], (lvDesc + [desc])[l + 1]);
    }
  }

  /** A chain that has reached a leaf is the path of the index its digits spell. */
  lemma {:induction false} ChainCovers(descs: seq<Desc>, at: seq<Place>, levels: nat, words: nat,
                                       lvDesc: seq<nat>, lvPos: seq<nat>, desc: nat, pos: nat, l: nat)
    requires Shape(descs, at, levels, words) && Chain(descs, at, levels, words, lvDesc, lvPos, desc)
    requires |lvDesc| == levels - 1 && pos < Fanout(words) && l < levels
    ensures var idx, d, c := at[desc].prefix * Fanout(words) + pos, (lvDesc + [desc])[l], (lvPos + [pos])[l];
            d < |at| && at[d].level == l && CoversIndex(at, levels, words, d, idx) && c == Digit(levels, words, l, idx)
    decreases levels - l
  {
    var e := Fanout(words);
    var idx, d, c := at[desc].prefix * e + pos, (lvDesc + [desc])[l], (lvPos + [pos])[l];
    if l == levels - 1 {
      JoinDigit(at[desc].prefix, pos, e);
      assert Drop(idx, e, 1) == idx / e;
    } else {
      ChainCovers(descs, at, levels, words, lvDesc, lvPos, desc, pos, l + 1);
      assert Linked(descs, lvDesc + [desc], lvPos, l);
      var x := (lvDesc + [desc])[l + 1];
      assert at[x] == Place(at[d].level + 1, at[d].prefix * e + c);
      JoinDigit(at[d].prefix, c, e);
      DropOneMore(idx, e, levels - 1 - l);
    }
  }

  lemma ChainIsPath(descs: seq<Desc>, at: seq<Place>, levels: nat, words: nat, lvDesc: seq<nat>, lvPos: seq<nat>, desc: nat, pos: nat)
    requires Shape(descs, at, levels, words) && Chain(descs, at, levels, words, lvDesc, lvPos, desc)
    requires |lvDesc| == levels - 1 && pos < Fanout(words)
    ensures PathOk(descs, at, levels, words, at[desc].prefix * Fanout(words) + pos, lvDesc + [desc], lvPos + [pos])
    ensures Drop(at[desc].prefix * Fanout(words) + pos, Fanout(words), levels) == 0
  {
    var idx := at[desc].prefix * Fanout(words) + pos;
    var ds, cs := lvDesc + [desc], lvPos + [pos];
    forall l: nat | l < levels
      ensures ds[l] < |at| && at[ds[l]].level == l && CoversIndex(at, levels, words, ds[l], idx) && cs[l] == Digit(levels, words, l, idx)
    {
      ChainCovers(descs, at, levels, words, lvDesc, lvPos, desc, pos, l);
    }
    forall l: nat | l + 1 < levels ensures Linked(descs, ds, cs, l) {
      assert Linked(descs, lvDesc + [desc], lvPos, l);
    }
    assert ds[0] == 0;
    assert CoversIndex(at, levels, words, ds[0], idx);
  }

  /** Every index whose first digits are below those of descriptor `desc` is live. */
  ghost predicate LiveBelow(live: set<nat>, levels: nat, words: nat, level: nat, prefix: nat)
    requires words >= 1 && level <= levels
  {
    forall q: nat {:trigger Drop(q, Fanout(words), levels - level)} :: Drop(q, Fanout(words), levels - level) < prefix ==> q in live
  }

  lemma PrefixEqual(a: nat, c: nat, b: nat, pos: nat, e: nat)
    requires a >= b && a * e + c < b * e + pos && pos <= e
    ensures a == b && c < pos
  {
    assert (b + 1) * e == b * e + e;
    FactorLess(a, b + 1, e);
  }

  lemma EntryBelowIsLive(descs: seq<Desc>, at: seq<Place>, levels: nat, words: nat, live: set<nat>, d: nat, pos: nat, q: nat)
    requires Tree(descs, at, levels, words, live, Nowhere) && d < |descs| && pos <= Fanout(words)
    requires LiveBelow(live, levels, words, at[d].level, at[d].prefix)
    requires forall k: nat :: k < pos ==> Bit(descs[d].bits, k)
    requires Drop(q, Fanout(words), levels - (at[d].level + 1)) < at[d].prefix * Fanout(words) + pos
    ensures q in live
  {
    var e, level := Fanout(words), at[d].level;
    var c := Digit(levels, words, level, q);
    CoverStep(levels, words, level, q);
    if Drop(q, e, levels - level) >= at[d].prefix {
      PrefixEqual(Drop(q, e, levels - level), c, at[d].prefix, pos, e);
      assert Bit(descs[d].bits, c);
      if level < levels - 1 {
        var x := descs[d].children[c].value;
        assert Child(descs, d, c, x);
        ChildCovers(descs, at, levels, words, q, d, x);
        FullMeansLive(descs, at, levels, words, live, x, q);
      }
    }
  }

  /** Choosing the first clear entry keeps everything before it live. */
  lemma LiveBelowStep(descs: seq<Desc>, at: seq<Place>, levels: nat, words: nat, live: set<nat>, d: nat, pos: nat)
    requires Tree(descs, at, levels, words, live, Nowhere) && d < |descs| && pos <= Fanout(words)
    requires LiveBelow(live, levels, words, at[d].level, at[d].prefix)
    requires forall k: nat :: k < pos ==> Bit(descs[d].bits, k)
    ensures LiveBelow(live, levels, words, at[d].level + 1, at[d].prefix * Fanout(words) + pos)
  {
    var e, level := Fanout(words), at[d].level;
    forall q: nat | Drop(q, e, levels - (level + 1)) < at[d].prefix * e + pos ensures q in live {
      EntryBelowIsLive(descs, at, levels, words, live, d, pos, q);
    }
  }

  /** The state of the downward loop. */
  ghost predicate Descending(descs: seq<Desc>, at: seq<Place>, levels: nat, words: nat, live: set<nat>,
                             lvDesc: seq<nat>, lvPos: seq<nat>, desc: nat, idx: nat)
  {
    && Tree(descs, at, levels, words, live, Nowhere) && Chain(descs, at, levels, words, lvDesc, lvPos, desc)
    && at[desc].prefix == idx && LiveBelow(live, levels, words, |lvDesc|, idx)
    && (|lvDesc| > 0 ==> descs[desc].nrFree > 0)
  }

  /** No clear entry: this can only be the root, and then everything is live. */
  lemma DescentStarts(descs: seq<Desc>, at: seq<Place>, levels: nat, words: nat, live: set<nat>)
    requires Tree(descs, at, levels, words, live, Nowhere)
    ensures Descending(descs, at, levels, words, live, [], [], 0, 0)
  {
    ChainStart(descs, at, levels, words);
  }

  lemma DescentIs(descs: seq<Desc>, at: seq<Place>, levels: nat, words: nat, live: set<nat>,
                  lvDesc: seq<nat>, lvPos: seq<nat>, desc: nat, idx: nat)
    requires Descending(descs, at, levels, words, live, lvDesc, lvPos, desc, idx)
    ensures Tree(descs, at, levels, words, live, Nowhere) && Shape(descs, at, levels, words) && levels >= 1 && words >= 1
    ensures Chain(descs, at, levels, words, lvDesc, lvPos, desc) && |lvDesc| < levels && desc < |descs| == |at|
    ensures |descs[desc].bits| == words && at[desc].level == |lvDesc| && at[desc].prefix == idx
    ensures LiveBelow(live, levels, words, |lvDesc|, idx)
  {
  }

  lemma DescentGoesOn(descs: seq<Desc>, at: seq<Place>, levels: nat, words: nat, live: set<nat>,
                      lvDesc: seq<nat>, lvPos: seq<nat>, desc: nat, idx: nat)
    requires Tree(descs, at, levels, words, live, Nowhere) && Chain(descs, at, levels, words, lvDesc, lvPos, desc)
    requires at[desc].prefix == idx && descs[desc].nrFree > 0
    requires |lvDesc| < levels && LiveBelow(live, levels, words, |lvDesc|, idx)
    ensures Descending(descs, at, levels, words, live, lvDesc, lvPos, desc, idx)
  {
  }

  lemma NothingFree(descs: seq<Desc>, at: seq<Place>, levels: nat, words: nat, live: set<nat>,
                    lvDesc: seq<nat>, lvPos: seq<nat>, desc: nat, idx: nat)
    requires Descending(descs, at, levels, words, live, lvDesc, lvPos, desc, idx)
    requires forall k: nat :: k < Fanout(words) ==> Bit(descs[desc].bits, k)
    ensures forall q: nat :: Drop(q, Fanout(words), levels) == 0 ==> q in live
  {
    NoneClear(descs[desc].bits, Fanout(words));
    assert descs[desc].nrFree == ClearCount(descs[desc].bits);
    forall q: nat | Drop(q, Fanout(words), levels) == 0 ensures q in live {
      FullMeansLive(descs, at, levels, words, live, desc, q);
    }
  }

  /** At a leaf the first clear entry is the least index that is not live. */
  lemma LeafChosen(descs: seq<Desc>, at: seq<Place>, levels: nat, words: nat, live: set<nat>,
                   lvDesc: seq<nat>, lvPos: seq<nat>, desc: nat, idx: nat, pos: nat)
    requires Descending(descs, at, levels, words, live, lvDesc, lvPos, desc, idx)
    requires |lvDesc| == levels - 1 && pos < Fanout(words)
    requires !Bit(descs[desc].bits, pos) && forall k: nat :: k < pos ==> Bit(descs[desc].bits, k)
    ensures PathOk(descs, at, levels, words, idx * Fanout(words) + pos, lvDesc + [desc], lvPos + [pos])
    ensures Drop(idx * Fanout(words) + pos, Fanout(words), levels) == 0
    ensures idx * Fanout(words) + pos !in live && forall q: nat :: q < idx * Fanout(words) + pos ==> q in live
  {
    ChainIsPath(descs, at, levels, words, lvDesc, lvPos, desc, pos);
    LiveBelowStep(descs, at, levels, words, live, desc, pos);
    forall q: nat | q < idx * Fanout(words) + pos ensures q in live {
      assert Drop(q, Fanout(words), levels - (at[desc].level + 1)) == q;
    }
  }

  /** Part of the path of an index, as the walk of a release has it. */
  ghost predicate Walked(descs: seq<Desc>, at: seq<Place>, levels: nat, words: nat, idx: nat,
                         lvDesc: seq<nat>, lvPos: seq<nat>, desc: nat)
    requires Shape(descs, at, levels, words)
  {
    && Chain(descs, at, levels, words, lvDesc, lvPos, desc) && CoversIndex(at, levels, words, desc, idx)
  }

  lemma WalkStart(descs: seq<Desc>, at: seq<Place>, levels: nat, words: nat, idx: nat)
    requires levels >= 1 && Shape(descs, at, levels, words)
    ensures Walked(descs, at, levels, words, Low(idx, Fanout(words), levels), [], [], 0)
  {
    LowDigits(idx, Fanout(words), levels, 0);
  }

  /** A walk that has reached the leaf of an index is that index's path. */
  lemma WalkIsPath(descs: seq<Desc>, at: seq<Place>, levels: nat, words: nat, idx: nat, lvDesc: seq<nat>, lvPos: seq<nat>, desc: nat)
    requires Shape(descs, at, levels, words) && Walked(descs, at, levels, words, idx, lvDesc, lvPos, desc)
    requires |lvDesc| == levels - 1
    ensures PathOk(descs, at, levels, words, idx, lvDesc + [desc], lvPos + [Digit(levels, words, levels - 1, idx)])
  {
    ChainIsPath(descs, at, levels, words, lvDesc, lvPos, desc, Digit(levels, words, levels - 1, idx));
    CoverStep(levels, words, levels - 1, idx);
  }

  lemma SameBits(a: Mask, b: Mask)
    requires |a| == |b| && forall k: nat :: k < 64 * |a| ==> (Bit(a, k) <==> Bit(b, k))
    ensures a == b
  {
    forall i | 0 <= i < |a| ensures a[i] == b[i] {
      forall k | 0 <= k < 64 ensures a[i][k] == b[i][k] {
        BitOf(a, i, k);
        BitOf(b, i, k);
      }
    }
  }

  /** Releasing an index that is not live leaves its leaf with a count that is one too high. */
  lemma DoubleFreeMiscounts(descs: seq<Desc>, at: seq<Place>, levels: nat, words: nat, live: set<nat>, idx: nat,
                            lvDesc: seq<nat>, lvPos: seq<nat>)
    requires Tree(descs, at, levels, words, live, Nowhere) && PathOk(descs, at, levels, words, idx, lvDesc, lvPos)
    requires InBounds(descs, lvDesc, lvPos) && idx !in live
    ensures !Counts(MarkUp(descs, lvDesc, lvPos, levels - 1, false))
  {
    var d, c := lvDesc[levels - 1], lvPos[levels - 1];
    CoverStep(levels, words, levels - 1, idx);
    assert at[d].level == levels - 1 && at[d].prefix * Fanout(words) + c == idx;
    assert !Bit(descs[d].bits, c);
    NoneClear(descs[d].bits, Fanout(words));
    assert descs[d].nrFree == ClearCount(descs[d].bits) > 0;
    var r := Flip(descs, d, c, false);
    assert SetBit(descs[d].bits, c, false) == descs[d].bits by {
      SameBits(SetBit(descs[d].bits, c, false), descs[d].bits);
    }
    assert r[d].nrFree == ClearCount(r[d].bits) + 1;
  }

  // ---------- the allocator ----------

  function Power(e: nat, k: nat): nat {
    if k == 0 then 1 else e * Power(e, k - 1)
  }

  lemma QuotientBound(x: nat, e: nat, p: nat)
    requires e >= 1
    ensures x / e < p <==> x < e * p
  {
    var q := x / e;
    assert q * e <= x < (q + 1) * e;
    if q < p {
      FactorMonotone(q + 1, p, e);
    } else {
      FactorMonotone(p, q, e);
    }
  }

  /** The index space: `levels` digits are exactly the numbers below fanout to the power `levels`. */
  lemma {:induction false} IndexSpace(x: nat, e: nat, k: nat)
    requires e >= 1
    ensures Drop(x, e, k) == 0 <==> x < Power(e, k)
    decreases k
  {
    if k > 0 {
      IndexSpace(x / e, e, k - 1);
      QuotientBound(x, e, Power(e, k - 1));
    }
  }

  lemma InitialTree(levels: nat, words: nat)
    requires levels >= 1 && words >= 1
    ensures Tree([FreshDesc(words)], [Place(0, 0)], levels, words, {}, Nowhere)
  {
    FreshIsEmpty(words);
  }

  class Allocator {
    const levels: nat
    const words: nat
    var descs: seq<Desc>
    ghost var at: seq<Place>
    ghost var live: set<nat>

    ghost predicate Valid()
      reads this
    {
      Tree(descs, at, levels, words, live, Nowhere)
    }

    /** Set-up leaves one empty chunk at the root. */
    constructor (levels: nat, words: nat)
      requires levels >= 1 && words >= 1
      ensures Valid() && live == {} && this.levels == levels && this.words == words
    {
      this.levels, this.words := levels, words;
      descs := [FreshDesc(words)];
      at := [Place(0, 0)];
      live := {};
      InitialTree(levels, words);
    }

    /** The chunk behind an entry, made on demand. */
    method ChildChunk(desc: nat, pos: nat, ghost lvDesc: seq<nat>, ghost lvPos: seq<nat>) returns (child: nat)
      requires Valid() && Chain(descs, at, levels, words, lvDesc, lvPos, desc)
      requires |lvDesc| + 1 < levels && pos < Fanout(words) && !Bit(descs[desc].bits, pos)
      modifies this`descs, this`at
      ensures Valid()
      ensures Chain(descs, at, levels, words, lvDesc + [desc], lvPos + [pos], child)
      ensures at[child].prefix == old(at[desc].prefix) * Fanout(words) + pos && descs[child].nrFree > 0
    {
      if descs[desc].children[pos].None? {
        child := |descs|;
        GrowKeepsTree(descs, at, levels, words, live, desc, pos);
        ChainGrows(descs, at, levels, words, lvDesc, lvPos, desc, pos);
        GrowChild(descs, desc, pos, words, desc, pos, child);
        ghost var at' := GrowPlaces(at, desc, pos, words);
        descs := Grow(descs, desc, pos, words);
        at := at';
      } else {
        child := descs[desc].children[pos].value;
        assert Child(descs, desc, pos, child);
      }
      ChainStep(descs, at, levels, words, lvDesc, lvPos, desc, pos, child);
    }

    /**
     The downward loop: the first clear entry at every level spells the least index that is not live.
     It stops at the root when everything is live.
     */
    method Descend() returns (found: bool, idx: nat, lvDesc: seq<nat>, lvPos: seq<nat>)
      requires Valid()
      modifies this`descs, this`at
      ensures Valid()
      ensures found ==> PathOk(descs, at, levels, words, idx, lvDesc, lvPos) && Drop(idx, Fanout(words), levels) == 0
      ensures found ==> idx !in live && forall q: nat :: q < idx ==> q in live
      ensures !found ==> forall q: nat :: Drop(q, Fanout(words), levels) == 0 ==> q in live
    {
      hide Tree, Shape, Chain, LiveBelow, Descending, PathOk, Drop, Bit;
      var desc: nat := 0;
      idx, lvDesc, lvPos := 0, [], [];
      DescentStarts(descs, at, levels, words, live);
      while true
        invariant Descending(descs, at, levels, words, live, lvDesc, lvPos, desc, idx)
        decreases levels - |lvDesc|
      {
        DescentIs(descs, at, levels, words, live, lvDesc, lvPos, desc, idx);
        var pos := FindEmpty(descs[desc].bits);
        if pos == Fanout(words) {
          NothingFree(descs, at, levels, words, live, lvDesc, lvPos, desc, idx);
          return false, idx, lvDesc, lvPos;
        }
        if |lvDesc| == levels - 1 {
          LeafChosen(descs, at, levels, words, live, lvDesc, lvPos, desc, idx, pos);
          return true, idx * Fanout(words) + pos, lvDesc + [desc], lvPos + [pos];
        }
        LiveBelowStep(descs, at, levels, words, live, desc, pos);
        var child := ChildChunk(desc, pos, lvDesc, lvPos);
        DescentGoesOn(descs, at, levels, words, live, lvDesc + [desc], lvPos + [pos], child, idx * Fanout(words) + pos);
        idx, lvDesc, lvPos, desc := idx * Fanout(words) + pos, lvDesc + [desc], lvPos + [pos], child;
      }
    }

    /** The upward loop of an allocation: a descriptor that becomes full takes its parent's entry. */
    method MarkTaken(lvDesc: seq<nat>, lvPos: seq<nat>)
      requires InBounds(descs, lvDesc, lvPos) && lvDesc != []
      modifies this`descs
      ensures descs == MarkUp(old(descs), lvDesc, lvPos, |lvDesc| - 1, true)
    {
      var level := |lvDesc| - 1;
      while true
        invariant 0 <= level < |lvDesc| && InBounds(descs, lvDesc, lvPos)
        invariant MarkUp(descs, lvDesc, lvPos, level, true) == MarkUp(old(descs), lvDesc, lvPos, |lvDesc| - 1, true)
        decreases level
      {
        var tmp := lvDesc[level];
        descs := descs[tmp := descs[tmp].(bits := SetBit(descs[tmp].bits, lvPos[level], true),
                                          nrFree := Decrement(descs[tmp].nrFree))];
        if descs[tmp].nrFree > 0 || level == 0 { break; }
        level := level - 1;
      }
    }

    /** The upward loop of a release (`mark_nodes_avail`): a descriptor that was full frees its parent's entry. */
    method MarkNodesAvail(lvDesc: seq<nat>, lvPos: seq<nat>)
      requires InBounds(descs, lvDesc, lvPos) && lvDesc != []
      modifies this`descs
      ensures descs == MarkUp(old(descs), lvDesc, lvPos, |lvDesc| - 1, false)
    {
      var level := |lvDesc| - 1;
      while true
        invariant 0 <= level < |lvDesc| && InBounds(descs, lvDesc, lvPos)
        invariant MarkUp(descs, lvDesc, lvPos, level, false) == MarkUp(old(descs), lvDesc, lvPos, |lvDesc| - 1, false)
        decreases level
      {
        var desc := lvDesc[level];
        descs := descs[desc := descs[desc].(bits := SetBit(descs[desc].bits, lvPos[level], false),
                                            nrFree := descs[desc].nrFree + 1)];
        if descs[desc].nrFree > 1 || level == 0 { break; }
        level := level - 1;
      }
    }

    /** Hands out the least index that is not live; fails exactly when all are. */
    method AllocIdx() returns (r: Option<nat>)
      requires Valid()
      modifies this
      ensures Valid()
      ensures r.None? <==> forall q: nat :: q < Power(Fanout(words), levels) ==> q in old(live)
      ensures r.None? ==> live == old(live)
      ensures r.Some? ==>
                && r.value < Power(Fanout(words), levels) && r.value !in old(live)
                && (forall q: nat :: q < r.value ==> q in old(live))
                && live == old(live) + {r.value}
    {
      var found, idx, lvDesc, lvPos := Descend();
      forall q: nat ensures Drop(q, Fanout(words), levels) == 0 <==> q < Power(Fanout(words), levels) {
        IndexSpace(q, Fanout(words), levels);
      }
      if !found {
        return None;
      }
      PathInBounds(descs, at, levels, words, idx, lvDesc, lvPos);
      MarkUpSettles(descs, at, levels, words, live, idx, lvDesc, lvPos, levels - 1, true);
      MarkTaken(lvDesc, lvPos);
      live := live + {idx};
      return Some(idx);
    }

    /** The walk of a release from the root to the leaf of an index; it fails where a chunk is missing. */
    method WalkDown(idx: nat) returns (status: Status, lvDesc: seq<nat>, lvPos: seq<nat>)
      requires Valid()
      ensures status.Ok? <==> HasLeaf(at, levels, words, Low(idx, Fanout(words), levels))
      ensures status.Ok? ==> PathOk(descs, at, levels, words, Low(idx, Fanout(words), levels), lvDesc, lvPos)
    {
      ghost var low := Low(idx, Fanout(words), levels);
      var desc: nat := 0;
      lvDesc, lvPos := [], [];
      WalkStart(descs, at, levels, words, idx);
      while true
        invariant Walked(descs, at, levels, words, low, lvDesc, lvPos, desc)
        decreases levels - |lvDesc|
      {
        var level := |lvDesc|;
        var pos := Digit(levels, words, level, idx);
        LowDigits(idx, Fanout(words), levels, levels - 1 - level);
        assert pos == Digit(levels, words, level, low);
        if level == levels - 1 {
          WalkIsPath(descs, at, levels, words, low, lvDesc, lvPos, desc);
          assert at[desc] == Place(levels - 1, Quotient(low, Fanout(words)));
          return Ok, lvDesc + [desc], lvPos + [pos];
        }
        assert |descs[desc].children| == Fanout(words);
        if descs[desc].children[pos].None? {
          if HasLeaf(at, levels, words, low) { LeafPathExists(descs, at, levels, words, low, desc); }
          return Invalid, lvDesc, lvPos;
        }
        var child := descs[desc].children[pos].value;
        assert Child(descs, desc, pos, child);
        ChildCovers(descs, at, levels, words, low, desc, child);
        ChainStep(descs, at, levels, words, lvDesc, lvPos, desc, pos, child);
        lvDesc, lvPos, desc := lvDesc + [desc], lvPos + [pos], child;
      }
    }

    /**
     Releases an index; digits above the tree's levels are ignored.  The tree stays consistent exactly
     when the index was live or no leaf chunk exists for it; without one the release is refused.
     */
    method FreeIdx(idx: nat) returns (status: Status)
      requires Valid()
      modifies this
      ensures live == old(live) - {Low(idx, Fanout(words), levels)}
      ensures status.Invalid? ==> live == old(live) && descs == old(descs)
      ensures status.Ok? <==> HasLeaf(old(at), levels, words, Low(idx, Fanout(words), levels))
      ensures Valid() <==> Low(idx, Fanout(words), levels) in old(live) || !HasLeaf(old(at), levels, words, Low(idx, Fanout(words), levels))
    {
      hide Tree, Shape, Counts, PathOk, HasLeaf, MarkUp, InBounds, Drop;
      TreeHasShape(descs, at, levels, words, live);
      ghost var low := Low(idx, Fanout(words), levels);
      var lvDesc, lvPos;
      status, lvDesc, lvPos := WalkDown(idx);
      if low in live { LiveHasLeaf(descs, at, levels, words, live, low); }
      if status.Invalid? {
        assert live - {low} == live;
        return;
      }
      LowDigits(idx, Fanout(words), levels, 0);
      PathInBounds(descs, at, levels, words, low, lvDesc, lvPos);
      if low in live {
        MarkUpSettles(descs, at, levels, words, live, low, lvDesc, lvPos, levels - 1, false);
      } else {
        DoubleFreeMiscounts(descs, at, levels, words, live, low, lvDesc, lvPos);
        MiscountedIsNoTree(MarkUp(descs, lvDesc, lvPos, levels - 1, false), at, levels, words, live - {low});
      }
      MarkNodesAvail(lvDesc, lvPos);
      live := live - {low};
    }
  }

  /** Releasing index 0 of a new one-level tree, which is not live and has a leaf chunk, breaks the tree. */
  method FreeOfFreeBreaks() returns (alloc: Allocator)
    ensures !alloc.Valid()
  {
    alloc := new Allocator(1, 1);
    var status := alloc.FreeIdx(0);
  }

  // ---------- whole runs ----------

  datatype Op = Alloc | Free(idx: nat)

  /** The specification's choice: the least index from `i` on that is below `limit` and not live. */
  function LeastFree(limit: nat, live: set<nat>, i: nat): (r: Option<nat>)
    ensures r.Some? ==> i <= r.value < limit && r.value !in live && forall q: nat :: i <= q < r.value ==> q in live
    ensures r.None? ==> forall q: nat :: i <= q < limit ==> q in live
    decreases limit - i
  {
    if i >= limit then None else if i !in live then Some(i) else LeastFree(limit, live, i + 1)
  }

  function Output(limit: nat, live: set<nat>, op: Op): Option<nat> {
    if op.Alloc? then LeastFree(limit, live, 0) else None
  }

  function NextLive(limit: nat, live: set<nat>, op: Op): set<nat> {
    match op
    case Free(i) => live - {i}
    case Alloc => if Output(limit, live, op).Some? then live + {Output(limit, live, op).value} else live
  }

  /** Only live indices are released. */
  ghost predicate Legal(limit: nat, live: set<nat>, ops: seq<Op>)
    decreases |ops|
  {
    ops != [] ==> (ops[0].Free? ==> ops[0].idx in live) && Legal(limit, NextLive(limit, live, ops[0]), ops[1..])
  }

  function Outputs(limit: nat, live: set<nat>, ops: seq<Op>): (r: seq<Option<nat>>)
    decreases |ops|
  {
    if ops == [] then [] else [Output(limit, live, ops[0])] + Outputs(limit, NextLive(limit, live, ops[0]), ops[1..])
  }

  /** One operation of a run, on the tree and on the set it stands for. */
  method Step(alloc: Allocator, op: Op) returns (r: Option<nat>)
    requires alloc.Valid() && (op.Free? ==> op.idx in alloc.live)
    modifies alloc
    ensures alloc.Valid()
    ensures var limit := Power(Fanout(alloc.words), alloc.levels);
            r == Output(limit, old(alloc.live), op) && alloc.live == NextLive(limit, old(alloc.live), op)
  {
    match op {
      case Alloc =>
        r := alloc.AllocIdx();
      case Free(idx) =>
        LowOfSmall(idx, Fanout(alloc.words), alloc.levels);
        var status := alloc.FreeIdx(idx);
        r := None;
    }
  }

  /** Over every run of allocations and releases of live indices the tree behaves as the plain set. */
  method Run(levels: nat, words: nat, ops: seq<Op>) returns (got: seq<Option<nat>>)
    requires levels >= 1 && words >= 1 && Legal(Power(Fanout(words), levels), {}, ops)
    ensures got == Outputs(Power(Fanout(words), levels), {}, ops)
  {
    var alloc := new Allocator(levels, words);
    ghost var limit := Power(Fanout(words), levels);
    got := [];
    for i := 0 to |ops|
      invariant alloc.Valid() && fresh(alloc) && alloc.levels == levels && alloc.words == words
      invariant Legal(limit, alloc.live, ops[i..])
      invariant got + Outputs(limit, alloc.live, ops[i..]) == Outputs(limit, {}, ops)
    {
      assert ops[i..][0] == ops[i] && ops[i..][1..] == ops[i + 1..];
      var r := Step(alloc, ops[i]);
      got := got + [r];
    }
    assert ops[|ops|..] == [];
  }
}
