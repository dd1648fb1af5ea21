/**
 The radix-tree index allocator of scx/lib/sdt_alloc.bpf.c, as values: the arena of descriptors, what
 makes it a tree, and how one bit flip travels up from a leaf.

 The tree has `levels` levels and a fanout of `64 * words` (3 and 512 in the source).  The shifts and
 masks of the source, by a power of two, are written as division and remainder by the fanout.
 */
module RadixTree {
  import opened Common
  import opened Bitmap

  /** A descriptor with its chunk: one bit and one child pointer per entry. */
  datatype Desc = Desc(bits: Mask, nrFree: nat, children: seq<Option<nat>>)

  /** Where a descriptor sits: its level and the index digits that lead to it. */
  datatype Place = Place(level: nat, prefix: nat)

  // ---------- digits ----------

  /** The index without its last `k` digits. */
  function Drop(x: nat, e: nat, k: nat): nat
    requires e >= 1
    decreases k
  {
    if k == 0 then x else Drop(x / e, e, k - 1)
  }

  lemma {:induction false} DropOneMore(x: nat, e: nat, k: nat)
    requires e >= 1
    ensures Drop(x, e, k + 1) == Drop(x, e, k) / e
    decreases k
  {
    if k > 0 { DropOneMore(x / e, e, k - 1); }
  }

  lemma SmallMultiple(k: int, e: int, v: int)
    requires k * e == v && -e < v < e
    ensures k == 0
  {
  }

  lemma SameQuotient(a: nat, d: nat, q: nat, r: nat, e: nat)
    requires d < e && r < e && a * e + d == q * e + r
    ensures a == q && d == r
  {
    assert (a - q) * e == r - d;
    SmallMultiple(a - q, e, r - d);
  }

  lemma JoinDigit(a: nat, d: nat, e: nat)
    requires d < e
    ensures (a * e + d) / e == a && (a * e + d) % e == d
  {
    var x := a * e + d;
    var q, r := x / e, x % e;
    assert q * e + r == x;
    SameQuotient(a, d, q, r, e);
  }

  lemma SplitDigit(x: nat, e: nat)
    requires e >= 1
    ensures x / e * e + x % e == x
  {
  }

  /** The index made of the last `k` digits. */
  function Low(x: nat, e: nat, k: nat): (r: nat)
    requires e >= 1
    decreases k
  {
    if k == 0 then 0 else Low(x / e, e, k - 1) * e + x % e
  }

  /** The low part has the same digits and nothing above them. */
  lemma {:induction false} LowDigits(x: nat, e: nat, k: nat, j: nat)
    requires e >= 1 && j < k
    ensures Drop(Low(x, e, k), e, j) % e == Drop(x, e, j) % e
    ensures Drop(Low(x, e, k), e, k) == 0
    decreases k
  {
    JoinDigit(Low(x / e, e, k - 1), x % e, e);
    if k > 1 {
      LowDigits(x / e, e, k - 1, if j == 0 then 0 else j - 1);
    }
  }

  /** An index inside the tree is its own low part. */
  lemma {:induction false} LowOfSmall(x: nat, e: nat, k: nat)
    requires e >= 1 && Drop(x, e, k) == 0
    ensures Low(x, e, k) == x
    decreases k
  {
    if k > 0 {
      LowOfSmall(x / e, e, k - 1);
      SplitDigit(x, e);
    }
  }

  // ---------- the tree ----------

  function Fanout(words: nat): nat { 64 * words }

  ghost predicate Child(descs: seq<Desc>, d: nat, c: nat, x: nat) {
    d < |descs| && c < |descs[d].children| && descs[d].children[c] == Some(x)
  }

  /** Some descriptor points at `x` from the entry its place asks for. */
  ghost predicate HasParent(descs: seq<Desc>, at: seq<Place>, words: nat, x: nat)
    requires words >= 1 && x < |at|
  {
    exists d: nat :: Child(descs, d, at[x].prefix % Fanout(words), x)
  }

  /** Descriptors have places, no two the same, and child pointers follow the digits. */
  ghost predicate Shape(descs: seq<Desc>, at: seq<Place>, levels: nat, words: nat) {
    && words >= 1 && |at| == |descs| > 0 && at[0] == Place(0, 0)
    && (forall d: nat {:trigger descs[d].bits} :: d < |descs| ==> |descs[d].bits| == words)
    && (forall d: nat {:trigger descs[d].children} :: d < |descs| ==> |descs[d].children| == Fanout(words))
    && (forall d: nat {:trigger at[d].level} :: d < |descs| ==> at[d].level < levels)
    && (forall d: nat, c: nat, x: nat {:trigger Child(descs, d, c, x)} :: Child(descs, d, c, x) ==>
          x < |descs| && at[x] == Place(at[d].level + 1, at[d].prefix * Fanout(words) + c))
    && (forall d: nat, x: nat {:trigger at[d], at[x]} :: d < |at| && x < |at| && at[d] == at[x] ==> d == x)
    && (forall x: nat {:trigger HasParent(descs, at, words, x)} :: 0 < x < |at| ==> HasParent(descs, at, words, x))
  }

  ghost predicate Counts(descs: seq<Desc>) {
    forall d: nat {:trigger descs[d].nrFree} :: d < |descs| ==> descs[d].nrFree == ClearCount(descs[d].bits)
  }

  /** The child behind an entry exists and has no free entry left. */
  ghost predicate ChildFull(descs: seq<Desc>, d: nat, c: nat)
    requires d < |descs| && c < |descs[d].children|
  {
    match descs[d].children[c]
    case Some(x) => x < |descs| && descs[x].nrFree == 0
    case None => false
  }

  /** An interior entry whose bit says something else than its child, on the way up from a leaf. */
  datatype Pending = Nowhere | Here(d: nat, c: nat)

  /** Leaf bits are the live indices; an interior bit is set when its child is full. */
  ghost predicate Bits(descs: seq<Desc>, at: seq<Place>, levels: nat, words: nat, live: set<nat>, pending: Pending)
    requires Shape(descs, at, levels, words)
  {
    && (forall d: nat, c: nat {:trigger Bit(descs[d].bits, c)} :: d < |descs| && c < Fanout(words) ==>
          (Bit(descs[d].bits, c) <==>
            if at[d].level == levels - 1 then at[d].prefix * Fanout(words) + c in live
            else if pending == Here(d, c) then !ChildFull(descs, d, c)
            else ChildFull(descs, d, c)))
    && (pending.Here? ==> pending.d < |descs| && pending.c < Fanout(words) && at[pending.d].level < levels - 1)
  }

  function Quotient(x: nat, e: nat): nat
    requires e >= 1
  {
    x / e
  }

  ghost predicate HasLeaf(at: seq<Place>, levels: nat, words: nat, idx: nat)
    requires levels >= 1 && words >= 1
  {
    exists d: nat :: d < |at| && at[d] == Place(levels - 1, Quotient(idx, Fanout(words)))
  }

  /** The whole invariant, up to one pending interior bit. */
  ghost predicate Tree(descs: seq<Desc>, at: seq<Place>, levels: nat, words: nat, live: set<nat>, pending: Pending) {
    && levels >= 1 && Shape(descs, at, levels, words) && Counts(descs)
    && Bits(descs, at, levels, words, live, pending)
    && (forall idx {:trigger HasLeaf(at, levels, words, idx)} :: idx in live ==> HasLeaf(at, levels, words, idx))
    && (forall idx :: idx in live ==> Drop(idx, Fanout(words), levels) == 0)
  }

  /** The descriptor covers an index: its digits are the index's first ones. */
  ghost predicate CoversIndex(at: seq<Place>, levels: nat, words: nat, d: nat, idx: nat)
    requires words >= 1 && d < |at| && at[d].level <= levels
  {
    at[d].prefix == Drop(idx, Fanout(words), levels - at[d].level)
  }

  /** The entry of a covering descriptor that an index goes through. */
  function Digit(levels: nat, words: nat, level: nat, idx: nat): (c: nat)
    requires words >= 1 && level < levels
    ensures c < Fanout(words)
  {
    Drop(idx, Fanout(words), levels - 1 - level) % Fanout(words)
  }

  lemma CoverStep(levels: nat, words: nat, level: nat, idx: nat)
    requires words >= 1 && level < levels
    ensures Drop(idx, Fanout(words), levels - 1 - level) ==
            Drop(idx, Fanout(words), levels - level) * Fanout(words) + Digit(levels, words, level, idx)
  {
    DropOneMore(idx, Fanout(words), levels - 1 - level);
    SplitDigit(Drop(idx, Fanout(words), levels - 1 - level), Fanout(words));
  }

  /** Below a full descriptor every index is live. */
  lemma {:induction false} FullMeansLive(descs: seq<Desc>, at: seq<Place>, levels: nat, words: nat, live: set<nat>, d: nat, idx: nat)
    requires Tree(descs, at, levels, words, live, Nowhere) && d < |descs|
    requires descs[d].nrFree == 0 && CoversIndex(at, levels, words, d, idx)
    ensures idx in live
    decreases levels - at[d].level
  {
    var c := Digit(levels, words, at[d].level, idx);
    CoverStep(levels, words, at[d].level, idx);
    NoneClear(descs[d].bits, Fanout(words));
    assert Bit(descs[d].bits, c);
    if at[d].level < levels - 1 {
      var x := descs[d].children[c].value;
      assert Child(descs, d, c, x);
      FullMeansLive(descs, at, levels, words, live, x, idx);
    }
  }

  // ---------- flipping one bit ----------

  /** The unsigned 64-bit decrement of the free count. */
  function Decrement(n: nat): (r: nat)
    ensures r + 1 == n || (n == 0 && r + 1 == 0x1_0000_0000_0000_0000)
  {
    if n == 0 then 0xffff_ffff_ffff_ffff else n - 1
  }

  /** Entry `c` of descriptor `d` taken (`state`) or given back, with its count kept. */
  function Flip(descs: seq<Desc>, d: nat, c: nat, state: bool): (r: seq<Desc>)
    requires d < |descs| && c < 64 * |descs[d].bits|
    ensures |r| == |descs|
  {
    descs[d := descs[d].(bits := SetBit(descs[d].bits, c, state),
                         nrFree := if state then Decrement(descs[d].nrFree) else descs[d].nrFree + 1)]
  }

  /** The flip made the descriptor full, or made a full one not full. */
  predicate Turned(descs: seq<Desc>, d: nat, state: bool)
    requires d < |descs|
  {
    descs[d].nrFree == if state then 1 else 0
  }

  lemma FlipKeepsShape(descs: seq<Desc>, at: seq<Place>, levels: nat, words: nat, d: nat, c: nat, state: bool)
    requires Shape(descs, at, levels, words) && d < |descs| && c < Fanout(words) && (state ==> descs[d].nrFree > 0)
    ensures Shape(Flip(descs, d, c, state), at, levels, words)
  {
    var r := Flip(descs, d, c, state);
    assert forall x: nat, k: nat, y: nat :: Child(r, x, k, y) <==> Child(descs, x, k, y);
    forall x: nat | 0 < x < |at| ensures HasParent(r, at, words, x) {
      assert HasParent(descs, at, words, x);
      var q: nat :| Child(descs, q, at[x].prefix % Fanout(words), x);
      assert Child(r, q, at[x].prefix % Fanout(words), x);
    }
  }

  lemma FlipKeepsCounts(descs: seq<Desc>, at: seq<Place>, levels: nat, words: nat, d: nat, c: nat, state: bool)
    requires Shape(descs, at, levels, words) && Counts(descs) && d < |descs| && c < Fanout(words)
    requires Bit(descs[d].bits, c) != state
    ensures (state ==> descs[d].nrFree > 0) && Counts(Flip(descs, d, c, state))
  {
    SetBitCounts(descs[d].bits, c, state, Fanout(words));
    NoneClear(descs[d].bits, Fanout(words));
    assert descs[d].nrFree == ClearCount(descs[d].bits);
  }

  /** Only one entry points at a descriptor. */
  lemma OneParent(descs: seq<Desc>, at: seq<Place>, levels: nat, words: nat, p: nat, c: nat, q: nat, k: nat, d: nat)
    requires Shape(descs, at, levels, words) && Child(descs, p, c, d) && Child(descs, q, k, d)
    ensures p == q && c == k
  {
    var e := Fanout(words);
    assert |descs[p].children| == e && |descs[q].children| == e;
    assert at[d] == Place(at[p].level + 1, at[p].prefix * e + c);
    assert at[d] == Place(at[q].level + 1, at[q].prefix * e + k);
    SameQuotient(at[p].prefix, c, at[q].prefix, k, e);
    assert at[p] == at[q];
  }

  /** What a flip at (`d`, `c`) does to whether the child of another entry is full. */
  lemma FlipChildFull(descs: seq<Desc>, at: seq<Place>, levels: nat, words: nat, d: nat, c: nat, state: bool, up: Pending, x: nat, k: nat)
    requires Shape(descs, at, levels, words) && d < |descs| && c < Fanout(words) && (state ==> descs[d].nrFree > 0)
    requires if d == 0 then up == Nowhere else up.Here? && Child(descs, up.d, up.c, d)
    requires x < |descs| && k < Fanout(words)
    ensures x < |Flip(descs, d, c, state)| && k < |Flip(descs, d, c, state)[x].children| && k < |descs[x].children|
    ensures ChildFull(Flip(descs, d, c, state), x, k) <==>
            if Turned(descs, d, state) && up == Here(x, k) then !ChildFull(descs, x, k) else ChildFull(descs, x, k)
  {
    var r := Flip(descs, d, c, state);
    assert r[x].children == descs[x].children;
    if descs[x].children[k].Some? {
      var y := descs[x].children[k].value;
      assert Child(descs, x, k, y);
      if y == d {
        assert at[d] != at[0];
        OneParent(descs, at, levels, words, up.d, up.c, x, k, d);
      }
    }
  }

  /** Where a flip leaves the tree out of step: at the parent's entry, if the descriptor turned full or not full. */
  function Above(descs: seq<Desc>, d: nat, state: bool, up: Pending): Pending
    requires d < |descs|
  {
    if Turned(descs, d, state) then up else Nowhere
  }

  /** Flipping the pending interior bit settles it and passes the matter on to the parent. */
  lemma FlipInterior(descs: seq<Desc>, at: seq<Place>, levels: nat, words: nat, live: set<nat>, d: nat, c: nat, state: bool, up: Pending)
    requires Tree(descs, at, levels, words, live, Here(d, c)) && Bit(descs[d].bits, c) != state
    requires if d == 0 then up == Nowhere else up.Here? && Child(descs, up.d, up.c, d)
    ensures (state ==> descs[d].nrFree > 0)
    ensures Tree(Flip(descs, d, c, state), at, levels, words, live, Above(descs, d, state, up))
  {
    FlipKeepsCounts(descs, at, levels, words, d, c, state);
    FlipKeepsShape(descs, at, levels, words, d, c, state);
    var r, pending := Flip(descs, d, c, state), Above(descs, d, state, up);
    if up.Here? {
      assert at[d] == Place(at[up.d].level + 1, at[up.d].prefix * Fanout(words) + up.c);
    }
    forall x: nat, k: nat | x < |r| && k < Fanout(words)
      ensures Bit(r[x].bits, k) <==>
              if at[x].level == levels - 1 then at[x].prefix * Fanout(words) + k in live
              else if pending == Here(x, k) then !ChildFull(r, x, k)
              else ChildFull(r, x, k)
    {
      FlipChildFull(descs, at, levels, words, d, c, state, up, x, k);
      assert Bit(r[x].bits, k) <==> if x == d && k == c then state else Bit(descs[x].bits, k);
    }
  }

  function FlipLive(live: set<nat>, idx: nat, state: bool): set<nat> {
    if state then live + {idx} else live - {idx}
  }

  /** Leaf entries of different descriptors are different indices. */
  lemma LeafIndexUnique(descs: seq<Desc>, at: seq<Place>, levels: nat, words: nat, d: nat, c: nat, x: nat, k: nat)
    requires Shape(descs, at, levels, words) && d < |descs| && x < |descs| && c < Fanout(words) && k < Fanout(words)
    requires at[d].level == at[x].level
    ensures at[d].prefix * Fanout(words) + c == at[x].prefix * Fanout(words) + k ==> d == x && c == k
  {
    if at[d].prefix * Fanout(words) + c == at[x].prefix * Fanout(words) + k {
      SameQuotient(at[d].prefix, c, at[x].prefix, k, Fanout(words));
      assert at[d] == at[x];
    }
  }

  /** One entry of the tree after a leaf bit was flipped. */
  lemma FlipLeafEntry(descs: seq<Desc>, at: seq<Place>, levels: nat, words: nat, live: set<nat>, d: nat, c: nat, idx: nat,
                      state: bool, up: Pending, x: nat, k: nat)
    requires Tree(descs, at, levels, words, live, Nowhere) && d < |descs| && at[d].level == levels - 1 && c < Fanout(words)
    requires idx == at[d].prefix * Fanout(words) + c && (state ==> descs[d].nrFree > 0)
    requires if d == 0 then up == Nowhere else up.Here? && Child(descs, up.d, up.c, d)
    requires x < |descs| && k < Fanout(words)
    ensures var r, pending := Flip(descs, d, c, state), Above(descs, d, state, up);
            && x < |r| && k < 64 * |r[x].bits| && k < |r[x].children|
            && (Bit(r[x].bits, k) <==>
                  if at[x].level == levels - 1 then at[x].prefix * Fanout(words) + k in FlipLive(live, idx, state)
                  else if pending == Here(x, k) then !ChildFull(r, x, k)
                  else ChildFull(r, x, k))
  {
    var r := Flip(descs, d, c, state);
    FlipChildFull(descs, at, levels, words, d, c, state, up, x, k);
    assert Bit(r[x].bits, k) <==> if x == d && k == c then state else Bit(descs[x].bits, k);
    if at[x].level == levels - 1 {
      LeafIndexUnique(descs, at, levels, words, d, c, x, k);
    }
  }

  lemma LiveHaveLeaves(descs: seq<Desc>, at: seq<Place>, levels: nat, words: nat, live: set<nat>, d: nat, idx: nat, state: bool)
    requires Tree(descs, at, levels, words, live, Nowhere) && d < |descs|
    requires at[d] == Place(levels - 1, Quotient(idx, Fanout(words)))
    ensures forall i {:trigger HasLeaf(at, levels, words, i)} :: i in FlipLive(live, idx, state) ==> HasLeaf(at, levels, words, i)
  {
    forall i {:trigger HasLeaf(at, levels, words, i)} | i in FlipLive(live, idx, state) ensures HasLeaf(at, levels, words, i) {
      if i != idx {
        assert HasLeaf(at, levels, words, i);
      }
    }
  }

  /** Flipping a leaf bit makes its index live or free, and may leave the parent's bit pending. */
  lemma FlipLeaf(descs: seq<Desc>, at: seq<Place>, levels: nat, words: nat, live: set<nat>, d: nat, idx: nat, state: bool, up: Pending)
    requires Tree(descs, at, levels, words, live, Nowhere) && d < |descs| && at[d].level == levels - 1
    requires CoversIndex(at, levels, words, d, idx) && Drop(idx, Fanout(words), levels) == 0
    requires (idx in live) != state
    requires if d == 0 then up == Nowhere else up.Here? && Child(descs, up.d, up.c, d)
    ensures Bit(descs[d].bits, idx % Fanout(words)) != state && (state ==> descs[d].nrFree > 0)
    ensures Tree(Flip(descs, d, idx % Fanout(words), state), at, levels, words, FlipLive(live, idx, state), Above(descs, d, state, up))
  {
    var c := idx % Fanout(words);
    assert at[d].prefix == Quotient(idx, Fanout(words)) && idx == at[d].prefix * Fanout(words) + c by {
      assert Drop(idx, Fanout(words), 1) == idx / Fanout(words);
      SplitDigit(idx, Fanout(words));
    }
    assert Bit(descs[d].bits, c) <==> idx in live;
    FlipKeepsCounts(descs, at, levels, words, d, c, state);
    FlipKeepsShape(descs, at, levels, words, d, c, state);
    var r, pending, live' := Flip(descs, d, c, state), Above(descs, d, state, up), FlipLive(live, idx, state);
    if up.Here? {
      assert at[d] == Place(at[up.d].level + 1, at[up.d].prefix * Fanout(words) + up.c);
    }
    assert Bits(r, at, levels, words, live', pending) by {
      forall x: nat, k: nat | x < |r| && k < Fanout(words)
        ensures Bit(r[x].bits, k) <==>
                if at[x].level == levels - 1 then at[x].prefix * Fanout(words) + k in live'
                else if pending == Here(x, k) then !ChildFull(r, x, k)
                else ChildFull(r, x, k)
      {
        FlipLeafEntry(descs, at, levels, words, live, d, c, idx, state, up, x, k);
      }
    }
    LiveHaveLeaves(descs, at, levels, words, live, d, idx, state);
  }

  // ---------- a fresh chunk ----------

  function FreshDesc(words: nat): Desc {
    Desc(seq(words, _ => seq(64, _ => false)), Fanout(words), seq(Fanout(words), _ => None))
  }

  lemma FreshIsEmpty(words: nat)
    ensures var f := FreshDesc(words);
            && |f.bits| == words && ClearCount(f.bits) == Fanout(words)
            && forall c: nat :: c < Fanout(words) ==> !Bit(f.bits, c)
  {
    var f := FreshDesc(words);
    forall c: nat | c < Fanout(words) ensures !Bit(f.bits, c) {
      assert f.bits[c / 64] == seq(64, _ => false);
    }
    AllClear(f.bits, Fanout(words));
  }

  /** A new descriptor hung below entry `c` of `d`. */
  function Grow(descs: seq<Desc>, d: nat, c: nat, words: nat): (r: seq<Desc>)
    requires d < |descs| && c < |descs[d].children|
    ensures |r| == |descs| + 1
  {
    descs[d := descs[d].(children := descs[d].children[c := Some(|descs|)])] + [FreshDesc(words)]
  }

  /** No descriptor has the place of a missing child. */
  lemma MissingPlaceIsFree(descs: seq<Desc>, at: seq<Place>, levels: nat, words: nat, d: nat, c: nat, x: nat)
    requires Shape(descs, at, levels, words) && d < |descs| && c < Fanout(words) && descs[d].children[c] == None
    requires x < |at|
    ensures at[x] != Place(at[d].level + 1, at[d].prefix * Fanout(words) + c)
  {
    if at[x] == Place(at[d].level + 1, at[d].prefix * Fanout(words) + c) {
      JoinDigit(at[d].prefix, c, Fanout(words));
      assert x > 0;
      assert HasParent(descs, at, words, x);
      var q: nat :| Child(descs, q, at[x].prefix % Fanout(words), x);
      SameQuotient(at[q].prefix, c, at[d].prefix, c, Fanout(words));
    }
  }

  ghost function GrowPlaces(at: seq<Place>, d: nat, c: nat, words: nat): (r: seq<Place>)
    requires d < |at|
    ensures |r| == |at| + 1
  {
    at + [Place(at[d].level + 1, at[d].prefix * Fanout(words) + c)]
  }

  lemma GrowChild(descs: seq<Desc>, d: nat, c: nat, words: nat, x: nat, k: nat, y: nat)
    requires d < |descs| && c < |descs[d].children| && descs[d].children[c] == None
    ensures Child(Grow(descs, d, c, words), x, k, y) <==>
            Child(descs, x, k, y) || (x == d && k == c && y == |descs|)
  {
  }

  lemma GrowKeepsShape(descs: seq<Desc>, at: seq<Place>, levels: nat, words: nat, d: nat, c: nat)
    requires Shape(descs, at, levels, words) && d < |descs| && at[d].level < levels - 1 && c < Fanout(words)
    requires descs[d].children[c] == None
    ensures Shape(Grow(descs, d, c, words), GrowPlaces(at, d, c, words), levels, words)
  {
    var r, at' := Grow(descs, d, c, words), GrowPlaces(at, d, c, words);
    FreshIsEmpty(words);
    forall x: nat, k: nat, y: nat {:trigger Child(r, x, k, y)} | Child(r, x, k, y)
      ensures y < |r| && at'[y] == Place(at'[x].level + 1, at'[x].prefix * Fanout(words) + k)
    {
      GrowChild(descs, d, c, words, x, k, y);
    }
    forall x: nat, y: nat {:trigger at'[x], at'[y]} | x < |at'| && y < |at'| && at'[x] == at'[y] ensures x == y {
      if x < |at| { MissingPlaceIsFree(descs, at, levels, words, d, c, x); }
      if y < |at| { MissingPlaceIsFree(descs, at, levels, words, d, c, y); }
    }
    forall x: nat {:trigger HasParent(r, at', words, x)} | 0 < x < |at'| ensures HasParent(r, at', words, x) {
      if x < |at| {
        assert HasParent(descs, at, words, x);
        var q: nat :| Child(descs, q, at[x].prefix % Fanout(words), x);
        GrowChild(descs, d, c, words, q, at[x].prefix % Fanout(words), x);
      } else {
        JoinDigit(at[d].prefix, c, Fanout(words));
        GrowChild(descs, d, c, words, d, c, x);
      }
    }
  }

  lemma GrowEntry(descs: seq<Desc>, at: seq<Place>, levels: nat, words: nat, live: set<nat>, d: nat, c: nat, x: nat, k: nat)
    requires Tree(descs, at, levels, words, live, Nowhere) && d < |descs| && at[d].level < levels - 1 && c < Fanout(words)
    requires descs[d].children[c] == None && x <= |descs| && k < Fanout(words)
    requires Shape(Grow(descs, d, c, words), GrowPlaces(at, d, c, words), levels, words)
    ensures var r, at' := Grow(descs, d, c, words), GrowPlaces(at, d, c, words);
            Bit(r[x].bits, k) <==>
              if at'[x].level == levels - 1 then at'[x].prefix * Fanout(words) + k in live else ChildFull(r, x, k)
  {
    var r, at' := Grow(descs, d, c, words), GrowPlaces(at, d, c, words);
    FreshIsEmpty(words);
    if x < |descs| {
      assert r[x].bits == descs[x].bits && at'[x] == at[x];
      assert Bit(descs[x].bits, k) <==>
             if at[x].level == levels - 1 then at[x].prefix * Fanout(words) + k in live else ChildFull(descs, x, k);
      if at[x].level < levels - 1 && descs[x].children[k].Some? {
        assert Child(descs, x, k, descs[x].children[k].value);
      }
    } else {
      var idx := at'[x].prefix * Fanout(words) + k;
      if at'[x].level == levels - 1 && idx in live {
        assert HasLeaf(at, levels, words, idx);
        var q: nat :| q < |at| && at[q] == Place(levels - 1, idx / Fanout(words));
        JoinDigit(at'[x].prefix, k, Fanout(words));
        MissingPlaceIsFree(descs, at, levels, words, d, c, q);
      }
    }
  }

  /** Adding an empty chunk where there was none changes nothing else. */
  lemma GrowKeepsTree(descs: seq<Desc>, at: seq<Place>, levels: nat, words: nat, live: set<nat>, d: nat, c: nat)
    requires Tree(descs, at, levels, words, live, Nowhere) && d < |descs| && at[d].level < levels - 1 && c < Fanout(words)
    requires descs[d].children[c] == None
    ensures Tree(Grow(descs, d, c, words), GrowPlaces(at, d, c, words), levels, words, live, Nowhere)
  {
    var r, at' := Grow(descs, d, c, words), GrowPlaces(at, d, c, words);
    GrowKeepsShape(descs, at, levels, words, d, c);
    FreshIsEmpty(words);
    forall x: nat, k: nat {:trigger Bit(r[x].bits, k)} | x < |r| && k < Fanout(words)
      ensures Bit(r[x].bits, k) <==>
              if at'[x].level == levels - 1 then at'[x].prefix * Fanout(words) + k in live else ChildFull(r, x, k)
    {
      GrowEntry(descs, at, levels, words, live, d, c, x, k);
    }
    forall i | i in live ensures HasLeaf(at', levels, words, i) {
      assert HasLeaf(at, levels, words, i);
      var q: nat :| q < |at| && at[q] == Place(levels - 1, i / Fanout(words));
      assert at'[q] == at[q];
    }
  }

  // ---------- the path to an index with a leaf ----------

  lemma TreeHasShape(descs: seq<Desc>, at: seq<Place>, levels: nat, words: nat, live: set<nat>)
    requires Tree(descs, at, levels, words, live, Nowhere)
    ensures levels >= 1 && words >= 1 && Shape(descs, at, levels, words)
  {
  }

  lemma MiscountedIsNoTree(descs: seq<Desc>, at: seq<Place>, levels: nat, words: nat, live: set<nat>)
    requires !Counts(descs)
    ensures !Tree(descs, at, levels, words, live, Nowhere)
  {
  }

  lemma LiveHasLeaf(descs: seq<Desc>, at: seq<Place>, levels: nat, words: nat, live: set<nat>, idx: nat)
    requires Tree(descs, at, levels, words, live, Nowhere) && idx in live
    ensures HasLeaf(at, levels, words, idx)
  {
  }

  lemma ParentPlace(descs: seq<Desc>, at: seq<Place>, levels: nat, words: nat, y: nat) returns (x: nat)
    requires Shape(descs, at, levels, words) && y < |at| && at[y].level > 0
    ensures x < |at| && at[x] == Place(at[y].level - 1, Drop(at[y].prefix, Fanout(words), 1))
    ensures Child(descs, x, at[y].prefix % Fanout(words), y)
  {
    assert HasParent(descs, at, words, y);
    var c := at[y].prefix % Fanout(words);
    x :| Child(descs, x, c, y);
    assert at[y] == Place(at[x].level + 1, at[x].prefix * Fanout(words) + c);
    JoinDigit(at[x].prefix, c, Fanout(words));
    assert Drop(at[y].prefix, Fanout(words), 1) == at[y].prefix / Fanout(words);
  }

  /** An index with a leaf has a descriptor on every level. */
  lemma {:induction false} AncestorAt(descs: seq<Desc>, at: seq<Place>, levels: nat, words: nat, idx: nat, level: nat)
    returns (x: nat)
    requires Shape(descs, at, levels, words) && level < levels && HasLeaf(at, levels, words, idx)
    ensures x < |at| && at[x] == Place(level, Drop(idx, Fanout(words), levels - level))
    decreases levels - level
  {
    if level == levels - 1 {
      x :| x < |at| && at[x] == Place(levels - 1, Quotient(idx, Fanout(words)));
      assert Drop(idx, Fanout(words), 1) == idx / Fanout(words);
    } else {
      var y := AncestorAt(descs, at, levels, words, idx, level + 1);
      x := ParentPlace(descs, at, levels, words, y);
      DropOneMore(idx, Fanout(words), levels - 1 - level);
    }
  }

  /** The child pointers on the way to a leaf are all there. */
  lemma LeafPathExists(descs: seq<Desc>, at: seq<Place>, levels: nat, words: nat, idx: nat, d: nat)
    requires Shape(descs, at, levels, words) && levels >= 1 && HasLeaf(at, levels, words, idx)
    requires d < |descs| && at[d].level < levels - 1 && CoversIndex(at, levels, words, d, idx)
    ensures descs[d].children[Digit(levels, words, at[d].level, idx)].Some?
  {
    var level := at[d].level;
    var y := AncestorAt(descs, at, levels, words, idx, level + 1);
    var x := ParentPlace(descs, at, levels, words, y);
    DropOneMore(idx, Fanout(words), levels - 1 - level);
    assert at[x] == at[d];
  }

  /** Following a child pointer keeps covering the index. */
  lemma ChildCovers(descs: seq<Desc>, at: seq<Place>, levels: nat, words: nat, idx: nat, d: nat, x: nat)
    requires Shape(descs, at, levels, words)
    requires d < |descs| && at[d].level < levels - 1 && CoversIndex(at, levels, words, d, idx)
    requires Child(descs, d, Digit(levels, words, at[d].level, idx), x)
    ensures x < |descs| && at[x].level == at[d].level + 1 && CoversIndex(at, levels, words, x, idx)
  {
    CoverStep(levels, words, at[d].level, idx);
  }
}
