/**
 The arena task queue of scx/lib/atq.bpf.c: a heap keyed by an insertion counter (fifo mode) or by a
 caller's virtual time.  The ghost field `queue` holds what is queued in order of arrival; the
 methods say which place of it a pop takes.  The spin lock makes each operation atomic.
 */
module Atq {
  import opened Common
  import opened MinHeap

  const NULL := 0

  /** The 64-bit counter's successor. */
  function NextSeqno(n: nat): (r: nat)
    requires n < U64_LIMIT
    ensures r < U64_LIMIT
  {
    if n + 1 == U64_LIMIT then 0 else n + 1
  }

  /** Weights strictly grow in order of arrival. */
  ghost predicate Increasing(q: seq<Elem>) {
    forall i, j :: 0 <= i < j < |q| ==> q[i].weight < q[j].weight
  }

  /** `k` is a place of least weight. */
  ghost predicate LeastAt(q: seq<Elem>, k: nat) {
    k < |q| && forall j :: 0 <= j < |q| ==> q[k].weight <= q[j].weight
  }

  function Without(q: seq<Elem>, k: nat): seq<Elem>
    requires k < |q|
  {
    q[..k] + q[k + 1..]
  }

  lemma WithoutIsMultisetRemoval(q: seq<Elem>, k: nat)
    requires k < |q|
    ensures multiset(Without(q, k)) + multiset{q[k]} == multiset(q)
  {
    assert q == q[..k] + [q[k]] + q[k + 1..];
  }

  lemma IncreasingTail(q: seq<Elem>)
    requires Increasing(q) && q != []
    ensures Increasing(q[1..])
  {
    forall i, j | 0 <= i < j < |q[1..]| ensures q[1..][i].weight < q[1..][j].weight {
      assert q[i + 1].weight < q[j + 1].weight;
    }
  }

  lemma IncreasingLeast(q: seq<Elem>, k: nat)
    requires Increasing(q) && LeastAt(q, k)
    ensures k == 0 && Without(q, k) == q[1..] && Increasing(q[1..])
  {
    assert q[k].weight <= q[0].weight;
    assert q[..0] + q[1..] == q[1..];
    IncreasingTail(q);
  }

  /** A least element of the contents has a place of least weight in the queue. */
  lemma LeastPlace(q: seq<Elem>, e: Elem) returns (k: nat)
    requires e in multiset(q) && forall x :: x in multiset(q) ==> e.weight <= x.weight
    ensures LeastAt(q, k) && q[k] == e
  {
    assert e in q;
    k :| 0 <= k < |q| && q[k] == e;
    forall j | 0 <= j < |q| ensures q[k].weight <= q[j].weight {
      assert q[j] in multiset(q);
    }
  }

  lemma RestOfContents(q: seq<Elem>, k: nat, rest: multiset<Elem>)
    requires k < |q| && rest + multiset{q[k]} == multiset(q)
    ensures multiset(Without(q, k)) == rest
  {
    WithoutIsMultisetRemoval(q, k);
    assert multiset(Without(q, k)) == multiset(q) - multiset{q[k]} == rest;
  }

  lemma AppendIncreasing(q: seq<Elem>, e: Elem)
    ensures Increasing(q) ==> (Increasing(q + [e]) <==> q == [] || q[|q| - 1].weight < e.weight)
  {
    var r := q + [e];
    if q != [] {
      assert r[|q| - 1] == q[|q| - 1] && r[|q|] == e;
    }
  }

  class Queue {
    const heap: Heap
    const fifo: bool
    var seqno: nat
    ghost var queue: seq<Elem>

    ghost predicate Valid()
      reads this, heap, heap.helems
    {
      && heap.Valid()
      && seqno < U64_LIMIT
      && multiset(queue) == multiset(heap.Contents())
      && |queue| == heap.size
    }

    constructor (fifo: bool, capacity: nat)
      requires capacity <= 0x3fff_ffff
      ensures Valid() && this.fifo == fifo && queue == [] && seqno == 0
      ensures fresh(heap) && fresh(heap.helems) && heap.helems.Length == capacity
    {
      this.fifo := fifo;
      heap := new Heap(capacity);
      seqno := 0;
      queue := [];
    }

    /**
     Fifo insert.  The counter advances even when the heap is full, and wraps at 64 bits: arrival order
     stays weight order exactly when the queue was empty or its last weight is still below the counter.
     */
    method Insert(task: nat) returns (status: Status)
      requires Valid()
      modifies this`seqno, this`queue, heap`size, heap.helems
      ensures Valid()
      ensures status == if !fifo then Invalid else if |old(queue)| == heap.helems.Length then NoSpace else Ok
      ensures queue == if status.Ok? then old(queue) + [Elem(task, old(seqno))] else old(queue)
      ensures seqno == if !fifo then old(seqno) else NextSeqno(old(seqno))
      ensures status.Ok? && Increasing(old(queue)) ==>
                (Increasing(queue) <==> old(queue) == [] || old(queue[|queue| - 1].weight) < old(seqno))
    {
      if !fifo {
        return Invalid;
      }
      ghost var q, e := queue, Elem(task, seqno);
      status := heap.Insert(task, seqno);
      seqno := NextSeqno(seqno);
      if status.Ok? {
        queue := q + [e];
        AppendIncreasing(q, e);
      }
    }

    method InsertVtime(task: nat, vtime: nat) returns (status: Status)
      requires Valid()
      modifies this`queue, heap`size, heap.helems
      ensures Valid()
      ensures status == if fifo then Invalid else if |old(queue)| == heap.helems.Length then NoSpace else Ok
      ensures queue == if status.Ok? then old(queue) + [Elem(task, vtime)] else old(queue)
    {
      if fifo {
        return Invalid;
      }
      status := heap.Insert(task, vtime);
      if status.Ok? {
        queue := queue + [Elem(task, vtime)];
      }
    }

    /** Takes out an element of least weight; in arrival order of weights that is the oldest one. */
    method Pop() returns (task: nat, ghost k: nat)
      requires Valid()
      modifies this`queue, heap`size, heap.helems
      ensures Valid()
      ensures old(queue) == [] ==> task == NULL && queue == []
      ensures old(queue) != [] ==> LeastAt(old(queue), k) && task == old(queue)[k].elem && queue == Without(old(queue), k)
      ensures old(queue) != [] && Increasing(old(queue)) ==>
                task == old(queue)[0].elem && queue == old(queue)[1..] && Increasing(queue)
    {
      k := 0;
      if heap.size == 0 {
        task := NULL;
        return;
      }
      ghost var q := queue;
      var status, helem := heap.Pop();
      task := helem.elem;
      k := LeastPlace(q, helem);
      queue := Without(q, k);
      RestOfContents(q, k, multiset(heap.Contents()));
      if Increasing(q) { IncreasingLeast(q, k); }
    }

    /** The element a pop would take, left in place. */
    method Peek() returns (task: nat)
      requires Valid()
      ensures queue == [] ==> task == NULL
      ensures queue != [] ==> exists k: nat :: LeastAt(queue, k) && task == queue[k].elem
      ensures queue != [] && Increasing(queue) ==> task == queue[0].elem
    {
      if heap.size == 0 {
        return NULL;
      }
      ghost var s := heap.Contents();
      RootIsLeast(s);
      ghost var k := LeastPlace(queue, s[0]);
      if Increasing(queue) { IncreasingLeast(queue, k); }
      return heap.helems[0].elem;
    }
  }

  /** Two tasks inserted while the counter wraps come out in the wrong order. */
  method WrapReorders(atq: Queue, first: nat, second: nat) returns (task: nat)
    requires atq.Valid() && atq.fifo && atq.queue == [] && atq.seqno == 0xffff_ffff_ffff_ffff && atq.heap.helems.Length >= 2
    modifies atq`seqno, atq`queue, atq.heap`size, atq.heap.helems
    ensures task == second
  {
    hide Increasing;
    var status := atq.Insert(first);
    status := atq.Insert(second);
    ghost var q := atq.queue;
    assert q == [Elem(first, 0xffff_ffff_ffff_ffff), Elem(second, 0)];
    ghost var k;
    task, k := atq.Pop();
    assert q[k].weight <= q[1].weight;
  }

  // ---------- whole runs of a fifo queue ----------

  datatype Op = Put(task: nat) | Take

  datatype Event = PutDone(status: Status) | Taken(task: nat)

  /** What one operation on a bounded first-in first-out queue reports. */
  function FifoEvent(capacity: nat, q: seq<nat>, op: Op): Event {
    match op
    case Put(_) => PutDone(if |q| == capacity then NoSpace else Ok)
    case Take => Taken(if q == [] then NULL else q[0])
  }

  function FifoNext(capacity: nat, q: seq<nat>, op: Op): seq<nat> {
    match op
    case Put(x) => if |q| == capacity then q else q + [x]
    case Take => if q == [] then q else q[1..]
  }

  /** The events of a run of the bounded queue. */
  function FifoRun(capacity: nat, q: seq<nat>, ops: seq<Op>): (events: seq<Event>)
    ensures |events| == |ops|
    decreases |ops|
  {
    if ops == [] then []
    else [FifoEvent(capacity, q, ops[0])] + FifoRun(capacity, FifoNext(capacity, q, ops[0]), ops[1..])
  }

  function Tasks(q: seq<Elem>): (r: seq<nat>)
    ensures |r| == |q|
  {
    seq(|q|, i requires 0 <= i < |q| => q[i].elem)
  }

  /** Weights grow in order of arrival and are below the counter. */
  ghost predicate InOrder(q: seq<Elem>, n: nat) {
    Increasing(q) && forall k :: 0 <= k < |q| ==> q[k].weight < n
  }

  lemma PutInOrder(q: seq<Elem>, n: nat, task: nat)
    requires InOrder(q, n)
    ensures InOrder(q, n + 1) && InOrder(q + [Elem(task, n)], n + 1)
    ensures Tasks(q + [Elem(task, n)]) == Tasks(q) + [task]
  {
    AppendIncreasing(q, Elem(task, n));
  }

  lemma TakeInOrder(q: seq<Elem>, n: nat)
    requires InOrder(q, n) && q != []
    ensures InOrder(q[1..], n) && Tasks(q[1..]) == Tasks(q)[1..]
  {
    IncreasingTail(q);
  }

  /** How often a run inserts: only inserts advance the counter. */
  function Puts(ops: seq<Op>): nat {
    if ops == [] then 0 else Puts(ops[..|ops| - 1]) + if ops[|ops| - 1].Put? then 1 else 0
  }

  lemma {:induction false} PutsGrow(ops: seq<Op>, i: nat)
    requires i < |ops|
    ensures Puts(ops[..i + 1]) == Puts(ops[..i]) + (if ops[i].Put? then 1 else 0) && Puts(ops[..i + 1]) <= Puts(ops)
    decreases |ops|
  {
    assert ops[..i + 1][..i] == ops[..i];
    if i + 1 == |ops| {
      assert ops[..i + 1] == ops;
    } else {
      var front := ops[..|ops| - 1];
      assert front[..i + 1] == ops[..i + 1];
      PutsGrow(front, i);
    }
  }

  /** The bounded queue that `atq` stands for after at most `puts` inserts: its weights are in order of arrival and below the counter. */
  ghost predicate Refines(atq: Queue, capacity: nat, q: seq<nat>, puts: nat)
    reads atq, atq.heap, atq.heap.helems
  {
    && atq.Valid() && atq.fifo && atq.heap.helems.Length == capacity
    && atq.seqno <= puts && q == Tasks(atq.queue)
    && InOrder(atq.queue, atq.seqno)
  }

  method StepPut(atq: Queue, ghost capacity: nat, task: nat, ghost q: seq<nat>, ghost puts: nat) returns (event: Event)
    requires Refines(atq, capacity, q, puts) && puts + 1 < U64_LIMIT
    modifies atq`seqno, atq`queue, atq.heap`size, atq.heap.helems
    ensures Refines(atq, capacity, FifoNext(capacity, q, Put(task)), puts + 1)
    ensures event == FifoEvent(capacity, q, Put(task))
  {
    ghost var elems, n := atq.queue, atq.seqno;
    var status := atq.Insert(task);
    assert atq.seqno == n + 1;
    PutInOrder(elems, n, task);
    event := PutDone(status);
  }

  method StepTake(atq: Queue, ghost capacity: nat, ghost q: seq<nat>, ghost puts: nat) returns (event: Event)
    requires Refines(atq, capacity, q, puts)
    modifies atq`queue, atq.heap`size, atq.heap.helems
    ensures Refines(atq, capacity, FifoNext(capacity, q, Take), puts)
    ensures event == FifoEvent(capacity, q, Take)
  {
    ghost var elems := atq.queue;
    var task, _ := atq.Pop();
    if elems != [] { TakeInOrder(elems, atq.seqno); }
    event := Taken(task);
  }

  /** One operation of a run, on the heap and on the queue it stands for. */
  method Step(atq: Queue, ghost capacity: nat, op: Op, ghost q: seq<nat>, ghost puts: nat) returns (event: Event)
    requires Refines(atq, capacity, q, puts) && (op.Put? ==> puts + 1 < U64_LIMIT)
    modifies atq`seqno, atq`queue, atq.heap`size, atq.heap.helems
    ensures Refines(atq, capacity, FifoNext(capacity, q, op), if op.Put? then puts + 1 else puts)
    ensures event == FifoEvent(capacity, q, op)
  {
    match op {
      case Put(x) => event := StepPut(atq, capacity, x, q, puts);
      case Take => event := StepTake(atq, capacity, q, puts);
    }
  }

  lemma FifoRunStep(capacity: nat, q: seq<nat>, ops: seq<Op>, i: nat)
    requires i < |ops|
    ensures FifoRun(capacity, q, ops[i..]) ==
            [FifoEvent(capacity, q, ops[i])] + FifoRun(capacity, FifoNext(capacity, q, ops[i]), ops[i + 1..])
  {
    assert ops[i..][0] == ops[i] && ops[i..][1..] == ops[i + 1..];
  }

  lemma NoPuts(ops: seq<Op>)
    requires ops == []
    ensures Puts(ops) == 0
  {
  }

  lemma NothingRun(capacity: nat, q: seq<nat>)
    ensures FifoRun(capacity, q, []) == []
  {
  }

  method StartFifo(capacity: nat) returns (atq: Queue)
    requires capacity <= 0x3fff_ffff
    ensures fresh(atq) && fresh(atq.heap) && fresh(atq.heap.helems) && Refines(atq, capacity, [], 0)
  {
    atq := new Queue(true, capacity);
  }

  /** Over every run with fewer than 2^64 inserts, and any number of pops, the fifo queue behaves as the bounded queue. */
  method RunFifo(capacity: nat, ops: seq<Op>) returns (events: seq<Event>)
    requires capacity <= 0x3fff_ffff && Puts(ops) < 0x1_0000_0000_0000_0000
    ensures events == FifoRun(capacity, [], ops)
  {
    hide Refines, FifoRun, FifoNext, FifoEvent, Puts;
    var atq := StartFifo(capacity);
    events := [];
    ghost var q := [];
    NoPuts(ops[..0]);
    assert ops[0..] == ops;
    for i := 0 to |ops|
      invariant Refines(atq, capacity, q, Puts(ops[..i]))
      invariant fresh(atq) && fresh(atq.heap) && fresh(atq.heap.helems)
      invariant events + FifoRun(capacity, q, ops[i..]) == FifoRun(capacity, [], ops)
    {
      FifoRunStep(capacity, q, ops, i);
      PutsGrow(ops, i);
      var event := Step(atq, capacity, ops[i], q, Puts(ops[..i]));
      q := FifoNext(capacity, q, ops[i]);
      events := events + [event];
    }
    assert ops[|ops|..] == [];
    NothingRun(capacity, q);
  }

  /** The task one operation puts in, if any, and the task it takes out, if any. */
  function PutIn(capacity: nat, q: seq<nat>, op: Op): seq<nat> {
    if op.Put? && FifoEvent(capacity, q, op) == PutDone(Ok) then [op.task] else []
  }

  function TakenOut(capacity: nat, q: seq<nat>, op: Op): seq<nat> {
    if op.Take? && q != [] then [FifoEvent(capacity, q, op).task] else []
  }

  lemma StepConserves(capacity: nat, q: seq<nat>, op: Op)
    ensures q + PutIn(capacity, q, op) == TakenOut(capacity, q, op) + FifoNext(capacity, q, op)
  {
  }

  /** Tasks a run accepts, tasks it hands out, and tasks it leaves queued. */
  function AcceptedBy(capacity: nat, q: seq<nat>, ops: seq<Op>): seq<nat>
    decreases |ops|
  {
    if ops == [] then []
    else PutIn(capacity, q, ops[0]) + AcceptedBy(capacity, FifoNext(capacity, q, ops[0]), ops[1..])
  }

  function TakenBy(capacity: nat, q: seq<nat>, ops: seq<Op>): seq<nat>
    decreases |ops|
  {
    if ops == [] then []
    else TakenOut(capacity, q, ops[0]) + TakenBy(capacity, FifoNext(capacity, q, ops[0]), ops[1..])
  }

  function LeftBy(capacity: nat, q: seq<nat>, ops: seq<Op>): seq<nat>
    decreases |ops|
  {
    if ops == [] then q else LeftBy(capacity, FifoNext(capacity, q, ops[0]), ops[1..])
  }

  /** Nothing is lost, duplicated or reordered over any run. */
  lemma {:induction false} FifoConserves(capacity: nat, q: seq<nat>, ops: seq<Op>)
    ensures q + AcceptedBy(capacity, q, ops) == TakenBy(capacity, q, ops) + LeftBy(capacity, q, ops)
    decreases |ops|
  {
    hide PutIn, TakenOut, FifoNext;
    if ops != [] {
      var q', rest := FifoNext(capacity, q, ops[0]), ops[1..];
      var put, got := PutIn(capacity, q, ops[0]), TakenOut(capacity, q, ops[0]);
      var acc, out, left := AcceptedBy(capacity, q', rest), TakenBy(capacity, q', rest), LeftBy(capacity, q', rest);
      calc {
        q + (put + acc);
        (q + put) + acc;
        { StepConserves(capacity, q, ops[0]); }
        (got + q') + acc;
        got + (q' + acc);
        { FifoConserves(capacity, q', rest); }
        got + (out + left);
        (got + out) + left;
      }
    }
  }

  // ---------- whole runs of a virtual-time queue ----------

  datatype VtimeOp = PutAt(task: nat, vtime: nat) | TakeLeast

  ghost predicate Least(m: multiset<Elem>, e: Elem) {
    e in m && forall x :: x in m ==> e.weight <= x.weight
  }

  /** One operation on a bounded multiset; which of several least elements a take removes is left open. */
  ghost predicate VtimeStep(capacity: nat, m: multiset<Elem>, op: VtimeOp, event: Event, m': multiset<Elem>) {
    match op
    case PutAt(x, v) =>
      if |m| == capacity then event == PutDone(NoSpace) && m' == m
      else event == PutDone(Ok) && m' == m + multiset{Elem(x, v)}
    case TakeLeast =>
      if |m| == 0 then event == Taken(NULL) && m' == m
      else exists e :: Least(m, e) && event == Taken(e.elem) && m' == m - multiset{e}
  }

  /** A run of the bounded multiset from empty, with its contents before and after every operation. */
  ghost predicate VtimeRun(capacity: nat, ops: seq<VtimeOp>, events: seq<Event>, contents: seq<multiset<Elem>>) {
    && |events| == |ops| && |contents| == |ops| + 1 && contents[0] == multiset{}
    && forall i {:trigger events[i]} :: 0 <= i < |ops| ==> VtimeStep(capacity, contents[i], ops[i], events[i], contents[i + 1])
  }

  method StepVtime(atq: Queue, ghost capacity: nat, op: VtimeOp) returns (event: Event)
    requires atq.Valid() && !atq.fifo && atq.heap.helems.Length == capacity
    modifies atq`queue, atq.heap`size, atq.heap.helems
    ensures atq.Valid() && VtimeStep(capacity, old(multiset(atq.queue)), op, event, multiset(atq.queue))
  {
    ghost var q := atq.queue;
    match op {
      case PutAt(x, v) =>
        var status := atq.InsertVtime(x, v);
        event := PutDone(status);
      case TakeLeast =>
        var task, k := atq.Pop();
        event := Taken(task);
        if q != [] {
          WithoutIsMultisetRemoval(q, k);
          assert multiset(atq.queue) == multiset(q) - multiset{q[k]};
          assert Least(multiset(q), q[k]) by {
            forall x | x in multiset(q) ensures q[k].weight <= x.weight { assert x in q; }
          }
        }
    }
  }

  lemma VtimeRunGrows(capacity: nat, ops: seq<VtimeOp>, i: nat, events: seq<Event>, contents: seq<multiset<Elem>>,
                      event: Event, m: multiset<Elem>)
    requires i < |ops| && VtimeRun(capacity, ops[..i], events, contents)
    requires VtimeStep(capacity, contents[i], ops[i], event, m)
    ensures VtimeRun(capacity, ops[..i + 1], events + [event], contents + [m])
  {
    var events', contents' := events + [event], contents + [m];
    forall k {:trigger events'[k]} | 0 <= k < i + 1
      ensures VtimeStep(capacity, contents'[k], ops[..i + 1][k], events'[k], contents'[k + 1])
    {
      if k < i {
        assert events'[k] == events[k] && ops[..i][k] == ops[k];
      }
    }
  }

  /** Over every run the virtual-time queue behaves as the bounded multiset. */
  method RunVtime(capacity: nat, ops: seq<VtimeOp>) returns (events: seq<Event>)
    requires capacity <= 0x3fff_ffff
    ensures exists contents :: VtimeRun(capacity, ops, events, contents)
  {
    var atq := new Queue(false, capacity);
    events := [];
    ghost var contents := [multiset{}];
    for i := 0 to |ops|
      invariant atq.Valid() && !atq.fifo && atq.heap.helems.Length == capacity
      invariant fresh(atq) && fresh(atq.heap) && fresh(atq.heap.helems)
      invariant contents != [] && contents[|contents| - 1] == multiset(atq.queue)
      invariant VtimeRun(capacity, ops[..i], events, contents)
    {
      var event := StepVtime(atq, capacity, ops[i]);
      VtimeRunGrows(capacity, ops, i, events, contents, event, multiset(atq.queue));
      events, contents := events + [event], contents + [multiset(atq.queue)];
    }
    assert ops[..|ops|] == ops;
  }

  lemma {:induction false} TakesOnlyShrink(capacity: nat, ops: seq<VtimeOp>, events: seq<Event>, contents: seq<multiset<Elem>>,
                                           i: nat, j: nat)
    requires VtimeRun(capacity, ops, events, contents) && i <= j <= |ops|
    requires forall k :: i <= k < j ==> ops[k].TakeLeast?
    ensures contents[j] <= contents[i]
    decreases j - i
  {
    if i < j {
      TakesOnlyShrink(capacity, ops, events, contents, i, j - 1);
      assert VtimeStep(capacity, contents[j - 1], ops[j - 1], events[j - 1], contents[j]);
    }
  }

  /** Takes with no insert between them come out in order of virtual time. */
  lemma TakesAreSorted(capacity: nat, ops: seq<VtimeOp>, events: seq<Event>, contents: seq<multiset<Elem>>, i: nat, j: nat)
    returns (e: Elem, f: Elem)
    requires VtimeRun(capacity, ops, events, contents) && i < j < |ops| && |contents[j]| > 0
    requires forall k :: i <= k <= j ==> ops[k].TakeLeast?
    ensures events[i] == Taken(e.elem) && contents[i + 1] == contents[i] - multiset{e} && e in contents[i]
    ensures events[j] == Taken(f.elem) && contents[j + 1] == contents[j] - multiset{f} && f in contents[j]
    ensures e.weight <= f.weight
  {
    TakesOnlyShrink(capacity, ops, events, contents, i, j);
    assert VtimeStep(capacity, contents[i], ops[i], events[i], contents[i + 1]);
    assert VtimeStep(capacity, contents[j], ops[j], events[j], contents[j + 1]);
    f :| Least(contents[j], f) && events[j] == Taken(f.elem) && contents[j + 1] == contents[j] - multiset{f};
    assert f in contents[i];
    assert |contents[i]| > 0;
    e :| Least(contents[i], e) && events[i] == Taken(e.elem) && contents[i + 1] == contents[i] - multiset{e};
  }
}
