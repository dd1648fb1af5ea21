/**
 The handshake of the main thread and its helper thread (include/helper_thread.h, src/helper_thread.c,
 src/cache_ops.c, src/evset.c) as a transition system: every access to a shared field is one step, and
 the two threads interleave in every order.  Memory is sequentially consistent.
 */
module HelperProtocol {
  datatype Action = HelperStop | ReadSingle | TimeSingle | ReadArray | TraverseCands

  /** What the payload pointer points at: a line to touch, or an allocated argument block. */
  datatype Payload = Line(addr: int) | Block(id: nat)

  /** A command as the main thread means it; `fields` is what its argument block holds. */
  datatype Command = Command(action: Action, payload: Payload, fields: seq<int>)

  /** A command as the helper carried it out; `lat` is what it measured. */
  datatype Done = Done(action: Action, payload: Payload, fields: seq<int>, lat: int)

  /** How many fields of the argument block the helper reads for an action. */
  function FieldCount(action: Action): nat {
    match action
    case ReadArray => 5
    case TraverseCands => 4
    case _ => 0
  }

  predicate WellFormed(cmd: Command) {
    && cmd.action != HelperStop && |cmd.fields| == FieldCount(cmd.action)
    && (cmd.payload.Block? <==> FieldCount(cmd.action) > 0)
  }

  /** Where the main thread is.  Each name says what it does next. */
  datatype MainPc =
    | Idle
    | ClearToStart | Create | AwaitStart | SetRunning
    | WriteStop | ReleaseToStop | Join | ClearRunning
    | WriteAction(cmd: Command) | WritePayload(cmd: Command) | Release(cmd: Command)
    | Work(cmd: Command) | Await(cmd: Command) | Finish(cmd: Command)

  datatype HelperPc =
    | NoThread
    | SetWaiting | Spin | LoadAction | LoadPayload(action: Action)
    | Carry(action: Action, payload: Payload, seen: seq<int>)
    | Exited

  /**
   The shared fields, the live argument blocks, the two threads, and three logs: the commands released,
   the commands carried out, and the latencies returned, by number of the command.
   */
  datatype State = State(
    waiting: bool, action: Action, payload: Payload, running: bool, lat: int,
    heap: map<nat, seq<int>>,
    main: MainPc, helper: HelperPc,
    issued: seq<Command>, executed: seq<Done>, results: map<int, int>)

  predicate Init(s: State) {
    && !s.waiting && !s.running && s.heap == map[] && s.main == Idle && s.helper == NoThread
    && s.issued == [] && s.executed == [] && s.results == map[]
  }

  // ---------- the main thread ----------

  /** A single-line command asserts that the helper runs; the others first allocate and fill their block. */
  predicate BeginCommand(s: State, s': State, cmd: Command) {
    if cmd.payload.Line? then s.running && s' == s.(main := WriteAction(cmd))
    else cmd.payload.id !in s.heap && s' == s.(heap := s.heap[cmd.payload.id := cmd.fields], main := WriteAction(cmd))
  }

  /** A new operation: start or stop the helper, or send it a command. */
  ghost predicate BeginNext(s: State, s': State)
    requires s.main == Idle
  {
    || (!s.running && s' == s.(main := ClearToStart))
    || (s.running && s' == s.(main := WriteStop))
    || (exists cmd: Command :: WellFormed(cmd) && BeginCommand(s, s', cmd))
  }

  /** The last step: returns the latency, frees the block, or just returns. */
  function Finished(s: State, cmd: Command): State {
    match cmd.action
    case TimeSingle => s.(main := Idle, results := s.results[|s.issued| - 1 := s.lat])
    case ReadSingle => s.(main := Idle)
    case _ => s.(main := Idle, heap := if cmd.payload.Block? then s.heap - {cmd.payload.id} else s.heap)
  }

  ghost predicate MainNext(s: State, s': State) {
    match s.main
    case Idle => BeginNext(s, s')
    case ClearToStart => s' == s.(waiting := false, main := Create)
    case Create => s' == s.(main := Idle) || s' == s.(helper := SetWaiting, main := AwaitStart)
    case AwaitStart => s.waiting && s' == s.(main := SetRunning)
    case SetRunning => s' == s.(running := true, main := Idle)
    case WriteStop => s' == s.(action := HelperStop, main := ReleaseToStop)
    case ReleaseToStop => s' == s.(waiting := false, main := Join)
    case Join => s.helper == Exited && s' == s.(main := ClearRunning)
    case ClearRunning => s' == s.(running := false, main := Idle)
    case WriteAction(cmd) => s' == s.(action := cmd.action, main := WritePayload(cmd))
    case WritePayload(cmd) => s' == s.(payload := cmd.payload, main := Release(cmd))
    case Release(cmd) =>
      s' == s.(waiting := false, issued := s.issued + [cmd], main := if cmd.action == ReadArray then Work(cmd) else Await(cmd))
    case Work(cmd) => s' == s.(main := Await(cmd))
    case Await(cmd) => s.waiting && s' == s.(main := Finish(cmd))
    case Finish(cmd) => s' == Finished(s, cmd)
  }

  // ---------- the helper thread ----------

  /** A field of a block; a block that was freed reads as anything. */
  predicate Reads(heap: map<nat, seq<int>>, id: nat, k: nat, v: int) {
    id in heap && k < |heap[id]| ==> v == heap[id][k]
  }

  /** The helper after a command is done: only a timed access writes the latency field. */
  function Carried(s: State, measured: int): State
    requires s.helper.Carry?
  {
    var h := s.helper;
    s.(lat := if h.action == TimeSingle then measured else s.lat,
       executed := s.executed + [Done(h.action, h.payload, h.seen, measured)],
       helper := SetWaiting)
  }

  ghost predicate CarryNext(s: State, s': State)
    requires s.helper.Carry?
  {
    var h := s.helper;
    if h.payload.Block? && |h.seen| < FieldCount(h.action) then
      exists v: int :: Reads(s.heap, h.payload.id, |h.seen|, v) && s' == s.(helper := Carry(h.action, h.payload, h.seen + [v]))
    else
      exists measured: int :: s' == Carried(s, measured)
  }

  ghost predicate HelperNext(s: State, s': State) {
    match s.helper
    case NoThread => false
    case SetWaiting => s' == s.(waiting := true, helper := Spin)
    case Spin => !s.waiting && s' == s.(helper := LoadAction)
    case LoadAction => s' == s.(helper := if s.action == HelperStop then Exited else LoadPayload(s.action))
    case LoadPayload(a) => s' == s.(helper := Carry(a, s.payload, []))
    case Carry(_, _, _) => CarryNext(s, s')
    case Exited => false
  }

  ghost predicate Next(s: State, s': State) {
    MainNext(s, s') || HelperNext(s, s')
  }

  ghost predicate StepAt(t: seq<State>, i: nat)
    requires i + 1 < |t|
  {
    Next(t[i], t[i + 1])
  }

  /** A run: from an initial state, one step of one of the threads after the other. */
  ghost predicate Trace(t: seq<State>) {
    t != [] && Init(t[0]) && forall i: nat :: i + 1 < |t| ==> StepAt(t, i)
  }

  // ---------- the invariant ----------

  /** The command was carried out as the main thread meant it. */
  predicate Matches(cmd: Command, done: Done) {
    cmd.action == done.action && cmd.payload == done.payload && cmd.fields == done.fields
  }

  ghost predicate Agree(issued: seq<Command>, executed: seq<Done>, results: map<int, int>, open: nat) {
    && |issued| == |executed| + open
    && (forall k :: 0 <= k < |issued| ==> WellFormed(issued[k]))
    && (forall k :: 0 <= k < |executed| ==> Matches(issued[k], executed[k]))
    && (forall k :: k in results ==>
          0 <= k < |executed| && issued[k].action == TimeSingle && results[k] == executed[k].lat)
  }

  /** The first commands are carried out, in order, once each; `open` are released and not carried out. */
  ghost predicate Logged(s: State, open: nat) {
    Agree(s.issued, s.executed, s.results, open)
  }

  /** The helper waits for a command, or there is none. */
  predicate Resting(s: State) {
    if s.running then s.helper == Spin && s.waiting else s.helper in {NoThread, Exited}
  }

  predicate Gone(s: State) {
    !s.running && s.helper in {NoThread, Exited}
  }

  /** The only live block is the current command's. */
  predicate Holds(s: State, cmd: Command) {
    s.heap == if cmd.payload.Block? then map[cmd.payload.id := cmd.fields] else map[]
  }

  /** A released command on its way through the helper, or waiting forever without one. */
  ghost predicate Pending(s: State, cmd: Command) {
    && s.action == cmd.action && s.payload == cmd.payload && s.issued != [] && s.issued[|s.issued| - 1] == cmd
    && if !s.running then s.helper in {NoThread, Exited} && !s.waiting && Logged(s, 1) else
       match s.helper
       case Spin => Logged(s, if s.waiting then 0 else 1)
       case SetWaiting => !s.waiting && Logged(s, 0)
       case LoadAction => !s.waiting && Logged(s, 1)
       case LoadPayload(a) => !s.waiting && a == cmd.action && Logged(s, 1)
       case Carry(a, p, seen) => !s.waiting && a == cmd.action && p == cmd.payload && seen <= cmd.fields && Logged(s, 1)
       case _ => false
  }

  /** The latency field still holds what the last command measured, if it was a timed one. */
  ghost predicate LatencyKept(s: State) {
    s.executed != [] && s.executed[|s.executed| - 1].action == TimeSingle ==> s.lat == s.executed[|s.executed| - 1].lat
  }

  ghost predicate Inv(s: State) {
    && LatencyKept(s)
    && match s.main
       case Idle => Logged(s, 0) && Resting(s) && s.heap == map[]
       case ClearToStart => Logged(s, 0) && Gone(s) && s.heap == map[]
       case Create => Logged(s, 0) && Gone(s) && !s.waiting && s.heap == map[]
       case AwaitStart =>
         Logged(s, 0) && !s.running && s.heap == map[] && (if s.waiting then s.helper == Spin else s.helper == SetWaiting)
       case SetRunning => Logged(s, 0) && !s.running && s.heap == map[] && s.helper == Spin && s.waiting
       case WriteStop => Logged(s, 0) && s.running && Resting(s) && s.heap == map[]
       case ReleaseToStop => Logged(s, 0) && s.running && Resting(s) && s.heap == map[] && s.action == HelperStop
       case Join =>
         && Logged(s, 0) && s.running && s.heap == map[] && s.action == HelperStop && !s.waiting
         && s.helper in {Spin, LoadAction, Exited}
       case ClearRunning => Logged(s, 0) && s.running && s.heap == map[] && s.helper == Exited
       case WriteAction(cmd) => WellFormed(cmd) && Logged(s, 0) && Resting(s) && Holds(s, cmd)
       case WritePayload(cmd) => WellFormed(cmd) && Logged(s, 0) && Resting(s) && Holds(s, cmd) && s.action == cmd.action
       case Release(cmd) =>
         WellFormed(cmd) && Logged(s, 0) && Resting(s) && Holds(s, cmd) && s.action == cmd.action && s.payload == cmd.payload
       case Work(cmd) => WellFormed(cmd) && Holds(s, cmd) && Pending(s, cmd)
       case Await(cmd) => WellFormed(cmd) && Holds(s, cmd) && Pending(s, cmd)
       case Finish(cmd) =>
         WellFormed(cmd) && Holds(s, cmd) && Pending(s, cmd) && s.running && s.helper == Spin && s.waiting
  }

  lemma InitInv(s: State)
    requires Init(s)
    ensures Inv(s)
  {
  }

  lemma BeginKeepsInv(s: State, s': State)
    requires Inv(s) && s.main == Idle && MainNext(s, s')
    ensures Inv(s')
  {
  }

  lemma LifecycleKeepsInv(s: State, s': State)
    requires Inv(s) && MainNext(s, s')
    requires s.main in {ClearToStart, Create, AwaitStart, SetRunning, WriteStop, ReleaseToStop, Join, ClearRunning}
    ensures Inv(s')
  {
  }

  lemma SendKeepsInv(s: State, s': State)
    requires Inv(s) && MainNext(s, s') && (s.main.WriteAction? || s.main.WritePayload? || s.main.Work? || s.main.Await?)
    ensures Inv(s')
  {
  }

  lemma ReleaseKeepsInv(s: State, s': State)
    requires Inv(s) && MainNext(s, s') && s.main.Release?
    ensures Inv(s')
  {
    assert Agree(s'.issued, s'.executed, s'.results, 1);
  }

  lemma FinishKeepsInv(s: State, s': State)
    requires Inv(s) && MainNext(s, s') && s.main.Finish?
    ensures Inv(s')
  {
  }

  lemma MainKeepsInv(s: State, s': State)
    requires Inv(s) && MainNext(s, s')
    ensures Inv(s')
  {
    hide Inv, MainNext;
    if s.main == Idle {
      BeginKeepsInv(s, s');
    } else if s.main.Release? {
      ReleaseKeepsInv(s, s');
    } else if s.main.Finish? {
      FinishKeepsInv(s, s');
    } else if s.main.WriteAction? || s.main.WritePayload? || s.main.Work? || s.main.Await? {
      SendKeepsInv(s, s');
    } else {
      LifecycleKeepsInv(s, s');
    }
  }

  /** While the helper is at a command, the main thread waits for it and keeps its block. */
  lemma CarryMeans(s: State)
    requires Inv(s) && s.helper.Carry?
    ensures (s.main.Work? || s.main.Await?) && Holds(s, s.main.cmd) && Pending(s, s.main.cmd) && s.running
    ensures WellFormed(s.main.cmd)
  {
  }

  lemma FieldReadKeepsInv(s: State, s': State)
    requires Inv(s) && HelperNext(s, s') && s.helper.Carry? && |s.helper.seen| < FieldCount(s.helper.action)
    ensures Inv(s')
  {
    CarryMeans(s);
  }

  lemma CarriedKeepsInv(s: State, s': State)
    requires Inv(s) && HelperNext(s, s') && s.helper.Carry? && |s.helper.seen| >= FieldCount(s.helper.action)
    ensures Inv(s')
  {
    CarryMeans(s);
    assert Agree(s'.issued, s'.executed, s'.results, 0);
  }

  lemma TurnKeepsInv(s: State, s': State)
    requires Inv(s) && HelperNext(s, s') && !s.helper.Carry?
    ensures Inv(s')
  {
  }

  lemma HelperKeepsInv(s: State, s': State)
    requires Inv(s) && HelperNext(s, s')
    ensures Inv(s')
  {
    hide Inv, HelperNext;
    if !s.helper.Carry? {
      TurnKeepsInv(s, s');
    } else if |s.helper.seen| < FieldCount(s.helper.action) {
      FieldReadKeepsInv(s, s');
    } else {
      CarriedKeepsInv(s, s');
    }
  }

  // ---------- main results, for every state of every interleaving ----------

  lemma {:induction false} TraceInv(t: seq<State>, i: nat)
    requires Trace(t) && i < |t|
    ensures Inv(t[i])
  {
    hide Inv, MainNext, HelperNext;
    if i == 0 {
      InitInv(t[0]);
    } else {
      TraceInv(t, i - 1);
      assert StepAt(t, i - 1);
      if MainNext(t[i - 1], t[i]) {
        MainKeepsInv(t[i - 1], t[i]);
      } else {
        HelperKeepsInv(t[i - 1], t[i]);
      }
    }
  }

  lemma MainLogsGrow(s: State, s': State)
    requires MainNext(s, s')
    ensures s.issued <= s'.issued && s.executed == s'.executed
  {
  }

  lemma HelperLogsGrow(s: State, s': State)
    requires HelperNext(s, s')
    ensures s.issued == s'.issued && s.executed <= s'.executed
  {
  }

  lemma LogsGrow(s: State, s': State)
    requires Next(s, s')
    ensures s.issued <= s'.issued && s.executed <= s'.executed
  {
    if MainNext(s, s') {
      MainLogsGrow(s, s');
    } else {
      HelperLogsGrow(s, s');
    }
  }

  lemma StepLogsGrow(t: seq<State>, i: nat)
    requires Trace(t) && i + 1 < |t|
    ensures t[i].issued <= t[i + 1].issued && t[i].executed <= t[i + 1].executed
  {
    assert StepAt(t, i);
    LogsGrow(t[i], t[i + 1]);
  }

  /** Nothing is ever taken out of the logs. */
  lemma {:induction false} TraceLogsGrow(t: seq<State>, i: nat, j: nat)
    requires Trace(t) && i <= j < |t|
    ensures t[i].issued <= t[j].issued && t[i].executed <= t[j].executed
    decreases j
  {
    if i < j {
      TraceLogsGrow(t, i, j - 1);
      StepLogsGrow(t, j - 1);
    }
  }

  /** All the arguments were read: five of an array to prime, four of a traversal, none otherwise. */
  predicate AllFields(done: Done) {
    |done.fields| == if done.action == ReadArray then 5 else if done.action == TraverseCands then 4 else 0
  }

  lemma InvOrders(s: State)
    requires Inv(s)
    ensures |s.executed| <= |s.issued| <= |s.executed| + 1
    ensures forall k :: 0 <= k < |s.executed| ==> Matches(s.issued[k], s.executed[k])
    ensures forall k :: 0 <= k < |s.executed| ==> AllFields(s.executed[k])
    ensures s.main == Idle ==> |s.issued| == |s.executed| && s.heap == map[]
    ensures forall k :: k in s.results ==>
              0 <= k < |s.executed| && s.issued[k].action == TimeSingle && s.results[k] == s.executed[k].lat
  {
  }

  /**
   The k-th command carried out is the k-th command released, with the action, the payload and the
   arguments the main thread wrote; at most one is open, and none whenever the main thread is back in its caller.
   */
  lemma EachCommandOnce(t: seq<State>, i: nat)
    requires Trace(t) && i < |t|
    ensures var s := t[i];
            && |s.executed| <= |s.issued| <= |s.executed| + 1
            && (forall k :: 0 <= k < |s.executed| ==> Matches(s.issued[k], s.executed[k]) && AllFields(s.executed[k]))
            && (s.main == Idle ==> |s.issued| == |s.executed|)
  {
    TraceInv(t, i);
    InvOrders(t[i]);
  }

  lemma AwaitOver(s: State)
    requires Inv(s) && s.main.Await?
    ensures s.waiting ==>
              && |s.issued| == |s.executed| > 0 && s.issued[|s.issued| - 1] == s.main.cmd
              && Matches(s.main.cmd, s.executed[|s.executed| - 1])
  {
  }

  /** The main thread gets past its wait only after the command it sent has been carried out. */
  lemma ResumesAfterExecution(t: seq<State>, i: nat)
    requires Trace(t) && i + 1 < |t| && t[i].main.Await? && t[i + 1].main != t[i].main
    ensures var s := t[i];
            && |s.issued| == |s.executed| > 0 && s.issued[|s.issued| - 1] == s.main.cmd
            && Matches(s.main.cmd, s.executed[|s.executed| - 1])
  {
    TraceInv(t, i);
    assert StepAt(t, i);
    AwaitOver(t[i]);
  }

  /** A block the helper is reading from is live and holds what the main thread filled in. */
  lemma BlocksStayAlive(t: seq<State>, i: nat)
    requires Trace(t) && i < |t| && t[i].helper.Carry? && t[i].helper.payload.Block?
    ensures var s := t[i];
            && s.helper.payload.id in s.heap && s.issued != []
            && s.heap[s.helper.payload.id] == s.issued[|s.issued| - 1].fields
            && s.helper.seen <= s.issued[|s.issued| - 1].fields
  {
    TraceInv(t, i);
    CarryMeans(t[i]);
  }

  lemma FreeMeans(s: State, s': State)
    requires Inv(s) && Next(s, s')
    ensures s.main.Finish? || s.heap.Keys <= s'.heap.Keys
    ensures s.main.Finish? ==> s.helper == Spin && s.waiting
  {
  }

  /** When the main thread frees a block the helper holds no block. */
  lemma FreedWhenUnused(t: seq<State>, i: nat)
    requires Trace(t) && i + 1 < |t| && !(t[i].heap.Keys <= t[i + 1].heap.Keys)
    ensures t[i].main.Finish? && t[i].helper == Spin && t[i].waiting
  {
    TraceInv(t, i);
    assert StepAt(t, i);
    FreeMeans(t[i], t[i + 1]);
  }

  /** The main thread is not at work on the last command released. */
  predicate Answered(main: MainPc) {
    !main.Work? && !main.Await? && !main.Finish?
  }

  /** Every timed command up to the one at work has its latency handed back. */
  ghost predicate Returned(s: State) {
    forall k: nat :: k < |s.issued| - (if Answered(s.main) then 0 else 1) && s.issued[k].action == TimeSingle ==> k in s.results
  }

  lemma FinishMeans(s: State)
    requires Inv(s) && s.main.Finish?
    ensures s.issued != [] && s.issued[|s.issued| - 1] == s.main.cmd
  {
  }

  lemma FinishReturns(s: State, cmd: Command)
    requires Returned(s) && s.main == Finish(cmd) && s.issued != [] && s.issued[|s.issued| - 1] == cmd
    ensures Returned(Finished(s, cmd))
  {
  }

  lemma OtherSteps(s: State, s': State)
    requires MainNext(s, s') && !s.main.Finish?
    ensures s'.results == s.results
    ensures if s.main.Release? then Answered(s.main) && !Answered(s'.main) && s'.issued == s.issued + [s.main.cmd]
            else s'.issued == s.issued && (Answered(s'.main) <==> Answered(s.main))
  {
    hide WellFormed, Finished;
  }

  lemma OtherStepsReturn(s: State, s': State)
    requires Returned(s) && MainNext(s, s') && !s.main.Finish?
    ensures Returned(s')
  {
    hide MainNext, Answered;
    OtherSteps(s, s');
  }

  lemma MainReturns(s: State, s': State)
    requires Inv(s) && Returned(s) && MainNext(s, s')
    ensures Returned(s')
  {
    if s.main.Finish? {
      hide Inv, Returned;
      FinishMeans(s);
      FinishReturns(s, s.main.cmd);
    } else {
      hide Inv, Returned, MainNext;
      OtherStepsReturn(s, s');
    }
  }

  lemma HelperReturns(s: State, s': State)
    requires Returned(s) && HelperNext(s, s')
    ensures Returned(s')
  {
  }

  lemma {:induction false} TraceReturned(t: seq<State>, i: nat)
    requires Trace(t) && i < |t|
    ensures Returned(t[i])
  {
    hide Inv, MainNext, HelperNext;
    if i > 0 {
      TraceReturned(t, i - 1);
      TraceInv(t, i - 1);
      assert StepAt(t, i - 1);
      if MainNext(t[i - 1], t[i]) {
        MainReturns(t[i - 1], t[i]);
      } else {
        HelperReturns(t[i - 1], t[i]);
      }
    }
  }

  /**
   A latency handed back is the one measured by that very command, and back in its caller the main thread
   has handed one back for exactly the timed commands; every block allocated is freed.
   */
  lemma LatencyIsItsOwn(t: seq<State>, i: nat)
    requires Trace(t) && i < |t|
    ensures var s := t[i];
            && (forall k :: k in s.results ==>
                  0 <= k < |s.executed| <= |s.issued| && s.issued[k].action == TimeSingle && s.results[k] == s.executed[k].lat)
            && (s.main == Idle ==> forall k: nat :: k < |s.issued| && s.issued[k].action == TimeSingle ==> k in s.results)
            && (s.main == Idle ==> s.heap == map[])
  {
    hide Inv;
    TraceInv(t, i);
    TraceReturned(t, i);
    InvOrders(t[i]);
  }

  // ---------- waits ----------

  /** The main thread spins on the flag of a start or a command, or joins the helper, and cannot go on. */
  predicate Blocked(s: State) {
    || ((s.main.AwaitStart? || s.main.Await?) && !s.waiting)
    || (s.main.Join? && s.helper != Exited)
  }

  ghost predicate CanMove(s: State) {
    exists s' :: Next(s, s')
  }

  /** Steps the helper is away from reporting back. */
  function Distance(h: HelperPc): int {
    match h
    case SetWaiting => 1
    case Carry(a, _, seen) => 2 + FieldCount(a) - |seen|
    case LoadPayload(_) => 8
    case LoadAction => 9
    case Spin => 10
    case _ => 0
  }

  lemma HelperCanMove(s: State)
    requires Inv(s) && Blocked(s) && (s.main.Await? ==> s.running)
    ensures CanMove(s)
  {
    var s' := match s.helper
      case SetWaiting => s.(waiting := true, helper := Spin)
      case Spin => s.(helper := LoadAction)
      case LoadAction => s.(helper := if s.action == HelperStop then Exited else LoadPayload(s.action))
      case LoadPayload(a) => s.(helper := Carry(a, s.payload, []))
      case Carry(a, p, seen) =>
        if p.Block? && |seen| < FieldCount(a) then
          s.(helper := Carry(a, p, seen + [if s.main.Await? && |seen| < |s.main.cmd.fields| then s.main.cmd.fields[|seen|] else 0]))
        else Carried(s, 0)
      case _ => s;
    if s.helper.Carry? {
      CarryMeans(s);
      var h := s.helper;
      if h.payload.Block? && |h.seen| < FieldCount(h.action) {
        assert Reads(s.heap, h.payload.id, |h.seen|, s.main.cmd.fields[|h.seen|]);
      }
    }
    assert Next(s, s');
  }

  lemma HelperMovesOn(s: State, s': State)
    requires Inv(s) && Blocked(s) && (s.main.Await? ==> s.running) && Next(s, s')
    ensures s'.main == s.main && (Blocked(s') ==> 0 <= Distance(s'.helper) < Distance(s.helper))
  {
    if s.helper.Carry? { CarryMeans(s); }
  }

  /** Without a helper nobody can move. */
  lemma NobodyMoves(s: State)
    requires Inv(s) && s.main.Await? && !s.running
    ensures !CanMove(s)
  {
  }

  /**
   A wait of a start, a stop or a command for a running helper ends: only the helper can move, it can,
   and every move brings it nearer.  The wait of a command sent without a helper never does: there is no next step.
   */
  lemma WaitsEnd(t: seq<State>, i: nat)
    requires Trace(t) && i < |t| && Blocked(t[i])
    ensures CanMove(t[i]) <==> (t[i].main.Await? ==> t[i].running)
    ensures forall s' :: Next(t[i], s') ==>
              s'.main == t[i].main && (Blocked(s') ==> 0 <= Distance(s'.helper) < Distance(t[i].helper))
  {
    var s := t[i];
    TraceInv(t, i);
    if s.main.Await? && !s.running {
      NobodyMoves(s);
    } else {
      HelperCanMove(s);
      forall s' | Next(s, s') ensures s'.main == s.main && (Blocked(s') ==> 0 <= Distance(s'.helper) < Distance(s.helper)) {
        HelperMovesOn(s, s');
      }
    }
  }

  /** The state in which a block command without a helper is about to do its next step. */
  function Unhelped(s: State, cmd: Command, main: MainPc, action: Action, payload: Payload): State
    requires cmd.payload.Block?
  {
    s.(heap := map[cmd.payload.id := cmd.fields], main := main, action := action, payload := payload)
  }

  /** The steps of such a command up to its wait. */
  lemma UnhelpedSteps(s: State, cmd: Command) returns (t: seq<State>)
    requires Init(s) && WellFormed(cmd) && cmd.payload.Block?
    ensures Trace(t) && t[|t| - 1].main == Await(cmd) && !t[|t| - 1].running
  {
    var s1 := Unhelped(s, cmd, WriteAction(cmd), s.action, s.payload);
    var s2 := Unhelped(s, cmd, WritePayload(cmd), cmd.action, s.payload);
    var s3 := Unhelped(s, cmd, Release(cmd), cmd.action, cmd.payload);
    var s4 := s3.(issued := [cmd], main := if cmd.action == ReadArray then Work(cmd) else Await(cmd));
    assert BeginCommand(s, s1, cmd);
    assert Next(s, s1) && Next(s1, s2) && Next(s2, s3) && Next(s3, s4);
    t := [s, s1, s2, s3, s4];
    if cmd.action == ReadArray {
      t := t + [s4.(main := Await(cmd))];
      assert Next(t[4], t[5]);
    }
  }

  /** Every block command can be sent without a helper, and then waits forever. */
  lemma BlockCommandHangs(s: State, cmd: Command) returns (t: seq<State>)
    requires Init(s) && WellFormed(cmd) && cmd.payload.Block?
    ensures Trace(t) && t[|t| - 1].main == Await(cmd) && !CanMove(t[|t| - 1])
  {
    t := UnhelpedSteps(s, cmd);
    TraceInv(t, |t| - 1);
    NobodyMoves(t[|t| - 1]);
  }
}
