/**
  One call of TreeExecutionServer::execute: the tick loop, the user hooks that may throw, cancel
  requests that may be accepted at any point, and the terminal transition of the goal.
 */
module TreeServer {
  import opened Common
  import opened RateLoop

  // ---------- the goal handle ----------

  /** Goal states of a ROS 2 action server, section "Goal States" of the design article "Actions". */
  datatype GoalState = Executing | Canceling | SucceededState | AbortedState | CanceledState {
    predicate Active() {
      Executing? || Canceling?
    }
  }

  datatype Call = Succeed | Abort | Cancel

  /** The transitions the design article permits. */
  predicate Permitted(c: Call, from: GoalState) {
    if c.Cancel? then from.Canceling? else from.Active()
  }

  function Target(c: Call): GoalState {
    match c
    case Succeed => SucceededState
    case Abort => AbortedState
    case Cancel => CanceledState
  }

  // ---------- the outside world ----------

  /** A std::exception is caught around the loop, any other thrown value is not. */
  datatype Raise = StdException | Foreign

  datatype Attempt<+T> = Value(value: T) | Raises(kind: Raise)

  /**
    One iteration. A cancel request can be accepted before the check of is_canceling, between the
    check and the end of the tick, and after the tick.
   */
  datatype Lap = Lap(
    ok: bool,
    cancelAtCheck: bool,
    cancelInTick: bool,
    tick: Attempt<NodeStatus>,
    cancelAfterTick: bool,
    afterTick: Attempt<Option<NodeStatus>>,
    feedback: Attempt<Option<string>>,
    pace: Pace)

  /**
    Everything a call of execute learns from outside; `laps` is as long as the loop is watched. A
    cancel request can be accepted while each call is made, whether or not it throws, and between a
    throw and the abort that follows it.
   */
  datatype Script = Script(
    registration: Attempt<()>,
    cancelInRegistration: bool,
    createTree: Attempt<()>,
    cancelInCreate: bool,
    prepare: Attempt<()>,
    cancelInPrepare: bool,
    laps: seq<Lap>,
    haltTree: Attempt<()>,
    cancelInHalt: bool,
    stopHook: Attempt<Option<string>>,
    cancelInStopHook: bool,
    cancelAtAbort: bool,
    endHook: Attempt<Option<string>>,
    cancelAtEnd: bool)

  // ---------- what an observer sees ----------

  datatype Message = Custom(text: string) | CancelText | StopText | ExceptionText | FinishedText(status: NodeStatus)

  datatype ActionResult = ActionResult(nodeStatus: Option<NodeStatus>, message: Message)

  datatype Event =
    | CancelAccepted
    | TreeCreated
    | Ticked(status: NodeStatus)
    | HookStopped(status: NodeStatus)
    | FeedbackSent(text: string)
    | TreeHalted
    | Completed(status: NodeStatus, wasCancelled: bool)
    | Terminal(call: Call, from: GoalState, result: ActionResult)

  datatype Trace = Start | Then(past: Trace, last: Event)

  datatype World = World(goal: GoalState, result: Option<NodeStatus>, trace: Trace)

  /** How a stretch of execute ends: a return, an exception, the end of the loop, or the end of the script. */
  datatype Flow =
    | Returned(w: World)
    | Raised(w: World, kind: Raise)
    | Left(w: World, status: NodeStatus)
    | Watched(w: World)

  function Log(w: World, e: Event): World {
    w.(trace := Then(w.trace, e))
  }

  /** A cancel request, accepted exactly while the goal is active; it has no effect twice. */
  function MaybeCancel(w: World, requested: bool): World {
    if requested && w.goal.Executing? then Log(w.(goal := Canceling), CancelAccepted) else w
  }

  function Finish(w: World, c: Call, m: Message): World {
    Log(w.(goal := Target(c)), Terminal(c, w.goal, ActionResult(w.result, m)))
  }

  function Chosen(hook: Option<string>, default: Message): Message {
    if hook.Some? then Custom(hook.value) else default
  }

  /** stop_action, then the call on the goal handle that follows it. */
  function Stop(s: Script, w0: World, status: NodeStatus, default: Message, call: Call): Flow {
    var w := MaybeCancel(w0, s.cancelInHalt);
    if s.haltTree.Raises? then Raised(w, s.haltTree.kind)
    else
      var c := Log(Log(w, TreeHalted), Completed(status, true)).(result := Some(status));
      var h := MaybeCancel(c, s.cancelInStopHook);
      if s.stopHook.Raises? then Raised(h, s.stopHook.kind)
      else Returned(Finish(h, call, Chosen(s.stopHook.value, default)))
  }

  /** The hooks after a tick; Left means that the loop goes on with this status. */
  function AfterTick(s: Script, lap: Lap, w0: World, status: NodeStatus): Flow {
    var w := MaybeCancel(Log(w0, Ticked(status)), lap.cancelAfterTick);
    if lap.afterTick.Raises? then Raised(w, lap.afterTick.kind)
    else if lap.afterTick.value.Some? then
      Stop(s, Log(w, HookStopped(lap.afterTick.value.value)), lap.afterTick.value.value, StopText, Abort)
    else if lap.feedback.Raises? then Raised(w, lap.feedback.kind)
    else if lap.feedback.value.Some? then Left(Log(w, FeedbackSent(lap.feedback.value.value)), status)
    else Left(w, status)
  }

  /** One iteration from the check of is_canceling on. */
  function OneLap(s: Script, lap: Lap, w0: World): Flow {
    var w := MaybeCancel(w0, lap.cancelAtCheck);
    if w.goal.Canceling? then Stop(s, w, Running, CancelText, Cancel)
    else
      var t := MaybeCancel(w, lap.cancelInTick);
      if lap.tick.Raises? then Raised(t, lap.tick.kind)
      else AfterTick(s, lap, t, lap.tick.value)
  }

  function Loop(s: Script, laps: seq<Lap>, w: World, status: NodeStatus): Flow
    decreases laps
  {
    if !status.Running? then Left(w, status)
    else if laps == [] then Watched(w)
    else if !laps[0].ok then Left(w, status)
    else
      var f := OneLap(s, laps[0], w);
      if f.Left? then Loop(s, laps[1..], f.w, f.status) else f
  }

  /** The tree has been created and onTreeCreated has been called. */
  function Prepared(s: Script, w: World): World {
    MaybeCancel(Log(MaybeCancel(w, s.cancelInCreate), TreeCreated), s.cancelInPrepare)
  }

  function TryBlock(s: Script, w: World): Flow {
    if s.createTree.Raises? then Raised(MaybeCancel(w, s.cancelInCreate), s.createTree.kind)
    else if s.prepare.Raises? then Raised(Prepared(s, w), s.prepare.kind)
    else Loop(s, s.laps, Prepared(s, w), Running)
  }

  datatype Exit = Returns | Escapes | StillRunning

  datatype Outcome = Outcome(w: World, exit: Exit)

  /** After the loop: the completion hook, then succeed or abort. */
  function Conclude(s: Script, w0: World, status: NodeStatus): Outcome {
    var w := Log(w0, Completed(status, false));
    var e := MaybeCancel(w, s.cancelAtEnd);
    if s.endHook.Raises? then Outcome(e, Escapes)
    else
      var c := e.(result := Some(status));
      var call := if status.Success? then Succeed else Abort;
      Outcome(Finish(c, call, Chosen(s.endHook.value, FinishedText(status))), Returns)
  }

  function Resume(s: Script, f: Flow): Outcome {
    match f
    case Returned(w) => Outcome(w, Returns)
    case Raised(w, Foreign) => Outcome(w, Escapes)
    case Raised(w, StdException) => Outcome(Finish(MaybeCancel(w, s.cancelAtAbort), Abort, ExceptionText), Returns)
    case Left(w, status) => Conclude(s, w, status)
    case Watched(w) => Outcome(w, StillRunning)
  }

  function Registered(s: Script, w: World): World {
    MaybeCancel(w, s.cancelInRegistration)
  }

  function Execute(s: Script, w: World): Outcome {
    if s.registration.Raises? then Outcome(Registered(s, w), Escapes) else Resume(s, TryBlock(s, Registered(s, w)))
  }

  /** A goal that was accepted for execution; a cancel may have been accepted before the thread runs. */
  function Fresh(cancelled: bool): World {
    MaybeCancel(World(Executing, None, Start), cancelled)
  }

  // ---------- timing ----------

  function Paces(laps: seq<Lap>): seq<Pace> {
    if laps == [] then [] else Paces(laps[..|laps| - 1]) + [laps[|laps| - 1].pace]
  }

  /** The value of loop_deadline in iteration `n`. */
  function LoopDeadline(n: nat, t0: int, period: nat): int {
    if n == 0 then t0 + period else LoopDeadline(n - 1, t0, period) + period
  }

  /** When tick `n` starts, if the loop gets that far: the end of the iteration before it. */
  function StartOf(laps: seq<Lap>, n: nat, t0: int, period: nat): int
    requires n <= |laps|
  {
    if n == 0 then t0 else End(StartOf(laps, n - 1, t0, period), LoopDeadline(n - 1, t0, period), laps[n - 1].pace)
  }

  /** The start times of the first `n` ticks. */
  function Starts(laps: seq<Lap>, n: nat, t0: int, period: nat): (starts: seq<int>)
    requires n <= |laps|
    ensures |starts| == n
    ensures forall k | 0 <= k < n :: starts[k] == StartOf(laps, k, t0, period)
  {
    if n == 0 then [] else Starts(laps, n - 1, t0, period) + [StartOf(laps, n - 1, t0, period)]
  }

  /** How many ticks the loop starts. */
  function TicksStarted(s: Script, laps: seq<Lap>, w: World, status: NodeStatus): (n: nat)
    ensures n <= |laps|
    decreases laps
  {
    if !status.Running? || laps == [] || !laps[0].ok || MaybeCancel(w, laps[0].cancelAtCheck).goal.Canceling? then 0
    else
      var f := OneLap(s, laps[0], w);
      1 + if f.Left? then TicksStarted(s, laps[1..], f.w, f.status) else 0
  }
}
