/**
  The state machine of RosActionNode: one behavior tree node, the goals it sent, and the
  executor that delivers goal responses, feedback and results at any spin.

  `AsWritten` is the code of the repository. `Repaired` differs in five places:
  an activation also clears the goal handle, the result callback ignores a null handle, the
  feedback callback ignores every goal but the pending or held one, cancelGoal stops on a null
  handle, and the feedback verdict is read before cancelGoal.
 */
module ActionNode {
  import opened Common

  type GoalId = nat

  datatype Variant = AsWritten | Repaired

  datatype ErrorCode =
    | ServerUnreachable
    | SendGoalTimeout
    | GoalRejected
    | ActionAborted
    | ActionCancelled
    | InvalidGoal

  datatype ResultCode = Unknown | Succeeded | Canceled | Aborted

  datatype WrappedResult = WrappedResult(goal: GoalId, code: ResultCode)

  /** What the shared executor can run for this node; `verdict` is what onFeedback returns. */
  datatype Delivery =
    | GoalResponse(goal: GoalId, accepted: bool)
    | Feedback(goal: GoalId, verdict: NodeStatus)
    | ResultMessage(goal: GoalId, code: ResultCode)

  /** What an observer at the node's interfaces sees; `to` is the action the client was made for. */
  datatype Event =
    | SetGoal
    | Sent(goal: GoalId, at: int, to: Option<string>)
    | Delivered(delivery: Delivery)
    | Took(goal: GoalId, accepted: bool)
    | Failed(error: ErrorCode, pending: Option<GoalId>, result: Option<WrappedResult>)
    | Reported(report: WrappedResult)
    | StoppedByFeedback(verdict: NodeStatus)
    | CancelRequested(goal: GoalId)
    | WaitExpired(goal: GoalId)
    | Halted

  datatype Trace = Start | Then(past: Trace, last: Event)

  /** The fields of the C++ object. A goal handle is the id of its goal, None when null. */
  datatype Node = Node(
    status: NodeStatus,
    client: Option<string>,
    name: string,
    nameChecked: bool,
    timeoutMs: nat,
    goalReceived: bool,
    future: Option<GoalId>,
    handle: Option<GoalId>,
    result: Option<WrappedResult>,
    feedback: NodeStatus,
    timeSent: int)

  /** The other side: clock, next goal id, answers that fulfilled a future, results still due. */
  datatype Peer = Peer(clock: int, next: GoalId, answers: map<GoalId, bool>, outstanding: set<GoalId>)

  datatype Sys = Sys(node: Node, peer: Peer, trace: Trace, faulted: bool)

  datatype Res = Res(s: Sys, sig: Signal)

  /** Deliveries and durations of the three waits inside cancelGoal. */
  datatype CancelInput = CancelInput(
    forResponse: seq<Delivery>, responseTook: nat,
    forCancel: seq<Delivery>, cancelTook: nat,
    forResult: seq<Delivery>, resultTook: nat)

  /** Everything one tick learns from outside: ROS, the port, user callbacks, deliveries, time. */
  datatype TickInput = TickInput(
    rosOk: bool,
    rosNodeAlive: bool,
    port: string,
    goalSet: bool,
    serverReady: bool,
    onFailure: NodeStatus,
    onResult: NodeStatus,
    elapsed: nat,
    someSpin: seq<Delivery>,
    futureSpin: seq<Delivery>,
    cancel: CancelInput)

  function Log(s: Sys, e: Event): Sys {
    s.(trace := Then(s.trace, e))
  }

  function TimeoutNs(n: Node): int {
    n.timeoutMs * NANOSECONDS_PER_MILLISECOND
  }

  // ---------- what the other side can send ----------

  /** A response is due for a goal that was sent and not answered yet. */
  predicate Awaiting(p: Peer, g: GoalId) {
    g < p.next && g !in p.answers
  }

  predicate Accepted(p: Peer, g: GoalId) {
    g in p.answers && p.answers[g]
  }

  /** A goal is answered once; feedback and one result come while the result is due. */
  predicate Possible(p: Peer, d: Delivery) {
    if d.GoalResponse? then Awaiting(p, d.goal) else d.goal in p.outstanding
  }

  /** The ledger after a delivery. */
  function Noted(p: Peer, d: Delivery): Peer {
    match d
    case GoalResponse(g, accepted) =>
      p.(answers := p.answers[g := accepted], outstanding := p.outstanding + if accepted then {g} else {})
    case Feedback(_, _) => p
    case ResultMessage(g, _) => p.(outstanding := p.outstanding - {g})
  }

  // ---------- callbacks run by the executor ----------

  function DeliverFeedback(v: Variant, s: Sys, g: GoalId, verdict: NodeStatus): Res {
    if v.Repaired? && s.node.handle != Some(g) && s.node.future != Some(g) then Res(s, Fine)
    else Res(s.(node := s.node.(feedback := verdict)), if verdict.Idle? then Threw else Fine)
  }

  function DeliverResult(v: Variant, s: Sys, g: GoalId, code: ResultCode): Res {
    if s.node.handle.None? then
      Res(s, if v.AsWritten? then Faulted else Fine)
    else if s.node.handle.value == g then
      Res(s.(node := s.node.(result := Some(WrappedResult(g, code)))), Fine)
    else
      Res(s, Fine)
  }

  /** A delivery that is not possible in the present state of the peer has no effect. */
  function Deliver(v: Variant, s: Sys, d: Delivery): Res {
    if !Possible(s.peer, d) then Res(s, Fine) else
    var t := Log(s.(peer := Noted(s.peer, d)), Delivered(d));
    match d
    case GoalResponse(_, _) => Res(t, Fine)
    case Feedback(g, verdict) => DeliverFeedback(v, t, g, verdict)
    case ResultMessage(g, code) => DeliverResult(v, t, g, code)
  }

  function Spin(v: Variant, s: Sys, ds: seq<Delivery>): Res
    decreases ds
  {
    if ds == [] then Res(s, Fine) else
    var r := Deliver(v, s, ds[0]);
    if r.sig.Fine? then Spin(v, r.s, ds[1..]) else r
  }

  /** Spinning until the goal response of `g` is in, or the deliveries in time run out. */
  function SpinUntil(v: Variant, s: Sys, ds: seq<Delivery>, g: GoalId): Res
    decreases ds
  {
    if g in s.peer.answers || ds == [] then Res(s, Fine) else
    var r := Deliver(v, s, ds[0]);
    if r.sig.Fine? then SpinUntil(v, r.s, ds[1..], g) else r
  }

  function Elapse(s: Sys, t: nat): Sys {
    s.(peer := s.peer.(clock := s.peer.clock + t))
  }

  /** The longest a wait can take is the server timeout. */
  function Waited(s: Sys, took: nat): nat {
    Min(took, TimeoutNs(s.node))
  }

  // ---------- cancelGoal and halt ----------

  function RequestCancel(v: Variant, s: Sys, i: CancelInput): Res
    requires s.node.handle.Some?
  {
    var asked := Log(s, CancelRequested(s.node.handle.value));
    var r := Spin(v, Elapse(asked, Waited(s, i.cancelTook)), i.forCancel);
    if r.sig.Fine? then Spin(v, Elapse(r.s, Waited(r.s, i.resultTook)), i.forResult) else r
  }

  /** The pending future is replaced by the handle it holds, null when the goal was rejected. */
  function Take(s: Sys, g: GoalId): Sys
    requires g in s.peer.answers
  {
    Log(s.(node := s.node.(handle := if s.peer.answers[g] then Some(g) else None, future := None)),
        Took(g, s.peer.answers[g]))
  }

  function AwaitThenCancel(v: Variant, s: Sys, g: GoalId, i: CancelInput): Res {
    var r := SpinUntil(v, Elapse(s, Waited(s, i.responseTook)), i.forResponse, g);
    if !r.sig.Fine? then r
    else if g !in r.s.peer.answers then Res(Log(r.s, WaitExpired(g)), Fine)
    else
      var taken := Take(r.s, g);
      if taken.node.handle.Some? then RequestCancel(v, taken, i)
      else Res(taken, if v.AsWritten? then Faulted else Fine)
  }

  function CancelGoal(v: Variant, s: Sys, i: CancelInput): Res {
    if s.node.client.None? then Res(s, Faulted)
    else if s.node.handle.Some? then RequestCancel(v, s, i)
    else if s.node.future.Some? then AwaitThenCancel(v, s, s.node.future.value, i)
    else Res(s, Fine)
  }

  function Halt(v: Variant, s: Sys, i: CancelInput): Res {
    if !s.node.status.Running? then Res(s, Fine) else
    var r := CancelGoal(v, s, i);
    if r.sig.Fine? then Res(Log(r.s, Halted), Fine) else r
  }

  // ---------- tick ----------

  /** createClient: the name must not be empty and the ROS node must still exist. */
  function CreateClient(n: Node, name: string, rosNodeAlive: bool): Option<Node> {
    if name == "" || !rosNodeAlive then None
    else Some(n.(client := Some(name), name := name))
  }

  /** The check of the client and of the name in the port; None is an exception. */
  function EnsureClient(n: Node, i: TickInput): Option<Node> {
    var m := if (n.client.None? || (n.status.Idle? && n.nameChecked)) && n.name != i.port
             then CreateClient(n, i.port, i.rosNodeAlive) else Some(n);
    if m.Some? && m.value.client.None? then None else m
  }

  datatype TickRes = TickRes(s: Sys, sig: Signal, status: NodeStatus)

  /** A verdict that must be SUCCESS or FAILURE. */
  function Checked(s: Sys, verdict: NodeStatus): TickRes {
    TickRes(s, if verdict.Completed() then Fine else Threw, verdict)
  }

  function Fail(s: Sys, error: ErrorCode, pending: Option<GoalId>, result: Option<WrappedResult>): Sys {
    Log(s, Failed(error, pending, result))
  }

  /** The reset at the start of an activation, up to and including the call of setGoal. */
  function Begin(v: Variant, s: Sys): Sys {
    var n := s.node.(status := Running, goalReceived := false, future := None, feedback := Running,
                     result := None, handle := if v.Repaired? then None else s.node.handle);
    Log(s.(node := n), SetGoal)
  }

  function Send(s: Sys): Sys {
    var g := s.peer.next;
    Log(s.(node := s.node.(future := Some(g), timeSent := s.peer.clock), peer := s.peer.(next := g + 1)),
        Sent(g, s.peer.clock, s.node.client))
  }

  function Activate(v: Variant, s: Sys, i: TickInput): TickRes {
    var b := Begin(v, s);
    if !i.goalSet then Checked(Fail(b, InvalidGoal, None, None), i.onFailure)
    else if !i.serverReady then TickRes(Fail(b, ServerUnreachable, None, None), Fine, i.onFailure)
    else TickRes(Send(b), Fine, Running)
  }

  function ReportResult(s: Sys, r: WrappedResult, i: TickInput): TickRes {
    match r.code
    case Aborted => Checked(Fail(s, ActionAborted, None, Some(r)), i.onFailure)
    case Canceled => Checked(Fail(s, ActionCancelled, None, Some(r)), i.onFailure)
    case _ => Checked(Log(s, Reported(r)), i.onResult)
  }

  /** The second and third case of tick: a stop asked by onFeedback, then a stored result. */
  function Conclude(v: Variant, s: Sys, i: TickInput): TickRes {
    if !s.node.feedback.Running? then
      var r := CancelGoal(v, Log(s, StoppedByFeedback(s.node.feedback)), i.cancel);
      TickRes(r.s, r.sig, if v.Repaired? then s.node.feedback else r.s.node.feedback)
    else if s.node.result.Some? && !s.node.result.value.code.Unknown? then
      ReportResult(s, s.node.result.value, i)
    else
      TickRes(s, Fine, Running)
  }

  function Receive(v: Variant, s: Sys, g: GoalId, i: TickInput): TickRes
    requires g in s.peer.answers
  {
    var taken := Take(s.(node := s.node.(goalReceived := true)), g);
    if taken.node.handle.None? then Checked(Fail(taken, GoalRejected, None, None), i.onFailure)
    else Conclude(v, taken, i)
  }

  function Expire(s: Sys, g: GoalId, i: TickInput): TickRes {
    if s.peer.clock - s.node.timeSent > TimeoutNs(s.node)
    then Checked(Fail(s, SendGoalTimeout, Some(g), None), i.onFailure)
    else TickRes(s, Fine, Running)
  }

  /** Both spins of a running tick; the second one waits for the pending future, if any. */
  function Spins(v: Variant, s: Sys, i: TickInput): Res {
    var r := Spin(v, s, i.someSpin);
    if !r.sig.Fine? || r.s.node.goalReceived then r
    else if r.s.node.future.None? then Res(r.s, Faulted)
    else SpinUntil(v, r.s, i.futureSpin, r.s.node.future.value)
  }

  function Decided(v: Variant, s: Sys, i: TickInput): TickRes {
    if s.node.goalReceived || s.node.future.None? then Conclude(v, s, i)
    else if s.node.future.value in s.peer.answers then Receive(v, s, s.node.future.value, i)
    else Expire(s, s.node.future.value, i)
  }

  function Continue(v: Variant, s: Sys, i: TickInput): TickRes {
    var r := Spins(v, s, i);
    if r.sig.Fine? then Decided(v, r.s, i) else TickRes(r.s, r.sig, Running)
  }

  function Tick(v: Variant, s0: Sys, i: TickInput): TickRes {
    var s := Elapse(s0, i.elapsed);
    if !i.rosOk then
      var r := Halt(v, s, i.cancel);
      TickRes(r.s, r.sig, Failure)
    else
      var n := EnsureClient(s.node, i);
      if n.None? then TickRes(s, Threw, Running)
      else
        var t := s.(node := n.value);
        if t.node.status.Idle? then Activate(v, t, i)
        else if t.node.status.Running? then Continue(v, t, i)
        else TickRes(t, Fine, Running)
  }

  // ---------- construction ----------

  /** The port "action_name" in the XML: not there, a blackboard pointer, or a static string. */
  datatype PortText = Absent | Pointer | Static(name: string)

  /** The C++ constructor; the other members are unset or empty. None is an exception. */
  function Constructed(timeoutMs: nat, port: PortText, default: string, rosNodeAlive: bool): Option<Node> {
    var n := Node(Idle, None, "", port.Pointer?, timeoutMs, false, None, None, None, Running, 0);
    var m := if port.Static? && port.name != "" then CreateClient(n, port.name, rosNodeAlive) else Some(n);
    if m.Some? && m.value.client.None? && default != "" then CreateClient(m.value, default, rosNodeAlive) else m
  }

  // ---------- runs ----------

  /**
    A step of the world: the tree ticks the node, the parent halts it (and leaves it IDLE),
    another node spins the shared executor, or user code renames the action.
   */
  datatype Step =
    | TickStep(input: TickInput)
    | HaltStep(cancel: CancelInput)
    | OtherSpin(deliveries: seq<Delivery>)
    | Rename(name: string, rosNodeAlive: bool)

  function SetStatus(s: Sys, status: NodeStatus): Sys {
    s.(node := s.node.(status := status))
  }

  /** The framework stores the returned status; an exception leaves the status tick had set. */
  function Settle(r: Sys, sig: Signal, status: NodeStatus): Sys {
    var t := r.(faulted := sig.Faulted?);
    if sig.Fine? then SetStatus(t, status) else t
  }

  function Renamed(n: Node, name: string, rosNodeAlive: bool): Node {
    var m := CreateClient(n.(name := name), name, rosNodeAlive);
    if m.Some? then m.value else n.(name := name)
  }

  function Exec(v: Variant, s: Sys, step: Step): Sys {
    if s.faulted then s else
    match step
    case TickStep(i) =>
      if !s.node.status.Idle? && !s.node.status.Running? then s else
      var r := Tick(v, s, i);
      Settle(r.s, r.sig, r.status)
    case HaltStep(i) =>
      var r := Halt(v, s, i);
      Settle(r.s, r.sig, Idle)
    case OtherSpin(ds) =>
      var r := Spin(v, s, ds);
      Settle(r.s, r.sig, s.node.status)
    case Rename(name, alive) =>
      s.(node := Renamed(s.node, name, alive))
  }

  function Run(v: Variant, s: Sys, steps: seq<Step>): Sys
    decreases steps
  {
    if steps == [] then s else Run(v, Exec(v, s, steps[0]), steps[1..])
  }

  /** A freshly constructed node that has done nothing yet. */
  predicate Initial(s: Sys) {
    && s.node.status.Idle?
    && !s.faulted
    && s.node.handle.None? && s.node.future.None? && s.node.result.None?
    && s.peer.next == 0 && s.peer.answers == map[] && s.peer.outstanding == {}
    && s.trace == Start
  }

  // ---------- reading a trace ----------

  /** The goal sent in the current activation, if any. */
  function Current(t: Trace): Option<GoalId> {
    match t
    case Start => None
    case Then(_, SetGoal) => None
    case Then(_, Sent(g, _, _)) => Some(g)
    case Then(past, _) => Current(past)
  }
}
