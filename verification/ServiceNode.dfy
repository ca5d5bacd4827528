/**
  The state machine of RosServiceNode: one behavior tree node, the requests it sent, and the
  executor that fulfils their futures.
 */
module ServiceNode {
  import opened Common

  type RequestId = nat

  datatype ErrorCode = ServiceUnreachable | ServiceTimeout | InvalidRequest

  /** A response; its body is None when the shared pointer is null. */
  datatype Reply = Reply(request: RequestId, body: Option<string>)

  datatype Event =
    | SetRequest
    | Sent(request: RequestId, at: int, to: Option<string>)
    | Failed(error: ErrorCode)
    | Responded(reply: Reply)

  datatype Trace = Start | Then(past: Trace, last: Event)

  /** The fields of the C++ object. */
  datatype Node = Node(
    status: NodeStatus,
    client: Option<string>,
    name: string,
    nameChecked: bool,
    timeoutMs: nat,
    responseReceived: bool,
    future: Option<RequestId>,
    response: Option<Reply>,
    timeSent: int)

  /** Clock, next request id, and the bodies that fulfilled a future. */
  datatype Peer = Peer(clock: int, next: RequestId, replies: map<RequestId, Option<string>>)

  datatype Sys = Sys(node: Node, peer: Peer, trace: Trace, faulted: bool)

  datatype TickInput = TickInput(
    rosOk: bool,
    rosNodeAlive: bool,
    port: string,
    requestSet: bool,
    serverReady: bool,
    onFailure: NodeStatus,
    onResponse: NodeStatus,
    elapsed: nat,
    someSpin: seq<Reply>,
    futureSpin: seq<Reply>)

  datatype TickRes = TickRes(s: Sys, sig: Signal, status: NodeStatus)

  function Log(s: Sys, e: Event): Sys {
    s.(trace := Then(s.trace, e))
  }

  function Elapse(s: Sys, t: nat): Sys {
    s.(peer := s.peer.(clock := s.peer.clock + t))
  }

  function TimeoutNs(n: Node): int {
    n.timeoutMs * NANOSECONDS_PER_MILLISECOND
  }

  // ---------- the executor ----------

  /** A reply fulfils the future of its own request, once. */
  function Deliver(s: Sys, r: Reply): Sys {
    if r.request < s.peer.next && r.request !in s.peer.replies
    then s.(peer := s.peer.(replies := s.peer.replies[r.request := r.body]))
    else s
  }

  function Spin(s: Sys, rs: seq<Reply>): Sys
    decreases rs
  {
    if rs == [] then s else Spin(Deliver(s, rs[0]), rs[1..])
  }

  function SpinUntil(s: Sys, rs: seq<Reply>, g: RequestId): Sys
    decreases rs
  {
    if g in s.peer.replies || rs == [] then s else SpinUntil(Deliver(s, rs[0]), rs[1..], g)
  }

  // ---------- tick and halt ----------

  /** createClient refuses the empty name and the placeholder, and needs the ROS node. */
  function CreateClient(n: Node, name: string, rosNodeAlive: bool): Option<Node> {
    if name == "" || name == "__default__placeholder__" || !rosNodeAlive then None
    else Some(n.(client := Some(name), name := name))
  }

  function EnsureClient(n: Node, i: TickInput): Option<Node> {
    var m := if (n.client.None? || (n.status.Idle? && n.nameChecked)) && n.name != i.port
             then CreateClient(n, i.port, i.rosNodeAlive) else Some(n);
    if m.Some? && m.value.client.None? then None else m
  }

  function Checked(s: Sys, verdict: NodeStatus): TickRes {
    TickRes(s, if verdict.Completed() then Fine else Threw, verdict)
  }

  function Begin(s: Sys): Sys {
    Log(s.(node := s.node.(status := Running, responseReceived := false, future := None, response := None)),
        SetRequest)
  }

  function Send(s: Sys): Sys {
    var g := s.peer.next;
    Log(s.(node := s.node.(future := Some(g), timeSent := s.peer.clock), peer := s.peer.(next := g + 1)),
        Sent(g, s.peer.clock, s.node.client))
  }

  function Activate(s: Sys, i: TickInput): TickRes {
    var b := Begin(s);
    if !i.requestSet then Checked(Log(b, Failed(InvalidRequest)), i.onFailure)
    else if !i.serverReady then TickRes(Log(b, Failed(ServiceUnreachable)), Fine, i.onFailure)
    else TickRes(Send(b), Fine, Running)
  }

  /** The call of onResponseReceived with whatever response is stored. */
  function Respond(s: Sys, i: TickInput): TickRes
    requires s.node.response.Some?
  {
    Checked(Log(s, Responded(s.node.response.value)), i.onResponse)
  }

  /** The future's value is stored; a null response is an exception. */
  function Receive(s: Sys, g: RequestId, i: TickInput): TickRes
    requires g in s.peer.replies
  {
    var reply := Reply(g, s.peer.replies[g]);
    var t := s.(node := s.node.(responseReceived := true, response := Some(reply), future := None));
    if reply.body.None? then TickRes(t, Threw, Running) else Respond(t, i)
  }

  function AwaitResponse(s: Sys, i: TickInput): TickRes {
    if s.node.future.None? then TickRes(s, Faulted, Running)
    else
      var g := s.node.future.value;
      var t := SpinUntil(s, i.futureSpin, g);
      if g in t.peer.replies then Receive(t, g, i)
      else if t.peer.clock - t.node.timeSent > TimeoutNs(t.node)
      then Checked(Log(t, Failed(ServiceTimeout)), i.onFailure)
      else TickRes(t, Fine, Running)
  }

  /** A received response is stored with it, so the two members always agree. */
  function Continue(s: Sys, i: TickInput): TickRes {
    var t := Spin(s, i.someSpin);
    if t.node.responseReceived && t.node.response.Some? then Respond(t, i)
    else AwaitResponse(t, i)
  }

  function Tick(s0: Sys, i: TickInput): TickRes {
    var s := Elapse(s0, i.elapsed);
    if !i.rosOk then
      TickRes(Halt(s), Fine, Failure)
    else
      var n := EnsureClient(s.node, i);
      if n.None? then TickRes(s, Threw, Running)
      else
        var t := s.(node := n.value);
        if t.node.status.Idle? then Activate(t, i)
        else if t.node.status.Running? then Continue(t, i)
        else TickRes(t, Fine, Running)
  }

  function SetStatus(s: Sys, status: NodeStatus): Sys {
    s.(node := s.node.(status := status))
  }

  function Halt(s: Sys): Sys {
    if s.node.status.Running? then SetStatus(s, Idle) else s
  }

  // ---------- construction ----------

  /** The port "service_name" in the XML: not there, a blackboard pointer, or a static string. */
  datatype PortText = Absent | Pointer | Static(name: string)

  /** The C++ constructor; the other members are unset or empty. None is an exception. */
  function Constructed(timeoutMs: nat, port: PortText, default: string, rosNodeAlive: bool): Option<Node> {
    var n := Node(Idle, None, "", port.Pointer?, timeoutMs, false, None, None, 0);
    var m := if port.Static? && port.name != "" then CreateClient(n, port.name, rosNodeAlive) else Some(n);
    if m.Some? && m.value.client.None? && default != "" then CreateClient(m.value, default, rosNodeAlive) else m
  }

  // ---------- runs ----------

  /** The tree ticks the node, the parent halts or resets it, or another node spins the executor. */
  datatype Step =
    | TickStep(input: TickInput)
    | HaltStep
    | OtherSpin(replies: seq<Reply>)
    | Rename(name: string, rosNodeAlive: bool)

  /** The framework stores the returned status; an exception leaves the status tick had set. */
  function Settle(r: TickRes): Sys {
    var t := r.s.(faulted := r.sig.Faulted?);
    if r.sig.Fine? then SetStatus(t, r.status) else t
  }

  function Renamed(n: Node, name: string, rosNodeAlive: bool): Node {
    var m := CreateClient(n.(name := name), name, rosNodeAlive);
    if m.Some? then m.value else n.(name := name)
  }

  function Exec(s: Sys, step: Step): Sys {
    if s.faulted then s else
    match step
    case TickStep(i) => if s.node.status.Idle? || s.node.status.Running? then Settle(Tick(s, i)) else s
    case HaltStep => SetStatus(Halt(s), Idle)
    case OtherSpin(rs) => Spin(s, rs)
    case Rename(name, alive) => s.(node := Renamed(s.node, name, alive))
  }

  function Run(s: Sys, steps: seq<Step>): Sys
    decreases steps
  {
    if steps == [] then s else Run(Exec(s, steps[0]), steps[1..])
  }

  predicate Initial(s: Sys) {
    && s.node.status.Idle? && !s.faulted
    && s.peer.next == 0 && s.peer.replies == map[] && s.trace == Start
  }

  /** The request sent in the current activation, if any. */
  function Current(t: Trace): Option<RequestId> {
    match t
    case Start => None
    case Then(_, SetRequest) => None
    case Then(_, Sent(g, _, _)) => Some(g)
    case Then(past, _) => Current(past)
  }
}
