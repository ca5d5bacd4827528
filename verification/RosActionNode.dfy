/**
  The class RosActionNode, member for member, proved against the functions of module ActionNode.
  `peer` is the part of ROS the node can observe and `trace` records what it does.
 */
module RosActionNodeClass {
  import opened Common
  import opened ActionNode
  import opened ActionSpins

  class RosActionNode {
    const timeoutMs: nat
    const nameChecked: bool
    var status: NodeStatus
    var client: Option<string>
    var name: string
    var goalReceived: bool
    var future: Option<GoalId>
    var handle: Option<GoalId>
    var result: Option<WrappedResult>
    var feedback: NodeStatus
    var timeSent: int
    var peer: Peer
    var trace: Trace

    function State(): Sys
      reads this
    {
      Sys(Node(status, client, name, nameChecked, timeoutMs, goalReceived, future, handle, result, feedback, timeSent),
          peer, trace, false)
    }

    constructor (timeoutMs: nat, nameChecked: bool, client: Option<string>, name: string)
      ensures Initial(State())
      ensures State().node ==
              Node(Idle, client, name, nameChecked, timeoutMs, false, None, None, None, Running, 0)
    {
      this.timeoutMs := timeoutMs;
      this.nameChecked := nameChecked;
      this.client := client;
      this.name := name;
      status, feedback, goalReceived := Idle, Running, false;
      future, handle, result := None, None, None;
      timeSent := 0;
      peer := Peer(0, 0, map[], {});
      trace := Start;
    }

    /** The C++ constructor with its three cases of the port and the default name; null stands for its exception. */
    static method Construct(timeoutMs: nat, port: PortText, default: string, rosNodeAlive: bool)
      returns (node: RosActionNode?)
      ensures match Constructed(timeoutMs, port, default, rosNodeAlive)
              case None => node == null
              case Some(n) => node != null && fresh(node) && Initial(node.State()) && node.State().node == n
    {
      node := new RosActionNode(timeoutMs, port.Pointer?, None, "");
      if port.Static? && port.name != "" {
        var ok := node.CreateClient(port.name, rosNodeAlive);
        if !ok {
          return null;
        }
      }
      if node.client.None? && default != "" {
        var ok := node.CreateClient(default, rosNodeAlive);
        if !ok {
          return null;
        }
      }
    }

    method Record(e: Event)
      modifies this`trace
      ensures State() == Log(old(State()), e)
    {
      trace := Then(trace, e);
    }

    method AdvanceClock(t: nat)
      modifies this`peer
      ensures State() == Elapse(old(State()), t)
    {
      peer := peer.(clock := peer.clock + t);
    }

    // ---------- callbacks ----------

    method FeedbackCallback(verdict: NodeStatus) returns (sig: Signal)
      modifies this`feedback
      ensures feedback == verdict
      ensures sig == if verdict.Idle? then Threw else Fine
    {
      feedback := verdict;
      if feedback.Idle? {
        return Threw;
      }
      return Fine;
    }

    method ResultCallback(g: GoalId, code: ResultCode) returns (sig: Signal)
      modifies this`result
      ensures Res(State(), sig) == DeliverResult(AsWritten, old(State()), g, code)
    {
      if handle.None? {
        return Faulted;
      }
      if handle.value == g {
        result := Some(WrappedResult(g, code));
      }
      return Fine;
    }

    /** The executor runs one callback. */
    method Dispatch(d: Delivery) returns (sig: Signal)
      modifies this
      ensures Res(State(), sig) == Deliver(AsWritten, old(State()), d)
    {
      if !Possible(peer, d) {
        return Fine;
      }
      peer := Noted(peer, d);
      Record(Delivered(d));
      match d
      case GoalResponse(_, _) => sig := Fine;
      case Feedback(_, verdict) => sig := FeedbackCallback(verdict);
      case ResultMessage(g, code) => sig := ResultCallback(g, code);
    }

    method SpinSome(ds: seq<Delivery>) returns (sig: Signal)
      modifies this
      ensures Res(State(), sig) == Spin(AsWritten, old(State()), ds)
    {
      for k := 0 to |ds|
        invariant Spin(AsWritten, old(State()), ds) == Spin(AsWritten, State(), ds[k..])
      {
        sig := Dispatch(ds[k]);
        assert ds[k..][0] == ds[k] && ds[k..][1..] == ds[k + 1..];
        if !sig.Fine? {
          return;
        }
      }
      return Fine;
    }

    /** Spins until the future of goal `g` is complete or nothing more comes in time. */
    method SpinUntilFutureComplete(ds: seq<Delivery>, g: GoalId) returns (sig: Signal)
      modifies this
      ensures Res(State(), sig) == SpinUntil(AsWritten, old(State()), ds, g)
    {
      var k := 0;
      while k < |ds| && g !in peer.answers
        invariant 0 <= k <= |ds|
        invariant SpinUntil(AsWritten, old(State()), ds, g) == SpinUntil(AsWritten, State(), ds[k..], g)
      {
        sig := Dispatch(ds[k]);
        assert ds[k..][0] == ds[k] && ds[k..][1..] == ds[k + 1..];
        if !sig.Fine? {
          return;
        }
        k := k + 1;
      }
      return Fine;
    }

    // ---------- cancelGoal and halt ----------

    method CancelHeldGoal(i: CancelInput) returns (sig: Signal)
      requires handle.Some?
      modifies this
      ensures Res(State(), sig) == RequestCancel(AsWritten, old(State()), i)
    {
      Record(CancelRequested(handle.value));
      AdvanceClock(Waited(State(), i.cancelTook));
      sig := SpinSome(i.forCancel);
      if !sig.Fine? {
        return;
      }
      AdvanceClock(Waited(State(), i.resultTook));
      sig := SpinSome(i.forResult);
    }

    method CancelGoal(i: CancelInput) returns (sig: Signal)
      modifies this
      ensures Res(State(), sig) == ActionNode.CancelGoal(AsWritten, old(State()), i)
    {
      if client.None? {
        return Faulted;
      }
      if handle.None? {
        if future.Some? {
          var g := future.value;
          AdvanceClock(Waited(State(), i.responseTook));
          sig := SpinUntilFutureComplete(i.forResponse, g);
          if !sig.Fine? {
            return;
          }
          if g !in peer.answers {
            Record(WaitExpired(g));
            return Fine;
          }
          handle := if peer.answers[g] then Some(g) else None;
          future := None;
          Record(Took(g, peer.answers[g]));
          if handle.None? {
            return Faulted;
          }
        } else {
          return Fine;
        }
      }
      sig := CancelHeldGoal(i);
    }

    method Halt(i: CancelInput) returns (sig: Signal)
      modifies this
      ensures Res(State(), sig) == ActionNode.Halt(AsWritten, old(State()), i)
    {
      if status.Running? {
        sig := CancelGoal(i);
        if !sig.Fine? {
          return;
        }
        Record(Halted);
      }
      return Fine;
    }

    // ---------- createClient and setActionName ----------

    /** False stands for the RuntimeError. */
    method CreateClient(actionName: string, rosNodeAlive: bool) returns (ok: bool)
      modifies this`client, this`name
      ensures var n := ActionNode.CreateClient(old(State()).node, actionName, rosNodeAlive);
              ok == n.Some? && State() == old(State()).(node := if ok then n.value else old(State()).node)
    {
      if actionName == "" || !rosNodeAlive {
        return false;
      }
      client := Some(actionName);
      name := actionName;
      return true;
    }

    method SetActionName(actionName: string, rosNodeAlive: bool) returns (ok: bool)
      modifies this`client, this`name
      ensures State() == old(State()).(node := Renamed(old(State()).node, actionName, rosNodeAlive))
      ensures ok == (actionName != "" && rosNodeAlive)
    {
      name := actionName;
      ok := CreateClient(actionName, rosNodeAlive);
    }

    // ---------- tick ----------

    /** The check of the client and of the name in the port; false stands for an exception. */
    method EnsureClient(i: TickInput) returns (ok: bool)
      modifies this`client, this`name
      ensures var n := ActionNode.EnsureClient(old(State()).node, i);
              ok == n.Some? && State() == old(State()).(node := if ok then n.value else old(State()).node)
    {
      if client.None? || (status.Idle? && nameChecked) {
        if name != i.port {
          ok := CreateClient(i.port, i.rosNodeAlive);
          if !ok {
            return;
          }
        }
      }
      return client.Some?;
    }

    method Activate(i: TickInput) returns (sig: Signal, verdict: NodeStatus)
      modifies this
      ensures TickRes(State(), sig, verdict) == ActionNode.Activate(AsWritten, old(State()), i)
    {
      status := Running;
      goalReceived := false;
      future := None;
      feedback := Running;
      result := None;
      Record(SetGoal);
      if !i.goalSet {
        Record(Failed(InvalidGoal, None, None));
        return if i.onFailure.Completed() then Fine else Threw, i.onFailure;
      }
      if !i.serverReady {
        Record(Failed(ServerUnreachable, None, None));
        return Fine, i.onFailure;
      }
      var g := peer.next;
      future := Some(g);
      peer := peer.(next := g + 1);
      timeSent := peer.clock;
      Record(Sent(g, timeSent, client));
      return Fine, Running;
    }

    method Conclude(i: TickInput) returns (sig: Signal, verdict: NodeStatus)
      modifies this
      ensures TickRes(State(), sig, verdict) == ActionNode.Conclude(AsWritten, old(State()), i)
    {
      if !feedback.Running? {
        Record(StoppedByFeedback(feedback));
        sig := CancelGoal(i.cancel);
        return sig, feedback;
      }
      if result.Some? && !result.value.code.Unknown? {
        if result.value.code.Aborted? {
          Record(Failed(ActionAborted, None, result));
          verdict := i.onFailure;
        } else if result.value.code.Canceled? {
          Record(Failed(ActionCancelled, None, result));
          verdict := i.onFailure;
        } else {
          Record(Reported(result.value));
          verdict := i.onResult;
        }
        return if verdict.Completed() then Fine else Threw, verdict;
      }
      return Fine, Running;
    }

    method Continue(i: TickInput) returns (sig: Signal, verdict: NodeStatus)
      modifies this
      ensures TickRes(State(), sig, verdict) == ActionNode.Continue(AsWritten, old(State()), i)
    {
      sig := SpinSome(i.someSpin);
      if !sig.Fine? {
        return sig, Running;
      }
      if !goalReceived {
        if future.None? {
          return Faulted, Running;
        }
        var g := future.value;
        sig := SpinUntilFutureComplete(i.futureSpin, g);
        if !sig.Fine? {
          return sig, Running;
        }
        SpinFrame(AsWritten, old(State()), i.someSpin);
        WaitFrame(AsWritten, Spin(AsWritten, old(State()), i.someSpin).s, i.futureSpin, g);
        if g !in peer.answers {
          if peer.clock - timeSent > timeoutMs * NANOSECONDS_PER_MILLISECOND {
            Record(Failed(SendGoalTimeout, Some(g), None));
            return if i.onFailure.Completed() then Fine else Threw, i.onFailure;
          }
          return Fine, Running;
        }
        goalReceived := true;
        handle := if peer.answers[g] then Some(g) else None;
        future := None;
        Record(Took(g, peer.answers[g]));
        if handle.None? {
          Record(Failed(ErrorCode.GoalRejected, None, None));
          return if i.onFailure.Completed() then Fine else Threw, i.onFailure;
        }
      }
      sig, verdict := Conclude(i);
    }

    method Tick(i: TickInput) returns (sig: Signal, verdict: NodeStatus)
      modifies this
      ensures TickRes(State(), sig, verdict) == ActionNode.Tick(AsWritten, old(State()), i)
    {
      AdvanceClock(i.elapsed);
      if !i.rosOk {
        sig := Halt(i.cancel);
        return sig, Failure;
      }
      var ok := EnsureClient(i);
      if !ok {
        return Threw, Running;
      }
      if status.Idle? {
        sig, verdict := Activate(i);
      } else if status.Running? {
        sig, verdict := Continue(i);
      } else {
        return Fine, Running;
      }
    }
  }
}
