/** The class RosServiceNode, proved against the functions of module ServiceNode. */
module RosServiceNodeClass {
  import opened Common
  import opened ServiceNode

  class RosServiceNode {
    const timeoutMs: nat
    const nameChecked: bool
    var status: NodeStatus
    var client: Option<string>
    var name: string
    var responseReceived: bool
    var future: Option<RequestId>
    var response: Option<Reply>
    var timeSent: int
    var peer: Peer
    var trace: Trace

    function State(): Sys
      reads this
    {
      Sys(Node(status, client, name, nameChecked, timeoutMs, responseReceived, future, response, timeSent),
          peer, trace, false)
    }

    constructor (timeoutMs: nat, nameChecked: bool, client: Option<string>, name: string)
      ensures Initial(State())
      ensures State().node == Node(Idle, client, name, nameChecked, timeoutMs, false, None, None, 0)
    {
      this.timeoutMs := timeoutMs;
      this.nameChecked := nameChecked;
      this.client := client;
      this.name := name;
      status, responseReceived := Idle, false;
      future, response := None, None;
      timeSent := 0;
      peer := Peer(0, 0, map[]);
      trace := Start;
    }

    /** The C++ constructor with its three cases of the port and the default name; null stands for its exception. */
    static method Construct(timeoutMs: nat, port: PortText, default: string, rosNodeAlive: bool)
      returns (node: RosServiceNode?)
      ensures match Constructed(timeoutMs, port, default, rosNodeAlive)
              case None => node == null
              case Some(n) => node != null && fresh(node) && Initial(node.State()) && node.State().node == n
    {
      node := new RosServiceNode(timeoutMs, port.Pointer?, None, "");
      if port.Static? && port.name != "" {
        var ok := node.CreateClient(port.name, rosNodeAlive);
        if !ok {
          return null;
        }
      }
      if node.client.None? && default != "" {
        var ok := node.CreateClient(default, rosNodeAlive);
        if !ok {
          return null;
        }
      }
    }

    method Record(e: Event)
      modifies this`trace
      ensures State() == Log(old(State()), e)
    {
      trace := Then(trace, e);
    }

    method SpinSome(rs: seq<Reply>)
      modifies this`peer
      ensures State() == Spin(old(State()), rs)
    {
      for k := 0 to |rs|
        invariant Spin(old(State()), rs) == Spin(State(), rs[k..])
      {
        peer := Deliver(State(), rs[k]).peer;
        assert rs[k..][0] == rs[k] && rs[k..][1..] == rs[k + 1..];
      }
    }

    /** Spins until the future of request `g` is complete or nothing more comes in time. */
    method SpinUntilFutureComplete(rs: seq<Reply>, g: RequestId)
      modifies this`peer
      ensures State() == SpinUntil(old(State()), rs, g)
    {
      var k := 0;
      while k < |rs| && g !in peer.replies
        invariant 0 <= k <= |rs|
        invariant SpinUntil(old(State()), rs, g) == SpinUntil(State(), rs[k..], g)
      {
        peer := Deliver(State(), rs[k]).peer;
        assert rs[k..][0] == rs[k] && rs[k..][1..] == rs[k + 1..];
        k := k + 1;
      }
    }

    method Halt()
      modifies this`status
      ensures State() == ServiceNode.Halt(old(State()))
    {
      if status.Running? {
        status := Idle;
      }
    }

    /** False stands for the RuntimeError. */
    method CreateClient(serviceName: string, rosNodeAlive: bool) returns (ok: bool)
      modifies this`client, this`name
      ensures var n := ServiceNode.CreateClient(old(State()).node, serviceName, rosNodeAlive);
              ok == n.Some? && State() == old(State()).(node := if ok then n.value else old(State()).node)
    {
      if serviceName == "" || serviceName == "__default__placeholder__" || !rosNodeAlive {
        return false;
      }
      client := Some(serviceName);
      name := serviceName;
      return true;
    }

    method SetServiceName(serviceName: string, rosNodeAlive: bool) returns (ok: bool)
      modifies this`client, this`name
      ensures State() == old(State()).(node := Renamed(old(State()).node, serviceName, rosNodeAlive))
      ensures ok == (serviceName != "" && serviceName != "__default__placeholder__" && rosNodeAlive)
    {
      name := serviceName;
      ok := CreateClient(serviceName, rosNodeAlive);
    }

    /** The check of the client and of the name in the port; false stands for an exception. */
    method EnsureClient(i: TickInput) returns (ok: bool)
      modifies this`client, this`name
      ensures var n := ServiceNode.EnsureClient(old(State()).node, i);
              ok == n.Some? && State() == old(State()).(node := if ok then n.value else old(State()).node)
    {
      if client.None? || (status.Idle? && nameChecked) {
        if name != i.port {
          ok := CreateClient(i.port, i.rosNodeAlive);
          if !ok {
            return;
          }
        }
      }
      return client.Some?;
    }

    method Activate(i: TickInput) returns (sig: Signal, verdict: NodeStatus)
      modifies this
      ensures TickRes(State(), sig, verdict) == ServiceNode.Activate(old(State()), i)
      ensures responseReceived ==> response.Some?
    {
      status := Running;
      responseReceived := false;
      future := None;
      response := None;
      Record(SetRequest);
      if !i.requestSet {
        Record(Failed(InvalidRequest));
        return if i.onFailure.Completed() then Fine else Threw, i.onFailure;
      }
      if !i.serverReady {
        Record(Failed(ServiceUnreachable));
        return Fine, i.onFailure;
      }
      var g := peer.next;
      future := Some(g);
      peer := peer.(next := g + 1);
      timeSent := peer.clock;
      Record(Sent(g, timeSent, client));
      return Fine, Running;
    }

    method Continue(i: TickInput) returns (sig: Signal, verdict: NodeStatus)
      requires responseReceived ==> response.Some?
      modifies this
      ensures TickRes(State(), sig, verdict) == ServiceNode.Continue(old(State()), i)
      ensures responseReceived ==> response.Some?
    {
      SpinSome(i.someSpin);
      if !responseReceived {
        if future.None? {
          return Faulted, Running;
        }
        var g := future.value;
        SpinUntilFutureComplete(i.futureSpin, g);
        if g !in peer.replies {
          if peer.clock - timeSent > timeoutMs * NANOSECONDS_PER_MILLISECOND {
            Record(Failed(ServiceTimeout));
            return if i.onFailure.Completed() then Fine else Threw, i.onFailure;
          }
          return Fine, Running;
        }
        responseReceived := true;
        response := Some(Reply(g, peer.replies[g]));
        future := None;
        if response.value.body.None? {
          return Threw, Running;
        }
      }
      Record(Responded(response.value));
      return if i.onResponse.Completed() then Fine else Threw, i.onResponse;
    }

    method Tick(i: TickInput) returns (sig: Signal, verdict: NodeStatus)
      requires responseReceived ==> response.Some?
      modifies this
      ensures TickRes(State(), sig, verdict) == ServiceNode.Tick(old(State()), i)
      ensures responseReceived ==> response.Some?
    {
      peer := peer.(clock := peer.clock + i.elapsed);
      if !i.rosOk {
        Halt();
        return Fine, Failure;
      }
      var ok := EnsureClient(i);
      if !ok {
        return Threw, Running;
      }
      if status.Idle? {
        sig, verdict := Activate(i);
      } else if status.Running? {
        sig, verdict := Continue(i);
      } else {
        return Fine, Running;
      }
    }
  }
}
