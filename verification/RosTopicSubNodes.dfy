/**
  All RosTopicSubNode objects of a program with the subscriber instances and the static registry
  they share, updated in place and proved against the functions of module TopicSub. Objects are
  identified by ids; the members of an object are the entry of its id in a map.
 */
module RosTopicSubNodesClass {
  import opened Common
  import opened Registry
  import opened TopicSub

  class RosTopicSubNodes {
    var registry: RegistryState
    var lastMessage: map<InstanceId, Message>
    var slots: map<InstanceId, multiset<NodeId>>
    var nodes: map<NodeId, SubNode>
    var born: NodeId
    var trace: Trace
    var faulted: bool

    function State(): Hub
      reads this
    {
      Hub(registry, lastMessage, slots, nodes, born, trace, faulted)
    }

    constructor ()
      ensures State() == NOTHING
    {
      registry := EMPTY;
      lastMessage, slots, nodes := map[], map[], map[];
      born := 0;
      trace := Start;
      faulted := false;
    }

    /** The lambda given to create_subscription: store the message, then call every slot. */
    method SubscriptionCallback(i: InstanceId, m: Message)
      modifies this
      ensures State() == Broadcast(old(State()), i, m)
    {
      lastMessage := lastMessage[i := m];
      var receivers := SlotsOf(State(), i);
      faulted := faulted || !AllExist(receivers, nodes);
      nodes := map n | n in nodes :: if n in receivers then nodes[n].(mailbox := Some(m)) else nodes[n];
      trace := Then(trace, Heard(i, m));
    }

    method SpinSome(i: InstanceId, ms: seq<Message>)
      modifies this
      ensures State() == Spin(old(State()), i, ms)
      ensures nodes.Keys == old(nodes.Keys)
    {
      for k := 0 to |ms|
        invariant Spin(old(State()), i, ms) == Spin(State(), i, ms[k..])
        invariant nodes.Keys == old(nodes.Keys)
      {
        SubscriptionCallback(i, ms[k]);
        assert ms[k..][0] == ms[k] && ms[k..][1..] == ms[k + 1..];
      }
    }

    /** False stands for the RuntimeError. */
    method CreateSubscriber(n: NodeId, topic: string, nodeAlive: bool) returns (ok: bool)
      requires n in nodes
      modifies this
      ensures ok == !Refuses(old(State()), n, topic, nodeAlive)
      ensures State() == if ok then Subscribe(old(State()), n, topic) else old(State())
      ensures ok ==> n in registry.held && n in nodes
    {
      if topic == "" || n in registry.held || !nodeAlive {
        return false;
      }
      registry := Acquire(registry, n, KeyFor(nodes[n].rosNode, topic));
      var i := registry.held[n];
      var box := if i in lastMessage then Some(lastMessage[i]) else nodes[n].mailbox;
      slots := slots[i := SlotsOf(State(), i) + multiset{n}];
      nodes := nodes[n := nodes[n].(mailbox := box, connection := Some(i), topic := topic)];
      trace := Then(trace, Joined(n, i));
      return true;
    }

    /** The constructor of a node; it exists only if no exception left it. */
    method ConstructNode(rosNode: string, topic: Option<string>, nodeAlive: bool)
      modifies this
      ensures State() == Constructed(old(State()), rosNode, topic, nodeAlive)
    {
      var n := born;
      var before := nodes;
      nodes := nodes[n := SubNode(rosNode, "", None, None)];
      born := n + 1;
      if topic.Some? {
        var ok := CreateSubscriber(n, topic.value, nodeAlive);
        if !ok {
          nodes := before;
        }
      }
    }

    /** The constructor with its choice between port and default name; false stands for any exception. */
    method Construct(rosNode: string, port: PortText, default: string, nodeAlive: bool) returns (ok: bool)
      requires forall n :: n in nodes ==> n < born
      modifies this
      ensures match Chosen(port, default)
              case None => State() == Unborn(old(State()))
              case Some(topic) => State() == Constructed(old(State()), rosNode, topic, nodeAlive)
      ensures ok <==> old(born) in nodes
      ensures born == old(born) + 1
    {
      var topic: Option<string> := None;
      if port.Static? && port.name != "" && port.name != PLACEHOLDER {
        topic := Some(port.name);
      } else if !port.Pointer? {
        if default == "" {
          born := born + 1;
          return false;
        }
        topic := Some(default);
      }
      ConstructNode(rosNode, topic, nodeAlive);
      ok := born - 1 in nodes;
    }

    method DestroyNode(n: NodeId)
      requires n in nodes
      modifies this
      ensures State() == Destroyed(old(State()), n)
    {
      if nodes[n].connection.Some? {
        var i := nodes[n].connection.value;
        slots := slots[i := SlotsOf(State(), i) - multiset{n}];
      }
      registry := Release(registry, n);
      nodes := nodes - {n};
      trace := Then(trace, Left(n));
    }

    /** onTick on the mailbox, then the latch; an invalid verdict throws before the latch is asked. */
    method ProcessMessage(n: NodeId, i: TickInput) returns (status: Option<NodeStatus>)
      requires n in nodes
      modifies this
      ensures State() == Process(old(State()), n, i)
      ensures status == if i.verdict.Completed() then Some(i.verdict) else None
    {
      var shown := nodes[n].mailbox;
      if i.verdict.Completed() {
        if !i.latch {
          nodes := nodes[n := nodes[n].(mailbox := None)];
        }
        trace := Then(trace, Ticked(n, shown, !i.latch));
        status := Some(i.verdict);
      } else {
        trace := Then(trace, Ticked(n, shown, false));
        status := None;
      }
      assert old(nodes) == old(nodes)[n := old(nodes)[n]];
    }

    /** None stands for an exception. */
    method TickNode(n: NodeId, i: TickInput) returns (status: Option<NodeStatus>)
      requires n in nodes
      modifies this
      ensures State() == Tick(AsWritten, old(State()), n, i)
      ensures status == TickStatus(AsWritten, old(State()), n, i)
    {
      if i.port != "" && i.port != PLACEHOLDER && i.port != nodes[n].topic {
        if n in registry.held {
          registry := Release(registry, n);
          trace := Then(trace, Left(n));
        }
      }
      if n !in registry.held {
        var ok := CreateSubscriber(n, i.port, i.nodeAlive);
        if !ok {
          return None;
        }
      }
      SpinSome(registry.held[n], i.arrivals);
      status := ProcessMessage(n, i);
    }
  }
}
