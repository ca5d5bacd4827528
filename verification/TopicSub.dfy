/**
  RosTopicSubNode: many behavior tree nodes, the subscriber instances they share, and the one-slot
  mailbox of each node.

  `AsWritten` is the code of the repository. `Repaired` differs in one place: when the topic in the
  port changes, the node disconnects from the old broadcaster and empties its mailbox.
 */
module TopicSub {
  import opened Common
  import opened Registry

  type NodeId = HolderId
  type Message = string

  datatype Variant = AsWritten | Repaired

  datatype Event =
    | Joined(node: NodeId, instance: InstanceId)
    | Left(node: NodeId)
    | Heard(instance: InstanceId, message: Message)
    | Ticked(node: NodeId, shown: Option<Message>, cleared: bool)

  datatype Trace = Start | Then(past: Trace, last: Event)

  /** The members of one node other than sub_instance_, which the registry keeps. */
  datatype SubNode = SubNode(
    rosNode: string,
    topic: string,
    mailbox: Option<Message>,
    connection: Option<InstanceId>)

  /**
    `slots` are the broadcasters, `lastMessage` the last_msg of each instance. Every call of connect
    adds a slot, so a node can have several in one broadcaster.
   */
  datatype Hub = Hub(
    registry: RegistryState,
    lastMessage: map<InstanceId, Message>,
    slots: map<InstanceId, multiset<NodeId>>,
    nodes: map<NodeId, SubNode>,
    born: NodeId,
    trace: Trace,
    faulted: bool)

  datatype TickInput = TickInput(
    port: string,
    nodeAlive: bool,
    arrivals: seq<Message>,
    verdict: NodeStatus,
    latch: bool)

  datatype Step =
    | Construct(rosNode: string, topic: Option<string>, nodeAlive: bool)
    | TickStep(node: NodeId, input: TickInput)
    | Destroy(node: NodeId)

  const PLACEHOLDER: string := "__default__placeholder__"

  const NOTHING: Hub := Hub(EMPTY, map[], map[], map[], 0, Start, false)

  function Log(h: Hub, e: Event): Hub {
    h.(trace := Then(h.trace, e))
  }

  function SlotsOf(h: Hub, i: InstanceId): multiset<NodeId> {
    if i in h.slots then h.slots[i] else multiset{}
  }

  /** The slot of the latest connection goes, any other slot of the node stays. */
  function Disconnect(h: Hub, n: NodeId): Hub
    requires n in h.nodes
  {
    match h.nodes[n].connection
    case None => h
    case Some(i) => h.(slots := h.slots[i := SlotsOf(h, i) - multiset{n}])
  }

  // ---------- the subscription callback ----------

  /** A message on an instance is stored and handed to every slot of its broadcaster. */
  function Broadcast(h: Hub, i: InstanceId, m: Message): Hub {
    var heard := map n | n in h.nodes ::
                   if n in SlotsOf(h, i) then h.nodes[n].(mailbox := Some(m)) else h.nodes[n];
    Log(h.(lastMessage := h.lastMessage[i := m], nodes := heard,
           faulted := h.faulted || !AllExist(SlotsOf(h, i), h.nodes)),
        Heard(i, m))
  }

  predicate AllExist(receivers: multiset<NodeId>, nodes: map<NodeId, SubNode>) {
    forall n | n in receivers :: n in nodes
  }

  function Spin(h: Hub, i: InstanceId, ms: seq<Message>): Hub
    decreases ms
  {
    if ms == [] then h else Spin(Broadcast(h, i, ms[0]), i, ms[1..])
  }

  // ---------- createSubscriber ----------

  /** createSubscriber throws on an empty name, a second call, or a ROS node that is gone. */
  predicate Refuses(h: Hub, n: NodeId, topic: string, nodeAlive: bool) {
    topic == "" || n in h.registry.held || !nodeAlive
  }

  /** The node takes up the instance that registry `r` gives it. */
  function Attach(h: Hub, n: NodeId, topic: string, r: RegistryState): Hub
    requires n in h.nodes && n in r.held
  {
    var i := r.held[n];
    var box := if i in h.lastMessage then Some(h.lastMessage[i]) else h.nodes[n].mailbox;
    var node := h.nodes[n].(mailbox := box, connection := Some(i), topic := topic);
    Log(h.(registry := r, slots := h.slots[i := SlotsOf(h, i) + multiset{n}], nodes := h.nodes[n := node]),
        Joined(n, i))
  }

  /** The instance from the registry, its stored message if any, and a slot in its broadcaster. */
  function Subscribe(h: Hub, n: NodeId, topic: string): Hub
    requires n in h.nodes
  {
    Attach(h, n, topic, Acquire(h.registry, n, KeyFor(h.nodes[n].rosNode, topic)))
  }

  // ---------- tick ----------

  /** The port names a topic other than the current one. */
  predicate Switches(h: Hub, n: NodeId, port: string)
    requires n in h.nodes
  {
    port != "" && port != PLACEHOLDER && port != h.nodes[n].topic
  }

  /** The node gives up its instance, which leaves registry `r`. */
  function Detach(v: Variant, h: Hub, n: NodeId, r: RegistryState): Hub
    requires n in h.nodes
  {
    var d := if v.Repaired?
             then Disconnect(h, n).(nodes := h.nodes[n := h.nodes[n].(mailbox := None, connection := None)])
             else h;
    Log(d.(registry := r), Left(n))
  }

  /** sub_instance_.reset() */
  function Reset(v: Variant, h: Hub, n: NodeId): Hub
    requires n in h.nodes
  {
    Detach(v, h, n, Release(h.registry, n))
  }

  /** The node after the check of the port, before createSubscriber. */
  function Prepared(v: Variant, h: Hub, i: TickInput, n: NodeId): Hub
    requires n in h.nodes
  {
    if Switches(h, n, i.port) && n in h.registry.held then Reset(v, h, n) else h
  }

  /** onTick, and the latch. */
  function Process(h: Hub, n: NodeId, i: TickInput): Hub
    requires n in h.nodes
  {
    var clears := i.verdict.Completed() && !i.latch;
    var node := if clears then h.nodes[n].(mailbox := None) else h.nodes[n];
    Log(h.(nodes := h.nodes[n := node]), Ticked(n, h.nodes[n].mailbox, clears))
  }

  function Attend(h: Hub, n: NodeId, i: TickInput): Hub
    requires n in h.nodes && n in h.registry.held
  {
    var s := Spin(h, h.registry.held[n], i.arrivals);
    if n in s.nodes then Process(s, n, i) else s
  }

  function Tick(v: Variant, h: Hub, n: NodeId, i: TickInput): Hub
    requires n in h.nodes
  {
    var p := Prepared(v, h, i, n);
    if n in p.registry.held then Attend(p, n, i)
    else if n !in p.nodes || Refuses(p, n, i.port, i.nodeAlive) then p
    else
      var s := Subscribe(p, n, i.port);
      if n in s.registry.held then Attend(s, n, i) else s
  }

  /** The status tick returns; None is an exception of createSubscriber or of the check of the verdict. */
  function TickStatus(v: Variant, h: Hub, n: NodeId, i: TickInput): Option<NodeStatus>
    requires n in h.nodes
  {
    var p := Prepared(v, h, i, n);
    if n !in p.registry.held && (n !in p.nodes || Refuses(p, n, i.port, i.nodeAlive)) then None
    else if i.verdict.Completed() then Some(i.verdict)
    else None
  }

  // ---------- runs ----------

  /** The node a constructor makes, before it subscribes. */
  function Made(h: Hub, rosNode: string): Hub {
    h.(nodes := h.nodes[h.born := SubNode(rosNode, "", None, None)], born := h.born + 1)
  }

  /** The id of a node whose constructor throws is not used again. */
  function Unborn(h: Hub): Hub {
    h.(born := h.born + 1)
  }

  /** The port "topic_name" in the XML: not there, a blackboard pointer, or a static string. */
  datatype PortText = Absent | Pointer | Static(name: string)

  /** The topic the constructor subscribes to, Some(None) to leave it to the first tick, None for an exception. */
  function Chosen(port: PortText, default: string): Option<Option<string>> {
    if port.Pointer? then Some(None)
    else if port.Static? && port.name != "" && port.name != PLACEHOLDER then Some(Some(port.name))
    else if default == "" then None
    else Some(Some(default))
  }

  /** A node whose topic is a static string subscribes at once, others wait for their first tick. */
  function Constructed(h: Hub, rosNode: string, topic: Option<string>, nodeAlive: bool): Hub {
    if topic.None? then Made(h, rosNode)
    else if Refuses(Made(h, rosNode), h.born, topic.value, nodeAlive) then Unborn(h)
    else Subscribe(Made(h, rosNode), h.born, topic.value)
  }

  /** The destructor disconnects the latest connection and drops the instance. */
  function Removed(h: Hub, n: NodeId, r: RegistryState): Hub
    requires n in h.nodes
  {
    Log(Disconnect(h, n).(registry := r, nodes := h.nodes - {n}), Left(n))
  }

  function Destroyed(h: Hub, n: NodeId): Hub
    requires n in h.nodes
  {
    Removed(h, n, Release(h.registry, n))
  }

  function Exec(v: Variant, h: Hub, step: Step): Hub {
    if h.faulted then h else
    match step
    case Construct(rosNode, topic, alive) => Constructed(h, rosNode, topic, alive)
    case TickStep(n, i) => if n in h.nodes then Tick(v, h, n, i) else h
    case Destroy(n) => if n in h.nodes then Destroyed(h, n) else h
  }

  function Run(v: Variant, h: Hub, steps: seq<Step>): Hub
    decreases steps
  {
    if steps == [] then h else Run(v, Exec(v, h, steps[0]), steps[1..])
  }

  // ---------- reading a trace ----------

  /** The instance a node has joined and not left. */
  function JoinedTo(t: Trace, n: NodeId): Option<InstanceId> {
    match t
    case Start => None
    case Then(past, Joined(k, i)) => if k == n then Some(i) else JoinedTo(past, n)
    case Then(past, Left(k)) => if k == n then None else JoinedTo(past, n)
    case Then(past, _) => JoinedTo(past, n)
  }

  /** The last message ever broadcast on an instance. */
  function Stored(t: Trace, i: InstanceId): Option<Message> {
    match t
    case Start => None
    case Then(past, Heard(j, m)) => if j == i then Some(m) else Stored(past, i)
    case Then(past, _) => Stored(past, i)
  }

  /**
    What node `n` has not read yet on instance `i`: the last message since its own last tick that
    did not latch, or, if it has joined since then, the message the instance had stored.
   */
  function Unread(t: Trace, n: NodeId, i: InstanceId): Option<Message> {
    match t
    case Start => None
    case Then(past, Heard(j, m)) => if j == i then Some(m) else Unread(past, n, i)
    case Then(past, Joined(k, _)) => if k == n then Stored(past, i) else Unread(past, n, i)
    case Then(past, Ticked(k, _, cleared)) => if k == n && cleared then None else Unread(past, n, i)
    case Then(past, _) => Unread(past, n, i)
  }

  /** Every onTick was given exactly the unread message of the instance its node had joined. */
  predicate Faithful(t: Trace) {
    t.Then? ==>
      && Faithful(t.past)
      && (t.last.Ticked? ==>
            && JoinedTo(t.past, t.last.node).Some?
            && t.last.shown == Unread(t.past, t.last.node, JoinedTo(t.past, t.last.node).value))
  }
}
