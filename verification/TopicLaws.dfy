/**
  What the tick of RosTopicSubNode does with the topic in its port, told by the port, the members
  and the registry before the tick.
 */
module TopicLaws {
  import opened Common
  import opened Registry
  import opened TopicSub
  import opened TopicRuns

  /** The port asks for nothing new: it is empty, still has its default value, or names the topic in use. */
  predicate AsksNothing(port: string, topic: string) {
    port == "" || port == "__default__placeholder__" || port == topic
  }

  /** A tick that leaves connections alone, but for mailboxes and messages. */
  ghost predicate SameLinks(h: Hub, t: Hub) {
    && t.registry == h.registry && t.slots == h.slots && t.nodes.Keys == h.nodes.Keys && t.born == h.born
    && forall k :: k in h.nodes ==> t.nodes[k] == h.nodes[k].(mailbox := t.nodes[k].mailbox)
  }

  lemma {:induction false} SpinKeepsLinks(h: Hub, i: InstanceId, ms: seq<Message>)
    ensures SameLinks(h, Spin(h, i, ms))
    decreases ms
  {
    if ms != [] {
      SpinKeepsLinks(Broadcast(h, i, ms[0]), i, ms[1..]);
    }
  }

  lemma AttendKeepsLinks(h: Hub, n: NodeId, i: TickInput)
    requires n in h.nodes && n in h.registry.held
    ensures SameLinks(h, Attend(h, n, i))
  {
    SpinKeepsLinks(h, h.registry.held[n], i.arrivals);
  }

  /** A node that has an instance, and whose port asks for nothing new, keeps instance, topic and slots. */
  lemma TickKeepsTopic(v: Variant, h: Hub, n: NodeId, i: TickInput)
    requires !h.faulted && n in h.nodes && n in h.registry.held && AsksNothing(i.port, h.nodes[n].topic)
    ensures SameLinks(h, Exec(v, h, TickStep(n, i)))
  {
    AttendKeepsLinks(h, n, i);
  }

  /** Node `n` has come to hold an instance for the key of `topic` and is connected to it; nobody else is touched. */
  ghost predicate Subscribed(h: Hub, t: Hub, n: NodeId, topic: string) {
    && n in h.nodes && n in t.nodes && n in t.registry.held && t.registry.held[n] in t.registry.keyOf
    && t.registry.keyOf[t.registry.held[n]] == KeyFor(h.nodes[n].rosNode, topic)
    && t.nodes[n].topic == topic && t.nodes[n].rosNode == h.nodes[n].rosNode
    && t.nodes[n].connection == Some(t.registry.held[n]) && n in SlotsOf(t, t.registry.held[n])
    && t.born == h.born && t.nodes.Keys == h.nodes.Keys
    && (forall k :: k in h.registry.held && k != n ==> Holds(t.registry, k, h.registry.held[k]))
    && (forall k :: k in h.nodes && k != n ==> t.nodes[k] == h.nodes[k].(mailbox := t.nodes[k].mailbox))
    && (forall j :: j in h.registry.keyOf ==> j in t.registry.keyOf && t.registry.keyOf[j] == h.registry.keyOf[j])
  }

  lemma SubscribeLinks(h: Hub, n: NodeId, i: TickInput)
    requires Valid(h.registry) && n in h.nodes && n !in h.registry.held
    ensures n in Subscribe(h, n, i.port).registry.held
    ensures Subscribed(h, Attend(Subscribe(h, n, i.port), n, i), n, i.port)
  {
    AcquireShape(h.registry, n, KeyFor(h.nodes[n].rosNode, i.port));
    AttendKeepsLinks(Subscribe(h, n, i.port), n, i);
  }

  /**
    Any other port: the old instance is given up, and with a live ROS node the node then has an
    instance for the topic in the port; without one it has none, and its topic is still the old one.
   */
  lemma TickChangesTopic(v: Variant, h: Hub, n: NodeId, i: TickInput)
    requires Valid(h.registry) && !h.faulted && n in h.nodes && n in h.registry.held
    requires !AsksNothing(i.port, h.nodes[n].topic)
    ensures var t := Exec(v, h, TickStep(n, i));
            if i.nodeAlive then Subscribed(h, t, n, i.port)
            else n !in t.registry.held && n in t.nodes && t.nodes[n].topic == h.nodes[n].topic &&
                 t.registry == Release(h.registry, n)
  {
    var p := Reset(v, h, n);
    ResetLinks(v, h, n);
    if i.nodeAlive {
      SubscribeLinks(p, n, i);
      ResetThenSubscribed(h, p, Attend(Subscribe(p, n, i.port), n, i), n, i.port);
    }
  }

  /** Giving up the instance: the node has none, but the same names; nobody else is touched. */
  ghost predicate LetGo(h: Hub, p: Hub, n: NodeId) {
    && n in h.nodes && n in p.nodes && p.registry == Release(h.registry, n) && n !in p.registry.held
    && p.nodes.Keys == h.nodes.Keys && p.born == h.born && p.faulted == h.faulted
    && p.nodes[n].rosNode == h.nodes[n].rosNode && p.nodes[n].topic == h.nodes[n].topic
    && (forall k :: k in h.nodes && k != n ==> p.nodes[k] == h.nodes[k])
    && (forall k :: k in h.registry.held && k != n ==> Holds(p.registry, k, h.registry.held[k]))
    && p.registry.keyOf == h.registry.keyOf
  }

  lemma ResetLinks(v: Variant, h: Hub, n: NodeId)
    requires Valid(h.registry) && n in h.nodes && n in h.registry.held
    ensures LetGo(h, Reset(v, h, n), n) && Valid(Reset(v, h, n).registry)
  {
    ReleaseShape(h.registry, n);
  }

  lemma ResetThenSubscribed(h: Hub, p: Hub, t: Hub, n: NodeId, topic: string)
    requires LetGo(h, p, n) && Subscribed(p, t, n, topic)
    ensures Subscribed(h, t, n, topic)
  {
  }

  /** A node without an instance subscribes to what the port names, unless that is empty or the ROS node is gone. */
  lemma TickJoinsTopic(v: Variant, h: Hub, n: NodeId, i: TickInput)
    requires Valid(h.registry) && !h.faulted && n in h.nodes && n !in h.registry.held
    ensures var t := Exec(v, h, TickStep(n, i));
            if i.port != "" && i.nodeAlive then Subscribed(h, t, n, i.port) else t == h
  {
    if i.port != "" && i.nodeAlive {
      SubscribeLinks(h, n, i);
    }
  }

  /** tick returns a verdict of SUCCESS or FAILURE when the node has or gets an instance; else it throws. */
  lemma StatusIsVerdict(v: Variant, h: Hub, n: NodeId, i: TickInput)
    requires n in h.nodes
    ensures var served := if n in h.registry.held && AsksNothing(i.port, h.nodes[n].topic) then true
                          else i.port != "" && i.nodeAlive;
            TickStatus(v, h, n, i) ==
            if served && (i.verdict.Success? || i.verdict.Failure?) then Some(i.verdict) else None
  {
  }

  // ---------- whole runs ----------

  /** The topic given to the constructor of the node that the `n`-th construction of the run makes. */
  function Home(steps: seq<Step>, n: NodeId): Option<string> {
    if steps == [] then None
    else if steps[0].Construct? then (if n == 0 then steps[0].topic else Home(steps[1..], n - 1))
    else Home(steps[1..], n)
  }

  function Births(steps: seq<Step>): nat {
    if steps == [] then 0 else (if steps[0].Construct? then 1 else 0) + Births(steps[1..])
  }

  /** Ports only ever hold nothing, their default value, or the topic their node was constructed on. */
  predicate StayHome(steps: seq<Step>) {
    forall step | step in steps :: step.TickStep? ==>
      var port := step.input.port;
      port == "" || port == "__default__placeholder__" || Some(port) == Home(steps, step.node)
  }

  lemma {:induction false} HomeOfNext(all: seq<Step>, k: nat)
    requires k < |all| && all[k].Construct?
    ensures Home(all, Births(all[..k])) == all[k].topic
    decreases k
  {
    if k > 0 {
      assert all[1..][..k - 1] == all[..k][1..];
      HomeOfNext(all[1..], k - 1);
    }
  }

  lemma {:induction false} BirthsNext(all: seq<Step>, k: nat)
    requires k < |all|
    ensures Births(all[..k + 1]) == Births(all[..k]) + if all[k].Construct? then 1 else 0
    decreases k
  {
    if k > 0 {
      assert all[1..][..k - 1] == all[..k][1..] && all[1..][..k] == all[..k + 1][1..];
      BirthsNext(all[1..], k - 1);
    } else {
      assert all[..1][1..] == [] && all[..0] == [];
    }
  }

  lemma {:induction false} RunPrefix(v: Variant, h: Hub, steps: seq<Step>, k: nat)
    requires k < |steps|
    ensures Run(v, h, steps[..k + 1]) == Exec(v, Run(v, h, steps[..k]), steps[k])
    decreases k
  {
    if k > 0 {
      assert steps[1..][..k - 1] == steps[..k][1..] && steps[1..][..k] == steps[..k + 1][1..];
      RunPrefix(v, Exec(v, h, steps[0]), steps[1..], k - 1);
    } else {
      assert steps[..1][1..] == [] && steps[..0] == [];
    }
  }

  /** Nodes are numbered by their construction, and those with a home are subscribed there. */
  ghost predicate AtHome(all: seq<Step>, k: nat, h: Hub) {
    && k <= |all| && h.born == Births(all[..k])
    && forall n: NodeId :: n in h.nodes && Home(all, n).Some? ==> LivesAt(h, n, Home(all, n).value)
  }

  ghost predicate LivesAt(h: Hub, n: NodeId, topic: string) {
    && n in h.nodes && h.nodes[n].topic == topic
    && n in h.registry.held && h.registry.held[n] in h.registry.keyOf
    && h.registry.keyOf[h.registry.held[n]] == KeyFor(h.nodes[n].rosNode, topic)
  }

  lemma LinkedLivesOn(h: Hub, t: Hub, n: NodeId, topic: string)
    requires SameLinks(h, t) && LivesAt(h, n, topic)
    ensures LivesAt(t, n, topic)
  {
  }

  lemma OthersLiveOn(h: Hub, t: Hub, n: NodeId, k: NodeId, topic: string)
    requires LivesAt(h, k, topic) && k != n && k in t.nodes && t.nodes[k] == h.nodes[k].(mailbox := t.nodes[k].mailbox)
    requires Holds(t.registry, k, h.registry.held[k])
    requires forall j :: j in h.registry.keyOf ==> j in t.registry.keyOf && t.registry.keyOf[j] == h.registry.keyOf[j]
    ensures LivesAt(t, k, topic)
  {
  }

  lemma ConstructedLives(all: seq<Step>, k: nat, h: Hub, rosNode: string, topic: Option<string>, alive: bool, n: NodeId)
    requires k < |all| && all[k] == Construct(rosNode, topic, alive) && AtHome(all, k, h) && Good(true, h)
    requires var t := Constructed(h, rosNode, topic, alive); n in t.nodes && Home(all, n).Some?
    ensures LivesAt(Constructed(h, rosNode, topic, alive), n, Home(all, n).value)
  {
    HomeOfNext(all, k);
    var made := Made(h, rosNode);
    MadeGood(true, h, rosNode);
    if topic.Some? && !Refuses(made, h.born, topic.value, alive) {
      AcquireShape(made.registry, h.born, KeyFor(rosNode, topic.value));
    }
  }

  lemma TickLives(v: Variant, all: seq<Step>, k: nat, h: Hub, m: NodeId, i: TickInput, n: NodeId)
    requires AtHome(all, k, h) && Good(true, h)
    requires i.port == "" || i.port == "__default__placeholder__" || Some(i.port) == Home(all, m)
    requires n in h.nodes && Home(all, n).Some?
    ensures LivesAt(Exec(v, h, TickStep(m, i)), n, Home(all, n).value)
    ensures Exec(v, h, TickStep(m, i)).born == h.born && Exec(v, h, TickStep(m, i)).nodes.Keys == h.nodes.Keys
  {
    TickKeepsNodes(v, all, k, h, m, i);
    var t, topic := Exec(v, h, TickStep(m, i)), Home(all, n).value;
    if m in h.nodes && m in h.registry.held {
      TickKeepsTopic(v, h, m, i);
      LinkedLivesOn(h, t, n, topic);
    } else if m in h.nodes {
      TickJoinsTopic(v, h, m, i);
      if t != h {
        OthersLiveOn(h, t, m, n, topic);
      }
    }
  }

  lemma TickKeepsNodes(v: Variant, all: seq<Step>, k: nat, h: Hub, m: NodeId, i: TickInput)
    requires AtHome(all, k, h) && Good(true, h)
    requires i.port == "" || i.port == "__default__placeholder__" || Some(i.port) == Home(all, m)
    ensures Exec(v, h, TickStep(m, i)).born == h.born && Exec(v, h, TickStep(m, i)).nodes.Keys == h.nodes.Keys
    ensures m in h.nodes && m in h.registry.held ==> AsksNothing(i.port, h.nodes[m].topic)
  {
    if m in h.nodes && m in h.registry.held {
      TickKeepsTopic(v, h, m, i);
    } else if m in h.nodes {
      TickJoinsTopic(v, h, m, i);
    }
  }

  lemma DestroyLives(h: Hub, m: NodeId, n: NodeId, topic: string)
    requires Valid(h.registry) && m in h.nodes && n != m && LivesAt(h, n, topic)
    ensures LivesAt(Destroyed(h, m), n, topic)
  {
    ReleaseShape(h.registry, m);
  }

  lemma StepStaysHome(v: Variant, all: seq<Step>, k: nat, h: Hub)
    requires k < |all| && AtHome(all, k, h) && Good(true, h) && StayHome(all)
    ensures Safe(Repaired, true, h, all[k]) && Steady(h, all[k]) && AtHome(all, k + 1, Exec(v, h, all[k]))
  {
    var step, t := all[k], Exec(v, h, all[k]);
    assert step in all;
    BirthsNext(all, k);
    if step.TickStep? {
      TickKeepsNodes(v, all, k, h, step.node, step.input);
    }
    forall n: NodeId | n in t.nodes && Home(all, n).Some? ensures LivesAt(t, n, Home(all, n).value) {
      match step
      case Construct(rosNode, topic, alive) => ConstructedLives(all, k, h, rosNode, topic, alive, n);
      case TickStep(m, i) => TickLives(v, all, k, h, m, i, n);
      case Destroy(m) =>
        if m in h.nodes {
          DestroyLives(h, m, n, Home(all, n).value);
        }
    }
  }

  lemma {:induction false} PrefixStaysHome(v: Variant, all: seq<Step>, k: nat)
    requires k <= |all| && StayHome(all)
    ensures var h := Run(v, NOTHING, all[..k]); Good(true, h) && AtHome(all, k, h)
    decreases k
  {
    if k == 0 {
      NothingIsGood(true);
      assert all[..0] == [];
    } else {
      PrefixStaysHome(v, all, k - 1);
      var h := Run(v, NOTHING, all[..k - 1]);
      RunPrefix(v, NOTHING, all, k - 1);
      StepStaysHome(v, all, k - 1, h);
      ExecGood(v, true, h, all[k - 1]);
    }
  }

  /**
    Over every run in which ports hold nothing, their default value, or the topic their node was
    constructed on: every node constructed on a topic holds an instance made for that topic as long
    as it exists, and onTick is given exactly the unread messages of that instance.
   */
  lemma HomesAreKept(v: Variant, steps: seq<Step>)
    requires StayHome(steps)
    ensures var h := Run(v, NOTHING, steps);
            && Faithful(h.trace) && Isolated(h) && !h.faulted
            && forall n: NodeId :: n in h.nodes && Home(steps, n).Some? ==> LivesAt(h, n, Home(steps, n).value)
  {
    assert steps[..|steps|] == steps;
    PrefixStaysHome(v, steps, |steps|);
  }

  /** Then a tick hears the last message that arrives on that topic, and shows exactly one mailbox. */
  lemma HomeTickShows(v: Variant, steps: seq<Step>, n: NodeId, i: TickInput)
    requires StayHome(steps)
    requires var h := Run(v, NOTHING, steps);
             n in h.nodes && n in h.registry.held && AsksNothing(i.port, h.nodes[n].topic)
    ensures var h := Run(v, NOTHING, steps);
            var t := Exec(v, h, TickStep(n, i));
            && t.trace.Then? && t.trace.last.Ticked? && t.trace.last.node == n
            && t.trace.last.shown == (if i.arrivals != [] then Some(i.arrivals[|i.arrivals| - 1])
                                      else Unread(h.trace, n, h.registry.held[n]))
            && t.trace.last.cleared == (i.verdict.Completed() && !i.latch)
  {
    var h := Run(v, NOTHING, steps);
    assert steps[..|steps|] == steps;
    PrefixStaysHome(v, steps, |steps|);
    assert Wired(h, n);
    SpinKeepsLast(h, n, i.arrivals);
    SpinFrame(h, h.registry.held[n], i.arrivals);
    assert i.arrivals == [] ==> Spin(h, h.registry.held[n], i.arrivals) == h;
  }

  // ---------- construction ----------

  /** Which topic a new node subscribes to, if any, and when its constructor throws. */
  lemma ConstructorChoice(h: Hub, rosNode: string, port: PortText, default: string, nodeAlive: bool)
    requires Valid(h.registry) && h.born !in h.registry.held
    ensures var named := port.Static? && port.name != "" && port.name != "__default__placeholder__";
            var wanted := if named then port.name else default;
            && (Chosen(port, default).None? <==> !port.Pointer? && wanted == "")
            && (port.Pointer? ==>
                  var t := Constructed(h, rosNode, Chosen(port, default).value, nodeAlive);
                  h.born in t.nodes && h.born !in t.registry.held && t.nodes[h.born].topic == "")
            && (!port.Pointer? && wanted != "" ==>
                  var t := Constructed(h, rosNode, Chosen(port, default).value, nodeAlive);
                  if nodeAlive then LivesAt(t, h.born, wanted) else t == h.(born := h.born + 1))
  {
    if !port.Pointer? && Chosen(port, default).Some? && nodeAlive {
      var topic := Chosen(port, default).value.value;
      AcquireShape(Made(h, rosNode).registry, h.born, KeyFor(rosNode, topic));
    }
  }
}
