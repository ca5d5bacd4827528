/** Runs of RosTopicSubNode as written, from an empty program, that reach each of its failures. */
module TopicTraces {
  import opened Common
  import opened Registry
  import opened TopicSub
  import opened TopicRuns
  import opened TopicExact
  import opened TopicReceivers

  const SUBSCRIBER: Step := Construct("/n", Some("a"), true)
  const TO_B: TickInput := TickInput("b", true, [], Success, false)

  /** Two nodes on topic a share one instance; the first is then told to move to topic b. */
  const LEAVING: seq<Step> := [SUBSCRIBER, SUBSCRIBER, TickStep(0, TO_B)]

  /** The hub with both subscribers in place. */
  function Shared(): Hub {
    Exec(AsWritten, Exec(AsWritten, NOTHING, SUBSCRIBER), SUBSCRIBER)
  }

  function Alone(): Hub {
    Exec(AsWritten, NOTHING, SUBSCRIBER)
  }

  lemma FirstJoins()
    ensures var r := Alone().registry;
            r.table == map["/n/a" := 0] && r.refs == map[0 := 1] && r.held == map[0 := 0]
    ensures Alone().born == 1 && Alone().nodes.Keys == {0} && Alone().nodes[0].topic == "a" && !Alone().faulted
  {
    assert KeyFor("/n", "a") == "/n/a";
    assert Alone() == Subscribe(Made(NOTHING, "/n"), 0, "a");
  }

  lemma SecondJoins()
    ensures Shared().registry.held == map[0 := 0, 1 := 0]
    ensures Shared().nodes.Keys == {0, 1} && Shared().nodes[0].topic == "a" && Shared().nodes[1].topic == "a"
    ensures Shared().nodes[0].rosNode == Shared().nodes[1].rosNode
  {
    FirstJoins();
    assert KeyFor("/n", "a") == "/n/a";
    assert Shared() == Subscribe(Made(Alone(), "/n"), 1, "a");
  }

  lemma SubscribersAreGood()
    ensures Good(false, Alone()) && Wiring(Shared()) && Sturdy(Shared())
  {
    NothingIsGood(false);
    ExecGood(AsWritten, false, NOTHING, SUBSCRIBER);
    ExecGood(AsWritten, false, Alone(), SUBSCRIBER);
    ExecSturdy(NOTHING, SUBSCRIBER);
    ExecSturdy(Alone(), SUBSCRIBER);
  }

  lemma RunOfThree(v: Variant, h: Hub, a: Step, b: Step, c: Step)
    ensures Run(v, h, [a, b, c]) == Exec(v, Exec(v, Exec(v, h, a), b), c)
  {
    assert [a, b, c][1..] == [b, c] && [b, c][1..] == [c] && [c][1..] == [];
    var m := Exec(v, Exec(v, h, a), b);
    assert Run(v, Exec(v, h, a), [b, c]) == Run(v, m, [c]) == Run(v, Exec(v, m, c), []);
  }

  lemma {:induction false} RunAppend(v: Variant, h: Hub, a: seq<Step>, b: seq<Step>)
    ensures Run(v, h, a + b) == Run(v, Run(v, h, a), b)
    decreases a
  {
    if a == [] {
      assert a + b == b;
    } else {
      assert (a + b)[1..] == a[1..] + b;
      RunAppend(v, Exec(v, h, a[0]), a[1..], b);
    }
  }

  /** A switching tick without messages touches the members of its own node only. */
  lemma SwitchedNodes(h: Hub, n: NodeId, i: TickInput)
    requires Sturdy(h) && n in h.nodes && n in h.registry.held
    requires Switches(h, n, i.port) && i.nodeAlive && i.arrivals == []
    ensures var t := Tick(AsWritten, h, n, i);
            && Sturdy(t) && n in t.nodes && n in t.registry.held
            && t.registry == Acquire(Release(h.registry, n), n, KeyFor(h.nodes[n].rosNode, i.port))
            && t.nodes[n].rosNode == h.nodes[n].rosNode && t.nodes[n].topic == i.port
            && SlotsOf(t, t.registry.held[n])[n] == SlotsOf(h, t.registry.held[n])[n] + 1
            && (forall k :: k in h.nodes && k != n ==> k in t.nodes && t.nodes[k] == h.nodes[k])
            && (forall k :: k in h.registry.held && k != n ==> Holds(t.registry, k, h.registry.held[k]))
  {
    TickSturdy(h, n, i);
    var p := Reset(AsWritten, h, n);
    var a := Acquire(p.registry, n, KeyFor(p.nodes[n].rosNode, i.port));
    SwitchIsAttach(h, n, i);
    AttachedNodes(p, n, i, a);
  }

  /** A switching tick is a reset, a subscription and the rest of the tick. */
  lemma SwitchIsAttach(h: Hub, n: NodeId, i: TickInput)
    requires Valid(h.registry) && n in h.nodes && n in h.registry.held && Switches(h, n, i.port) && i.nodeAlive
    ensures var p := Reset(AsWritten, h, n);
            var a := Acquire(p.registry, n, KeyFor(p.nodes[n].rosNode, i.port));
            && p.nodes == h.nodes && p.slots == h.slots && n in a.held
            && Tick(AsWritten, h, n, i) == Attend(Attach(p, n, i.port, a), n, i)
            && (forall k :: k in h.registry.held && k != n ==> Holds(a, k, h.registry.held[k]))
  {
    var key := KeyFor(h.nodes[n].rosNode, i.port);
    ReacquireKeepsOthers(h.registry, n, key);
    TickThatJoins(h, n, i, Reset(AsWritten, h, n), Acquire(Release(h.registry, n), n, key));
  }

  lemma ReacquireKeepsOthers(r: RegistryState, n: HolderId, key: Key)
    requires Valid(r)
    ensures n !in Release(r, n).held && n in Acquire(Release(r, n), n, key).held
    ensures forall k :: k in r.held && k != n ==> Holds(Acquire(Release(r, n), n, key), k, r.held[k])
  {
    ReleaseShape(r, n);
    AcquireShape(Release(r, n), n, key);
  }

  lemma TickThatJoins(h: Hub, n: NodeId, i: TickInput, p: Hub, a: RegistryState)
    requires n in h.nodes && p == Prepared(AsWritten, h, i, n) && n in p.nodes && n !in p.registry.held
    requires !Refuses(p, n, i.port, i.nodeAlive)
    requires a == Acquire(p.registry, n, KeyFor(p.nodes[n].rosNode, i.port)) && n in a.held
    ensures Tick(AsWritten, h, n, i) == Attend(Attach(p, n, i.port, a), n, i)
  {
  }

  lemma AttachedNodes(p: Hub, n: NodeId, i: TickInput, a: RegistryState)
    requires n in p.nodes && n in a.held && i.arrivals == []
    ensures var t := Attend(Attach(p, n, i.port, a), n, i);
            && t.registry == a && n in t.nodes
            && t.nodes[n].rosNode == p.nodes[n].rosNode && t.nodes[n].topic == i.port
            && SlotsOf(t, a.held[n])[n] == SlotsOf(p, a.held[n])[n] + 1
            && (forall k :: k in p.nodes && k != n ==> k in t.nodes && t.nodes[k] == p.nodes[k])
  {
  }

  /** Node 1 keeps topic a and its instance; node 0, moved to topic b, is still in that broadcaster. */
  predicate Leaked(h: Hub) {
    && 0 in h.nodes && 1 in h.nodes && h.nodes[1].topic == "a" && h.nodes[0].topic == "b"
    && h.nodes[0].rosNode == h.nodes[1].rosNode
    && 0 in h.registry.held && 1 in h.registry.held && h.registry.held[0] != h.registry.held[1]
    && 0 in SlotsOf(h, h.registry.held[1])
  }

  /** After the move node 0 is still in the broadcaster of topic a, which node 1 keeps alive. */
  lemma LeakIsReachable()
    ensures var h := Run(AsWritten, NOTHING, LEAVING); Sturdy(h) && Leaked(h) && !Isolated(h)
  {
    var h := Shared();
    SecondJoins();
    SubscribersAreGood();
    RunOfThree(AsWritten, NOTHING, SUBSCRIBER, SUBSCRIBER, TickStep(0, TO_B));
    assert 1 in Holders(h.registry.held, 0);
    SwitchLeaksConnection(h, 0, TO_B);
    SwitchedNodes(h, 0, TO_B);
    assert Run(AsWritten, NOTHING, LEAVING) == Tick(AsWritten, h, 0, TO_B);
  }

  const HEARS_A: TickInput := TickInput("a", true, ["m"], Success, false)

  /** The moved node is destroyed, then a message comes in on the old topic: a call into a destroyed object. */
  lemma UseAfterDestructionIsReachable()
    ensures Run(AsWritten, NOTHING, LEAVING + [Destroy(0), TickStep(1, HEARS_A)]).faulted
  {
    var h := Run(AsWritten, NOTHING, LEAVING);
    LeakIsReachable();
    assert Wired(h, 0);
    DestroyedThenHeard(LEAVING);
  }

  /** Node 1 hears a message on topic a after node 0 has been destroyed with a slot to spare. */
  lemma DestroyedThenHeard(steps: seq<Step>)
    requires var h := Run(AsWritten, NOTHING, steps);
             && Sturdy(h) && 0 in h.nodes && 1 in h.nodes && h.nodes[1].topic == "a" && 1 in h.registry.held
             && SlotsOf(h, h.registry.held[1])[0] > Disconnected(h, 0, h.registry.held[1])
    ensures Run(AsWritten, NOTHING, steps + [Destroy(0), TickStep(1, HEARS_A)]).faulted
  {
    var h := Run(AsWritten, NOTHING, steps);
    var destroy, hear := Destroy(0), TickStep(1, HEARS_A);
    AbandonedIsCalled(h, 0, 1);
    RunAppend(AsWritten, NOTHING, steps, [destroy, hear]);
    RunOfTwo(h, destroy, hear);
  }

  const TO_A: TickInput := TO_B.(port := "a")

  /** An acquisition joins the live instance of its key. */
  lemma AcquireJoins(r: RegistryState, n: HolderId, key: Key, i: InstanceId)
    requires Valid(r) && n !in r.held && Live(r, i) && r.keyOf[i] == key
    ensures Acquire(r, n, key).held[n] == i
  {
  }

  /** Node 0 moves back to topic a: a second slot in the same broadcaster. */
  lemma ReturningAddsSlot(h: Hub)
    requires Sturdy(h) && Leaked(h)
    ensures var t := Tick(AsWritten, h, 0, TO_A);
            && Sturdy(t) && 0 in t.nodes && 1 in t.nodes && t.nodes[1].topic == "a" && 1 in t.registry.held
            && SlotsOf(t, t.registry.held[1])[0] >= 2
  {
    SwitchedNodes(h, 0, TO_A);
    ReturnsToOldInstance(h, 0, 1, "a");
  }

  lemma ReturnsToOldInstance(h: Hub, n: NodeId, k: NodeId, topic: string)
    requires Sturdy(h) && n in h.nodes && k in h.registry.held && k != n
    requires k in h.nodes && h.nodes[k].rosNode == h.nodes[n].rosNode && h.nodes[k].topic == topic
    ensures Acquire(Release(h.registry, n), n, KeyFor(h.nodes[n].rosNode, topic)).held[n] == h.registry.held[k]
  {
    assert Wired(h, k);
    ReleaseShape(h.registry, n);
    HeldIsLive(Release(h.registry, n), k);
    AcquireJoins(Release(h.registry, n), n, KeyFor(h.nodes[n].rosNode, topic), h.registry.held[k]);
  }

  /** There and back again: the destructor disconnects the second slot only, and the first one is called. */
  lemma UseAfterReturnIsReachable()
    ensures Run(AsWritten, NOTHING, LEAVING + [TickStep(0, TO_A)] + [Destroy(0), TickStep(1, HEARS_A)]).faulted
  {
    var h, back := Run(AsWritten, NOTHING, LEAVING), TickStep(0, TO_A);
    LeakIsReachable();
    ReturningAddsSlot(h);
    RunAppend(AsWritten, NOTHING, LEAVING, [back]);
    assert [back][1..] == [];
    assert Run(AsWritten, h, [back]) == Run(AsWritten, Exec(AsWritten, h, back), []);
    DestroyedThenHeard(LEAVING + [back]);
  }

  /** The sole subscriber of topic a hears a message, latches it, and moves to topic b. */
  const LATCHING: seq<Step> := [SUBSCRIBER, TickStep(0, HEARS_A.(latch := true)), TickStep(0, TO_B)]

  /** Node 0 with a message of topic a in its mailbox. */
  function Latched(): Hub {
    Exec(AsWritten, Alone(), TickStep(0, HEARS_A.(latch := true)))
  }

  /** A tick that hears one message and latches it. */
  lemma LatchingTick(h: Hub, n: NodeId, i: TickInput, m: Message)
    requires Good(false, h) && Stays(h, n, i) && i.arrivals == [m] && i.latch
    ensures var t := Tick(AsWritten, h, n, i);
            && Good(false, t) && n in t.nodes && t.registry == h.registry
            && t.nodes[n].mailbox == Some(m) && t.nodes[n].topic == h.nodes[n].topic
  {
    var j := h.registry.held[n];
    assert Wired(h, n);
    AttendGood(false, h, n, i);
    assert i.arrivals[1..] == [];
    assert Spin(h, j, i.arrivals) == Spin(Broadcast(h, j, m), j, i.arrivals[1..]);
    assert Tick(AsWritten, h, n, i) == Process(Broadcast(h, j, m), n, i);
  }

  lemma MessageIsLatched()
    ensures Good(false, Latched())
    ensures var h := Latched();
            && 0 in h.nodes && h.nodes[0].mailbox == Some("m") && h.nodes[0].topic == "a"
            && h.registry == Alone().registry
  {
    FirstJoins();
    SubscribersAreGood();
    LatchingTick(Alone(), 0, HEARS_A.(latch := true), "m");
  }

  lemma NewKeyGetsNewInstance(r: RegistryState, n: HolderId, key: Key)
    requires key !in r.table
    ensures Acquire(Release(r, n), n, key).held[n] == r.next
  {
  }

  /** A message of the old topic is shown after a move to a topic nobody has subscribed to. */
  lemma MovingShowsOldMessage(h: Hub, n: NodeId, i: TickInput)
    requires Good(false, h) && n in h.nodes && n in h.registry.held && h.nodes[n].mailbox.Some?
    requires Switches(h, n, i.port) && i.nodeAlive && i.arrivals == []
    requires KeyFor(h.nodes[n].rosNode, i.port) !in h.registry.table
    ensures !Faithful(Exec(AsWritten, h, TickStep(n, i)).trace)
  {
    ReleaseShape(h.registry, n);
    NewKeyGetsNewInstance(h.registry, n, KeyFor(h.nodes[n].rosNode, i.port));
    JoinIsExact(h, n, i);
  }

  /** Then onTick is given the message of topic a as one of topic b. */
  lemma StaleMessageIsReachable()
    ensures !Faithful(Run(AsWritten, NOTHING, LATCHING).trace)
  {
    MessageIsLatched();
    FirstJoins();
    var key := KeyFor(Latched().nodes[0].rosNode, "b");
    assert key[|key| - 1] == 'b' && "/n/a"[3] == 'a';
    MovingShowsOldMessage(Latched(), 0, TO_B);
    RunOfThree(AsWritten, NOTHING, SUBSCRIBER, TickStep(0, HEARS_A.(latch := true)), TickStep(0, TO_B));
  }
}
