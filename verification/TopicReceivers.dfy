/**
  When exactly RosTopicSubNode as written calls a destroyed node: the destructor disconnects the
  latest slot of the node, and any other slot in a broadcaster that others keep alive stays behind.
 */
module TopicReceivers {
  import opened Common
  import opened Registry
  import opened TopicSub
  import opened TopicRuns

  /** The broadcasters of live instances know existing nodes only. */
  ghost predicate ReceiversExist(h: Hub) {
    forall i :: Live(h.registry, i) ==> AllExist(SlotsOf(h, i), h.nodes)
  }

  /** Another node holds an instance in which `n` has more slots than its destructor disconnects. */
  predicate LeftBehind(h: Hub, n: NodeId)
    requires n in h.nodes
  {
    exists k :: k in h.registry.held && k != n &&
                SlotsOf(h, h.registry.held[k])[n] > Disconnected(h, n, h.registry.held[k])
  }

  /** How many slots of node `n` in instance `i` its destructor disconnects. */
  function Disconnected(h: Hub, n: NodeId, i: InstanceId): nat
    requires n in h.nodes
  {
    if h.nodes[n].connection == Some(i) then 1 else 0
  }

  lemma RemovedSlots(h: Hub, n: NodeId, i: InstanceId)
    requires n in h.nodes
    ensures var rest := SlotsOf(Destroyed(h, n), i);
            && (n in rest <==> SlotsOf(h, i)[n] > Disconnected(h, n, i))
            && (forall k :: k != n ==> rest[k] == SlotsOf(h, i)[k])
  {
    DisconnectedSlots(h, n, i);
  }

  lemma DisconnectedSlots(h: Hub, n: NodeId, i: InstanceId)
    requires n in h.nodes
    ensures SlotsOf(Disconnect(h, n), i) ==
            if h.nodes[n].connection == Some(i) then SlotsOf(h, i) - multiset{n} else SlotsOf(h, i)
    ensures SlotsOf(Destroyed(h, n), i) == SlotsOf(Disconnect(h, n), i)
  {
  }

  /** A destruction keeps receivers in existence exactly when it leaves nothing behind. */
  lemma DestructionKeepsReceivers(h: Hub, n: NodeId)
    requires Valid(h.registry) && ReceiversExist(h) && n in h.nodes
    ensures ReceiversExist(Destroyed(h, n)) <==> !LeftBehind(h, n)
  {
    var d := Destroyed(h, n);
    ReleaseShape(h.registry, n);
    if LeftBehind(h, n) {
      var k :| k in h.registry.held && k != n &&
               SlotsOf(h, h.registry.held[k])[n] > Disconnected(h, n, h.registry.held[k]);
      HeldIsLive(d.registry, k);
      RemovedSlots(h, n, d.registry.held[k]);
    } else {
      forall i | Live(d.registry, i) ensures AllExist(SlotsOf(d, i), d.nodes) {
        var k :| k in Holders(d.registry.held, i);
        assert h.registry.held[k] == i;
        RemovedSlots(h, n, i);
      }
    }
  }

  /** After a destruction a message on a live instance can reach the destroyed node exactly if it was left behind. */
  lemma DestructionIsExact(h: Hub, n: NodeId)
    requires Valid(h.registry) && !h.faulted && ReceiversExist(h) && n in h.nodes
    ensures var d := Destroyed(h, n);
            (exists i, m :: Live(d.registry, i) && Broadcast(d, i, m).faulted) <==> LeftBehind(h, n)
  {
    var d := Destroyed(h, n);
    DestructionKeepsReceivers(h, n);
    if LeftBehind(h, n) {
      var i :| Live(d.registry, i) && !AllExist(SlotsOf(d, i), d.nodes);
      assert Broadcast(d, i, "").faulted;
    }
  }

  // ---------- every run as written ----------

  /** All that holds of connections in every run as written, leaks included, until a node is left behind. */
  ghost predicate Sturdy(h: Hub) {
    Plugged(h) && ReceiversExist(h)
  }

  lemma BroadcastSturdy(h: Hub, i: InstanceId, m: Message)
    requires Sturdy(h) && Live(h.registry, i)
    ensures Sturdy(Broadcast(h, i, m))
  {
    var b := Broadcast(h, i, m);
    forall n: NodeId ensures Wired(b, n) {
      assert Wired(h, n);
    }
    assert forall j :: SlotsOf(b, j) == SlotsOf(h, j);
  }

  lemma {:induction false} SpinSturdy(h: Hub, n: NodeId, ms: seq<Message>)
    requires Sturdy(h) && n in h.registry.held
    ensures var s := Spin(h, h.registry.held[n], ms); Sturdy(s) && s.registry == h.registry
    decreases ms
  {
    if ms != [] {
      var i := h.registry.held[n];
      HeldIsLive(h.registry, n);
      BroadcastSturdy(h, i, ms[0]);
      SpinSturdy(Broadcast(h, i, ms[0]), n, ms[1..]);
    }
  }

  lemma AttendSturdy(h: Hub, n: NodeId, i: TickInput)
    requires Sturdy(h) && n in h.nodes && n in h.registry.held
    ensures Sturdy(Attend(h, n, i))
  {
    SpinSturdy(h, n, i.arrivals);
    var s := Spin(h, h.registry.held[n], i.arrivals);
    var t := Attend(h, n, i);
    forall k: NodeId ensures Wired(t, k) {
      assert Wired(s, k);
    }
    assert forall j :: SlotsOf(t, j) == SlotsOf(s, j);
  }

  lemma SubscribeSturdy(h: Hub, n: NodeId, topic: string)
    requires Sturdy(h) && n in h.nodes && n !in h.registry.held
    ensures Sturdy(Subscribe(h, n, topic)) && n in Subscribe(h, n, topic).registry.held
  {
    var key := KeyFor(h.nodes[n].rosNode, topic);
    var a := Acquire(h.registry, n, key);
    AcquireShape(h.registry, n, key);
    AttachKnown(h, n, topic, a);
    var s := Subscribe(h, n, topic);
    forall k: NodeId ensures Wired(s, k) {
      AttachWired(h, n, topic, a, k);
    }
    forall j | Live(a, j) ensures AllExist(SlotsOf(s, j), s.nodes) {
      assert Live(h.registry, j) || SlotsOf(h, j) == multiset{};
    }
  }

  lemma ResetSturdy(h: Hub, n: NodeId)
    requires Sturdy(h) && n in h.nodes
    ensures Sturdy(Reset(AsWritten, h, n))
  {
    var a, s := Release(h.registry, n), Reset(AsWritten, h, n);
    ReleaseShape(h.registry, n);
    forall k: NodeId ensures Wired(s, k) {
      DetachWired(AsWritten, h, n, a, k);
    }
    assert forall j :: SlotsOf(s, j) == SlotsOf(h, j);
  }

  lemma DestroyedSturdy(h: Hub, n: NodeId)
    requires Sturdy(h) && n in h.nodes && !LeftBehind(h, n)
    ensures Sturdy(Destroyed(h, n))
  {
    ReleaseShape(h.registry, n);
    DestructionKeepsReceivers(h, n);
    RemovedKnown(h, n, Release(h.registry, n));
    forall k: NodeId ensures Wired(Destroyed(h, n), k) {
      RemovedWired(h, n, Release(h.registry, n), k);
    }
  }

  lemma RemovedKnown(h: Hub, n: NodeId, a: RegistryState)
    requires Known(h) && n in h.nodes && a.next == h.registry.next
    ensures Known(Removed(h, n, a))
  {
  }

  lemma TickSturdy(h: Hub, n: NodeId, i: TickInput)
    requires Sturdy(h) && n in h.nodes
    ensures Sturdy(Tick(AsWritten, h, n, i))
  {
    var p := Prepared(AsWritten, h, i, n);
    ResetSturdy(h, n);
    if n in p.registry.held {
      AttendSturdy(p, n, i);
    } else if !Refuses(p, n, i.port, i.nodeAlive) {
      SubscribeSturdy(p, n, i.port);
      AttendSturdy(Subscribe(p, n, i.port), n, i);
    }
  }

  lemma ConstructedSturdy(h: Hub, rosNode: string, topic: Option<string>, nodeAlive: bool)
    requires Sturdy(h)
    ensures Sturdy(Constructed(h, rosNode, topic, nodeAlive))
  {
    var made := Made(h, rosNode);
    forall k: NodeId ensures Wired(made, k) && Wired(Unborn(h), k) {
      assert Wired(h, k) && Wired(h, h.born);
    }
    assert forall j :: SlotsOf(made, j) == SlotsOf(h, j) == SlotsOf(Unborn(h), j);
    assert Wired(h, h.born);
    if topic.Some? && !Refuses(made, h.born, topic.value, nodeAlive) {
      SubscribeSturdy(made, h.born, topic.value);
    }
  }

  /** The step destroys a node and leaves it behind. */
  predicate Abandons(h: Hub, step: Step) {
    step.Destroy? && step.node in h.nodes && LeftBehind(h, step.node)
  }

  lemma ExecSturdy(h: Hub, step: Step)
    requires Sturdy(h) && !Abandons(h, step)
    ensures Sturdy(Exec(AsWritten, h, step))
  {
    match step
    case Construct(rosNode, topic, alive) => ConstructedSturdy(h, rosNode, topic, alive);
    case TickStep(n, i) =>
      if n in h.nodes {
        TickSturdy(h, n, i);
      }
    case Destroy(n) =>
      if n in h.nodes {
        DestroyedSturdy(h, n);
      }
  }

  /** Some step of the run leaves a node behind. */
  predicate SomeStepAbandons(h: Hub, steps: seq<Step>)
    decreases steps
  {
    steps != [] && (Abandons(h, steps[0]) || SomeStepAbandons(Exec(AsWritten, h, steps[0]), steps[1..]))
  }

  lemma {:induction false} RunSturdy(h: Hub, steps: seq<Step>)
    requires Sturdy(h) && !SomeStepAbandons(h, steps)
    ensures Sturdy(Run(AsWritten, h, steps))
    decreases steps
  {
    if steps != [] {
      ExecSturdy(h, steps[0]);
      RunSturdy(Exec(AsWritten, h, steps[0]), steps[1..]);
    }
  }

  predicate OnlyTicks(steps: seq<Step>) {
    forall step | step in steps :: step.TickStep?
  }

  /** Ticks leave nobody behind. */
  lemma {:induction false} TicksAbandonNobody(h: Hub, steps: seq<Step>, more: seq<Step>, k: nat)
    requires !SomeStepAbandons(h, steps) && OnlyTicks(more) && k <= |steps|
    ensures !SomeStepAbandons(h, steps[..k] + more)
    decreases k, |more|
  {
    var all := steps[..k] + more;
    if k > 0 {
      assert all[1..] == steps[1..][..k - 1] + more;
      TicksAbandonNobody(Exec(AsWritten, h, steps[0]), steps[1..], more, k - 1);
    } else if more != [] {
      assert all == more && more[0] in more;
      var none: seq<Step> := [];
      assert none[..0] + more[1..] == more[1..];
      TicksAbandonNobody(Exec(AsWritten, h, more[0]), none, more[1..], 0);
    }
  }

  /** A tick of node `k` with a message on its own topic. */
  function Hearing(h: Hub, k: NodeId): Step
    requires k in h.nodes
  {
    TickStep(k, TickInput(h.nodes[k].topic, true, ["m"], Success, false))
  }

  /** After a destruction that leaves the node behind, a tick of the node that held on calls the destroyed one. */
  lemma AbandonedIsCalled(h: Hub, n: NodeId, k: NodeId)
    requires Sturdy(h) && n in h.nodes && k in h.registry.held && k != n && k in h.nodes
    requires SlotsOf(h, h.registry.held[k])[n] > Disconnected(h, n, h.registry.held[k])
    ensures Exec(AsWritten, Exec(AsWritten, h, Destroy(n)), Hearing(h, k)).faulted
  {
    var d := Destroyed(h, n);
    ReleaseShape(h.registry, n);
    RemovedSlots(h, n, h.registry.held[k]);
    HearingFaults(d, k, n);
  }

  /** A message that comes in on an instance with a destroyed receiver. */
  lemma HearingFaults(d: Hub, k: NodeId, n: NodeId)
    requires !d.faulted && k in d.nodes && k in d.registry.held
    requires n in SlotsOf(d, d.registry.held[k]) && n !in d.nodes
    ensures Exec(AsWritten, d, Hearing(d, k)).faulted
  {
    var i, tick := d.registry.held[k], Hearing(d, k).input;
    assert tick.arrivals[1..] == [];
    assert Spin(d, i, tick.arrivals) == Broadcast(d, i, "m");
    assert Tick(AsWritten, d, k, tick) == Attend(d, k, tick);
  }

  lemma RunOfTwo(h: Hub, a: Step, b: Step)
    ensures Run(AsWritten, h, [a, b]) == Exec(AsWritten, Exec(AsWritten, h, a), b)
  {
    assert [a, b][1..] == [b] && [b][1..] == [];
    assert Run(AsWritten, Exec(AsWritten, h, a), [b]) == Run(AsWritten, Exec(AsWritten, Exec(AsWritten, h, a), b), []);
  }

  /** Where the run first leaves a node behind, one more tick calls it. */
  lemma {:induction false} AbandoningRunsFault(h: Hub, steps: seq<Step>) returns (k: nat, more: seq<Step>)
    requires Sturdy(h) && SomeStepAbandons(h, steps)
    ensures k <= |steps| && OnlyTicks(more) && Run(AsWritten, h, steps[..k] + more).faulted
    decreases steps
  {
    if Abandons(h, steps[0]) {
      var tick := AbandoningStepFaults(h, steps[0]);
      k, more := 1, [tick];
      assert steps[..1] + [tick] == [steps[0], tick];
    } else {
      ExecSturdy(h, steps[0]);
      k, more := AbandoningRunsFault(Exec(AsWritten, h, steps[0]), steps[1..]);
      RunFromSecond(h, steps, k, more);
      k := k + 1;
    }
  }

  lemma RunFromSecond(h: Hub, steps: seq<Step>, k: nat, more: seq<Step>)
    requires k < |steps|
    ensures Run(AsWritten, h, steps[..k + 1] + more) ==
            Run(AsWritten, Exec(AsWritten, h, steps[0]), steps[1..][..k] + more)
  {
    assert (steps[..k + 1] + more)[1..] == steps[1..][..k] + more;
  }

  lemma AbandoningStepFaults(h: Hub, step: Step) returns (tick: Step)
    requires Sturdy(h) && Abandons(h, step)
    ensures tick.TickStep? && Run(AsWritten, h, [step, tick]).faulted
  {
    var n := step.node;
    var j :| j in h.registry.held && j != n &&
             SlotsOf(h, h.registry.held[j])[n] > Disconnected(h, n, h.registry.held[j]);
    assert Wired(h, j);
    AbandonedIsCalled(h, n, j);
    tick := Hearing(h, j);
    RunOfTwo(h, step, tick);
  }

  /**
    As written, over every run from an empty program: some step leaves a node behind exactly when,
    from some moment of the run, further ticks alone can call a destroyed node.
   */
  lemma DestroyedReceiversAreExact(steps: seq<Step>)
    ensures SomeStepAbandons(NOTHING, steps) <==>
            exists k, more :: 0 <= k <= |steps| && OnlyTicks(more) && Run(AsWritten, NOTHING, steps[..k] + more).faulted
  {
    NothingIsGood(false);
    if SomeStepAbandons(NOTHING, steps) {
      var k, more := AbandoningRunsFault(NOTHING, steps);
    } else {
      forall k, more | 0 <= k <= |steps| && OnlyTicks(more)
        ensures !Run(AsWritten, NOTHING, steps[..k] + more).faulted
      {
        TicksAbandonNobody(NOTHING, steps, more, k);
        RunSturdy(NOTHING, steps[..k] + more);
      }
    }
  }

  /** In particular a run that leaves nobody behind calls no destroyed node. */
  lemma NobodyLeftBehind(steps: seq<Step>)
    requires !SomeStepAbandons(NOTHING, steps)
    ensures !Run(AsWritten, NOTHING, steps).faulted
  {
    NothingIsGood(false);
    RunSturdy(NOTHING, steps);
  }
}
