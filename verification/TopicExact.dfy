/** When exactly RosTopicSubNode as written keeps its connections and its mailboxes right. */
module TopicExact {
  import opened Common
  import opened Registry
  import opened TopicSub
  import opened TopicRuns

  // ---------- changes of topic ----------

  /** The rest of a tick moves no connection. */
  lemma AttendFrame(h: Hub, n: NodeId, i: TickInput)
    requires n in h.nodes && n in h.registry.held
    ensures var s := Attend(h, n, i); s.registry == h.registry && s.slots == h.slots
  {
    SpinFrame(h, h.registry.held[n], i.arrivals);
  }

  /** A switching tick, written out: reset, subscribe, attend; only the first two move connections. */
  lemma SwitchUnfolds(h: Hub, n: NodeId, i: TickInput)
    requires Valid(h.registry) && n in h.nodes && n in h.registry.held && Switches(h, n, i.port) && i.nodeAlive
    ensures var p := Reset(AsWritten, h, n);
            n in p.nodes && n !in p.registry.held &&
            var s, t := Subscribe(p, n, i.port), Tick(AsWritten, h, n, i);
            t.registry == s.registry && t.slots == s.slots
  {
    var p := Reset(AsWritten, h, n);
    ReleaseShape(h.registry, n);
    AcquireShape(p.registry, n, KeyFor(p.nodes[n].rosNode, i.port));
    AttendFrame(Subscribe(p, n, i.port), n, i);
  }

  lemma SameConnections(s: Hub, t: Hub)
    requires Isolated(s) && t.registry == s.registry && t.slots == s.slots
    ensures Isolated(t)
  {
    assert forall j :: SlotsOf(t, j) == SlotsOf(s, j);
  }

  /** A switch that leaves others behind: the old instance lives on, with the node in its slots. */
  lemma SwitchLeaksConnection(h: Hub, n: NodeId, i: TickInput)
    requires Wiring(h) && n in h.nodes && n in h.registry.held
    requires Switches(h, n, i.port) && i.nodeAlive && !SoleHolder(h.registry, n)
    ensures var t, stale := Tick(AsWritten, h, n, i), h.registry.held[n];
            && Live(t.registry, stale) && n in SlotsOf(t, stale)
            && n in t.registry.held && t.registry.held[n] != stale
            && (forall k :: k in h.registry.held && k != n ==> Holds(t.registry, k, h.registry.held[k]))
  {
    var stale := h.registry.held[n];
    var p := Reset(AsWritten, h, n);
    assert Wired(h, n);
    ReleaseShape(h.registry, n);
    var key := KeyFor(h.nodes[n].rosNode, i.port);
    AcquireShape(p.registry, n, key);
    var s := Subscribe(p, n, i.port);
    if s.registry.held[n] == stale {
      KeysAreInjective(h.nodes[n].rosNode, i.port, h.nodes[n].rosNode, h.nodes[n].topic);
    }
    OthersKeepInstanceAlive(p.registry, n, key, stale);
    SwitchUnfolds(h, n, i);
  }

  /** An instance somebody else holds survives an acquisition. */
  lemma OthersKeepInstanceAlive(r: RegistryState, n: HolderId, key: Key, i: InstanceId)
    requires Valid(r) && n !in r.held && Live(r, i)
    ensures Live(Acquire(r, n, key), i)
  {
    AcquireShape(r, n, key);
    var a := Acquire(r, n, key);
    var k :| k in Holders(r.held, i);
    assert a.held[k] == i;
    HeldIsLive(a, k);
  }

  /**
    As written, after a change of topic the node is connected only to the new broadcaster exactly
    when it was the sole holder of the old instance.
   */
  lemma SwitchIsExact(h: Hub, n: NodeId, i: TickInput)
    requires Wiring(h) && n in h.nodes && n in h.registry.held && Switches(h, n, i.port)
    ensures Isolated(Exec(AsWritten, h, TickStep(n, i))) <==> SoleHolder(h.registry, n)
  {
    if !i.nodeAlive {
      ResetIsExact(h, n);
      assert Tick(AsWritten, h, n, i) == Reset(AsWritten, h, n);
    } else if SoleHolder(h.registry, n) {
      SoleSwitchIsolates(h, n, i);
    } else {
      SwitchLeaksConnection(h, n, i);
    }
  }

  lemma ResetIsExact(h: Hub, n: NodeId)
    requires Wiring(h) && n in h.nodes && n in h.registry.held
    ensures n !in Reset(AsWritten, h, n).registry.held
    ensures Isolated(Reset(AsWritten, h, n)) <==> SoleHolder(h.registry, n)
  {
    var p := Reset(AsWritten, h, n);
    ReleaseShape(h.registry, n);
    assert Wired(h, n);
    if SoleHolder(h.registry, n) {
      ResetWiring(AsWritten, h, n);
    } else {
      assert n in SlotsOf(p, h.registry.held[n]);
    }
  }

  lemma SoleSwitchIsolates(h: Hub, n: NodeId, i: TickInput)
    requires Wiring(h) && n in h.nodes && SoleHolder(h.registry, n) && Switches(h, n, i.port) && i.nodeAlive
    ensures Isolated(Tick(AsWritten, h, n, i))
  {
    var p := Reset(AsWritten, h, n);
    ResetWiring(AsWritten, h, n);
    SwitchUnfolds(h, n, i);
    AttachWiring(p, n, i.port);
    SameConnections(Subscribe(p, n, i.port), Tick(AsWritten, h, n, i));
  }

  /** The left-over connection is not idle: the next message on the old topic lands in the mailbox. */
  lemma StaleTopicIsHeard(h: Hub, n: NodeId, i: TickInput, k: NodeId, m: Message)
    requires Wiring(h) && n in h.nodes && n in h.registry.held
    requires Switches(h, n, i.port) && i.nodeAlive && !SoleHolder(h.registry, n)
    requires k != n && k in h.registry.held && h.registry.held[k] == h.registry.held[n]
    ensures var t := Tick(AsWritten, h, n, i);
            && k in t.registry.held && n in t.registry.held && t.registry.held[k] != t.registry.held[n]
            && (n in t.nodes ==> var b := Broadcast(t, t.registry.held[k], m);
                                 n in b.nodes && b.nodes[n].mailbox == Some(m))
  {
    SwitchLeaksConnection(h, n, i);
  }

  // ---------- what onTick is given ----------

  /** What a node sees of a spin on its instance. */
  lemma {:induction false} SpinIsHeard(h: Hub, i: InstanceId, ms: seq<Message>, n: NodeId)
    ensures var s := Spin(h, i, ms);
            && Faithful(s.trace) == Faithful(h.trace) && JoinedTo(s.trace, n) == JoinedTo(h.trace, n)
            && Unread(s.trace, n, i) == if ms == [] then Unread(h.trace, n, i) else Some(ms[|ms| - 1])
    decreases ms
  {
    if ms != [] {
      SpinIsHeard(Broadcast(h, i, ms[0]), i, ms[1..], n);
    }
  }

  /**
    As written, a tick that subscribes gives onTick the right message exactly when a message comes
    in during that tick, the node brings an empty mailbox along, or the instance has a stored message.
   */
  lemma JoinIsExact(h: Hub, n: NodeId, i: TickInput)
    requires Good(false, h) && n in h.nodes && Joins(h, n, i)
    ensures Faithful(Exec(AsWritten, h, TickStep(n, i)).trace) <==>
            i.arrivals != [] || CleanJoin(Prepared(AsWritten, h, i, n), n, i.port)
  {
    var p := Prepared(AsWritten, h, i, n);
    ReleaseShape(h.registry, n);
    var a := Acquire(p.registry, n, KeyFor(p.nodes[n].rosNode, i.port));
    AcquireShape(p.registry, n, KeyFor(p.nodes[n].rosNode, i.port));
    PreparedKeepsRecords(h, n, i, a.held[n]);
    SpinKeepsLast(Attach(p, n, i.port, a), n, i.arrivals);
    FirstTickIsExact(p, n, i, a);
  }

  lemma PreparedKeepsRecords(h: Hub, n: NodeId, i: TickInput, j: InstanceId)
    requires Mail(false, h) && n in h.nodes
    ensures var p := Prepared(AsWritten, h, i, n);
            && Faithful(p.trace) && p.nodes == h.nodes && p.lastMessage == h.lastMessage
            && Stored(p.trace, j) == if j in p.lastMessage then Some(p.lastMessage[j]) else None
  {
  }

  lemma FirstTickIsExact(p: Hub, n: NodeId, i: TickInput, a: RegistryState)
    requires n in p.nodes && n in a.held && Faithful(p.trace)
    requires var j := a.held[n]; Stored(p.trace, j) == if j in p.lastMessage then Some(p.lastMessage[j]) else None
    ensures var s := Spin(Attach(p, n, i.port, a), a.held[n], i.arrivals);
            n in s.nodes &&
            (Faithful(Process(s, n, i).trace) <==>
             i.arrivals != [] || p.nodes[n].mailbox.None? || a.held[n] in p.lastMessage)
  {
    var s, j := Attach(p, n, i.port, a), a.held[n];
    SpinKeepsLast(s, n, i.arrivals);
    SpinIsHeard(s, j, i.arrivals, n);
    assert Faithful(s.trace) && JoinedTo(s.trace, n) == Some(j) && Unread(s.trace, n, j) == Stored(p.trace, j);
  }

  /** A step as written keeps messages and connections right exactly when it is sound. */
  lemma StepIsExact(h: Hub, step: Step)
    requires Good(false, h)
    ensures var t := Exec(AsWritten, h, step); Faithful(t.trace) && Isolated(t) <==> SoundSwitch(h, step)
  {
    if SoundSwitch(h, step) {
      ExecGood(AsWritten, false, h, step);
    } else {
      var n, i := step.node, step.input;
      if n in h.registry.held && Switches(h, n, i.port) && !SoleHolder(h.registry, n) {
        SwitchIsExact(h, n, i);
      } else {
        JoinIsExact(h, n, i);
      }
    }
  }

  /** After every step: unread messages only, own instance only. */
  ghost predicate RightThroughout(h: Hub, steps: seq<Step>)
    decreases steps
  {
    Faithful(h.trace) && Isolated(h) && (steps != [] ==> RightThroughout(Exec(AsWritten, h, steps[0]), steps[1..]))
  }

  lemma {:induction false} RunIsExact(h: Hub, steps: seq<Step>)
    requires Good(false, h)
    ensures RightThroughout(h, steps) <==> SafeRun(AsWritten, false, h, steps)
    decreases steps
  {
    if steps != [] {
      StepIsExact(h, steps[0]);
      var t := Exec(AsWritten, h, steps[0]);
      if SoundSwitch(h, steps[0]) {
        ExecGood(AsWritten, false, h, steps[0]);
        RunIsExact(t, steps[1..]);
      } else {
        assert !RightThroughout(t, steps[1..]);
      }
    }
  }

  /** As written, over every run: all is right at every moment exactly when every step is sound. */
  lemma RightRunsAreExact(steps: seq<Step>)
    ensures RightThroughout(NOTHING, steps) <==> SafeRun(AsWritten, false, NOTHING, steps)
  {
    NothingIsGood(false);
    RunIsExact(NOTHING, steps);
  }
}
