/** Whole runs of RosTopicSubNode: connection isolation and the mailbox refinement. */
module TopicRuns {
  import opened Common
  import opened Registry
  import opened TopicSub

  // ---------- what the registry does for one subscriber ----------

  /** `a` is registry `r` after `n`, which held nothing, has acquired an instance for `key`. */
  ghost predicate Acquired(r: RegistryState, a: RegistryState, n: HolderId, key: Key) {
    && n in a.held && a.held == r.held[n := a.held[n]]
    && a.held[n] in a.keyOf && a.keyOf[a.held[n]] == key
    && r.next <= a.next
    && (forall j :: j in r.keyOf ==> j in a.keyOf && a.keyOf[j] == r.keyOf[j])
    && (Live(r, a.held[n]) || a.held[n] == r.next)
    && (forall j :: Live(a, j) ==> Live(r, j) || j == a.held[n])
  }

  lemma AcquireShape(r: RegistryState, n: HolderId, key: Key)
    requires Valid(r) && n !in r.held
    ensures Acquired(r, Acquire(r, n, key), n, key) && Valid(Acquire(r, n, key))
  {
    if key in r.table && Live(r, r.table[key]) {
      JoinValid(r, n, key);
      AssignCounted(r, n, r.table[key]);
    } else {
      MakeAndJoinValid(r, n, key);
      MakeCounted(r, key);
      AssignCounted(Make(r, key), n, r.next);
    }
  }

  /** Nobody else holds the instance of `n`. */
  predicate SoleHolder(r: RegistryState, n: HolderId) {
    n in r.held && Holders(r.held, r.held[n]) == {n}
  }

  /** `a` is registry `r` after `n` has let go of its instance, if it had one. */
  ghost predicate Released(r: RegistryState, a: RegistryState, n: HolderId) {
    && a.held == r.held - {n} && a.keyOf == r.keyOf && a.next == r.next
    && (forall j :: Live(a, j) ==> Live(r, j))
    && (n in r.held ==> (Live(a, r.held[n]) <==> !SoleHolder(r, n)))
  }

  lemma ReleaseShape(r: RegistryState, n: HolderId)
    requires Valid(r)
    ensures Released(r, Release(r, n), n) && Valid(Release(r, n))
  {
    ReleaseValid(r, n);
    if n in r.held {
      HeldIsLive(r, n);
      var others := Holders(r.held, r.held[n]) - {n};
      assert Holders(r.held, r.held[n]) == others + {n};
      assert others == {} <==> |others| == 0;
    }
  }

  // ---------- connections ----------

  /** The broadcaster of a live instance calls only nodes that hold it, and each of them once. */
  ghost predicate Isolated(h: Hub) {
    forall i, n :: Live(h.registry, i) ==> SlotsOf(h, i)[n] <= if Holds(h.registry, n, i) then 1 else 0
  }

  predicate Holds(r: RegistryState, n: HolderId, i: InstanceId) {
    n in r.held && r.held[n] == i
  }

  ghost predicate Wired(h: Hub, n: NodeId) {
    n in h.registry.held ==>
      && n in h.nodes
      && n in SlotsOf(h, h.registry.held[n])
      && h.nodes[n].connection == Some(h.registry.held[n])
      && h.registry.held[n] in h.registry.keyOf
      && h.registry.keyOf[h.registry.held[n]] == KeyFor(h.nodes[n].rosNode, h.nodes[n].topic)
  }

  /** Instances named in the maps exist. */
  ghost predicate Known(h: Hub) {
    && (forall i: InstanceId :: i in h.slots || i in h.lastMessage ==> i < h.registry.next)
    && (forall n: NodeId :: n in h.nodes ==> n < h.born)
    && (forall n: NodeId :: n in h.nodes && h.nodes[n].connection.Some? ==>
          h.nodes[n].connection.value < h.registry.next)
  }

  /** Everything about connections but isolation. */
  ghost predicate Plugged(h: Hub) {
    Valid(h.registry) && !h.faulted && Known(h) && forall n: NodeId :: Wired(h, n)
  }

  ghost predicate Wiring(h: Hub) {
    Plugged(h) && Isolated(h)
  }

  lemma BroadcastWiring(h: Hub, i: InstanceId, m: Message)
    requires Wiring(h) && Live(h.registry, i)
    ensures Wiring(Broadcast(h, i, m))
  {
    var b := Broadcast(h, i, m);
    forall n | n in SlotsOf(h, i) ensures n in h.nodes {
      assert Wired(h, n);
    }
    forall n: NodeId ensures Wired(b, n) {
      assert Wired(h, n);
    }
  }

  lemma AttachKnown(h: Hub, n: NodeId, topic: string, a: RegistryState)
    requires Known(h) && n in h.nodes && Acquired(h.registry, a, n, KeyFor(h.nodes[n].rosNode, topic))
    requires a.held[n] < a.next
    ensures Known(Attach(h, n, topic, a))
  {
  }

  lemma AttachWired(h: Hub, n: NodeId, topic: string, a: RegistryState, k: NodeId)
    requires n in h.nodes && n !in h.registry.held && Wired(h, k)
    requires Acquired(h.registry, a, n, KeyFor(h.nodes[n].rosNode, topic))
    ensures Wired(Attach(h, n, topic, a), k)
  {
  }

  lemma AttachIsolated(h: Hub, n: NodeId, topic: string, a: RegistryState)
    requires Known(h) && Isolated(h) && n in h.nodes && n !in h.registry.held
    requires Acquired(h.registry, a, n, KeyFor(h.nodes[n].rosNode, topic))
    ensures Isolated(Attach(h, n, topic, a))
  {
    var s, i := Attach(h, n, topic, a), a.held[n];
    forall j, k | Live(a, j) ensures SlotsOf(s, j)[k] <= if Holds(a, k, j) then 1 else 0 {
      assert SlotsOf(s, j) == if j == i then SlotsOf(h, i) + multiset{n} else SlotsOf(h, j);
      assert Live(h.registry, j) || SlotsOf(h, j) == multiset{};
    }
  }

  lemma AttachWiring(h: Hub, n: NodeId, topic: string)
    requires Wiring(h) && n in h.nodes && n !in h.registry.held
    ensures Wiring(Subscribe(h, n, topic)) && n in Subscribe(h, n, topic).registry.held
  {
    var key := KeyFor(h.nodes[n].rosNode, topic);
    var a := Acquire(h.registry, n, key);
    AcquireShape(h.registry, n, key);
    AttachKnown(h, n, topic, a);
    AttachIsolated(h, n, topic, a);
    forall k: NodeId ensures Wired(Subscribe(h, n, topic), k) {
      AttachWired(h, n, topic, a, k);
    }
  }

  lemma DetachWired(v: Variant, h: Hub, n: NodeId, a: RegistryState, k: NodeId)
    requires n in h.nodes && Wired(h, k) && Released(h.registry, a, n)
    ensures Wired(Detach(v, h, n, a), k)
  {
  }

  lemma RemovedWired(h: Hub, n: NodeId, a: RegistryState, k: NodeId)
    requires n in h.nodes && Wired(h, k) && Released(h.registry, a, n)
    ensures Wired(Removed(h, n, a), k)
  {
  }

  /** After letting go, the old instance is gone, or its broadcaster no longer knows the node. */
  lemma DetachIsolated(h: Hub, n: NodeId, a: RegistryState, s: Hub)
    requires Isolated(h) && Wired(h, n) && n in h.nodes && Released(h.registry, a, n) && s.registry == a
    requires (s.slots == h.slots && SoleHolder(h.registry, n)) || s.slots == Disconnect(h, n).slots
    ensures Isolated(s)
  {
    forall j, k | Live(a, j) ensures SlotsOf(s, j)[k] <= if Holds(a, k, j) then 1 else 0 {
      assert SlotsOf(s, j)[k] <= SlotsOf(h, j)[k] && Live(h.registry, j);
    }
  }

  lemma ResetWiring(v: Variant, h: Hub, n: NodeId)
    requires Wiring(h) && n in h.nodes && n in h.registry.held
    requires v.Repaired? || SoleHolder(h.registry, n)
    ensures Wiring(Reset(v, h, n))
  {
    var a := Release(h.registry, n);
    ReleaseShape(h.registry, n);
    DetachIsolated(h, n, a, Reset(v, h, n));
    forall k: NodeId ensures Wired(Reset(v, h, n), k) {
      DetachWired(v, h, n, a, k);
    }
  }

  lemma DestroyedWiring(h: Hub, n: NodeId)
    requires Wiring(h) && n in h.nodes
    ensures Wiring(Destroyed(h, n))
  {
    var a := Release(h.registry, n);
    ReleaseShape(h.registry, n);
    DetachIsolated(h, n, a, Destroyed(h, n));
    forall k: NodeId ensures Wired(Destroyed(h, n), k) {
      RemovedWired(h, n, a, k);
    }
  }

  // ---------- mailboxes ----------

  /** The mailbox of a subscribed node holds what it has not read; if `strict`, any other is empty. */
  ghost predicate Mail(strict: bool, h: Hub) {
    && Faithful(h.trace)
    && (forall n :: JoinedTo(h.trace, n) ==
                    if n in h.registry.held then Some(h.registry.held[n]) else None)
    && (forall i :: Stored(h.trace, i) == if i in h.lastMessage then Some(h.lastMessage[i]) else None)
    && (forall n :: n in h.registry.held && n in h.nodes ==>
          h.nodes[n].mailbox == Unread(h.trace, n, h.registry.held[n]))
    && (forall n :: strict && n in h.nodes && n !in h.registry.held ==> h.nodes[n].mailbox.None?)
  }

  ghost predicate Good(strict: bool, h: Hub) {
    Wiring(h) && Mail(strict, h)
  }

  /** The receivers on instance `i` are the nodes that hold it. */
  ghost predicate ReceiversHold(h: Hub, i: InstanceId) {
    forall n :: n in h.nodes ==> (n in SlotsOf(h, i) <==> n in h.registry.held && h.registry.held[n] == i)
  }

  lemma WiringMeansReceiversHold(h: Hub, i: InstanceId)
    requires Wiring(h) && Live(h.registry, i)
    ensures ReceiversHold(h, i)
  {
    forall n | n in h.nodes && n in h.registry.held
      ensures n in SlotsOf(h, h.registry.held[n])
    {
      assert Wired(h, n);
    }
  }

  lemma BroadcastMail(strict: bool, h: Hub, i: InstanceId, m: Message)
    requires Mail(strict, h) && ReceiversHold(h, i)
    ensures Mail(strict, Broadcast(h, i, m))
  {
  }

  lemma {:induction false} SpinGood(strict: bool, h: Hub, n: NodeId, ms: seq<Message>)
    requires Good(strict, h) && n in h.registry.held
    ensures var s := Spin(h, h.registry.held[n], ms); Good(strict, s) && s.registry == h.registry && s.slots == h.slots
    decreases ms
  {
    if ms != [] {
      var i := h.registry.held[n];
      HeldIsLive(h.registry, n);
      BroadcastWiring(h, i, ms[0]);
      WiringMeansReceiversHold(h, i);
      BroadcastMail(strict, h, i, ms[0]);
      SpinGood(strict, Broadcast(h, i, ms[0]), n, ms[1..]);
    }
  }

  /** The mailbox a joining node brings along is empty, or will be overwritten by a stored message. */
  predicate CleanJoin(h: Hub, n: NodeId, topic: string)
    requires n in h.nodes
  {
    h.nodes[n].mailbox.None? ||
    Acquire(h.registry, n, KeyFor(h.nodes[n].rosNode, topic)).held[n] in h.lastMessage
  }

  lemma AttachMail(strict: bool, h: Hub, n: NodeId, topic: string, a: RegistryState)
    requires Good(strict, h) && n in h.nodes && n !in h.registry.held
    requires Acquired(h.registry, a, n, KeyFor(h.nodes[n].rosNode, topic))
    requires h.nodes[n].mailbox.None? || a.held[n] in h.lastMessage
    ensures Mail(strict, Attach(h, n, topic, a))
  {
  }

  lemma SubscribeGood(strict: bool, h: Hub, n: NodeId, topic: string)
    requires Good(strict, h) && n in h.nodes && n !in h.registry.held && CleanJoin(h, n, topic)
    ensures Good(strict, Subscribe(h, n, topic)) && n in Subscribe(h, n, topic).registry.held
  {
    var key := KeyFor(h.nodes[n].rosNode, topic);
    AcquireShape(h.registry, n, key);
    AttachWiring(h, n, topic);
    AttachMail(strict, h, n, topic, Acquire(h.registry, n, key));
  }

  lemma DetachMail(v: Variant, strict: bool, h: Hub, n: NodeId, a: RegistryState)
    requires Good(strict, h) && n in h.nodes && Released(h.registry, a, n) && (strict ==> v.Repaired?)
    ensures Mail(strict, Detach(v, h, n, a))
  {
  }

  lemma RemovedMail(strict: bool, h: Hub, n: NodeId, a: RegistryState)
    requires Good(strict, h) && n in h.nodes && Released(h.registry, a, n)
    ensures Mail(strict, Removed(h, n, a))
  {
  }

  lemma ResetGood(v: Variant, strict: bool, h: Hub, n: NodeId)
    requires Good(strict, h) && n in h.nodes && n in h.registry.held
    requires v.Repaired? || (SoleHolder(h.registry, n) && !strict)
    ensures Good(strict, Reset(v, h, n))
  {
    ReleaseShape(h.registry, n);
    ResetWiring(v, h, n);
    DetachMail(v, strict, h, n, Release(h.registry, n));
  }

  lemma ProcessGood(strict: bool, h: Hub, n: NodeId, i: TickInput)
    requires Good(strict, h) && n in h.nodes && n in h.registry.held
    ensures Good(strict, Process(h, n, i))
  {
    var s := Process(h, n, i);
    forall k: NodeId ensures Wired(s, k) {
      assert Wired(h, k);
    }
  }

  lemma DestroyedGood(strict: bool, h: Hub, n: NodeId)
    requires Good(strict, h) && n in h.nodes
    ensures Good(strict, Destroyed(h, n))
  {
    ReleaseShape(h.registry, n);
    DestroyedWiring(h, n);
    RemovedMail(strict, h, n, Release(h.registry, n));
  }

  // ---------- every step ----------

  /** The node keeps the topic it has: its tick does not reset its instance. */
  predicate Steady(h: Hub, step: Step) {
    step.TickStep? && step.node in h.nodes && step.node in h.registry.held ==> !Switches(h, step.node, step.input.port)
  }

  /** As written, a switch must be by the sole holder, and a join's mailbox empty or overwritten in time. */
  predicate SoundSwitch(h: Hub, step: Step) {
    step.TickStep? && step.node in h.nodes ==>
      var n, i := step.node, step.input;
      && (n in h.registry.held && Switches(h, n, i.port) ==> SoleHolder(h.registry, n))
      && (Joins(h, n, i) ==> i.arrivals != [] || CleanJoin(Prepared(AsWritten, h, i, n), n, i.port))
  }

  /** The tick subscribes: the node holds no instance, or gives up the one it holds, and nothing throws. */
  predicate Joins(h: Hub, n: NodeId, i: TickInput)
    requires n in h.nodes
  {
    !Refuses(Prepared(AsWritten, h, i, n), n, i.port, i.nodeAlive)
  }

  /** The hypotheses under which a step is proved safe; the repaired code needs none. */
  predicate Safe(v: Variant, strict: bool, h: Hub, step: Step) {
    if strict then v.Repaired? || Steady(h, step) else v.AsWritten? && SoundSwitch(h, step)
  }

  lemma AttendGood(strict: bool, h: Hub, n: NodeId, i: TickInput)
    requires Good(strict, h) && n in h.nodes && n in h.registry.held
    ensures Good(strict, Attend(h, n, i))
  {
    SpinGood(strict, h, n, i.arrivals);
    var s := Spin(h, h.registry.held[n], i.arrivals);
    if n in s.nodes {
      ProcessGood(strict, s, n, i);
    }
  }

  function WithMailbox(h: Hub, n: NodeId, box: Option<Message>): Hub
    requires n in h.nodes
  {
    h.(nodes := h.nodes[n := h.nodes[n].(mailbox := box)])
  }

  /** Hub `h` with an empty mailbox for `n`. */
  function Emptied(h: Hub, n: NodeId): Hub
    requires n in h.nodes
  {
    WithMailbox(h, n, None)
  }

  lemma EmptiedGood(h: Hub, n: NodeId)
    requires Good(false, h) && n in h.nodes && n !in h.registry.held
    ensures Good(false, Emptied(h, n))
  {
    forall k: NodeId ensures Wired(Emptied(h, n), k) {
      assert Wired(h, k);
    }
  }

  /** The mailbox a node brings along does not matter once a message has come on its new instance. */
  lemma ArrivalOverwrites(h: Hub, n: NodeId, topic: string, a: RegistryState, m: Message)
    requires n in h.nodes && n in a.held
    ensures Broadcast(Attach(h, n, topic, a), a.held[n], m) ==
            Broadcast(Attach(Emptied(h, n), n, topic, a), a.held[n], m)
  {
    var s, t := Attach(h, n, topic, a), Attach(Emptied(h, n), n, topic, a);
    assert t == WithMailbox(s, n, t.nodes[n].mailbox);
    BroadcastFillsMailbox(s, n, a.held[n], m, t.nodes[n].mailbox);
  }

  lemma BroadcastFillsMailbox(h: Hub, n: NodeId, i: InstanceId, m: Message, box: Option<Message>)
    requires n in h.nodes && n in SlotsOf(h, i)
    ensures Broadcast(WithMailbox(h, n, box), i, m) == Broadcast(h, i, m)
  {
    var w := WithMailbox(h, n, box);
    assert AllExist(SlotsOf(w, i), w.nodes) <==> AllExist(SlotsOf(h, i), h.nodes);
    assert Broadcast(w, i, m).nodes == Broadcast(h, i, m).nodes;
  }

  lemma JoinGood(strict: bool, h: Hub, n: NodeId, i: TickInput)
    requires Good(strict, h) && n in h.nodes && n !in h.registry.held
    requires CleanJoin(h, n, i.port) || (!strict && i.arrivals != [])
    ensures n in Subscribe(h, n, i.port).registry.held && Good(strict, Attend(Subscribe(h, n, i.port), n, i))
  {
    if CleanJoin(h, n, i.port) {
      SubscribeGood(strict, h, n, i.port);
      AttendGood(strict, Subscribe(h, n, i.port), n, i);
    } else {
      EmptiedGood(h, n);
      SubscribeGood(false, Emptied(h, n), n, i.port);
      AttendGood(false, Subscribe(Emptied(h, n), n, i.port), n, i);
      ArrivingJoinIsClean(h, n, i);
    }
  }

  lemma ArrivingJoinIsClean(h: Hub, n: NodeId, i: TickInput)
    requires Valid(h.registry) && n in h.nodes && n !in h.registry.held && i.arrivals != []
    ensures n in Subscribe(h, n, i.port).registry.held && n in Subscribe(Emptied(h, n), n, i.port).registry.held
    ensures Attend(Subscribe(h, n, i.port), n, i) == Attend(Subscribe(Emptied(h, n), n, i.port), n, i)
  {
    var key := KeyFor(h.nodes[n].rosNode, i.port);
    AcquireShape(h.registry, n, key);
    ArrivalOverwrites(h, n, i.port, Acquire(h.registry, n, key), i.arrivals[0]);
  }

  lemma TickGood(v: Variant, strict: bool, h: Hub, n: NodeId, i: TickInput)
    requires Good(strict, h) && n in h.nodes && Safe(v, strict, h, TickStep(n, i))
    ensures Good(strict, Tick(v, h, n, i))
  {
    var p := Prepared(v, h, i, n);
    if Switches(h, n, i.port) && n in h.registry.held {
      ResetGood(v, strict, h, n);
    }
    if n in p.registry.held {
      AttendGood(strict, p, n, i);
    } else if n in p.nodes && !Refuses(p, n, i.port, i.nodeAlive) {
      JoinGood(strict, p, n, i);
    }
  }

  lemma MadeWiring(h: Hub, rosNode: string)
    requires Wiring(h)
    ensures Wiring(Made(h, rosNode)) && h.born !in h.registry.held
  {
    assert Wired(h, h.born);
    forall k: NodeId ensures Wired(Made(h, rosNode), k) {
      assert Wired(h, k);
    }
  }

  lemma MadeMail(strict: bool, h: Hub, rosNode: string)
    requires Mail(strict, h) && h.born !in h.registry.held
    ensures Mail(strict, Made(h, rosNode))
  {
  }

  lemma MadeGood(strict: bool, h: Hub, rosNode: string)
    requires Good(strict, h)
    ensures Good(strict, Made(h, rosNode)) && h.born !in h.registry.held
  {
    MadeWiring(h, rosNode);
    MadeMail(strict, h, rosNode);
  }

  lemma SkippedGood(strict: bool, h: Hub)
    requires Good(strict, h)
    ensures Good(strict, Unborn(h))
  {
    forall k: NodeId ensures Wired(Unborn(h), k) {
      assert Wired(h, k);
    }
  }

  lemma ConstructedGood(strict: bool, h: Hub, rosNode: string, topic: Option<string>, nodeAlive: bool)
    requires Good(strict, h)
    ensures Good(strict, Constructed(h, rosNode, topic, nodeAlive))
  {
    var made := Made(h, rosNode);
    MadeGood(strict, h, rosNode);
    if topic.None? {
    } else if Refuses(made, h.born, topic.value, nodeAlive) {
      SkippedGood(strict, h);
    } else {
      SubscribeGood(strict, made, h.born, topic.value);
    }
  }

  lemma ExecGood(v: Variant, strict: bool, h: Hub, step: Step)
    requires Good(strict, h) && Safe(v, strict, h, step)
    ensures Good(strict, Exec(v, h, step))
  {
    match step
    case Construct(rosNode, topic, alive) => ConstructedGood(strict, h, rosNode, topic, alive);
    case TickStep(n, i) =>
      if n in h.nodes {
        TickGood(v, strict, h, n, i);
      }
    case Destroy(n) =>
      if n in h.nodes {
        DestroyedGood(strict, h, n);
      }
  }

  predicate SafeRun(v: Variant, strict: bool, h: Hub, steps: seq<Step>)
    decreases steps
  {
    steps != [] ==> Safe(v, strict, h, steps[0]) && SafeRun(v, strict, Exec(v, h, steps[0]), steps[1..])
  }

  lemma {:induction false} RunGood(v: Variant, strict: bool, h: Hub, steps: seq<Step>)
    requires Good(strict, h) && SafeRun(v, strict, h, steps)
    ensures Good(strict, Run(v, h, steps))
    decreases steps
  {
    if steps != [] {
      ExecGood(v, strict, h, steps[0]);
      RunGood(v, strict, Exec(v, h, steps[0]), steps[1..]);
    }
  }

  // ---------- main results ----------

  lemma NothingIsGood(strict: bool)
    ensures Good(strict, NOTHING)
  {
    assert forall i: InstanceId :: Holders(EMPTY.held, i) == {};
    forall n: NodeId ensures Wired(NOTHING, n) {
    }
  }

  /** As written, when every node keeps its topic: onTick is given exactly the unread message. */
  lemma MailboxOfSteadyRuns(steps: seq<Step>)
    requires SafeRun(AsWritten, true, NOTHING, steps)
    ensures var h := Run(AsWritten, NOTHING, steps); Faithful(h.trace) && Isolated(h) && !h.faulted
  {
    NothingIsGood(true);
    RunGood(AsWritten, true, NOTHING, steps);
  }

  /** As written, also when topics change, provided every switch and every join is sound. */
  lemma MailboxOfSoundRuns(steps: seq<Step>)
    requires SafeRun(AsWritten, false, NOTHING, steps)
    ensures var h := Run(AsWritten, NOTHING, steps); Faithful(h.trace) && Isolated(h) && !h.faulted
  {
    NothingIsGood(false);
    RunGood(AsWritten, false, NOTHING, steps);
  }

  lemma {:induction false} RepairedRunsAreSafe(h: Hub, steps: seq<Step>)
    ensures SafeRun(Repaired, true, h, steps)
    decreases steps
  {
    if steps != [] {
      RepairedRunsAreSafe(Exec(Repaired, h, steps[0]), steps[1..]);
    }
  }

  /** Disconnecting first: unread messages only, own instance only, no destroyed receiver, on every run. */
  lemma RepairedTopics(steps: seq<Step>)
    ensures var h := Run(Repaired, NOTHING, steps); Faithful(h.trace) && Isolated(h) && !h.faulted
  {
    NothingIsGood(true);
    RepairedRunsAreSafe(NOTHING, steps);
    RunGood(Repaired, true, NOTHING, steps);
  }

  /** The tick changes no topic. */
  predicate Stays(h: Hub, n: NodeId, i: TickInput) {
    n in h.nodes && n in h.registry.held && !Switches(h, n, i.port)
  }

  /**
    Two ticks of a node with nothing new in between: the second one is given the same message again
    if the first one latched or threw, and nothing otherwise.
   */
  lemma LatchRepeatsMessage(v: Variant, h: Hub, n: NodeId, i: TickInput, j: TickInput)
    requires Good(true, h) && Stays(h, n, i) && Stays(Tick(v, h, n, i), n, j) && j.arrivals == []
    ensures var t := Tick(v, h, n, i);
            var u := Tick(v, t, n, j);
            && t.trace.Then? && t.trace.last.Ticked? && t.trace.last.node == n
            && u.trace.Then? && u.trace.last.Ticked? && u.trace.last.node == n
            && u.trace.last.shown == (if i.latch || !i.verdict.Completed() then t.trace.last.shown else None)
            && (i.arrivals != [] ==> t.trace.last.shown == Some(i.arrivals[|i.arrivals| - 1]))
  {
    var a := Spin(h, h.registry.held[n], i.arrivals);
    SpinGood(true, h, n, i.arrivals);
    SpinFrame(h, h.registry.held[n], i.arrivals);
    assert Wired(h, n);
    SpinKeepsLast(h, n, i.arrivals);
    assert Tick(v, h, n, i) == Process(a, n, i);
    var t := Tick(v, h, n, i);
    assert Attend(t, n, j) == Process(t, n, j);
  }

  lemma {:induction false} SpinFrame(h: Hub, i: InstanceId, ms: seq<Message>)
    ensures var s := Spin(h, i, ms);
            s.registry == h.registry && s.slots == h.slots && s.nodes.Keys == h.nodes.Keys
    decreases ms
  {
    if ms != [] {
      SpinFrame(Broadcast(h, i, ms[0]), i, ms[1..]);
    }
  }

  /** The last message of a spin is the one that stays in the mailbox of a subscriber. */
  lemma {:induction false} SpinKeepsLast(h: Hub, n: NodeId, ms: seq<Message>)
    requires n in h.nodes && n in h.registry.held && n in SlotsOf(h, h.registry.held[n])
    ensures var s := Spin(h, h.registry.held[n], ms);
            n in s.nodes && (ms != [] ==> s.nodes[n].mailbox == Some(ms[|ms| - 1]))
    decreases ms
  {
    if ms != [] {
      SpinKeepsLast(Broadcast(h, h.registry.held[n], ms[0]), n, ms[1..]);
    }
  }
}
