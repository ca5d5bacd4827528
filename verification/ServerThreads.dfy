/**
  TreeExecutionServer::handle_accepted and the worker threads it starts, as interleaved steps.
  Accept callbacks are serialised: a new one begins only after the previous one has returned.
 */
module ServerThreads {
  import opened Common

  type GoalId = nat

  /** Where a worker is in execute: the three assignments to the shared members come one by one. */
  datatype Pc = Entered | TreeSet | NameSet | Working | Exited

  datatype Thread = Thread(goal: GoalId, pc: Pc)

  /** The accept callback: not running, waiting in join, or about to start the new thread. */
  datatype Acceptor = Free | Joining(goal: GoalId) | Joined(goal: GoalId)

  /** `actionThread` is the member action_thread: the thread it can join, if any. */
  datatype Server = Server(
    acceptor: Acceptor,
    threads: seq<Thread>,
    actionThread: Option<nat>,
    tree: Option<GoalId>,
    treeName: Option<GoalId>,
    payload: Option<GoalId>,
    accepted: seq<GoalId>,
    terminated: bool)

  const BOOT: Server := Server(Free, [], None, None, None, None, [], false)

  /** `Work` is one step of a worker; `raises` says that createTree throws. */
  datatype Step =
    | Accept(goal: GoalId)
    | Join
    | Spawn
    | Work(thread: nat, raises: bool)

  function SetPc(s: Server, k: nat, pc: Pc): Server
    requires k < |s.threads|
  {
    s.(threads := s.threads[k := s.threads[k].(pc := pc)])
  }

  function WorkStep(s: Server, k: nat, raises: bool): Server
    requires k < |s.threads|
  {
    var g := Some(s.threads[k].goal);
    match s.threads[k].pc
    case Entered => if raises then SetPc(s, k, Exited) else SetPc(s, k, TreeSet).(tree := g)
    case TreeSet => SetPc(s, k, NameSet).(treeName := g)
    case NameSet => SetPc(s, k, Working).(payload := g)
    case Working => SetPc(s, k, Exited)
    case Exited => s
  }

  /** join returns when the thread has exited; a thread that was never started is not joinable. */
  predicate CanJoin(s: Server) {
    s.actionThread.None? ||
    (s.actionThread.value < |s.threads| && s.threads[s.actionThread.value].pc.Exited?)
  }

  /** Assigning over a joinable thread terminates the process. */
  function SpawnStep(s: Server, g: GoalId): Server {
    if s.actionThread.Some? then s.(terminated := true)
    else s.(threads := s.threads + [Thread(g, Entered)], actionThread := Some(|s.threads|), acceptor := Free)
  }

  /** A step that is not enabled changes nothing. */
  function Exec(s: Server, step: Step): Server {
    if s.terminated then s else
    match step
    case Accept(g) => if s.acceptor.Free? then s.(acceptor := Joining(g), accepted := s.accepted + [g]) else s
    case Join =>
      if s.acceptor.Joining? && CanJoin(s) then s.(acceptor := Joined(s.acceptor.goal), actionThread := None) else s
    case Spawn => if s.acceptor.Joined? then SpawnStep(s, s.acceptor.goal) else s
    case Work(k, raises) => if k < |s.threads| then WorkStep(s, k, raises) else s
  }

  function Run(s: Server, steps: seq<Step>): Server
    decreases steps
  {
    if steps == [] then s else Run(Exec(s, steps[0]), steps[1..])
  }

  // ---------- what holds over every interleaving ----------

  function Goals(ts: seq<Thread>): seq<GoalId> {
    if ts == [] then [] else Goals(ts[..|ts| - 1]) + [ts[|ts| - 1].goal]
  }

  /** The goal whose accept callback has not started its thread yet. */
  function Pending(s: Server): seq<GoalId> {
    if s.acceptor.Free? then [] else [s.acceptor.goal]
  }

  /** A worker in its loop sees its own tree, name and payload. */
  predicate OwnMembers(s: Server, t: Thread) {
    && (t.pc.TreeSet? || t.pc.NameSet? || t.pc.Working? ==> s.tree == Some(t.goal))
    && (t.pc.NameSet? || t.pc.Working? ==> s.treeName == Some(t.goal))
    && (t.pc.Working? ==> s.payload == Some(t.goal))
  }

  predicate Serial(s: Server) {
    && !s.terminated
    && Goals(s.threads) + Pending(s) == s.accepted
    && (s.actionThread.Some? ==> s.actionThread.value + 1 == |s.threads|)
    && (s.acceptor.Joined? ==> s.actionThread.None?)
    && (forall k | 0 <= k < |s.threads| :: s.actionThread != Some(k) ==> s.threads[k].pc.Exited?)
    && (forall k | 0 <= k < |s.threads| :: OwnMembers(s, s.threads[k]))
  }

  lemma {:induction false} GoalsOfUpdated(ts: seq<Thread>, k: nat, pc: Pc)
    requires k < |ts|
    ensures Goals(ts[k := ts[k].(pc := pc)]) == Goals(ts)
  {
    var us, n := ts[k := ts[k].(pc := pc)], |ts| - 1;
    if k == n {
      assert us[..n] == ts[..n];
    } else {
      assert us[..n] == ts[..n][k := ts[k].(pc := pc)];
      GoalsOfUpdated(ts[..n], k, pc);
    }
  }

  lemma WorkSerial(s: Server, k: nat, raises: bool)
    requires Serial(s) && k < |s.threads|
    ensures Serial(WorkStep(s, k, raises))
  {
    var t := WorkStep(s, k, raises);
    GoalsOfUpdated(s.threads, k, t.threads[k].pc);
    assert s.threads == s.threads[k := s.threads[k]];
  }

  lemma SpawnSerial(s: Server)
    requires Serial(s) && s.acceptor.Joined?
    ensures Serial(SpawnStep(s, s.acceptor.goal))
  {
    var t := SpawnStep(s, s.acceptor.goal);
    assert t.threads[..|s.threads|] == s.threads;
  }

  lemma {:induction false} RunSerial(s: Server, steps: seq<Step>)
    requires Serial(s)
    ensures Serial(Run(s, steps))
    decreases steps
  {
    if steps != [] {
      match steps[0] {
        case Work(k, raises) =>
          if k < |s.threads| {
            WorkSerial(s, k, raises);
          }
        case Spawn =>
          if s.acceptor.Joined? {
            SpawnSerial(s);
          }
        case _ =>
      }
      RunSerial(Exec(s, steps[0]), steps[1..]);
    }
  }

  /**
    Over every interleaving: the process is never terminated by a second thread, at most one
    execute runs at a time, goals run in the order of acceptance with none lost or repeated, and a
    running goal sees its own tree, name and payload.
   */
  lemma SerialisedExecution(steps: seq<Step>)
    ensures var s := Run(BOOT, steps);
            && !s.terminated
            && Goals(s.threads) + Pending(s) == s.accepted
            && (forall k | 0 <= k < |s.threads| - 1 :: s.threads[k].pc.Exited?)
            && (forall k | 0 <= k < |s.threads| :: OwnMembers(s, s.threads[k]))
  {
    RunSerial(BOOT, steps);
  }

  // ---------- progress ----------

  predicate AllExited(s: Server) {
    forall k | 0 <= k < |s.threads| :: s.threads[k].pc.Exited?
  }

  /** A waiting accept callback gets on with join exactly when every thread so far has exited. */
  lemma JoinIsExact(steps: seq<Step>)
    requires Run(BOOT, steps).acceptor.Joining?
    ensures var s := Run(BOOT, steps);
            var t := Exec(s, Join);
            if AllExited(s) then t.acceptor == Joined(s.acceptor.goal) && t.threads == s.threads else t == s
  {
    RunSerial(BOOT, steps);
  }

  /** Then its goal gets a thread of its own, after all others, and the next goal can be accepted. */
  lemma SpawnStartsGoal(steps: seq<Step>)
    requires Run(BOOT, steps).acceptor.Joined?
    ensures var s := Run(BOOT, steps);
            var t := Exec(s, Spawn);
            t.threads == s.threads + [Thread(s.acceptor.goal, Entered)] && t.acceptor.Free? && !t.terminated
  {
    RunSerial(BOOT, steps);
  }

  /** Without the join the assignment would end the process: a joinable thread must not be assigned over. */
  lemma AssigningOverThreadTerminates(s: Server)
    requires !s.terminated && s.acceptor.Joined?
    ensures Exec(s, Spawn).terminated <==> s.actionThread.Some?
  {
  }

  /** A goal is accepted exactly while no accept callback is running. */
  lemma AcceptIsExact(steps: seq<Step>, g: GoalId)
    ensures var s := Run(BOOT, steps);
            var t := Exec(s, Accept(g));
            if s.acceptor.Free?
            then t.accepted == s.accepted + [g] && t.acceptor == Joining(g) && t.threads == s.threads
            else t == s
  {
    RunSerial(BOOT, steps);
  }

  /** The steps a worker still has to make. */
  function Remaining(pc: Pc): nat {
    match pc
    case Entered => 4
    case TreeSet => 3
    case NameSet => 2
    case Working => 1
    case Exited => 0
  }

  /** Every step of a worker brings it closer to its end, and no other thread moves. */
  lemma WorkAdvances(s: Server, k: nat, raises: bool)
    requires !s.terminated && k < |s.threads|
    ensures var t := Exec(s, Work(k, raises));
            && |t.threads| == |s.threads| && t.acceptor == s.acceptor && t.accepted == s.accepted
            && t.threads[k].goal == s.threads[k].goal
            && Remaining(t.threads[k].pc) ==
               (if s.threads[k].pc.Exited? || (raises && s.threads[k].pc.Entered?) then 0
                else Remaining(s.threads[k].pc) - 1)
            && forall j | 0 <= j < |s.threads| :: j != k ==> t.threads[j] == s.threads[j]
  {
  }

  /** A worker whose createTree does not throw comes to its loop with its own tree, name and payload. */
  lemma WorkerComesToLoop(steps: seq<Step>, k: nat)
    requires var s := Run(BOOT, steps); k < |s.threads| && s.threads[k].pc.Entered?
    ensures var s, w := Run(BOOT, steps), Work(k, false);
            var t := Exec(Exec(Exec(s, w), w), w);
            && t.threads[k] == Thread(s.threads[k].goal, Working)
            && t.tree == t.treeName == t.payload == Some(s.threads[k].goal)
            && Exec(t, w).threads[k].pc.Exited?
  {
    RunSerial(BOOT, steps);
  }

  /** When createTree throws, the worker is done and the tree, name and payload of the server are as before. */
  lemma FailingWorkerTouchesNothing(s: Server, k: nat)
    requires !s.terminated && k < |s.threads| && s.threads[k].pc.Entered?
    ensures var t := Exec(s, Work(k, true));
            t.threads[k].pc.Exited? && t.tree == s.tree && t.treeName == s.treeName && t.payload == s.payload
  {
  }

  lemma {:induction false} RunAppend(s: Server, a: seq<Step>, b: seq<Step>)
    ensures Run(s, a + b) == Run(Run(s, a), b)
    decreases a
  {
    if a == [] {
      assert a + b == b;
    } else {
      assert (a + b)[1..] == a[1..] + b;
      RunAppend(Exec(s, a[0]), a[1..], b);
    }
  }

  predicate NoAccepts(steps: seq<Step>) {
    forall step | step in steps :: !step.Accept?
  }

  /** The last worker can run to its end. */
  lemma {:induction false} WorkersFinish(s: Server) returns (more: seq<Step>)
    requires Serial(s)
    ensures NoAccepts(more)
    ensures var t := Run(s, more); Serial(t) && AllExited(t) && t.acceptor == s.acceptor && t.accepted == s.accepted
    decreases if s.threads == [] then 0 else Remaining(s.threads[|s.threads| - 1].pc)
  {
    if AllExited(s) {
      more := [];
    } else {
      var k := |s.threads| - 1;
      var w := Work(k, false);
      assert !s.threads[k].pc.Exited?;
      WorkSerial(s, k, false);
      var rest := WorkersFinish(Exec(s, w));
      more := [w] + rest;
      assert more[1..] == rest;
    }
  }

  /** One step of the acceptor, then the workers run to their end. */
  lemma StepThenFinish(s: Server, step: Step) returns (more: seq<Step>)
    requires Serial(s) && Serial(Exec(s, step)) && !step.Accept?
    ensures NoAccepts(more)
    ensures var t := Run(s, more);
            Serial(t) && AllExited(t) && t.acceptor == Exec(s, step).acceptor && t.accepted == Exec(s, step).accepted
  {
    var rest := WorkersFinish(Exec(s, step));
    more := [step] + rest;
    assert more[1..] == rest;
  }

  /** Everything accepted has run to its end. */
  predicate AllDone(s: Server, t: Server) {
    t.accepted == s.accepted && Serial(t) && AllExited(t) && t.acceptor.Free?
  }

  lemma FinishJoined(s: Server) returns (more: seq<Step>)
    requires Serial(s) && s.acceptor.Joined?
    ensures NoAccepts(more) && AllDone(s, Run(s, more))
  {
    SpawnSerial(s);
    more := StepThenFinish(s, Spawn);
  }

  lemma FinishJoining(s: Server) returns (more: seq<Step>)
    requires Serial(s) && AllExited(s) && s.acceptor.Joining?
    ensures NoAccepts(more) && AllDone(s, Run(s, more))
  {
    var a := StepThenFinish(s, Join);
    var b := FinishJoined(Run(s, a));
    RunAppend(s, a, b);
    more := a + b;
  }

  lemma FinishAll(s: Server) returns (more: seq<Step>)
    requires Serial(s)
    ensures NoAccepts(more) && AllDone(s, Run(s, more))
  {
    var a := WorkersFinish(s);
    var t := Run(s, a);
    var b := [];
    if t.acceptor.Joining? {
      b := FinishJoining(t);
    } else if t.acceptor.Joined? {
      b := FinishJoined(t);
    }
    RunAppend(s, a, b);
    more := a + b;
  }

  /** Every run can be continued, with no further goal, until all accepted goals have run to their end. */
  lemma AcceptedGoalsFinish(steps: seq<Step>)
    ensures exists more :: NoAccepts(more) &&
              var s, t := Run(BOOT, steps), Run(BOOT, steps + more);
              t.accepted == s.accepted && Goals(t.threads) == s.accepted && AllExited(t) && t.acceptor.Free?
  {
    RunSerial(BOOT, steps);
    var s := Run(BOOT, steps);
    var more := FinishAll(s);
    RunAppend(BOOT, steps, more);
    var t := Run(BOOT, steps + more);
    assert t == Run(s, more) && Goals(t.threads) + [] == Goals(t.threads);
  }
}
