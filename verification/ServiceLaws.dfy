/**
  What RosServiceNode does at its interfaces, told by the members before a step and its inputs: when
  a request times out, which service it goes to, and what an activation, a shutdown and a halt report.
 */
module ServiceLaws {
  import opened Common
  import opened ServiceNode
  import opened ServiceRuns

  // ---------- the timeout ----------

  /** The time that passes in a run. */
  function Duration(steps: seq<Step>): nat {
    if steps == [] then 0
    else (if steps[0].TickStep? then steps[0].input.elapsed else 0) + Duration(steps[1..])
  }

  /** The step from `s` to `t` has begun an activation and sent its request. */
  predicate SendsRequest(s: Sys, t: Sys) {
    t.trace != s.trace && t.trace.Then? && t.trace.last.Sent? && t.trace.past == Then(s.trace, SetRequest)
  }

  /** The reply to request `g` is in, or comes in during the tick. */
  predicate Replied(s: Sys, i: TickInput, g: RequestId) {
    g in s.peer.replies || exists r | r in i.someSpin + i.futureSpin :: r.request == g
  }

  /** A request is sent at the time of its tick. */
  lemma SentNow(s: Sys, i: TickInput)
    requires !s.faulted && s.node.status.Idle? && SendsRequest(s, Exec(s, TickStep(i)))
    ensures var t := Exec(s, TickStep(i));
            && t.trace.last.at == t.peer.clock == t.node.timeSent == s.peer.clock + i.elapsed
            && t.trace.last.request == s.peer.next && t.node.future == Some(s.peer.next)
            && t.peer.next == s.peer.next + 1 && t.peer.replies == s.peer.replies
            && t.node.timeoutMs == s.node.timeoutMs && t.node.status.Running? && t.node.client.Some?
            && !t.node.responseReceived && !t.faulted
  {
  }

  lemma {:induction false} WaitingKeepsTime(s: Sys, steps: seq<Step>)
    requires Waits(s, steps) && (forall step | step in steps :: Spaced(step, 0))
    ensures var t := Run(s, steps);
            && Waits(t, [])
            && t.peer.clock == s.peer.clock + Duration(steps)
            && t.node.timeSent == s.node.timeSent && t.node.timeoutMs == s.node.timeoutMs
            && t.node.future == s.node.future && s.peer.next <= t.peer.next
    decreases steps
  {
    if steps != [] {
      var step := steps[0];
      assert step in steps;
      WaitingKeepsTime(Exec(s, step), steps[1..]);
      if step.TickStep? {
        TickChecksTimeout(s, step.input);
        ContinueGrows(Elapse(s, step.input.elapsed), step.input);
      } else if step.OtherSpin? {
        SpinFrame(s, step.replies);
      }
    }
  }

  lemma ContinueGrows(s: Sys, i: TickInput)
    ensures Continue(s, i).s.peer.next == s.peer.next
  {
    SpinFrame(s, i.someSpin);
    var t := Spin(s, i.someSpin);
    if t.node.future.Some? {
      SpinUntilFrame(t, i.futureSpin, t.node.future.value);
    }
  }

  lemma {:induction false} SpinReplies(s: Sys, rs: seq<Reply>, g: RequestId)
    requires g < s.peer.next
    ensures g in Spin(s, rs).peer.replies <==> g in s.peer.replies || exists r | r in rs :: r.request == g
    decreases rs
  {
    if rs != [] {
      SpinReplies(Deliver(s, rs[0]), rs[1..], g);
      assert forall r :: r in rs <==> r == rs[0] || r in rs[1..];
    }
  }

  lemma {:induction false} SpinUntilReplies(s: Sys, rs: seq<Reply>, g: RequestId)
    requires g < s.peer.next
    ensures g in SpinUntil(s, rs, g).peer.replies <==> g in s.peer.replies || exists r | r in rs :: r.request == g
    decreases rs
  {
    if g !in s.peer.replies && rs != [] {
      SpinUntilReplies(Deliver(s, rs[0]), rs[1..], g);
      assert forall r :: r in rs <==> r == rs[0] || r in rs[1..];
    }
  }

  /**
    Over runs: counted from the tick that sends, an activation that still waits reports
    SERVICE_TIMEOUT at a tick exactly when no reply is in by then and the time that has passed
    exceeds the timeout; without a reply and in time it stays RUNNING and calls nothing.
   */
  lemma TimeoutIsExact(s: Sys, i: TickInput, steps: seq<Step>, j: TickInput)
    requires !s.faulted && s.node.status.Idle? && SendsRequest(s, Exec(s, TickStep(i)))
    requires Waits(Exec(s, TickStep(i)), steps) && (forall step | step in steps :: Spaced(step, 0)) && j.rosOk
    ensures var g := s.peer.next;
            var u := Run(Exec(s, TickStep(i)), steps);
            var w := Exec(u, TickStep(j));
            var late := Duration(steps) + j.elapsed > s.node.timeoutMs * 1_000_000;
            && (w.trace == Then(u.trace, Failed(ServiceTimeout)) <==> !Replied(u, j, g) && late)
            && (!Replied(u, j, g) && late ==> w.node.status == if j.onFailure.Completed() then j.onFailure else Running)
            && (!Replied(u, j, g) && !late ==> w.node.status.Running? && w.trace == u.trace)
  {
    SentNow(s, i);
    var t, g := Exec(s, TickStep(i)), s.peer.next;
    WaitingKeepsTime(t, steps);
    var u := Run(t, steps);
    var e := Elapse(u, j.elapsed);
    assert EnsureClient(e.node, j) == Some(e.node);
    SpinFrame(e, j.someSpin);
    SpinUntilFrame(Spin(e, j.someSpin), j.futureSpin, g);
    SpinReplies(e, j.someSpin, g);
    SpinUntilReplies(Spin(e, j.someSpin), j.futureSpin, g);
    assert forall r :: r in j.someSpin + j.futureSpin <==> r in j.someSpin || r in j.futureSpin;
    LastIsNew(u.trace, Failed(ServiceTimeout));
  }

  // ---------- the name in the port ----------

  /** The tick makes a client for the name in the port: there is none yet, or the name is read at each start. */
  predicate AsksForPort(n: Node, i: TickInput) {
    (n.client.None? || (n.status.Idle? && n.nameChecked)) && n.name != i.port
  }

  predicate Usable(name: string) {
    name != "" && name != "__default__placeholder__"
  }

  /** After the check of the port the node has a client; otherwise the tick throws. */
  predicate GetsClient(n: Node, i: TickInput) {
    if AsksForPort(n, i) then Usable(i.port) && i.rosNodeAlive else n.client.Some?
  }

  /** Which client the node has and which name it remembers after a step. */
  lemma ClientAfterStep(s: Sys, step: Step)
    requires !s.faulted && (s.node.status.Running? ==> s.node.client.Some?)
    ensures var t := Exec(s, step);
            match step
            case TickStep(i) =>
              var ticked := i.rosOk && (s.node.status.Idle? || s.node.status.Running?);
              if ticked && AsksForPort(s.node, i) && GetsClient(s.node, i)
              then t.node.client == Some(i.port) && t.node.name == i.port
              else t.node.client == s.node.client && t.node.name == s.node.name
            case Rename(name, alive) =>
              t.node.name == name && t.node.client == if Usable(name) && alive then Some(name) else s.node.client
            case _ => t.node.client == s.node.client && t.node.name == s.node.name
    ensures Exec(s, step).node.nameChecked == s.node.nameChecked
    ensures Exec(s, step).node.status.Running? ==> Exec(s, step).node.client.Some?
  {
    match step
    case TickStep(i) =>
      var e := Elapse(s, i.elapsed);
      if i.rosOk && s.node.status.Running? {
        assert EnsureClient(e.node, i) == Some(e.node);
        ContinueKeepsName(e, i);
      }
    case OtherSpin(rs) => SpinFrame(s, rs);
    case _ =>
  }

  lemma ContinueKeepsName(s: Sys, i: TickInput)
    ensures var n := Continue(s, i).s.node;
            n.client == s.node.client && n.name == s.node.name && n.nameChecked == s.node.nameChecked
  {
    SpinFrame(s, i.someSpin);
    var t := Spin(s, i.someSpin);
    if t.node.future.Some? {
      SpinUntilFrame(t, i.futureSpin, t.node.future.value);
    }
  }

  function Length(t: Trace): nat {
    if t.Start? then 0 else Length(t.past) + 1
  }

  lemma TwoMore(t: Trace, a: Event, b: Event)
    ensures Then(Then(t, a), b) != t
  {
    assert Length(Then(Then(t, a), b)) == Length(Then(t, a)) + 1 == Length(t) + 2;
  }

  /** Requests are sent by the first tick of an activation only, and to the client the node then has. */
  lemma RequestGoesToClient(s: Sys, step: Step)
    requires !s.faulted && (s.node.status.Running? ==> s.node.client.Some?)
    requires Exec(s, step).peer.next != s.peer.next
    ensures var t := Exec(s, step);
            && step.TickStep? && s.node.status.Idle? && SendsRequest(s, t)
            && t.trace.last.to == t.node.client
            && t.trace.last.to == if AsksForPort(s.node, step.input) then Some(step.input.port) else s.node.client
  {
    match step
    case TickStep(i) =>
      var e := Elapse(s, i.elapsed);
      if i.rosOk && s.node.status.Running? {
        assert EnsureClient(e.node, i) == Some(e.node);
        ContinueGrows(e, i);
      } else {
        TwoMore(s.trace, SetRequest, Exec(s, step).trace.last);
      }
    case OtherSpin(rs) => SpinFrame(s, rs);
    case _ =>
  }

  /** Every rename of the run succeeds, as far as the name and the ROS node are concerned. */
  predicate RenamesSucceed(steps: seq<Step>) {
    forall step | step in steps :: step.Rename? ==> Usable(step.name) && step.rosNodeAlive
  }

  predicate NameIsClient(s: Sys) {
    && (s.node.client.Some? ==> s.node.client.value == s.node.name)
    && (s.node.status.Running? ==> s.node.client.Some?)
  }

  lemma {:induction false} NamesAgree(s: Sys, steps: seq<Step>)
    requires NameIsClient(s) && RenamesSucceed(steps)
    ensures NameIsClient(Run(s, steps))
    decreases steps
  {
    if steps != [] {
      assert steps[0] in steps;
      if !s.faulted {
        ClientAfterStep(s, steps[0]);
      }
      NamesAgree(Exec(s, steps[0]), steps[1..]);
    }
  }

  /**
    Over every run from a new node in which renames succeed: a node whose name is read at each start
    sends to the service its port names at that tick; any other node sends to the client it has, and
    only a node without one takes the name from the port.
   */
  lemma RequestsFollowPort(s0: Sys, steps: seq<Step>, i: TickInput)
    requires Initial(s0) && NameIsClient(s0) && RenamesSucceed(steps)
    requires var s := Run(s0, steps); !s.faulted && Exec(s, TickStep(i)).peer.next != s.peer.next
    ensures var s := Run(s0, steps);
            SendsRequest(s, Exec(s, TickStep(i))) &&
            var to := Exec(s, TickStep(i)).trace.last.to;
            && (s.node.nameChecked ==> to == Some(i.port))
            && (!s.node.nameChecked ==> to == if s.node.client.Some? then s.node.client else Some(i.port))
  {
    NamesAgree(s0, steps);
    RequestGoesToClient(Run(s0, steps), TickStep(i));
  }

  /** The constructor: the static name of the port, else the default, else no client; and when it throws. */
  lemma ConstructorChoice(timeoutMs: nat, port: PortText, default: string, rosNodeAlive: bool)
    ensures var made := Constructed(timeoutMs, port, default, rosNodeAlive);
            var wanted := if port.Static? && port.name != "" then port.name else default;
            && (made.None? <==> wanted != "" && !(Usable(wanted) && rosNodeAlive))
            && (made.Some? ==>
                  && made.value.client == (if wanted != "" then Some(wanted) else None)
                  && made.value.name == wanted
                  && made.value.nameChecked == port.Pointer? && made.value.timeoutMs == timeoutMs)
  {
  }

  // ---------- what an activation, a shutdown and a halt report ----------

  /** The first tick of an activation: what it calls, in order, and the status it leaves. */
  lemma FirstTick(s: Sys, i: TickInput)
    requires !s.faulted && s.node.status.Idle? && i.rosOk
    ensures var t := Exec(s, TickStep(i));
            var began := Then(s.trace, SetRequest);
            if !GetsClient(s.node, i) then t.trace == s.trace && t.node.status.Idle?
            else if !i.requestSet then
              && t.trace == Then(began, Failed(InvalidRequest))
              && t.node.status == if i.onFailure.Completed() then i.onFailure else Running
            else if !i.serverReady then
              t.trace == Then(began, Failed(ServiceUnreachable)) && t.node.status == i.onFailure
            else SendsRequest(s, t) && t.node.status.Running?
  {
    TwoMore(s.trace, SetRequest, Sent(s.peer.next, s.peer.clock + i.elapsed, Exec(s, TickStep(i)).node.client));
  }

  /** After a shutdown a tick ends with FAILURE and calls nothing; so does a halt, which leaves the node IDLE. */
  lemma ShutdownAndHalt(s: Sys, i: TickInput)
    requires !s.faulted && !i.rosOk && (s.node.status.Idle? || s.node.status.Running?)
    ensures var t, h := Exec(s, TickStep(i)), Exec(s, HaltStep);
            && t.node.status.Failure? && t.trace == s.trace && !t.faulted
            && h.node.status.Idle? && h.trace == s.trace && !h.faulted
            && !Halt(s).node.status.Running?
  {
  }

  /** Over any callbacks: a verdict is taken when SUCCESS or FAILURE, else the tick throws and stays RUNNING. */
  lemma ResponseVerdictIsTaken(s: Sys, i: TickInput)
    requires !s.faulted && s.node.status.Running? && s.node.client.Some? && i.rosOk
    requires var t := Exec(s, TickStep(i)); t.trace != s.trace && t.trace.Then? && !t.faulted
    ensures var t := Exec(s, TickStep(i));
            && (t.trace.last.Responded? || t.trace.last == Failed(ServiceTimeout)) && t.trace.past == s.trace
            && t.node.status == (var verdict := if t.trace.last.Responded? then i.onResponse else i.onFailure;
                                 if verdict.Completed() then verdict else Running)
  {
    var e := Elapse(s, i.elapsed);
    assert EnsureClient(e.node, i) == Some(e.node);
    SpinFrame(e, i.someSpin);
    var t := Spin(e, i.someSpin);
    if t.node.future.Some? {
      SpinUntilFrame(t, i.futureSpin, t.node.future.value);
    }
  }
}
