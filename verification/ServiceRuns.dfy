/** Whole runs of RosServiceNode: response ownership, one response per activation, bounded waiting. */
module ServiceRuns {
  import opened Common
  import opened ServiceNode

  // ---------- ownership, whatever the callbacks do ----------

  /** Every response shown is the reply to the request of the activation in which it is shown. */
  predicate Owned(replies: map<RequestId, Option<string>>, t: Trace) {
    t.Then? ==>
      && Owned(replies, t.past)
      && (t.last.Responded? ==>
            var r := t.last.reply;
            && Current(t.past) == Some(r.request)
            && r.request in replies && replies[r.request] == r.body)
  }

  ghost predicate Own(s: Sys) {
    && (forall g :: g in s.peer.replies ==> g < s.peer.next)
    && Owned(s.peer.replies, s.trace)
    && (s.node.status.Running? ==> OwnRunning(s))
  }

  ghost predicate OwnRunning(s: Sys) {
    && (s.node.future.Some? ==> Current(s.trace) == s.node.future && s.node.future.value < s.peer.next)
    && (s.node.responseReceived <==> s.node.response.Some?)
    && (s.node.response.Some? ==>
          var r := s.node.response.value;
          && Current(s.trace) == Some(r.request)
          && r.request in s.peer.replies && s.peer.replies[r.request] == r.body)
  }

  /** Replies only accumulate. */
  predicate Grows(p: Peer, q: Peer) {
    q.next >= p.next && forall g | g in p.replies :: g in q.replies && q.replies[g] == p.replies[g]
  }

  lemma OwnedGrows(p: Peer, q: Peer, t: Trace)
    requires Owned(p.replies, t) && Grows(p, q)
    ensures Owned(q.replies, t)
  {
  }

  lemma DeliverOwn(s: Sys, r: Reply)
    requires Own(s)
    ensures Own(Deliver(s, r))
  {
    OwnedGrows(s.peer, Deliver(s, r).peer, s.trace);
  }

  lemma {:induction false} SpinOwn(s: Sys, rs: seq<Reply>)
    requires Own(s)
    ensures Own(Spin(s, rs))
    decreases rs
  {
    if rs != [] {
      DeliverOwn(s, rs[0]);
      SpinOwn(Deliver(s, rs[0]), rs[1..]);
    }
  }

  lemma {:induction false} SpinUntilOwn(s: Sys, rs: seq<Reply>, g: RequestId)
    requires Own(s)
    ensures Own(SpinUntil(s, rs, g))
    decreases rs
  {
    if g !in s.peer.replies && rs != [] {
      DeliverOwn(s, rs[0]);
      SpinUntilOwn(Deliver(s, rs[0]), rs[1..], g);
    }
  }

  /** Spinning only adds replies. */
  predicate SameButReplies(s: Sys, t: Sys) {
    t == s.(peer := s.peer.(replies := t.peer.replies)) && Grows(s.peer, t.peer)
  }

  lemma {:induction false} SpinFrame(s: Sys, rs: seq<Reply>)
    ensures SameButReplies(s, Spin(s, rs))
    decreases rs
  {
    if rs != [] {
      SpinFrame(Deliver(s, rs[0]), rs[1..]);
    }
  }

  lemma {:induction false} SpinUntilFrame(s: Sys, rs: seq<Reply>, g: RequestId)
    ensures SameButReplies(s, SpinUntil(s, rs, g))
    decreases rs
  {
    if g !in s.peer.replies && rs != [] {
      SpinUntilFrame(Deliver(s, rs[0]), rs[1..], g);
    }
  }

  lemma ContinueOwn(s: Sys, i: TickInput)
    requires Own(s) && s.node.status.Running?
    ensures Own(Continue(s, i).s) && Continue(s, i).s.node.status.Running?
  {
    SpinOwn(s, i.someSpin);
    SpinFrame(s, i.someSpin);
    var t := Spin(s, i.someSpin);
    if !t.node.responseReceived && t.node.future.Some? {
      SpinUntilOwn(t, i.futureSpin, t.node.future.value);
      SpinUntilFrame(t, i.futureSpin, t.node.future.value);
    }
  }

  lemma TickOwn(s: Sys, i: TickInput)
    requires Own(s) && (s.node.status.Idle? || s.node.status.Running?)
    ensures Own(Tick(s, i).s)
    ensures Tick(s, i).sig.Fine? && Tick(s, i).status.Running? ==> Tick(s, i).s.node.status.Running?
  {
    var e := Elapse(s, i.elapsed);
    if i.rosOk && EnsureClient(e.node, i).Some? {
      var t := e.(node := EnsureClient(e.node, i).value);
      if t.node.status.Idle? {
        ActivateOwn(t, i);
      } else {
        ContinueOwn(t, i);
      }
    }
  }

  lemma ActivateOwn(s: Sys, i: TickInput)
    requires Own(s)
    ensures Own(Activate(s, i).s)
  {
  }

  lemma ExecOwn(s: Sys, step: Step)
    requires Own(s)
    ensures Own(Exec(s, step))
  {
    match step
    case TickStep(i) =>
      if s.node.status.Idle? || s.node.status.Running? {
        TickOwn(s, i);
      }
    case OtherSpin(rs) => SpinOwn(s, rs);
    case _ =>
  }

  /** onResponseReceived is only ever given the reply to the current request: no hypothesis at all. */
  lemma {:induction false} ResponseOwnership(s: Sys, steps: seq<Step>)
    requires Own(s)
    ensures Own(Run(s, steps)) && Owned(Run(s, steps).peer.replies, Run(s, steps).trace)
    decreases steps
  {
    if steps != [] {
      ExecOwn(s, steps[0]);
      ResponseOwnership(Exec(s, steps[0]), steps[1..]);
    }
  }

  lemma OwnershipFromStart(s: Sys, steps: seq<Step>)
    requires Initial(s)
    ensures Owned(Run(s, steps).peer.replies, Run(s, steps).trace)
  {
    ResponseOwnership(s, steps);
  }

  // ---------- late replies are invisible ----------

  /** Two systems that differ at most in replies to requests other than the pending one. */
  predicate SameView(s: Sys, t: Sys) {
    && t == s.(peer := s.peer.(replies := t.peer.replies))
    && (s.node.status.Running? && s.node.future.Some? ==> Agree(s, t, s.node.future.value))
    && NotYet(s) && NotYet(t)
  }

  /** The future of `g` is in the same state on both sides. */
  predicate Agree(s: Sys, t: Sys, g: RequestId) {
    && (g in s.peer.replies <==> g in t.peer.replies)
    && (g in s.peer.replies ==> s.peer.replies[g] == t.peer.replies[g])
  }

  /** No reply precedes its request. */
  predicate NotYet(s: Sys) {
    && (s.node.future.Some? ==> s.node.future.value < s.peer.next)
    && forall g | g in s.peer.replies :: g < s.peer.next
  }

  lemma DeliverKeepsView(s: Sys, t: Sys, r: Reply)
    requires SameView(s, t)
    ensures SameView(Deliver(s, r), Deliver(t, r))
  {
  }

  lemma {:induction false} SpinKeepsView(s: Sys, t: Sys, rs: seq<Reply>)
    requires SameView(s, t)
    ensures SameView(Spin(s, rs), Spin(t, rs))
    decreases rs
  {
    if rs != [] {
      DeliverKeepsView(s, t, rs[0]);
      SpinKeepsView(Deliver(s, rs[0]), Deliver(t, rs[0]), rs[1..]);
    }
  }

  lemma {:induction false} SpinUntilKeepsView(s: Sys, t: Sys, rs: seq<Reply>, g: RequestId)
    requires SameView(s, t) && s.node.status.Running? && s.node.future == Some(g)
    ensures SameView(SpinUntil(s, rs, g), SpinUntil(t, rs, g))
    decreases rs
  {
    if g !in s.peer.replies && rs != [] {
      DeliverKeepsView(s, t, rs[0]);
      SpinUntilKeepsView(Deliver(s, rs[0]), Deliver(t, rs[0]), rs[1..], g);
    }
  }

  lemma AwaitKeepsView(s: Sys, t: Sys, i: TickInput)
    requires SameView(s, t) && s.node.status.Running?
    ensures var a, b := AwaitResponse(s, i), AwaitResponse(t, i);
            SameView(a.s, b.s) && a.sig == b.sig && a.status == b.status && a.s.node.status.Running?
  {
    if s.node.future.Some? {
      var g := s.node.future.value;
      SpinUntilKeepsView(s, t, i.futureSpin, g);
      SpinUntilFrame(s, i.futureSpin, g);
      var s1, t1 := SpinUntil(s, i.futureSpin, g), SpinUntil(t, i.futureSpin, g);
      assert g in s1.peer.replies <==> g in t1.peer.replies;
    }
  }

  lemma ContinueKeepsView(s: Sys, t: Sys, i: TickInput)
    requires SameView(s, t) && s.node.status.Running?
    ensures var a, b := Continue(s, i), Continue(t, i);
            SameView(a.s, b.s) && a.sig == b.sig && a.status == b.status && a.s.node.status.Running?
  {
    SpinKeepsView(s, t, i.someSpin);
    SpinFrame(s, i.someSpin);
    var s1, t1 := Spin(s, i.someSpin), Spin(t, i.someSpin);
    if !(s1.node.responseReceived && s1.node.response.Some?) {
      AwaitKeepsView(s1, t1, i);
    }
  }

  lemma TickKeepsView(s: Sys, t: Sys, i: TickInput)
    requires SameView(s, t) && (s.node.status.Idle? || s.node.status.Running?)
    ensures var a, b := Tick(s, i), Tick(t, i);
            SameView(a.s, b.s) && a.sig == b.sig && a.status == b.status &&
            (a.sig.Fine? && a.status.Running? ==> a.s.node.status.Running?)
  {
    var e, f := Elapse(s, i.elapsed), Elapse(t, i.elapsed);
    if i.rosOk && EnsureClient(e.node, i).Some? {
      var n := EnsureClient(e.node, i).value;
      if n.status.Idle? {
        ActivateKeepsView(e.(node := n), f.(node := n), i);
      } else {
        ContinueKeepsView(e.(node := n), f.(node := n), i);
      }
    }
  }

  lemma ActivateKeepsView(s: Sys, t: Sys, i: TickInput)
    requires SameView(s, t)
    ensures var a, b := Activate(s, i), Activate(t, i);
            SameView(a.s, b.s) && a.sig == b.sig && a.status == b.status && a.s.node.status.Running?
  {
  }

  lemma ExecKeepsView(s: Sys, t: Sys, step: Step)
    requires SameView(s, t)
    ensures SameView(Exec(s, step), Exec(t, step))
  {
    if s.faulted { return; }
    match step
    case TickStep(i) =>
      if s.node.status.Idle? || s.node.status.Running? {
        TickKeepsView(s, t, i);
      }
    case OtherSpin(rs) => SpinKeepsView(s, t, rs);
    case _ =>
  }

  /** Systems with the same view behave alike for ever: same callbacks, same statuses, same faults. */
  lemma {:induction false} SameViewForever(s: Sys, t: Sys, steps: seq<Step>)
    requires SameView(s, t)
    ensures SameView(Run(s, steps), Run(t, steps))
    decreases steps
  {
    if steps != [] {
      ExecKeepsView(s, t, steps[0]);
      SameViewForever(Exec(s, steps[0]), Exec(t, steps[0]), steps[1..]);
    }
  }

  /** A reply to any request but the pending one changes nothing the node will ever do. */
  lemma LateReplyIsInvisible(s: Sys, r: Reply, steps: seq<Step>)
    requires Own(s) && NotYet(s) && !(s.node.status.Running? && s.node.future == Some(r.request))
    ensures var a, b := Run(s, steps), Run(Deliver(s, r), steps);
            a.trace == b.trace && a.node == b.node && a.faulted == b.faulted
  {
    SameViewForever(s, Deliver(s, r), steps);
  }

  // ---------- at most one response per activation ----------

  function Responses(t: Trace): nat {
    match t
    case Start => 0
    case Then(_, SetRequest) => 0
    case Then(past, Responded(_)) => Responses(past) + 1
    case Then(past, _) => Responses(past)
  }

  predicate AtMostOneResponse(t: Trace) {
    t.Then? ==> AtMostOneResponse(t.past) && Responses(t) <= 1
  }

  predicate ResponseObeys(step: Step) {
    step.TickStep? ==> step.input.onResponse.Completed()
  }

  predicate Fresh(s: Sys) {
    AtMostOneResponse(s.trace) && (s.node.status.Running? ==> Responses(s.trace) == 0)
  }

  lemma ContinueFresh(s: Sys, i: TickInput)
    requires Fresh(s) && s.node.status.Running? && i.onResponse.Completed()
    ensures var r := Continue(s, i);
            && AtMostOneResponse(r.s.trace)
            && (!r.sig.Fine? || r.status.Running? ==> Responses(r.s.trace) == 0)
  {
    SpinFrame(s, i.someSpin);
    var t := Spin(s, i.someSpin);
    if t.node.future.Some? {
      SpinUntilFrame(t, i.futureSpin, t.node.future.value);
    }
  }

  lemma ExecFresh(s: Sys, step: Step)
    requires Fresh(s) && ResponseObeys(step)
    ensures Fresh(Exec(s, step))
  {
    if s.faulted { return; }
    match step
    case TickStep(i) =>
      if s.node.status.Running? && i.rosOk && EnsureClient(s.node, i).Some? {
        ContinueFresh(Elapse(s, i.elapsed).(node := EnsureClient(s.node, i).value), i);
      }
    case OtherSpin(rs) => SpinFrame(s, rs);
    case _ =>
  }

  /** With a callback that returns SUCCESS or FAILURE, at most one response per activation. */
  lemma {:induction false} OneResponsePerActivation(s: Sys, steps: seq<Step>)
    requires Fresh(s) && forall step | step in steps :: ResponseObeys(step)
    ensures AtMostOneResponse(Run(s, steps).trace)
    decreases steps
  {
    if steps != [] {
      assert steps[0] in steps;
      ExecFresh(s, steps[0]);
      OneResponsePerActivation(Exec(s, steps[0]), steps[1..]);
    }
  }

  /** Otherwise the next tick calls onResponseReceived again with the same response. */
  lemma RepeatedResponseIsExact(s: Sys, i: TickInput, j: TickInput)
    requires Own(s) && !s.faulted && s.node.status.Running? && s.node.client.Some? && Responses(s.trace) == 0
    requires s.node.future.Some? && s.node.future.value in s.peer.replies
    requires s.peer.replies[s.node.future.value].Some?
    requires i.rosOk && j.rosOk && s.node.response.None?
    ensures var t := Run(s, [TickStep(i), TickStep(j)]);
            Responses(t.trace) == 2 <==> !i.onResponse.Completed()
  {
    var g := s.node.future.value;
    var e := Elapse(s, i.elapsed);
    assert EnsureClient(e.node, i) == Some(e.node);
    SpinFrame(e, i.someSpin);
    var reply := Reply(g, s.peer.replies[g]);
    var t := Exec(s, TickStep(i));
    assert t.trace == Then(s.trace, Responded(reply));
    assert [TickStep(i), TickStep(j)][1..] == [TickStep(j)] && [TickStep(j)][1..] == [];
    assert Run(s, [TickStep(i), TickStep(j)]) == Run(t, [TickStep(j)]);
    assert Run(t, [TickStep(j)]) == Run(Exec(t, TickStep(j)), []);
    if !i.onResponse.Completed() {
      var f := Elapse(t, j.elapsed);
      assert EnsureClient(f.node, j) == Some(f.node);
      SpinFrame(f, j.someSpin);
      assert Exec(t, TickStep(j)).trace == Then(t.trace, Responded(reply));
    }
  }

  // ---------- bounded waiting ----------

  /** The node is in an activation whose request is pending, and stays there. */
  predicate Waits(s: Sys, steps: seq<Step>)
    decreases steps
  {
    && !s.faulted && s.node.status.Running? && s.node.client.Some? && s.node.future.Some?
    && !s.node.responseReceived
    && (steps != [] ==> !steps[0].HaltStep? && Waits(Exec(s, steps[0]), steps[1..]))
  }

  function Ticks(steps: seq<Step>): nat {
    if steps == [] then 0 else (if steps[0].TickStep? then 1 else 0) + Ticks(steps[1..])
  }

  predicate Spaced(step: Step, gap: nat) {
    step.TickStep? ==> gap <= step.input.elapsed && step.input.rosOk && step.input.onFailure.Completed()
  }

  /** A tick whose check sees more than the timeout does not leave the node running. */
  lemma TickChecksTimeout(s: Sys, i: TickInput)
    requires !s.faulted && s.node.status.Running? && s.node.client.Some? && s.node.future.Some?
    requires !s.node.responseReceived && i.rosOk && i.onFailure.Completed()
    ensures var t := Exec(s, TickStep(i));
            t.node.status.Running? && !t.node.responseReceived ==>
              && t.peer.clock == s.peer.clock + i.elapsed
              && t.node.timeSent == s.node.timeSent && t.node.timeoutMs == s.node.timeoutMs
              && (t.node.future.Some? ==> t.node.future == s.node.future)
              && t.peer.clock - t.node.timeSent <= TimeoutNs(t.node)
  {
    var e := Elapse(s, i.elapsed);
    assert EnsureClient(e.node, i) == Some(e.node);
    SpinFrame(e, i.someSpin);
    SpinUntilFrame(Spin(e, i.someSpin), i.futureSpin, e.node.future.value);
  }

  /** With ticks at least `gap` apart, the time left until the timeout bounds the ticks still to come. */
  lemma {:induction false} BoundedWaiting(s: Sys, steps: seq<Step>, gap: nat)
    requires Waits(s, steps) && forall step | step in steps :: Spaced(step, gap)
    ensures Ticks(steps) > 0 ==> Ticks(steps) * gap <= TimeoutNs(s.node) - (s.peer.clock - s.node.timeSent)
    decreases steps
  {
    if steps != [] {
      var step, rest := steps[0], steps[1..];
      assert step in steps;
      BoundedWaiting(Exec(s, step), rest, gap);
      if step.TickStep? {
        TickChecksTimeout(s, step.input);
        assert Ticks(steps) * gap == Ticks(rest) * gap + gap;
      } else if step.OtherSpin? {
        SpinFrame(s, step.replies);
      }
    }
  }

  /** A null response throws once; a tick that follows hands the null to onResponseReceived. */
  lemma NullResponseIsShown(s: Sys, i: TickInput, j: TickInput)
    requires !s.faulted && s.node.status.Running? && s.node.client.Some? && !s.node.responseReceived
    requires s.node.future.Some? && s.node.future.value in s.peer.replies
    requires s.peer.replies[s.node.future.value].None?
    requires i.rosOk && j.rosOk
    ensures var t := Exec(s, TickStep(i));
            && t.node.status.Running? && t.trace == s.trace
            && Exec(t, TickStep(j)).trace == Then(s.trace, Responded(Reply(s.node.future.value, None)))
  {
    var g := s.node.future.value;
    var e := Elapse(s, i.elapsed);
    assert EnsureClient(e.node, i) == Some(e.node);
    SpinFrame(e, i.someSpin);
    var t := Exec(s, TickStep(i));
    var f := Elapse(t, j.elapsed);
    assert EnsureClient(f.node, j) == Some(f.node);
    SpinFrame(f, j.someSpin);
  }

  /** The running node has stored a null response to request `g`. */
  predicate HoldsNull(s: Sys, g: RequestId) {
    s.node.status.Running? && s.node.response == Some(Reply(g, None))
  }

  /** Activations begun. */
  function Activations(t: Trace): nat {
    match t
    case Start => 0
    case Then(past, SetRequest) => Activations(past) + 1
    case Then(past, _) => Activations(past)
  }

  /** The tick of a running node that takes a null response to `g` out of its future, and throws. */
  predicate ThrowsOnNull(s: Sys, step: Step, g: RequestId) {
    && step.TickStep? && !s.faulted && s.node.status.Running? && s.node.future == Some(g)
    && Tick(s, step.input).sig.Threw? && Exec(s, step).trace == s.trace
  }

  lemma ContinueHoldsNull(s: Sys, i: TickInput, g: RequestId)
    requires Own(s) && s.node.status.Running?
    ensures var r := Continue(s, i);
            && Activations(r.s.trace) == Activations(s.trace)
            && (r.s.node.response == Some(Reply(g, None)) ==>
                  s.node.response == Some(Reply(g, None)) ||
                  (s.node.future == Some(g) && r.sig.Threw? && r.s.trace == s.trace))
  {
    SpinFrame(s, i.someSpin);
    var t := Spin(s, i.someSpin);
    if t.node.future.Some? {
      SpinUntilFrame(t, i.futureSpin, t.node.future.value);
    }
  }

  /** A null response is stored by such a tick, and kept within the activation. */
  lemma ExecHoldsNull(s: Sys, step: Step, g: RequestId)
    requires Own(s) && HoldsNull(Exec(s, step), g)
    ensures Activations(Exec(s, step).trace) == Activations(s.trace)
    ensures HoldsNull(s, g) || ThrowsOnNull(s, step, g)
  {
    if s.faulted { return; }
    match step
    case TickStep(i) =>
      if s.node.status.Running? && i.rosOk && EnsureClient(s.node, i).Some? {
        ContinueHoldsNull(Elapse(s, i.elapsed).(node := EnsureClient(s.node, i).value), i, g);
      }
    case OtherSpin(rs) => SpinFrame(s, rs);
    case _ =>
  }

  lemma {:induction false} RunLast(s: Sys, steps: seq<Step>)
    requires steps != []
    ensures Run(s, steps) == Exec(Run(s, steps[..|steps| - 1]), steps[|steps| - 1])
    decreases steps
  {
    if |steps| > 1 {
      assert steps[1..][..|steps| - 2] == steps[..|steps| - 1][1..];
      RunLast(Exec(s, steps[0]), steps[1..]);
    }
  }

  /** A run that ends with a null response in store: where in the same activation its tick threw. */
  lemma {:induction false} NullWasThrown(s: Sys, steps: seq<Step>, g: RequestId) returns (k: nat)
    requires Initial(s) && HoldsNull(Run(s, steps), g)
    ensures k < |steps| && ThrowsOnNull(Run(s, steps[..k]), steps[k], g)
    ensures Activations(Run(s, steps[..k]).trace) == Activations(Run(s, steps).trace)
    decreases |steps|
  {
    assert steps != [];
    var n := |steps| - 1;
    RunLast(s, steps);
    ResponseOwnership(s, steps[..n]);
    ExecHoldsNull(Run(s, steps[..n]), steps[n], g);
    if ThrowsOnNull(Run(s, steps[..n]), steps[n], g) {
      k := n;
    } else {
      k := NullWasThrown(s, steps[..n], g);
      assert steps[..n][..k] == steps[..k];
    }
  }

  /** Conversely a null response is shown only after a tick of the same activation has thrown on it. */
  lemma NullIsShownOnlyAfterThrow(s: Sys, steps: seq<Step>, i: TickInput, g: RequestId)
    requires Initial(s)
    requires var t := Run(s, steps); Exec(t, TickStep(i)).trace == Then(t.trace, Responded(Reply(g, None)))
    ensures exists k :: 0 <= k < |steps| && ThrowsOnNull(Run(s, steps[..k]), steps[k], g) &&
                        Activations(Run(s, steps[..k]).trace) == Activations(Run(s, steps).trace)
  {
    var t := Run(s, steps);
    ResponseOwnership(s, steps);
    ShowingNullHeldIt(t, i, g);
    var k := NullWasThrown(s, steps, g);
  }

  function Length(t: Trace): nat {
    if t.Start? then 0 else Length(t.past) + 1
  }

  lemma LastIsNew(t: Trace, e: Event)
    ensures t != Then(t, e)
  {
    assert Length(Then(t, e)) == Length(t) + 1;
  }

  lemma ShowingNullHeldIt(s: Sys, i: TickInput, g: RequestId)
    requires Own(s) && Exec(s, TickStep(i)).trace == Then(s.trace, Responded(Reply(g, None)))
    ensures HoldsNull(s, g)
  {
    LastIsNew(s.trace, Responded(Reply(g, None)));
    if !s.faulted && s.node.status.Running? && i.rosOk && EnsureClient(s.node, i).Some? {
      var e := Elapse(s, i.elapsed).(node := EnsureClient(s.node, i).value);
      SpinFrame(e, i.someSpin);
      var t := Spin(e, i.someSpin);
      if t.node.future.Some? {
        SpinUntilFrame(t, i.futureSpin, t.node.future.value);
      }
    }
  }

  // ---------- the decision of a running tick ----------

  function SentAt(t: Trace): int {
    match t
    case Start => 0
    case Then(_, Sent(_, at, _)) => at
    case Then(past, _) => SentAt(past)
  }

  /** A pending request is the current one, and the time it was sent is remembered. */
  predicate Pending(s: Sys) {
    s.node.status.Running? && s.node.future.Some? ==>
      && s.node.client.Some?
      && !s.node.responseReceived
      && Current(s.trace) == s.node.future
      && s.node.timeSent == SentAt(s.trace)
  }

  lemma ContinuePending(s: Sys, i: TickInput)
    requires Pending(s) && s.node.status.Running?
    ensures Pending(Continue(s, i).s) && Continue(s, i).s.node.status.Running?
  {
    SpinFrame(s, i.someSpin);
    var t := Spin(s, i.someSpin);
    if t.node.future.Some? {
      SpinUntilFrame(t, i.futureSpin, t.node.future.value);
    }
  }

  lemma ExecPending(s: Sys, step: Step)
    requires Pending(s)
    ensures Pending(Exec(s, step))
  {
    if s.faulted { return; }
    match step
    case TickStep(i) =>
      if s.node.status.Running? && i.rosOk && EnsureClient(s.node, i).Some? {
        ContinuePending(Elapse(s, i.elapsed).(node := EnsureClient(s.node, i).value), i);
      }
    case OtherSpin(rs) => SpinFrame(s, rs);
    case _ =>
  }

  lemma {:induction false} RunPending(s: Sys, steps: seq<Step>)
    requires Pending(s)
    ensures Pending(Run(s, steps))
    decreases steps
  {
    if steps != [] {
      ExecPending(s, steps[0]);
      RunPending(Exec(s, steps[0]), steps[1..]);
    }
  }

  /** What a tick does with a pending request: the reply if it is in, else the timeout, else wait. */
  predicate Answers(h: Sys, i: TickInput, r: TickRes)
    requires h.node.future.Some?
  {
    var g := h.node.future.value;
    if g in h.peer.replies then
      if h.peer.replies[g].None? then r.sig.Threw? && r.s.trace == h.trace
      else
        && r.s.trace == Then(h.trace, Responded(Reply(g, h.peer.replies[g])))
        && r.status == i.onResponse && (r.sig.Fine? <==> i.onResponse.Completed())
    else if h.peer.clock - SentAt(h.trace) > TimeoutNs(h.node) then
      && r.s.trace == Then(h.trace, Failed(ServiceTimeout))
      && r.status == i.onFailure && (r.sig.Fine? <==> i.onFailure.Completed())
    else
      r.sig.Fine? && r.status.Running? && r.s.trace == h.trace
  }

  /** In every reachable state with a pending request, a tick does what the history says. */
  lemma TickRefinesHistory(s0: Sys, steps: seq<Step>, i: TickInput)
    requires Initial(s0) && i.rosOk
    ensures var s := Run(s0, steps);
            s.node.status.Running? && s.node.future.Some? ==>
              var e := Elapse(s, i.elapsed);
              var h := SpinUntil(Spin(e, i.someSpin), i.futureSpin, s.node.future.value);
              SameButReplies(e, h) && h.node.future == Current(h.trace) && Answers(h, i, Tick(s, i))
  {
    RunPending(s0, steps);
    var s := Run(s0, steps);
    if s.node.status.Running? && s.node.future.Some? {
      var e := Elapse(s, i.elapsed);
      assert EnsureClient(e.node, i) == Some(e.node);
      SpinFrame(e, i.someSpin);
      SpinUntilFrame(Spin(e, i.someSpin), i.futureSpin, s.node.future.value);
    }
  }
}
