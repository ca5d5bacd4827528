/**
  What a spin of the executor can change, and when it faults. The callbacks leave everything
  but the feedback verdict and the stored result alone.
 */
module ActionSpins {
  import opened Common
  import opened ActionNode

  // ---------- the documented contracts of the user callbacks ----------

  /** onFeedback returns RUNNING, SUCCESS or FAILURE. */
  predicate Obeys(d: Delivery) {
    d.Feedback? ==> d.verdict.Running? || d.verdict.Completed()
  }

  predicate AllObey(ds: seq<Delivery>) {
    forall d | d in ds :: Obeys(d)
  }

  predicate CancelObeys(i: CancelInput) {
    AllObey(i.forResponse) && AllObey(i.forCancel) && AllObey(i.forResult)
  }

  /** onFailure and onResultReceived return SUCCESS or FAILURE. */
  predicate TickObeys(i: TickInput) {
    && i.onFailure.Completed() && i.onResult.Completed()
    && AllObey(i.someSpin) && AllObey(i.futureSpin) && CancelObeys(i.cancel)
  }

  predicate StepObeys(step: Step) {
    match step
    case TickStep(i) => TickObeys(i)
    case HaltStep(i) => CancelObeys(i)
    case OtherSpin(ds) => AllObey(ds)
    case Rename(_, _) => true
  }

  // ---------- frames ----------

  /** The handle has been taken in the current activation. */
  predicate Taken(t: Trace) {
    match t
    case Start => false
    case Then(_, SetGoal) => false
    case Then(_, Took(_, _)) => true
    case Then(past, _) => Taken(past)
  }

  /** What spinning leaves alone: all but the feedback verdict, the stored result and the peer's ledger. */
  predicate SameFrame(s: Sys, t: Sys) {
    && SameNode(s.node, t.node)
    && t.peer.next == s.peer.next && t.peer.clock == s.peer.clock
  }

  predicate SameNode(m: Node, n: Node) {
    && n.status == m.status && n.client == m.client && n.timeoutMs == m.timeoutMs
    && n.goalReceived == m.goalReceived && n.future == m.future && n.handle == m.handle
    && n.timeSent == m.timeSent
  }

  /** `late` is `early` followed by deliveries only. */
  predicate OnlyDelivered(early: Trace, late: Trace) {
    late == early || (late.Then? && late.last.Delivered? && OnlyDelivered(early, late.past))
  }

  lemma OnlyDeliveredTrans(a: Trace, b: Trace, c: Trace)
    requires OnlyDelivered(a, b) && OnlyDelivered(b, c)
    ensures OnlyDelivered(a, c)
  {
  }

  /** Deliveries neither begin an activation nor send a goal nor take a handle. */
  lemma DeliveredFrame(early: Trace, late: Trace)
    requires OnlyDelivered(early, late)
    ensures Current(late) == Current(early) && Taken(late) == Taken(early)
  {
  }

  lemma DeliverFrame(v: Variant, s: Sys, d: Delivery)
    ensures var r := Deliver(v, s, d); SameFrame(s, r.s) && OnlyDelivered(s.trace, r.s.trace)
    ensures Obeys(d) ==> !Deliver(v, s, d).sig.Threw?
    ensures v.Repaired? || s.node.handle.Some? ==> !Deliver(v, s, d).sig.Faulted?
  {
  }

  /** With obedient callbacks a spin never throws; with a non-null handle it never faults. */
  lemma {:induction false} SpinFrame(v: Variant, s: Sys, ds: seq<Delivery>)
    ensures var r := Spin(v, s, ds); SameFrame(s, r.s) && OnlyDelivered(s.trace, r.s.trace)
    ensures AllObey(ds) ==> !Spin(v, s, ds).sig.Threw?
    ensures v.Repaired? || s.node.handle.Some? ==> !Spin(v, s, ds).sig.Faulted?
    decreases ds
  {
    if ds != [] {
      var r := Deliver(v, s, ds[0]);
      assert ds[0] in ds;
      DeliverFrame(v, s, ds[0]);
      SpinFrame(v, r.s, ds[1..]);
      OnlyDeliveredTrans(s.trace, r.s.trace, Spin(v, r.s, ds[1..]).s.trace);
    }
  }

  // ---------- waiting is spinning ----------

  /** The answer in the first response for goal `g`. */
  function FirstAnswer(ds: seq<Delivery>, g: GoalId): Option<bool> {
    if ds == [] then None
    else if ds[0].GoalResponse? && ds[0].goal == g then Some(ds[0].accepted)
    else FirstAnswer(ds[1..], g)
  }

  /** The answer to goal `g` that is known once `ds` has been delivered. */
  function AnswerTo(p: Peer, ds: seq<Delivery>, g: GoalId): Option<bool> {
    if g in p.answers then Some(p.answers[g]) else if g < p.next then FirstAnswer(ds, g) else None
  }

  /** The deliveries up to the response of `g`, at which the wait for it ends. */
  function UpTo(p: Peer, ds: seq<Delivery>, g: GoalId): (r: seq<Delivery>)
    ensures r <= ds
  {
    if ds == [] || g in p.answers then []
    else if ds[0].GoalResponse? && ds[0].goal == g && g < p.next then [ds[0]]
    else [ds[0]] + UpTo(p, ds[1..], g)
  }

  /** The deliveries of a running tick: a spin, then a wait for the pending response if it is not in. */
  function Heard(s: Sys, i: TickInput): seq<Delivery> {
    i.someSpin +
    (if s.node.goalReceived || s.node.future.None? || AnswerTo(s.peer, i.someSpin, s.node.future.value).Some? then []
     else UpTo(s.peer, i.futureSpin, s.node.future.value))
  }

  lemma {:induction false} UpToDepends(p: Peer, q: Peer, ds: seq<Delivery>, g: GoalId)
    requires (g in p.answers <==> g in q.answers) && p.next == q.next
    ensures UpTo(p, ds, g) == UpTo(q, ds, g)
    decreases ds
  {
    if ds != [] {
      UpToDepends(p, q, ds[1..], g);
    }
  }

  lemma {:induction false} WaitIsSpin(v: Variant, s: Sys, ds: seq<Delivery>, g: GoalId)
    ensures SpinUntil(v, s, ds, g) == Spin(v, s, UpTo(s.peer, ds, g))
    decreases ds
  {
    if g !in s.peer.answers && ds != [] {
      var r := Deliver(v, s, ds[0]);
      WaitIsSpin(v, r.s, ds[1..], g);
      if g !in r.s.peer.answers {
        UpToDepends(s.peer, r.s.peer, ds[1..], g);
        assert ([ds[0]] + UpTo(s.peer, ds[1..], g))[1..] == UpTo(s.peer, ds[1..], g);
      } else {
        assert [ds[0]][1..] == [];
      }
    }
  }

  lemma {:induction false} SpinAppend(v: Variant, s: Sys, a: seq<Delivery>, b: seq<Delivery>)
    ensures var r := Spin(v, s, a); Spin(v, s, a + b) == if r.sig.Fine? then Spin(v, r.s, b) else r
    decreases a
  {
    if a == [] {
      assert a + b == b;
    } else {
      assert (a + b)[1..] == a[1..] + b;
      SpinAppend(v, Deliver(v, s, a[0]).s, a[1..], b);
    }
  }

  /** The answers known after a spin, read off its deliveries. */
  lemma {:induction false} SpinAnswers(v: Variant, s: Sys, ds: seq<Delivery>, g: GoalId)
    requires Spin(v, s, ds).sig.Fine?
    ensures var p := Spin(v, s, ds).s.peer;
            AnswerTo(s.peer, ds, g) == if g in p.answers then Some(p.answers[g]) else None
    decreases ds
  {
    if ds != [] {
      SpinAnswers(v, Deliver(v, s, ds[0]).s, ds[1..], g);
    }
  }

  lemma WaitFrame(v: Variant, s: Sys, ds: seq<Delivery>, g: GoalId)
    ensures var r := SpinUntil(v, s, ds, g); SameFrame(s, r.s) && OnlyDelivered(s.trace, r.s.trace)
    ensures AllObey(ds) ==> !SpinUntil(v, s, ds, g).sig.Threw?
    ensures v.Repaired? || s.node.handle.Some? ==> !SpinUntil(v, s, ds, g).sig.Faulted?
  {
    WaitIsSpin(v, s, ds, g);
    SpinFrame(v, s, UpTo(s.peer, ds, g));
  }

  /** Both spins of a running tick are one spin over what it hears. */
  lemma SpinsIsSpin(v: Variant, s: Sys, i: TickInput)
    requires s.node.goalReceived || s.node.future.Some?
    ensures Spins(v, s, i) == Spin(v, s, Heard(s, i))
  {
    var r := Spin(v, s, i.someSpin);
    SpinFrame(v, s, i.someSpin);
    SpinAppend(v, s, i.someSpin, Heard(s, i)[|i.someSpin|..]);
    assert Heard(s, i) == i.someSpin + Heard(s, i)[|i.someSpin|..];
    if r.sig.Fine? && !s.node.goalReceived {
      var g := s.node.future.value;
      SpinAnswers(v, s, i.someSpin, g);
      WaitIsSpin(v, r.s, i.futureSpin, g);
      if g !in r.s.peer.answers {
        UpToDepends(s.peer, r.s.peer, i.futureSpin, g);
      }
    }
  }

  /** A tick of a running node that is not shut down continues its activation. */
  lemma RunningTick(v: Variant, s: Sys, i: TickInput)
    requires s.node.status.Running? && s.node.client.Some? && i.rosOk
    ensures Tick(v, s, i) == Continue(v, Elapse(s, i.elapsed), i)
  {
    var e := Elapse(s, i.elapsed);
    assert EnsureClient(e.node, i) == Some(e.node);
  }

  lemma HeardObeys(s: Sys, i: TickInput)
    requires TickObeys(i)
    ensures AllObey(Heard(s, i))
  {
  }

  // ---------- cancelGoal ----------

  /** Asking for a cancel and waiting for it: one event, then deliveries. */
  lemma RequestCancelFrame(v: Variant, s: Sys, i: CancelInput)
    requires s.node.handle.Some?
    ensures var r := RequestCancel(v, s, i);
            && OnlyDelivered(Then(s.trace, CancelRequested(s.node.handle.value)), r.s.trace)
            && SameNode(s.node, r.s.node) && r.s.peer.next == s.peer.next
            && s.peer.clock <= r.s.peer.clock <= s.peer.clock + 2 * TimeoutNs(s.node)
            && !r.sig.Faulted?
            && (CancelObeys(i) ==> r.sig.Fine?)
  {
    var asked := Elapse(Log(s, CancelRequested(s.node.handle.value)), Waited(s, i.cancelTook));
    SpinFrame(v, asked, i.forCancel);
    var r := Spin(v, asked, i.forCancel);
    var e := Elapse(r.s, Waited(r.s, i.resultTook));
    SpinFrame(v, e, i.forResult);
    OnlyDeliveredTrans(asked.trace, r.s.trace, Spin(v, e, i.forResult).s.trace);
  }

  /** cancelGoal as a whole; it blocks for at most three times the server timeout. */
  lemma CancelFrame(v: Variant, s: Sys, i: CancelInput)
    ensures var r := CancelGoal(v, s, i);
            && r.s.node.status == s.node.status && r.s.node.client == s.node.client
            && r.s.node.goalReceived == s.node.goalReceived
            && r.s.peer.next == s.peer.next
            && s.peer.clock <= r.s.peer.clock <= s.peer.clock + 3 * TimeoutNs(s.node)
    ensures CancelObeys(i) ==> !CancelGoal(v, s, i).sig.Threw?
    ensures v.Repaired? && s.node.client.Some? ==> !CancelGoal(v, s, i).sig.Faulted?
  {
    if s.node.client.Some? && s.node.handle.Some? {
      RequestCancelFrame(v, s, i);
    } else if s.node.client.Some? && s.node.future.Some? {
      var g := s.node.future.value;
      var e := Elapse(s, Waited(s, i.responseTook));
      WaitFrame(v, e, i.forResponse, g);
      var r := SpinUntil(v, e, i.forResponse, g);
      if r.sig.Fine? && g in r.s.peer.answers && r.s.peer.answers[g] {
        RequestCancelFrame(v, Take(r.s, g), i);
      }
    }
  }

  // ---------- the null handle in the result callback ----------

  /** The result of goal `g` can come once `ds` has been delivered. */
  predicate Due(p: Peer, ds: seq<Delivery>, g: GoalId) {
    g in p.outstanding || (Awaiting(p, g) && FirstAnswer(ds, g) == Some(true))
  }

  /** Some result in `ds` is of a goal accepted before it. */
  predicate ResultComes(p: Peer, ds: seq<Delivery>) {
    exists k :: 0 <= k < |ds| && ds[k].ResultMessage? && Due(p, ds[..k], ds[k].goal)
  }

  /** The ledger in which the rest of a spin takes place. */
  function AfterOne(p: Peer, d: Delivery): Peer {
    if Possible(p, d) then Noted(p, d) else p
  }

  lemma DueStep(p: Peer, d: Delivery, ds: seq<Delivery>, g: GoalId)
    requires !(d.ResultMessage? && d.goal in p.outstanding)
    ensures Due(p, [d] + ds, g) <==> Due(AfterOne(p, d), ds, g)
  {
    assert ([d] + ds)[1..] == ds;
  }

  lemma ResultComesStep(p: Peer, ds: seq<Delivery>)
    requires ds != []
    ensures ResultComes(p, ds) <==>
            (ds[0].ResultMessage? && ds[0].goal in p.outstanding) || ResultComes(AfterOne(p, ds[0]), ds[1..])
  {
    var q, rest := AfterOne(p, ds[0]), ds[1..];
    assert ds[..0] == [];
    if ds[0].ResultMessage? && ds[0].goal in p.outstanding {
      assert Due(p, ds[..0], ds[0].goal);
    } else {
      forall k | 0 <= k < |rest| ensures Due(p, ds[..k + 1], rest[k].goal) <==> Due(q, rest[..k], rest[k].goal) {
        assert ds[..k + 1] == [ds[0]] + rest[..k];
        DueStep(p, ds[0], rest[..k], rest[k].goal);
      }
      if ResultComes(p, ds) {
        var k :| 0 <= k < |ds| && ds[k].ResultMessage? && Due(p, ds[..k], ds[k].goal);
        assert k > 0 && rest[k - 1] == ds[k];
        assert Due(q, rest[..k - 1], rest[k - 1].goal);
      }
      if ResultComes(q, rest) {
        var k :| 0 <= k < |rest| && rest[k].ResultMessage? && Due(q, rest[..k], rest[k].goal);
        assert ds[k + 1] == rest[k];
        assert Due(p, ds[..k + 1], ds[k + 1].goal);
      }
    }
  }

  lemma ResultComesDepends(p: Peer, q: Peer, ds: seq<Delivery>)
    requires p.answers == q.answers && p.outstanding == q.outstanding && p.next == q.next
    ensures ResultComes(p, ds) <==> ResultComes(q, ds)
  {
    assert forall k | 0 <= k <= |ds| :: forall g :: Due(p, ds[..k], g) <==> Due(q, ds[..k], g);
  }

  predicate SameButFeedback(s: Sys, t: Sys) {
    s == t.(node := t.node.(feedback := s.node.feedback))
  }

  /** Without a fault the two variants differ in the verdict of feedback only. */
  lemma {:induction false} VariantsAgree(s: Sys, t: Sys, ds: seq<Delivery>)
    requires AllObey(ds) && SameButFeedback(s, t) && !Spin(AsWritten, s, ds).sig.Faulted?
    ensures var r, q := Spin(AsWritten, s, ds), Spin(Repaired, t, ds); r.sig == q.sig && SameButFeedback(r.s, q.s)
    decreases ds
  {
    if ds != [] {
      assert ds[0] in ds;
      VariantsAgree(Deliver(AsWritten, s, ds[0]).s, Deliver(Repaired, t, ds[0]).s, ds[1..]);
    }
  }

  /**
    Spinning as written faults exactly when the goal handle is null and a result comes in, and
    otherwise differs from the repaired code in the verdict of feedback only.
   */
  lemma {:induction false} SpinFaultIsExact(s: Sys, ds: seq<Delivery>)
    requires AllObey(ds)
    ensures Spin(AsWritten, s, ds).sig.Faulted? <==> s.node.handle.None? && ResultComes(s.peer, ds)
    ensures !Spin(AsWritten, s, ds).sig.Faulted? ==> SameButFeedback(Spin(AsWritten, s, ds).s, Spin(Repaired, s, ds).s)
    decreases ds
  {
    if ds != [] {
      assert ds[0] in ds;
      ResultComesStep(s.peer, ds);
      SpinFaultIsExact(Deliver(AsWritten, s, ds[0]).s, ds[1..]);
    }
    if !Spin(AsWritten, s, ds).sig.Faulted? {
      VariantsAgree(s, s, ds);
    }
  }

  /** cancelGoal waits with a null handle, and meanwhile a result or a rejection comes in. */
  predicate CancelTrips(s: Sys, i: CancelInput) {
    && s.node.handle.None? && s.node.future.Some?
    && var g := s.node.future.value;
       ResultComes(s.peer, UpTo(s.peer, i.forResponse, g)) || AnswerTo(s.peer, i.forResponse, g) == Some(false)
  }

  lemma {:induction false} UpToKeepsAnswer(p: Peer, ds: seq<Delivery>, g: GoalId)
    ensures AnswerTo(p, UpTo(p, ds, g), g) == AnswerTo(p, ds, g)
    decreases ds
  {
    if ds != [] && g !in p.answers {
      UpToKeepsAnswer(p, ds[1..], g);
    }
  }

  /** cancelGoal as written faults exactly when it trips. */
  lemma CancelFaultIsExact(s: Sys, i: CancelInput)
    requires s.node.client.Some? && CancelObeys(i)
    ensures CancelGoal(AsWritten, s, i).sig.Faulted? <==> CancelTrips(s, i)
  {
    if s.node.handle.Some? {
      RequestCancelFrame(AsWritten, s, i);
    } else if s.node.future.Some? {
      var g := s.node.future.value;
      var e := Elapse(s, Waited(s, i.responseTook));
      var ds := UpTo(e.peer, i.forResponse, g);
      UpToDepends(s.peer, e.peer, i.forResponse, g);
      ResultComesDepends(s.peer, e.peer, ds);
      WaitIsSpin(AsWritten, e, i.forResponse, g);
      SpinFaultIsExact(e, ds);
      SpinFrame(AsWritten, e, ds);
      var r := Spin(AsWritten, e, ds);
      if r.sig.Fine? {
        SpinAnswers(AsWritten, e, ds, g);
        UpToKeepsAnswer(e.peer, i.forResponse, g);
        if AnswerTo(s.peer, i.forResponse, g) == Some(true) {
          RequestCancelFrame(AsWritten, Take(r.s, g), i);
        }
      }
    }
  }

  /** A running tick as written faults exactly when it hears a result while the handle is null. */
  lemma TickFaultIsExact(s: Sys, i: TickInput)
    requires TickObeys(i) && s.node.client.Some?
    requires if s.node.goalReceived then s.node.handle.Some? else s.node.future.Some?
    ensures Continue(AsWritten, s, i).sig.Faulted? <==> s.node.handle.None? && ResultComes(s.peer, Heard(s, i))
  {
    SpinsIsSpin(AsWritten, s, i);
    HeardObeys(s, i);
    SpinFaultIsExact(s, Heard(s, i));
    SpinFrame(AsWritten, s, Heard(s, i));
    var h := Spins(AsWritten, s, i);
    if h.sig.Fine? {
      DecidedNeverFaults(h.s, i);
    }
  }

  lemma DecidedNeverFaults(s: Sys, i: TickInput)
    requires s.node.client.Some?
    requires if s.node.goalReceived then s.node.handle.Some? else s.node.future.Some?
    ensures !Decided(AsWritten, s, i).sig.Faulted?
  {
    if s.node.goalReceived {
      ConcludeNeverFaults(s, i);
    } else if s.node.future.value in s.peer.answers && s.peer.answers[s.node.future.value] {
      ConcludeNeverFaults(Take(s.(node := s.node.(goalReceived := true)), s.node.future.value), i);
    }
  }

  lemma ConcludeNeverFaults(s: Sys, i: TickInput)
    requires s.node.client.Some? && s.node.handle.Some?
    ensures !Conclude(AsWritten, s, i).sig.Faulted?
  {
    RequestCancelFrame(AsWritten, Log(s, StoppedByFeedback(s.node.feedback)), i.cancel);
  }

  /** The condition of a fault, on the members and the ledger before a step and on its inputs. */
  predicate Trips(s: Sys, step: Step) {
    match step
    case TickStep(i) =>
      s.node.status.Running? &&
      (if i.rosOk then s.node.handle.None? && ResultComes(s.peer, Heard(s, i)) else CancelTrips(s, i.cancel))
    case HaltStep(i) => s.node.status.Running? && CancelTrips(s, i)
    case OtherSpin(ds) => s.node.handle.None? && ResultComes(s.peer, ds)
    case Rename(_, _) => false
  }

  /** What a step hears does not depend on the clock. */
  lemma HeardDepends(s: Sys, t: nat, i: TickInput)
    ensures Heard(Elapse(s, t), i) == Heard(s, i)
  {
    if s.node.future.Some? {
      UpToDepends(s.peer, Elapse(s, t).peer, i.futureSpin, s.node.future.value);
    }
  }

  lemma CancelTripsDepends(s: Sys, t: nat, i: CancelInput)
    ensures CancelTrips(Elapse(s, t), i) <==> CancelTrips(s, i)
  {
    if s.node.future.Some? {
      var g, e := s.node.future.value, Elapse(s, t);
      UpToDepends(s.peer, e.peer, i.forResponse, g);
      ResultComesDepends(s.peer, e.peer, UpTo(s.peer, i.forResponse, g));
    }
  }
}
