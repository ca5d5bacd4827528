/**
  Goal accounting: every goal ever sent is in flight in the running activation, or has met exactly
  one fate: rejected, reported, cancel requested, or abandoned on a timeout.
 */
module ActionAccounting {
  import opened Common
  import opened ActionNode
  import opened ActionSpins
  import opened ActionOwnership
  import opened ActionHistory
  import opened ActionRuns

  datatype Fate = RejectedByServer | ResultShown | CancelSent | Abandoned

  /** The fate an event seals for goal `g`. Only the two timeouts abandon a goal. */
  function FateOf(e: Event, g: GoalId): Option<Fate> {
    match e
    case Took(h, accepted) => if h == g && !accepted then Some(RejectedByServer) else None
    case CancelRequested(h) => if h == g then Some(CancelSent) else None
    case WaitExpired(h) => if h == g then Some(Abandoned) else None
    case Failed(SendGoalTimeout, pending, _) => if pending == Some(g) then Some(Abandoned) else None
    case _ => if Shown(e).Some? && Shown(e).value.goal == g then Some(ResultShown) else None
  }

  function Fates(t: Trace, g: GoalId): seq<Fate> {
    match t
    case Start => []
    case Then(past, e) => Fates(past, g) + (if FateOf(e, g).Some? then [FateOf(e, g).value] else [])
  }

  /** The goal the running activation is waiting for, or holds. */
  predicate InFlight(s: Sys, g: GoalId) {
    s.node.status.Running? && Current(s.trace) == Some(g)
  }

  ghost predicate Accounted(s: Sys) {
    forall g: GoalId :: |Fates(s.trace, g)| == if g < s.peer.next && !InFlight(s, g) then 1 else 0
  }

  /** `late` seals one more fate for `g` and none for any other goal. */
  ghost predicate Seals(early: Trace, late: Trace, g: GoalId) {
    forall h: GoalId :: |Fates(late, h)| == |Fates(early, h)| + if h == g then 1 else 0
  }

  ghost predicate SameFates(early: Trace, late: Trace) {
    forall h: GoalId :: Fates(late, h) == Fates(early, h)
  }

  lemma {:induction false} DeliveredSealNothing(early: Trace, late: Trace)
    requires OnlyDelivered(early, late)
    ensures SameFates(early, late)
  {
    if late != early {
      DeliveredSealNothing(early, late.past);
    }
  }

  lemma RequestCancelSeals(v: Variant, s: Sys, i: CancelInput)
    requires s.node.handle.Some?
    ensures Seals(s.trace, RequestCancel(v, s, i).s.trace, s.node.handle.value)
  {
    RequestCancelFrame(v, s, i);
    DeliveredSealNothing(Then(s.trace, CancelRequested(s.node.handle.value)), RequestCancel(v, s, i).s.trace);
  }

  /** The goal that cancelGoal deals with: the one whose handle is held, else the pending one. */
  function Target(s: Sys): Option<GoalId> {
    if s.node.handle.Some? then s.node.handle else s.node.future
  }

  lemma CancelSeals(v: Variant, s: Sys, i: CancelInput)
    requires s.node.client.Some? && Target(s).Some? && CancelGoal(v, s, i).sig.Fine?
    ensures Seals(s.trace, CancelGoal(v, s, i).s.trace, Target(s).value)
  {
    if s.node.handle.Some? {
      RequestCancelSeals(v, s, i);
    } else {
      var g := s.node.future.value;
      var e := Elapse(s, Waited(s, i.responseTook));
      WaitFrame(v, e, i.forResponse, g);
      var r := SpinUntil(v, e, i.forResponse, g);
      DeliveredSealNothing(s.trace, r.s.trace);
      if g in r.s.peer.answers && r.s.peer.answers[g] {
        RequestCancelSeals(v, Take(r.s, g), i);
      }
    }
  }

  /** What a tick seals follows from its decision. */
  lemma FollowsSeals(v: Variant, h: Trace, d: Decision, i: TickInput, r: TickRes, g: GoalId)
    requires Follows(v, h, d, i, r) && Current(h) == Some(g)
    requires d.TimedOut? ==> d.goal == g
    requires d.Rejected? ==> !Taken(h) && Answer(h, g) == Some(false)
    requires d.Show? ==> d.result.goal == g
    requires !d.Rejected? && !Taken(h) && Answer(h, g).Some? ==> Answer(h, g).value
    ensures if d.Wait? then SameFates(h, r.s.trace) else Seals(h, r.s.trace, g)
  {
    assert d.Rejected? || SameFates(h, Held(h));
    if d.Stop? {
      assert SameFates(Held(h), Then(Held(h), StoppedByFeedback(d.verdict)));
      DeliveredSealNothing(Cancelled(h, g, d.verdict), r.s.trace);
    }
  }

  // ---------- what a tick is left with ----------

  /** The verdict of the last feedback that takes effect among `ds`, else `verdict`. */
  function LastVerdict(p: Peer, verdict: NodeStatus, ds: seq<Delivery>): NodeStatus
    decreases ds
  {
    if ds == [] then verdict
    else
      var d := ds[0];
      LastVerdict(AfterOne(p, d), if d.Feedback? && Possible(p, d) then d.verdict else verdict, ds[1..])
  }

  /** The last result that takes effect among `ds` while `handle` is held, else `result`. */
  function LastResult(p: Peer, handle: Option<GoalId>, result: Option<WrappedResult>, ds: seq<Delivery>)
    : Option<WrappedResult>
    decreases ds
  {
    if ds == [] then result
    else
      var d := ds[0];
      LastResult(AfterOne(p, d), handle,
                 if d.ResultMessage? && Possible(p, d) && handle == Some(d.goal)
                 then Some(WrappedResult(d.goal, d.code)) else result, ds[1..])
  }

  /** With what it hears the tick comes to hold the handle of an accepted goal. */
  predicate Holds(s: Sys, i: TickInput) {
    && s.node.status.Running? && i.rosOk
    && (s.node.goalReceived ||
        (s.node.future.Some? && AnswerTo(s.peer, Heard(s, i), s.node.future.value) == Some(true)))
  }

  /** By then onFeedback has asked for a stop. */
  predicate StopsOnFeedback(s: Sys, i: TickInput) {
    Holds(s, i) && !LastVerdict(s.peer, s.node.feedback, Heard(s, i)).Running?
  }

  /** By then the stored result is that of another goal than the one the activation has sent. */
  predicate ShowsStale(s: Sys, i: TickInput) {
    Holds(s, i) && !StopsOnFeedback(s, i) &&
    var r := LastResult(s.peer, s.node.handle, s.node.result, Heard(s, i));
    r.Some? && !r.value.code.Unknown? &&
    Some(r.value.goal) != if s.node.goalReceived then s.node.handle else s.node.future
  }

  /** onFeedback takes the stop back while cancelGoal waits. */
  predicate Flips(s: Sys, i: TickInput) {
    StopsOnFeedback(s, i) &&
    LastVerdict(s.peer, s.node.feedback, Heard(s, i) + (i.cancel.forCancel + i.cancel.forResult)).Running?
  }

  lemma {:induction false} VerdictDepends(p: Peer, q: Peer, verdict: NodeStatus, ds: seq<Delivery>)
    requires p.(clock := 0) == q.(clock := 0)
    ensures LastVerdict(p, verdict, ds) == LastVerdict(q, verdict, ds)
    decreases ds
  {
    if ds != [] {
      var d := ds[0];
      VerdictDepends(AfterOne(p, d), AfterOne(q, d),
                     if d.Feedback? && Possible(p, d) then d.verdict else verdict, ds[1..]);
    }
  }

  lemma {:induction false} ResultDepends(p: Peer, q: Peer, handle: Option<GoalId>, result: Option<WrappedResult>,
                                         ds: seq<Delivery>)
    requires p.(clock := 0) == q.(clock := 0)
    ensures LastResult(p, handle, result, ds) == LastResult(q, handle, result, ds)
    decreases ds
  {
    if ds != [] {
      var d := ds[0];
      ResultDepends(AfterOne(p, d), AfterOne(q, d), handle,
                    if d.ResultMessage? && Possible(p, d) && handle == Some(d.goal)
                    then Some(WrappedResult(d.goal, d.code)) else result, ds[1..]);
    }
  }

  lemma {:induction false} SpinStoresResult(s: Sys, ds: seq<Delivery>)
    requires Spin(AsWritten, s, ds).sig.Fine?
    ensures Spin(AsWritten, s, ds).s.node.result == LastResult(s.peer, s.node.handle, s.node.result, ds)
    decreases ds
  {
    if ds != [] {
      SpinStoresResult(Deliver(AsWritten, s, ds[0]).s, ds[1..]);
    }
  }

  /** A spin as written moves the verdict along its deliveries. */
  lemma {:induction false} SpinMovesVerdict(s: Sys, a: seq<Delivery>, b: seq<Delivery>)
    requires Spin(AsWritten, s, a).sig.Fine?
    ensures var t := Spin(AsWritten, s, a).s;
            LastVerdict(s.peer, s.node.feedback, a + b) == LastVerdict(t.peer, t.node.feedback, b)
    decreases a
  {
    if a == [] {
      assert a + b == b;
    } else {
      assert (a + b)[1..] == a[1..] + b;
      SpinMovesVerdict(Deliver(AsWritten, s, a[0]).s, a[1..], b);
    }
  }

  lemma RequestCancelVerdict(s: Sys, i: CancelInput)
    requires s.node.handle.Some? && CancelObeys(i)
    ensures RequestCancel(AsWritten, s, i).s.node.feedback ==
            LastVerdict(s.peer, s.node.feedback, i.forCancel + i.forResult)
  {
    var asked := Elapse(Log(s, CancelRequested(s.node.handle.value)), Waited(s, i.cancelTook));
    SpinFrame(AsWritten, asked, i.forCancel);
    VerdictDepends(s.peer, asked.peer, s.node.feedback, i.forCancel + i.forResult);
    SpinMovesVerdict(asked, i.forCancel, i.forResult);
    var r := Spin(AsWritten, asked, i.forCancel);
    var e := Elapse(r.s, Waited(r.s, i.resultTook));
    SpinFrame(AsWritten, e, i.forResult);
    VerdictDepends(r.s.peer, e.peer, e.node.feedback, i.forResult);
    assert i.forResult + [] == i.forResult;
    SpinMovesVerdict(e, i.forResult, []);
  }

  /** The same conditions, seen from the state in which the tick decides. */
  lemma HeardDecides(s: Sys, i: TickInput)
    requires Good(AsWritten, s) && s.node.status.Running? && TickObeys(i) && Spins(AsWritten, s, i).sig.Fine? && i.rosOk
    ensures var h := Spins(AsWritten, s, i).s;
            var d := Decide(AsWritten, h.trace, h.peer.clock, TimeoutNs(h.node));
            && LastVerdict(s.peer, s.node.feedback, Heard(s, i) + (i.cancel.forCancel + i.cancel.forResult)) ==
               LastVerdict(h.peer, h.node.feedback, i.cancel.forCancel + i.cancel.forResult)
            && (StopsOnFeedback(s, i) <==> d.Stop?)
            && (ShowsStale(s, i) <==> d.Show? && Current(s.trace) != Some(d.result.goal))
  {
    var heard := Heard(s, i);
    SpinsIsSpin(AsWritten, s, i);
    SpinsTrack(AsWritten, s, i);
    SpinFrame(AsWritten, s, heard);
    var h := Spins(AsWritten, s, i).s;
    DeliveredFrame(s.trace, h.trace);
    assert heard + [] == heard;
    SpinMovesVerdict(s, heard, []);
    SpinMovesVerdict(s, heard, i.cancel.forCancel + i.cancel.forResult);
    SpinStoresResult(s, heard);
    SpinAnswers(AsWritten, s, heard, Current(s.trace).value);
    assert h.peer.(clock := 0) == Ledger(h.trace);
  }

  /** A tick as written that stops on feedback returns the verdict it is left with. */
  lemma StopVerdict(s: Sys, i: TickInput)
    requires Good(AsWritten, s) && s.node.status.Running? && TickObeys(i) && Continue(AsWritten, s, i).sig.Fine?
    requires i.rosOk && StopsOnFeedback(s, i)
    ensures Continue(AsWritten, s, i).status ==
            LastVerdict(s.peer, s.node.feedback, Heard(s, i) + (i.cancel.forCancel + i.cancel.forResult))
  {
    ContinueGood(AsWritten, s, i);
    HeardDecides(s, i);
    SpinsTrack(AsWritten, s, i);
    var h := Spins(AsWritten, s, i).s;
    assert h.peer.(clock := 0) == Ledger(h.trace);
    var held := if h.node.goalReceived then h else Take(h.(node := h.node.(goalReceived := true)), h.node.future.value);
    RequestCancelVerdict(Log(held, StoppedByFeedback(held.node.feedback)), i.cancel);
  }

  // ---------- which steps keep the account ----------

  /** The step cancels before the node holds the handle of its goal. */
  predicate CancelsEarly(s: Sys, step: Step) {
    && s.node.status.Running? && !s.node.goalReceived
    && (step.HaltStep? || (step.TickStep? && !step.input.rosOk))
  }

  /** What the code as written needs of a step; the repaired code needs nothing. */
  predicate SoundStep(v: Variant, s: Sys, step: Step) {
    v.Repaired? ||
    (&& (CancelsEarly(s, step) ==> s.node.handle.None?)
     && (step.TickStep? ==> !Flips(s, step.input) && !ShowsStale(s, step.input)))
  }

  /** Every step is sound, up to a fault if there is one. */
  predicate SoundRun(v: Variant, s: Sys, steps: seq<Step>)
    decreases steps
  {
    steps != [] && !s.faulted && !(v.AsWritten? && Trips(s, steps[0])) ==>
      SoundStep(v, s, steps[0]) && SoundRun(v, Exec(v, s, steps[0]), steps[1..])
  }

  ghost predicate Settled(v: Variant, s: Sys) {
    Good(v, s) && Accounted(s)
  }

  /** A tick of a running node seals the fate of its own goal, or none while the node waits. */
  lemma ContinueAccounts(v: Variant, s: Sys, i: TickInput)
    requires Settled(v, s) && s.node.status.Running? && TickObeys(i) && i.rosOk && Continue(v, s, i).sig.Fine?
    requires v.AsWritten? ==> !ShowsStale(s, i)
    ensures var r := Continue(v, s, i);
            var h := Spins(v, s, i).s;
            var stop := Decide(v, h.trace, h.peer.clock, TimeoutNs(h.node)).Stop?;
            && r.s.peer.next == s.peer.next && Current(r.s.trace) == Current(s.trace)
            && (if r.status.Running? && !stop then SameFates(s.trace, r.s.trace)
                else Seals(s.trace, r.s.trace, Current(s.trace).value))
            && (stop && r.status.Running? ==> v.AsWritten?)
  {
    ContinueGood(v, s, i);
    SpinsPhase(v, s, i);
    SpinsTrack(v, s, i);
    if v.AsWritten? {
      HeardDecides(s, i);
    }
    var r, h := Continue(v, s, i), Spins(v, s, i).s;
    var d := Decide(v, h.trace, h.peer.clock, TimeoutNs(h.node));
    DeliveredSealNothing(s.trace, h.trace);
    DeliveredFrame(s.trace, h.trace);
    RejectedWasNotTaken(v, h);
    FollowsSeals(v, h.trace, d, i, r, Current(h.trace).value);
    FollowsKeepsCurrent(v, h.trace, d, i, r);
    DecidedFrame(v, h, i);
  }

  lemma RejectedWasNotTaken(v: Variant, s: Sys)
    requires Tracked(v, s) && Abstracts(v, s)
    ensures Answer(s.trace, Current(s.trace).value) == Some(false) ==> !Taken(s.trace)
  {
    assert s.peer.(clock := 0) == Ledger(s.trace);
  }

  lemma FollowsKeepsCurrent(v: Variant, h: Trace, d: Decision, i: TickInput, r: TickRes)
    requires Follows(v, h, d, i, r)
    ensures Current(r.s.trace) == Current(h)
  {
    assert Current(Held(h)) == Current(h);
    if d.Stop? {
      var stop := Then(Held(h), StoppedByFeedback(d.verdict));
      assert Current(stop) == Current(h);
      DeliveredFrame(Cancelled(h, Current(h).value, d.verdict), r.s.trace);
    }
  }

  lemma ConcludeFrame(v: Variant, s: Sys, i: TickInput)
    ensures Conclude(v, s, i).s.peer.next == s.peer.next
  {
    CancelFrame(v, Log(s, StoppedByFeedback(s.node.feedback)), i.cancel);
  }

  lemma DecidedFrame(v: Variant, s: Sys, i: TickInput)
    ensures Decided(v, s, i).s.peer.next == s.peer.next
  {
    if s.node.goalReceived || s.node.future.None? {
      ConcludeFrame(v, s, i);
    } else if s.node.future.value in s.peer.answers {
      ConcludeFrame(v, Take(s.(node := s.node.(goalReceived := true)), s.node.future.value), i);
    }
  }

  lemma HaltAccounts(v: Variant, s: Sys, i: CancelInput)
    requires Settled(v, s) && CancelObeys(i) && Halt(v, s, i).sig.Fine?
    requires s.node.status.Running? && !s.node.goalReceived ==> s.node.handle.None?
    ensures var r := Halt(v, s, i).s;
            && r.peer.next == s.peer.next
            && (s.node.status.Running? ==>
                  Current(s.trace).value < s.peer.next && Seals(s.trace, r.trace, Current(s.trace).value))
  {
    if s.node.status.Running? {
      CancelSeals(v, s, i);
      CancelFrame(v, s, i);
      LedgerOk(s.trace);
      assert s.peer.(clock := 0) == Ledger(s.trace);
    }
  }

  /** A cancel before acceptance that meets an older handle forgets the pending goal. */
  lemma EarlyHaltForgets(s: Sys, i: CancelInput)
    requires Settled(AsWritten, s) && s.node.status.Running? && !s.node.goalReceived && CancelObeys(i)
    requires s.node.handle.Some?
    ensures var r := Halt(AsWritten, s, i);
            var g := s.node.future.value;
            r.sig.Fine? && Fates(r.s.trace, g) == [] && g < r.s.peer.next
  {
    RequestCancelSeals(AsWritten, s, i);
    RequestCancelFrame(AsWritten, s, i);
    CancelFrame(AsWritten, s, i);
    LedgerOk(s.trace);
    KeptIsOlder(AsWritten, s.trace);
    assert s.peer.(clock := 0) == Ledger(s.trace);
    assert |Fates(s.trace, s.node.future.value)| == 0;
  }

  lemma ActivateAccounts(v: Variant, s: Sys, i: TickInput)
    requires Settled(v, s) && s.node.status.Idle? && TickObeys(i)
    ensures var r := Activate(v, s, i); r.sig.Fine? && Accounted(SetStatus(r.s, r.status))
  {
    var t := SetStatus(Activate(v, s, i).s, Activate(v, s, i).status);
    forall g: GoalId
      ensures |Fates(t.trace, g)| == if g < t.peer.next && !InFlight(t, g) then 1 else 0
    {
      ActivateSealsNothing(v, s, i, g);
      assert |Fates(s.trace, g)| == if g < s.peer.next then 1 else 0;
    }
  }

  lemma ActivateSealsNothing(v: Variant, s: Sys, i: TickInput, g: GoalId)
    ensures Fates(Activate(v, s, i).s.trace, g) == Fates(s.trace, g)
  {
    assert Fates(Begin(v, s).trace, g) == Fates(s.trace, g);
  }

  /** The node holds no older handle while it waits for one, unless the code is as written. */
  lemma EarlyIsUnheld(v: Variant, s: Sys)
    requires Good(v, s) && v.Repaired? && s.node.status.Running? && !s.node.goalReceived
    ensures s.node.handle.None?
  {
    UntakenKeepsNothing(s.trace);
  }

  /** A running tick that returns keeps the account exactly when it does not flip. */
  lemma ContinueIsExact(v: Variant, s: Sys, i: TickInput)
    requires Settled(v, s) && s.node.status.Running? && TickObeys(i) && i.rosOk && Continue(v, s, i).sig.Fine?
    ensures var r := Continue(v, s, i);
            Accounted(SetStatus(r.s, r.status)) <==> v.Repaired? || (!Flips(s, i) && !ShowsStale(s, i))
  {
    var g := Current(s.trace).value;
    LedgerOk(s.trace);
    assert |Fates(s.trace, g)| == 0 && s.peer.(clock := 0) == Ledger(s.trace);
    var r := Continue(v, s, i);
    var t := SetStatus(r.s, r.status);
    if v.AsWritten? && ShowsStale(s, i) {
      ShowingForgets(s, i);
      assert |Fates(t.trace, g)| == 0 && g < t.peer.next && !InFlight(t, g);
      return;
    }
    ContinueGood(v, s, i);
    ContinueAccounts(v, s, i);
    if v.AsWritten? {
      HeardDecides(s, i);
      if StopsOnFeedback(s, i) {
        StopVerdict(s, i);
      }
    }
    if v.AsWritten? && Flips(s, i) {
      assert |Fates(t.trace, g)| == 1 && InFlight(t, g);
    }
  }

  /** A running tick that returns acts on its decision, and what it hears before seals no fate. */
  lemma TickFollows(v: Variant, s: Sys, i: TickInput)
    requires Good(v, s) && s.node.status.Running? && TickObeys(i) && Continue(v, s, i).sig.Fine?
    ensures var h := Spins(v, s, i).s;
            && h.node.status.Running? && Spins(v, s, i).sig.Fine?
            && Follows(v, h.trace, Decide(v, h.trace, h.peer.clock, TimeoutNs(h.node)), i, Continue(v, s, i))
            && Current(h.trace) == Current(s.trace) && SameFates(s.trace, h.trace)
  {
    ContinueGood(v, s, i);
    SpinsPhase(v, s, i);
    var h := Spins(v, s, i).s;
    DeliveredFrame(s.trace, h.trace);
    DeliveredSealNothing(s.trace, h.trace);
  }

  /** A tick that shows the result of another goal forgets its own. */
  lemma ShowingForgets(s: Sys, i: TickInput)
    requires Settled(AsWritten, s) && s.node.status.Running? && TickObeys(i) && i.rosOk
    requires ShowsStale(s, i) && Continue(AsWritten, s, i).sig.Fine?
    ensures var r := Continue(AsWritten, s, i);
            var g := Current(s.trace).value;
            !r.status.Running? && Fates(r.s.trace, g) == [] && g < r.s.peer.next
  {
    var g := Current(s.trace).value;
    assert |Fates(s.trace, g)| == 0;
    TickFollows(AsWritten, s, i);
    HeardDecides(s, i);
    var h, r := Spins(AsWritten, s, i).s, Continue(AsWritten, s, i);
    var d := Decide(AsWritten, h.trace, h.peer.clock, TimeoutNs(h.node));
    ShownSealsNothingElse(AsWritten, h.trace, d, i, r, g);
    LedgerOk(s.trace);
    assert s.peer.(clock := 0) == Ledger(s.trace);
    ContinueFrame(s, i);
  }

  lemma ShownSealsNothingElse(v: Variant, h: Trace, d: Decision, i: TickInput, r: TickRes, g: GoalId)
    requires Follows(v, h, d, i, r) && d.Show? && d.result.goal != g && TickObeys(i)
    requires Current(h) == Some(g) && Answer(h, g) == Some(true)
    ensures Fates(r.s.trace, g) == Fates(h, g) && !r.status.Running?
  {
    assert Fates(Held(h), g) == Fates(h, g);
  }

  lemma ContinueFrame(s: Sys, i: TickInput)
    requires s.node.status.Running? && Phase(s) && TickObeys(i)
    ensures Continue(AsWritten, s, i).s.peer.next == s.peer.next
  {
    SpinsPhase(AsWritten, s, i);
    DecidedFrame(AsWritten, Spins(AsWritten, s, i).s, i);
  }

  lemma ClockIsIrrelevant(s: Sys, t: nat, i: TickInput)
    ensures Flips(Elapse(s, t), i) <==> Flips(s, i)
    ensures StopsOnFeedback(Elapse(s, t), i) <==> StopsOnFeedback(s, i)
    ensures ShowsStale(Elapse(s, t), i) <==> ShowsStale(s, i)
  {
    var e := Elapse(s, t);
    HeardDepends(s, t, i);
    ResultDepends(s.peer, e.peer, s.node.handle, s.node.result, Heard(s, i));
    VerdictDepends(s.peer, e.peer, s.node.feedback, Heard(s, i));
    VerdictDepends(s.peer, e.peer, s.node.feedback, Heard(s, i) + (i.cancel.forCancel + i.cancel.forResult));
  }

  /** A tick that does not fault keeps the account exactly when it is sound. */
  lemma TickIsExact(v: Variant, s: Sys, i: TickInput)
    requires !s.faulted && Settled(v, s) && TickObeys(i) && !Exec(v, s, TickStep(i)).faulted
    requires s.node.status.Idle? || s.node.status.Running?
    ensures Accounted(Exec(v, s, TickStep(i))) <==> SoundStep(v, s, TickStep(i))
  {
    var e := Elapse(s, i.elapsed);
    var r := Tick(v, s, i);
    ClockIsIrrelevant(s, i.elapsed, i);
    if r.sig.Threw? {
      TickGood(v, s, i);
    } else if !i.rosOk {
      if CancelsEarly(s, TickStep(i)) && v.Repaired? {
        EarlyIsUnheld(v, s);
      }
      if CancelsEarly(s, TickStep(i)) && s.node.handle.Some? {
        EarlyHaltForgets(e, i.cancel);
        assert |Fates(r.s.trace, s.node.future.value)| == 0;
      } else {
        HaltAccounts(v, e, i.cancel);
      }
    } else if s.node.status.Idle? {
      ActivateAccounts(v, e.(node := EnsureClient(e.node, i).value), i);
    } else {
      RunningTick(v, s, i);
      ContinueIsExact(v, e, i);
    }
  }

  lemma HaltIsExact(v: Variant, s: Sys, i: CancelInput)
    requires !s.faulted && Settled(v, s) && CancelObeys(i) && !Exec(v, s, HaltStep(i)).faulted
    ensures Accounted(Exec(v, s, HaltStep(i))) <==> SoundStep(v, s, HaltStep(i))
  {
    HaltGood(v, s, i);
    if CancelsEarly(s, HaltStep(i)) && v.Repaired? {
      EarlyIsUnheld(v, s);
    }
    if CancelsEarly(s, HaltStep(i)) && s.node.handle.Some? {
      EarlyHaltForgets(s, i);
      assert |Fates(Halt(v, s, i).s.trace, s.node.future.value)| == 0;
    } else {
      HaltAccounts(v, s, i);
    }
  }

  /** A step that does not fault keeps the account exactly when it is sound. */
  lemma StepAccountIsExact(v: Variant, s: Sys, step: Step)
    requires !s.faulted && Settled(v, s) && StepObeys(step) && !Exec(v, s, step).faulted
    ensures Accounted(Exec(v, s, step)) <==> SoundStep(v, s, step)
  {
    match step
    case TickStep(i) =>
      if s.node.status.Idle? || s.node.status.Running? {
        TickIsExact(v, s, i);
      }
    case HaltStep(i) => HaltIsExact(v, s, i);
    case OtherSpin(ds) =>
      SpinFrame(v, s, ds);
      DeliveredSealNothing(s.trace, Spin(v, s, ds).s.trace);
      DeliveredFrame(s.trace, Spin(v, s, ds).s.trace);
    case Rename(_, _) =>
  }

  /** The account holds after every step, up to a fault if there is one. */
  ghost predicate AccountedThroughout(v: Variant, s: Sys, steps: seq<Step>)
    decreases steps
  {
    s.faulted ||
    (Accounted(s) && (steps != [] ==> AccountedThroughout(v, Exec(v, s, steps[0]), steps[1..])))
  }

  lemma {:induction false} RunAccountIsExact(v: Variant, s: Sys, steps: seq<Step>)
    requires s.faulted || Settled(v, s)
    requires AllStepsObey(steps)
    ensures AccountedThroughout(v, s, steps) <==> SoundRun(v, s, steps)
    decreases steps
  {
    if steps != [] && !s.faulted {
      var step, t := steps[0], Exec(v, s, steps[0]);
      assert step in steps;
      ExecGood(v, s, step);
      if v.AsWritten? {
        StepFaultIsExact(s, step);
      }
      if !t.faulted {
        StepAccountIsExact(v, s, step);
        if Accounted(t) {
          RunAccountIsExact(v, t, steps[1..]);
        } else {
          assert !AccountedThroughout(v, t, steps[1..]);
        }
      } else {
        assert AccountedThroughout(v, t, steps[1..]);
      }
    }
  }

  // ---------- main results ----------

  /**
    As written, over every contract-obeying run: every goal sent is, at every moment, in flight or
    has met exactly one fate, if and only if every step is sound.
   */
  lemma AccountOfRunsIsExact(s: Sys, steps: seq<Step>)
    requires Initial(s) && AllStepsObey(steps)
    ensures AccountedThroughout(AsWritten, s, steps) <==> SoundRun(AsWritten, s, steps)
  {
    RunAccountIsExact(AsWritten, s, steps);
  }

  lemma {:induction false} ThroughoutMeansAtTheEnd(v: Variant, s: Sys, steps: seq<Step>)
    requires AccountedThroughout(v, s, steps)
    ensures var t := Run(v, s, steps); t.faulted || Accounted(t)
    decreases steps
  {
    if s.faulted {
      FaultedStays(v, s, steps);
    } else if steps != [] {
      ThroughoutMeansAtTheEnd(v, Exec(v, s, steps[0]), steps[1..]);
    }
  }

  lemma {:induction false} RepairedRunsAreSound(s: Sys, steps: seq<Step>)
    ensures SoundRun(Repaired, s, steps)
    decreases steps
  {
    if steps != [] {
      RepairedRunsAreSound(Exec(Repaired, s, steps[0]), steps[1..]);
    }
  }

  /** The repaired node accounts for every goal over every contract-obeying run. */
  lemma RepairedGoals(s: Sys, steps: seq<Step>)
    requires Initial(s) && AllStepsObey(steps)
    ensures Accounted(Run(Repaired, s, steps))
  {
    RepairedRunsAreSound(s, steps);
    RunAccountIsExact(Repaired, s, steps);
    ThroughoutMeansAtTheEnd(Repaired, s, steps);
    RepairedNeverFaults(s, steps);
  }

  /**
    As written, a halt before acceptance keeps the account exactly when the handle is null:
    otherwise an older goal is cancelled a second time and the pending one is forgotten.
   */
  lemma EarlyHaltIsExact(s: Sys, i: CancelInput)
    requires !s.faulted && Settled(AsWritten, s) && s.node.status.Running? && !s.node.goalReceived
    requires CancelObeys(i) && !Exec(AsWritten, s, HaltStep(i)).faulted
    ensures Accounted(Exec(AsWritten, s, HaltStep(i))) <==> s.node.handle.None?
    ensures s.node.handle.Some? ==> Fates(Exec(AsWritten, s, HaltStep(i)).trace, s.node.future.value) == []
  {
    HaltIsExact(AsWritten, s, i);
    if s.node.handle.Some? {
      EarlyHaltForgets(s, i);
    }
  }

  /**
    As written, a running tick keeps the account exactly when it does not show the result of another
    goal, and onFeedback does not take back, while cancelGoal waits, a stop it has asked for: what
    counts there is the last feedback that takes effect.
   */
  lemma RunningTickIsExact(s: Sys, i: TickInput)
    requires !s.faulted && Settled(AsWritten, s) && s.node.status.Running? && TickObeys(i) && i.rosOk
    requires !Trips(s, TickStep(i))
    ensures Accounted(Exec(AsWritten, s, TickStep(i))) <==> !Flips(s, i) && !ShowsStale(s, i)
  {
    StepFaultIsExact(s, TickStep(i));
    TickIsExact(AsWritten, s, i);
  }

  /** An activation halted once it holds its handle requests cancel of its own goal. */
  lemma HeldGoalIsCancelled(v: Variant, s: Sys, i: CancelInput)
    requires !s.faulted && Settled(v, s) && s.node.status.Running? && s.node.goalReceived && CancelObeys(i)
    ensures var t := Exec(v, s, HaltStep(i));
            !t.faulted && Fates(t.trace, Current(s.trace).value) == [CancelSent]
  {
    var g := Current(s.trace).value;
    RequestCancelFrame(v, s, i);
    var asked := Then(s.trace, CancelRequested(g));
    DeliveredSealNothing(asked, CancelGoal(v, s, i).s.trace);
    assert Fates(s.trace, g) == [];
    assert Fates(asked, g) == [CancelSent];
  }

  /** So does an activation that feedback stops, whatever feedback says later. */
  lemma StoppedGoalIsCancelled(s: Sys, i: TickInput)
    requires !s.faulted && Settled(AsWritten, s) && TickObeys(i) && StopsOnFeedback(s, i) && !Trips(s, TickStep(i))
    ensures var t := Exec(AsWritten, s, TickStep(i));
            !t.faulted && Fates(t.trace, Current(s.trace).value) == [CancelSent]
  {
    var e, g := Elapse(s, i.elapsed), Current(s.trace).value;
    StepFaultIsExact(s, TickStep(i));
    ClockIsIrrelevant(s, i.elapsed, i);
    RunningTick(AsWritten, s, i);
    ContinuePhase(AsWritten, e, i);
    TickFollows(AsWritten, e, i);
    HeardDecides(e, i);
    var h, r := Spins(AsWritten, e, i).s, Continue(AsWritten, e, i);
    assert Fates(s.trace, g) == [];
    StopSealsCancel(h.trace, Decide(AsWritten, h.trace, h.peer.clock, TimeoutNs(h.node)), i, r, g);
  }

  lemma StopSealsCancel(h: Trace, d: Decision, i: TickInput, r: TickRes, g: GoalId)
    requires Follows(AsWritten, h, d, i, r) && d.Stop? && Current(h) == Some(g) && Answer(h, g) == Some(true)
    ensures Fates(r.s.trace, g) == Fates(h, g) + [CancelSent]
  {
    var c := Cancelled(h, g, d.verdict);
    DeliveredSealNothing(c, r.s.trace);
    assert Fates(Held(h), g) == Fates(h, g);
    assert Fates(Then(Held(h), StoppedByFeedback(d.verdict)), g) == Fates(h, g);
  }
}
