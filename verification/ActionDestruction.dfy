/**
  A RosActionNode that is destroyed while goals are pending. The callbacks of a goal capture the
  node, the destructor withdraws nothing, and the executor of a client that another node still
  holds goes on running them.
 */
module ActionDestruction {
  import opened Common
  import opened ActionNode
  import opened ActionFeedback
  import opened ActionTraces

  /** The node lives; it is gone, with the ledger of its goals; or a callback has run on the destroyed node. */
  datatype Program = Alive(s: Sys) | Gone(peer: Peer, clientHeld: bool) | Called

  /** `heldElsewhere`: another node keeps the client of the pending goals alive. */
  datatype Move = Live(step: Step) | DestroyNode(heldElsewhere: bool)

  /** Any callback of a goal touches the node: goal response, feedback and result alike. */
  predicate SomePossible(p: Peer, ds: seq<Delivery>) {
    exists d | d in ds :: Possible(p, d)
  }

  function Perform(p: Program, m: Move): Program {
    match p
    case Alive(s) =>
      if m.Live? then Alive(Exec(AsWritten, s, m.step))
      else if s.faulted then p
      else Gone(s.peer, m.heldElsewhere)
    case Gone(peer, held) =>
      if held && m.Live? && m.step.OtherSpin? && SomePossible(peer, m.step.deliveries) then Called else p
    case Called => p
  }

  function PerformAll(p: Program, ms: seq<Move>): Program
    decreases ms
  {
    if ms == [] then p else PerformAll(Perform(p, ms[0]), ms[1..])
  }

  predicate AllLive(ms: seq<Move>) {
    forall m: Move | m in ms :: m.Live?
  }

  /** The move destroys the node while a goal is pending on a client that stays alive. */
  ghost predicate Orphans(p: Program, m: Move) {
    p.Alive? && !p.s.faulted && m.DestroyNode? && m.heldElsewhere && !NothingPending(p.s.peer)
  }

  ghost predicate SomeMoveOrphans(p: Program, ms: seq<Move>)
    decreases ms
  {
    ms != [] && (Orphans(p, ms[0]) || SomeMoveOrphans(Perform(p, ms[0]), ms[1..]))
  }

  lemma PossibleIsPending(p: Peer, d: Delivery)
    ensures Possible(p, d) ==> Pending(p, d.goal)
  {
  }

  /** A destroyed node with nothing pending, or without a client, is left in peace for ever. */
  lemma {:induction false} GoneStaysGone(p: Program, ms: seq<Move>)
    requires p.Gone? && (p.clientHeld ==> NothingPending(p.peer))
    ensures PerformAll(p, ms) == p && !SomeMoveOrphans(p, ms)
    decreases ms
  {
    if ms != [] {
      assert Perform(p, ms[0]) == p by {
        if p.clientHeld && ms[0].Live? && ms[0].step.OtherSpin? {
          forall d | d in ms[0].step.deliveries ensures !Possible(p.peer, d) {
            PossibleIsPending(p.peer, d);
          }
        }
      }
      GoneStaysGone(p, ms[1..]);
    }
  }

  /** What the server can send next about a pending goal. */
  function News(p: Peer, g: GoalId): Delivery {
    if Awaiting(p, g) then GoalResponse(g, true) else ResultMessage(g, Succeeded)
  }

  lemma OrphanIsCalled(p: Program, m: Move, g: GoalId)
    requires Orphans(p, m) && Pending(p.s.peer, g)
    ensures PerformAll(p, [m, Live(OtherSpin([News(p.s.peer, g)]))]) == Called
  {
    var d := News(p.s.peer, g);
    var spin := Live(OtherSpin([d]));
    assert d in [d] && Possible(p.s.peer, d);
    assert [m, spin][1..] == [spin] && [spin][1..] == [];
    assert PerformAll(p, [m, spin]) == PerformAll(Perform(p, m), [spin]);
    assert PerformAll(Perform(p, m), [spin]) == PerformAll(Perform(Perform(p, m), spin), []);
  }

  /**
    Over every run: a destroyed node has been called, or can be by further spins, exactly when some
    move has destroyed it with a goal pending on a client another node holds.
   */
  lemma {:induction false} OrphansAreExact(p: Program, ms: seq<Move>)
    requires p.Alive?
    ensures SomeMoveOrphans(p, ms) <==> exists more :: AllLive(more) && PerformAll(PerformAll(p, ms), more) == Called
    decreases ms
  {
    if ms == [] {
      forall more | AllLive(more) ensures PerformAll(p, more) != Called {
        LiveMovesKeepNode(p, more);
      }
    } else if ms[0].DestroyNode? && !p.s.faulted {
      var g := Perform(p, ms[0]);
      if Orphans(p, ms[0]) {
        var goal :| Pending(p.s.peer, goal);
        OrphanWaits(g, ms[1..], News(p.s.peer, goal));
      } else {
        GoneStaysGone(g, ms[1..]);
        forall more ensures PerformAll(PerformAll(p, ms), more) != Called {
          GoneStaysGone(g, more);
        }
      }
    } else {
      OrphansAreExact(Perform(p, ms[0]), ms[1..]);
    }
  }

  lemma {:induction false} LiveMovesKeepNode(p: Program, ms: seq<Move>)
    requires p.Alive? && AllLive(ms)
    ensures PerformAll(p, ms).Alive?
    decreases ms
  {
    if ms != [] {
      assert ms[0] in ms;
      LiveMovesKeepNode(Perform(p, ms[0]), ms[1..]);
    }
  }

  /** Whatever else happens, the pending goal's news reaches the destroyed node sooner or later. */
  lemma {:induction false} OrphanWaits(p: Program, ms: seq<Move>, d: Delivery)
    requires (p.Gone? && p.clientHeld && Possible(p.peer, d)) || p.Called?
    ensures PerformAll(PerformAll(p, ms), [Live(OtherSpin([d]))]) == Called
    ensures exists more :: AllLive(more) && PerformAll(PerformAll(p, ms), more) == Called
    decreases ms
  {
    var last := [Live(OtherSpin([d]))];
    if ms != [] {
      OrphanWaits(Perform(p, ms[0]), ms[1..], d);
    } else {
      assert d in [d] && last[1..] == [];
      assert PerformAll(p, last) == PerformAll(Perform(p, last[0]), []);
    }
    assert AllLive(last) && PerformAll(PerformAll(p, ms), last) == Called;
  }

  /** From a new node: a goal is accepted, a halt times out, the node is destroyed, and the late result calls it. */
  lemma UseAfterDestructionIsReachable()
    ensures PerformAll(Alive(After(HALTED)),
                       [DestroyNode(true), Live(OtherSpin([ResultMessage(0, Succeeded)]))]) == Called
  {
    AfterHalted();
    assert Pending(After(HALTED).peer, 0);
    OrphanIsCalled(Alive(After(HALTED)), DestroyNode(true), 0);
  }
}
