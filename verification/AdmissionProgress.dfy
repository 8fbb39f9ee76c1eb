/** The drain ends: once the fence is closed, `close_and_wait` returns. */
module AdmissionProgress {
  import opened Admission
  import opened AdmissionProtocol
  import opened AdmissionInvariant
  import opened AdmissionRuns

  /** How many steps every publisher has left behind a closed fence. */
  function Left(publishers: map<Pid, Publisher>): map<Pid, nat> {
    map p | p in publishers :: Remaining(publishers[p].pc)
  }

  function CloserLeft(closer: Closer): nat {
    match closer
    case Open => 7
    case Fenced => 6
    case Draining => 5
    case Awaiting => 4
    case Sleeping => 3
    case Drained => 1
    case ShutdownSent => 0
  }

  /** The steps that are left to the publishers and the closer. A notification sends the closer round
      its loop once more, which a publisher's step outweighs. */
  ghost function Work(s: State): nat {
    4 * Sum(Left(s.publishers)) + CloserLeft(s.closer) + if s.permit then 2 else 0
  }

  lemma SumSet(m: map<Pid, nat>, p: Pid, n: nat)
    ensures Sum(m[p := n]) == Sum(m) + n - if p in m then m[p] else 0
  {
    SumWithout(m[p := n], p);
    if p in m {
      SumWithout(m, p);
      assert m[p := n] - {p} == m - {p};
    } else {
      assert m[p := n] - {p} == m;
    }
  }

  /** The closer or a publisher that already exists moves. */
  predicate Drains(step: Step) {
    step.Close? || (step.Publish? && !step.act.Spawn?)
  }

  predicate Spawns(step: Step) {
    step.Publish? && step.act.Spawn?
  }

  lemma WorkAct(s: State, p: Pid, act: Act)
    requires !s.accepting && CanAct(s, p, act)
    ensures !Acted(s, p, act).accepting
    ensures if act.Spawn? then Work(Acted(s, p, act)) == Work(s) + 8 else Work(Acted(s, p, act)) < Work(s)
  {
    var t := Acted(s, p, act);
    var pc := t.publishers[p].pc;
    assert t.publishers == s.publishers[p := t.publishers[p]];
    assert Left(t.publishers) == Left(s.publishers)[p := Remaining(pc)];
    SumSet(Left(s.publishers), p, Remaining(pc));
    if !act.Spawn? { ClosedPublishersFinish(s, p, act); }
    hide Fits, Sum, NextPc;
  }

  lemma WorkStep(s: State, step: Step)
    requires !s.accepting && Enabled(s, step) && step != Close(CloseFence)
    ensures !Apply(s, step).accepting
    ensures Work(Apply(s, step)) + (if Drains(step) then 1 else 0) <= Work(s) + if Spawns(step) then 8 else 0
  {
    if step.Publish? {
      hide Acted, Work;
      WorkAct(s, step.p, step.act);
    } else {
      hide Sum;
      assert Left(Apply(s, step).publishers) == Left(s.publishers);
    }
  }

  /** How many steps of a run drain, and how many bring a new publisher. */
  function DrainSteps(steps: seq<Step>): nat {
    if steps == [] then 0 else (if Drains(steps[0]) then 1 else 0) + DrainSteps(steps[1..])
  }

  function SpawnSteps(steps: seq<Step>): nat {
    if steps == [] then 0 else (if Spawns(steps[0]) then 1 else 0) + SpawnSteps(steps[1..])
  }

  lemma {:induction false} WorkRuns(s: State, steps: seq<Step>, t: State)
    requires Inv(s) && !s.accepting && Runs(s, steps, t)
    ensures DrainSteps(steps) + Work(t) <= Work(s) + 8 * SpawnSteps(steps)
    decreases |steps|
  {
    if steps != [] {
      assert s.closer != Open;
      assert steps[0] != Close(CloseFence);
      hide Inv, Enabled, Apply, Work;
      WorkStep(s, steps[0]);
      InvStep(s, steps[0]);
      WorkRuns(Apply(s, steps[0]), steps[1..], t);
    }
  }

  /** After the fence is closed, publishers and closer take a bounded number of steps: a number known
      when the fence closes, and eight for each publisher that comes later. */
  lemma DrainEnds(limit: Usage, s: State, steps: seq<Step>, t: State)
    requires Reachable(limit, s) && !s.accepting && Runs(s, steps, t)
    ensures DrainSteps(steps) <= Work(s) + 8 * SpawnSteps(steps)
  {
    hide Inv, Work;
    InvReachable(limit, s);
    WorkRuns(s, steps, t);
  }

  // ----- and it ends with Shutdown sent -----

  ghost predicate Quiet(s: State) {
    forall step :: Drains(step) ==> !Enabled(s, step)
  }

  lemma PublisherMoves(s: State, p: Pid)
    requires Conserved(s) && ClosedWakesAll(s) && OnlyWaitersPark(s) && p in s.publishers && s.publishers[p].pc != Finished
    requires s.closer == ShutdownSent
    ensures exists act :: CanAct(s, p, act) && !act.Spawn?
  {
    var publisher := s.publishers[p];
    var rid := FreshKey(s.receipts.Keys);
    NoUnderflow(s);
    var act :=
      match publisher.pc
      case Start => if publisher.waits then Register else FirstLoad
      case Registered => FirstLoad
      case Checked => Increment
      case Parked => Wake
      case Counted => SecondLoad
      case Admitted => FailureCheck
      case Cleared => Reserve(rid)
      case Holding(_) => Enqueue
      case Leaving(_, _) => DropGuard
      case _ => NotifyDrained;
    assert publisher.pc.Leaving? ==> Enabled(s, Publish(p, DropGuard));
    assert CanAct(s, p, act);
  }

  /** When neither the closer nor a publisher can move behind a closed fence, `close_and_wait` has
      returned, Shutdown is enqueued and every publisher is done. */
  lemma DrainEndsWithShutdown(limit: Usage, s: State)
    requires Reachable(limit, s) && !s.accepting
    ensures Quiet(s) ==> s.closer == ShutdownSent && forall p :: p in s.publishers ==> s.publishers[p].pc == Finished
  {
    hide Inv;
    InvReachable(limit, s);
    QuietIsDone(s);
  }

  lemma QuietIsDone(s: State)
    requires Inv(s) && !s.accepting
    ensures Quiet(s) ==> s.closer == ShutdownSent && forall p :: p in s.publishers ==> s.publishers[p].pc == Finished
  {
    CloserMoves(s);
    hide Enabled, CanAct;
    if s.closer == ShutdownSent {
      forall p | p in s.publishers && s.publishers[p].pc != Finished ensures !Quiet(s) {
        PublisherMoves(s, p);
        var act :| CanAct(s, p, act) && !act.Spawn?;
        assert Drains(Publish(p, act));
      }
    }
  }

  lemma CloserMoves(s: State)
    requires Inv(s) && !s.accepting
    ensures s.closer == ShutdownSent || !Quiet(s)
  {
    if s.closer == Sleeping {
      GuardMoves(s);
      var p, act :| CanAct(s, p, act) && !act.Spawn? && (HoldsGuard(s.publishers[p].pc) || s.publishers[p].pc.Notifying?);
      assert Drains(Publish(p, act));
    } else if s.closer != ShutdownSent {
      var close := match s.closer
        case Fenced => NotifyClosed
        case Draining => ReadInFlight
        case Awaiting => AwaitDrained
        case _ => SendShutdown;
      assert Enabled(s, Close(close)) && Drains(Close(close));
    }
  }
}
