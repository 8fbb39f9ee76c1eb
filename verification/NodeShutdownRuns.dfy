/** What holds in every run of admission and pipeline together. */
module NodeShutdownRuns {
  import opened Admission
  import A = AdmissionProtocol
  import AI = AdmissionInvariant
  import AR = AdmissionRuns
  import P = Pipeline
  import PI = PipelineInvariant
  import PO = PipelineOrder
  import PR = PipelineRuns
  import opened NodeShutdown

  // ----- every step keeps them together -----

  predicate SameFate(before: A.Phase, after: A.Phase) {
    || after == before
    || (before == A.Losing && after == A.Releasing(true))
    || (before.Releasing? && after == if before.lost then A.Lost else A.Settled)
  }

  lemma PublisherKeepsFates(a: A.State, p: A.Pid, act: A.Act, r: A.Rid)
    requires A.HandsMatch(a) && AI.MailboxOrdered(a) && A.CanAct(a, p, act) && !act.Enqueue?
    ensures A.Acted(a, p, act).mailbox == a.mailbox
    ensures A.Event(r) in a.mailbox ==>
              r in a.receipts && r in A.Acted(a, p, act).receipts && A.Acted(a, p, act).receipts[r] == a.receipts[r]
  {
    hide Fits;
  }

  /** What admission does on its own leaves the mailbox alone, and moves an enqueued event's receipt
      only along the fate that it has. */
  lemma OwnKeepsFates(a: A.State, act: A.Step, r: A.Rid)
    requires A.HandsMatch(a) && AI.MailboxOrdered(a) && A.Enabled(a, act) && IsOwn(act)
    ensures A.Apply(a, act).mailbox == a.mailbox
    ensures A.Event(r) in a.mailbox ==>
              && r in a.receipts && r in A.Apply(a, act).receipts && SameFate(a.receipts[r], A.Apply(a, act).receipts[r])
  {
    if act.Publish? {
      hide A.Acted, A.CanAct, A.HandsMatch, AI.MailboxOrdered;
      PublisherKeepsFates(a, act.p, act.act, r);
    } else {
      hide Fits;
    }
  }

  lemma FollowKept(a: A.State, b: A.State, past: nat, settled: seq<P.Token>, lost: seq<P.Token>)
    requires AllFollow(a, past, settled, lost) && b.mailbox == a.mailbox
    requires forall r :: A.Event(r) in a.mailbox ==> r in a.receipts && r in b.receipts && SameFate(a.receipts[r], b.receipts[r])
    ensures AllFollow(b, past, settled, lost)
  {
    forall t: P.Token ensures Follows(b, past, PI.Count(settled, t), PI.Count(lost, t), t) {
      assert Follows(a, past, PI.Count(settled, t), PI.Count(lost, t), t);
      hide PI.Count;
      if past <= t < past + |a.mailbox| && a.mailbox[t - past].Event? { assert A.Event(a.mailbox[t - past].rid) in a.mailbox; }
    }
  }

  lemma InvAdmit(n: nat, s: State, act: A.Step)
    requires Inv(n, s) && Enabled(s, Admit(act))
    ensures Inv(n, Apply(s, Admit(act)))
  {
    AR.InvStep(s.a, act);
    forall r ensures A.Apply(s.a, act).mailbox == s.a.mailbox && (A.Event(r) in s.a.mailbox ==>
      r in s.a.receipts && r in A.Apply(s.a, act).receipts && SameFate(s.a.receipts[r], A.Apply(s.a, act).receipts[r]))
    {
      hide A.Apply, A.Enabled, A.HandsMatch, AI.MailboxOrdered, SameFate;
      OwnKeepsFates(s.a, act, r);
    }
    OwnKeepsFates(s.a, act, 0);
    hide A.Apply, A.Enabled, AR.Inv, SameFate, AllFollow;
    FollowKept(s.a, A.Apply(s.a, act), s.p.past, s.p.settled, s.p.lost);
  }

  lemma PipelineStep(n: nat, s: P.State, step: P.Step)
    requires P.Reachable(n, s) && P.Enabled(s, step)
    ensures P.Reachable(n, P.Apply(s, step))
  {
    hide P.Enabled, P.Apply;
    var boot, steps :| P.Boots(n, boot) && P.Runs(boot, steps, s);
    PR.RunsSnoc(boot, steps, s, step);
  }

  /** A message that is enqueued is not settled or lost yet. */
  lemma NotYetCounted(n: nat, s: P.State)
    requires P.Reachable(n, s)
    ensures PI.Count(s.settled, |s.submitted|) == 0 && PI.Count(s.lost, |s.submitted|) == 0
  {
    PR.InvReachable(n, s);
    assert PI.Total(s, |s.submitted|) == 0;
  }

  lemma FollowEnqueued(a: A.State, b: A.State, past: nat, settled: seq<P.Token>, lost: seq<P.Token>, m: A.Msg)
    requires AllFollow(a, past, settled, lost) && b.mailbox == a.mailbox + [m]
    requires forall r :: A.Event(r) in a.mailbox ==> r in a.receipts && r in b.receipts && b.receipts[r] == a.receipts[r]
    requires m.Event? ==> m.rid in b.receipts && b.receipts[m.rid] == A.Queued
    requires PI.Count(settled, past + |a.mailbox|) == 0 && PI.Count(lost, past + |a.mailbox|) == 0
    ensures AllFollow(b, past, settled, lost)
  {
    forall t: P.Token ensures Follows(b, past, PI.Count(settled, t), PI.Count(lost, t), t) {
      assert Follows(a, past, PI.Count(settled, t), PI.Count(lost, t), t);
      hide PI.Count;
      if past <= t < past + |a.mailbox| && a.mailbox[t - past].Event? { assert A.Event(a.mailbox[t - past].rid) in a.mailbox; }
    }
  }

  lemma EnqueueEffect(a: A.State, p: A.Pid)
    requires A.HandsMatch(a) && AI.MailboxOrdered(a) && A.CanAct(a, p, A.Enqueue)
    ensures var b, r := A.Acted(a, p, A.Enqueue), a.publishers[p].pc.rid;
            && b.mailbox == a.mailbox + [A.Event(r)] && r in b.receipts && b.receipts[r] == A.Queued
            && forall q :: A.Event(q) in a.mailbox ==> q in a.receipts && q in b.receipts && b.receipts[q] == a.receipts[q]
  {
    hide Fits;
  }

  lemma InvEnqueue(n: nat, s: State, publisher: A.Pid, event: P.Event)
    requires Inv(n, s) && Enabled(s, Enqueue(publisher, event))
    ensures Inv(n, Apply(s, Enqueue(publisher, event)))
  {
    var act := A.Publish(publisher, A.Enqueue);
    EnqueueEffect(s.a, publisher);
    AR.InvStep(s.a, act);
    PipelineStep(n, s.p, P.Submit(event));
    NotYetCounted(n, s.p);
    hide AR.Inv, AllFollow, P.Reachable, PI.Count, A.Acted;
    FollowEnqueued(s.a, A.Apply(s.a, act), s.p.past, s.p.settled, s.p.lost, A.Event(s.a.publishers[publisher].pc.rid));
  }

  lemma ShutdownEffect(a: A.State)
    requires AI.MailboxOrdered(a) && A.CanClose(a, A.SendShutdown)
    ensures var b := A.Closed(a, A.SendShutdown);
            && b.mailbox == a.mailbox + [A.Shutdown] && b.receipts == a.receipts
            && forall r :: A.Event(r) in a.mailbox ==> r in a.receipts
  {}

  lemma InvShutdown(n: nat, s: State, event: P.Event)
    requires Inv(n, s) && Enabled(s, SendShutdown(event))
    ensures Inv(n, Apply(s, SendShutdown(event)))
  {
    var act := A.Close(A.SendShutdown);
    ShutdownEffect(s.a);
    AR.InvStep(s.a, act);
    hide AR.Inv, AllFollow, P.Reachable, PI.Count, A.Closed;
    PipelineStep(n, s.p, P.Submit(event));
    NotYetCounted(n, s.p);
    FollowEnqueued(s.a, A.Apply(s.a, act), s.p.past, s.p.settled, s.p.lost, A.Shutdown);
  }

  lemma LostGrows(s: P.State, step: P.Step)
    requires P.Enabled(s, step)
    ensures s.lost <= P.Apply(s, step).lost
  {
    hide P.OutcomeOf, P.Collect;
  }

  lemma CountsBounded(n: nat, s: P.State, u: P.Token)
    requires P.Reachable(n, s)
    ensures PI.Count(s.settled, u) + PI.Count(s.lost, u) <= if u < |s.submitted| then 1 else 0
  {
    PR.InvReachable(n, s);
    assert PI.Total(s, u) == if u < |s.submitted| then 1 else 0;
  }

  /** What a handler settles or loses was in flight, once. */
  lemma NewlyCounted(n: nat, s: P.State, step: P.Step)
    requires P.Reachable(n, s) && P.Enabled(s, step) && !step.Submit?
    ensures var t := P.Apply(s, step);
            && t.settled == s.settled + Newer(s.settled, t.settled) && t.lost == s.lost + Newer(s.lost, t.lost)
            && |t.submitted| == |s.submitted| && t.past == s.past
            && forall u: P.Token :: PI.Count(t.settled, u) + PI.Count(t.lost, u) <= if u < |t.submitted| then 1 else 0
  {
    var t := P.Apply(s, step);
    PO.LogsGrow(s, step);
    LostGrows(s, step);
    PipelineStep(n, s, step);
    SubmittedKept(s, step);
    hide P.Apply, P.Enabled, P.Reachable, PI.Count;
    forall u: P.Token ensures PI.Count(t.settled, u) + PI.Count(t.lost, u) <= if u < |t.submitted| then 1 else 0 {
      CountsBounded(n, t, u);
    }
  }

  /** What is counted besides the events of earlier boots is of this boot. */
  lemma InThisBoot(n: nat, s: P.State, newer: seq<P.Token>)
    requires P.Reachable(n, s)
    requires forall u: P.Token :: PI.Count(s.settled, u) + PI.Count(newer, u) <= if u < |s.submitted| then 1 else 0
    ensures forall i :: 0 <= i < |newer| ==> s.past <= newer[i] < |s.submitted|
  {
    PR.InvReachable(n, s);
    assert PR.PastSettled(s);
    forall i | 0 <= i < |newer| ensures s.past <= newer[i] < |s.submitted| {
      hide P.Reachable, PR.Inv;
      var u := newer[i];
      PR.CountIn(newer, u);
      assert u in s.settled ==> PI.Count(s.settled, u) > 0;
    }
  }

  lemma SubmittedKept(s: P.State, step: P.Step)
    requires P.Enabled(s, step) && !step.Submit?
    ensures P.Apply(s, step).submitted == s.submitted
  {
    hide P.OutcomeOf, P.Collect;
  }

  lemma InvHandle(n: nat, s: State, handler: P.Step)
    requires Inv(n, s) && Enabled(s, Handle(handler))
    ensures Inv(n, Apply(s, Handle(handler))) && Apply(s, Handle(handler)).a.closer == s.a.closer
  {
    hide AR.Inv, AllFollow, P.Reachable, P.Apply, P.Enabled, PassAll, PI.Count;
    var q := P.Apply(s.p, handler);
    PipelineStep(n, s.p, handler);
    NewlyCounted(n, s.p, handler);
    var settled, lost := Newer(s.p.settled, q.settled), Newer(s.p.lost, q.lost);
    forall u: P.Token ensures PI.Count(q.settled, u) == PI.Count(s.p.settled, u) + PI.Count(settled, u)
                              && PI.Count(q.lost, u) == PI.Count(s.p.lost, u) + PI.Count(lost, u) {
      PI.CountConcat(s.p.settled, settled, u);
      PI.CountConcat(s.p.lost, lost, u);
    }
    InThisBoot(n, s.p, settled);
    InThisBoot(n, s.p, lost);
    PassAllFollows(s.a, s.p.past, s.p.settled, s.p.lost, settled, A.Settle);
    var a := PassAll(s.a, s.p.past, settled, A.Settle);
    PassAllFollows(a, s.p.past, q.settled, s.p.lost, lost, A.ReportLoss);
  }

  lemma InvStep(n: nat, s: State, step: Step)
    requires Inv(n, s) && Enabled(s, step)
    ensures Inv(n, Apply(s, step))
  {
    hide Inv;
    match step
    case Admit(act) => InvAdmit(n, s, act);
    case Enqueue(publisher, event) => InvEnqueue(n, s, publisher, event);
    case SendShutdown(event) => InvShutdown(n, s, event);
    case Handle(handler) => InvHandle(n, s, handler);
  }

  lemma InvBoot(limit: Usage, n: nat, s: State)
    requires Boots(limit, n, s)
    ensures Inv(n, s)
  {
    assert AR.Runs(s.a, [], s.a);
    AR.InvReachable(limit, s.a);
    assert P.Runs(s.p, [], s.p);
  }

  lemma {:induction false} InvRuns(n: nat, s: State, steps: seq<Step>, t: State)
    requires Inv(n, s) && Runs(s, steps, t)
    ensures Inv(n, t)
    decreases |steps|
  {
    hide Inv, Apply, Enabled;
    if steps != [] {
      InvStep(n, s, steps[0]);
      InvRuns(n, Apply(s, steps[0]), steps[1..], t);
    }
  }

  lemma InvReachable(limit: Usage, n: nat, s: State)
    requires Reachable(limit, n, s)
    ensures Inv(n, s)
  {
    hide Inv;
    var boot, steps :| Boots(limit, n, boot) && Runs(boot, steps, s);
    InvBoot(limit, n, boot);
    InvRuns(n, boot, steps, s);
  }

  // ----- after the fence, Shutdown and a flush -----

  /** Shutdown is enqueued, and the latest flush started after it. */
  ghost predicate Closing(s: State) {
    s.a.closer == A.ShutdownSent && s.p.cut == |s.p.submitted|
  }

  lemma CutStep(s: P.State, step: P.Step)
    requires P.Enabled(s, step) && !step.Submit? && s.cut == |s.submitted|
    ensures P.Apply(s, step).cut == |P.Apply(s, step).submitted|
  {
    hide P.OutcomeOf, P.Collect;
  }

  lemma ClosingStep(n: nat, s: State, step: Step)
    requires Inv(n, s) && Closing(s) && Enabled(s, step)
    ensures Closing(Apply(s, step))
  {
    match step
    case Admit(act) => ClosedStays(s.a, act);
    case Enqueue(publisher, _) => NoneHolds(s.a, publisher);
    case SendShutdown(_) =>
    case Handle(handler) =>
      InvHandle(n, s, handler);
      CutStep(s.p, handler);
  }

  lemma ClosedStays(a: A.State, act: A.Step)
    requires a.closer == A.ShutdownSent && A.Enabled(a, act)
    ensures A.Apply(a, act).closer == A.ShutdownSent
  {
    hide Fits;
  }

  lemma NoneHolds(a: A.State, p: A.Pid)
    requires AR.Inv(a) && a.closer == A.ShutdownSent
    ensures !A.CanAct(a, p, A.Enqueue)
  {}

  lemma {:induction false} ClosingRuns(n: nat, s: State, steps: seq<Step>, t: State)
    requires Inv(n, s) && Closing(s) && Runs(s, steps, t)
    ensures Closing(t)
    decreases |steps|
  {
    hide Inv, Closing, Apply, Enabled;
    if steps != [] {
      ClosingStep(n, s, steps[0]);
      InvStep(n, s, steps[0]);
      ClosingRuns(n, Apply(s, steps[0]), steps[1..], t);
    }
  }

  /** Shutdown is enqueued, a flush starts and succeeds. Then every reservation was settled or reported
      as lost: an enqueued event's is settled if its aggregate has a store and lost if it has none, and
      an event that was not enqueued is lost. Only losses that are still being reported hold capacity,
      and so the window is empty once they are done. */
  lemma ShutdownSettlesEverything(limit: Usage, n: nat, s: State, steps: seq<Step>, t: State)
    requires Reachable(limit, n, s) && s.a.closer == A.ShutdownSent && Enabled(s, Handle(P.StartFlush))
    requires Runs(Apply(s, Handle(P.StartFlush)), steps, t) && t.p.flush.Done?
    ensures forall r :: r in t.a.receipts ==> IsSettled(t.a.receipts[r]) || AR.IsLost(t.a.receipts[r])
    ensures t.p.past + |t.a.mailbox| == |t.p.submitted|
    ensures forall k :: 0 <= k < |t.a.mailbox| && t.a.mailbox[k].Event? ==>
              && t.a.mailbox[k].rid in t.a.receipts
              && (IsSettled(t.a.receipts[t.a.mailbox[k].rid]) <==> t.p.submitted[t.p.past + k].aggregate < n)
    ensures (forall r :: r in t.a.receipts ==> t.a.receipts[r] != A.Losing) ==> t.a.window == Usage(0, 0)
  {
    InvReachable(limit, n, s);
    var flush := Handle(P.StartFlush);
    InvStep(n, s, flush);
    FlushStarts(n, s);
    ClosingRuns(n, Apply(s, flush), steps, t);
    InvRuns(n, Apply(s, flush), steps, t);
    SettledAtDone(n, t);
  }

  lemma FlushStarts(n: nat, s: State)
    requires Inv(n, s) && s.a.closer == A.ShutdownSent && Enabled(s, Handle(P.StartFlush))
    ensures Closing(Apply(s, Handle(P.StartFlush)))
  {
    hide Inv, PassAll;
    InvHandle(n, s, P.StartFlush);
  }

  lemma SettledAtDone(n: nat, t: State)
    requires Inv(n, t) && Closing(t) && t.p.flush.Done?
    ensures forall r :: r in t.a.receipts ==> IsSettled(t.a.receipts[r]) || AR.IsLost(t.a.receipts[r])
    ensures forall k :: 0 <= k < |t.a.mailbox| && t.a.mailbox[k].Event? ==>
              && t.a.mailbox[k].rid in t.a.receipts
              && (IsSettled(t.a.receipts[t.a.mailbox[k].rid]) <==> t.p.submitted[t.p.past + k].aggregate < n)
    ensures (forall r :: r in t.a.receipts ==> t.a.receipts[r] != A.Losing) ==> t.a.window == Usage(0, 0)
  {
    forall k: nat | k < |t.a.mailbox| && t.a.mailbox[k].Event?
      ensures t.a.mailbox[k].rid in t.a.receipts && t.a.receipts[t.a.mailbox[k].rid] != A.Queued
      ensures IsSettled(t.a.receipts[t.a.mailbox[k].rid]) <==> t.p.submitted[t.p.past + k].aggregate < n
    {
      hide Inv;
      MailSettled(n, t, k);
    }
    NoneInHand(t.a);
    hide AllFollow, P.Reachable;
    forall r | r in t.a.receipts ensures IsSettled(t.a.receipts[r]) || AR.IsLost(t.a.receipts[r]) {
      if AI.IsDelivered(t.a.receipts[r]) {
        assert A.Event(r) in t.a.mailbox;
        var k: nat :| k < |t.a.mailbox| && t.a.mailbox[k] == A.Event(r);
      }
    }
    WindowHolds(t.a);
  }

  lemma MailSettled(n: nat, t: State, k: nat)
    requires Inv(n, t) && Closing(t) && t.p.flush.Done? && k < |t.a.mailbox| && t.a.mailbox[k].Event?
    ensures t.p.past + |t.a.mailbox| == |t.p.submitted|
    ensures t.a.mailbox[k].rid in t.a.receipts && t.a.receipts[t.a.mailbox[k].rid] != A.Queued
    ensures IsSettled(t.a.receipts[t.a.mailbox[k].rid]) <==> t.p.submitted[t.p.past + k].aggregate < n
  {
    hide AR.Inv, P.Reachable, PI.Count, PI.InFlight;
    var u := t.p.past + k;
    PR.FlushSettles(n, t.p, u);
    assert Follows(t.a, t.p.past, PI.Count(t.p.settled, u), PI.Count(t.p.lost, u), u);
  }

  lemma NoneInHand(a: A.State)
    requires AR.Inv(a) && a.closer == A.ShutdownSent
    ensures forall r :: r in a.receipts ==> !a.receipts[r].InHand?
  {
    assert forall r :: r in a.receipts && a.receipts[r].InHand? ==> A.At(a, a.receipts[r].holder, A.Holding(r));
  }

  lemma WindowHolds(a: A.State)
    requires A.WindowExact(a) && forall r :: r in a.receipts ==> IsSettled(a.receipts[r]) || AR.IsLost(a.receipts[r])
    ensures (forall r :: r in a.receipts ==> a.receipts[r] != A.Losing) ==> a.window == Usage(0, 0)
  {
    assert forall r :: r in a.held ==> r in a.receipts && A.IsOut(a.receipts[r]);
    assert (forall r :: r in a.receipts ==> a.receipts[r] != A.Losing) ==> a.held == map[];
  }
}
