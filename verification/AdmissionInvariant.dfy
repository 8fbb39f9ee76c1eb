/** What every step of the admission protocol keeps, and what follows for whole runs. */
module AdmissionInvariant {
  import opened Admission
  import opened AdmissionProtocol

  // ----- guards, window and hands -----

  /** A step of a publisher changes the guard count by its own guard. */
  /** What a publisher's step does to the other fields, whatever its next place. */
  lemma ActFrame(s: State, p: Pid, act: Act)
    requires CanAct(s, p, act)
    ensures var t := Acted(s, p, act);
            && t.publishers == s.publishers[p := NextPublisher(s, p, act)]
            && t.accepting == s.accepting && t.limit == s.limit && t.failed == (s.failed || act.EnqueueFails?)
            && t.inFlight == s.inFlight + (if act.Increment? then 1 else 0) - (if act.DropGuard? then 1 else 0)
            && t.closer == if act.NotifyDrained? && s.closer == Sleeping then Draining else s.closer
  {
    hide Fits, NextPublisher;
  }

  lemma PcFrame(s: State, p: Pid, act: Act)
    requires CanAct(s, p, act)
    ensures var t := Acted(s, p, act);
            && t.publishers == s.publishers[p := t.publishers[p]]
            && HoldsGuard(t.publishers[p].pc) == (act.Increment? || (p in Guards(s) && !act.DropGuard?))
            && t.inFlight == s.inFlight + (if act.Increment? then 1 else 0) - (if act.DropGuard? then 1 else 0)
            && (act.Increment? ==> p !in Guards(s)) && (act.DropGuard? ==> p in Guards(s))
  {
    ActFrame(s, p, act);
    hide Acted, Fits;
  }

  lemma GuardsAct(s: State, p: Pid, act: Act)
    requires GuardsCounted(s) && CanAct(s, p, act)
    ensures GuardsCounted(Acted(s, p, act))
  {
    PcFrame(s, p, act);
    hide Acted, CanAct;
    var t := Acted(s, p, act);
    if act.Increment? {
      assert Guards(t) == Guards(s) + {p};
    } else if act.DropGuard? {
      assert Guards(t) == Guards(s) - {p};
    } else {
      assert Guards(t) == Guards(s);
    }
  }

  lemma GuardsStep(s: State, step: Step)
    requires GuardsCounted(s) && Enabled(s, step)
    ensures GuardsCounted(Apply(s, step))
  {
    hide Acted;
    if step.Publish? {
      GuardsAct(s, step.p, step.act);
    } else {
      assert Guards(Apply(s, step)) == Guards(s);
    }
  }

  lemma WindowReserve(s: State, p: Pid, rid: Rid)
    requires WindowExact(s) && ChargesCapped(s) && CanAct(s, p, Reserve(rid))
    ensures WindowExact(Acted(s, p, Reserve(rid)))
  {
    var t := Acted(s, p, Reserve(rid));
    if Reserves(s, p, Reserve(rid)) {
      SumWith(s.held, rid, s.publishers[p].bytes);
      if s.window.events == 0 { assert s.held.Keys == {}; }
    }
  }

  lemma SumWith(m: map<Rid, nat>, r: Rid, bytes: nat)
    requires r !in m
    ensures |m[r := bytes]| == |m| + 1 && Sum(m[r := bytes]) == Sum(m) + bytes
  {
    var m' := m[r := bytes];
    assert m'.Keys == m.Keys + {r};
    SumWithout(m', r);
    assert m' - {r} == m;
  }

  lemma WindowReturn(s: State, rid: Rid, pass: ReceiptAct)
    requires WindowExact(s) && CanPass(s, rid, pass) && (pass.Settle? || pass.ReturnLost?)
    ensures WindowExact(Passed(s, rid, pass))
  {
    SumWithout(s.held, rid);
    assert (s.held - {rid}).Keys == s.held.Keys - {rid};
  }

  /** A receipt that changes hands keeps its capacity. */
  lemma WindowPassedOn(s: State, t: State, rid: Rid, phase: Phase)
    requires WindowExact(s) && rid in s.receipts && IsOut(phase) == IsOut(s.receipts[rid])
    requires t.limit == s.limit && t.held == s.held && t.window == s.window && t.receipts == s.receipts[rid := phase]
    ensures WindowExact(t)
  {
    hide Sum;
  }

  lemma WindowAct(s: State, p: Pid, act: Act)
    requires WindowExact(s) && HandsMatch(s) && CanAct(s, p, act) && !act.Reserve?
    ensures WindowExact(Acted(s, p, act))
  {
    hide Fits, Sum, NextPublisher;
    if MovesReceipt(act) {
      hide WindowExact;
      WindowPassedOn(s, Acted(s, p, act), s.publishers[p].pc.rid, if act.Enqueue? then Queued else Losing);
    }
  }

  lemma WindowStep(s: State, step: Step)
    requires WindowExact(s) && ChargesCapped(s) && HandsMatch(s) && Enabled(s, step)
    ensures WindowExact(Apply(s, step))
  {
    hide Acted, Passed, Closed, WindowExact;
    if step.Publish? && step.act.Reserve? {
      WindowReserve(s, step.p, step.act.rid);
    } else if step.Pass? && (step.pass.Settle? || step.pass.ReturnLost?) {
      WindowReturn(s, step.rid, step.pass);
    } else if step.Publish? {
      WindowAct(s, step.p, step.act);
    } else if step.Pass? {
      WindowReport(s, step.rid, step.pass);
    } else {
      WindowClose(s, step);
    }
  }

  lemma WindowReport(s: State, rid: Rid, pass: ReceiptAct)
    requires WindowExact(s) && CanPass(s, rid, pass) && !pass.Settle? && !pass.ReturnLost?
    ensures WindowExact(Passed(s, rid, pass))
  {
    hide WindowExact, NotifyAll;
    WindowPassedOn(s, Passed(s, rid, pass), rid, Passed(s, rid, pass).receipts[rid]);
  }

  lemma WindowClose(s: State, step: Step)
    requires WindowExact(s) && Enabled(s, step) && (step.Close? || step.SignalFailure?)
    ensures WindowExact(Apply(s, step))
  {
    hide NotifyAll, Sum;
  }

  lemma ChargesStep(s: State, step: Step)
    requires ChargesCapped(s) && Enabled(s, step)
    ensures ChargesCapped(Apply(s, step))
  {
    hide Fits;
  }

  lemma HandsFence(s: State, p: Pid, act: Act)
    requires HandsMatch(s) && CanAct(s, p, act) && !MovesReceipt(act)
    ensures HandsMatch(Acted(s, p, act))
  {}

  lemma HandsReceipt(s: State, p: Pid, act: Act)
    requires HandsMatch(s) && CanAct(s, p, act) && MovesReceipt(act)
    ensures HandsMatch(Acted(s, p, act))
  {
    hide Fits;
  }

  lemma HandsStep(s: State, step: Step)
    requires HandsMatch(s) && Enabled(s, step)
    ensures HandsMatch(Apply(s, step))
  {
    hide Acted;
    if step.Publish? {
      if MovesReceipt(step.act) { HandsReceipt(s, step.p, step.act); } else { HandsFence(s, step.p, step.act); }
    }
  }

  // ----- the fence -----

  predicate HoldsAcceptedGuard(pc: Pc) {
    pc.Admitted? || pc.Cleared? || pc.Holding? || (pc.Leaving? && pc.accepted)
  }

  predicate HasDrained(s: State) {
    s.closer == Drained || s.closer == ShutdownSent
  }

  /** The fence is open until the closer closes it, and no publisher holds an accepted guard once
      the closer has seen an empty counter. */
  ghost predicate FenceHolds(s: State) {
    && (s.accepting <==> s.closer == Open)
    && (HasDrained(s) ==> forall p :: p in s.publishers ==> !HoldsAcceptedGuard(s.publishers[p].pc))
  }

  lemma FenceAct(s: State, p: Pid, act: Act)
    requires FenceHolds(s) && CanAct(s, p, act)
    ensures FenceHolds(Acted(s, p, act))
  {
    ActFrame(s, p, act);
    hide Acted, Fits;
  }

  lemma FenceStep(s: State, step: Step)
    requires FenceHolds(s) && GuardsCounted(s) && Enabled(s, step)
    ensures FenceHolds(Apply(s, step))
  {
    hide Acted;
    if step.Publish? {
      FenceAct(s, step.p, step.act);
    } else if step == Close(ReadInFlight) && s.inFlight == 0 {
      assert Guards(s) == {};
      assert forall p :: p in s.publishers && HoldsGuard(s.publishers[p].pc) ==> p in Guards(s);
    }
  }

  // ----- wakeups -----

  predicate AboutToPark(pc: Pc) {
    pc.Parked? || ((pc.Leaving? || pc.Notifying?) && pc.next.ToPark?)
  }

  /** Some receipt has returned its capacity and not yet notified the waiting publishers. */
  ghost predicate ReleasePending(s: State) {
    exists r :: r in s.receipts && s.receipts[r].Releasing?
  }

  /** A waiting publisher that was refused and not notified since still does not fit, unless a
      release is about to notify it. */
  ghost predicate NoLostWakeup(s: State) {
    forall p :: p in s.publishers && AboutToPark(s.publishers[p].pc) && !s.publishers[p].notified ==>
      !Fits(s.window, s.publishers[p].bytes, WaitingShare(s.limit)) || ReleasePending(s)
  }

  lemma WakeupAct(s: State, p: Pid, act: Act)
    requires NoLostWakeup(s) && HandsMatch(s) && CanAct(s, p, act)
    ensures NoLostWakeup(Acted(s, p, act))
  {
    var t := Acted(s, p, act);
    ReleaseStaysPending(s, p, act);
    forall q | q in t.publishers && AboutToPark(t.publishers[q].pc) && !t.publishers[q].notified
      ensures !Fits(t.window, t.publishers[q].bytes, WaitingShare(t.limit)) || ReleasePending(t)
    {
      if Reserves(s, p, act) && q != p && !ReleasePending(s) {
        FullerFitsLess(s.window, s.publishers[p].bytes, s.publishers[q].bytes, WaitingShare(s.limit));
      }
    }
  }

  lemma ReleaseStaysPending(s: State, p: Pid, act: Act)
    requires CanAct(s, p, act) && HandsMatch(s)
    ensures ReleasePending(s) ==> ReleasePending(Acted(s, p, act))
  {
    hide Fits;
    if ReleasePending(s) {
      var r :| r in s.receipts && s.receipts[r].Releasing?;
      assert Acted(s, p, act).receipts[r].Releasing?;
    }
  }

  lemma WakeupPass(s: State, rid: Rid, pass: ReceiptAct)
    requires NoLostWakeup(s) && CanPass(s, rid, pass)
    ensures NoLostWakeup(Passed(s, rid, pass))
  {
    hide Fits;
    var t := Passed(s, rid, pass);
    if pass.Settle? || pass.ReturnLost? {
      assert t.receipts[rid].Releasing?;
    } else if pass.ReportLoss? && ReleasePending(s) {
      var r :| r in s.receipts && s.receipts[r].Releasing?;
      assert t.receipts[r].Releasing?;
    }
  }

  lemma WakeupStep(s: State, step: Step)
    requires NoLostWakeup(s) && HandsMatch(s) && Enabled(s, step)
    ensures NoLostWakeup(Apply(s, step))
  {
    hide Acted, Passed, Fits;
    match step
    case Publish(p, act) => WakeupAct(s, p, act);
    case Pass(rid, pass) => WakeupPass(s, rid, pass);
    case _ =>
      var t := Apply(s, step);
      assert t.receipts == s.receipts;
      assert ReleasePending(s) ==> ReleasePending(t);
  }

  /** Only waiting publishers park. */
  ghost predicate OnlyWaitersPark(s: State) {
    forall p :: p in s.publishers && AboutToPark(s.publishers[p].pc) ==> s.publishers[p].waits
  }

  lemma ParkStep(s: State, step: Step)
    requires OnlyWaitersPark(s) && Enabled(s, step)
    ensures OnlyWaitersPark(Apply(s, step))
  {
    hide Fits;
  }

  /** Once the closer has notified, a waiting publisher that missed the notification has only just
      registered and is about to see the closed fence. */
  ghost predicate ClosedWakesAll(s: State) {
    s.closer != Open && s.closer != Fenced ==>
      forall p :: p in s.publishers && s.publishers[p].waits && !s.publishers[p].notified ==>
        s.publishers[p].pc == Start || s.publishers[p].pc == Registered || s.publishers[p].pc == Finished
  }

  lemma ClosedWakesStep(s: State, step: Step)
    requires ClosedWakesAll(s) && FenceHolds(s) && Enabled(s, step)
    ensures ClosedWakesAll(Apply(s, step))
  {
    hide Fits;
  }

  /** Some publisher has taken the counter to zero and not yet notified the closer. */
  ghost predicate DrainPending(s: State) {
    exists p :: p in s.publishers && s.publishers[p].pc.Notifying?
  }

  /** The closer never sleeps on an empty counter unless its wakeup is on the way. */
  ghost predicate CloserWakes(s: State) {
    && (s.closer == Sleeping ==> s.inFlight > 0 || DrainPending(s))
    && (s.closer == Awaiting ==> s.inFlight > 0 || s.permit || DrainPending(s))
  }

  lemma CloserWakesAct(s: State, p: Pid, act: Act)
    requires CloserWakes(s) && CanAct(s, p, act)
    ensures CloserWakes(Acted(s, p, act))
  {
    hide Fits;
    var t := Acted(s, p, act);
    if act.DropGuard? && s.inFlight == 1 {
      assert t.publishers[p].pc.Notifying?;
    } else if !act.NotifyDrained? && DrainPending(s) {
      var q :| q in s.publishers && s.publishers[q].pc.Notifying?;
      assert t.publishers[q].pc.Notifying?;
    }
  }

  lemma CloserWakesStep(s: State, step: Step)
    requires CloserWakes(s) && Enabled(s, step)
    ensures CloserWakes(Apply(s, step))
  {
    hide Acted;
    if step.Publish? {
      CloserWakesAct(s, step.p, step.act);
    } else if DrainPending(s) {
      var q :| q in s.publishers && s.publishers[q].pc.Notifying?;
      assert Apply(s, step).publishers[q].pc.Notifying?;
    }
  }

  // ----- the mailbox -----

  /** A receipt whose event reached the mailbox and was not lost. */
  predicate IsDelivered(phase: Phase) {
    phase.Queued? || phase.Settled? || (phase.Releasing? && !phase.lost)
  }

  /** The mailbox holds each event at most once and none that is still in hand; every event that is
      neither in hand nor lost is in it; and once Shutdown is in it, it is the last message. */
  ghost predicate MailboxOrdered(s: State) {
    && (forall i, j :: 0 <= i < j < |s.mailbox| ==> s.mailbox[i] != s.mailbox[j])
    && (forall r :: Event(r) in s.mailbox ==> r in s.receipts && !s.receipts[r].InHand?)
    && (forall r :: r in s.receipts && IsDelivered(s.receipts[r]) ==> Event(r) in s.mailbox)
    && (Shutdown in s.mailbox <==> s.closer == ShutdownSent)
    && (s.closer == ShutdownSent ==> s.mailbox[|s.mailbox| - 1] == Shutdown)
  }

  lemma MailboxAct(s: State, p: Pid, act: Act)
    requires MailboxOrdered(s) && FenceHolds(s) && HandsMatch(s) && CanAct(s, p, act)
    ensures MailboxOrdered(Acted(s, p, act))
  {
    hide Fits;
    var t := Acted(s, p, act);
    if act.Enqueue? {
    } else {
      assert t.mailbox == s.mailbox;
    }
  }

  lemma MailboxClose(s: State, close: CloserAct)
    requires MailboxOrdered(s) && CanClose(s, close)
    ensures MailboxOrdered(Closed(s, close))
  {
    var t := Closed(s, close);
    if close.SendShutdown? {
      assert forall m :: m in t.mailbox <==> m in s.mailbox || m == Shutdown;
    }
  }

  lemma MailboxStep(s: State, step: Step)
    requires MailboxOrdered(s) && FenceHolds(s) && HandsMatch(s) && Enabled(s, step)
    ensures MailboxOrdered(Apply(s, step))
  {
    hide Acted, Closed;
    match step
    case Publish(p, act) => MailboxAct(s, p, act);
    case Close(close) => MailboxClose(s, close);
    case _ => assert Apply(s, step).mailbox == s.mailbox;
  }
}
