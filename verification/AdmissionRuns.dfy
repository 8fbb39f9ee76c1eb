/** The promises of the admission protocol over every run from the start. */
module AdmissionRuns {
  import opened Admission
  import opened AdmissionProtocol
  import opened AdmissionInvariant

  ghost predicate Inv(s: State) {
    && Conserved(s)
    && FenceHolds(s)
    && NoLostWakeup(s)
    && OnlyWaitersPark(s)
    && ClosedWakesAll(s)
    && CloserWakes(s)
    && MailboxOrdered(s)
  }

  /** The steps lead from `s` to `t`. */
  ghost predicate Runs(s: State, steps: seq<Step>, t: State)
    decreases |steps|
  {
    if steps == [] then s == t
    else Enabled(s, steps[0]) && Runs(Apply(s, steps[0]), steps[1..], t)
  }

  ghost predicate Reachable(limit: Usage, s: State) {
    exists steps :: Runs(Init(limit), steps, s)
  }

  lemma InvStep(s: State, step: Step)
    requires Inv(s) && Enabled(s, step)
    ensures Inv(Apply(s, step))
  {
    hide GuardsCounted, WindowExact, ChargesCapped, HandsMatch, FenceHolds, NoLostWakeup, OnlyWaitersPark,
      ClosedWakesAll, CloserWakes, MailboxOrdered, Enabled, Apply;
    GuardsStep(s, step);
    WindowStep(s, step);
    ChargesStep(s, step);
    HandsStep(s, step);
    FenceStep(s, step);
    WakeupStep(s, step);
    ParkStep(s, step);
    ClosedWakesStep(s, step);
    CloserWakesStep(s, step);
    MailboxStep(s, step);
  }

  lemma {:induction false} InvRun(s: State, steps: seq<Step>, t: State)
    requires Inv(s) && Runs(s, steps, t)
    ensures Inv(t)
    decreases |steps|
  {
    hide Inv, Enabled, Apply;
    if steps != [] {
      InvStep(s, steps[0]);
      InvRun(Apply(s, steps[0]), steps[1..], t);
    }
  }

  /** Every reachable state keeps the invariant. */
  lemma InvReachable(limit: Usage, s: State)
    requires Reachable(limit, s)
    ensures Inv(s)
  {
    var steps :| Runs(Init(limit), steps, s);
    assert Guards(Init(limit)) == {};
    InvRun(Init(limit), steps, s);
  }

  // ----- the shutdown fence -----

  /** Once the closer has drained, no publisher holds an accepted guard, now or ever after; the
      events enqueued by then are all that are ever enqueued, each once and before Shutdown; and a
      reservation whose event is not among them was reported as lost. */
  lemma FenceOrdersShutdown(limit: Usage, s: State, steps: seq<Step>, t: State)
    requires Reachable(limit, s) && HasDrained(s) && Runs(s, steps, t)
    ensures HasDrained(t)
    ensures forall p :: p in t.publishers ==> !HoldsAcceptedGuard(t.publishers[p].pc)
    ensures Shutdown !in s.mailbox ==> t.mailbox == s.mailbox || t.mailbox == s.mailbox + [Shutdown]
    ensures Shutdown in s.mailbox ==> t.mailbox == s.mailbox && s.mailbox[|s.mailbox| - 1] == Shutdown
    ensures forall r :: r in t.receipts ==> r in s.receipts && (Event(r) in s.mailbox || IsLost(t.receipts[r]))
  {
    InvReachable(limit, s);
    DrainedRun(s, steps, t);
    InvRun(s, steps, t);
    forall r | r in t.receipts ensures Event(r) in s.mailbox || IsLost(t.receipts[r]) {
      assert Event(r) in t.mailbox ==> Event(r) in s.mailbox;
      assert t.receipts[r].InHand? ==> At(t, t.receipts[r].holder, Holding(r));
    }
  }

  predicate IsLost(phase: Phase) {
    phase.Losing? || phase.Lost? || (phase.Releasing? && phase.lost)
  }

  lemma {:induction false} DrainedRun(s: State, steps: seq<Step>, t: State)
    requires Inv(s) && HasDrained(s) && Runs(s, steps, t)
    ensures HasDrained(t)
    ensures t.receipts.Keys == s.receipts.Keys
    ensures t.mailbox == s.mailbox || (s.closer == Drained && t.mailbox == s.mailbox + [Shutdown])
    decreases |steps|
  {
    hide Inv, Enabled, Apply;
    if steps != [] {
      DrainedStep(s, steps[0]);
      InvStep(s, steps[0]);
      DrainedRun(Apply(s, steps[0]), steps[1..], t);
    }
  }

  lemma DrainedStep(s: State, step: Step)
    requires Inv(s) && HasDrained(s) && Enabled(s, step)
    ensures var t := Apply(s, step);
            && HasDrained(t) && t.receipts.Keys == s.receipts.Keys
            && ((t.closer == s.closer && t.mailbox == s.mailbox) ||
                (s.closer == Drained && t.closer == ShutdownSent && t.mailbox == s.mailbox + [Shutdown]))
  {
    hide Fits;
    assert step.Publish? ==> !MovesReceipt(step.act);
  }

  // ----- the window -----

  /** The window is exactly the live reservations and within its limits, a release or a guard drop
      never takes a counter below zero, and two capped events never hold capacity together. */
  lemma WindowConserved(limit: Usage, s: State)
    requires Reachable(limit, s)
    ensures s.limit == limit
    ensures s.window == Usage(|s.held|, Sum(s.held))
    ensures s.window.events <= (if limit.events > 1 then limit.events else 1) && s.window.bytes <= limit.bytes
    ensures forall r :: r in s.receipts && (s.receipts[r] == Queued || s.receipts[r] == Losing) ==> Returnable(s, r)
    ensures limit.bytes > 0 ==>
              forall r, q :: r in s.held && q in s.held && r != q ==> s.held[r] < MaxCharge(limit) || s.held[q] < MaxCharge(limit)
  {
    InvReachable(limit, s);
    var steps :| Runs(Init(limit), steps, s);
    LimitFixed(Init(limit), steps, s);
    NoUnderflow(s);
    forall r | r in s.receipts && IsOut(s.receipts[r]) ensures Returnable(s, r) {
      SumWithout(s.held, r);
    }
    if limit.bytes > 0 {
      forall r, q | r in s.held && q in s.held && r != q ensures s.held[r] < MaxCharge(limit) || s.held[q] < MaxCharge(limit) {
        SumWithout(s.held, r);
        SumWithout(s.held - {r}, q);
      }
    }
  }

  /** The cap leaves no room for a second capped event exactly when the byte limit is positive. */
  lemma CapExcludesAPair(limit: Usage)
    ensures 2 * MaxCharge(limit) > limit.bytes <==> limit.bytes > 0
  {}

  lemma {:induction false} LimitFixed(s: State, steps: seq<Step>, t: State)
    requires Runs(s, steps, t)
    ensures t.limit == s.limit
    decreases |steps|
  {
    if steps != [] {
      LimitFixed(Apply(s, steps[0]), steps[1..], t);
    }
  }

  // ----- losses -----

  ghost function Past(s: State): set<Pid> {
    set p | p in s.publishers && s.publishers[p].pc == Cleared
  }

  /** Some continuation gives the publisher a receipt that it does not have yet. */
  ghost predicate CanStillReserve(s: State, p: Pid) {
    exists steps, t, r :: Runs(s, steps, t) && NewReceipt(s, t, p, r)
  }

  ghost predicate NewReceipt(s: State, t: State, p: Pid, r: Rid) {
    r in t.receipts && r !in s.receipts && r in t.authors && t.authors[r] == p
  }

  /** After a loss or a signalled failure a publisher can still get a receipt, in some continuation,
      if and only if it had already passed the failure check. Every later attempt is refused. */
  lemma FailureRefuses(limit: Usage, s: State, p: Pid)
    requires Reachable(limit, s) && s.failed
    ensures CanStillReserve(s, p) <==> p in Past(s)
  {
    InvReachable(limit, s);
    if CanStillReserve(s, p) {
      var steps, t, r :| Runs(s, steps, t) && NewReceipt(s, t, p, r);
      FailedRun(s, steps, t);
    }
    if p in Past(s) { PastCanReserve(s, p); }
  }

  /** All reservations of a continuation are of publishers that had passed the check. */
  lemma OnlyPastReserve(limit: Usage, s: State, steps: seq<Step>, t: State)
    requires Reachable(limit, s) && s.failed && Runs(s, steps, t)
    ensures t.failed
    ensures forall r :: r in t.receipts && r !in s.receipts ==> r in t.authors && t.authors[r] in Past(s)
  {
    InvReachable(limit, s);
    FailedRun(s, steps, t);
  }

  /** The next step gives a publisher a receipt if and only if it passed the check and its event fits. */
  lemma FittingPastReserves(s: State, p: Pid, rid: Rid)
    requires rid !in s.receipts
    ensures (Enabled(s, Publish(p, Reserve(rid))) && rid in Apply(s, Publish(p, Reserve(rid))).receipts)
            <==> p in Past(s) && Fits(s.window, s.publishers[p].bytes, Share(s, p))
  {}

  /** One publisher of an empty event, and nothing else yet. */
  function Solo(limit: Usage, pc: Pc, inFlight: nat, failed: bool): State {
    State(limit, true, inFlight, Usage(0, 0), map[], failed, map[0 := Publisher(pc, false, 0, false)], map[], map[], false, Open, [])
  }

  lemma SoloEnters(limit: Usage)
    ensures var spawn := Publish(0, Spawn(false, 0));
            Enabled(Init(limit), spawn) && Apply(Init(limit), spawn) == Solo(limit, Start, 0, false)
    ensures var load := Publish(0, FirstLoad);
            Enabled(Solo(limit, Start, 0, false), load) && Apply(Solo(limit, Start, 0, false), load) == Solo(limit, Checked, 0, false)
  {}

  lemma SoloCounts(limit: Usage)
    ensures var count := Publish(0, Increment);
            Enabled(Solo(limit, Checked, 0, false), count) && Apply(Solo(limit, Checked, 0, false), count) == Solo(limit, Counted, 1, false)
    ensures var load := Publish(0, SecondLoad);
            Enabled(Solo(limit, Counted, 1, false), load) && Apply(Solo(limit, Counted, 1, false), load) == Solo(limit, Admitted, 1, false)
  {}

  lemma SoloClears(limit: Usage)
    ensures var check := Publish(0, FailureCheck);
            Enabled(Solo(limit, Admitted, 1, false), check) && Apply(Solo(limit, Admitted, 1, false), check) == Solo(limit, Cleared, 1, false)
    ensures Apply(Solo(limit, Cleared, 1, false), SignalFailure) == Solo(limit, Cleared, 1, true)
  {}

  lemma SoloReserves(limit: Usage)
    ensures var s, reserve := Solo(limit, Cleared, 1, true), Publish(0, Reserve(0));
            && Enabled(s, reserve) && Apply(s, reserve).receipts == map[0 := InHand(0)] && Apply(s, reserve).window == Usage(1, 0)
  {}

  /** The run in which a publisher reserves after the failure: the signal comes between its failure
      check and its reservation. */
  lemma ReservesAfterFailure(limit: Usage)
    ensures var before := [Publish(0, Spawn(false, 0)), Publish(0, FirstLoad), Publish(0, Increment),
                           Publish(0, SecondLoad), Publish(0, FailureCheck), SignalFailure];
            var s, reserve := Solo(limit, Cleared, 1, true), Publish(0, Reserve(0));
            && Runs(Init(limit), before, s) && s.failed && s.receipts == map[]
            && Enabled(s, reserve) && Apply(s, reserve).receipts == map[0 := InHand(0)] && Apply(s, reserve).window == Usage(1, 0)
  {
    SoloEnters(limit);
    SoloCounts(limit);
    SoloClears(limit);
    SoloReserves(limit);
    hide Apply, Enabled, Init;
    var a, b, c := Publish(0, Spawn(false, 0)), Publish(0, FirstLoad), Publish(0, Increment);
    var d, e, f := Publish(0, SecondLoad), Publish(0, FailureCheck), SignalFailure;
    var s0 := Init(limit);
    OneStep(s0, a);
    RunsSnoc(s0, [a], Solo(limit, Start, 0, false), b);
    assert [a] + [b] == [a, b];
    RunsSnoc(s0, [a, b], Solo(limit, Checked, 0, false), c);
    assert [a, b] + [c] == [a, b, c];
    RunsSnoc(s0, [a, b, c], Solo(limit, Counted, 1, false), d);
    assert [a, b, c] + [d] == [a, b, c, d];
    RunsSnoc(s0, [a, b, c, d], Solo(limit, Admitted, 1, false), e);
    assert [a, b, c, d] + [e] == [a, b, c, d, e];
    SignalEnabled(Solo(limit, Cleared, 1, false));
    RunsSnoc(s0, [a, b, c, d, e], Solo(limit, Cleared, 1, false), f);
    assert [a, b, c, d, e] + [f] == [a, b, c, d, e, f];
  }

  lemma SignalEnabled(s: State)
    ensures Enabled(s, SignalFailure)
  {}

  lemma OneStep(s: State, step: Step)
    requires Enabled(s, step)
    ensures Runs(s, [step], Apply(s, step))
  {
    hide Enabled, Apply;
    assert [step][1..] == [];
  }

  lemma {:induction false} RunsSnoc(s: State, steps: seq<Step>, t: State, step: Step)
    requires Runs(s, steps, t) && Enabled(t, step)
    ensures Runs(s, steps + [step], Apply(t, step))
    decreases |steps|
  {
    hide Enabled, Apply;
    if steps == [] {
      assert steps + [step] == [step];
      OneStep(s, step);
    } else {
      RunsSnoc(Apply(s, steps[0]), steps[1..], t, step);
      assert (steps + [step])[0] == steps[0] && (steps + [step])[1..] == steps[1..] + [step];
    }
  }

  lemma {:induction false} RunsConcat(s: State, a: seq<Step>, m: State, b: seq<Step>, t: State)
    requires Runs(s, a, m) && Runs(m, b, t)
    ensures Runs(s, a + b, t)
    decreases |a|
  {
    hide Enabled, Apply;
    if a == [] {
      assert a + b == b;
    } else {
      RunsConcat(Apply(s, a[0]), a[1..], m, b, t);
      assert (a + b)[0] == a[0] && (a + b)[1..] == a[1..] + b;
    }
  }

  lemma ReturnQueued(s: State, p: Pid, r: Rid)
    requires Conserved(s) && p in Past(s) && r in s.receipts && (s.receipts[r] == Queued || s.receipts[r] == Losing)
    ensures var step := Pass(r, if s.receipts[r] == Queued then Settle else ReturnLost);
            Enabled(s, step) && p in Past(Apply(s, step)) && Apply(s, step).held == s.held - {r}
  {
    NoUnderflow(s);
    hide Conserved;
  }

  /** A held reservation can be returned without touching a publisher past the check. */
  lemma ReturnOne(s: State, p: Pid, r: Rid) returns (steps: seq<Step>, t: State)
    requires Inv(s) && p in Past(s) && r in s.held
    ensures Runs(s, steps, t) && p in Past(t) && t.held == s.held - {r}
  {
    var m, before := s, [];
    assert r in s.receipts && IsOut(s.receipts[r]);
    hide Past, Enabled, Apply, GuardsCounted, WindowExact, HandsMatch;
    if s.receipts[r].InHand? {
      var step := Publish(s.receipts[r].holder, Enqueue);
      OneStep(s, step);
      InvStep(s, step);
      m, before := Apply(s, step), [step];
    }
    ReturnQueued(m, p, r);
    var last := Pass(r, if m.receipts[r] == Queued then Settle else ReturnLost);
    t := Apply(m, last);
    RunsSnoc(s, before, m, last);
    steps := before + [last];
  }

  lemma {:induction false} EmptyWindow(s: State, p: Pid) returns (steps: seq<Step>, t: State)
    requires Inv(s) && p in Past(s)
    ensures Runs(s, steps, t) && Inv(t) && p in Past(t) && t.held == map[]
    decreases |s.held.Keys|
  {
    hide Past, Inv, Enabled, Apply;
    if s.held == map[] {
      steps, t := [], s;
    } else {
      var r :| r in s.held;
      var first, m := ReturnOne(s, p, r);
      assert m.held.Keys == s.held.Keys - {r};
      InvRun(s, first, m);
      var rest;
      rest, t := EmptyWindow(m, p);
      RunsConcat(s, first, m, rest, t);
      steps := first + rest;
    }
  }

  /** A publisher that passed the check reserves at the latest when the window is empty. */
  lemma PastCanReserve(s: State, p: Pid)
    requires Inv(s) && p in Past(s)
    ensures CanStillReserve(s, p)
  {
    var before, m := EmptyWindow(s, p);
    var rid := FreshKey(m.receipts.Keys);
    var step := Publish(p, Reserve(rid));
    assert m.window.events == 0;
    FittingPastReserves(m, p, rid);
    RunsSnoc(s, before, m, step);
    AuthorsKept(s, before, m);
    assert NewReceipt(s, Apply(m, step), p, rid);
  }

  lemma {:induction false} FailedRun(s: State, steps: seq<Step>, t: State)
    requires Inv(s) && s.failed && Runs(s, steps, t)
    ensures t.failed && Past(t) <= Past(s)
    ensures forall r :: r in t.receipts && r !in s.receipts ==> r in t.authors && t.authors[r] in Past(s)
    decreases |steps|
  {
    hide Apply, Enabled, Past;
    if steps != [] {
      var m := Apply(s, steps[0]);
      FailedStep(s, steps[0]);
      InvStep(s, steps[0]);
      FailedRun(m, steps[1..], t);
      AuthorsKept(m, steps[1..], t);
    }
  }

  lemma FailedStep(s: State, step: Step)
    requires HandsMatch(s) && s.failed && Enabled(s, step)
    ensures var t := Apply(s, step);
            && t.failed && Past(t) <= Past(s)
            && (forall r :: r in s.receipts ==> r in t.receipts)
            && (forall r :: r in t.receipts && r !in s.receipts ==> r in t.authors && t.authors[r] in Past(s))
  {
    hide Fits;
  }

  lemma {:induction false} AuthorsKept(s: State, steps: seq<Step>, t: State)
    requires Runs(s, steps, t)
    ensures forall r :: r in s.receipts ==> r in t.receipts
    ensures forall r :: r in s.receipts && r in s.authors ==> r in t.authors && t.authors[r] == s.authors[r]
    decreases |steps|
  {
    hide Apply, Enabled;
    if steps != [] {
      AuthorsStep(s, steps[0]);
      AuthorsKept(Apply(s, steps[0]), steps[1..], t);
    }
  }

  lemma AuthorsStep(s: State, step: Step)
    requires Enabled(s, step)
    ensures var t := Apply(s, step);
            && (forall r :: r in s.receipts ==> r in t.receipts)
            && (forall r :: r in s.receipts && r in s.authors ==> r in t.authors && t.authors[r] == s.authors[r])
  {
    hide Fits;
  }

  // ----- wakeups and draining -----

  /** No wakeup is lost: a parked publisher that could be admitted now is notified, or a release is
      about to notify it. After the closer's notification every parked publisher can wake. */
  lemma WakeupsReachWaiters(limit: Usage, s: State, p: Pid)
    requires Reachable(limit, s) && At(s, p, Parked)
    ensures s.publishers[p].notified || ReleasePending(s) ||
            !Fits(s.window, s.publishers[p].bytes, WaitingShare(s.limit))
    ensures s.publishers[p].notified || ReleasePending(s) || s.window.events > 0
    ensures s.closer != Open && s.closer != Fenced ==> CanAct(s, p, Wake)
    ensures !HoldsGuard(s.publishers[p].pc)
  {
    InvReachable(limit, s);
  }

  /** The closer is never stuck: while it sleeps, some publisher that holds a guard or owes it a
      notification can take its next step. */
  lemma DrainNeverStuck(limit: Usage, s: State)
    requires Reachable(limit, s) && s.closer == Sleeping
    ensures exists p, act :: CanAct(s, p, act) && !act.Spawn? && (HoldsGuard(s.publishers[p].pc) || s.publishers[p].pc.Notifying?)
  {
    hide Inv;
    InvReachable(limit, s);
    GuardMoves(s);
  }

  lemma GuardMoves(s: State)
    requires Inv(s) && s.closer == Sleeping
    ensures exists p, act :: CanAct(s, p, act) && !act.Spawn? && (HoldsGuard(s.publishers[p].pc) || s.publishers[p].pc.Notifying?)
  {
    var p: Pid;
    if s.inFlight > 0 {
      assert Guards(s) != {};
      p :| p in Guards(s);
    } else {
      p :| p in s.publishers && s.publishers[p].pc.Notifying?;
    }
    var rid := FreshKey(s.receipts.Keys);
    var act := NextAct(s, p, rid);
    assert CanAct(s, p, act) && !act.Spawn?;
  }

  ghost function NextAct(s: State, p: Pid, rid: Rid): Act
    requires p in s.publishers
  {
    match s.publishers[p].pc
    case Counted => SecondLoad
    case Admitted => FailureCheck
    case Cleared => Reserve(rid)
    case Holding(_) => Enqueue
    case Leaving(_, _) => DropGuard
    case _ => NotifyDrained
  }

  lemma {:induction false} FreshKey(keys: set<Rid>) returns (k: Rid)
    ensures k !in keys
    ensures forall i :: i in keys ==> i < k
  {
    if keys == {} {
      k := 0;
    } else {
      var i :| i in keys;
      var others := keys - {i};
      k := FreshKey(others);
      k := if i < k then k else i + 1;
      assert forall j :: j in keys ==> j == i || j in others;
    }
  }

  /** How many steps a publisher has left once the fence is closed. */
  function Remaining(pc: Pc): nat {
    match pc
    case Checked => 10
    case Counted => 9
    case Admitted => 8
    case Cleared => 7
    case Holding(_) => 6
    case Leaving(_, _) => 5
    case Notifying(_) => 4
    case Parked => 3
    case Start => 2
    case Registered => 1
    case Finished => 0
  }

  /** Behind a closed fence every step of a publisher brings it closer to its end, so the drain ends. */
  lemma ClosedPublishersFinish(s: State, p: Pid, act: Act)
    requires !s.accepting && CanAct(s, p, act) && !act.Spawn?
    ensures var t := Acted(s, p, act);
            && !t.accepting
            && Remaining(t.publishers[p].pc) < Remaining(s.publishers[p].pc)
            && forall q :: q in s.publishers && q != p ==> q in t.publishers && t.publishers[q] == s.publishers[q]
  {
    hide Fits;
  }
}
