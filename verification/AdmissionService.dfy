/**
 What admission owes a publisher: it is refused only when the window is full, a waiting publisher gives
 up only when the node shuts down or fails, and waiting publishers leave the rest of the window free.
 */
module AdmissionService {
  import opened Admission
  import opened AdmissionProtocol
  import opened AdmissionInvariant
  import opened AdmissionRuns

  // ----- refused only when full -----

  /** Past the check, a publisher is refused if and only if reservations are live and the event would
      take their number or their bytes over the limit, or over a quarter of it for a publisher that waits. */
  lemma RefusedIffFull(limit: Usage, s: State, p: Pid, rid: Rid)
    requires Reachable(limit, s) && At(s, p, Cleared) && rid !in s.receipts
    ensures Enabled(s, Publish(p, Reserve(rid)))
    ensures var t, publisher := Apply(s, Publish(p, Reserve(rid))), s.publishers[p];
            var events := if publisher.waits then limit.events / 4 else limit.events;
            var bytes := if publisher.waits then limit.bytes / 4 else limit.bytes;
            if s.held != map[] && (|s.held| >= events || Sum(s.held) + publisher.bytes > bytes)
            then t.held == s.held && t.receipts == s.receipts
                 && t.publishers[p].pc == Leaving(if publisher.waits then ToPark else ToFinish, true)
            else t.held == s.held[rid := publisher.bytes] && t.receipts == s.receipts[rid := InHand(p)]
                 && t.authors == s.authors[rid := p] && t.publishers[p].pc == Holding(rid)
  {
    InvReachable(limit, s);
    var steps :| Runs(Init(limit), steps, s);
    LimitFixed(Init(limit), steps, s);
    assert s.window == Usage(|s.held|, Sum(s.held));
    assert |s.held| == 0 <==> s.held == map[];
    hide Sum, Reachable, Inv;
  }

  // ----- a publisher keeps trying -----

  /** The publisher holds no receipt and is not done. */
  predicate Trying(pc: Pc) {
    !pc.Holding? && !pc.Finished? && ((pc.Leaving? || pc.Notifying?) ==> pc.next == ToPark)
  }

  ghost predicate Open(s: State) {
    Inv(s) && s.accepting && !s.failed
  }

  lemma Earlier(s: State, step: Step, p: Pid)
    requires Enabled(s, step) && CanStillReserve(Apply(s, step), p)
    ensures CanStillReserve(s, p)
  {
    hide Enabled, Apply;
    var m := Apply(s, step);
    var steps, t, r :| Runs(m, steps, t) && NewReceipt(m, t, p, r);
    AuthorsStep(s, step);
    assert ([step] + steps)[1..] == steps;
    assert Runs(s, [step] + steps, t) && NewReceipt(s, t, p, r);
  }

  /** The steps of a publisher between its start and its reservation. */
  function NextTry(s: State, p: Pid): Act
    requires p in s.publishers
  {
    match s.publishers[p].pc
    case Start => if s.publishers[p].waits then Register else FirstLoad
    case Registered => FirstLoad
    case Checked => Increment
    case Counted => SecondLoad
    case Admitted => FailureCheck
    case Parked => Wake
    case Leaving(_, _) => DropGuard
    case _ => NotifyDrained
  }

  /** How far a publisher is from its reservation. */
  function Distance(pc: Pc): nat {
    match pc
    case Cleared => 0
    case Admitted => 1
    case Counted => 2
    case Checked => 3
    case Registered => 4
    case Start => 5
    case Parked => 6
    case Notifying(_) => 7
    case _ => 8
  }

  lemma TryAdvances(s: State, p: Pid)
    requires s.accepting && !s.failed && p in s.publishers && Trying(s.publishers[p].pc) && s.publishers[p].pc != Cleared
    requires s.publishers[p].pc == Parked ==> s.publishers[p].notified
    requires s.publishers[p].pc.Leaving? ==> s.inFlight >= 1
    ensures CanAct(s, p, NextTry(s, p)) && !NextTry(s, p).EnqueueFails?
    ensures var pc := NextPublisher(s, p, NextTry(s, p)).pc; Trying(pc) && Distance(pc) < Distance(s.publishers[p].pc)
  {}

  lemma TryMoves(s: State, p: Pid)
    requires Open(s) && p in s.publishers && Trying(s.publishers[p].pc) && s.publishers[p].pc != Cleared
    requires s.publishers[p].pc == Parked ==> s.publishers[p].notified
    ensures CanAct(s, p, NextTry(s, p))
    ensures var t := Acted(s, p, NextTry(s, p));
            && t.accepting && !t.failed && p in t.publishers && Trying(t.publishers[p].pc)
            && Distance(t.publishers[p].pc) < Distance(s.publishers[p].pc)
  {
    assert s.publishers[p].pc.Leaving? ==> s.inFlight >= 1 by {
      NoUnderflow(s);
      assert s.publishers[p].pc.Leaving? ==> Enabled(s, Publish(p, DropGuard));
    }
    hide Inv, Trying, Distance, NextTry, NextPublisher, Acted, CanAct;
    TryAdvances(s, p);
    ActFrame(s, p, NextTry(s, p));
  }

  /** A reservation on its way back, or a notification on its way, wakes a parked publisher. */
  lemma NotifyParked(s: State, p: Pid, r: Rid) returns (step: Step)
    requires Open(s) && At(s, p, Parked) && r in s.receipts && s.receipts[r].Releasing?
    ensures Enabled(s, step)
    ensures var t := Apply(s, step); Open(t) && At(t, p, Parked) && t.publishers[p].notified
  {
    step := Pass(r, NotifyReleased);
    InvStep(s, step);
    hide Inv;
  }

  lemma ReleaseOne(s: State, p: Pid, r: Rid)
    requires Open(s) && At(s, p, Parked) && r in s.receipts && (s.receipts[r] == Queued || s.receipts[r] == Losing)
    ensures CanStillReserve(s, p)
    decreases 9, 1
  {
    var step := Pass(r, if s.receipts[r] == Queued then Settle else ReturnLost);
    NoUnderflow(s);
    InvStep(s, step);
    var t := Apply(s, step);
    assert t.accepting && !t.failed && At(t, p, Parked) && r in t.receipts && t.receipts[r].Releasing?;
    hide Inv, Enabled, Apply, CanStillReserve;
    ReleasedAdmits(t, p, r);
    Earlier(s, step, p);
  }

  lemma ReleasedAdmits(s: State, p: Pid, r: Rid)
    requires Open(s) && At(s, p, Parked) && r in s.receipts && s.receipts[r].Releasing?
    ensures CanStillReserve(s, p)
    decreases 9, 0
  {
    hide Inv, Enabled, Apply, CanStillReserve;
    var step := NotifyParked(s, p, r);
    TryAdmits(Apply(s, step), p);
    Earlier(s, step, p);
  }

  /** With the fence open, a publisher that may take its next step by itself gets a receipt in the end. */
  lemma {:induction false} TryAdmits(s: State, p: Pid)
    requires Open(s) && p in s.publishers && Trying(s.publishers[p].pc)
    requires Distance(s.publishers[p].pc) <= 6 && (s.publishers[p].pc == Parked ==> s.publishers[p].notified)
    ensures CanStillReserve(s, p)
    decreases Distance(s.publishers[p].pc)
  {
    if s.publishers[p].pc == Cleared {
      PastCanReserve(s, p);
    } else {
      var step := Publish(p, NextTry(s, p));
      TryMoves(s, p);
      assert Enabled(s, step) && Apply(s, step) == Acted(s, p, NextTry(s, p));
      InvStep(s, step);
      hide Inv, Enabled, Apply, Acted, CanStillReserve;
      TryAdmits(Apply(s, step), p);
      Earlier(s, step, p);
    }
  }

  lemma EnqueueLeaves(s: State, q: Pid, r: Rid, p: Pid)
    requires At(s, q, Holding(r)) && At(s, p, Parked)
    ensures var t := Acted(s, q, Enqueue);
            && t.accepting == s.accepting && t.failed == s.failed && At(t, p, Parked) && t.receipts == s.receipts[r := Queued]
  {}

  lemma EnqueueHeld(s: State, p: Pid, r: Rid) returns (step: Step)
    requires Open(s) && At(s, p, Parked) && r in s.receipts && s.receipts[r].InHand?
    ensures Enabled(s, step)
    ensures var t := Apply(s, step); Open(t) && At(t, p, Parked) && r in t.receipts && t.receipts[r] == Queued
  {
    var q := s.receipts[r].holder;
    step := Publish(q, Enqueue);
    assert At(s, q, Holding(r));
    hide Inv, Acted;
    InvStep(s, step);
    EnqueueLeaves(s, q, r, p);
  }

  lemma ParkedAdmits(s: State, p: Pid)
    requires Open(s) && At(s, p, Parked)
    ensures CanStillReserve(s, p)
  {
    if s.publishers[p].notified {
      TryAdmits(s, p);
    } else if ReleasePending(s) {
      var r :| r in s.receipts && s.receipts[r].Releasing?;
      ReleasedAdmits(s, p, r);
    } else {
      assert s.window.events > 0;
      assert s.held != map[];
      var r :| r in s.held;
      assert r in s.receipts && IsOut(s.receipts[r]);
      hide Inv, Enabled, Apply, CanStillReserve;
      if s.receipts[r].InHand? {
        var step := EnqueueHeld(s, p, r);
        ReleaseOne(Apply(s, step), p, r);
        Earlier(s, step, p);
      } else {
        ReleaseOne(s, p, r);
      }
    }
  }

  lemma {:induction false} TryingAdmits(s: State, p: Pid)
    requires Open(s) && p in s.publishers && Trying(s.publishers[p].pc)
    ensures CanStillReserve(s, p)
    decreases Distance(s.publishers[p].pc)
  {
    if s.publishers[p].pc == Parked {
      ParkedAdmits(s, p);
    } else if Distance(s.publishers[p].pc) <= 6 {
      TryAdmits(s, p);
    } else {
      var step := Publish(p, NextTry(s, p));
      TryMoves(s, p);
      assert Enabled(s, step) && Apply(s, step) == Acted(s, p, NextTry(s, p));
      InvStep(s, step);
      hide Inv, Enabled, Apply, Acted, CanStillReserve;
      TryingAdmits(Apply(s, step), p);
      Earlier(s, step, p);
    }
  }

  // ----- what other steps leave alone -----

  /** No new reservation, and every publisher still waits or not as before. */
  ghost predicate Unreserved(s: State, t: State) {
    && t.limit == s.limit && t.authors == s.authors && t.receipts.Keys == s.receipts.Keys
    && (forall r :: r in t.held ==> r in s.held && t.held[r] == s.held[r])
    && (forall p :: p in s.publishers ==> p in t.publishers && t.publishers[p].waits == s.publishers[p].waits)
  }

  lemma ActLeaves(s: State, p: Pid, act: Act)
    requires HandsMatch(s) && CanAct(s, p, act) && !act.Reserve?
    ensures Unreserved(s, Acted(s, p, act))
  {
    hide Fits, NextPc;
  }

  lemma StepLeaves(s: State, step: Step)
    requires HandsMatch(s) && Enabled(s, step) && !(step.Publish? && step.act.Reserve?)
    ensures Unreserved(s, Apply(s, step))
  {
    if step.Publish? {
      hide Acted, CanAct, HandsMatch, Unreserved;
      ActLeaves(s, step.p, step.act);
    } else {
      hide HandsMatch;
    }
  }

  lemma ReserveLeaves(s: State, p: Pid, rid: Rid)
    requires CanAct(s, p, Reserve(rid))
    ensures var t, bytes := Acted(s, p, Reserve(rid)), s.publishers[p].bytes;
            && t.limit == s.limit && t.publishers.Keys == s.publishers.Keys
            && (forall q :: q in s.publishers ==> t.publishers[q].waits == s.publishers[q].waits)
            && if Fits(s.window, bytes, Share(s, p))
               then t.held == s.held[rid := bytes] && t.authors == s.authors[rid := p] && t.receipts == s.receipts[rid := InHand(p)]
               else t.held == s.held && t.authors == s.authors && t.receipts == s.receipts
  {
    hide Fits;
  }

  // ----- who gives up -----

  /** The publisher is done, or only drops its guard before it is. */
  predicate Ends(pc: Pc) {
    pc.Finished? || ((pc.Leaving? || pc.Notifying?) && pc.next == ToFinish)
  }

  ghost predicate HasReserved(s: State, p: Pid) {
    exists r :: r in s.authors && s.authors[r] == p
  }

  /** A waiting publisher ends with a reservation of its own, or because the fence closed, the pipeline
      failed or it found the sequencer stopped. */
  ghost predicate WaitersPersist(s: State, stopped: set<Pid>) {
    && (forall p :: p in s.publishers && s.publishers[p].waits && Ends(s.publishers[p].pc) ==>
          !s.accepting || s.failed || p in stopped || HasReserved(s, p))
    && (forall p :: p in s.publishers && s.publishers[p].pc.Holding? ==> HasReserved(s, p))
  }

  /** The publishers that found the sequencer stopped, with those that do so in a step. */
  function Stopped(stopped: set<Pid>, step: Step): set<Pid> {
    if step.Publish? && step.act.SequencerStopped? then stopped + {step.p} else stopped
  }

  lemma ReservedStays(s: State, p: Pid, act: Act, q: Pid)
    requires CanAct(s, p, act) && HandsMatch(s) && AuthorsKnown(s) && HasReserved(s, q)
    ensures HasReserved(Acted(s, p, act), q)
  {
    var r :| r in s.authors && s.authors[r] == q;
    assert Acted(s, p, act).authors[r] == q;
  }

  /** A waiting publisher turns to its end only at a closed fence, a stopped sequencer, a failure, or
      with its receipt enqueued or lost. */
  lemma TurnsToEnd(s: State, p: Pid, act: Act)
    requires CanAct(s, p, act) && (act.Spawn? || s.publishers[p].waits) && Ends(NextPublisher(s, p, act).pc)
    ensures !act.Spawn? && (Ends(s.publishers[p].pc) || s.publishers[p].pc.Holding? || !s.accepting || s.failed || act.SequencerStopped?)
  {
    hide Fits;
  }

  lemma PersistAct(s: State, stopped: set<Pid>, p: Pid, act: Act)
    requires WaitersPersist(s, stopped) && HandsMatch(s) && AuthorsKnown(s) && CanAct(s, p, act)
    ensures WaitersPersist(Acted(s, p, act), Stopped(stopped, Publish(p, act)))
  {
    assert act.Spawn? || p in s.publishers;
    hide HasReserved, HandsMatch, AuthorsKnown, Acted, CanAct, NextPc, Ends;
    var t := Acted(s, p, act);
    ActFrame(s, p, act);
    forall q | HasReserved(s, q) ensures HasReserved(t, q) { ReservedStays(s, p, act, q); }
    if t.publishers[p].pc.Holding? { HoldsOwn(s, p, act); }
    if (act.Spawn? || s.publishers[p].waits) && Ends(t.publishers[p].pc) { TurnsToEnd(s, p, act); }
  }

  lemma HoldsOwn(s: State, p: Pid, act: Act)
    requires CanAct(s, p, act) && Acted(s, p, act).publishers[p].pc.Holding?
    ensures HasReserved(Acted(s, p, act), p)
  {
    hide Fits;
    assert act.Reserve? && Acted(s, p, act).authors[act.rid] == p;
  }

  lemma PersistStep(s: State, stopped: set<Pid>, step: Step)
    requires WaitersPersist(s, stopped) && HandsMatch(s) && AuthorsKnown(s) && Enabled(s, step)
    ensures WaitersPersist(Apply(s, step), Stopped(stopped, step))
  {
    hide Acted;
    if step.Publish? {
      PersistAct(s, stopped, step.p, step.act);
    } else {
      assert Apply(s, step).authors == s.authors;
    }
  }

  // ----- waiting publishers keep to their share -----

  /** Reservations have authors, and their authors exist. */
  ghost predicate AuthorsKnown(s: State) {
    && (forall r :: r in s.authors ==> r in s.receipts && s.authors[r] in s.publishers)
    && (forall r :: r in s.held ==> r in s.authors)
  }

  /** The live reservations of waiting publishers. */
  ghost function Waiting(s: State): map<Rid, nat> {
    map r | r in s.held && r in s.authors && s.authors[r] in s.publishers && s.publishers[s.authors[r]].waits :: s.held[r]
  }

  ghost predicate WithinShare(limit: Usage, live: map<Rid, nat>) {
    |live| <= 1 || (|live| <= limit.events / 4 && Sum(live) <= limit.bytes / 4)
  }

  lemma {:induction false} SumPart(a: map<Rid, nat>, b: map<Rid, nat>)
    requires forall r :: r in a ==> r in b && a[r] == b[r]
    ensures |a| <= |b| && Sum(a) <= Sum(b)
    decreases |a|
  {
    if a == map[] {
      assert |a| == 0;
    } else {
      var r :| r in a;
      SumWithout(a, r);
      SumWithout(b, r);
      assert (a - {r}).Keys == a.Keys - {r} && (b - {r}).Keys == b.Keys - {r};
      SumPart(a - {r}, b - {r});
    }
  }

  /** Fewer reservations stay within the share. */
  lemma ShareShrinks(limit: Usage, a: map<Rid, nat>, b: map<Rid, nat>)
    requires WithinShare(limit, b) && forall r :: r in a ==> r in b && a[r] == b[r]
    ensures WithinShare(limit, a)
  {
    SumPart(a, b);
  }

  /** A reservation that fits the waiting share leaves everything within it. */
  lemma ShareGrows(limit: Usage, window: Usage, held: map<Rid, nat>, rid: Rid, bytes: nat, live: map<Rid, nat>)
    requires window == Usage(|held|, Sum(held)) && rid !in held && Fits(window, bytes, WaitingShare(limit))
    requires forall r :: r in live ==> r in held[rid := bytes] && live[r] == held[rid := bytes][r]
    ensures WithinShare(limit, live)
  {
    SumWith(held, rid, bytes);
    SumPart(live, held[rid := bytes]);
    hide Sum;
  }

  lemma ShareReserve(s: State, p: Pid, rid: Rid)
    requires WindowExact(s) && AuthorsKnown(s) && WithinShare(s.limit, Waiting(s)) && CanAct(s, p, Reserve(rid))
    ensures WithinShare(s.limit, Waiting(Acted(s, p, Reserve(rid))))
  {
    ReserveLeaves(s, p, rid);
    hide Acted, NextPc;
    var t := Acted(s, p, Reserve(rid));
    if Fits(s.window, s.publishers[p].bytes, Share(s, p)) && s.publishers[p].waits {
      var live, bytes := Waiting(t), s.publishers[p].bytes;
      assert forall r :: r in live ==> r in t.held && live[r] == t.held[r];
      hide AuthorsKnown, Waiting, CanAct;
      ShareGrows(s.limit, s.window, s.held, rid, bytes, live);
    } else {
      hide Fits, WithinShare, WindowExact;
      ShareShrinks(s.limit, Waiting(t), Waiting(s));
    }
  }

  lemma ShareStep(s: State, step: Step)
    requires WindowExact(s) && AuthorsKnown(s) && HandsMatch(s) && WithinShare(s.limit, Waiting(s)) && Enabled(s, step)
    ensures WithinShare(s.limit, Waiting(Apply(s, step)))
  {
    hide WithinShare, WindowExact, HandsMatch, Acted, Passed, Closed;
    if step.Publish? && step.act.Reserve? {
      ShareReserve(s, step.p, step.act.rid);
    } else {
      StepLeaves(s, step);
      hide Apply, Enabled;
      ShareShrinks(s.limit, Waiting(Apply(s, step)), Waiting(s));
    }
  }

  lemma AuthorsKnownStep(s: State, step: Step)
    requires AuthorsKnown(s) && HandsMatch(s) && Enabled(s, step)
    ensures AuthorsKnown(Apply(s, step)) && Apply(s, step).limit == s.limit
  {
    hide Acted, Passed, Closed, HandsMatch, Fits;
    if step.Publish? && step.act.Reserve? {
      ReserveLeaves(s, step.p, step.act.rid);
    } else {
      StepLeaves(s, step);
    }
  }

  /** A receipt in hand is of its publisher's own reservation. */
  ghost predicate HoldersAuthor(s: State) {
    forall p :: p in s.publishers && s.publishers[p].pc.Holding? ==>
      s.publishers[p].pc.rid in s.authors && s.authors[s.publishers[p].pc.rid] == p
  }

  lemma HoldersAct(s: State, p: Pid, act: Act)
    requires HoldersAuthor(s) && HandsMatch(s) && CanAct(s, p, act)
    ensures HoldersAuthor(Acted(s, p, act))
  {
    var t := Acted(s, p, act);
    ActFrame(s, p, act);
    if act.Reserve? {
      ReserveLeaves(s, p, act.rid);
      assert t.publishers[p].pc.Holding? ==> t.publishers[p].pc.rid == act.rid && t.authors == s.authors[act.rid := p];
    } else {
      ActLeaves(s, p, act);
      NoneStartsHolding(s, p, act);
    }
    hide Acted, NextPublisher, CanAct;
  }

  lemma NoneStartsHolding(s: State, p: Pid, act: Act)
    requires CanAct(s, p, act) && !act.Reserve?
    ensures !NextPublisher(s, p, act).pc.Holding?
  {}

  lemma HoldersStep(s: State, step: Step)
    requires HoldersAuthor(s) && HandsMatch(s) && Enabled(s, step)
    ensures HoldersAuthor(Apply(s, step))
  {
    hide Acted, HandsMatch;
    if step.Publish? { HoldersAct(s, step.p, step.act); }
  }

  // ----- a loss closes admission -----

  /** A receipt that was reported as lost has closed admission. */
  ghost predicate LossCloses(s: State) {
    forall r :: r in s.receipts && IsLost(s.receipts[r]) ==> s.failed
  }

  lemma LossStep(s: State, step: Step)
    requires LossCloses(s) && HandsMatch(s) && Enabled(s, step)
    ensures LossCloses(Apply(s, step))
  {
    hide Fits, NextPublisher;
  }

  ghost predicate Serves(s: State, stopped: set<Pid>) {
    Inv(s) && AuthorsKnown(s) && WaitersPersist(s, stopped) && WithinShare(s.limit, Waiting(s)) && LossCloses(s)
  }

  lemma ServesStep(s: State, stopped: set<Pid>, step: Step)
    requires Serves(s, stopped) && Enabled(s, step)
    ensures Serves(Apply(s, step), Stopped(stopped, step)) && Apply(s, step).limit == s.limit
  {
    assert HandsMatch(s) && WindowExact(s);
    hide Inv, AuthorsKnown, WaitersPersist, WithinShare, Waiting, LossCloses, HandsMatch, WindowExact, Apply, Enabled;
    InvStep(s, step);
    LossStep(s, step);
    AuthorsKnownStep(s, step);
    PersistStep(s, stopped, step);
    ShareStep(s, step);
  }

  /** Over a run, the publishers that found the sequencer stopped. */
  function StoppedIn(stopped: set<Pid>, steps: seq<Step>): (r: set<Pid>)
    ensures forall p :: p in r <==> p in stopped || Publish(p, SequencerStopped) in steps
    decreases |steps|
  {
    if steps == [] then stopped else StoppedIn(Stopped(stopped, steps[0]), steps[1..])
  }

  lemma {:induction false} ServesRun(s: State, stopped: set<Pid>, steps: seq<Step>, t: State)
    requires Serves(s, stopped) && Runs(s, steps, t)
    ensures Serves(t, StoppedIn(stopped, steps)) && t.limit == s.limit
    decreases |steps|
  {
    hide Serves, Enabled, Apply, Stopped;
    if steps != [] {
      ServesStep(s, stopped, steps[0]);
      ServesRun(Apply(s, steps[0]), Stopped(stopped, steps[0]), steps[1..], t);
    }
  }

  lemma ServesFromStart(limit: Usage, steps: seq<Step>, s: State)
    requires Runs(Init(limit), steps, s)
    ensures Serves(s, StoppedIn({}, steps)) && s.limit == limit
  {
    assert Runs(Init(limit), [], Init(limit));
    InvReachable(limit, Init(limit));
    ServesRun(Init(limit), {}, steps, s);
  }

  /** In every run, while the fence is open and nothing failed, a waiting publisher is done without a
      reservation of its own only if it found the sequencer stopped. */
  lemma WaitersPersistInRuns(limit: Usage, steps: seq<Step>, s: State, p: Pid)
    requires Runs(Init(limit), steps, s) && s.accepting && !s.failed
    requires p in s.publishers && s.publishers[p].waits && s.publishers[p].pc == Finished
    ensures Publish(p, SequencerStopped) in steps || exists r :: r in s.authors && s.authors[r] == p
  {
    hide Inv, Runs;
    ServesFromStart(limit, steps, s);
  }

  /** A lost event has closed admission: every publisher that was not past the check by then is refused. */
  lemma LossIsNoticed(limit: Usage, s: State, r: Rid, p: Pid)
    requires Reachable(limit, s) && r in s.receipts && IsLost(s.receipts[r])
    ensures s.failed && (CanStillReserve(s, p) <==> At(s, p, Cleared))
  {
    var steps :| Runs(Init(limit), steps, s);
    hide Inv, CanStillReserve;
    ServesFromStart(limit, steps, s);
    FailureRefuses(limit, s, p);
  }

  /** Waiting publishers together hold a quarter of the window, or a single reservation. */
  lemma WaitersKeepToShare(limit: Usage, s: State)
    requires Reachable(limit, s)
    ensures var live := Waiting(s); |live| <= 1 || (|live| <= limit.events / 4 && Sum(live) <= limit.bytes / 4)
    ensures forall r :: r in s.held ==> r in s.authors && s.authors[r] in s.publishers
  {
    hide Inv;
    var steps :| Runs(Init(limit), steps, s);
    ServesFromStart(limit, steps, s);
  }

  // ----- who can still get a receipt -----

  /** The publisher has its receipt, or is on its way out without one. */
  predicate IsDecided(pc: Pc) {
    pc.Holding? || Ends(pc)
  }

  lemma DecidedAct(s: State, q: Pid, act: Act, p: Pid)
    requires CanAct(s, q, act) && p in s.publishers && IsDecided(s.publishers[p].pc)
    ensures var t := Acted(s, q, act);
            && p in t.publishers && IsDecided(t.publishers[p].pc)
            && forall r :: r in t.authors && t.authors[r] == p ==> r in s.authors && s.authors[r] == p
  {
    OnlyOwnReserve(s, q, act);
    ActFrame(s, q, act);
    if q == p { DecidedStays(s, p, act); }
    hide Acted, NextPublisher, CanAct;
  }

  lemma OnlyOwnReserve(s: State, q: Pid, act: Act)
    requires CanAct(s, q, act)
    ensures var t := Acted(s, q, act);
            t.authors == s.authors || (At(s, q, Cleared) && act.Reserve? && t.authors == s.authors[act.rid := q])
  {
    hide Fits, NextPublisher;
  }

  lemma DecidedStays(s: State, p: Pid, act: Act)
    requires CanAct(s, p, act) && p in s.publishers && IsDecided(s.publishers[p].pc)
    ensures IsDecided(NextPublisher(s, p, act).pc)
  {}

  lemma DecidedStep(s: State, step: Step, p: Pid)
    requires Enabled(s, step) && p in s.publishers && IsDecided(s.publishers[p].pc)
    ensures var t := Apply(s, step);
            && p in t.publishers && IsDecided(t.publishers[p].pc)
            && forall r :: r in t.authors && t.authors[r] == p ==> r in s.authors && s.authors[r] == p
  {
    hide Acted;
    if step.Publish? { DecidedAct(s, step.p, step.act, p); }
  }

  lemma {:induction false} DecidedRuns(s: State, steps: seq<Step>, t: State, p: Pid)
    requires Runs(s, steps, t) && p in s.publishers && IsDecided(s.publishers[p].pc)
    ensures p in t.publishers && IsDecided(t.publishers[p].pc)
    ensures forall r :: r in t.authors && t.authors[r] == p ==> r in s.authors && s.authors[r] == p
    decreases |steps|
  {
    hide Enabled, Apply, IsDecided;
    if steps != [] {
      DecidedStep(s, steps[0], p);
      DecidedRuns(Apply(s, steps[0]), steps[1..], t, p);
    }
  }

  lemma DecidedNeverReserves(s: State, p: Pid)
    requires AuthorsKnown(s) && p in s.publishers && IsDecided(s.publishers[p].pc)
    ensures !CanStillReserve(s, p)
  {
    forall steps, t, r | Runs(s, steps, t) ensures !NewReceipt(s, t, p, r) { DecidedRuns(s, steps, t, p); }
  }

  /** While the fence is open and nothing failed, a publisher can still get a receipt if and only if it is
      still trying. No one is refused forever: wherever it is before its reservation, parked behind a full
      share or woken from there included, it is still trying. */
  lemma NoneRefusedForever(limit: Usage, s: State, p: Pid)
    requires Reachable(limit, s) && s.accepting && !s.failed && p in s.publishers
    ensures CanStillReserve(s, p) <==> Trying(s.publishers[p].pc)
    ensures At(s, p, Parked) ==> CanStillReserve(s, p)
  {
    hide Inv, CanStillReserve;
    var steps :| Runs(Init(limit), steps, s);
    InvReachable(limit, s);
    ServesFromStart(limit, steps, s);
    hide AuthorsKnown, WaitersPersist, WithinShare, Waiting, LossCloses;
    if Trying(s.publishers[p].pc) { TryingAdmits(s, p); } else { DecidedNeverReserves(s, p); }
  }

  /** A publisher that finds the sequencer stopped gets no receipt. */
  lemma StoppedSequencerRefuses(limit: Usage, s: State, p: Pid)
    requires Reachable(limit, s) && CanAct(s, p, SequencerStopped)
    ensures !CanStillReserve(Apply(s, Publish(p, SequencerStopped)), p)
  {
    hide Inv, CanStillReserve;
    var steps :| Runs(Init(limit), steps, s);
    ServesFromStart(limit, steps, s);
    var step := Publish(p, SequencerStopped);
    InvReachable(limit, s);
    assert HandsMatch(s) by { HandsOf(s); }
    AuthorsKnownStep(s, step);
    assert IsDecided(Apply(s, step).publishers[p].pc);
    DecidedNeverReserves(Apply(s, step), p);
  }

  lemma HandsOf(s: State)
    requires Inv(s)
    ensures HandsMatch(s)
  {}

  // ----- no wakeup without a notification -----

  predicate Notifies(step: Step) {
    (step.Pass? && step.pass == NotifyReleased) || step == Close(NotifyClosed)
  }

  lemma UnnoticedStep(s: State, step: Step, p: Pid)
    requires Enabled(s, step) && !Notifies(step) && p in s.publishers && !s.publishers[p].notified
    ensures var t := Apply(s, step); p in t.publishers && !t.publishers[p].notified
  {
    hide Fits, NextPc;
  }

  lemma {:induction false} UnnoticedRuns(s: State, steps: seq<Step>, t: State, p: Pid)
    requires Runs(s, steps, t) && p in s.publishers && !s.publishers[p].notified
    requires forall i :: 0 <= i < |steps| ==> !Notifies(steps[i])
    ensures p in t.publishers && !t.publishers[p].notified
    decreases |steps|
  {
    hide Enabled, Apply;
    if steps != [] {
      UnnoticedStep(s, steps[0], p);
      UnnoticedRuns(Apply(s, steps[0]), steps[1..], t, p);
    }
  }

  /** A publisher that registered wakes only after a release or the closed fence notified since. */
  lemma WakesOnlyWhenNotified(s: State, p: Pid, steps: seq<Step>, t: State)
    requires CanAct(s, p, Register) && Runs(Apply(s, Publish(p, Register)), steps, t)
    requires forall i :: 0 <= i < |steps| ==> !Notifies(steps[i])
    ensures !CanAct(t, p, Wake)
  {
    UnnoticedRuns(Apply(s, Publish(p, Register)), steps, t, p);
  }
}
