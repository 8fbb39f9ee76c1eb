/**
 The drain of admission and pipeline together. A waiting publisher keeps its guard until the sequencer
 handled its event, so the fence waits for the pipeline.
 */
module NodeDrain {
  import opened Admission
  import A = AdmissionProtocol
  import AR = AdmissionRuns
  import AP = AdmissionProgress
  import AI = AdmissionInvariant
  import AS = AdmissionService
  import P = Pipeline
  import PI = PipelineInvariant
  import PR = PipelineRuns
  import PP = PipelineProgress
  import opened NodeShutdown
  import opened NodeShutdownRuns

  /** A publisher that exists, the closer, a handler or a flush under way moves. */
  predicate Drains(step: Step) {
    match step
    case Admit(act) => AP.Drains(act)
    case Handle(handler) => !handler.StartFlush?
    case _ => true
  }

  predicate Spawns(step: Step) {
    step.Admit? && AP.Spawns(step.act)
  }

  // ----- the drain ends -----

  /** What is left to do. An event that is enqueued costs the pipeline six handlers, which the step of
      its publisher outweighs. */
  ghost function Work(s: State): nat {
    7 * AP.Work(s.a) + PP.Work(s.p)
  }

  lemma {:induction false} PassAllKeeps(a: A.State, past: nat, tokens: seq<P.Token>, pass: A.ReceiptAct)
    requires pass.Settle? || pass.ReportLoss?
    ensures var b := PassAll(a, past, tokens, pass);
            b.publishers == a.publishers && b.closer == a.closer && b.permit == a.permit && b.accepting == a.accepting
    decreases |tokens|
  {
    if tokens != [] { PassAllKeeps(a, past, tokens[..|tokens| - 1], pass); }
  }

  lemma ToldKeeps(a: A.State, before: P.State, after: P.State)
    ensures AP.Work(Told(a, before, after)) == AP.Work(a) && Told(a, before, after).accepting == a.accepting
  {
    hide PassAll;
    var settled, lost := Newer(before.settled, after.settled), Newer(before.lost, after.lost);
    PassAllKeeps(a, before.past, settled, A.Settle);
    PassAllKeeps(PassAll(a, before.past, settled, A.Settle), before.past, lost, A.ReportLoss);
  }

  lemma SubmitWork(s: P.State, event: P.Event)
    ensures PP.Work(P.Apply(s, P.Submit(event))) == PP.Work(s) + 6
  {
    hide PP.Load, PP.StoreLoads;
    PP.LoadPush(PP.SeqLoad, s.sequencer, P.SequenceEvent(|s.submitted|));
  }

  lemma FlushWork(s: P.State)
    requires P.Enabled(s, P.StartFlush)
    ensures PP.Work(P.Apply(s, P.StartFlush)) == PP.Work(s) + 9 + 2 * |s.stores|
  {
    hide PP.Load, PP.StoreLoads;
    PP.LoadPush(PP.SeqLoad, s.sequencer, P.FlushEventStores);
  }

  lemma AdmitWork(s: A.State, act: A.Step)
    requires AR.Inv(s) && !s.accepting && A.Enabled(s, act)
    ensures !A.Apply(s, act).accepting
    ensures AP.Work(A.Apply(s, act)) + (if AP.Drains(act) then 1 else 0) <= AP.Work(s) + if AP.Spawns(act) then 8 else 0
  {
    assert s.closer != A.Open;
    hide AP.Work, A.Apply;
    AP.WorkStep(s, act);
  }

  lemma HandleWork(n: nat, s: P.State, handler: P.Step)
    requires P.Reachable(n, s) && P.Enabled(s, handler) && !handler.Submit?
    ensures |s.stores| == n
    ensures if handler.StartFlush? then PP.Work(P.Apply(s, handler)) == PP.Work(s) + 9 + 2 * n
            else PP.Work(P.Apply(s, handler)) < PP.Work(s)
  {
    PR.InvReachable(n, s);
    PP.WaitsReachable(n, s);
    hide P.Reachable, PP.Work, PP.Waits, P.Apply;
    if handler.StartFlush? { FlushWork(s); } else { PP.WorkStep(s, handler); }
  }

  lemma WorkStep(n: nat, s: State, step: Step)
    requires Inv(n, s) && !s.a.accepting && Enabled(s, step)
    ensures !Apply(s, step).a.accepting
    ensures Work(Apply(s, step)) + (if Drains(step) then 1 else 0)
            <= Work(s) + (if Spawns(step) then 56 else 0) + if step == Handle(P.StartFlush) then 9 + 2 * n else 0
  {
    hide AR.Inv, P.Reachable, AllFollow, AP.Work, PP.Work, A.Enabled, A.Apply, P.Enabled, P.Apply, Told;
    match step
    case Admit(act) => AdmitWork(s.a, act);
    case Enqueue(publisher, event) =>
      AdmitWork(s.a, A.Publish(publisher, A.Enqueue));
      SubmitWork(s.p, event);
    case SendShutdown(event) =>
      AdmitWork(s.a, A.Close(A.SendShutdown));
      SubmitWork(s.p, event);
    case Handle(handler) =>
      HandleWork(n, s.p, handler);
      ToldKeeps(s.a, s.p, P.Apply(s.p, handler));
  }

  /** How many steps of a run drain, bring a publisher, and start a flush. */
  function DrainSteps(steps: seq<Step>): nat {
    if steps == [] then 0 else (if Drains(steps[0]) then 1 else 0) + DrainSteps(steps[1..])
  }

  function SpawnSteps(steps: seq<Step>): nat {
    if steps == [] then 0 else (if Spawns(steps[0]) then 1 else 0) + SpawnSteps(steps[1..])
  }

  function FlushSteps(steps: seq<Step>): nat {
    if steps == [] then 0 else (if steps[0] == Handle(P.StartFlush) then 1 else 0) + FlushSteps(steps[1..])
  }

  lemma {:induction false} WorkRuns(n: nat, s: State, steps: seq<Step>, t: State)
    requires Inv(n, s) && !s.a.accepting && Runs(s, steps, t)
    ensures DrainSteps(steps) + Work(t) <= Work(s) + 56 * SpawnSteps(steps) + (9 + 2 * n) * FlushSteps(steps)
    decreases |steps|
  {
    hide Inv, Enabled, Apply, Work, Drains, Spawns;
    if steps != [] {
      WorkStep(n, s, steps[0]);
      InvStep(n, s, steps[0]);
      WorkRuns(n, Apply(s, steps[0]), steps[1..], t);
      Distribute(9 + 2 * n, if steps[0] == Handle(P.StartFlush) then 1 else 0, FlushSteps(steps[1..]));
    }
  }

  lemma Distribute(c: nat, x: nat, y: nat)
    ensures c * (x + y) == c * x + c * y
  {}

  /** Behind a closed fence a node takes a bounded number of steps: a number known when the fence
      closes, 56 for each publisher that comes later, and 9 + 2n for each flush that starts. */
  lemma DrainEnds(limit: Usage, n: nat, s: State, steps: seq<Step>, t: State)
    requires Reachable(limit, n, s) && !s.a.accepting && Runs(s, steps, t)
    ensures DrainSteps(steps) <= Work(s) + 56 * SpawnSteps(steps) + (9 + 2 * n) * FlushSteps(steps)
  {
    hide Inv, Work;
    InvReachable(limit, n, s);
    WorkRuns(n, s, steps, t);
  }

  // ----- and ends with Shutdown sent and the pipeline empty -----

  ghost predicate Quiet(s: State) {
    forall step :: Drains(step) ==> !Enabled(s, step)
  }

  lemma PipelineQuiet(s: State)
    requires Quiet(s)
    ensures PP.Quiescent(s.p)
  {
    forall handler | P.Enabled(s.p, handler) ensures handler.Submit? || handler.StartFlush? {
      assert Drains(Handle(handler)) ==> !Enabled(s, Handle(handler));
    }
  }

  /** With the sequencer's mailbox empty, whatever admission can do the node can do. */
  lemma AdmissionQuiet(s: State)
    requires Quiet(s) && s.p.sequencer == []
    ensures AP.Quiet(s.a)
  {
    forall act | AP.Drains(act) ensures !A.Enabled(s.a, act) {
      var e := P.Event(0, 0, 0);
      assert !Enabled(s, Admit(act)) && !Enabled(s, SendShutdown(e));
      assert act.Publish? ==> !Enabled(s, Enqueue(act.p, e));
      assert MayAct(s, act);
    }
  }

  /** The drain is never stuck. When nothing can move behind a closed fence, Shutdown is enqueued, every
      publisher is done, no flush is under way and every event is settled or lost. */
  lemma NeverStuck(limit: Usage, n: nat, s: State)
    requires Reachable(limit, n, s) && !s.a.accepting && Quiet(s)
    ensures s.a.closer == A.ShutdownSent && forall p :: p in s.a.publishers ==> s.a.publishers[p].pc == A.Finished
    ensures s.p.flush.Idle? || s.p.flush.Done? || s.p.flush.Failed?
    ensures forall t: P.Token :: t < |s.p.submitted| ==> PI.Count(s.p.settled, t) + PI.Count(s.p.lost, t) == 1
  {
    InvReachable(limit, n, s);
    PipelineQuiet(s);
    PR.InvReachable(n, s.p);
    PP.WaitsReachable(n, s.p);
    hide Reachable, Quiet, AR.Inv, P.Reachable, PP.Waits, PP.Quiescent, AP.Quiet, PI.Count;
    PP.QuiescentIsEmpty(s.p);
    PP.NothingIsStuck(n, s.p);
    AdmissionQuiet(s);
    AP.QuietIsDone(s.a);
  }

  // ----- once drained, the sequencer handled what was waited in -----

  /** The message is an event that a waiting publisher sent and the sequencer has not handled. */
  ghost predicate Unhandled(s: State, k: nat, p: A.Pid) {
    && k < |s.a.mailbox| && s.a.mailbox[k].Event? && s.a.mailbox[k].rid in s.a.authors && s.a.authors[s.a.mailbox[k].rid] == p
    && p in s.a.publishers && s.a.publishers[p].waits && P.SequenceEvent(s.p.past + k) in s.p.sequencer
  }

  predicate IsSending(pc: A.Pc) {
    pc.Leaving? && pc.accepted
  }

  /** Its publisher still holds the guard. */
  ghost predicate SendsAwaited(s: State) {
    && AS.AuthorsKnown(s.a) && AS.HoldersAuthor(s.a)
    && forall k: nat, p :: Unhandled(s, k, p) ==> IsSending(s.a.publishers[p].pc)
  }

  /** A publisher that sends only drops its guard; any other step leaves it where it is. */
  lemma SendingStays(a: A.State, act: A.Step, p: A.Pid)
    requires A.Enabled(a, act) && IsOwn(act) && p in a.publishers && IsSending(a.publishers[p].pc)
    requires act != A.Publish(p, A.DropGuard)
    ensures p in A.Apply(a, act).publishers && IsSending(A.Apply(a, act).publishers[p].pc)
  {
    hide Fits;
  }

  /** A step leaves the authors of enqueued messages alone, and who waits. */
  lemma AuthorsStay(a: A.State, act: A.Step, r: A.Rid)
    requires A.HandsMatch(a) && A.Enabled(a, act) && r in a.receipts
    ensures var b := A.Apply(a, act);
            && (r in b.authors <==> r in a.authors) && (r in a.authors ==> b.authors[r] == a.authors[r])
            && forall p :: p in a.publishers ==> p in b.publishers && b.publishers[p].waits == a.publishers[p].waits
  {
    hide A.Acted, A.Passed, A.Closed, A.HandsMatch, Fits;
    if act.Publish? && act.act.Reserve? {
      AS.ReserveLeaves(a, act.p, act.act.rid);
    } else {
      AS.StepLeaves(a, act);
    }
  }

  lemma AuthorThere(a: A.State, r: A.Rid)
    requires AS.AuthorsKnown(a) && r in a.authors
    ensures a.authors[r] in a.publishers
  {}

  lemma SentIsReceipt(a: A.State, k: nat)
    requires AR.Inv(a) && k < |a.mailbox| && a.mailbox[k].Event?
    ensures A.HandsMatch(a) && AI.MailboxOrdered(a) && a.mailbox[k].rid in a.receipts
  {
    assert A.Event(a.mailbox[k].rid) in a.mailbox;
  }

  /** What is unhandled after a step that leaves its message in the mailbox was unhandled before it. */
  lemma WasUnhandled(s: State, act: A.Step, t: State, k: nat, p: A.Pid)
    requires AR.Inv(s.a) && AS.AuthorsKnown(s.a) && A.Enabled(s.a, act) && t.a == A.Apply(s.a, act) && t.p.past == s.p.past
    requires Unhandled(t, k, p) && k < |s.a.mailbox| && s.a.mailbox[k] == t.a.mailbox[k]
    requires P.SequenceEvent(s.p.past + k) in s.p.sequencer
    ensures Unhandled(s, k, p)
  {
    hide A.Apply, A.Enabled, AR.Inv, AS.AuthorsKnown, A.HandsMatch, AI.MailboxOrdered;
    SentIsReceipt(s.a, k);
    AuthorsStay(s.a, act, s.a.mailbox[k].rid);
    AuthorThere(s.a, s.a.mailbox[k].rid);
  }

  lemma AdmissionParts(n: nat, s: State)
    requires Inv(n, s)
    ensures AR.Inv(s.a) && A.HandsMatch(s.a) && AI.MailboxOrdered(s.a) && AI.FenceHolds(s.a)
    ensures s.p.past + |s.a.mailbox| == |s.p.submitted|
  {}

  lemma AwaitedAdmit(n: nat, s: State, act: A.Step)
    requires Inv(n, s) && SendsAwaited(s) && Enabled(s, Admit(act))
    ensures SendsAwaited(Apply(s, Admit(act)))
  {
    hide Inv, AR.Inv, A.Apply, A.Enabled, AS.AuthorsKnown, AS.HoldersAuthor, IsSending, A.HandsMatch, AI.MailboxOrdered, AI.FenceHolds;
    AdmissionParts(n, s);
    var t := Apply(s, Admit(act));
    AS.AuthorsKnownStep(s.a, act);
    AS.HoldersStep(s.a, act);
    OwnKeepsFates(s.a, act, 0);
    forall k: nat, p | Unhandled(t, k, p) ensures IsSending(t.a.publishers[p].pc) {
      WasUnhandled(s, act, t, k, p);
      assert act != A.Publish(p, A.DropGuard);
      SendingStays(s.a, act, p);
    }
  }

  /** The enqueuing publisher begins to wait, and every other stays where it is. */
  lemma EnqueueSends(a: A.State, q: A.Pid)
    requires A.CanAct(a, q, A.Enqueue)
    ensures q in a.publishers && a.publishers[q].pc.Holding?
    ensures var b := A.Acted(a, q, A.Enqueue);
            && q in b.publishers && b.publishers == a.publishers[q := b.publishers[q]] && IsSending(b.publishers[q].pc)
            && b.mailbox == a.mailbox + [A.Event(a.publishers[q].pc.rid)] && b.authors == a.authors
  {}

  lemma AwaitedEnqueue(n: nat, s: State, q: A.Pid, event: P.Event)
    requires Inv(n, s) && SendsAwaited(s) && Enabled(s, Enqueue(q, event))
    ensures SendsAwaited(Apply(s, Enqueue(q, event)))
  {
    hide Inv, AR.Inv, A.Acted, A.CanAct, AS.AuthorsKnown, AS.HoldersAuthor, IsSending, A.HandsMatch, AI.MailboxOrdered, AI.FenceHolds;
    AdmissionParts(n, s);
    var act, t := A.Publish(q, A.Enqueue), Apply(s, Enqueue(q, event));
    HeldAuthor(s.a, q);
    EnqueueSends(s.a, q);
    AS.AuthorsKnownStep(s.a, act);
    AS.HoldersStep(s.a, act);
    forall k: nat, p | Unhandled(t, k, p) ensures IsSending(t.a.publishers[p].pc) {
      if k < |s.a.mailbox| {
        assert P.SequenceEvent(s.p.past + k) in s.p.sequencer;
        WasUnhandled(s, act, t, k, p);
      }
    }
  }

  /** A held receipt is the author's own. */
  lemma HeldAuthor(a: A.State, q: A.Pid)
    requires A.CanAct(a, q, A.Enqueue) && AS.HoldersAuthor(a)
    ensures q in a.publishers && a.publishers[q].pc.Holding? && a.publishers[q].pc.rid in a.authors && a.authors[a.publishers[q].pc.rid] == q
  {}

  lemma AwaitedShutdown(n: nat, s: State, event: P.Event)
    requires Inv(n, s) && SendsAwaited(s) && Enabled(s, SendShutdown(event))
    ensures SendsAwaited(Apply(s, SendShutdown(event)))
  {
    hide Inv, AR.Inv, AS.AuthorsKnown, AS.HoldersAuthor, IsSending, A.HandsMatch, AI.MailboxOrdered, AI.FenceHolds;
    AdmissionParts(n, s);
    var act, t := A.Close(A.SendShutdown), Apply(s, SendShutdown(event));
    assert t.a.publishers == s.a.publishers && t.a.mailbox == s.a.mailbox + [A.Shutdown];
    AS.AuthorsKnownStep(s.a, act);
    AS.HoldersStep(s.a, act);
    forall k: nat, p | Unhandled(t, k, p) ensures IsSending(t.a.publishers[p].pc) {
      assert k < |s.a.mailbox| && P.SequenceEvent(s.p.past + k) in s.p.sequencer;
      WasUnhandled(s, act, t, k, p);
    }
  }

  lemma {:induction false} PassAllLeaves(a: A.State, past: nat, tokens: seq<P.Token>, pass: A.ReceiptAct)
    requires pass.Settle? || pass.ReportLoss?
    ensures var b := PassAll(a, past, tokens, pass);
            && b.publishers == a.publishers && b.mailbox == a.mailbox && b.authors == a.authors
            && (AS.AuthorsKnown(a) ==> AS.AuthorsKnown(b))
    decreases |tokens|
  {
    if tokens != [] { PassAllLeaves(a, past, tokens[..|tokens| - 1], pass); }
  }

  lemma ToldLeaves(a: A.State, before: P.State, after: P.State)
    ensures var b := Told(a, before, after);
            && b.publishers == a.publishers && b.mailbox == a.mailbox && b.authors == a.authors
            && (AS.AuthorsKnown(a) ==> AS.AuthorsKnown(b))
  {
    hide PassAll, AS.AuthorsKnown;
    var settled, lost := Newer(before.settled, after.settled), Newer(before.lost, after.lost);
    PassAllLeaves(a, before.past, settled, A.Settle);
    PassAllLeaves(PassAll(a, before.past, settled, A.Settle), before.past, lost, A.ReportLoss);
  }

  /** A handler gives the sequencer nothing new to sequence. */
  lemma NothingNew(s: P.State, handler: P.Step, t: P.Token)
    requires P.Enabled(s, handler) && !handler.Submit? && P.SequenceEvent(t) in P.Apply(s, handler).sequencer
    ensures P.SequenceEvent(t) in s.sequencer && P.Apply(s, handler).past == s.past
  {
    hide P.OutcomeOf, P.Collect;
  }

  lemma AwaitedHandle(s: State, handler: P.Step)
    requires SendsAwaited(s) && Enabled(s, Handle(handler))
    ensures SendsAwaited(Apply(s, Handle(handler)))
  {
    var t := Apply(s, Handle(handler));
    ToldLeaves(s.a, s.p, t.p);
    hide Told, AS.AuthorsKnown, P.Apply, P.Enabled, IsSending;
    forall k: nat, p | Unhandled(t, k, p) ensures IsSending(t.a.publishers[p].pc) {
      NothingNew(s.p, handler, t.p.past + k);
      assert Unhandled(s, k, p);
    }
  }

  lemma AwaitedStep(n: nat, s: State, step: Step)
    requires Inv(n, s) && SendsAwaited(s) && Enabled(s, step)
    ensures SendsAwaited(Apply(s, step))
  {
    hide Inv, SendsAwaited;
    match step
    case Admit(act) => AwaitedAdmit(n, s, act);
    case Enqueue(publisher, event) => AwaitedEnqueue(n, s, publisher, event);
    case SendShutdown(event) => AwaitedShutdown(n, s, event);
    case Handle(handler) => AwaitedHandle(s, handler);
  }

  lemma {:induction false} AwaitedRuns(n: nat, s: State, steps: seq<Step>, t: State)
    requires Inv(n, s) && SendsAwaited(s) && Runs(s, steps, t)
    ensures SendsAwaited(t)
    decreases |steps|
  {
    hide Inv, SendsAwaited, Apply, Enabled;
    if steps != [] {
      AwaitedStep(n, s, steps[0]);
      InvStep(n, s, steps[0]);
      AwaitedRuns(n, Apply(s, steps[0]), steps[1..], t);
    }
  }

  lemma AwaitedReachable(limit: Usage, n: nat, s: State)
    requires Reachable(limit, n, s)
    ensures SendsAwaited(s)
  {
    var boot, steps :| Boots(limit, n, boot) && Runs(boot, steps, s);
    InvBoot(limit, n, boot);
    hide Inv;
    assert SendsAwaited(boot);
    AwaitedRuns(n, boot, steps, s);
  }

  lemma NoneUnhandled(s: State, k: nat, p: A.Pid)
    requires SendsAwaited(s) && AI.FenceHolds(s.a) && AI.HasDrained(s.a)
    ensures !Unhandled(s, k, p)
  {}

  /** Once `close_and_wait` returned, the sequencer handled every event that a waiting publisher sent. */
  lemma DrainedIsSequenced(limit: Usage, n: nat, s: State, k: nat)
    requires Reachable(limit, n, s) && AI.HasDrained(s.a) && k < |s.a.mailbox| && s.a.mailbox[k].Event?
    ensures var r := s.a.mailbox[k].rid;
            r in s.a.authors && s.a.authors[r] in s.a.publishers && s.a.publishers[s.a.authors[r]].waits ==>
              P.SequenceEvent(s.p.past + k) !in s.p.sequencer
  {
    hide Reachable, Inv, AR.Inv, A.HandsMatch, AI.MailboxOrdered, AS.AuthorsKnown, AS.HoldersAuthor;
    InvReachable(limit, n, s);
    AdmissionParts(n, s);
    AwaitedReachable(limit, n, s);
    var r := s.a.mailbox[k].rid;
    if r in s.a.authors { NoneUnhandled(s, k, s.a.authors[r]); }
  }
}
