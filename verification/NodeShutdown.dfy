/**
 Admission and pipeline together. An enqueue is one step of both, and a pipeline handler that settles
 or loses an event settles or drops its receipt in the same step. The n-th message that this boot
 enqueued to the sequencer is the n-th event that the pipeline got after those of earlier boots.
 */
module NodeShutdown {
  import opened Admission
  import A = AdmissionProtocol
  import AI = AdmissionInvariant
  import AR = AdmissionRuns
  import P = Pipeline
  import PI = PipelineInvariant

  datatype State = State(a: A.State, p: P.State)

  datatype Step =
    | Admit(act: A.Step)
    | Enqueue(publisher: A.Pid, event: P.Event)
    | SendShutdown(event: P.Event)
    | Handle(handler: P.Step)

  /** The steps of the admission protocol that the pipeline takes no part in. */
  predicate IsOwn(act: A.Step) {
    match act
    case Publish(_, act) => !act.Enqueue?
    case Pass(_, pass) => !pass.Settle? && !pass.ReportLoss?
    case Close(close) => !close.SendShutdown?
    case SignalFailure => true
  }

  /** The sequencer handled what the publisher sent it. */
  predicate SendReturned(s: State, publisher: A.Pid) {
    forall k :: 0 <= k < |s.a.mailbox| && s.a.mailbox[k].Event? && s.a.mailbox[k].rid in s.a.authors
                && s.a.authors[s.a.mailbox[k].rid] == publisher ==>
      P.SequenceEvent(s.p.past + k) !in s.p.sequencer
  }

  /** A waiting publisher awaits the sequencer's handler before it drops its guard. */
  predicate MayAct(s: State, act: A.Step) {
    act.Publish? && act.act.DropGuard? && act.p in s.a.publishers && s.a.publishers[act.p].waits ==> SendReturned(s, act.p)
  }

  predicate Enabled(s: State, step: Step) {
    match step
    case Admit(act) => IsOwn(act) && A.Enabled(s.a, act) && MayAct(s, act)
    case Enqueue(publisher, _) => A.Enabled(s.a, A.Publish(publisher, A.Enqueue))
    case SendShutdown(_) => A.Enabled(s.a, A.Close(A.SendShutdown))
    case Handle(handler) => !handler.Submit? && P.Enabled(s.p, handler)
  }

  function Newer(before: seq<P.Token>, after: seq<P.Token>): seq<P.Token> {
    if |before| <= |after| then after[|before|..] else []
  }

  /** The receipts of the events settle, or are dropped. The receipt of Shutdown holds no capacity. */
  function PassAll(a: A.State, past: nat, tokens: seq<P.Token>, pass: A.ReceiptAct): A.State {
    if tokens == [] then a
    else
      var b, t := PassAll(a, past, tokens[..|tokens| - 1], pass), tokens[|tokens| - 1];
      if past <= t < past + |b.mailbox| && b.mailbox[t - past].Event? && A.CanPass(b, b.mailbox[t - past].rid, pass)
      then A.Passed(b, b.mailbox[t - past].rid, pass) else b
  }

  function Told(a: A.State, before: P.State, after: P.State): A.State {
    var a' := PassAll(a, before.past, Newer(before.settled, after.settled), A.Settle);
    PassAll(a', before.past, Newer(before.lost, after.lost), A.ReportLoss)
  }

  function Apply(s: State, step: Step): State
    requires Enabled(s, step)
  {
    match step
    case Admit(act) => s.(a := A.Apply(s.a, act))
    case Enqueue(publisher, event) =>
      State(A.Apply(s.a, A.Publish(publisher, A.Enqueue)), P.Apply(s.p, P.Submit(event)))
    case SendShutdown(event) => State(A.Apply(s.a, A.Close(A.SendShutdown)), P.Apply(s.p, P.Submit(event)))
    case Handle(handler) =>
      var after := P.Apply(s.p, handler);
      State(Told(s.a, s.p, after), after)
  }

  ghost predicate Runs(s: State, steps: seq<Step>, t: State)
    decreases |steps|
  {
    if steps == [] then s == t
    else Enabled(s, steps[0]) && Runs(Apply(s, steps[0]), steps[1..], t)
  }

  ghost predicate Boots(limit: Usage, n: nat, s: State) {
    s.a == A.Init(limit) && P.Boots(n, s.p)
  }

  ghost predicate Reachable(limit: Usage, n: nat, s: State) {
    exists boot, steps :: Boots(limit, n, boot) && Runs(boot, steps, s)
  }

  // ----- receipts follow their events -----

  predicate IsSettled(phase: A.Phase) {
    phase.Settled? || (phase.Releasing? && !phase.lost)
  }

  /** A receipt is queued while its event is in flight, settled when it is settled and lost when it is lost. */
  predicate Follows(a: A.State, past: nat, settled: nat, lost: nat, t: P.Token) {
    past <= t < past + |a.mailbox| && a.mailbox[t - past].Event? ==>
      && a.mailbox[t - past].rid in a.receipts
      && var phase := a.receipts[a.mailbox[t - past].rid];
         if settled > 0 then IsSettled(phase) else if lost > 0 then AR.IsLost(phase) else phase == A.Queued
  }

  ghost predicate AllFollow(a: A.State, past: nat, settled: seq<P.Token>, lost: seq<P.Token>) {
    forall t: P.Token :: Follows(a, past, PI.Count(settled, t), PI.Count(lost, t), t)
  }

  ghost predicate Inv(n: nat, s: State) {
    && AR.Inv(s.a) && P.Reachable(n, s.p)
    && s.p.past + |s.a.mailbox| == |s.p.submitted| && AllFollow(s.a, s.p.past, s.p.settled, s.p.lost)
  }

  /** Passing one receipt on changes that receipt's phase and no other. */
  lemma PassOne(a: A.State, r: A.Rid, pass: A.ReceiptAct)
    requires AR.Inv(a) && (pass.Settle? || pass.ReportLoss?) && r in a.receipts && a.receipts[r] == A.Queued
    ensures && A.CanPass(a, r, pass) && AR.Inv(A.Passed(a, r, pass)) && A.Passed(a, r, pass).mailbox == a.mailbox
            && A.Passed(a, r, pass).closer == a.closer
            && A.Passed(a, r, pass).receipts == a.receipts[r := if pass.Settle? then A.Releasing(false) else A.Losing]
  {
    PassEnabled(a, r, pass);
    hide AR.Inv;
    AR.InvStep(a, A.Pass(r, pass));
  }

  lemma PassEnabled(a: A.State, r: A.Rid, pass: A.ReceiptAct)
    requires AR.Inv(a) && (pass.Settle? || pass.ReportLoss?) && r in a.receipts && a.receipts[r] == A.Queued
    ensures A.CanPass(a, r, pass)
  {
    hide A.GuardsCounted, A.WindowExact, A.HandsMatch;
    A.NoUnderflow(a);
    assert A.Enabled(a, A.Pass(r, A.Settle));
  }

  lemma FollowNext(a: A.State, b: A.State, past: nat, settled: seq<P.Token>, lost: seq<P.Token>, t: P.Token, pass: A.ReceiptAct)
    requires AI.MailboxOrdered(a) && AllFollow(a, past, settled, lost) && (pass.Settle? || pass.ReportLoss?)
    requires PI.Count(settled, t) == 0 && PI.Count(lost, t) == 0
    requires past <= t < past + |a.mailbox| && b.mailbox == a.mailbox
    requires var m := a.mailbox[t - past];
             if m.Event? then m.rid in a.receipts
               && b.receipts == a.receipts[m.rid := if pass.Settle? then A.Releasing(false) else A.Losing]
             else b.receipts == a.receipts
    ensures if pass.Settle? then AllFollow(b, past, settled + [t], lost) else AllFollow(b, past, settled, lost + [t])
  {
    var settled', lost' := if pass.Settle? then settled + [t] else settled, if pass.Settle? then lost else lost + [t];
    forall u: P.Token ensures Follows(b, past, PI.Count(settled', u), PI.Count(lost', u), u) {
      PI.CountConcat(settled, [t], u);
      PI.CountConcat(lost, [t], u);
      assert Follows(a, past, PI.Count(settled, u), PI.Count(lost, u), u);
      OneCount(t, u);
      hide PI.Count;
      assert past <= u < past + |a.mailbox| && u != t ==> a.mailbox[u - past] != a.mailbox[t - past];
    }
  }

  lemma OneCount(t: P.Token, u: P.Token)
    ensures PI.Count([t], u) == if t == u then 1 else 0
  {}

  /** Passing on the receipts of events that were in flight keeps every receipt with its event. */
  lemma {:induction false} PassAllFollows(a: A.State, past: nat, settled: seq<P.Token>, lost: seq<P.Token>, tokens: seq<P.Token>, pass: A.ReceiptAct)
    requires AR.Inv(a) && AllFollow(a, past, settled, lost) && (pass.Settle? || pass.ReportLoss?)
    requires forall t: P.Token :: PI.Count(settled, t) + PI.Count(lost, t) + PI.Count(tokens, t) <= 1
    requires forall i :: 0 <= i < |tokens| ==> past <= tokens[i] < past + |a.mailbox|
    ensures var b := PassAll(a, past, tokens, pass);
            && AR.Inv(b) && b.mailbox == a.mailbox && b.closer == a.closer
            && (if pass.Settle? then AllFollow(b, past, settled + tokens, lost) else AllFollow(b, past, settled, lost + tokens))
    decreases |tokens|
  {
    hide AR.Inv, A.CanPass, A.Passed, AllFollow, Follows, PI.Count;
    if tokens == [] {
      assert settled + tokens == settled && lost + tokens == lost;
    } else {
      var init, t := tokens[..|tokens| - 1], tokens[|tokens| - 1];
      assert tokens == init + [t];
      forall u: P.Token ensures PI.Count(tokens, u) == PI.Count(init, u) + if t == u then 1 else 0 {
        PI.CountConcat(init, [t], u);
        OneCount(t, u);
      }
      PassAllFollows(a, past, settled, lost, init, pass);
      var b := PassAll(a, past, init, pass);
      var settled', lost' := if pass.Settle? then settled + init else settled, if pass.Settle? then lost else lost + init;
      PI.CountConcat(settled, init, t);
      PI.CountConcat(lost, init, t);
      assert settled' + [t] == (if pass.Settle? then settled + tokens else settled + [t]);
      assert lost' + [t] == (if pass.Settle? then lost + [t] else lost + tokens);
      PassLast(b, past, settled', lost', t, pass);
    }
  }

  lemma PassLast(b: A.State, past: nat, settled: seq<P.Token>, lost: seq<P.Token>, t: P.Token, pass: A.ReceiptAct)
    requires AR.Inv(b) && AllFollow(b, past, settled, lost) && (pass.Settle? || pass.ReportLoss?) && past <= t < past + |b.mailbox|
    requires PI.Count(settled, t) == 0 && PI.Count(lost, t) == 0
    ensures var m := b.mailbox[t - past];
            var c := if m.Event? && A.CanPass(b, m.rid, pass) then A.Passed(b, m.rid, pass) else b;
            && AR.Inv(c) && c.mailbox == b.mailbox && c.closer == b.closer
            && (if pass.Settle? then AllFollow(c, past, settled + [t], lost) else AllFollow(c, past, settled, lost + [t]))
  {
    assert Follows(b, past, PI.Count(settled, t), PI.Count(lost, t), t);
    assert AI.MailboxOrdered(b);
    hide AR.Inv, AI.MailboxOrdered, A.Passed, A.CanPass, AllFollow, PI.Count;
    var m := b.mailbox[t - past];
    if m.Event? {
      PassOne(b, m.rid, pass);
      FollowNext(b, A.Passed(b, m.rid, pass), past, settled, lost, t, pass);
    } else {
      FollowNext(b, b, past, settled, lost, t, pass);
    }
  }
}
