/** The order in which events are stored, and what a settled or lost event means. */
module PipelineOrder {
  import opened Ordering
  import opened Pipeline
  import opened PipelineInvariant

  // ----- order of submission -----

  lemma AscendsWithout(a: seq<Token>, b: seq<Token>, c: seq<Token>)
    requires Ascends(a + b + c)
    ensures Ascends(a + c)
  {
    forall i, j | 0 <= i < j < |a + c| ensures (a + c)[i] < (a + c)[j] {
      var i' := if i < |a| then i else i + |b|;
      var j' := if j < |a| then j else j + |b|;
      assert (a + b + c)[i'] < (a + b + c)[j'];
    }
  }

  function NewTokens(m: SeqMsg): seq<Token> {
    if m.SequenceEvent? then [m.token] else []
  }

  function BoxTokens(box: seq<StoreMsg>): seq<Token> {
    Collect(StoreTokens, box)
  }

  function Upstream(s: State): seq<Token> {
    Collect(RouterTokens, s.router) + Collect(NewTokens, s.sequencer)
  }

  /** What a store logged and what may still reach it, oldest first. */
  function Chain(s: State, k: nat): seq<Token>
    requires k < |s.stores|
  {
    s.stores[k].log + BoxTokens(s.stores[k].box) + Upstream(s)
  }

  /** Every store logs its events in the order in which they were submitted. */
  ghost predicate InOrder(s: State) {
    forall k :: 0 <= k < |s.stores| ==> Ascends(Chain(s, k) + [|s.submitted|])
  }

  lemma OrderKept(s: State, t: State)
    requires InOrder(s) && |t.stores| == |s.stores| && t.submitted == s.submitted
    requires forall k :: 0 <= k < |s.stores| ==> Chain(t, k) == Chain(s, k)
    ensures InOrder(t)
  {
    hide Chain, Ascends;
  }

  lemma OrderSequencer(s: State)
    requires InOrder(s) && Enabled(s, SequencerHandles)
    ensures InOrder(SequencerHandled(s))
  {
    hide Ascends;
    var m, t := s.sequencer[0], SequencerHandled(s);
    if m.SequenceEvent? { CollectSnoc(RouterTokens, s.router, Route(m.token)); }
    assert Upstream(t) == Upstream(s);
    OrderKept(s, t);
  }

  lemma OrderRouter(s: State)
    requires InOrder(s) && Enabled(s, RouterHandles)
    ensures InOrder(RouterHandled(s))
  {
    var m, t := s.router[0], RouterHandled(s);
    forall j | 0 <= j < |t.stores| ensures Ascends(Chain(t, j) + [|t.submitted|]) {
      hide Ascends, InOrder;
      var log, box := s.stores[j].log, Collect(StoreTokens, s.stores[j].box);
      assert Upstream(s) == RouterTokens(m) + Upstream(t);
      assert Chain(s, j) == log + box + (RouterTokens(m) + Upstream(t));
      if t.stores[j] == s.stores[j] {
        assert Chain(s, j) + [|s.submitted|] == (log + box) + RouterTokens(m) + (Upstream(t) + [|s.submitted|]);
        AscendsWithout(log + box, RouterTokens(m), Upstream(t) + [|s.submitted|]);
        assert Chain(t, j) + [|t.submitted|] == (log + box) + (Upstream(t) + [|s.submitted|]);
      } else {
        CollectSnoc(StoreTokens, s.stores[j].box, Save(m.token));
        assert Chain(t, j) == Chain(s, j);
      }
    }
  }

  lemma OrderStore(s: State, k: nat, fault: Fault)
    requires InOrder(s) && Enabled(s, StoreHandles(k, fault))
    ensures InOrder(Apply(s, StoreHandles(k, fault)))
  {
    hide OutcomeOf;
    var t := Apply(s, StoreHandles(k, fault));
    UpstreamStore(s, k, fault);
    forall j | 0 <= j < |t.stores| ensures Ascends(Chain(t, j) + [|t.submitted|]) {
      hide Ascends, InOrder;
      if j == k {
        OrderInStore(s, k, fault);
      } else {
        assert Chain(t, j) == Chain(s, j);
      }
    }
  }

  lemma UpstreamStore(s: State, k: nat, fault: Fault)
    requires Enabled(s, StoreHandles(k, fault))
    ensures Upstream(Apply(s, StoreHandles(k, fault))) == Upstream(s)
  {
    hide OutcomeOf;
    var st := s.stores[k];
    if st.box[0].Save? && OutcomeOf(s, k, fault).Stored? {
      CollectSnoc(NewTokens, s.sequencer, StoreEventResponse(Item(st.box[0].token, k, |st.log| + 1)));
    }
  }

  /** Leaving out the head, the tail or both of a mailbox keeps the order. */
  lemma AscendsParts(log: seq<Token>, head: seq<Token>, rest: seq<Token>, after: seq<Token>)
    requires Ascends(log + (head + rest) + after)
    ensures Ascends(log + rest + after) && Ascends(log + head + after) && Ascends(log + after)
  {
    hide Ascends;
    assert log + (head + rest) + after == log + head + (rest + after);
    AscendsWithout(log, head, rest + after);
    assert log + (rest + after) == log + rest + after;
    assert log + (head + rest) + after == (log + head) + rest + after;
    AscendsWithout(log + head, rest, after);
    assert (log + head) + after == log + head + after;
    AscendsWithout(log, head, after);
  }

  /** A store's handler keeps its log and mailbox, or leaves out the head, the rest or both. */
  lemma StoreKeepsOrder(st: Store, t: Store, after: seq<Token>)
    requires |st.box| > 0 && (t.box == [] || t.box == st.box[1..])
    requires t.log == st.log || t.log == st.log + StoreTokens(st.box[0])
    requires Ascends(st.log + BoxTokens(st.box) + after)
    ensures Ascends(t.log + BoxTokens(t.box) + after)
  {
    var head, rest := StoreTokens(st.box[0]), BoxTokens(st.box[1..]);
    assert BoxTokens(st.box) == head + rest;
    assert BoxTokens([]) == [];
    AscendsParts(st.log, head, rest, after);
    hide Ascends, BoxTokens;
    assert t.box == [] ==> t.log + BoxTokens(t.box) == t.log;
    assert t.log == st.log + head ==> t.log + rest == st.log + (head + rest);
  }

  lemma OrderInStore(s: State, k: nat, fault: Fault)
    requires Enabled(s, StoreHandles(k, fault)) && Ascends(Chain(s, k) + [|s.submitted|])
    ensures var t := Apply(s, StoreHandles(k, fault)); Ascends(Chain(t, k) + [|t.submitted|])
  {
    hide OutcomeOf, Ascends, Upstream, BoxTokens;
    var t := Apply(s, StoreHandles(k, fault));
    UpstreamStore(s, k, fault);
    var here, here', up, n := s.stores[k].log + BoxTokens(s.stores[k].box), t.stores[k].log + BoxTokens(t.stores[k].box), Upstream(s), |s.submitted|;
    assert here + up + [n] == here + (up + [n]);
    assert here' + up + [n] == here' + (up + [n]);
    StoreKeepsOrder(s.stores[k], t.stores[k], up + [n]);
  }

  lemma OrderOther(s: State, step: Step)
    requires InOrder(s) && Enabled(s, step)
    requires !step.SequencerHandles? && !step.RouterHandles? && !step.StoreHandles?
    ensures InOrder(Apply(s, step))
  {
    hide Ascends, Collect;
    var t := Apply(s, step);
    match step
    case Submit(e) => OrderSubmit(s, e);
    case StartFlush => CollectSnoc(NewTokens, s.sequencer, FlushEventStores); OrderKept(s, t);
    case ForwardFlush => CollectSnoc(RouterTokens, s.router, RouteFlush); OrderKept(s, t);
    case SendBarrier => CollectSnoc(NewTokens, s.sequencer, SequencerBarrier); OrderKept(s, t);
    case AskStore =>
      var k := s.flush.store;
      if k < |s.stores| { CollectSnoc(StoreTokens, s.stores[k].box, SaveFlush); }
      OrderKept(s, t);
    case _ => OrderKept(s, t);
  }

  lemma AscendsSnoc(xs: seq<Token>, n: nat)
    requires Ascends(xs + [n])
    ensures Ascends(xs + [n] + [n + 1])
  {
    var ys := xs + [n];
    forall i | 0 <= i < |ys| ensures ys[i] < n + 1 {
      assert i < |xs| ==> ys[i] < ys[|xs|];
    }
  }

  lemma OrderSubmit(s: State, e: Event)
    requires InOrder(s)
    ensures InOrder(Apply(s, Submit(e)))
  {
    hide Collect;
    var t := Apply(s, Submit(e));
    CollectSnoc(NewTokens, s.sequencer, SequenceEvent(|s.submitted|));
    forall k | 0 <= k < |t.stores| ensures Ascends(Chain(t, k) + [|t.submitted|]) {
      assert Ascends(Chain(s, k) + [|s.submitted|]);
      assert Chain(t, k) == Chain(s, k) + [|s.submitted|];
      AscendsSnoc(Chain(s, k), |s.submitted|);
    }
  }

  lemma OrderStep(s: State, step: Step)
    requires InOrder(s) && Enabled(s, step)
    ensures InOrder(Apply(s, step))
  {
    hide InOrder, SequencerHandled, RouterHandled, EventStored, StoreFlushed, BusHandled, FanoutEnded, StoreAsked;
    match step
    case SequencerHandles => OrderSequencer(s);
    case RouterHandles => OrderRouter(s);
    case StoreHandles(k, fault) => OrderStore(s, k, fault);
    case _ => OrderOther(s, step);
  }

  // ----- homes -----

  /** A store's mailbox and log hold events of its own aggregate. */
  ghost predicate Homed(s: State) {
    && (forall k, i :: 0 <= k < |s.stores| && 0 <= i < |s.stores[k].box| && s.stores[k].box[i].Save? ==>
          IsHome(s, k, s.stores[k].box[i].token))
    && (forall k, i :: 0 <= k < |s.stores| && 0 <= i < |s.stores[k].log| ==> IsHome(s, k, s.stores[k].log[i]))
  }

  predicate IsHome(s: State, k: nat, t: Token) {
    t < |s.submitted| && s.submitted[t].aggregate == k
  }

  lemma HomedStore(s: State, k: nat, fault: Fault)
    requires Homed(s) && Enabled(s, StoreHandles(k, fault))
    ensures Homed(Apply(s, StoreHandles(k, fault)))
  {
    hide OutcomeOf, Collect;
  }

  lemma HomedStep(s: State, step: Step)
    requires Homed(s) && Enabled(s, step)
    ensures Homed(Apply(s, step))
  {
    hide EventStored, StoreFlushed;
    if step.StoreHandles? { HomedStore(s, step.store, step.fault); }
  }

  // ----- lost and settled events -----

  /** An event is lost only when no store runs for its aggregate. */
  ghost predicate LossesExplained(s: State) {
    forall i :: 0 <= i < |s.lost| ==>
      && s.lost[i] < |s.submitted|
      && var k := s.submitted[s.lost[i]].aggregate; k < |s.stores| ==> !s.stores[k].running
  }

  /** The store of an event logged an equal event that was submitted earlier. */
  ghost predicate HasEarlierCopy(s: State, t: Token) {
    && t < |s.submitted| && s.submitted[t].aggregate < |s.stores|
    && var log := s.stores[s.submitted[t].aggregate].log;
       exists i :: 0 <= i < |log| && log[i] < t && s.submitted[log[i]] == s.submitted[t]
  }

  ghost predicate WasFanned(s: State, t: Token) {
    exists i :: 0 <= i < |s.fanned| && s.fanned[i].token == t
  }

  /** A settled event is from an earlier boot, had its fanout ended, or repeats an event that its store
      already logged. */
  ghost predicate SettlementsExplained(s: State) {
    forall i :: 0 <= i < |s.settled| ==>
      s.settled[i] < s.past || WasFanned(s, s.settled[i]) || HasEarlierCopy(s, s.settled[i])
  }

  lemma {:induction false} CollectedFrom(box: seq<StoreMsg>, t: Token)
    requires t in Collect(StoreTokens, box)
    ensures exists i :: 0 <= i < |box| && box[i] == Save(t)
  {
    if t in StoreTokens(box[0]) {
      assert box[0] == Save(t);
    } else {
      CollectedFrom(box[1..], t);
      var i :| 0 <= i < |box[1..]| && box[1..][i] == Save(t);
      assert box[i + 1] == Save(t);
    }
  }

  lemma LossesStore(s: State, k: nat, fault: Fault)
    requires LossesExplained(s) && Homed(s) && Enabled(s, StoreHandles(k, fault))
    ensures LossesExplained(Apply(s, StoreHandles(k, fault)))
  {
    hide OutcomeOf, Collect;
    var t := Apply(s, StoreHandles(k, fault));
    forall i | |s.lost| <= i < |t.lost| ensures t.lost[i] < |t.submitted| && t.submitted[t.lost[i]].aggregate == k {
      assert t.lost[i] in Collect(StoreTokens, s.stores[k].box);
      CollectedFrom(s.stores[k].box, t.lost[i]);
    }
  }

  lemma LossesStep(s: State, step: Step)
    requires LossesExplained(s) && Homed(s) && Enabled(s, step)
    ensures LossesExplained(Apply(s, step))
  {
    hide EventStored, StoreFlushed;
    if step.StoreHandles? { LossesStore(s, step.store, step.fault); }
  }

  lemma SettlementKept(s: State, t: State, u: Token)
    requires WasFanned(s, u) || HasEarlierCopy(s, u)
    requires s.fanned <= t.fanned && s.submitted <= t.submitted && |t.stores| == |s.stores|
    requires forall k :: 0 <= k < |s.stores| ==> s.stores[k].log <= t.stores[k].log
    requires Homed(s)
    ensures WasFanned(t, u) || HasEarlierCopy(t, u)
  {
    if WasFanned(s, u) {
      var i :| 0 <= i < |s.fanned| && s.fanned[i].token == u;
      assert t.fanned[i].token == u;
    } else {
      var k := s.submitted[u].aggregate;
      var i :| 0 <= i < |s.stores[k].log| && s.stores[k].log[i] < u && s.submitted[s.stores[k].log[i]] == s.submitted[u];
      assert t.stores[k].log[i] == s.stores[k].log[i];
    }
  }

  /** A duplicate repeats an event that was logged, so submitted, before it. */
  lemma DuplicateHasCopy(s: State, k: nat, fault: Fault)
    requires InOrder(s) && Homed(s) && Enabled(s, StoreHandles(k, fault)) && s.stores[k].box[0].Save?
    requires OutcomeOf(s, k, fault).Duplicate?
    ensures HasEarlierCopy(s, s.stores[k].box[0].token)
  {
    var st, u := s.stores[k], s.stores[k].box[0].token;
    var i := Find(s.submitted, st.log, s.submitted[u].ts).value;
    var chain := Chain(s, k) + [|s.submitted|];
    assert chain[i] == st.log[i];
    assert Collect(StoreTokens, st.box)[0] == u;
    assert chain[|st.log|] == u;
  }

  lemma LogsGrow(s: State, step: Step)
    requires Enabled(s, step)
    ensures var t := Apply(s, step);
            && s.fanned <= t.fanned && s.submitted <= t.submitted && |t.stores| == |s.stores| && t.past == s.past
            && (forall k :: 0 <= k < |s.stores| ==> s.stores[k].log <= t.stores[k].log && t.stores[k].base == s.stores[k].base)
            && s.settled <= t.settled && |t.settled| <= |s.settled| + 1
  {
    hide OutcomeOf, Collect;
  }

  lemma SettlementsStep(s: State, step: Step)
    requires SettlementsExplained(s) && InOrder(s) && Homed(s) && Enabled(s, step)
    ensures SettlementsExplained(Apply(s, step))
  {
    LogsGrow(s, step);
    var t := Apply(s, step);
    forall i | 0 <= i < |t.settled|
      ensures t.settled[i] < t.past || WasFanned(t, t.settled[i]) || HasEarlierCopy(t, t.settled[i])
    {
      hide Apply, WasFanned, HasEarlierCopy, InOrder, Homed;
      if i < |s.settled| {
        if s.settled[i] >= s.past { SettlementKept(s, t, s.settled[i]); }
      } else {
        NewSettlement(s, step);
      }
    }
  }

  lemma NewSettlement(s: State, step: Step)
    requires InOrder(s) && Homed(s) && Enabled(s, step) && |Apply(s, step).settled| > |s.settled|
    ensures var t := Apply(s, step);
            var u := t.settled[|s.settled|];
            WasFanned(t, u) || HasEarlierCopy(t, u)
  {
    hide OutcomeOf, Collect, InOrder, HasEarlierCopy, Homed;
    var t := Apply(s, step);
    if step.FanoutEnds? {
      assert t.fanned[|s.fanned|].token == t.settled[|s.settled|];
    } else {
      DuplicateHasCopy(s, step.store, step.fault);
      LogsGrow(s, step);
      SettlementKept(s, t, t.settled[|s.settled|]);
    }
  }
}
