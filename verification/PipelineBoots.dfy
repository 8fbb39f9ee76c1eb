/** A node that stops and starts again, any number of times, and what its boots deliver together. */
module PipelineBoots {
  import opened Pipeline
  import opened PipelineInvariant
  import opened PipelineOrder
  import opened PipelineRuns

  // ----- from one boot to the next -----

  /** A store that is opened again has at least the synced part of its log. */
  ghost predicate Reopens(st: Store, st': Store) {
    && st'.log <= st.log && st.synced <= st'.synced <= |st'.log| == st'.base
    && st'.box == [] && st'.running
  }

  /** The node stops, wherever it is, and starts again. */
  ghost predicate Restarts(s: State, t: State) {
    && Started(t) && t.submitted == s.submitted && |t.stores| == |s.stores|
    && forall k :: 0 <= k < |s.stores| ==> Reopens(s.stores[k], t.stores[k])
  }

  lemma RestartBoots(n: nat, s: State, t: State)
    requires Reachable(n, s) && Restarts(s, t)
    ensures Boots(n, t)
  {
    InvReachable(n, s);
    forall k | 0 <= k < n ensures Opened(t.submitted, k, t.stores[k]) {
      DispatchFollowsLog(n, s, k);
      var st, st' := s.stores[k], t.stores[k];
      assert Reopens(st, st') && Distinct(s.submitted, st.log);
      hide Reachable, Inv, Only;
      assert forall i :: 0 <= i < |st'.log| ==> st'.log[i] == st.log[i];
    }
  }

  /** One boot: the node as it starts, what it does, and where it stops. */
  datatype Boot = Boot(start: State, steps: seq<Step>, stop: State)

  ghost predicate Life(n: nat, boots: seq<Boot>) {
    && (forall b :: 0 <= b < |boots| ==> Runs(boots[b].start, boots[b].steps, boots[b].stop))
    && (|boots| > 0 ==> Boots(n, boots[0].start))
    && forall b :: 0 < b < |boots| ==> Restarts(boots[b - 1].stop, boots[b].start)
  }

  lemma {:induction false} LifeReaches(n: nat, boots: seq<Boot>, b: nat)
    requires Life(n, boots) && b < |boots|
    ensures Boots(n, boots[b].start) && Reachable(n, boots[b].stop)
  {
    hide Boots, Restarts, Runs;
    if b > 0 {
      LifeReaches(n, boots, b - 1);
      RestartBoots(n, boots[b - 1].stop, boots[b].start);
    }
    assert Runs(boots[b].start, boots[b].steps, boots[b].stop);
  }

  // ----- a synced event stays synced -----

  ghost predicate Durable(s: State, e: Event) {
    e.aggregate < |s.stores| && Holds(s, e, s.stores[e.aggregate].synced)
  }

  lemma HoldsLonger(s: State, t: State, e: Event, bound: nat, bound': nat)
    requires Holds(s, e, bound) && s.submitted <= t.submitted && |t.stores| == |s.stores|
    requires var log, log' := s.stores[e.aggregate].log, t.stores[e.aggregate].log; bound <= bound' <= |log'| && log[..bound] <= log'
    ensures Holds(t, e, bound')
  {
    var log, log' := s.stores[e.aggregate].log, t.stores[e.aggregate].log;
    var i :| 0 <= i < bound && log[i] < |s.submitted| && s.submitted[log[i]] == e;
    assert log'[i] == log[..bound][i] == log[i];
  }

  lemma SyncedGrows(s: State, step: Step, k: nat)
    requires Streamed(s) && Enabled(s, step) && k < |s.stores|
    ensures var t := Apply(s, step); k < |t.stores| && s.stores[k].synced <= t.stores[k].synced
  {
    assert StreamMatches(s, k);
    hide OutcomeOf, Collect, Only, Stream;
  }

  lemma DurableStep(n: nat, s: State, step: Step, e: Event)
    requires Inv(n, s) && Durable(s, e) && Enabled(s, step)
    ensures Durable(Apply(s, step), e) && (LoggedBefore(s, e) ==> LoggedBefore(Apply(s, step), e))
  {
    var t, k := Apply(s, step), e.aggregate;
    SyncedGrows(s, step, k);
    LogsGrow(s, step);
    InvStep(n, s, step);
    assert StreamMatches(t, k);
    hide Apply, Enabled, Inv, Only, Stream, Numbered;
    HoldsLonger(s, t, e, s.stores[k].synced, t.stores[k].synced);
    if LoggedBefore(s, e) { HoldsLonger(s, t, e, s.stores[k].base, s.stores[k].base); }
  }

  lemma {:induction false} DurableRuns(n: nat, s: State, steps: seq<Step>, t: State, e: Event)
    requires Inv(n, s) && Durable(s, e) && Runs(s, steps, t)
    ensures Durable(t, e) && (LoggedBefore(s, e) ==> LoggedBefore(t, e))
    decreases |steps|
  {
    hide Inv, Durable, LoggedBefore, Apply, Enabled;
    if steps != [] {
      DurableStep(n, s, steps[0], e);
      InvStep(n, s, steps[0]);
      DurableRuns(n, Apply(s, steps[0]), steps[1..], t, e);
    }
  }

  lemma DurableRestart(s: State, t: State, e: Event)
    requires Durable(s, e) && Restarts(s, t)
    ensures Durable(t, e) && LoggedBefore(t, e)
  {
    var k := e.aggregate;
    assert Reopens(s.stores[k], t.stores[k]);
    HoldsLonger(s, t, e, s.stores[k].synced, t.stores[k].synced);
    HoldsLonger(s, t, e, s.stores[k].synced, t.stores[k].base);
  }

  // ----- a flush makes what it settled durable -----

  /** After a flush, every record of an event from before it is synced. */
  lemma FlushSyncs(n: nat, s: State, k: nat, i: nat)
    requires Reachable(n, s) && s.flush.Done? && k < n
    ensures |s.stores| == n
    ensures i < |s.stores[k].log| && s.stores[k].log[i] < s.cut ==> i < s.stores[k].synced
  {
    InvReachable(n, s);
  }

  /** And every event from before it that this boot got for a configured aggregate is durable. */
  lemma FlushMakesDurable(n: nat, s: State, t: Token)
    requires Reachable(n, s) && s.flush.Done? && s.past <= t < s.cut && t < |s.submitted| && s.submitted[t].aggregate < n
    ensures Durable(s, s.submitted[t])
  {
    FlushSettles(n, s, t);
    CountIn(s.settled, t);
    InvReachable(n, s);
    var i :| 0 <= i < |s.settled| && s.settled[i] == t;
    var k := s.submitted[t].aggregate;
    assert StreamMatches(s, k);
    if WasFanned(s, t) {
      var j :| 0 <= j < |s.fanned| && s.fanned[j].token == t;
      DeliveredIsDurable(n, s, j, s.submitted[t]);
    } else {
      var log := s.stores[k].log;
      var j :| 0 <= j < |log| && log[j] < t && s.submitted[log[j]] == s.submitted[t];
      FlushSyncs(n, s, k, j);
    }
  }

  /** What a flush covered in one boot is in the log of every later boot. */
  lemma FlushedOutlives(n: nat, boots: seq<Boot>, a: nat, b: nat, t: Token)
    requires Life(n, boots) && a < b < |boots|
    requires var s := boots[a].stop; s.flush.Done? && s.past <= t < s.cut && t < |s.submitted| && s.submitted[t].aggregate < n
    ensures LoggedBefore(boots[b].stop, boots[a].stop.submitted[t])
  {
    LifeReaches(n, boots, a);
    hide Life, Reachable, Durable, LoggedBefore;
    FlushMakesDurable(n, boots[a].stop, t);
    DurableLater(n, boots, a, b, boots[a].stop.submitted[t]);
  }

  // ----- at most one delivery in a life -----

  lemma DeliveredIsDurable(n: nat, s: State, i: nat, e: Event)
    requires Reachable(n, s) && i < |s.fanned| && Delivers(s, s.fanned[i], e)
    ensures Durable(s, e)
  {
    FannedHome(n, s, i);
    DispatchFollowsLog(n, s, e.aggregate);
    assert Begun(s)[..i] == s.fanned[..i];
    OnlyAt(Begun(s), i);
    hide Reachable, Only;
  }

  lemma {:induction false} DurableLater(n: nat, boots: seq<Boot>, a: nat, b: nat, e: Event)
    requires Life(n, boots) && a < b < |boots| && Durable(boots[a].stop, e)
    ensures Durable(boots[b].stop, e) && LoggedBefore(boots[b].stop, e)
    decreases b
  {
    hide Durable, LoggedBefore, Boots, Restarts, Runs, Inv;
    if a < b - 1 { DurableLater(n, boots, a, b - 1, e); }
    DurableRestart(boots[b - 1].stop, boots[b].start, e);
    LifeReaches(n, boots, b);
    InvBoot(n, boots[b].start);
    DurableRuns(n, boots[b].start, boots[b].steps, boots[b].stop, e);
  }

  /** What one boot delivers no later boot delivers. */
  lemma DeliveredInOneBoot(n: nat, boots: seq<Boot>, a: nat, b: nat, i: nat, j: nat, e: Event)
    requires Life(n, boots) && a < b < |boots|
    requires i < |boots[a].stop.fanned| && Delivers(boots[a].stop, boots[a].stop.fanned[i], e)
    requires j < |boots[b].stop.fanned|
    ensures !Delivers(boots[b].stop, boots[b].stop.fanned[j], e)
  {
    LifeReaches(n, boots, a);
    LifeReaches(n, boots, b);
    hide Life, Reachable, Durable, LoggedBefore;
    DeliveredIsDurable(n, boots[a].stop, i, e);
    DurableLater(n, boots, a, b, e);
    if Delivers(boots[b].stop, boots[b].stop.fanned[j], e) { NoRedelivery(n, boots[b].stop, j, e); }
  }

  // ----- a repeated event is settled and not delivered -----

  /** A node with one store that logged one event in an earlier boot. */
  function Node(submitted: seq<Event>, settled: seq<Token>, sequencer: seq<SeqMsg>, router: seq<RouterMsg>,
                box: seq<StoreMsg>, bus: seq<BusMsg>, flush: Flush, cut: nat): State
  {
    State(submitted, 1, [Store(box, [0], 1, true, 1)], sequencer, router, bus, [], [], settled, [], flush, cut)
  }

  lemma Next(s: State, step: Step, t: State)
    requires Reachable(1, s) && Enabled(s, step)
    requires var u := Apply(s, step); |u.stores| == |t.stores| == 1 && u.stores[0] == t.stores[0] && u == t.(stores := u.stores)
    ensures Reachable(1, t)
  {
    assert Apply(s, step).stores == t.stores;
    hide Enabled, Apply;
    var boot, steps :| Boots(1, boot) && Runs(boot, steps, s);
    RunsSnoc(boot, steps, s, step);
  }

  lemma RepeatArrives(e: Event)
    requires e.aggregate == 0
    ensures Reachable(1, Node([e, e], [0], [], [], [Save(1)], [], Idle, 0))
  {
    var boot := Node([e], [0], [], [], [], [], Idle, 0);
    assert Boots(1, boot) by { assert seq(1, i => i) == [0]; assert Opened([e], 0, boot.stores[0]); }
    assert Runs(boot, [], boot);
    hide Reachable;
    Next(boot, Submit(e), Node([e, e], [0], [SequenceEvent(1)], [], [], [], Idle, 0));
    Next(Node([e, e], [0], [SequenceEvent(1)], [], [], [], Idle, 0), SequencerHandles, Node([e, e], [0], [], [Route(1)], [], [], Idle, 0));
    Next(Node([e, e], [0], [], [Route(1)], [], [], Idle, 0), RouterHandles, Node([e, e], [0], [], [], [Save(1)], [], Idle, 0));
  }

  lemma RepeatSettles(e: Event)
    requires e.aggregate == 0
    ensures Reachable(1, Node([e, e], [0, 1], [], [], [], [], Idle, 0))
  {
    RepeatArrives(e);
    hide Reachable;
    Next(Node([e, e], [0], [], [], [Save(1)], [], Idle, 0), StoreHandles(0, Fine), Node([e, e], [0, 1], [], [], [], [], Idle, 0));
  }

  lemma FlushAsks(e: Event)
    requires e.aggregate == 0
    ensures Reachable(1, Node([e, e], [0, 1], [], [], [], [], Asking(0), 2))
  {
    RepeatSettles(e);
    hide Reachable, OutcomeOf, Collect;
    var es, settled := [e, e], [0, 1];
    Next(Node(es, settled, [], [], [], [], Idle, 0), StartFlush, Node(es, settled, [FlushEventStores], [], [], [], Sent, 2));
    Next(Node(es, settled, [FlushEventStores], [], [], [], Sent, 2), SequencerHandles, Node(es, settled, [], [], [], [], Forwarding, 2));
    Next(Node(es, settled, [], [], [], [], Forwarding, 2), ForwardFlush, Node(es, settled, [], [RouteFlush], [], [], AtRouter, 2));
    Next(Node(es, settled, [], [RouteFlush], [], [], AtRouter, 2), RouterHandles, Node(es, settled, [], [], [], [], Asking(0), 2));
  }

  lemma FlushReplies(e: Event)
    requires e.aggregate == 0
    ensures Reachable(1, Node([e, e], [0, 1], [], [], [], [], Replied, 2))
  {
    FlushAsks(e);
    hide Reachable, OutcomeOf, Collect;
    var es, settled := [e, e], [0, 1];
    Next(Node(es, settled, [], [], [], [], Asking(0), 2), AskStore, Node(es, settled, [], [], [SaveFlush], [], AtStore(0), 2));
    Next(Node(es, settled, [], [], [SaveFlush], [], AtStore(0), 2), StoreHandles(0, Fine), Node(es, settled, [], [], [], [], Asking(1), 2));
    Next(Node(es, settled, [], [], [], [], Asking(1), 2), AskStore, Node(es, settled, [], [], [], [], Replied, 2));
  }

  /** A node that restarts with a logged event gets it again from a peer. The flush that follows
      completes with the repeat settled, and no fanout delivered it. */
  lemma RepeatIsNotDelivered(e: Event)
    requires e.aggregate == 0
    ensures exists s :: && Reachable(1, s) && s.flush.Done? && s.past == 1 && s.cut == 2 && s.submitted == [e, e]
                        && s.settled == [0, 1] && s.fanned == []
  {
    FlushReplies(e);
    hide Reachable;
    var es, settled := [e, e], [0, 1];
    Next(Node(es, settled, [], [], [], [], Replied, 2), SendBarrier, Node(es, settled, [SequencerBarrier], [], [], [], BarrierSent, 2));
    Next(Node(es, settled, [SequencerBarrier], [], [], [], BarrierSent, 2), SequencerHandles, Node(es, settled, [], [], [], [], BarrierDone, 2));
    Next(Node(es, settled, [], [], [], [], BarrierDone, 2), SendBusBarrier, Node(es, settled, [], [], [], [EventBusBarrier], BusSent, 2));
    Next(Node(es, settled, [], [], [], [EventBusBarrier], BusSent, 2), BusHandles, Node(es, settled, [], [], [], [], Done, 2));
  }
}
