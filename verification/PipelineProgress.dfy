/** The pipeline always drains: no step waits forever, and every run without new work ends. */
module PipelineProgress {
  import opened Pipeline
  import opened PipelineInvariant
  import opened PipelineDrain
  import opened PipelineRuns

  // ----- a marker is where the flush waits for it -----

  ghost predicate MarkerQueued(s: State) {
    match s.flush
    case Sent => FlushEventStores in s.sequencer
    case AtRouter => RouteFlush in s.router
    case AtStore(k) => k < |s.stores| && s.stores[k].running && SaveFlush in s.stores[k].box
    case BarrierSent => SequencerBarrier in s.sequencer
    case BusSent => EventBusBarrier in s.bus
    case _ => true
  }

  /** A stopped store holds no message. */
  ghost predicate StoppedEmpty(s: State) {
    forall k :: 0 <= k < |s.stores| && !s.stores[k].running ==> s.stores[k].box == []
  }

  ghost predicate AskedInRange(s: State) {
    s.flush.Asking? ==> s.flush.store <= |s.stores|
  }

  ghost predicate Waits(s: State) {
    MarkerQueued(s) && StoppedEmpty(s) && AskedInRange(s)
  }

  lemma InTail<M>(m: M, queue: seq<M>)
    requires m in queue && queue[0] != m
    ensures m in queue[1..]
  {}

  lemma WaitsStore(s: State, k: nat, fault: Fault)
    requires Waits(s) && Enabled(s, StoreHandles(k, fault))
    ensures Waits(Apply(s, StoreHandles(k, fault)))
  {
    hide OutcomeOf, Collect;
    if s.flush == AtStore(k) && s.stores[k].box[0].Save? { InTail(SaveFlush, s.stores[k].box); }
  }

  lemma WaitsStep(s: State, step: Step)
    requires Waits(s) && Enabled(s, step)
    ensures Waits(Apply(s, step))
  {
    hide EventStored, StoreFlushed;
    match step
    case StoreHandles(k, fault) => WaitsStore(s, k, fault);
    case SequencerHandles =>
      if s.flush == Sent && s.sequencer[0] != FlushEventStores { InTail(FlushEventStores, s.sequencer); }
      if s.flush == BarrierSent && s.sequencer[0] != SequencerBarrier { InTail(SequencerBarrier, s.sequencer); }
    case RouterHandles => if s.flush == AtRouter && s.router[0] != RouteFlush { InTail(RouteFlush, s.router); }
    case BusHandles => if s.flush == BusSent && s.bus[0] != EventBusBarrier { InTail(EventBusBarrier, s.bus); }
    case _ =>
  }

  lemma {:induction false} WaitsRuns(s: State, steps: seq<Step>, t: State)
    requires Waits(s) && Runs(s, steps, t)
    ensures Waits(t)
    decreases |steps|
  {
    hide Waits, Apply, Enabled;
    if steps != [] {
      WaitsStep(s, steps[0]);
      WaitsRuns(Apply(s, steps[0]), steps[1..], t);
    }
  }

  lemma WaitsReachable(n: nat, s: State)
    requires Reachable(n, s)
    ensures Waits(s)
  {
    var boot, steps :| Boots(n, boot) && Runs(boot, steps, s);
    assert forall k :: 0 <= k < n ==> Opened(boot.submitted, k, boot.stores[k]);
    WaitsRuns(boot, steps, s);
  }

  // ----- nothing is stuck -----

  /** No handler can run and no future can go on. */
  ghost predicate Quiescent(s: State) {
    forall step :: Enabled(s, step) ==> step.Submit? || step.StartFlush?
  }

  lemma HeadIsSubmitted<M>(s: State, f: M -> seq<Token>, queue: seq<M>, t: Token)
    requires queue != [] && f(queue[0]) == [t] && Total(s, t) == (if t < |s.submitted| then 1 else 0)
    requires Queued(f, queue, t) <= Total(s, t)
    ensures t < |s.submitted|
  {
    Popped(f, queue, t);
  }

  /** When nothing can go on, every mailbox is empty. */
  lemma QuiescentIsEmpty(s: State)
    requires Accounted(s) && Waits(s) && Quiescent(s)
    ensures s.sequencer == [] && s.router == [] && s.bus == [] && s.current == []
    ensures forall k :: 0 <= k < |s.stores| ==> s.stores[k].box == []
  {
    hide Total, Queued;
    assert !Enabled(s, SequencerHandles) && !Enabled(s, FanoutEnds) && !Enabled(s, BusHandles);
    if s.router != [] && s.router[0].Route? { RouteIsSubmitted(s, s.router[0].token); }
    assert !Enabled(s, RouterHandles);
    forall k | 0 <= k < |s.stores| ensures s.stores[k].box == [] {
      if s.stores[k].box != [] && s.stores[k].box[0].Save? { SaveIsSubmitted(s, k, s.stores[k].box[0].token); }
      assert !Enabled(s, StoreHandles(k, Fine));
    }
  }

  lemma RouteIsSubmitted(s: State, t: Token)
    requires Accounted(s) && s.router != [] && s.router[0] == Route(t)
    ensures t < |s.submitted|
  {
    HeadIsSubmitted(s, RouterTokens, s.router, t);
  }

  lemma SaveIsSubmitted(s: State, k: nat, t: Token)
    requires Accounted(s) && k < |s.stores| && s.stores[k].box != [] && s.stores[k].box[0] == Save(t)
    ensures t < |s.submitted|
  {
    BoxCounted(s.stores, k, t);
    HeadIsSubmitted(s, StoreTokens, s.stores[k].box, t);
  }

  /** A state in which nothing can go on has no flush under way and every event settled or lost. */
  lemma NothingIsStuck(n: nat, s: State)
    requires Reachable(n, s) && Quiescent(s)
    ensures (s.flush.Idle? || s.flush.Done? || s.flush.Failed?) && Enabled(s, StartFlush)
    ensures forall t: Token :: t < |s.submitted| ==> Count(s.settled, t) + Count(s.lost, t) == 1
  {
    InvReachable(n, s);
    WaitsReachable(n, s);
    QuiescentIsEmpty(s);
    forall t: Token | t < |s.submitted| ensures Count(s.settled, t) + Count(s.lost, t) == 1 {
      EveryEventInOnePlace(n, s, t);
      NothingBoxed(s.stores, t);
    }
    assert !Enabled(s, ForwardFlush) && !Enabled(s, AskStore) && !Enabled(s, SendBarrier) && !Enabled(s, SendBusBarrier);
  }

  // ----- every run without new work ends -----

  /** How many more handlers a message can cause. */
  function SeqLoad(m: SeqMsg): nat {
    match m
    case SequenceEvent(_) => 6
    case StoreEventResponse(_) => 3
    case _ => 0
  }

  function RouterLoad(m: RouterMsg): nat {
    if m.Route? then 5 else 0
  }

  function StoreLoad(m: StoreMsg): nat {
    if m.Save? then 4 else 0
  }

  function BusLoad(m: BusMsg): nat {
    if m.Dispatch? then 2 else 0
  }

  function Load<M>(f: M -> nat, queue: seq<M>): nat {
    if queue == [] then 0 else f(queue[0]) + Load(f, queue[1..])
  }

  lemma {:induction false} LoadPush<M>(f: M -> nat, queue: seq<M>, m: M)
    ensures Load(f, queue + [m]) == Load(f, queue) + f(m)
  {
    if queue == [] {
      assert queue + [m] == [m];
    } else {
      LoadPush(f, queue[1..], m);
      assert (queue + [m])[1..] == queue[1..] + [m];
    }
  }

  lemma LoadPop<M>(f: M -> nat, queue: seq<M>)
    requires queue != []
    ensures Load(f, queue) == f(queue[0]) + Load(f, queue[1..])
    ensures Load<M>(f, []) == 0
  {}

  function StoreLoads(stores: seq<Store>): nat {
    if stores == [] then 0 else Load(StoreLoad, stores[0].box) + StoreLoads(stores[1..])
  }

  lemma {:induction false} StoreLoadsUpdate(stores: seq<Store>, k: nat, st: Store)
    requires k < |stores|
    ensures StoreLoads(stores[k := st]) == StoreLoads(stores) - Load(StoreLoad, stores[k].box) + Load(StoreLoad, st.box)
  {
    hide Load;
    var stores' := stores[k := st];
    if k == 0 {
      assert stores'[1..] == stores[1..];
    } else {
      StoreLoadsUpdate(stores[1..], k - 1, st);
      assert stores'[1..] == stores[1..][k - 1 := st];
    }
  }

  /** How many transitions a flush has left. */
  function FlushLoad(flush: Flush, n: nat): nat {
    match flush
    case Sent => 9 + 2 * n
    case Forwarding => 8 + 2 * n
    case AtRouter => 7 + 2 * n
    case Asking(k) => if k <= n then 6 + 2 * (n - k) else 6
    case AtStore(k) => if k <= n then 5 + 2 * (n - k) else 5
    case Replied => 4
    case BarrierSent => 3
    case BarrierDone => 2
    case BusSent => 1
    case _ => 0
  }

  /** The work that is left. */
  function Work(s: State): nat {
    Load(SeqLoad, s.sequencer) + Load(RouterLoad, s.router) + StoreLoads(s.stores) + Load(BusLoad, s.bus) + |s.current|
    + FlushLoad(s.flush, |s.stores|)
  }

  lemma WorkSequencer(s: State)
    requires Gated(s) && Enabled(s, SequencerHandles)
    ensures Work(SequencerHandled(s)) < Work(s)
  {
    hide Gate, Load, StoreLoads;
    var m := s.sequencer[0];
    LoadPop(SeqLoad, s.sequencer);
    GatePop(NewMark, s.sequencer, s.cut, PhaseAt(s.flush, 1));
    GatePop(ReplyMark, s.sequencer, s.cut, PhaseAt(s.flush, 7));
    if m.SequenceEvent? { LoadPush(RouterLoad, s.router, Route(m.token)); }
    if m.StoreEventResponse? { LoadPush(BusLoad, s.bus, Dispatch(m.item)); }
  }

  lemma WorkRouter(s: State)
    requires Gated(s) && Enabled(s, RouterHandles)
    ensures Work(RouterHandled(s)) < Work(s)
  {
    hide Gate, Load, StoreLoads;
    var m := s.router[0];
    LoadPop(RouterLoad, s.router);
    GatePop(RouterMark, s.router, s.cut, PhaseAt(s.flush, 3));
    if m.Route? {
      var k := s.submitted[m.token].aggregate;
      if k < |s.stores| && s.stores[k].running {
        var st := s.stores[k].(box := s.stores[k].box + [Save(m.token)]);
        LoadPush(StoreLoad, s.stores[k].box, Save(m.token));
        StoreLoadsUpdate(s.stores, k, st);
      }
    }
  }

  lemma WorkStore(s: State, k: nat, fault: Fault)
    requires Gated(s) && Enabled(s, StoreHandles(k, fault))
    ensures Work(Apply(s, StoreHandles(k, fault))) < Work(s)
  {
    hide Gate, Load, StoreLoads, OutcomeOf, Collect;
    var st, t := s.stores[k], Apply(s, StoreHandles(k, fault));
    LoadPop(StoreLoad, st.box);
    StoreLoadsUpdate(s.stores, k, t.stores[k]);
    assert Gate(StoreMark, st.box, s.cut, StorePhase(s.flush, k));
    GatePop(StoreMark, st.box, s.cut, StorePhase(s.flush, k));
    if t.sequencer != s.sequencer {
      LoadPush(SeqLoad, s.sequencer, StoreEventResponse(Item(st.box[0].token, k, |st.log| + 1)));
    }
  }

  lemma WorkOther(s: State, step: Step)
    requires Gated(s) && Waits(s) && Enabled(s, step)
    requires !step.Submit? && !step.StartFlush? && !step.SequencerHandles? && !step.RouterHandles? && !step.StoreHandles?
    ensures Work(Apply(s, step)) < Work(s)
  {
    hide Gate, Load, StoreLoads;
    match step
    case BusHandles =>
      LoadPop(BusLoad, s.bus);
      GatePop(BusMark, s.bus, s.cut, PhaseAt(s.flush, 9));
    case FanoutEnds =>
    case ForwardFlush => LoadPush(RouterLoad, s.router, RouteFlush);
    case AskStore =>
      var k := s.flush.store;
      if k < |s.stores| && s.stores[k].running {
        LoadPush(StoreLoad, s.stores[k].box, SaveFlush);
        StoreLoadsUpdate(s.stores, k, s.stores[k].(box := s.stores[k].box + [SaveFlush]));
      }
    case SendBarrier => LoadPush(SeqLoad, s.sequencer, SequencerBarrier);
    case SendBusBarrier => LoadPush(BusLoad, s.bus, EventBusBarrier);
  }

  lemma WorkStep(s: State, step: Step)
    requires Gated(s) && Waits(s) && Enabled(s, step) && !step.Submit? && !step.StartFlush?
    ensures Work(Apply(s, step)) < Work(s)
  {
    hide Work, Gated, Waits, SequencerHandled, RouterHandled, EventStored, StoreFlushed;
    match step
    case SequencerHandles => WorkSequencer(s);
    case RouterHandles => WorkRouter(s);
    case StoreHandles(k, fault) => WorkStore(s, k, fault);
    case _ => WorkOther(s, step);
  }

  lemma {:induction false} WorkRuns(n: nat, s: State, steps: seq<Step>, t: State)
    requires Inv(n, s) && Waits(s) && Runs(s, steps, t)
    requires forall i :: 0 <= i < |steps| ==> !steps[i].Submit? && !steps[i].StartFlush?
    ensures Work(t) + |steps| <= Work(s)
    decreases |steps|
  {
    hide Waits, Apply, Enabled, Work;
    if steps != [] {
      assert Gated(s);
      WorkStep(s, steps[0]);
      InvStep(n, s, steps[0]);
      WaitsStep(s, steps[0]);
      WorkRuns(n, Apply(s, steps[0]), steps[1..], t);
    }
  }

  /** Without new events or a new flush a run takes at most `Work` steps. By `NothingIsStuck` it then
      ends with the flush returned and every event settled or lost. */
  lemma DrainEnds(n: nat, s: State, steps: seq<Step>, t: State)
    requires Reachable(n, s) && Runs(s, steps, t)
    requires forall i :: 0 <= i < |steps| ==> !steps[i].Submit? && !steps[i].StartFlush?
    ensures |steps| <= Work(s)
  {
    hide Inv, Waits, Work;
    InvReachable(n, s);
    WaitsReachable(n, s);
    WorkRuns(n, s, steps, t);
  }
}
