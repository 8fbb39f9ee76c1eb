/** A flush that completes leaves nothing in flight of what was enqueued before it. */
module PipelineDrain {
  import opened Pipeline

  // ----- a marker that travels through a queue -----

  /** What a message is to the flush: its marker, the carrier of an event, or neither. */
  datatype Mark = Marker | Carries(token: Token) | Neither

  /** A queue before the marker enters it, while the marker is in it, and after the marker left. */
  datatype Phase = Before | During | After

  predicate Old(m: Mark, cut: nat) {
    m.Marker? || (m.Carries? && m.token < cut)
  }

  /** No event from before the cut is behind the marker. */
  ghost predicate Gate<M>(f: M -> Mark, queue: seq<M>, cut: nat, phase: Phase) {
    match phase
    case Before => forall i :: 0 <= i < |queue| ==> !f(queue[i]).Marker?
    case During => forall i, j :: 0 <= i < j < |queue| && f(queue[i]).Marker? ==> !Old(f(queue[j]), cut)
    case After => forall i :: 0 <= i < |queue| ==> !Old(f(queue[i]), cut)
  }

  lemma GatePush<M>(f: M -> Mark, queue: seq<M>, m: M, cut: nat, phase: Phase)
    requires Gate(f, queue, cut, phase)
    requires !Old(f(m), cut) || (phase == Before && !f(m).Marker?)
    ensures Gate(f, queue + [m], cut, phase)
  {}

  lemma GatePop<M>(f: M -> Mark, queue: seq<M>, cut: nat, phase: Phase)
    requires Gate(f, queue, cut, phase) && queue != []
    ensures Gate(f, queue[1..], cut, phase)
    ensures phase == During && f(queue[0]).Marker? ==> Gate(f, queue[1..], cut, After)
    ensures phase == After ==> !Old(f(queue[0]), cut)
    ensures phase == Before ==> !f(queue[0]).Marker?
  {}

  lemma GateMark<M>(f: M -> Mark, queue: seq<M>, m: M, cut: nat)
    requires Gate(f, queue, cut, Before) && f(m).Marker?
    ensures Gate(f, queue + [m], cut, During)
  {}

  /** A queue that the marker is not in may wait for the next marker, whatever the cut. */
  lemma GateReset<M>(f: M -> Mark, queue: seq<M>, cut: nat, cut': nat, phase: Phase)
    requires Gate(f, queue, cut, phase)
    ensures phase != During ==> Gate(f, queue, cut', Before)
  {}

  // ----- the five queues that a flush passes -----

  function NewMark(m: SeqMsg): Mark {
    match m
    case SequenceEvent(t) => Carries(t)
    case FlushEventStores => Marker
    case _ => Neither
  }

  function RouterMark(m: RouterMsg): Mark {
    if m.Route? then Carries(m.token) else Marker
  }

  function StoreMark(m: StoreMsg): Mark {
    if m.Save? then Carries(m.token) else Marker
  }

  function ReplyMark(m: SeqMsg): Mark {
    match m
    case StoreEventResponse(item) => Carries(item.token)
    case SequencerBarrier => Marker
    case _ => Neither
  }

  function BusMark(m: BusMsg): Mark {
    if m.Dispatch? then Carries(m.item.token) else Marker
  }

  function Level(flush: Flush): nat {
    match flush
    case Idle => 0
    case Sent => 1
    case Forwarding => 2
    case AtRouter => 3
    case Asking(_) => 4
    case AtStore(_) => 5
    case Replied => 6
    case BarrierSent => 7
    case BarrierDone => 8
    case BusSent => 9
    case Done => 10
    case Failed => 0
  }

  function PhaseAt(flush: Flush, level: nat): Phase {
    if Level(flush) < level then Before else if Level(flush) == level then During else After
  }

  function StorePhase(flush: Flush, k: nat): Phase {
    match flush
    case Asking(j) => if k < j then After else Before
    case AtStore(j) => if k < j then After else if k == j then During else Before
    case _ => if Level(flush) >= 6 then After else Before
  }

  ghost predicate SequencerGates(s: State) {
    && Gate(NewMark, s.sequencer, s.cut, PhaseAt(s.flush, 1))
    && Gate(ReplyMark, s.sequencer, s.cut, PhaseAt(s.flush, 7))
  }

  ghost predicate RouterGate(s: State) {
    Gate(RouterMark, s.router, s.cut, PhaseAt(s.flush, 3))
  }

  ghost predicate StoreGates(s: State) {
    forall k :: 0 <= k < |s.stores| ==> Gate(StoreMark, s.stores[k].box, s.cut, StorePhase(s.flush, k))
  }

  ghost predicate BusGate(s: State) {
    && Gate(BusMark, s.bus, s.cut, PhaseAt(s.flush, 9))
    && (s.flush.Done? ==> forall i :: 0 <= i < |s.current| ==> s.current[i].token >= s.cut)
  }

  ghost predicate Gated(s: State) {
    s.cut <= |s.submitted| && SequencerGates(s) && RouterGate(s) && StoreGates(s) && BusGate(s)
  }

  lemma GatedSequencer(s: State)
    requires Gated(s) && Enabled(s, SequencerHandles)
    ensures Gated(SequencerHandled(s))
  {
    hide Gate;
    var m := s.sequencer[0];
    GatePop(NewMark, s.sequencer, s.cut, PhaseAt(s.flush, 1));
    GatePop(ReplyMark, s.sequencer, s.cut, PhaseAt(s.flush, 7));
    if m.SequenceEvent? { GatePush(RouterMark, s.router, Route(m.token), s.cut, PhaseAt(s.flush, 3)); }
    if m.StoreEventResponse? { GatePush(BusMark, s.bus, Dispatch(m.item), s.cut, PhaseAt(s.flush, 9)); }
  }

  lemma GatedRouter(s: State)
    requires Gated(s) && Enabled(s, RouterHandles)
    ensures Gated(RouterHandled(s))
  {
    hide Gate;
    var m, t := s.router[0], RouterHandled(s);
    GatePop(RouterMark, s.router, s.cut, PhaseAt(s.flush, 3));
    forall k | 0 <= k < |t.stores| ensures Gate(StoreMark, t.stores[k].box, t.cut, StorePhase(t.flush, k)) {
      assert Gate(StoreMark, s.stores[k].box, s.cut, StorePhase(s.flush, k));
      if m.Route? && t.stores[k] != s.stores[k] {
        GatePush(StoreMark, s.stores[k].box, Save(m.token), s.cut, StorePhase(s.flush, k));
      }
    }
  }

  lemma EmptyGate<M>(f: M -> Mark, cut: nat, phase: Phase)
    ensures Gate(f, [], cut, phase)
  {}

  /** What the store's handler leaves in its mailbox. */
  lemma StoreGateKept(s: State, k: nat, fault: Fault)
    requires Gated(s) && Enabled(s, StoreHandles(k, fault))
    ensures StoreGates(Apply(s, StoreHandles(k, fault)))
  {
    hide Gate, OutcomeOf, Collect;
    var t := Apply(s, StoreHandles(k, fault));
    forall j | 0 <= j < |t.stores| ensures Gate(StoreMark, t.stores[j].box, t.cut, StorePhase(t.flush, j)) {
      assert Gate(StoreMark, s.stores[j].box, s.cut, StorePhase(s.flush, j));
      if j == k {
        GatePop(StoreMark, s.stores[k].box, s.cut, StorePhase(s.flush, k));
        EmptyGate(StoreMark, s.cut, StorePhase(t.flush, k));
      } else {
        assert t.stores[j] == s.stores[j];
        GateReset(StoreMark, s.stores[j].box, s.cut, s.cut, StorePhase(s.flush, j));
      }
    }
  }

  lemma GatedStore(s: State, k: nat, fault: Fault)
    requires Gated(s) && Enabled(s, StoreHandles(k, fault))
    ensures Gated(Apply(s, StoreHandles(k, fault)))
  {
    hide Gate, OutcomeOf, Collect, StoreGates;
    StoreGateKept(s, k, fault);
    ReplyGateKept(s, k, fault);
    var t := Apply(s, StoreHandles(k, fault));
    GateReset(NewMark, s.sequencer, s.cut, s.cut, PhaseAt(s.flush, 1));
    GateReset(RouterMark, s.router, s.cut, s.cut, PhaseAt(s.flush, 3));
  }

  lemma ReplyGateKept(s: State, k: nat, fault: Fault)
    requires Gated(s) && Enabled(s, StoreHandles(k, fault))
    ensures SequencerGates(Apply(s, StoreHandles(k, fault)))
  {
    hide Gate, OutcomeOf, Collect;
    var t := Apply(s, StoreHandles(k, fault));
    GateReset(NewMark, s.sequencer, s.cut, s.cut, PhaseAt(s.flush, 1));
    assert Gate(StoreMark, s.stores[k].box, s.cut, StorePhase(s.flush, k));
    GatePop(StoreMark, s.stores[k].box, s.cut, StorePhase(s.flush, k));
    if t.sequencer != s.sequencer {
      var m := StoreEventResponse(Item(s.stores[k].box[0].token, k, |s.stores[k].log| + 1));
      GatePush(ReplyMark, s.sequencer, m, s.cut, PhaseAt(s.flush, 7));
      GatePush(NewMark, s.sequencer, m, s.cut, PhaseAt(s.flush, 1));
    }
  }

  lemma GatedAsked(s: State)
    requires Gated(s) && Enabled(s, AskStore)
    ensures Gated(StoreAsked(s))
  {
    hide Gate;
    var t, a := StoreAsked(s), s.flush.store;
    GateReset(NewMark, s.sequencer, s.cut, s.cut, PhaseAt(s.flush, 1));
    GateReset(RouterMark, s.router, s.cut, s.cut, PhaseAt(s.flush, 3));
    forall k | 0 <= k < |t.stores| ensures Gate(StoreMark, t.stores[k].box, t.cut, StorePhase(t.flush, k)) {
      assert Gate(StoreMark, s.stores[k].box, s.cut, StorePhase(s.flush, k));
      GateReset(StoreMark, s.stores[k].box, s.cut, s.cut, StorePhase(s.flush, k));
      if k == a { GateMark(StoreMark, s.stores[k].box, SaveFlush, s.cut); }
    }
  }

  lemma GatedBus(s: State)
    requires Gated(s) && Enabled(s, BusHandles)
    ensures Gated(BusHandled(s))
  {
    hide Gate;
    GatePop(BusMark, s.bus, s.cut, PhaseAt(s.flush, 9));
  }

  lemma GatedStart(s: State)
    requires Gated(s) && Enabled(s, StartFlush)
    ensures Gated(Apply(s, StartFlush))
  {
    hide Gate;
    var t := Apply(s, StartFlush);
    GateReset(NewMark, s.sequencer, s.cut, t.cut, PhaseAt(s.flush, 1));
    GateReset(ReplyMark, s.sequencer, s.cut, t.cut, PhaseAt(s.flush, 7));
    GateReset(RouterMark, s.router, s.cut, t.cut, PhaseAt(s.flush, 3));
    GateReset(BusMark, s.bus, s.cut, t.cut, PhaseAt(s.flush, 9));
    GateMark(NewMark, s.sequencer, FlushEventStores, t.cut);
    GatePush(ReplyMark, s.sequencer, FlushEventStores, t.cut, Before);
    forall k | 0 <= k < |t.stores| ensures Gate(StoreMark, t.stores[k].box, t.cut, StorePhase(t.flush, k)) {
      assert Gate(StoreMark, s.stores[k].box, s.cut, StorePhase(s.flush, k));
      GateReset(StoreMark, s.stores[k].box, s.cut, t.cut, StorePhase(s.flush, k));
    }
  }

  lemma GatedOther(s: State, step: Step)
    requires Gated(s) && Enabled(s, step)
    requires step.Submit? || step.FanoutEnds? || step.ForwardFlush? || step.SendBarrier? || step.SendBusBarrier?
    ensures Gated(Apply(s, step))
  {
    hide Gate;
    match step
    case Submit(_) =>
      GatePush(NewMark, s.sequencer, SequenceEvent(|s.submitted|), s.cut, PhaseAt(s.flush, 1));
      GatePush(ReplyMark, s.sequencer, SequenceEvent(|s.submitted|), s.cut, PhaseAt(s.flush, 7));
    case FanoutEnds =>
    case ForwardFlush => GateMark(RouterMark, s.router, RouteFlush, s.cut);
    case SendBarrier =>
      GateMark(ReplyMark, s.sequencer, SequencerBarrier, s.cut);
      GatePush(NewMark, s.sequencer, SequencerBarrier, s.cut, PhaseAt(s.flush, 1));
    case SendBusBarrier => GateMark(BusMark, s.bus, EventBusBarrier, s.cut);
  }

  lemma GatedStep(s: State, step: Step)
    requires Gated(s) && Enabled(s, step)
    ensures Gated(Apply(s, step))
  {
    hide Gated, SequencerHandled, RouterHandled, EventStored, StoreFlushed, BusHandled, FanoutEnded, StoreAsked;
    match step
    case SequencerHandles => GatedSequencer(s);
    case RouterHandles => GatedRouter(s);
    case StoreHandles(k, fault) => GatedStore(s, k, fault);
    case BusHandles => GatedBus(s);
    case StartFlush => GatedStart(s);
    case AskStore => GatedAsked(s);
    case _ => GatedOther(s, step);
  }
}
