/**
 The event pipeline as message passing between actors: sequencer -> event-store router -> event
 stores -> sequencer -> event bus, and the flush that drains it. A mailbox is a FIFO queue and one
 handler runs per step. Storage faults, stopped stores and the moment a fanout ends are choices of
 the run.
 */
module Pipeline {
  import opened Wrappers
  import opened Ordering

  /** The position of an event in the order of submission. It stands for the event's receipt. */
  type Token = nat

  datatype Event = Event(aggregate: nat, ts: nat, body: nat)

  /** A stored event on its way to the bus, with the sequence number that its store gave it. */
  datatype Item = Item(token: Token, aggregate: nat, number: nat)

  datatype SeqMsg = SequenceEvent(token: Token) | StoreEventResponse(item: Item) | FlushEventStores | SequencerBarrier
  datatype RouterMsg = Route(token: Token) | RouteFlush
  datatype StoreMsg = Save(token: Token) | SaveFlush
  datatype BusMsg = Dispatch(item: Item) | EventBusBarrier

  /** An event store actor: its mailbox, its log, how much of the log is synced, whether it runs, and how
      many records earlier boots left in the log. */
  datatype Store = Store(box: seq<StoreMsg>, log: seq<Token>, synced: nat, running: bool, base: nat)

  /** How far a flush of the pipeline has come. */
  datatype Flush =
    | Idle
    | Sent                // FlushEventStores is in the sequencer's mailbox
    | Forwarding          // the sequencer's future is about to ask the router
    | AtRouter
    | Asking(store: nat)  // the router's future is about to ask this store
    | AtStore(store: nat)
    | Replied
    | BarrierSent         // SequencerBarrier is in the sequencer's mailbox
    | BarrierDone
    | BusSent             // EventBusBarrier is in the bus's mailbox
    | Done
    | Failed

  datatype State = State(
    submitted: seq<Event>,       // every event enqueued to the sequencer, by token
    past: nat,                   // how many of them earlier boots enqueued
    stores: seq<Store>,          // the configured aggregates
    sequencer: seq<SeqMsg>,
    router: seq<RouterMsg>,
    bus: seq<BusMsg>,
    current: seq<Item>,          // the fanout in progress, at most one
    fanned: seq<Item>,           // the fanouts that ended, in order
    settled: seq<Token>,
    lost: seq<Token>,
    flush: Flush,
    cut: nat)                    // how many events were enqueued before the latest flush

  ghost predicate Distinct(submitted: seq<Event>, log: seq<Token>) {
    forall i, j :: 0 <= i < j < |log| && log[i] < |submitted| && log[j] < |submitted| ==>
      submitted[log[i]].ts != submitted[log[j]].ts
  }

  /** A store as a boot opens it: earlier boots logged events of its aggregate, in the order in which
      they were enqueued and no timestamp twice. */
  ghost predicate Opened(submitted: seq<Event>, k: nat, st: Store) {
    && st.box == [] && st.running && st.synced <= |st.log| == st.base
    && Ascends(st.log) && Distinct(submitted, st.log)
    && forall i :: 0 <= i < |st.log| ==> st.log[i] < |submitted| && submitted[st.log[i]].aggregate == k
  }

  /** A node that just started: nothing is under way, and no receipt of an earlier boot is outstanding. */
  ghost predicate Started(s: State) {
    && s == State(s.submitted, |s.submitted|, s.stores, [], [], [], [], [], s.settled, [], Idle, 0)
    && s.settled == seq(|s.submitted|, i => i)
  }

  ghost predicate Boots(n: nat, s: State) {
    Started(s) && |s.stores| == n && forall k :: 0 <= k < n ==> Opened(s.submitted, k, s.stores[k])
  }

  /** What goes wrong while an event is stored. */
  datatype Fault = Fine | IndexReadFails | LogReadFails | AppendFails | SyncFails | IndexFails

  datatype Step =
    | Submit(event: Event)
    | SequencerHandles
    | RouterHandles
    | StoreHandles(store: nat, fault: Fault)
    | BusHandles
    | FanoutEnds
    | StartFlush
    | ForwardFlush
    | AskStore
    | SendBarrier
    | SendBusBarrier

  // ----- collecting what a queue holds -----

  function Collect<M, T>(f: M -> seq<T>, queue: seq<M>): seq<T> {
    if queue == [] then [] else f(queue[0]) + Collect(f, queue[1..])
  }

  function SeqTokens(m: SeqMsg): seq<Token> {
    match m
    case SequenceEvent(t) => [t]
    case StoreEventResponse(item) => [item.token]
    case _ => []
  }

  function RouterTokens(m: RouterMsg): seq<Token> {
    if m.Route? then [m.token] else []
  }

  function StoreTokens(m: StoreMsg): seq<Token> {
    if m.Save? then [m.token] else []
  }

  function BusTokens(m: BusMsg): seq<Token> {
    if m.Dispatch? then [m.item.token] else []
  }

  // ----- handlers -----

  /** The first logged event with the timestamp: what the store's timestamp index finds. */
  function Find(submitted: seq<Event>, log: seq<Token>, ts: nat): (r: Option<nat>)
    ensures r.Some? ==> r.value < |log| && log[r.value] < |submitted| && submitted[log[r.value]].ts == ts
    ensures r.None? ==> forall i :: 0 <= i < |log| && log[i] < |submitted| ==> submitted[log[i]].ts != ts
  {
    if log == [] then None
    else if log[0] < |submitted| && submitted[log[0]].ts == ts then Some(0)
    else
      match Find(submitted, log[1..], ts)
      case None =>
        assert forall i :: 1 <= i < |log| ==> log[i] == log[1..][i - 1];
        None
      case Some(i) => Some(i + 1)
  }

  datatype Outcome = Stored | Duplicate | Broken(appended: bool, synced: bool)

  /** The timestamp is looked up first. A known one is read from the log, and is a duplicate or a fatal
      collision; a new one is appended, synced, indexed. */
  function OutcomeOf(s: State, k: nat, fault: Fault): (o: Outcome)
    requires k < |s.stores| && |s.stores[k].box| > 0 && s.stores[k].box[0].Save? && s.stores[k].box[0].token < |s.submitted|
    ensures o.Broken? && o.synced ==> o.appended
  {
    var e := s.submitted[s.stores[k].box[0].token];
    if fault == IndexReadFails then Broken(false, false)
    else match Find(s.submitted, s.stores[k].log, e.ts)
    case Some(i) =>
      if fault != LogReadFails && s.submitted[s.stores[k].log[i]] == e then Duplicate else Broken(false, false)
    case None =>
      match fault
      case Fine | IndexReadFails | LogReadFails => Stored
      case AppendFails => Broken(false, false)
      case SyncFails => Broken(true, false)
      case IndexFails => Broken(true, true)
  }

  predicate Enabled(s: State, step: Step) {
    match step
    case Submit(_) => true
    case SequencerHandles => |s.sequencer| > 0
    case RouterHandles => |s.router| > 0 && (s.router[0].Route? ==> s.router[0].token < |s.submitted|)
    case StoreHandles(k, _) =>
      && k < |s.stores| && s.stores[k].running && |s.stores[k].box| > 0
      && (s.stores[k].box[0].Save? ==> s.stores[k].box[0].token < |s.submitted|)
    case BusHandles => s.current == [] && |s.bus| > 0
    case FanoutEnds => |s.current| > 0
    case StartFlush => s.flush.Idle? || s.flush.Done? || s.flush.Failed?
    case ForwardFlush => s.flush == Forwarding
    case AskStore => s.flush.Asking?
    case SendBarrier => s.flush == Replied
    case SendBusBarrier => s.flush == BarrierDone
  }

  function SequencerHandled(s: State): State
    requires Enabled(s, SequencerHandles)
  {
    var m := s.sequencer[0];
    s.(sequencer := s.sequencer[1..],
       router := if m.SequenceEvent? then s.router + [Route(m.token)] else s.router,
       bus := if m.StoreEventResponse? then s.bus + [Dispatch(m.item)] else s.bus,
       flush := if m.FlushEventStores? && s.flush == Sent then Forwarding
                else if m.SequencerBarrier? && s.flush == BarrierSent then BarrierDone else s.flush)
  }

  /** An event of an aggregate without a running store is dropped, which loses its receipt. */
  function RouterHandled(s: State): State
    requires Enabled(s, RouterHandles)
  {
    var m := s.router[0];
    var k := if m.Route? then s.submitted[m.token].aggregate else |s.stores|;
    var routed := k < |s.stores| && s.stores[k].running;
    s.(router := s.router[1..],
       stores := if routed then s.stores[k := s.stores[k].(box := s.stores[k].box + [Save(m.token)])] else s.stores,
       lost := if m.Route? && !routed then s.lost + [m.token] else s.lost,
       flush := if m.RouteFlush? && s.flush == AtRouter then Asking(0) else s.flush)
  }

  /** The store after its handler ran on an event. A broken store stops and drops its mailbox. */
  function SavedStore(st: Store, t: Token, outcome: Outcome): Store
    requires |st.box| > 0
  {
    var appends := outcome.Stored? || (outcome.Broken? && outcome.appended);
    var syncs := outcome.Stored? || (outcome.Broken? && outcome.synced);
    st.(box := if outcome.Broken? then [] else st.box[1..],
        log := if appends then st.log + [t] else st.log,
        synced := if syncs then |st.log| + 1 else st.synced,
        running := !outcome.Broken?)
  }

  function EventStored(s: State, k: nat, fault: Fault): State
    requires Enabled(s, StoreHandles(k, fault)) && s.stores[k].box[0].Save?
  {
    var st, t := s.stores[k], s.stores[k].box[0].token;
    var outcome := OutcomeOf(s, k, fault);
    s.(stores := s.stores[k := SavedStore(st, t, outcome)],
       sequencer := if outcome.Stored? then s.sequencer + [StoreEventResponse(Item(t, k, |st.log| + 1))] else s.sequencer,
       settled := if outcome.Duplicate? then s.settled + [t] else s.settled,
       lost := if outcome.Broken? then s.lost + Collect(StoreTokens, st.box) else s.lost,
       flush := if outcome.Broken? && s.flush == AtStore(k) then Failed else s.flush)
  }

  function StoreFlushed(s: State, k: nat, fault: Fault): State
    requires Enabled(s, StoreHandles(k, fault)) && s.stores[k].box[0].SaveFlush?
  {
    var st := s.stores[k];
    var broken := fault == SyncFails;
    s.(stores := s.stores[k := if broken then st.(box := [], running := false) else st.(box := st.box[1..], synced := |st.log|)],
       lost := if broken then s.lost + Collect(StoreTokens, st.box) else s.lost,
       flush := if s.flush != AtStore(k) then s.flush else if broken then Failed else Asking(k + 1))
  }

  function BusHandled(s: State): State
    requires Enabled(s, BusHandles)
  {
    var m := s.bus[0];
    s.(bus := s.bus[1..],
       current := if m.Dispatch? then [m.item] else [],
       flush := if m.EventBusBarrier? && s.flush == BusSent then Done else s.flush)
  }

  /** A fanout that ends settles its receipt, whatever its outcome. */
  function FanoutEnded(s: State): State
    requires Enabled(s, FanoutEnds)
  {
    s.(current := s.current[1..],
       fanned := s.fanned + [s.current[0]],
       settled := s.settled + [s.current[0].token])
  }

  /** A stopped store fails the flush; after the last store the router replies. */
  function StoreAsked(s: State): State
    requires Enabled(s, AskStore)
  {
    var k := s.flush.store;
    var asks := k < |s.stores| && s.stores[k].running;
    s.(stores := if asks then s.stores[k := s.stores[k].(box := s.stores[k].box + [SaveFlush])] else s.stores,
       flush := if asks then AtStore(k) else if k < |s.stores| then Failed else Replied)
  }

  function Apply(s: State, step: Step): State
    requires Enabled(s, step)
  {
    match step
    case Submit(e) => s.(submitted := s.submitted + [e], sequencer := s.sequencer + [SequenceEvent(|s.submitted|)])
    case SequencerHandles => SequencerHandled(s)
    case RouterHandles => RouterHandled(s)
    case StoreHandles(k, fault) => if s.stores[k].box[0].Save? then EventStored(s, k, fault) else StoreFlushed(s, k, fault)
    case BusHandles => BusHandled(s)
    case FanoutEnds => FanoutEnded(s)
    case StartFlush => s.(sequencer := s.sequencer + [FlushEventStores], flush := Sent, cut := |s.submitted|)
    case ForwardFlush => s.(router := s.router + [RouteFlush], flush := AtRouter)
    case AskStore => StoreAsked(s)
    case SendBarrier => s.(sequencer := s.sequencer + [SequencerBarrier], flush := BarrierSent)
    case SendBusBarrier => s.(bus := s.bus + [EventBusBarrier], flush := BusSent)
  }

  /** The steps lead from `s` to `t`. */
  ghost predicate Runs(s: State, steps: seq<Step>, t: State)
    decreases |steps|
  {
    if steps == [] then s == t
    else Enabled(s, steps[0]) && Runs(Apply(s, steps[0]), steps[1..], t)
  }

  /** Some boot of a node with `n` stores leads to the state. */
  ghost predicate Reachable(n: nat, s: State) {
    exists boot, steps :: Boots(n, boot) && Runs(boot, steps, s)
  }
}
