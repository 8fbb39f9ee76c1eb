/** What every step of the event pipeline keeps. */
module PipelineInvariant {
  import opened Pipeline

  lemma {:induction false} CollectSnoc<M, T>(f: M -> seq<T>, queue: seq<M>, m: M)
    ensures Collect(f, queue + [m]) == Collect(f, queue) + f(m)
  {
    if queue == [] {
      assert queue + [m] == [m];
      assert [m][1..] == [];
    } else {
      CollectSnoc(f, queue[1..], m);
      assert (queue + [m])[1..] == queue[1..] + [m];
    }
  }

  // ----- every event is in one place -----

  function Count(tokens: seq<Token>, t: Token): nat {
    multiset(tokens)[t]
  }

  lemma CountConcat(a: seq<Token>, b: seq<Token>, t: Token)
    ensures Count(a + b, t) == Count(a, t) + Count(b, t)
  {}

  /** How often a token occurs in a queue, and how a push and a pop change that. */
  function Queued<M>(f: M -> seq<Token>, queue: seq<M>, t: Token): nat {
    Count(Collect(f, queue), t)
  }

  lemma Pushed<M>(f: M -> seq<Token>, queue: seq<M>, m: M, t: Token)
    ensures Queued(f, queue + [m], t) == Queued(f, queue, t) + Count(f(m), t)
  {
    hide Collect;
    CollectSnoc(f, queue, m);
    CountConcat(Collect(f, queue), f(m), t);
  }

  lemma Popped<M>(f: M -> seq<Token>, queue: seq<M>, t: Token)
    requires queue != []
    ensures Queued(f, queue, t) == Count(f(queue[0]), t) + Queued(f, queue[1..], t)
  {
    CountConcat(f(queue[0]), Collect(f, queue[1..]), t);
  }

  function ItemTokens(item: Item): seq<Token> {
    [item.token]
  }

  function Boxed(stores: seq<Store>, t: Token): nat {
    if stores == [] then 0 else Queued(StoreTokens, stores[0].box, t) + Boxed(stores[1..], t)
  }

  lemma {:induction false} BoxedUpdate(stores: seq<Store>, k: nat, st: Store, t: Token)
    requires k < |stores|
    ensures Boxed(stores[k := st], t) == Boxed(stores, t) - Queued(StoreTokens, stores[k].box, t) + Queued(StoreTokens, st.box, t)
  {
    hide Queued;
    var stores' := stores[k := st];
    if k == 0 {
      assert stores'[1..] == stores[1..];
    } else {
      BoxedUpdate(stores[1..], k - 1, st, t);
      assert stores'[1..] == stores[1..][k - 1 := st];
    }
  }

  /** How often a token is in flight, over every mailbox and the running fanout. */
  function InFlight(s: State, t: Token): nat {
    Queued(SeqTokens, s.sequencer, t) + Queued(RouterTokens, s.router, t) + Boxed(s.stores, t) +
    Queued(BusTokens, s.bus, t) + Queued(ItemTokens, s.current, t)
  }

  function Total(s: State, t: Token): nat {
    InFlight(s, t) + Count(s.settled, t) + Count(s.lost, t)
  }

  /** Every submitted event is in flight in one place, settled once or lost once. */
  ghost predicate Accounted(s: State) {
    |s.current| <= 1 && forall t: Token :: Total(s, t) == if t < |s.submitted| then 1 else 0
  }

  lemma TotalSequencer(s: State, t: Token)
    requires Enabled(s, SequencerHandles)
    ensures Total(SequencerHandled(s), t) == Total(s, t)
  {
    hide Queued, Count, Boxed;
    var m := s.sequencer[0];
    Popped(SeqTokens, s.sequencer, t);
    if m.SequenceEvent? { Pushed(RouterTokens, s.router, Route(m.token), t); }
    if m.StoreEventResponse? { Pushed(BusTokens, s.bus, Dispatch(m.item), t); }
    assert m.FlushEventStores? || m.SequencerBarrier? ==> Count(SeqTokens(m), t) == 0 by { NoTokens(t); }
  }

  lemma NoTokens(t: Token)
    ensures Count([], t) == 0
  {}

  lemma TotalRouter(s: State, t: Token)
    requires Enabled(s, RouterHandles)
    ensures Total(RouterHandled(s), t) == Total(s, t)
  {
    hide Queued, Count, Boxed;
    var m := s.router[0];
    Popped(RouterTokens, s.router, t);
    NoTokens(t);
    if m.Route? {
      var k := s.submitted[m.token].aggregate;
      if k < |s.stores| && s.stores[k].running {
        Pushed(StoreTokens, s.stores[k].box, Save(m.token), t);
        BoxedUpdate(s.stores, k, s.stores[k].(box := s.stores[k].box + [Save(m.token)]), t);
      } else {
        CountConcat(s.lost, [m.token], t);
      }
    }
  }

  lemma TotalSaved(s: State, k: nat, fault: Fault, t: Token)
    requires Enabled(s, StoreHandles(k, fault)) && s.stores[k].box[0].Save?
    ensures Total(EventStored(s, k, fault), t) == Total(s, t)
  {
    hide OutcomeOf, Queued, Count, Boxed;
    var st, u := s.stores[k], s.stores[k].box[0].token;
    var outcome := OutcomeOf(s, k, fault);
    Popped(StoreTokens, st.box, t);
    BoxedUpdate(s.stores, k, SavedStore(st, u, outcome), t);
    match outcome
    case Stored => Pushed(SeqTokens, s.sequencer, StoreEventResponse(Item(u, k, |st.log| + 1)), t);
    case Duplicate => CountConcat(s.settled, [u], t);
    case Broken(_, _) => Dropped(s.lost, st.box, t);
  }

  /** A mailbox that is dropped moves its tokens to the lost ones. */
  lemma Dropped(lost: seq<Token>, box: seq<StoreMsg>, t: Token)
    ensures Count(lost + Collect(StoreTokens, box), t) == Count(lost, t) + Queued(StoreTokens, box, t)
    ensures Queued(StoreTokens, [], t) == 0
  {
    CountConcat(lost, Collect(StoreTokens, box), t);
  }

  lemma TotalFlushed(s: State, k: nat, fault: Fault, t: Token)
    requires Enabled(s, StoreHandles(k, fault)) && s.stores[k].box[0].SaveFlush?
    ensures Total(StoreFlushed(s, k, fault), t) == Total(s, t)
  {
    hide Queued, Count, Boxed;
    var st := s.stores[k];
    Popped(StoreTokens, st.box, t);
    NoTokens(t);
    BoxedUpdate(s.stores, k, StoreFlushed(s, k, fault).stores[k], t);
    Dropped(s.lost, st.box, t);
  }

  lemma TotalBus(s: State, t: Token)
    requires Enabled(s, BusHandles)
    ensures Total(BusHandled(s), t) == Total(s, t)
  {
    hide Queued, Count, Boxed;
    Popped(BusTokens, s.bus, t);
    NoTokens(t);
    if s.bus[0].Dispatch? {
      Pushed(ItemTokens, [], s.bus[0].item, t);
      assert [] + [s.bus[0].item] == [s.bus[0].item];
    }
  }

  lemma TotalFanout(s: State, t: Token)
    requires Enabled(s, FanoutEnds)
    ensures Total(FanoutEnded(s), t) == Total(s, t)
  {
    hide Queued, Count, Boxed;
    Popped(ItemTokens, s.current, t);
    CountConcat(s.settled, [s.current[0].token], t);
  }

  lemma TotalAsked(s: State, t: Token)
    requires Enabled(s, AskStore)
    ensures Total(StoreAsked(s), t) == Total(s, t)
  {
    hide Queued, Count, Boxed;
    var k := s.flush.store;
    if k < |s.stores| && s.stores[k].running {
      Pushed(StoreTokens, s.stores[k].box, SaveFlush, t);
      NoTokens(t);
      BoxedUpdate(s.stores, k, s.stores[k].(box := s.stores[k].box + [SaveFlush]), t);
    }
  }

  lemma TotalSubmit(s: State, e: Event, t: Token)
    ensures Total(Apply(s, Submit(e)), t) == Total(s, t) + if t == |s.submitted| then 1 else 0
  {
    hide Queued, Boxed;
    Pushed(SeqTokens, s.sequencer, SequenceEvent(|s.submitted|), t);
  }

  lemma TotalMarker(s: State, step: Step, t: Token)
    requires Enabled(s, step) && (step.StartFlush? || step.ForwardFlush? || step.SendBarrier? || step.SendBusBarrier?)
    ensures Total(Apply(s, step), t) == Total(s, t)
  {
    hide Queued, Count, Boxed;
    NoTokens(t);
    Pushed(SeqTokens, s.sequencer, FlushEventStores, t);
    Pushed(RouterTokens, s.router, RouteFlush, t);
    Pushed(SeqTokens, s.sequencer, SequencerBarrier, t);
    Pushed(BusTokens, s.bus, EventBusBarrier, t);
  }

  /** No step makes or loses an event; a submission adds one. */
  lemma TotalStep(s: State, step: Step, t: Token)
    requires Enabled(s, step)
    ensures Total(Apply(s, step), t) == Total(s, t) + if step.Submit? && t == |s.submitted| then 1 else 0
  {
    hide SequencerHandled, RouterHandled, EventStored, StoreFlushed, BusHandled, FanoutEnded, StoreAsked, Total;
    match step
    case Submit(e) => TotalSubmit(s, e, t);
    case SequencerHandles => TotalSequencer(s, t);
    case RouterHandles => TotalRouter(s, t);
    case StoreHandles(k, fault) =>
      if s.stores[k].box[0].Save? { TotalSaved(s, k, fault, t); } else { TotalFlushed(s, k, fault, t); }
    case BusHandles => TotalBus(s, t);
    case FanoutEnds => TotalFanout(s, t);
    case AskStore => TotalAsked(s, t);
    case _ => TotalMarker(s, step, t);
  }

  lemma AccountedStep(s: State, step: Step)
    requires Accounted(s) && Enabled(s, step)
    ensures Accounted(Apply(s, step))
  {
    hide Total;
    var t := Apply(s, step);
    forall u: Token ensures Total(t, u) == if u < |t.submitted| then 1 else 0 {
      TotalStep(s, step, u);
    }
  }

  // ----- what reaches the bus -----

  function SeqItems(m: SeqMsg): seq<Item> {
    if m.StoreEventResponse? then [m.item] else []
  }

  function BusItems(m: BusMsg): seq<Item> {
    if m.Dispatch? then [m.item] else []
  }

  /** The stored events in the order in which they reach and leave the bus. */
  function Stream(s: State): seq<Item> {
    s.fanned + s.current + Collect(BusItems, s.bus) + Collect(SeqItems, s.sequencer)
  }

  function Only(items: seq<Item>, k: nat): seq<Item> {
    if items == [] then []
    else if items[0].aggregate == k then [items[0]] + Only(items[1..], k)
    else Only(items[1..], k)
  }

  lemma {:induction false} OnlyConcat(a: seq<Item>, b: seq<Item>, k: nat)
    ensures Only(a + b, k) == Only(a, k) + Only(b, k)
  {
    if a == [] {
      assert a + b == b;
    } else {
      OnlyConcat(a[1..], b, k);
      assert (a + b)[1..] == a[1..] + b;
    }
  }

  function Numbered(log: seq<Token>, k: nat): seq<Item> {
    seq(|log|, i requires 0 <= i < |log| => Item(log[i], k, i + 1))
  }

  /** For one aggregate, what was stored and not withheld by a stopped store is, in order and
      without a gap, the synced part of what this boot logged. */
  ghost predicate StreamMatches(s: State, k: nat)
    requires k < |s.stores|
  {
    var st, n := s.stores[k], |Only(Stream(s), k)|;
    && st.base + n <= |st.log| && st.synced <= |st.log|
    && (n > 0 ==> st.base + n <= st.synced)
    && (st.running ==> st.base + n == |st.log|)
    && Only(Stream(s), k) == Numbered(st.log, k)[st.base..st.base + n]
  }

  ghost predicate Streamed(s: State) {
    && (forall k :: 0 <= k < |s.stores| ==> StreamMatches(s, k))
    && forall x :: x in Stream(s) ==> x.aggregate < |s.stores|
  }

  lemma StreamSequencer(s: State)
    requires Enabled(s, SequencerHandles)
    ensures Stream(SequencerHandled(s)) == Stream(s)
  {
    var m := s.sequencer[0];
    if m.StoreEventResponse? { CollectSnoc(BusItems, s.bus, Dispatch(m.item)); }
  }

  lemma StreamBus(s: State)
    requires Enabled(s, BusHandles)
    ensures Stream(BusHandled(s)) == Stream(s)
  {}

  lemma StreamFanout(s: State)
    requires Enabled(s, FanoutEnds)
    ensures Stream(FanoutEnded(s)) == Stream(s)
  {
    assert s.current == [s.current[0]] + s.current[1..];
  }

  lemma StreamSaved(s: State, k: nat, fault: Fault)
    requires Enabled(s, StoreHandles(k, fault)) && s.stores[k].box[0].Save?
    ensures Stream(EventStored(s, k, fault)) ==
            if OutcomeOf(s, k, fault).Stored? then Stream(s) + [Item(s.stores[k].box[0].token, k, |s.stores[k].log| + 1)]
            else Stream(s)
  {
    hide OutcomeOf;
    if OutcomeOf(s, k, fault).Stored? {
      CollectSnoc(SeqItems, s.sequencer, StoreEventResponse(Item(s.stores[k].box[0].token, k, |s.stores[k].log| + 1)));
    }
  }

  lemma StreamOther(s: State, step: Step)
    requires Enabled(s, step)
    requires !step.SequencerHandles? && !step.StoreHandles? && !step.BusHandles? && !step.FanoutEnds?
    ensures Stream(Apply(s, step)) == Stream(s)
  {
    hide Collect;
    match step
    case Submit(_) => CollectSnoc(SeqItems, s.sequencer, SequenceEvent(|s.submitted|));
    case StartFlush => CollectSnoc(SeqItems, s.sequencer, FlushEventStores);
    case SendBarrier => CollectSnoc(SeqItems, s.sequencer, SequencerBarrier);
    case SendBusBarrier => CollectSnoc(BusItems, s.bus, EventBusBarrier);
    case _ =>
  }

  /** The stream of an aggregate grows with its log. */
  lemma MatchStored(s: State, t: State, k: nat, x: Item, j: nat)
    requires j < |s.stores| == |t.stores| && k < |s.stores| && StreamMatches(s, j) && Stream(t) == Stream(s) + [x]
    requires x == Item(x.token, k, |s.stores[k].log| + 1) && s.stores[k].running
    requires if j == k then t.stores[k].log == s.stores[k].log + [x.token] && t.stores[k].synced == |s.stores[k].log| + 1
                            && t.stores[k].base == s.stores[k].base
             else t.stores[j] == s.stores[j]
    ensures StreamMatches(t, j)
  {
    hide Stream, Only;
    OnlyConcat(Stream(s), [x], j);
    OnlyOne(x, j);
    if j == k {
      var was, now, b := Numbered(s.stores[k].log, k), Numbered(t.stores[k].log, k), s.stores[k].base;
      assert now == was + [x];
      assert now[b..|now|] == was[b..|was|] + [x];
    }
  }

  lemma MatchBroken(s: State, t: State, j: nat)
    requires j < |s.stores| == |t.stores| && StreamMatches(s, j) && Stream(t) == Stream(s)
    requires s.stores[j].log <= t.stores[j].log && t.stores[j].base == s.stores[j].base
    requires s.stores[j].synced <= t.stores[j].synced <= |t.stores[j].log|
    requires t.stores[j].running ==> s.stores[j].running && t.stores[j].log == s.stores[j].log
    ensures StreamMatches(t, j)
  {
    hide Stream, Only;
    var was, now, n, b := Numbered(s.stores[j].log, j), Numbered(t.stores[j].log, j), |Only(Stream(s), j)|, s.stores[j].base;
    assert now[b..b + n] == was[b..b + n];
  }

  lemma StreamedSaved(s: State, k: nat, fault: Fault)
    requires Streamed(s) && Enabled(s, StoreHandles(k, fault)) && s.stores[k].box[0].Save?
    ensures Streamed(EventStored(s, k, fault))
  {
    hide OutcomeOf, Stream, Only, Collect, Numbered;
    StreamSaved(s, k, fault);
    var t := EventStored(s, k, fault);
    forall j | 0 <= j < |t.stores| ensures StreamMatches(t, j) {
      assert StreamMatches(s, j);
      if OutcomeOf(s, k, fault).Stored? {
        MatchStored(s, t, k, Item(s.stores[k].box[0].token, k, |s.stores[k].log| + 1), j);
      } else {
        MatchBroken(s, t, j);
      }
    }
  }

  lemma OnlyOne(x: Item, k: nat)
    ensures Only([x], k) == if x.aggregate == k then [x] else []
  {}

  /** A step that keeps the stream and the logs keeps their match. */
  lemma StreamKept(s: State, t: State)
    requires Streamed(s) && Stream(t) == Stream(s) && |t.stores| == |s.stores|
    requires forall k :: 0 <= k < |s.stores| ==>
               && t.stores[k].log == s.stores[k].log && t.stores[k].base == s.stores[k].base
               && (t.stores[k].running ==> s.stores[k].running)
               && (t.stores[k].synced == s.stores[k].synced || t.stores[k].synced == |t.stores[k].log|)
    ensures Streamed(t)
  {
    hide Stream, Only;
    forall k | 0 <= k < |t.stores| ensures StreamMatches(t, k) { assert StreamMatches(s, k); }
  }

  lemma StreamedStep(s: State, step: Step)
    requires Streamed(s) && Enabled(s, step)
    ensures Streamed(Apply(s, step))
  {
    hide Stream, Only, EventStored;
    var t := Apply(s, step);
    assert forall k :: 0 <= k < |s.stores| ==> StreamMatches(s, k);
    match step
    case SequencerHandles => StreamSequencer(s); StreamKept(s, t);
    case BusHandles => StreamBus(s); StreamKept(s, t);
    case FanoutEnds => StreamFanout(s); StreamKept(s, t);
    case StoreHandles(k, fault) =>
      if s.stores[k].box[0].Save? {
        StreamedSaved(s, k, fault);
      } else {
        StreamFlushed(s, k, fault);
        StreamKept(s, t);
      }
    case _ => StreamOther(s, step); StreamKept(s, t);
  }

  lemma StreamFlushed(s: State, k: nat, fault: Fault)
    requires Enabled(s, StoreHandles(k, fault)) && s.stores[k].box[0].SaveFlush?
    ensures Stream(StoreFlushed(s, k, fault)) == Stream(s)
  {}
}
