/** What holds in every reachable state of the event pipeline. */
module PipelineRuns {
  import opened Ordering
  import opened Pipeline
  import opened PipelineInvariant
  import opened PipelineOrder
  import opened PipelineDrain

  // ----- no timestamp twice in a log -----

  ghost predicate LogsDistinct(s: State) {
    && (forall k, i :: 0 <= k < |s.stores| && 0 <= i < |s.stores[k].log| ==> s.stores[k].log[i] < |s.submitted|)
    && forall k :: 0 <= k < |s.stores| ==> Distinct(s.submitted, s.stores[k].log)
  }

  lemma DistinctStore(s: State, k: nat, fault: Fault)
    requires LogsDistinct(s) && Enabled(s, StoreHandles(k, fault))
    ensures LogsDistinct(Apply(s, StoreHandles(k, fault)))
  {
    var t := Apply(s, StoreHandles(k, fault));
    assert Distinct(s.submitted, s.stores[k].log);
    assert Distinct(t.submitted, t.stores[k].log) by { hide Collect; }
    hide OutcomeOf, Collect, Distinct;
  }

  lemma DistinctStep(s: State, step: Step)
    requires LogsDistinct(s) && Enabled(s, step)
    ensures LogsDistinct(Apply(s, step))
  {
    hide EventStored, StoreFlushed;
    if step.StoreHandles? { DistinctStore(s, step.store, step.fault); }
  }

  // ----- a flush passes only stores that lost nothing -----

  /** An event from before the cut is not lost once the flush passed its store. */
  ghost predicate PassedKeep(s: State) {
    forall i :: 0 <= i < |s.lost| && s.lost[i] < s.cut && s.lost[i] < |s.submitted| ==>
      var k := s.submitted[s.lost[i]].aggregate; k < |s.stores| ==> StorePhase(s.flush, k) != After
  }

  /** A store that handles a message loses nothing that belongs to a store the flush passed. */
  lemma StoreDrops(s: State, k: nat, fault: Fault)
    requires Gated(s) && Homed(s) && Enabled(s, StoreHandles(k, fault))
    ensures var t := Apply(s, StoreHandles(k, fault));
            s.lost <= t.lost && forall i :: |s.lost| <= i < |t.lost| ==>
              IsHome(s, k, t.lost[i]) && (t.lost[i] < s.cut ==> StorePhase(s.flush, k) != After)
  {
    hide OutcomeOf, Collect, Gated, Homed;
    var t := Apply(s, StoreHandles(k, fault));
    forall i | |s.lost| <= i < |t.lost|
      ensures IsHome(s, k, t.lost[i]) && (t.lost[i] < s.cut ==> StorePhase(s.flush, k) != After)
    {
      assert t.lost[i] in Collect(StoreTokens, s.stores[k].box);
      BoxedIsNew(s, k, t.lost[i]);
    }
  }

  lemma StoreMoves(s: State, k: nat, fault: Fault, j: nat)
    requires Enabled(s, StoreHandles(k, fault))
    ensures var t := Apply(s, StoreHandles(k, fault));
            && t.cut == s.cut && t.submitted == s.submitted && |t.stores| == |s.stores| && s.stores[k].running
            && (j != k && StorePhase(t.flush, j) == After ==> StorePhase(s.flush, j) == After)
            && (StorePhase(t.flush, k) == After ==> StorePhase(s.flush, k) == After || t.lost == s.lost)
  {
    hide OutcomeOf, Collect;
  }

  lemma PassedStore(s: State, k: nat, fault: Fault)
    requires PassedKeep(s) && Gated(s) && Homed(s) && LossesExplained(s) && Enabled(s, StoreHandles(k, fault))
    ensures PassedKeep(Apply(s, StoreHandles(k, fault)))
  {
    var t := Apply(s, StoreHandles(k, fault));
    StoreDrops(s, k, fault);
    StoreMoves(s, k, fault, k);
    forall i | 0 <= i < |t.lost| && t.lost[i] < t.cut && t.lost[i] < |t.submitted|
      ensures var j := t.submitted[t.lost[i]].aggregate; j < |t.stores| ==> StorePhase(t.flush, j) != After
    {
      hide Apply, Enabled, Gated, Homed, StorePhase;
      StoreMoves(s, k, fault, t.submitted[t.lost[i]].aggregate);
      if i < |s.lost| { assert t.lost[i] == s.lost[i]; }
    }
  }

  /** What a store's mailbox holds belongs to it and, once the flush passed it, is not from before the cut. */
  lemma BoxedIsNew(s: State, k: nat, t: Token)
    requires Gated(s) && Homed(s) && k < |s.stores| && t in Collect(StoreTokens, s.stores[k].box)
    ensures IsHome(s, k, t) && (t < s.cut ==> StorePhase(s.flush, k) != After)
  {
    hide Collect;
    CollectedFrom(s.stores[k].box, t);
    var j :| 0 <= j < |s.stores[k].box| && s.stores[k].box[j] == Save(t);
    assert Gate(StoreMark, s.stores[k].box, s.cut, StorePhase(s.flush, k));
    assert StoreMark(s.stores[k].box[j]) == Carries(t);
  }

  lemma PassedStep(s: State, step: Step)
    requires PassedKeep(s) && Gated(s) && Homed(s) && LossesExplained(s) && Enabled(s, step)
    ensures PassedKeep(Apply(s, step))
  {
    hide EventStored, StoreFlushed, Gate, Homed, LossesExplained;
    if step.StoreHandles? {
      PassedStore(s, step.store, step.fault);
    } else if step.RouterHandles? {
      GatePop(RouterMark, s.router, s.cut, PhaseAt(s.flush, 3));
    } else {
      hide Gated;
    }
  }

  // ----- a flush syncs what was logged before it -----

  /** Where the flush passed, every record from before the cut is synced. */
  ghost predicate PassedSynced(s: State) {
    forall k, i :: 0 <= k < |s.stores| && StorePhase(s.flush, k) == After && 0 <= i < |s.stores[k].log| ==>
      s.stores[k].log[i] < s.cut ==> i < s.stores[k].synced
  }

  lemma SyncedStore(s: State, k: nat, fault: Fault)
    requires PassedSynced(s) && Gated(s) && Enabled(s, StoreHandles(k, fault)) && s.stores[k].synced <= |s.stores[k].log|
    ensures PassedSynced(Apply(s, StoreHandles(k, fault)))
  {
    var t := Apply(s, StoreHandles(k, fault));
    assert Gate(StoreMark, s.stores[k].box, s.cut, StorePhase(s.flush, k));
    GatePop(StoreMark, s.stores[k].box, s.cut, StorePhase(s.flush, k));
    hide OutcomeOf, Collect, Gate, Gated;
    forall j, i | 0 <= j < |t.stores| && 0 <= i < |t.stores[j].log| && StorePhase(t.flush, j) == After && t.stores[j].log[i] < t.cut
      ensures i < t.stores[j].synced
    {
      if j != k { assert t.stores[j] == s.stores[j] && StorePhase(s.flush, j) == After; }
    }
  }

  lemma SyncedStep(s: State, step: Step)
    requires PassedSynced(s) && Gated(s) && Streamed(s) && Enabled(s, step)
    ensures PassedSynced(Apply(s, step))
  {
    if step.StoreHandles? {
      assert StreamMatches(s, step.store);
      hide Apply, Streamed, StreamMatches;
      SyncedStore(s, step.store, step.fault);
    } else {
      hide EventStored, StoreFlushed, Gated, Streamed;
    }
  }

  // ----- what earlier boots left -----

  /** The events of earlier boots are settled, and what this boot logs is of this boot. */
  ghost predicate PastSettled(s: State) {
    && s.past <= |s.submitted| && (forall t: Token :: t < s.past ==> t in s.settled)
    && (forall k :: 0 <= k < |s.stores| ==> s.stores[k].base <= |s.stores[k].log|)
    && forall k, i :: 0 <= k < |s.stores| && s.stores[k].base <= i < |s.stores[k].log| ==> s.past <= s.stores[k].log[i]
  }

  lemma {:induction false} BoxCounted(stores: seq<Store>, k: nat, t: Token)
    requires k < |stores|
    ensures Queued(StoreTokens, stores[k].box, t) <= Boxed(stores, t)
  {
    hide Queued;
    if k > 0 { BoxCounted(stores[1..], k - 1, t); }
  }

  /** A store handles only events of this boot. */
  lemma HandlesOwnBoot(s: State, k: nat)
    requires Accounted(s) && PastSettled(s) && k < |s.stores| && s.stores[k].box != [] && s.stores[k].box[0].Save?
    ensures s.past <= s.stores[k].box[0].token
  {
    var t := s.stores[k].box[0].token;
    BoxCounted(s.stores, k, t);
    Popped(StoreTokens, s.stores[k].box, t);
    assert t in s.settled ==> Count(s.settled, t) > 0;
    assert Count([t], t) == 1;
    hide Boxed, Queued, Count;
    assert Total(s, t) <= 1;
  }

  lemma PastStep(s: State, step: Step)
    requires Accounted(s) && PastSettled(s) && Enabled(s, step)
    ensures PastSettled(Apply(s, step))
  {
    LogsGrow(s, step);
    hide Accounted, OutcomeOf, Collect;
    var t := Apply(s, step);
    forall u: Token | u < t.past ensures u in t.settled {}
    if step.StoreHandles? && s.stores[step.store].box[0].Save? { HandlesOwnBoot(s, step.store); }
  }

  // ----- every reachable state -----

  ghost predicate Inv(n: nat, s: State) {
    && |s.stores| == n
    && Accounted(s) && Streamed(s) && InOrder(s) && Homed(s) && LossesExplained(s) && SettlementsExplained(s)
    && Gated(s) && LogsDistinct(s) && PassedKeep(s) && PassedSynced(s) && PastSettled(s)
  }

  lemma {:induction false} NothingBoxed(stores: seq<Store>, t: Token)
    requires forall k :: 0 <= k < |stores| ==> stores[k].box == []
    ensures Boxed(stores, t) == 0
  {
    if stores != [] { NothingBoxed(stores[1..], t); }
  }

  lemma {:induction false} UpToCount(n: nat, t: Token)
    ensures Count(seq(n, i => i), t) == if t < n then 1 else 0
  {
    if n > 0 {
      UpToCount(n - 1, t);
      assert seq(n, i => i) == seq(n - 1, i => i) + [n - 1];
      CountConcat(seq(n - 1, i => i), [n - 1], t);
    }
  }

  lemma InvBoot(n: nat, s: State)
    requires Boots(n, s)
    ensures Inv(n, s)
  {
    forall t: Token ensures Total(s, t) == if t < |s.submitted| then 1 else 0 {
      NothingBoxed(s.stores, t);
      UpToCount(|s.submitted|, t);
    }
    assert Stream(s) == [];
    forall k | 0 <= k < n ensures StreamMatches(s, k) && Ascends(Chain(s, k) + [|s.submitted|]) {
      var st := s.stores[k];
      assert Opened(s.submitted, k, st);
      assert Only([], k) == [] && Numbered(st.log, k)[st.base..st.base] == [];
      assert Chain(s, k) == st.log;
    }
    assert forall k :: 0 <= k < n ==> Opened(s.submitted, k, s.stores[k]);
    forall t: Token | t < s.past ensures t in s.settled { assert s.settled[t] == t; }
  }

  lemma InvStep(n: nat, s: State, step: Step)
    requires Inv(n, s) && Enabled(s, step)
    ensures Inv(n, Apply(s, step))
  {
    AccountedStep(s, step);
    StreamedStep(s, step);
    OrderStep(s, step);
    HomedStep(s, step);
    LossesStep(s, step);
    SettlementsStep(s, step);
    GatedStep(s, step);
    PassedStep(s, step);
    SyncedStep(s, step);
    PastStep(s, step);
    DistinctStep(s, step);
    LogsGrow(s, step);
    hide Apply, Accounted, Streamed, InOrder, Homed, LossesExplained, SettlementsExplained, Gated, LogsDistinct,
      PassedKeep, PassedSynced, PastSettled;
  }

  lemma {:induction false} InvRuns(n: nat, s: State, steps: seq<Step>, t: State)
    requires Inv(n, s) && Runs(s, steps, t)
    ensures Inv(n, t)
    decreases |steps|
  {
    hide Inv, Apply, Enabled;
    if steps != [] {
      InvStep(n, s, steps[0]);
      InvRuns(n, Apply(s, steps[0]), steps[1..], t);
    }
  }

  lemma {:induction false} RunsSnoc(s: State, steps: seq<Step>, t: State, step: Step)
    requires Runs(s, steps, t) && Enabled(t, step)
    ensures Runs(s, steps + [step], Apply(t, step))
    decreases |steps|
  {
    hide Enabled, Apply;
    if steps == [] {
      assert steps + [step] == [step] && [step][1..] == [];
    } else {
      RunsSnoc(Apply(s, steps[0]), steps[1..], t, step);
      assert (steps + [step])[0] == steps[0] && (steps + [step])[1..] == steps[1..] + [step];
    }
  }

  lemma InvReachable(n: nat, s: State)
    requires Reachable(n, s)
    ensures Inv(n, s)
  {
    hide Inv;
    var boot, steps :| Boots(n, boot) && Runs(boot, steps, s);
    InvBoot(n, boot);
    InvRuns(n, boot, steps, s);
  }

  // ----- the bus sees each log in order, without a gap, after the sync -----

  /** The fanouts that began: those that ended and the one in progress. */
  function Begun(s: State): seq<Item> {
    s.fanned + s.current
  }

  lemma DispatchFollowsLog(n: nat, s: State, k: nat)
    requires Reachable(n, s) && k < n
    ensures |s.stores| == n
    ensures var st, d := s.stores[k], Only(Begun(s), k);
            && st.base + |d| <= |st.log| && (d != [] ==> st.base + |d| <= st.synced <= |st.log|)
            && (forall i :: 0 <= i < |d| ==> d[i] == Item(st.log[st.base + i], k, st.base + i + 1))
            && (forall i :: 0 <= i < |st.log| ==> IsHome(s, k, st.log[i]))
            && Ascends(st.log)
  {
    InvReachable(n, s);
    var st := s.stores[k];
    BegunMatches(s, k) by { assert StreamMatches(s, k); }
    hide Only, Collect, Ascends, BoxTokens, Upstream, Accounted, Streamed, LossesExplained, SettlementsExplained,
      Gated, LogsDistinct, PassedKeep, PassedSynced, PastSettled;
    assert Chain(s, k) + [|s.submitted|] == st.log + (BoxTokens(st.box) + Upstream(s) + [|s.submitted|]);
    AscendsHead(st.log, BoxTokens(st.box) + Upstream(s) + [|s.submitted|]);
  }

  lemma BegunMatches(s: State, k: nat)
    requires k < |s.stores| && StreamMatches(s, k)
    ensures var st, d := s.stores[k], Only(Begun(s), k);
            && st.base + |d| <= |st.log| && (d != [] ==> st.base + |d| <= st.synced <= |st.log|)
            && forall i :: 0 <= i < |d| ==> d[i] == Item(st.log[st.base + i], k, st.base + i + 1)
  {
    hide Only, Collect;
    var rest := Collect(BusItems, s.bus) + Collect(SeqItems, s.sequencer);
    assert Stream(s) == Begun(s) + rest;
    OnlyConcat(Begun(s), rest, k);
    var d, all := Only(Begun(s), k), Only(Stream(s), k);
    assert forall i :: 0 <= i < |d| ==> d[i] == all[i];
  }

  lemma AscendsHead(a: seq<Token>, b: seq<Token>)
    requires Ascends(a + b)
    ensures Ascends(a)
  {
    assert a + b + [] == a + b;
    forall i, j | 0 <= i < j < |a| ensures a[i] < a[j] { assert (a + b)[i] < (a + b)[j]; }
  }

  // ----- what a store answers -----

  /** No event in the log has the timestamp. */
  ghost predicate IsNew(s: State, log: seq<Token>, ts: nat) {
    forall i :: 0 <= i < |log| && log[i] < |s.submitted| ==> s.submitted[log[i]].ts != ts
  }

  /** A store settles exactly what repeats a logged event that it can read, stores exactly new
      timestamps that nothing fails on, and stops on everything else: a fault, or another event with
      the same timestamp. The log is not read for a new timestamp. A new event of a store that stopped is
      in the log if only the sync or the index failed, and synced if only the index failed. */
  lemma OutcomeIsExact(n: nat, s: State, k: nat, fault: Fault)
    requires Reachable(n, s) && Enabled(s, StoreHandles(k, fault)) && s.stores[k].box[0].Save?
    ensures var o, log, e := OutcomeOf(s, k, fault), s.stores[k].log, s.submitted[s.stores[k].box[0].token];
            && (o.Duplicate? <==> fault != IndexReadFails && fault != LogReadFails
                                  && exists i :: 0 <= i < |log| && log[i] < |s.submitted| && s.submitted[log[i]] == e)
            && (o.Stored? <==> (fault == Fine || fault == LogReadFails) && IsNew(s, log, e.ts))
    ensures var st, t := s.stores[k], Apply(s, StoreHandles(k, fault)).stores[k];
            var appends := fault != AppendFails && fault != IndexReadFails && IsNew(s, st.log, s.submitted[st.box[0].token].ts);
            && t.log == (if appends then st.log + [st.box[0].token] else st.log)
            && t.synced == (if appends && fault != SyncFails then |st.log| + 1 else st.synced)
            && (t.running <==> !OutcomeOf(s, k, fault).Broken?)
  {
    InvReachable(n, s);
    var log, e := s.stores[k].log, s.submitted[s.stores[k].box[0].token];
    assert Distinct(s.submitted, log);
    hide Inv, Accounted, Streamed, InOrder, Homed, LossesExplained, SettlementsExplained, Gated, LogsDistinct, PassedKeep, PassedSynced, PastSettled;
    var f := Find(s.submitted, log, e.ts);
    if f.Some? {
      assert s.submitted[log[f.value]].ts == e.ts;
      forall i | 0 <= i < |log| && log[i] < |s.submitted| && s.submitted[log[i]] == e ensures i == f.value {}
    }
  }

  /** A store meets the flush's marker exactly when the flush waits for it there. A sync that fails stops
      the store, loses what waits in its mailbox and fails the flush; any other syncs the whole log. */
  lemma FlushOutcomeIsExact(n: nat, s: State, k: nat, fault: Fault)
    requires Reachable(n, s) && Enabled(s, StoreHandles(k, fault)) && s.stores[k].box[0].SaveFlush?
    ensures s.flush == AtStore(k)
    ensures var t := Apply(s, StoreHandles(k, fault));
            if fault == SyncFails
            then t.flush == Failed && !t.stores[k].running && t.stores[k].synced == s.stores[k].synced
                 && t.lost == s.lost + Collect(StoreTokens, s.stores[k].box)
            else t.flush == Asking(k + 1) && t.stores[k].running && t.stores[k].synced == |s.stores[k].log| && t.lost == s.lost
  {
    InvReachable(n, s);
    assert Gate(StoreMark, s.stores[k].box, s.cut, StorePhase(s.flush, k));
    GatePop(StoreMark, s.stores[k].box, s.cut, StorePhase(s.flush, k));
    hide Inv, Gate, Collect;
  }

  // ----- exactly once -----

  lemma EveryEventInOnePlace(n: nat, s: State, t: Token)
    requires Reachable(n, s) && t < |s.submitted|
    ensures InFlight(s, t) + Count(s.settled, t) + Count(s.lost, t) == 1
  {
    InvReachable(n, s);
    assert Total(s, t) == 1;
  }

  lemma OnlyAt(items: seq<Item>, i: nat)
    requires i < |items|
    ensures var k := items[i].aggregate; var p := |Only(items[..i], k)|;
            p < |Only(items, k)| && Only(items, k)[p] == items[i]
  {
    var k := items[i].aggregate;
    assert items == items[..i] + items[i..];
    OnlyConcat(items[..i], items[i..], k);
    assert Only(items[i..], k)[0] == items[i];
  }

  lemma OnlyLater(items: seq<Item>, i: nat, j: nat, k: nat)
    requires i < j < |items| && items[i].aggregate == k
    ensures |Only(items[..i], k)| < |Only(items[..j], k)|
  {
    var mid := items[i..j];
    assert items[..j] == items[..i] + mid;
    OnlyConcat(items[..i], mid, k);
    assert Only(mid, k)[0] == items[i];
  }

  /** What a fanout delivers: the event of its item. */
  predicate Delivers(s: State, x: Item, e: Event) {
    x.token < |s.submitted| && s.submitted[x.token] == e
  }

  lemma FannedHome(n: nat, s: State, i: nat)
    requires Reachable(n, s) && i < |s.fanned|
    ensures var x := s.fanned[i];
            && x.aggregate < n == |s.stores| && IsHome(s, x.aggregate, x.token)
            && var p := s.stores[x.aggregate].base + |Only(s.fanned[..i], x.aggregate)|;
               p < |s.stores[x.aggregate].log| && s.stores[x.aggregate].log[p] == x.token
  {
    InvReachable(n, s);
    hide Only;
    var x := s.fanned[i];
    assert Stream(s)[i] == x;
    DispatchFollowsLog(n, s, x.aggregate);
    assert Begun(s)[..i] == s.fanned[..i];
    OnlyAt(Begun(s), i);
  }

  /** No event is delivered twice, however often it was submitted. */
  lemma DeliveredAtMostOnce(n: nat, s: State, i: nat, j: nat, e: Event)
    requires Reachable(n, s) && i < j < |s.fanned| && Delivers(s, s.fanned[i], e)
    ensures !Delivers(s, s.fanned[j], e)
  {
    FannedHome(n, s, i);
    FannedHome(n, s, j);
    var k := s.fanned[i].aggregate;
    if s.fanned[j].aggregate == k {
      OnlyLater(s.fanned, i, j, k);
      hide Only;
      InvReachable(n, s);
      assert Distinct(s.submitted, s.stores[k].log);
    }
  }

  // ----- a completed flush -----

  lemma {:induction false} ClearQueue<M>(f: M -> Mark, g: M -> seq<Token>, queue: seq<M>, cut: nat, t: Token)
    requires Gate(f, queue, cut, After) && t < cut
    requires forall m :: t in g(m) ==> f(m) == Carries(t)
    ensures Queued(g, queue, t) == 0
  {
    if queue != [] {
      GatePop(f, queue, cut, After);
      ClearQueue(f, g, queue[1..], cut, t);
      Popped(g, queue, t);
      assert !Old(f(queue[0]), cut);
    }
  }

  lemma {:induction false} ClearStores(stores: seq<Store>, cut: nat, t: Token)
    requires t < cut && forall k :: 0 <= k < |stores| ==> Gate(StoreMark, stores[k].box, cut, After)
    ensures Boxed(stores, t) == 0
  {
    hide Gate, Queued;
    if stores != [] {
      ClearQueue(StoreMark, StoreTokens, stores[0].box, cut, t);
      ClearStores(stores[1..], cut, t);
    }
  }

  /** The sequencer's mailbox is behind both of its gates. */
  lemma {:induction false} ClearSequencer(queue: seq<SeqMsg>, cut: nat, t: Token)
    requires Gate(NewMark, queue, cut, After) && Gate(ReplyMark, queue, cut, After) && t < cut
    ensures Queued(SeqTokens, queue, t) == 0
  {
    if queue != [] {
      GatePop(NewMark, queue, cut, After);
      GatePop(ReplyMark, queue, cut, After);
      ClearSequencer(queue[1..], cut, t);
      Popped(SeqTokens, queue, t);
    }
  }

  lemma NothingInFlight(s: State, t: Token)
    requires Gated(s) && |s.current| <= 1 && s.flush.Done? && t < s.cut
    ensures InFlight(s, t) == 0
  {
    hide Gate, Queued, Boxed;
    ClearSequencer(s.sequencer, s.cut, t);
    ClearQueue(RouterMark, RouterTokens, s.router, s.cut, t);
    ClearStores(s.stores, s.cut, t);
    ClearQueue(BusMark, BusTokens, s.bus, s.cut, t);
    CurrentClear(s.current, t);
  }

  lemma CurrentClear(current: seq<Item>, t: Token)
    requires |current| <= 1 && forall i :: 0 <= i < |current| ==> current[i].token != t
    ensures Queued(ItemTokens, current, t) == 0
  {
    if current != [] { assert current == [current[0]] && Collect(ItemTokens, current) == [current[0].token]; }
  }

  lemma CountIn(xs: seq<Token>, t: Token)
    ensures Count(xs, t) > 0 <==> exists i :: 0 <= i < |xs| && xs[i] == t
  {
    assert t in multiset(xs) <==> t in xs;
  }

  /** After a flush, everything that was enqueued before it is settled, or lost for want of a store.
      What an earlier boot enqueued counts as settled from the start. */
  lemma FlushSettles(n: nat, s: State, t: Token)
    requires Reachable(n, s) && s.flush.Done? && t < s.cut
    ensures t < |s.submitted| && InFlight(s, t) == 0
    ensures Count(s.settled, t) == (if t < s.past || s.submitted[t].aggregate < n then 1 else 0)
    ensures Count(s.lost, t) == (if t < s.past || s.submitted[t].aggregate < n then 0 else 1)
  {
    InvReachable(n, s);
    EveryEventInOnePlace(n, s, t);
    NothingInFlight(s, t);
    CountIn(s.lost, t);
    CountIn(s.settled, t);
    assert t < s.past ==> t in s.settled;
    hide Count, InFlight, Accounted, Streamed, InOrder, Homed, Gated, LogsDistinct, LossesExplained;
    if t >= s.past && s.submitted[t].aggregate >= n && Count(s.settled, t) > 0 {
      var i :| 0 <= i < |s.settled| && s.settled[i] == t;
      SettledIsHome(n, s, t);
    }
  }

  lemma SettledIsHome(n: nat, s: State, t: Token)
    requires Reachable(n, s) && t < |s.submitted| && (WasFanned(s, t) || HasEarlierCopy(s, t))
    ensures s.submitted[t].aggregate < n
  {
    InvReachable(n, s);
    if WasFanned(s, t) {
      var i :| 0 <= i < |s.fanned| && s.fanned[i].token == t;
      FannedHome(n, s, i);
    }
  }

  /** The event is among the first `bound` records of its aggregate's log. */
  ghost predicate Holds(s: State, e: Event, bound: nat) {
    && e.aggregate < |s.stores| && bound <= |s.stores[e.aggregate].log|
    && exists i :: 0 <= i < bound && s.stores[e.aggregate].log[i] < |s.submitted| && s.submitted[s.stores[e.aggregate].log[i]] == e
  }

  /** A record of an earlier boot equals the event. */
  ghost predicate LoggedBefore(s: State, e: Event) {
    e.aggregate < |s.stores| && Holds(s, e, s.stores[e.aggregate].base)
  }

  /** This boot delivers nothing that an earlier boot logged. */
  lemma NoRedelivery(n: nat, s: State, i: nat, e: Event)
    requires Reachable(n, s) && i < |s.fanned| && Delivers(s, s.fanned[i], e)
    ensures !LoggedBefore(s, e)
  {
    FannedHome(n, s, i);
    InvReachable(n, s);
    assert Distinct(s.submitted, s.stores[e.aggregate].log);
    hide Only, Accounted, Streamed, InOrder, Homed, Gated, LossesExplained, SettlementsExplained, PassedKeep;
  }

  /** After a flush, an event of a configured aggregate was delivered by this boot if and only if no
      earlier boot logged it. */
  lemma FlushDelivers(n: nat, s: State, t: Token)
    requires Reachable(n, s) && s.flush.Done? && s.past <= t < s.cut && t < |s.submitted| && s.submitted[t].aggregate < n
    ensures (exists i :: 0 <= i < |s.fanned| && Delivers(s, s.fanned[i], s.submitted[t])) <==> !LoggedBefore(s, s.submitted[t])
  {
    if i :| 0 <= i < |s.fanned| && Delivers(s, s.fanned[i], s.submitted[t]) { NoRedelivery(n, s, i, s.submitted[t]); }
    if !LoggedBefore(s, s.submitted[t]) { NewDelivered(n, s, t); }
  }

  lemma {:induction false} NewDelivered(n: nat, s: State, t: Token)
    requires Reachable(n, s) && s.flush.Done? && s.past <= t < s.cut && t < |s.submitted| && s.submitted[t].aggregate < n
    requires !LoggedBefore(s, s.submitted[t])
    ensures exists i :: 0 <= i < |s.fanned| && Delivers(s, s.fanned[i], s.submitted[t])
    decreases t
  {
    FlushSettles(n, s, t);
    CountIn(s.settled, t);
    InvReachable(n, s);
    hide Reachable, Inv, Accounted, Streamed, InOrder, Gated, LogsDistinct, LossesExplained, Count;
    var i :| 0 <= i < |s.settled| && s.settled[i] == t;
    if WasFanned(s, t) {
      var j :| 0 <= j < |s.fanned| && s.fanned[j].token == t;
      assert Delivers(s, s.fanned[j], s.submitted[t]);
    } else {
      var st := s.stores[s.submitted[t].aggregate];
      var j :| 0 <= j < |st.log| && st.log[j] < t && s.submitted[st.log[j]] == s.submitted[t];
      assert st.base <= j;
      NewDelivered(n, s, st.log[j]);
    }
  }
}
