/** Runs of one clock, and of many clocks that exchange timestamps, store them and restart. */
module HlcRuns {
  import opened Wrappers
  import opened HlcTimestamp
  import opened Hlc

  // ----- how far a clock runs ahead of wall time -----

  /** An operation on a clock: its wall time and, for a receive, the remote timestamp. */
  datatype Op = Tick(now: U64) | Receive(now: U64, remote: Timestamp)

  /** The position after an operation; a failed one changes nothing. */
  function After(p: nat, op: Op, maxDrift: U64): nat {
    match op
    case Tick(now) => if TickTo(p, now) < TWO_96 then TickTo(p, now) else p
    case Receive(now, remote) =>
      var q := ReceiveTo(p, Position(remote.ts, remote.counter), now);
      if Admissible(remote, now, maxDrift) && q < TWO_96 then q else p
  }

  function AfterAll(p: nat, ops: seq<Op>, maxDrift: U64): nat {
    if ops == [] then p else After(AfterAll(p, ops[..|ops| - 1], maxDrift), ops[|ops| - 1], maxDrift)
  }

  /** A fresh clock that is given the operations ends at that position. */
  method RunClock(ops: seq<Op>, node: U32, maxDrift: U64) returns (clock: Hlc)
    ensures fresh(clock) && clock.node == node && clock.maxDrift == maxDrift
    ensures clock.At() == AfterAll(0, ops, maxDrift)
  {
    hide TickTo, ReceiveTo, Position;
    clock := new Hlc(0, 0, node, maxDrift);
    ZeroPosition();
    for i := 0 to |ops|
      invariant fresh(clock) && clock.node == node && clock.maxDrift == maxDrift
      invariant clock.At() == AfterAll(0, ops[..i], maxDrift)
    {
      assert ops[..i + 1][..i] == ops[..i];
      match ops[i]
      case Tick(now) => var _ := clock.Tick(Some(now));
      case Receive(now, remote) => var _ := clock.Receive(remote, Some(now));
    }
    assert ops[..|ops|] == ops;
  }

  lemma ZeroPosition()
    ensures Position(0, 0) == 0
  {}

  lemma {:induction false} PositionBound(ops: seq<Op>, maxDrift: U64, latest: nat)
    requires forall i :: 0 <= i < |ops| ==> ops[i].now <= latest
    ensures AfterAll(0, ops, maxDrift) < (latest + maxDrift + 1) * TWO_32 + |ops|
  {
    if ops != [] {
      var init, op := ops[..|ops| - 1], ops[|ops| - 1];
      PositionBound(init, maxDrift, latest);
    }
  }

  /** The time that a position stands for. */
  function TimeOf(p: nat): nat {
    p / TWO_32
  }

  /** A fresh clock stays within the drift allowance of the latest wall time that it saw, plus one
      microsecond for every 2^32 operations or part of them. */
  lemma ClockStaysNearWallTime(ops: seq<Op>, maxDrift: U64, latest: nat)
    requires forall i :: 0 <= i < |ops| ==> ops[i].now <= latest
    ensures TimeOf(AfterAll(0, ops, maxDrift)) <= latest + maxDrift + (|ops| + TWO_32 - 1) / TWO_32
  {
    PositionBound(ops, maxDrift, latest);
  }

  // ----- many clocks -----

  /** A generated timestamp: its node and that node's boot, its position, the received timestamp that
      caused it, whether its node stored it, and whether its node restarted without having stored it.
      A timestamp may be sent and received whether or not it was stored. */
  datatype Stamp = Stamp(node: nat, boot: nat, position: nat, cause: Option<nat>, stored: bool, lost: bool)

  /** Every node's clock and boot, what it stored and the greatest position among that, and the
      timestamps in order of creation. */
  datatype State = State(clocks: seq<nat>, boots: seq<nat>, held: seq<set<nat>>, floors: seq<nat>, stamps: seq<Stamp>)

  datatype Step =
    | TickAt(node: nat, now: U64)
    | ReceiveAt(node: nat, now: U64, stamp: nat)
    | StoreAt(node: nat, stamp: nat)
    | Restart(node: nat)

  function Init(n: nat): State {
    State(seq(n, _ => 0), seq(n, _ => 0), seq(n, _ => {}), seq(n, _ => 0), [])
  }

  predicate Enabled(s: State, step: Step) {
    && step.node < |s.clocks| == |s.floors| == |s.held| == |s.boots|
    && (step.ReceiveAt? || step.StoreAt? ==> step.stamp < |s.stamps|)
  }

  predicate WithinDrift(p: nat, now: U64, maxDrift: U64) {
    TimeOf(p) <= SaturatingAdd(now, maxDrift)
  }

  /** The position that a step moves its clock to, unless it fails or is no clock operation. */
  function Target(s: State, step: Step, maxDrift: U64): Option<nat>
    requires Enabled(s, step)
  {
    match step
    case TickAt(i, now) =>
      var p := TickTo(s.clocks[i], now);
      if p < TWO_96 then Some(p) else None
    case ReceiveAt(i, now, k) =>
      var p := ReceiveTo(s.clocks[i], s.stamps[k].position, now);
      if WithinDrift(s.stamps[k].position, now, maxDrift) && p < TWO_96 then Some(p) else None
    case _ => None
  }

  /** A clock moves and its new position is a new timestamp. */
  function Stamped(s: State, i: nat, p: nat, cause: Option<nat>): State
    requires i < |s.clocks| == |s.boots|
  {
    s.(clocks := s.clocks[i := p], stamps := s.stamps + [Stamp(i, s.boots[i], p, cause, false, false)])
  }

  function Apply(s: State, step: Step, maxDrift: U64): State
    requires Enabled(s, step)
  {
    var target := Target(s, step, maxDrift);
    match step
    case TickAt(i, _) => if target.Some? then Stamped(s, i, target.value, None) else s
    case ReceiveAt(i, _, k) => if target.Some? then Stamped(s, i, target.value, Some(k)) else s
    case StoreAt(i, k) =>
      s.(held := s.held[i := s.held[i] + {k}],
         floors := s.floors[i := Max(s.floors[i], s.stamps[k].position)],
         stamps := s.stamps[k := s.stamps[k].(stored := s.stamps[k].stored || s.stamps[k].node == i)])
    case Restart(i) =>
      s.(clocks := s.clocks[i := s.floors[i]],
         boots := s.boots[i := s.boots[i] + 1],
         stamps := seq(|s.stamps|, k requires 0 <= k < |s.stamps| => Survivor(s.stamps[k], i)))
  }

  function Survivor(stamp: Stamp, i: nat): Stamp {
    if stamp.node == i && !stamp.stored then stamp.(lost := true) else stamp
  }

  ghost predicate Runs(s: State, steps: seq<Step>, maxDrift: U64, t: State)
    decreases |steps|
  {
    if steps == [] then s == t
    else Enabled(s, steps[0]) && Runs(Apply(s, steps[0], maxDrift), steps[1..], maxDrift, t)
  }

  ghost predicate Reachable(n: nat, maxDrift: U64, s: State) {
    exists steps :: Runs(Init(n), steps, maxDrift, s)
  }

  // ----- the invariant -----

  /** A node's clock is at or past every timestamp that it did not lose; a lost one is of an earlier
      boot, and one of an earlier boot that is not lost is stored. */
  predicate Placed(s: State, k: nat) {
    && k < |s.stamps| && s.stamps[k].node < |s.clocks| == |s.boots| == |s.held| == |s.floors|
    && s.stamps[k].position < TWO_96 && s.stamps[k].boot <= s.boots[s.stamps[k].node]
    && (if s.stamps[k].lost then s.stamps[k].boot < s.boots[s.stamps[k].node]
        else s.stamps[k].position <= s.clocks[s.stamps[k].node] && (s.stamps[k].stored ==> k in s.held[s.stamps[k].node]))
  }

  /** What a node stored is at or below its floor. */
  predicate Below(s: State, i: nat, k: nat) {
    k < |s.stamps| && i < |s.floors| && s.stamps[k].position <= s.floors[i]
  }

  ghost predicate AllPlaced(s: State) {
    && |s.clocks| == |s.floors| == |s.held| == |s.boots|
    && (forall k :: 0 <= k < |s.stamps| ==> Placed(s, k))
    && (forall i: nat, k: nat :: i < |s.held| && k in s.held[i] ==> Below(s, i, k))
  }

  /** One timestamp precedes another in a boot of its node, or across restarts that did not lose it,
      or was received to make it. A timestamp that was sent and then lost still precedes what its
      receivers made of it. */
  predicate Direct(s: State, a: nat, b: nat) {
    && a < b < |s.stamps|
    && ((s.stamps[a].node == s.stamps[b].node && (s.stamps[a].boot == s.stamps[b].boot || !s.stamps[a].lost))
        || s.stamps[b].cause == Some(a))
  }

  ghost predicate CausesSmaller(s: State) {
    forall a: nat, b: nat :: Direct(s, a, b) ==> s.stamps[a].position < s.stamps[b].position
  }

  ghost predicate Inv(s: State) {
    AllPlaced(s) && CausesSmaller(s)
  }

  lemma InvStamped(s: State, i: nat, p: nat, cause: Option<nat>)
    requires Inv(s) && i < |s.clocks| && s.clocks[i] < p < TWO_96
    requires cause.Some? ==> cause.value < |s.stamps| && s.stamps[cause.value].position < p
    ensures Inv(Stamped(s, i, p, cause))
  {
    var t := Stamped(s, i, p, cause);
    forall k | 0 <= k < |t.stamps| ensures Placed(t, k) {
      assert k < |s.stamps| ==> Placed(s, k) && t.stamps[k] == s.stamps[k];
    }
    forall j: nat, k: nat | j < |t.held| && k in t.held[j] ensures Below(t, j, k) { assert Below(s, j, k); }
    forall a: nat, b: nat | Direct(t, a, b) ensures t.stamps[a].position < t.stamps[b].position {
      assert Placed(s, a);
      assert b < |s.stamps| ==> Direct(s, a, b);
    }
  }

  lemma InvStore(s: State, i: nat, k: nat, maxDrift: U64)
    requires Inv(s) && Enabled(s, StoreAt(i, k))
    ensures Inv(Apply(s, StoreAt(i, k), maxDrift))
  {
    var t := Apply(s, StoreAt(i, k), maxDrift);
    forall j: nat, x: nat | j < |t.held| && x in t.held[j] ensures Below(t, j, x) {
      assert x in s.held[j] ==> Below(s, j, x);
    }
    forall j | 0 <= j < |t.stamps| ensures Placed(t, j) { assert Placed(s, j); }
    forall a: nat, b: nat | Direct(t, a, b) ensures t.stamps[a].position < t.stamps[b].position { assert Direct(s, a, b); }
  }

  lemma InvRestart(s: State, i: nat, maxDrift: U64)
    requires Inv(s) && Enabled(s, Restart(i))
    ensures Inv(Apply(s, Restart(i), maxDrift))
  {
    var t := Apply(s, Restart(i), maxDrift);
    forall j: nat, x: nat | j < |t.held| && x in t.held[j] ensures Below(t, j, x) { assert Below(s, j, x); }
    forall j | 0 <= j < |t.stamps| ensures Placed(t, j) {
      assert Placed(s, j);
      assert !t.stamps[j].lost && s.stamps[j].node == i ==> Below(s, i, j);
    }
    forall a: nat, b: nat | Direct(t, a, b) ensures t.stamps[a].position < t.stamps[b].position { assert Direct(s, a, b); }
  }

  lemma InvStep(s: State, step: Step, maxDrift: U64)
    requires Inv(s) && Enabled(s, step)
    ensures Inv(Apply(s, step, maxDrift))
  {
    hide AllPlaced, CausesSmaller, Stamped;
    match step
    case TickAt(i, now) =>
      var p := TickTo(s.clocks[i], now);
      if p < TWO_96 { InvStamped(s, i, p, None); }
    case ReceiveAt(i, now, k) =>
      var p := ReceiveTo(s.clocks[i], s.stamps[k].position, now);
      if p < TWO_96 { InvStamped(s, i, p, Some(k)); }
    case StoreAt(i, k) => InvStore(s, i, k, maxDrift);
    case Restart(i) => InvRestart(s, i, maxDrift);
  }

  lemma {:induction false} InvRuns(s: State, steps: seq<Step>, maxDrift: U64, t: State)
    requires Inv(s) && Runs(s, steps, maxDrift, t)
    ensures Inv(t)
    decreases |steps|
  {
    hide Inv, Apply, Enabled;
    if steps != [] {
      InvStep(s, steps[0], maxDrift);
      InvRuns(Apply(s, steps[0], maxDrift), steps[1..], maxDrift, t);
    }
  }

  lemma InvReachable(n: nat, maxDrift: U64, s: State)
    requires Reachable(n, maxDrift, s)
    ensures Inv(s)
  {
    var steps :| Runs(Init(n), steps, maxDrift, s);
    InvRuns(Init(n), steps, maxDrift, s);
  }

  // ----- what the clocks promise -----

  /** The timestamp of a stamp, under an assignment of node identifiers. */
  function TimestampOf(stamp: Stamp, ids: seq<U32>): Timestamp
    requires stamp.node < |ids| && stamp.position < TWO_96
  {
    Timestamp(stamp.position / TWO_32, stamp.position % TWO_32, ids[stamp.node])
  }

  /** A chain of timestamps, each of which directly precedes the next. */
  ghost predicate HappenedBefore(s: State, chain: seq<nat>) {
    |chain| >= 2 && forall i :: 0 <= i < |chain| - 1 ==> Direct(s, chain[i], chain[i + 1])
  }

  lemma {:induction false} ChainIncreases(s: State, chain: seq<nat>)
    requires CausesSmaller(s) && HappenedBefore(s, chain)
    ensures var a, b := chain[0], chain[|chain| - 1];
            a < |s.stamps| && b < |s.stamps| && s.stamps[a].position < s.stamps[b].position
    decreases |chain|
  {
    var last := |chain| - 1;
    assert Direct(s, chain[last - 1], chain[last]);
    if |chain| > 2 {
      var init := chain[..last];
      forall i | 0 <= i < |init| - 1 ensures Direct(s, init[i], init[i + 1]) { assert Direct(s, chain[i], chain[i + 1]); }
      ChainIncreases(s, init);
    }
  }

  ghost predicate DistinctIds(ids: seq<U32>) {
    forall i, j :: 0 <= i < j < |ids| ==> ids[i] != ids[j]
  }

  /** What happened before has the smaller 128-bit value, across nodes, messages and restarts, also
      through timestamps that were sent and then lost. */
  lemma CausalityIsOrder(n: nat, maxDrift: U64, s: State, ids: seq<U32>, chain: seq<nat>)
    requires Reachable(n, maxDrift, s) && |ids| == |s.clocks| && HappenedBefore(s, chain)
    ensures var a, b := chain[0], chain[|chain| - 1];
            && a < |s.stamps| && b < |s.stamps| && s.stamps[a].node < |ids| && s.stamps[b].node < |ids|
            && s.stamps[a].position < TWO_96 && s.stamps[b].position < TWO_96
            && ToU128(TimestampOf(s.stamps[a], ids)) < ToU128(TimestampOf(s.stamps[b], ids))
  {
    InvReachable(n, maxDrift, s);
    ChainIncreases(s, chain);
    hide ToU128;
    assert Placed(s, chain[0]) && Placed(s, chain[|chain| - 1]);
    var a, b := s.stamps[chain[0]], s.stamps[chain[|chain| - 1]];
    OrdersAgree(TimestampOf(a, ids), TimestampOf(b, ids));
  }

  /** With distinct node identifiers two timestamps are equal only when a node lost the first of them
      in a restart and made it again. */
  lemma TimestampsAreDistinct(n: nat, maxDrift: U64, s: State, ids: seq<U32>, a: nat, b: nat)
    requires Reachable(n, maxDrift, s) && |ids| == |s.clocks| && DistinctIds(ids) && a < b < |s.stamps|
    ensures && s.stamps[a].node < |ids| && s.stamps[b].node < |ids|
            && s.stamps[a].position < TWO_96 && s.stamps[b].position < TWO_96
            && (ToU128(TimestampOf(s.stamps[a], ids)) == ToU128(TimestampOf(s.stamps[b], ids)) ==>
                  s.stamps[a].node == s.stamps[b].node && s.stamps[a].lost && s.stamps[a].boot < s.stamps[b].boot)
  {
    InvReachable(n, maxDrift, s);
    hide ToU128;
    var x, y := s.stamps[a], s.stamps[b];
    assert Placed(s, a) && Placed(s, b);
    if x.node == y.node { BootsAscend(n, maxDrift, s, a, b); }
    if x.node == y.node && (x.boot == y.boot || !x.lost) { assert Direct(s, a, b); }
    OrdersAgree(TimestampOf(x, ids), TimestampOf(y, ids));
  }

  /** Later timestamps of a node are of the same or a later boot. */
  ghost predicate BootsInOrder(s: State) {
    && |s.clocks| == |s.boots|
    && (forall k :: 0 <= k < |s.stamps| ==> s.stamps[k].node < |s.boots| && s.stamps[k].boot <= s.boots[s.stamps[k].node])
    && (forall a, b :: 0 <= a < b < |s.stamps| && s.stamps[a].node == s.stamps[b].node ==> s.stamps[a].boot <= s.stamps[b].boot)
  }

  lemma {:induction false} BootsRun(s: State, steps: seq<Step>, maxDrift: U64, t: State)
    requires BootsInOrder(s) && Runs(s, steps, maxDrift, t)
    ensures BootsInOrder(t)
    decreases |steps|
  {
    if steps != [] {
      hide BootsInOrder, Apply, Enabled;
      BootsRun(Apply(s, steps[0], maxDrift), steps[1..], maxDrift, t);
    }
  }

  lemma BootsAscend(n: nat, maxDrift: U64, s: State, a: nat, b: nat)
    requires Reachable(n, maxDrift, s) && a < b < |s.stamps| && s.stamps[a].node == s.stamps[b].node
    ensures s.stamps[a].boot <= s.stamps[b].boot
  {
    var steps :| Runs(Init(n), steps, maxDrift, s);
    BootsRun(Init(n), steps, maxDrift, s);
  }

  /** A timestamp counts as stored when its own node stored it. */
  ghost predicate StoredIsHeld(s: State) {
    && |s.clocks| == |s.floors| == |s.held| == |s.boots|
    && (forall k :: 0 <= k < |s.stamps| ==> s.stamps[k].node < |s.held|)
    && (forall k :: 0 <= k < |s.stamps| ==> (s.stamps[k].stored <==> k in s.held[s.stamps[k].node]))
    && (forall i, k :: 0 <= i < |s.held| && k in s.held[i] ==> k < |s.stamps|)
  }

  lemma StoredStep(s: State, step: Step, maxDrift: U64)
    requires StoredIsHeld(s) && Enabled(s, step)
    ensures StoredIsHeld(Apply(s, step, maxDrift))
  {
    hide Target;
  }

  lemma {:induction false} StoredRun(s: State, steps: seq<Step>, maxDrift: U64, t: State)
    requires StoredIsHeld(s) && Runs(s, steps, maxDrift, t)
    ensures StoredIsHeld(t)
    decreases |steps|
  {
    hide StoredIsHeld, Apply, Enabled;
    if steps != [] {
      StoredStep(s, steps[0], maxDrift);
      StoredRun(Apply(s, steps[0], maxDrift), steps[1..], maxDrift, t);
    }
  }

  /** A restart loses exactly the node's own timestamps that it had not stored. */
  lemma RestartLosesUnstored(n: nat, maxDrift: U64, s: State, i: nat, k: nat)
    requires Reachable(n, maxDrift, s) && Enabled(s, Restart(i)) && k < |s.stamps|
    ensures var t := Apply(s, Restart(i), maxDrift);
            && |t.stamps| == |s.stamps|
            && (t.stamps[k].lost <==> s.stamps[k].lost || (s.stamps[k].node == i && k !in s.held[i]))
  {
    var steps :| Runs(Init(n), steps, maxDrift, s);
    StoredRun(Init(n), steps, maxDrift, s);
  }

  /** After a restart, the next tick exceeds everything that the node had stored, of its own and
      received, whatever the wall time. */
  lemma RestartExceedsStored(n: nat, maxDrift: U64, s: State, i: nat, now: U64, k: nat)
    requires Reachable(n, maxDrift, s) && Enabled(s, Restart(i)) && k in s.held[i]
    ensures var t := Apply(s, Restart(i), maxDrift);
            k < |t.stamps| && s.stamps[k].position == t.stamps[k].position < TickTo(t.clocks[i], now)
  {
    InvReachable(n, maxDrift, s);
    assert Below(s, i, k);
  }

  // ----- when a node never goes back, whatever it stored -----

  /** Every timestamp of a node, lost ones included, is below its later ones. */
  ghost predicate NodesAscend(s: State) {
    forall a, b :: 0 <= a < b < |s.stamps| && s.stamps[a].node == s.stamps[b].node ==>
      s.stamps[a].position < s.stamps[b].position
  }

  /** Everything that the node ever made is at or below its clock, or below the start of the wall
      time's microsecond, or at or below what it receives. After a restart its clock is at the stored
      floor. */
  predicate Passes(s: State, step: Step, k: nat)
    requires Enabled(s, step) && (step.TickAt? || step.ReceiveAt?) && k < |s.stamps|
  {
    || s.stamps[k].position <= s.clocks[step.node]
    || s.stamps[k].position < StartOf(step.now)
    || (step.ReceiveAt? && s.stamps[k].position <= s.stamps[step.stamp].position)
  }

  ghost predicate PassesAll(s: State, step: Step, maxDrift: U64)
    requires Enabled(s, step)
  {
    Target(s, step, maxDrift).Some? ==>
      forall k :: 0 <= k < |s.stamps| && s.stamps[k].node == step.node ==> Passes(s, step, k)
  }

  ghost predicate AlwaysPasses(s: State, steps: seq<Step>, maxDrift: U64)
    decreases |steps|
  {
    steps == [] || (Enabled(s, steps[0]) && PassesAll(s, steps[0], maxDrift)
                    && AlwaysPasses(Apply(s, steps[0], maxDrift), steps[1..], maxDrift))
  }

  /** A restarted node's next tick exceeds everything that it ever made, sent or not, if and only if
      each of those is within what it stored or before the wall time. */
  lemma RestartExceedsEverything(s: State, i: nat, now: U64, maxDrift: U64)
    requires Enabled(s, Restart(i))
    ensures var t := Apply(s, Restart(i), maxDrift);
            (forall k :: 0 <= k < |t.stamps| && t.stamps[k].node == i ==> t.stamps[k].position < TickTo(t.clocks[i], now))
            <==> forall k :: 0 <= k < |s.stamps| && s.stamps[k].node == i ==>
                   s.stamps[k].position <= s.floors[i] || s.stamps[k].position < StartOf(now)
  {
    var t := Apply(s, Restart(i), maxDrift);
    assert |t.stamps| == |s.stamps| && t.clocks[i] == s.floors[i];
    forall k | 0 <= k < |s.stamps|
      ensures t.stamps[k].node == s.stamps[k].node && t.stamps[k].position == s.stamps[k].position
    {}
  }

  lemma AscendStep(s: State, step: Step, maxDrift: U64)
    requires NodesAscend(s) && Enabled(s, step)
    ensures NodesAscend(Apply(s, step, maxDrift)) <==> PassesAll(s, step, maxDrift)
  {
    var t, target := Apply(s, step, maxDrift), Target(s, step, maxDrift);
    if target.Some? {
      var b := |s.stamps|;
      forall k | 0 <= k < |s.stamps|
        ensures t.stamps[k] == s.stamps[k] && (t.stamps[k].position < t.stamps[b].position <==> Passes(s, step, k))
      {
      }
    } else {
      forall k | 0 <= k < |s.stamps|
        ensures t.stamps[k].node == s.stamps[k].node && t.stamps[k].position == s.stamps[k].position
      {}
    }
  }

  /** Nodes and positions of timestamps never change. */
  lemma {:induction false} StampsStay(s: State, steps: seq<Step>, maxDrift: U64, t: State)
    requires Runs(s, steps, maxDrift, t)
    ensures |s.stamps| <= |t.stamps|
    ensures forall k :: 0 <= k < |s.stamps| ==> t.stamps[k].node == s.stamps[k].node && t.stamps[k].position == s.stamps[k].position
    decreases |steps|
  {
    hide Target;
    if steps != [] { StampsStay(Apply(s, steps[0], maxDrift), steps[1..], maxDrift, t); }
  }

  lemma {:induction false} AscendRuns(s: State, steps: seq<Step>, maxDrift: U64, t: State)
    requires NodesAscend(s) && Runs(s, steps, maxDrift, t)
    ensures NodesAscend(t) <==> AlwaysPasses(s, steps, maxDrift)
    decreases |steps|
  {
    hide Apply, Enabled, PassesAll;
    if steps != [] {
      var m := Apply(s, steps[0], maxDrift);
      AscendStep(s, steps[0], maxDrift);
      if PassesAll(s, steps[0], maxDrift) {
        AscendRuns(m, steps[1..], maxDrift, t);
      } else {
        StampsStay(m, steps[1..], maxDrift, t);
      }
    }
  }

  /** In a run every node's timestamps ascend, lost ones included, if and only if every clock operation
      passes what its node made before. */
  lemma NodesAscendIffPassed(n: nat, maxDrift: U64, steps: seq<Step>, t: State)
    requires Runs(Init(n), steps, maxDrift, t)
    ensures NodesAscend(t) <==> AlwaysPasses(Init(n), steps, maxDrift)
  {
    AscendRuns(Init(n), steps, maxDrift, t);
  }

  /** Node 0 ticks, node 1 receives that, and node 0 restarts without having stored it. */
  lemma SentAndLost(n: nat, maxDrift: U64, now: U64) returns (s: State)
    requires n >= 2 && 0 < now
    ensures Runs(Init(n), [TickAt(0, now), ReceiveAt(1, now, 0), Restart(0)], maxDrift, s)
    ensures |s.clocks| == |s.floors| == |s.held| == |s.boots| == n && s.clocks[0] == 0 && s.boots[0] == 1
    ensures s.stamps == [Stamp(0, 0, StartOf(now), None, false, true), Stamp(1, 0, StartOf(now) + 1, Some(0), false, false)]
  {
    var p := StartOf(now);
    var a, b, c := TickAt(0, now), ReceiveAt(1, now, 0), Restart(0);
    var s0 := Init(n);
    var s1 := Apply(s0, a, maxDrift);
    assert s1.stamps == [Stamp(0, 0, p, None, false, false)];
    var s2 := Apply(s1, b, maxDrift);
    assert s2.stamps == [Stamp(0, 0, p, None, false, false), Stamp(1, 0, p + 1, Some(0), false, false)];
    s := Apply(s2, c, maxDrift);
    hide Apply, Enabled;
    RunsSnoc(s0, [], maxDrift, s0, a);
    assert [] + [a] == [a] && [a] + [b] == [a, b];
    RunsSnoc(s0, [a], maxDrift, s1, b);
    RunsSnoc(s0, [a, b], maxDrift, s2, c);
    assert [a, b] + [c] == [a, b, c];
  }

  /** A timestamp that was sent and not stored is made again: its node restarts, and wall time did not
      move. Node 1 received the first of the two. */
  lemma SentTimestampRepeats(n: nat, maxDrift: U64, now: U64)
    requires n >= 2 && 0 < now
    ensures var steps := [TickAt(0, now), ReceiveAt(1, now, 0), Restart(0), TickAt(0, now)];
            var p := StartOf(now);
            exists t :: Runs(Init(n), steps, maxDrift, t) && |t.stamps| == 3
                        && t.stamps[0] == Stamp(0, 0, p, None, false, true)
                        && t.stamps[1] == Stamp(1, 0, p + 1, Some(0), false, false)
                        && t.stamps[2] == Stamp(0, 1, p, None, false, false)
  {
    var a, b, c, d := TickAt(0, now), ReceiveAt(1, now, 0), Restart(0), TickAt(0, now);
    var s := SentAndLost(n, maxDrift, now);
    var t := Apply(s, d, maxDrift);
    assert t.stamps == s.stamps + [Stamp(0, 1, StartOf(now), None, false, false)];
    hide Apply, Enabled;
    RunsSnoc(Init(n), [a, b, c], maxDrift, s, d);
    assert [a, b, c] + [d] == [a, b, c, d];
  }

  lemma {:induction false} RunsSnoc(s: State, steps: seq<Step>, maxDrift: U64, t: State, step: Step)
    requires Runs(s, steps, maxDrift, t) && Enabled(t, step)
    ensures Runs(s, steps + [step], maxDrift, Apply(t, step, maxDrift))
    decreases |steps|
  {
    hide Enabled, Apply;
    if steps == [] {
      assert steps + [step] == [step] && [step][1..] == [];
    } else {
      RunsSnoc(Apply(s, steps[0], maxDrift), steps[1..], maxDrift, t, step);
      assert (steps + [step])[0] == steps[0] && (steps + [step])[1..] == steps[1..] + [step];
    }
  }
}
