/** The hybrid logical clock. */
module Hlc {
  import opened Wrappers
  import opened HlcTimestamp

  const DEFAULT_MAX_DRIFT: U64 := 5 * 60 * 1_000_000

  /** A clock's time and counter as one number. */
  function Position(ts: U64, counter: U32): (p: nat)
    ensures p < TWO_96
  {
    ts * TWO_32 + counter
  }

  /** The start of a microsecond. */
  function StartOf(now: nat): nat {
    now * TWO_32
  }

  function Max(a: nat, b: nat): nat {
    if a < b then b else a
  }

  function SaturatingAdd(a: U64, b: U64): U64 {
    if a + b < TWO_64 then a + b else TWO_64 - 1
  }

  /** Where a tick at a wall time moves a clock to. */
  function TickTo(p: nat, now: U64): nat {
    Max(p + 1, StartOf(now))
  }

  /** Where receiving a timestamp moves a clock to. */
  function ReceiveTo(p: nat, remote: nat, now: U64): nat {
    Max(Max(p + 1, remote + 1), StartOf(now))
  }

  class Hlc {
    const node: U32
    const maxDrift: U64
    var ts: U64
    var counter: U32

    function At(): nat
      reads this
    {
      Position(ts, counter)
    }

    constructor (ts: U64, counter: U32, node: U32, maxDrift: U64)
      ensures this.ts == ts && this.counter == counter && this.node == node && this.maxDrift == maxDrift
    {
      this.ts, this.counter, this.node, this.maxDrift := ts, counter, node, maxDrift;
    }

    /** A clock with the default allowance of five minutes. */
    constructor WithState(ts: U64, counter: U32, node: U32)
      ensures this.ts == ts && this.counter == counter && this.node == node && maxDrift == 300_000_000
    {
      this.ts, this.counter, this.node, this.maxDrift := ts, counter, node, DEFAULT_MAX_DRIFT;
    }

    function Get(): Timestamp
      reads this
    {
      Timestamp(ts, counter, node)
    }

    /** Raises the clock to the greatest timestamp in durable history; the node is not adopted. */
    method SeedFromHistory(persisted: Timestamp)
      modifies this
      ensures At() == Max(old(At()), Position(persisted.ts, persisted.counter))
      ensures if Less(old(Get()), persisted.(node := node)) then Get() == persisted.(node := node) else unchanged(this)
    {
      if persisted.ts > ts || (persisted.ts == ts && persisted.counter > counter) {
        ts := persisted.ts;
        counter := persisted.counter;
      }
    }

    /** Moves past the current position and up to wall time: to the first timestamp of the node that is
        later than the clock and not before the wall time. Fails without wall time, and when no later
        position exists. */
    method Tick(now: Option<U64>) returns (r: Result<Timestamp, HlcError>)
      modifies this
      ensures r.Ok? <==> now.Some? && TickTo(old(At()), now.value) < TWO_96
      ensures r.Ok? ==> At() == TickTo(old(At()), now.value) && r.value == Timestamp(ts, counter, node)
      ensures r.Ok? <==> now.Some? && !(old(ts) == TWO_64 - 1 && old(counter) == TWO_32 - 1)
      ensures r.Ok? ==> Less(old(Get()), r.value) && now.value <= r.value.ts
      ensures r.Ok? ==> forall t: Timestamp :: t.node == node && Less(old(Get()), t) && now.value <= t.ts ==> !Less(t, r.value)
      ensures r.Err? ==> unchanged(this) && r.error == if now.None? then ClockError else CounterOverflow
    {
      if now.None? { return Err(ClockError); }
      if now.value > ts {
        ts := now.value;
        counter := 0;
      } else if counter + 1 < TWO_32 {
        counter := counter + 1;
      } else {
        if ts + 1 == TWO_64 { return Err(CounterOverflow); }
        ts := ts + 1;
        counter := 0;
      }
      r := Ok(Timestamp(ts, counter, node));
    }

    /** The latest timestamp that the clock accepts at a wall time. */
    method LatestAdmissible(now: Option<U64>) returns (r: Result<Timestamp, HlcError>)
      ensures r.Ok? <==> now.Some?
      ensures r.Ok? ==> forall remote: Timestamp ::
                remote.ts <= now.value + maxDrift <==> remote == r.value || Less(remote, r.value)
    {
      if now.None? { return Err(ClockError); }
      r := Ok(Timestamp(SaturatingAdd(now.value, maxDrift), TWO_32 - 1, TWO_32 - 1));
    }

    /** Moves past the current position and the remote one, and up to wall time: to the first timestamp
        of the node that is later than both and not before the wall time. */
    method Receive(remote: Timestamp, now: Option<U64>) returns (r: Result<Timestamp, HlcError>)
      modifies this
      ensures r.Ok? <==> now.Some? && Admissible(remote, now.value, maxDrift)
                         && ReceiveTo(old(At()), Position(remote.ts, remote.counter), now.value) < TWO_96
      ensures r.Ok? ==> At() == ReceiveTo(old(At()), Position(remote.ts, remote.counter), now.value)
                        && r.value == Timestamp(ts, counter, node)
      ensures r.Err? ==> unchanged(this)
      ensures r.Err? ==> r.error == if now.None? then ClockError
                                    else if remote.ts > now.value + maxDrift then DriftExceeded else CounterOverflow
      ensures r.Ok? <==> && now.Some? && remote.ts <= now.value + maxDrift
                         && !(old(ts) == TWO_64 - 1 && old(counter) == TWO_32 - 1)
                         && !(remote.ts == TWO_64 - 1 && remote.counter == TWO_32 - 1)
      ensures r.Ok? ==> Less(old(Get()), r.value) && Less(remote.(node := node), r.value) && now.value <= r.value.ts
      ensures r.Ok? ==> forall t: Timestamp :: t.node == node && Less(old(Get()), t) && Less(remote.(node := node), t) && now.value <= t.ts ==>
                !Less(t, r.value)
    {
      if now.None? { return Err(ClockError); }
      if remote.ts > SaturatingAdd(now.value, maxDrift) { return Err(DriftExceeded); }
      var maxTs: U64 := Max(Max(ts, remote.ts), now.value);
      if maxTs == now.value && maxTs != ts && maxTs != remote.ts {
        ts := now.value;
        counter := 0;
        return Ok(Timestamp(ts, counter, node));
      }
      var newCounter: U32 :=
        if maxTs == ts && maxTs == remote.ts then Max(counter, remote.counter)
        else if maxTs == ts then counter
        else remote.counter;
      if newCounter + 1 < TWO_32 {
        counter := newCounter + 1;
        ts := maxTs;
      } else {
        if maxTs + 1 == TWO_64 { return Err(CounterOverflow); }
        ts := maxTs + 1;
        counter := 0;
      }
      r := Ok(Timestamp(ts, counter, node));
    }
  }

  /** Within the drift allowance of the wall time. */
  predicate Admissible(remote: Timestamp, now: U64, maxDrift: U64) {
    remote.ts <= SaturatingAdd(now, maxDrift)
  }

  /** A clock that was seeded from history ticks past it, even when wall time went back. */
  method TickAfterRestart(node: U32, persisted: Timestamp, now: U64) returns (r: Result<Timestamp, HlcError>)
    ensures r.Ok? ==> ToU128(r.value) > ToU128(persisted)
    ensures r.Err? ==> persisted.ts == TWO_64 - 1 && persisted.counter == TWO_32 - 1
  {
    var clock := new Hlc.WithState(0, 0, node);
    clock.SeedFromHistory(persisted);
    r := clock.Tick(Some(now));
    if r.Ok? {
      OrdersAgree(persisted, r.value);
    }
  }
}
