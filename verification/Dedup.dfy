/** The event bus's bounded, exact deduplication. */
module Dedup {
  import opened Ordering

  ghost predicate NoRepeats<I(!new)>(xs: seq<I>) {
    forall i, j :: 0 <= i < j < |xs| ==> xs[i] != xs[j]
  }

  ghost function Elements<I(!new)>(xs: seq<I>): set<I> {
    set x | x in xs
  }

  lemma {:induction false} ElementCount<I(!new)>(xs: seq<I>)
    requires NoRepeats(xs)
    ensures |Elements(xs)| == |xs|
  {
    if xs != [] {
      var rest := xs[1..];
      ElementCount(rest);
      assert xs[0] !in rest;
      assert Elements(xs) == {xs[0]} + Elements(rest);
    } else {
      assert Elements(xs) == {};
    }
  }

  lemma PushElement<I(!new)>(xs: seq<I>, x: I)
    requires NoRepeats(xs)
    ensures x in Elements(xs) <==> x in xs
    ensures x !in xs ==> NoRepeats(xs + [x]) && Elements(xs + [x]) == Elements(xs) + {x}
  {}

  /** The last `c` of what was accepted. */
  function Recent<I>(accepted: seq<I>, c: nat): seq<I> {
    if |accepted| <= c then accepted else accepted[|accepted| - c..]
  }

  class ExactDedup<I(==,!new)> {
    const capacity: nat
    var ids: set<I>
    var insertionOrder: seq<I>

    /** The set and the queue hold the same distinct ids. */
    ghost predicate Valid()
      reads this
    {
      NoRepeats(insertionOrder) && ids == Elements(insertionOrder) && |insertionOrder| <= capacity
    }

    constructor (capacity: nat)
      ensures Valid() && insertionOrder == [] && this.capacity == capacity
    {
      this.capacity := capacity;
      ids := {};
      insertionOrder := [];
    }

    predicate Contains(id: I)
      reads this
      requires Valid()
      ensures Contains(id) <==> id in insertionOrder
    {
      id in ids
    }

    /** A new id is kept as the youngest; the oldest leaves a full window. */
    method Insert(id: I)
      requires Valid()
      modifies this
      ensures Valid()
      ensures insertionOrder == if capacity == 0 || id in old(insertionOrder) then old(insertionOrder)
                                else Recent(old(insertionOrder) + [id], capacity)
    {
      if capacity == 0 || id in ids { return; }
      hide NoRepeats, Elements;
      ElementCount(insertionOrder);
      if |ids| == capacity {
        var oldest := insertionOrder[0];
        var removed := oldest in ids;
        assert removed;
        ids := if removed then ids - {oldest} else {};
        insertionOrder := if removed then insertionOrder[1..] else [];
      }
      PushElement(insertionOrder, id);
      if id !in ids {
        ids := ids + {id};
        insertionOrder := insertionOrder + [id];
      }
    }
  }

  /** The part of the bus that decides which events are delivered. */
  class EventBus<I(==,!new)> {
    const deduplicate: bool
    const dedup: ExactDedup<I>
    ghost var accepted: seq<I>

    /** The window holds the ids that were accepted last. */
    ghost predicate Valid()
      reads this, dedup
    {
      dedup.Valid() && dedup.insertionOrder == if deduplicate then Recent(accepted, dedup.capacity) else []
    }

    constructor (deduplicate: bool, capacity: nat)
      ensures Valid() && accepted == [] && fresh(dedup)
      ensures this.deduplicate == deduplicate && dedup.capacity == capacity
    {
      this.deduplicate := deduplicate;
      dedup := new ExactDedup(capacity);
      accepted := [];
    }

    /** With deduplication an event is accepted exactly when its id is not among the last `capacity`
        accepted ones; without it every event is. */
    method PrepareFanout(id: I) returns (accepts: bool)
      requires Valid()
      modifies this, dedup
      ensures Valid()
      ensures accepts <==> !(deduplicate && id in Recent(old(accepted), dedup.capacity))
      ensures accepted == if accepts then old(accepted) + [id] else old(accepted)
    {
      if deduplicate && dedup.Contains(id) { return false; }
      if deduplicate { dedup.Insert(id); }
      accepted := accepted + [id];
      accepts := true;
    }
  }

  // ----- whole streams -----

  /** What the bus accepts of a stream of delivery ids. */
  function Accepted<I(==)>(stream: seq<I>, c: nat): seq<I> {
    if stream == [] then []
    else
      var before, id := Accepted(stream[..|stream| - 1], c), stream[|stream| - 1];
      if id in Recent(before, c) then before else before + [id]
  }

  /** Equal ids are more than `c` apart. */
  ghost predicate Apart<I(!new)>(xs: seq<I>, c: nat) {
    forall i, j :: 0 <= i < j < |xs| && xs[i] == xs[j] ==> j - i > c
  }

  lemma ApartNext<I(!new)>(xs: seq<I>, id: I, c: nat)
    requires Apart(xs, c) && id !in Recent(xs, c)
    ensures Apart(xs + [id], c)
  {
    forall i | 0 <= i < |xs| && xs[i] == id ensures |xs| - i > c {
    }
  }

  /** No id is accepted again while it is among the last `c` accepted ones. */
  lemma {:induction false} AcceptedApart<I(!new)>(stream: seq<I>, c: nat)
    ensures Apart(Accepted(stream, c), c)
  {
    hide Recent, Apart;
    if stream == [] {
      NothingApart<I>(c);
    } else {
      var before, id := Accepted(stream[..|stream| - 1], c), stream[|stream| - 1];
      AcceptedApart(stream[..|stream| - 1], c);
      if id !in Recent(before, c) { ApartNext(before, id, c); }
    }
  }

  lemma NothingApart<I(!new)>(c: nat)
    ensures Apart<I>([], c)
  {}

  /** Nothing is invented, and no id of the stream is dropped altogether. */
  lemma {:induction false} AcceptedSame<I>(stream: seq<I>, c: nat, id: I)
    ensures id in Accepted(stream, c) <==> id in stream
  {
    if stream != [] {
      var init, last := stream[..|stream| - 1], stream[|stream| - 1];
      AcceptedSame(init, c, id);
      assert stream == init + [last];
      assert forall x :: x in Recent(Accepted(init, c), c) ==> x in Accepted(init, c);
    }
  }

  /** A window at least as large as the number of different ids delivers each of them exactly once. */
  lemma LargeWindowIsExact<I(!new)>(stream: seq<I>, c: nat)
    requires |Elements(stream)| <= c
    ensures NoRepeats(Accepted(stream, c)) && Elements(Accepted(stream, c)) == Elements(stream)
  {
    var accepted := Accepted(stream, c);
    forall id ensures id in accepted <==> id in stream { AcceptedSame(stream, c, id); }
    assert Elements(accepted) == Elements(stream);
    AcceptedApart(stream, c);
    FewIdsDoNotRepeat(accepted, c, Elements(stream));
  }

  lemma {:induction false} FewIdsDoNotRepeat<I(!new)>(xs: seq<I>, c: nat, ids: set<I>)
    requires Apart(xs, c) && Elements(xs) <= ids && |ids| <= c
    ensures NoRepeats(xs)
  {
    if xs != [] {
      var init := xs[..|xs| - 1];
      assert xs == init + [xs[|xs| - 1]];
      FewIdsDoNotRepeat(init, c, ids);
      ElementCount(init);
      Subsets(Elements(init), ids);
    }
  }

  lemma AcceptedNext<I>(stream: seq<I>, c: nat, n: nat)
    requires n < |stream|
    ensures var before := Accepted(stream[..n], c);
            Accepted(stream[..n + 1], c) == if stream[n] in Recent(before, c) then before else before + [stream[n]]
  {
    assert stream[..n + 1][..n] == stream[..n];
  }

  lemma AcceptedEnds<I>(stream: seq<I>, c: nat)
    ensures Accepted(stream[..0], c) == [] && stream[..|stream|] == stream
  {}

  /** The bus takes the event exactly when it is not among the last accepted ones of the stream before it. */
  predicate TakenRightly<I(==)>(stream: seq<I>, c: nat, i: nat, accepts: bool)
    requires i < |stream|
  {
    accepts <==> stream[i] !in Recent(Accepted(stream[..i], c), c)
  }

  /** A bus that is fed a stream accepts what the stream's definition says. */
  method PrepareAll<I(==,!new)>(capacity: nat, stream: seq<I>) returns (bus: EventBus<I>, accepts: seq<bool>)
    ensures bus.accepted == Accepted(stream, capacity)
    ensures |accepts| == |stream| && forall i :: 0 <= i < |stream| ==> TakenRightly(stream, capacity, i, accepts[i])
  {
    bus := new EventBus(true, capacity);
    hide Accepted, Recent, TakenRightly;
    accepts := [];
    AcceptedEnds(stream, capacity);
    for n := 0 to |stream|
      invariant fresh(bus) && fresh(bus.dedup) && bus.Valid() && bus.deduplicate && bus.dedup.capacity == capacity
      invariant bus.accepted == Accepted(stream[..n], capacity)
      invariant |accepts| == n && forall i :: 0 <= i < n ==> TakenRightly(stream, capacity, i, accepts[i])
    {
      var accepted := FeedOne(bus, stream, n);
      accepts := accepts + [accepted];
    }
  }

  method FeedOne<I(==,!new)>(bus: EventBus<I>, stream: seq<I>, n: nat) returns (accepts: bool)
    requires n < |stream| && bus.Valid() && bus.deduplicate && bus.accepted == Accepted(stream[..n], bus.dedup.capacity)
    modifies bus, bus.dedup
    ensures bus.Valid() && bus.accepted == Accepted(stream[..n + 1], bus.dedup.capacity)
    ensures TakenRightly(stream, bus.dedup.capacity, n, accepts)
  {
    AcceptedNext(stream, bus.dedup.capacity, n);
    accepts := bus.PrepareFanout(stream[n]);
  }
}
