/** Historical sync: replies built from storage pages, and a peer that asks until it is done. */
module NetworkSync {
  import opened Wrappers
  import opened EventLog
  import opened SequenceIndex
  import opened EventStore
  import opened EventStoreHistory

  const MAX_SYNC_BATCH_SIZE: nat := 100
  const SYNC_SCAN_MULTIPLIER: nat := 4

  function EffectiveLimit(requested: nat): nat {
    if requested < MAX_SYNC_BATCH_SIZE then requested else MAX_SYNC_BATCH_SIZE
  }

  /** How many records storage scans for a reply. */
  function ScanLimit(requested: nat): nat {
    EffectiveLimit(requested) * SYNC_SCAN_MULTIPLIER
  }

  datatype Cursor = Done | Next(ts: nat)

  datatype Reply = BadRequest | Failed | Batch(events: seq<Record>, next: Cursor)

  /** The records that may be forwarded. */
  function Forwarded(rs: seq<Record>, forwardable: Event -> bool): seq<Record> {
    if rs == [] then []
    else
      var last := rs[|rs| - 1];
      Forwarded(rs[..|rs| - 1], forwardable) + if forwardable(last.event) then [last] else []
  }

  /** How many records of a page a reply consumes: it stops at its limit, and before a record to be
      forwarded that exceeds its budget. */
  function Consumed(rs: seq<Record>, limit: nat, budget: nat, forwardable: Event -> bool): (n: nat)
    ensures n <= |rs|
  {
    if rs == [] then 0
    else
      var init, last := rs[..|rs| - 1], rs[|rs| - 1];
      var n := Consumed(init, limit, budget, forwardable);
      if n < |init| || Stops(init, last, limit, budget, forwardable) then n else |rs|
  }

  /** A reply that consumed these records does not consume the next one. */
  predicate Stops(rs: seq<Record>, next: Record, limit: nat, budget: nat, forwardable: Event -> bool) {
    var kept := Forwarded(rs, forwardable);
    |kept| >= limit || (forwardable(next.event) && Bytes(kept) + next.event.size > budget)
  }

  /** Past the last timestamp that was consumed, in 128 bits. */
  function After(last: Option<nat>, events: seq<Record>): Reply {
    if last.Some? && last.value + 1 < TIMESTAMPS then Batch(events, Next(last.value + 1)) else Failed
  }

  function Later(a: Option<nat>, b: Option<nat>): Option<nat> {
    if a.None? then b else if b.None? || b.value <= a.value then a else b
  }

  function ReplyTo(page: HistoryPage, requested: nat, budget: nat, forwardable: Event -> bool): Reply {
    if requested == 0 then BadRequest
    else
      var n := Consumed(page.events, EffectiveLimit(requested), budget, forwardable);
      var kept := Forwarded(page.events[..n], forwardable);
      var last := LastTimestamp(page.events[..n]);
      if n < |page.events| && kept == [] then Failed
      else if n < |page.events| then After(last, kept)
      else if page.exhausted then Batch(kept, Done)
      else After(Later(last, page.lastScanned), kept)
  }

  // ----- what a reply consumes -----

  lemma ForwardedNext(rs: seq<Record>, forwardable: Event -> bool, i: nat)
    requires i < |rs|
    ensures Forwarded(rs[..i + 1], forwardable) ==
            Forwarded(rs[..i], forwardable) + if forwardable(rs[i].event) then [rs[i]] else []
  {
    assert rs[..i + 1][..i] == rs[..i];
  }

  lemma {:induction false} ForwardedConcat(a: seq<Record>, b: seq<Record>, forwardable: Event -> bool)
    ensures Forwarded(a + b, forwardable) == Forwarded(a, forwardable) + Forwarded(b, forwardable)
  {
    if b == [] {
      assert a + b == a;
    } else {
      var init, last := b[..|b| - 1], b[|b| - 1];
      ForwardedConcat(a, init, forwardable);
      assert (a + b)[..|a + b| - 1] == a + init;
    }
  }

  lemma {:induction false} ForwardedFrom(rs: seq<Record>, forwardable: Event -> bool, r: Record)
    ensures r in Forwarded(rs, forwardable) <==> r in rs && forwardable(r.event)
  {
    if rs != [] {
      ForwardedFrom(rs[..|rs| - 1], forwardable, r);
      assert rs == rs[..|rs| - 1] + [rs[|rs| - 1]];
    }
  }

  /** Consuming continues to a record at which it stops. */
  lemma {:induction false} ConsumedStops(rs: seq<Record>, limit: nat, budget: nat, forwardable: Event -> bool, i: nat)
    requires i < |rs| && Consumed(rs[..i], limit, budget, forwardable) == i && Stops(rs[..i], rs[i], limit, budget, forwardable)
    ensures Consumed(rs, limit, budget, forwardable) == i
    decreases |rs|
  {
    var init := rs[..|rs| - 1];
    if i < |init| {
      assert init[..i] == rs[..i];
      ConsumedStops(init, limit, budget, forwardable, i);
    }
  }

  /** The records fit one reply. */
  predicate FitsReply(kept: seq<Record>, limit: nat, budget: nat) {
    |kept| <= limit && Bytes(kept) <= budget
  }

  lemma FitsNext(rs: seq<Record>, last: Record, limit: nat, budget: nat, forwardable: Event -> bool)
    requires FitsReply(Forwarded(rs, forwardable), limit, budget) && !Stops(rs, last, limit, budget, forwardable)
    ensures FitsReply(Forwarded(rs + [last], forwardable), limit, budget)
  {
    assert (rs + [last])[..|rs|] == rs;
    var kept := Forwarded(rs, forwardable);
    assert Forwarded(rs + [last], forwardable) == kept + if forwardable(last.event) then [last] else [];
    BytesSnoc(kept, last);
    assert kept + [] == kept;
  }

  /** What was consumed fits the reply, and the next record, if there is one, stops it. */
  lemma {:induction false} ConsumedFits(rs: seq<Record>, limit: nat, budget: nat, forwardable: Event -> bool)
    ensures var n := Consumed(rs, limit, budget, forwardable);
            && FitsReply(Forwarded(rs[..n], forwardable), limit, budget)
            && (n < |rs| ==> Stops(rs[..n], rs[n], limit, budget, forwardable))
  {
    hide Forwarded, FitsReply, Stops;
    if rs == [] {
      NothingFits(rs, limit, budget, forwardable);
    } else {
      var init, last := rs[..|rs| - 1], rs[|rs| - 1];
      ConsumedFits(init, limit, budget, forwardable);
      var n := Consumed(init, limit, budget, forwardable);
      assert init[..n] == rs[..n];
      if n == |init| {
        assert rs[..n] == init && rs[..|rs|] == rs == init + [last] && init[..n] == init;
        if !Stops(init, last, limit, budget, forwardable) { FitsNext(init, last, limit, budget, forwardable); }
      }
    }
  }

  lemma NothingFits(rs: seq<Record>, limit: nat, budget: nat, forwardable: Event -> bool)
    ensures FitsReply(Forwarded(rs[..0], forwardable), limit, budget)
  {}

  /** Where a reply stands after `i` records, while nothing stopped it. */
  ghost predicate Replying(rs: seq<Record>, limit: nat, budget: nat, forwardable: Event -> bool,
                           i: nat, events: seq<Record>, bytes: nat, last: Option<nat>)
  {
    && i <= |rs| && Consumed(rs[..i], limit, budget, forwardable) == i
    && events == Forwarded(rs[..i], forwardable) && |events| < limit
    && bytes == Bytes(events) && bytes <= budget && last == LastTimestamp(rs[..i])
  }

  lemma ReplyStarts(rs: seq<Record>, limit: nat, budget: nat, forwardable: Event -> bool)
    requires limit > 0
    ensures Replying(rs, limit, budget, forwardable, 0, [], 0, None)
  {
    assert rs[..0] == [];
  }

  lemma StopsIff(rs: seq<Record>, limit: nat, budget: nat, forwardable: Event -> bool,
                 i: nat, events: seq<Record>, bytes: nat, last: Option<nat>)
    requires Replying(rs, limit, budget, forwardable, i, events, bytes, last) && i < |rs| && budget < USIZE_MAX
    ensures Stops(rs[..i], rs[i], limit, budget, forwardable)
            <==> forwardable(rs[i].event) && SaturatingAdd(bytes, rs[i].event.size) > budget
  {}

  /** What the next record does to the reply: it is filtered... */
  lemma ReplySkips(rs: seq<Record>, limit: nat, budget: nat, forwardable: Event -> bool,
                   i: nat, events: seq<Record>, bytes: nat, last: Option<nat>)
    requires Replying(rs, limit, budget, forwardable, i, events, bytes, last) && i < |rs| && budget < USIZE_MAX
    requires !forwardable(rs[i].event)
    ensures Replying(rs, limit, budget, forwardable, i + 1, events, bytes, Some(rs[i].event.ts))
  {
    StopsIff(rs, limit, budget, forwardable, i, events, bytes, last);
    ConsumedMore(rs, limit, budget, forwardable, i);
    ForwardedNext(rs, forwardable, i);
    assert events + [] == events;
  }

  /** ...it exceeds the budget... */
  lemma ReplyExceeds(rs: seq<Record>, limit: nat, budget: nat, forwardable: Event -> bool,
                     i: nat, events: seq<Record>, bytes: nat, last: Option<nat>)
    requires Replying(rs, limit, budget, forwardable, i, events, bytes, last) && i < |rs| && budget < USIZE_MAX
    requires forwardable(rs[i].event) && SaturatingAdd(bytes, rs[i].event.size) > budget
    ensures Consumed(rs, limit, budget, forwardable) == i
  {
    StopsIff(rs, limit, budget, forwardable, i, events, bytes, last);
    ConsumedStops(rs, limit, budget, forwardable, i);
  }

  /** ...or it is returned, which may fill the reply. */
  lemma ReplyTakes(rs: seq<Record>, limit: nat, budget: nat, forwardable: Event -> bool,
                   i: nat, events: seq<Record>, bytes: nat, last: Option<nat>)
    requires Replying(rs, limit, budget, forwardable, i, events, bytes, last) && i < |rs| && budget < USIZE_MAX
    requires forwardable(rs[i].event) && SaturatingAdd(bytes, rs[i].event.size) <= budget
    ensures Consumed(rs[..i + 1], limit, budget, forwardable) == i + 1
    ensures Forwarded(rs[..i + 1], forwardable) == events + [rs[i]] && LastTimestamp(rs[..i + 1]) == Some(rs[i].event.ts)
    ensures |events| + 1 < limit ==>
              Replying(rs, limit, budget, forwardable, i + 1, events + [rs[i]], SaturatingAdd(bytes, rs[i].event.size), Some(rs[i].event.ts))
  {
    StopsIff(rs, limit, budget, forwardable, i, events, bytes, last);
    ConsumedMore(rs, limit, budget, forwardable, i);
    ForwardedNext(rs, forwardable, i);
    BytesSnoc(events, rs[i]);
    assert SaturatingAdd(bytes, rs[i].event.size) == bytes + rs[i].event.size;
  }

  lemma ReplyFull(rs: seq<Record>, limit: nat, budget: nat, forwardable: Event -> bool, n: nat)
    requires n <= |rs| && Consumed(rs[..n], limit, budget, forwardable) == n && |Forwarded(rs[..n], forwardable)| == limit
    ensures Consumed(rs, limit, budget, forwardable) == n
  {
    if n < |rs| { ConsumedStops(rs, limit, budget, forwardable, n); } else { assert rs[..n] == rs; }
  }

  lemma ReplyWhole(rs: seq<Record>, limit: nat, budget: nat, forwardable: Event -> bool,
                   events: seq<Record>, bytes: nat, last: Option<nat>)
    requires Replying(rs, limit, budget, forwardable, |rs|, events, bytes, last)
    ensures Consumed(rs, limit, budget, forwardable) == |rs|
  {
    assert rs[..|rs|] == rs;
  }

  lemma ReplyParts(rs: seq<Record>, limit: nat, budget: nat, forwardable: Event -> bool,
                   i: nat, events: seq<Record>, bytes: nat, last: Option<nat>)
    requires Replying(rs, limit, budget, forwardable, i, events, bytes, last)
    ensures i <= |rs| && events == Forwarded(rs[..i], forwardable) && |events| < limit && last == LastTimestamp(rs[..i])
  {}

  /** The reply that the handler builds from a storage page. */
  method BuildSyncBatch(page: HistoryPage, requested: nat, budget: nat, forwardable: Event -> bool) returns (reply: Reply)
    requires budget < USIZE_MAX
    ensures reply == ReplyTo(page, requested, budget, forwardable)
  {
    hide Forwarded, Consumed, Replying, LastTimestamp, SaturatingAdd, Bytes;
    if requested == 0 { return BadRequest; }
    var limit, rs := EffectiveLimit(requested), page.events;
    var events, bytes, consumed: nat, last: Option<nat> := [], 0, 0, None;
    ReplyStarts(rs, limit, budget, forwardable);
    ghost var stopped := false;
    while consumed < |rs|
      invariant consumed <= |rs| && Replying(rs, limit, budget, forwardable, consumed, events, bytes, last)
    {
      var r := rs[consumed];
      ReplyParts(rs, limit, budget, forwardable, consumed, events, bytes, last);
      if forwardable(r.event) {
        if SaturatingAdd(bytes, r.event.size) > budget {
          ReplyExceeds(rs, limit, budget, forwardable, consumed, events, bytes, last);
          if events == [] { return Failed; }
          stopped := true;
          break;
        }
        ReplyTakes(rs, limit, budget, forwardable, consumed, events, bytes, last);
        bytes := SaturatingAdd(bytes, r.event.size);
        consumed := consumed + 1;
        last := Some(r.event.ts);
        events := events + [r];
        if |events| == limit {
          ReplyFull(rs, limit, budget, forwardable, consumed);
          stopped := true;
          break;
        }
      } else {
        ReplySkips(rs, limit, budget, forwardable, consumed, events, bytes, last);
        consumed := consumed + 1;
        last := Some(r.event.ts);
      }
    }
    if !stopped {
      ReplyWhole(rs, limit, budget, forwardable, events, bytes, last);
      ReplyParts(rs, limit, budget, forwardable, consumed, events, bytes, last);
    }
    assert consumed == Consumed(rs, limit, budget, forwardable) <= |rs|;
    assert events == Forwarded(rs[..consumed], forwardable) && last == LastTimestamp(rs[..consumed]);
    if consumed == |rs| {
      if page.exhausted { return Batch(events, Done); }
      last := Later(last, page.lastScanned);
    }
    if last.None? || last.value + 1 >= TIMESTAMPS { return Failed; }
    reply := Batch(events, Next(last.value + 1));
  }

  lemma ConsumedMore(rs: seq<Record>, limit: nat, budget: nat, forwardable: Event -> bool, i: nat)
    requires i < |rs| && Consumed(rs[..i], limit, budget, forwardable) == i && !Stops(rs[..i], rs[i], limit, budget, forwardable)
    ensures Consumed(rs[..i + 1], limit, budget, forwardable) == i + 1
  {
    assert rs[..i + 1][..i] == rs[..i];
  }

  // ----- a peer that asks until it is done -----

  ghost function ReplyFrom(log: seq<Event>, index: Index, since: nat, requested: nat, pageBytes: nat, budget: nat,
                           forwardable: Event -> bool): Reply
    requires InLog(log, index)
  {
    ReplyTo(PageFrom(log, index, since, ScanLimit(requested), pageBytes), requested, budget, forwardable)
  }

  /** The replies to a peer that follows the cursor of each reply. */
  ghost predicate Syncing(log: seq<Event>, index: Index, since: nat, requested: nat, pageBytes: nat, budget: nat,
                          forwardable: Event -> bool, replies: seq<Reply>)
    requires InLog(log, index)
    decreases |replies|
  {
    && replies != [] && replies[0] == ReplyFrom(log, index, since, requested, pageBytes, budget, forwardable)
    && if replies[0].Batch? && replies[0].next.Next?
       then Syncing(log, index, replies[0].next.ts, requested, pageBytes, budget, forwardable, replies[1..])
       else |replies| == 1
  }

  function Received(replies: seq<Reply>): seq<Record> {
    if replies == [] then []
    else (if replies[0].Batch? then replies[0].events else []) + Received(replies[1..])
  }

  /** A record that no reply can carry. */
  predicate Oversized(r: Record, budget: nat, forwardable: Event -> bool) {
    forwardable(r.event) && r.event.size > budget
  }

  ghost predicate NoneOversized(rs: seq<Record>, budget: nat, forwardable: Event -> bool) {
    forall i :: 0 <= i < |rs| ==> !Oversized(rs[i], budget, forwardable)
  }

  ghost predicate InTime(index: Index) {
    forall ts :: ts in index ==> ts < TIMESTAMPS
  }

  /** The reply consumed the first `n` of the records that the peer asks for, of which storage scanned
      the first `scanned`. It goes on until it is full, its next record does not fit or the scan ends. */
  ghost predicate Consumes(all: seq<Record>, requested: nat, budget: nat, forwardable: Event -> bool, scanned: nat, reply: Reply, n: nat) {
    && n <= scanned <= |all|
    && match reply
       case BadRequest => false
       case Failed => n < |all| && Oversized(all[n], budget, forwardable)
       case Batch(events, next) =>
         && events == Forwarded(all[..n], forwardable)
         && |events| <= requested && |events| <= 100 && Bytes(events) <= budget
         && match next
            case Done => n == |all|
            case Next(ts) =>
              && n > 0 && ts == all[n - 1].event.ts + 1
              && (|events| == requested || |events| == 100 || n == scanned
                  || (forwardable(all[n].event) && Bytes(events) + all[n].event.size > budget))
  }

  lemma ReplyConsumes(page: HistoryPage, all: seq<Record>, requested: nat, budget: nat, forwardable: Event -> bool) returns (n: nat)
    requires page.events <= all && (page.exhausted <==> |page.events| == |all|) && page.lastScanned == LastTimestamp(page.events)
    requires requested > 0 && (all != [] ==> page.events != [])
    requires forall i :: 0 <= i < |all| - 1 ==> all[i].event.ts + 1 < TIMESTAMPS
    ensures Consumes(all, requested, budget, forwardable, |page.events|, ReplyTo(page, requested, budget, forwardable), n)
  {
    var limit := EffectiveLimit(requested);
    ConsumedFits(page.events, limit, budget, forwardable);
    n := Consumed(page.events, limit, budget, forwardable);
    var kept := Forwarded(page.events[..n], forwardable);
    assert page.events[..n] == all[..n];
    hide Consumed, Forwarded, Oversized;
    assert n > 0 ==> LastTimestamp(all[..n]) == Some(all[n - 1].event.ts);
    if n < |page.events| {
      assert page.events[n] == all[n];
      if kept == [] { StoppedEmpty(page.events[..n], page.events[n], limit, budget, forwardable); }
    } else {
      assert page.events[..n] == page.events;
    }
  }

  /** A reply fails at an oversized record, or returns the forwardable part of what it consumed and
      names exactly the rest, or consumed everything. */
  lemma ReplyIsExact(log: seq<Event>, index: Index, since: nat, requested: nat, pageBytes: nat, budget: nat,
                     forwardable: Event -> bool) returns (n: nat)
    requires RowsAgree(log, |log|, index) && InLog(log, index) && InTime(index) && requested > 0
    ensures var reply := ReplyFrom(log, index, since, requested, pageBytes, budget, forwardable);
            var scanned := |PageFrom(log, index, since, 4 * if requested < 100 then requested else 100, pageBytes).events|;
            && Consumes(History(log, index, since), requested, budget, forwardable, scanned, reply, n)
            && (reply.Batch? && reply.next.Next? ==>
                  && History(log, index, reply.next.ts) == History(log, index, since)[n..]
                  && |KeysFrom(index, reply.next.ts)| < |KeysFrom(index, since)|)
  {
    hide PageFrom, History, KeysFrom, RowsAgree, InLog, InTime, ReplyTo, Forwarded, FitsReply, Oversized, LastTimestamp;
    var page, all := PageFrom(log, index, since, ScanLimit(requested), pageBytes), History(log, index, since);
    PageParts(log, index, since, ScanLimit(requested), pageBytes);
    TimesInRange(log, index, since);
    n := ReplyConsumes(page, all, requested, budget, forwardable);
    var reply := ReplyTo(page, requested, budget, forwardable);
    if reply.Batch? && reply.next.Next? { CursorReadsOn(log, index, since, n); }
  }

  lemma TimesInRange(log: seq<Event>, index: Index, since: nat)
    requires RowsAgree(log, |log|, index) && InLog(log, index) && InTime(index)
    ensures var all := History(log, index, since); forall i :: 0 <= i < |all| - 1 ==> all[i].event.ts + 1 < TIMESTAMPS
  {
    hide History, KeysFrom, RowsAgree, InLog, InTime;
    var all := History(log, index, since);
    forall i | 0 <= i < |all| - 1 ensures all[i].event.ts + 1 < TIMESTAMPS {
      HistoryAt(log, index, since, i);
      CursorInTime(index, since, i + 1);
    }
  }

  lemma CursorReadsOn(log: seq<Event>, index: Index, since: nat, n: nat)
    requires RowsAgree(log, |log|, index) && InLog(log, index) && 0 < n <= |History(log, index, since)|
    ensures var next := History(log, index, since)[n - 1].event.ts + 1;
            && History(log, index, next) == History(log, index, since)[n..]
            && |KeysFrom(index, next)| < |KeysFrom(index, since)|
  {
    hide History, KeysFrom, RowsAgree, InLog;
    HistoryAt(log, index, since, n - 1);
    HistoryOn(log, index, since, n);
  }

  /** The replies to a peer end. */
  lemma {:induction false} SyncEnds(log: seq<Event>, index: Index, since: nat, requested: nat, pageBytes: nat, budget: nat,
                                    forwardable: Event -> bool) returns (replies: seq<Reply>)
    requires RowsAgree(log, |log|, index) && InLog(log, index) && InTime(index) && requested > 0
    ensures Syncing(log, index, since, requested, pageBytes, budget, forwardable, replies)
    ensures |replies| <= |KeysFrom(index, since)| + 1
    decreases |KeysFrom(index, since)|
  {
    hide RowsAgree, InLog, InTime, KeysFrom, History, ReplyFrom, Consumes;
    var _ := ReplyIsExact(log, index, since, requested, pageBytes, budget, forwardable);
    var reply := ReplyFrom(log, index, since, requested, pageBytes, budget, forwardable);
    replies := [reply];
    if reply.Batch? && reply.next.Next? {
      var rest := SyncEnds(log, index, reply.next.ts, requested, pageBytes, budget, forwardable);
      replies := [reply] + rest;
      assert replies[1..] == rest;
    }
  }

  /** The last reply says that sync is done if and only if no record to be forwarded is oversized, and
      fails otherwise. When it is done, the replies together are every forwardable record from the
      start, once and in timestamp order. */
  lemma {:induction false} SyncIsExact(log: seq<Event>, index: Index, since: nat, requested: nat, pageBytes: nat, budget: nat,
                                       forwardable: Event -> bool, replies: seq<Reply>)
    requires RowsAgree(log, |log|, index) && InLog(log, index) && InTime(index) && requested > 0
    requires Syncing(log, index, since, requested, pageBytes, budget, forwardable, replies)
    ensures replies != []
    ensures var all, last := History(log, index, since), replies[|replies| - 1];
            if NoneOversized(all, budget, forwardable)
            then last.Batch? && last.next.Done? && Received(replies) == Forwarded(all, forwardable)
            else last.Failed?
    decreases |replies|
  {
    hide RowsAgree, InLog, InTime, KeysFrom, History, ReplyFrom, Forwarded, FitsReply, Oversized;
    var n := ReplyIsExact(log, index, since, requested, pageBytes, budget, forwardable);
    var all, reply := History(log, index, since), replies[0];
    if reply.Batch? && reply.next.Next? {
      SyncIsExact(log, index, reply.next.ts, requested, pageBytes, budget, forwardable, replies[1..]);
      assert all == all[..n] + all[n..];
      ForwardedConcat(all[..n], all[n..], forwardable);
      OversizedSplit(all, n, requested, budget, forwardable);
    } else if reply.Batch? {
      assert all[..n] == all;
      OversizedSplit(all, n, requested, budget, forwardable);
    }
  }

  /** What a reply carried was not oversized. */
  lemma OversizedSplit(all: seq<Record>, n: nat, requested: nat, budget: nat, forwardable: Event -> bool)
    requires n <= |all| && Bytes(Forwarded(all[..n], forwardable)) <= budget
    ensures NoneOversized(all, budget, forwardable) <==> NoneOversized(all[n..], budget, forwardable)
  {
    forall i | 0 <= i < n ensures !Oversized(all[i], budget, forwardable) {
      assert all[..n][i] == all[i];
      ForwardedFrom(all[..n], forwardable, all[i]);
      if forwardable(all[i].event) { InBytes(Forwarded(all[..n], forwardable), all[i]); }
    }
    hide Forwarded, FitsReply, Oversized;
    assert forall i :: n <= i < |all| ==> all[i] == all[n..][i - n];
  }

  lemma {:induction false} InBytes(rs: seq<Record>, r: Record)
    requires r in rs
    ensures r.event.size <= Bytes(rs)
  {
    var init, last := rs[..|rs| - 1], rs[|rs| - 1];
    assert rs == init + [last];
    if r != last { InBytes(init, r); }
  }

  lemma StoppedEmpty(rs: seq<Record>, next: Record, limit: nat, budget: nat, forwardable: Event -> bool)
    requires limit > 0 && Stops(rs, next, limit, budget, forwardable) && Forwarded(rs, forwardable) == []
    ensures Oversized(next, budget, forwardable)
  {}

  lemma CursorInTime(index: Index, since: nat, n: nat)
    requires InTime(index) && n < |KeysFrom(index, since)|
    ensures n > 0 ==> KeysFrom(index, since)[n - 1] + 1 < TIMESTAMPS
  {
    hide KeysFrom;
    if n > 0 { assert KeysFrom(index, since)[n - 1] < KeysFrom(index, since)[n]; }
  }
}
