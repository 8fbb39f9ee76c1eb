/** The event store: an append-only log, the timestamp index derived from it, and its bounded queries. */
module EventStore {
  import opened Wrappers
  import opened EventLog
  import opened Ordering
  import opened SequenceIndex

  const PAGE_SIZE: nat := 1_024
  const PAGE_BYTES: nat := 256 * 1024 * 1024

  // ----- what a store holds -----

  /** The log, how much of it is synced, the timestamp index and the greatest timestamp seen. */
  datatype Contents = Contents(log: seq<Event>, synced: nat, index: map<nat, nat>, maxTimestamp: Option<nat>)

  datatype Fault = Fine | IndexReadFails | LogReadFails | AppendFails | SyncFails | IndexInsertFails

  datatype Error = Io | MissingRecord | WrongRecord | Collision | CursorAhead | SequenceOverflow | Integrity

  function Max(a: Option<nat>, ts: nat): Option<nat> {
    if a.Some? && a.value >= ts then a else Some(ts)
  }

  /** What storing an event changes, and what it answers. */
  function Stored(c: Contents, e: Event, fault: Fault): (Contents, Result<Option<Record>, Error>) {
    if fault == IndexReadFails then (c, Err(Io))
    else if e.ts in c.index then
      (c, if fault == LogReadFails then Err(Io) else Known(c, e, c.index[e.ts]))
    else
      var seqNumber := |c.log| + 1;
      (Contents(
         if fault == AppendFails then c.log else c.log + [e],
         if fault == AppendFails || fault == SyncFails then c.synced else seqNumber,
         if Fails(fault) then c.index else c.index[e.ts := seqNumber],
         if Fails(fault) then c.maxTimestamp else Max(c.maxTimestamp, e.ts)),
       if Fails(fault) then Err(Io) else Ok(Some(Record(seqNumber, e))))
  }

  predicate Fails(fault: Fault) {
    fault == AppendFails || fault == SyncFails || fault == IndexInsertFails
  }

  /** A known timestamp: the same event again, or a conflict. */
  function Known(c: Contents, e: Event, indexed: nat): (r: Result<Option<Record>, Error>)
    ensures r.Ok? ==> r.value.None?
  {
    var found := Take(ReadFrom(c.log, indexed), 1);
    if found == [] then Err(MissingRecord)
    else if found[0].number != indexed then Err(WrongRecord)
    else if found[0].event.id == e.id && found[0].event.data == e.data then Ok(None)
    else Err(Collision)
  }

  // ----- the index that the log defines -----

  ghost predicate TimestampsDistinct(log: seq<Event>) {
    forall i, j :: 0 <= i < j < |log| ==> log[i].ts != log[j].ts
  }

  /** The index after the rows that it lacks were filled in. Rows that it has are kept. */
  function Filled(log: seq<Event>, index: map<nat, nat>): map<nat, nat> {
    if log == [] then index
    else
      var filled := Filled(log[..|log| - 1], index);
      var ts := log[|log| - 1].ts;
      if ts in filled then filled else filled[ts := |log|]
  }

  function Greatest(log: seq<Event>, from: Option<nat>): Option<nat> {
    if log == [] then from else Max(Greatest(log[..|log| - 1], from), log[|log| - 1].ts)
  }

  lemma FilledNone(log: seq<Event>, index: map<nat, nat>, max: Option<nat>)
    ensures Filled([], index) == index && Greatest([], max) == max && log[..0] == []
  {}

  /** What a log gives back from a sequence number on. */
  type Reader = nat -> Result<seq<Record>, Error>

  /** The log gives back the pages of what it holds. */
  ghost predicate ReadsBack(read: Reader, log: seq<Event>) {
    forall next :: 1 <= next <= |log| ==> read(next) == Ok(Fit(ReadFrom(log, next), PAGE_SIZE, Enforced(PAGE_BYTES)))
  }

  /** The record was in a page that the log gave back. */
  ghost predicate Given(read: Reader, r: Record) {
    exists from :: read(from).Ok? && r in read(from).value
  }

  lemma WasGiven(read: Reader, from: nat, i: nat)
    requires read(from).Ok? && i < |read(from).value|
    ensures Given(read, read(from).value[i])
  {
    assert read(from).value[i] in read(from).value;
  }

  lemma HonestPage(read: Reader, log: seq<Event>, next: nat)
    requires ReadsBack(read, log) && 1 <= next <= |log|
    ensures read(next).Ok?
    ensures var page := read(next).value;
            && 0 < |page| <= PAGE_SIZE && next + |page| <= |log| + 1
            && forall i :: 0 <= i < |page| ==> page[i] == Record(next + i, log[next + i - 1])
  {
    assert read(next) == Ok(Fit(ReadFrom(log, next), PAGE_SIZE, Enforced(PAGE_BYTES)));
    FirstFits(ReadFrom(log, next), PAGE_SIZE, Enforced(PAGE_BYTES));
    hide Fit, Enforced;
  }

  lemma FilledSnoc(events: seq<Event>, e: Event, index: map<nat, nat>, max: Option<nat>)
    ensures var filled := Filled(events, index);
            Filled(events + [e], index) == if e.ts in filled then filled else filled[e.ts := |events| + 1]
    ensures Greatest(events + [e], max) == Max(Greatest(events, max), e.ts)
  {
    assert (events + [e])[..|events|] == events;
  }

  /** How many events reconciliation handles when the index fails at one of them. */
  function Reached(failAt: Option<nat>, head: nat): (n: nat)
    ensures n <= head
  {
    if failAt.Some? && 0 < failAt.value <= head then failAt.value - 1 else head
  }

  /** The event at a position of the log has its row. */
  predicate HasRow(log: seq<Event>, index: map<nat, nat>, i: nat) {
    i < |log| && log[i].ts in index && index[log[i].ts] == i + 1
  }

  /** A row, if there is one, agrees with one of the first `n` events of the log. */
  predicate RowAgrees(log: seq<Event>, n: nat, index: map<nat, nat>, ts: nat) {
    ts in index ==> 0 < index[ts] <= n <= |log| && log[index[ts] - 1].ts == ts
  }

  ghost predicate RowsAgree(log: seq<Event>, n: nat, index: map<nat, nat>) {
    forall ts :: RowAgrees(log, n, index, ts)
  }

  /** The index holds the rows of the log and no other. */
  ghost predicate IndexMatches(log: seq<Event>, index: map<nat, nat>) {
    (forall i :: 0 <= i < |log| ==> HasRow(log, index, i)) && RowsAgree(log, |log|, index)
  }

  ghost predicate IsGreatest(log: seq<Event>, max: Option<nat>) {
    && (max.None? <==> log == [])
    && (max.Some? ==> (exists i :: 0 <= i < |log| && log[i].ts == max.value)
                      && forall i :: 0 <= i < |log| ==> log[i].ts <= max.value)
  }

  // ----- matching records -----

  predicate Matches(e: Event, filter: Option<nat>) {
    filter.None? || e.source == filter.value
  }

  function Matching(rs: seq<Record>, filter: Option<nat>): seq<Record> {
    if rs == [] then []
    else
      var r := rs[|rs| - 1];
      Matching(rs[..|rs| - 1], filter) + if Matches(r.event, filter) then [r] else []
  }

  lemma MatchingNext(rs: seq<Record>, filter: Option<nat>, p: nat)
    requires p < |rs|
    ensures Matching(rs[..p + 1], filter) == Matching(rs[..p], filter) + if Matches(rs[p].event, filter) then [rs[p]] else []
  {
    assert rs[..p + 1][..p] == rs[..p];
  }

  lemma {:induction false} MatchingPrefix(rs: seq<Record>, filter: Option<nat>, p: nat)
    requires p <= |rs|
    ensures Matching(rs[..p], filter) <= Matching(rs, filter)
    decreases |rs|
  {
    if p < |rs| {
      MatchingPrefix(rs[..|rs| - 1], filter, p);
      assert rs[..|rs| - 1][..p] == rs[..p];
    } else {
      assert rs[..p] == rs;
    }
  }

  function Numbers(rs: seq<Record>): seq<nat> {
    seq(|rs|, i requires 0 <= i < |rs| => rs[i].number)
  }

  /** The matching records are those of the sequence that match... */
  lemma {:induction false} MatchingExact(rs: seq<Record>, filter: Option<nat>, r: Record)
    ensures r in Matching(rs, filter) <==> r in rs && Matches(r.event, filter)
  {
    if rs != [] {
      var init, last := rs[..|rs| - 1], rs[|rs| - 1];
      MatchingExact(init, filter, r);
      assert rs == init + [last];
    }
  }

  /** ...in its order. */
  lemma {:induction false} MatchingAscends(rs: seq<Record>, filter: Option<nat>)
    requires Ascends(Numbers(rs))
    ensures Ascends(Numbers(Matching(rs, filter)))
  {
    if rs != [] {
      var init, last := rs[..|rs| - 1], rs[|rs| - 1];
      assert forall i :: 0 <= i < |init| ==> Numbers(init)[i] == Numbers(rs)[i];
      MatchingAscends(init, filter);
      var found, all := Matching(init, filter), Matching(rs, filter);
      forall i | 0 <= i < |found| ensures found[i].number < last.number && Numbers(all)[i] == Numbers(found)[i] {
        MatchingExact(init, filter, found[i]);
        var j :| 0 <= j < |init| && init[j] == found[i];
        assert Numbers(rs)[j] < Numbers(rs)[|rs| - 1];
      }
    }
  }

  lemma {:induction false} NoFilter(rs: seq<Record>)
    ensures Matching(rs, None) == rs
  {
    if rs != [] { NoFilter(rs[..|rs| - 1]); }
  }

  /** Where a filtered scan stands after `p` records, while nothing stopped it. */
  ghost predicate Scanned(all: seq<Record>, filter: Option<nat>, limit: nat, maxBytes: Option<nat>,
                          p: nat, output: seq<Record>, bytes: nat)
  {
    && p <= |all| && output == Matching(all[..p], filter) && |output| < limit
    && Fits(output, limit, Budget(maxBytes)) && bytes == SaturatingAdd(0, Bytes(output))
  }

  predicate Over(output: seq<Record>, maxBytes: Option<nat>, bytes: nat, r: Record) {
    output != [] && maxBytes.Some? && SaturatingAdd(bytes, r.event.size) > maxBytes.value
  }

  lemma ScanStart(all: seq<Record>, filter: Option<nat>, limit: nat, maxBytes: Option<nat>)
    ensures all[0..] == all
    ensures if limit == 0 then Fit(Matching(all, filter), limit, Budget(maxBytes)) == []
            else Scanned(all, filter, limit, maxBytes, 0, [], 0)
  {
    assert all[..0] == [];
  }

  lemma ScanSkip(all: seq<Record>, filter: Option<nat>, limit: nat, maxBytes: Option<nat>,
                 p: nat, output: seq<Record>, bytes: nat)
    requires Scanned(all, filter, limit, maxBytes, p, output, bytes) && p < |all| && !Matches(all[p].event, filter)
    ensures Scanned(all, filter, limit, maxBytes, p + 1, output, bytes)
  {
    MatchingNext(all, filter, p);
    hide Matching, Fits, Bytes, Matches;
  }

  /** The next record exceeds the budget exactly when the longer output does not fit. */
  lemma OverIffMisfit(output: seq<Record>, limit: nat, maxBytes: Option<nat>, bytes: nat, r: Record)
    requires |output| < limit && Fits(output, limit, Budget(maxBytes)) && bytes == SaturatingAdd(0, Bytes(output))
    ensures Fits(output + [r], limit, Budget(maxBytes)) <==> !Over(output, maxBytes, bytes, r)
    ensures SaturatingAdd(bytes, r.event.size) == SaturatingAdd(0, Bytes(output + [r]))
  {
    BytesSnoc(output, r);
    hide Bytes;
  }

  lemma MatchGrows(all: seq<Record>, filter: Option<nat>, p: nat, output: seq<Record>)
    requires p < |all| && output == Matching(all[..p], filter) && Matches(all[p].event, filter)
    ensures var found, longer := Matching(all, filter), output + [all[p]];
            && longer == Matching(all[..p + 1], filter) && longer <= found && output <= found
            && |output| < |found| && found[..|output| + 1] == longer
  {
    MatchingNext(all, filter, p);
    MatchingPrefix(all, filter, p + 1);
    hide Matching, Matches;
    var found, longer := Matching(all, filter), output + [all[p]];
    assert longer <= found;
    assert found[..|longer|] == longer;
  }

  lemma ScanMatch(all: seq<Record>, filter: Option<nat>, limit: nat, maxBytes: Option<nat>,
                  p: nat, output: seq<Record>, bytes: nat)
    requires Scanned(all, filter, limit, maxBytes, p, output, bytes) && p < |all| && Matches(all[p].event, filter)
    ensures var found, longer := Matching(all, filter), output + [all[p]];
            if Over(output, maxBytes, bytes, all[p]) then Fit(found, limit, Budget(maxBytes)) == output
            else if |longer| >= limit then Fit(found, limit, Budget(maxBytes)) == longer
            else Scanned(all, filter, limit, maxBytes, p + 1, longer, SaturatingAdd(bytes, all[p].event.size))
  {
    hide Matching, Fit, Fits, Matches, Over, Bytes, SaturatingAdd, Budget;
    MatchGrows(all, filter, p, output);
    OverIffMisfit(output, limit, maxBytes, bytes, all[p]);
    var found, longer := Matching(all, filter), output + [all[p]];
    if Over(output, maxBytes, bytes, all[p]) {
      FitFound(found, limit, Budget(maxBytes), output);
    } else if |longer| >= limit {
      LongEnough(found, limit, Budget(maxBytes), longer);
    }
  }

  /** The page that a scan reads at record `p`. */
  lemma ScanPage(log: seq<Event>, from: nat, cursor: nat, p: nat, pageBytes: nat)
    requires var all := ReadFrom(log, from); p <= |all| && ReadFrom(log, cursor) == all[p..]
    ensures var all := ReadFrom(log, from);
            var page := Fit(ReadFrom(log, cursor), PAGE_SIZE, Enforced(pageBytes));
            && |page| <= |all| - p && (page == [] <==> p == |all|)
            && forall i :: 0 <= i < |page| ==> page[i] == all[p + i]
  {
    FirstFits(ReadFrom(log, cursor), PAGE_SIZE, Enforced(pageBytes));
    hide Fit, Enforced;
  }

  lemma LongEnough(rs: seq<Record>, limit: nat, budget: Option<nat>, r: seq<Record>)
    requires r <= rs && Fits(r, limit, budget) && |r| >= limit
    ensures Fit(rs, limit, budget) == r
  {
    hide Fit, Bytes;
    FitFound(rs, limit, budget, r);
  }

  lemma ScanEnd(all: seq<Record>, filter: Option<nat>, limit: nat, maxBytes: Option<nat>,
                p: nat, output: seq<Record>, bytes: nat)
    requires Scanned(all, filter, limit, maxBytes, p, output, bytes) && p == |all|
    ensures Fit(Matching(all, filter), limit, Budget(maxBytes)) == output
  {
    assert all[..p] == all;
    FitFound(Matching(all, filter), limit, Budget(maxBytes), output);
  }

  // ----- what a query answers -----

  /** A record of the log from a sequence number on, of the source that was asked for. */
  predicate IsAsked(log: seq<Event>, from: nat, filter: Option<nat>, r: Record) {
    && from <= r.number && 1 <= r.number <= |log| && r.event == log[r.number - 1]
    && (filter.Some? ==> r.event.source == filter.value)
  }

  /** A record that was left out: the answer had reached its count, or this record or an earlier one that
      was asked for would have taken it over its bytes. */
  ghost predicate LeftOut(log: seq<Event>, from: nat, filter: Option<nat>, limit: Option<nat>, maxBytes: Option<nat>,
                          out: seq<Record>, r: Record)
  {
    && (forall i :: 0 <= i < |out| ==> out[i].number < r.number)
    && (limit == Some(|out|) ||
        (out != [] && maxBytes.Some? &&
         exists next :: IsAsked(log, from, filter, next) && next.number <= r.number && Bytes(out) + next.event.size > maxBytes.value))
  }

  /** The answer holds records that were asked for, in order and within the limits, and every other one
      comes after the answer ended. A byte budget of the largest machine integer never ends it. */
  ghost predicate Answers(log: seq<Event>, from: nat, filter: Option<nat>, limit: Option<nat>, maxBytes: Option<nat>, out: seq<Record>) {
    && (forall i :: 0 <= i < |out| ==> IsAsked(log, from, filter, out[i]))
    && (forall i, j :: 0 <= i < j < |out| ==> out[i].number < out[j].number)
    && (limit.Some? ==> |out| <= limit.value)
    && (|out| > 1 && maxBytes.Some? && maxBytes.value < 0xFFFF_FFFF_FFFF_FFFF ==> Bytes(out) <= maxBytes.value)
    && forall r :: IsAsked(log, from, filter, r) ==> r in out || LeftOut(log, from, filter, limit, maxBytes, out, r)
  }

  lemma AskedIffMatching(log: seq<Event>, from: nat, filter: Option<nat>, r: Record)
    ensures r in Matching(ReadFrom(log, from), filter) <==> IsAsked(log, from, filter, r)
  {
    var all := ReadFrom(log, from);
    MatchingExact(all, filter, r);
    hide Matching;
    if IsAsked(log, from, filter, r) { assert all[r.number - 1 - SaturatingSub(from, 1)] == r; }
  }

  lemma AskedInOrder(log: seq<Event>, from: nat, filter: Option<nat>)
    ensures var found := Matching(ReadFrom(log, from), filter);
            forall i, j :: 0 <= i < j < |found| ==> found[i].number < found[j].number
  {
    hide Matching;
    var all, found := ReadFrom(log, from), Matching(ReadFrom(log, from), filter);
    MatchingAscends(all, filter);
    forall i, j | 0 <= i < j < |found| ensures found[i].number < found[j].number {
      assert Numbers(found)[i] < Numbers(found)[j];
    }
  }

  lemma BehindPrefix<T>(a: seq<T>, b: seq<T>, x: T) returns (k: nat)
    requires a <= b && x in b && x !in a
    ensures |a| <= k < |b| && b[k] == x
  {
    k :| k < |b| && b[k] == x;
    assert forall i :: 0 <= i < |a| ==> a[i] in a && a[i] == b[i];
  }

  /** Behind the longest prefix that fits, every record is left out. */
  lemma BehindIsLeftOut(log: seq<Event>, from: nat, filter: Option<nat>, limit: Option<nat>, maxBytes: Option<nat>,
                        found: seq<Record>, out: seq<Record>, k: nat)
    requires out <= found && |out| <= k < |found| <= |log| && IsAsked(log, from, filter, found[|out|])
    requires forall i, j :: 0 <= i < j < |found| ==> found[i].number < found[j].number
    requires limit.Some? || maxBytes.None?
    requires !Fits(found[..|out| + 1], if limit.Some? then limit.value else |log|, Budget(maxBytes))
    requires |out| <= if limit.Some? then limit.value else |log|
    ensures LeftOut(log, from, filter, limit, maxBytes, out, found[k])
  {
    var next := found[|out|];
    assert found[..|out| + 1] == out + [next];
    BytesSnoc(out, next);
    hide Bytes;
  }

  /** The longest prefix of the matching records that fits is the answer. */
  lemma FitAnswers(log: seq<Event>, from: nat, filter: Option<nat>, limit: Option<nat>, maxBytes: Option<nat>, out: seq<Record>)
    requires limit.Some? || maxBytes.None?
    requires out == Fit(Matching(ReadFrom(log, from), filter), if limit.Some? then limit.value else |log|, Budget(maxBytes))
    ensures Answers(log, from, filter, limit, maxBytes, out)
  {
    hide Matching, Fit, LeftOut, IsAsked, Bytes;
    var found, most := Matching(ReadFrom(log, from), filter), if limit.Some? then limit.value else |log|;
    AskedInOrder(log, from, filter);
    MatchingShorter(ReadFrom(log, from), filter);
    forall i | 0 <= i < |out| ensures IsAsked(log, from, filter, out[i]) {
      assert out[i] == found[i];
      AskedIffMatching(log, from, filter, out[i]);
    }
    forall r | IsAsked(log, from, filter, r) && r !in out ensures LeftOut(log, from, filter, limit, maxBytes, out, r) {
      AskedIffMatching(log, from, filter, r);
      var k := BehindPrefix(out, found, r);
      FitIsLongest(found, most, Budget(maxBytes), |out| + 1);
      AskedIffMatching(log, from, filter, found[|out|]);
      BehindIsLeftOut(log, from, filter, limit, maxBytes, found, out, k);
    }
  }

  // ----- history pages -----

  /** Records in timestamp order, the last timestamp among them, and whether the store has no more. */
  datatype HistoryPage = HistoryPage(events: seq<Record>, lastScanned: Option<nat>, exhausted: bool)

  ghost predicate InLog(log: seq<Event>, index: Index) {
    forall ts :: ts in index ==> 0 < index[ts] <= |log|
  }

  /** Every record from a timestamp on, in timestamp order. */
  ghost function History(log: seq<Event>, index: Index, since: nat): (rs: seq<Record>)
    requires InLog(log, index)
    ensures |rs| == |KeysFrom(index, since)|
    ensures forall i :: 0 <= i < |rs| ==> rs[i] == RowRecord(log, index, KeysFrom(index, since)[i])
  {
    var keys := KeysFrom(index, since);
    seq(|keys|, i requires 0 <= i < |keys| => RowRecord(log, index, keys[i]))
  }

  function RowRecord(log: seq<Event>, index: Index, ts: nat): Record
    requires ts in index && 0 < index[ts] <= |log|
  {
    Record(index[ts], log[index[ts] - 1])
  }

  /** The page that a store with a sound index gives. */
  ghost function PageFrom(log: seq<Event>, index: Index, since: nat, limit: nat, maxBytes: nat): HistoryPage
    requires InLog(log, index)
  {
    var all := History(log, index, since);
    var events := Fit(all, limit, Some(maxBytes));
    HistoryPage(events, LastTimestamp(events), |events| == |all|)
  }

  function LastTimestamp(rs: seq<Record>): Option<nat> {
    if rs == [] then None else Some(rs[|rs| - 1].event.ts)
  }

  lemma RowsInLog(log: seq<Event>, index: Index, ts: nat)
    requires RowsAgree(log, |log|, index)
    ensures InLog(log, index) && (ts in index ==> log[index[ts] - 1].ts == ts)
  {
    forall ts | ts in index ensures 0 < index[ts] <= |log| { assert RowAgrees(log, |log|, index, ts); }
    assert RowAgrees(log, |log|, index, ts);
  }

  /** The record is too large for what the page has left exactly when the longer page does not fit. */
  lemma TooLargeIffMisfit(events: seq<Record>, limit: nat, maxBytes: nat, bytes: nat, r: Record)
    requires |events| < limit && maxBytes <= USIZE_MAX
    requires Fits(events, limit, Some(maxBytes)) && bytes == SaturatingAdd(0, Bytes(events))
    ensures Fits(events + [r], limit, Some(maxBytes)) <==> (events == [] || r.event.size <= SaturatingSub(maxBytes, bytes))
    ensures SaturatingAdd(bytes, r.event.size) == SaturatingAdd(0, Bytes(events + [r]))
  {
    BytesSnoc(events, r);
    hide Bytes;
  }

  /** Where a page stands after `i` rows, while nothing stopped it. */
  ghost predicate Paged(log: seq<Event>, index: Index, since: nat, limit: nat, maxBytes: nat,
                        i: nat, events: seq<Record>, bytes: nat)
  {
    && |events| == i && Fits(events, limit, Some(maxBytes)) && bytes == SaturatingAdd(0, Bytes(events))
    && (RowsAgree(log, |log|, index) ==> InLog(log, index) && events <= History(log, index, since))
  }

  lemma PageStart(log: seq<Event>, index: Index, since: nat, limit: nat, maxBytes: nat)
    ensures Paged(log, index, since, limit, maxBytes, 0, [], 0)
  {
    if RowsAgree(log, |log|, index) { RowsInLog(log, index, 0); }
  }

  /** What the next row of a sound index does to the page. */
  lemma PageNext(log: seq<Event>, index: Index, since: nat, limit: nat, maxBytes: nat,
                 i: nat, events: seq<Record>, bytes: nat)
    requires RowsAgree(log, |log|, index) && Paged(log, index, since, limit, maxBytes, i, events, bytes)
    requires i < limit && maxBytes <= USIZE_MAX && i < |KeysFrom(index, since)|
    ensures var ts := KeysFrom(index, since)[i];
            && 0 < index[ts] <= |log| && log[index[ts] - 1].ts == ts
            && var r := Record(index[ts], log[index[ts] - 1]);
            if events != [] && r.event.size > SaturatingSub(maxBytes, bytes)
            then PageFrom(log, index, since, limit, maxBytes) == HistoryPage(events, LastTimestamp(events), false)
            else Paged(log, index, since, limit, maxBytes, i + 1, events + [r], SaturatingAdd(bytes, r.event.size))
  {
    hide RowsAgree, Fit, KeysFrom, History, Bytes, Fits, SaturatingAdd, SaturatingSub;
    var all, ts := History(log, index, since), KeysFrom(index, since)[i];
    RowsInLog(log, index, ts);
    var r := Record(index[ts], log[index[ts] - 1]);
    TooLargeIffMisfit(events, limit, maxBytes, bytes, r);
    assert all[i] == r;
    assert all[..i + 1] == events + [r];
    if events != [] && r.event.size > SaturatingSub(maxBytes, bytes) {
      FitFound(all, limit, Some(maxBytes), events);
    }
  }

  /** The record of a row that agrees with the log. */
  ghost predicate Verified(log: seq<Event>, index: Index, since: nat, events: seq<Record>) {
    && |events| <= |KeysFrom(index, since)|
    && forall i :: 0 <= i < |events| ==> IsRow(log, index, KeysFrom(index, since)[i], events[i])
  }

  predicate IsRow(log: seq<Event>, index: Index, ts: nat, r: Record) {
    ts in index && 0 < index[ts] <= |log| && r == Record(index[ts], log[index[ts] - 1]) && r.event.ts == ts
  }

  /** The next row's record exists and does not fit. */
  ghost predicate Misfits(log: seq<Event>, index: Index, since: nat, limit: nat, maxBytes: nat, events: seq<Record>)
  {
    && |events| < |KeysFrom(index, since)|
    && var n := index[KeysFrom(index, since)[|events|]];
       0 < n <= |log| && !Fits(events + [Record(n, log[n - 1])], limit, Some(maxBytes))
  }

  /** The row disagrees with the log and those before it agree. */
  ghost predicate FailsAt(log: seq<Event>, index: Index, since: nat, limit: nat, i: nat) {
    && i < limit && i < |KeysFrom(index, since)| && !RowAgrees(log, |log|, index, KeysFrom(index, since)[i])
    && forall j :: 0 <= j < i ==> RowAgrees(log, |log|, index, KeysFrom(index, since)[j])
  }

  /** What the next row does to a page of verified records. */
  lemma RowFacts(log: seq<Event>, index: Index, since: nat, limit: nat, maxBytes: nat, i: nat, events: seq<Record>, bytes: nat)
    requires Verified(log, index, since, events) && |events| == i < limit && i < |KeysFrom(index, since)|
    requires maxBytes <= USIZE_MAX && Fits(events, limit, Some(maxBytes)) && bytes == SaturatingAdd(0, Bytes(events))
    ensures var ts := KeysFrom(index, since)[i];
            var n := index[ts];
            if n == 0 || n > |log| || log[n - 1].ts != ts then FailsAt(log, index, since, limit, i)
            else Verified(log, index, since, events + [Record(n, log[n - 1])])
    ensures var n := index[KeysFrom(index, since)[i]];
            0 < n <= |log| ==>
              && (events != [] && log[n - 1].size > SaturatingSub(maxBytes, bytes) ==> Misfits(log, index, since, limit, maxBytes, events))
              && (!(events != [] && log[n - 1].size > SaturatingSub(maxBytes, bytes)) ==>
                    Fits(events + [Record(n, log[n - 1])], limit, Some(maxBytes))
                    && SaturatingAdd(bytes, log[n - 1].size) == SaturatingAdd(0, Bytes(events + [Record(n, log[n - 1])])))
  {
    hide KeysFrom, Bytes, Fits, SaturatingAdd, SaturatingSub;
    var keys := KeysFrom(index, since);
    var n := index[keys[i]];
    forall j | 0 <= j < i ensures RowAgrees(log, |log|, index, keys[j]) {
      assert IsRow(log, index, keys[j], events[j]);
    }
    if 0 < n <= |log| { TooLargeIffMisfit(events, limit, maxBytes, bytes, Record(n, log[n - 1])); }
  }

  lemma PageEnd(log: seq<Event>, index: Index, since: nat, limit: nat, maxBytes: nat, i: nat, events: seq<Record>, bytes: nat)
    requires RowsAgree(log, |log|, index) && Paged(log, index, since, limit, maxBytes, i, events, bytes)
    requires i == |Take(KeysFrom(index, since), limit)|
    ensures InLog(log, index)
    ensures PageFrom(log, index, since, limit, maxBytes) ==
            HistoryPage(events, LastTimestamp(events), |KeysFrom(index, since)| <= limit)
  {
    hide RowsAgree, Fit, KeysFrom, Bytes;
    FitFound(History(log, index, since), limit, Some(maxBytes), events);
  }

  class EventStore {
    var log: seq<Event>
    var synced: nat
    var index: map<nat, nat>
    var maxTimestamp: Option<nat>

    function View(): Contents
      reads this
    {
      Contents(log, synced, index, maxTimestamp)
    }

    /** Opens a store on what the disk holds; the caller reconciles the index next. */
    constructor (log: seq<Event>, synced: nat, index: map<nat, nat>)
      ensures View() == Contents(log, synced, index, None)
    {
      this.log, this.synced, this.index, this.maxTimestamp := log, synced, index, None;
    }

    method StoreEvent(e: Event, fault: Fault) returns (r: Result<Option<Record>, Error>)
      modifies this
      ensures (View(), r) == Stored(old(View()), e, fault)
    {
      if fault == IndexReadFails { return Err(Io); }
      if e.ts in index {
        if fault == LogReadFails { return Err(Io); }
        var indexed := index[e.ts];
        var found := Take(ReadFrom(log, indexed), 1);
        if found == [] { return Err(MissingRecord); }
        if found[0].number != indexed { return Err(WrongRecord); }
        if found[0].event.id == e.id && found[0].event.data == e.data { return Ok(None); }
        return Err(Collision);
      }
      if fault == AppendFails { return Err(Io); }
      log := log + [e];
      var number := |log|;
      if fault == SyncFails { return Err(Io); }
      synced := |log|;
      if fault == IndexInsertFails { return Err(Io); }
      index := index[e.ts := number];
      maxTimestamp := Max(maxTimestamp, e.ts);
      r := Ok(Some(Record(number, e)));
    }

    /** Opens a store on what the disk holds and reconciles its index. */
    static method New(log: seq<Event>, synced: nat, index: map<nat, nat>, read: Reader, failAt: Option<nat>)
      returns (store: EventStore, r: Result<(), Error>)
      requires |log| <= U64_MAX
      ensures fresh(store) && store.log == log && store.synced == synced
      ensures ReadsBack(read, log) ==>
                && store.index == Filled(log[..Reached(failAt, |log|)], index)
                && (r.Ok? <==> |log| < U64_MAX && Reached(failAt, |log|) == |log|)
                && (r.Ok? ==> store.maxTimestamp == Greatest(log, None))
    {
      hide Filled, Greatest, ReadsBack, Given;
      store := new EventStore(log, synced, index);
      ghost var events;
      r, events := store.ReconcileIndex(read, failAt);
      if Reached(failAt, |log|) == |log| { assert log[..|log|] == log; }
    }

    /** Fills in the index rows that the log has and the index lacks, page by page. `read` is what the
        log gives back from a sequence number on, which may be anything; `failAt` is the sequence number
        at which the index fails to read or write, if any. `events` are the events that were handled. */
    method ReconcileIndex(read: Reader, failAt: Option<nat>) returns (r: Result<(), Error>, ghost events: seq<Event>)
      requires |log| <= U64_MAX
      modifies this`index, this`maxTimestamp
      // whatever the log gives back, the rows are those of consecutive records that it gave back
      ensures index == Filled(events, old(index)) && |events| <= |log|
      ensures forall i :: 0 <= i < |events| ==> Given(read, Record(i + 1, events[i]))
      ensures r.Ok? ==> |events| == |log| && maxTimestamp == Greatest(events, old(maxTimestamp))
      // and a log that gives back what it holds is handled up to an index failure
      ensures ReadsBack(read, log) ==>
                && events == log[..Reached(failAt, |log|)]
                && (r.Ok? <==> |log| < U64_MAX && Reached(failAt, |log|) == |log|)
    {
      hide Filled, Greatest, Fit, Enforced, Max, Given, ReadsBack;
      var head := |log|;
      var next: nat := 1;
      events := [];
      ghost var honest := ReadsBack(read, log);
      FilledNone(log, index, maxTimestamp);
      while next <= head
        invariant 1 <= next <= head + 1 && next <= U64_MAX && |events| == next - 1
        invariant index == Filled(events, old(index)) && maxTimestamp == Greatest(events, old(maxTimestamp))
        invariant forall i :: 0 <= i < |events| ==> Given(read, Record(i + 1, events[i]))
        invariant honest ==> events == log[..next - 1] && next <= Reached(failAt, head) + 1
        decreases head + 1 - next
      {
        var answer := read(next);
        if honest { HonestPage(read, log, next); }
        if answer.Err? { return Err(answer.error), events; }
        var page := answer.value;
        ghost var start := next;
        for i := 0 to |page|
          invariant next == start + i && next <= head + 1 && next <= U64_MAX && |events| == next - 1
          invariant index == Filled(events, old(index)) && maxTimestamp == Greatest(events, old(maxTimestamp))
          invariant forall i :: 0 <= i < |events| ==> Given(read, Record(i + 1, events[i]))
          invariant honest ==> events == log[..next - 1] && next <= Reached(failAt, head) + 1
        {
          var number, ts := page[i].number, page[i].event.ts;
          if number != next { return Err(Integrity), events; }
          if number > head { return Err(Integrity), events; }
          assert honest ==> page[i].event == log[next - 1];
          FilledSnoc(events, page[i].event, old(index), old(maxTimestamp));
          WasGiven(read, start, i);
          maxTimestamp := Max(maxTimestamp, ts);
          if failAt == Some(number) { return Err(Io), events; }
          assert honest ==> next <= Reached(failAt, head) && events + [page[i].event] == log[..next];
          if ts !in index { index := index[ts := number]; }
          events := events + [page[i].event];
          if number == U64_MAX { return Err(SequenceOverflow), events; }
          next := number + 1;
        }
        if |page| == 0 { return Err(Integrity), events; }
        if |page| > PAGE_SIZE { return Err(Integrity), events; }
      }
      r := Ok(());
    }

    /** The records from a sequence number on that come from one source, within a count limit and,
        if given, a byte budget. The log is scanned in pages. */
    method CollectFilteredBounded(from: nat, filter: Option<nat>, limit: nat, maxBytes: Option<nat>)
      returns (r: Result<seq<Record>, Error>)
      requires |log| <= U64_MAX
      ensures r.Ok? ==> r.value == Fit(Matching(ReadFrom(log, from), filter), limit, Budget(maxBytes))
      ensures r.Ok? ==> Answers(log, from, filter, Some(limit), maxBytes, r.value)
      ensures r.Err? ==> |log| == U64_MAX
    {
      hide *;
      ghost var all := ReadFrom(log, from);
      ghost var answer := Fit(Matching(all, filter), limit, Budget(maxBytes));
      FitAnswers(log, from, filter, Some(limit), maxBytes, answer);
      ScanStart(all, filter, limit, maxBytes);
      if limit == 0 { return Ok([]); }
      var cursor: nat, output, bytes, pageBytes := from, [], 0, if maxBytes.Some? then maxBytes.value else PAGE_BYTES;
      ghost var p := 0;
      while true
        invariant Scanned(all, filter, limit, maxBytes, p, output, bytes)
        invariant p <= |all| && ReadFrom(log, cursor) == all[p..]
        decreases |all| - p
      {
        var page := ReadFromBoundedByBytes(log, cursor, PAGE_SIZE, pageBytes);
        ghost var start := p;
        ScanPage(log, from, cursor, p, pageBytes);
        if page == [] {
          ScanEnd(all, filter, limit, maxBytes, p, output, bytes);
          return Ok(output);
        }
        for i := 0 to |page|
          invariant p == start + i && Scanned(all, filter, limit, maxBytes, p, output, bytes)
          invariant p <= |all| && ReadFrom(log, cursor) == all[p..]
        {
          assert page[i] == all[start + i];
          ReadOn(log, from, p);
          if page[i].number == U64_MAX { return Err(SequenceOverflow); }
          cursor := page[i].number + 1;
          if Matches(page[i].event, filter) {
            ScanMatch(all, filter, limit, maxBytes, p, output, bytes);
            if Over(output, maxBytes, bytes, page[i]) { return Ok(output); }
            bytes := SaturatingAdd(bytes, page[i].event.size);
            output := output + [page[i]];
            if |output| >= limit { return Ok(output); }
          } else {
            ScanSkip(all, filter, limit, maxBytes, p, output, bytes);
          }
          p := p + 1;
        }
      }
    }

    /** One page of the records at or after a timestamp, in timestamp order. The first record is read
        whatever its size. */
    method QueryHistoryPage(since: nat, limit: nat, maxBytes: nat) returns (r: Result<HistoryPage, Error>)
      requires |index| <= USIZE_MAX && maxBytes <= USIZE_MAX
      ensures RowsAgree(log, |log|, index) ==>
                InLog(log, index) && r == Ok(PageFrom(log, index, since, limit, maxBytes))
      // whatever the index holds, no record of a row that disagrees with the log is returned
      ensures r.Ok? ==> Verified(log, index, since, r.value.events) && r.value.lastScanned == LastTimestamp(r.value.events)
      // a page that stops before its limit stops at a record that does not fit
      ensures r.Ok? && |r.value.events| < limit && |r.value.events| < |KeysFrom(index, since)| ==>
                !r.value.exhausted && Misfits(log, index, since, limit, maxBytes, r.value.events)
      // and the page fails exactly at a row that disagrees, after rows that agree
      ensures r.Err? ==> exists i :: FailsAt(log, index, since, limit, i)
    {
      hide *;
      var entries := RangeFrom(index, since, SaturatingAdd(limit, 1));
      var taken := Take(entries, limit);
      RangeIsLongEnough(index, since, limit);
      var events, bytes, last := [], 0, None;
      PageStart(log, index, since, limit, maxBytes);
      NothingVerified(log, index, since);
      for i := 0 to |taken|
        invariant |events| == i && last == LastTimestamp(events) && Verified(log, index, since, events)
        invariant Fits(events, limit, Some(maxBytes)) && bytes == SaturatingAdd(0, Bytes(events))
        invariant RowsAgree(log, |log|, index) ==> Paged(log, index, since, limit, maxBytes, i, events, bytes)
      {
        var ts, number := taken[i].ts, taken[i].number;
        if RowsAgree(log, |log|, index) { PageNext(log, index, since, limit, maxBytes, i, events, bytes); }
        RowFacts(log, index, since, limit, maxBytes, i, events, bytes);
        if number == 0 || number > |log| { return Err(MissingRecord); }
        var record := Record(number, log[number - 1]);
        if events != [] && record.event.size > SaturatingSub(maxBytes, bytes) {
          return Ok(HistoryPage(events, last, false));
        }
        if record.event.ts != ts { return Err(WrongRecord); }
        bytes := SaturatingAdd(bytes, record.event.size);
        last := Some(ts);
        LastOf(events, record);
        events := events + [record];
      }
      if RowsAgree(log, |log|, index) { PageEnd(log, index, since, limit, maxBytes, |taken|, events, bytes); }
      r := Ok(HistoryPage(events, last, |entries| <= limit));
    }

    /** Records from a sequence number on. A byte budget applies only together with a count limit. */
    method QueryBySeq(query: nat, filter: Option<nat>, limit: Option<nat>, maxBytes: Option<nat>)
      returns (r: Result<seq<Record>, Error>)
      requires |log| <= U64_MAX
      ensures |log| < 0xFFFF_FFFF_FFFF_FFFF ==> (r.Ok? <==> query <= |log| + 1)
      ensures r.Ok? ==> r.value == Fit(Matching(ReadFrom(log, query), filter),
                                       if limit.Some? then limit.value else |log|,
                                       if limit.Some? then Budget(maxBytes) else None)
      ensures r.Ok? ==> Answers(log, query, filter, limit, if limit.Some? then maxBytes else None, r.value)
      ensures |log| == 0xFFFF_FFFF_FFFF_FFFF ==> r == Err(SequenceOverflow)
    {
      hide Answers;
      if |log| == U64_MAX { return Err(SequenceOverflow); }
      if query > |log| + 1 { return Err(CursorAhead); }
      NoFilter(ReadFrom(log, query));
      var records;
      if limit.Some? {
        if filter.Some? {
          r := CollectFilteredBounded(query, filter, limit.value, maxBytes);
          return;
        }
        if maxBytes.Some? {
          records := ReadFromBoundedByBytes(log, query, limit.value, maxBytes.value);
        } else {
          records := Take(ReadFrom(log, query), limit.value);
          FitFound(ReadFrom(log, query), limit.value, None, records);
        }
        records := Take(records, limit.value);
      } else {
        records := Matching(ReadFrom(log, query), filter);
        MatchingShorter(ReadFrom(log, query), filter);
        FitFound(records, |log|, None, records);
      }
      FitAnswers(log, query, filter, limit, if limit.Some? then maxBytes else None, records);
      r := Ok(records);
    }
  }

  /** One row more than the limit tells whether more rows follow. */
  lemma RangeIsLongEnough(index: Index, since: nat, limit: nat)
    requires |index| <= USIZE_MAX
    ensures var keys, entries := KeysFrom(index, since), RangeFrom(index, since, SaturatingAdd(limit, 1));
            && |Take(entries, limit)| == |Take(keys, limit)| == (if limit < |keys| then limit else |keys|)
            && (forall i :: 0 <= i < |Take(entries, limit)| ==>
                  i < |keys| && keys[i] in index && Take(entries, limit)[i] == Entry(keys[i], index[keys[i]]))
            && (|entries| <= limit <==> |keys| <= limit)
  {
    hide KeysFrom, RangeFrom;
  }

  lemma LastOf(rs: seq<Record>, r: Record)
    ensures LastTimestamp(rs + [r]) == Some(r.event.ts)
  {}

  lemma NothingVerified(log: seq<Event>, index: Index, since: nat)
    ensures LastTimestamp([]) == None && Verified(log, index, since, []) && SaturatingAdd(0, Bytes([])) == 0
    ensures forall limit, budget :: Fits([], limit, budget)
  {}

  function Budget(maxBytes: Option<nat>): Option<nat> {
    if maxBytes.None? then None else Enforced(maxBytes.value)
  }

  lemma FirstFits(rs: seq<Record>, limit: nat, budget: Option<nat>)
    requires limit > 0
    ensures Fit(rs, limit, budget) == [] <==> rs == []
  {
    if rs != [] && Fit(rs, limit, budget) == [] {
      FitIsLongest(rs, limit, budget, 1);
    }
  }

  lemma {:induction false} MatchingShorter(rs: seq<Record>, filter: Option<nat>)
    ensures |Matching(rs, filter)| <= |rs|
  {
    if rs != [] { MatchingShorter(rs[..|rs| - 1], filter); }
  }
}
