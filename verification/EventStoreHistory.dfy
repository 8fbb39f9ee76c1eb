/** Reading the whole history page by page. */
module EventStoreHistory {
  import opened Wrappers
  import opened EventLog
  import opened SequenceIndex
  import opened EventStore

  /** The first timestamp that is out of range for a 128-bit cursor. */
  const TIMESTAMPS: nat := 0x1_0000_0000_0000_0000_0000_0000_0000_0000

  /** The pages that a reader gets who asks for one after the other, each from one past the last
      timestamp of the page before it, until the store says that it has no more. */
  ghost predicate Reading(log: seq<Event>, index: Index, since: nat, limit: nat, maxBytes: nat, pages: seq<HistoryPage>)
    requires InLog(log, index)
    decreases |pages|
  {
    && pages != [] && pages[0] == PageFrom(log, index, since, limit, maxBytes)
    && if pages[0].exhausted then |pages| == 1
       else pages[0].lastScanned.Some?
            && Reading(log, index, pages[0].lastScanned.value + 1, limit, maxBytes, pages[1..])
  }

  function Events(pages: seq<HistoryPage>): seq<Record> {
    if pages == [] then [] else pages[0].events + Events(pages[1..])
  }

  lemma HistoryOn(log: seq<Event>, index: Index, since: nat, n: nat)
    requires InLog(log, index) && 0 < n <= |History(log, index, since)|
    ensures History(log, index, KeysFrom(index, since)[n - 1] + 1) == History(log, index, since)[n..]
  {
    hide KeysFrom, History, InLog, RowRecord;
    KeysOn(index, since, n);
  }

  lemma PageParts(log: seq<Event>, index: Index, since: nat, limit: nat, maxBytes: nat)
    requires InLog(log, index)
    ensures var page, all := PageFrom(log, index, since, limit, maxBytes), History(log, index, since);
            && page.events <= all && (page.exhausted <==> |page.events| == |all|)
            && page.lastScanned == LastTimestamp(page.events)
            && (limit > 0 && all != [] ==> page.events != [])
  {
    hide History, KeysFrom, InLog, LastTimestamp;
    if limit > 0 { FirstFits(History(log, index, since), limit, Some(maxBytes)); }
  }

  /** A page that is not the last holds a record, and the cursor it leaves is in range and reads on
      exactly where the page ended. */
  lemma PageProgress(log: seq<Event>, index: Index, since: nat, limit: nat, maxBytes: nat)
    requires RowsAgree(log, |log|, index) && InLog(log, index) && limit > 0
    ensures var page := PageFrom(log, index, since, limit, maxBytes);
            !page.exhausted ==>
              && page.events != [] && page.lastScanned.Some?
              && var next := page.lastScanned.value + 1;
              && History(log, index, next) == History(log, index, since)[|page.events|..]
              && |KeysFrom(index, next)| < |KeysFrom(index, since)|
              && ((forall ts :: ts in index ==> ts < TIMESTAMPS) ==> next < TIMESTAMPS)
  {
    hide RowsAgree, KeysFrom, Fit, PageFrom, History, InLog;
    PageParts(log, index, since, limit, maxBytes);
    var page, all, keys := PageFrom(log, index, since, limit, maxBytes), History(log, index, since), KeysFrom(index, since);
    if !page.exhausted {
      var n := |page.events|;
      RowsInLog(log, index, keys[n - 1]);
      assert page.events[n - 1] == all[n - 1];
      HistoryOn(log, index, since, n);
      assert keys[n - 1] < keys[n] && keys[n] in index;
    }
  }

  /** Paging ends, for every limit of at least one and every byte budget. */
  lemma {:induction false} PagingEnds(log: seq<Event>, index: Index, since: nat, limit: nat, maxBytes: nat)
    returns (pages: seq<HistoryPage>)
    requires RowsAgree(log, |log|, index) && InLog(log, index) && limit > 0
    ensures Reading(log, index, since, limit, maxBytes, pages) && |pages| <= |KeysFrom(index, since)| + 1
    decreases |KeysFrom(index, since)|
  {
    hide RowsAgree, KeysFrom, PageFrom, History, InLog;
    PageProgress(log, index, since, limit, maxBytes);
    var page := PageFrom(log, index, since, limit, maxBytes);
    if page.exhausted {
      pages := [page];
    } else {
      var rest := PagingEnds(log, index, page.lastScanned.value + 1, limit, maxBytes);
      pages := [page] + rest;
      assert pages[1..] == rest;
    }
  }

  /** The pages together are the whole history. */
  lemma {:induction false} PagingIsComplete(log: seq<Event>, index: Index, since: nat, limit: nat, maxBytes: nat,
                                            pages: seq<HistoryPage>)
    requires RowsAgree(log, |log|, index) && InLog(log, index) && limit > 0
    requires Reading(log, index, since, limit, maxBytes, pages)
    ensures Events(pages) == History(log, index, since)
    decreases |pages|
  {
    hide RowsAgree, KeysFrom, PageFrom, History, InLog;
    PageProgress(log, index, since, limit, maxBytes);
    PageParts(log, index, since, limit, maxBytes);
    var first, all := pages[0].events, History(log, index, since);
    if pages[0].exhausted {
      assert Events(pages[1..]) == [];
      assert first == all;
    } else {
      PagingIsComplete(log, index, pages[0].lastScanned.value + 1, limit, maxBytes, pages[1..]);
      assert first + all[|first|..] == all;
    }
  }

  lemma HistoryAt(log: seq<Event>, index: Index, since: nat, i: nat)
    requires RowsAgree(log, |log|, index) && InLog(log, index) && i < |History(log, index, since)|
    ensures var r := History(log, index, since)[i];
            && 0 < r.number <= |log| && r.event == log[r.number - 1]
            && r.event.ts == KeysFrom(index, since)[i] >= since
  {
    hide KeysFrom, RowsAgree;
    RowsInLog(log, index, KeysFrom(index, since)[i]);
  }

  lemma HistoryHas(log: seq<Event>, index: Index, since: nat, p: nat)
    requires IndexMatches(log, index) && InLog(log, index) && p < |log| && log[p].ts >= since
    ensures Record(p + 1, log[p]) in History(log, index, since)
  {
    var keys := KeysFrom(index, since);
    assert HasRow(log, index, p);
    KeyListed(index, since, log[p].ts);
    hide KeysFrom, IndexMatches;
    var i :| 0 <= i < |keys| && keys[i] == log[p].ts;
    assert History(log, index, since)[i] == Record(p + 1, log[p]);
  }

  /** The history is every record at or after the timestamp, once, in timestamp order, however the
      log is ordered. */
  lemma HistoryIsEveryRecord(log: seq<Event>, index: Index, since: nat)
    requires IndexMatches(log, index)
    ensures InLog(log, index)
    ensures var all := History(log, index, since);
            && (forall i, j :: 0 <= i < j < |all| ==> all[i].event.ts < all[j].event.ts)
            && (forall i :: 0 <= i < |all| ==>
                  0 < all[i].number <= |log| && all[i].event == log[all[i].number - 1] && all[i].event.ts >= since)
            && (forall p :: 0 <= p < |log| && log[p].ts >= since ==> Record(p + 1, log[p]) in all)
  {
    RowsInLog(log, index, 0);
    var all := History(log, index, since);
    hide History, KeysFrom, RowsAgree, InLog;
    forall i, j | 0 <= i < j < |all| ensures all[i].event.ts < all[j].event.ts {
      HistoryAt(log, index, since, i);
      HistoryAt(log, index, since, j);
    }
    forall i | 0 <= i < |all|
      ensures 0 < all[i].number <= |log| && all[i].event == log[all[i].number - 1] && all[i].event.ts >= since
    {
      HistoryAt(log, index, since, i);
    }
    forall p | 0 <= p < |log| && log[p].ts >= since ensures Record(p + 1, log[p]) in all {
      HistoryHas(log, index, since, p);
    }
  }

  /** A page of more than one record is within the byte budget, and a page stops early only when the
      next record would exceed a limit. */
  lemma PageWithinBudget(log: seq<Event>, index: Index, since: nat, limit: nat, maxBytes: nat)
    requires InLog(log, index)
    ensures var page, all := PageFrom(log, index, since, limit, maxBytes), History(log, index, since);
            && page.events <= all && |page.events| <= limit
            && (|page.events| > 1 ==> Bytes(page.events) <= maxBytes)
            && (page.exhausted <==> page.events == all)
            && (!page.exhausted && page.events != [] && |page.events| < limit ==>
                  Bytes(all[..|page.events| + 1]) > maxBytes)
  {
    var all := History(log, index, since);
    var events := Fit(all, limit, Some(maxBytes));
    hide Fit, KeysFrom;
    if |events| < |all| { FitIsLongest(all, limit, Some(maxBytes), |events| + 1); }
  }

  /** With a limit of zero a page holds nothing and leaves no cursor, so a reader would never end. */
  lemma ZeroLimitMakesNoProgress(log: seq<Event>, index: Index, since: nat, maxBytes: nat)
    requires InLog(log, index)
    ensures PageFrom(log, index, since, 0, maxBytes) == HistoryPage([], None, History(log, index, since) == [])
  {
    hide KeysFrom;
  }
}
