/** The event log's records and the bounded reads over them. */
module EventLog {
  import opened Wrappers

  const USIZE_MAX: nat := 0xFFFF_FFFF_FFFF_FFFF
  const U64_MAX: nat := 0xFFFF_FFFF_FFFF_FFFF

  /** The encoded size of an event. No encoding is empty. */
  type Size = n: nat | 0 < n witness 1

  /** An event as the store sees it. `id` and `data` identify it; `source` may change on redelivery. */
  datatype Event = Event(ts: nat, id: nat, data: nat, source: nat, size: Size)

  /** An event with its sequence number, counted from 1. */
  datatype Record = Record(number: nat, event: Event)

  function SaturatingAdd(a: nat, b: nat): nat {
    if a + b > USIZE_MAX then USIZE_MAX else a + b
  }

  function SaturatingSub(a: nat, b: nat): nat {
    if a < b then 0 else a - b
  }

  /** Every record from a sequence number on. Sequence 0 reads from the first record. */
  function ReadFrom(log: seq<Event>, from: nat): (rs: seq<Record>)
    ensures forall i :: 0 <= i < |rs| ==> rs[i].number == SaturatingSub(from, 1) + i + 1
    ensures forall i :: 0 <= i < |rs| ==> 0 < rs[i].number <= |log| && rs[i].event == log[rs[i].number - 1]
    ensures |rs| == SaturatingSub(|log|, SaturatingSub(from, 1))
  {
    var start := SaturatingSub(from, 1);
    seq(SaturatingSub(|log|, start), i requires 0 <= i < SaturatingSub(|log|, start) => Record(start + i + 1, log[start + i]))
  }

  lemma ReadOn(log: seq<Event>, from: nat, p: nat)
    requires p < |ReadFrom(log, from)|
    ensures ReadFrom(log, ReadFrom(log, from)[p].number + 1) == ReadFrom(log, from)[p + 1..]
  {}

  function Take<T>(xs: seq<T>, limit: nat): seq<T> {
    if limit < |xs| then xs[..limit] else xs
  }

  // ----- the longest prefix within limits -----

  function Bytes(rs: seq<Record>): nat {
    if rs == [] then 0 else Bytes(rs[..|rs| - 1]) + rs[|rs| - 1].event.size
  }

  /** At most `limit` records and, unless there is only one, at most `budget` bytes. */
  predicate Fits(rs: seq<Record>, limit: nat, budget: Option<nat>) {
    |rs| <= limit && (|rs| <= 1 || budget.None? || Bytes(rs) <= budget.value)
  }

  /** The longest prefix that fits. */
  function Fit(rs: seq<Record>, limit: nat, budget: Option<nat>): (r: seq<Record>)
    ensures r <= rs && Fits(r, limit, budget)
  {
    if rs == [] then []
    else
      var shorter := Fit(rs[..|rs| - 1], limit, budget);
      if shorter == rs[..|rs| - 1] && Fits(rs, limit, budget) then rs else shorter
  }

  lemma {:induction false} BytesGrow(rs: seq<Record>, i: nat)
    requires i <= |rs|
    ensures Bytes(rs[..i]) <= Bytes(rs)
    ensures i < |rs| ==> Bytes(rs[..i]) < Bytes(rs)
    decreases |rs|
  {
    if i < |rs| {
      BytesGrow(rs[..|rs| - 1], i);
      assert rs[..|rs| - 1][..i] == rs[..i];
    } else {
      assert rs[..i] == rs;
    }
  }

  lemma FitsShorter(rs: seq<Record>, i: nat, limit: nat, budget: Option<nat>)
    requires Fits(rs, limit, budget) && i <= |rs|
    ensures Fits(rs[..i], limit, budget)
  {
    BytesGrow(rs, i);
  }

  /** No longer prefix fits. */
  lemma {:induction false} FitIsLongest(rs: seq<Record>, limit: nat, budget: Option<nat>, i: nat)
    requires |Fit(rs, limit, budget)| < i <= |rs|
    ensures !Fits(rs[..i], limit, budget)
    decreases |rs|
  {
    var init := rs[..|rs| - 1];
    if i < |rs| {
      assert init[..i] == rs[..i];
      FitIsLongest(init, limit, budget, i);
    } else {
      assert rs[..i] == rs;
      if Fit(init, limit, budget) != init {
        FitIsLongest(init, limit, budget, |init|);
        assert init[..|init|] == init;
        if Fits(rs, limit, budget) { FitsShorter(rs, |init|, limit, budget); }
      }
    }
  }

  /** A prefix that fits and cannot grow by one record is the longest. */
  lemma FitFound(rs: seq<Record>, limit: nat, budget: Option<nat>, r: seq<Record>)
    requires r <= rs && Fits(r, limit, budget)
    requires r != rs ==> !Fits(rs[..|r| + 1], limit, budget)
    ensures Fit(rs, limit, budget) == r
  {
    var f := Fit(rs, limit, budget);
    if |f| < |r| {
      assert rs[..|r|] == r;
      FitIsLongest(rs, limit, budget, |r|);
    } else if |r| < |f| {
      assert f[..|r| + 1] == rs[..|r| + 1];
      FitsShorter(f, |r| + 1, limit, budget);
    }
  }

  /** The budget that a saturating byte counter enforces: the largest one never refuses. */
  function Enforced(maxBytes: nat): Option<nat> {
    if maxBytes >= USIZE_MAX then None else Some(maxBytes)
  }

  lemma BytesSnoc(rs: seq<Record>, r: Record)
    ensures Bytes(rs + [r]) == Bytes(rs) + r.event.size
  {
    assert (rs + [r])[..|rs|] == rs;
  }

  method ReadFromBoundedByBytes(log: seq<Event>, from: nat, limit: nat, maxBytes: nat) returns (records: seq<Record>)
    ensures records == Fit(ReadFrom(log, from), limit, Enforced(maxBytes))
  {
    ghost var all := ReadFrom(log, from);
    var read := Take(ReadFrom(log, from), limit);
    var bytes := 0;
    records := [];
    for i := 0 to |read|
      invariant records == all[..i] && Fits(records, limit, Enforced(maxBytes))
      invariant bytes == SaturatingAdd(0, Bytes(records))
    {
      BytesSnoc(records, read[i]);
      assert all[..i + 1] == records + [read[i]];
      if records != [] && SaturatingAdd(bytes, read[i].event.size) > maxBytes {
        FitFound(all, limit, Enforced(maxBytes), records);
        return;
      }
      bytes := SaturatingAdd(bytes, read[i].event.size);
      records := records + [read[i]];
    }
    assert records == read;
    FitFound(all, limit, Enforced(maxBytes), records);
  }
}
