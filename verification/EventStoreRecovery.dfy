/**
 Crashes and recovery of the event store. A run stores events, meets storage faults, crashes and
 restarts any number of times. A crash keeps at least the synced part of the log and any of the
 index's rows.
 */
module EventStoreRecovery {
  import opened Wrappers
  import opened EventLog
  import opened EventStore

  /** A store that failed to write stops until the process restarts. */
  datatype Mode = Running | Stopped | Down

  datatype State = State(contents: Contents, mode: Mode, acknowledged: seq<Record>)

  datatype Step =
    | Store(event: Event, fault: Fault)
    | Flush(fails: bool)
    | Crash(keep: nat, rows: map<nat, nat>)
    | Restart(failAt: Option<nat>)

  function Init(): State {
    State(Contents([], 0, map[], None), Running, [])
  }

  ghost predicate Enabled(s: State, step: Step) {
    match step
    case Store(_, _) => s.mode == Running && |s.contents.log| < U64_MAX - 1
    case Flush(_) => s.mode == Running
    case Crash(keep, rows) => s.contents.synced <= keep <= |s.contents.log| && Subset(rows, s.contents.index)
    case Restart(_) => s.mode == Down
  }

  ghost predicate Subset(rows: map<nat, nat>, index: map<nat, nat>) {
    forall ts :: ts in rows ==> ts in index && rows[ts] == index[ts]
  }

  function AfterStore(s: State, e: Event, fault: Fault): State {
    var (c, answer) := Stored(s.contents, e, fault);
    State(c, if answer.Err? then Stopped else s.mode,
          if answer.Ok? && answer.value.Some? then s.acknowledged + [answer.value.value] else s.acknowledged)
  }

  /** What is left on disk. A tail that survives without having been synced may still be lost in the
      next crash: opening the log does not sync it. */
  function AfterCrash(s: State, keep: nat, rows: map<nat, nat>): State
    requires keep <= |s.contents.log|
  {
    s.(contents := s.contents.(log := s.contents.log[..keep], index := rows, maxTimestamp := None), mode := Down)
  }

  /** The store opens the log and the index, and reconciles them. */
  function AfterRestart(s: State, failAt: Option<nat>): State {
    var c := s.contents;
    var n := Reached(failAt, |c.log|);
    s.(contents := c.(index := Filled(c.log[..n], c.index), maxTimestamp := Greatest(c.log[..n], None)),
       mode := if n == |c.log| then Running else Down)
  }

  function Apply(s: State, step: Step): State
    requires Enabled(s, step)
  {
    match step
    case Store(e, fault) => AfterStore(s, e, fault)
    case Flush(fails) =>
      if fails then s.(mode := Stopped) else s.(contents := s.contents.(synced := |s.contents.log|))
    case Crash(keep, rows) => AfterCrash(s, keep, rows)
    case Restart(failAt) => AfterRestart(s, failAt)
  }

  ghost predicate Runs(s: State, steps: seq<Step>, t: State)
    decreases |steps|
  {
    if steps == [] then s == t
    else Enabled(s, steps[0]) && Runs(Apply(s, steps[0]), steps[1..], t)
  }

  ghost predicate Reachable(s: State) {
    exists steps :: Runs(Init(), steps, s)
  }

  // ----- what filling in does -----

  predicate Kept(index: map<nat, nat>, filled: map<nat, nat>, ts: nat) {
    ts in index ==> ts in filled && filled[ts] == index[ts]
  }

  /** A row that filling in added is the log's. */
  predicate Added(log: seq<Event>, index: map<nat, nat>, filled: map<nat, nat>, ts: nat) {
    ts !in index ==> RowAgrees(log, |log|, filled, ts)
  }

  predicate Listed(log: seq<Event>, filled: map<nat, nat>, i: nat) {
    i < |log| && log[i].ts in filled
  }

  /** The rows that were there are kept, those added are the log's, and every event has one. */
  ghost predicate Fills(log: seq<Event>, index: map<nat, nat>, filled: map<nat, nat>) {
    && (forall ts :: Kept(index, filled, ts) && Added(log, index, filled, ts))
    && (forall i :: 0 <= i < |log| ==> Listed(log, filled, i))
  }

  lemma FillsNext(log: seq<Event>, index: map<nat, nat>, filled: map<nat, nat>, e: Event)
    requires Fills(log, index, filled)
    ensures Fills(log + [e], index, if e.ts in filled then filled else filled[e.ts := |log| + 1])
  {
    var log', full := log + [e], if e.ts in filled then filled else filled[e.ts := |log| + 1];
    forall ts ensures Kept(index, full, ts) && Added(log', index, full, ts) {
      assert Kept(index, filled, ts) && Added(log, index, filled, ts);
    }
    forall i | 0 <= i < |log'| ensures Listed(log', full, i) {
      assert i < |log| ==> Listed(log, filled, i);
    }
  }

  lemma {:induction false} FilledRows(log: seq<Event>, index: map<nat, nat>)
    ensures Fills(log, index, Filled(log, index))
  {
    hide Fills;
    if log == [] {
      FillsNone(index);
    } else {
      var init, last := log[..|log| - 1], log[|log| - 1];
      FilledRows(init, index);
      FillsNext(init, index, Filled(init, index), last);
      assert log == init + [last];
    }
  }

  lemma FillsNone(index: map<nat, nat>)
    ensures Fills([], index, index)
  {}

  lemma FillsExactly(log: seq<Event>, index: map<nat, nat>, filled: map<nat, nat>)
    requires TimestampsDistinct(log) && Fills(log, index, filled)
    ensures IndexMatches(log, filled) <==> RowsAgree(log, |log|, index)
  {
    if RowsAgree(log, |log|, index) {
      forall ts ensures RowAgrees(log, |log|, filled, ts) {
        assert Kept(index, filled, ts) && Added(log, index, filled, ts) && RowAgrees(log, |log|, index, ts);
      }
      forall i | 0 <= i < |log| ensures HasRow(log, filled, i) {
        assert Listed(log, filled, i) && RowAgrees(log, |log|, filled, log[i].ts);
      }
    } else if IndexMatches(log, filled) {
      forall ts ensures RowAgrees(log, |log|, index, ts) {
        assert Kept(index, filled, ts) && RowAgrees(log, |log|, filled, ts);
      }
    }
  }

  /** With distinct timestamps, filling in gives exactly the log's rows if and only if the rows that
      were there agree with the log. Reconciliation does not compare them. */
  lemma ReconcileExact(log: seq<Event>, index: map<nat, nat>)
    requires TimestampsDistinct(log)
    ensures IndexMatches(log, Filled(log, index)) <==> RowsAgree(log, |log|, index)
  {
    hide Fills, IndexMatches, RowsAgree;
    FilledRows(log, index);
    FillsExactly(log, index, Filled(log, index));
  }

  lemma FillsAgree(log: seq<Event>, n: nat, index: map<nat, nat>, filled: map<nat, nat>)
    requires n <= |log| && Fills(log[..n], index, filled) && RowsAgree(log, |log|, index)
    ensures RowsAgree(log, |log|, filled)
  {
    forall ts ensures RowAgrees(log, |log|, filled, ts) {
      assert Kept(index, filled, ts) && Added(log[..n], index, filled, ts) && RowAgrees(log, |log|, index, ts);
    }
  }

  lemma {:induction false} GreatestIsMax(log: seq<Event>)
    ensures IsGreatest(log, Greatest(log, None))
  {
    if log != [] {
      var init, last := log[..|log| - 1], log[|log| - 1];
      GreatestIsMax(init);
      var m := Greatest(log, None);
      if m.value == last.ts {
        assert log[|log| - 1].ts == m.value;
      } else {
        var i :| 0 <= i < |init| && init[i].ts == m.value;
        assert log[i].ts == m.value;
      }
    }
  }

  // ----- the invariant -----

  /** A logged event has some row. */
  ghost predicate AllListed(log: seq<Event>, index: map<nat, nat>) {
    forall i :: 0 <= i < |log| ==> Listed(log, index, i)
  }

  /** What every run keeps, whatever its crashes lose. */
  ghost predicate Inv(s: State) {
    && TimestampsDistinct(s.contents.log) && s.contents.synced <= |s.contents.log| < U64_MAX
    && (forall ts :: ts in s.contents.index ==> s.contents.index[ts] > 0)
    && (s.mode == Running ==> AllListed(s.contents.log, s.contents.index)
                              && s.contents.maxTimestamp == Greatest(s.contents.log, None))
    && (forall i :: 0 <= i < |s.acknowledged| ==>
          var r := s.acknowledged[i]; 0 < r.number <= s.contents.synced && s.contents.log[r.number - 1] == r.event)
  }

  /** What a run keeps while no crash keeps a row whose record it loses. */
  ghost predicate Sound(s: State) {
    RowsAgree(s.contents.log, |s.contents.log|, s.contents.index)
  }

  lemma RowsKept(log: seq<Event>, log': seq<Event>, index: map<nat, nat>, rows: map<nat, nat>)
    requires RowsAgree(log, |log|, index) && Subset(rows, index)
    requires forall i :: 0 <= i < |log| && i < |log'| ==> log'[i] == log[i]
    requires forall ts :: ts in rows ==> rows[ts] <= |log'|
    ensures RowsAgree(log', |log'|, rows)
  {
    forall ts ensures RowAgrees(log', |log'|, rows, ts) { assert RowAgrees(log, |log|, index, ts); }
  }

  lemma RowBounds(log: seq<Event>, index: map<nat, nat>)
    requires RowsAgree(log, |log|, index)
    ensures forall ts :: ts in index ==> 0 < index[ts] <= |log|
  {
    forall ts | ts in index ensures 0 < index[ts] <= |log| { assert RowAgrees(log, |log|, index, ts); }
  }

  lemma ListedSnoc(log: seq<Event>, index: map<nat, nat>, e: Event)
    requires AllListed(log, index) && TimestampsDistinct(log) && e.ts !in index
    ensures TimestampsDistinct(log + [e]) && AllListed(log + [e], index[e.ts := |log| + 1])
  {
    var log', index' := log + [e], index[e.ts := |log| + 1];
    forall i | 0 <= i < |log| ensures log[i].ts in index { assert Listed(log, index, i); }
    forall i | 0 <= i < |log'| ensures Listed(log', index', i) { assert i < |log| ==> log'[i] == log[i]; }
  }

  lemma AgreeSnoc(log: seq<Event>, index: map<nat, nat>, e: Event)
    requires RowsAgree(log, |log|, index)
    ensures RowsAgree(log + [e], |log| + 1, index) && RowsAgree(log + [e], |log| + 1, index[e.ts := |log| + 1])
  {
    var log', n, index' := log + [e], |log| + 1, index[e.ts := |log| + 1];
    forall ts ensures RowAgrees(log', n, index, ts) && RowAgrees(log', n, index', ts) {
      assert RowAgrees(log, |log|, index, ts);
    }
  }

  lemma SoundStore(s: State, e: Event, fault: Fault)
    requires Sound(s)
    ensures Sound(AfterStore(s, e, fault))
  {
    hide RowsAgree, Known, Max;
    AgreeSnoc(s.contents.log, s.contents.index, e);
  }

  lemma InvStoreNew(s: State, e: Event, fault: Fault)
    requires Inv(s) && Enabled(s, Store(e, fault)) && e.ts !in s.contents.index && fault != IndexReadFails
    ensures Inv(AfterStore(s, e, fault))
  {
    hide AllListed, TimestampsDistinct, Known, Max;
    ListedSnoc(s.contents.log, s.contents.index, e);
  }

  lemma InvStore(s: State, e: Event, fault: Fault)
    requires Inv(s) && Enabled(s, Store(e, fault))
    ensures Inv(AfterStore(s, e, fault))
    ensures Sound(s) ==> Sound(AfterStore(s, e, fault))
  {
    hide RowsAgree, AllListed, TimestampsDistinct, Known, Max;
    if Sound(s) { SoundStore(s, e, fault); }
    if e.ts !in s.contents.index && fault != IndexReadFails {
      InvStoreNew(s, e, fault);
    } else {
      hide Greatest;
      assert AfterStore(s, e, fault).contents == s.contents && AfterStore(s, e, fault).acknowledged <= s.acknowledged;
    }
  }

  /** No row outlives its record. */
  ghost predicate KeepsRecords(step: Step) {
    step.Crash? ==> forall ts :: ts in step.rows ==> step.rows[ts] <= step.keep
  }

  lemma InvCrash(s: State, keep: nat, rows: map<nat, nat>)
    requires Inv(s) && Enabled(s, Crash(keep, rows))
    ensures Inv(AfterCrash(s, keep, rows))
    ensures Sound(s) ==> (Sound(AfterCrash(s, keep, rows)) <==> KeepsRecords(Crash(keep, rows)))
  {
    hide RowsAgree;
    var c, t := s.contents, AfterCrash(s, keep, rows);
    if Sound(s) && KeepsRecords(Crash(keep, rows)) { RowsKept(c.log, t.contents.log, c.index, rows); }
    if Sound(t) { RowBounds(t.contents.log, rows); }
  }

  lemma FilledPositive(log: seq<Event>, index: map<nat, nat>, filled: map<nat, nat>)
    requires Fills(log, index, filled) && forall ts :: ts in index ==> index[ts] > 0
    ensures forall ts :: ts in filled ==> filled[ts] > 0
  {
    forall ts | ts in filled ensures filled[ts] > 0 {
      assert Kept(index, filled, ts) && Added(log, index, filled, ts);
    }
  }

  lemma InvRestart(s: State, failAt: Option<nat>)
    requires Inv(s) && Enabled(s, Restart(failAt))
    ensures Inv(AfterRestart(s, failAt))
    ensures Sound(s) ==> Sound(AfterRestart(s, failAt))
  {
    var c, n := s.contents, Reached(failAt, |s.contents.log|);
    assert c.log[..|c.log|] == c.log;
    FilledRows(c.log[..n], c.index);
    FilledPositive(c.log[..n], c.index, Filled(c.log[..n], c.index));
    hide RowsAgree, RowAgrees, Kept, Added;
    if Sound(s) { FillsAgree(c.log, n, c.index, Filled(c.log[..n], c.index)); }
  }

  /** Distinct timestamps, a complete index while running, the greatest timestamp and every
      acknowledged event are kept by every step; that rows agree with the log is kept by every step
      but a crash that keeps a row and loses its record. */
  lemma InvStep(s: State, step: Step)
    requires Inv(s) && Enabled(s, step)
    ensures Inv(Apply(s, step))
    ensures Sound(s) ==> (Sound(Apply(s, step)) <==> KeepsRecords(step))
  {
    hide AfterStore, AfterCrash, AfterRestart, RowsAgree;
    match step
    case Store(e, fault) => InvStore(s, e, fault);
    case Flush(fails) =>
    case Crash(keep, rows) => InvCrash(s, keep, rows);
    case Restart(failAt) => InvRestart(s, failAt);
  }

  lemma {:induction false} InvRuns(s: State, steps: seq<Step>, t: State)
    requires Inv(s) && Runs(s, steps, t)
    ensures Inv(t)
    decreases |steps|
  {
    hide Inv, Apply, Enabled;
    if steps != [] {
      InvStep(s, steps[0]);
      InvRuns(Apply(s, steps[0]), steps[1..], t);
    }
  }

  lemma InvReachable(s: State)
    requires Reachable(s)
    ensures Inv(s)
  {
    var steps :| Runs(Init(), steps, s);
    InvRuns(Init(), steps, s);
  }

  // ----- what recovery promises -----

  ghost predicate Exact(c: Contents) {
    IndexMatches(c.log, c.index) && IsGreatest(c.log, c.maxTimestamp)
  }

  /** The store is exact, or will be once it is up again. */
  ghost predicate ExactWhenUp(s: State) {
    match s.mode
    case Running => Exact(s.contents)
    case Stopped => true
    case Down => Exact(AfterRestart(s, None).contents)
  }

  ghost predicate AlwaysExact(s: State, steps: seq<Step>)
    decreases |steps|
  {
    ExactWhenUp(s) && (steps != [] ==> Enabled(s, steps[0]) && AlwaysExact(Apply(s, steps[0]), steps[1..]))
  }

  lemma ExactIffSound(s: State)
    requires Inv(s) && s.mode != Stopped
    ensures ExactWhenUp(s) <==> Sound(s)
  {
    var c := s.contents;
    GreatestIsMax(c.log);
    if s.mode == Running {
      forall i | 0 <= i < |c.log| && Sound(s) ensures HasRow(c.log, c.index, i) {
        assert Listed(c.log, c.index, i) && RowAgrees(c.log, |c.log|, c.index, c.log[i].ts);
      }
    } else {
      assert c.log[..|c.log|] == c.log;
      ReconcileExact(c.log, c.index);
    }
  }

  lemma {:induction false} ExactRuns(s: State, steps: seq<Step>, t: State)
    requires Inv(s) && Sound(s) && Runs(s, steps, t)
    ensures AlwaysExact(s, steps) <==> forall i :: 0 <= i < |steps| ==> KeepsRecords(steps[i])
    decreases |steps|
  {
    hide Inv, Sound, ExactWhenUp, Apply, Enabled, KeepsRecords;
    ExactHere(s);
    if steps != [] {
      var m, rest := Apply(s, steps[0]), steps[1..];
      InvStep(s, steps[0]);
      if KeepsRecords(steps[0]) {
        ExactRuns(m, rest, t);
        assert forall i :: 0 <= i < |rest| ==> rest[i] == steps[i + 1];
        assert forall i :: 1 <= i < |steps| ==> steps[i] == rest[i - 1];
      } else {
        OnlyCrashLoses(s, steps[0]);
        ExactIffSound(m);
      }
    }
  }

  lemma ExactHere(s: State)
    requires Inv(s) && Sound(s)
    ensures ExactWhenUp(s)
  {
    if s.mode != Stopped { ExactIffSound(s); }
  }

  lemma OnlyCrashLoses(s: State, step: Step)
    requires Enabled(s, step) && !KeepsRecords(step)
    ensures Apply(s, step).mode == Down
  {}

  /** In every state of a run the store is exact, or will be once it is up again, if and only if no
      crash of the run keeps a row and loses its record. */
  lemma RunsExactIffRecordsKept(steps: seq<Step>, t: State)
    requires Runs(Init(), steps, t)
    ensures AlwaysExact(Init(), steps) <==> forall i :: 0 <= i < |steps| ==> KeepsRecords(steps[i])
  {
    ExactRuns(Init(), steps, t);
  }

  /** A state that is reached while no crash keeps a row and loses its record. */
  ghost predicate ReachableKeeping(s: State) {
    exists steps :: Runs(Init(), steps, s) && forall i :: 0 <= i < |steps| ==> KeepsRecords(steps[i])
  }

  lemma {:induction false} SoundRuns(s: State, steps: seq<Step>, t: State)
    requires Inv(s) && Sound(s) && Runs(s, steps, t) && forall i :: 0 <= i < |steps| ==> KeepsRecords(steps[i])
    ensures Sound(t)
    decreases |steps|
  {
    hide Inv, Sound, Apply, Enabled, KeepsRecords;
    if steps != [] {
      InvStep(s, steps[0]);
      SoundRuns(Apply(s, steps[0]), steps[1..], t);
    }
  }

  /** Its index is the log's, and its greatest timestamp is the true one. */
  lemma RunningStoreIsExact(s: State)
    requires ReachableKeeping(s) && s.mode == Running
    ensures Exact(s.contents)
  {
    var steps :| Runs(Init(), steps, s) && forall i :: 0 <= i < |steps| ==> KeepsRecords(steps[i]);
    InvRuns(Init(), steps, s);
    SoundRuns(Init(), steps, s);
    ExactIffSound(s);
  }

  /** No crash in a state loses a record and keeps its row if and only if every row's record is synced.
      Storing syncs before it adds a row; reconciliation does not. */
  lemma CrashesKeepIffSynced(s: State)
    requires Reachable(s)
    ensures (forall keep, rows :: Enabled(s, Crash(keep, rows)) ==> KeepsRecords(Crash(keep, rows)))
            <==> forall ts :: ts in s.contents.index ==> s.contents.index[ts] <= s.contents.synced
  {
    InvReachable(s);
    var c := s.contents;
    if ts :| ts in c.index && c.index[ts] > c.synced {
      assert Enabled(s, Crash(c.synced, c.index)) && !KeepsRecords(Crash(c.synced, c.index));
    }
  }

  /** A store with at most the event in its log and its row in the index. */
  function Tail(log: seq<Event>, index: map<nat, nat>, max: Option<nat>, mode: Mode): State {
    State(Contents(log, 0, index, max), mode, [])
  }

  lemma TailAppended(e: Event)
    ensures Enabled(Init(), Store(e, SyncFails)) && Apply(Init(), Store(e, SyncFails)) == Tail([e], map[], None, Stopped)
  {
    assert [] + [e] == [e];
  }

  lemma TailSurvives(e: Event)
    ensures var s := Tail([e], map[], None, Stopped);
            Enabled(s, Crash(1, map[])) && Apply(s, Crash(1, map[])) == Tail([e], map[], None, Down)
  {
    assert [e][..1] == [e];
  }

  lemma TailIndexed(e: Event)
    ensures var s := Tail([e], map[], None, Down);
            Enabled(s, Restart(None)) && Apply(s, Restart(None)) == Tail([e], map[e.ts := 1], Some(e.ts), Running)
  {
    FirstRow(e);
    hide Filled, Greatest;
  }

  lemma TailDropped(e: Event)
    ensures var s, crash := Tail([e], map[e.ts := 1], Some(e.ts), Running), Crash(0, map[e.ts := 1]);
            Enabled(s, crash) && Apply(s, crash) == Tail([], map[e.ts := 1], None, Down)
  {
    assert [e][..0] == [];
  }

  lemma RowRemains(e: Event)
    ensures var s := Tail([], map[e.ts := 1], None, Down);
            Enabled(s, Restart(None)) && Apply(s, Restart(None)) == Tail([], map[e.ts := 1], None, Running)
  {
    var none: seq<Event> := [];
    assert none[..0] == [];
  }

  /** The run in which recovery is not exact: an event is appended and not synced, survives one crash
      in a cache, gets its row from reconciliation, and is lost in the next crash, which keeps the row.
      The store then runs with a row of an empty log, and refuses the event as a missing record. */
  lemma RecoveredTailIsLost(e: Event)
    ensures var steps := [Store(e, SyncFails), Crash(1, map[]), Restart(None), Crash(0, map[e.ts := 1]), Restart(None)];
            var t := Tail([], map[e.ts := 1], None, Running);
            && Runs(Init(), steps, t) && !IndexMatches(t.contents.log, t.contents.index)
            && Stored(t.contents, e, Fine).1 == Err(MissingRecord)
  {
    TailAppended(e);
    TailSurvives(e);
    TailIndexed(e);
    TailDropped(e);
    RowRemains(e);
    var t := Tail([], map[e.ts := 1], None, Running);
    assert !RowAgrees(t.contents.log, 0, t.contents.index, e.ts);
    assert Stored(t.contents, e, Fine).1 == Err(MissingRecord);
    hide Apply, Enabled, Init, Tail, Stored;
    var a, b, c, d := Store(e, SyncFails), Crash(1, map[]), Restart(None), Crash(0, map[e.ts := 1]);
    RunsSnoc(Init(), [], Init(), a);
    RunsSnoc(Init(), [a], Tail([e], map[], None, Stopped), b);
    assert [] + [a] == [a] && [a] + [b] == [a, b];
    RunsSnoc(Init(), [a, b], Tail([e], map[], None, Down), c);
    assert [a, b] + [c] == [a, b, c];
    RunsSnoc(Init(), [a, b, c], Tail([e], map[e.ts := 1], Some(e.ts), Running), d);
    assert [a, b, c] + [d] == [a, b, c, d];
    RunsSnoc(Init(), [a, b, c, d], Tail([], map[e.ts := 1], None, Down), c);
    assert [a, b, c, d] + [c] == [a, b, c, d, c];
  }

  lemma FirstRow(e: Event)
    ensures Filled([e][..1], map[]) == map[e.ts := 1] && Greatest([e][..1], None) == Some(e.ts)
  {
    assert [e][..1] == [e] && [e][..0] == [];
    assert Filled([e][..0], map[]) == map[] && Greatest([e][..0], None) == None;
  }

  lemma {:induction false} RunsSnoc(s: State, steps: seq<Step>, t: State, step: Step)
    requires Runs(s, steps, t) && Enabled(t, step)
    ensures Runs(s, steps + [step], Apply(t, step))
    decreases |steps|
  {
    hide Enabled, Apply;
    if steps == [] {
      assert steps + [step] == [step] && [step][1..] == [];
    } else {
      RunsSnoc(Apply(s, steps[0]), steps[1..], t, step);
      assert (steps + [step])[0] == steps[0] && (steps + [step])[1..] == steps[1..] + [step];
    }
  }

  /** An acknowledged event keeps its sequence number and content through every later fault, crash and
      restart, whatever the crashes lose beyond what was synced. */
  lemma AcknowledgedSurvives(s: State, steps: seq<Step>, t: State, r: Record)
    requires Reachable(s) && Runs(s, steps, t) && r in s.acknowledged
    ensures 0 < r.number <= |t.contents.log| && t.contents.log[r.number - 1] == r.event
  {
    InvReachable(s);
    InvRuns(s, steps, t);
    AcknowledgedGrows(s, steps, t);
  }

  lemma SyncedStep(s: State, step: Step)
    requires Inv(s) && Enabled(s, step)
    ensures var c, d := s.contents, Apply(s, step).contents;
            c.synced <= |c.log| && c.synced <= d.synced <= |d.log| && c.log[..c.synced] <= d.log
  {
    hide Filled, Greatest, Known;
  }

  /** What is synced stays synced and in place. */
  lemma {:induction false} SyncedSurvives(s: State, steps: seq<Step>, t: State)
    requires Inv(s) && Runs(s, steps, t)
    ensures var c, d := s.contents, t.contents;
            c.synced <= |c.log| && c.synced <= d.synced <= |d.log| && c.log[..c.synced] <= d.log
    decreases |steps|
  {
    hide Inv, Apply, Enabled;
    if steps == [] {
      assert s.contents.synced <= |s.contents.log| by { InvSynced(s); }
    } else {
      var m := Apply(s, steps[0]);
      SyncedStep(s, steps[0]);
      InvStep(s, steps[0]);
      SyncedSurvives(m, steps[1..], t);
      PrefixOn(s.contents.log, s.contents.synced, m.contents.log, m.contents.synced, t.contents.log);
    }
  }

  lemma InvSynced(s: State)
    requires Inv(s)
    ensures s.contents.synced <= |s.contents.log|
  {}

  lemma PrefixOn(a: seq<Event>, n: nat, b: seq<Event>, m: nat, c: seq<Event>)
    requires n <= |a| && n <= m <= |b| && m <= |c| && a[..n] <= b && b[..m] <= c
    ensures a[..n] <= c
  {
    assert a[..n] <= b[..m];
  }

  /** An event that storing answered with a sequence number is there in every continuation, through
      faults, crashes and restarts. */
  lemma StoredSurvives(s: State, e: Event, fault: Fault, steps: seq<Step>, t: State)
    requires Reachable(s) && Enabled(s, Store(e, fault)) && Runs(Apply(s, Store(e, fault)), steps, t)
    ensures var answer := Stored(s.contents, e, fault).1;
            answer.Ok? && answer.value.Some? ==>
              && answer.value.value == Record(|s.contents.log| + 1, e)
              && |s.contents.log| < |t.contents.log| && t.contents.log[|s.contents.log|] == e
              && answer.value.value in t.acknowledged
  {
    InvReachable(s);
    var m := Apply(s, Store(e, fault));
    InvStep(s, Store(e, fault));
    SyncedSurvives(m, steps, t);
    AcknowledgedGrows(m, steps, t);
    hide Inv, Known;
    var answer := Stored(s.contents, e, fault).1;
    if answer.Ok? && answer.value.Some? {
      assert m.contents.log == s.contents.log + [e] && m.contents.synced == |m.contents.log|;
      assert m.contents.log[..m.contents.synced][|s.contents.log|] == e;
      assert m.acknowledged[|s.acknowledged|] == answer.value.value;
    }
  }

  /** Everything that is in the log when a flush succeeds is there in every continuation. */
  lemma FlushedSurvives(s: State, steps: seq<Step>, t: State)
    requires Reachable(s) && Enabled(s, Flush(false)) && Runs(Apply(s, Flush(false)), steps, t)
    ensures s.contents.log <= t.contents.log
  {
    InvReachable(s);
    InvStep(s, Flush(false));
    SyncedSurvives(Apply(s, Flush(false)), steps, t);
    assert s.contents.log[..|s.contents.log|] == s.contents.log;
  }

  /** The store stops at a storage failure: the write or flush failed, or the event could not be stored. */
  ghost predicate StopsAt(s: State, step: Step)
    requires Enabled(s, step)
  {
    match step
    case Store(e, fault) => Stored(s.contents, e, fault).1.Err?
    case Flush(fails) => fails
    case _ => false
  }

  /** After a failure nothing is added to the log until the process restarts. */
  lemma FailureStopsTheStore(s: State, step: Step, steps: seq<Step>, t: State)
    requires Enabled(s, step) && StopsAt(s, step) && Runs(Apply(s, step), steps, t)
    requires forall i :: 0 <= i < |steps| ==> !steps[i].Restart?
    ensures t.contents.log <= Apply(s, step).contents.log && t.mode != Running
  {
    assert s.mode == Running;
    AnswersKeepRunning(s, step);
    hide Stored, Apply;
    StoppedRuns(Apply(s, step), steps, t);
  }

  lemma {:induction false} StoppedRuns(s: State, steps: seq<Step>, t: State)
    requires s.mode != Running && Runs(s, steps, t) && forall i :: 0 <= i < |steps| ==> !steps[i].Restart?
    ensures t.contents.log <= s.contents.log && t.mode != Running
    decreases |steps|
  {
    if steps != [] { StoppedRuns(Apply(s, steps[0]), steps[1..], t); }
  }

  /** A store that answers, with or without a record, goes on. */
  lemma AnswersKeepRunning(s: State, step: Step)
    requires Enabled(s, step) && s.mode == Running && (step.Store? || step.Flush?)
    ensures Apply(s, step).mode == Running <==> !StopsAt(s, step)
  {
    hide Stored;
  }

  lemma {:induction false} AcknowledgedGrows(s: State, steps: seq<Step>, t: State)
    requires Runs(s, steps, t)
    ensures s.acknowledged <= t.acknowledged
    decreases |steps|
  {
    hide Stored, Filled, Greatest;
    if steps != [] { AcknowledgedGrows(Apply(s, steps[0]), steps[1..], t); }
  }

  /** What storing answers while nothing fails, in every reachable state in which the event's row, if
      there is one, agrees with the log: a new timestamp is stored next, a known one is the same event
      or a collision, and the index is never found corrupt. */
  lemma StoreAnswers(s: State, e: Event)
    requires Reachable(s) && s.mode == Running && RowAgrees(s.contents.log, |s.contents.log|, s.contents.index, e.ts)
    ensures var (c, answer) := Stored(s.contents, e, Fine);
            var log := s.contents.log;
            && (answer == Ok(Some(Record(|log| + 1, e))) <==> forall i :: 0 <= i < |log| ==> log[i].ts != e.ts)
            && (answer == Ok(None) <==>
                  exists i :: 0 <= i < |log| && log[i].ts == e.ts && log[i].id == e.id && log[i].data == e.data)
            && (answer == Err(Collision) <==>
                  exists i :: 0 <= i < |log| && log[i].ts == e.ts && (log[i].id != e.id || log[i].data != e.data))
            && (answer.Err? ==> answer == Err(Collision))
  {
    InvReachable(s);
    var log, index := s.contents.log, s.contents.index;
    forall i | 0 <= i < |log| && log[i].ts == e.ts ensures e.ts in index && index[e.ts] == i + 1 {
      assert Listed(log, index, i);
    }
    hide Inv, Known, Max;
    if e.ts in index { KnownAnswers(s.contents, e); }
  }

  /** While no crash keeps a row and loses its record, that is every event. */
  lemma StoreAnswersEveryEvent(s: State, e: Event)
    requires ReachableKeeping(s) && s.mode == Running
    ensures Reachable(s) && RowAgrees(s.contents.log, |s.contents.log|, s.contents.index, e.ts)
  {
    RunningStoreIsExact(s);
    var steps :| Runs(Init(), steps, s) && forall i :: 0 <= i < |steps| ==> KeepsRecords(steps[i]);
  }

  /** In every reachable state, storing answers that a record is missing exactly when the event's row
      outlived its record, and never that the log gave back another sequence number. */
  lemma MissingIffOutlived(s: State, e: Event)
    requires Reachable(s)
    ensures var answer, index := Stored(s.contents, e, Fine).1, s.contents.index;
            && (answer == Err(MissingRecord) <==> e.ts in index && index[e.ts] > |s.contents.log|)
            && answer != Err(WrongRecord)
  {
    InvReachable(s);
    hide Inv, Max;
  }

  lemma KnownAnswers(c: Contents, e: Event)
    requires e.ts in c.index && RowAgrees(c.log, |c.log|, c.index, e.ts)
    ensures var first := c.log[c.index[e.ts] - 1];
            Known(c, e, c.index[e.ts]) ==
            if first.id == e.id && first.data == e.data then Ok(None) else Err(Collision)
  {
    var n := c.index[e.ts];
    assert Take(ReadFrom(c.log, n), 1) == [Record(n, c.log[n - 1])];
  }

  /** A crash that keeps the log up to `keep` and every index row, followed by a restart. */
  function Recovered(c: Contents, keep: nat): map<nat, nat>
    requires keep <= |c.log|
  {
    Filled(c.log[..keep], c.index)
  }

  /** Recovery from the next crash is exact, whatever that crash keeps of the log, if and only if the
      whole log is synced: a row must not outlive its record. */
  lemma NextRecoveryIsExact(c: Contents)
    requires TimestampsDistinct(c.log) && c.synced <= |c.log| && IndexMatches(c.log, c.index)
    ensures (forall keep :: c.synced <= keep <= |c.log| ==> IndexMatches(c.log[..keep], Recovered(c, keep)))
            <==> c.synced == |c.log|
  {
    hide Filled;
    ReconcileExact(c.log, c.index);
    if c.synced == |c.log| {
      assert c.log[..|c.log|] == c.log;
    } else {
      var kept := c.log[..c.synced];
      ReconcileExact(kept, c.index);
      assert HasRow(c.log, c.index, |c.log| - 1);
      assert !RowAgrees(kept, |kept|, c.index, c.log[|c.log| - 1].ts);
      assert !RowsAgree(kept, |kept|, c.index);
      assert !IndexMatches(c.log[..c.synced], Recovered(c, c.synced));
    }
  }
}
