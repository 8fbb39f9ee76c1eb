/** Correlation ids across boots of a node: a counter per process and a durable reservation. */
module CorrelationId {
  import opened Wrappers

  const RESERVATION: nat := 0x1_0000_0000
  const USIZE: nat := 0x1_0000_0000_0000_0000

  /** An issued id, the boot that issued it, and whether that boot had reserved its ids by then. */
  datatype Issue = Issue(boot: nat, id: nat, reserved: bool)

  /** The running process: its counter and whether it reserved its ids. The recorded reservation and the
      history outlive it. */
  datatype State = State(
    boot: nat, next: nat, reserved: bool,
    recorded: Option<nat>,
    issued: seq<Issue>,
    completed: set<nat>)   // the boots whose reservation completed

  datatype Step =
    | Boot(micros: Option<nat>)
    | New
    | Reserve(completes: bool)

  /** The clock seed: the time in microseconds if it fits, and never zero. */
  function Seed(micros: Option<nat>): (n: nat)
    ensures 0 < n < USIZE
    ensures micros.Some? && 0 < micros.value < 0x1_0000_0000_0000_0000 ==> n == micros.value
    ensures micros.None? || micros == Some(0) ==> n == 1
    ensures micros.Some? && micros.value >= 0x1_0000_0000_0000_0000 ==> 2 * n + 1 == 0xFFFF_FFFF_FFFF_FFFF
  {
    var m := if micros.None? then 0 else if micros.value < USIZE then micros.value else (USIZE - 1) / 2;
    if m == 0 then 1 else m
  }

  function Init(micros: Option<nat>): State {
    State(0, Seed(micros), false, None, [], {})
  }

  function SaturatingAdd(a: nat, b: nat): nat {
    if a + b < USIZE then a + b else USIZE - 1
  }

  function Raised(next: nat, recorded: Option<nat>): nat {
    if recorded.Some? && recorded.value > next then recorded.value else next
  }

  function Apply(s: State, step: Step): State {
    match step
    case Boot(micros) => s.(boot := s.boot + 1, next := Seed(micros), reserved := false)
    case New =>
      s.(next := (s.next + 1) % USIZE,
         issued := s.issued + [Issue(s.boot, s.next, s.reserved)])
    case Reserve(completes) =>
      var next := Raised(s.next, s.recorded);
      if completes
      then s.(next := next, reserved := true,
              recorded := Some(SaturatingAdd(next, RESERVATION)), completed := s.completed + {s.boot})
      else s.(next := next)
  }

  /** A node's counter and its reservation file. The ghost fields remember what was issued. */
  class CorrelationIds {
    var next: nat
    var recorded: Option<nat>
    ghost var boot: nat
    ghost var reserved: bool
    ghost var issued: seq<Issue>
    ghost var completed: set<nat>

    ghost function View(): State
      reads this
    {
      State(boot, next, reserved, recorded, issued, completed)
    }

    constructor (micros: Option<nat>)
      ensures View() == Init(micros)
    {
      next := Seed(micros);
      recorded := None;
      boot, reserved, issued, completed := 0, false, [], {};
    }

    method New() returns (id: nat)
      modifies this
      ensures View() == Apply(old(View()), Step.New) && id == old(next)
    {
      id := next;
      next := (next + 1) % USIZE;
      issued := issued + [Issue(boot, id, reserved)];
    }

    /** Raises the counter to the recorded reservation and records one above it. `completes` says
        whether the record became durable. */
    method ReserveCorrelationIds(completes: bool) returns (r: Result<(), ()>)
      modifies this
      ensures View() == Apply(old(View()), Reserve(completes)) && r.Ok? == completes
      ensures var floor := if old(recorded).Some? then old(recorded).value else 0;
              && next == (if floor > old(next) then floor else old(next))
              && recorded == if !completes then old(recorded)
                             else if next + 0x1_0000_0000 <= 0xFFFF_FFFF_FFFF_FFFF then Some(next + 0x1_0000_0000)
                             else Some(0xFFFF_FFFF_FFFF_FFFF)
    {
      var floor := if recorded.Some? then recorded.value else 0;
      if floor > next { next := floor; }
      var reservation := SaturatingAdd(next, RESERVATION);
      if !completes { return Err(()); }
      recorded := Some(reservation);
      reserved, completed := true, completed + {boot};
      r := Ok(());
    }
  }

  /** No counter runs over, and a boot that reserved stays below its recorded reservation. It may
      reserve any number of times. */
  predicate Within(s: State, step: Step) {
    match step
    case Boot(_) => true
    case New => s.next + 1 < USIZE && (s.reserved ==> s.recorded.Some? && s.next < s.recorded.value)
    case Reserve(completes) => completes ==> Raised(s.next, s.recorded) + RESERVATION < USIZE
  }

  ghost predicate Runs(s: State, steps: seq<Step>, t: State)
    decreases |steps|
  {
    if steps == [] then s == t
    else Within(s, steps[0]) && Runs(Apply(s, steps[0]), steps[1..], t)
  }

  /** The ids of boots that reserved are below the recorded reservation, those of the running boot
      below its counter, ids after a reservation above those of earlier reserved boots, and ids of one
      boot ascending. */
  ghost predicate Inv(s: State) {
    && (forall k :: 0 <= k < |s.issued| ==> Accounted(s, s.issued[k]))
    && (s.completed != {} ==> s.recorded.Some?)
    && (s.reserved <==> s.boot in s.completed)
    && (s.reserved ==> s.recorded.Some? && s.next <= s.recorded.value)
    && (forall b :: b in s.completed ==> b <= s.boot)
    && (forall j, k :: 0 <= j < |s.issued| && 0 <= k < |s.issued| ==> Ordered(s, s.issued[j], s.issued[k]))
    && (forall j, k :: 0 <= j < k < |s.issued| && s.issued[j].boot == s.issued[k].boot ==> s.issued[j].id < s.issued[k].id)
  }

  predicate Accounted(s: State, x: Issue) {
    && x.boot <= s.boot
    && (x.boot in s.completed ==> s.recorded.Some? && x.id < s.recorded.value)
    && (x.boot == s.boot ==> x.id < s.next)
    && (x.reserved ==> x.boot in s.completed)
  }

  /** An id issued after a reservation exceeds those of earlier boots that reserved. */
  predicate Ordered(s: State, x: Issue, y: Issue) {
    x.boot < y.boot && x.boot in s.completed && y.reserved ==> x.id < y.id
  }

  /** While the running boot is reserved, its counter is at or above every earlier reserved boot. */
  ghost predicate Floor(s: State) {
    s.reserved ==> forall k :: 0 <= k < |s.issued| && s.issued[k].boot < s.boot && s.issued[k].boot in s.completed ==>
      s.issued[k].id < s.next
  }

  lemma InvNew(s: State)
    requires Inv(s) && Floor(s) && Within(s, New)
    ensures Inv(Apply(s, New)) && Floor(Apply(s, New))
  {
    var t := Apply(s, New);
    forall k | 0 <= k < |t.issued| ensures Accounted(t, t.issued[k]) {
      assert k < |s.issued| ==> Accounted(s, s.issued[k]);
    }
    forall j, k | 0 <= j < |t.issued| && 0 <= k < |t.issued| ensures Ordered(t, t.issued[j], t.issued[k]) {
      assert j < |s.issued| && k < |s.issued| ==> Ordered(s, s.issued[j], s.issued[k]);
      assert k < |s.issued| ==> Accounted(s, s.issued[k]);
    }
    assert forall k :: 0 <= k < |s.issued| ==> Accounted(s, s.issued[k]);
  }

  lemma InvReserve(s: State, completes: bool)
    requires Inv(s) && Floor(s) && Within(s, Reserve(completes))
    ensures Inv(Apply(s, Reserve(completes))) && Floor(Apply(s, Reserve(completes)))
  {
    var t := Apply(s, Reserve(completes));
    forall k | 0 <= k < |t.issued| ensures Accounted(t, t.issued[k]) { assert Accounted(s, s.issued[k]); }
    forall j, k | 0 <= j < |t.issued| && 0 <= k < |t.issued| ensures Ordered(t, t.issued[j], t.issued[k]) {
      assert Ordered(s, s.issued[j], s.issued[k]);
      assert Accounted(s, s.issued[j]) && Accounted(s, s.issued[k]);
    }
  }

  lemma InvBoot(s: State, micros: Option<nat>)
    requires Inv(s) && Floor(s)
    ensures Inv(Apply(s, Boot(micros))) && Floor(Apply(s, Boot(micros)))
  {
    var t := Apply(s, Boot(micros));
    forall k | 0 <= k < |t.issued| ensures Accounted(t, t.issued[k]) { assert Accounted(s, s.issued[k]); }
    forall j, k | 0 <= j < |t.issued| && 0 <= k < |t.issued| ensures Ordered(t, t.issued[j], t.issued[k]) {
      assert Ordered(s, s.issued[j], s.issued[k]);
    }
  }

  lemma {:induction false} InvRuns(s: State, steps: seq<Step>, t: State)
    requires Inv(s) && Floor(s) && Runs(s, steps, t)
    ensures Inv(t) && Floor(t)
    decreases |steps|
  {
    hide Inv, Floor, Apply, Within;
    if steps != [] {
      match steps[0] {
        case Boot(micros) => InvBoot(s, micros);
        case New => InvNew(s);
        case Reserve(completes) => InvReserve(s, completes);
      }
      InvRuns(Apply(s, steps[0]), steps[1..], t);
    }
  }

  /** Whatever the clock says at each boot, an id that was issued after a reservation exceeds every id
      of every earlier boot whose reservation completed. */
  lemma IdsExceedEarlierBoots(micros: Option<nat>, steps: seq<Step>, t: State, j: nat, k: nat)
    requires Runs(Init(micros), steps, t) && j < |t.issued| && k < |t.issued|
    requires t.issued[j].boot < t.issued[k].boot && t.issued[j].boot in t.completed && t.issued[k].reserved
    ensures t.issued[j].id < t.issued[k].id
  {
    InvRuns(Init(micros), steps, t);
    assert Ordered(t, t.issued[j], t.issued[k]);
  }

  /** Within a boot ids increase. */
  lemma IdsIncreaseWithinBoot(micros: Option<nat>, steps: seq<Step>, t: State, j: nat, k: nat)
    requires Runs(Init(micros), steps, t) && j < k < |t.issued| && t.issued[j].boot == t.issued[k].boot
    ensures t.issued[j].id < t.issued[k].id
  {
    InvRuns(Init(micros), steps, t);
  }

  // ----- the reservation is exact -----

  /** `n` ids in a row. */
  function IssueMany(s: State, n: nat): State {
    if n == 0 then s else Apply(IssueMany(s, n - 1), New)
  }

  lemma {:induction false} IssueManyRuns(s: State, n: nat)
    requires s.next + n < USIZE
    ensures var t := IssueMany(s, n);
            && t.next == s.next + n && t.boot == s.boot && t.reserved == s.reserved && t.recorded == s.recorded && |t.issued| == |s.issued| + n
            && s.issued <= t.issued
            && forall i :: |s.issued| <= i < |t.issued| ==> t.issued[i].id == s.next + (i - |s.issued|)
  {
    if n > 0 { IssueManyRuns(s, n - 1); }
  }

  /** A completed reservation allows exactly 2^32 ids. */
  lemma ReservationAllows(s: State, n: nat)
    requires Within(s, Reserve(true)) && Raised(s.next, s.recorded) + n < USIZE
    ensures var r := Apply(s, Reserve(true));
            (forall k :: 0 <= k < n ==> Within(IssueMany(r, k), New)) <==> n <= 0x1_0000_0000
  {
    var r := Apply(s, Reserve(true));
    forall k | 0 <= k < n ensures Within(IssueMany(r, k), New) <==> k < RESERVATION { IssueManyRuns(r, k); }
    if n > RESERVATION { assert !Within(IssueMany(r, RESERVATION), New); }
  }

  /** A node may boot at any time; while nothing saturates it may then reserve and issue. */
  lemma BootReservesAndIssues(s: State, micros: Option<nat>)
    requires Raised(Seed(micros), s.recorded) + RESERVATION < USIZE
    ensures var first := Apply(s, Boot(micros));
            var reserved := Apply(first, Reserve(true));
            && Runs(s, [Boot(micros)], first) && Runs(s, [Boot(micros), Reserve(true), New], Apply(reserved, New))
            && first.boot == s.boot + 1 && first.issued == s.issued
  {
    var first := Apply(s, Boot(micros));
    var reserved := Apply(first, Reserve(true));
    assert [Boot(micros)][1..] == [];
    assert [Boot(micros), Reserve(true), New][1..] == [Reserve(true), New] && [Reserve(true), New][1..] == [New] && [New][1..] == [];
    assert Runs(reserved, [New], Apply(reserved, New));
    assert Runs(first, [Reserve(true), New], Apply(reserved, New));
  }

  /** From any state a boot reserves, at `r`, and issues `n` ids; the next boot reserves and issues one.
      That id exceeds the `n` ids if and only if the first boot kept to its reservation or the clock was
      ahead of what it issued. */
  lemma ReservationIsExact(s: State, n: nat, second: Option<nat>)
    requires Raised(s.next, s.recorded) + n < USIZE
    ensures var r, m := Raised(s.next, s.recorded), |s.issued|;
            var issued := IssueMany(Apply(s, Reserve(true)), n);
            var last := Apply(Apply(Apply(issued, Boot(second)), Reserve(true)), New);
            && |last.issued| == m + n + 1
            && ((forall j :: m <= j < m + n ==> last.issued[j].id < last.issued[m + n].id)
                <==> n <= 0x1_0000_0000 || r + n <= Seed(second))
  {
    var reserved := Apply(s, Reserve(true));
    IssueManyRuns(reserved, n);
    NextBootIsExact(IssueMany(reserved, n), Raised(s.next, s.recorded), |s.issued|, n, second);
  }

  lemma NextBootIsExact(s: State, r: nat, m: nat, n: nat, second: Option<nat>)
    requires |s.issued| == m + n && s.recorded == Some(SaturatingAdd(r, RESERVATION)) && r + n < USIZE
    requires forall i :: m <= i < m + n ==> s.issued[i].id == r + (i - m)
    ensures var last := Apply(Apply(Apply(s, Boot(second)), Reserve(true)), New);
            && |last.issued| == m + n + 1
            && ((forall j :: m <= j < m + n ==> last.issued[j].id < last.issued[m + n].id)
                <==> n <= RESERVATION || r + n <= Seed(second))
  {
    var last := Apply(Apply(Apply(s, Boot(second)), Reserve(true)), New);
    assert last.issued == s.issued + [Issue(s.boot + 1, Raised(Seed(second), s.recorded), true)];
    if n > 0 { assert last.issued[m + n - 1].id == r + n - 1; }
  }
}
