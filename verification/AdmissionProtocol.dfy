/**
 The admission protocol as an interleaving of atomic steps: any number of publishers, waiting
 publishers and receipts, and the one closer that starts the shutdown. Every load, store and
 read-modify-write of an atomic, every critical section and every notification is a step of its
 own. The atomics are taken as sequentially consistent.
 */
module AdmissionProtocol {
  import opened Admission

  type Pid = nat
  type Rid = nat

  /** Where a publisher goes once its guard is dropped. */
  datatype Next = ToPark | ToFinish

  /** Where a publisher is. */
  datatype Pc =
    | Start
    | Registered                              // the wakeup future is enabled
    | Checked                                 // the first load saw an open fence
    | Counted                                 // in_flight incremented, second load pending
    | Admitted                                // the second load saw an open fence
    | Cleared                                 // no failure seen, window lock pending
    | Holding(rid: Rid)                       // holds a receipt, enqueue pending
    | Leaving(next: Next, accepted: bool)     // about to drop the guard
    | Notifying(next: Next)                   // dropped the last guard, notification pending
    | Parked
    | Finished

  datatype Publisher = Publisher(pc: Pc, waits: bool, bytes: nat, notified: bool)

  /** Where a receipt is. */
  datatype Phase =
    | InHand(holder: Pid)         // its event is not enqueued yet
    | Queued                   // in the pipeline
    | Losing                   // loss reported, capacity not returned yet
    | Releasing(lost: bool)    // capacity returned, waiting publishers not notified yet
    | Settled
    | Lost

  datatype Closer = Open | Fenced | Draining | Awaiting | Sleeping | Drained | ShutdownSent

  datatype Msg = Event(rid: Rid) | Shutdown

  datatype State = State(
    limit: Usage,
    accepting: bool,
    inFlight: nat,
    window: Usage,
    held: map<Rid, nat>,          // the bytes of every reservation that is not returned
    failed: bool,
    publishers: map<Pid, Publisher>,
    receipts: map<Rid, Phase>,
    authors: map<Rid, Pid>,       // who made each reservation
    permit: bool,                 // a stored wakeup for the closer
    closer: Closer,
    mailbox: seq<Msg>)            // everything enqueued to the sequencer so far

  function Init(limit: Usage): State {
    State(limit, true, 0, Usage(0, 0), map[], false, map[], map[], map[], false, Open, [])
  }

  // ----- steps -----

  /** The atomic steps of a publisher, in program order. */
  datatype Act =
    | Spawn(waits: bool, bytes: nat)
    | Register
    | FirstLoad
    | Increment
    | SecondLoad
    | SequencerStopped
    | FailureCheck
    | Reserve(rid: Rid)
    | Enqueue
    | EnqueueFails
    | DropGuard
    | NotifyDrained
    | Wake

  /** The atomic steps of a receipt that left its publisher. */
  datatype ReceiptAct = Settle | ReportLoss | ReturnLost | NotifyReleased

  /** The atomic steps of the closer, in program order. */
  datatype CloserAct = CloseFence | NotifyClosed | ReadInFlight | AwaitDrained | SendShutdown

  datatype Step =
    | Publish(p: Pid, act: Act)
    | Pass(rid: Rid, pass: ReceiptAct)
    | Close(close: CloserAct)
    | SignalFailure

  predicate At(s: State, p: Pid, pc: Pc) {
    p in s.publishers && s.publishers[p].pc == pc
  }

  /** The subtractions of a release stay in range; `NoUnderflow` shows that they always do. */
  predicate Returnable(s: State, rid: Rid) {
    rid in s.held && s.window.events >= 1 && s.window.bytes >= s.held[rid]
  }

  predicate CanAct(s: State, p: Pid, act: Act) {
    if act.Spawn? then p !in s.publishers && act.bytes <= MaxCharge(s.limit)
    else
      p in s.publishers &&
      var publisher := s.publishers[p];
      match act
      case Register => publisher.pc == Start && publisher.waits
      case FirstLoad => publisher.pc == Registered || (publisher.pc == Start && !publisher.waits)
      case Increment => publisher.pc == Checked
      case SecondLoad => publisher.pc == Counted
      case SequencerStopped => publisher.pc == Admitted
      case FailureCheck => publisher.pc == Admitted
      case Reserve(rid) => publisher.pc == Cleared && rid !in s.receipts
      case Enqueue => publisher.pc.Holding?
      case EnqueueFails => publisher.pc.Holding?
      case DropGuard => publisher.pc.Leaving? && s.inFlight >= 1
      case NotifyDrained => publisher.pc.Notifying?
      case Wake => publisher.pc == Parked && publisher.notified
      case Spawn(_, _) => false
  }

  predicate CanPass(s: State, rid: Rid, pass: ReceiptAct) {
    rid in s.receipts &&
    match pass
    case Settle => s.receipts[rid] == Queued && Returnable(s, rid)
    case ReportLoss => s.receipts[rid] == Queued
    case ReturnLost => s.receipts[rid] == Losing && Returnable(s, rid)
    case NotifyReleased => s.receipts[rid].Releasing?
  }

  predicate CanClose(s: State, close: CloserAct) {
    match close
    case CloseFence => s.closer == Open
    case NotifyClosed => s.closer == Fenced
    case ReadInFlight => s.closer == Draining
    case AwaitDrained => s.closer == Awaiting
    case SendShutdown => s.closer == Drained
  }

  predicate Enabled(s: State, step: Step) {
    match step
    case Publish(p, act) => CanAct(s, p, act)
    case Pass(rid, pass) => CanPass(s, rid, pass)
    case Close(close) => CanClose(s, close)
    case SignalFailure => true
  }

  /** A notification marks every enabled wakeup future. */
  function NotifyAll(publishers: map<Pid, Publisher>): map<Pid, Publisher> {
    map p | p in publishers :: if publishers[p].pc.Start? then publishers[p] else publishers[p].(notified := true)
  }

  function After(next: Next): Pc {
    if next.ToPark? then Parked else Finished
  }

  function Share(s: State, p: Pid): Usage
    requires p in s.publishers
  {
    if s.publishers[p].waits then WaitingShare(s.limit) else s.limit
  }

  /** Where a publisher's step takes it. A full window parks a waiting publisher and fails another. */
  function NextPc(s: State, p: Pid, act: Act): Pc
    requires CanAct(s, p, act) && !act.Spawn?
  {
    var publisher := s.publishers[p];
    match act
    case Register => Registered
    case FirstLoad => if s.accepting then Checked else Finished
    case Increment => Counted
    case SecondLoad => if s.accepting then Admitted else Leaving(ToFinish, false)
    case SequencerStopped => Leaving(ToFinish, true)
    case FailureCheck => if s.failed then Leaving(ToFinish, true) else Cleared
    case Reserve(rid) =>
      if Fits(s.window, publisher.bytes, Share(s, p)) then Holding(rid)
      else Leaving(if publisher.waits then ToPark else ToFinish, true)
    case Enqueue => Leaving(ToFinish, true)
    case EnqueueFails => Leaving(ToFinish, true)
    case DropGuard => if s.inFlight == 1 then Notifying(publisher.pc.next) else After(publisher.pc.next)
    case NotifyDrained => After(publisher.pc.next)
    case Wake => Start
  }

  /** The steps of a publisher that move a receipt; the others touch at most the fence. */
  predicate MovesReceipt(act: Act) {
    act.Reserve? || act.Enqueue? || act.EnqueueFails?
  }

  predicate Reserves(s: State, p: Pid, act: Act)
    requires CanAct(s, p, act)
  {
    act.Reserve? && Fits(s.window, s.publishers[p].bytes, Share(s, p))
  }

  /** What a publisher's step does to the window and the receipts. */
  function ReceiptEffect(s: State, p: Pid, act: Act): State
    requires CanAct(s, p, act) && MovesReceipt(act)
  {
    var reserves := Reserves(s, p, act);
    var bytes := s.publishers[p].bytes;
    var rid := if act.Reserve? then act.rid else s.publishers[p].pc.rid;
    var phase := if act.Reserve? then InHand(p) else if act.Enqueue? then Queued else Losing;
    s.(window := if reserves then Add(s.window, bytes) else s.window,
       held := if reserves then s.held[rid := bytes] else s.held,
       authors := if reserves then s.authors[rid := p] else s.authors,
       receipts := if act.Reserve? && !reserves then s.receipts else s.receipts[rid := phase],
       mailbox := if act.Enqueue? then s.mailbox + [Event(rid)] else s.mailbox,
       failed := s.failed || act.EnqueueFails?)
  }

  /** What a publisher's step does to the fence. */
  function FenceEffect(s: State, act: Act): State
    requires act.DropGuard? ==> s.inFlight >= 1
  {
    var wakes := act.NotifyDrained? && s.closer == Sleeping;
    s.(inFlight := if act.Increment? then s.inFlight + 1 else if act.DropGuard? then s.inFlight - 1 else s.inFlight,
       closer := if wakes then Draining else s.closer,
       permit := s.permit || (act.NotifyDrained? && !wakes))
  }

  function NextPublisher(s: State, p: Pid, act: Act): Publisher
    requires CanAct(s, p, act)
  {
    if act.Spawn? then Publisher(Start, act.waits, act.bytes, false)
    else s.publishers[p].(pc := NextPc(s, p, act), notified := !act.Register? && s.publishers[p].notified)
  }

  function Acted(s: State, p: Pid, act: Act): State
    requires CanAct(s, p, act)
  {
    (if MovesReceipt(act) then ReceiptEffect(s, p, act) else FenceEffect(s, act))
    .(publishers := s.publishers[p := NextPublisher(s, p, act)])
  }

  /** Capacity goes back under the window lock; the notification is a later step. */
  function Passed(s: State, rid: Rid, pass: ReceiptAct): State
    requires CanPass(s, rid, pass)
  {
    var giving := pass.Settle? || pass.ReturnLost?;
    var phase := if giving then Releasing(pass.ReturnLost?) else if pass.ReportLoss? then Losing
                 else if s.receipts[rid].lost then Lost else Settled;
    s.(window := if giving then Usage(s.window.events - 1, s.window.bytes - s.held[rid]) else s.window,
       held := if giving then s.held - {rid} else s.held,
       receipts := s.receipts[rid := phase],
       failed := s.failed || pass.ReportLoss?,
       publishers := if pass.NotifyReleased? then NotifyAll(s.publishers) else s.publishers)
  }

  function NextCloser(s: State, close: CloserAct): Closer {
    match close
    case CloseFence => Fenced
    case NotifyClosed => Draining
    case ReadInFlight => if s.inFlight == 0 then Drained else Awaiting
    case AwaitDrained => if s.permit then Draining else Sleeping
    case SendShutdown => ShutdownSent
  }

  function Closed(s: State, close: CloserAct): State
    requires CanClose(s, close)
  {
    s.(accepting := s.accepting && !close.CloseFence?,
       closer := NextCloser(s, close),
       permit := s.permit && !close.AwaitDrained?,
       publishers := if close.NotifyClosed? then NotifyAll(s.publishers) else s.publishers,
       mailbox := if close.SendShutdown? then s.mailbox + [Shutdown] else s.mailbox)
  }

  function Apply(s: State, step: Step): State
    requires Enabled(s, step)
  {
    match step
    case Publish(p, act) => Acted(s, p, act)
    case Pass(rid, pass) => Passed(s, rid, pass)
    case Close(close) => Closed(s, close)
    case SignalFailure => s.(failed := true)
  }

  // ----- conservation -----

  ghost function Sum(m: map<Rid, nat>): nat
    decreases |m.Keys|
  {
    if m.Keys == {} then 0
    else
      var r :| r in m.Keys;
      assert (m - {r}).Keys == m.Keys - {r};
      m[r] + Sum(m - {r})
  }

  lemma {:induction false} SumWithout(m: map<Rid, nat>, r: Rid)
    requires r in m
    ensures Sum(m) == m[r] + Sum(m - {r})
    decreases |m.Keys|
  {
    var q :| q in m.Keys && Sum(m) == m[q] + Sum(m - {q});
    if q != r {
      assert (m - {q}).Keys == m.Keys - {q};
      assert (m - {r}).Keys == m.Keys - {r};
      SumWithout(m - {q}, r);
      SumWithout(m - {r}, q);
      assert m - {q} - {r} == m - {r} - {q};
    }
  }

  predicate HoldsGuard(pc: Pc) {
    pc.Counted? || pc.Admitted? || pc.Cleared? || pc.Holding? || pc.Leaving?
  }

  ghost function Guards(s: State): set<Pid> {
    set p | p in s.publishers && HoldsGuard(s.publishers[p].pc)
  }

  /** The reservations whose capacity is out. */
  predicate IsOut(phase: Phase) {
    phase.InHand? || phase.Queued? || phase.Losing?
  }

  ghost predicate GuardsCounted(s: State) {
    s.inFlight == |Guards(s)|
  }

  /** The window is the count and byte sum of the live reservations and stays within its limits. */
  ghost predicate WindowExact(s: State) {
    && (forall r :: r in s.held <==> r in s.receipts && IsOut(s.receipts[r]))
    && s.window == Usage(|s.held|, Sum(s.held))
    && s.window.events <= (if s.limit.events > 1 then s.limit.events else 1)
    && s.window.bytes <= s.limit.bytes
  }

  ghost predicate ChargesCapped(s: State) {
    forall p :: p in s.publishers ==> s.publishers[p].bytes <= MaxCharge(s.limit)
  }

  /** A receipt whose event is not enqueued is in the hands of the publisher that reserved it. */
  ghost predicate HandsMatch(s: State) {
    && (forall p :: p in s.publishers && s.publishers[p].pc.Holding? ==>
          s.publishers[p].pc.rid in s.receipts && s.receipts[s.publishers[p].pc.rid] == InHand(p))
    && (forall r :: r in s.receipts && s.receipts[r].InHand? ==> At(s, s.receipts[r].holder, Holding(r)))
  }

  ghost predicate Conserved(s: State) {
    GuardsCounted(s) && WindowExact(s) && ChargesCapped(s) && HandsMatch(s)
  }

  /** A guard that is dropped was counted and a receipt that is released is in the window: no
      counter of a reachable state goes below zero. */
  lemma NoUnderflow(s: State)
    requires Conserved(s)
    ensures forall p :: p in s.publishers && s.publishers[p].pc.Leaving? ==> Enabled(s, Publish(p, DropGuard))
    ensures forall r :: r in s.receipts && s.receipts[r] == Queued ==> Enabled(s, Pass(r, Settle))
    ensures forall r :: r in s.receipts && s.receipts[r] == Losing ==> Enabled(s, Pass(r, ReturnLost))
  {
    forall p | p in s.publishers && s.publishers[p].pc.Leaving? ensures Enabled(s, Publish(p, DropGuard)) {
      assert p in Guards(s);
    }
    forall r | r in s.receipts && IsOut(s.receipts[r]) ensures Returnable(s, r) {
      SumWithout(s.held, r);
    }
  }
}
