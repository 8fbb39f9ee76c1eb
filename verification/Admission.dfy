/**
 Admission of live events: the bounded window that an admitted event holds capacity in, and the
 first loss or failure that closes it. Each method is one critical section of the source.
 */
module Admission {
  import opened Wrappers

  datatype Usage = Usage(events: nat, bytes: nat)

  const WINDOW := Usage(2560, 512 * 1024 * 1024)
  const WAITING_SHARE := 4
  const FOLLOW_UP_SHARE := 4
  const MAX_ENCODED_EVENT_BYTES: nat := 32 * 1024 * 1024

  /** No event charges more than this, whatever its size. */
  function MaxCharge(limit: Usage): nat {
    limit.bytes - limit.bytes / FOLLOW_UP_SHARE
  }

  /** What an event charges: its encoded size, or the largest size when it does not encode, capped. */
  function Charge(limit: Usage, size: Option<nat>): (bytes: nat)
    ensures bytes <= limit.bytes - limit.bytes / 4
    ensures size.Some? ==> bytes <= size.value
    ensures size.None? ==> bytes <= 33554432
    ensures bytes == limit.bytes - limit.bytes / 4 || size == Some(bytes) || (size.None? && bytes == 33554432)
  {
    var encoded := if size.Some? then size.value else MAX_ENCODED_EVENT_BYTES;
    if encoded < MaxCharge(limit) then encoded else MaxCharge(limit)
  }

  function WaitingShare(limit: Usage): Usage {
    Usage(limit.events / WAITING_SHARE, limit.bytes / WAITING_SHARE)
  }

  /** The first event fits an empty window whatever its size. */
  predicate Fits(window: Usage, bytes: nat, share: Usage) {
    window.events == 0 || (window.events < share.events && window.bytes + bytes <= share.bytes)
  }

  function Add(window: Usage, bytes: nat): Usage {
    Usage(window.events + 1, window.bytes + bytes)
  }

  /** Capacity shrinks as the window fills: what does not fit now does not fit after another
      reservation either. */
  lemma FullerFitsLess(window: Usage, other: nat, bytes: nat, share: Usage)
    requires !Fits(window, bytes, share)
    ensures !Fits(Add(window, other), bytes, share)
  {}

  datatype Reservation = Reservation(bytes: nat, eventType: string)

  /** The capacity that one event holds, or `None` for events that are not admitted. */
  type Receipt = Option<Reservation>

  class EventAdmission {
    var window: Usage
    /** The first loss. It closes admission even without a failure signal. */
    var loss: Option<string>
    /** The event-pipeline failure signal, once set, and the reason that it holds. */
    var signal: Option<Option<string>>
    const limit: Usage

    constructor (limit: Usage)
      ensures this.limit == limit && window == Usage(0, 0) && loss.None? && signal.None?
    {
      this.limit := limit;
      window := Usage(0, 0);
      loss := None;
      signal := None;
    }

    /** The window of a node. */
    constructor Default()
      ensures limit == Usage(2560, 536870912) && window == Usage(0, 0) && loss.None? && signal.None?
    {
      limit := WINDOW;
      window := Usage(0, 0);
      loss := None;
      signal := None;
    }

    /** The reason that admission is closed: the signalled one, or else the first loss. */
    function Failure(): Option<string>
      reads this
    {
      if signal.Some? && signal.value.Some? then signal.value else loss
    }

    /** The first signal set is kept. */
    method SetFailureSignal(current: Option<string>)
      modifies this`signal
      ensures signal == if old(signal).Some? then old(signal) else Some(current)
    {
      if signal.None? { signal := Some(current); }
    }

    method ReserveWithin(size: Option<nat>, eventType: string, share: Usage) returns (r: Result<Receipt, string>)
      modifies this`window
      ensures r.Err? <==> loss.Some? || (signal.Some? && signal.value.Some?)
      ensures r.Err? ==> r.error == (if signal.Some? && signal.value.Some? then signal.value.value else loss.value) && window == old(window)
      ensures Failure().None? ==> r.Ok?
      ensures Failure().None? ==>
                var was, bytes := old(window), Charge(limit, size);
                if was.events > 0 && (was.events >= share.events || was.bytes + bytes > share.bytes)
                then r.value.None? && window == was
                else r.value == Some(Reservation(bytes, eventType)) && window == Usage(was.events + 1, was.bytes + bytes)
    {
      var reason := Failure();
      if reason.Some? {
        return Err(reason.value);
      }
      var maxCharge := limit.bytes - limit.bytes / FOLLOW_UP_SHARE;
      var bytes := if size.Some? then size.value else MAX_ENCODED_EVENT_BYTES;
      if maxCharge < bytes { bytes := maxCharge; }
      if window.events > 0 && (window.events >= share.events || window.bytes + bytes > share.bytes) {
        return Ok(None);
      }
      window := Usage(window.events + 1, window.bytes + bytes);
      r := Ok(Some(Reservation(bytes, eventType)));
    }

    /** Fails when the window is full, so a publisher that cannot wait never blocks. */
    method Reserve(size: Option<nat>, eventType: string) returns (r: Result<Reservation, string>)
      modifies this`window
      ensures var was, bytes := old(window), Charge(limit, size);
              && (r.Ok? <==> Failure().None? && (was.events == 0 || (was.events < limit.events && was.bytes + bytes <= limit.bytes)))
              && (r.Ok? ==> r.value == Reservation(bytes, eventType) && window == Usage(was.events + 1, was.bytes + bytes))
      ensures r.Err? ==> window == old(window)
    {
      var receipt := ReserveWithin(size, eventType, limit);
      match receipt
      case Err(reason) => r := Err(reason);
      case Ok(None) => r := Err("saturated");
      case Ok(Some(reservation)) => r := Ok(reservation);
    }

    /** Uses only the waiting publishers' share, and reports a full share as no receipt. */
    method ReserveWaiting(size: Option<nat>, eventType: string) returns (r: Result<Receipt, string>)
      modifies this`window
      ensures r.Ok? <==> Failure().None?
      ensures var was, bytes := old(window), Charge(limit, size);
              && (r.Ok? && r.value.Some? <==>
                  Failure().None? && (was.events == 0 || (was.events < limit.events / 4 && was.bytes + bytes <= limit.bytes / 4)))
              && (window == if r.Ok? && r.value.Some? then Usage(was.events + 1, was.bytes + bytes) else was)
              && (r.Ok? && r.value.Some? ==> r.value.value == Reservation(bytes, eventType))
    {
      var share := Usage(limit.events / WAITING_SHARE, limit.bytes / WAITING_SHARE);
      r := ReserveWithin(size, eventType, share);
    }

    method Release(bytes: nat)
      requires window.events >= 1 && window.bytes >= bytes
      modifies this`window
      ensures old(window) == Usage(window.events + 1, window.bytes + bytes)
    {
      window := Usage(window.events - 1, window.bytes - bytes);
    }

    /** Keeps the first loss, and keeps an earlier reason on the signal. */
    method ReportLoss(reason: string)
      modifies this`loss, this`signal
      ensures loss == if old(loss).Some? then old(loss) else Some(reason)
      ensures Failure().Some?
      ensures old(Failure()).Some? ==> Failure() == old(Failure())
    {
      if loss.Some? { return; }
      loss := Some(reason);
      if signal.Some? && signal.value.None? { signal := Some(Some(reason)); }
    }

    /** A settled receipt returns its capacity and reports nothing. */
    method Settle(receipt: Receipt)
      requires receipt.Some? ==> window.events >= 1 && window.bytes >= receipt.value.bytes
      modifies this`window
      ensures receipt.None? ==> window == old(window)
      ensures receipt.Some? ==> old(window) == Usage(window.events + 1, window.bytes + receipt.value.bytes)
    {
      if receipt.Some? { Release(receipt.value.bytes); }
    }

    /** A receipt dropped unsettled reports the loss before it returns its capacity. */
    method DropReceipt(receipt: Receipt)
      requires receipt.Some? ==> window.events >= 1 && window.bytes >= receipt.value.bytes
      modifies this`window, this`loss, this`signal
      ensures receipt.None? ==> window == old(window) && loss == old(loss) && signal == old(signal)
      ensures receipt.Some? ==> old(window) == Usage(window.events + 1, window.bytes + receipt.value.bytes) && Failure().Some?
      ensures old(Failure()).Some? ==> Failure() == old(Failure())
    {
      if receipt.Some? {
        ReportLoss(receipt.value.eventType);
        Release(receipt.value.bytes);
      }
    }
  }
}
