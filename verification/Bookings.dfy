/**
 Cancellations of the orders of Fleet: what the rating service reads of an order, the record it adds, and
 the order it has set to CANCELLED. Proved over all runs of both: no cancellation is ever late, and a
 cancelled order stays cancelled until one of the steps that look at no order status brings it back.
 */
module Bookings {
  import opened Wrappers
  import opened Calendar
  import opened Fleet
  import opened Moves
  import C = Cancellations
  import R = Reviews

  function StatusName(status: OrderStatus): string {
    match status
    case OwnerPending => "OWNER_PENDING"
    case DriverAssigned => "DRIVER_ASSIGNED"
    case Confirmed => "CONFIRMED"
    case OrderInTransit => "IN_TRANSIT"
    case OrderCompleted => "COMPLETED"
    case OrderCancelled => "CANCELLED"
  }

  /** getBooking; the advance and the first pickup are not part of the order model. */
  function BookingOf(o: Order, advance: real, tripStart: Time): C.Booking {
    C.Booking(
      o.passenger, StatusName(o.status), if o.paid then "COMPLETED" else "PENDING", advance, o.createdAt, tripStart)
  }

  function OwnersOf(s: State, o: OrderId): set<UserId> {
    set r <- s.rows | r.order == o :: r.owner
  }

  /** cancelBooking as a user asks for it. */
  datatype Ask = Ask(user: UserId, order: OrderId, role: R.Role, advance: real, tripStart: Time, now: Time)

  function RequestOf(s: State, a: Ask): C.Request {
    var found := if a.order < |s.orders| then Some(BookingOf(s.orders[a.order], a.advance, a.tripStart)) else None;
    C.Request(a.user, a.order, a.role, found, OwnersOf(s, a.order), a.now)
  }

  /** The order service with the cancellation records of the rating service. */
  datatype System = System(fleet: State, log: seq<C.Cancellation>)

  /** `updated`: the rating service's call to updateBookingStatus succeeds. */
  datatype Act = Serve(step: Event) | Cancel(ask: Ask, updated: bool)

  function Cancelled(s: State, o: OrderId): State {
    Do(s, UpdateBookingStatus(o, OrderCancelled, VisiblyCancelled)).next
  }

  predicate Accepts(s: System, a: Ask) {
    C.Decide(s.log, RequestOf(s.fleet, a)).Ok?
  }

  predicate Possible(s: System, a: Act) {
    a.Serve? ==> Honest(s.fleet, a.step)
  }

  function Next(s: System, a: Act): System
    requires Possible(s, a)
  {
    match a
    case Serve(step) => s.(fleet := Do(s.fleet, step).next)
    case Cancel(ask, updated) =>
      match C.Decide(s.log, RequestOf(s.fleet, ask))
      case Err(_) => s
      case Ok(c) => System(if updated then Cancelled(s.fleet, ask.order) else s.fleet, s.log + [c])
  }

  ghost predicate IsHistory(ws: seq<System>, acts: seq<Act>) {
    && |ws| == |acts| + 1
    && ws[0] == System(State([], [], []), [])
    && forall i | 0 <= i < |acts| :: Possible(ws[i], acts[i]) && ws[i + 1] == Next(ws[i], acts[i])
  }

  // ---------------------------------------------------------------------------
  // Who may cancel, and what it costs
  // ---------------------------------------------------------------------------

  /**
   A cancellation is accepted exactly from the order's passenger as passenger, or from an owner of one of
   its vehicles as owner, while the order is neither on the road nor closed.
   */
  lemma AcceptedIff(s: System, a: Ask)
    ensures Accepts(s, a) <==>
            && a.order < |s.fleet.orders|
            && (if a.role == R.PassengerRole then s.fleet.orders[a.order].passenger == a.user
                else exists r <- s.fleet.rows :: r.order == a.order && r.owner == a.user)
            && var status := s.fleet.orders[a.order].status;
               status == OwnerPending || status == DriverAssigned || status == Confirmed
  {
  }

  /** The record says that no advance was paid, and costs nothing. */
  predicate IsFree(c: C.Cancellation) {
    !c.late && !c.advancePaid && !c.penalized && c.penalty == 0.0 && c.offenses == 0
  }

  lemma OrdersAreFree(s: State, log: seq<C.Cancellation>, a: Ask)
    requires C.Decide(log, RequestOf(s, a)).Ok?
    ensures IsFree(C.Decide(log, RequestOf(s, a)).value)
  {
    C.StoredStatusesAreNeverLate(log, RequestOf(s, a));
  }

  lemma {:induction false} NoneIsLate(log: seq<C.Cancellation>, user: UserId)
    requires forall c <- log :: !c.late
    ensures C.CountLate(log, user) == 0
  {
    if log != [] {
      NoneIsLate(log[..|log| - 1], user);
      assert log[|log| - 1] in log;
    }
  }

  lemma NextIsFree(ws: seq<System>, acts: seq<Act>, k: nat)
    requires IsHistory(ws, acts) && k < |acts| && forall c <- ws[k].log :: IsFree(c)
    ensures forall c <- ws[k + 1].log :: IsFree(c)
  {
    if acts[k].Cancel? && Accepts(ws[k], acts[k].ask) {
      OrdersAreFree(ws[k].fleet, ws[k].log, acts[k].ask);
    }
  }

  /**
   Over all runs of orders and cancellations, however late and whatever was paid, every record says that no
   advance was paid and costs nothing, and every user keeps the badge Excellent.
   */
  lemma {:induction false} CancellingIsAlwaysFree(ws: seq<System>, acts: seq<Act>, n: nat)
    requires IsHistory(ws, acts) && n <= |acts|
    ensures forall c <- ws[n].log :: IsFree(c)
    ensures forall user :: C.Reliability(ws[n].log, user) == C.Excellent
  {
    if n > 0 {
      CancellingIsAlwaysFree(ws, acts, n - 1);
      NextIsFree(ws, acts, n - 1);
    }
    forall user ensures C.Reliability(ws[n].log, user) == C.Excellent {
      NoneIsLate(ws[n].log, user);
      C.ExcellentIff(ws[n].log, user);
    }
  }

  // ---------------------------------------------------------------------------
  // Cancelled orders that come back
  // ---------------------------------------------------------------------------

  predicate IsCancelled(s: State, o: OrderId) {
    o < |s.orders| && s.orders[o].status == OrderCancelled
  }

  /** The step writes the order another status than CANCELLED. None of the nine kinds that can reads the one it has. */
  predicate Reopens(s: State, e: Event, o: OrderId)
    requires Honest(s, e) && o < |s.orders|
  {
    OrderInto(s, e, o).Some? && OrderInto(s, e, o).value.0 != OrderCancelled
  }

  /** Cancelled is not final: a cancelled order comes back exactly by these steps, each under its own guard. */
  lemma ReopensIff(s: State, e: Event, o: OrderId)
    requires Honest(s, e) && IsCancelled(s, o)
    ensures !IsCancelled(Do(s, e).next, o) <==> Reopens(s, e, o)
  {
    StepMovesOrder(s, e, o);
  }

  predicate ReopensAt(ws: seq<System>, acts: seq<Act>, j: nat, o: OrderId)
    requires j < |acts| < |ws| && Possible(ws[j], acts[j])
  {
    acts[j].Serve? && o < |ws[j].fleet.orders| && Reopens(ws[j].fleet, acts[j].step, o)
  }

  lemma NextStaysCancelled(ws: seq<System>, acts: seq<Act>, k: nat, o: OrderId)
    requires IsHistory(ws, acts) && k < |acts| && IsCancelled(ws[k].fleet, o) && !ReopensAt(ws, acts, k, o)
    ensures IsCancelled(ws[k + 1].fleet, o)
  {
    if acts[k].Serve? {
      ReopensIff(ws[k].fleet, acts[k].step, o);
    }
  }

  lemma {:induction false} StaysCancelled(ws: seq<System>, acts: seq<Act>, m: nat, n: nat, o: OrderId)
    requires IsHistory(ws, acts) && m <= n <= |acts| && IsCancelled(ws[m].fleet, o)
    requires forall j | m <= j < n :: !ReopensAt(ws, acts, j, o)
    ensures IsCancelled(ws[n].fleet, o)
  {
    if n > m {
      StaysCancelled(ws, acts, m, n - 1, o);
      NextStaysCancelled(ws, acts, n - 1, o);
    }
  }

  /** Two accepted cancellations of an order, the first of which set its status: it was reopened in between. */
  lemma CancelledTwiceMeansReopened(ws: seq<System>, acts: seq<Act>, m: nat, n: nat)
    requires IsHistory(ws, acts) && m < n < |acts| && acts[m].Cancel? && acts[n].Cancel? && acts[m].updated
    requires acts[m].ask.order == acts[n].ask.order && Accepts(ws[m], acts[m].ask) && Accepts(ws[n], acts[n].ask)
    ensures exists j :: m < j < n && ReopensAt(ws, acts, j, acts[n].ask.order)
  {
    var o := acts[n].ask.order;
    AcceptedIff(ws[m], acts[m].ask);
    AcceptedIff(ws[n], acts[n].ask);
    assert IsCancelled(ws[m + 1].fleet, o);
    if forall j | m < j < n :: !ReopensAt(ws, acts, j, o) {
      StaysCancelled(ws, acts, m + 1, n, o);
    }
  }

  lemma HistoryGoesOn(ws: seq<System>, acts: seq<Act>, a: Act, next: System)
    requires IsHistory(ws, acts) && Possible(ws[|acts|], a) && next == Next(ws[|acts|], a)
    ensures IsHistory(ws + [next], acts + [a])
  {
    var more, all := ws + [next], acts + [a];
    forall i | 0 <= i < |all| ensures Possible(more[i], all[i]) && more[i + 1] == Next(more[i], all[i]) {
      assert more[i] == ws[i];
      if i < |acts| {
        assert more[i + 1] == ws[i + 1] && all[i] == acts[i];
      }
    }
  }

  const GIVE_UP := Ask(7, 0, R.PassengerRole, 0.0, 0, 0)

  lemma RunOfOneCancelled() returns (ws: seq<System>, acts: seq<Act>)
    ensures IsHistory(ws, acts) && |acts| == 2 && acts[1] == Cancel(GIVE_UP, true) && Accepts(ws[1], GIVE_UP)
    ensures ws[2].fleet.rows == [NewRow(0, 10, 1)] && |ws[2].fleet.orders| == 1 && ws[2].fleet.orders[0].passenger == 7
  {
    var place, cancel := Serve(Place(7, [(10, 1)], 0)), Cancel(GIVE_UP, true);
    ws, acts := [System(State([], [], []), [])], [];
    HistoryGoesOn(ws, acts, place, Next(ws[0], place));
    ws, acts := ws + [Next(ws[0], place)], acts + [place];
    assert ws[1].fleet.rows == [NewRow(0, 10, 1)];
    AcceptedIff(ws[1], GIVE_UP);
    HistoryGoesOn(ws, acts, cancel, Next(ws[1], cancel));
    ws, acts := ws + [Next(ws[1], cancel)], acts + [cancel];
  }

  /** An order that its passenger cancels, its owner then accepts, and its passenger cancels again. */
  lemma OrderCanBeCancelledTwice() returns (ws: seq<System>, acts: seq<Act>)
    ensures IsHistory(ws, acts) && |acts| == 4 && acts[2] == Serve(OwnerAccept(0, 10, 1, "", None, {}, Some(0)))
    ensures acts[1] == acts[3] == Cancel(GIVE_UP, true) && Accepts(ws[1], GIVE_UP) && Accepts(ws[3], GIVE_UP)
  {
    ws, acts := RunOfOneCancelled();
    var accept, cancel := Serve(OwnerAccept(0, 10, 1, "", None, {}, Some(0))), Cancel(GIVE_UP, true);
    HistoryGoesOn(ws, acts, accept, Next(ws[2], accept));
    ws, acts := ws + [Next(ws[2], accept)], acts + [accept];
    AcceptedIff(ws[3], GIVE_UP);
    HistoryGoesOn(ws, acts, cancel, Next(ws[3], cancel));
    ws, acts := ws + [Next(ws[3], cancel)], acts + [cancel];
  }
}
