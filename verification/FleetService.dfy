/**
 The owner and driver order services as they run: orders, their vehicle rows and the timeline are
 fields that the methods update. Every method is tied to a step of Fleet, so what is proved there over
 all runs holds of them.
 */
module FleetService {
  import opened Wrappers
  import opened Calendar
  import opened Fleet
  import opened Pricing

  /** How many vehicles of an order there are, and how many of them pass a test. */
  datatype Count = Count(total: nat, passing: nat)

  /** A driver's fees, the platform's part and the rest. */
  datatype Pay = Pay(fees: int, platform: int, net: int)

  lemma PartsOfFees(days: int)
    ensures Round((300 * days) as real * 0.02) == 6 * days
    ensures Round((300 * days) as real * 0.98) == 294 * days
  {
    RoundWhole((300 * days) as real * 0.02, 6 * days);
    RoundWhole((300 * days) as real * 0.98, 294 * days);
  }

  function RowsOf(rows: seq<Row>, o: OrderId): set<nat> {
    set i | 0 <= i < |rows| && rows[i].order == o
  }

  function StartedOf(rows: seq<Row>, o: OrderId): set<nat> {
    set i <- RowsOf(rows, o) | Started(rows[i].status)
  }

  function CompleteOf(rows: seq<Row>, o: OrderId): set<nat> {
    set i <- RowsOf(rows, o) | rows[i].status == Completed
  }

  /** A part of the rows is all of them when it is as large. */
  lemma PartIsAll(part: set<nat>, all: set<nat>)
    requires part <= all
    ensures |part| == |all| <==> part == all
    ensures |part| <= |all|
  {
    assert all == part + (all - part);
  }

  lemma AllCounted(rows: seq<Row>, o: OrderId)
    ensures |StartedOf(rows, o)| == |RowsOf(rows, o)| <==> AllStarted(rows, o)
    ensures |CompleteOf(rows, o)| == |RowsOf(rows, o)| <==> AllComplete(rows, o)
    ensures |StartedOf(rows, o)| <= |RowsOf(rows, o)| && |CompleteOf(rows, o)| <= |RowsOf(rows, o)|
  {
    PartIsAll(StartedOf(rows, o), RowsOf(rows, o));
    PartIsAll(CompleteOf(rows, o), RowsOf(rows, o));
    forall i <- RowsOf(rows, o)
      ensures AllStarted(rows, o) ==> i in StartedOf(rows, o)
      ensures AllComplete(rows, o) ==> i in CompleteOf(rows, o)
    {
      assert rows[i] in rows;
    }
    forall r | r in rows && r.order == o
      ensures StartedOf(rows, o) == RowsOf(rows, o) ==> Started(r.status)
      ensures CompleteOf(rows, o) == RowsOf(rows, o) ==> r.status == Completed
    {
      var i :| 0 <= i < |rows| && rows[i] == r;
      assert i in RowsOf(rows, o);
    }
  }

  class Service {
    var orders: seq<Order>
    var rows: seq<Row>
    var timeline: seq<Entry>

    function Now(): State
      reads this
    {
      State(orders, rows, timeline)
    }

    constructor ()
      ensures Now() == State([], [], [])
    {
      orders, rows, timeline := [], [], [];
    }

    method SaveOrder(o: OrderId, status: OrderStatus, visible: Visible)
      modifies this`orders
      ensures Now() == SetOrder(old(Now()), o, status, visible)
    {
      if o < |orders| {
        orders := orders[o := orders[o].(status := status, visible := visible)];
      }
    }

    // Methods that loop, count or answer with figures.

    /** The rows and the first timeline entry of a new order. */
    method CreateOrder(passenger: UserId, vehicles: seq<(VehicleId, UserId)>, now: Time)
      modifies this
      ensures Now() == Do(old(Now()), Place(passenger, vehicles, now)).next
    {
      ghost var s := Now();
      var o := |orders|;
      ghost var made := seq(|vehicles|, i requires 0 <= i < |vehicles| => NewRow(o, vehicles[i].0, vehicles[i].1));
      orders := orders + [Order(passenger, OwnerPending, RequestSent, false, now)];
      for i := 0 to |vehicles|
        invariant orders == s.orders + [Order(passenger, OwnerPending, RequestSent, false, now)]
        invariant timeline == s.timeline
        invariant rows == s.rows + made[..i]
      {
        rows := rows + [NewRow(o, vehicles[i].0, vehicles[i].1)];
      }
      assert made[..|vehicles|] == made;
      timeline := timeline + [Entry(o, "REQUEST_SENT")];
    }

    /** The loop over the vehicles of an order. */
    method CompleteEach(o: OrderId, now: Time)
      modifies this`rows
      ensures rows == CompleteRows(old(rows), o, now)
    {
      ghost var was, done := rows, CompleteRows(rows, o, now);
      for i := 0 to |rows|
        invariant |rows| == |was|
        invariant forall k | 0 <= k < |was| :: rows[k] == if k < i then done[k] else was[k]
      {
        if rows[i].order == o {
          rows := rows[i := rows[i].(status := Completed, completedAt := Some(now))];
        }
      }
    }

    method CompleteOrder(order: OrderId, now: Time) returns (failure: Option<Error>)
      modifies this
      ensures Outcome(Now(), failure) == Do(old(Now()), Event.CompleteOrder(order, now))
    {
      if order >= |orders| { return Some(OrderNotFound); }
      SaveOrder(order, OrderCompleted, VisiblyCompleted);
      CompleteEach(order, now);
      failure := None;
    }

    method CompletePayment(order: OrderId, passenger: UserId, now: Time) returns (failure: Option<Error>)
      modifies this
      ensures Outcome(Now(), failure) == Do(old(Now()), Event.CompletePayment(order, passenger, now))
    {
      if order >= |orders| || orders[order].passenger != passenger { return Some(OrderNotFound); }
      orders := orders[order := orders[order].(paid := true)];
      SaveOrder(order, OrderCompleted, VisiblyCompleted);
      CompleteEach(order, now);
      timeline := timeline + [Entry(order, "BALANCE_PAID")];
      failure := None;
    }

    method LogExpired(stale: seq<OrderId>)
      modifies this`timeline
      ensures timeline == old(timeline) + Expirations(stale)
    {
      for i := 0 to |stale|
        invariant timeline == old(timeline) + Expirations(stale)[..i]
      {
        timeline := timeline + [Entry(stale[i], "EXPIRED")];
      }
    }

    /** The sweep's two bulk updates, then one timeline entry an order. */
    method ExpireUnanswered(stale: seq<OrderId>, now: Time, timeout: int)
      requires Honest(Now(), Expire(stale, now, timeout))
      modifies this
      ensures Now() == Do(old(Now()), Expire(stale, now, timeout)).next
    {
      orders := ExpireOrders(orders, stale);
      rows := ExpireRows(rows, stale);
      LogExpired(stale);
    }

    /** Also answers how much of the fleet has arrived. */
    method Arrive(order: OrderId, vehicle: VehicleId, otp: string, now: Time, found: Option<nat>)
      returns (r: Result<Count, Error>)
      requires Honest(Now(), Event.Arrive(order, vehicle, otp, now, found))
      modifies this
      ensures Now() == Do(old(Now()), Event.Arrive(order, vehicle, otp, now, found)).next
      ensures r.Ok? <==> found.Some?
      ensures r.Ok? ==> r.value == Count(|RowsOf(rows, order)|, |StartedOf(rows, order)|)
      ensures r.Ok? ==> (r.value.passing == r.value.total <==> AllStarted(rows, order))
    {
      if found.None? { return Err(RowNotFound); }
      var row := rows[found.value];
      row := row.(status := Arrived, arrivedAt := Some(now));
      row := row.(otp := Some(otp), otpExpiresAt := Some(now + OTP_TTL), attempts := 3);
      rows := rows[found.value := row];
      AllCounted(rows, order);
      r := Ok(Count(|RowsOf(rows, order)|, |StartedOf(rows, order)|));
    }

    method VerifyOtp(order: OrderId, vehicle: VehicleId, otp: string, now: Time, found: Option<nat>)
      returns (failure: Option<Error>)
      requires Honest(Now(), Event.VerifyOtp(order, vehicle, otp, now, found))
      modifies this
      ensures Outcome(Now(), failure) == Do(old(Now()), Event.VerifyOtp(order, vehicle, otp, now, found))
    {
      if found.None? { return Some(RowNotFound); }
      var row := rows[found.value];
      if row.status != Arrived { return Some(NotArrived); }
      if !AllStarted(rows, order) { return Some(NotAllArrived); }
      if row.otpExpiresAt.Some? && now > row.otpExpiresAt.value { return Some(OtpExpired); }
      if row.otp != Some(otp) && otp != MASTER_OTP {
        row := row.(attempts := row.attempts - 1);
        rows := rows[found.value := row];
        return Some(if row.attempts <= 0 then TooManyAttempts else InvalidOtp(row.attempts));
      }
      rows := rows[found.value := row.(status := InTransit, startedAt := Some(now))];
      SaveOrder(order, OrderInTransit, VisiblyInTransit);
      failure := None;
    }

    /** The two rounded parts of a driver's fees. */
    method PayFor(days: nat) returns (pay: Pay)
      ensures pay.fees == pay.platform + pay.net == 50 * pay.platform
      ensures pay.fees == 300 * if days == 0 then 1 else days
    {
      var worked := if days == 0 then 1 else days;
      var fees := 300 * worked;
      PartsOfFees(worked);
      pay := Pay(fees, Round(fees as real * 0.02), Round(fees as real * 0.98));
    }

    /** Also answers how much of the fleet has finished and what the driver earns, 2% of it going to the platform. */
    method CompleteVehicleTrip(order: OrderId, vehicle: VehicleId, days: nat, now: Time, found: Option<nat>)
      returns (r: Result<(Count, Pay), Error>)
      requires Honest(Now(), Event.CompleteVehicleTrip(order, vehicle, now, found))
      modifies this
      ensures Now() == Do(old(Now()), Event.CompleteVehicleTrip(order, vehicle, now, found)).next
      ensures r.Ok? <==> found.Some?
      ensures r.Ok? ==> r.value.0 == Count(|RowsOf(rows, order)|, |CompleteOf(rows, order)|)
      ensures r.Ok? ==> (r.value.0.passing == r.value.0.total <==> AllComplete(rows, order))
      ensures r.Ok? ==> r.value.1.fees == r.value.1.platform + r.value.1.net == 50 * r.value.1.platform
      ensures r.Ok? ==> r.value.1.fees == 300 * if days == 0 then 1 else days
    {
      if found.None? { return Err(RowNotFound); }
      var row := rows[found.value];
      rows := rows[found.value := row.(status := Completed, completedAt := Some(now))];
      AllCounted(rows, order);
      var count := Count(|RowsOf(rows, order)|, |CompleteOf(rows, order)|);
      var remaining := count.total - count.passing;
      if remaining == 0 {
        SaveOrder(order, OrderCompleted, VisiblyCompleted);
      }
      var pay := PayFor(days);
      r := Ok((count, pay));
    }

    /** Also answers what is refunded of the advance; without a vehicle the pickup counts as now. */
    method PassengerCancelOrder(order: OrderId, advance: real, pickup: Option<Time>, now: Time)
      returns (r: Result<Refund, Error>)
      modifies this
      ensures Outcome(Now(), if r.Ok? then None else Some(r.error)) ==
              Do(old(Now()), Event.PassengerCancelOrder(order))
      ensures r.Ok? ==>
                && r.value.amount == advance * r.value.percent as real / 100.0
                && var paid, left := old(orders)[order].paid, pickup.GetOr(now) - now;
                   r.value.percent == if paid && left > 48 * HOUR_MS then 100
                                      else if paid && left >= 24 * HOUR_MS then 50 else 0
      ensures r.Ok? ==> r.value == RefundOf(old(orders)[order].paid, advance, pickup.GetOr(now) - now)
    {
      if order >= |orders| { return Err(OrderNotFound); }
      SaveOrder(order, OrderCancelled, VisiblyCancelled);
      var left := pickup.GetOr(now) - now;
      var refund := Refund(0.0, 0);
      if orders[order].paid {
        if left > 48 * HOUR_MS {
          refund := Refund(advance, 100);
        } else if left >= 24 * HOUR_MS {
          refund := Refund(advance * 0.5, 50);
        }
      }
      r := Ok(refund);
    }

    // Handlers that look up one row or order and write it.

    method OwnerAccept(order: OrderId, vehicle: VehicleId, owner: UserId, preference: string, driver: Option<UserId>,
                       trust: Trust, found: Option<nat>)
      returns (failure: Option<Error>)
      requires Honest(Now(), Event.OwnerAccept(order, vehicle, owner, preference, driver, trust, found))
      modifies this
      ensures Outcome(Now(), failure) ==
              Do(old(Now()), Event.OwnerAccept(order, vehicle, owner, preference, driver, trust, found))
    {
      if found.None? { return Some(RowNotFound); }
      var row := rows[found.value];
      if row.status != PendingOwnerResponse { return Some(AlreadyResponded); }
      var wish := preference;
      if wish == "" { wish := OWNER_AS_DRIVER; }
      if wish == PLATFORM_POOL { return Some(PoolDenied); }
      if wish == TRUSTED_DRIVER {
        if driver.None? { return Some(DriverMissing); }
        if (row.owner, driver.value) !in trust { return Some(NotTrusted); }
      }
      timeline := timeline + [Entry(order, "OWNER_ACCEPTED")];
      if wish == OWNER_AS_DRIVER {
        row := row.(status := DriverAccepted, kind := Some(OwnerAsDriver), driver := Some(row.owner));
        row := row.(proxy := Some("+918XXXXX0001"));
      } else if wish == TRUSTED_DRIVER {
        row := row.(status := DriverAccepted, kind := Some(TrustedDriver), driver := driver);
      } else {
        return Some(UnsupportedPreference);
      }
      rows := rows[found.value := row];
      SaveOrder(order, DriverAssigned, AwaitingPayment);
      timeline := timeline + [Entry(order, "DRIVER_ACCEPTED")];
      failure := None;
    }

    method OwnerReject(order: OrderId, vehicle: VehicleId, owner: UserId, reason: string, found: Option<nat>)
      returns (failure: Option<Error>)
      requires Honest(Now(), Event.OwnerReject(order, vehicle, owner, reason, found))
      modifies this
      ensures Outcome(Now(), failure) == Do(old(Now()), Event.OwnerReject(order, vehicle, owner, reason, found))
    {
      if found.None? { return Some(RowNotFound); }
      var row := rows[found.value];
      var why := if reason != "" then reason else "VEHICLE_BOOKED_ELSEWHERE";
      rows := rows[found.value := row.(status := OwnerRejected, reason := why)];
      timeline := timeline + [Entry(order, "OWNER_REJECTED")];
      failure := None;
    }

    method AssignDriver(order: OrderId, vehicle: VehicleId, assignment: string, driver: Option<UserId>,
                        trust: Trust, again: Trust, found: Option<nat>)
      returns (failure: Option<Error>)
      requires Honest(Now(), Event.AssignDriver(order, vehicle, assignment, driver, trust, again, found))
      modifies this
      ensures Outcome(Now(), failure) ==
              Do(old(Now()), Event.AssignDriver(order, vehicle, assignment, driver, trust, again, found))
    {
      if found.None? { return Some(RowNotFound); }
      var row, target := rows[found.value], driver.GetOr(DEFAULT_DRIVER);
      var kind := assignment;
      if kind == "" { kind := OWNER_AS_DRIVER; }
      if kind == PLATFORM_POOL { return Some(PoolDenied); }
      if kind == TRUSTED_DRIVER {
        if (row.owner, target) !in trust { return Some(NotTrusted); }
      }
      if assignment == OWNER_AS_DRIVER {
        row := row.(status := DriverAccepted, kind := Some(OwnerAsDriver), driver := Some(row.owner));
      } else if assignment == TRUSTED_DRIVER {
        if (row.owner, target) !in again { return Some(NotTrusted); }
        row := row.(status := DriverPending, kind := Some(TrustedDriver), driver := Some(target));
      } else {
        row := row.(status := DriverPending, kind := Some(PlatformPool));
      }
      rows := rows[found.value := row];
      failure := None;
    }

    method OwnerRemoveDriver(order: OrderId, vehicle: VehicleId, owner: UserId, found: Option<nat>)
      returns (failure: Option<Error>)
      requires Honest(Now(), Event.OwnerRemoveDriver(order, vehicle, owner, found))
      modifies this
      ensures Outcome(Now(), failure) == Do(old(Now()), Event.OwnerRemoveDriver(order, vehicle, owner, found))
    {
      if found.None? { return Some(RowNotFound); }
      var row := rows[found.value];
      if row.owner != owner { return Some(NotOwner); }
      row := row.(driver := None, kind := None, proxy := None);
      row := row.(status := PendingOwnerResponse);
      rows := rows[found.value := row];
      failure := None;
    }

    method OwnerCancelVehicle(order: OrderId, vehicle: VehicleId, owner: UserId, reason: string, found: Option<nat>)
      returns (failure: Option<Error>)
      requires Honest(Now(), Event.OwnerCancelVehicle(order, vehicle, owner, reason, found))
      modifies this
      ensures Outcome(Now(), failure) == Do(old(Now()), Event.OwnerCancelVehicle(order, vehicle, owner, reason, found))
    {
      if found.None? { return Some(RowNotFound); }
      var row := rows[found.value];
      var why := if reason != "" then reason else "VEHICLE_BREAKDOWN";
      rows := rows[found.value := row.(status := OwnerCancelled, reason := why)];
      failure := None;
    }

    method DriverAccept(order: OrderId, vehicle: VehicleId, user: UserId, found: Option<nat>)
      returns (failure: Option<Error>)
      requires Honest(Now(), Event.DriverAccept(order, vehicle, user, found))
      modifies this
      ensures Outcome(Now(), failure) == Do(old(Now()), Event.DriverAccept(order, vehicle, user, found))
    {
      if found.None? { return Some(RowNotFound); }
      var row := rows[found.value];
      if row.status == DriverAccepted { return Some(AlreadyTaken); }
      if row.driver.Some? && row.driver.value != user { return Some(NotAssignedDriver); }
      if row.driver.None? {
        row := row.(driver := Some(user));
      }
      rows := rows[found.value := row.(status := DriverAccepted)];
      SaveOrder(order, DriverAssigned, AwaitingPayment);
      failure := None;
    }

    method DriverReject(order: OrderId, vehicle: VehicleId, owner: UserId, reason: string, found: Option<nat>)
      returns (failure: Option<Error>)
      requires Honest(Now(), Event.DriverReject(order, vehicle, owner, reason, found))
      modifies this
      ensures Outcome(Now(), failure) == Do(old(Now()), Event.DriverReject(order, vehicle, owner, reason, found))
    {
      if found.None? { return Some(RowNotFound); }
      var row := rows[found.value];
      var why := if reason != "" then reason else "SCHEDULE_CONFLICT";
      rows := rows[found.value := row.(status := DriverRejected, reason := why)];
      failure := None;
    }

    method StartTrip(i: nat, user: UserId, now: Time) returns (failure: Option<Error>)
      modifies this
      ensures Outcome(Now(), failure) == Do(old(Now()), Event.StartTrip(i, user, now))
    {
      if i >= |rows| { return Some(RowNotFound); }
      var row := rows[i];
      if row.driver != Some(user) { return Some(Unauthorized); }
      rows := rows[i := row.(status := InTransit, startedAt := Some(now))];
      SaveOrder(row.order, OrderInTransit, VisiblyInTransit);
      failure := None;
    }

    method ConfirmPayment(order: OrderId) returns (failure: Option<Error>)
      modifies this
      ensures Outcome(Now(), failure) == Do(old(Now()), Event.ConfirmPayment(order))
    {
      if order >= |orders| { return Some(OrderNotFound); }
      if orders[order].paid { return None; }
      orders := orders[order := orders[order].(paid := true)];
      SaveOrder(order, Confirmed, VisiblyCompleted);
      timeline := timeline + [Entry(order, "PAYMENT_CONFIRMED")];
      failure := None;
    }

    method PayBalance(order: OrderId, vehicle: VehicleId, passenger: UserId, now: Time, found: Option<nat>)
      returns (failure: Option<Error>)
      requires Honest(Now(), Event.PayBalance(order, vehicle, passenger, now, found))
      modifies this
      ensures Outcome(Now(), failure) == Do(old(Now()), Event.PayBalance(order, vehicle, passenger, now, found))
    {
      if order >= |orders| || orders[order].passenger != passenger { return Some(OrderNotFound); }
      if found.None? { return Some(RowNotFound); }
      orders := orders[order := orders[order].(paid := true)];
      rows := rows[found.value := rows[found.value].(status := Completed, completedAt := Some(now))];
      timeline := timeline + [Entry(order, "BALANCE_PAID")];
      failure := None;
    }

    method UpdateBookingStatus(order: OrderId, status: OrderStatus, visible: Visible) returns (failure: Option<Error>)
      modifies this
      ensures Outcome(Now(), failure) == Do(old(Now()), Event.UpdateBookingStatus(order, status, visible))
    {
      if order >= |orders| { return Some(OrderNotFound); }
      SaveOrder(order, status, visible);
      failure := None;
    }
  }
}
