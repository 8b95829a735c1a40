/**
 Orders of several vehicles: owners answer and assign drivers, drivers accept and run the trip, payments
 and the expiry sweep close orders. Proved over all runs: where every assigned driver came from, who is in
 the platform pool, and that a guarded trip starts only with the whole fleet.
 */
module Fleet {
  import opened Wrappers
  import opened Calendar

  type UserId = nat
  type VehicleId = nat
  type OrderId = nat

  datatype OrderStatus = OwnerPending | DriverAssigned | Confirmed | OrderInTransit | OrderCompleted | OrderCancelled
  datatype Visible = RequestSent | AwaitingPayment | VisiblyInTransit | VisiblyCompleted | VisiblyCancelled
  datatype Status =
    | PendingOwnerResponse | DriverPending | DriverAccepted | DriverRejected | OwnerRejected | OwnerCancelled
    | Arrived | InTransit | Completed
  datatype Kind = OwnerAsDriver | TrustedDriver | PlatformPool

  /** `paid`: the payment status is COMPLETED. */
  datatype Order = Order(passenger: UserId, status: OrderStatus, visible: Visible, paid: bool, createdAt: Time)

  /** One vehicle of an order. */
  datatype Row = Row(
    order: OrderId, vehicle: VehicleId, owner: UserId, status: Status, driver: Option<UserId>, kind: Option<Kind>,
    proxy: Option<string>, reason: string, otp: Option<string>, otpExpiresAt: Option<Time>, attempts: int,
    arrivedAt: Option<Time>, startedAt: Option<Time>, completedAt: Option<Time>)

  datatype Entry = Entry(order: OrderId, status: string)

  datatype State = State(orders: seq<Order>, rows: seq<Row>, timeline: seq<Entry>)

  datatype Error =
    | RowNotFound | OrderNotFound | AlreadyResponded | PoolDenied | DriverMissing | NotTrusted | UnsupportedPreference
    | NotOwner | AlreadyTaken | NotAssignedDriver | NotArrived | NotAllArrived | OtpExpired | TooManyAttempts
    | InvalidOtp(remaining: int) | Unauthorized

  datatype Outcome = Outcome(next: State, failure: Option<Error>)

  /** A pair (owner, driver): the driver is in the owner's accepted list when the check is made. */
  type Trust = set<(UserId, UserId)>

  /** `found` is the row the database lookup returns. */
  datatype Event =
    | Place(passenger: UserId, vehicles: seq<(VehicleId, UserId)>, now: Time)
    | OwnerAccept(
        order: OrderId, vehicle: VehicleId, owner: UserId, preference: string, driver: Option<UserId>, trust: Trust,
        found: Option<nat>)
    | OwnerReject(order: OrderId, vehicle: VehicleId, owner: UserId, reason: string, found: Option<nat>)
    | AssignDriver(
        order: OrderId, vehicle: VehicleId, assignment: string, driver: Option<UserId>, trust: Trust, again: Trust,
        found: Option<nat>)
    | OwnerRemoveDriver(order: OrderId, vehicle: VehicleId, owner: UserId, found: Option<nat>)
    | OwnerCancelVehicle(order: OrderId, vehicle: VehicleId, owner: UserId, reason: string, found: Option<nat>)
    | DriverAccept(order: OrderId, vehicle: VehicleId, user: UserId, found: Option<nat>)
    | DriverReject(order: OrderId, vehicle: VehicleId, owner: UserId, reason: string, found: Option<nat>)
    | Arrive(order: OrderId, vehicle: VehicleId, otp: string, now: Time, found: Option<nat>)
    | VerifyOtp(order: OrderId, vehicle: VehicleId, otp: string, now: Time, found: Option<nat>)
    | CompleteVehicleTrip(order: OrderId, vehicle: VehicleId, now: Time, found: Option<nat>)
    | CompleteOrder(order: OrderId, now: Time)
    | StartTrip(row: nat, user: UserId, now: Time)
    | ConfirmPayment(order: OrderId)
    | PayBalance(order: OrderId, vehicle: VehicleId, passenger: UserId, now: Time, found: Option<nat>)
    | CompletePayment(order: OrderId, passenger: UserId, now: Time)
    | Expire(stale: seq<OrderId>, now: Time, timeout: int)
    | PassengerCancelOrder(order: OrderId)
    | UpdateBookingStatus(order: OrderId, status: OrderStatus, visible: Visible)

  const OWNER_AS_DRIVER := "OWNER_AS_DRIVER"
  const TRUSTED_DRIVER := "TRUSTED_DRIVER"
  const PLATFORM_POOL := "PLATFORM_POOL"
  const MASTER_OTP := "4729"
  const OTP_TTL: int := 12 * HOUR_MS

  /** The driver assignDriver falls back to, usr_driver_mukesh. */
  const DEFAULT_DRIVER: UserId := 0

  // ---------------------------------------------------------------------------
  // Writing rows
  // ---------------------------------------------------------------------------

  function NewRow(order: OrderId, vehicle: VehicleId, owner: UserId): Row {
    Row(order, vehicle, owner, PendingOwnerResponse, None, None, None, "", None, None, 3, None, None, None)
  }

  function SetRow(s: State, i: nat, row: Row): State
    requires i < |s.rows|
  {
    s.(rows := s.rows[i := row])
  }

  function SetOrder(s: State, o: OrderId, status: OrderStatus, visible: Visible): State {
    if o < |s.orders| then s.(orders := s.orders[o := s.orders[o].(status := status, visible := visible)]) else s
  }

  function SetPaid(s: State, o: OrderId): State {
    if o < |s.orders| then s.(orders := s.orders[o := s.orders[o].(paid := true)]) else s
  }

  datatype Refund = Refund(amount: real, percent: nat)

  /** What passengerCancelOrder gives back `left` milliseconds before the first pickup. */
  function RefundOf(paid: bool, advance: real, left: int): Refund {
    if paid && left > 48 * HOUR_MS then Refund(advance, 100)
    else if paid && left >= 24 * HOUR_MS then Refund(advance * 0.5, 50)
    else Refund(0.0, 0)
  }

  /** Never more than the advance or less than nothing, and the closer to the trip the less. */
  lemma RefundFalls(paid: bool, advance: real, left: int, later: int)
    requires advance >= 0.0 && later <= left
    ensures 0.0 <= RefundOf(paid, advance, later).amount <= RefundOf(paid, advance, left).amount <= advance
    ensures RefundOf(paid, advance, left).amount == advance * RefundOf(paid, advance, left).percent as real / 100.0
  {
  }

  predicate Owns(s: State, o: OrderId, passenger: UserId) {
    o < |s.orders| && s.orders[o].passenger == passenger
  }

  function Log(s: State, o: OrderId, status: string): State {
    s.(timeline := s.timeline + [Entry(o, status)])
  }

  /** Every row of order o rewritten. */
  function CompleteRows(rows: seq<Row>, o: OrderId, now: Time): (out: seq<Row>)
    ensures |out| == |rows|
  {
    seq(|rows|, i requires 0 <= i < |rows| =>
      if rows[i].order == o then rows[i].(status := Completed, completedAt := Some(now)) else rows[i])
  }

  function ExpireRows(rows: seq<Row>, stale: seq<OrderId>): (out: seq<Row>)
    ensures |out| == |rows|
  {
    seq(|rows|, i requires 0 <= i < |rows| =>
      if rows[i].order in stale && rows[i].status == PendingOwnerResponse then rows[i].(status := OwnerRejected)
      else rows[i])
  }

  function ReasonOr(reason: string, default: string): string {
    if reason == "" then default else reason
  }

  predicate Started(status: Status) {
    status == Arrived || status == InTransit || status == Completed
  }

  predicate AllStarted(rows: seq<Row>, o: OrderId) {
    forall r <- rows :: r.order == o ==> Started(r.status)
  }

  predicate AllComplete(rows: seq<Row>, o: OrderId) {
    forall r <- rows :: r.order == o ==> r.status == Completed
  }

  // ---------------------------------------------------------------------------
  // The steps
  // ---------------------------------------------------------------------------

  function DoPlace(s: State, passenger: UserId, vehicles: seq<(VehicleId, UserId)>, now: Time): Outcome {
    var o := |s.orders|;
    var rows := seq(|vehicles|, i requires 0 <= i < |vehicles| => NewRow(o, vehicles[i].0, vehicles[i].1));
    var order := Order(passenger, OwnerPending, RequestSent, false, now);
    Outcome(Log(s.(orders := s.orders + [order], rows := s.rows + rows), o, "REQUEST_SENT"), None)
  }

  /** Gives the row its driver and the order its new status. */
  function Accepted(s: State, i: nat, row: Row): State
    requires i < |s.rows|
  {
    Log(SetOrder(SetRow(s, i, row), row.order, DriverAssigned, AwaitingPayment), row.order, "DRIVER_ACCEPTED")
  }

  /** An unknown preference leaves the OWNER_ACCEPTED entry behind and nothing else. */
  function DoOwnerAccept(s: State, i: nat, preference: string, driver: Option<UserId>, trust: Trust): Outcome
    requires i < |s.rows|
  {
    var row, wish := s.rows[i], ReasonOr(preference, OWNER_AS_DRIVER);
    if row.status != PendingOwnerResponse then Outcome(s, Some(AlreadyResponded))
    else if wish == PLATFORM_POOL then Outcome(s, Some(PoolDenied))
    else if wish == TRUSTED_DRIVER && driver.None? then Outcome(s, Some(DriverMissing))
    else if wish == TRUSTED_DRIVER && (row.owner, driver.value) !in trust then Outcome(s, Some(NotTrusted))
    else
      var s' := Log(s, row.order, "OWNER_ACCEPTED");
      if wish == OWNER_AS_DRIVER then
        Outcome(Accepted(s', i, row.(status := DriverAccepted, kind := Some(OwnerAsDriver), driver := Some(row.owner),
                                     proxy := Some("+918XXXXX0001"))), None)
      else if wish == TRUSTED_DRIVER then
        Outcome(Accepted(s', i, row.(status := DriverAccepted, kind := Some(TrustedDriver), driver := driver)), None)
      else Outcome(s', Some(UnsupportedPreference))
  }

  /** The check is on the defaulted type, the branch on the raw one: a missing type goes to the pool. */
  function DoAssignDriver(
    s: State, i: nat, assignment: string, driver: Option<UserId>, trust: Trust, again: Trust): Outcome
    requires i < |s.rows|
  {
    var row, target := s.rows[i], driver.GetOr(DEFAULT_DRIVER);
    if assignment == PLATFORM_POOL then Outcome(s, Some(PoolDenied))
    else if assignment == TRUSTED_DRIVER && (row.owner, target) !in trust then Outcome(s, Some(NotTrusted))
    else if assignment == OWNER_AS_DRIVER then
      var own := row.(status := DriverAccepted, kind := Some(OwnerAsDriver), driver := Some(row.owner));
      Outcome(SetRow(s, i, own), None)
    else if assignment == TRUSTED_DRIVER then
      if (row.owner, target) !in again then Outcome(s, Some(NotTrusted))
      else
        var asked := row.(status := DriverPending, kind := Some(TrustedDriver), driver := Some(target));
        Outcome(SetRow(s, i, asked), None)
    else Outcome(SetRow(s, i, row.(status := DriverPending, kind := Some(PlatformPool))), None)
  }

  function DoOwnerReject(s: State, i: nat, reason: string): Outcome
    requires i < |s.rows|
  {
    var row := s.rows[i];
    Outcome(Log(SetRow(s, i, row.(status := OwnerRejected, reason := ReasonOr(reason, "VEHICLE_BOOKED_ELSEWHERE"))),
                row.order, "OWNER_REJECTED"), None)
  }

  function DoOwnerRemoveDriver(s: State, i: nat, owner: UserId): Outcome
    requires i < |s.rows|
  {
    var row := s.rows[i];
    if row.owner != owner then Outcome(s, Some(NotOwner))
    else Outcome(SetRow(s, i, row.(driver := None, kind := None, proxy := None, status := PendingOwnerResponse)), None)
  }

  function DoDriverAccept(s: State, i: nat, user: UserId): Outcome
    requires i < |s.rows|
  {
    var row := s.rows[i];
    if row.status == DriverAccepted then Outcome(s, Some(AlreadyTaken))
    else if row.driver.Some? && row.driver.value != user then Outcome(s, Some(NotAssignedDriver))
    else Outcome(SetOrder(SetRow(s, i, row.(driver := Some(user), status := DriverAccepted)),
                          row.order, DriverAssigned, AwaitingPayment), None)
  }

  function DoArrive(s: State, i: nat, otp: string, now: Time): Outcome
    requires i < |s.rows|
  {
    Outcome(SetRow(s, i, s.rows[i].(status := Arrived, arrivedAt := Some(now), otp := Some(otp),
                                    otpExpiresAt := Some(now + OTP_TTL), attempts := 3)), None)
  }

  function DoVerifyOtp(s: State, i: nat, otp: string, now: Time): Outcome
    requires i < |s.rows|
  {
    var row := s.rows[i];
    if row.status != Arrived then Outcome(s, Some(NotArrived))
    else if !AllStarted(s.rows, row.order) then Outcome(s, Some(NotAllArrived))
    else if row.otpExpiresAt.Some? && now > row.otpExpiresAt.value then Outcome(s, Some(OtpExpired))
    else if Some(otp) != row.otp && otp != MASTER_OTP then
      Outcome(SetRow(s, i, row.(attempts := row.attempts - 1)),
              Some(if row.attempts - 1 <= 0 then TooManyAttempts else InvalidOtp(row.attempts - 1)))
    else
      Outcome(SetOrder(SetRow(s, i, row.(status := InTransit, startedAt := Some(now))),
                       row.order, OrderInTransit, VisiblyInTransit), None)
  }

  function DoCompleteVehicleTrip(s: State, i: nat, now: Time): Outcome
    requires i < |s.rows|
  {
    var row := s.rows[i];
    var s' := SetRow(s, i, row.(status := Completed, completedAt := Some(now)));
    if AllComplete(s'.rows, row.order) then
      Outcome(SetOrder(s', row.order, OrderCompleted, VisiblyCompleted), None)
    else Outcome(s', None)
  }

  function DoCompleteOrder(s: State, o: OrderId, now: Time): Outcome {
    if o >= |s.orders| then Outcome(s, Some(OrderNotFound))
    else Outcome(SetOrder(s.(rows := CompleteRows(s.rows, o, now)), o, OrderCompleted, VisiblyCompleted), None)
  }

  function DoStartTrip(s: State, i: nat, user: UserId, now: Time): Outcome {
    if i >= |s.rows| then Outcome(s, Some(RowNotFound))
    else
      var row := s.rows[i];
      if row.driver != Some(user) then Outcome(s, Some(Unauthorized))
      else Outcome(SetOrder(SetRow(s, i, row.(status := InTransit, startedAt := Some(now))),
                            row.order, OrderInTransit, VisiblyInTransit), None)
  }

  function ExpireOrders(orders: seq<Order>, stale: seq<OrderId>): (out: seq<Order>)
    ensures |out| == |orders|
  {
    seq(|orders|, o requires 0 <= o < |orders| =>
      if o in stale && orders[o].status == OwnerPending
      then orders[o].(status := OrderCancelled, visible := VisiblyCancelled)
      else orders[o])
  }

  function Expirations(stale: seq<OrderId>): (entries: seq<Entry>)
    ensures |entries| == |stale|
  {
    seq(|stale|, i requires 0 <= i < |stale| => Entry(stale[i], "EXPIRED"))
  }

  function DoExpire(s: State, stale: seq<OrderId>): Outcome {
    Outcome(State(ExpireOrders(s.orders, stale), ExpireRows(s.rows, stale), s.timeline + Expirations(stale)), None)
  }

  /** The owner a lookup asks for, when it asks for one. */
  function AskedOwner(e: Event): Option<UserId> {
    match e
    case OwnerAccept(_, _, owner, _, _, _, _) => Some(owner)
    case OwnerReject(_, _, owner, _, _) => Some(owner)
    case OwnerCancelVehicle(_, _, owner, _, _) => Some(owner)
    case DriverReject(_, _, owner, _, _) => Some(owner)
    case _ => None
  }

  predicate LooksUp(e: Event) {
    !e.Place? && !e.CompleteOrder? && !e.StartTrip? && !e.ConfirmPayment? && !e.CompletePayment? && !e.Expire?
    && !e.PassengerCancelOrder? && !e.UpdateBookingStatus?
  }

  predicate IsMatch(r: Row, order: OrderId, vehicle: VehicleId, owner: Option<UserId>) {
    r.order == order && r.vehicle == vehicle && (owner.Some? ==> r.owner == owner.value)
  }

  /** findOne returns a matching row, and none only when there is none. */
  predicate IsFindOne(rows: seq<Row>, order: OrderId, vehicle: VehicleId, owner: Option<UserId>, found: Option<nat>) {
    match found
    case None => forall r <- rows :: !IsMatch(r, order, vehicle, owner)
    case Some(i) => i < |rows| && IsMatch(rows[i], order, vehicle, owner)
  }

  predicate IsStale(s: State, o: OrderId, cutoff: Time) {
    o < |s.orders| && s.orders[o].status == OwnerPending && s.orders[o].createdAt < cutoff
  }

  /** The sweep's query: every order still waiting for its owners since before the cutoff, once each. */
  predicate IsStaleList(s: State, stale: seq<OrderId>, cutoff: Time) {
    && (forall o <- stale :: IsStale(s, o, cutoff))
    && (forall o | 0 <= o < |s.orders| && IsStale(s, o, cutoff) :: o in stale)
    && (forall i, j | 0 <= i < j < |stale| :: stale[i] != stale[j])
  }

  predicate Honest(s: State, e: Event) {
    if LooksUp(e) then IsFindOne(s.rows, e.order, e.vehicle, AskedOwner(e), e.found)
    else e.Expire? ==> IsStaleList(s, e.stale, e.now - e.timeout)
  }

  function OnRow(s: State, i: nat, e: Event): Outcome
    requires i < |s.rows| && LooksUp(e)
  {
    match e
    case OwnerAccept(_, _, _, preference, driver, trust, _) => DoOwnerAccept(s, i, preference, driver, trust)
    case OwnerReject(_, _, _, reason, _) => DoOwnerReject(s, i, reason)
    case AssignDriver(_, _, assignment, driver, trust, again, _) =>
      DoAssignDriver(s, i, assignment, driver, trust, again)
    case OwnerRemoveDriver(_, _, owner, _) => DoOwnerRemoveDriver(s, i, owner)
    case OwnerCancelVehicle(_, _, _, reason, _) =>
      Outcome(SetRow(s, i, s.rows[i].(status := OwnerCancelled, reason := ReasonOr(reason, "VEHICLE_BREAKDOWN"))), None)
    case DriverAccept(_, _, user, _) => DoDriverAccept(s, i, user)
    case DriverReject(_, _, _, reason, _) =>
      Outcome(SetRow(s, i, s.rows[i].(status := DriverRejected, reason := ReasonOr(reason, "SCHEDULE_CONFLICT"))), None)
    case Arrive(_, _, otp, now, _) => DoArrive(s, i, otp, now)
    case VerifyOtp(_, _, otp, now, _) => DoVerifyOtp(s, i, otp, now)
    case CompleteVehicleTrip(_, _, now, _) => DoCompleteVehicleTrip(s, i, now)
    case PayBalance(order, _, passenger, now, _) =>
      if !Owns(s, order, passenger) then Outcome(s, Some(OrderNotFound))
      else
        var s' := SetRow(SetPaid(s, order), i, s.rows[i].(status := Completed, completedAt := Some(now)));
        Outcome(Log(s', order, "BALANCE_PAID"), None)
  }

  function Do(s: State, e: Event): Outcome
    requires Honest(s, e)
  {
    if LooksUp(e) then
      if e.PayBalance? && !Owns(s, e.order, e.passenger) then Outcome(s, Some(OrderNotFound))
      else if e.found.None? then Outcome(s, Some(RowNotFound))
      else OnRow(s, e.found.value, e)
    else
      match e
      case Place(passenger, vehicles, now) => DoPlace(s, passenger, vehicles, now)
      case CompleteOrder(order, now) => DoCompleteOrder(s, order, now)
      case StartTrip(row, user, now) => DoStartTrip(s, row, user, now)
      case ConfirmPayment(order) =>
        if order >= |s.orders| then Outcome(s, Some(OrderNotFound))
        else if s.orders[order].paid then Outcome(s, None)
        else
          var s' := SetOrder(SetPaid(s, order), order, Confirmed, VisiblyCompleted);
          Outcome(Log(s', order, "PAYMENT_CONFIRMED"), None)
      case CompletePayment(order, passenger, now) =>
        if !Owns(s, order, passenger) then Outcome(s, Some(OrderNotFound))
        else Outcome(Log(SetPaid(DoCompleteOrder(s, order, now).next, order), order, "BALANCE_PAID"), None)
      case Expire(stale, _, _) => DoExpire(s, stale)
      case PassengerCancelOrder(order) =>
        if order >= |s.orders| then Outcome(s, Some(OrderNotFound))
        else Outcome(SetOrder(s, order, OrderCancelled, VisiblyCancelled), None)
      case UpdateBookingStatus(order, status, visible) =>
        if order >= |s.orders| then Outcome(s, Some(OrderNotFound))
        else Outcome(SetOrder(s, order, status, visible), None)
  }

  /** A run from an empty database. */
  ghost predicate IsRun(ws: seq<State>, es: seq<Event>) {
    && |ws| == |es| + 1
    && ws[0] == State([], [], [])
    && forall i | 0 <= i < |es| :: Honest(ws[i], es[i]) && ws[i + 1] == Do(ws[i], es[i]).next
  }

  // ---------------------------------------------------------------------------
  // Where drivers come from
  // ---------------------------------------------------------------------------

  /** The step assigns d to row i after checking that the row's owner trusts d. */
  predicate Vouches(s: State, e: Event, i: nat, d: UserId) {
    && (e.OwnerAccept? || e.AssignDriver?) && e.found == Some(i) && i < |s.rows| && (s.rows[i].owner, d) in e.trust
    && (e.OwnerAccept? ==> e.preference == TRUSTED_DRIVER && e.driver == Some(d))
    && (e.AssignDriver? ==>
          && e.assignment == TRUSTED_DRIVER && e.driver.GetOr(DEFAULT_DRIVER) == d
          && (s.rows[i].owner, d) in e.again)
  }

  /** The step is d accepting row i while nobody is assigned. */
  predicate Takes(s: State, e: Event, i: nat, d: UserId) {
    e.DriverAccept? && e.found == Some(i) && e.user == d && i < |s.rows| && s.rows[i].driver.None?
  }

  /** All a step can do to the driver of a row. */
  predicate DriverStep(s: State, e: Event, i: nat, after: Row)
    requires i < |s.rows|
  {
    var row := s.rows[i];
    && after.owner == row.owner && after.order == row.order && after.vehicle == row.vehicle
    && (|| (after.driver == row.driver && after.kind == row.kind
            && (after.status == DriverAccepted ==> row.status == DriverAccepted || row.driver.Some?))
        || (after.driver == row.driver && after.kind == Some(PlatformPool) && after.status == DriverPending)
        || (after.driver == Some(row.owner) && after.kind == Some(OwnerAsDriver))
        || (after.driver.None? && after.kind.None? && after.status != DriverAccepted)
        || (after.kind == Some(TrustedDriver) && after.driver.Some? && Vouches(s, e, i, after.driver.value))
        || (row.driver.None? && after.driver.Some? && after.kind == row.kind && Takes(s, e, i, after.driver.value)))
  }

  predicate OwnerChooses(e: Event) {
    e.OwnerAccept? || e.AssignDriver? || e.OwnerRemoveDriver?
  }

  lemma OwnerDriverStep(s: State, e: Event, k: nat, i: nat)
    requires OwnerChooses(e) && Honest(s, e) && e.found == Some(k) && i < |s.rows|
    ensures |OnRow(s, k, e).next.rows| == |s.rows| && DriverStep(s, e, i, OnRow(s, k, e).next.rows[i])
  {
  }

  lemma OnRowDriverStep(s: State, e: Event, k: nat, i: nat)
    requires LooksUp(e) && Honest(s, e) && e.found == Some(k) && i < |s.rows|
    ensures |OnRow(s, k, e).next.rows| == |s.rows| && DriverStep(s, e, i, OnRow(s, k, e).next.rows[i])
  {
    if OwnerChooses(e) {
      OwnerDriverStep(s, e, k, i);
    }
  }

  lemma StepDriverStep(s: State, e: Event, i: nat)
    requires Honest(s, e) && i < |s.rows|
    ensures |s.rows| <= |Do(s, e).next.rows| && DriverStep(s, e, i, Do(s, e).next.rows[i])
  {
    if LooksUp(e) && e.found.Some? {
      OnRowDriverStep(s, e, e.found.value, i);
    }
  }

  /** Rows only appear with no driver. */
  lemma NewRowsAreFree(s: State, e: Event, i: nat)
    requires Honest(s, e) && |s.rows| <= i < |Do(s, e).next.rows|
    ensures Do(s, e).next.rows[i] == NewRow(|s.orders|, Do(s, e).next.rows[i].vehicle, Do(s, e).next.rows[i].owner)
  {
    if LooksUp(e) && e.found.Some? && i > 0 {
      OnRowDriverStep(s, e, e.found.value, 0);
    }
  }

  ghost predicate Vouched(ws: seq<State>, es: seq<Event>, n: nat, i: nat, d: UserId)
    requires n <= |es| < |ws|
  {
    exists j :: 0 <= j < n && Vouches(ws[j], es[j], i, d)
  }

  ghost predicate Took(ws: seq<State>, es: seq<Event>, n: nat, i: nat, d: UserId)
    requires n <= |es| < |ws|
  {
    exists j :: 0 <= j < n && Takes(ws[j], es[j], i, d)
  }

  /** Where the driver of a row comes from, and what its type and status say of it. */
  ghost predicate Explained(ws: seq<State>, es: seq<Event>, n: nat, i: nat, row: Row)
    requires n <= |es| < |ws|
  {
    && (row.driver.Some? ==>
          || row.driver.value == row.owner
          || Vouched(ws, es, n, i, row.driver.value)
          || Took(ws, es, n, i, row.driver.value))
    && (row.status == DriverAccepted ==> row.driver.Some?)
    && (row.kind == Some(OwnerAsDriver) ==> row.driver == Some(row.owner))
    && (row.kind == Some(TrustedDriver) ==> row.driver.Some? && Vouched(ws, es, n, i, row.driver.value))
  }

  /**
   Driver provenance, over all runs: an assigned driver is the owner, or a driver the owner was checked
   to trust, or one who accepted while nobody was assigned; and the recorded type and status never lie.
   */
  lemma {:induction false} DriversAreExplained(ws: seq<State>, es: seq<Event>, n: nat, i: nat)
    requires IsRun(ws, es) && n <= |es| && i < |ws[n].rows|
    ensures Explained(ws, es, n, i, ws[n].rows[i])
  {
    if n > 0 {
      var s, e := ws[n - 1], es[n - 1];
      assert ws[n] == Do(s, e).next;
      if i < |s.rows| {
        DriversAreExplained(ws, es, n - 1, i);
        StepDriverStep(s, e, i);
        ExplainedOneMore(ws, es, n, i, s.rows[i], ws[n].rows[i]);
      } else {
        NewRowsAreFree(s, e, i);
      }
    }
  }

  lemma ExplainedOneMore(ws: seq<State>, es: seq<Event>, n: nat, i: nat, row: Row, after: Row)
    requires 0 < n <= |es| < |ws| && i < |ws[n - 1].rows| && row == ws[n - 1].rows[i]
    requires Explained(ws, es, n - 1, i, row) && DriverStep(ws[n - 1], es[n - 1], i, after)
    ensures Explained(ws, es, n, i, after)
  {
  }

  /** Only the owner's own choices displace a driver: no driver, trip, payment or expiry step does. */
  lemma NobodyElseDisplaces(s: State, e: Event, i: nat)
    requires Honest(s, e) && i < |s.rows| && s.rows[i].driver.Some? && !OwnerChooses(e)
    ensures i < |Do(s, e).next.rows| && Do(s, e).next.rows[i].driver == s.rows[i].driver
  {
    StepDriverStep(s, e, i);
  }

  // ---------------------------------------------------------------------------
  // Who is in the platform pool
  // ---------------------------------------------------------------------------

  /** The step is a choice of the owner's for row i that is not refused. */
  predicate Chooses(s: State, e: Event, i: nat) {
    OwnerChooses(e) && e.found == Some(i) && i < |s.rows| && OnRow(s, i, e).failure.None?
  }

  /** assignDriver with none of the three types: none at all, or an unknown one. */
  predicate NamesNoType(e: Event) {
    e.AssignDriver? && e.assignment !in {OWNER_AS_DRIVER, TRUSTED_DRIVER, PLATFORM_POOL}
  }

  predicate Pooled(s: State, i: nat) {
    i < |s.rows| && s.rows[i].kind == Some(PlatformPool)
  }

  /** A choice puts the vehicle in the pool exactly when it names no type; then the vehicle keeps its driver. */
  lemma ChoiceOfThePoolIff(s: State, e: Event, i: nat)
    requires Honest(s, e) && Chooses(s, e, i)
    ensures Pooled(Do(s, e).next, i) <==> NamesNoType(e)
    ensures NamesNoType(e) ==>
              Do(s, e).next == SetRow(s, i, s.rows[i].(status := DriverPending, kind := Some(PlatformPool)))
  {
  }

  lemma OnRowKeepsTheKind(s: State, e: Event, k: nat, i: nat)
    requires Honest(s, e) && LooksUp(e) && e.found == Some(k) && !Chooses(s, e, i)
    ensures Pooled(OnRow(s, k, e).next, i) <==> Pooled(s, i)
  {
  }

  lemma OthersKeepThePool(s: State, e: Event, i: nat)
    requires Honest(s, e) && !Chooses(s, e, i)
    ensures Pooled(Do(s, e).next, i) <==> Pooled(s, i)
  {
    if LooksUp(e) && e.found.Some? {
      OnRowKeepsTheKind(s, e, e.found.value, i);
    }
  }

  predicate PooledByChoice(ws: seq<State>, es: seq<Event>, k: nat, i: nat)
    requires k < |es| < |ws|
  {
    Pooled(ws[k + 1], i) <==> if Chooses(ws[k], es[k], i) then NamesNoType(es[k]) else Pooled(ws[k], i)
  }

  lemma NextPooled(ws: seq<State>, es: seq<Event>, k: nat, i: nat)
    requires IsRun(ws, es) && k < |es|
    ensures PooledByChoice(ws, es, k, i)
  {
    if Chooses(ws[k], es[k], i) {
      ChoiceOfThePoolIff(ws[k], es[k], i);
    } else {
      OthersKeepThePool(ws[k], es[k], i);
    }
  }

  /** Step j is the owner's latest choice for row i among the first n. */
  predicate LatestChoice(ws: seq<State>, es: seq<Event>, j: nat, n: nat, i: nat)
    requires n <= |es| < |ws|
  {
    j < n && Chooses(ws[j], es[j], i) && forall k | j < k < n :: !Chooses(ws[k], es[k], i)
  }

  ghost predicate SentToThePool(ws: seq<State>, es: seq<Event>, n: nat, i: nat)
    requires n <= |es| < |ws|
  {
    exists j: nat :: LatestChoice(ws, es, j, n, i) && NamesNoType(es[j])
  }

  lemma {:induction false} PooledByLatestChoice(ws: seq<State>, es: seq<Event>, n: nat, i: nat)
    requires n <= |es| < |ws| && !Pooled(ws[0], i) && forall k | 0 <= k < n :: PooledByChoice(ws, es, k, i)
    ensures Pooled(ws[n], i) <==> SentToThePool(ws, es, n, i)
  {
    if n > 0 {
      PooledByLatestChoice(ws, es, n - 1, i);
      assert PooledByChoice(ws, es, n - 1, i);
      if Chooses(ws[n - 1], es[n - 1], i) {
        assert LatestChoice(ws, es, n - 1, n, i);
      } else {
        assert forall j: nat :: LatestChoice(ws, es, j, n, i) <==> LatestChoice(ws, es, j, n - 1, i);
      }
    }
  }

  /**
   The pool is never granted to an owner who asks for it: in every run a vehicle is in the pool exactly
   when its owner's latest choice named no type.
   */
  lemma InThePoolIff(ws: seq<State>, es: seq<Event>, n: nat, i: nat)
    requires IsRun(ws, es) && n <= |es|
    ensures Pooled(ws[n], i) <==> SentToThePool(ws, es, n, i)
  {
    forall k | 0 <= k < n ensures PooledByChoice(ws, es, k, i) {
      NextPooled(ws, es, k, i);
    }
    PooledByLatestChoice(ws, es, n, i);
  }

  // ---------------------------------------------------------------------------
  // A trip starts with the whole fleet
  // ---------------------------------------------------------------------------

  predicate NoneInTransit(rows: seq<Row>, o: OrderId) {
    forall r <- rows :: r.order == o ==> r.status != InTransit
  }

  /** If one vehicle of the order is on the road, all have at least arrived. */
  predicate Together(rows: seq<Row>, o: OrderId) {
    NoneInTransit(rows, o) || AllStarted(rows, o)
  }

  predicate OthersStarted(rows: seq<Row>, i: nat, o: OrderId) {
    forall j | 0 <= j < |rows| && j != i :: rows[j].order == o ==> Started(rows[j].status)
  }

  predicate OthersOffRoad(rows: seq<Row>, i: nat, o: OrderId) {
    forall j | 0 <= j < |rows| && j != i :: rows[j].order == o ==> rows[j].status != InTransit
  }

  /** What rewriting one row does to its order. */
  lemma RewriteRow(rows: seq<Row>, i: nat, row: Row, o: OrderId)
    requires i < |rows| && row.order == rows[i].order
    ensures row.order == o ==>
              (Together(rows[i := row], o) <==>
               || (Started(row.status) && OthersStarted(rows, i, o))
               || (row.status != InTransit && OthersOffRoad(rows, i, o)))
    ensures row.order != o ==> (Together(rows[i := row], o) <==> Together(rows, o))
  {
    var out := rows[i := row];
    assert out[i] == row && row in out;
    assert forall j | 0 <= j < |rows| && j != i :: out[j] == rows[j] && out[j] in out && rows[j] in rows;
    assert rows[i] in rows;
  }

  /** The steps that check the fleet, or can only move a row forward. */
  predicate KeepsFleet(e: Event) {
    || e.Place? || e.OwnerAccept? || e.Arrive? || e.VerifyOtp? || e.CompleteVehicleTrip? || e.CompleteOrder?
    || e.ConfirmPayment? || e.PayBalance? || e.CompletePayment? || e.Expire?
    || e.PassengerCancelOrder? || e.UpdateBookingStatus?
  }

  lemma ForwardKeepsTogether(rows: seq<Row>, i: nat, row: Row, o: OrderId)
    requires i < |rows| && row.order == rows[i].order && Together(rows, o)
    requires row.status == Arrived || row.status == Completed
    ensures Together(rows[i := row], o)
  {
  }

  lemma AcceptKeepsTogether(s: State, i: nat, preference: string, driver: Option<UserId>, trust: Trust, o: OrderId)
    requires i < |s.rows| && Together(s.rows, o)
    ensures Together(DoOwnerAccept(s, i, preference, driver, trust).next.rows, o)
  {
  }

  lemma VerifyKeepsTogether(s: State, i: nat, otp: string, now: Time, o: OrderId)
    requires i < |s.rows| && Together(s.rows, o)
    ensures Together(DoVerifyOtp(s, i, otp, now).next.rows, o)
  {
  }

  lemma BulkKeepsTogether(rows: seq<Row>, o: OrderId, p: OrderId, now: Time, stale: seq<OrderId>)
    requires Together(rows, o)
    ensures Together(CompleteRows(rows, p, now), o) && Together(ExpireRows(rows, stale), o)
  {
  }

  lemma PlaceKeepsTogether(
    s: State, passenger: UserId, vehicles: seq<(VehicleId, UserId)>, now: Time, o: OrderId)
    requires RowsHaveOrders(s) && Together(s.rows, o)
    ensures Together(DoPlace(s, passenger, vehicles, now).next.rows, o)
  {
  }

  predicate RowsHaveOrders(s: State) {
    forall r <- s.rows :: r.order < |s.orders|
  }

  function CompletedRow(row: Row, now: Time): Row {
    row.(status := Completed, completedAt := Some(now))
  }

  predicate MovesOneRow(e: Event) {
    e.OwnerAccept? || e.Arrive? || e.VerifyOtp? || e.CompleteVehicleTrip? || e.PayBalance?
  }

  lemma RowStepKeepsTogether(s: State, e: Event, i: nat, o: OrderId)
    requires LooksUp(e) && MovesOneRow(e) && i < |s.rows| && Together(s.rows, o)
    ensures Together(OnRow(s, i, e).next.rows, o)
  {
    match e
    case OwnerAccept(_, _, _, preference, driver, trust, _) =>
      AcceptKeepsTogether(s, i, preference, driver, trust, o);
    case Arrive(_, _, otp, now, _) => ForwardKeepsTogether(s.rows, i, DoArrive(s, i, otp, now).next.rows[i], o);
    case VerifyOtp(_, _, otp, now, _) => VerifyKeepsTogether(s, i, otp, now, o);
    case CompleteVehicleTrip(_, _, now, _) => ForwardKeepsTogether(s.rows, i, CompletedRow(s.rows[i], now), o);
    case PayBalance(_, _, _, now, _) => ForwardKeepsTogether(s.rows, i, CompletedRow(s.rows[i], now), o);
  }

  lemma OrderStepKeepsTogether(s: State, e: Event, o: OrderId)
    requires Honest(s, e) && KeepsFleet(e) && !MovesOneRow(e) && RowsHaveOrders(s) && Together(s.rows, o)
    ensures Together(Do(s, e).next.rows, o)
  {
    match e
    case Place(passenger, vehicles, now) => PlaceKeepsTogether(s, passenger, vehicles, now, o);
    case CompleteOrder(order, now) => BulkKeepsTogether(s.rows, o, order, now, []);
    case CompletePayment(order, _, now) => BulkKeepsTogether(s.rows, o, order, now, []);
    case ConfirmPayment(_) =>
    case PassengerCancelOrder(_) =>
    case UpdateBookingStatus(_, _, _) =>
    case Expire(stale, _, _) => BulkKeepsTogether(s.rows, o, 0, 0, stale);
  }

  lemma StepKeepsTogether(s: State, e: Event, o: OrderId)
    requires Honest(s, e) && KeepsFleet(e) && RowsHaveOrders(s) && Together(s.rows, o)
    ensures Together(Do(s, e).next.rows, o)
  {
    if !MovesOneRow(e) {
      OrderStepKeepsTogether(s, e, o);
    } else if e.found.Some? {
      RowStepKeepsTogether(s, e, e.found.value, o);
    }
  }

  lemma RowStepsAddNothing(s: State, e: Event, i: nat)
    requires LooksUp(e) && i < |s.rows|
    ensures |OnRow(s, i, e).next.orders| == |s.orders| && |OnRow(s, i, e).next.rows| == |s.rows|
  {
  }

  lemma OrdersOnlyGrow(s: State, e: Event)
    requires Honest(s, e)
    ensures |s.orders| <= |Do(s, e).next.orders|
    ensures |Do(s, e).next.rows| > |s.rows| ==> |s.orders| < |Do(s, e).next.orders|
  {
    if LooksUp(e) && e.found.Some? {
      RowStepsAddNothing(s, e, e.found.value);
    }
  }

  lemma StepKeepsOrders(s: State, e: Event)
    requires Honest(s, e) && RowsHaveOrders(s)
    ensures RowsHaveOrders(Do(s, e).next)
  {
    var after := Do(s, e).next;
    OrdersOnlyGrow(s, e);
    forall i | 0 <= i < |after.rows| ensures after.rows[i].order < |after.orders| {
      if i < |s.rows| {
        StepDriverStep(s, e, i);
        assert s.rows[i] in s.rows;
      } else {
        NewRowsAreFree(s, e, i);
      }
    }
  }

  lemma {:induction false} RunKeepsOrders(ws: seq<State>, es: seq<Event>, n: nat)
    requires IsRun(ws, es) && n <= |es|
    ensures RowsHaveOrders(ws[n])
  {
    if n > 0 {
      RunKeepsOrders(ws, es, n - 1);
      StepKeepsOrders(ws[n - 1], es[n - 1]);
    }
  }

  lemma NextStaysTogether(ws: seq<State>, es: seq<Event>, k: nat, o: OrderId)
    requires IsRun(ws, es) && k < |es| && KeepsFleet(es[k]) && Together(ws[k].rows, o)
    ensures Together(ws[k + 1].rows, o)
  {
    RunKeepsOrders(ws, es, k);
    StepKeepsTogether(ws[k], es[k], o);
    assert ws[k + 1] == Do(ws[k], es[k]).next;
  }

  /**
   From any moment of a run at which an order is together, say with no vehicle on the road, and as long
   as the steps are the ones of KeepsFleet, one vehicle in transit means that every vehicle of the order
   has arrived, left or finished.
   */
  lemma {:induction false} FleetStaysTogether(ws: seq<State>, es: seq<Event>, m: nat, n: nat, o: OrderId)
    requires IsRun(ws, es) && m <= n <= |es| && Together(ws[m].rows, o)
    requires forall k | m <= k < n :: KeepsFleet(es[k])
    ensures Together(ws[n].rows, o)
  {
    if n > m {
      FleetStaysTogether(ws, es, m, n - 1, o);
      NextStaysTogether(ws, es, n - 1, o);
    }
  }

  /** The steps outside the claim that rewrite a row without looking at its status. */
  predicate TakesBack(e: Event) {
    || e.OwnerReject? || e.AssignDriver? || e.OwnerRemoveDriver? || e.OwnerCancelVehicle?
    || e.DriverAccept? || e.DriverReject?
  }

  /** Such a step keeps the fleet together exactly when no other vehicle of the order is on the road. */
  lemma TakingBackKeepsTogetherIff(s: State, e: Event, i: nat)
    requires Honest(s, e) && TakesBack(e) && e.found == Some(i) && Do(s, e).failure.None?
    ensures Together(Do(s, e).next.rows, s.rows[i].order) <==> OthersOffRoad(s.rows, i, s.rows[i].order)
  {
    var after := Do(s, e).next.rows;
    assert after == s.rows[i := after[i]] && !Started(after[i].status);
    RewriteRow(s.rows, i, after[i], s.rows[i].order);
  }

  /** startTrip has no fleet check: it keeps the fleet together exactly when all the others have arrived. */
  lemma StartTripKeepsTogetherIff(s: State, i: nat, user: UserId, now: Time)
    requires i < |s.rows| && s.rows[i].driver == Some(user)
    ensures Together(DoStartTrip(s, i, user, now).next.rows, s.rows[i].order) <==>
            OthersStarted(s.rows, i, s.rows[i].order)
  {
    var after := DoStartTrip(s, i, user, now).next.rows;
    assert after == s.rows[i := after[i]];
    RewriteRow(s.rows, i, after[i], s.rows[i].order);
  }

  lemma RunGoesOn(ws: seq<State>, es: seq<Event>, e: Event)
    requires IsRun(ws, es) && Honest(ws[|es|], e)
    ensures IsRun(ws + [Do(ws[|es|], e).next], es + [e])
  {
    LongerRun(ws, es, e, Do(ws[|es|], e).next);
  }

  lemma LongerRun(ws: seq<State>, es: seq<Event>, e: Event, s: State)
    requires IsRun(ws, es) && Honest(ws[|es|], e) && s == Do(ws[|es|], e).next
    ensures IsRun(ws + [s], es + [e])
  {
    var more, events := ws + [s], es + [e];
    forall i | 0 <= i < |events| ensures Honest(more[i], events[i]) && more[i + 1] == Do(more[i], events[i]).next {
      assert more[i] == ws[i];
      if i < |es| {
        assert more[i + 1] == ws[i + 1] && events[i] == es[i];
      }
    }
  }

  lemma RunOfTwo() returns (ws: seq<State>, es: seq<Event>)
    ensures IsRun(ws, es) && |es| == 1 && ws[1].rows == [NewRow(0, 10, 1), NewRow(0, 11, 2)]
  {
    var place := Place(7, [(10, 1), (11, 2)], 0);
    RunGoesOn([State([], [], [])], [], place);
    ws, es := [State([], [], []), Do(State([], [], []), place).next], [place];
  }

  lemma RunOfTwoArrived() returns (ws: seq<State>, es: seq<Event>)
    ensures IsRun(ws, es) && |es| == 3 && |ws[3].rows| == 2
    ensures ws[3].rows[0] == NewRow(0, 10, 1).(
              status := Arrived, arrivedAt := Some(0), otp := Some("1234"), otpExpiresAt := Some(OTP_TTL))
    ensures IsMatch(ws[3].rows[1], 0, 11, Some(2)) && ws[3].rows[1].status == Arrived
  {
    ws, es := RunOfTwo();
    var first, second := Arrive(0, 10, "1234", 0, Some(0)), Arrive(0, 11, "5678", 0, Some(1));
    RunGoesOn(ws, es, first);
    ws, es := ws + [Do(ws[1], first).next], es + [first];
    RunGoesOn(ws, es, second);
    ws, es := ws + [Do(ws[2], second).next], es + [second];
  }

  lemma FirstIsVerified(s: State, verify: Event)
    requires verify == VerifyOtp(0, 10, "1234", 1, Some(0)) && |s.rows| == 2
    requires s.rows[0] == NewRow(0, 10, 1).(
               status := Arrived, arrivedAt := Some(0), otp := Some("1234"), otpExpiresAt := Some(OTP_TTL))
    requires s.rows[1].status == Arrived
    ensures Honest(s, verify)
    ensures Do(s, verify).next.rows == s.rows[0 := s.rows[0].(status := InTransit, startedAt := Some(1))]
  {
  }

  lemma RunOfOneOnTheRoad() returns (ws: seq<State>, es: seq<Event>)
    ensures IsRun(ws, es) && |es| == 4 && |ws[4].rows| == 2
    ensures ws[4].rows[0].order == 0 && ws[4].rows[0].status == InTransit
    ensures IsMatch(ws[4].rows[1], 0, 11, Some(2)) && ws[4].rows[1].status == Arrived
  {
    ws, es := RunOfTwoArrived();
    var verify := VerifyOtp(0, 10, "1234", 1, Some(0));
    FirstIsVerified(ws[3], verify);
    RunGoesOn(ws, es, verify);
    ws, es := ws + [Do(ws[3], verify).next], es + [verify];
  }

  /** A reachable order with one vehicle on the road, whose other owner then cancels. */
  lemma CancellingCanSplitTheFleet() returns (ws: seq<State>, es: seq<Event>)
    ensures IsRun(ws, es) && |es| == 5 && es[4].OwnerCancelVehicle? && Do(ws[4], es[4]).failure.None?
    ensures Together(ws[4].rows, 0) && !Together(ws[5].rows, 0)
  {
    ws, es := RunOfOneOnTheRoad();
    var cancel := OwnerCancelVehicle(0, 11, 2, "", Some(1));
    RunGoesOn(ws, es, cancel);
    TakingBackKeepsTogetherIff(ws[4], cancel, 1);
    ws, es := ws + [Do(ws[4], cancel).next], es + [cancel];
  }

  lemma RunOfOneAccepted() returns (ws: seq<State>, es: seq<Event>)
    ensures IsRun(ws, es) && |es| == 2 && |ws[2].rows| == 2
    ensures ws[2].rows[0] == NewRow(0, 10, 1).(driver := Some(5), status := DriverAccepted)
    ensures ws[2].rows[1] == NewRow(0, 11, 2)
  {
    ws, es := RunOfTwo();
    var accept := DriverAccept(0, 10, 5, Some(0));
    RunGoesOn(ws, es, accept);
    ws, es := ws + [Do(ws[1], accept).next], es + [accept];
  }

  /** A reachable vehicle that sits in the pool, waiting for a driver, with a driver assigned. */
  lemma PooledVehicleCanHaveADriver() returns (ws: seq<State>, es: seq<Event>)
    ensures IsRun(ws, es) && |es| == 3 && es[2] == AssignDriver(0, 10, "", None, {}, {}, Some(0))
    ensures Pooled(ws[3], 0)
    ensures ws[3].rows[0].status == DriverPending && ws[3].rows[0].driver == Some(5)
  {
    ws, es := RunOfOneAccepted();
    var assign := AssignDriver(0, 10, "", None, {}, {}, Some(0));
    RunGoesOn(ws, es, assign);
    ChoiceOfThePoolIff(ws[2], assign, 0);
    ws, es := ws + [Do(ws[2], assign).next], es + [assign];
  }

  lemma OneAcceptedOneSilent(s: State)
    requires |s.rows| == 2 && s.rows[1] == NewRow(0, 11, 2)
    requires s.rows[0] == NewRow(0, 10, 1).(driver := Some(5), status := DriverAccepted)
    ensures Together(s.rows, 0) && !OthersStarted(s.rows, 0, 0)
  {
  }

  /** A reachable order that startTrip splits: the second owner has not even answered. */
  lemma StartingCanSplitTheFleet() returns (ws: seq<State>, es: seq<Event>)
    ensures IsRun(ws, es) && |es| == 3 && es[2].StartTrip? && Do(ws[2], es[2]).failure.None?
    ensures Together(ws[2].rows, 0) && !Together(ws[3].rows, 0)
  {
    ws, es := RunOfOneAccepted();
    OneAcceptedOneSilent(ws[2]);
    var start := StartTrip(0, 5, 0);
    RunGoesOn(ws, es, start);
    StartTripKeepsTogetherIff(ws[2], 0, 5, 0);
    ws, es := ws + [Do(ws[2], start).next], es + [start];
  }

  // ---------------------------------------------------------------------------
  // An order completes with its last vehicle
  // ---------------------------------------------------------------------------

  predicate IsTripStep(e: Event) {
    e.Arrive? || e.VerifyOtp? || e.CompleteVehicleTrip?
  }

  predicate IsComplete(s: State, o: OrderId) {
    o < |s.orders| && s.orders[o].status == OrderCompleted && s.orders[o].visible == VisiblyCompleted
  }

  /** Of the three trip steps, only completing the last vehicle completes the order. */
  lemma TripStepCompletes(s: State, e: Event, o: OrderId)
    requires Honest(s, e) && IsTripStep(e) && o < |s.orders| && !IsComplete(s, o)
    ensures IsComplete(Do(s, e).next, o) <==>
            e.CompleteVehicleTrip? && e.order == o && e.found.Some? && AllComplete(Do(s, e).next.rows, o)
  {
  }

  /** Step j completes the last vehicle of the order. */
  predicate LastOne(ws: seq<State>, es: seq<Event>, j: nat, o: OrderId)
    requires j < |es| < |ws|
  {
    es[j].CompleteVehicleTrip? && es[j].order == o && es[j].found.Some? && AllComplete(ws[j + 1].rows, o)
  }

  ghost predicate CompletedBy(ws: seq<State>, m: nat, n: nat, o: OrderId)
    requires n < |ws|
  {
    exists k :: m <= k <= n && IsComplete(ws[k], o)
  }

  ghost predicate LastOneBy(ws: seq<State>, es: seq<Event>, m: nat, n: nat, o: OrderId)
    requires n <= |es| < |ws|
  {
    exists j :: m <= j < n && LastOne(ws, es, j, o)
  }

  lemma OneStepMore(ws: seq<State>, es: seq<Event>, m: nat, n: nat, o: OrderId)
    requires m < n <= |es| < |ws|
    ensures CompletedBy(ws, m, n, o) <==> CompletedBy(ws, m, n - 1, o) || IsComplete(ws[n], o)
    ensures LastOneBy(ws, es, m, n, o) <==> LastOneBy(ws, es, m, n - 1, o) || LastOne(ws, es, n - 1, o)
    ensures IsComplete(ws[n - 1], o) ==> CompletedBy(ws, m, n - 1, o)
  {
  }

  lemma NextCompletes(ws: seq<State>, es: seq<Event>, n: nat, o: OrderId)
    requires IsRun(ws, es) && n < |es| && IsTripStep(es[n]) && o < |ws[n].orders| && !IsComplete(ws[n], o)
    ensures IsComplete(ws[n + 1], o) <==> LastOne(ws, es, n, o)
  {
    assert ws[n + 1] == Do(ws[n], es[n]).next;
    TripStepCompletes(ws[n], es[n], o);
  }

  /** While the order is open, completing it is completing its last vehicle. */
  ghost predicate CompletesWithTheLast(ws: seq<State>, es: seq<Event>, k: nat, o: OrderId)
    requires k < |es| < |ws|
  {
    !IsComplete(ws[k], o) ==> (IsComplete(ws[k + 1], o) <==> LastOne(ws, es, k, o))
  }

  lemma {:induction false} CompletedWithTheLast(ws: seq<State>, es: seq<Event>, m: nat, n: nat, o: OrderId)
    requires m <= n <= |es| < |ws| && !IsComplete(ws[m], o)
    requires forall k | m <= k < n :: CompletesWithTheLast(ws, es, k, o)
    ensures CompletedBy(ws, m, n, o) <==> LastOneBy(ws, es, m, n, o)
  {
    if n > m {
      CompletedWithTheLast(ws, es, m, n - 1, o);
      OneStepMore(ws, es, m, n, o);
      assert CompletesWithTheLast(ws, es, n - 1, o);
    }
  }

  /** In a run of trip steps an open order has been completed exactly when, and never before, a last vehicle was. */
  lemma OrderCompletesWithItsLastVehicle(ws: seq<State>, es: seq<Event>, m: nat, n: nat, o: OrderId)
    requires IsRun(ws, es) && m <= n <= |es| && o < |ws[m].orders| && !IsComplete(ws[m], o)
    requires forall k | m <= k < n :: IsTripStep(es[k])
    ensures CompletedBy(ws, m, n, o) <==> LastOneBy(ws, es, m, n, o)
  {
    forall k | m <= k < n ensures CompletesWithTheLast(ws, es, k, o) {
      OrdersStay(ws, es, m, k, o);
      if !IsComplete(ws[k], o) {
        NextCompletes(ws, es, k, o);
      }
    }
    CompletedWithTheLast(ws, es, m, n, o);
  }

  lemma StepInRunGrows(ws: seq<State>, es: seq<Event>, k: nat)
    requires IsRun(ws, es) && k < |es|
    ensures |ws[k].orders| <= |ws[k + 1].orders|
  {
    OrdersOnlyGrow(ws[k], es[k]);
  }

  lemma {:induction false} SizesStay(ws: seq<State>, m: nat, n: nat)
    requires m <= n < |ws| && forall k | m <= k < n :: |ws[k].orders| <= |ws[k + 1].orders|
    ensures |ws[m].orders| <= |ws[n].orders|
  {
    if n > m {
      SizesStay(ws, m, n - 1);
      assert |ws[n - 1].orders| <= |ws[n - 1 + 1].orders|;
    }
  }

  lemma OrdersStay(ws: seq<State>, es: seq<Event>, m: nat, n: nat, o: OrderId)
    requires IsRun(ws, es) && m <= n <= |es| && o < |ws[m].orders|
    ensures o < |ws[n].orders|
  {
    forall k | m <= k < n ensures |ws[k].orders| <= |ws[k + 1].orders| {
      StepInRunGrows(ws, es, k);
    }
    SizesStay(ws, m, n);
  }
}
