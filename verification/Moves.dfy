/**
 Fleet field by field: which steps write the status, the driver, the stamps and the reason of a vehicle's
 row, and the status and payment of an order, each under its own guard. A second account of the steps,
 proved to agree with the first; over all runs a row has the status of the latest step that wrote one.
 */
module Moves {
  import opened Wrappers
  import opened Calendar
  import opened Fleet
  import opened Trips

  // ---------------------------------------------------------------------------
  // A vehicle's row
  // ---------------------------------------------------------------------------

  /** The owner has not answered yet and takes the trip, alone or with a driver it trusts. */
  predicate OwnerAgrees(row: Row, preference: string, driver: Option<UserId>, trust: Trust) {
    && row.status == PendingOwnerResponse
    && (|| preference == "" || preference == OWNER_AS_DRIVER
        || (preference == TRUSTED_DRIVER && driver.Some? && (row.owner, driver.value) in trust))
  }

  /** The assignment is not refused: not the pool by name, and a trusted driver twice found trusted. */
  predicate Assigns(row: Row, assignment: string, driver: Option<UserId>, trust: Trust, again: Trust) {
    && assignment != PLATFORM_POOL
    && (assignment == TRUSTED_DRIVER ==>
          (row.owner, driver.GetOr(DEFAULT_DRIVER)) in trust && (row.owner, driver.GetOr(DEFAULT_DRIVER)) in again)
  }

  /** Nobody accepted yet, and the row is the driver's or nobody's. */
  predicate DriverMay(row: Row, user: UserId) {
    row.status != DriverAccepted && (row.driver.None? || row.driver == Some(user))
  }

  predicate OnRowOf(e: Event, i: nat) {
    LooksUp(e) && e.found == Some(i)
  }

  /** The status the step writes to row i, if any. */
  function StatusInto(s: State, e: Event, i: nat): Option<Status>
    requires i < |s.rows|
  {
    var row := s.rows[i];
    if LooksUp(e) then if OnRowOf(e, i) then StatusOnRow(s, e, i) else None
    else
      match e
      case StartTrip(_, _, _) => if Starts(s, e, i) then Some(InTransit) else None
      case CompleteOrder(o, _) => if row.order == o < |s.orders| then Some(Completed) else None
      case CompletePayment(o, passenger, _) => if row.order == o && Owns(s, o, passenger) then Some(Completed) else None
      case Expire(_, now, timeout) =>
        if row.status == PendingOwnerResponse && IsStale(s, row.order, now - timeout) then Some(OwnerRejected) else None
      case _ => None
  }

  function StatusOnRow(s: State, e: Event, i: nat): Option<Status>
    requires i < |s.rows| && LooksUp(e)
  {
    var row := s.rows[i];
    match e
    case OwnerAccept(_, _, _, preference, driver, trust, _) =>
      if OwnerAgrees(row, preference, driver, trust) then Some(DriverAccepted) else None
    case OwnerReject(_, _, _, _, _) => Some(OwnerRejected)
    case AssignDriver(_, _, assignment, driver, trust, again, _) =>
      if !Assigns(row, assignment, driver, trust, again) then None
      else Some(if assignment == OWNER_AS_DRIVER then DriverAccepted else DriverPending)
    case OwnerRemoveDriver(_, _, owner, _) => if owner == row.owner then Some(PendingOwnerResponse) else None
    case OwnerCancelVehicle(_, _, _, _, _) => Some(OwnerCancelled)
    case DriverAccept(_, _, user, _) => if DriverMay(row, user) then Some(DriverAccepted) else None
    case DriverReject(_, _, _, _, _) => Some(DriverRejected)
    case Arrive(_, _, _, _, _) => Some(Arrived)
    case VerifyOtp(_, _, otp, now, _) =>
      if Verifies(s, e, i) && CodePasses(row, otp, now) then Some(InTransit) else None
    case CompleteVehicleTrip(_, _, _, _) => Some(Completed)
    case PayBalance(o, _, passenger, _, _) => if Owns(s, o, passenger) then Some(Completed) else None
  }

  /** The driver and the type of the assignment that the step writes to row i, if any. */
  function DriverInto(s: State, e: Event, i: nat): Option<(Option<UserId>, Option<Kind>)>
    requires i < |s.rows|
  {
    var row := s.rows[i];
    if !OnRowOf(e, i) then None
    else
      match e
      case OwnerAccept(_, _, _, preference, driver, trust, _) =>
        if !OwnerAgrees(row, preference, driver, trust) then None
        else if preference == TRUSTED_DRIVER then Some((driver, Some(TrustedDriver)))
        else Some((Some(row.owner), Some(OwnerAsDriver)))
      case AssignDriver(_, _, assignment, driver, trust, again, _) =>
        if !Assigns(row, assignment, driver, trust, again) then None
        else if assignment == OWNER_AS_DRIVER then Some((Some(row.owner), Some(OwnerAsDriver)))
        else if assignment == TRUSTED_DRIVER then Some((Some(driver.GetOr(DEFAULT_DRIVER)), Some(TrustedDriver)))
        else Some((row.driver, Some(PlatformPool)))
      case OwnerRemoveDriver(_, _, owner, _) => if owner == row.owner then Some((None, None)) else None
      case DriverAccept(_, _, user, _) => if DriverMay(row, user) then Some((Some(user), row.kind)) else None
      case _ => None
  }

  /** The stamps tell when the row last arrived, left and finished. */
  predicate Stamped(row: Row, into: Option<Status>, now: Time, after: Row) {
    && after.arrivedAt == (if into == Some(Arrived) then Some(now) else row.arrivedAt)
    && after.startedAt == (if into == Some(InTransit) then Some(now) else row.startedAt)
    && after.completedAt == (if into == Some(Completed) then Some(now) else row.completedAt)
  }

  function TimeOf(e: Event): Time {
    match e
    case Arrive(_, _, _, now, _) => now
    case VerifyOtp(_, _, _, now, _) => now
    case CompleteVehicleTrip(_, _, now, _) => now
    case StartTrip(_, _, now) => now
    case PayBalance(_, _, _, now, _) => now
    case CompleteOrder(_, now) => now
    case CompletePayment(_, _, now) => now
    case _ => 0
  }

  /** A refusing owner or driver leaves a reason: the one given, or else a default one. */
  predicate Reasoned(row: Row, e: Event, i: nat, after: Row) {
    if OnRowOf(e, i) && (e.OwnerReject? || e.OwnerCancelVehicle? || e.DriverReject?)
    then after.reason != "" && (e.reason != "" ==> after.reason == e.reason)
    else after.reason == row.reason
  }

  /** All that a step does to a row that was there, but for proxy number, code and attempts. */
  predicate Moved(s: State, e: Event, i: nat, after: Row)
    requires i < |s.rows|
  {
    var row, status, driver := s.rows[i], StatusInto(s, e, i), DriverInto(s, e, i);
    && after.order == row.order && after.vehicle == row.vehicle && after.owner == row.owner
    && after.status == status.GetOr(row.status)
    && after.driver == (if driver.Some? then driver.value.0 else row.driver)
    && after.kind == (if driver.Some? then driver.value.1 else row.kind)
    && Stamped(row, status, TimeOf(e), after) && Reasoned(row, e, i, after)
  }

  /** Handlers on one row leave the other rows alone. */
  lemma OthersUnmoved(s: State, e: Event, k: nat, i: nat)
    requires Honest(s, e) && LooksUp(e) && e.found == Some(k) && i < |s.rows| && i != k
    ensures |OnRow(s, k, e).next.rows| == |s.rows| && OnRow(s, k, e).next.rows[i] == s.rows[i]
  {
  }

  lemma AcceptMoves(s: State, e: Event, k: nat)
    requires Honest(s, e) && e.OwnerAccept? && e.found == Some(k)
    ensures |OnRow(s, k, e).next.rows| == |s.rows| && Moved(s, e, k, OnRow(s, k, e).next.rows[k])
  {
  }

  lemma AssignMoves(s: State, e: Event, k: nat)
    requires Honest(s, e) && e.AssignDriver? && e.found == Some(k)
    ensures |OnRow(s, k, e).next.rows| == |s.rows| && Moved(s, e, k, OnRow(s, k, e).next.rows[k])
  {
  }

  lemma RowMoves(s: State, e: Event, k: nat)
    requires Honest(s, e) && LooksUp(e) && e.found == Some(k)
    ensures |OnRow(s, k, e).next.rows| == |s.rows| && Moved(s, e, k, OnRow(s, k, e).next.rows[k])
  {
    if e.OwnerAccept? {
      AcceptMoves(s, e, k);
    } else if e.AssignDriver? {
      AssignMoves(s, e, k);
    }
  }

  lemma ClosingMoves(s: State, e: Event, i: nat)
    requires Honest(s, e) && (e.CompleteOrder? || e.CompletePayment?) && i < |s.rows|
    ensures |Do(s, e).next.rows| == |s.rows| && Moved(s, e, i, Do(s, e).next.rows[i])
  {
  }

  lemma ExpiryMoves(s: State, e: Event, i: nat)
    requires Honest(s, e) && e.Expire? && i < |s.rows|
    ensures |Do(s, e).next.rows| == |s.rows| && Moved(s, e, i, Do(s, e).next.rows[i])
  {
  }

  lemma BulkMoves(s: State, e: Event, i: nat)
    requires Honest(s, e) && !LooksUp(e) && i < |s.rows|
    ensures i < |Do(s, e).next.rows| && Moved(s, e, i, Do(s, e).next.rows[i])
  {
    if e.CompleteOrder? || e.CompletePayment? {
      ClosingMoves(s, e, i);
    } else if e.Expire? {
      ExpiryMoves(s, e, i);
    }
  }

  /** Every step writes of every row exactly what the tables above say. */
  lemma StepMoves(s: State, e: Event, i: nat)
    requires Honest(s, e) && i < |s.rows|
    ensures i < |Do(s, e).next.rows| && Moved(s, e, i, Do(s, e).next.rows[i])
  {
    if !LooksUp(e) {
      BulkMoves(s, e, i);
    } else if e.found == Some(i) {
      RowMoves(s, e, i);
    } else if e.found.Some? {
      OthersUnmoved(s, e, e.found.value, i);
    }
  }

  /** A handler that finds its row succeeds exactly when it writes a status. */
  lemma RefusedIff(s: State, e: Event, i: nat)
    requires Honest(s, e) && OnRowOf(e, i)
    ensures Do(s, e).failure.None? <==> StatusInto(s, e, i).Some?
  {
  }

  // ---------------------------------------------------------------------------
  // The status of a row over a run
  // ---------------------------------------------------------------------------

  predicate Writes(s: State, e: Event, i: nat) {
    i < |s.rows| && StatusInto(s, e, i).Some?
  }

  /** The step's status if it writes one, the old one if not, and at first waiting for the owner. */
  predicate StatusAt(ws: seq<State>, es: seq<Event>, k: nat, i: nat)
    requires k < |es| < |ws|
  {
    i < |ws[k + 1].rows| ==>
      ws[k + 1].rows[i].status ==
      if Writes(ws[k], es[k], i) then StatusInto(ws[k], es[k], i).value
      else if i < |ws[k].rows| then ws[k].rows[i].status
      else PendingOwnerResponse
  }

  lemma RowsNeverGo(s: State, e: Event)
    requires Honest(s, e)
    ensures |s.rows| <= |Do(s, e).next.rows|
  {
    if |s.rows| > 0 {
      StepDriverStep(s, e, 0);
    }
  }

  lemma NextStatus(ws: seq<State>, es: seq<Event>, k: nat, i: nat)
    requires IsRun(ws, es) && k < |es|
    ensures StatusAt(ws, es, k, i) && |ws[k].rows| <= |ws[k + 1].rows|
  {
    RowsNeverGo(ws[k], es[k]);
    if i < |ws[k].rows| {
      StepMoves(ws[k], es[k], i);
    } else if i < |ws[k + 1].rows| {
      NewRowsAreFree(ws[k], es[k], i);
    }
  }

  /** Step j is the latest of the first n to write a status to row i. */
  predicate LatestWrite(ws: seq<State>, es: seq<Event>, j: nat, n: nat, i: nat)
    requires n <= |es| < |ws|
  {
    j < n && Writes(ws[j], es[j], i) && forall k | j < k < n :: !Writes(ws[k], es[k], i)
  }

  ghost predicate HasLatestStatus(ws: seq<State>, es: seq<Event>, n: nat, i: nat)
    requires n <= |es| < |ws| && i < |ws[n].rows|
  {
    if forall k | 0 <= k < n :: !Writes(ws[k], es[k], i) then ws[n].rows[i].status == PendingOwnerResponse
    else exists j: nat ::
           LatestWrite(ws, es, j, n, i) && Some(ws[n].rows[i].status) == StatusInto(ws[j], es[j], i)
  }

  lemma {:induction false} LatestStatusOf(ws: seq<State>, es: seq<Event>, n: nat, i: nat)
    requires n <= |es| < |ws| && |ws[0].rows| <= i < |ws[n].rows|
    requires forall k | 0 <= k < n :: StatusAt(ws, es, k, i) && |ws[k].rows| <= |ws[k + 1].rows|
    ensures HasLatestStatus(ws, es, n, i)
  {
    if n > 0 {
      assert StatusAt(ws, es, n - 1, i);
      if Writes(ws[n - 1], es[n - 1], i) {
        assert LatestWrite(ws, es, n - 1, n, i);
      } else if i < |ws[n - 1].rows| {
        LatestStatusOf(ws, es, n - 1, i);
        StillLatest(ws, es, n, i);
      } else {
        NothingWritten(ws, es, n - 1, i);
      }
    }
  }

  lemma {:induction false} NothingWritten(ws: seq<State>, es: seq<Event>, n: nat, i: nat)
    requires n <= |es| < |ws| && |ws[n].rows| <= i && forall k | 0 <= k < n :: |ws[k].rows| <= |ws[k + 1].rows|
    ensures forall k | 0 <= k < n :: !Writes(ws[k], es[k], i)
  {
    if n > 0 {
      assert |ws[n - 1].rows| <= |ws[n - 1 + 1].rows|;
      NothingWritten(ws, es, n - 1, i);
    }
  }

  lemma StillLatest(ws: seq<State>, es: seq<Event>, n: nat, i: nat)
    requires 0 < n <= |es| < |ws| && i < |ws[n - 1].rows| && i < |ws[n].rows|
    requires HasLatestStatus(ws, es, n - 1, i) && !Writes(ws[n - 1], es[n - 1], i)
    requires ws[n].rows[i].status == ws[n - 1].rows[i].status
    ensures HasLatestStatus(ws, es, n, i)
  {
    if exists k :: 0 <= k < n - 1 && Writes(ws[k], es[k], i) {
      var j: nat :| LatestWrite(ws, es, j, n - 1, i)
        && Some(ws[n - 1].rows[i].status) == StatusInto(ws[j], es[j], i);
      assert LatestWrite(ws, es, j, n, i);
    }
  }

  /** In every run a row has the status of the latest step that wrote one, and waits for its owner before. */
  lemma StatusIsTheLatest(ws: seq<State>, es: seq<Event>, n: nat, i: nat)
    requires IsRun(ws, es) && n <= |es| && i < |ws[n].rows|
    ensures HasLatestStatus(ws, es, n, i)
  {
    forall k | 0 <= k < n ensures StatusAt(ws, es, k, i) && |ws[k].rows| <= |ws[k + 1].rows| {
      NextStatus(ws, es, k, i);
    }
    LatestStatusOf(ws, es, n, i);
  }

  // ---------------------------------------------------------------------------
  // An order
  // ---------------------------------------------------------------------------

  predicate AboutOrder(s: State, e: Event, o: OrderId)
    requires Honest(s, e)
  {
    LooksUp(e) && e.order == o && e.found.Some?
  }

  /** The statuses the step writes to order o, if any. None of the guards reads the status it has. */
  function OrderInto(s: State, e: Event, o: OrderId): Option<(OrderStatus, Visible)>
    requires Honest(s, e) && o < |s.orders|
  {
    match e
    case OwnerAccept(_, _, _, preference, driver, trust, _) =>
      if AboutOrder(s, e, o) && OwnerAgrees(s.rows[e.found.value], preference, driver, trust)
      then Some((DriverAssigned, AwaitingPayment)) else None
    case DriverAccept(_, _, user, _) =>
      if AboutOrder(s, e, o) && DriverMay(s.rows[e.found.value], user)
      then Some((DriverAssigned, AwaitingPayment)) else None
    case VerifyOtp(_, _, otp, now, _) =>
      if AboutOrder(s, e, o) && Verifies(s, e, e.found.value) && CodePasses(s.rows[e.found.value], otp, now)
      then Some((OrderInTransit, VisiblyInTransit)) else None
    case StartTrip(row, _, _) =>
      if Starts(s, e, row) && s.rows[row].order == o then Some((OrderInTransit, VisiblyInTransit)) else None
    case CompleteVehicleTrip(_, _, _, _) =>
      if AboutOrder(s, e, o) && OthersComplete(s.rows, e.found.value, o)
      then Some((OrderCompleted, VisiblyCompleted)) else None
    case CompleteOrder(order, _) => if order == o then Some((OrderCompleted, VisiblyCompleted)) else None
    case CompletePayment(order, passenger, _) =>
      if order == o && s.orders[o].passenger == passenger then Some((OrderCompleted, VisiblyCompleted)) else None
    case ConfirmPayment(order) =>
      if order == o && !s.orders[o].paid then Some((Confirmed, VisiblyCompleted)) else None
    case Expire(_, now, timeout) =>
      if s.orders[o].status == OwnerPending && s.orders[o].createdAt < now - timeout
      then Some((OrderCancelled, VisiblyCancelled)) else None
    case PassengerCancelOrder(order) => if order == o then Some((OrderCancelled, VisiblyCancelled)) else None
    case UpdateBookingStatus(order, status, visible) => if order == o then Some((status, visible)) else None
    case _ => None
  }

  predicate OthersComplete(rows: seq<Row>, i: nat, o: OrderId) {
    forall j | 0 <= j < |rows| && j != i :: rows[j].order == o ==> rows[j].status == Completed
  }

  /** Confirming the payment, paying a balance and paying the rest each mark the order paid. */
  predicate Pays(s: State, e: Event, o: OrderId)
    requires Honest(s, e) && o < |s.orders|
  {
    match e
    case ConfirmPayment(order) => order == o
    case PayBalance(order, _, passenger, _, found) => order == o && s.orders[o].passenger == passenger && found.Some?
    case CompletePayment(order, passenger, _) => order == o && s.orders[o].passenger == passenger
    case _ => false
  }

  lemma LastOfAll(rows: seq<Row>, i: nat, row: Row, o: OrderId)
    requires i < |rows| && rows[i].order == o && row.order == o && row.status == Completed
    ensures AllComplete(rows[i := row], o) <==> OthersComplete(rows, i, o)
  {
    var out := rows[i := row];
    assert forall j | 0 <= j < |rows| && j != i :: out[j] == rows[j] && out[j] in out;
    assert forall r <- out :: r == row || exists j :: 0 <= j < |rows| && j != i && rows[j] == r;
  }

  predicate OrderMoved(s: State, e: Event, o: OrderId, after: Order)
    requires Honest(s, e) && o < |s.orders|
  {
    var was, into := s.orders[o], OrderInto(s, e, o);
    && after.passenger == was.passenger && after.createdAt == was.createdAt
    && after.paid == (was.paid || Pays(s, e, o))
    && after.status == (if into.Some? then into.value.0 else was.status)
    && after.visible == (if into.Some? then into.value.1 else was.visible)
  }

  /** Steps about another order's row, or about none, leave the order alone. */
  lemma OtherOrdersUnmoved(s: State, e: Event, o: OrderId)
    requires Honest(s, e) && LooksUp(e) && !AboutOrder(s, e, o) && o < |s.orders|
    ensures |Do(s, e).next.orders| == |s.orders| && Do(s, e).next.orders[o] == s.orders[o]
  {
  }

  lemma RowStepMovesOrder(s: State, e: Event, o: OrderId)
    requires Honest(s, e) && LooksUp(e) && AboutOrder(s, e, o) && o < |s.orders|
    ensures |Do(s, e).next.orders| == |s.orders| && OrderMoved(s, e, o, Do(s, e).next.orders[o])
  {
    if e.CompleteVehicleTrip? {
      var i := e.found.value;
      LastOfAll(s.rows, i, s.rows[i].(status := Completed, completedAt := Some(e.now)), o);
    } else if e.OwnerAccept? {
      AcceptMovesOrder(s, e, o);
    }
  }

  lemma AcceptMovesOrder(s: State, e: Event, o: OrderId)
    requires Honest(s, e) && e.OwnerAccept? && AboutOrder(s, e, o) && o < |s.orders|
    ensures |Do(s, e).next.orders| == |s.orders| && OrderMoved(s, e, o, Do(s, e).next.orders[o])
  {
  }

  lemma ExpiryMovesOrder(s: State, e: Event, o: OrderId)
    requires Honest(s, e) && e.Expire? && o < |s.orders|
    ensures |Do(s, e).next.orders| == |s.orders| && OrderMoved(s, e, o, Do(s, e).next.orders[o])
  {
  }

  lemma ClosingMovesOrder(s: State, e: Event, o: OrderId)
    requires Honest(s, e) && (e.CompleteOrder? || e.CompletePayment? || e.ConfirmPayment?) && o < |s.orders|
    ensures |Do(s, e).next.orders| == |s.orders| && OrderMoved(s, e, o, Do(s, e).next.orders[o])
  {
  }

  lemma BulkMovesOrder(s: State, e: Event, o: OrderId)
    requires Honest(s, e) && !LooksUp(e) && o < |s.orders|
    ensures o < |Do(s, e).next.orders| && OrderMoved(s, e, o, Do(s, e).next.orders[o])
  {
    if e.Expire? {
      ExpiryMovesOrder(s, e, o);
    } else if e.CompleteOrder? || e.CompletePayment? || e.ConfirmPayment? {
      ClosingMovesOrder(s, e, o);
    }
  }

  /** Every step writes of every order exactly what the tables above say. */
  lemma StepMovesOrder(s: State, e: Event, o: OrderId)
    requires Honest(s, e) && o < |s.orders|
    ensures o < |Do(s, e).next.orders| && OrderMoved(s, e, o, Do(s, e).next.orders[o])
  {
    if !LooksUp(e) {
      BulkMovesOrder(s, e, o);
    } else if AboutOrder(s, e, o) {
      RowStepMovesOrder(s, e, o);
    } else {
      OtherOrdersUnmoved(s, e, o);
    }
  }

  /** A new order waits for its owners, with one row for each vehicle, all waiting and without a driver. */
  lemma PlaceAdds(s: State, e: Event)
    requires e.Place?
    ensures
      var after, n := Do(s, e).next, |s.rows|;
      && after.orders == s.orders + [Order(e.passenger, OwnerPending, RequestSent, false, e.now)]
      && |after.rows| == n + |e.vehicles| && after.rows[..n] == s.rows
      && (forall k | 0 <= k < |e.vehicles| ::
            && after.rows[n + k].order == |s.orders|
            && after.rows[n + k].vehicle == e.vehicles[k].0 && after.rows[n + k].owner == e.vehicles[k].1
            && after.rows[n + k].status == PendingOwnerResponse && after.rows[n + k].driver.None?)
      && after.timeline == s.timeline + [Entry(|s.orders|, "REQUEST_SENT")]
  {
  }

  /** The timeline entries a step adds. An accepting owner leaves two, or one if the preference is unknown. */
  function Logged(s: State, e: Event): seq<Entry>
    requires Honest(s, e)
  {
    match e
    case Place(_, _, _) => [Entry(|s.orders|, "REQUEST_SENT")]
    case OwnerAccept(o, _, _, preference, driver, trust, found) =>
      if found.None? || s.rows[found.value].status != PendingOwnerResponse || preference == PLATFORM_POOL then []
      else if OwnerAgrees(s.rows[found.value], preference, driver, trust) then
        [Entry(o, "OWNER_ACCEPTED"), Entry(o, "DRIVER_ACCEPTED")]
      else if preference == TRUSTED_DRIVER then []
      else [Entry(o, "OWNER_ACCEPTED")]
    case OwnerReject(o, _, _, _, found) => if found.None? then [] else [Entry(o, "OWNER_REJECTED")]
    case ConfirmPayment(o) => if o < |s.orders| && !s.orders[o].paid then [Entry(o, "PAYMENT_CONFIRMED")] else []
    case PayBalance(o, _, passenger, _, found) =>
      if found.Some? && Owns(s, o, passenger) then [Entry(o, "BALANCE_PAID")] else []
    case CompletePayment(o, passenger, _) => if Owns(s, o, passenger) then [Entry(o, "BALANCE_PAID")] else []
    case Expire(stale, _, _) => seq(|stale|, k requires 0 <= k < |stale| => Entry(stale[k], "EXPIRED"))
    case _ => []
  }

  lemma AcceptLogs(s: State, e: Event)
    requires Honest(s, e) && e.OwnerAccept?
    ensures Do(s, e).next.timeline == s.timeline + Logged(s, e)
  {
  }

  lemma RowStepLogs(s: State, e: Event)
    requires Honest(s, e) && LooksUp(e) && !e.OwnerAccept?
    ensures Do(s, e).next.timeline == s.timeline + Logged(s, e)
  {
  }

  /** Every step appends these entries and no others. */
  lemma StepLogs(s: State, e: Event)
    requires Honest(s, e)
    ensures Do(s, e).next.timeline == s.timeline + Logged(s, e)
  {
    if e.OwnerAccept? {
      AcceptLogs(s, e);
    } else if LooksUp(e) {
      RowStepLogs(s, e);
    }
  }
}
